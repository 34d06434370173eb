// What the partially observed procedure guarantees, for all batches and all families.
module FdrTheorems {
  import opened Reals
  import opened Sequences
  import opened Anomalies
  import opened Fdr

  // ----- against the exact procedure -----

  lemma MoreTestsSupportMore(ps: seq<real>, more: seq<real>, m: nat, t: real, k: int)
    requires m > 0 && Supported(ps, m, t, k)
    ensures Supported(ps + more, m, t, k)
  {
    CountConcat(AtMost(CriticalValue(k, m, t)), ps, more);
  }

  // What passes with only the fired tests observed is accepted by the textbook procedure on
  // the whole family, whatever the p-values not observed.
  lemma PassingIsAccepted(fired: seq<real>, unobserved: seq<real>, q: seq<real>, t: real, p: real)
    requires t >= 0.0 && p in fired
    requires Ascending(q) && multiset(q) == multiset(fired + unobserved)
    ensures Passes(fired, |fired| + |unobserved|, t, p) ==> Textbook(q, t, p)
  {
    var m := |fired| + |unobserved|;
    if Passes(fired, m, t, p) {
      var k :| Supported(fired, m, t, k) && p <= CriticalValue(k, m, t);
      MoreTestsSupportMore(fired, unobserved, m, t, k);
      assert p in fired + unobserved;
      TextbookIsPasses(q, fired + unobserved, t, p);
    }
  }

  lemma {:induction false} NothingBelow(c: real, ps: seq<real>)
    requires forall i :: 0 <= i < |ps| ==> ps[i] > c
    ensures Count(AtMost(c), ps) == 0
  {
    if ps != [] {
      NothingBelow(c, ps[..|ps| - 1]);
    }
  }

  // Tests whose p-value exceeds the target support nothing.
  lemma LargeTestsDoNotSupport(ps: seq<real>, large: seq<real>, t: real, k: int)
    requires t >= 0.0 && forall i :: 0 <= i < |large| ==> large[i] > t
    requires ps + large != [] && Supported(ps + large, |ps + large|, t, k)
    ensures Supported(ps, |ps + large|, t, k)
  {
    var m := |ps + large|;
    var c := CriticalValue(k, m, t);
    CriticalGrows(k, m, m, t);
    SelfQuotient(m as real);
    assert CriticalValue(m, m, t) == t;
    CountConcat(AtMost(c), ps, large);
    NothingBelow(c, large);
    CountBounds(AtMost(c), ps);
  }

  // The two agree on the fired tests when no unobserved p-value is at or below the target.
  lemma PassingIsExact(fired: seq<real>, unobserved: seq<real>, q: seq<real>, t: real, p: real)
    requires t >= 0.0 && p in fired
    requires forall i :: 0 <= i < |unobserved| ==> unobserved[i] > t
    requires Ascending(q) && multiset(q) == multiset(fired + unobserved)
    ensures Passes(fired, |fired| + |unobserved|, t, p) <==> Textbook(q, t, p)
  {
    var m := |fired| + |unobserved|;
    PassingIsAccepted(fired, unobserved, q, t, p);
    if Textbook(q, t, p) {
      assert p in fired + unobserved;
      TextbookIsPasses(q, fired + unobserved, t, p);
      var k :| Supported(fired + unobserved, m, t, k) && p <= CriticalValue(k, m, t);
      LargeTestsDoNotSupport(fired, unobserved, t, k);
    }
  }

  // ----- the same of what the filter returns -----

  // q holds, in ascending order, the p-values of the whole family: of the adaptive
  // anomalies of the batch and of the tests that are not observed.
  ghost predicate WholeFamily(q: seq<real>, pvalue: real -> real, anomalies: seq<Anomaly>, totalTests: int,
                              unobserved: seq<real>) {
    && Ascending(q)
    && multiset(q) == multiset(PValues(pvalue, Fired(anomalies)) + unobserved)
    && |Fired(anomalies)| + |unobserved| ==
       (if totalTests < |Fired(anomalies)| then |Fired(anomalies)| else totalTests)
  }

  lemma FiredIs(anomalies: seq<Anomaly>, a: Anomaly)
    ensures a in Fired(anomalies) <==> a.detector.Adaptive? && a in anomalies
  {
    FilterMultiset(IsAdaptive(), anomalies, a);
    assert a in Fired(anomalies) <==> a in multiset(Fired(anomalies));
    assert a in anomalies <==> a in multiset(anomalies);
  }

  lemma PValueIsListed(pvalue: real -> real, fired: seq<Anomaly>, a: Anomaly)
    requires a in fired
    ensures pvalue(a.zSq) in PValues(pvalue, fired)
  {
    var i :| 0 <= i < |fired| && fired[i] == a;
    assert PValues(pvalue, fired)[i] == pvalue(a.zSq);
  }

  // Below target one an adaptive anomaly of the batch is returned exactly when it passes.
  lemma SurvivesIff(t: real, pvalue: real -> real, anomalies: seq<Anomaly>, totalTests: int, a: Anomaly)
    requires t < 1.0 && a.detector.Adaptive? && a in anomalies
    ensures FamilySize(anomalies, totalTests) > 0
    ensures a in Surviving(t, pvalue, anomalies, totalTests) <==>
            Passes(PValues(pvalue, Fired(anomalies)), FamilySize(anomalies, totalTests), t, pvalue(a.zSq))
  {
    var fired, m := Fired(anomalies), FamilySize(anomalies, totalTests);
    FiredIs(anomalies, a);
    FilterMultiset(SparedAmong(pvalue, fired, m, t), anomalies, a);
    var left := Surviving(t, pvalue, anomalies, totalTests);
    assert a in left <==> a in multiset(left);
    assert a in multiset(anomalies);
    assert SparedAmong(pvalue, fired, m, t)(a) <==> PassesAmong(pvalue, fired, m, t)(a);
  }

  // With target one or more the textbook procedure accepts the whole family, too.
  lemma TextbookAcceptsAll(q: seq<real>, t: real, p: real)
    requires t >= 1.0 && Ascending(q) && p in q && forall i :: 0 <= i < |q| ==> q[i] <= 1.0
    ensures Textbook(q, t, p)
  {
    var m := |q|;
    ProductMonotone(q[m - 1], t, m as real);
    assert t * m as real == m as real * t;
    assert IsCutoff(q, t, m) && p <= q[m - 1];
  }

  lemma FamilyHolds(q: seq<real>, pvalue: real -> real, anomalies: seq<Anomaly>, totalTests: int,
                    unobserved: seq<real>, a: Anomaly)
    requires WholeFamily(q, pvalue, anomalies, totalTests, unobserved) && a.detector.Adaptive? && a in anomalies
    ensures pvalue(a.zSq) in PValues(pvalue, Fired(anomalies)) && pvalue(a.zSq) in q
  {
    FiredIs(anomalies, a);
    PValueIsListed(pvalue, Fired(anomalies), a);
    assert pvalue(a.zSq) in multiset(PValues(pvalue, Fired(anomalies)) + unobserved);
    assert pvalue(a.zSq) in multiset(q);
  }

  // Never looser: an adaptive anomaly that is returned is accepted by the textbook procedure
  // on the whole family, whatever the p-values not observed.
  lemma NeverLooser(t: real, pvalue: real -> real, anomalies: seq<Anomaly>, totalTests: int,
                    unobserved: seq<real>, q: seq<real>, a: Anomaly)
    requires t >= 0.0 && WholeFamily(q, pvalue, anomalies, totalTests, unobserved)
    requires t >= 1.0 ==> forall i :: 0 <= i < |q| ==> q[i] <= 1.0
    requires a.detector.Adaptive? && a in anomalies
    ensures a in Surviving(t, pvalue, anomalies, totalTests) ==> Textbook(q, t, pvalue(a.zSq))
  {
    FamilyHolds(q, pvalue, anomalies, totalTests, unobserved, a);
    if t >= 1.0 {
      TextbookAcceptsAll(q, t, pvalue(a.zSq));
    } else {
      SurvivesIff(t, pvalue, anomalies, totalTests, a);
      PassingIsAccepted(PValues(pvalue, Fired(anomalies)), unobserved, q, t, pvalue(a.zSq));
    }
  }

  // Exact, when no unobserved p-value is at or below the target.
  lemma ExactWhenOthersAreLarge(t: real, pvalue: real -> real, anomalies: seq<Anomaly>, totalTests: int,
                                unobserved: seq<real>, q: seq<real>, a: Anomaly)
    requires t >= 0.0 && WholeFamily(q, pvalue, anomalies, totalTests, unobserved)
    requires forall i :: 0 <= i < |unobserved| ==> unobserved[i] > t
    requires t >= 1.0 ==> forall i :: 0 <= i < |q| ==> q[i] <= 1.0
    requires a.detector.Adaptive? && a in anomalies
    ensures a in Surviving(t, pvalue, anomalies, totalTests) <==> Textbook(q, t, pvalue(a.zSq))
  {
    FamilyHolds(q, pvalue, anomalies, totalTests, unobserved, a);
    if t >= 1.0 {
      TextbookAcceptsAll(q, t, pvalue(a.zSq));
    } else {
      SurvivesIff(t, pvalue, anomalies, totalTests, a);
      PassingIsExact(PValues(pvalue, Fired(anomalies)), unobserved, q, t, pvalue(a.zSq));
    }
  }

  // In particular when every test fired, or the family falls back to what fired.
  lemma ExactWhenAllFired(t: real, pvalue: real -> real, anomalies: seq<Anomaly>, totalTests: int,
                          q: seq<real>, a: Anomaly)
    requires t >= 0.0 && totalTests <= |Fired(anomalies)|
    requires Ascending(q) && multiset(q) == multiset(PValues(pvalue, Fired(anomalies)))
    requires t >= 1.0 ==> forall i :: 0 <= i < |q| ==> q[i] <= 1.0
    requires a.detector.Adaptive? && a in anomalies
    ensures a in Surviving(t, pvalue, anomalies, totalTests) <==> Textbook(q, t, pvalue(a.zSq))
  {
    assert PValues(pvalue, Fired(anomalies)) + [] == PValues(pvalue, Fired(anomalies));
    ExactWhenOthersAreLarge(t, pvalue, anomalies, totalTests, [], q, a);
  }

  // It can be strictly stricter: a neighbour just short of firing would have raised the cutoff.
  lemma CanBeStricter()
    ensures !Passes([0.03], 2, 0.05, 0.03) && Textbook([0.03, 0.04], 0.05, 0.03)
  {
    assert !Passes([0.03], 2, 0.05, 0.03) by {
      assert CriticalValue(1, 2, 0.05) == 0.025;
    }
    assert IsCutoff([0.03, 0.04], 0.05, 2);
  }

  // ----- the accepted tests are the largest self-consistent set -----

  // Every p-value in the set is at most target * size / m.
  ghost predicate SelfConsistent(s: seq<real>, m: nat, t: real)
    requires m > 0
  {
    forall i :: 0 <= i < |s| ==> s[i] * m as real <= |s| as real * t
  }

  ghost function PassesIn(ps: seq<real>, m: nat, t: real): real -> bool {
    (p: real) => m > 0 && Passes(ps, m, t, p)
  }

  lemma AcceptedIsWithin(ps: seq<real>, m: nat, t: real, accepted: seq<real>, i: nat)
    requires m > 0 && t >= 0.0 && accepted == Filter(PassesIn(ps, m, t), ps) && i < |accepted|
    ensures Within(accepted[i], |accepted|, m, t)
  {
    FilterMultiset(PassesIn(ps, m, t), ps, accepted[i]);
    assert accepted[i] in multiset(accepted);
    var k :| Supported(ps, m, t, k) && accepted[i] <= CriticalValue(k, m, t);
    CountMonotone(AtMost(CriticalValue(k, m, t)), PassesIn(ps, m, t), ps);
    FilterIsCount(PassesIn(ps, m, t), ps);
    CriticalGrows(k, |accepted|, m, t);
    CriticalIs(accepted[i], |accepted|, m, t);
  }

  lemma AcceptedIsSelfConsistent(ps: seq<real>, m: nat, t: real)
    requires m > 0 && t >= 0.0
    ensures SelfConsistent(Filter(PassesIn(ps, m, t), ps), m, t)
  {
    var accepted := Filter(PassesIn(ps, m, t), ps);
    forall i | 0 <= i < |accepted|
      ensures accepted[i] * m as real <= |accepted| as real * t
    {
      AcceptedIsWithin(ps, m, t, accepted, i);
    }
  }

  lemma {:induction false} CountAll<T>(p: T -> bool, s: seq<T>)
    requires forall i :: 0 <= i < |s| ==> p(s[i])
    ensures Count(p, s) == |s|
  {
    if s != [] {
      CountAll(p, s[..|s| - 1]);
    }
  }

  lemma SelfConsistentIsAccepted(ps: seq<real>, s: seq<real>, m: nat, t: real)
    requires m > 0 && multiset(s) <= multiset(ps) && SelfConsistent(s, m, t)
    ensures forall i :: 0 <= i < |s| ==> Passes(ps, m, t, s[i])
  {
    if s != [] {
      var c := CriticalValue(|s|, m, t);
      forall i | 0 <= i < |s|
        ensures s[i] <= c
      {
        CriticalIs(s[i], |s|, m, t);
      }
      var rest := Complement(s, ps);
      CountAll(AtMost(c), s);
      CountConcat(AtMost(c), s, rest);
      CountRespectsPermutation(AtMost(c), s + rest, ps);
      assert Supported(ps, m, t, |s|);
    }
  }

  // ----- order, target, family -----

  lemma SparedRespectsPermutation(pvalue: real -> real, fired: seq<Anomaly>, fired': seq<Anomaly>, m: nat, t: real,
                                  a: Anomaly)
    requires multiset(fired) == multiset(fired')
    ensures SparedAmong(pvalue, fired, m, t)(a) <==> SparedAmong(pvalue, fired', m, t)(a)
  {
    if m > 0 {
      PassesRespectsPermutation(pvalue, fired, fired', m, t, pvalue(a.zSq));
    }
    assert PassesAmong(pvalue, fired, m, t)(a) <==> PassesAmong(pvalue, fired', m, t)(a);
  }

  // The verdicts do not depend on the order in which anomalies arrive or ties are sorted.
  lemma OrderDoesNotMatter(t: real, pvalue: real -> real, s: seq<Anomaly>, s': seq<Anomaly>, totalTests: int)
    requires multiset(s) == multiset(s')
    ensures multiset(Surviving(t, pvalue, s, totalTests)) == multiset(Surviving(t, pvalue, s', totalTests))
  {
    FilterRespectsPermutation(IsAdaptive(), s, s');
    assert |multiset(Fired(s))| == |multiset(Fired(s'))|;
    var m := FamilySize(s, totalTests);
    assert m == FamilySize(s', totalTests);
    var keep, keep' := SparedAmong(pvalue, Fired(s), m, t), SparedAmong(pvalue, Fired(s'), m, t);
    if t < 1.0 {
      forall i | 0 <= i < |s'|
        ensures keep(s'[i]) <==> keep'(s'[i])
      {
        SparedRespectsPermutation(pvalue, Fired(s), Fired(s'), m, t, s'[i]);
      }
      FilterSame(keep, keep', s');
      FilterRespectsPermutation(keep, s, s');
    }
  }

  lemma QuotientShrinks(k: int, m: nat, m': nat)
    requires 0 < m <= m' && k >= 0
    ensures 0.0 <= k as real / m' as real <= k as real / m as real
  {
    var a, b := k as real / m as real, k as real / m' as real;
    QuotientTimes(k as real, m as real);
    QuotientTimes(k as real, m' as real);
    assert a >= 0.0 && b >= 0.0;
    ProductMonotone(m as real, m' as real, a);
    assert m as real * a == k as real;
    assert a * m' as real == m' as real * a;
    QuotientBound(b, k as real, a, m' as real);
  }

  lemma CriticalIsMonotone(k: int, m: nat, m': nat, t: real, t': real)
    requires 0 < m <= m' && k >= 0 && 0.0 <= t <= t'
    ensures CriticalValue(k, m', t) <= CriticalValue(k, m, t')
  {
    QuotientShrinks(k, m, m');
    var a, b := k as real / m as real, k as real / m' as real;
    assert (a - b) * t >= 0.0;
    assert a >= 0.0 && a * (t' - t) >= 0.0;
  }

  // A higher target or a smaller family only adds acceptances.
  lemma MonotoneInTargetAndFamily(ps: seq<real>, m: nat, m': nat, t: real, t': real, p: real)
    requires 0 < m <= m' && 0.0 <= t <= t'
    requires Passes(ps, m', t, p)
    ensures Passes(ps, m, t', p)
  {
    var k :| Supported(ps, m', t, k) && p <= CriticalValue(k, m', t);
    CriticalIsMonotone(k, m, m', t, t');
    CountMonotone(AtMost(CriticalValue(k, m', t)), AtMost(CriticalValue(k, m, t')), ps);
    assert Supported(ps, m, t', k);
  }

  // ----- filters that run first -----

  lemma FewerPassFewer(pvalue: real -> real, keep: Anomaly -> bool, fired: seq<Anomaly>, m: nat, t: real, p: real)
    requires m > 0 && Passes(PValues(pvalue, Filter(keep, fired)), m, t, p)
    ensures Passes(PValues(pvalue, fired), m, t, p)
  {
    var k :| Supported(PValues(pvalue, Filter(keep, fired)), m, t, k) && p <= CriticalValue(k, m, t);
    CountMappedFilter(AtMost(CriticalValue(k, m, t)), PValueOf(pvalue), keep, fired);
    FilterIsCount(keep, fired);
    CountBounds(keep, fired);
    assert Supported(PValues(pvalue, fired), m, t, k);
  }

  lemma FewerSpareFewer(pvalue: real -> real, keep: Anomaly -> bool, fired: seq<Anomaly>, m: nat, t: real, a: Anomaly)
    requires SparedAmong(pvalue, Filter(keep, fired), m, t)(a)
    ensures SparedAmong(pvalue, fired, m, t)(a)
  {
    if a.detector.Adaptive? {
      assert PassesAmong(pvalue, Filter(keep, fired), m, t)(a);
      FewerPassFewer(pvalue, keep, fired, m, t, pvalue(a.zSq));
      assert PassesAmong(pvalue, fired, m, t)(a);
    }
  }

  lemma FilteredTwice<T>(p: T -> bool, q: T -> bool, s: seq<T>, x: T)
    ensures multiset(Filter(p, Filter(q, s)))[x] == if p(x) && q(x) then multiset(s)[x] else 0
  {
    FilterMultiset(p, Filter(q, s), x);
    FilterMultiset(q, s, x);
  }

  lemma WeakerFilterKeepsMore<T(!new)>(some: T -> bool, all: T -> bool, keep: T -> bool, s: seq<T>)
    requires forall x :: some(x) ==> all(x)
    ensures multiset(Filter(some, Filter(keep, s))) <= multiset(Filter(keep, Filter(all, s)))
  {
    var left, right := multiset(Filter(some, Filter(keep, s))), multiset(Filter(keep, Filter(all, s)));
    forall x | x in left
      ensures left[x] <= right[x]
    {
      FilteredTwice(some, keep, s, x);
      FilteredTwice(keep, all, s, x);
    }
    SmallerMultiplicities(left, right);
  }

  // As long as the family covers every test that fired, dropping anomalies before the
  // procedure accepts nothing that would not have been accepted with them.
  lemma FilteringFirstCreatesNothing(t: real, pvalue: real -> real, keep: Anomaly -> bool,
                                     anomalies: seq<Anomaly>, totalTests: int)
    requires totalTests >= |Fired(anomalies)|
    ensures multiset(Surviving(t, pvalue, Filter(keep, anomalies), totalTests)) <=
            multiset(Filter(keep, Surviving(t, pvalue, anomalies, totalTests)))
  {
    var kept := Filter(keep, anomalies);
    FilterCommutes(IsAdaptive(), keep, anomalies);
    FilterIsCount(keep, Fired(anomalies));
    CountBounds(keep, Fired(anomalies));
    if t < 1.0 {
      var some := SparedAmong(pvalue, Fired(kept), totalTests, t);
      var all := SparedAmong(pvalue, Fired(anomalies), totalTests, t);
      forall a: Anomaly | some(a)
        ensures all(a)
      {
        FewerSpareFewer(pvalue, keep, Fired(anomalies), totalTests, t, a);
      }
      WeakerFilterKeepsMore(some, all, keep, anomalies);
    }
  }

  // ----- the fallback -----

  function Firing(zSq: real): Anomaly { Anomaly("", map[], 0.0, 0.0, 0.0, zSq, Warning, Metrics, Adaptive) }

  function TwoLevels(low: real): real -> real { (zSq: real) => if zSq >= 1.0 then low else 1.0 }

  function OneOutOf(n: nat): seq<Anomaly>
    requires n > 0
  {
    [Firing(1.0)] + seq(n - 1, i => Firing(0.0))
  }

  function FarOut(): Anomaly -> bool { (a: Anomaly) => a.zSq >= 1.0 }

  lemma OneIsFar(n: nat)
    requires n > 0
    ensures Fired(OneOutOf(n)) == OneOutOf(n)
    ensures Filter(FarOut(), OneOutOf(n)) == Fired([Firing(1.0)]) == [Firing(1.0)]
  {
    FilterIsPrefix(IsAdaptive(), OneOutOf(n), n);
    FilterIsPrefix(FarOut(), OneOutOf(n), 1);
    FilterIsPrefix(IsAdaptive(), [Firing(1.0)], 1);
  }

  lemma {:induction false} AtMostOneBelow(ps: seq<real>, c: real)
    requires ps != [] && forall i :: 0 < i < |ps| ==> ps[i] > c
    ensures Count(AtMost(c), ps) <= 1
  {
    if |ps| > 1 {
      AtMostOneBelow(ps[..|ps| - 1], c);
    } else {
      assert ps[..0] == [];
    }
  }

  lemma LoneTestFails(n: nat, t: real, low: real)
    requires n > 0 && 0.0 < t < 1.0 && low > CriticalValue(1, n, t)
    ensures !Passes(PValues(TwoLevels(low), OneOutOf(n)), n, t, low)
  {
    var ps := PValues(TwoLevels(low), OneOutOf(n));
    forall k
      ensures !(Supported(ps, n, t, k) && low <= CriticalValue(k, n, t))
    {
      if 1 <= k <= n {
        CriticalGrows(k, n, n, t);
        SelfQuotient(n as real);
        assert CriticalValue(n, n, t) == t;
        AtMostOneBelow(ps, CriticalValue(k, n, t));
      }
    }
  }

  lemma LoneTestPasses(m: nat, t: real, low: real)
    requires m > 0 && low <= CriticalValue(1, m, t)
    ensures Passes([low], m, t, low)
  {
    assert [low][..0] == [];
    assert Supported([low], m, t, 1);
  }

  lemma SmallerFamilyIsLooser(m: nat, n: nat, t: real)
    requires 0 < m < n && t > 0.0
    ensures CriticalValue(1, m, t) > CriticalValue(1, n, t)
  {
    var a, b := 1.0 / m as real, 1.0 / n as real;
    QuotientTimes(1.0, m as real);
    QuotientTimes(1.0, n as real);
    if a <= b {
      ProductMonotone(a, b, m as real);
      ProductStrictlyMonotone(m as real, n as real, b);
    }
    ProductStrictlyMonotone(b, a, t);
  }

  lemma FirstIsBelowTarget(m: nat, t: real)
    requires m > 0 && t > 0.0
    ensures CriticalValue(1, m, t) <= t
  {
    CriticalGrows(1, m, m, t);
    SelfQuotient(m as real);
    assert CriticalValue(m, m, t) == t;
  }

  lemma FarAlone(declared: int, low: real) returns (m: nat)
    ensures m == (if declared < 1 then 1 else declared) == FamilySize([Firing(1.0)], declared)
    ensures PValues(TwoLevels(low), Fired([Firing(1.0)])) == [low]
  {
    m := if declared < 1 then 1 else declared;
    FilterIsPrefix(IsAdaptive(), [Firing(1.0)], 1);
    assert PValues(TwoLevels(low), [Firing(1.0)]) == [low];
  }

  lemma FarAloneSurvives(declared: int, t: real, low: real)
    requires t < 1.0 && low <= CriticalValue(1, if declared < 1 then 1 else declared, t)
    ensures Firing(1.0) in Surviving(t, TwoLevels(low), [Firing(1.0)], declared)
  {
    var m := FarAlone(declared, low);
    LoneTestPasses(m, t, low);
    SurvivesIff(t, TwoLevels(low), [Firing(1.0)], declared, Firing(1.0));
  }

  lemma FarAmongOthersFails(n: nat, declared: int, t: real, low: real)
    requires n > 0 && declared < n && 0.0 < t < 1.0 && low > CriticalValue(1, n, t)
    requires Fired(OneOutOf(n)) == OneOutOf(n)
    ensures Firing(1.0) !in Surviving(t, TwoLevels(low), OneOutOf(n), declared)
  {
    assert Firing(1.0) == OneOutOf(n)[0];
    LoneTestFails(n, t, low);
    SurvivesIff(t, TwoLevels(low), OneOutOf(n), declared, Firing(1.0));
  }

  // With fewer tests declared than fired, filtering first does create acceptances, for every
  // number of fired tests and every target below one.
  lemma FallbackCanCreateAcceptance(n: nat, declared: int, t: real)
      returns (pvalue: real -> real, keep: Anomaly -> bool, anomalies: seq<Anomaly>, a: Anomaly)
    requires n >= 2 && declared < n && 0.0 < t < 1.0
    ensures |Fired(anomalies)| == |anomalies| == n && forall x, y :: x <= y ==> pvalue(y) <= pvalue(x)
    ensures a in Filter(keep, anomalies)
    ensures a in Surviving(t, pvalue, Filter(keep, anomalies), declared)
    ensures a !in Surviving(t, pvalue, anomalies, declared)
  {
    var m: nat := if declared < 1 then 1 else declared;
    var low := CriticalValue(1, m, t);
    pvalue, keep, anomalies, a := TwoLevels(low), FarOut(), OneOutOf(n), Firing(1.0);
    OneIsFar(n);
    SmallerFamilyIsLooser(m, n, t);
    FirstIsBelowTarget(m, t);
    FarAmongOthersFails(n, declared, t, low);
    FarAloneSurvives(declared, t, low);
  }

  // ----- the promise about high scores -----

  // A p-value passes in every batch over a family of m tests exactly when it is at most
  // target / m.
  lemma AlwaysPassesIff(m: nat, t: real, p: real)
    requires m > 0 && t >= 0.0
    ensures (forall ps: seq<real> :: p in ps && |ps| <= m ==> Passes(ps, m, t, p)) <==> p <= CriticalValue(1, m, t)
  {
    if p <= CriticalValue(1, m, t) {
      forall ps: seq<real> | p in ps && |ps| <= m
        ensures Passes(ps, m, t, p)
      {
        var c := CriticalValue(1, m, t);
        if Count(AtMost(c), ps) == 0 {
          CountedIsPositive(AtMost(c), ps, p);
        }
        assert Supported(ps, m, t, 1);
      }
    } else {
      assert p in [p] && |[p]| <= m;
      assert !Passes([p], m, t, p);
    }
  }

  // A batch of one adaptive anomaly.
  lemma AloneSurvivesIff(t: real, pvalue: real -> real, a: Anomaly, m: nat)
    requires t < 1.0 && a.detector.Adaptive? && m > 0
    ensures a in Surviving(t, pvalue, [a], m) <==> pvalue(a.zSq) <= CriticalValue(1, m, t)
  {
    var p := pvalue(a.zSq);
    FilterIsPrefix(IsAdaptive(), [a], 1);
    assert Fired([a]) == [a] && PValues(pvalue, [a]) == [p];
    SurvivesIff(t, pvalue, [a], m, a);
    if p <= CriticalValue(1, m, t) {
      LoneTestPasses(m, t, p);
    }
  }

  // An anomaly is returned from every batch over a family of m tests exactly when its
  // p-value is at most target / m or the target is one: being far out is not enough.
  lemma AlwaysAcceptedIff(m: nat, t: real, pvalue: real -> real, a: Anomaly)
    requires m > 0 && t >= 0.0 && a.detector.Adaptive?
    ensures (forall anomalies: seq<Anomaly> :: a in anomalies && |Fired(anomalies)| <= m ==>
               a in Surviving(t, pvalue, anomalies, m))
            <==> (t >= 1.0 || pvalue(a.zSq) * m as real <= t)
  {
    var p := pvalue(a.zSq);
    CriticalIs(p, 1, m, t);
    if t < 1.0 && p <= CriticalValue(1, m, t) {
      AlwaysPassesIff(m, t, p);
      forall anomalies: seq<Anomaly> | a in anomalies && |Fired(anomalies)| <= m
        ensures a in Surviving(t, pvalue, anomalies, m)
      {
        SurvivesIff(t, pvalue, anomalies, m, a);
        FiredIs(anomalies, a);
        PValueIsListed(pvalue, Fired(anomalies), a);
      }
    } else if t < 1.0 {
      AloneSurvivesIff(t, pvalue, a, m);
      FilterIsPrefix(IsAdaptive(), [a], 1);
      assert a in [a] && |Fired([a])| <= m;
    }
  }

  lemma ShareBelow(t: real, p: real, m: nat)
    requires m > 0 && t < m as real * p
    ensures CriticalValue(1, m, t) < p
  {
    var c := CriticalValue(1, m, t);
    QuotientTimes(1.0, m as real);
    assert c * m as real == (1.0 / m as real * m as real) * t == t;
    if p <= c {
      ProductMonotone(p, c, m as real);
    }
  }

  lemma EnoughTests(t: real, p: real) returns (m: nat)
    requires t >= 0.0 && p > 0.0
    ensures m > 0 && t < m as real * p
  {
    var q := t / p;
    QuotientTimes(t, p);
    if q < 0.0 {
      ProductStrictlyMonotone(q, 0.0, p);
    }
    m := q.Floor + 1;
    assert q < m as real;
    ProductStrictlyMonotone(q, m as real, p);
  }

  // Whatever its score, an anomaly with a positive p-value is dropped in some family, at
  // every target below one.
  lemma SomeFamilyRejects(t: real, pvalue: real -> real, a: Anomaly) returns (m: nat)
    requires 0.0 <= t < 1.0 && a.detector.Adaptive? && pvalue(a.zSq) > 0.0
    ensures m > 0 && a !in Surviving(t, pvalue, [a], m)
  {
    m := EnoughTests(t, pvalue(a.zSq));
    ShareBelow(t, pvalue(a.zSq), m);
    AloneSurvivesIff(t, pvalue, a, m);
  }

  // With p-values that do not grow with the score, a higher score is never treated worse.
  lemma HigherScorePassesToo(pvalue: real -> real, fired: seq<Anomaly>, m: nat, t: real, a: Anomaly, b: Anomaly)
    requires forall x, y :: x <= y ==> pvalue(y) <= pvalue(x)
    requires a.zSq <= b.zSq && PassesAmong(pvalue, fired, m, t)(a)
    ensures PassesAmong(pvalue, fired, m, t)(b)
  {
    var k :| Supported(PValues(pvalue, fired), m, t, k) && pvalue(a.zSq) <= CriticalValue(k, m, t);
    assert pvalue(b.zSq) <= pvalue(a.zSq);
  }
}
