// Benjamini-Hochberg control of the false discovery rate over a family of tests of which
// only the ones that fired are observed.
module Fdr {
  import opened Reals
  import opened Sequences
  import opened Anomalies

  // ----- the procedure, by counting -----

  // The k-th critical value for a family of m tests.
  function CriticalValue(k: int, m: nat, t: real): real
    requires m > 0
  {
    k as real / m as real * t
  }

  function AtMost(c: real): real -> bool { (p: real) => p <= c }

  // k tests, at least, have a p-value below the k-th critical value.
  predicate Supported(ps: seq<real>, m: nat, t: real, k: int)
    requires m > 0
  {
    1 <= k <= |ps| && Count(AtMost(CriticalValue(k, m, t)), ps) >= k
  }

  // p lies below a supported critical value.
  ghost predicate Passes(ps: seq<real>, m: nat, t: real, p: real)
    requires m > 0
  {
    exists k :: Supported(ps, m, t, k) && p <= CriticalValue(k, m, t)
  }

  lemma Shared(q: real, c: real, m: real)
    requires m > 0.0
    ensures q <= c <==> q * m <= c * m
  {
    if q <= c {
      ProductMonotone(q, c, m);
    } else {
      ProductStrictlyMonotone(c, q, m);
    }
  }

  lemma CriticalTimes(k: int, m: nat, t: real)
    requires m > 0
    ensures CriticalValue(k, m, t) * m as real == k as real * t
  {
    var a := k as real / m as real;
    QuotientTimes(k as real, m as real);
    assert (a * t) * m as real == (a * m as real) * t;
  }

  // m times the p-value is at most k times the target.
  predicate Within(p: real, k: int, m: nat, t: real) { p * m as real <= k as real * t }

  // A p-value is below the k-th critical value when m times it is at most k times the target.
  lemma CriticalIs(p: real, k: int, m: nat, t: real)
    requires m > 0
    ensures p <= CriticalValue(k, m, t) <==> Within(p, k, m, t)
  {
    CriticalTimes(k, m, t);
    Shared(p, CriticalValue(k, m, t), m as real);
  }

  lemma CriticalGrows(j: int, k: int, m: nat, t: real)
    requires m > 0 && t >= 0.0 && j <= k
    ensures CriticalValue(j, m, t) <= CriticalValue(k, m, t)
  {
    var a, b := j as real / m as real, k as real / m as real;
    assert (k - j) as real / m as real >= 0.0;
    assert b - a == (k - j) as real / m as real;
    assert (b - a) * t >= 0.0;
  }

  // ----- order statistics -----

  ghost predicate Ascending(q: seq<real>) {
    forall i, j :: 0 <= i < j < |q| ==> q[i] <= q[j]
  }

  // In an ascending sequence at least k values are at most c exactly when the k-th is.
  lemma {:induction false} CountOfAscending(q: seq<real>, c: real, k: nat)
    requires Ascending(q) && 1 <= k <= |q|
    ensures Count(AtMost(c), q) >= k <==> q[k - 1] <= c
  {
    var n := |q| - 1;
    CountBounds(AtMost(c), q[..n]);
    if k <= n {
      CountOfAscending(q[..n], c, k);
    } else if n > 0 && q[n] <= c {
      CountOfAscending(q[..n], c, n);
    }
  }

  ghost predicate IsCutoff(q: seq<real>, t: real, k: nat) {
    1 <= k <= |q| && q[k - 1] * |q| as real <= k as real * t
  }

  // The textbook procedure: sort the p-values of the whole family, find a rank k whose value
  // is at most k times the target over the size of the family, and accept everything up to
  // that value.
  ghost predicate Textbook(q: seq<real>, t: real, p: real) {
    exists k: nat :: IsCutoff(q, t, k) && p <= q[k - 1]
  }

  // A value of the sequence below c is below the last value below c.
  lemma UpToLast(q: seq<real>, c: real, p: real)
    requires Ascending(q) && p in multiset(q) && p <= c
    ensures var j := Count(AtMost(c), q); 1 <= j <= |q| && p <= q[j - 1]
  {
    var i :| 0 <= i < |q| && q[i] == p;
    var j := Count(AtMost(c), q);
    CountOfAscending(q, c, i + 1);
    CountBounds(AtMost(c), q);
  }

  lemma CutoffPasses(q: seq<real>, ps: seq<real>, t: real, k: nat)
    requires Ascending(q) && multiset(q) == multiset(ps) && |q| == |ps| && IsCutoff(q, t, k)
    ensures q[k - 1] <= CriticalValue(k, |ps|, t) && Supported(ps, |ps|, t, k)
  {
    var c := CriticalValue(k, |ps|, t);
    CriticalIs(q[k - 1], k, |ps|, t);
    CountOfAscending(q, c, k);
    CountRespectsPermutation(AtMost(c), q, ps);
  }

  lemma CriticalIsCutoff(q: seq<real>, t: real, k: nat)
    requires 1 <= k <= |q| && q[k - 1] <= CriticalValue(k, |q|, t)
    ensures IsCutoff(q, t, k)
  {
    CriticalIs(q[k - 1], k, |q|, t);
  }

  lemma PassingHasCutoff(q: seq<real>, ps: seq<real>, t: real, p: real, k: int) returns (j: nat)
    requires t >= 0.0 && p in ps && Ascending(q) && multiset(q) == multiset(ps) && |q| == |ps|
    requires Supported(ps, |ps|, t, k) && p <= CriticalValue(k, |ps|, t)
    ensures IsCutoff(q, t, j) && p <= q[j - 1]
  {
    var c := CriticalValue(k, |ps|, t);
    j := Count(AtMost(c), q);
    CountRespectsPermutation(AtMost(c), q, ps);
    CountBounds(AtMost(c), q);
    CountOfAscending(q, c, j);
    UpToLast(q, c, p);
    CriticalGrows(k, j, |ps|, t);
    CriticalIsCutoff(q, t, j);
  }

  lemma TextbookIsPasses(q: seq<real>, ps: seq<real>, t: real, p: real)
    requires t >= 0.0 && p in ps && Ascending(q) && multiset(q) == multiset(ps)
    ensures Textbook(q, t, p) <==> Passes(ps, |ps|, t, p)
  {
    assert |q| == |multiset(q)| == |ps|;
    if Textbook(q, t, p) {
      var k: nat :| IsCutoff(q, t, k) && p <= q[k - 1];
      CutoffPasses(q, ps, t, k);
    }
    if Passes(ps, |ps|, t, p) {
      var k :| Supported(ps, |ps|, t, k) && p <= CriticalValue(k, |ps|, t);
      var j := PassingHasCutoff(q, ps, t, p, k);
    }
  }

  // ----- the filter -----

  function PValueOf(pvalue: real -> real): Anomaly -> real { (a: Anomaly) => pvalue(a.zSq) }

  function PValues(pvalue: real -> real, s: seq<Anomaly>): seq<real> { Map(PValueOf(pvalue), s) }

  function Fired(anomalies: seq<Anomaly>): seq<Anomaly> { Filter(IsAdaptive(), anomalies) }

  // The declared size of the family, or the number of tests that fired if that is more.
  function FamilySize(anomalies: seq<Anomaly>, totalTests: int): nat {
    if totalTests < |Fired(anomalies)| then |Fired(anomalies)| else totalTests
  }

  ghost function PassesAmong(pvalue: real -> real, fired: seq<Anomaly>, m: nat, t: real): Anomaly -> bool {
    (a: Anomaly) => m > 0 && Passes(PValues(pvalue, fired), m, t, pvalue(a.zSq))
  }

  ghost function SparedAmong(pvalue: real -> real, fired: seq<Anomaly>, m: nat, t: real): Anomaly -> bool {
    (a: Anomaly) => a.detector.Adaptive? ==> PassesAmong(pvalue, fired, m, t)(a)
  }

  // What is left of the anomalies: the ones that are not adaptive, and the adaptive ones
  // that pass Benjamini-Hochberg over the family.
  ghost function Surviving(t: real, pvalue: real -> real, anomalies: seq<Anomaly>, totalTests: int): seq<Anomaly> {
    if t >= 1.0 then anomalies
    else Filter(SparedAmong(pvalue, Fired(anomalies), FamilySize(anomalies, totalTests), t), anomalies)
  }

  lemma SeparateOneMore(anomalies: seq<Anomaly>, i: nat)
    requires i < |anomalies|
    ensures anomalies[i].detector.Adaptive? ==>
              && Fired(anomalies[..i + 1]) == Fired(anomalies[..i]) + [anomalies[i]]
              && Filter(Not(IsAdaptive()), anomalies[..i + 1]) == Filter(Not(IsAdaptive()), anomalies[..i])
    ensures !anomalies[i].detector.Adaptive? ==>
              && Fired(anomalies[..i + 1]) == Fired(anomalies[..i])
              && Filter(Not(IsAdaptive()), anomalies[..i + 1]) ==
                 Filter(Not(IsAdaptive()), anomalies[..i]) + [anomalies[i]]
  {
    assert anomalies[..i + 1] == anomalies[..i] + [anomalies[i]];
    FilterSnoc(IsAdaptive(), anomalies[..i], anomalies[i]);
    FilterSnoc(Not(IsAdaptive()), anomalies[..i], anomalies[i]);
  }

  // The largest rank below its critical value separates what passes from what does not.
  ghost predicate IsThreshold(q: seq<real>, m: nat, t: real, threshold: nat)
    requires m > 0
  {
    && threshold <= |q|
    && (threshold > 0 ==> Within(q[threshold - 1], threshold, m, t))
    && (forall i :: threshold <= i < |q| ==> !Within(q[i], i + 1, m, t))
  }

  lemma BeyondThreshold(q: seq<real>, m: nat, t: real, threshold: nat)
    requires m > 0 && IsThreshold(q, m, t, threshold)
    ensures forall i :: threshold <= i < |q| ==> q[i] * m as real > (i + 1) as real * t
  {
    forall i | threshold <= i < |q|
      ensures q[i] * m as real > (i + 1) as real * t
    {
      assert !Within(q[i], i + 1, m, t);
    }
  }

  lemma BelowThresholdPasses(q: seq<real>, m: nat, t: real, threshold: nat, i: nat)
    requires m > 0 && Ascending(q) && IsThreshold(q, m, t, threshold) && i < threshold
    ensures Passes(q, m, t, q[i])
  {
    CriticalIs(q[threshold - 1], threshold, m, t);
    CountOfAscending(q, CriticalValue(threshold, m, t), threshold);
    assert Supported(q, m, t, threshold);
  }

  lemma SupportedIsBelow(q: seq<real>, m: nat, t: real, threshold: nat, k: int)
    requires m > 0 && IsThreshold(q, m, t, threshold) && 1 <= k <= |q| && Within(q[k - 1], k, m, t)
    ensures k <= threshold
  {
    var i := k - 1;
    assert Within(q[i], i + 1, m, t);
  }

  lemma BeyondThresholdFails(q: seq<real>, m: nat, t: real, threshold: nat, i: nat)
    requires m > 0 && t >= 0.0 && Ascending(q) && IsThreshold(q, m, t, threshold) && threshold <= i < |q|
    ensures !Passes(q, m, t, q[i])
  {
    forall k | Supported(q, m, t, k)
      ensures q[i] > CriticalValue(k, m, t)
    {
      var c := CriticalValue(k, m, t);
      CountOfAscending(q, c, k);
      CriticalIs(q[k - 1], k, m, t);
      SupportedIsBelow(q, m, t, threshold, k);
      CriticalGrows(k, i + 1, m, t);
      CriticalIs(q[i], i + 1, m, t);
    }
  }

  lemma NothingFires(t: real, pvalue: real -> real, anomalies: seq<Anomaly>, totalTests: int)
    requires Fired(anomalies) == []
    ensures Surviving(t, pvalue, anomalies, totalTests) == Filter(Not(IsAdaptive()), anomalies) == anomalies
  {
    NothingFiltered(IsAdaptive(), anomalies);
    FilterIsPrefix(Not(IsAdaptive()), anomalies, |anomalies|);
    FilterIsPrefix(SparedAmong(pvalue, [], FamilySize(anomalies, totalTests), t), anomalies, |anomalies|);
  }

  lemma SurvivingByCases(t: real, pvalue: real -> real, anomalies: seq<Anomaly>, totalTests: int)
    requires t < 1.0
    ensures var fired, m := Fired(anomalies), FamilySize(anomalies, totalTests);
            multiset(Surviving(t, pvalue, anomalies, totalTests)) ==
            multiset(Filter(Not(IsAdaptive()), anomalies)) +
            multiset(Filter(PassesAmong(pvalue, fired, m, t), fired))
  {
    var fired, m := Fired(anomalies), FamilySize(anomalies, totalTests);
    FilterByCases(IsAdaptive(), PassesAmong(pvalue, fired, m, t), SparedAmong(pvalue, fired, m, t), anomalies);
  }

  lemma SupportRespectsPermutation(ps: seq<real>, ps': seq<real>, m: nat, t: real)
    requires m > 0 && multiset(ps) == multiset(ps')
    ensures forall k :: Supported(ps, m, t, k) <==> Supported(ps', m, t, k)
  {
    assert |multiset(ps)| == |multiset(ps')|;
    forall k
      ensures Supported(ps, m, t, k) <==> Supported(ps', m, t, k)
    {
      CountRespectsPermutation(AtMost(CriticalValue(k, m, t)), ps, ps');
    }
  }

  lemma PassesRespectsPermutation(pvalue: real -> real, s: seq<Anomaly>, s': seq<Anomaly>, m: nat, t: real, p: real)
    requires m > 0 && multiset(s) == multiset(s')
    ensures Passes(PValues(pvalue, s), m, t, p) <==> Passes(PValues(pvalue, s'), m, t, p)
  {
    MapRespectsPermutation(PValueOf(pvalue), s, s');
    SupportRespectsPermutation(PValues(pvalue, s), PValues(pvalue, s'), m, t);
  }

  // The scan over the sorted anomalies selects the ones that pass.
  lemma ScanSelects(pvalue: real -> real, fired: seq<Anomaly>, items: seq<Anomaly>, m: nat, t: real, threshold: nat)
    requires m > 0 && t >= 0.0 && threshold <= |items|
    requires multiset(items) == multiset(fired)
    requires Ascending(PValues(pvalue, items)) && IsThreshold(PValues(pvalue, items), m, t, threshold)
    ensures multiset(items[..threshold]) == multiset(Filter(PassesAmong(pvalue, fired, m, t), fired))
  {
    var q := PValues(pvalue, items);
    var keep := PassesAmong(pvalue, fired, m, t);
    forall i | 0 <= i < |items|
      ensures keep(items[i]) <==> i < threshold
    {
      PassesRespectsPermutation(pvalue, items, fired, m, t, q[i]);
      if i < threshold {
        BelowThresholdPasses(q, m, t, threshold, i);
      } else {
        BeyondThresholdFails(q, m, t, threshold, i);
      }
    }
    FilterIsPrefix(keep, items, threshold);
    FilterRespectsPermutation(keep, items, fired);
  }

  datatype FDR = FDR(target: real) {
    // A target outside (0, 1] is replaced.
    static function New(target: real): (r: FDR)
      ensures 0.0 < r.target <= 1.0
      ensures r.target == target || (r.target == 0.05 && !(0.0 < target <= 1.0))
    {
      FDR(if target <= 0.0 || target > 1.0 then 0.05 else target)
    }

    static method Separate(anomalies: seq<Anomaly>) returns (adaptive: seq<Anomaly>, passthrough: seq<Anomaly>)
      ensures adaptive == Fired(anomalies)
      ensures passthrough == Filter(Not(IsAdaptive()), anomalies)
      ensures |adaptive| + |passthrough| == |anomalies|
    {
      adaptive, passthrough := [], [];
      for i := 0 to |anomalies|
        invariant adaptive == Fired(anomalies[..i])
        invariant passthrough == Filter(Not(IsAdaptive()), anomalies[..i])
        invariant |adaptive| + |passthrough| == i
      {
        SeparateOneMore(anomalies, i);
        if anomalies[i].detector.Adaptive? {
          adaptive := adaptive + [anomalies[i]];
        } else {
          passthrough := passthrough + [anomalies[i]];
        }
      }
      assert anomalies[..|anomalies|] == anomalies;
    }

    // The largest rank whose p-value is below its critical value, by a scan of all ranks.
    method Scan(pvalues: seq<real>, m: nat) returns (threshold: nat)
      requires m > 0
      ensures IsThreshold(pvalues, m, target, threshold)
      ensures threshold > 0 ==> pvalues[threshold - 1] * m as real <= threshold as real * target
      ensures forall i :: threshold <= i < |pvalues| ==> pvalues[i] * m as real > (i + 1) as real * target
    {
      threshold := 0;
      for k := 1 to |pvalues| + 1
        invariant threshold < k
        invariant threshold > 0 ==> Within(pvalues[threshold - 1], threshold, m, target)
        invariant forall i :: threshold <= i < k - 1 ==> !Within(pvalues[i], i + 1, m, target)
      {
        CriticalIs(pvalues[k - 1], k, m, target);
        var bhCritical := k as real / m as real * target;
        if pvalues[k - 1] <= bhCritical {
          threshold := k;
        }
      }
      BeyondThreshold(pvalues, m, target, threshold);
    }

    // The adaptive anomalies that pass, the smallest p-value first.
    method Select(pvalue: real -> real, adaptive: seq<Anomaly>, m: nat) returns (kept: seq<Anomaly>)
      requires m > 0 && target >= 0.0
      ensures SortedBy(PValueOf(pvalue), kept) && |kept| <= |adaptive|
      ensures multiset(kept) == multiset(Filter(PassesAmong(pvalue, adaptive, m, target), adaptive))
    {
      var items := new Anomaly[|adaptive|](i requires 0 <= i < |adaptive| => adaptive[i]);
      assert items[..] == adaptive;
      SortInPlace(PValueOf(pvalue), items);
      assert |multiset(items[..])| == |multiset(adaptive)|;
      var threshold := Scan(PValues(pvalue, items[..]), m);
      ScanSelects(pvalue, adaptive, items[..], m, target, threshold);
      kept := items[..threshold];
    }

    method Apply(pvalue: real -> real, anomalies: seq<Anomaly>, totalTests: int)
      returns (accepted: seq<Anomaly>, rejected: nat)
      requires target > 0.0
      ensures multiset(accepted) == multiset(Surviving(target, pvalue, anomalies, totalTests))
      ensures |accepted| + rejected == |anomalies|
      ensures target >= 1.0 ==> accepted == anomalies
      ensures target < 1.0 ==>
                var others := Filter(Not(IsAdaptive()), anomalies);
                others <= accepted && SortedBy(PValueOf(pvalue), accepted[|others|..])
    {
      if target >= 1.0 { return anomalies, 0; }

      var adaptive, passthrough := Separate(anomalies);
      if |adaptive| == 0 {
        NothingFires(target, pvalue, anomalies, totalTests);
        return anomalies, 0;
      }

      var m := if totalTests < |adaptive| then |adaptive| else totalTests;
      var kept := Select(pvalue, adaptive, m);
      SurvivingByCases(target, pvalue, anomalies, totalTests);
      accepted := passthrough + kept;
      assert accepted[|passthrough|..] == kept;
      rejected := |adaptive| - |kept|;
    }
  }
}
