// Order-preserving filters, counting and sorting by a real key: the vocabulary
// in which the detection pipeline is specified.  Recursion peels the last element,
// so that a loop over a growing prefix follows the definitions directly.
module Sequences {

  function Filter<T>(keep: T -> bool, s: seq<T>): seq<T> {
    if s == [] then []
    else
      var n := |s| - 1;
      if keep(s[n]) then Filter(keep, s[..n]) + [s[n]] else Filter(keep, s[..n])
  }

  function Count<T>(p: T -> bool, s: seq<T>): nat {
    if s == [] then 0
    else
      var n := |s| - 1;
      Count(p, s[..n]) + if p(s[n]) then 1 else 0
  }

  function Map<T, U>(f: T -> U, s: seq<T>): (r: seq<U>)
    ensures |r| == |s|
    ensures forall i :: 0 <= i < |s| ==> r[i] == f(s[i])
  {
    seq(|s|, i requires 0 <= i < |s| => f(s[i]))
  }

  function Not<T>(p: T -> bool): T -> bool { x => !p(x) }

  lemma Associative<T>(a: seq<T>, b: seq<T>, c: seq<T>)
    ensures a + b + c == a + (b + c)
  {
  }

  lemma FilterSnoc<T>(keep: T -> bool, s: seq<T>, x: T)
    ensures Filter(keep, s + [x]) == if keep(x) then Filter(keep, s) + [x] else Filter(keep, s)
  {
    assert (s + [x])[..|s|] == s;
  }

  lemma CountSnoc<T>(p: T -> bool, s: seq<T>, x: T)
    ensures Count(p, s + [x]) == Count(p, s) + if p(x) then 1 else 0
  {
    assert (s + [x])[..|s|] == s;
  }

  lemma CountOneMore<T>(p: T -> bool, s: seq<T>, i: nat)
    requires i < |s|
    ensures Count(p, s[..i + 1]) == Count(p, s[..i]) + if p(s[i]) then 1 else 0
  {
    assert s[..i + 1] == s[..i] + [s[i]];
    CountSnoc(p, s[..i], s[i]);
  }

  // The multiplicity of every element in a filtered sequence.
  lemma {:induction false} FilterMultiset<T>(keep: T -> bool, s: seq<T>, x: T)
    ensures multiset(Filter(keep, s))[x] == if keep(x) then multiset(s)[x] else 0
  {
    if s != [] {
      var n := |s| - 1;
      FilterMultiset(keep, s[..n], x);
      assert s == s[..n] + [s[n]];
    }
  }

  lemma SameMultiplicities<T>(a: multiset<T>, b: multiset<T>)
    requires forall x :: x in a ==> a[x] == b[x]
    requires forall x :: x in b ==> a[x] == b[x]
    ensures a == b
  {
  }

  lemma SmallerMultiplicities<T>(a: multiset<T>, b: multiset<T>)
    requires forall x :: x in a ==> a[x] <= b[x]
    ensures a <= b
  {
  }

  lemma FilteredMultiplicity<T>(keep: T -> bool, s: seq<T>, t: seq<T>, x: T)
    requires multiset(s) == multiset(t)
    ensures multiset(Filter(keep, s))[x] == multiset(Filter(keep, t))[x]
  {
    FilterMultiset(keep, s, x);
    FilterMultiset(keep, t, x);
  }

  // Filtering commutes with rearranging.
  lemma FilterRespectsPermutation<T>(keep: T -> bool, s: seq<T>, t: seq<T>)
    requires multiset(s) == multiset(t)
    ensures multiset(Filter(keep, s)) == multiset(Filter(keep, t))
  {
    var a, b := multiset(Filter(keep, s)), multiset(Filter(keep, t));
    forall x | x in a ensures a[x] == b[x] { FilteredMultiplicity(keep, s, t, x); }
    forall x | x in b ensures a[x] == b[x] { FilteredMultiplicity(keep, s, t, x); }
    SameMultiplicities(a, b);
  }

  lemma {:induction false} FilterIsCount<T>(p: T -> bool, s: seq<T>)
    ensures |Filter(p, s)| == Count(p, s)
  {
    if s != [] {
      FilterIsCount(p, s[..|s| - 1]);
    }
  }

  // What is counted does not depend on the order.
  lemma {:induction false} CountOfNot<T>(p: T -> bool, s: seq<T>)
    ensures Count(p, s) + Count(Not(p), s) == |s|
  {
    if s != [] {
      CountOfNot(p, s[..|s| - 1]);
    }
  }

  // Counting is counting places.
  lemma {:induction false} CountedPlaces<T>(p: T -> bool, s: seq<T>, places: set<int>)
    requires forall i :: i in places <==> 0 <= i < |s| && p(s[i])
    ensures Count(p, s) == |places|
  {
    if s == [] {
      assert forall i :: i !in places;
      assert places == {};
    } else {
      var n := |s| - 1;
      CountedPlaces(p, s[..n], places - {n});
    }
  }

  lemma CountRespectsPermutation<T>(p: T -> bool, s: seq<T>, t: seq<T>)
    requires multiset(s) == multiset(t)
    ensures Count(p, s) == Count(p, t)
  {
    FilterRespectsPermutation(p, s, t);
    FilterIsCount(p, s);
    FilterIsCount(p, t);
    assert |multiset(Filter(p, s))| == |multiset(Filter(p, t))|;
  }

  lemma {:induction false} CountConcat<T>(p: T -> bool, s: seq<T>, t: seq<T>)
    ensures Count(p, s + t) == Count(p, s) + Count(p, t)
  {
    if t == [] {
      assert s + t == s;
    } else {
      var n := |t| - 1;
      assert s + t == (s + t[..n]) + [t[n]];
      CountSnoc(p, s + t[..n], t[n]);
      CountConcat(p, s, t[..n]);
    }
  }

  lemma {:induction false} FilterConcat<T>(p: T -> bool, s: seq<T>, t: seq<T>)
    ensures Filter(p, s + t) == Filter(p, s) + Filter(p, t)
  {
    if t == [] {
      assert s + t == s;
    } else {
      var n := |t| - 1;
      assert s + t == (s + t[..n]) + [t[n]];
      FilterSnoc(p, s + t[..n], t[n]);
      FilterConcat(p, s, t[..n]);
    }
  }

  lemma {:induction false} CountBounds<T>(p: T -> bool, s: seq<T>)
    ensures Count(p, s) <= |s|
  {
    if s != [] {
      CountBounds(p, s[..|s| - 1]);
    }
  }

  // A weaker predicate counts at least as much.
  lemma {:induction false} CountMonotone<T>(p: T -> bool, q: T -> bool, s: seq<T>)
    requires forall i :: 0 <= i < |s| && p(s[i]) ==> q(s[i])
    ensures Count(p, s) <= Count(q, s)
  {
    if s != [] {
      CountMonotone(p, q, s[..|s| - 1]);
    }
  }

  lemma {:induction false} CountedIsPositive<T>(p: T -> bool, s: seq<T>, x: T)
    requires x in s && p(x)
    ensures Count(p, s) > 0
  {
    if s[|s| - 1] != x {
      CountedIsPositive(p, s[..|s| - 1], x);
    }
  }

  function RemoveAt<T>(s: seq<T>, i: nat): seq<T>
    requires i < |s|
  {
    s[..i] + s[i + 1..]
  }

  lemma RemoveAtMultiset<T>(s: seq<T>, i: nat)
    requires i < |s|
    ensures multiset(s) == multiset(RemoveAt(s, i)) + multiset{s[i]}
  {
    assert s == s[..i] + [s[i]] + s[i + 1..];
  }

  lemma CancelOne<T>(a: multiset<T>, b: multiset<T>, x: T)
    requires a + multiset{x} <= b + multiset{x}
    ensures a <= b
  {
    assert a == (a + multiset{x}) - multiset{x};
    assert b == (b + multiset{x}) - multiset{x};
  }

  // A sub-multiset is extended to the whole by what is missing.
  lemma {:induction false} Complement<T>(sub: seq<T>, s: seq<T>) returns (rest: seq<T>)
    requires multiset(sub) <= multiset(s)
    ensures multiset(s) == multiset(sub + rest)
    ensures |s| == |sub| + |rest|
    decreases |sub|
  {
    if sub == [] {
      rest := s;
      assert sub + rest == s;
    } else {
      var n := |sub| - 1;
      var x := sub[n];
      RemoveAtMultiset(sub, n);
      assert RemoveAt(sub, n) == sub[..n];
      assert x in multiset(sub);
      assert x in s;
      var i :| 0 <= i < |s| && s[i] == x;
      RemoveAtMultiset(s, i);
      CancelOne(multiset(sub[..n]), multiset(RemoveAt(s, i)), x);
      rest := Complement(sub[..n], RemoveAt(s, i));
      assert multiset(sub + rest) == multiset(sub[..n] + rest) + multiset{x};
    }
  }

  lemma SubsetIsSmaller<T>(a: set<T>, b: set<T>)
    requires a <= b
    ensures |a| <= |b|
  {
    assert b == a + (b - a);
  }

  lemma MapSnoc<T, U>(f: T -> U, s: seq<T>, x: T)
    ensures Map(f, s + [x]) == Map(f, s) + [f(x)]
  {
  }

  lemma MapOfRemoved<T, U>(f: T -> U, s: seq<T>, i: nat)
    requires i < |s|
    ensures multiset(Map(f, s)) == multiset(Map(f, RemoveAt(s, i))) + multiset{f(s[i])}
  {
    RemoveAtMultiset(Map(f, s), i);
    assert RemoveAt(Map(f, s), i) == Map(f, RemoveAt(s, i));
  }

  // Taking one element out of each of two permutations leaves permutations.
  lemma RemovedFromBoth<T>(s: seq<T>, i: nat, t: seq<T>, j: nat)
    requires i < |s| && j < |t| && s[i] == t[j] && multiset(s) == multiset(t)
    ensures multiset(RemoveAt(s, i)) == multiset(RemoveAt(t, j))
  {
    RemoveAtMultiset(s, i);
    RemoveAtMultiset(t, j);
    CancelOne(multiset(RemoveAt(s, i)), multiset(RemoveAt(t, j)), s[i]);
    CancelOne(multiset(RemoveAt(t, j)), multiset(RemoveAt(s, i)), s[i]);
  }

  // Mapping commutes with rearranging.
  lemma {:induction false} MapRespectsPermutation<T, U>(f: T -> U, s: seq<T>, t: seq<T>)
    requires multiset(s) == multiset(t)
    ensures multiset(Map(f, s)) == multiset(Map(f, t))
    decreases |s|
  {
    if s == [] {
      assert |multiset(t)| == 0;
    } else {
      var n := |s| - 1;
      assert s[n] in multiset(t);
      var i :| 0 <= i < |t| && t[i] == s[n];
      RemovedFromBoth(s, n, t, i);
      MapRespectsPermutation(f, RemoveAt(s, n), RemoveAt(t, i));
      MapOfRemoved(f, s, n);
      MapOfRemoved(f, t, i);
    }
  }

  lemma {:induction false} CountMappedFilter<T, U>(p: U -> bool, f: T -> U, keep: T -> bool, s: seq<T>)
    ensures Count(p, Map(f, Filter(keep, s))) <= Count(p, Map(f, s))
  {
    if s != [] {
      var n := |s| - 1;
      CountMappedFilter(p, f, keep, s[..n]);
      assert Map(f, s)[..n] == Map(f, s[..n]);
      var kept := Map(f, Filter(keep, s[..n]));
      if keep(s[n]) {
        assert Map(f, Filter(keep, s)) == kept + [f(s[n])];
        CountSnoc(p, kept, f(s[n]));
      } else {
      }
    }
  }

  // A filter that accepts a prefix and nothing else keeps that prefix.
  lemma {:induction false} FilterIsPrefix<T>(keep: T -> bool, s: seq<T>, n: nat)
    requires n <= |s|
    requires forall i :: 0 <= i < |s| ==> (keep(s[i]) <==> i < n)
    ensures Filter(keep, s) == s[..n]
  {
    if s != [] {
      var last := |s| - 1;
      FilterIsPrefix(keep, s[..last], if n < |s| then n else last);
      assert s[..last] + [s[last]] == s;
      assert n < |s| ==> s[..last][..n] == s[..n];
    }
  }

  // A filter that spares what p does not single out.
  lemma {:induction false} FilterByCases<T>(p: T -> bool, q: T -> bool, keep: T -> bool, s: seq<T>)
    requires forall i :: 0 <= i < |s| ==> (keep(s[i]) <==> (p(s[i]) ==> q(s[i])))
    ensures multiset(Filter(keep, s)) == multiset(Filter(Not(p), s)) + multiset(Filter(q, Filter(p, s)))
  {
    if s != [] {
      var n := |s| - 1;
      FilterByCases(p, q, keep, s[..n]);
      if p(s[n]) {
        FilterSnoc(q, Filter(p, s[..n]), s[n]);
        assert Filter(Not(p), s) == Filter(Not(p), s[..n]);
      } else {
        assert Filter(Not(p), s) == Filter(Not(p), s[..n]) + [s[n]];
        assert Filter(p, s) == Filter(p, s[..n]);
      }
    }
  }

  lemma {:induction false} NothingFiltered<T>(p: T -> bool, s: seq<T>)
    requires Filter(p, s) == []
    ensures forall i :: 0 <= i < |s| ==> !p(s[i])
  {
    if s != [] {
      NothingFiltered(p, s[..|s| - 1]);
    }
  }

  lemma {:induction false} FilterSame<T>(p: T -> bool, q: T -> bool, s: seq<T>)
    requires forall i :: 0 <= i < |s| ==> (p(s[i]) <==> q(s[i]))
    ensures Filter(p, s) == Filter(q, s)
  {
    if s != [] {
      FilterSame(p, q, s[..|s| - 1]);
    }
  }

  lemma {:induction false} FilterCommutes<T>(p: T -> bool, q: T -> bool, s: seq<T>)
    ensures Filter(p, Filter(q, s)) == Filter(q, Filter(p, s))
  {
    if s != [] {
      var n := |s| - 1;
      FilterCommutes(p, q, s[..n]);
      FilterSnoc(p, Filter(q, s[..n]), s[n]);
      FilterSnoc(q, Filter(p, s[..n]), s[n]);
    }
  }

  // ----- sorting by a key -----

  ghost predicate SortedBy<T>(key: T -> real, s: seq<T>) {
    forall i, j :: 0 <= i < j < |s| ==> key(s[i]) <= key(s[j])
  }

  function InsertBy<T>(key: T -> real, s: seq<T>, x: T): seq<T> {
    if s == [] || key(s[|s| - 1]) <= key(x) then s + [x]
    else InsertBy(key, s[..|s| - 1], x) + [s[|s| - 1]]
  }

  lemma {:induction false} InsertByMultiset<T>(key: T -> real, s: seq<T>, x: T)
    ensures multiset(InsertBy(key, s, x)) == multiset(s + [x])
  {
    if !(s == [] || key(s[|s| - 1]) <= key(x)) {
      var n := |s| - 1;
      InsertByMultiset(key, s[..n], x);
      assert s == s[..n] + [s[n]];
    }
  }

  // Every element of the result is bounded by whatever bounds the elements put in.
  lemma {:induction false} InsertByBound<T>(key: T -> real, s: seq<T>, x: T, hi: real)
    requires key(x) <= hi && forall i :: 0 <= i < |s| ==> key(s[i]) <= hi
    ensures forall i :: 0 <= i < |InsertBy(key, s, x)| ==> key(InsertBy(key, s, x)[i]) <= hi
  {
    if !(s == [] || key(s[|s| - 1]) <= key(x)) {
      InsertByBound(key, s[..|s| - 1], x, hi);
    }
  }

  lemma {:induction false} InsertBySorts<T>(key: T -> real, s: seq<T>, x: T)
    requires SortedBy(key, s)
    ensures SortedBy(key, InsertBy(key, s, x))
  {
    if s == [] {
    } else if key(s[|s| - 1]) <= key(x) {
    } else {
      var n := |s| - 1;
      InsertBySorts(key, s[..n], x);
      InsertByBound(key, s[..n], x, key(s[n]));
    }
  }

  // Library sort: the caller learns that the array is rearranged into
  // ascending order, nothing about the order of equal keys.
  method SortInPlace<T>(key: T -> real, a: array<T>)
    modifies a
    ensures SortedBy(key, a[..])
    ensures multiset(a[..]) == multiset(old(a[..]))
  {
    var sorted: seq<T> := [];
    for i := 0 to a.Length
      invariant |sorted| == i && a[..] == old(a[..])
      invariant SortedBy(key, sorted)
      invariant multiset(sorted) == multiset(a[..i])
    {
      InsertBySorts(key, sorted, a[i]);
      InsertByMultiset(key, sorted, a[i]);
      assert a[..i + 1] == a[..i] + [a[i]];
      sorted := InsertBy(key, sorted, a[i]);
      assert |multiset(sorted)| == i + 1;
    }
    assert a[..a.Length] == a[..];
    assert multiset(sorted) == multiset(a[..]);
    forall i | 0 <= i < a.Length {
      a[i] := sorted[i];
    }
    assert a[..] == sorted;
  }
}
