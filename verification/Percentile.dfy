// The 95th percentile of query durations over a sliding window.
module Percentile {
  import opened Sequences

  // The last size values of a history.
  function Recent(s: seq<real>, size: nat): seq<real> { if |s| <= size then s else s[|s| - size..] }

  function Below(c: real): real -> bool { (x: real) => x < c }
  function UpTo(c: real): real -> bool { (x: real) => x <= c }

  // 95 percent of the way from the first to the last, rounded down.
  function Rank(n: nat): (r: int)
    requires n > 0
    ensures 100 * r <= 95 * (n - 1) < 100 * (r + 1)
  {
    ((n - 1) as real * 0.95).Floor
  }

  // r is the value of the given rank, counted from zero, in ascending order.
  ghost predicate HasRank(window: seq<real>, rank: int, r: real) {
    r in window && Count(Below(r), window) <= rank < Count(UpTo(r), window)
  }

  // A rank belongs to one value only, and to the same one in any order.
  lemma RankIsUnique(s: seq<real>, t: seq<real>, rank: int, r: real, r': real)
    requires multiset(s) == multiset(t) && HasRank(s, rank, r) && HasRank(t, rank, r')
    ensures r == r'
  {
    CountRespectsPermutation(Below(r'), s, t);
    CountRespectsPermutation(UpTo(r'), s, t);
    if r < r' {
      CountMonotone(UpTo(r), Below(r'), s);
    } else if r' < r {
      CountMonotone(UpTo(r'), Below(r), s);
    }
  }

  function Identity(): real -> real { (x: real) => x }

  lemma {:induction false} CountInSorted(q: seq<real>, r: real, k: nat)
    requires SortedBy(Identity(), q) && k <= |q|
    requires forall i :: 0 <= i < k ==> q[i] <= r
    requires forall i :: k <= i < |q| ==> q[i] >= r
    ensures Count(Below(r), q) <= k <= Count(UpTo(r), q)
  {
    if q != [] {
      var n := |q| - 1;
      assert SortedBy(Identity(), q[..n]) by {
        forall i, j | 0 <= i < j < n ensures Identity()(q[..n][i]) <= Identity()(q[..n][j]) {
          assert Identity()(q[i]) <= Identity()(q[j]);
        }
      }
      CountInSorted(q[..n], r, if k <= n then k else n);
    }
  }

  lemma SortedHasRank(q: seq<real>, rank: nat)
    requires SortedBy(Identity(), q) && rank < |q|
    ensures HasRank(q, rank, q[rank])
  {
    var r := q[rank];
    forall i | 0 <= i < |q|
      ensures (i <= rank ==> q[i] <= r) && (i >= rank ==> q[i] >= r)
    {
      if i < rank {
        assert Identity()(q[i]) <= Identity()(q[rank]);
      } else if rank < i {
        assert Identity()(q[rank]) <= Identity()(q[i]);
      }
    }
    CountInSorted(q, r, rank);
    CountInSorted(q, r, rank + 1);
  }

  lemma RankInBounds(n: nat)
    requires n > 0
    ensures 0 <= Rank(n) < n
  {
  }

  class P95Window {
    const buf: array<real>
    var pos: nat
    var full: bool
    ghost var added: seq<real>

    // The buffer holds the last values added, oldest first from pos when it is full.
    ghost predicate Valid()
      reads this, buf
    {
      && pos < buf.Length
      && (full <==> |added| >= buf.Length)
      && Recent(added, buf.Length) == Window()
    }

    ghost function Window(): seq<real>
      reads this, buf
      requires pos < buf.Length
    {
      if full then buf[pos..] + buf[..pos] else buf[..pos]
    }

    constructor (size: nat)
      requires size > 0
      ensures Valid() && fresh(buf) && buf.Length == size && added == []
    {
      buf := new real[size](_ => 0.0);
      pos, full, added := 0, false, [];
    }

    method Add(v: real)
      requires Valid()
      modifies this, buf
      ensures Valid() && added == old(added) + [v]
    {
      ghost var before, size := added, buf.Length;
      ghost var window := Window();
      assert !full ==> |added| == pos;
      buf[pos] := v;
      pos := pos + 1;
      added := added + [v];
      if pos >= buf.Length {
        pos := 0;
        full := true;
      }
      assert Recent(added, size) == (if |window| < size then window else window[1..]) + [v];
      assert Window() == (if |window| < size then window else window[1..]) + [v];
    }

    method P95() returns (r: real)
      requires Valid()
      ensures var window := Recent(added, buf.Length);
              if window == [] then r == 0.0 else HasRank(window, Rank(|window|), r)
    {
      var n := buf.Length;
      if !full {
        n := pos;
      }
      if n == 0 { return 0.0; }
      var sorted := new real[n](i requires 0 <= i < n reads this, buf => if i < buf.Length then buf[i] else 0.0);
      assert sorted[..] == buf[..n];
      SortInPlace(Identity(), sorted);
      RankInBounds(n);
      var idx := ((n - 1) as real * 0.95).Floor;
      r := sorted[idx];
      ghost var q, window := sorted[..], Window();
      assert multiset(q) == multiset(buf[..n]);
      assert multiset(buf[..n]) == multiset(window) by {
        if full {
          assert buf[..n] == buf[..pos] + buf[pos..];
        }
      }
      SortedHasRank(q, idx);
      CountRespectsPermutation(Below(r), q, window);
      CountRespectsPermutation(UpTo(r), q, window);
      assert r in multiset(q);
      assert |multiset(q)| == |multiset(window)|;
    }
  }
}
