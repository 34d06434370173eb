// The filters between detection and correlation.  The first two compact the slice they
// are given in place; the third is the control of the false discovery rate.
module Filters {
  import opened Reals
  import opened Sequences
  import opened Anomalies
  import opened Fdr
  import opened FdrTheorems

  datatype Direction = UpBad | DownBad | BothBad

  // directions and floors per rule, and the parameters of the discovery rate
  datatype Policy = Policy(
    directions: map<string, Direction>,
    floors: map<string, real>,
    fdr: FDR,
    pvalue: real -> real)

  predicate DirectionAllows(a: Anomaly, direction: Direction) {
    match direction
    case UpBad => a.value >= a.mean
    case DownBad => a.value <= a.mean
    case BothBad => true
  }

  predicate WrongWay(directions: map<string, Direction>, a: Anomaly) {
    a.detector.Adaptive? && a.metric in directions && !DirectionAllows(a, directions[a.metric])
  }

  predicate Negligible(floors: map<string, real>, a: Anomaly) {
    a.detector.Adaptive? && a.metric in floors && floors[a.metric] > 0.0 && Abs(a.value) < floors[a.metric]
  }

  function RightWay(directions: map<string, Direction>): Anomaly -> bool { (a: Anomaly) => !WrongWay(directions, a) }
  function Relevant(floors: map<string, real>): Anomaly -> bool { (a: Anomaly) => !Negligible(floors, a) }

  // What a compacting loop has done to a slice: the elements that pass come first, in
  // their order, and nothing behind them has been written.
  ghost predicate Compacted(keep: Anomaly -> bool, before: seq<Anomaly>, after: seq<Anomaly>, n: nat, kept: nat) {
    && kept <= n <= |before| == |after|
    && after[..kept] == Filter(keep, before[..n])
    && after[kept..] == before[kept..]
  }

  lemma CompactedStep(keep: Anomaly -> bool, before: seq<Anomaly>, after: seq<Anomaly>, n: nat, kept: nat)
    requires n < |before| && Compacted(keep, before, after, n, kept)
    ensures after[n] == before[n]
    ensures keep(before[n]) ==> Compacted(keep, before, after[kept := before[n]], n + 1, kept + 1)
    ensures !keep(before[n]) ==> Compacted(keep, before, after, n + 1, kept)
  {
    assert before[..n + 1] == before[..n] + [before[n]];
    FilterSnoc(keep, before[..n], before[n]);
    assert after[n] == after[kept..][n - kept];
    assert before[n] == before[kept..][n - kept];
    if keep(before[n]) {
      var next := after[kept := before[n]];
      assert next[..kept + 1] == after[..kept] + [before[n]];
      assert next[kept + 1..] == after[kept..][1..] == before[kept + 1..];
    } else {
    }
  }

  // As many are dropped as there are places that do not pass.
  lemma DroppedPlaces<T>(keep: T -> bool, s: seq<T>, dropped: set<int>)
    requires forall i :: i in dropped <==> 0 <= i < |s| && !keep(s[i])
    ensures |s| - |Filter(keep, s)| == |dropped|
  {
    FilterIsCount(keep, s);
    CountOfNot(keep, s);
    CountedPlaces(Not(keep), s, dropped);
  }

  // What the direction drops, in terms of the values alone.
  lemma WrongWayPlaces(directions: map<string, Direction>, s: seq<Anomaly>)
    ensures |s| - |Filter(RightWay(directions), s)| ==
            |set i | 0 <= i < |s| && s[i].detector.Adaptive? && s[i].metric in directions &&
                     ((directions[s[i].metric] == UpBad && s[i].value < s[i].mean) ||
                      (directions[s[i].metric] == DownBad && s[i].value > s[i].mean))|
  {
    var dropped := set i | 0 <= i < |s| && s[i].detector.Adaptive? && s[i].metric in directions &&
                     ((directions[s[i].metric] == UpBad && s[i].value < s[i].mean) ||
                      (directions[s[i].metric] == DownBad && s[i].value > s[i].mean));
    DroppedPlaces(RightWay(directions), s, dropped);
  }

  method FilterByDirection(anomalies: array<Anomaly>, n: nat, directions: map<string, Direction>)
    returns (kept: nat, dropped: nat)
    requires n <= anomalies.Length
    modifies anomalies
    ensures Compacted(RightWay(directions), old(anomalies[..]), anomalies[..], n, kept)
    ensures kept + dropped == n
    ensures forall k :: 0 <= k < kept && anomalies[k].detector.Adaptive? && anomalies[k].metric in directions ==>
              && (directions[anomalies[k].metric] == UpBad ==> anomalies[k].value >= anomalies[k].mean)
              && (directions[anomalies[k].metric] == DownBad ==> anomalies[k].value <= anomalies[k].mean)
  {
    ghost var before := anomalies[..];
    if |directions| == 0 {
      FilterIsPrefix(RightWay(directions), anomalies[..n], n);
      return n, 0;
    }
    kept, dropped := 0, 0;
    for i := 0 to n
      invariant Compacted(RightWay(directions), before, anomalies[..], i, kept)
      invariant kept + dropped == i
      invariant forall k :: 0 <= k < kept ==> RightWay(directions)(anomalies[k])
    {
      CompactedStep(RightWay(directions), before, anomalies[..], i, kept);
      var a := anomalies[i];
      if a.detector.Adaptive? {
        if a.metric in directions && !DirectionAllows(a, directions[a.metric]) {
          dropped := dropped + 1;
          continue;
        }
      }
      anomalies[kept] := a;
      kept := kept + 1;
    }
  }

  method FilterByFloor(anomalies: array<Anomaly>, n: nat, floors: map<string, real>)
    returns (kept: nat, dropped: nat)
    requires n <= anomalies.Length
    modifies anomalies
    ensures Compacted(Relevant(floors), old(anomalies[..]), anomalies[..], n, kept)
    ensures kept + dropped == n
    ensures forall k :: 0 <= k < kept && anomalies[k].detector.Adaptive? && anomalies[k].metric in floors ==>
              anomalies[k].value <= -floors[anomalies[k].metric] || anomalies[k].value >= floors[anomalies[k].metric]
  {
    ghost var before := anomalies[..];
    if |floors| == 0 {
      FilterIsPrefix(Relevant(floors), anomalies[..n], n);
      return n, 0;
    }
    kept, dropped := 0, 0;
    for i := 0 to n
      invariant Compacted(Relevant(floors), before, anomalies[..], i, kept)
      invariant kept + dropped == i
      invariant forall k :: 0 <= k < kept ==> Relevant(floors)(anomalies[k])
    {
      CompactedStep(Relevant(floors), before, anomalies[..], i, kept);
      var a := anomalies[i];
      if a.detector.Adaptive? {
        if a.metric in floors && floors[a.metric] > 0.0 && Abs(a.value) < floors[a.metric] {
          dropped := dropped + 1;
          continue;
        }
      }
      anomalies[kept] := a;
      kept := kept + 1;
    }
  }

  // ----- the chain -----

  function Screened(p: Policy, anomalies: seq<Anomaly>): seq<Anomaly> {
    Filter(Relevant(p.floors), Filter(RightWay(p.directions), anomalies))
  }

  // Direction, then floor, then the discovery rate over the declared family.
  ghost function Passed(p: Policy, anomalies: seq<Anomaly>, tested: int): seq<Anomaly> {
    Surviving(p.fdr.target, p.pvalue, Screened(p, anomalies), tested)
  }

  datatype Dropped = Dropped(direction: nat, floor: nat, fdr: nat)

  lemma KeptIsListed<T>(keep: T -> bool, s: seq<T>, x: T)
    ensures x in Filter(keep, s) <==> x in s && keep(x)
  {
    FilterMultiset(keep, s, x);
    assert x in Filter(keep, s) <==> x in multiset(Filter(keep, s));
    assert x in s <==> x in multiset(s);
  }

  // What passes is on the side its rule declares and outside its rule's floor.
  lemma PassedIsScreened(p: Policy, anomalies: seq<Anomaly>, tested: int, a: Anomaly)
    requires a in Passed(p, anomalies, tested)
    ensures a in anomalies && RightWay(p.directions)(a) && Relevant(p.floors)(a)
  {
    var rightWay, screened := Filter(RightWay(p.directions), anomalies), Screened(p, anomalies);
    if p.fdr.target < 1.0 {
      KeptIsListed(SparedAmong(p.pvalue, Fired(screened), FamilySize(screened, tested), p.fdr.target), screened, a);
    }
    KeptIsListed(Relevant(p.floors), rightWay, a);
    KeptIsListed(RightWay(p.directions), anomalies, a);
  }

  // Spelt out: an accepted rise or fall is the harmful one, and large enough.
  lemma AcceptedIsScreened(p: Policy, anomalies: seq<Anomaly>, tested: int, accepted: seq<Anomaly>)
    requires multiset(accepted) == multiset(Passed(p, anomalies, tested))
    ensures forall a :: a in accepted && a.detector.Adaptive? && a.metric in p.directions ==>
              && (p.directions[a.metric] == UpBad ==> a.value >= a.mean)
              && (p.directions[a.metric] == DownBad ==> a.value <= a.mean)
    ensures forall a :: a in accepted && a.detector.Adaptive? && a.metric in p.floors ==>
              a.value <= -p.floors[a.metric] || a.value >= p.floors[a.metric]
  {
    forall a | a in accepted
      ensures RightWay(p.directions)(a) && Relevant(p.floors)(a)
    {
      assert a in multiset(accepted);
      PassedIsScreened(p, anomalies, tested, a);
    }
  }

  lemma {:induction false} FilterTwice<T(!new)>(p: T -> bool, q: T -> bool, both: T -> bool, s: seq<T>)
    requires forall x :: both(x) <==> p(x) && q(x)
    ensures Filter(q, Filter(p, s)) == Filter(both, s)
  {
    if s != [] {
      var n := |s| - 1;
      FilterTwice(p, q, both, s[..n]);
      FilterSnoc(q, Filter(p, s[..n]), s[n]);
    }
  }

  // What direction and floor drop together.
  lemma ScreenedPlaces(p: Policy, s: seq<Anomaly>)
    ensures |s| - |Screened(p, s)| ==
            |set i | 0 <= i < |s| && s[i].detector.Adaptive? &&
                     ((s[i].metric in p.directions &&
                       ((p.directions[s[i].metric] == UpBad && s[i].value < s[i].mean) ||
                        (p.directions[s[i].metric] == DownBad && s[i].value > s[i].mean))) ||
                      (s[i].metric in p.floors &&
                       -p.floors[s[i].metric] < s[i].value < p.floors[s[i].metric]))|
  {
    var both := (a: Anomaly) => RightWay(p.directions)(a) && Relevant(p.floors)(a);
    FilterTwice(RightWay(p.directions), Relevant(p.floors), both, s);
    var dropped := set i | 0 <= i < |s| && s[i].detector.Adaptive? &&
                     ((s[i].metric in p.directions &&
                       ((p.directions[s[i].metric] == UpBad && s[i].value < s[i].mean) ||
                        (p.directions[s[i].metric] == DownBad && s[i].value > s[i].mean))) ||
                      (s[i].metric in p.floors &&
                       -p.floors[s[i].metric] < s[i].value < p.floors[s[i].metric]));
    DroppedPlaces(both, s, dropped);
  }

  method PostFilter(p: Policy, anomalies: seq<Anomaly>, tested: int) returns (accepted: seq<Anomaly>, dropped: Dropped)
    requires p.fdr.target > 0.0
    ensures multiset(accepted) == multiset(Passed(p, anomalies, tested))
    ensures |accepted| + dropped.direction + dropped.floor + dropped.fdr == |anomalies|
    ensures dropped.direction == |anomalies| - |Filter(RightWay(p.directions), anomalies)|
    ensures dropped.direction + dropped.floor == |anomalies| - |Screened(p, anomalies)|
    ensures forall a :: a in accepted && a.detector.Adaptive? && a.metric in p.directions ==>
              && (p.directions[a.metric] == UpBad ==> a.value >= a.mean)
              && (p.directions[a.metric] == DownBad ==> a.value <= a.mean)
    ensures forall a :: a in accepted && a.detector.Adaptive? && a.metric in p.floors ==>
              a.value <= -p.floors[a.metric] || a.value >= p.floors[a.metric]
    ensures dropped.direction ==
            |set i | 0 <= i < |anomalies| && anomalies[i].detector.Adaptive? && anomalies[i].metric in p.directions &&
                     ((p.directions[anomalies[i].metric] == UpBad && anomalies[i].value < anomalies[i].mean) ||
                      (p.directions[anomalies[i].metric] == DownBad && anomalies[i].value > anomalies[i].mean))|
    ensures dropped.direction + dropped.floor ==
            |set i | 0 <= i < |anomalies| && anomalies[i].detector.Adaptive? &&
                     ((anomalies[i].metric in p.directions &&
                       ((p.directions[anomalies[i].metric] == UpBad && anomalies[i].value < anomalies[i].mean) ||
                        (p.directions[anomalies[i].metric] == DownBad && anomalies[i].value > anomalies[i].mean))) ||
                      (anomalies[i].metric in p.floors &&
                       -p.floors[anomalies[i].metric] < anomalies[i].value < p.floors[anomalies[i].metric]))|
  {
    var slice := new Anomaly[|anomalies|](i requires 0 <= i < |anomalies| => anomalies[i]);
    assert slice[..] == anomalies == slice[..|anomalies|];
    var n, wrongWay := FilterByDirection(slice, |anomalies|, p.directions);
    ghost var rightWay := slice[..n];
    var m, negligible := FilterByFloor(slice, n, p.floors);
    assert slice[..m] == Screened(p, anomalies);
    var rejected;
    accepted, rejected := p.fdr.Apply(p.pvalue, slice[..m], tested);
    dropped := Dropped(wrongWay, negligible, rejected);
    AcceptedIsScreened(p, anomalies, tested, accepted);
    WrongWayPlaces(p.directions, anomalies);
    ScreenedPlaces(p, anomalies);
  }

  // Filtering with a weaker predicate first changes nothing.
  lemma {:induction false} FilterSubsumed<T(!new)>(p: T -> bool, weaker: T -> bool, s: seq<T>)
    requires forall x :: p(x) ==> weaker(x)
    ensures Filter(p, Filter(weaker, s)) == Filter(p, s)
  {
    if s != [] {
      var n := |s| - 1;
      FilterSubsumed(p, weaker, s[..n]);
      FilterSnoc(p, Filter(weaker, s[..n]), s[n]);
    }
  }

  // The chain never drops what is not adaptive.
  lemma NonAdaptivePassThrough(p: Policy, anomalies: seq<Anomaly>, tested: int)
    ensures multiset(Filter(Not(IsAdaptive()), Passed(p, anomalies, tested))) ==
            multiset(Filter(Not(IsAdaptive()), anomalies))
  {
    var screened := Screened(p, anomalies);
    var spared := SparedAmong(p.pvalue, Fired(screened), FamilySize(screened, tested), p.fdr.target);
    FilterSubsumed(Not(IsAdaptive()), RightWay(p.directions), anomalies);
    FilterSubsumed(Not(IsAdaptive()), Relevant(p.floors), Filter(RightWay(p.directions), anomalies));
    if p.fdr.target < 1.0 {
      FilterSubsumed(Not(IsAdaptive()), spared, screened);
    }
  }

  // What passes depends on which anomalies there are, not on their order.
  lemma PassedRespectsPermutation(p: Policy, s: seq<Anomaly>, s': seq<Anomaly>, tested: int)
    requires multiset(s) == multiset(s')
    ensures multiset(Passed(p, s, tested)) == multiset(Passed(p, s', tested))
  {
    FilterRespectsPermutation(RightWay(p.directions), s, s');
    FilterRespectsPermutation(Relevant(p.floors), Filter(RightWay(p.directions), s),
                              Filter(RightWay(p.directions), s'));
    OrderDoesNotMatter(p.fdr.target, p.pvalue, Screened(p, s), Screened(p, s'), tested);
  }

  // As long as the family covers every test that fired, direction and floor never let an
  // anomaly through the discovery rate that would not have passed without them.
  lemma ScreeningCreatesNothing(p: Policy, anomalies: seq<Anomaly>, tested: int)
    requires tested >= |Fired(anomalies)|
    ensures multiset(Passed(p, anomalies, tested)) <=
            multiset(Screened(p, Surviving(p.fdr.target, p.pvalue, anomalies, tested)))
  {
    var both := (a: Anomaly) => RightWay(p.directions)(a) && Relevant(p.floors)(a);
    FilterTwice(RightWay(p.directions), Relevant(p.floors), both, anomalies);
    FilterTwice(RightWay(p.directions), Relevant(p.floors), both,
                Surviving(p.fdr.target, p.pvalue, anomalies, tested));
    FilteringFirstCreatesNothing(p.fdr.target, p.pvalue, both, anomalies, tested);
  }
}
