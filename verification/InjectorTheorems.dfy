// What the ground truth says about what was perturbed.
module InjectorTheorems {
  import opened Reals
  import opened Workload
  import opened Sequences
  import opened Baseline
  import opened Scorer
  import opened Injector

  // ----- what the ground truth says -----

  function HasKey(k: TruthKey): GroundTruth -> bool {
    (gt: GroundTruth) => (gt.target, gt.fault, gt.start) == k
  }

  // There is exactly one truth for every key applied, however often it is, and none for another.
  lemma {:induction false} OneTruthPerKey(as_: seq<Application>, k: TruthKey)
    requires WellTyped(as_)
    ensures Count(HasKey(k), Truths(as_)) == if k in KeysOf(as_) then 1 else 0
  {
    if as_ != [] {
      var n := |as_| - 1;
      OneTruthPerKey(as_[..n], k);
      assert as_ == as_[..n] + [as_[n]];
      KeysOfSnoc(as_[..n], as_[n]);
      if TruthKeyOf(as_[n]) in KeysOf(as_[..n]) {
        assert Truths(as_) == Truths(as_[..n]);
      } else {
        CountSnoc(HasKey(k), Truths(as_[..n]), TruthOf(as_[n]));
      }
    }
  }

  ghost predicate Witnessed(as_: seq<Application>, gt: GroundTruth)
    requires WellTyped(as_)
  {
    exists i :: 0 <= i < |as_| && TruthOf(as_[i]) == gt
  }

  // Every truth is that of something applied.
  lemma {:induction false} TruthsAreApplied(as_: seq<Application>)
    requires WellTyped(as_)
    ensures forall gt :: gt in Truths(as_) ==> Witnessed(as_, gt)
  {
    if as_ != [] {
      var n := |as_| - 1;
      TruthsAreApplied(as_[..n]);
      forall gt | gt in Truths(as_)
        ensures Witnessed(as_, gt)
      {
        if gt in Truths(as_[..n]) {
          var i :| 0 <= i < n && TruthOf(as_[..n][i]) == gt;
          assert TruthOf(as_[i]) == gt;
        } else {
          assert TruthOf(as_[n]) == gt;
        }
      }
    }
  }

  // Applications recorded under one key are alike.
  ghost predicate KeysAgree(as_: seq<Application>)
    requires WellTyped(as_)
  {
    forall i, j :: 0 <= i < j < |as_| && TruthKeyOf(as_[i]) == TruthKeyOf(as_[j]) ==> TruthOf(as_[i]) == TruthOf(as_[j])
  }

  lemma {:induction false} KeyHasTruth(as_: seq<Application>, k: TruthKey)
    requires WellTyped(as_) && k in KeysOf(as_)
    ensures exists gt :: gt in Truths(as_) && HasKey(k)(gt)
  {
    var n := |as_| - 1;
    assert as_ == as_[..n] + [as_[n]];
    KeysOfSnoc(as_[..n], as_[n]);
    if k in KeysOf(as_[..n]) {
      KeyHasTruth(as_[..n], k);
      var gt :| gt in Truths(as_[..n]) && HasKey(k)(gt);
      assert gt in Truths(as_);
    } else {
      assert TruthOf(as_[n]) in Truths(as_) && HasKey(k)(TruthOf(as_[n]));
    }
  }

  lemma {:induction false} CountOfTwo<T>(p: T -> bool, s: seq<T>, x: T, y: T)
    requires x in s && y in s && x != y && p(x) && p(y)
    ensures Count(p, s) >= 2
  {
    var n := |s| - 1;
    assert s == s[..n] + [s[n]];
    if s[n] == x {
      CountedIsPositive(p, s[..n], y);
    } else if s[n] == y {
      CountedIsPositive(p, s[..n], x);
    } else {
      CountOfTwo(p, s[..n], x, y);
    }
  }

  lemma SameKeySameTruth(as_: seq<Application>, gt: GroundTruth, gt': GroundTruth)
    requires WellTyped(as_) && gt in Truths(as_) && gt' in Truths(as_)
    requires (gt.target, gt.fault, gt.start) == (gt'.target, gt'.fault, gt'.start)
    ensures gt == gt'
  {
    var k := (gt.target, gt.fault, gt.start);
    OneTruthPerKey(as_, k);
    if gt != gt' {
      CountOfTwo(HasKey(k), Truths(as_), gt, gt');
    }
  }

  lemma RecordedAgree(as_: seq<Application>, i: nat, j: nat)
    requires WellTyped(as_) && i < j < |as_| && TruthKeyOf(as_[i]) == TruthKeyOf(as_[j])
    requires TruthOf(as_[i]) in Truths(as_) && TruthOf(as_[j]) in Truths(as_)
    ensures TruthOf(as_[i]) == TruthOf(as_[j])
  {
    SameKeySameTruth(as_, TruthOf(as_[i]), TruthOf(as_[j]));
  }

  lemma {:induction false} AgreeingIsRecorded(as_: seq<Application>, i: nat)
    requires WellTyped(as_) && KeysAgree(as_) && i < |as_|
    ensures TruthOf(as_[i]) in Truths(as_)
  {
    KeyHasTruth(as_, TruthKeyOf(as_[i]));
    var gt :| gt in Truths(as_) && HasKey(TruthKeyOf(as_[i]))(gt);
    TruthsAreApplied(as_);
    var j :| 0 <= j < |as_| && TruthOf(as_[j]) == gt;
    assert TruthKeyOf(as_[i]) == TruthKeyOf(as_[j]);
  }

  // Everything applied has its truth exactly when no two applications share a series, a
  // type and a start and differ in their end or magnitude.
  lemma {:induction false} EverythingRecordedIff(as_: seq<Application>)
    requires WellTyped(as_)
    ensures (forall i :: 0 <= i < |as_| ==> TruthOf(as_[i]) in Truths(as_)) <==> KeysAgree(as_)
  {
    if forall i :: 0 <= i < |as_| ==> TruthOf(as_[i]) in Truths(as_) {
      forall i, j | 0 <= i < j < |as_| && TruthKeyOf(as_[i]) == TruthKeyOf(as_[j])
        ensures TruthOf(as_[i]) == TruthOf(as_[j])
      {
        RecordedAgree(as_, i, j);
      }
    }
    if KeysAgree(as_) {
      forall i | 0 <= i < |as_|
        ensures TruthOf(as_[i]) in Truths(as_)
      {
        AgreeingIsRecorded(as_, i);
      }
    }
  }

  // ----- what is perturbed -----

  // The points of a series at times that satisfy a predicate.
  function At(when: int -> bool): Point -> bool { (p: Point) => when(p.t) }

  lemma {:induction false} ShiftedOutside(keep: Point -> bool, s: seq<Point>, t: seq<Point>)
    requires |s| == |t|
    requires forall i :: 0 <= i < |s| ==> (keep(s[i]) <==> keep(t[i])) && (keep(s[i]) ==> s[i] == t[i])
    ensures Filter(keep, s) == Filter(keep, t)
  {
    if s != [] {
      ShiftedOutside(keep, s[..|s| - 1], t[..|t| - 1]);
    }
  }

  lemma {:induction false} SilencedOutside(keep: Point -> bool, outside: Point -> bool, s: seq<Point>)
    requires forall i :: 0 <= i < |s| && keep(s[i]) ==> outside(s[i])
    ensures Filter(keep, Filter(outside, s)) == Filter(keep, s)
  {
    if s != [] {
      var n := |s| - 1;
      SilencedOutside(keep, outside, s[..n]);
      FilterSnoc(keep, Filter(outside, s[..n]), s[n]);
    }
  }

  // A fault leaves the points outside its window as they are, in value, number and order.
  lemma FaultStaysInWindow(e: Entry, root: Root, jitter: nat -> real, points: seq<Point>, when: int -> bool)
    requires forall t :: when(t) ==> !Inside(e, t)
    ensures Filter(At(when), Perturbed(e, root, jitter, points)) == Filter(At(when), points)
  {
    if e.fault == Some(Silence) {
      SilencedOutside(At(when), OutsideOf(e), points);
    } else {
      ShiftedOutside(At(when), Perturbed(e, root, jitter, points), points);
    }
  }

  // No entry that targets the series has the time in its window.
  ghost predicate Clear(entries: seq<Entry>, metric: string, labels: Labels, t: int) {
    forall n :: 0 <= n < |entries| && Targets(entries[n], metric, labels) ==> !Inside(entries[n], t)
  }

  lemma {:induction false} InjectionStaysInWindows(entries: seq<Entry>, metric: string, root: Root, draws: Draws,
                                                   series: seq<Series>, i: nat, when: int -> bool)
    requires i < |series| && forall t :: when(t) ==> Clear(entries, metric, series[i].labels, t)
    ensures Filter(At(when), AllInjected(entries, metric, root, draws, series)[i].points) ==
            Filter(At(when), series[i].points)
  {
    if entries != [] {
      var n := |entries| - 1;
      var before := AllInjected(entries[..n], metric, root, draws, series);
      forall t | when(t)
        ensures Clear(entries[..n], metric, series[i].labels, t)
        ensures Targets(entries[n], metric, series[i].labels) ==> !Inside(entries[n], t)
      {
        assert Clear(entries, metric, series[i].labels, t);
      }
      InjectionStaysInWindows(entries[..n], metric, root, draws, series, i, when);
      AllInjectedKeepsLabels(entries[..n], metric, root, draws, series);
      assert LabelsOf(before)[i] == LabelsOf(series)[i];
      if Targets(entries[n], metric, series[i].labels) {
        FaultStaysInWindow(entries[n], root, draws(n, i), before[i].points, when);
      }
      assert AllInjected(entries, metric, root, draws, series)[i] ==
             AfterEntry(entries[n], metric, root, draws(n, i), before[i]);
    }
  }

  lemma {:induction false} TargetIsApplied(name: Naming, e: Entry, n: nat, metric: string, draws: Draws,
                                           series: seq<Series>, i: nat)
    requires i < |series| && Targets(e, metric, series[i].labels)
    ensures Applied(name, e, n, metric, draws(n, i), series[i])[0] in Applications(name, e, n, metric, draws, series)
  {
    var last := |series| - 1;
    if i < last {
      TargetIsApplied(name, e, n, metric, draws, series[..last], i);
    }
  }

  lemma LastTargetIsApplied(name: Naming, entries: seq<Entry>, metric: string, root: Root, draws: Draws,
                            series: seq<Series>, i: nat) returns (a: Application)
    requires i < |series| && entries != [] && Targets(entries[|entries| - 1], metric, series[i].labels)
    ensures a in AllApplications(name, entries, metric, root, draws, series)
    ensures a.e == entries[|entries| - 1] && a.target == name(metric, series[i].labels)
  {
    var n := |entries| - 1;
    var now := AllInjected(entries[..n], metric, root, draws, series);
    AllInjectedKeepsLabels(entries[..n], metric, root, draws, series);
    assert LabelsOf(now)[i] == LabelsOf(series)[i];
    TargetIsApplied(name, entries[n], n, metric, draws, now, i);
    a := Applied(name, entries[n], n, metric, draws(n, i), now[i])[0];
  }

  lemma {:induction false} TargetsAreApplied(name: Naming, entries: seq<Entry>, metric: string, root: Root,
                                             draws: Draws, series: seq<Series>, i: nat, n: nat)
      returns (a: Application)
    requires i < |series| && n < |entries| && Targets(entries[n], metric, series[i].labels)
    ensures a in AllApplications(name, entries, metric, root, draws, series)
    ensures a.e == entries[n] && a.target == name(metric, series[i].labels)
  {
    if n < |entries| - 1 {
      a := TargetsAreApplied(name, entries[..|entries| - 1], metric, root, draws, series, i, n);
    } else {
      a := LastTargetIsApplied(name, entries, metric, root, draws, series, i);
    }
  }

  // The time lies in the window of a truth about the series.
  predicate Explained(truths: seq<GroundTruth>, target: string, t: int) {
    exists i :: 0 <= i < |truths| && truths[i].target == target && truths[i].start <= t <= truths[i].end
  }

  lemma AppliedIsExplained(history: seq<Application>, a: Application, t: int)
    requires WellTyped(history) && KeysAgree(history) && a in history && Inside(a.e, t)
    ensures Explained(Truths(history), a.target, t)
  {
    EverythingRecordedIff(history);
    var j :| 0 <= j < |history| && history[j] == a;
    assert TruthOf(a) in Truths(history);
  }

  // When keys agree over the whole history, the answer key is complete: whatever an
  // injection changes lies in the window of a recorded truth about that series.
  lemma ChangesAreExplained(name: Naming, entries: seq<Entry>, metric: string, root: Root, draws: Draws,
                            series: seq<Series>, i: nat, history: seq<Application>)
    requires i < |series| && WellTyped(history) && KeysAgree(history)
    requires forall a :: a in AllApplications(name, entries, metric, root, draws, series) ==> a in history
    ensures var unexplained := (t: int) => !Explained(Truths(history), name(metric, series[i].labels), t);
            Filter(At(unexplained), AllInjected(entries, metric, root, draws, series)[i].points) ==
            Filter(At(unexplained), series[i].points)
  {
    var target := name(metric, series[i].labels);
    var unexplained := (t: int) => !Explained(Truths(history), target, t);
    forall t | unexplained(t)
      ensures Clear(entries, metric, series[i].labels, t)
    {
      forall n | 0 <= n < |entries| && Targets(entries[n], metric, series[i].labels)
        ensures !Inside(entries[n], t)
      {
        var a := TargetsAreApplied(name, entries, metric, root, draws, series, i, n);
        if Inside(entries[n], t) {
          AppliedIsExplained(history, a, t);
        }
      }
    }
    InjectionStaysInWindows(entries, metric, root, draws, series, i, unexplained);
  }

  lemma TruthsOfNone()
    ensures WellTyped([]) && Truths([]) == [] && KeysOf([]) == {}
  {
  }

  lemma TruthsOfOne(a: Application)
    requires a.e.fault.Some?
    ensures WellTyped([a]) && Truths([a]) == [TruthOf(a)] && KeysOf([a]) == {TruthKeyOf(a)}
  {
    TruthsOfNone();
    KeysOfMore([a], [], a);
  }

  lemma TruthsOfTwo(a: Application, a': Application)
    requires a.e.fault.Some? && a'.e.fault.Some? && TruthKeyOf(a) == TruthKeyOf(a')
    ensures WellTyped([a, a']) && Truths([a, a']) == [TruthOf(a)]
  {
    TruthsOfOne(a);
    KeysOfMore([a, a'], [a], a');
  }

  // Two entries that start together on one series and end apart: only the first is
  // recorded, and what the second changes afterwards is in no truth.
  lemma LaterEndIsLost(a: Application, a': Application)
    requires a.e.fault.Some? && a'.e.fault == a.e.fault && a'.target == a.target
    requires a'.e.start == a.e.start && a.e.start <= a.e.end < a'.e.end
    ensures Truths([a, a']) == [TruthOf(a)]
    ensures Inside(a'.e, a'.e.end) && !Explained(Truths([a, a']), a'.target, a'.e.end)
  {
    TruthsOfTwo(a, a');
  }

  // ----- exactly what was perturbed -----

  // The fault moves or removes a point.
  ghost predicate Moves(e: Entry, root: Root, jitter: nat -> real, points: seq<Point>, i: nat)
    requires i < |points|
  {
    Inside(e, points[i].t) &&
    (e.fault == Some(Silence) || Shift(e, Deviation(root, points), jitter(i), points[i].t) != 0.0)
  }

  lemma SilenceChangesIff(e: Entry, points: seq<Point>)
    ensures Filter(OutsideOf(e), points) != points <==> exists i: nat :: i < |points| && Inside(e, points[i].t)
  {
    if i: nat :| i < |points| && Inside(e, points[i].t) {
      FilterMultiset(OutsideOf(e), points, points[i]);
      assert points[i] in multiset(points);
    } else {
      FilterIsPrefix(OutsideOf(e), points, |points|);
    }
  }

  // A fault changes the points of a series exactly when it moves or removes one of them.
  lemma PerturbsIff(e: Entry, root: Root, jitter: nat -> real, points: seq<Point>)
    ensures Perturbed(e, root, jitter, points) != points <==>
            exists i: nat :: i < |points| && Moves(e, root, jitter, points, i)
  {
    var after := Perturbed(e, root, jitter, points);
    if e.fault == Some(Silence) {
      SilenceChangesIff(e, points);
      assert forall i: nat :: i < |points| ==> (Moves(e, root, jitter, points, i) <==> Inside(e, points[i].t));
    } else {
      assert forall i: nat :: i < |points| ==> (after[i] != points[i] <==> Moves(e, root, jitter, points, i));
      if after != points {
        var i: nat :| i < |points| && after[i] != points[i];
      }
    }
  }

  ghost predicate Changes(root: Root, a: Application) {
    Perturbed(a.e, root, a.jitter, a.before) != a.before
  }

  ghost predicate MovesSome(root: Root, a: Application) {
    exists i: nat :: i < |a.before| && Moves(a.e, root, a.jitter, a.before, i)
  }

  // The first application under its key is the one recorded.
  ghost predicate IsFirst(as_: seq<Application>, i: nat)
    requires WellTyped(as_) && i < |as_|
  {
    forall k: nat :: k < i ==> TruthKeyOf(as_[k]) != TruthKeyOf(as_[i])
  }

  ghost predicate FirstsTruth(as_: seq<Application>, gt: GroundTruth)
    requires WellTyped(as_)
  {
    exists i: nat :: i < |as_| && IsFirst(as_, i) && TruthOf(as_[i]) == gt
  }

  lemma IsFirstInMore(as_: seq<Application>, a: Application)
    requires WellTyped(as_) && a.e.fault.Some?
    ensures WellTyped(as_ + [a])
    ensures IsFirst(as_ + [a], |as_|) <==> TruthKeyOf(a) !in KeysOf(as_)
    ensures forall i: nat :: i < |as_| ==> (IsFirst(as_ + [a], i) <==> IsFirst(as_, i))
  {
    var more := as_ + [a];
    assert more[|as_|] == a && forall i: nat :: i < |as_| ==> more[i] == as_[i];
  }

  lemma FirstsOneMore(as_: seq<Application>, a: Application, gt: GroundTruth)
    requires WellTyped(as_) && a.e.fault.Some? && WellTyped(as_ + [a])
    ensures FirstsTruth(as_ + [a], gt) <==>
            (FirstsTruth(as_, gt) || (TruthKeyOf(a) !in KeysOf(as_) && TruthOf(a) == gt))
  {
    var more := as_ + [a];
    IsFirstInMore(as_, a);
    assert more[|as_|] == a;
    if FirstsTruth(as_, gt) {
      var i: nat :| i < |as_| && IsFirst(as_, i) && TruthOf(as_[i]) == gt;
      assert more[i] == as_[i];
    }
    if FirstsTruth(more, gt) {
      var i: nat :| i < |more| && IsFirst(more, i) && TruthOf(more[i]) == gt;
      assert i < |as_| ==> more[i] == as_[i];
    }
  }

  lemma TruthsOneMore(as_: seq<Application>, init: seq<Application>, a: Application, gt: GroundTruth)
    requires WellTyped(init) && a.e.fault.Some? && as_ == init + [a] && (gt in Truths(init) <==> FirstsTruth(init, gt))
    ensures WellTyped(as_) && (gt in Truths(as_) <==> FirstsTruth(as_, gt))
  {
    KeysOfSnoc(init, a);
    FirstsOneMore(init, a, gt);
  }

  lemma {:induction false} TruthsAreFirsts(as_: seq<Application>, gt: GroundTruth)
    requires WellTyped(as_)
    ensures gt in Truths(as_) <==> FirstsTruth(as_, gt)
  {
    if as_ == [] {
      assert Truths(as_) == [] && !FirstsTruth(as_, gt);
    } else {
      var n := |as_| - 1;
      TruthsAreFirsts(as_[..n], gt);
      TruthsOneMore(as_, as_[..n], as_[n], gt);
    }
  }

  // The truths are those of the applications that changed something, no more and no fewer.
  ghost predicate SaysWhatChanged(root: Root, as_: seq<Application>)
    requires WellTyped(as_)
  {
    && (forall gt :: gt in Truths(as_) ==> exists i: nat :: i < |as_| && Changes(root, as_[i]) && TruthOf(as_[i]) == gt)
    && (forall i: nat :: i < |as_| && Changes(root, as_[i]) ==> TruthOf(as_[i]) in Truths(as_))
  }

  // Some application under the key of the i-th moves a point, and all that do end when it
  // ends and have its magnitude.
  ghost predicate MovedAlike(root: Root, as_: seq<Application>, i: nat)
    requires WellTyped(as_) && i < |as_|
  {
    && (exists j: nat :: j < |as_| && TruthKeyOf(as_[j]) == TruthKeyOf(as_[i]) && MovesSome(root, as_[j]))
    && (forall j: nat :: j < |as_| && TruthKeyOf(as_[j]) == TruthKeyOf(as_[i]) && MovesSome(root, as_[j]) ==>
          TruthOf(as_[j]) == TruthOf(as_[i]))
  }

  lemma {:induction false} FirstUnderKey(as_: seq<Application>, j: nat) returns (i: nat)
    requires WellTyped(as_) && j < |as_|
    ensures i <= j && IsFirst(as_, i) && TruthKeyOf(as_[i]) == TruthKeyOf(as_[j])
    decreases j
  {
    i := j;
    if !IsFirst(as_, j) {
      var k: nat :| k < j && TruthKeyOf(as_[k]) == TruthKeyOf(as_[j]);
      i := FirstUnderKey(as_, k);
    }
  }

  ghost predicate ChangingIsMoving(root: Root, as_: seq<Application>) {
    forall i: nat :: i < |as_| ==> (Changes(root, as_[i]) <==> MovesSome(root, as_[i]))
  }

  lemma RecordedIsMovedAlike(root: Root, as_: seq<Application>, i: nat)
    requires WellTyped(as_) && ChangingIsMoving(root, as_) && SaysWhatChanged(root, as_)
    requires i < |as_| && IsFirst(as_, i)
    ensures MovedAlike(root, as_, i)
  {
    TruthsAreFirsts(as_, TruthOf(as_[i]));
    var j: nat :| j < |as_| && Changes(root, as_[j]) && TruthOf(as_[j]) == TruthOf(as_[i]);
    assert TruthKeyOf(as_[j]) == TruthKeyOf(as_[i]) && MovesSome(root, as_[j]);
    forall k: nat | k < |as_| && TruthKeyOf(as_[k]) == TruthKeyOf(as_[i]) && MovesSome(root, as_[k])
      ensures TruthOf(as_[k]) == TruthOf(as_[i])
    {
      assert Changes(root, as_[k]);
      SameKeySameTruth(as_, TruthOf(as_[k]), TruthOf(as_[i]));
    }
  }

  lemma MovedAlikeIsRecorded(root: Root, as_: seq<Application>)
    requires WellTyped(as_) && ChangingIsMoving(root, as_)
    requires forall i: nat :: i < |as_| && IsFirst(as_, i) ==> MovedAlike(root, as_, i)
    ensures SaysWhatChanged(root, as_)
  {
    forall gt | gt in Truths(as_)
      ensures exists j: nat :: j < |as_| && Changes(root, as_[j]) && TruthOf(as_[j]) == gt
    {
      TruthsAreFirsts(as_, gt);
      var i: nat :| i < |as_| && IsFirst(as_, i) && TruthOf(as_[i]) == gt;
      assert MovedAlike(root, as_, i);
      var j: nat :| j < |as_| && TruthKeyOf(as_[j]) == TruthKeyOf(as_[i]) && MovesSome(root, as_[j]);
    }
    forall j: nat | j < |as_| && Changes(root, as_[j])
      ensures TruthOf(as_[j]) in Truths(as_)
    {
      var i := FirstUnderKey(as_, j);
      assert MovedAlike(root, as_, i);
      assert TruthOf(as_[j]) == TruthOf(as_[i]);
      TruthsAreFirsts(as_, TruthOf(as_[i]));
    }
  }

  // What is recorded is exactly what is perturbed if and only if under every key recorded
  // something is moved, and everything moved has the end and the magnitude recorded.
  lemma RecordedIsPerturbedIff(root: Root, as_: seq<Application>)
    requires WellTyped(as_)
    ensures SaysWhatChanged(root, as_) <==>
            forall i: nat :: i < |as_| && IsFirst(as_, i) ==> MovedAlike(root, as_, i)
  {
    forall i: nat | i < |as_|
      ensures Changes(root, as_[i]) <==> MovesSome(root, as_[i])
    {
      PerturbsIff(as_[i].e, root, as_[i].jitter, as_[i].before);
    }
    if SaysWhatChanged(root, as_) {
      forall i: nat | i < |as_| && IsFirst(as_, i)
        ensures MovedAlike(root, as_, i)
      {
        RecordedIsMovedAlike(root, as_, i);
      }
    }
    if forall i: nat :: i < |as_| && IsFirst(as_, i) ==> MovedAlike(root, as_, i) {
      MovedAlikeIsRecorded(root, as_);
    }
  }

  // A window in which the series has no point perturbs nothing and is recorded all the same.
  lemma EmptyWindowIsRecorded(root: Root, a: Application)
    requires a.e.fault.Some? && forall i :: 0 <= i < |a.before| ==> !Inside(a.e, a.before[i].t)
    ensures WellTyped([a]) && Truths([a]) == [TruthOf(a)] && !Changes(root, a)
  {
    TruthsOfOne(a);
    PerturbsIff(a.e, root, a.jitter, a.before);
  }

  // ----- one truth for every series and injection -----

  type Injection = (string, Labels, nat)

  // The series and the entry, by its place in the profile.
  function InjectionOf(a: Application): Injection { (a.metric, a.labels, a.n) }

  function Injections(as_: seq<Application>): set<Injection> { set i | 0 <= i < |as_| :: InjectionOf(as_[i]) }

  ghost predicate Consistent(as_: seq<Application>)
    requires WellTyped(as_)
  {
    forall i, j :: 0 <= i < j < |as_| && InjectionOf(as_[i]) == InjectionOf(as_[j]) ==>
      TruthKeyOf(as_[i]) == TruthKeyOf(as_[j])
  }

  // Every history of an injector is consistent.
  lemma SourcedIsConsistent(name: Naming, entries: seq<Entry>, as_: seq<Application>)
    requires WellTyped(as_) && Sourced(name, entries, as_)
    ensures Consistent(as_)
  {
  }

  ghost predicate KeysTellApart(as_: seq<Application>)
    requires WellTyped(as_)
  {
    forall i, j :: 0 <= i < j < |as_| && TruthKeyOf(as_[i]) == TruthKeyOf(as_[j]) ==>
      InjectionOf(as_[i]) == InjectionOf(as_[j])
  }

  lemma InjectionsSnoc(as_: seq<Application>, a: Application)
    ensures Injections(as_ + [a]) == Injections(as_) + {InjectionOf(a)}
  {
    forall k | k in Injections(as_) + {InjectionOf(a)}
      ensures k in Injections(as_ + [a])
    {
      if k in Injections(as_) {
        var i :| 0 <= i < |as_| && InjectionOf(as_[i]) == k;
        assert (as_ + [a])[i] == as_[i];
      } else {
        assert (as_ + [a])[|as_|] == a;
      }
    }
  }

  ghost predicate ToldApart(as_: seq<Application>, a: Application)
    requires WellTyped(as_) && a.e.fault.Some?
  {
    forall i :: 0 <= i < |as_| && TruthKeyOf(as_[i]) == TruthKeyOf(a) ==> InjectionOf(as_[i]) == InjectionOf(a)
  }

  // Whether one more application keeps keys telling injections apart.
  lemma TellApartOneMore(as_: seq<Application>, a: Application)
    requires WellTyped(as_) && a.e.fault.Some?
    ensures WellTyped(as_ + [a])
    ensures KeysTellApart(as_ + [a]) <==> (KeysTellApart(as_) && ToldApart(as_, a))
  {
    var more := as_ + [a];
    assert more[|as_|] == a && forall i :: 0 <= i < |as_| ==> more[i] == as_[i];
  }

  ghost predicate Counted(as_: seq<Application>)
    requires WellTyped(as_)
  {
    |Truths(as_)| <= |Injections(as_)| && (|Truths(as_)| == |Injections(as_)| <==> KeysTellApart(as_))
  }

  lemma SeenBefore(as_: seq<Application>, a: Application)
    requires WellTyped(as_) && a.e.fault.Some? && WellTyped(as_ + [a]) && Consistent(as_ + [a])
    requires InjectionOf(a) in Injections(as_)
    ensures TruthKeyOf(a) in KeysOf(as_)
    ensures KeysTellApart(as_) ==> ToldApart(as_, a)
  {
    var more := as_ + [a];
    var j :| 0 <= j < |as_| && InjectionOf(as_[j]) == InjectionOf(a);
    assert more[j] == as_[j] && more[|as_|] == a;
    assert TruthKeyOf(as_[j]) == TruthKeyOf(a);
  }

  lemma NotSeenBefore(as_: seq<Application>, a: Application)
    requires WellTyped(as_) && a.e.fault.Some? && InjectionOf(a) !in Injections(as_)
    ensures ToldApart(as_, a) <==> TruthKeyOf(a) !in KeysOf(as_)
  {
    forall i | 0 <= i < |as_|
      ensures InjectionOf(as_[i]) != InjectionOf(a)
    {
      assert InjectionOf(as_[i]) in Injections(as_);
    }
  }

  lemma CountedSeen(as_: seq<Application>, a: Application)
    requires WellTyped(as_) && a.e.fault.Some? && WellTyped(as_ + [a]) && Consistent(as_ + [a]) && Counted(as_)
    requires InjectionOf(a) in Injections(as_)
    ensures Counted(as_ + [a])
  {
    KeysOfSnoc(as_, a);
    InjectionsSnoc(as_, a);
    TellApartOneMore(as_, a);
    SeenBefore(as_, a);
    assert Injections(as_) + {InjectionOf(a)} == Injections(as_);
  }

  lemma CountedNew(as_: seq<Application>, a: Application)
    requires WellTyped(as_) && a.e.fault.Some? && WellTyped(as_ + [a]) && Counted(as_)
    requires InjectionOf(a) !in Injections(as_)
    ensures Counted(as_ + [a])
  {
    KeysOfSnoc(as_, a);
    InjectionsSnoc(as_, a);
    TellApartOneMore(as_, a);
    NotSeenBefore(as_, a);
    assert |Injections(as_) + {InjectionOf(a)}| == |Injections(as_)| + 1;
  }

  lemma {:induction false} CountedInjections(as_: seq<Application>)
    requires WellTyped(as_) && Consistent(as_)
    ensures Counted(as_)
  {
    if as_ != [] {
      var n := |as_| - 1;
      CountedInjections(as_[..n]);
      assert as_ == as_[..n] + [as_[n]];
      if InjectionOf(as_[n]) in Injections(as_[..n]) {
        CountedSeen(as_[..n], as_[n]);
      } else {
        CountedNew(as_[..n], as_[n]);
      }
    }
  }

  // There is one truth for every series and injection, over any run of an injector, exactly
  // when no two injections on series of one name share a type and a start.
  lemma OneTruthPerInjectionIff(name: Naming, entries: seq<Entry>, as_: seq<Application>)
    requires WellTyped(as_) && Sourced(name, entries, as_)
    ensures |Truths(as_)| == |Injections(as_)| <==> KeysTellApart(as_)
  {
    SourcedIsConsistent(name, entries, as_);
    CountedInjections(as_);
  }

  // ----- how much -----

  lemma JitterIsSmall(size: real, draw: real, shift: real)
    requires size >= 0.0 && 0.0 <= draw <= 1.0 && shift == size * (1.0 + (draw - 0.5) * 0.1)
    ensures size * 0.95 <= shift <= size * 1.05
  {
    var jitter := 1.0 + (draw - 0.5) * 0.1;
    ProductMonotone(0.95, jitter, size);
    ProductMonotone(jitter, 1.05, size);
  }

  lemma RampIsLinear(size: real, progress: real, elapsed: real, length: real, magnitude: real, deviation: real)
    requires size == magnitude * deviation && length > 0.0 && progress == elapsed / length
    ensures progress * magnitude * deviation * length == elapsed * size
  {
    QuotientTimes(elapsed, length);
    assert progress * magnitude * deviation * length == (progress * length) * (magnitude * deviation);
  }

  // What a fault adds to a point, in deviations of the series: a step its magnitude, a spike
  // that up to five percent, and a ramp the share of it that the window has run, nothing when
  // the window has no length.  Outside the window it adds nothing.
  lemma FaultSize(e: Entry, root: Root, jitter: nat -> real, points: seq<Point>, i: nat, added: real, size: real)
    requires i < |points| && e.fault.Some? && e.fault != Some(Silence) && size == e.magnitude * Deviation(root, points)
    requires added == Perturbed(e, root, jitter, points)[i].v - points[i].v
    ensures |Perturbed(e, root, jitter, points)| == |points| && Perturbed(e, root, jitter, points)[i].t == points[i].t
    ensures points[i].t < e.start || points[i].t > e.end ==> added == 0.0
    ensures e.start <= points[i].t <= e.end ==>
              && (e.fault == Some(StepChange) ==> added == size)
              && (e.fault == Some(Spike) && size >= 0.0 && 0.0 <= jitter(i) <= 1.0 ==>
                    size * 0.95 <= added <= size * 1.05)
              && (e.fault == Some(Ramp) && e.start < e.end ==>
                    added * (e.end - e.start) as real == (points[i].t - e.start) as real * size)
              && (e.fault == Some(Ramp) && e.start == e.end ==> added == 0.0)
  {
    var t, deviation := points[i].t, Deviation(root, points);
    if e.start <= t <= e.end {
      assert added == Shift(e, deviation, jitter(i), t);
      if e.fault == Some(Spike) && size >= 0.0 && 0.0 <= jitter(i) <= 1.0 {
        JitterIsSmall(size, jitter(i), added);
      } else if e.fault == Some(Ramp) && e.start < e.end {
        var length := (e.end - e.start) as real;
        RampIsLinear(size, (t - e.start) as real / length, (t - e.start) as real, length, e.magnitude, deviation);
      }
    }
  }
}
