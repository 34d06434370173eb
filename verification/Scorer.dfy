// Scoring of detections against injected ground truth.
module Scorer {
  import opened Sequences

  datatype FaultType = Spike | Ramp | StepChange | Silence

  datatype GroundTruth = GroundTruth(target: string, fault: FaultType, start: int, end: int, magnitude: real)

  // A detection by the fingerprint of its series, and when it was made.
  datatype Detection = Detection(fingerprint: string, time: int)

  predicate Matches(d: Detection, gt: GroundTruth, grace: int) {
    d.fingerprint == gt.target && gt.start <= d.time <= gt.end + grace
  }

  function FirstMatchFrom(d: Detection, truths: seq<GroundTruth>, grace: int, i: nat): (r: nat)
    requires i <= |truths|
    ensures i <= r <= |truths|
    ensures forall j :: i <= j < r ==> !Matches(d, truths[j], grace)
    ensures r < |truths| ==> Matches(d, truths[r], grace)
    decreases |truths| - i
  {
    if i == |truths| || Matches(d, truths[i], grace) then i else FirstMatchFrom(d, truths, grace, i + 1)
  }

  // The first truth a detection matches, or |truths|.
  function FirstMatch(d: Detection, truths: seq<GroundTruth>, grace: int): nat {
    FirstMatchFrom(d, truths, grace, 0)
  }

  // The detection counts for truth i, which it does not match any earlier.
  function CountsFor(truths: seq<GroundTruth>, grace: int, i: nat): Detection -> bool {
    (d: Detection) => FirstMatch(d, truths, grace) == i
  }

  function IsTruePositive(truths: seq<GroundTruth>, grace: int): Detection -> bool {
    (d: Detection) => FirstMatch(d, truths, grace) < |truths|
  }

  // Truth i has been found, and when first.
  datatype TruthState = TruthState(detected: bool, firstDetection: int)

  ghost predicate Reflects(state: TruthState, detections: seq<Detection>, truths: seq<GroundTruth>, grace: int,
                           i: nat) {
    && (state.detected <==> exists j :: 0 <= j < |detections| && CountsFor(truths, grace, i)(detections[j]))
    && (state.detected ==>
          && (exists j ::
                0 <= j < |detections| && CountsFor(truths, grace, i)(detections[j]) &&
                detections[j].time == state.firstDetection)
          && (forall j | 0 <= j < |detections| && CountsFor(truths, grace, i)(detections[j]) ::
                state.firstDetection <= detections[j].time))
  }

  ghost predicate AllReflect(states: seq<TruthState>, detections: seq<Detection>, truths: seq<GroundTruth>,
                             grace: int) {
    |states| == |truths| && forall i :: 0 <= i < |truths| ==> Reflects(states[i], detections, truths, grace, i)
  }

  // Truth i is found by a pass over the detections.
  ghost predicate Detected(detections: seq<Detection>, truths: seq<GroundTruth>, grace: int, i: nat) {
    exists j :: 0 <= j < |detections| && CountsFor(truths, grace, i)(detections[j])
  }

  datatype Tally = Tally(tp: nat, fp: nat, states: seq<TruthState>)

  // The inner loop: the truths in turn, up to the first that matches.
  method Search(d: Detection, truths: seq<GroundTruth>, grace: int) returns (i: nat)
    ensures i == FirstMatch(d, truths, grace) <= |truths|
    ensures forall j :: 0 <= j < i ==>
              d.fingerprint != truths[j].target || d.time < truths[j].start || d.time > truths[j].end + grace
    ensures i < |truths| ==>
              d.fingerprint == truths[i].target && truths[i].start <= d.time <= truths[i].end + grace
  {
    i := 0;
    while i < |truths|
      invariant i <= |truths| && FirstMatch(d, truths, grace) == FirstMatchFrom(d, truths, grace, i)
    {
      var gt := truths[i];
      if d.fingerprint == gt.target {
        var deadline := gt.end + grace;
        if !(d.time < gt.start) && !(d.time > deadline) { return; }
      }
      i := i + 1;
    }
  }

  function Updated(s: TruthState, d: Detection, hit: bool): TruthState {
    if !hit then s
    else TruthState(true, if !s.detected || d.time < s.firstDetection then d.time else s.firstDetection)
  }

  lemma ReflectsOneMore(s: TruthState, before: seq<Detection>, truths: seq<GroundTruth>, grace: int, i: nat,
                        d: Detection)
    requires i < |truths| && Reflects(s, before, truths, grace, i)
    ensures Reflects(Updated(s, d, i == FirstMatch(d, truths, grace)), before + [d], truths, grace, i)
  {
    var after := before + [d];
    assert forall j :: 0 <= j < |before| ==> after[j] == before[j];
    assert after[|before|] == d;
    if s.detected {
      var j :| 0 <= j < |before| && CountsFor(truths, grace, i)(before[j]) && before[j].time == s.firstDetection;
      assert after[j] == before[j];
    }
    if exists j :: 0 <= j < |after| && CountsFor(truths, grace, i)(after[j]) {
      var j :| 0 <= j < |after| && CountsFor(truths, grace, i)(after[j]);
      assert j < |before| ==> CountsFor(truths, grace, i)(before[j]);
    }
  }

  method MatchAll(detections: seq<Detection>, truths: seq<GroundTruth>, grace: int) returns (t: Tally)
    ensures t.tp == Count(IsTruePositive(truths, grace), detections) && t.tp + t.fp == |detections|
    ensures AllReflect(t.states, detections, truths, grace)
  {
    var states := seq(|truths|, i => TruthState(false, 0));
    var tp, fp := 0, 0;
    for n := 0 to |detections|
      invariant |states| == |truths| && tp + fp == n
      invariant tp == Count(IsTruePositive(truths, grace), detections[..n])
      invariant forall i :: 0 <= i < |truths| ==> Reflects(states[i], detections[..n], truths, grace, i)
    {
      var d := detections[n];
      var i := Search(d, truths, grace);
      assert detections[..n + 1] == detections[..n] + [d];
      CountSnoc(IsTruePositive(truths, grace), detections[..n], d);
      forall k | 0 <= k < |truths|
        ensures Reflects(Updated(states[k], d, k == i), detections[..n + 1], truths, grace, k)
      {
        ReflectsOneMore(states[k], detections[..n], truths, grace, k, d);
      }
      if i < |truths| {
        states := states[i := Updated(states[i], d, true)];
        tp := tp + 1;
      } else {
        fp := fp + 1;
      }
    }
    assert detections[..|detections|] == detections;
    t := Tally(tp, fp, states);
  }

  // ----- the figures -----

  datatype Mark = Mark(fault: FaultType, detected: bool)

  // Which truths a pass over the detections finds.
  ghost function Marks(detections: seq<Detection>, truths: seq<GroundTruth>, grace: int): seq<Mark> {
    seq(|truths|, i requires 0 <= i < |truths| => Mark(truths[i].fault, Detected(detections, truths, grace, i)))
  }

  function Found(): Mark -> bool { (m: Mark) => m.detected }
  function OfType(ft: FaultType): Mark -> bool { (m: Mark) => m.fault == ft }
  function FoundOfType(ft: FaultType): Mark -> bool { (m: Mark) => m.fault == ft && m.detected }

  function Ratio(a: int, b: int): real { if b == 0 then 0.0 else a as real / b as real }

  function F1(precision: real, recall: real): real {
    if precision + recall > 0.0 then 2.0 * precision * recall / (precision + recall) else 0.0
  }

  type LatencyKey = (string, FaultType)

  function KeyOf(gt: GroundTruth): LatencyKey { (gt.target, gt.fault) }

  datatype ScoringResult = ScoringResult(
    precision: real, recall: real, f1: real, tp: nat, fp: nat, fn: nat,
    recallByType: map<FaultType, real>, latency: map<LatencyKey, int>)

  // A latency is that of the last truth found under its key, from its start to the
  // earliest detection that counts for it.
  ghost predicate LatencyOf(latency: int, key: LatencyKey, detections: seq<Detection>, truths: seq<GroundTruth>,
                            grace: int, i: nat)
    requires i < |truths|
  {
    && key == KeyOf(truths[i])
    && Detected(detections, truths, grace, i)
    && (exists j ::
          0 <= j < |detections| && CountsFor(truths, grace, i)(detections[j]) &&
          detections[j].time - truths[i].start == latency)
    && (forall j | 0 <= j < |detections| && CountsFor(truths, grace, i)(detections[j]) ::
          latency <= detections[j].time - truths[i].start)
    && (forall k :: i < k < |truths| && KeyOf(truths[k]) == key ==> !Detected(detections, truths, grace, k))
  }

  // There is a latency for the key of every truth found, and no other.
  ghost predicate LatenciesOf(latency: map<LatencyKey, int>, detections: seq<Detection>, truths: seq<GroundTruth>,
                              grace: int) {
    && (forall i: nat :: i < |truths| && Detected(detections, truths, grace, i) ==> KeyOf(truths[i]) in latency)
    && (forall key :: key in latency ==>
          exists i: nat :: i < |truths| && LatencyOf(latency[key], key, detections, truths, grace, i))
  }

  // Of the first n truths, last holds the last one found under each key, latency its latency.
  ghost predicate Latest(states: seq<TruthState>, truths: seq<GroundTruth>, n: nat,
                         latency: map<LatencyKey, int>, last: map<LatencyKey, nat>)
    requires n <= |states| == |truths|
  {
    && last.Keys == latency.Keys
    && (forall key :: key in last ==>
          && last[key] < n && key == KeyOf(truths[last[key]]) && states[last[key]].detected
          && latency[key] == states[last[key]].firstDetection - truths[last[key]].start)
    && (forall k: nat :: k < n && states[k].detected ==> KeyOf(truths[k]) in last && k <= last[KeyOf(truths[k])])
  }

  lemma LatencyIsOfLast(states: seq<TruthState>, detections: seq<Detection>, truths: seq<GroundTruth>, grace: int,
                        i: nat)
    requires AllReflect(states, detections, truths, grace) && i < |truths| && states[i].detected
    requires forall k :: i < k < |truths| && KeyOf(truths[k]) == KeyOf(truths[i]) ==> !states[k].detected
    ensures LatencyOf(states[i].firstDetection - truths[i].start, KeyOf(truths[i]), detections, truths, grace, i)
  {
    assert Reflects(states[i], detections, truths, grace, i);
    forall k | i < k < |truths| && KeyOf(truths[k]) == KeyOf(truths[i])
      ensures !Detected(detections, truths, grace, k)
    {
      assert Reflects(states[k], detections, truths, grace, k);
    }
  }

  lemma LatestIsLast(states: seq<TruthState>, truths: seq<GroundTruth>, latency: map<LatencyKey, int>,
                     last: map<LatencyKey, nat>, key: LatencyKey) returns (i: nat)
    requires |states| == |truths| && Latest(states, truths, |truths|, latency, last) && key in last
    ensures i < |truths| && key == KeyOf(truths[i]) && states[i].detected && key in latency
    ensures latency[key] == states[i].firstDetection - truths[i].start
    ensures forall k :: i < k < |truths| && KeyOf(truths[k]) == key ==> !states[k].detected
  {
    i := last[key];
  }

  lemma LatestHasLatency(states: seq<TruthState>, detections: seq<Detection>, truths: seq<GroundTruth>, grace: int,
                         latency: map<LatencyKey, int>, last: map<LatencyKey, nat>, key: LatencyKey) returns (i: nat)
    requires AllReflect(states, detections, truths, grace) && Latest(states, truths, |truths|, latency, last)
    requires key in latency && key in last
    ensures i < |truths| && LatencyOf(latency[key], key, detections, truths, grace, i)
  {
    i := LatestIsLast(states, truths, latency, last, key);
    LatencyIsOfLast(states, detections, truths, grace, i);
  }

  lemma LatestIsLatency(states: seq<TruthState>, detections: seq<Detection>, truths: seq<GroundTruth>, grace: int,
                        latency: map<LatencyKey, int>, last: map<LatencyKey, nat>)
    requires AllReflect(states, detections, truths, grace) && Latest(states, truths, |truths|, latency, last)
    ensures LatenciesOf(latency, detections, truths, grace)
  {
    forall i: nat | i < |truths| && Detected(detections, truths, grace, i)
      ensures KeyOf(truths[i]) in latency
    {
      assert Reflects(states[i], detections, truths, grace, i);
    }
    forall key | key in latency
      ensures exists i: nat :: i < |truths| && LatencyOf(latency[key], key, detections, truths, grace, i)
    {
      var i := LatestHasLatency(states, detections, truths, grace, latency, last, key);
    }
  }

  lemma LatestOneMore(states: seq<TruthState>, truths: seq<GroundTruth>, n: nat,
                      latency: map<LatencyKey, int>, last: map<LatencyKey, nat>)
    requires n < |states| == |truths| && Latest(states, truths, n, latency, last) && states[n].detected
    ensures Latest(states, truths, n + 1,
                   latency[KeyOf(truths[n]) := states[n].firstDetection - truths[n].start], last[KeyOf(truths[n]) := n])
  {
  }

  lemma LatestStill(states: seq<TruthState>, truths: seq<GroundTruth>, n: nat,
                    latency: map<LatencyKey, int>, last: map<LatencyKey, nat>)
    requires n < |states| == |truths| && Latest(states, truths, n, latency, last) && !states[n].detected
    ensures Latest(states, truths, n + 1, latency, last)
  {
  }

  method Latencies(states: seq<TruthState>, ghost detections: seq<Detection>, truths: seq<GroundTruth>,
                   ghost grace: int)
    returns (latency: map<LatencyKey, int>)
    requires AllReflect(states, detections, truths, grace)
    ensures LatenciesOf(latency, detections, truths, grace)
  {
    latency := map[];
    ghost var last: map<LatencyKey, nat> := map[];
    for i := 0 to |truths|
      invariant Latest(states, truths, i, latency, last)
    {
      if !states[i].detected {
        LatestStill(states, truths, i, latency, last);
      } else {
        LatestOneMore(states, truths, i, latency, last);
        latency := latency[KeyOf(truths[i]) := states[i].firstDetection - truths[i].start];
        last := last[KeyOf(truths[i]) := i];
      }
    }
    LatestIsLatency(states, detections, truths, grace, latency, last);
  }

  method HarmonicMean(precision: real, recall: real) returns (f1: real)
    ensures f1 == F1(precision, recall)
  {
    f1 := 0.0;
    if precision + recall > 0.0 {
      f1 := 2.0 * precision * recall / (precision + recall);
    }
  }

  function At(m: map<FaultType, nat>, ft: FaultType): nat { if ft in m then m[ft] else 0 }

  method CountByType(states: seq<TruthState>, ghost detections: seq<Detection>, truths: seq<GroundTruth>,
                     ghost grace: int)
    returns (fn: nat, typeDetected: map<FaultType, nat>, typeTotal: map<FaultType, nat>)
    requires AllReflect(states, detections, truths, grace)
    ensures var marks := Marks(detections, truths, grace);
            && fn + Count(Found(), marks) == |truths|
            && (forall ft :: At(typeTotal, ft) == Count(OfType(ft), marks))
            && (forall ft :: At(typeDetected, ft) == Count(FoundOfType(ft), marks))
  {
    ghost var marks := Marks(detections, truths, grace);
    fn, typeDetected, typeTotal := 0, map[], map[];
    for i := 0 to |truths|
      invariant fn + Count(Found(), marks[..i]) == i
      invariant forall ft :: At(typeTotal, ft) == Count(OfType(ft), marks[..i])
      invariant forall ft :: At(typeDetected, ft) == Count(FoundOfType(ft), marks[..i])
    {
      var ft := truths[i].fault;
      assert marks[i] == Mark(ft, states[i].detected) by {
        assert Reflects(states[i], detections, truths, grace, i);
      }
      assert marks[..i + 1] == marks[..i] + [marks[i]];
      CountSnoc(Found(), marks[..i], marks[i]);
      forall other: FaultType
        ensures Count(OfType(other), marks[..i + 1]) == Count(OfType(other), marks[..i]) + if other == ft then 1 else 0
        ensures Count(FoundOfType(other), marks[..i + 1]) ==
                Count(FoundOfType(other), marks[..i]) + if other == ft && states[i].detected then 1 else 0
      {
        CountSnoc(OfType(other), marks[..i], marks[i]);
        CountSnoc(FoundOfType(other), marks[..i], marks[i]);
      }
      typeTotal := typeTotal[ft := At(typeTotal, ft) + 1];
      if states[i].detected {
        typeDetected := typeDetected[ft := At(typeDetected, ft) + 1];
      } else {
        fn := fn + 1;
      }
    }
    assert marks[..|truths|] == marks;
  }

  method Fraction(a: int, b: int) returns (q: real)
    ensures q == Ratio(a, b)
  {
    q := 0.0;
    if b != 0 {
      q := a as real / b as real;
    }
  }

  method RecallByType(typeDetected: map<FaultType, nat>, typeTotal: map<FaultType, nat>)
    returns (recallByType: map<FaultType, real>)
    ensures forall ft :: ft in recallByType <==> At(typeTotal, ft) > 0
    ensures forall ft :: ft in recallByType ==> recallByType[ft] == Ratio(At(typeDetected, ft), At(typeTotal, ft))
  {
    recallByType := map ft | ft in typeTotal && typeTotal[ft] > 0 :: Ratio(At(typeDetected, ft), typeTotal[ft]);
  }

  method Score(detections: seq<Detection>, truths: seq<GroundTruth>, grace: int) returns (r: ScoringResult)
    ensures r.tp == Count(IsTruePositive(truths, grace), detections) && r.tp + r.fp == |detections|
    ensures var marks := Marks(detections, truths, grace);
            && r.fn + Count(Found(), marks) == |truths|
            && r.precision == Ratio(r.tp, |detections|)
            && r.recall == Ratio(Count(Found(), marks), |truths|)
            && r.f1 == F1(r.precision, r.recall)
            && (forall ft :: ft in r.recallByType <==> Count(OfType(ft), marks) > 0)
            && (forall ft :: ft in r.recallByType ==>
                  r.recallByType[ft] == Ratio(Count(FoundOfType(ft), marks), Count(OfType(ft), marks)))
    ensures LatenciesOf(r.latency, detections, truths, grace)
  {
    ghost var marks := Marks(detections, truths, grace);
    if |truths| == 0 && |detections| == 0 {
      return ScoringResult(0.0, 0.0, 0.0, 0, 0, 0, map[], map[]);
    }
    var t := MatchAll(detections, truths, grace);
    var fn, typeDetected, typeTotal := CountByType(t.states, detections, truths, grace);

    var precision := Fraction(t.tp, t.tp + t.fp);
    var recall := Fraction(|truths| - fn, |truths|);
    var f1 := HarmonicMean(precision, recall);
    var recallByType := RecallByType(typeDetected, typeTotal);
    var latency := Latencies(t.states, detections, truths, grace);
    r := ScoringResult(precision, recall, f1, t.tp, t.fp, fn, recallByType, latency);
  }
}
