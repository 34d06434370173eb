// Synthetic faults and the ground truth kept about them.
module Injector {
  import opened Workload
  import opened Sequences
  import opened Baseline
  import opened Statistics
  import opened Scorer

  datatype Point = Point(t: int, v: real)
  datatype Series = Series(labels: Labels, points: seq<Point>)

  // An entry of the injection profile.  A type the profile misspells is none.
  datatype Entry = Entry(metric: string, required: Labels, fault: Option<FaultType>, start: int, end: int,
                         magnitude: real)

  // How a series is named, and the square root: nothing here depends on them.
  type Naming = (string, Labels) -> string
  type Root = real -> real

  function Value(): Point -> real { (p: Point) => p.v }

  // ----- one fault on one series -----

  predicate Inside(e: Entry, t: int) { e.start <= t <= e.end }

  function OutsideOf(e: Entry): Point -> bool { (p: Point) => !Inside(e, p.t) }

  // draw is the random number a spike's jitter is made of.
  function Shift(e: Entry, deviation: real, draw: real, t: int): real {
    match e.fault
    case Some(Spike) => e.magnitude * deviation * (1.0 + (draw - 0.5) * 0.1)
    case Some(Ramp) =>
      if e.end <= e.start then 0.0
      else (t - e.start) as real / (e.end - e.start) as real * e.magnitude * deviation
    case Some(StepChange) => e.magnitude * deviation
    case _ => 0.0
  }

  function Shifted(e: Entry, deviation: real, jitter: nat -> real, i: nat, p: Point): Point {
    if Inside(e, p.t) then Point(p.t, p.v + Shift(e, deviation, jitter(i), p.t)) else p
  }

  function Deviation(root: Root, points: seq<Point>): real {
    var values := Map(Value(), points);
    root(if |values| < 2 || VarianceOf(values) == 0.0 then 1.0 else VarianceOf(values))
  }

  function Perturbed(e: Entry, root: Root, jitter: nat -> real, points: seq<Point>): seq<Point> {
    if e.fault == Some(Silence) then Filter(OutsideOf(e), points)
    else
      var deviation := Deviation(root, points);
      seq(|points|, i requires 0 <= i < |points| => Shifted(e, deviation, jitter, i, points[i]))
  }

  lemma RampNeedsTime(e: Entry, root: Root, jitter: nat -> real, points: seq<Point>)
    requires e.fault == Some(Ramp) && e.end <= e.start
    ensures Perturbed(e, root, jitter, points) == points
  {
  }

  method Inflict(e: Entry, root: Root, jitter: nat -> real, points: seq<Point>) returns (after: seq<Point>)
    requires e.fault.Some?
    ensures after == Perturbed(e, root, jitter, points)
  {
    if e.fault == Some(Silence) {
      after := [];
      for i := 0 to |points|
        invariant after == Filter(OutsideOf(e), points[..i])
      {
        assert points[..i + 1][..i] == points[..i];
        if points[i].t < e.start || points[i].t > e.end {
          after := after + [points[i]];
        }
      }
      assert points[..|points|] == points;
      return;
    }
    var variance := SeriesVariance(Map(Value(), points));
    var deviation := root(variance);
    after := points;
    if e.fault == Some(Ramp) && e.end <= e.start {
      RampNeedsTime(e, root, jitter, points);
      return;
    }
    for i := 0 to |points|
      invariant |after| == |points|
      invariant forall k :: 0 <= k < i ==> after[k] == Shifted(e, deviation, jitter, k, points[k])
      invariant forall k :: i <= k < |points| ==> after[k] == points[k]
    {
      var p := after[i];
      if !(p.t < e.start) && !(p.t > e.end) {
        after := after[i := Point(p.t, p.v + Shift(e, deviation, jitter(i), p.t))];
      }
    }
  }

  // ----- a profile on the series of a query -----

  predicate MatchesLabels(required: Labels, actual: Labels) {
    forall k :: k in required ==> (if k in actual then actual[k] else "") == required[k]
  }

  method MatchLabels(required: Labels, actual: Labels) returns (matches: bool)
    ensures matches == MatchesLabels(required, actual)
  {
    var todo := required.Keys;
    while todo != {}
      invariant todo <= required.Keys
      invariant forall k :: k in required && k !in todo ==> (if k in actual then actual[k] else "") == required[k]
    {
      var k :| k in todo;
      if (if k in actual then actual[k] else "") != required[k] { return false; }
      todo := todo - {k};
    }
    return true;
  }

  predicate Targets(e: Entry, metric: string, labels: Labels) {
    e.metric == metric && e.fault.Some? && MatchesLabels(e.required, labels)
  }

  // The random numbers drawn for entry n on series i.
  type Draws = (nat, nat) -> (nat -> real)

  function AfterEntry(e: Entry, metric: string, root: Root, jitter: nat -> real, s: Series): Series {
    if Targets(e, metric, s.labels) then s.(points := Perturbed(e, root, jitter, s.points)) else s
  }

  function AllAfterEntry(e: Entry, metric: string, root: Root, draws: Draws, n: nat, series: seq<Series>): seq<Series> {
    seq(|series|, i requires 0 <= i < |series| => AfterEntry(e, metric, root, draws(n, i), series[i]))
  }

  // The series once every entry has had its turn.
  function AllInjected(entries: seq<Entry>, metric: string, root: Root, draws: Draws,
                       series: seq<Series>): (r: seq<Series>)
    ensures |r| == |series|
  {
    if entries == [] then series
    else
      var n := |entries| - 1;
      AllAfterEntry(entries[n], metric, root, draws, n, AllInjected(entries[..n], metric, root, draws, series))
  }

  // An entry, by its place in the profile, applied to a series, with the name the series
  // goes by, the points it held then and the factors of the jitter.
  datatype Application = Application(
    metric: string, labels: Labels, n: nat, target: string, e: Entry, jitter: nat -> real, before: seq<Point>)

  function Applied(name: Naming, e: Entry, n: nat, metric: string, jitter: nat -> real, s: Series): seq<Application> {
    if Targets(e, metric, s.labels)
    then [Application(metric, s.labels, n, name(metric, s.labels), e, jitter, s.points)] else []
  }

  function Applications(name: Naming, e: Entry, n: nat, metric: string, draws: Draws, series: seq<Series>)
    : seq<Application>
  {
    if series == [] then []
    else
      var i := |series| - 1;
      Applications(name, e, n, metric, draws, series[..i]) + Applied(name, e, n, metric, draws(n, i), series[i])
  }

  function AllApplications(name: Naming, entries: seq<Entry>, metric: string, root: Root, draws: Draws,
                           series: seq<Series>): seq<Application>
  {
    if entries == [] then []
    else
      var n := |entries| - 1;
      AllApplications(name, entries[..n], metric, root, draws, series) +
      Applications(name, entries[n], n, metric, draws, AllInjected(entries[..n], metric, root, draws, series))
  }

  // ----- the ground truth -----

  type TruthKey = (string, FaultType, int)

  predicate WellTyped(as_: seq<Application>) { forall i :: 0 <= i < |as_| ==> as_[i].e.fault.Some? }

  function TruthKeyOf(a: Application): TruthKey
    requires a.e.fault.Some?
  {
    (a.target, a.e.fault.value, a.e.start)
  }

  function TruthOf(a: Application): GroundTruth
    requires a.e.fault.Some?
  {
    GroundTruth(a.target, a.e.fault.value, a.e.start, a.e.end, a.e.magnitude)
  }

  function KeysOf(as_: seq<Application>): set<TruthKey>
    requires WellTyped(as_)
  {
    set i | 0 <= i < |as_| :: TruthKeyOf(as_[i])
  }

  // The truths of a history: that of each application whose key is new.
  function Truths(as_: seq<Application>): seq<GroundTruth>
    requires WellTyped(as_)
  {
    if as_ == [] then []
    else
      var n := |as_| - 1;
      Truths(as_[..n]) + if TruthKeyOf(as_[n]) in KeysOf(as_[..n]) then [] else [TruthOf(as_[n])]
  }

  function LabelsOf(series: seq<Series>): seq<Labels> {
    seq(|series|, i requires 0 <= i < |series| => series[i].labels)
  }

  lemma {:induction false} NothingApplied(name: Naming, e: Entry, n: nat, metric: string, draws: Draws,
                                          series: seq<Series>)
    requires e.metric != metric || e.fault == None
    ensures Applications(name, e, n, metric, draws, series) == []
  {
    if series != [] {
      NothingApplied(name, e, n, metric, draws, series[..|series| - 1]);
    }
  }

  lemma KeysOfSnoc(as_: seq<Application>, a: Application)
    requires WellTyped(as_) && a.e.fault.Some?
    ensures WellTyped(as_ + [a]) && KeysOf(as_ + [a]) == KeysOf(as_) + {TruthKeyOf(a)}
    ensures Truths(as_ + [a]) == Truths(as_) + if TruthKeyOf(a) in KeysOf(as_) then [] else [TruthOf(a)]
  {
    assert (as_ + [a])[..|as_|] == as_;
    forall k | k in KeysOf(as_) + {TruthKeyOf(a)}
      ensures k in KeysOf(as_ + [a])
    {
      if k in KeysOf(as_) {
        var i :| 0 <= i < |as_| && TruthKeyOf(as_[i]) == k;
        assert (as_ + [a])[i] == as_[i];
      } else {
        assert (as_ + [a])[|as_|] == a;
      }
    }
  }

  // The same, of a history that is one longer.
  lemma KeysOfMore(as_: seq<Application>, init: seq<Application>, a: Application)
    requires WellTyped(init) && a.e.fault.Some? && as_ == init + [a]
    ensures WellTyped(as_) && KeysOf(as_) == KeysOf(init) + {TruthKeyOf(a)}
    ensures Truths(as_) == Truths(init) + if TruthKeyOf(a) in KeysOf(init) then [] else [TruthOf(a)]
  {
    KeysOfSnoc(init, a);
  }

  // ----- loops over entries and series, a step at a time -----

  // The first i elements are done, the others as before.
  ghost predicate PartDone<T>(done: seq<T>, before: seq<T>, now: seq<T>, i: nat) {
    i <= |before| == |done| && now == done[..i] + before[i..]
  }

  lemma SeriesOneMore<T>(done: seq<T>, before: seq<T>, now: seq<T>, i: nat)
    requires i < |before| && PartDone(done, before, now, i)
    ensures now[i] == before[i] && PartDone(done, before, now[i := done[i]], i + 1)
  {
  }

  lemma AllDone<T>(done: seq<T>, before: seq<T>, now: seq<T>)
    requires PartDone(done, before, now, |before|)
    ensures now == done && before[..|before|] == before
  {
  }

  lemma ApplicationsOneMore(name: Naming, e: Entry, n: nat, metric: string, draws: Draws, series: seq<Series>, i: nat)
    requires i < |series|
    ensures Applications(name, e, n, metric, draws, series[..i + 1]) ==
            Applications(name, e, n, metric, draws, series[..i]) + Applied(name, e, n, metric, draws(n, i), series[i])
  {
    assert series[..i + 1][..i] == series[..i];
  }

  lemma HistoryOneMore(past: seq<Application>, history: seq<Application>, name: Naming, e: Entry, n: nat,
                       metric: string, draws: Draws, series: seq<Series>, i: nat)
    requires i < |series| && history == past + Applications(name, e, n, metric, draws, series[..i])
    ensures history + Applied(name, e, n, metric, draws(n, i), series[i]) ==
            past + Applications(name, e, n, metric, draws, series[..i + 1])
  {
    ApplicationsOneMore(name, e, n, metric, draws, series, i);
    Associative(past, Applications(name, e, n, metric, draws, series[..i]),
                Applied(name, e, n, metric, draws(n, i), series[i]));
  }

  lemma EntryKeepsLabels(e: Entry, metric: string, root: Root, draws: Draws, n: nat, series: seq<Series>)
    ensures LabelsOf(AllAfterEntry(e, metric, root, draws, n, series)) == LabelsOf(series)
    ensures e.metric != metric || e.fault == None ==> AllAfterEntry(e, metric, root, draws, n, series) == series
  {
    forall i | 0 <= i < |series|
      ensures AllAfterEntry(e, metric, root, draws, n, series)[i] == AfterEntry(e, metric, root, draws(n, i), series[i])
      ensures AfterEntry(e, metric, root, draws(n, i), series[i]).labels == series[i].labels
      ensures !Targets(e, metric, series[i].labels) ==>
                AfterEntry(e, metric, root, draws(n, i), series[i]) == series[i]
    {
    }
    assert e.metric != metric || e.fault == None ==> forall labels :: !Targets(e, metric, labels);
  }

  lemma {:induction false} AllInjectedKeepsLabels(entries: seq<Entry>, metric: string, root: Root, draws: Draws,
                                                  series: seq<Series>)
    ensures LabelsOf(AllInjected(entries, metric, root, draws, series)) == LabelsOf(series)
  {
    if entries != [] {
      var n := |entries| - 1;
      AllInjectedKeepsLabels(entries[..n], metric, root, draws, series);
      EntryKeepsLabels(entries[n], metric, root, draws, n, AllInjected(entries[..n], metric, root, draws, series));
    }
  }

  lemma AllInjectedOneMore(entries: seq<Entry>, n: nat, metric: string, root: Root, draws: Draws, series: seq<Series>)
    requires n < |entries|
    ensures var now := AllInjected(entries[..n], metric, root, draws, series);
            && LabelsOf(now) == LabelsOf(series)
            && AllInjected(entries[..n + 1], metric, root, draws, series) ==
               AllAfterEntry(entries[n], metric, root, draws, n, now)
            && (entries[n].metric != metric || entries[n].fault == None ==>
                  AllAfterEntry(entries[n], metric, root, draws, n, now) == now)
  {
    assert entries[..n + 1][..n] == entries[..n];
    AllInjectedKeepsLabels(entries[..n], metric, root, draws, series);
    EntryKeepsLabels(entries[n], metric, root, draws, n, AllInjected(entries[..n], metric, root, draws, series));
  }

  lemma AllApplicationsOneMore(name: Naming, entries: seq<Entry>, n: nat, metric: string, root: Root, draws: Draws,
                               series: seq<Series>)
    requires n < |entries|
    ensures var before := AllApplications(name, entries[..n], metric, root, draws, series);
            var now := AllInjected(entries[..n], metric, root, draws, series);
            && AllApplications(name, entries[..n + 1], metric, root, draws, series) ==
               before + Applications(name, entries[n], n, metric, draws, now)
            && (entries[n].metric != metric || entries[n].fault == None ==>
                  AllApplications(name, entries[..n + 1], metric, root, draws, series) == before)
  {
    assert entries[..n + 1][..n] == entries[..n];
    if entries[n].metric != metric || entries[n].fault == None {
      NothingApplied(name, entries[n], n, metric, draws, AllInjected(entries[..n], metric, root, draws, series));
    }
  }

  // Every application is that of an entry of the profile, under the name of its series.
  ghost predicate Sourced(name: Naming, entries: seq<Entry>, as_: seq<Application>) {
    forall i :: 0 <= i < |as_| ==>
      && as_[i].n < |entries| && as_[i].e == entries[as_[i].n]
      && as_[i].target == name(as_[i].metric, as_[i].labels)
  }

  // What is recorded, and the truths about it, are what the history comes to.
  ghost predicate IsRecord(name: Naming, entries: seq<Entry>, history: seq<Application>, recorded: set<TruthKey>,
                           truths: seq<GroundTruth>) {
    && WellTyped(history) && Sourced(name, entries, history)
    && recorded == KeysOf(history) && truths == Truths(history)
  }

  lemma SourcedSnoc(name: Naming, entries: seq<Entry>, history: seq<Application>, a: Application)
    requires Sourced(name, entries, history)
    requires a.n < |entries| && a.e == entries[a.n] && a.target == name(a.metric, a.labels)
    ensures Sourced(name, entries, history + [a])
  {
  }

  lemma RecordOneMore(name: Naming, entries: seq<Entry>, history: seq<Application>, recorded: set<TruthKey>,
                      truths: seq<GroundTruth>, a: Application)
    requires IsRecord(name, entries, history, recorded, truths)
    requires a.n < |entries| && a.e == entries[a.n] && a.e.fault.Some? && a.target == name(a.metric, a.labels)
    ensures TruthKeyOf(a) in recorded ==> IsRecord(name, entries, history + [a], recorded, truths)
    ensures TruthKeyOf(a) !in recorded ==>
              IsRecord(name, entries, history + [a], recorded + {TruthKeyOf(a)}, truths + [TruthOf(a)])
  {
    KeysOfSnoc(history, a);
    SourcedSnoc(name, entries, history, a);
    if TruthKeyOf(a) in recorded {
      assert recorded + {TruthKeyOf(a)} == recorded && truths + [] == truths;
    }
  }

  class Injector {
    const entries: seq<Entry>
    const name: Naming
    const root: Root
    var recorded: set<TruthKey>
    var truths: seq<GroundTruth>
    ghost var history: seq<Application>

    constructor (entries: seq<Entry>, name: Naming, root: Root)
      ensures this.entries == entries && this.name == name && this.root == root
      ensures Valid() && history == []
    {
      this.entries, this.name, this.root := entries, name, root;
      recorded, truths, history := {}, [], [];
    }

    // What is recorded is what the history of applications comes to.
    ghost predicate Valid()
      reads this
    {
      IsRecord(name, entries, history, recorded, truths)
    }

    method Record(metric: string, s: Series, n: nat, ghost jitter: nat -> real)
      requires Valid() && n < |entries| && entries[n].fault.Some?
      modifies this`recorded, this`truths, this`history
      ensures Valid()
      ensures history == old(history) +
                [Application(metric, s.labels, n, name(metric, s.labels), entries[n], jitter, s.points)]
      ensures var key := (name(metric, s.labels), entries[n].fault.value, entries[n].start);
              && recorded == old(recorded) + {key}
              && truths == old(truths) +
                   if key in old(recorded) then []
                   else [GroundTruth(key.0, key.1, key.2, entries[n].end, entries[n].magnitude)]
    {
      var e, target := entries[n], name(metric, s.labels);
      ghost var a := Application(metric, s.labels, n, target, e, jitter, s.points);
      RecordOneMore(name, entries, history, recorded, truths, a);
      var key := (target, e.fault.value, e.start);
      if key !in recorded {
        recorded := recorded + {key};
        truths := truths + [GroundTruth(target, e.fault.value, e.start, e.end, e.magnitude)];
      }
      history := history + [a];
    }

    // Entry n on one series.
    method ApplyTo(metric: string, s: Series, i: nat, n: nat, draws: Draws) returns (after: Series)
      requires Valid() && n < |entries| && entries[n].metric == metric && entries[n].fault.Some?
      modifies this`recorded, this`truths, this`history
      ensures Valid()
      ensures history == old(history) + Applied(name, entries[n], n, metric, draws(n, i), s)
      ensures after == AfterEntry(entries[n], metric, root, draws(n, i), s)
    {
      after := s;
      var matches := MatchLabels(entries[n].required, s.labels);
      if matches {
        Record(metric, s, n, draws(n, i));
        var points := Inflict(entries[n], root, draws(n, i), s.points);
        after := s.(points := points);
      }
    }

    // Entry n on every series it targets.
    method ApplyEntry(metric: string, series: array<Series>, n: nat, draws: Draws)
      requires Valid() && n < |entries| && entries[n].metric == metric && entries[n].fault.Some?
      modifies this`recorded, this`truths, this`history, series
      ensures Valid()
      ensures history == old(history) + Applications(name, entries[n], n, metric, draws, old(series[..]))
      ensures series[..] == AllAfterEntry(entries[n], metric, root, draws, n, old(series[..]))
    {
      ghost var before := series[..];
      ghost var done := AllAfterEntry(entries[n], metric, root, draws, n, before);
      for i := 0 to series.Length
        invariant Valid() && PartDone(done, before, series[..], i)
        invariant history == old(history) + Applications(name, entries[n], n, metric, draws, before[..i])
      {
        SeriesOneMore(done, before, series[..], i);
        HistoryOneMore(old(history), history, name, entries[n], n, metric, draws, before, i);
        var after := ApplyTo(metric, series[i], i, n, draws);
        series[i] := after;
      }
      AllDone(done, before, series[..]);
    }

    // Every entry on the series of one query, in place.
    method Apply(metric: string, series: array<Series>, draws: Draws)
      requires Valid()
      modifies this`recorded, this`truths, this`history, series
      ensures Valid()
      ensures history == old(history) + AllApplications(name, entries, metric, root, draws, old(series[..]))
      ensures series[..] == AllInjected(entries, metric, root, draws, old(series[..]))
    {
      ghost var before := series[..];
      for n := 0 to |entries|
        invariant Valid()
        invariant history == old(history) + AllApplications(name, entries[..n], metric, root, draws, before)
        invariant series[..] == AllInjected(entries[..n], metric, root, draws, before)
      {
        AllInjectedOneMore(entries, n, metric, root, draws, before);
        AllApplicationsOneMore(name, entries, n, metric, root, draws, before);
        if entries[n].metric != metric || entries[n].fault == None { continue; }
        Associative(old(history), AllApplications(name, entries[..n], metric, root, draws, before),
                    Applications(name, entries[n], n, metric, draws, series[..]));
        ApplyEntry(metric, series, n, draws);
      }
      assert entries[..|entries|] == entries;
    }
  }
}
