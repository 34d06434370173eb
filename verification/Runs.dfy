// Whole runs of a correlator: anomalies added and groups flushed as time passes.
module Runs {
  import opened Sequences
  import opened Anomalies
  import opened Correlation
  import opened CorrelationTheorems
  import opened Dedup
  import opened Correlator

  // One flush: the groups that were ready, the orders in which maps were ranged over, the
  // alerts it built, when it began, when each alert came up and which calls to the store failed.
  datatype Batch = Batch(
    groups: Groups, orders: Orders, alerts: seq<Alert>, now: int, times: Times, outages: nat -> Outage)

  function AfterBatch(before: seq<Event<Fingerprint>>, b: Batch, cooldown: int): seq<Event<Fingerprint>> {
    before + EventsOf(b.alerts, b.times, cooldown, b.outages)
  }

  // What the store has been through after some flushes.
  function LogAfter(past: seq<Event<Fingerprint>>, batches: seq<Batch>, cooldown: int): seq<Event<Fingerprint>> {
    if batches == [] then past
    else AfterBatch(LogAfter(past, batches[..|batches| - 1], cooldown), batches[|batches| - 1], cooldown)
  }

  // Where the events of flush i begin.
  function Start(past: seq<Event<Fingerprint>>, batches: seq<Batch>, cooldown: int, i: nat): nat
    requires i <= |batches|
  {
    |LogAfter(past, batches[..i], cooldown)|
  }

  // What flush i returned.
  function Returned(past: seq<Event<Fingerprint>>, batches: seq<Batch>, cooldown: int, i: nat): seq<Alert>
    requires i < |batches|
  {
    var before := LogAfter(past, batches[..i], cooldown);
    Undropped(AfterBatch(before, batches[i], cooldown), |before|, batches[i].alerts)
  }

  lemma LogAfterSnoc(past: seq<Event<Fingerprint>>, batches: seq<Batch>, b: Batch, cooldown: int)
    ensures LogAfter(past, batches + [b], cooldown) == AfterBatch(LogAfter(past, batches, cooldown), b, cooldown)
  {
    assert (batches + [b])[..|batches|] == batches;
  }

  lemma BatchEvent(before: seq<Event<Fingerprint>>, b: Batch, cooldown: int, p: nat)
    requires p < |b.alerts|
    ensures |AfterBatch(before, b, cooldown)| == |before| + |b.alerts|
    ensures AfterBatch(before, b, cooldown)[|before| + p] == EventOf(b.alerts[p], b.times(p), cooldown, b.outages(p))
  {
  }

  // The history after the first n flushes is the start of the history after all.
  lemma {:induction false} LogGrows(past: seq<Event<Fingerprint>>, batches: seq<Batch>, cooldown: int, n: nat)
    requires n <= |batches|
    ensures LogAfter(past, batches[..n], cooldown) <= LogAfter(past, batches, cooldown)
  {
    if n == |batches| {
      assert batches[..n] == batches;
    } else {
      var last := |batches| - 1;
      LogGrows(past, batches[..last], cooldown, n);
      assert batches[..last][..n] == batches[..n];
    }
  }

  lemma StartsGrow(past: seq<Event<Fingerprint>>, batches: seq<Batch>, cooldown: int, i: nat, j: nat)
    requires i <= j <= |batches|
    ensures Start(past, batches, cooldown, i) <= Start(past, batches, cooldown, j)
    ensures Start(past, batches, cooldown, j) <= |LogAfter(past, batches, cooldown)|
  {
    assert batches[..j][..i] == batches[..i];
    LogGrows(past, batches[..j], cooldown, i);
    LogGrows(past, batches, cooldown, j);
  }

  lemma LogUpTo(past: seq<Event<Fingerprint>>, batches: seq<Batch>, cooldown: int, i: nat)
    requires i < |batches|
    ensures AfterBatch(LogAfter(past, batches[..i], cooldown), batches[i], cooldown) <=
            LogAfter(past, batches, cooldown)
    ensures Start(past, batches, cooldown, i + 1) == Start(past, batches, cooldown, i) + |batches[i].alerts|
  {
    assert batches[..i + 1] == batches[..i] + [batches[i]];
    LogAfterSnoc(past, batches[..i], batches[i], cooldown);
    LogGrows(past, batches, cooldown, i + 1);
  }

  // Alert p of flush i, as an event of the whole history.
  lemma EventIs(past: seq<Event<Fingerprint>>, batches: seq<Batch>, cooldown: int, i: nat, p: nat)
    requires i < |batches| && p < |batches[i].alerts|
    ensures var log, e, b := LogAfter(past, batches, cooldown), Start(past, batches, cooldown, i) + p, batches[i];
            e < |log| && log[e] == EventOf(b.alerts[p], b.times(p), cooldown, b.outages(p))
  {
    LogUpTo(past, batches, cooldown, i);
    BatchEvent(LogAfter(past, batches[..i], cooldown), batches[i], cooldown, p);
  }

  // ----- what was returned -----

  // Alert p of flush i was returned.
  ghost predicate LeftAt(past: seq<Event<Fingerprint>>, batches: seq<Batch>, cooldown: int, i: nat, p: nat) {
    && i < |batches| && p < |batches[i].alerts|
    && Start(past, batches, cooldown, i) + p < |LogAfter(past, batches, cooldown)|
    && !Dropped(LogAfter(past, batches, cooldown), Start(past, batches, cooldown, i) + p)
  }

  lemma {:induction false} UndroppedIff(log: seq<Event<Fingerprint>>, start: nat, alerts: seq<Alert>, a: Alert)
    requires start + |alerts| <= |log|
    ensures a in Undropped(log, start, alerts) <==>
            exists p: nat :: p < |alerts| && !Dropped(log, start + p) && alerts[p] == a
  {
    if alerts != [] {
      var n := |alerts| - 1;
      UndroppedIff(log, start, alerts[..n], a);
      assert forall p: nat :: p < n ==> alerts[..n][p] == alerts[p];
    }
  }

  lemma DroppedInPrefix(prefix: seq<Event<Fingerprint>>, log: seq<Event<Fingerprint>>, e: nat)
    requires prefix <= log && e < |prefix|
    ensures Dropped(prefix, e) == Dropped(log, e)
  {
    assert prefix[..e] == log[..e];
  }

  lemma LeftAtIff(past: seq<Event<Fingerprint>>, batches: seq<Batch>, cooldown: int, i: nat, p: nat)
    requires i < |batches| && p < |batches[i].alerts|
    ensures var before := LogAfter(past, batches[..i], cooldown);
            && |before| + p < |AfterBatch(before, batches[i], cooldown)|
            && (LeftAt(past, batches, cooldown, i, p) <==>
                !Dropped(AfterBatch(before, batches[i], cooldown), |before| + p))
  {
    var before := LogAfter(past, batches[..i], cooldown);
    LogUpTo(past, batches, cooldown, i);
    BatchEvent(before, batches[i], cooldown, p);
    DroppedInPrefix(AfterBatch(before, batches[i], cooldown), LogAfter(past, batches, cooldown), |before| + p);
  }

  lemma LeftInBatch(past: seq<Event<Fingerprint>>, batches: seq<Batch>, cooldown: int, i: nat,
                    before: seq<Event<Fingerprint>>, after: seq<Event<Fingerprint>>, p: nat)
    requires i < |batches| && p < |batches[i].alerts|
    requires before == LogAfter(past, batches[..i], cooldown) && after == AfterBatch(before, batches[i], cooldown)
    requires |before| + p < |after| && !Dropped(after, |before| + p)
    ensures LeftAt(past, batches, cooldown, i, p)
  {
    LeftAtIff(past, batches, cooldown, i, p);
  }

  lemma {:induction false} UndroppedHas(log: seq<Event<Fingerprint>>, start: nat, alerts: seq<Alert>, a: Alert)
      returns (p: nat)
    requires start + |alerts| <= |log| && a in Undropped(log, start, alerts)
    ensures p < |alerts| && alerts[p] == a && !Dropped(log, start + p)
  {
    var n := |alerts| - 1;
    if !Dropped(log, start + n) && alerts[n] == a {
      p := n;
    } else {
      p := UndroppedHas(log, start, alerts[..n], a);
    }
  }

  lemma ReturnedHas(past: seq<Event<Fingerprint>>, batches: seq<Batch>, cooldown: int, i: nat, a: Alert)
      returns (p: nat)
    requires i < |batches| && a in Returned(past, batches, cooldown, i)
    ensures LeftAt(past, batches, cooldown, i, p) && batches[i].alerts[p] == a
  {
    var before := LogAfter(past, batches[..i], cooldown);
    var after := AfterBatch(before, batches[i], cooldown);
    p := UndroppedHas(after, |before|, batches[i].alerts, a);
    LeftInBatch(past, batches, cooldown, i, before, after, p);
  }

  lemma LeftIsReturned(past: seq<Event<Fingerprint>>, batches: seq<Batch>, cooldown: int, i: nat, p: nat)
    requires LeftAt(past, batches, cooldown, i, p)
    ensures batches[i].alerts[p] in Returned(past, batches, cooldown, i)
  {
    var before := LogAfter(past, batches[..i], cooldown);
    LeftAtIff(past, batches, cooldown, i, p);
    UndroppedIff(AfterBatch(before, batches[i], cooldown), |before|, batches[i].alerts, batches[i].alerts[p]);
  }

  lemma ReturnedIff(past: seq<Event<Fingerprint>>, batches: seq<Batch>, cooldown: int, i: nat, a: Alert)
    requires i < |batches|
    ensures a in Returned(past, batches, cooldown, i) <==>
            exists p: nat :: LeftAt(past, batches, cooldown, i, p) && batches[i].alerts[p] == a
  {
    if a in Returned(past, batches, cooldown, i) {
      var p := ReturnedHas(past, batches, cooldown, i, a);
    }
    if p: nat :| LeftAt(past, batches, cooldown, i, p) && batches[i].alerts[p] == a {
      LeftIsReturned(past, batches, cooldown, i, p);
    }
  }

  // ----- the clock -----

  // From when it begins to when its last alert comes up.
  function End(b: Batch): int { if b.alerts == [] then b.now else b.times(|b.alerts| - 1) }

  ghost predicate TimelyBatch(b: Batch) {
    && Rising(b.times, |b.alerts|)
    && forall p: nat :: p < |b.alerts| ==> b.now <= b.times(p)
  }

  // The clock does not go back, from the history the store comes with to the last flush,
  // and a flush ends before the next begins.
  ghost predicate Timely(past: seq<Event<Fingerprint>>, batches: seq<Batch>) {
    && Chronological(past)
    && (forall i :: 0 <= i < |batches| ==> Until(past, batches[i].now) && TimelyBatch(batches[i]))
    && (forall i, j :: 0 <= i < j < |batches| ==> End(batches[i]) <= batches[j].now)
  }

  lemma BatchKeepsOrder(before: seq<Event<Fingerprint>>, b: Batch, cooldown: int)
    requires Chronological(before) && OneTtl(before, cooldown) && Until(before, b.now) && TimelyBatch(b)
    ensures var after := AfterBatch(before, b, cooldown);
            Chronological(after) && OneTtl(after, cooldown) && Until(after, End(b))
  {
    var after := AfterBatch(before, b, cooldown);
    forall p: nat | p < |b.alerts|
      ensures b.now <= b.times(p) <= End(b)
    {
      assert p <= |b.alerts| - 1;
    }
    FlushExtendsHistory(before, b.alerts, b.now, b.times, End(b), cooldown, b.outages);
    forall i | 0 <= i < |after|
      ensures after[i].ttl == cooldown
    {
      if i >= |before| {
        BatchEvent(before, b, cooldown, i - |before|);
      }
    }
  }

  lemma LogBefore(past: seq<Event<Fingerprint>>, batches: seq<Batch>, cooldown: int, n: nat)
    requires Timely(past, batches) && n < |batches|
    requires n > 0 ==> Until(LogAfter(past, batches[..n], cooldown), End(batches[..n][n - 1]))
    ensures Until(LogAfter(past, batches[..n], cooldown), batches[n].now)
  {
    if n > 0 {
      assert batches[..n][n - 1] == batches[n - 1];
    }
  }

  lemma TimelyPrefix(past: seq<Event<Fingerprint>>, batches: seq<Batch>, n: nat)
    requires Timely(past, batches) && n <= |batches|
    ensures Timely(past, batches[..n])
  {
  }

  lemma {:induction false} RunIsChronological(past: seq<Event<Fingerprint>>, batches: seq<Batch>, cooldown: int)
    requires Timely(past, batches) && OneTtl(past, cooldown)
    ensures Chronological(LogAfter(past, batches, cooldown)) && OneTtl(LogAfter(past, batches, cooldown), cooldown)
    ensures batches != [] ==> Until(LogAfter(past, batches, cooldown), End(batches[|batches| - 1]))
  {
    if batches != [] {
      var n := |batches| - 1;
      TimelyPrefix(past, batches, n);
      RunIsChronological(past, batches[..n], cooldown);
      LogBefore(past, batches, cooldown, n);
      BatchKeepsOrder(LogAfter(past, batches[..n], cooldown), batches[n], cooldown);
    }
  }

  // ----- the cooldown -----

  predicate Precedes(i: nat, p: nat, j: nat, q: nat) { i < j || (i == j && p < q) }

  lemma EventsInOrder(past: seq<Event<Fingerprint>>, batches: seq<Batch>, cooldown: int, i: nat, p: nat, j: nat, q: nat)
    requires i < |batches| && p < |batches[i].alerts| && j < |batches| && Precedes(i, p, j, q)
    ensures Start(past, batches, cooldown, i) + p < Start(past, batches, cooldown, j) + q
  {
    if i < j {
      LogUpTo(past, batches, cooldown, i);
      StartsGrow(past, batches, cooldown, i + 1, j);
    }
  }

  // Two alerts with one fingerprint that a run returns, in one flush or in two, come up at
  // least a cooldown apart, if the write of the first and the check of the second succeed.
  lemma CooldownOverRuns(past: seq<Event<Fingerprint>>, batches: seq<Batch>, cooldown: int,
                         i: nat, p: nat, j: nat, q: nat)
    requires Timely(past, batches) && OneTtl(past, cooldown) && Precedes(i, p, j, q)
    requires LeftAt(past, batches, cooldown, i, p) && LeftAt(past, batches, cooldown, j, q)
    requires FingerprintOf(batches[i].alerts[p]) == FingerprintOf(batches[j].alerts[q])
    requires !batches[i].outages(p).setFails && batches[j].outages(q).probe == Answered
    ensures batches[j].times(q) >= batches[i].times(p) + cooldown
  {
    RunIsChronological(past, batches, cooldown);
    EventIs(past, batches, cooldown, i, p);
    EventIs(past, batches, cooldown, j, q);
    EventsInOrder(past, batches, cooldown, i, p, j, q);
    EmittedAreCooldownApart(LogAfter(past, batches, cooldown), cooldown,
                            Start(past, batches, cooldown, i) + p, Start(past, batches, cooldown, j) + q);
  }

  // What an event of the history came from.
  datatype Origin = InPast(e: nat) | InBatch(i: nat, p: nat)

  ghost predicate IsOrigin(past: seq<Event<Fingerprint>>, batches: seq<Batch>, cooldown: int, e: nat, o: Origin) {
    match o
    case InPast(f) => f == e < |past|
    case InBatch(i, p) => i < |batches| && p < |batches[i].alerts| && e == Start(past, batches, cooldown, i) + p
  }

  lemma {:induction false} EventOrigin(past: seq<Event<Fingerprint>>, batches: seq<Batch>, cooldown: int, e: nat)
      returns (o: Origin)
    requires e < |LogAfter(past, batches, cooldown)|
    ensures IsOrigin(past, batches, cooldown, e, o)
  {
    if batches == [] {
      o := InPast(e);
    } else {
      var n := |batches| - 1;
      var before := LogAfter(past, batches[..n], cooldown);
      if e < |before| {
        o := EventOrigin(past, batches[..n], cooldown, e);
        if o.InBatch? {
          assert batches[..n][..o.i] == batches[..o.i];
        }
      } else {
        o := InBatch(n, e - |before|);
      }
    }
  }

  // An alert of the history left under the fingerprint within the cooldown before a time.
  ghost predicate LeftBefore(past: seq<Event<Fingerprint>>, batches: seq<Batch>, cooldown: int, o: Origin,
                             j: nat, q: nat, f: Fingerprint, time: int) {
    match o
    case InPast(e) =>
      && e < |past| && !Dropped(past, e) && past[e].fingerprint == f
      && past[e].now <= time < past[e].now + cooldown
    case InBatch(i, p) =>
      && LeftAt(past, batches, cooldown, i, p) && Precedes(i, p, j, q)
      && FingerprintOf(batches[i].alerts[p]) == f
      && batches[i].times(p) <= time < batches[i].times(p) + cooldown
  }

  lemma EarlierPrecedes(past: seq<Event<Fingerprint>>, batches: seq<Batch>, cooldown: int,
                        i: nat, p: nat, j: nat, q: nat)
    requires i < |batches| && p < |batches[i].alerts| && j < |batches| && q < |batches[j].alerts|
    requires Start(past, batches, cooldown, i) + p < Start(past, batches, cooldown, j) + q
    ensures Precedes(i, p, j, q)
  {
    if j < i {
      LogUpTo(past, batches, cooldown, j);
      StartsGrow(past, batches, cooldown, j + 1, i);
    }
  }

  // An alert that a successful check dropped has one before it that left with its fingerprint
  // inside the cooldown, in the run or in the history the store came with.
  lemma DroppedOverRuns(past: seq<Event<Fingerprint>>, batches: seq<Batch>, cooldown: int, j: nat, q: nat)
      returns (o: Origin)
    requires Timely(past, batches) && OneTtl(past, cooldown) && j < |batches| && q < |batches[j].alerts|
    requires !LeftAt(past, batches, cooldown, j, q) && batches[j].outages(q).probe == Answered
    ensures LeftBefore(past, batches, cooldown, o, j, q, FingerprintOf(batches[j].alerts[q]), batches[j].times(q))
  {
    var log, f := LogAfter(past, batches, cooldown), Start(past, batches, cooldown, j) + q;
    RunIsChronological(past, batches, cooldown);
    EventIs(past, batches, cooldown, j, q);
    var e := DroppedHasEmitted(log, cooldown, f);
    o := EventOrigin(past, batches, cooldown, e);
    match o {
      case InPast(_) =>
        assert batches[..0] == [];
        LogGrows(past, batches, cooldown, 0);
        DroppedInPrefix(past, log, e);
      case InBatch(i, p) =>
        EventIs(past, batches, cooldown, i, p);
        EarlierPrecedes(past, batches, cooldown, i, p, j, q);
    }
  }

  ghost predicate Works(b: Batch) { forall p: nat :: b.outages(p) == Outage(Answered, false) }

  // The flush is over before a cooldown has passed.
  ghost predicate Brief(b: Batch, cooldown: int) {
    forall p: nat, q: nat :: p < q < |b.alerts| ==> b.times(q) < b.times(p) + cooldown
  }

  ghost predicate Distinct(out: seq<Alert>) {
    forall p, q :: 0 <= p < q < |out| ==> FingerprintOf(out[p]) != FingerprintOf(out[q])
  }

  lemma NoTwin(past: seq<Event<Fingerprint>>, batches: seq<Batch>, cooldown: int, i: nat, p: nat, q: nat)
    requires Timely(past, batches) && OneTtl(past, cooldown) && i < |batches| && p < q
    requires Works(batches[i]) && Brief(batches[i], cooldown)
    requires LeftAt(past, batches, cooldown, i, p) && LeftAt(past, batches, cooldown, i, q)
    ensures FingerprintOf(batches[i].alerts[p]) != FingerprintOf(batches[i].alerts[q])
  {
    assert batches[i].outages(p) == batches[i].outages(q) == Outage(Answered, false);
    if FingerprintOf(batches[i].alerts[p]) == FingerprintOf(batches[i].alerts[q]) {
      CooldownOverRuns(past, batches, cooldown, i, p, i, q);
    }
  }

  // No two undropped alerts share a fingerprint.
  ghost predicate NoneShared(log: seq<Event<Fingerprint>>, start: nat, alerts: seq<Alert>)
    requires start + |alerts| <= |log|
  {
    forall p: nat, q: nat :: p < q < |alerts| && !Dropped(log, start + p) && !Dropped(log, start + q) ==>
      FingerprintOf(alerts[p]) != FingerprintOf(alerts[q])
  }

  lemma LastIsDistinct(log: seq<Event<Fingerprint>>, start: nat, alerts: seq<Alert>, a: Alert)
    requires alerts != [] && start + |alerts| <= |log| && NoneShared(log, start, alerts)
    requires !Dropped(log, start + |alerts| - 1) && a in Undropped(log, start, alerts[..|alerts| - 1])
    ensures FingerprintOf(a) != FingerprintOf(alerts[|alerts| - 1])
  {
    var n := |alerts| - 1;
    UndroppedIff(log, start, alerts[..n], a);
    var p: nat :| p < n && !Dropped(log, start + p) && alerts[..n][p] == a;
    assert alerts[p] == a;
  }

  lemma {:induction false} UndroppedIsDistinct(log: seq<Event<Fingerprint>>, start: nat, alerts: seq<Alert>)
    requires start + |alerts| <= |log| && NoneShared(log, start, alerts)
    ensures Distinct(Undropped(log, start, alerts))
  {
    if alerts != [] {
      var n := |alerts| - 1;
      assert NoneShared(log, start, alerts[..n]);
      UndroppedIsDistinct(log, start, alerts[..n]);
      var rest := Undropped(log, start, alerts[..n]);
      if !Dropped(log, start + n) {
        forall p | 0 <= p < |rest|
          ensures FingerprintOf(rest[p]) != FingerprintOf(alerts[n])
        {
          LastIsDistinct(log, start, alerts, rest[p]);
        }
      }
    }
  }

  lemma NoTwinInBatch(past: seq<Event<Fingerprint>>, batches: seq<Batch>, cooldown: int, i: nat,
                      before: seq<Event<Fingerprint>>, after: seq<Event<Fingerprint>>, p: nat, q: nat)
    requires Timely(past, batches) && OneTtl(past, cooldown) && i < |batches|
    requires Works(batches[i]) && Brief(batches[i], cooldown) && p < q < |batches[i].alerts|
    requires before == LogAfter(past, batches[..i], cooldown) && after == AfterBatch(before, batches[i], cooldown)
    requires |before| + q < |after| && !Dropped(after, |before| + p) && !Dropped(after, |before| + q)
    ensures FingerprintOf(batches[i].alerts[p]) != FingerprintOf(batches[i].alerts[q])
  {
    LeftInBatch(past, batches, cooldown, i, before, after, p);
    LeftInBatch(past, batches, cooldown, i, before, after, q);
    NoTwin(past, batches, cooldown, i, p, q);
  }

  lemma BatchSharesNone(past: seq<Event<Fingerprint>>, batches: seq<Batch>, cooldown: int, i: nat,
                        before: seq<Event<Fingerprint>>, after: seq<Event<Fingerprint>>)
    requires Timely(past, batches) && OneTtl(past, cooldown) && i < |batches|
    requires Works(batches[i]) && Brief(batches[i], cooldown)
    requires before == LogAfter(past, batches[..i], cooldown) && after == AfterBatch(before, batches[i], cooldown)
    requires |before| + |batches[i].alerts| == |after|
    ensures NoneShared(after, |before|, batches[i].alerts)
  {
    var alerts := batches[i].alerts;
    forall p: nat, q: nat | p < q < |alerts| && !Dropped(after, |before| + p) && !Dropped(after, |before| + q)
      ensures FingerprintOf(alerts[p]) != FingerprintOf(alerts[q])
    {
      NoTwinInBatch(past, batches, cooldown, i, before, after, p, q);
    }
  }

  // A brief flush whose calls succeed returns no two alerts with one fingerprint.
  lemma CooldownWithinFlush(past: seq<Event<Fingerprint>>, batches: seq<Batch>, cooldown: int, i: nat)
    requires Timely(past, batches) && OneTtl(past, cooldown) && i < |batches|
    requires Works(batches[i]) && Brief(batches[i], cooldown)
    ensures Distinct(Returned(past, batches, cooldown, i))
  {
    var before := LogAfter(past, batches[..i], cooldown);
    var after := AfterBatch(before, batches[i], cooldown);
    BatchSharesNone(past, batches, cooldown, i, before, after);
    UndroppedIsDistinct(after, |before|, batches[i].alerts);
  }

  // ----- a run, step by step -----

  // What a flush makes of the groups pending when it begins.
  ghost predicate Built(window: int, minPods: nat, pending: Groups, now: int, b: Batch) {
    && b.now == now && b.groups == Ready(pending, window, now)
    && Keyed(b.groups) && ValidOrders(b.groups, minPods, b.orders)
    && b.alerts == AlertsIn(b.groups, minPods, b.orders)
  }

  // The batches are those of the flushes among the steps.
  ghost predicate AllBuilt(window: int, minPods: nat, steps: seq<Step>, batches: seq<Batch>) {
    if steps == [] then batches == []
    else
      var init := steps[..|steps| - 1];
      match steps[|steps| - 1]
      case AddStep(_, _) => AllBuilt(window, minPods, init, batches)
      case FlushStep(now) =>
        && batches != []
        && AllBuilt(window, minPods, init, batches[..|batches| - 1])
        && Built(window, minPods, PendingAfter(window, init), now, batches[|batches| - 1])
  }

  ghost predicate AllReturned(outs: seq<seq<Alert>>, past: seq<Event<Fingerprint>>, batches: seq<Batch>,
                              cooldown: int) {
    |outs| == |batches| && forall i: nat :: i < |outs| ==> outs[i] == Returned(past, batches, cooldown, i)
  }

  lemma ReturnedOneMore(outs: seq<seq<Alert>>, out: seq<Alert>, past: seq<Event<Fingerprint>>, batches: seq<Batch>,
                        b: Batch, cooldown: int)
    requires AllReturned(outs, past, batches, cooldown)
    requires var before := LogAfter(past, batches, cooldown);
             out == Undropped(AfterBatch(before, b, cooldown), |before|, b.alerts)
    ensures AllReturned(outs + [out], past, batches + [b], cooldown)
  {
    var more := batches + [b];
    forall i: nat | i < |more|
      ensures (outs + [out])[i] == Returned(past, more, cooldown, i)
    {
      assert more[..i] == if i < |batches| then batches[..i] else batches;
    }
  }

  // The settings of a correlator and the history its store came with.
  datatype Setting = Setting(past: seq<Event<Fingerprint>>, window: int, cooldown: int, minPods: nat)

  // Where a correlator and its caller are after some steps.
  ghost predicate Performed(s: Setting, steps: seq<Step>, pending: Groups, log: seq<Event<Fingerprint>>,
                            outs: seq<seq<Alert>>, batches: seq<Batch>) {
    && pending == PendingAfter(s.window, steps)
    && log == LogAfter(s.past, batches, s.cooldown)
    && AllBuilt(s.window, s.minPods, steps, batches)
    && AllReturned(outs, s.past, batches, s.cooldown)
  }

  lemma AddPerformed(s: Setting, steps: seq<Step>, pending: Groups, log: seq<Event<Fingerprint>>,
                     outs: seq<seq<Alert>>, batches: seq<Batch>, a: Anomaly, now: int)
    requires Performed(s, steps, pending, log, outs, batches)
    ensures Performed(s, steps + [AddStep(a, now)], AddTo(pending, a, now), log, outs, batches)
  {
    assert (steps + [AddStep(a, now)])[..|steps|] == steps;
  }

  lemma FlushPerformed(s: Setting, steps: seq<Step>, pending: Groups, log: seq<Event<Fingerprint>>,
                       outs: seq<seq<Alert>>, batches: seq<Batch>, b: Batch, out: seq<Alert>)
    requires Performed(s, steps, pending, log, outs, batches) && Built(s.window, s.minPods, pending, b.now, b)
    requires out == Undropped(AfterBatch(log, b, s.cooldown), |log|, b.alerts)
    ensures Performed(s, steps + [FlushStep(b.now)], Waiting(pending, s.window, b.now),
                      AfterBatch(log, b, s.cooldown), outs + [out], batches + [b])
  {
    assert (steps + [FlushStep(b.now)])[..|steps|] == steps;
    assert (batches + [b])[..|batches|] == batches;
    LogAfterSnoc(s.past, batches, b, s.cooldown);
    ReturnedOneMore(outs, out, s.past, batches, b, s.cooldown);
  }

  // One flush of a run.
  method PerformFlush(c: Correlator, now: int, times: Times, outages: nat -> Outage)
    returns (out: seq<Alert>, ghost b: Batch)
    requires c.Valid()
    modifies c`pending, c`log, c.redis
    ensures c.Valid() && b.now == now && b.times == times && b.outages == outages
    ensures Built(c.window, c.minPods, old(c.pending), now, b)
    ensures c.pending == Waiting(old(c.pending), c.window, now) && c.log == AfterBatch(old(c.log), b, c.cooldown)
    ensures out == Undropped(c.log, |old(c.log)|, b.alerts)
  {
    ghost var orders, alerts;
    ghost var groups := Ready(c.pending, c.window, now);
    out, orders, alerts := c.Flush(now, times, outages);
    b := Batch(groups, orders, alerts, now, times, outages);
  }

  // The cycles of a controller, as far as its correlator sees them.
  method Perform(c: Correlator, steps: seq<Step>, times: nat -> Times, outages: nat -> (nat -> Outage))
    returns (outs: seq<seq<Alert>>, ghost batches: seq<Batch>)
    requires c.Valid() && c.pending == map[]
    modifies c`pending, c`log, c.redis
    ensures c.Valid()
    ensures Performed(Setting(old(c.log), c.window, c.cooldown, c.minPods), steps, c.pending, c.log, outs, batches)
  {
    ghost var s := Setting(c.log, c.window, c.cooldown, c.minPods);
    outs, batches := [], [];
    for n := 0 to |steps|
      invariant c.Valid() && Performed(s, steps[..n], c.pending, c.log, outs, batches)
    {
      assert steps[..n + 1] == steps[..n] + [steps[n]];
      ghost var pending, log := c.pending, c.log;
      match steps[n] {
        case AddStep(a, now) =>
          AddPerformed(s, steps[..n], pending, log, outs, batches, a, now);
          c.Add(a, now);
        case FlushStep(now) =>
          var out;
          ghost var b;
          out, b := PerformFlush(c, now, times(n), outages(n));
          FlushPerformed(s, steps[..n], pending, log, outs, batches, b, out);
          outs, batches := outs + [out], batches + [b];
      }
    }
    assert steps[..|steps|] == steps;
  }

  // ----- from being added to being in an alert -----

  // Alert r of the flush is about group k: the alert of the workload that absorbed it, or its own.
  ghost predicate IsAbout(b: Batch, r: nat, k: string) {
    && r < |b.alerts|
    && (if r < |b.orders.workloads| then
          b.orders.workloads[r] in b.orders.members && k in b.orders.members[b.orders.workloads[r]]
        else r - |b.orders.workloads| < |b.orders.pods| && b.orders.pods[r - |b.orders.workloads|] == k)
  }

  lemma AboutIsUnique(b: Batch, window: int, minPods: nat, pending: Groups, k: string, r: nat, r': nat)
    requires Built(window, minPods, pending, b.now, b) && k in b.groups && IsAbout(b, r, k) && IsAbout(b, r', k)
    ensures r == r'
  {
    var o := b.orders;
    FlushCovers(b.groups, minPods, o, k);
    assert r < |o.workloads| ==> o.workloads[r] in o.workloads;
    assert r' < |o.workloads| ==> o.workloads[r'] in o.workloads;
    assert r >= |o.workloads| ==> k in o.pods;
    assert r' >= |o.workloads| ==> k in o.pods;
  }

  // Of the alerts of a flush exactly one is about each group that was ready.
  lemma ExactlyOneIsAbout(b: Batch, window: int, minPods: nat, pending: Groups, k: string) returns (r: nat)
    requires Built(window, minPods, pending, b.now, b) && k in b.groups
    ensures IsAbout(b, r, k) && forall r': nat :: IsAbout(b, r', k) ==> r' == r
    ensures b.alerts[r].kind == if k in Absorbed(b.groups, minPods) then WorkloadAlert else PodAlert
  {
    var o := b.orders;
    FlushCovers(b.groups, minPods, o, k);
    if k in Absorbed(b.groups, minPods) {
      var wl :| wl in o.workloads && k in o.members[wl];
      r :| 0 <= r < |o.workloads| && o.workloads[r] == wl;
      assert IsAbout(b, r, k);
    } else {
      assert k in o.pods;
      var j :| 0 <= j < |o.pods| && o.pods[j] == k;
      r := |o.workloads| + j;
      assert IsAbout(b, r, k);
    }
    forall r': nat | IsAbout(b, r', k)
      ensures r' == r
    {
      AboutIsUnique(b, window, minPods, pending, k, r, r');
    }
  }

  // The anomaly was in a group under key k when flush i took it, and exactly one alert of
  // that flush is about the group.
  ghost predicate Alerted(batches: seq<Batch>, k: string, a: Anomaly, i: nat) {
    && i < |batches| && k in batches[i].groups && a in batches[i].groups[k].anomalies
    && exists r: nat :: IsAbout(batches[i], r, k) && forall r': nat :: IsAbout(batches[i], r', k) ==> r' == r
  }

  lemma {:induction false} FlushedIsAlerted(window: int, minPods: nat, steps: seq<Step>, batches: seq<Batch>,
                                            k: string, a: Anomaly) returns (i: nat)
    requires AllBuilt(window, minPods, steps, batches) && a in FlushedUnder(k, window, steps)
    ensures Alerted(batches, k, a, i)
  {
    var n := |steps| - 1;
    var init := steps[..n];
    match steps[n] {
      case AddStep(_, _) =>
        i := FlushedIsAlerted(window, minPods, init, batches, k, a);
      case FlushStep(now) =>
        var last := |batches| - 1;
        if a in FlushedUnder(k, window, init) {
          i := FlushedIsAlerted(window, minPods, init, batches[..last], k, a);
          assert batches[..last][i] == batches[i];
        } else {
          i := last;
          assert a in Held(Ready(PendingAfter(window, init), window, now), k);
          var r := ExactlyOneIsAbout(batches[last], window, minPods, PendingAfter(window, init), k);
        }
    }
  }

  // Every anomaly ever added is still pending or was flushed in a group that exactly one
  // alert of that flush is about.
  lemma AddedIsAlerted(window: int, minPods: nat, steps: seq<Step>, batches: seq<Batch>, k: string, a: Anomaly)
    requires AllBuilt(window, minPods, steps, batches) && a in AddedUnder(k, steps)
    ensures a in Held(PendingAfter(window, steps), k) || exists i: nat :: Alerted(batches, k, a, i)
  {
    AddedIsFlushedOrPending(k, window, steps);
    if a in FlushedUnder(k, window, steps) {
      var i := FlushedIsAlerted(window, minPods, steps, batches, k, a);
    }
  }
}
