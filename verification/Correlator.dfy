// The correlator: anomalies are grouped as they come, and groups whose window has passed
// are flushed into alerts.
module Correlator {
  import opened Sequences
  import opened Anomalies
  import opened Correlation
  import opened CorrelationTheorems
  import opened Dedup

  // ----- pending groups -----

  function AddTo(pending: Groups, a: Anomaly, now: int): Groups {
    var key := WorkloadKey(a);
    var g := if key in pending then pending[key] else Group([], now);
    pending[key := g.(anomalies := g.anomalies + [a])]
  }

  predicate Ripe(g: Group, window: int, now: int) { now - g.firstSeen >= window }

  function Ready(pending: Groups, window: int, now: int): Groups {
    map k | k in pending && Ripe(pending[k], window, now) :: pending[k]
  }

  function Waiting(pending: Groups, window: int, now: int): Groups {
    map k | k in pending && !Ripe(pending[k], window, now) :: pending[k]
  }

  lemma AddKeepsKeyed(pending: Groups, a: Anomaly, now: int)
    requires Keyed(pending)
    ensures Keyed(AddTo(pending, a, now))
  {
  }

  // ----- what failures a flush meets, alert by alert -----

  datatype Outage = Outage(probe: Probe, setFails: bool)

  function EventOf(alert: Alert, now: int, cooldown: int, outage: Outage): Event<Fingerprint> {
    Event(FingerprintOf(alert), now, cooldown, outage.probe, outage.setFails)
  }

  // When each alert of a flush comes up: enrichment takes its time between one and the next.
  type Times = nat -> int

  function At(now: int): Times { (i: nat) => now }

  function EventsOf(alerts: seq<Alert>, times: Times, cooldown: int, outages: nat -> Outage): seq<Event<Fingerprint>> {
    seq(|alerts|, i requires 0 <= i < |alerts| => EventOf(alerts[i], times(i), cooldown, outages(i)))
  }

  // The alerts that leave, given the events they caused after a history.
  function Undropped(log: seq<Event<Fingerprint>>, start: nat, alerts: seq<Alert>): seq<Alert>
    requires start + |alerts| <= |log|
  {
    if alerts == [] then []
    else
      var n := |alerts| - 1;
      if Dropped(log, start + n) then Undropped(log, start, alerts[..n])
      else Undropped(log, start, alerts[..n]) + [alerts[n]]
  }

  // ----- accumulating workloads -----

  // The accumulator of wl holds the groups in seen that belong to it.
  ghost predicate Holds(groups: Groups, seen: set<string>, wl: string, acc: Accumulator) {
    && acc.podKeys != [] && Listed(groups, acc.podKeys)
    && Enumerates(acc.podKeys, Members(groups, wl) * seen)
    && acc == AccumulatorOf(groups, acc.podKeys)
  }

  ghost predicate Accumulated(groups: Groups, seen: set<string>, wls: map<string, Accumulator>) {
    && (forall wl :: wl in wls ==> Holds(groups, seen, wl, wls[wl]))
    && (forall k :: k in seen && k in groups && Eligible(groups[k]) ==> PatternKey(groups[k]) in wls)
  }

  lemma EnumeratesOneMore(s: seq<string>, all: set<string>, x: string)
    requires Enumerates(s, all) && x !in all
    ensures Enumerates(s + [x], all + {x})
  {
  }

  // The accumulator, new or not, with one more group.
  function Extended(wls: map<string, Accumulator>, wl: string, k: string, g: Group): Accumulator
    requires g.anomalies != []
  {
    var acc := if wl in wls then wls[wl]
               else Accumulator([], {}, [], ClusterOrUnknown(First(g)), Label(First(g), "namespace"));
    Accumulator(acc.anomalies + g.anomalies, acc.pods + {PodOf(g)}, acc.podKeys + [k], acc.cluster, acc.namespace)
  }

  lemma AccumulatorOneMore(groups: Groups, ks: seq<string>, k: string)
    requires ks != [] && Listed(groups, ks) && k in groups && groups[k].anomalies != []
    ensures Listed(groups, ks + [k])
    ensures var acc, more := AccumulatorOf(groups, ks), AccumulatorOf(groups, ks + [k]);
            more == Accumulator(acc.anomalies + groups[k].anomalies, acc.pods + {PodOf(groups[k])},
                                acc.podKeys + [k], acc.cluster, acc.namespace)
  {
    var ks' := ks + [k];
    assert ks'[..|ks|] == ks;
    var pods, pods' := AccumulatorOf(groups, ks).pods, AccumulatorOf(groups, ks').pods;
    forall p | p in pods
      ensures p in pods'
    {
      var i :| 0 <= i < |ks| && p == PodOf(groups[ks[i]]);
      assert ks'[i] == ks[i];
    }
    assert PodOf(groups[ks'[|ks|]]) in pods';
  }

  lemma StartAccumulator(groups: Groups, k: string)
    requires k in groups && groups[k].anomalies != []
    ensures Listed(groups, [k])
    ensures AccumulatorOf(groups, [k]) ==
            Accumulator(groups[k].anomalies, {PodOf(groups[k])}, [k],
                        ClusterOrUnknown(First(groups[k])), Label(First(groups[k]), "namespace"))
  {
    var ks := [k];
    assert ks[..0] == [];
    assert Flattened(groups, []) + groups[k].anomalies == groups[k].anomalies;
    assert AccumulatorOf(groups, ks).pods == {PodOf(groups[ks[0]])};
  }

  lemma HoldsOneMore(groups: Groups, seen: set<string>, wls: map<string, Accumulator>, k: string)
    requires Accumulated(groups, seen, wls) && k in groups && k !in seen && Eligible(groups[k])
    ensures var wl := PatternKey(groups[k]);
            Holds(groups, seen + {k}, wl, Extended(wls, wl, k, groups[k]))
  {
    var wl := PatternKey(groups[k]);
    var all := Members(groups, wl) * seen;
    assert Members(groups, wl) * (seen + {k}) == all + {k};
    if wl in wls {
      AccumulatorOneMore(groups, wls[wl].podKeys, k);
      EnumeratesOneMore(wls[wl].podKeys, all, k);
    } else {
      assert all == {};
      StartAccumulator(groups, k);
      assert Extended(wls, wl, k, groups[k]) == AccumulatorOf(groups, [k]);
      assert Enumerates([k], all + {k});
    }
  }

  lemma HoldsStill(groups: Groups, seen: set<string>, wl: string, acc: Accumulator, k: string)
    requires Holds(groups, seen, wl, acc) && !MemberOf(groups, wl, k)
    ensures Holds(groups, seen + {k}, wl, acc)
  {
    assert Members(groups, wl) * (seen + {k}) == Members(groups, wl) * seen;
  }

  lemma AccumulateOneMore(groups: Groups, seen: set<string>, wls: map<string, Accumulator>, k: string)
    requires Accumulated(groups, seen, wls) && k in groups && k !in seen && Eligible(groups[k])
    ensures var wl := PatternKey(groups[k]);
            Accumulated(groups, seen + {k}, wls[wl := Extended(wls, wl, k, groups[k])])
  {
    HoldsOneMore(groups, seen, wls, k);
    forall other | other in wls && other != PatternKey(groups[k])
      ensures Holds(groups, seen + {k}, other, wls[other])
    {
      HoldsStill(groups, seen, other, wls[other], k);
    }
  }

  lemma PassOver(groups: Groups, seen: set<string>, wls: map<string, Accumulator>, k: string)
    requires Accumulated(groups, seen, wls) && k in groups && !Eligible(groups[k])
    ensures Accumulated(groups, seen + {k}, wls)
  {
    forall wl | wl in wls
      ensures Holds(groups, seen + {k}, wl, wls[wl])
    {
      HoldsStill(groups, seen, wl, wls[wl], k);
    }
  }

  // With every group seen, the workloads that accumulated enough pods are the patterns.
  lemma AllAccumulated(groups: Groups, minPods: nat, wls: map<string, Accumulator>, wl: string)
    requires Accumulated(groups, groups.Keys, wls)
    ensures wl in Patterns(groups, minPods) <==> wl in wls && |wls[wl].pods| >= minPods
    ensures wl in wls ==> Enumerates(wls[wl].podKeys, Members(groups, wl))
  {
    assert Members(groups, wl) * groups.Keys == Members(groups, wl);
    if wl in wls {
      AccumulatedPods(groups, wl, wls[wl].podKeys);
      var k := wls[wl].podKeys[0];
      assert k in wls[wl].podKeys;
      assert PatternKey(groups[k]) == wl && k in Members(groups, wl);
    }
  }

  lemma PodAlertsSnoc(groups: Groups, pods: seq<string>, k: string)
    requires forall j :: j in pods ==> j in groups && groups[j].anomalies != []
    requires k in groups && groups[k].anomalies != []
    ensures PodAlerts(groups, pods + [k]) == PodAlerts(groups, pods) + [PodAlertOf(groups[k])]
  {
  }

  // What was dropped does not change as the history grows.
  lemma {:induction false} UndroppedPrefix(log: seq<Event<Fingerprint>>, more: seq<Event<Fingerprint>>, start: nat,
                                           alerts: seq<Alert>)
    requires start + |alerts| <= |log|
    ensures Undropped(log + more, start, alerts) == Undropped(log, start, alerts)
  {
    if alerts != [] {
      var n := |alerts| - 1;
      UndroppedPrefix(log, more, start, alerts[..n]);
      assert (log + more)[..start + n] == log[..start + n];
    }
  }

  lemma UndroppedOneMore(log: seq<Event<Fingerprint>>, e: Event<Fingerprint>, start: nat, init: seq<Alert>, a: Alert)
    requires start + |init| == |log|
    ensures Undropped(log + [e], start, init + [a]) ==
            if Exists(StoreAfter(log), e) then Undropped(log, start, init) else Undropped(log, start, init) + [a]
  {
    assert (init + [a])[..|init|] == init;
    assert (log + [e])[..|log|] == log;
    UndroppedPrefix(log, [e], start, init);
  }

  lemma EventsOneMore(alerts: seq<Alert>, i: nat, times: Times, cooldown: int, outages: nat -> Outage)
    requires i < |alerts|
    ensures alerts[..i + 1] == alerts[..i] + [alerts[i]]
    ensures EventsOf(alerts[..i + 1], times, cooldown, outages) ==
            EventsOf(alerts[..i], times, cooldown, outages) + [EventOf(alerts[i], times(i), cooldown, outages(i))]
  {
  }

  lemma OneMoreFinalized(log0: seq<Event<Fingerprint>>, log: seq<Event<Fingerprint>>, alerts: seq<Alert>, i: nat,
                         times: Times, cooldown: int, outages: nat -> Outage)
    requires i < |alerts| && log == log0 + EventsOf(alerts[..i], times, cooldown, outages)
    ensures var e := EventOf(alerts[i], times(i), cooldown, outages(i));
            && log + [e] == log0 + EventsOf(alerts[..i + 1], times, cooldown, outages)
            && Undropped(log + [e], |log0|, alerts[..i + 1]) ==
               if Exists(StoreAfter(log), e) then Undropped(log, |log0|, alerts[..i])
               else Undropped(log, |log0|, alerts[..i]) + [alerts[i]]
  {
    var e := EventOf(alerts[i], times(i), cooldown, outages(i));
    EventsOneMore(alerts, i, times, cooldown, outages);
    Associative(log0, EventsOf(alerts[..i], times, cooldown, outages), [e]);
    UndroppedOneMore(log, e, |log0|, alerts[..i], alerts[i]);
  }

  lemma OrdersEnumerate(groups: Groups, minPods: nat, wls: map<string, Accumulator>, o: Orders)
    requires Accumulated(groups, groups.Keys, wls) && o.members == map wl | wl in wls :: wls[wl].podKeys
    requires Enumerates(o.workloads, Patterns(groups, minPods))
    requires Enumerates(o.pods, groups.Keys - Absorbed(groups, minPods))
    ensures ValidOrders(groups, minPods, o)
  {
    forall wl | wl in Patterns(groups, minPods)
      ensures wl in wls && Enumerates(wls[wl].podKeys, Members(groups, wl))
    {
      AllAccumulated(groups, minPods, wls, wl);
    }
  }

  ghost predicate AlertsFor(wls: map<string, Accumulator>, workloads: seq<string>, alerts: seq<Alert>) {
    |alerts| == |workloads| &&
    forall i :: 0 <= i < |alerts| ==>
      workloads[i] in wls && wls[workloads[i]].anomalies != [] &&
      alerts[i] == WorkloadAlertOf(workloads[i], wls[workloads[i]])
  }

  lemma FoundIsOrdered(groups: Groups, minPods: nat, wls: map<string, Accumulator>, o: Orders, found: seq<Alert>,
                       i: nat)
    requires ValidOrders(groups, minPods, o) && Accumulated(groups, groups.Keys, wls)
    requires o.members == map wl | wl in wls :: wls[wl].podKeys
    requires AlertsFor(wls, o.workloads, found) && i < |found|
    ensures found[i] == WorkloadAlerts(groups, minPods, o)[i]
  {
    var wl := o.workloads[i];
    assert wl in o.workloads;
    assert Holds(groups, groups.Keys, wl, wls[wl]);
  }

  lemma OrdersAreValid(groups: Groups, minPods: nat, wls: map<string, Accumulator>, o: Orders, found: seq<Alert>)
    requires Keyed(groups) && Accumulated(groups, groups.Keys, wls)
    requires o.members == map wl | wl in wls :: wls[wl].podKeys
    requires Enumerates(o.workloads, Patterns(groups, minPods)) && AlertsFor(wls, o.workloads, found)
    requires Enumerates(o.pods, groups.Keys - Absorbed(groups, minPods))
    ensures ValidOrders(groups, minPods, o)
    ensures AlertsIn(groups, minPods, o) == found + PodAlerts(groups, o.pods)
  {
    OrdersEnumerate(groups, minPods, wls, o);
    forall i | 0 <= i < |found|
      ensures found[i] == WorkloadAlerts(groups, minPods, o)[i]
    {
      FoundIsOrdered(groups, minPods, wls, o, found, i);
    }
    assert found == WorkloadAlerts(groups, minPods, o);
  }

  lemma HeldAnomalies(groups: Groups, wls: map<string, Accumulator>, wl: string)
    requires Accumulated(groups, groups.Keys, wls) && wl in wls
    ensures wls[wl].anomalies != []
  {
    FlattenedStarts(groups, wls[wl].podKeys);
  }

  // The workloads that have accumulated enough pods.
  ghost function Promoted(wls: map<string, Accumulator>, minPods: nat): set<string> {
    set wl | wl in wls && |wls[wl].pods| >= minPods
  }

  ghost function KeysOf(wls: map<string, Accumulator>, workloads: seq<string>): set<string> {
    set wl, k | wl in workloads && wl in wls && k in wls[wl].podKeys :: k
  }

  // The workloads outside todo have been dealt with.
  ghost predicate PromotedSoFar(wls: map<string, Accumulator>, minPods: nat, todo: set<string>,
                                workloads: seq<string>, suppressed: set<string>, alerts: seq<Alert>) {
    && Enumerates(workloads, Promoted(wls, minPods) - todo)
    && suppressed == KeysOf(wls, workloads)
    && AlertsFor(wls, workloads, alerts)
  }

  lemma SkipOneMore(wls: map<string, Accumulator>, minPods: nat, todo: set<string>,
                    workloads: seq<string>, suppressed: set<string>, alerts: seq<Alert>, wl: string)
    requires PromotedSoFar(wls, minPods, todo, workloads, suppressed, alerts)
    requires wl in todo && wl in wls && |wls[wl].pods| < minPods
    ensures PromotedSoFar(wls, minPods, todo - {wl}, workloads, suppressed, alerts)
  {
    assert Promoted(wls, minPods) - (todo - {wl}) == Promoted(wls, minPods) - todo;
  }

  lemma KeysOfSnoc(wls: map<string, Accumulator>, workloads: seq<string>, wl: string)
    requires wl in wls
    ensures KeysOf(wls, workloads + [wl]) == KeysOf(wls, workloads) + (set k | k in wls[wl].podKeys)
  {
  }

  lemma PromoteOneMore(wls: map<string, Accumulator>, minPods: nat, todo: set<string>,
                       workloads: seq<string>, suppressed: set<string>, alerts: seq<Alert>, wl: string)
    requires PromotedSoFar(wls, minPods, todo, workloads, suppressed, alerts)
    requires wl in todo && wl in wls && |wls[wl].pods| >= minPods && wls[wl].anomalies != []
    ensures PromotedSoFar(wls, minPods, todo - {wl}, workloads + [wl],
                          suppressed + (set k | k in wls[wl].podKeys), alerts + [WorkloadAlertOf(wl, wls[wl])])
  {
    var done := Promoted(wls, minPods) - todo;
    assert Promoted(wls, minPods) - (todo - {wl}) == done + {wl};
    EnumeratesOneMore(workloads, done, wl);
    KeysOfSnoc(wls, workloads, wl);
  }

  // Promoting the workloads with enough pods finds the patterns and absorbs their groups.
  lemma PatternsFound(groups: Groups, minPods: nat, wls: map<string, Accumulator>, workloads: seq<string>)
    requires Accumulated(groups, groups.Keys, wls) && Enumerates(workloads, Promoted(wls, minPods))
    ensures Enumerates(workloads, Patterns(groups, minPods)) && KeysOf(wls, workloads) == Absorbed(groups, minPods)
  {
    forall wl: string
      ensures wl in Patterns(groups, minPods) <==> wl in Promoted(wls, minPods)
    {
      AllAccumulated(groups, minPods, wls, wl);
    }
    forall k: string
      ensures k in KeysOf(wls, workloads) <==> k in Absorbed(groups, minPods)
    {
      if k in Absorbed(groups, minPods) {
        var wl := PatternKey(groups[k]);
        AllAccumulated(groups, minPods, wls, wl);
        assert k in Members(groups, wl) && wl in Patterns(groups, minPods);
        assert wl in workloads && k in wls[wl].podKeys;
      }
      if k in KeysOf(wls, workloads) {
        var wl :| wl in workloads && wl in wls && k in wls[wl].podKeys;
        AllAccumulated(groups, minPods, wls, wl);
        assert k in Members(groups, wl) && wl in Patterns(groups, minPods);
      }
    }
  }

  // ----- whole histories -----

  datatype Step = AddStep(a: Anomaly, now: int) | FlushStep(now: int)

  function PendingAfter(window: int, steps: seq<Step>): Groups {
    if steps == [] then map[]
    else
      var before := PendingAfter(window, steps[..|steps| - 1]);
      match steps[|steps| - 1]
      case AddStep(a, now) => AddTo(before, a, now)
      case FlushStep(now) => Waiting(before, window, now)
  }

  function Held(groups: Groups, k: string): seq<Anomaly> { if k in groups then groups[k].anomalies else [] }

  function Under(k: string, a: Anomaly): seq<Anomaly> { if WorkloadKey(a) == k then [a] else [] }

  // The anomalies added under a key, in order.
  function AddedUnder(k: string, steps: seq<Step>): seq<Anomaly> {
    if steps == [] then []
    else
      var n := |steps| - 1;
      AddedUnder(k, steps[..n]) + if steps[n].AddStep? then Under(k, steps[n].a) else []
  }

  // The anomalies flushed under a key, in order.
  function FlushedUnder(k: string, window: int, steps: seq<Step>): seq<Anomaly> {
    if steps == [] then []
    else
      var n := |steps| - 1;
      FlushedUnder(k, window, steps[..n]) +
      if steps[n].FlushStep? then Held(Ready(PendingAfter(window, steps[..n]), window, steps[n].now), k) else []
  }

  lemma HeldAfterAdd(pending: Groups, a: Anomaly, now: int, k: string)
    ensures Held(AddTo(pending, a, now), k) == Held(pending, k) + Under(k, a)
  {
  }

  lemma HeldSplits(pending: Groups, window: int, now: int, k: string)
    ensures Held(pending, k) == Held(Ready(pending, window, now), k) + Held(Waiting(pending, window, now), k)
  {
  }

  lemma AddedOneMore(k: string, window: int, steps: seq<Step>, a: Anomaly, now: int)
    requires AddedUnder(k, steps) == FlushedUnder(k, window, steps) + Held(PendingAfter(window, steps), k)
    ensures var more := steps + [AddStep(a, now)];
            AddedUnder(k, more) == FlushedUnder(k, window, more) + Held(PendingAfter(window, more), k)
  {
    assert (steps + [AddStep(a, now)])[..|steps|] == steps;
    HeldAfterAdd(PendingAfter(window, steps), a, now, k);
    Associative(FlushedUnder(k, window, steps), Held(PendingAfter(window, steps), k), Under(k, a));
  }

  lemma FlushedOneMore(k: string, window: int, steps: seq<Step>, now: int)
    requires AddedUnder(k, steps) == FlushedUnder(k, window, steps) + Held(PendingAfter(window, steps), k)
    ensures var more := steps + [FlushStep(now)];
            AddedUnder(k, more) == FlushedUnder(k, window, more) + Held(PendingAfter(window, more), k)
  {
    assert (steps + [FlushStep(now)])[..|steps|] == steps;
    var before := PendingAfter(window, steps);
    HeldSplits(before, window, now, k);
    Associative(FlushedUnder(k, window, steps), Held(Ready(before, window, now), k),
                Held(Waiting(before, window, now), k));
  }

  // Nothing is lost, duplicated or reordered between being added and being flushed.
  lemma {:induction false} AddedIsFlushedOrPending(k: string, window: int, steps: seq<Step>)
    ensures AddedUnder(k, steps) == FlushedUnder(k, window, steps) + Held(PendingAfter(window, steps), k)
  {
    if steps != [] {
      var n := |steps| - 1;
      AddedIsFlushedOrPending(k, window, steps[..n]);
      assert steps == steps[..n] + [steps[n]];
      match steps[n] {
        case AddStep(a, now) => AddedOneMore(k, window, steps[..n], a, now);
        case FlushStep(now) => FlushedOneMore(k, window, steps[..n], now);
      }
    }
  }

  // No group is ever empty or held under a key that is not its own.
  lemma {:induction false} PendingIsKeyed(window: int, steps: seq<Step>)
    ensures Keyed(PendingAfter(window, steps))
  {
    if steps != [] {
      var n := |steps| - 1;
      PendingIsKeyed(window, steps[..n]);
      if steps[n].AddStep? {
        AddKeepsKeyed(PendingAfter(window, steps[..n]), steps[n].a, steps[n].now);
      }
    }
  }

  // The clock does not go back while some alerts are dealt with.
  ghost predicate Rising(times: Times, n: nat) {
    forall i: nat, j: nat :: i <= j < n ==> times(i) <= times(j)
  }

  // No event is later than a given time.
  ghost predicate Until(log: seq<Event<Fingerprint>>, now: int) { forall i :: 0 <= i < |log| ==> log[i].now <= now }

  // With such a clock a flush extends a chronological history by one.
  lemma FlushExtendsHistory(log: seq<Event<Fingerprint>>, alerts: seq<Alert>, now: int, times: Times, end: int,
                            cooldown: int, outages: nat -> Outage)
    requires Chronological(log) && Until(log, now) && Rising(times, |alerts|)
    requires now <= end && forall i: nat :: i < |alerts| ==> now <= times(i) <= end
    ensures var log' := log + EventsOf(alerts, times, cooldown, outages);
            Chronological(log') && Until(log', end)
  {
    var events := EventsOf(alerts, times, cooldown, outages);
    forall i: nat | i < |alerts|
      ensures events[i].now == times(i) && (log + events)[|log| + i] == events[i]
    {
    }
    forall i, j | 0 <= i <= j < |log + events|
      ensures (log + events)[i].now <= (log + events)[j].now <= end
    {
      if j >= |log| {
        var q: nat := j - |log|;
        assert (log + events)[j].now == times(q);
        if i >= |log| {
          var p: nat := i - |log|;
          assert (log + events)[i].now == times(p);
        }
      }
    }
  }

  // ----- what leaves a flush -----

  function ByFingerprint(): Alert -> Fingerprint { (a: Alert) => FingerprintOf(a) }

  function Fingerprints(alerts: seq<Alert>): seq<Fingerprint> { Map(ByFingerprint(), alerts) }

  lemma FingerprintInCores(s: seq<Alert>, f: Fingerprint)
    ensures f in Fingerprints(s) <==> exists c :: c in Map(Core(), s) && FingerprintOf(c) == f
  {
    if f in Fingerprints(s) {
      var i :| 0 <= i < |s| && Fingerprints(s)[i] == f;
      assert Map(Core(), s)[i] in Map(Core(), s);
    }
    if c :| c in Map(Core(), s) && FingerprintOf(c) == f {
      var i :| 0 <= i < |s| && Map(Core(), s)[i] == c;
      assert Fingerprints(s)[i] == f;
    }
  }

  lemma CoreKeepsFingerprint(s: seq<Alert>, t: seq<Alert>)
    requires multiset(Map(Core(), s)) == multiset(Map(Core(), t))
    ensures forall f :: f in Fingerprints(s) <==> f in Fingerprints(t)
  {
    forall f
      ensures f in Fingerprints(s) <==> f in Fingerprints(t)
    {
      FingerprintInCores(s, f);
      FingerprintInCores(t, f);
      assert forall c :: c in Map(Core(), s) <==> c in multiset(Map(Core(), s));
      assert forall c :: c in Map(Core(), t) <==> c in multiset(Map(Core(), t));
    }
  }

  // With a store that works, which fingerprints leave a flush does not depend on the order
  // in which maps are ranged over.
  lemma EmittedFingerprintsAreDetermined(groups: Groups, minPods: nat, o: Orders, o': Orders,
                                         expiry: map<Fingerprint, int>, now: int, cooldown: int)
    requires Keyed(groups) && AllAgree(groups, minPods)
    requires ValidOrders(groups, minPods, o) && ValidOrders(groups, minPods, o')
    ensures Leaving(expiry, Fingerprints(AlertsIn(groups, minPods, o)), now, cooldown).0 ==
            Leaving(expiry, Fingerprints(AlertsIn(groups, minPods, o')), now, cooldown).0
  {
    SameCores(groups, minPods, o, o');
    CoreKeepsFingerprint(AlertsIn(groups, minPods, o), AlertsIn(groups, minPods, o'));
    LeavingAreTheDead(expiry, Fingerprints(AlertsIn(groups, minPods, o)), now, cooldown);
    LeavingAreTheDead(expiry, Fingerprints(AlertsIn(groups, minPods, o')), now, cooldown);
  }

  function Working(): nat -> Outage { (i: nat) => Outage(Answered, false) }

  function FingerprintSet(alerts: seq<Alert>): set<Fingerprint> { set f | f in Fingerprints(alerts) }

  lemma FingerprintsSnoc(alerts: seq<Alert>, a: Alert)
    ensures Fingerprints(alerts + [a]) == Fingerprints(alerts) + [FingerprintOf(a)]
    ensures FingerprintSet(alerts + [a]) == FingerprintSet(alerts) + {FingerprintOf(a)}
  {
    assert Fingerprints(alerts + [a]) == Fingerprints(alerts) + [FingerprintOf(a)];
  }

  lemma LeavingOneMore(log: seq<Event<Fingerprint>>, before: seq<Event<Fingerprint>>, init: seq<Alert>, a: Alert,
                       kept: seq<Alert>, after: seq<Alert>, now: int, cooldown: int)
    requires Leaving(StoreAfter(log), Fingerprints(init), now, cooldown) == (FingerprintSet(kept), StoreAfter(before))
    requires var e := EventOf(a, now, cooldown, Outage(Answered, false));
             after == if Exists(StoreAfter(before), e) then kept else kept + [a]
    ensures Leaving(StoreAfter(log), Fingerprints(init + [a]), now, cooldown) ==
            (FingerprintSet(after), StoreAfter(before + [EventOf(a, now, cooldown, Outage(Answered, false))]))
  {
    StoreAfterSnoc(before, EventOf(a, now, cooldown, Outage(Answered, false)));
    FingerprintsSnoc(init, a);
    LeavingSnoc(StoreAfter(log), Fingerprints(init), FingerprintOf(a), now, cooldown);
    FingerprintsSnoc(kept, a);
  }

  // Leaving computes what Finalize lets out.
  ghost predicate LeavesUndropped(log: seq<Event<Fingerprint>>, alerts: seq<Alert>, now: int, cooldown: int) {
    var log' := log + EventsOf(alerts, At(now), cooldown, Working());
    Leaving(StoreAfter(log), Fingerprints(alerts), now, cooldown) ==
    (FingerprintSet(Undropped(log', |log|, alerts)), StoreAfter(log'))
  }

  lemma NoneLeave(log: seq<Event<Fingerprint>>, now: int, cooldown: int)
    ensures LeavesUndropped(log, [], now, cooldown)
  {
    assert log + EventsOf([], At(now), cooldown, Working()) == log;
    assert FingerprintSet([]) == {};
  }

  lemma OneMoreLeaves(log: seq<Event<Fingerprint>>, init: seq<Alert>, a: Alert, now: int, cooldown: int)
    requires LeavesUndropped(log, init, now, cooldown)
    ensures LeavesUndropped(log, init + [a], now, cooldown)
  {
    var alerts, n := init + [a], |init|;
    var before := log + EventsOf(init, At(now), cooldown, Working());
    assert alerts[..n] == init && alerts[..n + 1] == alerts;
    OneMoreFinalized(log, before, alerts, n, At(now), cooldown, Working());
    LeavingOneMore(log, before, init, a, Undropped(before, |log|, init),
                   Undropped(log + EventsOf(alerts, At(now), cooldown, Working()), |log|, alerts), now, cooldown);
  }

  lemma {:induction false} LeavingIsUndropped(log: seq<Event<Fingerprint>>, alerts: seq<Alert>, now: int, cooldown: int)
    ensures LeavesUndropped(log, alerts, now, cooldown)
  {
    if alerts == [] {
      NoneLeave(log, now, cooldown);
    } else {
      var n := |alerts| - 1;
      LeavingIsUndropped(log, alerts[..n], now, cooldown);
      OneMoreLeaves(log, alerts[..n], alerts[n], now, cooldown);
      assert alerts == alerts[..n] + [alerts[n]];
    }
  }

  // ----- the correlator -----

  class Correlator {
    const redis: DedupStore<Fingerprint>
    const window: int
    const cooldown: int
    const minPods: nat
    var pending: Groups
    ghost var log: seq<Event<Fingerprint>>

    // The store outlives the process: it comes with a history, empty or not.
    constructor (redis: DedupStore<Fingerprint>, window: int, cooldown: int, workloadMinPods: int,
                 ghost past: seq<Event<Fingerprint>>)
      requires redis.expiry == StoreAfter(past) && OneTtl(past, cooldown)
      ensures Valid() && this.redis == redis && this.window == window && this.cooldown == cooldown
      ensures minPods == (if workloadMinPods < 2 then 3 else workloadMinPods) && pending == map[] && log == past
    {
      this.redis, this.window, this.cooldown := redis, window, cooldown;
      minPods := if workloadMinPods < 2 then 3 else workloadMinPods;
      pending := map[];
      log := past;
    }

    // Groups are held under their keys, and the store is what the history made it.
    ghost predicate Valid()
      reads this, redis
    {
      Keyed(pending) && minPods >= 2 && redis.expiry == StoreAfter(log) && OneTtl(log, cooldown)
    }

    method Add(a: Anomaly, now: int)
      requires Valid()
      modifies this`pending
      ensures Valid()
      ensures pending == AddTo(old(pending), a, now)
    {
      var key := WorkloadKey(a);
      AddKeepsKeyed(pending, a, now);
      if key !in pending {
        pending := pending[key := Group([], now)];
      }
      var g := pending[key];
      pending := pending[key := g.(anomalies := g.anomalies + [a])];
    }

    method ReadyKeys(now: int) returns (ready: set<string>)
      ensures ready == Ready(pending, window, now).Keys
    {
      ready := {};
      var todo := pending.Keys;
      while todo != {}
        invariant todo <= pending.Keys
        invariant ready == Ready(pending, window, now).Keys - todo
      {
        var k :| k in todo;
        todo := todo - {k};
        if now - pending[k].firstSeen >= window {
          ready := ready + {k};
        }
      }
    }

    // Takes the groups whose window has passed out of pending.
    method TakeReady(now: int) returns (groups: Groups)
      requires Valid()
      modifies this`pending
      ensures Valid()
      ensures groups == Ready(old(pending), window, now) && pending == Waiting(old(pending), window, now)
      ensures forall k :: k in groups <==> k in old(pending) && now - old(pending)[k].firstSeen >= window
      ensures forall k :: k in pending <==> k in old(pending) && now - old(pending)[k].firstSeen < window
      ensures forall k :: k in groups ==> groups[k] == old(pending)[k]
      ensures forall k :: k in pending ==> pending[k] == old(pending)[k]
    {
      var todo := ReadyKeys(now);
      ghost var ready, all := todo, pending;
      groups := map[];
      while todo != {}
        invariant todo <= ready
        invariant groups == map k | k in all && k in ready && k !in todo :: all[k]
        invariant pending == all - (ready - todo)
      {
        var k :| k in todo;
        groups := groups[k := pending[k]];
        pending := pending - {k};
        todo := todo - {k};
      }
      assert pending == Waiting(all, window, now);
    }

    method AccumulateWorkloads(groups: Groups) returns (wls: map<string, Accumulator>)
      ensures Accumulated(groups, groups.Keys, wls)
    {
      wls := map[];
      var todo := groups.Keys;
      while todo != {}
        invariant todo <= groups.Keys
        invariant Accumulated(groups, groups.Keys - todo, wls)
      {
        var podKey :| podKey in todo;
        ghost var seen := groups.Keys - todo;
        todo := todo - {podKey};
        assert groups.Keys - todo == seen + {podKey};
        var g := groups[podKey];
        if !Eligible(g) {
          PassOver(groups, seen, wls, podKey);
          continue;
        }
        AccumulateOneMore(groups, seen, wls, podKey);
        var wlKey := PatternKey(g);
        var acc := if wlKey in wls then wls[wlKey]
                   else Accumulator([], {}, [], ClusterOrUnknown(First(g)), Label(First(g), "namespace"));
        wls := wls[wlKey := Accumulator(acc.anomalies + g.anomalies, acc.pods + {PodOf(g)}, acc.podKeys + [podKey],
                                        acc.cluster, acc.namespace)];
      }
    }

    method DetectWorkloadPatterns(groups: Groups)
      returns (alerts: seq<Alert>, suppressed: set<string>,
               ghost workloads: seq<string>, ghost wls: map<string, Accumulator>)
      ensures Accumulated(groups, groups.Keys, wls)
      ensures Enumerates(workloads, Patterns(groups, minPods))
      ensures suppressed == Absorbed(groups, minPods)
      ensures AlertsFor(wls, workloads, alerts)
    {
      var acc := AccumulateWorkloads(groups);
      wls := acc;
      alerts, suppressed, workloads := [], {}, [];
      var todo := acc.Keys;
      while todo != {}
        invariant todo <= acc.Keys
        invariant PromotedSoFar(acc, minPods, todo, workloads, suppressed, alerts)
      {
        var wlKey :| wlKey in todo;
        HeldAnomalies(groups, acc, wlKey);
        if |acc[wlKey].pods| < minPods {
          SkipOneMore(acc, minPods, todo, workloads, suppressed, alerts, wlKey);
          todo := todo - {wlKey};
          continue;
        }
        PromoteOneMore(acc, minPods, todo, workloads, suppressed, alerts, wlKey);
        todo := todo - {wlKey};
        workloads := workloads + [wlKey];
        var alert := BuildWorkloadAlert(wlKey, acc[wlKey]);
        alerts := alerts + [alert];
        suppressed := suppressed + (set k | k in acc[wlKey].podKeys);
      }
      assert Promoted(wls, minPods) - todo == Promoted(wls, minPods);
      PatternsFound(groups, minPods, wls, workloads);
    }

    // Deduplication of one alert.
    method Deduplicate(alert: Alert, now: int, outage: Outage) returns (leaves: bool)
      requires Valid()
      modifies this`log, redis
      ensures Valid()
      ensures log == old(log) + [EventOf(alert, now, cooldown, outage)]
      ensures leaves <==> !Exists(StoreAfter(old(log)), EventOf(alert, now, cooldown, outage))
    {
      StoreAfterSnoc(log, EventOf(alert, now, cooldown, outage));
      log := log + [EventOf(alert, now, cooldown, outage)];
      var dedupKey := FingerprintOf(alert);
      var exists_ := redis.Check(dedupKey, now, outage.probe);
      if exists_ { return false; }
      redis.SetWithTTL(dedupKey, cooldown, now, outage.setFails);
      return true;
    }

    // Deduplication of one alert after the other.
    method Finalize(alerts: seq<Alert>, times: Times, outages: nat -> Outage) returns (out: seq<Alert>)
      requires Valid()
      modifies this`log, redis
      ensures Valid()
      ensures log == old(log) + EventsOf(alerts, times, cooldown, outages)
      ensures out == Undropped(log, |old(log)|, alerts)
    {
      out := [];
      for i := 0 to |alerts|
        invariant Valid()
        invariant log == old(log) + EventsOf(alerts[..i], times, cooldown, outages)
        invariant out == Undropped(log, |old(log)|, alerts[..i])
      {
        ghost var before := log;
        var leaves := Deduplicate(alerts[i], times(i), outages(i));
        OneMoreFinalized(old(log), before, alerts, i, times, cooldown, outages);
        if leaves {
          out := out + [alerts[i]];
        }
      }
      assert alerts[..|alerts|] == alerts;
    }

    // A pod alert for every group that is not suppressed.
    method BuildPodAlerts(groups: Groups, suppressed: set<string>) returns (alerts: seq<Alert>, ghost pods: seq<string>)
      requires Keyed(groups)
      ensures Enumerates(pods, groups.Keys - suppressed) && alerts == PodAlerts(groups, pods)
    {
      alerts, pods := [], [];
      var todo := groups.Keys;
      while todo != {}
        invariant todo <= groups.Keys
        invariant Enumerates(pods, groups.Keys - suppressed - todo)
        invariant alerts == PodAlerts(groups, pods)
      {
        var podKey :| podKey in todo;
        ghost var done := groups.Keys - suppressed - todo;
        todo := todo - {podKey};
        if podKey in suppressed {
          assert groups.Keys - suppressed - todo == done;
          continue;
        }
        assert groups.Keys - suppressed - todo == done + {podKey};
        EnumeratesOneMore(pods, done, podKey);
        PodAlertsSnoc(groups, pods, podKey);
        pods := pods + [podKey];
        var alert := BuildPodAlert(groups[podKey]);
        alerts := alerts + [alert];
      }
      assert groups.Keys - suppressed - todo == groups.Keys - suppressed;
    }

    // The alerts of the groups whose window has passed at time now; the i-th comes up for
    // deduplication at its own time.  The ghost results say in which orders the maps were
    // ranged over, and which alerts went to deduplication.
    method Flush(now: int, times: Times, outages: nat -> Outage)
        returns (out: seq<Alert>, ghost orders: Orders, ghost alerts: seq<Alert>)
      requires Valid()
      modifies this`pending, this`log, redis
      ensures Valid()
      ensures pending == Waiting(old(pending), window, now)
      ensures forall k :: k in pending <==> k in old(pending) && now - old(pending)[k].firstSeen < window
      ensures forall k :: k in pending ==> pending[k] == old(pending)[k]
      ensures var groups := Ready(old(pending), window, now);
              Keyed(groups) && ValidOrders(groups, minPods, orders) && alerts == AlertsIn(groups, minPods, orders)
      ensures log == old(log) + EventsOf(alerts, times, cooldown, outages)
      ensures out == Undropped(log, |old(log)|, alerts)
    {
      var groups := TakeReady(now);
      var found, suppressed;
      ghost var workloads, wls;
      found, suppressed, workloads, wls := DetectWorkloadPatterns(groups);

      ghost var pods;
      var podAlerts;
      podAlerts, pods := BuildPodAlerts(groups, suppressed);
      var all := found + podAlerts;
      orders := Orders(workloads, map wl | wl in wls :: wls[wl].podKeys, pods);
      OrdersAreValid(groups, minPods, wls, orders, found);
      alerts := all;
      out := Finalize(all, times, outages);
    }

    // The signals and the highest severity of some anomalies.
    method Summarize(anomalies: seq<Anomaly>) returns (signalSet: set<Signal>, maxSeverity: Severity)
      ensures signalSet == SignalsOf(anomalies)
      ensures maxSeverity == if HasCritical(anomalies) then Critical else Warning
    {
      signalSet, maxSeverity := {}, Warning;
      for i := 0 to |anomalies|
        invariant signalSet == SignalsOf(anomalies[..i])
        invariant maxSeverity == if HasCritical(anomalies[..i]) then Critical else Warning
      {
        assert anomalies[..i + 1] == anomalies[..i] + [anomalies[i]];
        SignalsOfConcat(anomalies[..i], [anomalies[i]]);
        signalSet := signalSet + {anomalies[i].signal};
        if anomalies[i].severity == Critical {
          maxSeverity := Critical;
        }
      }
      assert anomalies[..|anomalies|] == anomalies;
    }

    // What follows the last slash of a key, by a scan from its end.
    method ExtractWorkloadFromKey(key: string) returns (workload: string)
      ensures workload == LastSegment(key)
    {
      var i := |key|;
      ScanStarts(key);
      while i > 0
        invariant i >= 0 && Scanned(key, i)
      {
        ScanStep(key, i);
        if key[i - 1] == '/' { return key[i..]; }
        i := i - 1;
      }
      ScanEnds(key);
      return key;
    }

    // The alert of one workload.
    method BuildWorkloadAlert(wlKey: string, acc: Accumulator) returns (alert: Alert)
      requires acc.anomalies != []
      ensures alert == WorkloadAlertOf(wlKey, acc)
    {
      var signalSet, maxSeverity := Summarize(acc.anomalies);
      var workload := ExtractWorkloadFromKey(wlKey);
      var rep := acc.anomalies[0];
      var repLabels := rep.labels["workload" := workload];
      repLabels := repLabels["pod" := ""];
      alert := Alert(WorkloadAlert, [rep.(labels := repLabels)], maxSeverity, acc.cluster, acc.namespace, workload,
                     signalSet, acc.pods, |acc.pods|);
    }

    // The alert of one group.
    method BuildPodAlert(g: Group) returns (alert: Alert)
      requires g.anomalies != []
      ensures alert == PodAlertOf(g)
    {
      var signalSet, maxSeverity := Summarize(g.anomalies);
      if |signalSet| >= 2 && maxSeverity == Warning {
        maxSeverity := Critical;
      }
      var labels := g.anomalies[0].labels;
      alert := Alert(PodAlert, g.anomalies, maxSeverity, ClusterOrUnknown(labels), Label(labels, "namespace"),
                     Label(labels, "pod"), signalSet, {}, 0);
    }
  }
}
