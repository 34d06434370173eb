// What leaves the correlator: of one flush, in every order of the maps, and over a run.
module Emission {
  import opened Sequences
  import opened Correlation
  import opened CorrelationTheorems
  import opened Dedup
  import opened Correlator

  // ----- a batch through a store that works -----

  predicate Alive(expiry: map<Fingerprint, int>, f: Fingerprint, now: int) { f in expiry && now < expiry[f] }

  // The alerts that leave: of those with one fingerprint not alive, the first.
  function FirstOfEach(expiry: map<Fingerprint, int>, now: int, alerts: seq<Alert>): seq<Alert> {
    if alerts == [] then []
    else
      var n := |alerts| - 1;
      var rest := FirstOfEach(expiry, now, alerts[..n]);
      if Alive(expiry, FingerprintOf(alerts[n]), now) || FingerprintOf(alerts[n]) in Fingerprints(alerts[..n])
      then rest else rest + [alerts[n]]
  }

  // While a batch is dealt with no fingerprint alive before it dies, and none written by it.
  ghost predicate Steady(expiry: map<Fingerprint, int>, now: int, times: Times, cooldown: int) {
    && (forall i: nat, f :: Alive(expiry, f, times(i)) <==> Alive(expiry, f, now))
    && (forall i: nat, j: nat :: i <= j ==> times(j) < times(i) + cooldown)
  }

  // In particular when it takes no time.
  lemma InstantIsSteady(expiry: map<Fingerprint, int>, now: int, cooldown: int)
    requires cooldown > 0
    ensures Steady(expiry, now, At(now), cooldown)
  {
  }

  function EventAt(a: Alert, times: Times, n: nat, cooldown: int): Event<Fingerprint> {
    EventOf(a, times(n), cooldown, Outage(Answered, false))
  }

  lemma EventsSnoc(log: seq<Event<Fingerprint>>, init: seq<Alert>, a: Alert, times: Times, cooldown: int)
    ensures log + EventsOf(init + [a], times, cooldown, Working()) ==
            (log + EventsOf(init, times, cooldown, Working())) + [EventAt(a, times, |init|, cooldown)]
  {
    assert EventsOf(init + [a], times, cooldown, Working()) ==
           EventsOf(init, times, cooldown, Working()) + [EventAt(a, times, |init|, cooldown)];
  }

  lemma AliveOneMore(expiry: map<Fingerprint, int>, a: Alert, times: Times, n: nat, cooldown: int,
                     f: Fingerprint, m: nat)
    requires times(m) < times(n) + cooldown
    requires Alive(expiry, FingerprintOf(a), times(n)) ==> Alive(expiry, FingerprintOf(a), times(m))
    ensures Alive(AfterEvent(expiry, EventAt(a, times, n, cooldown)), f, times(m)) <==>
            Alive(expiry, f, times(m)) || f == FingerprintOf(a)
  {
  }

  // At any later time of the batch.
  lemma {:induction false} BatchKeepsAlive(log: seq<Event<Fingerprint>>, alerts: seq<Alert>, now: int, times: Times,
                                           cooldown: int, f: Fingerprint, m: nat)
    requires Steady(StoreAfter(log), now, times, cooldown) && m >= |alerts|
    ensures Alive(StoreAfter(log + EventsOf(alerts, times, cooldown, Working())), f, times(m)) <==>
            Alive(StoreAfter(log), f, now) || f in Fingerprints(alerts)
  {
    if alerts == [] {
      assert log + EventsOf(alerts, times, cooldown, Working()) == log;
    } else {
      var n := |alerts| - 1;
      var init, a := alerts[..n], alerts[n];
      var before := log + EventsOf(init, times, cooldown, Working());
      BatchKeepsAlive(log, init, now, times, cooldown, f, m);
      BatchKeepsAlive(log, init, now, times, cooldown, FingerprintOf(a), n);
      BatchKeepsAlive(log, init, now, times, cooldown, FingerprintOf(a), m);
      AliveOneMore(StoreAfter(before), a, times, n, cooldown, f, m);
      assert alerts == init + [a];
      EventsSnoc(log, init, a, times, cooldown);
      StoreAfterSnoc(before, EventAt(a, times, n, cooldown));
      FingerprintsSnoc(init, a);
    }
  }

  lemma FirstOfEachSnoc(expiry: map<Fingerprint, int>, now: int, init: seq<Alert>, a: Alert)
    ensures FirstOfEach(expiry, now, init + [a]) ==
            if Alive(expiry, FingerprintOf(a), now) || FingerprintOf(a) in Fingerprints(init)
            then FirstOfEach(expiry, now, init) else FirstOfEach(expiry, now, init) + [a]
  {
    assert (init + [a])[..|init|] == init;
  }

  // Through a working store the alerts of a batch leave that are the first of each.
  ghost predicate FirstsLeave(log: seq<Event<Fingerprint>>, alerts: seq<Alert>, now: int, times: Times, cooldown: int) {
    Undropped(log + EventsOf(alerts, times, cooldown, Working()), |log|, alerts) ==
    FirstOfEach(StoreAfter(log), now, alerts)
  }

  lemma OneMoreLeaves(log: seq<Event<Fingerprint>>, alerts: seq<Alert>, init: seq<Alert>, a: Alert, now: int,
                      times: Times, cooldown: int)
    requires Steady(StoreAfter(log), now, times, cooldown) && alerts == init + [a]
    requires FirstsLeave(log, init, now, times, cooldown)
    ensures FirstsLeave(log, alerts, now, times, cooldown)
  {
    var before, e := log + EventsOf(init, times, cooldown, Working()), EventAt(a, times, |init|, cooldown);
    EventsSnoc(log, init, a, times, cooldown);
    UndroppedOneMore(before, e, |log|, init, a);
    FirstOfEachSnoc(StoreAfter(log), now, init, a);
    BatchKeepsAlive(log, init, now, times, cooldown, FingerprintOf(a), |init|);
    assert Exists(StoreAfter(before), e) <==> Alive(StoreAfter(before), FingerprintOf(a), times(|init|));
  }

  lemma {:induction false} UndroppedIsFirstOfEach(log: seq<Event<Fingerprint>>, alerts: seq<Alert>, now: int,
                                                  times: Times, cooldown: int)
    requires Steady(StoreAfter(log), now, times, cooldown)
    ensures FirstsLeave(log, alerts, now, times, cooldown)
  {
    if alerts != [] {
      var n := |alerts| - 1;
      UndroppedIsFirstOfEach(log, alerts[..n], now, times, cooldown);
      OneMoreLeaves(log, alerts, alerts[..n], alerts[n], now, times, cooldown);
    }
  }

  // ----- the alerts that leave lead -----

  // The i-th alert is not alive, and the first with its fingerprint.
  ghost predicate LeadsAt(expiry: map<Fingerprint, int>, now: int, s: seq<Alert>, i: nat) {
    && i < |s| && !Alive(expiry, FingerprintOf(s[i]), now)
    && forall j: nat :: j < i ==> FingerprintOf(s[j]) != FingerprintOf(s[i])
  }

  lemma NotListed(s: seq<Alert>, f: Fingerprint)
    ensures f !in Fingerprints(s) <==> forall j: nat :: j < |s| ==> FingerprintOf(s[j]) != f
  {
    if f in Fingerprints(s) {
      var j :| 0 <= j < |s| && Fingerprints(s)[j] == f;
      assert FingerprintOf(s[j]) == f;
    } else {
      forall j: nat | j < |s|
        ensures FingerprintOf(s[j]) != f
      {
        assert Fingerprints(s)[j] in Fingerprints(s);
      }
    }
  }

  ghost predicate Leads(expiry: map<Fingerprint, int>, now: int, s: seq<Alert>, a: Alert) {
    exists i: nat :: LeadsAt(expiry, now, s, i) && s[i] == a
  }

  lemma LeadsOneMore(expiry: map<Fingerprint, int>, now: int, init: seq<Alert>, x: Alert, a: Alert)
    ensures Leads(expiry, now, init + [x], a) <==>
            Leads(expiry, now, init, a) ||
            (a == x && !Alive(expiry, FingerprintOf(x), now) && FingerprintOf(x) !in Fingerprints(init))
  {
    var s, n := init + [x], |init|;
    assert s[n] == x && forall i: nat :: i < n ==> s[i] == init[i];
    assert forall i: nat :: i < n ==> (LeadsAt(expiry, now, s, i) <==> LeadsAt(expiry, now, init, i));
    NotListed(init, FingerprintOf(x));
    if Leads(expiry, now, init, a) {
      var i: nat :| LeadsAt(expiry, now, init, i) && init[i] == a;
      assert LeadsAt(expiry, now, s, i) && s[i] == a;
    }
    if a == x && !Alive(expiry, FingerprintOf(x), now) && FingerprintOf(x) !in Fingerprints(init) {
      assert LeadsAt(expiry, now, s, n);
    }
  }

  lemma {:induction false} FirstOfEachLeads(expiry: map<Fingerprint, int>, now: int, s: seq<Alert>, a: Alert)
    ensures a in FirstOfEach(expiry, now, s) <==> Leads(expiry, now, s, a)
    ensures multiset(FirstOfEach(expiry, now, s))[a] <= 1
  {
    if s != [] {
      var n := |s| - 1;
      var init, x := s[..n], s[n];
      FirstOfEachLeads(expiry, now, init, a);
      assert s == init + [x];
      FirstOfEachSnoc(expiry, now, init, x);
      LeadsOneMore(expiry, now, init, x, a);
      if a == x && Leads(expiry, now, init, a) {
        NotListed(init, FingerprintOf(x));
      }
      assert a in FirstOfEach(expiry, now, init) <==> a in multiset(FirstOfEach(expiry, now, init));
    }
  }

  // So what leaves is fixed by which alerts lead.
  lemma SameLeadersLeave(expiry: map<Fingerprint, int>, now: int, s: seq<Alert>, t: seq<Alert>)
    requires forall a :: Leads(expiry, now, s, a) <==> Leads(expiry, now, t, a)
    ensures multiset(FirstOfEach(expiry, now, s)) == multiset(FirstOfEach(expiry, now, t))
  {
    var ms, mt := multiset(FirstOfEach(expiry, now, s)), multiset(FirstOfEach(expiry, now, t));
    forall a
      ensures ms[a] == mt[a]
    {
      FirstOfEachLeads(expiry, now, s, a);
      FirstOfEachLeads(expiry, now, t, a);
      assert a in FirstOfEach(expiry, now, s) <==> a in ms;
      assert a in FirstOfEach(expiry, now, t) <==> a in mt;
    }
    SameMultiplicities(ms, mt);
  }

  lemma LeaderLeaves(expiry: map<Fingerprint, int>, now: int, s: seq<Alert>, t: seq<Alert>, a: Alert)
    requires multiset(FirstOfEach(expiry, now, s)) == multiset(FirstOfEach(expiry, now, t))
    requires Leads(expiry, now, s, a)
    ensures Leads(expiry, now, t, a)
  {
    FirstOfEachLeads(expiry, now, s, a);
    FirstOfEachLeads(expiry, now, t, a);
    assert a in multiset(FirstOfEach(expiry, now, s));
    assert a in multiset(FirstOfEach(expiry, now, t));
  }

  // Two alerts with one fingerprint do not both lead.
  lemma OneLeader(expiry: map<Fingerprint, int>, now: int, s: seq<Alert>, a: Alert, b: Alert)
    requires Leads(expiry, now, s, a) && Leads(expiry, now, s, b) && FingerprintOf(a) == FingerprintOf(b)
    ensures a == b
  {
    var i: nat :| LeadsAt(expiry, now, s, i) && s[i] == a;
    var j: nat :| LeadsAt(expiry, now, s, j) && s[j] == b;
    assert i == j;
  }

  lemma LeadersDiffer(expiry: map<Fingerprint, int>, now: int, s: seq<Alert>, t: seq<Alert>, a: Alert, b: Alert)
    requires Leads(expiry, now, s, a) && Leads(expiry, now, t, b) && FingerprintOf(a) == FingerprintOf(b) && a != b
    ensures multiset(FirstOfEach(expiry, now, s)) != multiset(FirstOfEach(expiry, now, t))
  {
    if multiset(FirstOfEach(expiry, now, s)) == multiset(FirstOfEach(expiry, now, t)) {
      LeaderLeaves(expiry, now, s, t, a);
      OneLeader(expiry, now, t, a, b);
    }
  }

  lemma {:induction false} SomeLeader(expiry: map<Fingerprint, int>, now: int, s: seq<Alert>, i: nat) returns (j: nat)
    requires i < |s| && !Alive(expiry, FingerprintOf(s[i]), now)
    ensures j <= i && LeadsAt(expiry, now, s, j) && FingerprintOf(s[j]) == FingerprintOf(s[i])
    decreases i
  {
    j := i;
    if !LeadsAt(expiry, now, s, i) {
      var k: nat :| k < i && FingerprintOf(s[k]) == FingerprintOf(s[i]);
      j := SomeLeader(expiry, now, s, k);
    }
  }

  // ----- a flush, up to the anomalies its alerts quote -----

  ghost function CoresIn(groups: Groups, minPods: nat, o: Orders): seq<Alert> {
    Map(WorkloadCore(groups, minPods, o), o.workloads) + Map(PodCore(groups), o.pods)
  }

  // What a flush lets out through a working store.
  ghost function Emitted(groups: Groups, minPods: nat, o: Orders, log: seq<Event<Fingerprint>>, times: Times,
                         cooldown: int): multiset<Alert>
    requires Keyed(groups) && ValidOrders(groups, minPods, o)
  {
    var alerts := AlertsIn(groups, minPods, o);
    multiset(Map(Core(), Undropped(log + EventsOf(alerts, times, cooldown, Working()), |log|, alerts)))
  }

  lemma CoresHaveFingerprints(s: seq<Alert>)
    ensures Fingerprints(Map(Core(), s)) == Fingerprints(s)
  {
  }

  lemma CoresOneMore(expiry: map<Fingerprint, int>, now: int, init: seq<Alert>, x: Alert)
    requires Map(Core(), FirstOfEach(expiry, now, init)) == FirstOfEach(expiry, now, Map(Core(), init))
    ensures Map(Core(), FirstOfEach(expiry, now, init + [x])) == FirstOfEach(expiry, now, Map(Core(), init + [x]))
  {
    assert Map(Core(), init + [x]) == Map(Core(), init) + [Core()(x)];
    FirstOfEachSnoc(expiry, now, init, x);
    FirstOfEachSnoc(expiry, now, Map(Core(), init), Core()(x));
    CoresHaveFingerprints(init);
    MapConcat(Core(), FirstOfEach(expiry, now, init), [x]);
  }

  lemma {:induction false} FirstOfEachOfCores(expiry: map<Fingerprint, int>, now: int, s: seq<Alert>)
    ensures Map(Core(), FirstOfEach(expiry, now, s)) == FirstOfEach(expiry, now, Map(Core(), s))
  {
    if s != [] {
      var n := |s| - 1;
      FirstOfEachOfCores(expiry, now, s[..n]);
      CoresOneMore(expiry, now, s[..n], s[n]);
      assert s == s[..n] + [s[n]];
    }
  }

  lemma EmittedIs(groups: Groups, minPods: nat, o: Orders, log: seq<Event<Fingerprint>>, now: int, times: Times,
                  cooldown: int)
    requires Keyed(groups) && ValidOrders(groups, minPods, o)
    requires Steady(StoreAfter(log), now, times, cooldown)
    ensures Emitted(groups, minPods, o, log, times, cooldown) ==
            multiset(FirstOfEach(StoreAfter(log), now, CoresIn(groups, minPods, o)))
  {
    var alerts := AlertsIn(groups, minPods, o);
    UndroppedIsFirstOfEach(log, alerts, now, times, cooldown);
    FirstOfEachOfCores(StoreAfter(log), now, alerts);
    CoresOfAlerts(groups, minPods, o);
  }

  // ----- the alerts there may be -----

  lemma MembersAreListed(groups: Groups, wl: string, ks: seq<string>)
    requires ks != [] && Enumerates(ks, Members(groups, wl))
    ensures Listed(groups, ks) && ks[0] in Members(groups, wl)
  {
    assert ks[0] in ks;
    forall i | 0 <= i < |ks|
      ensures ks[i] in groups && groups[ks[i]].anomalies != []
    {
      assert ks[i] in ks;
    }
  }

  // The alert of workload wl when its group k comes first.
  ghost function CoreAt(groups: Groups, wl: string, k: string): Alert
    requires k in Members(groups, wl)
  {
    var ks := EnumerationFrom(Members(groups, wl), k);
    MembersAreListed(groups, wl, ks);
    FlattenedStarts(groups, ks);
    Core()(WorkloadAlertOf(wl, AccumulatorOf(groups, ks)))
  }

  lemma CoreAtSays(groups: Groups, wl: string, k: string)
    requires k in Members(groups, wl)
    ensures CoreAt(groups, wl, k).kind == WorkloadAlert
    ensures CoreAt(groups, wl, k).cluster == ClusterOrUnknown(First(groups[k]))
    ensures CoreAt(groups, wl, k).namespace == Label(First(groups[k]), "namespace")
    ensures CoreAt(groups, wl, k).affectedPods == Pods(groups, Members(groups, wl))
  {
    var ks := EnumerationFrom(Members(groups, wl), k);
    MembersAreListed(groups, wl, ks);
    AccumulatedPods(groups, wl, ks);
  }

  lemma SamePlaceSameCore(groups: Groups, wl: string, k: string, k': string)
    requires k in Members(groups, wl) && k' in Members(groups, wl) && SamePlace(groups[k], groups[k'])
    ensures CoreAt(groups, wl, k) == CoreAt(groups, wl, k')
  {
    var ks, ks' := EnumerationFrom(Members(groups, wl), k), EnumerationFrom(Members(groups, wl), k');
    MembersAreListed(groups, wl, ks);
    MembersAreListed(groups, wl, ks');
    FlattenedStarts(groups, ks);
    FlattenedStarts(groups, ks');
    PatternAlertIsDetermined(groups, wl, ks, ks');
  }

  lemma WorkloadCoreIs(groups: Groups, minPods: nat, o: Orders, wl: string) returns (k: string)
    requires ValidOrders(groups, minPods, o) && wl in Patterns(groups, minPods)
    ensures o.members[wl] != [] && k == o.members[wl][0] && k in Members(groups, wl)
    ensures WorkloadCore(groups, minPods, o)(wl) == CoreAt(groups, wl, k)
  {
    var ks := o.members[wl];
    PatternHasMembers(groups, minPods, wl, ks);
    MembersAreListed(groups, wl, ks);
    FlattenedStarts(groups, ks);
    k := ks[0];
    var ks' := EnumerationFrom(Members(groups, wl), k);
    MembersAreListed(groups, wl, ks');
    FlattenedStarts(groups, ks');
    PatternAlertIsDetermined(groups, wl, ks, ks');
    assert WorkloadCore(groups, minPods, o)(wl) == Core()(WorkloadAlertIn(groups, minPods, o, wl));
  }

  // Where an alert may come from: a workload and the group that comes first, or one group.
  datatype Source = OfWorkload(wl: string, k: string) | OfGroup(k: string)

  ghost predicate IsSource(groups: Groups, minPods: nat, x: Source) {
    match x
    case OfWorkload(wl, k) => wl in Patterns(groups, minPods) && k in Members(groups, wl)
    case OfGroup(k) => k in groups.Keys - Absorbed(groups, minPods) && groups[k].anomalies != []
  }

  ghost function CoreOf(groups: Groups, minPods: nat, x: Source): Alert
    requires IsSource(groups, minPods, x)
  {
    match x
    case OfWorkload(wl, k) => CoreAt(groups, wl, k)
    case OfGroup(k) => Core()(PodAlertOf(groups[k]))
  }

  // An alert may leave: its fingerprint is not alive.
  ghost predicate MayLeave(a: Alert, expiry: map<Fingerprint, int>, now: int) {
    !Alive(expiry, FingerprintOf(a), now)
  }

  // The place of a workload whose alert may leave is settled.
  ghost predicate PlacesSettled(groups: Groups, minPods: nat, expiry: map<Fingerprint, int>, now: int) {
    forall wl, k, k' | wl in Patterns(groups, minPods) && k in Members(groups, wl) && k' in Members(groups, wl) ::
      MayLeave(CoreAt(groups, wl, k), expiry, now) ==> SamePlace(groups[k], groups[k'])
  }

  ghost predicate ShareFingerprint(a: Alert, b: Alert) { FingerprintOf(a) == FingerprintOf(b) }

  // Alerts that share a fingerprint under which one may leave are the same.
  ghost predicate FingerprintsSettled(groups: Groups, minPods: nat, expiry: map<Fingerprint, int>, now: int) {
    forall x, y | IsSource(groups, minPods, x) && IsSource(groups, minPods, y) ::
      var a, b := CoreOf(groups, minPods, x), CoreOf(groups, minPods, y);
      MayLeave(a, expiry, now) && ShareFingerprint(a, b) ==> a == b
  }

  lemma PodCoreIs(groups: Groups, minPods: nat, o: Orders, j: nat)
    requires Keyed(groups) && ValidOrders(groups, minPods, o) && j < |o.pods|
    ensures IsSource(groups, minPods, OfGroup(o.pods[j]))
    ensures PodCore(groups)(o.pods[j]) == Core()(PodAlertOf(groups[o.pods[j]]))
  {
    assert o.pods[j] in o.pods;
  }

  lemma CoresAre(groups: Groups, minPods: nat, o: Orders, i: nat)
    requires i < |o.workloads| + |o.pods|
    ensures |CoresIn(groups, minPods, o)| == |o.workloads| + |o.pods|
    ensures i < |o.workloads| ==> CoresIn(groups, minPods, o)[i] == WorkloadCore(groups, minPods, o)(o.workloads[i])
    ensures i >= |o.workloads| ==> CoresIn(groups, minPods, o)[i] == PodCore(groups)(o.pods[i - |o.workloads|])
  {
  }

  // Every alert of a flush has a source.
  lemma CoreHasSource(groups: Groups, minPods: nat, o: Orders, i: nat) returns (x: Source)
    requires Keyed(groups) && ValidOrders(groups, minPods, o) && i < |CoresIn(groups, minPods, o)|
    ensures IsSource(groups, minPods, x) && CoreOf(groups, minPods, x) == CoresIn(groups, minPods, o)[i]
    ensures x.OfWorkload? <==> i < |o.workloads|
    ensures x.OfWorkload? ==> x.wl == o.workloads[i] && o.members[x.wl] != [] && x.k == o.members[x.wl][0]
    ensures x.OfGroup? ==> x.k == o.pods[i - |o.workloads|]
  {
    CoresAre(groups, minPods, o, i);
    if i < |o.workloads| {
      assert o.workloads[i] in o.workloads;
      var k := WorkloadCoreIs(groups, minPods, o, o.workloads[i]);
      x := OfWorkload(o.workloads[i], k);
    } else {
      PodCoreIs(groups, minPods, o, i - |o.workloads|);
      x := OfGroup(o.pods[i - |o.workloads|]);
    }
  }

  // A workload promoted, and a group not absorbed, has its alert in every order.
  lemma WorkloadHasCore(groups: Groups, minPods: nat, o: Orders, wl: string) returns (i: nat, k: string)
    requires ValidOrders(groups, minPods, o) && wl in Patterns(groups, minPods)
    ensures i < |o.workloads| && o.workloads[i] == wl && k in Members(groups, wl)
    ensures o.members[wl] != [] && k == o.members[wl][0] && CoresIn(groups, minPods, o)[i] == CoreAt(groups, wl, k)
  {
    k := WorkloadCoreIs(groups, minPods, o, wl);
    assert wl in o.workloads;
    i :| 0 <= i < |o.workloads| && o.workloads[i] == wl;
  }

  lemma GroupHasCore(groups: Groups, minPods: nat, o: Orders, k: string) returns (i: nat)
    requires ValidOrders(groups, minPods, o) && IsSource(groups, minPods, OfGroup(k))
    ensures |o.workloads| <= i < |o.workloads| + |o.pods| && o.pods[i - |o.workloads|] == k
    ensures CoresIn(groups, minPods, o)[i] == Core()(PodAlertOf(groups[k]))
  {
    assert k in o.pods;
    var j :| 0 <= j < |o.pods| && o.pods[j] == k;
    i := |o.workloads| + j;
  }

  // ----- settled flushes -----

  // An alert that may leave is among those of every other order.
  lemma SettledSource(groups: Groups, minPods: nat, o: Orders, expiry: map<Fingerprint, int>, now: int, x: Source)
      returns (j: nat)
    requires Keyed(groups) && ValidOrders(groups, minPods, o) && PlacesSettled(groups, minPods, expiry, now)
    requires IsSource(groups, minPods, x) && MayLeave(CoreOf(groups, minPods, x), expiry, now)
    ensures j < |CoresIn(groups, minPods, o)| && CoresIn(groups, minPods, o)[j] == CoreOf(groups, minPods, x)
  {
    match x {
      case OfWorkload(wl, k) =>
        var k';
        j, k' := WorkloadHasCore(groups, minPods, o, wl);
        assert SamePlace(groups[k], groups[k']);
        SamePlaceSameCore(groups, wl, k, k');
      case OfGroup(k) =>
        j := GroupHasCore(groups, minPods, o, k);
    }
  }

  // And it is the one that leaves under its fingerprint.
  lemma SettledLeads(groups: Groups, minPods: nat, o: Orders, expiry: map<Fingerprint, int>, now: int, x: Source,
                     j: nat)
    requires Keyed(groups) && ValidOrders(groups, minPods, o) && FingerprintsSettled(groups, minPods, expiry, now)
    requires IsSource(groups, minPods, x) && MayLeave(CoreOf(groups, minPods, x), expiry, now)
    requires j < |CoresIn(groups, minPods, o)| && CoresIn(groups, minPods, o)[j] == CoreOf(groups, minPods, x)
    ensures Leads(expiry, now, CoresIn(groups, minPods, o), CoreOf(groups, minPods, x))
  {
    var l := SomeLeader(expiry, now, CoresIn(groups, minPods, o), j);
    var y := CoreHasSource(groups, minPods, o, l);
    assert ShareFingerprint(CoreOf(groups, minPods, x), CoreOf(groups, minPods, y));
  }

  lemma SettledLeader(groups: Groups, minPods: nat, o: Orders, o': Orders, expiry: map<Fingerprint, int>, now: int,
                      a: Alert)
    requires Keyed(groups) && ValidOrders(groups, minPods, o) && ValidOrders(groups, minPods, o')
    requires PlacesSettled(groups, minPods, expiry, now) && FingerprintsSettled(groups, minPods, expiry, now)
    requires Leads(expiry, now, CoresIn(groups, minPods, o), a)
    ensures Leads(expiry, now, CoresIn(groups, minPods, o'), a)
  {
    var i: nat :| LeadsAt(expiry, now, CoresIn(groups, minPods, o), i) && CoresIn(groups, minPods, o)[i] == a;
    var x := CoreHasSource(groups, minPods, o, i);
    var j := SettledSource(groups, minPods, o', expiry, now, x);
    SettledLeads(groups, minPods, o', expiry, now, x, j);
  }

  lemma SettledEmitSame(groups: Groups, minPods: nat, o: Orders, o': Orders, log: seq<Event<Fingerprint>>,
                        now: int, times: Times, cooldown: int)
    requires Keyed(groups) && ValidOrders(groups, minPods, o) && ValidOrders(groups, minPods, o')
    requires Steady(StoreAfter(log), now, times, cooldown)
    requires PlacesSettled(groups, minPods, StoreAfter(log), now)
    requires FingerprintsSettled(groups, minPods, StoreAfter(log), now)
    ensures Emitted(groups, minPods, o, log, times, cooldown) == Emitted(groups, minPods, o', log, times, cooldown)
  {
    var expiry := StoreAfter(log);
    EmittedIs(groups, minPods, o, log, now, times, cooldown);
    EmittedIs(groups, minPods, o', log, now, times, cooldown);
    forall a
      ensures Leads(expiry, now, CoresIn(groups, minPods, o), a) <==>
              Leads(expiry, now, CoresIn(groups, minPods, o'), a)
    {
      if Leads(expiry, now, CoresIn(groups, minPods, o), a) {
        SettledLeader(groups, minPods, o, o', expiry, now, a);
      }
      if Leads(expiry, now, CoresIn(groups, minPods, o'), a) {
        SettledLeader(groups, minPods, o', o, expiry, now, a);
      }
    }
    SameLeadersLeave(expiry, now, CoresIn(groups, minPods, o), CoresIn(groups, minPods, o'));
  }

  // ----- unsettled flushes -----

  function Always(k: string): string -> string { (wl: string) => k }

  // An order in which the alert of a given source comes before any other of its kind.
  ghost function OrdersFor(groups: Groups, minPods: nat, x: Source): Orders {
    match x
    case OfWorkload(wl, k) => Led(groups, minPods, wl, Always(k), "")
    case OfGroup(k) => Led(groups, minPods, "", Always(""), k)
  }

  lemma PodLeads(groups: Groups, minPods: nat, o: Orders, k: string, expiry: map<Fingerprint, int>, now: int)
    requires Keyed(groups) && ValidOrders(groups, minPods, o) && IsSource(groups, minPods, OfGroup(k))
    requires o.pods != [] && o.pods[0] == k && !Alive(expiry, FingerprintOf(Core()(PodAlertOf(groups[k]))), now)
    ensures Leads(expiry, now, CoresIn(groups, minPods, o), Core()(PodAlertOf(groups[k])))
  {
    var i := |o.workloads|;
    var y := CoreHasSource(groups, minPods, o, i);
    forall j: nat | j < i
      ensures FingerprintOf(CoresIn(groups, minPods, o)[j]) != FingerprintOf(CoresIn(groups, minPods, o)[i])
    {
      var z := CoreHasSource(groups, minPods, o, j);
      CoreAtSays(groups, z.wl, z.k);
    }
    assert LeadsAt(expiry, now, CoresIn(groups, minPods, o), i);
  }

  lemma SourceLeads(groups: Groups, minPods: nat, x: Source, expiry: map<Fingerprint, int>, now: int)
    requires Keyed(groups) && IsSource(groups, minPods, x)
    requires !Alive(expiry, FingerprintOf(CoreOf(groups, minPods, x)), now)
    ensures ValidOrders(groups, minPods, OrdersFor(groups, minPods, x))
    ensures Leads(expiry, now, CoresIn(groups, minPods, OrdersFor(groups, minPods, x)), CoreOf(groups, minPods, x))
  {
    var o := OrdersFor(groups, minPods, x);
    match x {
      case OfWorkload(wl, k) =>
        LedIsValid(groups, minPods, wl, Always(k), "");
        assert o.workloads[0] == wl;
        var k' := WorkloadCoreIs(groups, minPods, o, wl);
        assert CoresIn(groups, minPods, o)[0] == CoreOf(groups, minPods, x);
        assert LeadsAt(expiry, now, CoresIn(groups, minPods, o), 0);
      case OfGroup(k) =>
        LedIsValid(groups, minPods, "", Always(""), k);
        PodLeads(groups, minPods, o, k, expiry, now);
    }
  }

  lemma SharedFingerprintShows(groups: Groups, minPods: nat, x: Source, y: Source, log: seq<Event<Fingerprint>>,
                               now: int, times: Times, cooldown: int) returns (o: Orders, o': Orders)
    requires Keyed(groups) && IsSource(groups, minPods, x) && IsSource(groups, minPods, y)
    requires Steady(StoreAfter(log), now, times, cooldown)
    requires FingerprintOf(CoreOf(groups, minPods, x)) == FingerprintOf(CoreOf(groups, minPods, y))
    requires !Alive(StoreAfter(log), FingerprintOf(CoreOf(groups, minPods, x)), now)
    requires CoreOf(groups, minPods, x) != CoreOf(groups, minPods, y)
    ensures ValidOrders(groups, minPods, o) && ValidOrders(groups, minPods, o')
    ensures Emitted(groups, minPods, o, log, times, cooldown) != Emitted(groups, minPods, o', log, times, cooldown)
  {
    var expiry := StoreAfter(log);
    o, o' := OrdersFor(groups, minPods, x), OrdersFor(groups, minPods, y);
    SourceLeads(groups, minPods, x, expiry, now);
    SourceLeads(groups, minPods, y, expiry, now);
    EmittedIs(groups, minPods, o, log, now, times, cooldown);
    EmittedIs(groups, minPods, o', log, now, times, cooldown);
    LeadersDiffer(expiry, now, CoresIn(groups, minPods, o), CoresIn(groups, minPods, o'),
                  CoreOf(groups, minPods, x), CoreOf(groups, minPods, y));
  }

  // A group of the workload in another place than k, if there is one.
  ghost function Elsewhere(groups: Groups, k: string): string -> string
    requires k in groups && groups[k].anomalies != []
  {
    (wl: string) =>
      if exists k' :: k' in Members(groups, wl) && !SamePlace(groups[k'], groups[k])
      then var k' :| k' in Members(groups, wl) && !SamePlace(groups[k'], groups[k]); k' else ""
  }

  lemma ElsewhereIs(groups: Groups, k: string, wl: string, k': string)
    requires k in groups && groups[k].anomalies != [] && k' in Members(groups, wl) && !SamePlace(groups[k'], groups[k])
    ensures var e := Elsewhere(groups, k)(wl); e in Members(groups, wl) && !SamePlace(groups[e], groups[k])
  {
  }

  // Another workload all of whose groups are where k is does not have the alert of k's.
  lemma OtherWorkloadsDiffer(groups: Groups, wl: string, k: string, wl': string, k': string)
    requires k in Members(groups, wl) && k' in Members(groups, wl') && wl != wl'
    requires forall j :: j in Members(groups, wl') ==> SamePlace(groups[j], groups[k])
    ensures CoreAt(groups, wl, k) != CoreAt(groups, wl', k')
  {
    CoreAtSays(groups, wl, k);
    CoreAtSays(groups, wl', k');
    assert PodOf(groups[k]) in Pods(groups, Members(groups, wl));
    forall j | j in Members(groups, wl')
      ensures PodOf(groups[j]) != PodOf(groups[k])
    {
      assert PatternKey(groups[j]) != PatternKey(groups[k]) && SamePlace(groups[j], groups[k]);
    }
  }

  // When the workloads come from elsewhere where they can, the alert of k's workload with k
  // first is not among them.
  lemma ElsewhereAvoids(groups: Groups, minPods: nat, wl: string, k: string, k': string, i: nat)
    requires Keyed(groups) && wl in Patterns(groups, minPods) && k in Members(groups, wl)
    requires k' in Members(groups, wl) && !SamePlace(groups[k'], groups[k])
    requires ValidOrders(groups, minPods, Led(groups, minPods, "", Elsewhere(groups, k), ""))
    requires i < |CoresIn(groups, minPods, Led(groups, minPods, "", Elsewhere(groups, k), ""))|
    ensures CoresIn(groups, minPods, Led(groups, minPods, "", Elsewhere(groups, k), ""))[i] != CoreAt(groups, wl, k)
  {
    var o := Led(groups, minPods, "", Elsewhere(groups, k), "");
    var x := CoreHasSource(groups, minPods, o, i);
    CoreAtSays(groups, wl, k);
    if x.OfWorkload? {
      CoreAtSays(groups, x.wl, x.k);
      if j :| j in Members(groups, x.wl) && !SamePlace(groups[j], groups[k]) {
        ElsewhereIs(groups, k, x.wl, j);
        assert o.members[x.wl] == Lead(Members(groups, x.wl), Elsewhere(groups, k)(x.wl));
      } else {
        OtherWorkloadsDiffer(groups, wl, k, x.wl, x.k);
      }
    }
  }

  lemma UnsettledPlaceShows(groups: Groups, minPods: nat, wl: string, k: string, k': string,
                            log: seq<Event<Fingerprint>>, now: int, times: Times, cooldown: int)
      returns (o: Orders, o': Orders)
    requires Keyed(groups) && Steady(StoreAfter(log), now, times, cooldown) && wl in Patterns(groups, minPods)
    requires k in Members(groups, wl) && k' in Members(groups, wl) && !SamePlace(groups[k], groups[k'])
    requires !Alive(StoreAfter(log), FingerprintOf(CoreAt(groups, wl, k)), now)
    ensures ValidOrders(groups, minPods, o) && ValidOrders(groups, minPods, o')
    ensures Emitted(groups, minPods, o, log, times, cooldown) != Emitted(groups, minPods, o', log, times, cooldown)
  {
    var expiry, a := StoreAfter(log), CoreAt(groups, wl, k);
    o := OrdersFor(groups, minPods, OfWorkload(wl, k));
    o' := Led(groups, minPods, "", Elsewhere(groups, k), "");
    SourceLeads(groups, minPods, OfWorkload(wl, k), expiry, now);
    LedIsValid(groups, minPods, "", Elsewhere(groups, k), "");
    EmittedIs(groups, minPods, o, log, now, times, cooldown);
    EmittedIs(groups, minPods, o', log, now, times, cooldown);
    if Emitted(groups, minPods, o, log, times, cooldown) == Emitted(groups, minPods, o', log, times, cooldown) {
      LeaderLeaves(expiry, now, CoresIn(groups, minPods, o), CoresIn(groups, minPods, o'), a);
      var i: nat :| LeadsAt(expiry, now, CoresIn(groups, minPods, o'), i) && CoresIn(groups, minPods, o')[i] == a;
      ElsewhereAvoids(groups, minPods, wl, k, k', i);
    }
  }

  lemma UnsettledPlacesShow(groups: Groups, minPods: nat, log: seq<Event<Fingerprint>>, now: int, times: Times,
                            cooldown: int) returns (o: Orders, o': Orders)
    requires Keyed(groups) && Steady(StoreAfter(log), now, times, cooldown)
    requires !PlacesSettled(groups, minPods, StoreAfter(log), now)
    ensures ValidOrders(groups, minPods, o) && ValidOrders(groups, minPods, o')
    ensures Emitted(groups, minPods, o, log, times, cooldown) != Emitted(groups, minPods, o', log, times, cooldown)
  {
    var wl, k, k' :| wl in Patterns(groups, minPods) && k in Members(groups, wl) && k' in Members(groups, wl) &&
      MayLeave(CoreAt(groups, wl, k), StoreAfter(log), now) && !SamePlace(groups[k], groups[k']);
    o, o' := UnsettledPlaceShows(groups, minPods, wl, k, k', log, now, times, cooldown);
  }

  lemma UnsettledFingerprintsShow(groups: Groups, minPods: nat, log: seq<Event<Fingerprint>>, now: int, times: Times,
                                  cooldown: int) returns (o: Orders, o': Orders)
    requires Keyed(groups) && Steady(StoreAfter(log), now, times, cooldown)
    requires !FingerprintsSettled(groups, minPods, StoreAfter(log), now)
    ensures ValidOrders(groups, minPods, o) && ValidOrders(groups, minPods, o')
    ensures Emitted(groups, minPods, o, log, times, cooldown) != Emitted(groups, minPods, o', log, times, cooldown)
  {
    var x, y :| IsSource(groups, minPods, x) && IsSource(groups, minPods, y) &&
      MayLeave(CoreOf(groups, minPods, x), StoreAfter(log), now) &&
      ShareFingerprint(CoreOf(groups, minPods, x), CoreOf(groups, minPods, y)) &&
      CoreOf(groups, minPods, x) != CoreOf(groups, minPods, y);
    o, o' := SharedFingerprintShows(groups, minPods, x, y, log, now, times, cooldown);
  }

  // With a working store, in which nothing dies while the flush goes on, what it emits is the
  // same in every order of the maps, up to the anomalies quoted, exactly when the place of every
  // workload whose alert may leave is settled and alerts that share a fingerprint not alive are the same.
  lemma EmissionIsDeterminedIff(groups: Groups, minPods: nat, log: seq<Event<Fingerprint>>, now: int, times: Times,
                                cooldown: int)
    requires Keyed(groups)
    requires Steady(StoreAfter(log), now, times, cooldown)
    ensures (forall o, o' :: ValidOrders(groups, minPods, o) && ValidOrders(groups, minPods, o') ==>
               Emitted(groups, minPods, o, log, times, cooldown) == Emitted(groups, minPods, o', log, times, cooldown))
            <==>
            (PlacesSettled(groups, minPods, StoreAfter(log), now) &&
             FingerprintsSettled(groups, minPods, StoreAfter(log), now))
  {
    if PlacesSettled(groups, minPods, StoreAfter(log), now) &&
       FingerprintsSettled(groups, minPods, StoreAfter(log), now) {
      forall o, o' | ValidOrders(groups, minPods, o) && ValidOrders(groups, minPods, o')
        ensures Emitted(groups, minPods, o, log, times, cooldown) == Emitted(groups, minPods, o', log, times, cooldown)
      {
        SettledEmitSame(groups, minPods, o, o', log, now, times, cooldown);
      }
    } else if !PlacesSettled(groups, minPods, StoreAfter(log), now) {
      var o, o' := UnsettledPlacesShow(groups, minPods, log, now, times, cooldown);
    } else {
      var o, o' := UnsettledFingerprintsShow(groups, minPods, log, now, times, cooldown);
    }
  }

  // Two services in one place that share a severity but not their signals: which of the two
  // alerts leaves depends on the order.
  lemma ServicesUnsettle(groups: Groups, minPods: nat, k: string, k': string, expiry: map<Fingerprint, int>, now: int)
    requires Keyed(groups) && k in groups && k' in groups && SamePlace(groups[k], groups[k'])
    requires PodOf(groups[k]) == PodOf(groups[k']) == "" && Escalated(groups[k]) == Escalated(groups[k'])
    requires SignalsOf(groups[k].anomalies) != SignalsOf(groups[k'].anomalies)
    requires !Alive(expiry, FingerprintOf(PodAlertOf(groups[k])), now)
    ensures !FingerprintsSettled(groups, minPods, expiry, now)
  {
    var x, y := OfGroup(k), OfGroup(k');
    assert IsSource(groups, minPods, x) && IsSource(groups, minPods, y);
    assert CoreOf(groups, minPods, x) == Core()(PodAlertOf(groups[k]));
    assert CoreOf(groups, minPods, y) == Core()(PodAlertOf(groups[k']));
    assert CoreOf(groups, minPods, x).signals != CoreOf(groups, minPods, y).signals;
  }
}
