// A flush covers every ready group once, whatever the order in which maps are ranged over.
module CorrelationTheorems {
  import opened Workload
  import opened Sequences
  import opened Anomalies
  import opened Correlation

  // ----- what an accumulator holds, whatever the order -----

  lemma SignalsOfConcat(s: seq<Anomaly>, t: seq<Anomaly>)
    ensures SignalsOf(s + t) == SignalsOf(s) + SignalsOf(t)
    ensures HasCritical(s + t) <==> HasCritical(s) || HasCritical(t)
  {
    forall x | x in SignalsOf(s) + SignalsOf(t)
      ensures x in SignalsOf(s + t)
    {
      if x in SignalsOf(s) {
        var i :| 0 <= i < |s| && s[i].signal == x;
        assert (s + t)[i].signal == x;
      } else {
        var i :| 0 <= i < |t| && t[i].signal == x;
        assert (s + t)[|s| + i].signal == x;
      }
    }
    if HasCritical(s) {
      var i :| 0 <= i < |s| && s[i].severity == Critical;
      assert (s + t)[i].severity == Critical;
    }
    if HasCritical(t) {
      var i :| 0 <= i < |t| && t[i].severity == Critical;
      assert (s + t)[|s| + i].severity == Critical;
    }
  }

  lemma {:induction false} FlattenedSignals(groups: Groups, ks: seq<string>, x: Signal)
    requires Listed(groups, ks)
    ensures x in SignalsOf(Flattened(groups, ks)) <==> exists k :: k in ks && x in SignalsOf(groups[k].anomalies)
  {
    if ks != [] {
      var n := |ks| - 1;
      FlattenedSignals(groups, ks[..n], x);
      SignalsOfConcat(Flattened(groups, ks[..n]), groups[ks[n]].anomalies);
      assert ks == ks[..n] + [ks[n]];
    }
  }

  lemma {:induction false} FlattenedCritical(groups: Groups, ks: seq<string>)
    requires Listed(groups, ks)
    ensures HasCritical(Flattened(groups, ks)) <==> exists k :: k in ks && HasCritical(groups[k].anomalies)
  {
    if ks != [] {
      var n := |ks| - 1;
      FlattenedCritical(groups, ks[..n]);
      SignalsOfConcat(Flattened(groups, ks[..n]), groups[ks[n]].anomalies);
      assert ks == ks[..n] + [ks[n]];
    }
  }

  lemma ReportedSeverity(groups: Groups, ks: seq<string>)
    requires Listed(groups, ks)
    ensures HasCritical(Flattened(groups, ks)) <==>
            exists k, a :: k in ks && a in groups[k].anomalies && a.severity == Critical
  {
    FlattenedCritical(groups, ks);
    if k :| k in ks && HasCritical(groups[k].anomalies) {
      var i :| 0 <= i < |groups[k].anomalies| && groups[k].anomalies[i].severity == Critical;
      assert groups[k].anomalies[i] in groups[k].anomalies;
    }
  }

  lemma ReportedSignal(groups: Groups, ks: seq<string>, x: Signal)
    requires Listed(groups, ks)
    ensures x in SignalsOf(Flattened(groups, ks)) <==>
            exists k, a :: k in ks && a in groups[k].anomalies && a.signal == x
  {
    FlattenedSignals(groups, ks, x);
    if k :| k in ks && x in SignalsOf(groups[k].anomalies) {
      var i :| 0 <= i < |groups[k].anomalies| && groups[k].anomalies[i].signal == x;
      assert groups[k].anomalies[i] in groups[k].anomalies;
    }
  }

  // The alert of a workload reports the pods and signals of its groups, and is critical
  // exactly when one of their anomalies is: different signals do not escalate it.
  lemma WorkloadAlertReports(groups: Groups, wl: string, ks: seq<string>)
    requires ks != [] && Listed(groups, ks)
    ensures AccumulatorOf(groups, ks).anomalies != []
    ensures var alert := WorkloadAlertOf(wl, AccumulatorOf(groups, ks));
            && (alert.severity == Critical <==>
                exists k, a :: k in ks && a in groups[k].anomalies && a.severity == Critical)
            && (forall s :: s in alert.signals <==>
                exists k, a :: k in ks && a in groups[k].anomalies && a.signal == s)
            && (forall p :: p in alert.affectedPods <==>
                exists k :: k in ks && Label(groups[k].anomalies[0].labels, "pod") == p)
            && alert.affectedReplicas == |alert.affectedPods|
  {
    FlattenedStarts(groups, ks);
    ReportedSeverity(groups, ks);
    forall x: Signal
      ensures x in SignalsOf(Flattened(groups, ks)) <==>
              exists k, a :: k in ks && a in groups[k].anomalies && a.signal == x
    {
      ReportedSignal(groups, ks, x);
    }
  }

  lemma SameContent(groups: Groups, ks: seq<string>, ks': seq<string>)
    requires Listed(groups, ks) && Listed(groups, ks')
    requires forall k :: k in ks <==> k in ks'
    ensures SignalsOf(Flattened(groups, ks)) == SignalsOf(Flattened(groups, ks'))
    ensures HasCritical(Flattened(groups, ks)) == HasCritical(Flattened(groups, ks'))
  {
    forall x: Signal
      ensures x in SignalsOf(Flattened(groups, ks)) <==> x in SignalsOf(Flattened(groups, ks'))
    {
      FlattenedSignals(groups, ks, x);
      FlattenedSignals(groups, ks', x);
    }
    FlattenedCritical(groups, ks);
    FlattenedCritical(groups, ks');
  }

  lemma AccumulatedPods(groups: Groups, wl: string, ks: seq<string>)
    requires ks != [] && Listed(groups, ks) && Enumerates(ks, Members(groups, wl))
    ensures AccumulatorOf(groups, ks).pods == Pods(groups, Members(groups, wl))
  {
    var pods, all := AccumulatorOf(groups, ks).pods, Pods(groups, Members(groups, wl));
    forall p | p in pods
      ensures p in all
    {
      var i :| 0 <= i < |ks| && p == PodOf(groups[ks[i]]);
      assert ks[i] in ks;
    }
    forall p | p in all
      ensures p in pods
    {
      var k :| k in Members(groups, wl) && k in groups && groups[k].anomalies != [] && p == PodOf(groups[k]);
      assert k in ks;
    }
  }

  // ----- what a pattern's key says about its members -----

  lemma WorkloadIsSlashFree(pod: string)
    requires '/' !in pod
    ensures '/' !in ExtractWorkload(pod)
  {
    WorkloadIsNonemptyPrefix(pod);
    var w := ExtractWorkload(pod);
    assert forall i :: 0 <= i < |w| ==> w[i] == pod[i];
  }

  lemma MembersShareIdentity(groups: Groups, wl: string, k: string, k': string)
    requires SlashFree(groups) && k in Members(groups, wl) && k' in Members(groups, wl)
    ensures ClusterOrUnknown(First(groups[k])) == ClusterOrUnknown(First(groups[k']))
    ensures Label(First(groups[k]), "namespace") == Label(First(groups[k']), "namespace")
    ensures ExtractWorkload(PodOf(groups[k])) == ExtractWorkload(PodOf(groups[k']))
  {
    WorkloadIsSlashFree(PodOf(groups[k]));
    WorkloadIsSlashFree(PodOf(groups[k']));
    JoinedIsInjective(
      ClusterOrUnknown(First(groups[k])), Label(First(groups[k]), "namespace"), ExtractWorkload(PodOf(groups[k])),
      ClusterOrUnknown(First(groups[k'])), Label(First(groups[k']), "namespace"), ExtractWorkload(PodOf(groups[k'])));
  }

  lemma PatternNamesWorkload(groups: Groups, wl: string, k: string)
    requires SlashFree(groups) && k in Members(groups, wl)
    ensures LastSegment(wl) == ExtractWorkload(PodOf(groups[k])) && '/' !in LastSegment(wl)
  {
    var c, ns := ClusterOrUnknown(First(groups[k])), Label(First(groups[k]), "namespace");
    var w := ExtractWorkload(PodOf(groups[k]));
    WorkloadIsSlashFree(PodOf(groups[k]));
    assert wl == (c + "/" + ns) + "/" + w;
    LastSegmentOfJoined(c + "/" + ns, w);
  }

  predicate SamePlace(g: Group, g': Group)
    requires g.anomalies != [] && g'.anomalies != []
  {
    ClusterOrUnknown(First(g)) == ClusterOrUnknown(First(g')) &&
    Label(First(g), "namespace") == Label(First(g'), "namespace")
  }

  // The groups accumulated under one key are of one cluster and namespace.
  ghost predicate MembersAgree(groups: Groups, wl: string) {
    forall k, k' :: k in Members(groups, wl) && k' in Members(groups, wl) ==> SamePlace(groups[k], groups[k'])
  }

  // Without slashes in labels they are.
  lemma SlashFreeAgree(groups: Groups, wl: string)
    requires SlashFree(groups)
    ensures MembersAgree(groups, wl)
  {
    forall k, k' | k in Members(groups, wl) && k' in Members(groups, wl)
      ensures SamePlace(groups[k], groups[k'])
    {
      MembersShareIdentity(groups, wl, k, k');
    }
  }

  // The alert of a workload says the same whatever the order in which its groups came, as
  // long as the first are of one place.
  lemma PatternAlertIsDetermined(groups: Groups, wl: string, ks: seq<string>, ks': seq<string>)
    requires ks != [] && ks' != [] && Listed(groups, ks) && Listed(groups, ks')
    requires SamePlace(groups[ks[0]], groups[ks'[0]])
    requires Enumerates(ks, Members(groups, wl)) && Enumerates(ks', Members(groups, wl))
    requires Flattened(groups, ks) != [] && Flattened(groups, ks') != []
    ensures Core()(WorkloadAlertOf(wl, AccumulatorOf(groups, ks))) ==
            Core()(WorkloadAlertOf(wl, AccumulatorOf(groups, ks')))
  {
    SameContent(groups, ks, ks');
    AccumulatedPods(groups, wl, ks);
    AccumulatedPods(groups, wl, ks');
  }

  // ----- order independence -----

  lemma Once<T(!new)>(s: seq<T>, all: set<T>, x: T)
    requires Enumerates(s, all) && x in all
    ensures multiset(s)[x] == 1
  {
    assert x in s;
    var i :| 0 <= i < |s| && s[i] == x;
    RemoveAtMultiset(s, i);
    var rest := RemoveAt(s, i);
    assert forall j :: 0 <= j < |rest| ==> rest[j] == s[if j < i then j else j + 1];
    assert x !in rest;
    assert multiset(rest)[x] == 0;
  }

  lemma {:induction false} EnumerationsArePermutations<T(!new)>(s: seq<T>, t: seq<T>, all: set<T>)
    requires Enumerates(s, all) && Enumerates(t, all)
    ensures multiset(s) == multiset(t)
  {
    forall x | x in multiset(s) ensures multiset(s)[x] == multiset(t)[x] { Once(s, all, x); Once(t, all, x); }
    forall x | x in multiset(t) ensures multiset(s)[x] == multiset(t)[x] { Once(s, all, x); Once(t, all, x); }
    SameMultiplicities(multiset(s), multiset(t));
  }

  ghost const NOTHING := Alert(PodAlert, [], Warning, "", "", "", {}, {}, 0)

  ghost function WorkloadCore(groups: Groups, minPods: nat, o: Orders): string -> Alert {
    (wl: string) =>
      if ValidOrders(groups, minPods, o) && wl in Patterns(groups, minPods)
      then Core()(WorkloadAlertIn(groups, minPods, o, wl)) else Core()(NOTHING)
  }

  ghost function PodCore(groups: Groups): string -> Alert {
    (k: string) => if k in groups && groups[k].anomalies != [] then Core()(PodAlertOf(groups[k])) else Core()(NOTHING)
  }

  lemma MapConcat<T, U>(f: T -> U, s: seq<T>, t: seq<T>)
    ensures Map(f, s + t) == Map(f, s) + Map(f, t)
  {
    var r := Map(f, s + t);
    assert r[..|s|] == Map(f, s) && r[|s|..] == Map(f, t);
    assert r == r[..|s|] + r[|s|..];
  }

  lemma CoresOfWorkloads(groups: Groups, minPods: nat, o: Orders)
    requires ValidOrders(groups, minPods, o)
    ensures Map(Core(), WorkloadAlerts(groups, minPods, o)) == Map(WorkloadCore(groups, minPods, o), o.workloads)
  {
    forall i | 0 <= i < |o.workloads|
      ensures Core()(WorkloadAlerts(groups, minPods, o)[i]) == WorkloadCore(groups, minPods, o)(o.workloads[i])
    {
      assert o.workloads[i] in o.workloads;
    }
  }

  lemma CoresOfPods(groups: Groups, pods: seq<string>)
    requires forall k :: k in pods ==> k in groups && groups[k].anomalies != []
    ensures Map(Core(), PodAlerts(groups, pods)) == Map(PodCore(groups), pods)
  {
    forall i | 0 <= i < |pods|
      ensures Core()(PodAlerts(groups, pods)[i]) == PodCore(groups)(pods[i])
    {
      assert pods[i] in pods;
    }
  }

  lemma CoresOfAlerts(groups: Groups, minPods: nat, o: Orders)
    requires Keyed(groups) && ValidOrders(groups, minPods, o)
    ensures Map(Core(), AlertsIn(groups, minPods, o)) ==
            Map(WorkloadCore(groups, minPods, o), o.workloads) + Map(PodCore(groups), o.pods)
  {
    MapConcat(Core(), WorkloadAlerts(groups, minPods, o), PodAlerts(groups, o.pods));
    CoresOfWorkloads(groups, minPods, o);
    CoresOfPods(groups, o.pods);
  }

  lemma WorkloadCoreIsDetermined(groups: Groups, minPods: nat, o: Orders, o': Orders, wl: string)
    requires ValidOrders(groups, minPods, o) && ValidOrders(groups, minPods, o')
    requires wl in Patterns(groups, minPods) && MembersAgree(groups, wl)
    ensures WorkloadCore(groups, minPods, o)(wl) == WorkloadCore(groups, minPods, o')(wl)
  {
    PatternHasMembers(groups, minPods, wl, o.members[wl]);
    PatternHasMembers(groups, minPods, wl, o'.members[wl]);
    FlattenedStarts(groups, o.members[wl]);
    FlattenedStarts(groups, o'.members[wl]);
    assert o.members[wl][0] in o.members[wl] && o'.members[wl][0] in o'.members[wl];
    assert SamePlace(groups[o.members[wl][0]], groups[o'.members[wl][0]]);
    PatternAlertIsDetermined(groups, wl, o.members[wl], o'.members[wl]);
    assert WorkloadCore(groups, minPods, o)(wl) == Core()(WorkloadAlertIn(groups, minPods, o, wl));
    assert WorkloadCore(groups, minPods, o')(wl) == Core()(WorkloadAlertIn(groups, minPods, o', wl));
  }

  ghost predicate AllAgree(groups: Groups, minPods: nat) {
    forall wl :: wl in Patterns(groups, minPods) ==> MembersAgree(groups, wl)
  }

  ghost function Cores(groups: Groups, minPods: nat, o: Orders): multiset<Alert>
    requires Keyed(groups) && ValidOrders(groups, minPods, o)
  {
    multiset(Map(Core(), AlertsIn(groups, minPods, o)))
  }

  lemma SameCores(groups: Groups, minPods: nat, o: Orders, o': Orders)
    requires Keyed(groups) && AllAgree(groups, minPods)
    requires ValidOrders(groups, minPods, o) && ValidOrders(groups, minPods, o')
    ensures Cores(groups, minPods, o) == Cores(groups, minPods, o')
  {
    CoresOfAlerts(groups, minPods, o);
    CoresOfAlerts(groups, minPods, o');
    forall i | 0 <= i < |o'.workloads|
      ensures WorkloadCore(groups, minPods, o)(o'.workloads[i]) == WorkloadCore(groups, minPods, o')(o'.workloads[i])
    {
      assert o'.workloads[i] in o'.workloads;
      WorkloadCoreIsDetermined(groups, minPods, o, o', o'.workloads[i]);
    }
    assert Map(WorkloadCore(groups, minPods, o), o'.workloads) == Map(WorkloadCore(groups, minPods, o'), o'.workloads);
    EnumerationsArePermutations(o.workloads, o'.workloads, Patterns(groups, minPods));
    MapRespectsPermutation(WorkloadCore(groups, minPods, o), o.workloads, o'.workloads);
    EnumerationsArePermutations(o.pods, o'.pods, groups.Keys - Absorbed(groups, minPods));
    MapRespectsPermutation(PodCore(groups), o.pods, o'.pods);
  }

  // Whatever the order in which the maps are ranged over, the same alerts go to
  // deduplication, up to their order and the anomalies they quote.
  lemma OrderIndependence(groups: Groups, minPods: nat, o: Orders, o': Orders)
    requires Keyed(groups) && SlashFree(groups) && ValidOrders(groups, minPods, o) && ValidOrders(groups, minPods, o')
    ensures Cores(groups, minPods, o) == Cores(groups, minPods, o')
  {
    forall wl | wl in Patterns(groups, minPods)
      ensures MembersAgree(groups, wl)
    {
      SlashFreeAgree(groups, wl);
    }
    SameCores(groups, minPods, o, o');
  }

  ghost function {:induction false} Enumeration(all: set<string>): (s: seq<string>)
    ensures Enumerates(s, all)
  {
    if all == {} then []
    else
      var x :| x in all;
      [x] + Enumeration(all - {x})
  }

  ghost function EnumerationFrom(all: set<string>, x: string): (s: seq<string>)
    requires x in all
    ensures Enumerates(s, all) && s != [] && s[0] == x
  {
    [x] + Enumeration(all - {x})
  }

  // An enumeration that starts with x, if there is one.
  ghost function Lead(all: set<string>, x: string): (s: seq<string>)
    ensures Enumerates(s, all) && (x in all ==> s != [] && s[0] == x)
  {
    if x in all then EnumerationFrom(all, x) else Enumeration(all)
  }

  // One of the orders there may be: a workload and a pod to start with, and for every
  // workload a group to start with.
  ghost function Led(groups: Groups, minPods: nat, wl: string, choose: string -> string, pod: string): Orders {
    Orders(Lead(Patterns(groups, minPods), wl),
           map w | w in Patterns(groups, minPods) :: Lead(Members(groups, w), choose(w)),
           Lead(groups.Keys - Absorbed(groups, minPods), pod))
  }

  lemma LedIsValid(groups: Groups, minPods: nat, wl: string, choose: string -> string, pod: string)
    ensures ValidOrders(groups, minPods, Led(groups, minPods, wl, choose, pod))
  {
  }

  function Only(wl: string, k: string): string -> string { (w: string) => if w == wl then k else "" }

  ghost function OrdersFrom(groups: Groups, minPods: nat, wl: string, k: string): Orders {
    Led(groups, minPods, wl, Only(wl, k), "")
  }

  lemma OneChangeShows<T>(s: seq<T>, t: seq<T>, rest: seq<T>, i: nat)
    requires |s| == |t| && i < |s| && s[i] != t[i]
    requires RemoveAt(s, i) == RemoveAt(t, i)
    ensures multiset(s + rest) != multiset(t + rest)
  {
    RemoveAtMultiset(s, i);
    RemoveAtMultiset(t, i);
    var others := multiset(RemoveAt(s, i)) + multiset(rest);
    assert multiset(s + rest) == others + multiset{s[i]};
    assert multiset(t + rest) == others + multiset{t[i]};
    assert (others + multiset{s[i]})[s[i]] == others[s[i]] + 1;
    assert (others + multiset{t[i]})[s[i]] == others[s[i]];
  }

  lemma FirstMemberShows(groups: Groups, minPods: nat, wl: string, k: string)
    requires wl in Patterns(groups, minPods) && k in Members(groups, wl)
    ensures ValidOrders(groups, minPods, OrdersFrom(groups, minPods, wl, k))
    ensures var core := WorkloadCore(groups, minPods, OrdersFrom(groups, minPods, wl, k))(wl);
            core.cluster == ClusterOrUnknown(First(groups[k])) && core.namespace == Label(First(groups[k]), "namespace")
  {
    LedIsValid(groups, minPods, wl, Only(wl, k), "");
    var o := OrdersFrom(groups, minPods, wl, k);
    PatternHasMembers(groups, minPods, wl, o.members[wl]);
    FlattenedStarts(groups, o.members[wl]);
    assert WorkloadCore(groups, minPods, o)(wl) == Core()(WorkloadAlertIn(groups, minPods, o, wl));
  }

  lemma SameMembersSameCore(groups: Groups, minPods: nat, o: Orders, o': Orders, wl: string)
    requires ValidOrders(groups, minPods, o) && ValidOrders(groups, minPods, o')
    requires wl in Patterns(groups, minPods) && o.members[wl] == o'.members[wl]
    ensures WorkloadCore(groups, minPods, o)(wl) == WorkloadCore(groups, minPods, o')(wl)
  {
    assert WorkloadAlertIn(groups, minPods, o, wl) == WorkloadAlertIn(groups, minPods, o', wl);
  }

  lemma OneChangeIn<T>(s: seq<T>, t: seq<T>, i: nat)
    requires |s| == |t| && i < |s| && forall j :: 0 <= j < |s| && j != i ==> s[j] == t[j]
    ensures RemoveAt(s, i) == RemoveAt(t, i)
  {
  }

  lemma MapsDifferOnce<T(!new), U>(f: T -> U, f': T -> U, s: seq<T>, all: set<T>, x: T, rest: seq<U>)
    requires Enumerates(s, all) && x in all && f(x) != f'(x)
    requires forall y :: y in all && y != x ==> f(y) == f'(y)
    ensures multiset(Map(f, s) + rest) != multiset(Map(f', s) + rest)
  {
    assert x in s;
    var i :| 0 <= i < |s| && s[i] == x;
    forall j | 0 <= j < |s| && j != i
      ensures Map(f, s)[j] == Map(f', s)[j]
    {
      assert s[j] in s && s[j] != x;
    }
    OneChangeIn(Map(f, s), Map(f', s), i);
    OneChangeShows(Map(f, s), Map(f', s), rest, i);
  }

  // Orders that differ in the groups of one workload only.
  ghost predicate DifferAt(groups: Groups, minPods: nat, o: Orders, o': Orders, wl: string) {
    && ValidOrders(groups, minPods, o) && ValidOrders(groups, minPods, o')
    && o.workloads == o'.workloads && o.pods == o'.pods
    && (forall other :: other in Patterns(groups, minPods) && other != wl ==> o.members[other] == o'.members[other])
  }

  lemma CoresDiffer(groups: Groups, minPods: nat, o: Orders, o': Orders, wl: string)
    requires Keyed(groups) && DifferAt(groups, minPods, o, o', wl) && wl in Patterns(groups, minPods)
    requires WorkloadCore(groups, minPods, o)(wl) != WorkloadCore(groups, minPods, o')(wl)
    ensures Cores(groups, minPods, o) != Cores(groups, minPods, o')
  {
    CoresOfAlerts(groups, minPods, o);
    CoresOfAlerts(groups, minPods, o');
    forall other | other in Patterns(groups, minPods) && other != wl
      ensures WorkloadCore(groups, minPods, o)(other) == WorkloadCore(groups, minPods, o')(other)
    {
      SameMembersSameCore(groups, minPods, o, o', other);
    }
    MapsDifferOnce(WorkloadCore(groups, minPods, o), WorkloadCore(groups, minPods, o'),
                   o.workloads, Patterns(groups, minPods), wl, Map(PodCore(groups), o.pods));
  }

  lemma OrdersFromDiffer(groups: Groups, minPods: nat, wl: string, k: string, k': string)
    requires k in Members(groups, wl) && k' in Members(groups, wl)
    ensures DifferAt(groups, minPods, OrdersFrom(groups, minPods, wl, k), OrdersFrom(groups, minPods, wl, k'), wl)
  {
    LedIsValid(groups, minPods, wl, Only(wl, k), "");
    LedIsValid(groups, minPods, wl, Only(wl, k'), "");
  }

  // Two groups of one workload in different places: the alert depends on which comes first.
  lemma DisagreementShows(groups: Groups, minPods: nat, wl: string, k: string, k': string)
      returns (o: Orders, o': Orders)
    requires Keyed(groups) && wl in Patterns(groups, minPods)
    requires k in Members(groups, wl) && k' in Members(groups, wl) && !SamePlace(groups[k], groups[k'])
    ensures ValidOrders(groups, minPods, o) && ValidOrders(groups, minPods, o')
    ensures Cores(groups, minPods, o) != Cores(groups, minPods, o')
  {
    o, o' := OrdersFrom(groups, minPods, wl, k), OrdersFrom(groups, minPods, wl, k');
    FirstMemberShows(groups, minPods, wl, k);
    FirstMemberShows(groups, minPods, wl, k');
    OrdersFromDiffer(groups, minPods, wl, k, k');
    CoresDiffer(groups, minPods, o, o', wl);
  }

  // The alerts are the same in every order exactly when the groups of every workload that
  // is promoted are of one cluster and namespace.
  lemma OrderIndependentIff(groups: Groups, minPods: nat)
    requires Keyed(groups)
    ensures (forall o, o' :: ValidOrders(groups, minPods, o) && ValidOrders(groups, minPods, o') ==>
               Cores(groups, minPods, o) == Cores(groups, minPods, o'))
            <==> AllAgree(groups, minPods)
  {
    if AllAgree(groups, minPods) {
      forall o, o' | ValidOrders(groups, minPods, o) && ValidOrders(groups, minPods, o')
        ensures Cores(groups, minPods, o) == Cores(groups, minPods, o')
      {
        SameCores(groups, minPods, o, o');
      }
    } else {
      var wl :| wl in Patterns(groups, minPods) && !MembersAgree(groups, wl);
      var k, k' :| k in Members(groups, wl) && k' in Members(groups, wl) && !SamePlace(groups[k], groups[k']);
      var o, o' := DisagreementShows(groups, minPods, wl, k, k');
    }
  }

  // ----- exact cover -----

  // Every ready group is either absorbed into exactly one workload alert, or gets a pod alert.
  lemma FlushCovers(groups: Groups, minPods: nat, o: Orders, k: string)
    requires Keyed(groups) && ValidOrders(groups, minPods, o) && k in groups
    ensures k in o.pods <==> k !in Absorbed(groups, minPods)
    ensures k in Absorbed(groups, minPods) <==> exists wl :: wl in o.workloads && k in o.members[wl]
    ensures forall wl, wl' | wl in o.workloads && wl' in o.workloads ::
              k in o.members[wl] && k in o.members[wl'] ==> wl == wl'
  {
    if k in Absorbed(groups, minPods) {
      var wl := PatternKey(groups[k]);
      assert wl in Patterns(groups, minPods) && k in Members(groups, wl);
      assert wl in o.workloads && k in o.members[wl];
    }
  }

  lemma {:induction false} ImageOfInjection(groups: Groups, keys: set<string>)
    requires forall k :: k in keys ==> k in groups && groups[k].anomalies != []
    requires forall k, k' :: k in keys && k' in keys && PodOf(groups[k]) == PodOf(groups[k']) ==> k == k'
    ensures |Pods(groups, keys)| == |keys|
    decreases |keys|
  {
    if keys != {} {
      var k :| k in keys;
      var rest := keys - {k};
      ImageOfInjection(groups, rest);
      assert Pods(groups, keys) == Pods(groups, rest) + {PodOf(groups[k])};
    }
  }

  // Groups of one workload are groups of distinct pods.
  lemma MembersHaveDistinctPods(groups: Groups, wl: string, k: string, k': string)
    requires Keyed(groups) && SlashFree(groups) && k in Members(groups, wl) && k' in Members(groups, wl)
    requires PodOf(groups[k]) == PodOf(groups[k'])
    ensures k == k'
  {
    MembersShareIdentity(groups, wl, k, k');
    assert WorkloadKey(groups[k].anomalies[0]) == k && WorkloadKey(groups[k'].anomalies[0]) == k';
  }

  // The replicas a workload alert reports are the groups it absorbed, and enough of them;
  // the workload it names is the one each of their pods belongs to.
  lemma ReplicasAreAbsorbedGroups(groups: Groups, minPods: nat, o: Orders, wl: string)
    requires Keyed(groups) && SlashFree(groups) && ValidOrders(groups, minPods, o) && wl in o.workloads
    ensures var alert := WorkloadAlertIn(groups, minPods, o, wl);
            && alert.affectedReplicas == |Members(groups, wl)| >= minPods
            && alert.affectedPods == Pods(groups, Members(groups, wl))
            && (forall k :: k in Members(groups, wl) ==>
                  && k in Absorbed(groups, minPods)
                  && alert.workload == ExtractWorkload(PodOf(groups[k]))
                  && alert.cluster == ClusterOrUnknown(First(groups[k]))
                  && alert.namespace == Label(First(groups[k]), "namespace"))
  {
    var ks := o.members[wl];
    PatternHasMembers(groups, minPods, wl, ks);
    FlattenedStarts(groups, ks);
    AccumulatedPods(groups, wl, ks);
    forall k, k' | k in Members(groups, wl) && k' in Members(groups, wl) && PodOf(groups[k]) == PodOf(groups[k'])
      ensures k == k'
    {
      MembersHaveDistinctPods(groups, wl, k, k');
    }
    ImageOfInjection(groups, Members(groups, wl));
    assert ks[0] in ks;
    forall k | k in Members(groups, wl)
      ensures LastSegment(wl) == ExtractWorkload(PodOf(groups[k]))
      ensures ClusterOrUnknown(First(groups[ks[0]])) == ClusterOrUnknown(First(groups[k]))
      ensures Label(First(groups[ks[0]]), "namespace") == Label(First(groups[k]), "namespace")
    {
      PatternNamesWorkload(groups, wl, k);
      MembersShareIdentity(groups, wl, ks[0], k);
    }
  }

  // The anomaly it quotes is the first of one of those groups, relabelled.
  lemma QuotesMember(groups: Groups, minPods: nat, o: Orders, wl: string)
    requires ValidOrders(groups, minPods, o) && wl in o.workloads
    ensures exists k :: k in Members(groups, wl) && groups[k].anomalies != [] &&
              var quoted := groups[k].anomalies[0];
              WorkloadAlertIn(groups, minPods, o, wl).anomalies ==
              [quoted.(labels := quoted.labels["workload" := LastSegment(wl)]["pod" := ""])]
  {
    var ks := o.members[wl];
    PatternHasMembers(groups, minPods, wl, ks);
    FlattenedStarts(groups, ks);
    assert ks[0] in ks;
  }

  // All replicas of a Deployment, across rollouts, belong to one workload.
  lemma ReplicasShareWorkload(g: Group, g': Group, w: string, h: string, x: string, h': string, x': string)
    requires IsName(w) && IsHash(h) && IsHash(h') && IsSuffix(x) && IsSuffix(x')
    requires g.anomalies != [] && g'.anomalies != [] && SamePlace(g, g') && Label(First(g), "namespace") != ""
    requires PodOf(g) == DeploymentPod(w, h, x) && PodOf(g') == DeploymentPod(w, h', x')
    ensures Eligible(g) && Eligible(g') && PatternKey(g) == PatternKey(g')
  {
    DeploymentRoundTrip(w, h, x);
    DeploymentRoundTrip(w, h', x');
  }

  // ----- which pods merge -----

  // The pods in the place of group k whose names have the shape of a pod of w.
  ghost function PodsReadAs(groups: Groups, k: string, w: string): set<string>
    requires k in groups && groups[k].anomalies != []
  {
    set j | j in groups && groups[j].anomalies != [] && SamePlace(groups[j], groups[k]) && ReadsAs(PodOf(groups[j]), w)
      :: PodOf(groups[j])
  }

  lemma MemberIff(groups: Groups, k: string, j: string)
    requires SlashFree(groups) && k in groups && Eligible(groups[k]) && j in groups
    ensures j in Members(groups, PatternKey(groups[k])) <==>
            (groups[j].anomalies != [] && SamePlace(groups[j], groups[k]) &&
             ReadsAs(PodOf(groups[j]), ExtractWorkload(PodOf(groups[k]))))
  {
    var wl, w := PatternKey(groups[k]), ExtractWorkload(PodOf(groups[k]));
    assert k in Members(groups, wl);
    if j in Members(groups, wl) {
      MembersShareIdentity(groups, wl, j, k);
      ReadsAsIff(PodOf(groups[j]), w);
    }
    if groups[j].anomalies != [] && SamePlace(groups[j], groups[k]) && ReadsAs(PodOf(groups[j]), w) {
      ReadsAsIff(PodOf(groups[j]), w);
      ShapeIsRead(PodOf(groups[j]), w);
    }
  }

  lemma MembersArePodsReadAs(groups: Groups, k: string)
    requires SlashFree(groups) && k in groups && Eligible(groups[k])
    ensures Pods(groups, Members(groups, PatternKey(groups[k]))) ==
            PodsReadAs(groups, k, ExtractWorkload(PodOf(groups[k])))
  {
    forall j | j in groups
      ensures j in Members(groups, PatternKey(groups[k])) <==>
              (groups[j].anomalies != [] && SamePlace(groups[j], groups[k]) &&
               ReadsAs(PodOf(groups[j]), ExtractWorkload(PodOf(groups[k]))))
    {
      MemberIff(groups, k, j);
    }
  }

  lemma EligibleIff(g: Group)
    requires g.anomalies != []
    ensures Eligible(g) <==> Label(First(g), "namespace") != "" && exists w :: ReadsAs(PodOf(g), w)
  {
    var pod := PodOf(g);
    ReadsAsIff(pod, ExtractWorkload(pod));
    if w :| ReadsAs(pod, w) {
      ReadsAsIff(pod, w);
      ShapeIsRead(pod, w);
    }
  }

  // A group is absorbed exactly when enough pods of its place have names of the shape of a
  // pod of one workload with its own, whether or not they have anything else in common.
  lemma AbsorbedIff(groups: Groups, minPods: nat, k: string)
    requires SlashFree(groups) && k in groups && groups[k].anomalies != []
    ensures k in Absorbed(groups, minPods) <==>
            (Label(First(groups[k]), "namespace") != "" &&
             exists w :: ReadsAs(PodOf(groups[k]), w) && |PodsReadAs(groups, k, w)| >= minPods)
  {
    EligibleIff(groups[k]);
    if Eligible(groups[k]) {
      var w := ExtractWorkload(PodOf(groups[k]));
      ReadsAsIff(PodOf(groups[k]), w);
      MembersArePodsReadAs(groups, k);
      assert k in Members(groups, PatternKey(groups[k]));
      forall w' | ReadsAs(PodOf(groups[k]), w')
        ensures w' == w
      {
        ReadsAsIff(PodOf(groups[k]), w');
      }
    }
  }

  // Bare pods of one place whose names are w, a dash and five lower-case characters.
  ghost predicate BarePods(groups: Groups, ks: set<string>, w: string) {
    && (forall k :: k in ks ==>
          && k in groups && groups[k].anomalies != [] && Label(First(groups[k]), "namespace") != ""
          && exists x :: IsSuffix(x) && PodOf(groups[k]) == DaemonSetPod(w, x))
    && (forall k, k' :: k in ks && k' in ks ==> SamePlace(groups[k], groups[k']))
  }

  lemma BarePodReads(groups: Groups, ks: set<string>, w: string, k: string)
    requires IsName(w) && !EndsInHash(w) && BarePods(groups, ks, w) && k in ks
    ensures ReadsAs(PodOf(groups[k]), w)
  {
    var x :| IsSuffix(x) && PodOf(groups[k]) == DaemonSetPod(w, x);
    assert IsDaemonSetPod(PodOf(groups[k]), w);
  }

  // So bare pods with nothing but the start of their names in common, such as api-alpha,
  // api-bravo and api-delta, merge into a workload nobody has once there are enough of them.
  lemma BarePodsMerge(groups: Groups, minPods: nat, ks: set<string>, w: string)
    requires SlashFree(groups) && IsName(w) && !EndsInHash(w) && BarePods(groups, ks, w)
    requires |Pods(groups, ks)| >= minPods
    ensures ks <= Absorbed(groups, minPods)
  {
    forall k | k in ks
      ensures k in Absorbed(groups, minPods)
    {
      forall j | j in ks
        ensures ReadsAs(PodOf(groups[j]), w)
      {
        BarePodReads(groups, ks, w, j);
      }
      assert Pods(groups, ks) <= PodsReadAs(groups, k, w);
      SubsetIsSmaller(Pods(groups, ks), PodsReadAs(groups, k, w));
      AbsorbedIff(groups, minPods, k);
    }
  }

  // ----- fingerprints -----

  // Two pod alerts of one flush share a fingerprint exactly when both are about services,
  // in one cluster and namespace and with one severity, whatever the services are called.
  lemma PodAlertsShareFingerprintIff(groups: Groups, k: string, k': string)
    requires Keyed(groups) && k in groups && k' in groups && k != k'
    ensures FingerprintOf(PodAlertOf(groups[k])) == FingerprintOf(PodAlertOf(groups[k'])) <==>
            && PodOf(groups[k]) == PodOf(groups[k']) == ""
            && ClusterOrUnknown(First(groups[k])) == ClusterOrUnknown(First(groups[k']))
            && Label(First(groups[k]), "namespace") == Label(First(groups[k']), "namespace")
            && Escalated(groups[k]) == Escalated(groups[k'])
  {
    assert WorkloadKey(groups[k].anomalies[0]) == k && WorkloadKey(groups[k'].anomalies[0]) == k';
  }

  // Workload alerts never share one.
  lemma WorkloadAlertsDiffer(groups: Groups, minPods: nat, o: Orders, wl: string, wl': string)
    requires Keyed(groups) && SlashFree(groups) && ValidOrders(groups, minPods, o)
    requires wl in o.workloads && wl' in o.workloads && wl != wl'
    ensures FingerprintOf(WorkloadAlertIn(groups, minPods, o, wl)) !=
            FingerprintOf(WorkloadAlertIn(groups, minPods, o, wl'))
  {
    ReplicasAreAbsorbedGroups(groups, minPods, o, wl);
    ReplicasAreAbsorbedGroups(groups, minPods, o, wl');
    PatternHasMembers(groups, minPods, wl, o.members[wl]);
    PatternHasMembers(groups, minPods, wl', o.members[wl']);
    var k, k' := o.members[wl][0], o.members[wl'][0];
    assert k in o.members[wl] && k' in o.members[wl'];
    assert wl == PatternKey(groups[k]) && wl' == PatternKey(groups[k']);
  }
}
