// Groups of anomalies, the workload patterns found in them and the alerts built from them.
module Correlation {
  import opened Workload
  import opened Sequences
  import opened Baseline
  import opened Anomalies

  // ----- identities -----

  function Label(labels: Labels, k: string): string { if k in labels then labels[k] else "" }

  function ClusterOrUnknown(labels: Labels): string {
    if Label(labels, "cluster") != "" then Label(labels, "cluster") else "unknown"
  }

  function Joined(a: string, b: string, c: string): string { a + "/" + b + "/" + c }

  function WorkloadKey(a: Anomaly): string {
    var ns := Label(a.labels, "namespace");
    var pod := Label(a.labels, "pod");
    var id := if pod == "" then Label(a.labels, "service_name") else pod;
    if ns == "" && id == "" then "_unknown_" else Joined(ClusterOrUnknown(a.labels), ns, id)
  }

  // What follows the last slash.
  function LastSegment(key: string): string {
    if '/' !in key then key
    else if key[|key| - 1] == '/' then ""
    else LastSegment(key[..|key| - 1]) + [key[|key| - 1]]
  }

  lemma {:induction false} LastSegmentOfJoined(prefix: string, c: string)
    requires '/' !in c
    ensures LastSegment(prefix + "/" + c) == c
  {
    var key := prefix + "/" + c;
    assert key[|prefix|] == '/';
    if c != "" {
      var n := |c| - 1;
      LastSegmentOfJoined(prefix, c[..n]);
      assert key[..|key| - 1] == prefix + "/" + c[..n];
      assert c == c[..n] + [c[n]];
    }
  }

  // What is left to find out once the last characters, from i on, hold no slash.
  ghost predicate Scanned(key: string, i: nat) {
    i <= |key| && LastSegment(key) == LastSegment(key[..i]) + key[i..]
  }

  lemma ScanStarts(key: string)
    ensures Scanned(key, |key|)
  {
    assert key[..|key|] == key;
  }

  lemma LastSegmentSnoc(s: string, c: char)
    ensures LastSegment(s + [c]) == if c == '/' then "" else LastSegment(s) + [c]
  {
    assert (s + [c])[..|s|] == s;
  }

  lemma ScanPieces(last: string, init: string, c: char, rest: string)
    requires last == LastSegment(init + [c]) + rest
    ensures last == if c == '/' then rest else LastSegment(init) + ([c] + rest)
  {
    LastSegmentSnoc(init, c);
    Associative(LastSegment(init), [c], rest);
  }

  lemma OneLeftOf(key: string, i: nat)
    requires 0 < i <= |key|
    ensures key[..i] == key[..i - 1] + [key[i - 1]] && key[i - 1..] == [key[i - 1]] + key[i..]
  {
  }

  lemma ScanStep(key: string, i: nat)
    requires 0 < i && Scanned(key, i)
    ensures if key[i - 1] == '/' then LastSegment(key) == key[i..] else Scanned(key, i - 1)
  {
    OneLeftOf(key, i);
    ScanPieces(LastSegment(key), key[..i - 1], key[i - 1], key[i..]);
  }

  lemma ScanEnds(key: string)
    requires Scanned(key, 0)
    ensures LastSegment(key) == key
  {
    assert key[0..] == key;
  }

  lemma LastPart(x: string, c: string, x': string, c': string)
    requires '/' !in c && '/' !in c' && x + "/" + c == x' + "/" + c'
    ensures x == x' && c == c'
  {
    LastSegmentOfJoined(x, c);
    LastSegmentOfJoined(x', c');
    var s, s' := x + "/" + c, x' + "/" + c';
    assert x == s[..|x|] && x' == s'[..|x'|];
  }

  // The parts of a joined key can be told apart, from the right, when the last two hold no slash.
  lemma JoinedIsInjective(a: string, b: string, c: string, a': string, b': string, c': string)
    requires '/' !in b && '/' !in c && '/' !in b' && '/' !in c'
    requires Joined(a, b, c) == Joined(a', b', c')
    ensures a == a' && b == b' && c == c'
  {
    var x, x' := a + "/" + b, a' + "/" + b';
    assert Joined(a, b, c) == x + "/" + c && Joined(a', b', c') == x' + "/" + c';
    LastPart(x, c, x', c');
    LastPart(a, b, a', b');
  }

  // What an anomaly is about: its pod, or its service when it names no pod.
  lemma GroupedTogetherIff(a: Anomaly, b: Anomaly)
    requires forall l :: l in {"namespace", "pod", "service_name"} ==>
               '/' !in Label(a.labels, l) && '/' !in Label(b.labels, l)
    ensures var ns, ns' := Label(a.labels, "namespace"), Label(b.labels, "namespace");
            var pod, pod' := Label(a.labels, "pod"), Label(b.labels, "pod");
            var id := if pod != "" then pod else Label(a.labels, "service_name");
            var id' := if pod' != "" then pod' else Label(b.labels, "service_name");
            WorkloadKey(a) == WorkloadKey(b) <==>
            && ns == ns' && id == id'
            && ((ns == "" && id == "") || ClusterOrUnknown(a.labels) == ClusterOrUnknown(b.labels))
  {
    var ns, ns' := Label(a.labels, "namespace"), Label(b.labels, "namespace");
    var id := if Label(a.labels, "pod") != "" then Label(a.labels, "pod") else Label(a.labels, "service_name");
    var id' := if Label(b.labels, "pod") != "" then Label(b.labels, "pod") else Label(b.labels, "service_name");
    var c, c' := ClusterOrUnknown(a.labels), ClusterOrUnknown(b.labels);
    assert Joined(c, ns, id)[|c|] == '/' && Joined(c', ns', id')[|c'|] == '/';
    assert '/' !in "_unknown_";
    if WorkloadKey(a) == WorkloadKey(b) && !(ns == "" && id == "") {
      JoinedIsInjective(c, ns, id, c', ns', id');
    }
  }

  // ----- groups -----

  datatype Group = Group(anomalies: seq<Anomaly>, firstSeen: int)

  type Groups = map<string, Group>

  function First(g: Group): Labels
    requires g.anomalies != []
  {
    g.anomalies[0].labels
  }

  // Every group is held under the key of each of its anomalies, and none is empty.
  ghost predicate Keyed(groups: Groups) {
    forall k :: k in groups ==>
      groups[k].anomalies != [] &&
      forall i :: 0 <= i < |groups[k].anomalies| ==> WorkloadKey(groups[k].anomalies[i]) == k
  }

  // The labels by which keys are told apart hold no slash.  A cluster's may.
  predicate SlashFreeLabels(labels: Labels) {
    '/' !in Label(labels, "namespace") && '/' !in Label(labels, "pod")
  }

  ghost predicate SlashFree(groups: Groups) {
    forall k :: k in groups && groups[k].anomalies != [] ==> SlashFreeLabels(First(groups[k]))
  }

  // ----- alerts -----

  datatype Kind = PodAlert | WorkloadAlert

  datatype Alert = Alert(
    kind: Kind,
    anomalies: seq<Anomaly>,
    severity: Severity,
    cluster: string,
    namespace: string,
    workload: string,
    signals: set<Signal>,
    affectedPods: set<string>,
    affectedReplicas: nat)

  // An alert apart from the anomalies it quotes.
  function Core(): Alert -> Alert { (a: Alert) => a.(anomalies := []) }

  datatype Fingerprint = Fingerprint(kind: Kind, cluster: string, namespace: string, workload: string,
                                     severity: Severity)

  function FingerprintOf(a: Alert): Fingerprint {
    Fingerprint(a.kind, a.cluster, a.namespace, a.workload, a.severity)
  }

  function SignalsOf(s: seq<Anomaly>): set<Signal> { set i | 0 <= i < |s| :: s[i].signal }

  predicate HasCritical(s: seq<Anomaly>) { exists i :: 0 <= i < |s| && s[i].severity == Critical }

  function Escalated(g: Group): Severity {
    if HasCritical(g.anomalies) || |SignalsOf(g.anomalies)| >= 2 then Critical else Warning
  }

  // A pod alert is critical when an anomaly is, or when two differ in signal.
  lemma EscalatedIff(g: Group)
    ensures Escalated(g) == Critical <==>
            || (exists i :: 0 <= i < |g.anomalies| && g.anomalies[i].severity == Critical)
            || (exists i, j :: 0 <= i < |g.anomalies| && 0 <= j < |g.anomalies| &&
                               g.anomalies[i].signal != g.anomalies[j].signal)
  {
    var signals := SignalsOf(g.anomalies);
    if |signals| >= 2 {
      var x :| x in signals;
      assert |signals - {x}| >= 1;
      var y :| y in signals - {x};
      var i :| 0 <= i < |g.anomalies| && g.anomalies[i].signal == x;
      var j :| 0 <= j < |g.anomalies| && g.anomalies[j].signal == y;
      assert g.anomalies[i].signal != g.anomalies[j].signal;
    }
    if i, j :| 0 <= i < |g.anomalies| && 0 <= j < |g.anomalies| && g.anomalies[i].signal != g.anomalies[j].signal {
      var two := {g.anomalies[i].signal, g.anomalies[j].signal};
      assert |two| == 2 && two <= signals;
      SubsetIsSmaller(two, signals);
    }
  }

  function PodAlertOf(g: Group): Alert
    requires g.anomalies != []
  {
    Alert(PodAlert, g.anomalies, Escalated(g), ClusterOrUnknown(First(g)), Label(First(g), "namespace"),
          Label(First(g), "pod"), SignalsOf(g.anomalies), {}, 0)
  }

  // ----- workload patterns -----

  // The group belongs to a pod of a recognised workload.
  predicate Eligible(g: Group) {
    g.anomalies != [] &&
    var ns, pod := Label(First(g), "namespace"), Label(First(g), "pod");
    ns != "" && pod != "" && ExtractWorkload(pod) != pod
  }

  function PodOf(g: Group): string
    requires g.anomalies != []
  {
    Label(First(g), "pod")
  }

  function PatternKey(g: Group): string
    requires g.anomalies != []
  {
    Joined(ClusterOrUnknown(First(g)), Label(First(g), "namespace"), ExtractWorkload(PodOf(g)))
  }

  predicate MemberOf(groups: Groups, wl: string, k: string) {
    k in groups && Eligible(groups[k]) && PatternKey(groups[k]) == wl
  }

  // The keys of the groups of one workload.
  function Members(groups: Groups, wl: string): set<string> {
    set k | k in groups && MemberOf(groups, wl, k)
  }

  function Pods(groups: Groups, keys: set<string>): set<string> {
    set k | k in keys && k in groups && groups[k].anomalies != [] :: PodOf(groups[k])
  }

  predicate IsPattern(groups: Groups, minPods: nat, wl: string) {
    Members(groups, wl) != {} && |Pods(groups, Members(groups, wl))| >= minPods
  }

  function Patterns(groups: Groups, minPods: nat): set<string> {
    set k | k in groups && Eligible(groups[k]) && IsPattern(groups, minPods, PatternKey(groups[k])) ::
      PatternKey(groups[k])
  }

  // The groups absorbed into a workload alert.
  function Absorbed(groups: Groups, minPods: nat): set<string> {
    set k | k in groups && Eligible(groups[k]) && IsPattern(groups, minPods, PatternKey(groups[k]))
  }

  // What accumulates for a workload whose groups come in the order ks.
  datatype Accumulator = Accumulator(
    anomalies: seq<Anomaly>, pods: set<string>, podKeys: seq<string>, cluster: string, namespace: string)

  ghost predicate Listed(groups: Groups, ks: seq<string>) {
    forall i :: 0 <= i < |ks| ==> ks[i] in groups && groups[ks[i]].anomalies != []
  }

  function Flattened(groups: Groups, ks: seq<string>): seq<Anomaly>
    requires Listed(groups, ks)
  {
    if ks == [] then [] else Flattened(groups, ks[..|ks| - 1]) + groups[ks[|ks| - 1]].anomalies
  }

  function AccumulatorOf(groups: Groups, ks: seq<string>): Accumulator
    requires ks != [] && Listed(groups, ks)
  {
    Accumulator(
      Flattened(groups, ks),
      set i | 0 <= i < |ks| :: PodOf(groups[ks[i]]),
      ks,
      ClusterOrUnknown(First(groups[ks[0]])),
      Label(First(groups[ks[0]]), "namespace"))
  }

  function WorkloadAlertOf(wl: string, acc: Accumulator): Alert
    requires acc.anomalies != []
  {
    var rep := acc.anomalies[0];
    var labels := rep.labels["workload" := LastSegment(wl)]["pod" := ""];
    Alert(WorkloadAlert, [rep.(labels := labels)], if HasCritical(acc.anomalies) then Critical else Warning,
          acc.cluster, acc.namespace, LastSegment(wl), SignalsOf(acc.anomalies), acc.pods, |acc.pods|)
  }

  lemma {:induction false} FlattenedStarts(groups: Groups, ks: seq<string>)
    requires ks != [] && Listed(groups, ks)
    ensures groups[ks[0]].anomalies <= Flattened(groups, ks) && Flattened(groups, ks) != []
  {
    if |ks| > 1 {
      FlattenedStarts(groups, ks[..|ks| - 1]);
    } else {
      assert ks[..0] == [];
    }
  }

  // ----- the orders in which maps are ranged over -----

  ghost predicate Enumerates<T(!new)>(s: seq<T>, all: set<T>) {
    (forall i, j :: 0 <= i < j < |s| ==> s[i] != s[j]) &&
    (forall x :: x in s <==> x in all)
  }

  // One way of ranging over the maps of a flush: the ready groups while workloads are
  // accumulated, the accumulated workloads, and the ready groups once more.
  datatype Orders = Orders(workloads: seq<string>, members: map<string, seq<string>>, pods: seq<string>)

  ghost predicate ValidOrders(groups: Groups, minPods: nat, o: Orders) {
    && Enumerates(o.workloads, Patterns(groups, minPods))
    && Enumerates(o.pods, groups.Keys - Absorbed(groups, minPods))
    && (forall wl :: wl in Patterns(groups, minPods) ==>
          wl in o.members && Enumerates(o.members[wl], Members(groups, wl)))
  }

  lemma PatternHasMembers(groups: Groups, minPods: nat, wl: string, ks: seq<string>)
    requires wl in Patterns(groups, minPods) && Enumerates(ks, Members(groups, wl))
    ensures ks != [] && Listed(groups, ks)
  {
    var k :| k in groups && Eligible(groups[k]) && PatternKey(groups[k]) == wl;
    assert k in Members(groups, wl);
    forall i | 0 <= i < |ks|
      ensures ks[i] in groups && groups[ks[i]].anomalies != []
    {
      assert ks[i] in ks;
    }
  }

  ghost function WorkloadAlertIn(groups: Groups, minPods: nat, o: Orders, wl: string): Alert
    requires ValidOrders(groups, minPods, o) && wl in Patterns(groups, minPods)
  {
    PatternHasMembers(groups, minPods, wl, o.members[wl]);
    FlattenedStarts(groups, o.members[wl]);
    WorkloadAlertOf(wl, AccumulatorOf(groups, o.members[wl]))
  }

  ghost function WorkloadAlerts(groups: Groups, minPods: nat, o: Orders): seq<Alert>
    requires ValidOrders(groups, minPods, o)
  {
    seq(|o.workloads|, i requires 0 <= i < |o.workloads| =>
          assert o.workloads[i] in o.workloads; WorkloadAlertIn(groups, minPods, o, o.workloads[i]))
  }

  function PodAlerts(groups: Groups, pods: seq<string>): seq<Alert>
    requires forall k :: k in pods ==> k in groups && groups[k].anomalies != []
  {
    seq(|pods|, i requires 0 <= i < |pods| => assert pods[i] in pods; PodAlertOf(groups[pods[i]]))
  }

  // The alerts of a flush before deduplication.
  ghost function AlertsIn(groups: Groups, minPods: nat, o: Orders): seq<Alert>
    requires Keyed(groups) && ValidOrders(groups, minPods, o)
  {
    WorkloadAlerts(groups, minPods, o) + PodAlerts(groups, o.pods)
  }
}
