// Pod names and the workload they are read back to.
//
// Each of the three patterns is "(.+)" followed by a fixed-shape tail and the end of
// the text.  "(.+)" is greedy and does not cross a newline, so matching a pattern
// means taking the longest admissible prefix that leaves a well-formed tail.
module Workload {

  datatype Option<+T> = None | Some(value: T)

  predicate IsHex(c: char) { '0' <= c <= '9' || 'a' <= c <= 'f' }
  predicate IsDigit(c: char) { '0' <= c <= '9' }
  predicate IsAlnum(c: char) { '0' <= c <= '9' || 'a' <= c <= 'z' }

  predicate AllHex(s: string) { forall i :: 0 <= i < |s| ==> IsHex(s[i]) }
  predicate AllDigits(s: string) { forall i :: 0 <= i < |s| ==> IsDigit(s[i]) }
  predicate AllAlnum(s: string) { forall i :: 0 <= i < |s| ==> IsAlnum(s[i]) }

  // The hash of a ReplicaSet, the random suffix of a pod, the ordinal of a replica.
  predicate IsHash(h: string) { 8 <= |h| <= 10 && AllHex(h) }
  predicate IsSuffix(x: string) { |x| == 5 && AllAlnum(x) }
  predicate IsOrdinal(n: string) { n != "" && AllDigits(n) }

  // What "(.+)" can stand for.
  predicate IsName(w: string) { w != "" && '\n' !in w }

  // "-[a-f0-9]{8,10}-[a-z0-9]{5}$" with a hash of n characters
  predicate DeploymentTailOf(t: string, n: nat) {
    |t| == n + 7 && t[0] == '-' && IsHash(t[1..n + 1]) && t[n + 1] == '-' && IsSuffix(t[n + 2..])
  }

  predicate DeploymentTail(t: string) { exists n: nat :: 8 <= n <= 10 && DeploymentTailOf(t, n) }

  // "-(\d+)$"
  predicate StatefulSetTail(t: string) { |t| >= 2 && t[0] == '-' && IsOrdinal(t[1..]) }

  // "-[a-z0-9]{5}$"
  predicate DaemonSetTail(t: string) { |t| == 6 && t[0] == '-' && IsSuffix(t[1..]) }

  // The longest prefix of at most i characters that "(.+)" matches and whose rest is a tail.
  function LongestPrefix(tail: string -> bool, s: string, i: nat): Option<string>
    requires i <= |s|
  {
    if i == 0 then None
    else if IsName(s[..i]) && tail(s[i..]) then Some(s[..i])
    else LongestPrefix(tail, s, i - 1)
  }

  function ExtractWorkload(pod: string): string {
    if pod == "" then ""
    else
      var deployment := LongestPrefix(DeploymentTail, pod, |pod|);
      if deployment.Some? then deployment.value
      else
        var statefulSet := LongestPrefix(StatefulSetTail, pod, |pod|);
        if statefulSet.Some? then statefulSet.value
        else
          var daemonSet := LongestPrefix(DaemonSetTail, pod, |pod|);
          if daemonSet.Some? then daemonSet.value else pod
  }

  // ----- a tail fixes where the name ends -----

  ghost predicate Splits(tail: string -> bool, s: string, i: nat) {
    i <= |s| && IsName(s[..i]) && tail(s[i..])
  }

  // LongestPrefix finds the only split there is.
  lemma {:induction false} LongestPrefixFindsIt(tail: string -> bool, s: string, i: nat, at: nat)
    requires i <= |s| && at <= i
    requires Splits(tail, s, at)
    requires forall j: nat :: Splits(tail, s, j) ==> j == at
    ensures LongestPrefix(tail, s, i) == Some(s[..at])
  {
    if i != at {
      assert !Splits(tail, s, i);
      LongestPrefixFindsIt(tail, s, i - 1, at);
    }
  }

  lemma {:induction false} LongestPrefixFails(tail: string -> bool, s: string, i: nat)
    requires i <= |s|
    requires forall j: nat :: !Splits(tail, s, j)
    ensures LongestPrefix(tail, s, i) == None
  {
    if i > 0 {
      assert !Splits(tail, s, i);
      LongestPrefixFails(tail, s, i - 1);
    }
  }

  lemma {:induction false} LongestPrefixIsProper(tail: string -> bool, s: string, i: nat)
    requires i <= |s|
    ensures LongestPrefix(tail, s, i).Some? ==> Splits(tail, s, |LongestPrefix(tail, s, i).value|)
    ensures LongestPrefix(tail, s, i).Some? ==> LongestPrefix(tail, s, i).value <= s
  {
    if i > 0 && !(IsName(s[..i]) && tail(s[i..])) {
      LongestPrefixIsProper(tail, s, i - 1);
    }
  }

  // None of the tails holds a dash outside its fixed places, so a name is split one way only.
  lemma DeploymentDashes(s: string, i: nat)
    requires i <= |s| && DeploymentTail(s[i..])
    ensures i + 15 <= |s| <= i + 17
    ensures forall k :: i <= k < |s| ==> (s[k] == '-' <==> k == i || k == |s| - 6)
    ensures IsHash(s[i + 1..|s| - 6]) && IsSuffix(s[|s| - 5..])
  {
    var t := s[i..];
    var n: nat :| 8 <= n <= 10 && DeploymentTailOf(t, n);
    assert t[1..n + 1] == s[i + 1..|s| - 6] && t[n + 2..] == s[|s| - 5..];
    forall k | i <= k < |s|
      ensures s[k] == '-' <==> k == i || k == |s| - 6
    {
      assert s[k] == t[k - i];
      if i < k < |s| - 6 {
        assert s[k] == t[1..n + 1][k - i - 1];
      } else if |s| - 6 < k {
        assert s[k] == t[n + 2..][k - |s| + 5];
      }
    }
  }

  lemma StatefulSetDashes(s: string, i: nat)
    requires i <= |s| && StatefulSetTail(s[i..])
    ensures i < |s| && forall k :: i <= k < |s| ==> (s[k] == '-' <==> k == i)
    ensures IsOrdinal(s[i + 1..])
  {
    assert s[i..][1..] == s[i + 1..];
    forall k | i < k < |s|
      ensures s[k] != '-'
    {
      assert s[k] == s[i + 1..][k - i - 1];
    }
  }

  lemma DeploymentSplitUnique(s: string, i: nat, j: nat)
    requires i <= |s| && j <= |s| && DeploymentTail(s[i..]) && DeploymentTail(s[j..])
    ensures i == j
  {
    DeploymentDashes(s, i);
    DeploymentDashes(s, j);
    assert s[i] == '-' && s[j] == '-';
  }

  lemma DeploymentTailHasNoNewline(t: string)
    requires DeploymentTail(t)
    ensures '\n' !in t
  {
    var n: nat :| 8 <= n <= 10 && DeploymentTailOf(t, n);
    forall k | 0 <= k < |t|
      ensures t[k] != '\n'
    {
      if 1 <= k <= n {
        assert t[k] == t[1..n + 1][k - 1];
      } else if n + 2 <= k {
        assert t[k] == t[n + 2..][k - n - 2];
      }
    }
  }

  // Tails hold no newline: a name with one in it matches no pattern and stands for itself.
  lemma TailsHaveNoNewline(t: string)
    ensures DeploymentTail(t) ==> '\n' !in t
    ensures StatefulSetTail(t) ==> '\n' !in t
    ensures DaemonSetTail(t) ==> '\n' !in t
  {
    if DeploymentTail(t) {
      DeploymentTailHasNoNewline(t);
    }
    if StatefulSetTail(t) || DaemonSetTail(t) {
      assert t == [t[0]] + t[1..];
    }
  }

  lemma NewlineMeansNoWorkload(pod: string)
    requires '\n' in pod
    ensures ExtractWorkload(pod) == pod
  {
    forall j: nat
      ensures !Splits(DeploymentTail, pod, j)
      ensures !Splits(StatefulSetTail, pod, j)
      ensures !Splits(DaemonSetTail, pod, j)
    {
      if j <= |pod| {
        assert pod == pod[..j] + pod[j..];
        TailsHaveNoNewline(pod[j..]);
      }
    }
    LongestPrefixFails(DeploymentTail, pod, |pod|);
    LongestPrefixFails(StatefulSetTail, pod, |pod|);
    LongestPrefixFails(DaemonSetTail, pod, |pod|);
  }

  lemma WorkloadIsNonemptyPrefix(pod: string)
    ensures ExtractWorkload(pod) <= pod
    ensures pod != "" ==> ExtractWorkload(pod) != ""
  {
    LongestPrefixIsProper(DeploymentTail, pod, |pod|);
    LongestPrefixIsProper(StatefulSetTail, pod, |pod|);
    LongestPrefixIsProper(DaemonSetTail, pod, |pod|);
  }

  // ----- the naming schemes -----

  function DeploymentPod(w: string, h: string, x: string): string { w + "-" + h + "-" + x }
  function StatefulSetPod(w: string, n: string): string { w + "-" + n }
  function DaemonSetPod(w: string, x: string): string { w + "-" + x }

  predicate HashAtEnd(w: string, n: nat) {
    |w| > n + 1 && w[|w| - n - 1] == '-' && IsHash(w[|w| - n..])
  }

  // w itself looks like a name followed by a ReplicaSet hash.
  predicate EndsInHash(w: string) {
    exists n: nat :: 8 <= n <= 10 && HashAtEnd(w, n)
  }

  // A Deployment's pods are read back to the Deployment, whatever the rollout and the
  // replica, exactly when the name is one "(.+)" can match.
  lemma DeploymentRoundTrip(w: string, h: string, x: string)
    requires IsHash(h) && IsSuffix(x)
    ensures ExtractWorkload(DeploymentPod(w, h, x)) == w <==> IsName(w)
  {
    var pod := DeploymentPod(w, h, x);
    WorkloadIsNonemptyPrefix(pod);
    if '\n' in w {
      assert '\n' in pod;
      NewlineMeansNoWorkload(pod);
    } else if w != "" {
      var t := pod[|w|..];
      assert t[1..|h| + 1] == h && t[|h| + 2..] == x;
      assert DeploymentTailOf(t, |h|);
      assert pod[..|w|] == w;
      forall j: nat | Splits(DeploymentTail, pod, j)
        ensures j == |w|
      {
        DeploymentSplitUnique(pod, j, |w|);
      }
      LongestPrefixFindsIt(DeploymentTail, pod, |pod|, |w|);
    }
  }

  // The last dash of "w-x" is the one before x.
  lemma LastDash(w: string, x: string, k: nat)
    requires '-' !in x && k <= |w| + |x|
    requires (w + "-" + x)[k] == '-'
    requires forall i :: k < i <= |w| + |x| ==> (w + "-" + x)[i] != '-'
    ensures k == |w|
  {
    var pod := w + "-" + x;
    assert pod[|w|] == '-';
    assert forall i :: |w| < i < |pod| ==> pod[i] == x[i - |w| - 1];
  }

  lemma TailOfHash(u: string, x: string, n: nat)
    requires 8 <= n <= 10 && |u| == n + 1 && u[0] == '-' && IsHash(u[1..]) && IsSuffix(x)
    ensures DeploymentTail(u + "-" + x)
  {
    var t := u + "-" + x;
    assert t[1..n + 1] == u[1..] && t[n + 2..] == x;
    assert DeploymentTailOf(t, n);
  }

  lemma HashIsMistaken(w: string, x: string) returns (j: nat)
    requires IsName(w) && EndsInHash(w) && IsSuffix(x)
    ensures Splits(DeploymentTail, w + "-" + x, j)
  {
    var n: nat :| 8 <= n <= 10 && HashAtEnd(w, n);
    j := |w| - n - 1;
    var pod := w + "-" + x;
    assert w[j..][1..] == w[|w| - n..];
    TailOfHash(w[j..], x, n);
    assert pod[j..] == w[j..] + "-" + x && pod[..j] == w[..j];
  }

  lemma MistakenHasHash(w: string, x: string, j: nat)
    requires IsName(w) && x != "" && '-' !in x && Splits(DeploymentTail, w + "-" + x, j)
    ensures EndsInHash(w) && IsSuffix(x)
  {
    var pod := w + "-" + x;
    DeploymentDashes(pod, j);
    LastDash(w, x, |pod| - 6);
    assert pod[|pod| - 5..] == x;
    assert pod[j + 1..|pod| - 6] == w[j + 1..];
    assert HashAtEnd(w, |w| - j - 1);
  }

  // When a name followed by five characters is mistaken for a Deployment's pod.
  lemma MistakenForDeployment(w: string, x: string)
    requires IsName(w) && x != "" && '-' !in x
    ensures (exists j: nat :: Splits(DeploymentTail, w + "-" + x, j)) <==> EndsInHash(w) && IsSuffix(x)
  {
    if EndsInHash(w) && IsSuffix(x) {
      var j := HashIsMistaken(w, x);
    }
    if j: nat :| Splits(DeploymentTail, w + "-" + x, j) {
      MistakenHasHash(w, x, j);
    }
  }

  lemma DigitsAfterLastDash(w: string, x: string, j: nat)
    requires '-' !in x
    requires Splits(StatefulSetTail, w + "-" + x, j)
    ensures j == |w| && AllDigits(x)
  {
    var pod := w + "-" + x;
    StatefulSetDashes(pod, j);
    LastDash(w, x, j);
    assert pod[j + 1..] == x;
  }

  // A one-dash tail is matched at the last dash.
  lemma StatefulSetAtLastDash(w: string, n: string)
    requires IsName(w) && IsOrdinal(n)
    ensures LongestPrefix(StatefulSetTail, w + "-" + n, |w + "-" + n|) == Some(w)
  {
    var pod := w + "-" + n;
    assert pod[|w|..][1..] == n && pod[..|w|] == w;
    forall j: nat | Splits(StatefulSetTail, pod, j)
      ensures j == |w|
    {
      DigitsAfterLastDash(w, n, j);
    }
    LongestPrefixFindsIt(StatefulSetTail, pod, |pod|, |w|);
  }

  lemma OnlyPrefixIsShorter(w: string, x: string)
    requires IsName(w) && IsSuffix(x) && EndsInHash(w)
    ensures |ExtractWorkload(w + "-" + x)| < |w|
  {
    var pod := w + "-" + x;
    MistakenForDeployment(w, x);
    var j: nat :| Splits(DeploymentTail, pod, j);
    forall k: nat | Splits(DeploymentTail, pod, k)
      ensures k == j
    {
      DeploymentSplitUnique(pod, k, j);
    }
    LongestPrefixFindsIt(DeploymentTail, pod, |pod|, j);
  }

  // The same for the other two schemes: the pod is read back exactly when, besides, it
  // does not look like the pod of a Deployment, whose pattern is tried first.
  lemma StatefulSetRoundTrip(w: string, n: string)
    requires IsOrdinal(n)
    ensures ExtractWorkload(StatefulSetPod(w, n)) == w <==>
            IsName(w) && !(|n| == 5 && EndsInHash(w))
  {
    var pod := StatefulSetPod(w, n);
    WorkloadIsNonemptyPrefix(pod);
    if '\n' in w {
      assert '\n' in pod;
      NewlineMeansNoWorkload(pod);
    } else if w != "" {
      MistakenForDeployment(w, n);
      StatefulSetAtLastDash(w, n);
      if |n| == 5 && EndsInHash(w) {
        OnlyPrefixIsShorter(w, n);
      } else {
        LongestPrefixFails(DeploymentTail, pod, |pod|);
      }
    }
  }

  lemma DaemonSetAtLastDash(w: string, x: string)
    requires IsName(w) && IsSuffix(x)
    ensures LongestPrefix(DaemonSetTail, w + "-" + x, |w + "-" + x|) == Some(w)
  {
    var pod := w + "-" + x;
    assert pod[|w|..][1..] == x && pod[..|w|] == w;
    LongestPrefixFindsIt(DaemonSetTail, pod, |pod|, |w|);
  }

  lemma DaemonSetRoundTrip(w: string, x: string)
    requires IsSuffix(x)
    ensures ExtractWorkload(DaemonSetPod(w, x)) == w <==> IsName(w) && !EndsInHash(w)
  {
    var pod := DaemonSetPod(w, x);
    WorkloadIsNonemptyPrefix(pod);
    if '\n' in w {
      assert '\n' in pod;
      NewlineMeansNoWorkload(pod);
    } else if w != "" {
      MistakenForDeployment(w, x);
      if EndsInHash(w) {
        OnlyPrefixIsShorter(w, x);
      } else {
        LongestPrefixFails(DeploymentTail, pod, |pod|);
        DaemonSetAtLastDash(w, x);
        if AllDigits(x) {
          StatefulSetAtLastDash(w, x);
        } else {
          forall j: nat
            ensures !Splits(StatefulSetTail, pod, j)
          {
            if Splits(StatefulSetTail, pod, j) {
              DigitsAfterLastDash(w, x, j);
            }
          }
          LongestPrefixFails(StatefulSetTail, pod, |pod|);
        }
      }
    }
  }

  // ----- what a name is read back to -----

  ghost predicate IsDeploymentPod(pod: string, w: string) {
    exists h, x :: IsHash(h) && IsSuffix(x) && pod == DeploymentPod(w, h, x)
  }

  ghost predicate IsStatefulSetPod(pod: string, w: string) {
    exists n :: IsOrdinal(n) && pod == StatefulSetPod(w, n) && !(|n| == 5 && EndsInHash(w))
  }

  ghost predicate IsDaemonSetPod(pod: string, w: string) {
    exists x :: IsSuffix(x) && pod == DaemonSetPod(w, x) && !EndsInHash(w)
  }

  // By its shape alone the name is that of a pod of w.
  ghost predicate ReadsAs(pod: string, w: string) {
    IsName(w) && (IsDeploymentPod(pod, w) || IsStatefulSetPod(pod, w) || IsDaemonSetPod(pod, w))
  }

  lemma TailParts(t: string, n: nat)
    requires 8 <= n <= 10 && DeploymentTailOf(t, n)
    ensures t == "-" + t[1..n + 1] + "-" + t[n + 2..]
  {
  }

  lemma DeploymentPodIs(pod: string, w: string, t: string, h: string, x: string)
    requires pod == w + t && t == "-" + h + "-" + x
    ensures pod == DeploymentPod(w, h, x)
  {
  }

  lemma DeploymentTailIs(pod: string, w: string)
    requires w <= pod && Splits(DeploymentTail, pod, |w|)
    ensures IsDeploymentPod(pod, w)
  {
    var t := pod[|w|..];
    var n: nat :| 8 <= n <= 10 && DeploymentTailOf(t, n);
    TailParts(t, n);
    DeploymentPodIs(pod, w, t, t[1..n + 1], t[n + 2..]);
  }

  lemma OneDashTailIs(pod: string, w: string)
    requires w <= pod && |w| < |pod| && pod[|w|] == '-'
    ensures pod == w + "-" + pod[|w| + 1..]
  {
  }

  lemma ReadIsShape(pod: string, w: string)
    requires ExtractWorkload(pod) == w && w != pod
    ensures ReadsAs(pod, w)
  {
    LongestPrefixIsProper(DeploymentTail, pod, |pod|);
    LongestPrefixIsProper(StatefulSetTail, pod, |pod|);
    LongestPrefixIsProper(DaemonSetTail, pod, |pod|);
    assert w <= pod;
    assert pod[..|w|] == w;
    if Splits(DeploymentTail, pod, |w|) {
      DeploymentTailIs(pod, w);
    } else {
      var rest := pod[|w| + 1..];
      assert pod[|w|..][1..] == rest;
      OneDashTailIs(pod, w);
      if Splits(StatefulSetTail, pod, |w|) {
        StatefulSetRoundTrip(w, rest);
        assert pod == StatefulSetPod(w, rest);
      } else {
        DaemonSetRoundTrip(w, rest);
        assert pod == DaemonSetPod(w, rest);
      }
    }
  }

  lemma ShapeIsRead(pod: string, w: string)
    requires ReadsAs(pod, w)
    ensures ExtractWorkload(pod) == w && |w| < |pod|
  {
    if IsDeploymentPod(pod, w) {
      var h, x :| IsHash(h) && IsSuffix(x) && pod == DeploymentPod(w, h, x);
      DeploymentRoundTrip(w, h, x);
    } else if IsStatefulSetPod(pod, w) {
      var n :| IsOrdinal(n) && pod == StatefulSetPod(w, n) && !(|n| == 5 && EndsInHash(w));
      StatefulSetRoundTrip(w, n);
    } else {
      var x :| IsSuffix(x) && pod == DaemonSetPod(w, x) && !EndsInHash(w);
      DaemonSetRoundTrip(w, x);
    }
  }

  // A name is read back to w, and not to itself, exactly when it has the shape of a pod of
  // w: nothing else about the pod plays a part.
  lemma ReadsAsIff(pod: string, w: string)
    ensures ExtractWorkload(pod) == w && w != pod <==> ReadsAs(pod, w)
  {
    if ExtractWorkload(pod) == w && w != pod {
      ReadIsShape(pod, w);
    }
    if ReadsAs(pod, w) {
      ShapeIsRead(pod, w);
    }
  }

  lemma BareNameReads(x: string)
    requires IsSuffix(x)
    ensures ExtractWorkload("api-" + x) == "api"
  {
    assert !EndsInHash("api");
    assert "api-" + x == DaemonSetPod("api", x);
    DaemonSetRoundTrip("api", x);
  }

  // Three names that need not have anything to do with each other.
  lemma BareNamesRead()
    ensures ExtractWorkload("api-" + "alpha") == ExtractWorkload("api-" + "bravo") ==
            ExtractWorkload("api-" + "delta") == "api"
  {
    BareNameReads("alpha");
    BareNameReads("bravo");
    BareNameReads("delta");
  }
}
