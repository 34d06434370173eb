// When a group leaves: over whole runs, in the times of the steps and the length of the
// window.
module Timing {
  import opened Sequences
  import opened Anomalies
  import opened Correlation
  import opened Correlator
  import opened Runs

  // ----- the flush of a step -----

  function Flushes(steps: seq<Step>): nat {
    if steps == [] then 0
    else Flushes(steps[..|steps| - 1]) + if steps[|steps| - 1].FlushStep? then 1 else 0
  }

  lemma FlushesSnoc(steps: seq<Step>, x: Step)
    ensures Flushes(steps + [x]) == Flushes(steps) + if x.FlushStep? then 1 else 0
  {
    assert (steps + [x])[..|steps|] == steps;
  }

  lemma {:induction false} BatchesAreFlushes(window: int, minPods: nat, steps: seq<Step>, batches: seq<Batch>)
    requires AllBuilt(window, minPods, steps, batches)
    ensures |batches| == Flushes(steps)
  {
    if steps != [] {
      var n := |steps| - 1;
      BatchesAreFlushes(window, minPods, steps[..n],
                        if steps[n].FlushStep? then batches[..|batches| - 1] else batches);
    }
  }

  // The flush at step f built the batch that has as many before it as there were flushes.
  lemma {:induction false} BatchOf(window: int, minPods: nat, steps: seq<Step>, batches: seq<Batch>, f: nat)
    requires AllBuilt(window, minPods, steps, batches) && f < |steps| && steps[f].FlushStep?
    ensures Flushes(steps[..f]) < |batches| == Flushes(steps)
    ensures Built(window, minPods, PendingAfter(window, steps[..f]), steps[f].now, batches[Flushes(steps[..f])])
  {
    BatchesAreFlushes(window, minPods, steps, batches);
    var n := |steps| - 1;
    if f == n {
      BatchesAreFlushes(window, minPods, steps[..n], batches[..|batches| - 1]);
    } else {
      assert steps[..n][..f] == steps[..f];
      BatchOf(window, minPods, steps[..n], if steps[n].FlushStep? then batches[..|batches| - 1] else batches, f);
    }
  }

  // ----- the age of what leaves and of what stays -----

  // A flush takes exactly the pending groups that are at least a window old, as they are,
  // and leaves the others as they are.
  lemma OnlyTheOldLeave(window: int, minPods: nat, steps: seq<Step>, batches: seq<Batch>, f: nat, k: string)
    requires AllBuilt(window, minPods, steps, batches) && f < |steps| && steps[f].FlushStep?
    ensures Flushes(steps[..f]) < |batches|
    ensures var before, after := PendingAfter(window, steps[..f]), PendingAfter(window, steps[..f + 1]);
            var taken := batches[Flushes(steps[..f])].groups;
            && (k in taken <==> k in before && steps[f].now - before[k].firstSeen >= window)
            && (k in after <==> k in before && steps[f].now - before[k].firstSeen < window)
            && (k in taken ==> taken[k] == before[k])
            && (k in after ==> after[k] == before[k])
  {
    BatchOf(window, minPods, steps, batches, f);
    assert steps[..f + 1][..f] == steps[..f];
  }

  // ----- since when a group has been pending -----

  // Step j adds under key k when nothing is pending there.
  ghost predicate Opens(window: int, steps: seq<Step>, j: nat, k: string) {
    && j < |steps| && steps[j].AddStep? && WorkloadKey(steps[j].a) == k
    && k !in PendingAfter(window, steps[..j])
  }

  // No flush after step j and before step f comes a window after step j.
  ghost predicate NoneDue(window: int, steps: seq<Step>, j: nat, f: nat) {
    j < |steps| && forall i :: j < i < f && i < |steps| && steps[i].FlushStep? ==> steps[i].now - steps[j].now < window
  }

  lemma OpensInPrefix(window: int, steps: seq<Step>, n: nat, j: nat, k: string)
    requires j < n <= |steps|
    ensures Opens(window, steps[..n], j, k) <==> Opens(window, steps, j, k)
  {
    assert steps[..n][..j] == steps[..j];
  }

  lemma AddedOneMoreStep(k: string, steps: seq<Step>, j: nat, f: nat)
    requires j < f < |steps|
    ensures AddedUnder(k, steps[j..f + 1]) ==
            AddedUnder(k, steps[j..f]) + if steps[f].AddStep? then Under(k, steps[f].a) else []
  {
    assert steps[j..f + 1][..f - j] == steps[j..f];
  }

  // A group that step j opened is pending until a flush comes a window after step j, and
  // holds what has been added under its key from step j on.
  lemma {:induction false} StaysWhileYoung(window: int, steps: seq<Step>, j: nat, f: nat, k: string)
    requires j < f <= |steps| && Opens(window, steps, j, k) && NoneDue(window, steps, j, f)
    ensures var pending := PendingAfter(window, steps[..f]);
            k in pending && pending[k] == Group(AddedUnder(k, steps[j..f]), steps[j].now)
  {
    var n := f - 1;
    assert steps[..f][..n] == steps[..n];
    if n == j {
      assert steps[j..f] == [steps[j]] && [steps[j]][..0] == [];
    } else {
      StaysWhileYoung(window, steps, j, n, k);
      AddedOneMoreStep(k, steps, j, n);
    }
  }

  // Whatever is pending was opened by some step, and no flush has come a window after it.
  lemma {:induction false} OpenedBy(window: int, steps: seq<Step>, k: string) returns (j: nat)
    requires k in PendingAfter(window, steps)
    ensures Opens(window, steps, j, k) && NoneDue(window, steps, j, |steps|)
    ensures PendingAfter(window, steps)[k].firstSeen == steps[j].now
  {
    var n := |steps| - 1;
    if k in PendingAfter(window, steps[..n]) {
      j := OpenedBy(window, steps[..n], k);
      OpensInPrefix(window, steps, n, j, k);
    } else {
      j := n;
    }
  }

  // ----- when an anomaly leaves -----

  // The flush at step f is the first one a window after step j.
  ghost predicate FirstDue(window: int, steps: seq<Step>, j: nat, f: nat) {
    && j < f < |steps| && steps[f].FlushStep? && steps[f].now - steps[j].now >= window
    && NoneDue(window, steps, j, f)
  }

  // That flush takes the group.
  lemma TakenWhenDue(window: int, minPods: nat, steps: seq<Step>, batches: seq<Batch>, j: nat, f: nat, k: string)
    requires AllBuilt(window, minPods, steps, batches) && Opens(window, steps, j, k) && FirstDue(window, steps, j, f)
    ensures Flushes(steps[..f]) < |batches|
    ensures var taken := batches[Flushes(steps[..f])].groups;
            k in taken && taken[k] == Group(AddedUnder(k, steps[j..f]), steps[j].now)
    ensures k !in PendingAfter(window, steps[..f + 1])
  {
    StaysWhileYoung(window, steps, j, f, k);
    OnlyTheOldLeave(window, minPods, steps, batches, f, k);
  }

  // And none before it does.
  lemma NotTakenBefore(window: int, minPods: nat, steps: seq<Step>, batches: seq<Batch>, j: nat, f: nat, k: string)
    requires AllBuilt(window, minPods, steps, batches) && Opens(window, steps, j, k) && j < f < |steps|
    requires steps[f].FlushStep? && NoneDue(window, steps, j, f + 1)
    ensures Flushes(steps[..f]) < |batches| && k !in batches[Flushes(steps[..f])].groups
  {
    StaysWhileYoung(window, steps, j, f, k);
    OnlyTheOldLeave(window, minPods, steps, batches, f, k);
  }

  lemma AddedIsListed(k: string, steps: seq<Step>, j: nat, f: nat, i: nat)
    requires j <= i < f <= |steps| && steps[i].AddStep? && WorkloadKey(steps[i].a) == k
    ensures steps[i].a in AddedUnder(k, steps[j..f])
    decreases f
  {
    var n := f - 1;
    assert steps[j..f][..n - j] == steps[j..n];
    if i < n {
      AddedIsListed(k, steps, j, n, i);
    }
  }

  // The step that opened the group into which step i adds.
  lemma OpenerOf(window: int, steps: seq<Step>, i: nat) returns (j: nat)
    requires i < |steps| && steps[i].AddStep?
    ensures j <= i && Opens(window, steps, j, WorkloadKey(steps[i].a)) && NoneDue(window, steps, j, i)
  {
    var k := WorkloadKey(steps[i].a);
    if k in PendingAfter(window, steps[..i]) {
      j := OpenedBy(window, steps[..i], k);
      OpensInPrefix(window, steps, i, j, k);
    } else {
      j := i;
    }
  }

  // Every anomaly ever added has an add that opened its group.  The anomaly leaves pending
  // in the first flush that comes at least a window after that add, and in none before it.
  lemma LeavesWhenDue(window: int, minPods: nat, steps: seq<Step>, batches: seq<Batch>, i: nat) returns (j: nat)
    requires AllBuilt(window, minPods, steps, batches) && i < |steps| && steps[i].AddStep?
    ensures j <= i && Opens(window, steps, j, WorkloadKey(steps[i].a)) && NoneDue(window, steps, j, i)
    ensures forall f :: i < f <= |steps| && NoneDue(window, steps, j, f) ==>
              steps[i].a in Held(PendingAfter(window, steps[..f]), WorkloadKey(steps[i].a))
    ensures forall f :: i < f && FirstDue(window, steps, j, f) ==>
              && Flushes(steps[..f]) < |batches|
              && steps[i].a in Held(batches[Flushes(steps[..f])].groups, WorkloadKey(steps[i].a))
              && WorkloadKey(steps[i].a) !in PendingAfter(window, steps[..f + 1])
  {
    var k := WorkloadKey(steps[i].a);
    j := OpenerOf(window, steps, i);
    forall f | i < f <= |steps| && NoneDue(window, steps, j, f)
      ensures steps[i].a in Held(PendingAfter(window, steps[..f]), k)
    {
      StaysWhileYoung(window, steps, j, f, k);
      AddedIsListed(k, steps, j, f, i);
    }
    forall f | i < f && FirstDue(window, steps, j, f)
      ensures && Flushes(steps[..f]) < |batches| && k !in PendingAfter(window, steps[..f + 1])
              && steps[i].a in Held(batches[Flushes(steps[..f])].groups, k)
    {
      TakenWhenDue(window, minPods, steps, batches, j, f, k);
      AddedIsListed(k, steps, j, f, i);
    }
  }
}
