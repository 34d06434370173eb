// One cycle of the controller with its worker, one tick of a replay, and why the two
// accept the same anomalies.
module Cycle {
  import opened Workload
  import opened Sequences
  import opened Baseline
  import opened Anomalies
  import opened Filters
  import opened Fdr
  import opened Detector
  import opened Jobs
  import opened Parity

  // ----- the worker -----

  // The worker's suppression filter: compacts the anomalies of a job in place.
  method Suppress(anomalies: array<Anomaly>, suppressed: Anomaly -> bool) returns (kept: nat)
    modifies anomalies
    ensures Compacted(Not(suppressed), old(anomalies[..]), anomalies[..], anomalies.Length, kept)
    ensures forall k :: 0 <= k < kept ==> !suppressed(anomalies[k])
  {
    ghost var before := anomalies[..];
    kept := 0;
    for i := 0 to anomalies.Length
      invariant Compacted(Not(suppressed), before, anomalies[..], i, kept)
      invariant forall k :: 0 <= k < kept ==> !suppressed(anomalies[k])
    {
      CompactedStep(Not(suppressed), before, anomalies[..], i, kept);
      var a := anomalies[i];
      if suppressed(a) { continue; }
      anomalies[kept] := a;
      kept := kept + 1;
    }
  }

  method Unsuppressed(found: seq<Anomaly>, suppressed: Anomaly -> bool) returns (kept: seq<Anomaly>)
    ensures kept == Filter(Not(suppressed), found)
  {
    var slice := new Anomaly[|found|](i requires 0 <= i < |found| => found[i]);
    assert slice[..] == found == found[..slice.Length];
    var n := Suppress(slice, suppressed);
    kept := slice[..n];
  }

  method ProcessJob(e: Evaluator, job: Job, faults: Faults) returns (anomalies: seq<Anomaly>, tested: nat, failed: bool)
    modifies e.Footprint()
    ensures Outcome(e.Held(), anomalies, tested) ==
            JobOutcome(e.Cfg(), e.KeyingUsed(), old(e.Held()), job, SufferedBy(e, faults))
    ensures failed <==> Fails(job)
  {
    anomalies, tested, failed := [], 0, false;
    match job
    case StaticJob(rule, query) =>
      if query == None { return [], 0, true; }
      anomalies := EvaluateMetricsStatic(rule, query.value);
    case AdaptiveJob(name, query) =>
      if query == None { return [], 0, true; }
      anomalies, tested := EvaluateMetricsAdaptive(e, name, query.value, faults);
    case LogJob(name, query) =>
      if query == None { return [], 0, true; }
      anomalies, tested := EvaluateLogRate(e, name, query.value, faults);
    case UnknownJob =>
      return [], 0, true;
  }

  function SufferedByBatch(e: Evaluator, faults: BatchFaults): BatchFaults { (i: nat) => SufferedBy(e, faults(i)) }

  function JobFails(): Job -> bool { (job: Job) => Fails(job) }

  method ProcessJobs(e: Evaluator, jobs: seq<Job>, faults: BatchFaults, suppressed: Anomaly -> bool)
    returns (anomalies: seq<Anomaly>, tested: nat, errors: nat)
    modifies e.Footprint()
    ensures Outcome(e.Held(), anomalies, tested) ==
            Batch(e.Cfg(), e.KeyingUsed(), old(e.Held()), jobs, SufferedByBatch(e, faults), Not(suppressed))
    ensures errors == Count(JobFails(), jobs)
  {
    anomalies, tested, errors := [], 0, 0;
    for i := 0 to |jobs|
      invariant Outcome(e.Held(), anomalies, tested) ==
                Batch(e.Cfg(), e.KeyingUsed(), old(e.Held()), jobs[..i], SufferedByBatch(e, faults), Not(suppressed))
      invariant errors == Count(JobFails(), jobs[..i])
    {
      BatchOneMore(e.Cfg(), e.KeyingUsed(), old(e.Held()), jobs, i, SufferedByBatch(e, faults), Not(suppressed),
                   Outcome(e.Held(), anomalies, tested));
      CountOneMore(JobFails(), jobs, i);
      var found, testedHere, failed := ProcessJob(e, jobs[i], faults(i));
      tested := tested + testedHere;
      if failed {
        errors := errors + 1;
        continue;
      }
      var kept := Unsuppressed(found, suppressed);
      anomalies := anomalies + kept;
    }
    assert jobs[..|jobs|] == jobs;
  }

  // ----- the controller -----

  lemma {:induction false} LogJobsAre(rules: seq<LogRule>, answers: nat -> Query, dispatched: set<int>)
    requires forall i :: i in dispatched <==> 0 <= i < |rules| && !rules[i].isPatternMatch
    ensures |LogJobs(rules, answers)| == |dispatched|
    ensures forall i: nat :: i in dispatched ==> LogJob(rules[i].name, answers(i)) in LogJobs(rules, answers)
  {
    if rules == [] {
      assert forall i :: i !in dispatched;
      assert dispatched == {};
    } else {
      var n := |rules| - 1;
      LogJobsAre(rules[..n], answers, dispatched - {n});
    }
  }

  // One job for every static and every adaptive rule, and for the log rules that do not
  // match patterns.
  lemma ControllerJobsAre(rules: Rules, data: Data)
    ensures var jobs, s, a := ControllerJobs(rules, data), |rules.statics|, |rules.adaptives|;
            && |jobs| == s + a + |set i | 0 <= i < |rules.logs| && !rules.logs[i].isPatternMatch|
            && (forall i: nat :: i < s ==> jobs[i] == StaticJob(rules.statics[i], data.statics(i)))
            && (forall i: nat :: i < a ==> jobs[s + i] == AdaptiveJob(rules.adaptives[i], data.adaptives(i)))
            && (forall i: nat :: i < |rules.logs| && !rules.logs[i].isPatternMatch ==>
                  LogJob(rules.logs[i].name, data.logs(i)) in jobs)
  {
    LogJobsAre(rules.logs, data.logs, set i | 0 <= i < |rules.logs| && !rules.logs[i].isPatternMatch);
  }

  method BuildJobBatch(rules: Rules, data: Data) returns (jobs: seq<Job>)
    ensures jobs == ControllerJobs(rules, data)
  {
    jobs := [];
    for i := 0 to |rules.statics|
      invariant jobs == StaticJobs(rules.statics, data.statics)[..i]
    {
      jobs := jobs + [StaticJob(rules.statics[i], data.statics(i))];
    }
    var done := jobs;
    assert done == StaticJobs(rules.statics, data.statics);
    for i := 0 to |rules.adaptives|
      invariant jobs == done + AdaptiveJobs(rules.adaptives, data.adaptives)[..i]
    {
      jobs := jobs + [AdaptiveJob(rules.adaptives[i], data.adaptives(i))];
    }
    done := jobs;
    for i := 0 to |rules.logs|
      invariant jobs == done + LogJobs(rules.logs[..i], data.logs)
    {
      assert rules.logs[..i + 1][..i] == rules.logs[..i];
      if rules.logs[i].isPatternMatch { continue; }
      jobs := jobs + [LogJob(rules.logs[i].name, data.logs(i))];
    }
    assert rules.logs[..|rules.logs|] == rules.logs;
  }

  // What one cycle makes of the answers to its queries.
  function CycleOutcome(cfg: Config, m: Baselines, rules: Rules, data: Data, faults: BatchFaults,
                        suppressed: Anomaly -> bool): Outcome {
    Batch(cfg, ProductionKeying(cfg), m, ControllerJobs(rules, data), faults, Not(suppressed))
  }

  // How the call to the worker ends: with an answer, or without one after the worker has
  // done some of the jobs.  It may never have received them, or have done them all.
  datatype Call = Answered | Unanswered(done: nat)

  function Done(call: Call, jobs: seq<Job>): seq<Job> {
    if call.Unanswered? && call.done < |jobs| then jobs[..call.done] else jobs
  }

  lemma NothingPasses(policy: Policy, tested: int)
    ensures Passed(policy, [], tested) == []
  {
  }

  // The anomalies one cycle hands to the correlator.  Without an answer there are none, and
  // the baselines are those the jobs that were done have left.
  method RunCycle(store: Store, rules: Rules, data: Data, faults: BatchFaults, suppressed: Anomaly -> bool,
                  policy: Policy, call: Call) returns (accepted: seq<Anomaly>)
    requires policy.fdr.target > 0.0
    modifies store
    ensures var jobs := Done(call, ControllerJobs(rules, data));
            var o := Batch(store.cfg, ProductionKeying(store.cfg), old(store.redis), jobs,
                           SufferedByBatch(Production(store), faults), Not(suppressed));
            && store.redis == o.baselines
            && (call.Unanswered? ==> accepted == [])
            && (call.Answered? ==>
                  && o == CycleOutcome(store.cfg, old(store.redis), rules, data,
                                       SufferedByBatch(Production(store), faults), suppressed)
                  && multiset(accepted) == multiset(Passed(policy, o.anomalies, o.tested)))
      ensures forall a :: a in accepted && a.detector.Adaptive? && a.metric in policy.directions ==>
                && (policy.directions[a.metric] == UpBad ==> a.value >= a.mean)
                && (policy.directions[a.metric] == DownBad ==> a.value <= a.mean)
  {
    var e := Production(store);
    var jobs := BuildJobBatch(rules, data);
    if |jobs| == 0 {
      NothingPasses(policy, 0);
      return [];
    }
    var anomalies, tested, errors := ProcessJobs(e, Done(call, jobs), faults, suppressed);
    if call.Unanswered? { return []; }
    var dropped;
    accepted, dropped := PostFilter(policy, anomalies, tested);
  }

  // In every cycle, whatever fails or is suppressed, the direction and floor filters let
  // nothing through the discovery rate that would not have passed without them.
  lemma CycleScreensSoundly(cfg: Config, m: Baselines, rules: Rules, data: Data, faults: BatchFaults,
                            suppressed: Anomaly -> bool, policy: Policy)
    ensures var o := CycleOutcome(cfg, m, rules, data, faults, suppressed);
            multiset(Passed(policy, o.anomalies, o.tested)) <=
            multiset(Screened(policy, Surviving(policy.fdr.target, policy.pvalue, o.anomalies, o.tested)))
  {
    var o := CycleOutcome(cfg, m, rules, data, faults, suppressed);
    BatchFamilyCoversFired(cfg, ProductionKeying(cfg), m, ControllerJobs(rules, data), faults, Not(suppressed));
    ScreeningCreatesNothing(policy, o.anomalies, o.tested);
  }

  // ----- a tick of the replay -----

  function TickOutcome(cfg: Config, m: Baselines, rules: Rules, data: Data): Outcome {
    Batch(cfg, ReplayKeying(), m, ReplayJobs(rules, data), NoBatchFaults(), Everything())
  }

  predicate NoneSucceeds(data: Data, n: nat) {
    forall i: nat :: i < n ==> data.adaptives(i) == None
  }

  // The tick is lost: there are adaptive rules and either none of their queries succeeds or
  // the first three fail, after which the others are not tried.
  predicate Lost(rules: Rules, data: Data) {
    var n := |rules.adaptives|;
    n > 0 && (NoneSucceeds(data, n) || (n >= 3 && NoneSucceeds(data, 3)))
  }

  // ----- batches in pieces -----

  // Static rules leave the baselines alone, count no test, and find the same from any.
  lemma {:induction false} StaticBatch(cfg: Config, f: Keying, m: Baselines, cfg': Config, f': Keying, m': Baselines,
                                       jobs: seq<Job>, spared: Anomaly -> bool)
    requires forall i :: 0 <= i < |jobs| ==> jobs[i].StaticJob?
    ensures var o := Batch(cfg, f, m, jobs, NoBatchFaults(), spared);
            var o' := Batch(cfg', f', m', jobs, NoBatchFaults(), spared);
            o.baselines == m && o.tested == 0 && o.anomalies == o'.anomalies
  {
    if jobs != [] {
      var n := |jobs| - 1;
      StaticBatch(cfg, f, m, cfg', f', m', jobs[..n], spared);
      assert jobs == jobs[..n] + [jobs[n]];
      BatchSnoc(cfg, f, m, jobs[..n], jobs[n], NoBatchFaults(), spared);
      BatchSnoc(cfg', f', m', jobs[..n], jobs[n], NoBatchFaults(), spared);
    }
  }

  ghost predicate JobsOver(u: set<Labels>, jobs: seq<Job>) {
    forall i :: 0 <= i < |jobs| ==>
      !jobs[i].UnknownJob? && (jobs[i].query.Some? ==> SamplesOver(u, jobs[i].query.value))
  }

  lemma JobParity(cfg: Config, f: Keying, u: set<Labels>, prod: Baselines, replay: Baselines, job: Job)
    requires InjectiveOn(f, u) && Mirrors(f, u, prod, replay)
    requires !job.UnknownJob? && (job.query.Some? ==> SamplesOver(u, job.query.value))
    ensures var p := JobOutcome(cfg, f, prod, job, Faultless());
            var r := JobOutcome(cfg, ReplayKeying(), replay, job, Faultless());
            p.anomalies == r.anomalies && p.tested == r.tested && Mirrors(f, u, p.baselines, r.baselines)
  {
    if (job.AdaptiveJob? || job.LogJob?) && job.query.Some? {
      DetectParity(cfg, f, u, prod, replay, job.name, job.query.value);
    }
  }

  // From baselines that mirror each other the same jobs find the same and leave
  // baselines that mirror each other.
  lemma {:induction false} BatchParity(cfg: Config, f: Keying, u: set<Labels>, prod: Baselines, replay: Baselines,
                                       jobs: seq<Job>, spared: Anomaly -> bool)
    requires InjectiveOn(f, u) && Mirrors(f, u, prod, replay) && JobsOver(u, jobs)
    ensures var p := Batch(cfg, f, prod, jobs, NoBatchFaults(), spared);
            var r := Batch(cfg, ReplayKeying(), replay, jobs, NoBatchFaults(), spared);
            p.anomalies == r.anomalies && p.tested == r.tested && Mirrors(f, u, p.baselines, r.baselines)
  {
    if jobs != [] {
      var n := |jobs| - 1;
      BatchParity(cfg, f, u, prod, replay, jobs[..n], spared);
      var p := Batch(cfg, f, prod, jobs[..n], NoBatchFaults(), spared);
      var r := Batch(cfg, ReplayKeying(), replay, jobs[..n], NoBatchFaults(), spared);
      JobParity(cfg, f, u, p.baselines, r.baselines, jobs[n]);
    }
  }

  // ----- parity of a cycle and a tick -----

  ghost predicate DataOver(u: set<Labels>, rules: Rules, data: Data) {
    JobsOver(u, ReplayJobs(rules, data))
  }

  ghost predicate NoPatternRules(rules: Rules) {
    forall i :: 0 <= i < |rules.logs| ==> !rules.logs[i].isPatternMatch
  }

  lemma {:induction false} SameLogJobs(logs: seq<LogRule>, answers: nat -> Query)
    requires forall i :: 0 <= i < |logs| ==> !logs[i].isPatternMatch
    ensures LogJobs(logs, answers) == AllLogJobs(logs, answers)
  {
    if logs != [] {
      SameLogJobs(logs[..|logs| - 1], answers);
    }
  }

  // The controller runs the static rules first, the replay the adaptive ones: the same
  // anomalies in another order.
  lemma BatchesDifferInOrder(cfg: Config, f: Keying, m: Baselines, a: seq<Job>, s: seq<Job>, l: seq<Job>,
                             spared: Anomaly -> bool)
    requires forall i :: 0 <= i < |s| ==> s[i].StaticJob?
    ensures var first := Batch(cfg, f, m, s + a + l, NoBatchFaults(), spared);
            var second := Batch(cfg, f, m, a + s + l, NoBatchFaults(), spared);
            && first.baselines == second.baselines && first.tested == second.tested
            && multiset(first.anomalies) == multiset(second.anomalies)
  {
    var afterA := Batch(cfg, f, m, a, NoBatchFaults(), spared);
    StaticBatch(cfg, f, m, cfg, f, afterA.baselines, s, spared);
    StaticBatch(cfg, f, afterA.baselines, cfg, f, m, s, spared);
    FaultlessConcat(cfg, f, m, s, a, spared);
    FaultlessConcat(cfg, f, m, a, s, spared);
    FaultlessConcat(cfg, f, m, s + a, l, spared);
    FaultlessConcat(cfg, f, m, a + s, l, spared);
  }

  lemma OutcomesAgree(cfg: Config, u: set<Labels>, prod: Baselines, replay: Baselines, rules: Rules, data: Data)
    requires InjectiveOn(ProductionKeying(cfg), u) && Mirrors(ProductionKeying(cfg), u, prod, replay)
    requires DataOver(u, rules, data) && NoPatternRules(rules)
    ensures var p := Batch(cfg, ProductionKeying(cfg), prod, ControllerJobs(rules, data), NoBatchFaults(),
                           Everything());
            var r := TickOutcome(cfg, replay, rules, data);
            && multiset(p.anomalies) == multiset(r.anomalies) && p.tested == r.tested
            && Mirrors(ProductionKeying(cfg), u, p.baselines, r.baselines)
  {
    var a := AdaptiveJobs(rules.adaptives, data.adaptives);
    var s := StaticJobs(rules.statics, data.statics);
    var l := AllLogJobs(rules.logs, data.logs);
    SameLogJobs(rules.logs, data.logs);
    BatchesDifferInOrder(cfg, ProductionKeying(cfg), prod, a, s, l, Everything());
    BatchParity(cfg, ProductionKeying(cfg), u, prod, replay, a + s + l, Everything());
  }

  function Nothing(): Anomaly -> bool { (a: Anomaly) => false }

  lemma {:induction false} SameBatch(cfg: Config, f: Keying, m: Baselines, jobs: seq<Job>, spared: Anomaly -> bool,
                                     spared': Anomaly -> bool)
    requires forall a: Anomaly :: spared(a) <==> spared'(a)
    ensures Batch(cfg, f, m, jobs, NoBatchFaults(), spared) == Batch(cfg, f, m, jobs, NoBatchFaults(), spared')
  {
    if jobs != [] {
      var n := |jobs| - 1;
      SameBatch(cfg, f, m, jobs[..n], spared, spared');
      var before := Batch(cfg, f, m, jobs[..n], NoBatchFaults(), spared);
      FilterSame(spared, spared', JobOutcome(cfg, f, before.baselines, jobs[n], Faultless()).anomalies);
    }
  }

  // With nothing suppressed, a cycle finds what a tick finds and passes on what it passes
  // on, and the baselines of the two still mirror each other.
  lemma CycleParity(cfg: Config, u: set<Labels>, prod: Baselines, replay: Baselines, rules: Rules, data: Data,
                    policy: Policy)
    requires InjectiveOn(ProductionKeying(cfg), u) && Mirrors(ProductionKeying(cfg), u, prod, replay)
    requires DataOver(u, rules, data) && NoPatternRules(rules)
    ensures var p := CycleOutcome(cfg, prod, rules, data, NoBatchFaults(), Nothing());
            var r := TickOutcome(cfg, replay, rules, data);
            && multiset(Passed(policy, p.anomalies, p.tested)) == multiset(Passed(policy, r.anomalies, r.tested))
            && Mirrors(ProductionKeying(cfg), u, p.baselines, r.baselines)
  {
    var jobs := ControllerJobs(rules, data);
    SameBatch(cfg, ProductionKeying(cfg), prod, jobs, Not(Nothing()), Everything());
    OutcomesAgree(cfg, u, prod, replay, rules, data);
    var p := CycleOutcome(cfg, prod, rules, data, NoBatchFaults(), Nothing());
    var r := TickOutcome(cfg, replay, rules, data);
    PassedRespectsPermutation(policy, p.anomalies, r.anomalies, p.tested);
  }
}
