// The replay: ticks over a window, each running the rules on the in-memory baselines.
module Engine {
  import opened Workload
  import opened Sequences
  import opened Baseline
  import opened Anomalies
  import opened Filters
  import opened Fdr
  import opened Detector
  import opened Jobs
  import opened Cycle
  import opened Parity

  const SYSTEMIC_FAILURE_THRESHOLD := 3

  function SamplesOr(query: Query): seq<Sample> { if query.Some? then query.value else [] }

  // How many adaptive queries a lost tick tries.
  function TriedWhenLost(rules: Rules, data: Data): nat {
    if |rules.adaptives| >= 3 && NoneSucceeds(data, 3) then 3 else |rules.adaptives|
  }

  // The report keeps at most max anomalies, or all when max is not positive.
  function Capped(max: int, s: seq<Anomaly>): seq<Anomaly> {
    if 0 < max < |s| then s[..max] else s
  }

  // An adaptive rule whose query failed is evaluated on no samples, which finds nothing.
  lemma AdaptiveJobDetects(cfg: Config, m: Baselines, name: string, query: Query)
    ensures JobOutcome(cfg, ReplayKeying(), m, AdaptiveJob(name, query), Faultless()) ==
            Detect(cfg, ReplayKeying(), m, name, SamplesOr(query), Faultless())
  {
  }

  // The first i queries of a tick, each answered or failed.
  ghost predicate Queried(rules: Rules, data: Data, i: nat, perMetric: seq<seq<Sample>>, failed: nat, succeeded: nat) {
    && i <= |rules.adaptives| == |perMetric| && failed + succeeded == i
    && (succeeded == 0 <==> NoneSucceeds(data, i))
    && failed == Count(JobFails(), AdaptiveJobs(rules.adaptives, data.adaptives)[..i])
    && (forall j :: 0 <= j < i ==> perMetric[j] == SamplesOr(data.adaptives(j)))
    && (forall j :: i <= j < |perMetric| ==> perMetric[j] == [])
  }

  lemma QueryOneMore(rules: Rules, data: Data, i: nat, perMetric: seq<seq<Sample>>, failed: nat, succeeded: nat)
    requires i < |rules.adaptives| && Queried(rules, data, i, perMetric, failed, succeeded)
    ensures data.adaptives(i) == None ==> Queried(rules, data, i + 1, perMetric, failed + 1, succeeded)
    ensures data.adaptives(i).Some? ==>
              Queried(rules, data, i + 1, perMetric[i := data.adaptives(i).value], failed, succeeded + 1)
  {
    CountOneMore(JobFails(), AdaptiveJobs(rules.adaptives, data.adaptives), i);
    assert NoneSucceeds(data, i + 1) <==> NoneSucceeds(data, i) && data.adaptives(i) == None;
  }

  // The first i queries have not all failed, if they are enough to give up.
  ghost predicate GoesOn(data: Data, i: nat) {
    i >= SYSTEMIC_FAILURE_THRESHOLD ==> !NoneSucceeds(data, SYSTEMIC_FAILURE_THRESHOLD)
  }

  lemma NothingQueried(rules: Rules, data: Data, perMetric: seq<seq<Sample>>)
    requires |perMetric| == |rules.adaptives| && forall j :: 0 <= j < |perMetric| ==> perMetric[j] == []
    ensures Queried(rules, data, 0, perMetric, 0, 0) && GoesOn(data, 0)
  {
    assert AdaptiveJobs(rules.adaptives, data.adaptives)[..0] == [];
  }

  lemma NotAtOnce(rules: Rules, data: Data, i: nat, perMetric: seq<seq<Sample>>, failed: nat, succeeded: nat)
    requires i < |rules.adaptives| && Queried(rules, data, i + 1, perMetric, failed, succeeded) && GoesOn(data, i)
    requires !(failed >= SYSTEMIC_FAILURE_THRESHOLD && i + 1 == failed)
    ensures GoesOn(data, i + 1)
  {
  }

  // How the adaptive queries of a tick end: it is lost, or no answer is.
  ghost predicate QueriesEnd(rules: Rules, data: Data, perMetric: seq<seq<Sample>>, failed: nat, succeeded: nat) {
    && ((|rules.adaptives| > 0 && succeeded == 0) <==> Lost(rules, data))
    && (Lost(rules, data) ==> failed == TriedWhenLost(rules, data))
    && (!Lost(rules, data) ==>
          && failed == Count(JobFails(), AdaptiveJobs(rules.adaptives, data.adaptives))
          && |perMetric| == |rules.adaptives|
          && forall i :: 0 <= i < |perMetric| ==> perMetric[i] == SamplesOr(data.adaptives(i)))
  }

  lemma EndsEarly(rules: Rules, data: Data, i: nat, perMetric: seq<seq<Sample>>, failed: nat, succeeded: nat)
    requires i < |rules.adaptives| && Queried(rules, data, i + 1, perMetric, failed, succeeded) && GoesOn(data, i)
    requires failed >= SYSTEMIC_FAILURE_THRESHOLD && i + 1 == failed
    ensures QueriesEnd(rules, data, perMetric, failed, succeeded)
  {
  }

  lemma AllQueried(rules: Rules, data: Data, perMetric: seq<seq<Sample>>, failed: nat, succeeded: nat)
    requires Queried(rules, data, |rules.adaptives|, perMetric, failed, succeeded) && GoesOn(data, |rules.adaptives|)
    ensures QueriesEnd(rules, data, perMetric, failed, succeeded)
  {
    var jobs := AdaptiveJobs(rules.adaptives, data.adaptives);
    assert jobs[..|rules.adaptives|] == jobs;
  }

  // The part of an engine's state that a run is accounted in.
  datatype Progressed = Progressed(processed: nat, skipped: nat, series: Baselines, anomalies: seq<Anomaly>)

  // ----- what a run amounts to -----

  // Division and conversion as the program does them, rounding towards zero.
  function TruncatedQuotient(a: int, b: int): int
    requires b > 0
  {
    if a >= 0 then a / b else -((-a) / b)
  }

  function Truncate(x: real): (r: int)
    ensures x >= 0.0 ==> r as real <= x < (r + 1) as real
    ensures x <= 0.0 ==> (r - 1) as real < x <= r as real
  {
    if x >= 0.0 then x.Floor else -((-x).Floor)
  }

  // The whole steps in the window.
  function TickCount(from: int, to: int, step: int): nat
    requires step > 0
  {
    if to < from then 0 else (to - from) / step
  }

  function TickTime(from: int, step: int, i: nat): int { from + (i + 1) * step }

  lemma TickTimeAdvances(from: int, step: int, i: nat)
    requires i > 0
    ensures TickTime(from, step, i) == TickTime(from, step, i - 1) + step
  {
  }

  lemma PositiveFactor(x: int, b: int)
    requires b > 0 && x * b > 0
    ensures x > 0
  {
  }

  lemma QuotientAtLeast(a: int, b: int, q: int)
    requires b > 0 && q * b <= a
    ensures a / b >= q
  {
    var r := a / b;
    assert a == r * b + a % b;
    assert (r + 1 - q) * b == r * b + b - q * b;
    PositiveFactor(r + 1 - q, b);
  }

  lemma TickIsInWindow(from: int, to: int, step: int, i: nat)
    requires step > 0 && TickTime(from, step, i) <= to
    ensures i < TickCount(from, to, step) == TruncatedQuotient(to - from, step)
  {
    assert (i + 1) * step >= step;
    QuotientAtLeast(to - from, step, i + 1);
  }

  lemma QuotientBelow(a: int, b: int, q: int)
    requires b > 0 && a < q * b
    ensures a / b < q
  {
    var r := a / b;
    assert a == r * b + a % b;
    assert (q - r) * b == q * b - r * b;
    PositiveFactor(q - r, b);
  }

  // As many ticks as fit.
  lemma LastTick(from: int, to: int, step: int, n: nat)
    requires step > 0 && n == TickCount(from, to, step)
    ensures (n > 0 ==> from + n * step <= to) && from + (n + 1) * step > to
  {
    if to >= from {
      assert to - from == n * step + (to - from) % step;
    }
  }

  lemma WindowIsExhausted(from: int, to: int, step: int, i: nat)
    requires step > 0 && TickTime(from, step, i) > to && i <= TickCount(from, to, step)
    ensures i == TickCount(from, to, step)
  {
    if to >= from {
      QuotientBelow(to - from, step, i + 1);
    }
  }

  lemma PercentIsSane(i: nat, total: int)
    requires 0 < i <= total
    ensures 0 <= i * 100 / total <= 100
  {
    QuotientAtLeast(i * 100, total, 0);
    QuotientBelow(i * 100, total, 101);
  }

  // A tick warms up that comes before either span has passed.
  function WarmupTicks(from: int, to: int, step: int, fraction: real, warmUpSamples: int): nat -> bool {
    (i: nat) =>
      || TickTime(from, step, i) < from + warmUpSamples * step
      || TickTime(from, step, i) < from + Truncate((to - from) as real * fraction)
  }

  function LostTicks(rules: Rules, data: nat -> Data, k: nat): nat {
    if k == 0 then 0 else LostTicks(rules, data, k - 1) + if Lost(rules, data(k - 1)) then 1 else 0
  }

  function HeldAfter(cfg: Config, rules: Rules, data: Data, m: Baselines): Baselines {
    if Lost(rules, data) then m else TickOutcome(cfg, m, rules, data).baselines
  }

  function ReplayHeld(cfg: Config, rules: Rules, data: nat -> Data, m: Baselines, k: nat): Baselines {
    if k == 0 then m else HeldAfter(cfg, rules, data(k - 1), ReplayHeld(cfg, rules, data, m, k - 1))
  }

  // What tick i reports when it comes on the given baselines.
  ghost function TickReports(cfg: Config, rules: Rules, policy: Policy, data: Data, m: Baselines,
                             isWarmup: bool): multiset<Anomaly> {
    if Lost(rules, data) || isWarmup then multiset{}
    else
      var o := TickOutcome(cfg, m, rules, data);
      multiset(Passed(policy, o.anomalies, o.tested))
  }

  ghost function Reported(cfg: Config, rules: Rules, policy: Policy, data: nat -> Data, m: Baselines,
                          isWarmup: nat -> bool, k: nat): multiset<Anomaly> {
    if k == 0 then multiset{}
    else
      Reported(cfg, rules, policy, data, m, isWarmup, k - 1) +
      TickReports(cfg, rules, policy, data(k - 1), ReplayHeld(cfg, rules, data, m, k - 1), isWarmup(k - 1))
  }

  // Only which of the ticks warm up matters.
  lemma {:induction false} ReportedSame(cfg: Config, rules: Rules, policy: Policy, data: nat -> Data, m: Baselines,
                                        isWarmup: nat -> bool, isWarmup': nat -> bool, k: nat)
    requires forall i: nat :: i < k ==> (isWarmup(i) <==> isWarmup'(i))
    ensures Reported(cfg, rules, policy, data, m, isWarmup, k) == Reported(cfg, rules, policy, data, m, isWarmup', k)
  {
    if k > 0 {
      ReportedSame(cfg, rules, policy, data, m, isWarmup, isWarmup', k - 1);
    }
  }

  lemma CappedTwice(max: int, s: seq<Anomaly>, t: seq<Anomaly>)
    ensures Capped(max, Capped(max, s) + t) == Capped(max, s + t)
  {
  }

  // ----- a run against production -----

  // The production baselines after k cycles on the same answers.
  function ProductionHeld(cfg: Config, rules: Rules, data: nat -> Data, k: nat): Baselines {
    if k == 0 then map[]
    else CycleOutcome(cfg, ProductionHeld(cfg, rules, data, k - 1), rules, data(k - 1), NoBatchFaults(),
                      Nothing()).baselines
  }

  lemma {:induction false} RunMirrors(cfg: Config, u: set<Labels>, rules: Rules, policy: Policy, data: nat -> Data,
                                      k: nat)
    requires InjectiveOn(ProductionKeying(cfg), u) && NoPatternRules(rules)
    requires forall i: nat :: i < k ==> DataOver(u, rules, data(i)) && !Lost(rules, data(i))
    ensures Mirrors(ProductionKeying(cfg), u, ProductionHeld(cfg, rules, data, k),
                    ReplayHeld(cfg, rules, data, map[], k))
  {
    if k > 0 {
      RunMirrors(cfg, u, rules, policy, data, k - 1);
      CycleParity(cfg, u, ProductionHeld(cfg, rules, data, k - 1), ReplayHeld(cfg, rules, data, map[], k - 1),
                  rules, data(k - 1), policy);
    }
  }

  // In a run from empty baselines that loses no tick, every tick after the warm-up reports
  // exactly the anomalies the production cycle on the same answers accepts.
  lemma RunParity(cfg: Config, u: set<Labels>, rules: Rules, policy: Policy, data: nat -> Data, k: nat)
    requires InjectiveOn(ProductionKeying(cfg), u) && NoPatternRules(rules)
    requires forall i: nat :: i <= k ==> DataOver(u, rules, data(i)) && !Lost(rules, data(i))
    ensures var p := CycleOutcome(cfg, ProductionHeld(cfg, rules, data, k), rules, data(k), NoBatchFaults(), Nothing());
            TickReports(cfg, rules, policy, data(k), ReplayHeld(cfg, rules, data, map[], k), false) ==
            multiset(Passed(policy, p.anomalies, p.tested))
  {
    RunMirrors(cfg, u, rules, policy, data, k);
    CycleParity(cfg, u, ProductionHeld(cfg, rules, data, k), ReplayHeld(cfg, rules, data, map[], k),
                rules, data(k), policy);
  }

  ghost predicate AllAdaptive(s: seq<Anomaly>) { forall i :: 0 <= i < |s| ==> s[i].detector.Adaptive? }

  lemma FindingsAreAdaptive(s: seq<Anomaly>, metric: string, labels: Labels, r: Option<Result>)
    requires AllAdaptive(s)
    ensures AllAdaptive(s + Findings(metric, labels, r))
  {
  }

  lemma {:induction false} DetectIsAdaptive(cfg: Config, f: Keying, m: Baselines, metric: string, samples: seq<Sample>)
    ensures AllAdaptive(Detect(cfg, f, m, metric, samples, Faultless()).anomalies)
  {
    if samples != [] {
      var n := |samples| - 1;
      var o := Detect(cfg, f, m, metric, samples[..n], Faultless());
      DetectIsAdaptive(cfg, f, m, metric, samples[..n]);
      FindingsAreAdaptive(o.anomalies, metric, samples[n].labels,
                          Answer(cfg, o.baselines, Key(metric, f(samples[n].labels)), samples[n].value, NoFault));
    }
  }

  lemma JobIsAdaptive(cfg: Config, f: Keying, m: Baselines, job: Job)
    requires job.AdaptiveJob? || job.LogJob?
    ensures AllAdaptive(JobOutcome(cfg, f, m, job, Faultless()).anomalies)
  {
    if job.query.Some? {
      DetectIsAdaptive(cfg, f, m, job.name, job.query.value);
    }
  }

  lemma KeepEverything(s: seq<Anomaly>)
    ensures Filter(Everything(), s) == s
  {
    FilterIsPrefix(Everything(), s, |s|);
  }

  lemma {:induction false} BatchIsAdaptive(cfg: Config, f: Keying, m: Baselines, jobs: seq<Job>)
    requires forall i :: 0 <= i < |jobs| ==> jobs[i].AdaptiveJob? || jobs[i].LogJob?
    ensures Fired(Batch(cfg, f, m, jobs, NoBatchFaults(), Everything()).anomalies) ==
            Batch(cfg, f, m, jobs, NoBatchFaults(), Everything()).anomalies
  {
    if jobs != [] {
      var n := |jobs| - 1;
      var before := Batch(cfg, f, m, jobs[..n], NoBatchFaults(), Everything());
      BatchIsAdaptive(cfg, f, m, jobs[..n]);
      var o := JobOutcome(cfg, f, before.baselines, jobs[n], Faultless());
      JobIsAdaptive(cfg, f, before.baselines, jobs[n]);
      KeepEverything(o.anomalies);
      FilterConcat(IsAdaptive(), before.anomalies, o.anomalies);
      FilterIsPrefix(IsAdaptive(), o.anomalies, |o.anomalies|);
    }
  }

  lemma {:induction false} StaticIsNotAdaptive(cfg: Config, f: Keying, m: Baselines, jobs: seq<Job>)
    requires forall i :: 0 <= i < |jobs| ==> jobs[i].StaticJob?
    ensures Fired(Batch(cfg, f, m, jobs, NoBatchFaults(), Everything()).anomalies) == []
  {
    if jobs != [] {
      var n := |jobs| - 1;
      var before := Batch(cfg, f, m, jobs[..n], NoBatchFaults(), Everything());
      StaticIsNotAdaptive(cfg, f, m, jobs[..n]);
      var o := JobOutcome(cfg, f, before.baselines, jobs[n], Faultless());
      KeepEverything(o.anomalies);
      FilterConcat(IsAdaptive(), before.anomalies, o.anomalies);
      FilterIsPrefix(IsAdaptive(), o.anomalies, 0);
    }
  }

  // A tick's outcome, by the kind of rule.
  lemma TickInPieces(cfg: Config, m: Baselines, rules: Rules, data: Data)
    ensures var a := Batch(cfg, ReplayKeying(), m, AdaptiveJobs(rules.adaptives, data.adaptives), NoBatchFaults(),
                           Everything());
            var s := Batch(cfg, ReplayKeying(), a.baselines, StaticJobs(rules.statics, data.statics), NoBatchFaults(),
                           Everything());
            var l := Batch(cfg, ReplayKeying(), a.baselines, AllLogJobs(rules.logs, data.logs), NoBatchFaults(),
                           Everything());
            && TickOutcome(cfg, m, rules, data) ==
               Outcome(l.baselines, a.anomalies + s.anomalies + l.anomalies, a.tested + l.tested)
            && |Fired(TickOutcome(cfg, m, rules, data).anomalies)| == |a.anomalies| + |l.anomalies|
    ensures Count(JobFails(), ReplayJobs(rules, data)) ==
            Count(JobFails(), AdaptiveJobs(rules.adaptives, data.adaptives)) +
            Count(JobFails(), StaticJobs(rules.statics, data.statics)) +
            Count(JobFails(), AllLogJobs(rules.logs, data.logs))
  {
    var aj := AdaptiveJobs(rules.adaptives, data.adaptives);
    var sj := StaticJobs(rules.statics, data.statics);
    var lj := AllLogJobs(rules.logs, data.logs);
    var a := Batch(cfg, ReplayKeying(), m, aj, NoBatchFaults(), Everything());
    var s := Batch(cfg, ReplayKeying(), a.baselines, sj, NoBatchFaults(), Everything());
    var l := Batch(cfg, ReplayKeying(), a.baselines, lj, NoBatchFaults(), Everything());
    StaticBatch(cfg, ReplayKeying(), a.baselines, cfg, ReplayKeying(), a.baselines, sj, Everything());
    FaultlessConcat(cfg, ReplayKeying(), m, aj, sj, Everything());
    FaultlessConcat(cfg, ReplayKeying(), m, aj + sj, lj, Everything());
    CountConcat(JobFails(), aj, sj);
    CountConcat(JobFails(), aj + sj, lj);
    BatchIsAdaptive(cfg, ReplayKeying(), m, aj);
    StaticIsNotAdaptive(cfg, ReplayKeying(), a.baselines, sj);
    BatchIsAdaptive(cfg, ReplayKeying(), a.baselines, lj);
    FilterConcat(IsAdaptive(), a.anomalies, s.anomalies);
    FilterConcat(IsAdaptive(), a.anomalies + s.anomalies, l.anomalies);
  }

  // ----- the engine -----

  class ReplayEngine {
    const rules: Rules
    const policy: Policy
    const maxAnomalies: int
    const mem: InMemStore

    var ticksProcessed: nat
    var ticksSkipped: nat
    var queryErrors: nat
    var warmupSkipped: nat
    var directionFiltered: nat
    var floorFiltered: nat
    var fdrRejected: nat
    var anomalies: seq<Anomaly>

    constructor (cfg: Config, rules: Rules, policy: Policy, maxAnomalies: int)
      ensures this.rules == rules && this.policy == policy && this.maxAnomalies == maxAnomalies
      ensures fresh(mem) && mem.cfg == cfg && mem.series == map[]
      ensures ticksProcessed == ticksSkipped == queryErrors == warmupSkipped == 0
      ensures directionFiltered == floorFiltered == fdrRejected == 0 && anomalies == []
    {
      this.rules, this.policy, this.maxAnomalies := rules, policy, maxAnomalies;
      mem := new InMemStore(cfg);
      ticksProcessed, ticksSkipped, queryErrors, warmupSkipped := 0, 0, 0, 0;
      directionFiltered, floorFiltered, fdrRejected := 0, 0, 0;
      anomalies := [];
    }

    method AddAnomalies(accepted: seq<Anomaly>)
      requires 0 < maxAnomalies ==> |anomalies| <= maxAnomalies
      modifies this`anomalies
      ensures anomalies == Capped(maxAnomalies, old(anomalies) + accepted)
      ensures anomalies <= old(anomalies) + accepted
      ensures |anomalies| == |old(anomalies) + accepted| || |anomalies| == maxAnomalies < |old(anomalies) + accepted|
      ensures 0 < maxAnomalies ==> |anomalies| <= maxAnomalies
    {
      for i := 0 to |accepted|
        invariant anomalies == Capped(maxAnomalies, old(anomalies) + accepted[..i])
      {
        assert old(anomalies) + accepted[..i + 1] == (old(anomalies) + accepted[..i]) + [accepted[i]];
        if maxAnomalies > 0 && |anomalies| >= maxAnomalies { continue; }
        anomalies := anomalies + [accepted[i]];
      }
      assert accepted[..|accepted|] == accepted;
    }

    // One adaptive query: its samples, or a failure more.
    method QueryOne(data: Data, i: nat, before: seq<seq<Sample>>, failedBefore: nat, succeededBefore: nat)
        returns (perMetric: seq<seq<Sample>>, failed: nat, succeeded: nat)
      requires i < |rules.adaptives| && Queried(rules, data, i, before, failedBefore, succeededBefore)
      ensures Queried(rules, data, i + 1, perMetric, failed, succeeded)
    {
      perMetric, failed, succeeded := before, failedBefore, succeededBefore;
      QueryOneMore(rules, data, i, perMetric, failed, succeeded);
      match data.adaptives(i)
      case None =>
        failed := failed + 1;
      case Some(samples) =>
        perMetric := perMetric[i := samples];
        succeeded := succeeded + 1;
    }

    // Runs the adaptive queries of a tick.  One that fails is left out, unless the tick
    // opens with three failures.
    method QueryAdaptives(data: Data) returns (perMetric: seq<seq<Sample>>, failed: nat, succeeded: nat)
      ensures QueriesEnd(rules, data, perMetric, failed, succeeded)
      ensures succeeded == 0 <==> forall i: nat :: i < 3 && i < |rules.adaptives| ==> data.adaptives(i) == None
    {
      var n := |rules.adaptives|;
      perMetric, failed, succeeded := seq(n, i => []), 0, 0;
      NothingQueried(rules, data, perMetric);
      var i := 0;
      while i < n
        invariant i >= 0 && Queried(rules, data, i, perMetric, failed, succeeded) && GoesOn(data, i)
      {
        perMetric, failed, succeeded := QueryOne(data, i, perMetric, failed, succeeded);
        if failed >= SYSTEMIC_FAILURE_THRESHOLD && i + 1 == failed {
          EndsEarly(rules, data, i, perMetric, failed, succeeded);
          return;
        }
        NotAtOnce(rules, data, i, perMetric, failed, succeeded);
        i := i + 1;
      }
      AllQueried(rules, data, perMetric, failed, succeeded);
    }

    method EvaluateAdaptive(name: string, ghost query: Query, samples: seq<Sample>)
        returns (found: seq<Anomaly>, tested: nat)
      requires samples == SamplesOr(query)
      modifies mem
      ensures Outcome(mem.series, found, tested) ==
              JobOutcome(mem.cfg, ReplayKeying(), old(mem.series), AdaptiveJob(name, query), Faultless())
      ensures Filter(Everything(), found) == found
    {
      AdaptiveJobDetects(mem.cfg, mem.series, name, query);
      ReplaySuffersNothing(Replay(mem), Faultless(), mem.cfg, mem.series, name, samples);
      found, tested := EvaluateMetricsAdaptive(Replay(mem), name, samples, Faultless());
      KeepEverything(found);
    }

    method EvaluateLog(name: string, samples: seq<Sample>) returns (found: seq<Anomaly>, tested: nat)
      modifies mem
      ensures Outcome(mem.series, found, tested) ==
              JobOutcome(mem.cfg, ReplayKeying(), old(mem.series), LogJob(name, Some(samples)), Faultless())
      ensures Filter(Everything(), found) == found
    {
      ReplaySuffersNothing(Replay(mem), Faultless(), mem.cfg, mem.series, name, samples);
      found, tested := EvaluateLogRate(Replay(mem), name, samples, Faultless());
      KeepEverything(found);
    }

    method EvaluateAdaptives(data: Data, perMetric: seq<seq<Sample>>) returns (found: seq<Anomaly>, tested: nat)
      requires |perMetric| == |rules.adaptives|
      requires forall i :: 0 <= i < |perMetric| ==> perMetric[i] == SamplesOr(data.adaptives(i))
      modifies mem
      ensures Outcome(mem.series, found, tested) ==
              Batch(mem.cfg, ReplayKeying(), old(mem.series), AdaptiveJobs(rules.adaptives, data.adaptives),
                    NoBatchFaults(), Everything())
    {
      ghost var jobs := AdaptiveJobs(rules.adaptives, data.adaptives);
      found, tested := [], 0;
      for i := 0 to |rules.adaptives|
        invariant Outcome(mem.series, found, tested) ==
                  Batch(mem.cfg, ReplayKeying(), old(mem.series), jobs[..i], NoBatchFaults(), Everything())
      {
        assert jobs[..i + 1] == jobs[..i] + [jobs[i]];
        BatchSnoc(mem.cfg, ReplayKeying(), old(mem.series), jobs[..i], jobs[i], NoBatchFaults(), Everything());
        var here, testedHere := EvaluateAdaptive(rules.adaptives[i], data.adaptives(i), perMetric[i]);
        found, tested := found + here, tested + testedHere;
      }
      assert jobs[..|jobs|] == jobs;
    }

    method EvaluateStatics(data: Data, isWarmup: bool) returns (found: seq<Anomaly>, failed: nat)
      ensures failed == Count(JobFails(), StaticJobs(rules.statics, data.statics))
      ensures found == if isWarmup then [] else
                Batch(mem.cfg, ReplayKeying(), mem.series, StaticJobs(rules.statics, data.statics),
                      NoBatchFaults(), Everything()).anomalies
    {
      ghost var jobs := StaticJobs(rules.statics, data.statics);
      found, failed := [], 0;
      for i := 0 to |rules.statics|
        invariant failed == Count(JobFails(), jobs[..i])
        invariant found == if isWarmup then [] else
                    Batch(mem.cfg, ReplayKeying(), mem.series, jobs[..i], NoBatchFaults(), Everything()).anomalies
      {
        CountOneMore(JobFails(), jobs, i);
        BatchOneMore(mem.cfg, ReplayKeying(), mem.series, jobs, i, NoBatchFaults(), Everything(),
                     Batch(mem.cfg, ReplayKeying(), mem.series, jobs[..i], NoBatchFaults(), Everything()));
        match data.statics(i)
        case None =>
          failed := failed + 1;
        case Some(samples) =>
          if !isWarmup {
            var here := EvaluateMetricsStatic(rules.statics[i], samples);
            KeepEverything(here);
            found := found + here;
          }
      }
      assert jobs[..|jobs|] == jobs;
    }

    method EvaluateLogs(data: Data) returns (found: seq<Anomaly>, tested: nat, failed: nat)
      modifies mem
      ensures failed == Count(JobFails(), AllLogJobs(rules.logs, data.logs))
      ensures Outcome(mem.series, found, tested) ==
              Batch(mem.cfg, ReplayKeying(), old(mem.series), AllLogJobs(rules.logs, data.logs),
                    NoBatchFaults(), Everything())
    {
      ghost var jobs := AllLogJobs(rules.logs, data.logs);
      found, tested, failed := [], 0, 0;
      for i := 0 to |rules.logs|
        invariant failed == Count(JobFails(), jobs[..i])
        invariant Outcome(mem.series, found, tested) ==
                  Batch(mem.cfg, ReplayKeying(), old(mem.series), jobs[..i], NoBatchFaults(), Everything())
      {
        CountOneMore(JobFails(), jobs, i);
        BatchOneMore(mem.cfg, ReplayKeying(), old(mem.series), jobs, i, NoBatchFaults(), Everything(),
                     Outcome(mem.series, found, tested));
        match data.logs(i)
        case None =>
          failed := failed + 1;
        case Some(samples) =>
          var here, testedHere := EvaluateLog(rules.logs[i].name, samples);
          found, tested := found + here, tested + testedHere;
      }
      assert jobs[..|jobs|] == jobs;
    }

    // The figures a tick leaves untouched.
    twostate predicate SameCounts()
      reads this
    {
      && warmupSkipped == old(warmupSkipped) && directionFiltered == old(directionFiltered)
      && floorFiltered == old(floorFiltered) && fdrRejected == old(fdrRejected)
      && anomalies == old(anomalies)
    }

    // Every rule on its samples, the adaptive ones first.  During the warm-up of the replay
    // the baselines learn and what fires is only counted.
    method EvaluateRules(data: Data, perMetric: seq<seq<Sample>>, isWarmup: bool)
      returns (tickAnomalies: seq<Anomaly>, tickTested: nat)
      requires |perMetric| == |rules.adaptives|
      requires forall i :: 0 <= i < |perMetric| ==> perMetric[i] == SamplesOr(data.adaptives(i))
      modifies this`queryErrors, this`warmupSkipped, mem
      ensures var o := TickOutcome(mem.cfg, old(mem.series), rules, data);
              && mem.series == o.baselines
              && (if isWarmup then
                    tickAnomalies == [] && tickTested == 0 && warmupSkipped == old(warmupSkipped) + |Fired(o.anomalies)|
                  else
                    tickAnomalies == o.anomalies && tickTested == o.tested && warmupSkipped == old(warmupSkipped))
      ensures queryErrors + Count(JobFails(), AdaptiveJobs(rules.adaptives, data.adaptives)) ==
              old(queryErrors) + Count(JobFails(), ReplayJobs(rules, data))
    {
      tickAnomalies, tickTested := [], 0;
      var found, tested := EvaluateAdaptives(data, perMetric);
      if !isWarmup {
        tickTested, tickAnomalies := tested, found;
      } else {
        warmupSkipped := warmupSkipped + |found|;
      }

      var breaches, staticFailed := EvaluateStatics(data, isWarmup);
      queryErrors := queryErrors + staticFailed;
      tickAnomalies := tickAnomalies + breaches;

      var logs, logsTested, logsFailed := EvaluateLogs(data);
      queryErrors := queryErrors + logsFailed;
      if !isWarmup {
        tickTested, tickAnomalies := tickTested + logsTested, tickAnomalies + logs;
      } else {
        warmupSkipped := warmupSkipped + |logs|;
      }

      TickInPieces(mem.cfg, old(mem.series), rules, data);
    }

    // Direction, floor and discovery rate, then the report.
    method FilterAndReport(tickAnomalies: seq<Anomaly>, tickTested: int) returns (ghost accepted: seq<Anomaly>)
      requires policy.fdr.target > 0.0
      requires 0 < maxAnomalies ==> |anomalies| <= maxAnomalies
      modifies this`directionFiltered, this`floorFiltered, this`fdrRejected, this`anomalies
      ensures multiset(accepted) == multiset(Passed(policy, tickAnomalies, tickTested))
      ensures anomalies == Capped(maxAnomalies, old(anomalies) + accepted)
      ensures |accepted| + directionFiltered + floorFiltered + fdrRejected ==
              |tickAnomalies| + old(directionFiltered) + old(floorFiltered) + old(fdrRejected)
    {
      var passed, dropped := PostFilter(policy, tickAnomalies, tickTested);
      directionFiltered := directionFiltered + dropped.direction;
      floorFiltered := floorFiltered + dropped.floor;
      fdrRejected := fdrRejected + dropped.fdr;
      AddAnomalies(passed);
      accepted := passed;
    }

    // The filters run when there is something to filter.
    method AcceptTick(tickAnomalies: seq<Anomaly>, tickTested: int) returns (ghost accepted: seq<Anomaly>)
      requires policy.fdr.target > 0.0
      requires 0 < maxAnomalies ==> |anomalies| <= maxAnomalies
      modifies this`directionFiltered, this`floorFiltered, this`fdrRejected, this`anomalies
      ensures multiset(accepted) == multiset(Passed(policy, tickAnomalies, tickTested))
      ensures tickAnomalies == [] ==> accepted == [] && SameCounts()
      ensures anomalies == Capped(maxAnomalies, old(anomalies) + accepted)
      ensures |accepted| + directionFiltered + floorFiltered + fdrRejected ==
              |tickAnomalies| + old(directionFiltered) + old(floorFiltered) + old(fdrRejected)
    {
      accepted := [];
      if |tickAnomalies| > 0 {
        accepted := FilterAndReport(tickAnomalies, tickTested);
      } else {
        NothingPasses(policy, tickTested);
        assert anomalies + [] == anomalies;
      }
    }

    method Tick(data: Data, isWarmup: bool) returns (ghost accepted: seq<Anomaly>)
      requires policy.fdr.target > 0.0
      requires 0 < maxAnomalies ==> |anomalies| <= maxAnomalies
      modifies this, mem
      ensures 0 < maxAnomalies ==> |anomalies| <= maxAnomalies
      ensures Lost(rules, data) ==>
                && accepted == [] && SameCounts() && mem.series == old(mem.series)
                && ticksSkipped == old(ticksSkipped) + 1 && ticksProcessed == old(ticksProcessed)
                && queryErrors == old(queryErrors) + TriedWhenLost(rules, data)
      ensures !Lost(rules, data) ==>
                var o := TickOutcome(mem.cfg, old(mem.series), rules, data);
                && mem.series == o.baselines
                && ticksProcessed == old(ticksProcessed) + 1 && ticksSkipped == old(ticksSkipped)
                && queryErrors == old(queryErrors) + Count(JobFails(), ReplayJobs(rules, data))
                && anomalies == Capped(maxAnomalies, old(anomalies) + accepted)
                && (if isWarmup then
                      accepted == [] && warmupSkipped == old(warmupSkipped) + |Fired(o.anomalies)|
                    else
                      && multiset(accepted) == multiset(Passed(policy, o.anomalies, o.tested))
                      && warmupSkipped == old(warmupSkipped)
                      && |accepted| + directionFiltered + floorFiltered + fdrRejected ==
                         |o.anomalies| + old(directionFiltered) + old(floorFiltered) + old(fdrRejected))
    {
      accepted := [];
      var perMetric, failed, succeeded := QueryAdaptives(data);
      queryErrors := queryErrors + failed;
      if |rules.adaptives| > 0 && succeeded == 0 {
        ticksSkipped := ticksSkipped + 1;
        return;
      }

      var tickAnomalies, tickTested := EvaluateRules(data, perMetric, isWarmup);
      accepted := AcceptTick(tickAnomalies, tickTested);
      ticksProcessed := ticksProcessed + 1;
    }

    // What a tick amounts to, without the details.
    method TickInBrief(data: Data, isWarmup: bool) returns (ghost accepted: seq<Anomaly>)
      requires policy.fdr.target > 0.0
      requires 0 < maxAnomalies ==> |anomalies| <= maxAnomalies
      modifies this, mem
      ensures 0 < maxAnomalies ==> |anomalies| <= maxAnomalies
      ensures mem.series == HeldAfter(mem.cfg, rules, data, old(mem.series))
      ensures multiset(accepted) == TickReports(mem.cfg, rules, policy, data, old(mem.series), isWarmup)
      ensures anomalies == Capped(maxAnomalies, old(anomalies) + accepted)
      ensures ticksSkipped == old(ticksSkipped) + if Lost(rules, data) then 1 else 0
      ensures ticksProcessed + ticksSkipped == old(ticksProcessed) + old(ticksSkipped) + 1
    {
      accepted := Tick(data, isWarmup);
      assert old(anomalies) + [] == old(anomalies);
    }

    // The warm-up is over when both spans have passed.
    method WarmupEnd(from: int, to: int, step: int, warmupFraction: real) returns (warmupEnd: int)
      ensures var shortest := from + mem.cfg.warmUpSamples * step;
              var share := from + Truncate((to - from) as real * warmupFraction);
              shortest <= warmupEnd && share <= warmupEnd && (warmupEnd == shortest || warmupEnd == share)
    {
      var fractionWarmup := Truncate((to - from) as real * warmupFraction);
      var minWarmup := mem.cfg.warmUpSamples * step;
      var warmupDur := fractionWarmup;
      if minWarmup > warmupDur {
        warmupDur := minWarmup;
      }
      warmupEnd := from + warmupDur;
    }

    method ProgressPlan(from: int, to: int, step: int) returns (totalTicks: int, progressInterval: int)
      requires step > 0
      ensures totalTicks == TruncatedQuotient(to - from, step) && progressInterval >= 1
    {
      totalTicks := TruncatedQuotient(to - from, step);
      progressInterval := TruncatedQuotient(totalTicks, 10);
      if progressInterval < 1 {
        progressInterval := 1;
      }
    }

    // The percentage logged every so often.  A tick has been counted, so the total is not zero.
    method Progress(tickIdx: nat, totalTicks: int, progressInterval: int) returns (percent: Option<int>)
      requires 0 < tickIdx <= totalTicks && progressInterval >= 1
      ensures percent.Some? ==> 0 <= percent.value <= 100
    {
      percent := None;
      if tickIdx % progressInterval == 0 {
        PercentIsSane(tickIdx, totalTicks);
        percent := Some(tickIdx * 100 / totalTicks);
      }
    }

    // The state after the first k ticks of a window, seen from the state before it.
    ghost predicate After(before: Progressed, data: nat -> Data, isWarmup: nat -> bool, k: nat, reported: seq<Anomaly>)
      reads this, mem
    {
      && ticksSkipped == before.skipped + LostTicks(rules, data, k)
      && ticksProcessed + ticksSkipped == before.processed + before.skipped + k
      && mem.series == ReplayHeld(mem.cfg, rules, data, before.series, k)
      && multiset(reported) == Reported(mem.cfg, rules, policy, data, before.series, isWarmup, k)
      && anomalies == Capped(maxAnomalies, before.anomalies + reported)
    }

    ghost function Now(): Progressed
      reads this, mem
    {
      Progressed(ticksProcessed, ticksSkipped, mem.series, anomalies)
    }

    lemma NothingYet(data: nat -> Data, isWarmup: nat -> bool)
      requires 0 < maxAnomalies ==> |anomalies| <= maxAnomalies
      ensures After(Now(), data, isWarmup, 0, [])
    {
      assert anomalies + [] == anomalies;
    }

    // The k-th tick of a window.
    method NextTick(ghost before: Progressed, data: nat -> Data, ghost isWarmupTick: nat -> bool, k: nat,
                    isWarmup: bool,
                    ghost reported: seq<Anomaly>) returns (ghost reported': seq<Anomaly>)
      requires policy.fdr.target > 0.0
      requires 0 < maxAnomalies ==> |anomalies| <= maxAnomalies
      requires isWarmup == isWarmupTick(k) && After(before, data, isWarmupTick, k, reported)
      modifies this, mem
      ensures 0 < maxAnomalies ==> |anomalies| <= maxAnomalies
      ensures After(before, data, isWarmupTick, k + 1, reported')
    {
      ghost var accepted := TickInBrief(data(k), isWarmup);
      CappedTwice(maxAnomalies, before.anomalies + reported, accepted);
      Associative(before.anomalies, reported, accepted);
      reported' := reported + accepted;
    }

    lemma ReportedOutright(from: int, to: int, step: int, fraction: real, data: nat -> Data, m: Baselines, k: nat,
                           reported: seq<Anomaly>)
      requires multiset(reported) ==
               Reported(mem.cfg, rules, policy, data, m,
                        WarmupTicks(from, to, step, fraction, mem.cfg.warmUpSamples), k)
      ensures forall isWarmup: nat -> bool ::
                (forall i: nat :: i < k ==>
                   (isWarmup(i) <==>
                    || from + (i + 1) * step < from + mem.cfg.warmUpSamples * step
                    || from + (i + 1) * step < from + Truncate((to - from) as real * fraction))) ==>
                multiset(reported) == Reported(mem.cfg, rules, policy, data, m, isWarmup, k)
    {
      var own := WarmupTicks(from, to, step, fraction, mem.cfg.warmUpSamples);
      forall isWarmup: nat -> bool |
        forall i: nat :: i < k ==>
          (isWarmup(i) <==>
           || from + (i + 1) * step < from + mem.cfg.warmUpSamples * step
           || from + (i + 1) * step < from + Truncate((to - from) as real * fraction))
        ensures multiset(reported) == Reported(mem.cfg, rules, policy, data, m, isWarmup, k)
      {
        forall i: nat | i < k
          ensures own(i) <==> isWarmup(i)
        {
        }
        ReportedSame(mem.cfg, rules, policy, data, m, own, isWarmup, k);
      }
    }

    // The ticks of a window, up to an interruption.
    method RunTicks(from: int, to: int, step: int, warmupFraction: real, data: nat -> Data, interrupted: nat -> bool)
      returns (tickIdx: nat, partial: bool, ghost reported: seq<Anomaly>)
      requires step > 0 && policy.fdr.target > 0.0
      requires 0 < maxAnomalies ==> |anomalies| <= maxAnomalies
      modifies this, mem
      ensures if partial then tickIdx < TickCount(from, to, step) && interrupted(tickIdx)
              else tickIdx == TickCount(from, to, step)
      ensures forall i: nat :: i < tickIdx ==> !interrupted(i)
      ensures After(old(Now()), data, WarmupTicks(from, to, step, warmupFraction, mem.cfg.warmUpSamples), tickIdx,
                    reported)
    {
      ghost var isWarmupTick := WarmupTicks(from, to, step, warmupFraction, mem.cfg.warmUpSamples);
      reported := [];
      NothingYet(data, isWarmupTick);
      assert After(old(Now()), data, isWarmupTick, 0, reported);
      var warmupEnd := WarmupEnd(from, to, step, warmupFraction);
      var totalTicks, progressInterval := ProgressPlan(from, to, step);
      partial := false;
      tickIdx := 0;
      var tick := from + step;
      while tick <= to
        invariant tick == TickTime(from, step, tickIdx)
        invariant tickIdx <= TickCount(from, to, step) && !partial
        invariant forall i: nat :: i < tickIdx ==> !interrupted(i)
        invariant 0 < maxAnomalies ==> |anomalies| <= maxAnomalies
        invariant After(old(Now()), data, isWarmupTick, tickIdx, reported)
      {
        TickIsInWindow(from, to, step, tickIdx);
        if interrupted(tickIdx) {
          partial := true;
          return;
        }
        var isWarmup := tick < warmupEnd;
        assert isWarmup == isWarmupTick(tickIdx);
        reported := NextTick(old(Now()), data, isWarmupTick, tickIdx, isWarmup, reported);
        tickIdx := tickIdx + 1;
        var percent := Progress(tickIdx, totalTicks, progressInterval);
        TickTimeAdvances(from, step, tickIdx);
        tick := tick + step;
      }
      WindowIsExhausted(from, to, step, tickIdx);
    }

    // The same, with the warm-up spelt out: what is reported is what the filters pass in the
    // ticks that come after both the samples of the warm-up and its share of the window.
    method Run(from: int, to: int, step: int, warmupFraction: real, data: nat -> Data, interrupted: nat -> bool)
      returns (tickIdx: nat, partial: bool, ghost reported: seq<Anomaly>)
      requires step > 0 && policy.fdr.target > 0.0
      requires 0 < maxAnomalies ==> |anomalies| <= maxAnomalies
      modifies this, mem
      ensures if partial then tickIdx < TickCount(from, to, step) && interrupted(tickIdx)
              else tickIdx == TickCount(from, to, step)
      ensures forall i: nat :: i < tickIdx ==> !interrupted(i)
      ensures !partial ==> (tickIdx > 0 ==> from + tickIdx * step <= to) && from + (tickIdx + 1) * step > to
      ensures After(old(Now()), data, WarmupTicks(from, to, step, warmupFraction, mem.cfg.warmUpSamples), tickIdx,
                    reported)
      ensures forall isWarmup: nat -> bool ::
                (forall i: nat :: i < tickIdx ==>
                   (isWarmup(i) <==>
                    || from + (i + 1) * step < from + mem.cfg.warmUpSamples * step
                    || from + (i + 1) * step < from + Truncate((to - from) as real * warmupFraction))) ==>
                multiset(reported) == Reported(mem.cfg, rules, policy, data, old(mem.series), isWarmup, tickIdx)
    {
      tickIdx, partial, reported := RunTicks(from, to, step, warmupFraction, data, interrupted);
      if !partial {
        LastTick(from, to, step, tickIdx);
      }
      ReportedOutright(from, to, step, warmupFraction, data, old(mem.series), tickIdx, reported);
    }
  }
}
