// Detection jobs, and what a batch of them does to the baselines and finds.
module Jobs {
  import opened Workload
  import opened Sequences
  import opened Baseline
  import opened Anomalies
  import opened Detector

  datatype Operator = Above | AtLeast | Below | AtMost | Unrecognised

  datatype StaticRule = StaticRule(name: string, threshold: real, operator: Operator, severity: Severity)
  datatype LogRule = LogRule(name: string, isPatternMatch: bool)
  datatype Rules = Rules(statics: seq<StaticRule>, adaptives: seq<string>, logs: seq<LogRule>)

  // What the data source answers to a query: the samples, or nothing when it fails.
  type Query = Option<seq<Sample>>

  // The answers for the rules of each kind, by position.
  datatype Data = Data(statics: nat -> Query, adaptives: nat -> Query, logs: nat -> Query)

  datatype Job =
    | StaticJob(rule: StaticRule, query: Query)
    | AdaptiveJob(name: string, query: Query)
    | LogJob(name: string, query: Query)
    | UnknownJob

  // ----- static rules -----

  predicate Breaches(rule: StaticRule, value: real) {
    match rule.operator
    case Above => value > rule.threshold
    case AtLeast => value >= rule.threshold
    case Below => value < rule.threshold
    case AtMost => value <= rule.threshold
    case Unrecognised => value > rule.threshold
  }

  function BreachOf(rule: StaticRule): Sample -> bool { (x: Sample) => Breaches(rule, x.value) }

  function StaticAnomaly(rule: StaticRule): Sample -> Anomaly {
    (x: Sample) => Anomaly(rule.name, x.labels, x.value, 0.0, 0.0, 0.0, rule.severity, Metrics, Static)
  }

  lemma BreachesOneMore(rule: StaticRule, samples: seq<Sample>, x: Sample)
    ensures Map(StaticAnomaly(rule), Filter(BreachOf(rule), samples + [x])) ==
            Map(StaticAnomaly(rule), Filter(BreachOf(rule), samples)) +
            if Breaches(rule, x.value) then [StaticAnomaly(rule)(x)] else []
  {
    FilterSnoc(BreachOf(rule), samples, x);
    MapSnoc(StaticAnomaly(rule), Filter(BreachOf(rule), samples), x);
  }

  // As many breach as there are values on the wrong side of the threshold; an operator that
  // is not recognised is read as above.
  lemma BreachPlaces(rule: StaticRule, samples: seq<Sample>)
    ensures |Map(StaticAnomaly(rule), Filter(BreachOf(rule), samples))| ==
            |set i | 0 <= i < |samples| &&
                     ((rule.operator == AtLeast && samples[i].value >= rule.threshold) ||
                      (rule.operator == Below && samples[i].value < rule.threshold) ||
                      (rule.operator == AtMost && samples[i].value <= rule.threshold) ||
                      (rule.operator in {Above, Unrecognised} && samples[i].value > rule.threshold))|
  {
    FilterIsCount(BreachOf(rule), samples);
    var breaches :=
      set i | 0 <= i < |samples| &&
              ((rule.operator == AtLeast && samples[i].value >= rule.threshold) ||
               (rule.operator == Below && samples[i].value < rule.threshold) ||
               (rule.operator == AtMost && samples[i].value <= rule.threshold) ||
               (rule.operator in {Above, Unrecognised} && samples[i].value > rule.threshold));
    CountedPlaces(BreachOf(rule), samples, breaches);
  }

  method EvaluateMetricsStatic(rule: StaticRule, samples: seq<Sample>) returns (anomalies: seq<Anomaly>)
    ensures anomalies == Map(StaticAnomaly(rule), Filter(BreachOf(rule), samples))
  {
    anomalies := [];
    for i := 0 to |samples|
      invariant anomalies == Map(StaticAnomaly(rule), Filter(BreachOf(rule), samples[..i]))
    {
      assert samples[..i + 1] == samples[..i] + [samples[i]];
      BreachesOneMore(rule, samples[..i], samples[i]);
      var x := samples[i];
      if Breaches(rule, x.value) {
        anomalies := anomalies +
          [Anomaly(rule.name, x.labels, x.value, 0.0, 0.0, 0.0, rule.severity, Metrics, Static)];
      }
    }
    assert samples[..|samples|] == samples;
  }

  // ----- one job, and a batch -----

  function JobOutcome(cfg: Config, keying: Keying, m: Baselines, job: Job, faults: Faults): Outcome {
    match job
    case StaticJob(rule, Some(samples)) => Outcome(m, Map(StaticAnomaly(rule), Filter(BreachOf(rule), samples)), 0)
    case AdaptiveJob(name, Some(samples)) => Detect(cfg, keying, m, name, samples, faults)
    case LogJob(name, Some(samples)) =>
      var o := Detect(cfg, keying, m, name, samples, faults);
      o.(anomalies := Map(AsLog(), o.anomalies))
    case _ => Outcome(m, [], 0)
  }

  predicate Fails(job: Job) { job.UnknownJob? || job.query == None }

  // Which store calls fail, by job and by sample.
  type BatchFaults = nat -> Faults

  function NoBatchFaults(): BatchFaults { (i: nat) => Faultless() }

  function Joined(first: Outcome, second: Outcome): Outcome {
    Outcome(second.baselines, first.anomalies + second.anomalies, first.tested + second.tested)
  }

  // A batch runs its jobs in turn, each on the baselines the previous one left.
  function Chain<J>(run: (Baselines, J, nat) -> Outcome, m: Baselines, jobs: seq<J>): Outcome {
    if jobs == [] then Outcome(m, [], 0)
    else
      var n := |jobs| - 1;
      var before := Chain(run, m, jobs[..n]);
      Joined(before, run(before.baselines, jobs[n], n))
  }

  lemma ChainSnoc<J>(run: (Baselines, J, nat) -> Outcome, m: Baselines, jobs: seq<J>, job: J)
    ensures var before := Chain(run, m, jobs);
            Chain(run, m, jobs + [job]) == Joined(before, run(before.baselines, job, |jobs|))
  {
    assert (jobs + [job])[..|jobs|] == jobs;
  }

  lemma JoinedIsAssociative(a: Outcome, b: Outcome, c: Outcome)
    ensures Joined(Joined(a, b), c) == Joined(a, Joined(b, c))
  {
    assert (a.anomalies + b.anomalies) + c.anomalies == a.anomalies + (b.anomalies + c.anomalies);
  }

  lemma JoinedNothing(a: Outcome)
    ensures Joined(a, Outcome(a.baselines, [], 0)) == a
  {
    assert a.anomalies + [] == a.anomalies;
  }

  lemma ChainOneMore<J>(run: (Baselines, J, nat) -> Outcome, m: Baselines, jobs: seq<J>, job: J,
                        first: Outcome, second: Outcome, third: Outcome)
    requires Chain(run, m, jobs) == Joined(first, second) && third == run(second.baselines, job, |jobs|)
    ensures Chain(run, m, jobs + [job]) == Joined(first, Joined(second, third))
  {
    ChainSnoc(run, m, jobs, job);
    JoinedIsAssociative(first, second, third);
  }

  // A batch may be cut in two, if the second part counts its jobs on from the first.
  lemma {:induction false} ChainConcat<J(!new)>(run: (Baselines, J, nat) -> Outcome,
                                                run': (Baselines, J, nat) -> Outcome,
                                                m: Baselines, jobs: seq<J>, more: seq<J>)
    requires forall b, j, i :: run'(b, j, i) == run(b, j, |jobs| + i)
    ensures var first := Chain(run, m, jobs);
            Chain(run, m, jobs + more) == Joined(first, Chain(run', first.baselines, more))
  {
    var first := Chain(run, m, jobs);
    if more == [] {
      assert jobs + more == jobs;
      JoinedNothing(first);
    } else {
      var n := |more| - 1;
      var second := Chain(run', first.baselines, more[..n]);
      ChainConcat(run, run', m, jobs, more[..n]);
      ChainOneMore(run, m, jobs + more[..n], more[n], first, second, run'(second.baselines, more[n], n));
      assert (jobs + more[..n]) + [more[n]] == jobs + more;
    }
  }

  // What one job contributes once the suppressed anomalies are gone.
  function RunJob(cfg: Config, keying: Keying, faults: BatchFaults, spared: Anomaly -> bool)
    : (Baselines, Job, nat) -> Outcome
  {
    (m: Baselines, job: Job, i: nat) =>
      var o := JobOutcome(cfg, keying, m, job, faults(i));
      o.(anomalies := Filter(spared, o.anomalies))
  }

  function Batch(cfg: Config, keying: Keying, m: Baselines, jobs: seq<Job>, faults: BatchFaults,
                 spared: Anomaly -> bool): Outcome {
    Chain(RunJob(cfg, keying, faults, spared), m, jobs)
  }

  lemma BatchSnoc(cfg: Config, keying: Keying, m: Baselines, jobs: seq<Job>, job: Job, faults: BatchFaults,
                  spared: Anomaly -> bool)
    ensures var before := Batch(cfg, keying, m, jobs, faults, spared);
            var o := JobOutcome(cfg, keying, before.baselines, job, faults(|jobs|));
            Batch(cfg, keying, m, jobs + [job], faults, spared) ==
            Outcome(o.baselines, before.anomalies + Filter(spared, o.anomalies), before.tested + o.tested)
  {
    ChainSnoc(RunJob(cfg, keying, faults, spared), m, jobs, job);
  }

  // The next job of a batch; one that fails changes nothing.
  lemma BatchOneMore(cfg: Config, keying: Keying, m: Baselines, jobs: seq<Job>, i: nat, faults: BatchFaults,
                     spared: Anomaly -> bool, now: Outcome)
    requires i < |jobs| && now == Batch(cfg, keying, m, jobs[..i], faults, spared)
    ensures var o := JobOutcome(cfg, keying, now.baselines, jobs[i], faults(i));
            Batch(cfg, keying, m, jobs[..i + 1], faults, spared) ==
            Outcome(o.baselines, now.anomalies + Filter(spared, o.anomalies), now.tested + o.tested)
    ensures Fails(jobs[i]) ==>
              && JobOutcome(cfg, keying, now.baselines, jobs[i], faults(i)) == Outcome(now.baselines, [], 0)
              && Batch(cfg, keying, m, jobs[..i + 1], faults, spared) == now
  {
    assert jobs[..i + 1] == jobs[..i] + [jobs[i]];
    BatchSnoc(cfg, keying, m, jobs[..i], jobs[i], faults, spared);
    assert now.anomalies + [] == now.anomalies;
  }

  lemma BatchConcat(cfg: Config, keying: Keying, m: Baselines, jobs: seq<Job>, more: seq<Job>,
                    faults: BatchFaults, faults': BatchFaults, spared: Anomaly -> bool)
    requires forall i: nat :: faults'(i) == faults(|jobs| + i)
    ensures var first := Batch(cfg, keying, m, jobs, faults, spared);
            var second := Batch(cfg, keying, first.baselines, more, faults', spared);
            Batch(cfg, keying, m, jobs + more, faults, spared) == Joined(first, second)
  {
    ChainConcat(RunJob(cfg, keying, faults, spared), RunJob(cfg, keying, faults', spared), m, jobs, more);
  }

  lemma FaultlessConcat(cfg: Config, keying: Keying, m: Baselines, jobs: seq<Job>, more: seq<Job>,
                        spared: Anomaly -> bool)
    ensures var first := Batch(cfg, keying, m, jobs, NoBatchFaults(), spared);
            var second := Batch(cfg, keying, first.baselines, more, NoBatchFaults(), spared);
            Batch(cfg, keying, m, jobs + more, NoBatchFaults(), spared) == Joined(first, second)
  {
    BatchConcat(cfg, keying, m, jobs, more, NoBatchFaults(), NoBatchFaults(), spared);
  }

  function Everything(): Anomaly -> bool { (a: Anomaly) => true }

  // ----- the jobs of a cycle -----

  function StaticJobs(rules: seq<StaticRule>, answers: nat -> Query): seq<Job> {
    seq(|rules|, i requires 0 <= i < |rules| => StaticJob(rules[i], answers(i)))
  }

  function AdaptiveJobs(rules: seq<string>, answers: nat -> Query): seq<Job> {
    seq(|rules|, i requires 0 <= i < |rules| => AdaptiveJob(rules[i], answers(i)))
  }

  // The log rules the controller dispatches: not the ones that match patterns.
  function LogJobs(rules: seq<LogRule>, answers: nat -> Query): seq<Job> {
    if rules == [] then []
    else
      var n := |rules| - 1;
      LogJobs(rules[..n], answers) + if rules[n].isPatternMatch then [] else [LogJob(rules[n].name, answers(n))]
  }

  // The log rules a replay evaluates: all of them.
  function AllLogJobs(rules: seq<LogRule>, answers: nat -> Query): seq<Job> {
    seq(|rules|, i requires 0 <= i < |rules| => LogJob(rules[i].name, answers(i)))
  }

  function ControllerJobs(rules: Rules, data: Data): seq<Job> {
    StaticJobs(rules.statics, data.statics) + AdaptiveJobs(rules.adaptives, data.adaptives) +
    LogJobs(rules.logs, data.logs)
  }

  function ReplayJobs(rules: Rules, data: Data): seq<Job> {
    AdaptiveJobs(rules.adaptives, data.adaptives) + StaticJobs(rules.statics, data.statics) +
    AllLogJobs(rules.logs, data.logs)
  }

  // ----- counting the family -----

  lemma {:induction false} NoneCounted<T>(p: T -> bool, s: seq<T>)
    requires forall i :: 0 <= i < |s| ==> !p(s[i])
    ensures Count(p, s) == 0
  {
    if s != [] {
      NoneCounted(p, s[..|s| - 1]);
    }
  }

  lemma {:induction false} JobFamilyCoversFired(cfg: Config, keying: Keying, m: Baselines, job: Job, faults: Faults)
    ensures var o := JobOutcome(cfg, keying, m, job, faults);
            Count(IsAdaptive(), o.anomalies) <= o.tested
  {
    match job {
      case StaticJob(rule, Some(samples)) =>
        NoneCounted(IsAdaptive(), Map(StaticAnomaly(rule), Filter(BreachOf(rule), samples)));
      case AdaptiveJob(name, Some(samples)) =>
        FamilyCoversFired(cfg, keying, m, name, samples, faults);
        CountBounds(IsAdaptive(), Detect(cfg, keying, m, name, samples, faults).anomalies);
      case LogJob(name, Some(samples)) =>
        FamilyCoversFired(cfg, keying, m, name, samples, faults);
        CountBounds(IsAdaptive(), Map(AsLog(), Detect(cfg, keying, m, name, samples, faults).anomalies));
      case _ =>
    }
  }

  lemma {:induction false} CountFiltered<T>(p: T -> bool, keep: T -> bool, s: seq<T>)
    ensures Count(p, Filter(keep, s)) <= Count(p, s)
  {
    if s != [] {
      var n := |s| - 1;
      CountFiltered(p, keep, s[..n]);
      CountSnoc(p, Filter(keep, s[..n]), s[n]);
    }
  }

  // A worker declares at least as many adaptive tests as it ships adaptive anomalies,
  // whatever fails and whatever it suppresses.
  lemma {:induction false} BatchFamilyCoversFired(cfg: Config, keying: Keying, m: Baselines, jobs: seq<Job>,
                                                  faults: BatchFaults, spared: Anomaly -> bool)
    ensures var o := Batch(cfg, keying, m, jobs, faults, spared);
            |Filter(IsAdaptive(), o.anomalies)| <= o.tested
  {
    FilterIsCount(IsAdaptive(), Batch(cfg, keying, m, jobs, faults, spared).anomalies);
    if jobs != [] {
      var n := |jobs| - 1;
      var before := Batch(cfg, keying, m, jobs[..n], faults, spared);
      BatchFamilyCoversFired(cfg, keying, m, jobs[..n], faults, spared);
      FilterIsCount(IsAdaptive(), before.anomalies);
      var o := JobOutcome(cfg, keying, before.baselines, jobs[n], faults(n));
      JobFamilyCoversFired(cfg, keying, before.baselines, jobs[n], faults(n));
      CountFiltered(IsAdaptive(), spared, o.anomalies);
      CountConcat(IsAdaptive(), before.anomalies, Filter(spared, o.anomalies));
      assert jobs == jobs[..n] + [jobs[n]];
      BatchSnoc(cfg, keying, m, jobs[..n], jobs[n], faults, spared);
    }
  }
}
