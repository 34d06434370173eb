// Adaptive detection over a batch of samples, on either of the two baseline stores.
module Detector {
  import opened Workload
  import opened Baseline
  import opened Anomalies
  import opened Sequences

  datatype Sample = Sample(labels: Labels, value: real)

  type Baselines = map<Key, Stats>

  // How a store turns labels into a key: normalised in production, raw in a replay.
  type Keying = Labels -> Labels

  function ProductionKeying(cfg: Config): Keying { (labels: Labels) => Normalized(cfg.ephemeral, labels) }
  function ReplayKeying(): Keying { (labels: Labels) => labels }

  // Which calls to the store fail, by their number within a batch.
  type Faults = nat -> Fault

  function Faultless(): Faults { (i: nat) => NoFault }

  // ----- what one evaluation does -----

  function Answer(cfg: Config, m: Baselines, k: Key, value: real, fault: Fault): Option<Result> {
    var s := Lookup(m, k);
    if fault == LoadFails || (fault == SaveFails && Absorbs(cfg, s, value)) then None
    else Some(Verdict(cfg, s, value))
  }

  function After(cfg: Config, m: Baselines, k: Key, value: real, fault: Fault): Baselines {
    if Answer(cfg, m, k, value, fault) == None then m else m[k := Next(cfg, Lookup(m, k), value)]
  }

  // ----- what a batch does -----

  function AnomalyOf(metric: string, labels: Labels, r: Result): Anomaly {
    Anomaly(metric, labels, r.value, r.mean, r.variance, r.zSq,
            if r.zSq > 25.0 then Critical else Warning, Metrics, Adaptive)
  }

  datatype Outcome = Outcome(baselines: Baselines, anomalies: seq<Anomaly>, tested: nat)

  // The contribution of one answer.
  function Findings(metric: string, labels: Labels, r: Option<Result>): seq<Anomaly> {
    if r.Some? && !r.value.isWarmingUp && r.value.isAnomaly then [AnomalyOf(metric, labels, r.value)] else []
  }

  function Tested(r: Option<Result>): nat { if r.Some? && !r.value.isWarmingUp then 1 else 0 }

  function Detect(cfg: Config, keying: Keying, m: Baselines, metric: string, samples: seq<Sample>,
                  faults: Faults): Outcome {
    if samples == [] then Outcome(m, [], 0)
    else
      var n := |samples| - 1;
      var o := Detect(cfg, keying, m, metric, samples[..n], faults);
      var x := samples[n];
      var k := Key(metric, keying(x.labels));
      var r := Answer(cfg, o.baselines, k, x.value, faults(n));
      Outcome(After(cfg, o.baselines, k, x.value, faults(n)),
              o.anomalies + Findings(metric, x.labels, r),
              o.tested + Tested(r))
  }

  // The family counts at least every test that fired.
  lemma {:induction false} FamilyCoversFired(cfg: Config, keying: Keying, m: Baselines, metric: string,
                                             samples: seq<Sample>, faults: Faults)
    ensures var o := Detect(cfg, keying, m, metric, samples, faults);
            |o.anomalies| <= o.tested <= |samples|
  {
    if samples != [] {
      FamilyCoversFired(cfg, keying, m, metric, samples[..|samples| - 1], faults);
    }
  }

  // Only which calls fail matters.
  lemma {:induction false} SameFaultsDetectSame(cfg: Config, keying: Keying, m: Baselines, metric: string,
                                                samples: seq<Sample>, faults: Faults, faults': Faults)
    requires forall i: nat :: faults(i) == faults'(i)
    ensures Detect(cfg, keying, m, metric, samples, faults) == Detect(cfg, keying, m, metric, samples, faults')
  {
    if samples != [] {
      SameFaultsDetectSame(cfg, keying, m, metric, samples[..|samples| - 1], faults, faults');
    }
  }

  // ----- the evaluator behind the detector: one store or the other -----

  datatype Evaluator = Production(store: Store) | Replay(mem: InMemStore) {

    function Footprint(): set<object> {
      match this
      case Production(s) => {s}
      case Replay(m) => {m}
    }

    function Cfg(): Config {
      match this
      case Production(s) => s.cfg
      case Replay(m) => m.cfg
    }

    function Held(): Baselines
      reads Footprint()
    {
      match this
      case Production(s) => s.redis
      case Replay(m) => m.series
    }

    function KeyingUsed(): Keying {
      match this
      case Production(s) => ProductionKeying(s.cfg)
      case Replay(m) => ReplayKeying()
    }

    // A replay never fails.
    function Suffered(fault: Fault): Fault {
      if Production? then fault else NoFault
    }

    method Evaluate(metric: string, labels: Labels, value: real, fault: Fault) returns (r: Option<Result>)
      modifies Footprint()
      ensures var k := Key(metric, KeyingUsed()(labels));
              && r == Answer(Cfg(), old(Held()), k, value, Suffered(fault))
              && Held() == After(Cfg(), old(Held()), k, value, Suffered(fault))
    {
      match this
      case Production(s) =>
        r := s.Evaluate(metric, labels, value, fault);
      case Replay(m) =>
        var result := m.Evaluate(metric, labels, value);
        r := Some(result);
    }
  }

  function SufferedBy(e: Evaluator, faults: Faults): Faults { (i: nat) => e.Suffered(faults(i)) }

  lemma ReplaySuffersNothing(e: Evaluator, faults: Faults, cfg: Config, m: Baselines, metric: string,
                             samples: seq<Sample>)
    requires e.Replay?
    ensures Detect(cfg, ReplayKeying(), m, metric, samples, SufferedBy(e, faults)) ==
            Detect(cfg, ReplayKeying(), m, metric, samples, Faultless())
  {
    forall i: nat
      ensures SufferedBy(e, faults)(i) == Faultless()(i)
    {
      assert e.Suffered(faults(i)) == NoFault;
    }
    SameFaultsDetectSame(cfg, ReplayKeying(), m, metric, samples, SufferedBy(e, faults), Faultless());
  }

  method EvaluateMetricsAdaptive(e: Evaluator, metric: string, samples: seq<Sample>, faults: Faults)
    returns (anomalies: seq<Anomaly>, tested: nat)
    modifies e.Footprint()
    ensures Outcome(e.Held(), anomalies, tested) ==
            Detect(e.Cfg(), e.KeyingUsed(), old(e.Held()), metric, samples, SufferedBy(e, faults))
  {
    anomalies, tested := [], 0;
    for i := 0 to |samples|
      invariant Outcome(e.Held(), anomalies, tested) ==
                Detect(e.Cfg(), e.KeyingUsed(), old(e.Held()), metric, samples[..i], SufferedBy(e, faults))
    {
      assert samples[..i + 1][..i] == samples[..i];
      var x := samples[i];
      var r := e.Evaluate(metric, x.labels, x.value, faults(i));
      if r == None { continue; }
      var result := r.value;
      if result.isWarmingUp { continue; }
      tested := tested + 1;
      if !result.isAnomaly { continue; }
      var severity := Warning;
      if result.zSq > 25.0 {
        severity := Critical;
      }
      anomalies := anomalies + [
        Anomaly(metric, x.labels, result.value, result.mean, result.variance, result.zSq, severity, Metrics, Adaptive)];
    }
    assert samples[..|samples|] == samples;
  }

  function AsLog(): Anomaly -> Anomaly { (a: Anomaly) => a.(signal := Logs) }

  method EvaluateLogRate(e: Evaluator, metric: string, samples: seq<Sample>, faults: Faults)
    returns (anomalies: seq<Anomaly>, tested: nat)
    modifies e.Footprint()
    ensures var o := Detect(e.Cfg(), e.KeyingUsed(), old(e.Held()), metric, samples, SufferedBy(e, faults));
            e.Held() == o.baselines && anomalies == Map(AsLog(), o.anomalies) && tested == o.tested
  {
    var results;
    results, tested := EvaluateMetricsAdaptive(e, metric, samples, faults);
    anomalies := results;
    for i := 0 to |results|
      invariant |anomalies| == |results|
      invariant forall j :: 0 <= j < i ==> anomalies[j] == AsLog()(results[j])
      invariant forall j :: i <= j < |results| ==> anomalies[j] == results[j]
      invariant e.Held() == Detect(e.Cfg(), e.KeyingUsed(), old(e.Held()), metric, samples,
                                   SufferedBy(e, faults)).baselines
    {
      anomalies := anomalies[i := anomalies[i].(signal := Logs)];
    }
    assert anomalies == Map(AsLog(), results);
  }
}
