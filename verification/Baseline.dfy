// Per-series baselines: Welford mean and variance, an exponentially weighted moving
// average, a warm-up phase, a floor under a zero deviation and an anti-poisoning gate.
//
// Arithmetic is over the reals.  Where the program keeps a standard deviation, the model
// keeps its square, and where it compares a z-score, the model compares its square.
module Baseline {
  import opened Reals
  import opened Workload

  type Labels = map<string, string>

  datatype Config = Config(
    alpha: real,
    zThreshold: real,
    poisonThreshold: real,
    warmUpSamples: int,
    ephemeral: set<string>)

  datatype Stats = Stats(mean: real, variance: real, ewma: real, count: nat)

  datatype Result = Result(
    isAnomaly: bool,
    zSq: real,
    value: real,
    mean: real,
    variance: real,
    ewma: real,
    isWarmingUp: bool)

  const FRESH := Stats(0.0, 0.0, 0.0, 0)

  // ----- one sample -----

  // The least deviation assumed of a series that has shown none.
  function DeviationFloor(s: Stats, v: real): real {
    Max(Max(Abs(s.ewma) * 0.01, Abs(v) * 0.01), 0.000000001)
  }

  function EffectiveVariance(s: Stats, v: real): (r: real)
    ensures r != 0.0 && (s.variance >= 0.0 ==> r > 0.0)
  {
    if s.variance == 0.0 then DeviationFloor(s, v) * DeviationFloor(s, v) else s.variance
  }

  function ZSquared(s: Stats, v: real): real {
    (v - s.ewma) * (v - s.ewma) / EffectiveVariance(s, v)
  }

  // z > t, for the z >= 0 whose square is zSq
  predicate Exceeds(zSq: real, t: real) { t < 0.0 || zSq > t * t }

  predicate Poisoned(cfg: Config, s: Stats, v: real) {
    cfg.poisonThreshold > 0.0 && Exceeds(ZSquared(s, v), cfg.poisonThreshold)
  }

  predicate WarmingUp(cfg: Config, s: Stats) { s.count == 0 || s.count < cfg.warmUpSamples }

  // The sample is let into the baseline.
  predicate Absorbs(cfg: Config, s: Stats, v: real) {
    WarmingUp(cfg, s) || !Poisoned(cfg, s, v)
  }

  function Updated(cfg: Config, s: Stats, v: real): Stats {
    if s.count == 0 then Stats(v, 0.0, v, 1)
    else
      var n := s.count + 1;
      var mean := s.mean + (v - s.mean) / n as real;
      Stats(
        mean,
        (s.variance * s.count as real + (v - s.mean) * (v - mean)) / n as real,
        cfg.alpha * v + (1.0 - cfg.alpha) * s.ewma,
        n)
  }

  function Next(cfg: Config, s: Stats, v: real): Stats {
    if Absorbs(cfg, s, v) then Updated(cfg, s, v) else s
  }

  // What is answered: warming up, or the verdict of the baseline before the sample,
  // in either case beside the figures of the baseline after it.
  function Verdict(cfg: Config, s: Stats, v: real): Result {
    var after := Next(cfg, s, v);
    if WarmingUp(cfg, s) then Result(false, 0.0, v, after.mean, after.variance, after.ewma, true)
    else
      Result(Exceeds(ZSquared(s, v), cfg.zThreshold), ZSquared(s, v), v,
             after.mean, after.variance, after.ewma, false)
  }

  lemma WelfordIncrement(n: nat, mean: real, v: real)
    ensures var after := mean + (v - mean) / (n + 1) as real;
            && after * (n + 1) as real == mean * n as real + v
            && (v - mean) * (v - after) * (n + 1) as real == (v - mean) * (v - mean) * n as real
            && (v - mean) * (v - after) >= 0.0
  {
    var k := (n + 1) as real;
    var d := v - mean;
    var after := mean + d / k;
    assert d / k * k == d;
    var q := n as real / k;
    assert q >= 0.0 && q * k == n as real;
    assert (d - d / k) * k == d * q * k;
    assert v - after == d * q;
    assert d * (d * q) == d * d * q;
    assert d * d >= 0.0;
    assert d * d * q >= 0.0;
  }

  // No step asks for the square root of a negative number.
  lemma VarianceStaysNonnegative(cfg: Config, s: Stats, v: real)
    requires s.variance >= 0.0
    ensures Updated(cfg, s, v).variance >= 0.0
  {
    if s.count > 0 {
      WelfordIncrement(s.count, s.mean, v);
      assert s.variance * s.count as real >= 0.0;
    }
  }

  // ----- thresholds without quotients -----

  // q * q == d2 / c exceeds t exactly when d2 exceeds the square of t deviations.
  lemma ExceedsIff(zSq: real, d2: real, c: real, t: real)
    requires c > 0.0 && t >= 0.0 && zSq == d2 / c
    ensures Exceeds(zSq, t) <==> d2 > t * t * c
  {
    QuotientTimes(d2, c);
    QuotientBound(zSq, d2, t * t, c);
  }

  lemma ScaledSquares(t2: real, a: real, f: real)
    requires t2 >= 0.0 && 0.0 <= a <= f
    ensures t2 * (a * a) <= t2 * (f * f)
  {
    var a2, f2 := a * a, f * f;
    SquareMonotone(a, f);
    ProductMonotone(a2, f2, t2);
    assert a2 * t2 == t2 * a2 && f2 * t2 == t2 * f2;
  }

  // d2 is above t2 times the square of a.
  ghost predicate Above(d2: real, t2: real, a: real) { d2 > t2 * (a * a) }

  // Above the largest of three floors is above each of them.
  lemma AboveLargest(d2: real, t2: real, a: real, b: real, c: real, f: real)
    requires t2 >= 0.0 && 0.0 <= a <= f && 0.0 <= b <= f && 0.0 <= c <= f && (f == a || f == b || f == c)
    ensures Above(d2, t2, f) <==> Above(d2, t2, a) && Above(d2, t2, b) && Above(d2, t2, c)
  {
    ScaledSquares(t2, a, f);
    ScaledSquares(t2, b, f);
    ScaledSquares(t2, c, f);
  }

  lemma AboveAbs(d2: real, t2: real, x: real)
    ensures Above(d2, t2, Abs(x) * 0.01) <==> Above(d2, t2, x * 0.01)
  {
    if x < 0.0 {
      assert (Abs(x) * 0.01) * (Abs(x) * 0.01) == (x * 0.01) * (x * 0.01);
    }
  }

  lemma SpreadExceedsIff(s: Stats, v: real, t: real, d2: real, t2: real)
    requires s.variance > 0.0 && t >= 0.0 && d2 == (v - s.ewma) * (v - s.ewma) && t2 == t * t
    ensures Exceeds(ZSquared(s, v), t) <==> d2 > t2 * s.variance
  {
    ExceedsIff(ZSquared(s, v), d2, s.variance, t);
  }

  lemma FloorExceedsIff(s: Stats, v: real, t: real, d2: real, t2: real, f: real)
    requires s.variance == 0.0 && t >= 0.0 && d2 == (v - s.ewma) * (v - s.ewma) && t2 == t * t
    requires f == DeviationFloor(s, v)
    ensures Exceeds(ZSquared(s, v), t) <==> Above(d2, t2, f)
  {
    ExceedsIff(ZSquared(s, v), d2, f * f, t);
  }

  lemma AboveIs(d2: real, t2: real, a: real, a2: real)
    requires a2 == a * a
    ensures Above(d2, t2, a) <==> d2 > t2 * a2
  {
  }

  lemma FlatAboveIff(s: Stats, v: real, t: real, d2: real, t2: real)
    requires s.variance == 0.0 && t >= 0.0 && d2 == (v - s.ewma) * (v - s.ewma) && t2 == t * t
    ensures Exceeds(ZSquared(s, v), t) <==>
            Above(d2, t2, s.ewma * 0.01) && Above(d2, t2, v * 0.01) && Above(d2, t2, 0.000000001)
  {
    var f := DeviationFloor(s, v);
    ProductNonnegative(t, t);
    FloorExceedsIff(s, v, t, d2, t2, f);
    AboveAbs(d2, t2, s.ewma);
    AboveAbs(d2, t2, v);
    AboveLargest(d2, t2, Abs(s.ewma) * 0.01, Abs(v) * 0.01, 0.000000001, f);
  }

  lemma FlatExceedsIff(s: Stats, v: real, t: real, d2: real, t2: real, e2: real, v2: real)
    requires s.variance == 0.0 && t >= 0.0 && d2 == (v - s.ewma) * (v - s.ewma) && t2 == t * t
    requires e2 == (s.ewma * 0.01) * (s.ewma * 0.01) && v2 == (v * 0.01) * (v * 0.01)
    ensures Exceeds(ZSquared(s, v), t) <==>
            d2 > t2 * e2 && d2 > t2 * v2 && d2 > t2 * 0.000000000000000001
  {
    FlatAboveIff(s, v, t, d2, t2);
    AboveIs(d2, t2, s.ewma * 0.01, e2);
    AboveIs(d2, t2, v * 0.01, v2);
    AboveIs(d2, t2, 0.000000001, 0.000000000000000001);
  }

  // A baseline answers that it is warming up until it has counted a sample and its warm-up
  // is over, and fires on nothing till then.
  lemma WarmingUpIff(cfg: Config, s: Stats, v: real)
    ensures var r := Verdict(cfg, s, v);
            && (r.isWarmingUp <==> s.count == 0 || s.count < cfg.warmUpSamples)
            && (r.isWarmingUp ==> !r.isAnomaly)
  {
  }

  // From then on a sample fires exactly when it is more than zThreshold deviations from the
  // average.  d2 and t2 are the squares of the distance and the threshold.
  lemma FiresWithSpread(cfg: Config, s: Stats, v: real, d2: real, t2: real)
    requires d2 == (v - s.ewma) * (v - s.ewma) && t2 == cfg.zThreshold * cfg.zThreshold
    requires s.count > 0 && s.count >= cfg.warmUpSamples && s.variance > 0.0
    ensures Verdict(cfg, s, v).isAnomaly <==> cfg.zThreshold < 0.0 || d2 > t2 * s.variance
  {
    if cfg.zThreshold >= 0.0 {
      SpreadExceedsIff(s, v, cfg.zThreshold, d2, t2);
    }
  }

  // For a series without spread the deviation is the largest of one percent of the average,
  // one percent of the sample and 1e-9, so the sample is that far beyond each.
  lemma FiresWithoutSpread(cfg: Config, s: Stats, v: real, d2: real, t2: real, e2: real, v2: real)
    requires d2 == (v - s.ewma) * (v - s.ewma) && t2 == cfg.zThreshold * cfg.zThreshold
    requires e2 == (s.ewma * 0.01) * (s.ewma * 0.01) && v2 == (v * 0.01) * (v * 0.01)
    requires s.count > 0 && s.count >= cfg.warmUpSamples && s.variance == 0.0
    ensures Verdict(cfg, s, v).isAnomaly <==>
            || cfg.zThreshold < 0.0
            || (d2 > t2 * e2 && d2 > t2 * v2 && d2 > t2 * 0.000000000000000001)
  {
    if cfg.zThreshold >= 0.0 {
      FlatExceedsIff(s, v, cfg.zThreshold, d2, t2, e2, v2);
    }
  }

  lemma FiresAtDistance(cfg: Config, s: Stats, v: real)
    ensures s.count > 0 && s.count >= cfg.warmUpSamples && s.variance > 0.0 ==>
              (Verdict(cfg, s, v).isAnomaly <==>
               cfg.zThreshold < 0.0 || (v - s.ewma) * (v - s.ewma) > cfg.zThreshold * cfg.zThreshold * s.variance)
  {
    if s.count > 0 && s.count >= cfg.warmUpSamples && s.variance > 0.0 {
      FiresWithSpread(cfg, s, v, (v - s.ewma) * (v - s.ewma), cfg.zThreshold * cfg.zThreshold);
    }
  }

  lemma ChangedIff(cfg: Config, s: Stats, v: real)
    ensures Next(cfg, s, v) == s <==> !Absorbs(cfg, s, v)
    ensures Next(cfg, s, v) != s ==> Next(cfg, s, v) == Updated(cfg, s, v)
  {
    assert Updated(cfg, s, v).count == s.count + 1;
  }

  // The baseline stays as it is exactly when the warm-up is over, the gate is on and the
  // sample is more than poisonThreshold such deviations from the average.
  lemma RefusedWithSpread(cfg: Config, s: Stats, v: real, d2: real, p2: real)
    requires d2 == (v - s.ewma) * (v - s.ewma) && p2 == cfg.poisonThreshold * cfg.poisonThreshold
    requires s.variance > 0.0
    ensures Next(cfg, s, v) == s <==>
            && s.count > 0 && s.count >= cfg.warmUpSamples
            && cfg.poisonThreshold > 0.0 && d2 > p2 * s.variance
  {
    ChangedIff(cfg, s, v);
    if cfg.poisonThreshold > 0.0 {
      SpreadExceedsIff(s, v, cfg.poisonThreshold, d2, p2);
    }
  }

  lemma RefusedWithoutSpread(cfg: Config, s: Stats, v: real, d2: real, p2: real, e2: real, v2: real)
    requires d2 == (v - s.ewma) * (v - s.ewma) && p2 == cfg.poisonThreshold * cfg.poisonThreshold
    requires e2 == (s.ewma * 0.01) * (s.ewma * 0.01) && v2 == (v * 0.01) * (v * 0.01)
    requires s.variance == 0.0
    ensures Next(cfg, s, v) == s <==>
            && s.count > 0 && s.count >= cfg.warmUpSamples
            && cfg.poisonThreshold > 0.0
            && d2 > p2 * e2 && d2 > p2 * v2 && d2 > p2 * 0.000000000000000001
  {
    ChangedIff(cfg, s, v);
    if cfg.poisonThreshold > 0.0 {
      FlatExceedsIff(s, v, cfg.poisonThreshold, d2, p2, e2, v2);
    }
  }

  // ----- the keys -----

  datatype Key = Key(metric: string, labels: Labels)

  function NormalizedValue(k: string, v: string): string {
    if k == "pod" && v != "" then ExtractWorkload(v) else v
  }

  function Normalized(ephemeral: set<string>, labels: Labels): Labels {
    map k | k in labels && k !in ephemeral :: NormalizedValue(k, labels[k])
  }

  // All replicas of a Deployment, across rollouts, share one baseline.
  lemma ReplicasShareBaseline(cfg: Config, metric: string, labels: Labels,
                              w: string, h: string, x: string, h': string, x': string)
    requires IsName(w) && IsHash(h) && IsHash(h') && IsSuffix(x) && IsSuffix(x')
    ensures Key(metric, Normalized(cfg.ephemeral, labels["pod" := DeploymentPod(w, h, x)])) ==
            Key(metric, Normalized(cfg.ephemeral, labels["pod" := DeploymentPod(w, h', x')]))
  {
    DeploymentRoundTrip(w, h, x);
    DeploymentRoundTrip(w, h', x');
    assert Normalized(cfg.ephemeral, labels["pod" := DeploymentPod(w, h, x)]) ==
           Normalized(cfg.ephemeral, labels["pod" := DeploymentPod(w, h', x')]);
  }

  // Two series of a metric share a baseline exactly when they have the same labels that are
  // not ephemeral, with the same values, or pods of one workload.
  lemma ShareBaselineIff(ephemeral: set<string>, labels: Labels, labels': Labels)
    ensures Normalized(ephemeral, labels) == Normalized(ephemeral, labels') <==>
            forall k :: k !in ephemeral ==>
              && (k in labels <==> k in labels')
              && (k in labels && k in labels' && k != "pod" ==> labels[k] == labels'[k])
              && (k in labels && k in labels' && k == "pod" ==>
                    ExtractWorkload(labels[k]) == ExtractWorkload(labels'[k]))
  {
    var n, n' := Normalized(ephemeral, labels), Normalized(ephemeral, labels');
    forall v: string, v': string
      ensures NormalizedValue("pod", v) == NormalizedValue("pod", v') <==> ExtractWorkload(v) == ExtractWorkload(v')
    {
      WorkloadIsNonemptyPrefix(v);
      WorkloadIsNonemptyPrefix(v');
    }
    forall k | k !in ephemeral
      ensures k in n <==> k in labels
      ensures k in n' <==> k in labels'
      ensures k in n ==> n[k] == NormalizedValue(k, labels[k])
      ensures k in n' ==> n'[k] == NormalizedValue(k, labels'[k])
    {
    }
  }

  function Lookup(m: map<Key, Stats>, k: Key): Stats { if k in m then m[k] else FRESH }

  // ----- the arithmetic both stores carry out -----

  method Score(stats: Stats, value: real) returns (zSq: real)
    ensures zSq == ZSquared(stats, value)
  {
    var variance := stats.variance;
    if variance == 0.0 {
      var floor := Max(Abs(stats.ewma) * 0.01, Abs(value) * 0.01);
      var deviation := Max(floor, 0.000000001);
      variance := deviation * deviation;
    }
    var deviation := value - stats.ewma;
    zSq := deviation * deviation / variance;
  }

  method Absorb(cfg: Config, stats: Stats, value: real) returns (updated: Stats)
    requires stats.count > 0
    ensures updated == Updated(cfg, stats, value)
  {
    var newEwma := cfg.alpha * value + (1.0 - cfg.alpha) * stats.ewma;
    var newCount := stats.count + 1;
    var delta := value - stats.mean;
    var newMean := stats.mean + delta / newCount as real;
    var delta2 := value - newMean;
    var m2 := stats.variance * stats.count as real;
    var newM2 := m2 + delta * delta2;
    var newVariance := 0.0;
    if newCount > 1 {
      newVariance := newM2 / newCount as real;
    }
    updated := Stats(newMean, newVariance, newEwma, newCount);
  }

  // ----- the store of the workers -----

  // What the Redis server does to one call: answer, or fail the read or the write.
  datatype Fault = NoFault | LoadFails | SaveFails

  class Store {
    const cfg: Config
    var redis: map<Key, Stats>
    var seenSeries: set<Key>

    constructor (cfg: Config)
      ensures this.cfg == cfg && redis == map[] && seenSeries == {}
    {
      this.cfg := cfg;
      redis := map[];
      seenSeries := {};
    }

    method NormalizeLabels(labels: Labels) returns (normalized: Labels)
      ensures normalized == Normalized(cfg.ephemeral, labels)
    {
      if labels == map[] { return labels; }
      normalized := map[];
      var todo := labels.Keys;
      while todo != {}
        invariant todo <= labels.Keys
        invariant normalized ==
                  map k | k in labels && k !in todo && k !in cfg.ephemeral :: NormalizedValue(k, labels[k])
      {
        var k :| k in todo;
        todo := todo - {k};
        if k in cfg.ephemeral { continue; }
        if k == "pod" && labels[k] != "" {
          normalized := normalized["pod" := ExtractWorkload(labels[k])];
          continue;
        }
        normalized := normalized[k := labels[k]];
      }
    }

    method EvaluateSeries(key: Key, value: real, fault: Fault) returns (r: Option<Result>)
      modifies this`redis
      ensures var s := Lookup(old(redis), key);
              if fault == LoadFails || (fault == SaveFails && Absorbs(cfg, s, value)) then
                r == None && redis == old(redis)
              else
                r == Some(Verdict(cfg, s, value)) && redis == old(redis)[key := Next(cfg, s, value)]
    {
      if fault == LoadFails { return None; }
      var stats := if key in redis then redis[key] else FRESH;

      if stats.count == 0 {
        if fault == SaveFails { return None; }
        redis := redis[key := Stats(value, 0.0, value, 1)];
        return Some(Result(false, 0.0, value, value, 0.0, value, true));
      }

      var zSq := Score(stats, value);
      var poisoned := cfg.poisonThreshold > 0.0 && Exceeds(zSq, cfg.poisonThreshold);
      var isWarmingUp := stats.count < cfg.warmUpSamples;

      if !poisoned || isWarmingUp {
        var updated := Absorb(cfg, stats, value);
        if fault == SaveFails { return None; }
        redis := redis[key := updated];
        if isWarmingUp {
          return Some(Result(false, 0.0, value, updated.mean, updated.variance, updated.ewma, true));
        }
        return Some(Result(Exceeds(zSq, cfg.zThreshold), zSq, value,
                           updated.mean, updated.variance, updated.ewma, false));
      }

      assert redis[key := stats] == redis;
      return Some(Result(Exceeds(zSq, cfg.zThreshold), zSq, value, stats.mean, stats.variance, stats.ewma, false));
    }

    // Besides the whole new state: from a baseline that is warmed up and has shown spread, the
    // answer fires exactly when the sample is more than zThreshold deviations from the average.
    method Evaluate(metric: string, labels: Labels, value: real, fault: Fault) returns (r: Option<Result>)
      modifies this
      ensures var k := Key(metric, Normalized(cfg.ephemeral, labels));
              var s := Lookup(old(redis), k);
              && seenSeries == old(seenSeries) + {k}
              && (if fault == LoadFails || (fault == SaveFails && Absorbs(cfg, s, value)) then
                    r == None && redis == old(redis)
                  else
                    r == Some(Verdict(cfg, s, value)) && redis == old(redis)[k := Next(cfg, s, value)])
      ensures var s, t := Lookup(old(redis), Key(metric, Normalized(cfg.ephemeral, labels))), cfg.zThreshold;
              r.Some? && s.count > 0 && s.count >= cfg.warmUpSamples && s.variance > 0.0 ==>
                (r.value.isAnomaly <==> t < 0.0 || (value - s.ewma) * (value - s.ewma) > t * t * s.variance)
    {
      var normalized := NormalizeLabels(labels);
      var key := Key(metric, normalized);
      if key !in seenSeries {
        seenSeries := seenSeries + {key};
      }
      FiresAtDistance(cfg, Lookup(redis, key), value);
      r := EvaluateSeries(key, value, fault);
    }
  }

  // ----- the store of a replay: same arithmetic, raw labels, no failures -----

  class InMemStore {
    const cfg: Config
    var series: map<Key, Stats>

    constructor (cfg: Config)
      ensures this.cfg == cfg && series == map[]
    {
      this.cfg := cfg;
      series := map[];
    }

    method EvaluateSeries(key: Key, value: real) returns (r: Result)
      modifies this
      ensures var s := Lookup(old(series), key);
              r == Verdict(cfg, s, value) && series == old(series)[key := Next(cfg, s, value)]
    {
      if key !in series || series[key].count == 0 {
        series := series[key := Stats(value, 0.0, value, 1)];
        return Result(false, 0.0, value, value, 0.0, value, true);
      }
      var stats := series[key];

      var zSq := Score(stats, value);
      var poisoned := cfg.poisonThreshold > 0.0 && Exceeds(zSq, cfg.poisonThreshold);
      var isWarmingUp := stats.count < cfg.warmUpSamples;

      if !poisoned || isWarmingUp {
        var updated := Absorb(cfg, stats, value);
        series := series[key := updated];
        if isWarmingUp {
          return Result(false, 0.0, value, updated.mean, updated.variance, updated.ewma, true);
        }
        return Result(Exceeds(zSq, cfg.zThreshold), zSq, value,
                      updated.mean, updated.variance, updated.ewma, false);
      }

      assert series[key := stats] == series;
      return Result(Exceeds(zSq, cfg.zThreshold), zSq, value, stats.mean, stats.variance, stats.ewma, false);
    }

    method Evaluate(metric: string, labels: Labels, value: real) returns (r: Result)
      modifies this
      ensures var k := Key(metric, labels);
              var s := Lookup(old(series), k);
              r == Verdict(cfg, s, value) && series == old(series)[k := Next(cfg, s, value)]
      ensures var s, t := Lookup(old(series), Key(metric, labels)), cfg.zThreshold;
              s.count > 0 && s.count >= cfg.warmUpSamples && s.variance > 0.0 ==>
                (r.isAnomaly <==> t < 0.0 || (value - s.ewma) * (value - s.ewma) > t * t * s.variance)
    {
      FiresAtDistance(cfg, Lookup(series, Key(metric, labels)), value);
      r := EvaluateSeries(Key(metric, labels), value);
    }
  }
}
