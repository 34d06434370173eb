// Which samples fire, in terms of distances, thresholds and spreads alone.
module Firing {
  import opened Reals
  import opened Workload
  import opened Baseline
  import opened Statistics
  import opened Anomalies
  import opened Sequences
  import opened Detector
  import opened Jobs
  import opened Filters

  predicate WarmedUp(cfg: Config, s: Stats) { s.count > 0 && s.count >= cfg.warmUpSamples }

  // Whatever lies at least as far from the average as a sample that fires, fires.
  lemma FiringIsMonotone(cfg: Config, s: Stats, v: real, x: real)
    requires WarmedUp(cfg, s) && s.variance > 0.0 && Abs(x - s.ewma) >= Abs(v - s.ewma)
    ensures Verdict(cfg, s, v).isAnomaly ==> Verdict(cfg, s, x).isAnomaly
  {
    SpreadScoresHigher(s, x, v);
  }

  // Every sample at least d away fires exactly when the one on the side away from zero does.
  lemma FiresBeyondIff(cfg: Config, s: Stats, d: real)
    requires WarmedUp(cfg, s) && s.variance >= 0.0 && d >= 0.0
    ensures (forall x :: Abs(x - s.ewma) >= d ==> Verdict(cfg, s, x).isAnomaly)
            <==> Verdict(cfg, s, Outer(s, d)).isAnomaly
  {
    SamePosition(s, d);
    if Verdict(cfg, s, Outer(s, d)).isAnomaly {
      forall x | Abs(x - s.ewma) >= d
        ensures Verdict(cfg, s, x).isAnomaly
      {
        FurtherScoresHigher(s, d, x);
      }
    }
  }

  lemma SquareAbove(t2: real, c: real) returns (d: real)
    requires t2 >= 0.0 && c > 0.0
    ensures d > 0.0 && d * d > t2 * c
  {
    var p := t2 * c;
    ProductNonnegative(t2, c);
    d := p + 1.0;
    ProductNonnegative(p, p);
    assert d * d == p * p + 2.0 * p + 1.0;
  }

  // Whatever the threshold, every sample far enough out fires once a series has shown spread.
  lemma FarEnoughFires(cfg: Config, s: Stats) returns (d: real)
    requires WarmedUp(cfg, s) && s.variance > 0.0
    ensures d > 0.0 && forall x :: Abs(x - s.ewma) >= d ==> Verdict(cfg, s, x).isAnomaly
  {
    var t2 := cfg.zThreshold * cfg.zThreshold;
    SquareOfAbs(cfg.zThreshold);
    d := SquareAbove(t2, s.variance);
    var v := Outer(s, d);
    SamePosition(s, d);
    SquareOfAbs(v - s.ewma);
    FiresWithSpread(cfg, s, v, (v - s.ewma) * (v - s.ewma), t2);
    FiresBeyondIff(cfg, s, d);
  }

  // ----- a batch, sample by sample -----

  lemma SeverityIs(cfg: Config, s: Stats, v: real, d2: real)
    requires WarmedUp(cfg, s) && s.variance > 0.0 && d2 == (v - s.ewma) * (v - s.ewma)
    ensures Verdict(cfg, s, v).zSq > 25.0 <==> d2 > 25.0 * s.variance
  {
    QuotientTimes(d2, s.variance);
    QuotientBound(ZSquared(s, v), d2, 25.0, s.variance);
  }

  // What an answer from a baseline that has shown spread adds to a batch: a test if it is
  // warmed up, and an anomaly if the sample lies more than the threshold from the average,
  // critical from five deviations on.
  lemma ContributionIs(cfg: Config, s: Stats, metric: string, x: Sample, d2: real, t2: real)
    requires s.variance > 0.0
    requires d2 == (x.value - s.ewma) * (x.value - s.ewma) && t2 == cfg.zThreshold * cfg.zThreshold
    ensures var r := Some(Verdict(cfg, s, x.value));
            var found := Findings(metric, x.labels, r);
            if s.count == 0 || s.count < cfg.warmUpSamples then Tested(r) == 0 && found == []
            else
              && Tested(r) == 1
              && |found| == (if cfg.zThreshold < 0.0 || d2 > t2 * s.variance then 1 else 0)
              && forall a :: a in found ==>
                   && a.metric == metric && a.labels == x.labels && a.value == x.value
                   && a.severity == (if d2 > 25.0 * s.variance then Critical else Warning)
                   && a.signal == Metrics && a.detector == Adaptive
  {
    if WarmedUp(cfg, s) {
      FiresWithSpread(cfg, s, x.value, d2, t2);
      SeverityIs(cfg, s, x.value, d2);
      assert Some(Verdict(cfg, s, x.value)).value.value == x.value;
    }
  }

  // A batch adds up what its samples contribute, each from the baseline its predecessors left.
  lemma OneMoreSample(cfg: Config, keying: Keying, m: Baselines, metric: string, samples: seq<Sample>,
                      faults: Faults, x: Sample)
    ensures var o := Detect(cfg, keying, m, metric, samples, faults);
            var o' := Detect(cfg, keying, m, metric, samples + [x], faults);
            var k := Key(metric, keying(x.labels));
            var r := Answer(cfg, o.baselines, k, x.value, faults(|samples|));
            && o'.tested == o.tested + Tested(r)
            && o'.anomalies == o.anomalies + Findings(metric, x.labels, r)
            && (r.None? ==> o' == o)
            && (faults(|samples|) == NoFault ==> r == Some(Verdict(cfg, Lookup(o.baselines, k), x.value)))
            && (forall other :: other != k ==> (other in o'.baselines <==> other in o.baselines))
            && (forall other :: other != k && other in o.baselines ==> o'.baselines[other] == o.baselines[other])
  {
    assert (samples + [x])[..|samples|] == samples;
  }

  ghost predicate AllOf(s: seq<Anomaly>, signal: Signal) {
    forall i :: 0 <= i < |s| ==> s[i].signal == signal && s[i].detector == Adaptive
  }

  lemma {:induction false} DetectedAreMetrics(cfg: Config, keying: Keying, m: Baselines, metric: string,
                                              samples: seq<Sample>, faults: Faults)
    ensures AllOf(Detect(cfg, keying, m, metric, samples, faults).anomalies, Metrics)
  {
    if samples != [] {
      DetectedAreMetrics(cfg, keying, m, metric, samples[..|samples| - 1], faults);
    }
  }

  // What a job finds bears the signal of its kind.
  lemma SignalIs(cfg: Config, keying: Keying, m: Baselines, job: Job, faults: Faults)
    ensures job.AdaptiveJob? ==> AllOf(JobOutcome(cfg, keying, m, job, faults).anomalies, Metrics)
    ensures job.LogJob? ==> AllOf(JobOutcome(cfg, keying, m, job, faults).anomalies, Logs)
  {
    if (job.AdaptiveJob? || job.LogJob?) && job.query.Some? {
      DetectedAreMetrics(cfg, keying, m, job.name, job.query.value, faults);
    }
  }

  // ----- the direction -----

  // An anomaly carries the mean after its own sample, but the direction filter drops it
  // exactly when the sample lies on the harmless side of the mean before it.
  lemma WrongWayOfBaselineIff(cfg: Config, s: Stats, directions: map<string, Direction>, metric: string,
                              labels: Labels, v: real)
    requires WarmedUp(cfg, s)
    ensures WrongWay(directions, AnomalyOf(metric, labels, Verdict(cfg, s, v))) <==>
            && metric in directions
            && ((directions[metric] == UpBad && v < s.mean) || (directions[metric] == DownBad && v > s.mean))
  {
    SideOfMeanIsStable(cfg, s, v);
  }

  // An adaptive anomaly of the chain's result, found on the baseline s, is a rise above its
  // mean under an up-bad rule, a fall below it under a down-bad one.
  lemma AcceptedIsHarmful(cfg: Config, s: Stats, p: Policy, anomalies: seq<Anomaly>, tested: int,
                          metric: string, labels: Labels, v: real)
    requires WarmedUp(cfg, s) && metric in p.directions
    requires AnomalyOf(metric, labels, Verdict(cfg, s, v)) in Passed(p, anomalies, tested)
    ensures p.directions[metric] == UpBad ==> v >= s.mean
    ensures p.directions[metric] == DownBad ==> v <= s.mean
  {
    PassedIsScreened(p, anomalies, tested, AnomalyOf(metric, labels, Verdict(cfg, s, v)));
    WrongWayOfBaselineIff(cfg, s, p.directions, metric, labels, v);
  }
}
