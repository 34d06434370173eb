// What the baselines mean over whole streams of samples.
module Statistics {
  import opened Reals
  import opened Baseline
  import opened Streams

  // ----- the machine that one series drives -----

  function NextOf(cfg: Config): (Stats, real) -> Stats { (s: Stats, v: real) => Next(cfg, s, v) }
  function AbsorbsOf(cfg: Config): (Stats, real) -> bool { (s: Stats, v: real) => Absorbs(cfg, s, v) }
  function VerdictOf(cfg: Config): (Stats, real) -> Result { (s: Stats, v: real) => Verdict(cfg, s, v) }

  function RunFrom(cfg: Config, s: Stats, xs: seq<real>): Stats { Run(NextOf(cfg), s, xs) }

  function AcceptedFrom(cfg: Config, s: Stats, xs: seq<real>): seq<real> {
    Accepted(NextOf(cfg), AbsorbsOf(cfg), s, xs)
  }

  // ----- sums over a batch of samples -----

  function Sum(xs: seq<real>): real {
    if xs == [] then 0.0 else Sum(xs[..|xs| - 1]) + xs[|xs| - 1]
  }

  function SumOfSquares(xs: seq<real>): real {
    if xs == [] then 0.0 else SumOfSquares(xs[..|xs| - 1]) + xs[|xs| - 1] * xs[|xs| - 1]
  }

  // The sum of the squared distances from c.
  function Scatter(xs: seq<real>, c: real): real {
    if xs == [] then 0.0 else Scatter(xs[..|xs| - 1], c) + (xs[|xs| - 1] - c) * (xs[|xs| - 1] - c)
  }

  lemma {:induction false} ScatterIsNonnegative(xs: seq<real>, c: real)
    ensures Scatter(xs, c) >= 0.0
  {
    if xs != [] {
      ScatterIsNonnegative(xs[..|xs| - 1], c);
      assert (xs[|xs| - 1] - c) * (xs[|xs| - 1] - c) >= 0.0;
    }
  }

  function Expanded(sumSq: real, sum: real, k: real, c: real): real { sumSq - 2.0 * c * sum + k * c * c }

  lemma ScatterStep(scatter: real, sumSq: real, sum: real, k: real, x: real, c: real,
                    scatter': real, sumSq': real, sum': real, k': real)
    requires scatter == Expanded(sumSq, sum, k, c)
    requires scatter' == scatter + (x - c) * (x - c) && sumSq' == sumSq + x * x && sum' == sum + x && k' == k + 1.0
    ensures scatter' == Expanded(sumSq', sum', k', c)
  {
    assert (x - c) * (x - c) == x * x - 2.0 * c * x + c * c;
    assert 2.0 * c * sum' == 2.0 * c * sum + 2.0 * c * x;
    assert k' * c * c == k * c * c + c * c;
  }

  lemma {:induction false} ScatterExpands(xs: seq<real>, c: real)
    ensures Scatter(xs, c) == Expanded(SumOfSquares(xs), Sum(xs), |xs| as real, c)
  {
    if xs != [] {
      var n := |xs| - 1;
      ScatterExpands(xs[..n], c);
      ScatterStep(Scatter(xs[..n], c), SumOfSquares(xs[..n]), Sum(xs[..n]), n as real, xs[n], c,
                  Scatter(xs, c), SumOfSquares(xs), Sum(xs), |xs| as real);
    }
  }

  lemma CrossTerm(mean: real, n: real, sum: real)
    requires mean * n == sum
    ensures n * mean * mean - 2.0 * mean * sum == -(mean * mean * n)
  {
    assert mean * sum == mean * (mean * n);
    assert mean * (mean * n) == mean * mean * n;
    assert n * mean * mean == mean * mean * n;
  }

  // q, counted n times, is a.
  ghost predicate Times(q: real, n: real, a: real) { q * n == a }

  // The squares less what the mean accounts for.
  ghost predicate Remains(scatter: real, squares: real, mean: real, n: real) {
    scatter == squares - mean * mean * n
  }

  // About the mean the distances add up to that.
  lemma ScatterAboutMean(xs: seq<real>, mean: real)
    requires Times(mean, |xs| as real, Sum(xs))
    ensures Remains(Scatter(xs, mean), SumOfSquares(xs), mean, |xs| as real)
  {
    ScatterExpands(xs, mean);
    CrossTerm(mean, |xs| as real, Sum(xs));
  }

  // ----- the Welford invariant -----

  // Counted n times, the variance is the squares less what the mean accounts for.
  ghost predicate Explains(variance: real, mean: real, n: real, squares: real) {
    variance * n == squares - mean * mean * n
  }

  lemma VarianceExplains(v: real, n: real, scatter: real, squares: real, m: real)
    requires Times(v, n, scatter) && Remains(scatter, squares, m, n)
    ensures Explains(v, m, n, squares)
  {
  }

  // Mean, variance and count describe exactly the samples in xs.
  ghost predicate Describes(mean: real, variance: real, count: nat, xs: seq<real>) {
    && count == |xs|
    && Times(mean, count as real, Sum(xs))
    && Explains(variance, mean, count as real, SumOfSquares(xs))
  }

  lemma ParallelAxis(n: real, mean: real, v: real, after: real)
    requires after * (n + 1.0) == mean * n + v
    ensures (v - mean) * (v - after) - mean * mean * n == v * v - after * after * (n + 1.0)
  {
    assert after * after * (n + 1.0) == after * (mean * n + v);
    assert mean * (after * (n + 1.0)) == mean * (mean * n + v);
    assert (v - mean) * (v - after) == v * v - v * after - mean * v + mean * after;
    assert after * (mean * n + v) == mean * after * n + after * v;
    assert mean * (mean * n + v) == mean * mean * n + mean * v;
    assert mean * (after * (n + 1.0)) == mean * after * n + mean * after;
  }

  // The mean of n samples moves to after with one more, k in all.
  ghost predicate MeanMoves(mean: real, n: real, v: real, after: real, k: real) { after * k == mean * n + v }

  // And the variance to variance'.
  ghost predicate VarianceMoves(mean: real, variance: real, n: real, v: real, after: real, variance': real, k: real) {
    variance' * k == variance * n + (v - mean) * (v - after)
  }

  lemma MeanStep(mean: real, n: real, sum: real, v: real, after: real, k: real, sum': real)
    requires Times(mean, n, sum) && MeanMoves(mean, n, v, after, k) && sum' == sum + v
    ensures Times(after, k, sum')
  {
  }

  lemma VarianceStep(mean: real, variance: real, n: real, squares: real, v: real, after: real, variance': real,
                     k: real, squares': real)
    requires k == n + 1.0 && Explains(variance, mean, n, squares) && squares' == squares + v * v
    requires MeanMoves(mean, n, v, after, k) && VarianceMoves(mean, variance, n, v, after, variance', k)
    ensures Explains(variance', after, k, squares')
  {
    ParallelAxis(n, mean, v, after);
  }

  lemma SumsSnoc(xs: seq<real>, v: real)
    ensures Sum(xs + [v]) == Sum(xs) + v
    ensures SumOfSquares(xs + [v]) == SumOfSquares(xs) + v * v
  {
    assert (xs + [v])[..|xs|] == xs;
  }

  lemma SumStep(mean: real, n: nat, xs: seq<real>, v: real, after: real)
    requires n == |xs| && Times(mean, n as real, Sum(xs)) && MeanMoves(mean, n as real, v, after, (n + 1) as real)
    ensures Times(after, (n + 1) as real, Sum(xs + [v]))
  {
    SumsSnoc(xs, v);
    MeanStep(mean, n as real, Sum(xs), v, after, (n + 1) as real, Sum(xs + [v]));
  }

  lemma SquaresStep(mean: real, variance: real, n: nat, xs: seq<real>, v: real, after: real, variance': real)
    requires n == |xs| && Explains(variance, mean, n as real, SumOfSquares(xs))
    requires MeanMoves(mean, n as real, v, after, (n + 1) as real)
    requires VarianceMoves(mean, variance, n as real, v, after, variance', (n + 1) as real)
    ensures Explains(variance', after, (n + 1) as real, SumOfSquares(xs + [v]))
  {
    SumsSnoc(xs, v);
    VarianceStep(mean, variance, n as real, SumOfSquares(xs), v, after, variance', (n + 1) as real,
                 SumOfSquares(xs + [v]));
  }

  // One step of Welford's update keeps the description exact.
  lemma WelfordStep(mean: real, variance: real, n: nat, xs: seq<real>, v: real, after: real, variance': real)
    requires Describes(mean, variance, n, xs) && MeanMoves(mean, n as real, v, after, (n + 1) as real)
    requires VarianceMoves(mean, variance, n as real, v, after, variance', (n + 1) as real)
    ensures Describes(after, variance', n + 1, xs + [v])
  {
    SumStep(mean, n, xs, v, after);
    SquaresStep(mean, variance, n, xs, v, after, variance');
  }

  // The incremental formulas move them so.
  lemma UpdateMoves(mean: real, variance: real, n: nat, v: real, after: real, variance': real)
    requires after == mean + (v - mean) / (n + 1) as real
    requires variance' == (variance * n as real + (v - mean) * (v - after)) / (n + 1) as real
    ensures MeanMoves(mean, n as real, v, after, (n + 1) as real)
    ensures VarianceMoves(mean, variance, n as real, v, after, variance', (n + 1) as real)
  {
    WelfordIncrement(n, mean, v);
    QuotientTimes(variance * n as real + (v - mean) * (v - after), (n + 1) as real);
  }

  lemma StoreMoves(cfg: Config, s: Stats, v: real, t: Stats)
    requires s.count > 0 && t == Updated(cfg, s, v)
    ensures t.count == s.count + 1 && MeanMoves(s.mean, s.count as real, v, t.mean, (s.count + 1) as real)
    ensures VarianceMoves(s.mean, s.variance, s.count as real, v, t.mean, t.variance, (s.count + 1) as real)
  {
    UpdateMoves(s.mean, s.variance, s.count, v, t.mean, t.variance);
  }

  lemma MovedDescribes(s: Stats, xs: seq<real>, v: real, t: Stats)
    requires Describes(s.mean, s.variance, s.count, xs)
    requires t.count == s.count + 1 && MeanMoves(s.mean, s.count as real, v, t.mean, (s.count + 1) as real)
    requires VarianceMoves(s.mean, s.variance, s.count as real, v, t.mean, t.variance, (s.count + 1) as real)
    ensures Describes(t.mean, t.variance, t.count, xs + [v])
  {
    WelfordStep(s.mean, s.variance, s.count, xs, v, t.mean, t.variance);
  }

  lemma FirstDescribes(v: real)
    ensures Describes(v, 0.0, 1, [v])
  {
    assert [v][..0] == [];
  }

  lemma UpdateDescribes(cfg: Config, s: Stats, xs: seq<real>, v: real, t: Stats)
    requires Describes(s.mean, s.variance, s.count, xs) && t == Updated(cfg, s, v)
    ensures Describes(t.mean, t.variance, t.count, xs + [v])
  {
    if s.count == 0 {
      FirstDescribes(v);
      assert xs + [v] == [v];
    } else {
      StoreMoves(cfg, s, v, t);
      MovedDescribes(s, xs, v, t);
    }
  }

  ghost predicate Exact(s: Stats, xs: seq<real>) {
    Describes(s.mean, s.variance, s.count, xs) && s.variance >= 0.0
  }

  // After any stream the baseline is the exact mean and variance of the samples let in, it
  // counts them, and no step took the square root of a negative number.
  lemma WelfordInvariant(cfg: Config, xs: seq<real>)
    ensures Exact(RunFrom(cfg, FRESH, xs), AcceptedFrom(cfg, FRESH, xs))
  {
    var inv := (s, kept) => Exact(s, kept);
    forall s, kept, v | Exact(s, kept)
      ensures Exact(Updated(cfg, s, v), kept + [v])
    {
      UpdateDescribes(cfg, s, kept, v, Updated(cfg, s, v));
      VarianceStaysNonnegative(cfg, s, v);
    }
    AlwaysGuarded(NextOf(cfg), FRESH, xs);
    Invariant(NextOf(cfg), AbsorbsOf(cfg), Always(), inv, FRESH, xs);
  }

  // ----- the batch formula and the seasonal profile -----

  function MeanOf(xs: seq<real>): real
    requires xs != []
  {
    Sum(xs) / |xs| as real
  }

  // The population variance, by its definition.
  function VarianceOf(xs: seq<real>): real
    requires xs != []
  {
    Scatter(xs, MeanOf(xs)) / |xs| as real
  }

  lemma SameQuotient(q: real, a: real, c: real)
    requires c > 0.0
    ensures q * c == a <==> q == a / c
  {
    QuotientTimes(a, c);
    if q * c == a {
      assert (q - a / c) * c == 0.0;
    }
  }

  lemma Cancelled(a: real, b: real, n: real)
    requires n > 0.0
    ensures a * n == b * n <==> a == b
  {
    if a < b {
      ProductStrictlyMonotone(a, b, n);
    } else if b < a {
      ProductStrictlyMonotone(b, a, n);
    }
  }

  lemma SolvedBy(mean: real, variance: real, n: real, sum: real, squares: real, m: real, v: real)
    requires n > 0.0 && Times(m, n, sum) && Explains(v, m, n, squares)
    ensures Times(mean, n, sum) && Explains(variance, mean, n, squares) <==> mean == m && variance == v
  {
    Cancelled(mean, m, n);
    Cancelled(variance, v, n);
  }

  lemma MeanTimes(xs: seq<real>)
    requires xs != []
    ensures Times(MeanOf(xs), |xs| as real, Sum(xs))
  {
    QuotientTimes(Sum(xs), |xs| as real);
  }

  lemma VarianceTimes(xs: seq<real>)
    requires xs != []
    ensures Times(VarianceOf(xs), |xs| as real, Scatter(xs, MeanOf(xs))) && VarianceOf(xs) >= 0.0
  {
    var n, scatter := |xs| as real, Scatter(xs, MeanOf(xs));
    ScatterIsNonnegative(xs, MeanOf(xs));
    QuotientTimes(scatter, n);
    QuotientMonotone(0.0, scatter, n);
  }

  lemma DescribedAre(mean: real, variance: real, xs: seq<real>)
    requires xs != []
    ensures Describes(mean, variance, |xs|, xs) <==> mean == MeanOf(xs) && variance == VarianceOf(xs)
    ensures VarianceOf(xs) >= 0.0
  {
    var n, m, v := |xs| as real, MeanOf(xs), VarianceOf(xs);
    MeanTimes(xs);
    VarianceTimes(xs);
    ScatterAboutMean(xs, m);
    VarianceExplains(v, n, Scatter(xs, m), SumOfSquares(xs), m);
    SolvedBy(mean, variance, n, Sum(xs), SumOfSquares(xs), m, v);
  }

  lemma OnePassDescribes(xs: seq<real>, mean: real, meanSquare: real)
    requires mean * |xs| as real == Sum(xs) && meanSquare * |xs| as real == SumOfSquares(xs)
    ensures Describes(mean, meanSquare - mean * mean, |xs|, xs)
  {
    assert (meanSquare - mean * mean) * |xs| as real == meanSquare * |xs| as real - mean * mean * |xs| as real;
  }

  // The one-pass formula, the mean of the squares less the square of the mean, gives the variance.
  lemma OnePassVariance(xs: seq<real>, mean: real, meanSquare: real)
    requires xs != [] && mean * |xs| as real == Sum(xs) && meanSquare * |xs| as real == SumOfSquares(xs)
    ensures mean == MeanOf(xs) && meanSquare - mean * mean == VarianceOf(xs) >= 0.0
  {
    OnePassDescribes(xs, mean, meanSquare);
    DescribedAre(mean, meanSquare - mean * mean, xs);
  }

  method Sums(points: seq<real>) returns (sum: real, sumSq: real)
    ensures sum == Sum(points) && sumSq == SumOfSquares(points)
  {
    sum, sumSq := 0.0, 0.0;
    for i := 0 to |points|
      invariant sum == Sum(points[..i]) && sumSq == SumOfSquares(points[..i])
    {
      assert points[..i + 1][..i] == points[..i];
      sum := sum + points[i];
      sumSq := sumSq + points[i] * points[i];
    }
    assert points[..|points|] == points;
  }

  // The square of the scale by which faults are sized, one when the series shows no spread.
  method SeriesVariance(points: seq<real>) returns (variance: real)
    ensures variance == if |points| < 2 || VarianceOf(points) == 0.0 then 1.0 else VarianceOf(points)
    ensures variance > 0.0
  {
    var n := |points|;
    if n < 2 { return 1.0; }
    var sum, sumSq := Sums(points);
    var mean := sum / n as real;
    var meanSquare := sumSq / n as real;
    QuotientTimes(sum, n as real);
    QuotientTimes(sumSq, n as real);
    OnePassVariance(points, mean, meanSquare);
    variance := meanSquare - mean * mean;
    assert variance >= 0.0;      // so the clamp that follows never acts
    if variance < 0.0 {
      variance := 0.0;
    }
    if variance == 0.0 { return 1.0; }
  }

  datatype SeasonalStats = SeasonalStats(mean: real, variance: real, samples: nat)

  const NO_SEASON := SeasonalStats(0.0, 0.0, 0)

  datatype Slot = Slot(metric: string, labels: Labels, weekday: int, hour: int)

  // Another Welford update: it counts first and weights the old variance by count - 1.
  function SeasonalNext(s: SeasonalStats, v: real): SeasonalStats {
    var n := s.samples + 1;
    var mean := s.mean + (v - s.mean) / n as real;
    SeasonalStats(
      mean,
      if n > 1 then (s.variance * s.samples as real + (v - s.mean) * (v - mean)) / n as real else s.variance,
      n)
  }

  class SeasonalProfile {
    var redis: map<Slot, SeasonalStats>

    constructor ()
      ensures redis == map[]
    {
      redis := map[];
    }

    method Update(slot: Slot, value: real, fault: Fault) returns (ok: bool)
      modifies this
      ensures ok <==> fault == NoFault
      ensures redis ==
              if ok then
                old(redis)[slot := SeasonalNext(if slot in old(redis) then old(redis)[slot] else NO_SEASON, value)]
              else old(redis)
    {
      if fault == LoadFails { return false; }
      var stats := if slot in redis then redis[slot] else NO_SEASON;
      var samples := stats.samples + 1;
      var delta := value - stats.mean;
      var mean := stats.mean + delta / samples as real;
      var delta2 := value - mean;
      var m2 := stats.variance * (samples - 1) as real;
      var newM2 := m2 + delta * delta2;
      var variance := stats.variance;
      if samples > 1 {
        variance := newM2 / samples as real;
      }
      assert samples - 1 == stats.samples;
      assert SeasonalStats(mean, variance, samples) == SeasonalNext(stats, value);
      if fault == SaveFails { return false; }
      redis := redis[slot := SeasonalStats(mean, variance, samples)];
      ok := true;
    }
  }

  function SeasonalRun(xs: seq<real>): SeasonalStats {
    if xs == [] then NO_SEASON else SeasonalNext(SeasonalRun(xs[..|xs| - 1]), xs[|xs| - 1])
  }

  lemma SeasonMoves(s: SeasonalStats, v: real, t: SeasonalStats)
    requires s.samples > 0 && t == SeasonalNext(s, v)
    ensures t.samples == s.samples + 1
    ensures MeanMoves(s.mean, s.samples as real, v, t.mean, (s.samples + 1) as real)
    ensures VarianceMoves(s.mean, s.variance, s.samples as real, v, t.mean, t.variance, (s.samples + 1) as real)
  {
    UpdateMoves(s.mean, s.variance, s.samples, v, t.mean, t.variance);
  }

  lemma SeasonalNextDescribes(s: SeasonalStats, xs: seq<real>, v: real, t: SeasonalStats)
    requires Describes(s.mean, s.variance, s.samples, xs) && t == SeasonalNext(s, v)
    requires xs == [] ==> s == NO_SEASON
    ensures Describes(t.mean, t.variance, t.samples, xs + [v])
  {
    if xs == [] {
      FirstDescribes(v);
      assert xs + [v] == [v];
    } else {
      SeasonMoves(s, v, t);
      MovedDescribes(Stats(s.mean, s.variance, 0.0, s.samples), xs, v, Stats(t.mean, t.variance, 0.0, t.samples));
    }
  }

  lemma {:induction false} SeasonalInvariant(xs: seq<real>)
    ensures var s := SeasonalRun(xs); Describes(s.mean, s.variance, s.samples, xs)
  {
    if xs != [] {
      var n := |xs| - 1;
      SeasonalInvariant(xs[..n]);
      SeasonalNextDescribes(SeasonalRun(xs[..n]), xs[..n], xs[n], SeasonalRun(xs));
      assert xs == xs[..n] + [xs[n]];
    }
  }

  lemma {:induction false} SomethingIsAccepted(cfg: Config, xs: seq<real>)
    requires xs != []
    ensures AcceptedFrom(cfg, FRESH, xs) != []
  {
    if |xs| > 1 {
      SomethingIsAccepted(cfg, xs[..|xs| - 1]);
    } else {
      assert xs[..0] == [];
      assert Absorbs(cfg, RunFrom(cfg, FRESH, xs[..0]), xs[0]);
    }
  }

  lemma StoreComputesVariance(cfg: Config, xs: seq<real>)
    requires xs != []
    ensures var kept, s := AcceptedFrom(cfg, FRESH, xs), RunFrom(cfg, FRESH, xs);
            kept != [] && s.count == |kept| && s.mean == MeanOf(kept) && s.variance == VarianceOf(kept)
  {
    var kept, s := AcceptedFrom(cfg, FRESH, xs), RunFrom(cfg, FRESH, xs);
    SomethingIsAccepted(cfg, xs);
    WelfordInvariant(cfg, xs);
    DescribedAre(s.mean, s.variance, kept);
  }

  lemma SeasonComputesVariance(xs: seq<real>)
    requires xs != []
    ensures var t := SeasonalRun(xs);
            t.samples == |xs| && t.mean == MeanOf(xs) && t.variance == VarianceOf(xs)
  {
    var t := SeasonalRun(xs);
    SeasonalInvariant(xs);
    DescribedAre(t.mean, t.variance, xs);
  }

  // The stores' update and the seasonal update compute the mean and the variance of the
  // same samples, which is also what the fault injector's one-pass formula gives for them.
  lemma VariancesAgree(cfg: Config, xs: seq<real>)
    requires xs != []
    ensures var kept := AcceptedFrom(cfg, FRESH, xs);
            var s, t := RunFrom(cfg, FRESH, xs), SeasonalRun(kept);
            && kept != []
            && s.count == t.samples == |kept|
            && s.mean == t.mean == MeanOf(kept)
            && s.variance == t.variance == VarianceOf(kept)
  {
    StoreComputesVariance(cfg, xs);
    SeasonComputesVariance(AcceptedFrom(cfg, FRESH, xs));
  }

  // ----- the anti-poisoning gate -----

  lemma StoresAreGated(cfg: Config)
    ensures Gated(NextOf(cfg), AbsorbsOf(cfg))
  {
  }

  // Deleting the rejected samples from a stream changes neither the state reached nor any
  // answer given to a sample that was let in, and of what is left nothing is rejected.
  lemma GateErasure(cfg: Config, s: Stats, xs: seq<real>)
    ensures var kept := AcceptedFrom(cfg, s, xs);
            && RunFrom(cfg, s, kept) == RunFrom(cfg, s, xs)
            && AcceptedFrom(cfg, s, kept) == kept
            && Answers(NextOf(cfg), AbsorbsOf(cfg), VerdictOf(cfg), s, kept) ==
               Answers(NextOf(cfg), AbsorbsOf(cfg), VerdictOf(cfg), s, xs)
  {
    StoresAreGated(cfg);
    Erasure(NextOf(cfg), AbsorbsOf(cfg), VerdictOf(cfg), s, xs);
  }

  // A stream is ever learnt from exactly when some sample of it passes the gate of the
  // baseline it starts from: no number of consecutive rejections opens the gate.
  lemma {:induction false} NewLevelIsLearntIff(cfg: Config, s: Stats, xs: seq<real>)
    ensures AcceptedFrom(cfg, s, xs) != [] <==> exists i :: 0 <= i < |xs| && Absorbs(cfg, s, xs[i])
    ensures AcceptedFrom(cfg, s, xs) == [] ==> RunFrom(cfg, s, xs) == s
  {
    if xs != [] {
      var n := |xs| - 1;
      NewLevelIsLearntIff(cfg, s, xs[..n]);
      if i :| 0 <= i < |xs| && Absorbs(cfg, s, xs[i]) {
        assert i < n ==> xs[..n][i] == xs[i];
      }
    }
  }

  // The sample at distance d from the average on the side away from zero, where the floor
  // under a zero deviation is highest.
  function Outer(s: Stats, d: real): real {
    if s.ewma >= 0.0 then s.ewma + d else s.ewma - d
  }

  lemma TimesAtLeast(k: real, a: real, b: real, f: real)
    requires k >= 0.0 && f >= a + b
    ensures k * f >= k * a + k * b
  {
    ProductMonotone(a + b, f, k);
    assert (a + b) * k == k * a + k * b && f * k == k * f;
  }

  lemma TimesAtMost(k: real, a: real, b: real, g: real)
    requires k >= 0.0 && g <= a + b
    ensures k * g <= k * a + k * b
  {
    ProductMonotone(g, a + b, k);
    assert (a + b) * k == k * a + k * b && g * k == k * g;
  }

  lemma CrossedFloors(far: real, d: real, e: real, f: real, g: real)
    requires 0.0 <= d <= far && e >= 0.0 && f >= e + d && g <= e + far
    ensures far * f >= d * g
  {
    TimesAtLeast(far, e, d, f);
    TimesAtMost(d, e, far, g);
    ProductMonotone(d, far, e);
    assert far * d == d * far;
  }

  lemma SmallerFloor(far: real, d: real, f: real, g: real)
    requires 0.0 <= d <= far && 0.0 <= g <= f
    ensures far * f >= d * g
  {
    ProductMonotone(d, far, f);
    ProductMonotone(g, f, d);
    assert f * d == d * f && g * d == d * g;
  }

  lemma Scaled(far: real, d: real, f: real, g: real)
    requires far * (f * 100.0) >= d * (g * 100.0)
    ensures far * f >= d * g
  {
    assert far * (f * 100.0) == far * f * 100.0 && d * (g * 100.0) == d * g * 100.0;
  }

  // Either the floor at x is no higher, or each is one percent of what lies furthest out.
  lemma FloorsAre(s: Stats, d: real, x: real, f: real, g: real)
    requires d >= 0.0 && Abs(x - s.ewma) >= d
    requires f == DeviationFloor(s, Outer(s, d)) && g == DeviationFloor(s, x)
    ensures f > 0.0 && g > 0.0
    ensures g <= f || (f * 100.0 >= Abs(s.ewma) + d && g * 100.0 <= Abs(s.ewma) + Abs(x - s.ewma))
  {
  }

  ghost predicate Crossed(far: real, d: real, f: real, g: real) { f > 0.0 && g > 0.0 && far * f >= d * g }

  lemma FloorProducts(far: real, d: real, e: real, f: real, g: real)
    requires 0.0 <= d <= far && e >= 0.0 && f > 0.0 && g > 0.0
    requires g <= f || (f * 100.0 >= e + d && g * 100.0 <= e + far)
    ensures Crossed(far, d, f, g)
  {
    if g <= f {
      SmallerFloor(far, d, f, g);
    } else {
      CrossedFloors(far, d, e, f * 100.0, g * 100.0);
      Scaled(far, d, f, g);
    }
  }

  lemma FloorsCross(s: Stats, d: real, x: real)
    requires d >= 0.0 && Abs(x - s.ewma) >= d
    ensures Crossed(Abs(x - s.ewma), d, DeviationFloor(s, Outer(s, d)), DeviationFloor(s, x))
  {
    var f, g := DeviationFloor(s, Outer(s, d)), DeviationFloor(s, x);
    FloorsAre(s, d, x, f, g);
    FloorProducts(Abs(x - s.ewma), d, Abs(s.ewma), f, g);
  }

  ghost predicate IsSquare(x2: real, x: real) { x2 == x * x }

  lemma SquaresOfProducts(a: real, f: real, b: real, g: real, a2: real, f2: real, b2: real, g2: real)
    requires IsSquare(a2, a) && IsSquare(f2, f) && IsSquare(b2, b) && IsSquare(g2, g)
    requires b >= 0.0 && g > 0.0 && a * f >= b * g
    ensures a2 * f2 >= b2 * g2
  {
    var p, q := a * f, b * g;
    ProductNonnegative(b, g);
    SquareMonotone(q, p);
    assert p * p == (a * a) * (f * f) && q * q == (b * b) * (g * g);
  }

  lemma SquareTimesInverse(x2: real, x: real, r: real)
    requires IsSquare(x2, x) && x * r == 1.0
    ensures x2 * r == x && x2 >= 0.0
  {
    assert x2 * r == x * (x * r);
  }

  lemma PositiveSquare(x2: real, x: real)
    requires IsSquare(x2, x) && x > 0.0
    ensures x2 > 0.0
  {
    SquareTimesInverse(x2, x, 1.0 / x);
  }

  lemma CrossMultiplied(a: real, f: real, b: real, g: real)
    requires f > 0.0 && g > 0.0 && a * f >= b * g
    ensures a / g >= b / f
  {
    var p := a / g;
    QuotientTimes(a, g);
    QuotientTimes(b, f);
    var x := p * f;
    assert x * g == p * g * f == a * f;
    if x < b {
      ProductStrictlyMonotone(x, b, g);
    }
    QuotientBound(b / f, b, p, f);
  }

  lemma QuotientOfSquares(a: real, f: real, b: real, g: real, a2: real, f2: real, b2: real, g2: real)
    requires IsSquare(a2, a) && IsSquare(f2, f) && IsSquare(b2, b) && IsSquare(g2, g)
    requires f > 0.0 && g > 0.0 && b >= 0.0 && a * f >= b * g
    ensures f2 > 0.0 && g2 > 0.0 && a2 / g2 >= b2 / f2
  {
    SquaresOfProducts(a, f, b, g, a2, f2, b2, g2);
    PositiveSquare(f2, f);
    PositiveSquare(g2, g);
    CrossMultiplied(a2, f2, b2, g2);
  }

  lemma SamePosition(s: Stats, d: real)
    requires d >= 0.0
    ensures Abs(Outer(s, d) - s.ewma) == d
  {
  }

  lemma ScoreIs(s: Stats, x: real, d: real, d2: real, e2: real)
    requires IsSquare(d2, d) && Abs(x - s.ewma) == d && e2 == EffectiveVariance(s, x)
    ensures ZSquared(s, x) == d2 / e2
  {
    var y := x - s.ewma;
    SquareOfAbs(y);
    assert y * y == d2;
  }

  lemma FurtherQuotient(far: real, d: real, far2: real, d2: real, variance: real)
    requires 0.0 <= d <= far && variance > 0.0 && IsSquare(far2, far) && IsSquare(d2, d)
    ensures far2 / variance >= d2 / variance
  {
    SquareMonotone(d, far);
    QuotientMonotone(d2, far2, variance);
  }

  lemma SpreadScoresHigher(s: Stats, x: real, y: real)
    requires s.variance > 0.0 && Abs(x - s.ewma) >= Abs(y - s.ewma)
    ensures ZSquared(s, x) >= ZSquared(s, y)
  {
    var far, d := Abs(x - s.ewma), Abs(y - s.ewma);
    ScoreIs(s, x, far, far * far, s.variance);
    ScoreIs(s, y, d, d * d, s.variance);
    FurtherQuotient(far, d, far * far, d * d, s.variance);
  }

  // The score of a series without spread, as a function of the floor at the sample.
  lemma FlatScoreIs(s: Stats, x: real, d: real, f: real) returns (d2: real, f2: real)
    requires s.variance == 0.0 && d == Abs(x - s.ewma) && f == DeviationFloor(s, x)
    ensures IsSquare(d2, d) && IsSquare(f2, f) && f2 != 0.0 && ZSquared(s, x) == d2 / f2
  {
    d2, f2 := d * d, EffectiveVariance(s, x);
    ScoreIs(s, x, d, d2, f2);
  }

  ghost predicate ScoresAs(z: real, d: real, f: real) {
    exists d2, f2 :: f2 != 0.0 && IsSquare(d2, d) && IsSquare(f2, f) && z == d2 / f2
  }

  lemma FlatScoresAs(s: Stats, x: real, z: real, d: real, f: real)
    requires s.variance == 0.0 && d == Abs(x - s.ewma) && f == DeviationFloor(s, x) && z == ZSquared(s, x)
    ensures f > 0.0 && ScoresAs(z, d, f)
  {
    var d2, f2 := FlatScoreIs(s, x, d, f);
  }

  lemma ComparedScores(z: real, far: real, g: real, z': real, d: real, f: real)
    requires ScoresAs(z, far, g) && ScoresAs(z', d, f)
    requires f > 0.0 && g > 0.0 && d >= 0.0 && far * f >= d * g
    ensures z >= z'
  {
    var far2, g2 :| g2 != 0.0 && IsSquare(far2, far) && IsSquare(g2, g) && z == far2 / g2;
    var d2, f2 :| f2 != 0.0 && IsSquare(d2, d) && IsSquare(f2, f) && z' == d2 / f2;
    QuotientOfSquares(far, f, d, g, far2, f2, d2, g2);
  }

  lemma FlatPieces(s: Stats, d: real, x: real) returns (far: real, f: real, g: real)
    requires s.variance == 0.0 && d >= 0.0 && Abs(x - s.ewma) >= d
    ensures Crossed(far, d, f, g)
    ensures ScoresAs(ZSquared(s, x), far, g) && ScoresAs(ZSquared(s, Outer(s, d)), d, f)
  {
    far, f, g := Abs(x - s.ewma), DeviationFloor(s, Outer(s, d)), DeviationFloor(s, x);
    FloorsCross(s, d, x);
    SamePosition(s, d);
    FlatScoresAs(s, x, ZSquared(s, x), far, g);
    FlatScoresAs(s, Outer(s, d), ZSquared(s, Outer(s, d)), d, f);
  }

  lemma FlatScoresHigher(s: Stats, d: real, x: real)
    requires s.variance == 0.0 && d >= 0.0 && Abs(x - s.ewma) >= d
    ensures ZSquared(s, x) >= ZSquared(s, Outer(s, d))
  {
    var far, f, g := FlatPieces(s, d, x);
    ComparedScores(ZSquared(s, x), far, g, ZSquared(s, Outer(s, d)), d, f);
  }

  // No sample at least that far out scores less.
  lemma FurtherScoresHigher(s: Stats, d: real, x: real)
    requires s.variance >= 0.0 && d >= 0.0 && Abs(x - s.ewma) >= d
    ensures ZSquared(s, x) >= ZSquared(s, Outer(s, d))
  {
    if s.variance > 0.0 {
      SamePosition(s, d);
      SpreadScoresHigher(s, x, Outer(s, d));
    } else {
      FlatScoresHigher(s, d, x);
    }
  }

  ghost predicate AllFar(s: Stats, d: real, xs: seq<real>) {
    forall i :: 0 <= i < |xs| ==> Abs(xs[i] - s.ewma) >= d
  }

  // Every stream that stays at least d away from the average is refused throughout, and so
  // never becomes the new normal, exactly when the sample at distance d on the side away
  // from zero is refused.
  lemma RefusedForEverIff(cfg: Config, s: Stats, d: real)
    requires s.variance >= 0.0 && d >= 0.0
    ensures (forall xs :: AllFar(s, d, xs) ==> AcceptedFrom(cfg, s, xs) == [] && RunFrom(cfg, s, xs) == s)
            <==> !Absorbs(cfg, s, Outer(s, d))
  {
    if Absorbs(cfg, s, Outer(s, d)) {
      SamePosition(s, d);
      var xs := [Outer(s, d)];
      NewLevelIsLearntIff(cfg, s, xs);
      assert AllFar(s, d, xs) && Absorbs(cfg, s, xs[0]);
    } else {
      forall xs | AllFar(s, d, xs)
        ensures AcceptedFrom(cfg, s, xs) == [] && RunFrom(cfg, s, xs) == s
      {
        forall i | 0 <= i < |xs|
          ensures !Absorbs(cfg, s, xs[i])
        {
          FurtherScoresHigher(s, d, xs[i]);
        }
        NewLevelIsLearntIff(cfg, s, xs);
      }
    }
  }

  // For a series that has shown some spread the side does not matter: once a sample has
  // been rejected, everything at least as far from the average is.
  lemma RejectionIsPermanent(cfg: Config, s: Stats, v: real, xs: seq<real>)
    requires s.variance > 0.0 && !Absorbs(cfg, s, v) && AllFar(s, Abs(v - s.ewma), xs)
    ensures RunFrom(cfg, s, xs) == s && AcceptedFrom(cfg, s, xs) == []
  {
    var d := Abs(v - s.ewma);
    SamePosition(s, d);
    ScoreIs(s, v, d, d * d, s.variance);
    ScoreIs(s, Outer(s, d), d, d * d, s.variance);
    RefusedForEverIff(cfg, s, d);
  }

  // For one that has not it does: 0.9595 is refused, 1.0405 is not.
  lemma SideCanMatter(cfg: Config)
    requires cfg.poisonThreshold == 4.0 && cfg.warmUpSamples == 2
    ensures var s := RunFrom(cfg, FRESH, [1.0, 1.0]);
            s == Stats(1.0, 0.0, 1.0, 2) && !Absorbs(cfg, s, 0.9595) && Absorbs(cfg, s, 1.0405)
  {
    assert [1.0, 1.0][..1] == [1.0] && [1.0][..0] == [];
    assert RunFrom(cfg, FRESH, [1.0]) == Stats(1.0, 0.0, 1.0, 1);
    var s := RunFrom(cfg, FRESH, [1.0, 1.0]);
    assert s.variance == 0.0 && s.ewma == cfg.alpha * 1.0 + (1.0 - cfg.alpha) * 1.0 == 1.0;
    assert DeviationFloor(s, 0.9595) == 0.01 && DeviationFloor(s, 1.0405) == 0.010405;
  }

  // ----- bounds -----

  ghost predicate AllWithin(xs: seq<real>, lo: real, hi: real) {
    forall i :: 0 <= i < |xs| ==> lo <= xs[i] <= hi
  }

  ghost predicate SettledWithin(s: Stats, lo: real, hi: real) {
    s.count > 0 ==> lo <= s.mean <= hi && lo <= s.ewma <= hi
  }

  lemma Blend(w: real, x: real, y: real, lo: real, hi: real)
    requires 0.0 <= w <= 1.0 && lo <= x <= hi && lo <= y <= hi
    ensures lo <= w * x + (1.0 - w) * y <= hi
  {
    ProductNonnegative(w, x - lo);
    ProductNonnegative(1.0 - w, y - lo);
    ProductNonnegative(w, hi - x);
    ProductNonnegative(1.0 - w, hi - y);
    assert w * (x - lo) + (1.0 - w) * (y - lo) == w * x + (1.0 - w) * y - lo;
    assert w * (hi - x) + (1.0 - w) * (hi - y) == hi - (w * x + (1.0 - w) * y);
  }

  lemma UpdateStaysWithin(cfg: Config, s: Stats, v: real, lo: real, hi: real)
    requires 0.0 <= cfg.alpha <= 1.0 && lo <= v <= hi && SettledWithin(s, lo, hi)
    ensures SettledWithin(Updated(cfg, s, v), lo, hi)
  {
    if s.count > 0 {
      Blend(cfg.alpha, v, s.ewma, lo, hi);
      var k := (s.count + 1) as real;
      var w := 1.0 / k;
      Blend(w, v, s.mean, lo, hi);
      assert (v - s.mean) / k == w * (v - s.mean);
      assert s.mean + w * (v - s.mean) == w * v + (1.0 - w) * s.mean;
    }
  }

  ghost predicate BoundsCarryOver(lo: real, hi: real, s: Stats, kept: seq<real>) {
    AllWithin(kept, lo, hi) ==> SettledWithin(s, lo, hi)
  }

  lemma BoundsCarryOneMore(cfg: Config, lo: real, hi: real, s: Stats, kept: seq<real>, v: real)
    requires 0.0 <= cfg.alpha <= 1.0 && BoundsCarryOver(lo, hi, s, kept)
    ensures BoundsCarryOver(lo, hi, Updated(cfg, s, v), kept + [v])
  {
    if AllWithin(kept + [v], lo, hi) {
      assert forall i :: 0 <= i < |kept| ==> (kept + [v])[i] == kept[i];
      assert (kept + [v])[|kept|] == v;
      UpdateStaysWithin(cfg, s, v, lo, hi);
    }
  }

  // The average and the mean stay within any bounds on the samples let in.
  lemma StaysWithin(cfg: Config, xs: seq<real>, lo: real, hi: real)
    requires 0.0 <= cfg.alpha <= 1.0
    requires AllWithin(AcceptedFrom(cfg, FRESH, xs), lo, hi)
    ensures SettledWithin(RunFrom(cfg, FRESH, xs), lo, hi)
  {
    var inv := (s, kept) => BoundsCarryOver(lo, hi, s, kept);
    forall s, kept, v | BoundsCarryOver(lo, hi, s, kept)
      ensures BoundsCarryOver(lo, hi, Updated(cfg, s, v), kept + [v])
    {
      BoundsCarryOneMore(cfg, lo, hi, s, kept, v);
    }
    AlwaysGuarded(NextOf(cfg), FRESH, xs);
    Invariant(NextOf(cfg), AbsorbsOf(cfg), Always(), inv, FRESH, xs);
  }

  // The square of the furthest one sample may move the average once the gate is on:
  // alpha times the poison threshold times the effective deviation.
  ghost function StepLimitSquared(cfg: Config, s: Stats, v: real): real {
    (cfg.alpha * cfg.alpha) * (cfg.poisonThreshold * cfg.poisonThreshold * EffectiveVariance(s, v))
  }

  lemma ScaledStep(alpha: real, v: real, ewma: real, ewma': real, limit2: real)
    requires ewma' == alpha * v + (1.0 - alpha) * ewma && (v - ewma) * (v - ewma) <= limit2
    ensures (ewma' - ewma) * (ewma' - ewma) <= (alpha * alpha) * limit2
  {
    var d := v - ewma;
    assert ewma' - ewma == alpha * d;
    assert (alpha * d) * (alpha * d) == (d * d) * (alpha * alpha);
    ProductMonotone(d * d, limit2, alpha * alpha);
  }

  lemma UnpoisonedDistance(cfg: Config, s: Stats, v: real)
    requires s.variance >= 0.0 && cfg.poisonThreshold > 0.0 && !Poisoned(cfg, s, v)
    ensures (v - s.ewma) * (v - s.ewma) <= cfg.poisonThreshold * cfg.poisonThreshold * EffectiveVariance(s, v)
  {
    var d2, e := (v - s.ewma) * (v - s.ewma), EffectiveVariance(s, v);
    QuotientTimes(d2, e);
    QuotientBound(ZSquared(s, v), d2, cfg.poisonThreshold * cfg.poisonThreshold, e);
  }

  lemma StepLimitIsNonnegative(cfg: Config, s: Stats, v: real)
    requires s.variance >= 0.0
    ensures StepLimitSquared(cfg, s, v) >= 0.0
  {
    var p2, a2 := cfg.poisonThreshold * cfg.poisonThreshold, cfg.alpha * cfg.alpha;
    ProductNonnegative(p2, EffectiveVariance(s, v));
    ProductNonnegative(a2, p2 * EffectiveVariance(s, v));
  }

  lemma MovesWithin(cfg: Config, s: Stats, v: real, ewma: real)
    requires s.variance >= 0.0 && cfg.poisonThreshold > 0.0
    requires ewma == s.ewma || (!Poisoned(cfg, s, v) && ewma == cfg.alpha * v + (1.0 - cfg.alpha) * s.ewma)
    ensures (ewma - s.ewma) * (ewma - s.ewma) <= StepLimitSquared(cfg, s, v)
  {
    if ewma == s.ewma {
      StepLimitIsNonnegative(cfg, s, v);
    } else {
      UnpoisonedDistance(cfg, s, v);
      ScaledStep(cfg.alpha, v, s.ewma, ewma, cfg.poisonThreshold * cfg.poisonThreshold * EffectiveVariance(s, v));
    }
  }

  // Once the gate is on, no sample moves the average further than that.
  lemma DriftPerSample(cfg: Config, s: Stats, v: real)
    requires s.variance >= 0.0 && !WarmingUp(cfg, s) && cfg.poisonThreshold > 0.0
    ensures var moved := Next(cfg, s, v).ewma - s.ewma;
            moved * moved <= StepLimitSquared(cfg, s, v)
  {
    MovesWithin(cfg, s, v, Next(cfg, s, v).ewma);
  }

  ghost function StepWithin(cfg: Config, limit: real): (Stats, real) -> bool {
    (s: Stats, v: real) => StepLimitSquared(cfg, s, v) <= limit * limit
  }

  // The average is no further from where it was than one limit for every sample let in.
  ghost function DriftedWithin(cfg: Config, origin: real, limit: real): (Stats, seq<real>) -> bool {
    (s: Stats, kept: seq<real>) =>
      !WarmingUp(cfg, s) && s.variance >= 0.0 && Abs(s.ewma - origin) <= |kept| as real * limit
  }

  lemma StepMovesWithin(cfg: Config, limit: real, s: Stats, v: real)
    requires s.variance >= 0.0 && !WarmingUp(cfg, s) && cfg.poisonThreshold > 0.0 && limit >= 0.0
    requires StepWithin(cfg, limit)(s, v)
    ensures Abs(Next(cfg, s, v).ewma - s.ewma) <= limit
  {
    DriftPerSample(cfg, s, v);
    SquareReflectsOrder(Next(cfg, s, v).ewma - s.ewma, limit);
  }

  lemma OneMoreLimit(a: real, b: real, c: real, k: nat, limit: real)
    requires Abs(a - b) <= k as real * limit && Abs(c - a) <= limit
    ensures Abs(c - b) <= (k + 1) as real * limit
  {
    assert (k + 1) as real * limit == k as real * limit + limit;
  }

  lemma DriftKept(cfg: Config, origin: real, limit: real, s: Stats, kept: seq<real>, v: real)
    requires cfg.poisonThreshold > 0.0 && limit >= 0.0
    requires DriftedWithin(cfg, origin, limit)(s, kept) && StepWithin(cfg, limit)(s, v) && Absorbs(cfg, s, v)
    ensures DriftedWithin(cfg, origin, limit)(Updated(cfg, s, v), kept + [v])
  {
    VarianceStaysNonnegative(cfg, s, v);
    StepMovesWithin(cfg, limit, s, v);
    OneMoreLimit(s.ewma, origin, Updated(cfg, s, v).ewma, |kept|, limit);
  }

  lemma DriftIsInvariant(cfg: Config, origin: real, limit: real)
    requires cfg.poisonThreshold > 0.0 && limit >= 0.0
    ensures Keeps(NextOf(cfg), AbsorbsOf(cfg), StepWithin(cfg, limit), DriftedWithin(cfg, origin, limit))
  {
    forall s, kept, v | DriftedWithin(cfg, origin, limit)(s, kept) && StepWithin(cfg, limit)(s, v)
      ensures DriftedWithin(cfg, origin, limit)(NextOf(cfg)(s, v), if AbsorbsOf(cfg)(s, v) then kept + [v] else kept)
    {
      if AbsorbsOf(cfg)(s, v) {
        DriftKept(cfg, origin, limit, s, kept, v);
      }
    }
  }

  lemma DriftStarts(cfg: Config, limit: real, s: Stats)
    requires s.variance >= 0.0 && !WarmingUp(cfg, s)
    ensures DriftedWithin(cfg, s.ewma, limit)(s, [])
  {
  }

  // Over a whole stream the average moves by at most that much for every sample let in.
  lemma DriftOverStream(cfg: Config, s: Stats, xs: seq<real>, limit: real)
    requires s.variance >= 0.0 && !WarmingUp(cfg, s) && cfg.poisonThreshold > 0.0 && limit >= 0.0
    requires Guarded(NextOf(cfg), StepWithin(cfg, limit), s, xs)
    ensures DriftedWithin(cfg, s.ewma, limit)(RunFrom(cfg, s, xs), AcceptedFrom(cfg, s, xs))
  {
    DriftIsInvariant(cfg, s.ewma, limit);
    DriftStarts(cfg, limit, s);
    Invariant(NextOf(cfg), AbsorbsOf(cfg), StepWithin(cfg, limit), DriftedWithin(cfg, s.ewma, limit), s, xs);
  }

  // A series without spread scores at most 200 on any sample, so a threshold of 200 or
  // more never fires on it.
  lemma ScoreWithoutSpread(cfg: Config, s: Stats, v: real)
    requires s.variance == 0.0
    ensures ZSquared(s, v) <= 200.0 * 200.0
    ensures cfg.zThreshold >= 200.0 ==> !Verdict(cfg, s, v).isAnomaly
  {
    var f := DeviationFloor(s, v);
    var d := v - s.ewma;
    SquareMonotone(Abs(d), 200.0 * f);
    SquareOfAbs(d);
    assert (200.0 * f) * (200.0 * f) == (200.0 * 200.0) * (f * f);
    QuotientTimes(d * d, f * f);
    QuotientBound(ZSquared(s, v), d * d, 200.0 * 200.0, f * f);
    if cfg.zThreshold >= 200.0 {
      SquareMonotone(200.0, cfg.zThreshold);
    }
  }

  lemma SameSide(d: real, k: real)
    requires k > 1.0
    ensures d - d / k >= 0.0 <==> d >= 0.0
    ensures d - d / k <= 0.0 <==> d <= 0.0
  {
    var r := 1.0 - 1.0 / k;
    assert r > 0.0;
    assert d - d / k == d * r;
    if d > 0.0 {
      ProductPositive(d, r);
    } else if d < 0.0 {
      ProductPositive(-d, r);
      assert (-d) * r == -(d * r);
    }
  }

  // The side of the mean a sample lies on does not change when the sample is absorbed.
  lemma SideOfMeanIsStable(cfg: Config, s: Stats, v: real)
    requires !WarmingUp(cfg, s)
    ensures v >= Verdict(cfg, s, v).mean <==> v >= s.mean
    ensures v <= Verdict(cfg, s, v).mean <==> v <= s.mean
  {
    SameSide(v - s.mean, (s.count + 1) as real);
  }
}
