// A slow ramp: how far a baseline can be led without a sample being refused or firing.
module Ramp {
  import opened Reals
  import opened Baseline
  import opened Streams
  import opened Statistics

  // The sample is let in and does not fire.
  predicate Unnoticed(cfg: Config, s: Stats, v: real) { Absorbs(cfg, s, v) && !Verdict(cfg, s, v).isAnomaly }

  function UnnoticedOf(cfg: Config): (Stats, real) -> bool { (s: Stats, v: real) => Unnoticed(cfg, s, v) }

  // No sample of the stream is refused, and none fires.
  ghost predicate Quiet(cfg: Config, s: Stats, xs: seq<real>) { Guarded(NextOf(cfg), UnnoticedOf(cfg), s, xs) }

  // ----- what goes unnoticed -----

  // A score below both thresholds.
  function Limit(cfg: Config): real {
    if 0.0 < cfg.poisonThreshold < cfg.zThreshold then cfg.poisonThreshold else cfg.zThreshold
  }

  lemma LowScoreIsUnnoticed(cfg: Config, s: Stats, v: real)
    requires cfg.zThreshold > 0.0 && !WarmingUp(cfg, s) && ZSquared(s, v) <= Limit(cfg) * Limit(cfg)
    ensures Unnoticed(cfg, s, v)
  {
    SquareMonotone(Limit(cfg), cfg.zThreshold);
    if cfg.poisonThreshold > 0.0 {
      SquareMonotone(Limit(cfg), cfg.poisonThreshold);
    }
  }

  lemma ShareIsNonnegative(q: real, n: real, d: real)
    requires n >= 1.0 && q * n == d && d >= 0.0
    ensures 0.0 <= q
  {
    if q < 0.0 {
      ProductStrictlyMonotone(q, 0.0, n);
    }
  }

  lemma SquareOfShare(q: real, n: real, d: real, q2: real, d2: real)
    requires n >= 1.0 && q * n == d && q >= 0.0 && q2 == q * q && d2 == d * d
    ensures q2 * n <= d2
  {
    var x := q2 * n;
    ProductNonnegative(q, q);
    ProductNonnegative(q2, n);
    ProductMonotone(1.0, n, x);
    assert n * x == (q * n) * (q * n);
  }

  lemma LimitIsNonnegative(limit2: real, c: real, d2: real)
    requires c > 0.0 && 0.0 <= d2 <= limit2 * c
    ensures limit2 >= 0.0
  {
    if limit2 < 0.0 {
      ProductStrictlyMonotone(limit2, 0.0, c);
    }
  }

  lemma LessPerSample(q2: real, n: real, bound: real, total: real)
    requires n >= 1.0 && total == bound * n && q2 * n <= total
    ensures q2 <= bound
  {
    if q2 > bound {
      ProductStrictlyMonotone(bound, q2, n);
    }
  }

  // With q == d / n: the square of a step d shared by n samples, against a variance that
  // times n is at least c.
  lemma SharedStepIsSmall(q: real, d: real, n: real, variance: real, c: real, limit2: real)
    requires n >= 1.0 && q * n == d && d >= 0.0 && c > 0.0 && variance * n >= c
    requires d * d <= limit2 * c
    ensures q * q <= limit2 * variance
  {
    var q2, d2 := q * q, d * d;
    ShareIsNonnegative(q, n, d);
    SquareOfShare(q, n, d, q2, d2);
    LimitIsNonnegative(limit2, c, d2);
    ProductMonotone(c, variance * n, limit2);
    assert c * limit2 == limit2 * c;
    LessPerSample(q2, n, limit2 * variance, (variance * n) * limit2);
  }

  lemma ScoreAtMost(s: Stats, v: real, q2: real, limit2: real)
    requires s.variance > 0.0 && q2 == (v - s.ewma) * (v - s.ewma) && q2 <= limit2 * s.variance
    ensures ZSquared(s, v) <= limit2
  {
    QuotientTimes(q2, s.variance);
    QuotientBound(ZSquared(s, v), q2, limit2, s.variance);
  }

  // ----- one step of the ramp -----

  // Past the warm-up, and the squared deviations add up to at least c.
  predicate Climbing(cfg: Config, s: Stats, c: real) {
    !WarmingUp(cfg, s) && c > 0.0 && s.variance * s.count as real >= c
  }

  // The square of the step is within the limit for a spread that adds up to c.
  predicate SmallStep(cfg: Config, c: real, d: real) { d >= 0.0 && d * d <= Limit(cfg) * Limit(cfg) * c }

  lemma ClimbingHasSpread(cfg: Config, s: Stats, c: real)
    requires Climbing(cfg, s, c)
    ensures s.variance > 0.0
  {
    if s.variance <= 0.0 {
      ProductMonotone(s.variance, 0.0, s.count as real);
    }
  }

  // The squared deviations never shrink, so the climb can go on.
  lemma StillClimbing(cfg: Config, s: Stats, c: real, v: real)
    requires Climbing(cfg, s, c)
    ensures Climbing(cfg, Updated(cfg, s, v), c)
  {
    var n := (s.count + 1) as real;
    var after := s.mean + (v - s.mean) / n;
    WelfordIncrement(s.count, s.mean, v);
    QuotientTimes(s.variance * s.count as real + (v - s.mean) * (v - after), n);
  }

  lemma AverageFollows(cfg: Config, s: Stats, q: real, rise: real)
    requires s.count > 0 && rise == cfg.alpha * q
    ensures Updated(cfg, s, s.ewma + q).ewma == s.ewma + rise
  {
    assert cfg.alpha * (s.ewma + q) + (1.0 - cfg.alpha) * s.ewma == s.ewma + cfg.alpha * q;
  }

  lemma RampStep(cfg: Config, s: Stats, c: real, d: real, q: real)
    requires cfg.zThreshold > 0.0 && Climbing(cfg, s, c) && SmallStep(cfg, c, d)
    requires q * s.count as real == d
    ensures Unnoticed(cfg, s, s.ewma + q)
  {
    ClimbingHasSpread(cfg, s, c);
    SharedStepIsSmall(q, d, s.count as real, s.variance, c, Limit(cfg) * Limit(cfg));
    ScoreAtMost(s, s.ewma + q, q * q, Limit(cfg) * Limit(cfg));
    LowScoreIsUnnoticed(cfg, s, s.ewma + q);
  }

  // ----- the whole ramp -----

  // 1/n + 1/(n + 1) + ..., k terms
  function Harmonic(n: nat, k: nat): real
    requires n > 0
  {
    if k == 0 then 0.0 else Harmonic(n, k - 1) + 1.0 / (n + k - 1) as real
  }

  lemma ReciprocalAtLeast(m: nat, n: nat)
    requires 0 < m <= n
    ensures 1.0 / m as real >= 1.0 / n as real
  {
    var b := 1.0 / m as real;
    QuotientTimes(1.0, m as real);
    QuotientTimes(1.0, n as real);
    ProductMonotone(m as real, n as real, b);
    assert m as real * b == b * m as real && n as real * b == b * n as real;
    QuotientBound(1.0 / n as real, 1.0, b, n as real);
  }

  // k more terms, none of them below the last.
  lemma {:induction false} HarmonicGrows(n: nat, a: nat, k: nat, last: nat, r: real)
    requires n > 0 && n + a + k <= last && r == 1.0 / last as real
    ensures Harmonic(n, a + k) >= Harmonic(n, a) + k as real * r
  {
    if k > 0 {
      HarmonicGrows(n, a, k - 1, last, r);
      ReciprocalAtLeast(n + a + k - 1, last);
      assert k as real * r == (k - 1) as real * r + r;
    }
  }

  // Doubling the count adds a half.
  lemma HarmonicDoubles(n: nat, a: nat)
    requires n > 0
    ensures Harmonic(n, a + (n + a)) >= Harmonic(n, a) + 0.5
  {
    var m := n + a;
    var r := 1.0 / (2 * m) as real;
    QuotientTimes(1.0, (2 * m) as real);
    assert m as real * r * 2.0 == r * (2 * m) as real;
    HarmonicGrows(n, a, m, 2 * m, r);
  }

  lemma {:induction false} HarmonicDiverges(n: nat, m: nat) returns (k: nat)
    requires n > 0
    ensures Harmonic(n, k) >= m as real * 0.5
  {
    if m == 0 {
      k := 0;
    } else {
      var a := HarmonicDiverges(n, m - 1);
      HarmonicDoubles(n, a);
      k := a + (n + a);
    }
  }

  // How far the average comes in k steps.
  function Gain(alpha: real, d: real, n: nat, k: nat): real
    requires n > 0
  {
    alpha * d * Harmonic(n, k)
  }

  lemma GainOneMore(alpha: real, d: real, n: nat, k: nat, q: real) returns (rise: real)
    requires n > 0 && q * (n + k) as real == d
    ensures rise == alpha * q && Gain(alpha, d, n, k + 1) == Gain(alpha, d, n, k) + rise
  {
    rise := alpha * q;
    var r, h := 1.0 / (n + k) as real, Harmonic(n, k);
    QuotientTimes(1.0, (n + k) as real);
    assert d * r == q * ((n + k) as real * r);
    assert alpha * d * (h + r) == alpha * d * h + alpha * (d * r);
  }

  lemma OneStepUp(cfg: Config, t: Stats, c: real, d: real, q: real, rise: real) returns (u: Stats)
    requires cfg.zThreshold > 0.0 && Climbing(cfg, t, c) && SmallStep(cfg, c, d)
    requires q * t.count as real == d && rise == cfg.alpha * q
    ensures Unnoticed(cfg, t, t.ewma + q) && u == Updated(cfg, t, t.ewma + q)
    ensures Climbing(cfg, u, c) && u.count == t.count + 1 && u.ewma == t.ewma + rise
  {
    RampStep(cfg, t, c, d, q);
    StillClimbing(cfg, t, c, t.ewma + q);
    AverageFollows(cfg, t, q, rise);
    u := Updated(cfg, t, t.ewma + q);
  }

  // After k steps the average has come from e to e plus the gain.
  ghost function At(cfg: Config, c: real, n: nat, e: real, gain: nat -> real): (Stats, nat) -> bool {
    (t: Stats, k: nat) => Climbing(cfg, t, c) && t.count == n + k && t.ewma == e + gain(k)
  }

  function GainOf(alpha: real, d: real, n: nat): nat -> real
    requires n > 0
  {
    (k: nat) => Gain(alpha, d, n, k)
  }

  // The next sample of the ramp.
  function PickOf(d: real, n: nat): (Stats, nat) -> real
    requires n > 0
  {
    (t: Stats, k: nat) => t.ewma + d / (n + k) as real
  }

  lemma StepsUp(cfg: Config, c: real, d: real, n: nat, e: real, gain: nat -> real, t: Stats, k: nat,
                q: real, rise: real)
    requires cfg.zThreshold > 0.0 && SmallStep(cfg, c, d) && At(cfg, c, n, e, gain)(t, k)
    requires q * t.count as real == d && rise == cfg.alpha * q && gain(k + 1) == gain(k) + rise
    ensures UnnoticedOf(cfg)(t, t.ewma + q) && At(cfg, c, n, e, gain)(NextOf(cfg)(t, t.ewma + q), k + 1)
  {
    var u := OneStepUp(cfg, t, c, d, q, rise);
    assert NextOf(cfg)(t, t.ewma + q) == u;
  }

  lemma ClimbStep(cfg: Config, c: real, d: real, n: nat, e: real, t: Stats, k: nat)
    requires cfg.zThreshold > 0.0 && n > 0 && SmallStep(cfg, c, d)
    requires At(cfg, c, n, e, GainOf(cfg.alpha, d, n))(t, k)
    ensures UnnoticedOf(cfg)(t, PickOf(d, n)(t, k))
    ensures At(cfg, c, n, e, GainOf(cfg.alpha, d, n))(NextOf(cfg)(t, PickOf(d, n)(t, k)), k + 1)
  {
    var q := d / (n + k) as real;
    QuotientTimes(d, (n + k) as real);
    var rise := GainOneMore(cfg.alpha, d, n, k, q);
    StepsUp(cfg, c, d, n, e, GainOf(cfg.alpha, d, n), t, k, q, rise);
  }

  lemma ClimbGoesOn(cfg: Config, c: real, d: real, n: nat, e: real)
    requires cfg.zThreshold > 0.0 && n > 0 && SmallStep(cfg, c, d)
    ensures GoesOn(NextOf(cfg), UnnoticedOf(cfg), At(cfg, c, n, e, GainOf(cfg.alpha, d, n)), PickOf(d, n))
  {
    var at := At(cfg, c, n, e, GainOf(cfg.alpha, d, n));
    forall t, k: nat | at(t, k)
      ensures UnnoticedOf(cfg)(t, PickOf(d, n)(t, k)) && at(NextOf(cfg)(t, PickOf(d, n)(t, k)), k + 1)
    {
      ClimbStep(cfg, c, d, n, e, t, k);
    }
  }

  lemma ClimbStarts(cfg: Config, c: real, d: real, s: Stats)
    requires Climbing(cfg, s, c)
    ensures At(cfg, c, s.count, s.ewma, GainOf(cfg.alpha, d, s.count))(s, 0)
  {
  }

  lemma ClimbArrives(cfg: Config, c: real, d: real, n: nat, e: real, t: Stats, k: nat)
    requires n > 0 && At(cfg, c, n, e, GainOf(cfg.alpha, d, n))(t, k)
    ensures t.ewma == e + Gain(cfg.alpha, d, n, k)
  {
  }

  lemma Climb(cfg: Config, s: Stats, c: real, d: real, k: nat) returns (xs: seq<real>)
    requires cfg.zThreshold > 0.0 && Climbing(cfg, s, c) && SmallStep(cfg, c, d)
    ensures Quiet(cfg, s, xs) && RunFrom(cfg, s, xs).ewma == s.ewma + Gain(cfg.alpha, d, s.count, k)
  {
    ClimbGoesOn(cfg, c, d, s.count, s.ewma);
    ClimbStarts(cfg, c, d, s);
    xs := Ascend(NextOf(cfg), UnnoticedOf(cfg), At(cfg, c, s.count, s.ewma, GainOf(cfg.alpha, d, s.count)),
                 PickOf(d, s.count), s, k);
    ClimbArrives(cfg, c, d, s.count, s.ewma, RunFrom(cfg, s, xs), k);
  }

  lemma SmallSquare(m: real, c: real)
    requires 0.0 <= m <= 1.0 && m <= c
    ensures m * m <= c
  {
    var x := 1.0 - m;
    ProductNonnegative(m, x);
    assert m * x == m - m * m;
  }

  lemma ScaledSquare(l: real, m: real, c: real, d: real)
    requires d == l * m && m * m <= c && l >= 0.0
    ensures d * d <= l * l * c
  {
    var m2, l2 := m * m, l * l;
    ProductNonnegative(l, l);
    ProductMonotone(m2, c, l2);
    assert d * d == m2 * l2 && c * l2 == l2 * c;
  }

  // A first step that is small enough for every spread that adds up to c.
  lemma StepFor(cfg: Config, c: real) returns (d: real)
    requires cfg.zThreshold > 0.0 && c > 0.0
    ensures d > 0.0 && SmallStep(cfg, c, d)
  {
    var m := if c < 1.0 then c else 1.0;
    d := Limit(cfg) * m;
    ProductPositive(Limit(cfg), m);
    SmallSquare(m, c);
    ScaledSquare(Limit(cfg), m, c, d);
  }

  lemma EnoughSteps(gain: real, distance: real) returns (m: nat)
    requires gain > 0.0
    ensures gain * (m as real * 0.5) > distance
  {
    var q := distance / (gain * 0.5);
    m := if q < 0.0 then 1 else q.Floor + 1;
    QuotientTimes(distance, gain * 0.5);
    ProductStrictlyMonotone(q, m as real, gain * 0.5);
    assert m as real * (gain * 0.5) == gain * (m as real * 0.5);
  }

  lemma GainIsUnbounded(alpha: real, d: real, n: nat, distance: real) returns (k: nat)
    requires n > 0 && alpha > 0.0 && d > 0.0
    ensures Gain(alpha, d, n, k) > distance
  {
    var gain := alpha * d;
    ProductPositive(alpha, d);
    var m := EnoughSteps(gain, distance);
    k := HarmonicDiverges(n, m);
    var low, high := m as real * 0.5, Harmonic(n, k);
    ProductMonotone(low, high, gain);
    assert low * gain == gain * low && high * gain == gain * high;
  }

  ghost predicate CanBeLed(cfg: Config, s: Stats, level: real) {
    exists xs :: Quiet(cfg, s, xs) && RunFrom(cfg, s, xs).ewma > level
  }

  lemma SpreadCanBeLed(cfg: Config, s: Stats, level: real) returns (xs: seq<real>)
    requires cfg.zThreshold > 0.0 && cfg.alpha > 0.0 && !WarmingUp(cfg, s) && s.variance > 0.0
    ensures Quiet(cfg, s, xs) && RunFrom(cfg, s, xs).ewma > level
  {
    var c := s.variance * s.count as real;
    ProductPositive(s.variance, s.count as real);
    var d := StepFor(cfg, c);
    var k := GainIsUnbounded(cfg.alpha, d, s.count, level - s.ewma);
    xs := Climb(cfg, s, c, d, k);
  }

  // ----- a series that has shown no spread -----

  lemma FlatScoreAtMost(s: Stats, v: real, q: real, f: real, limit: real)
    requires s.variance == 0.0 && v == s.ewma + q && f == DeviationFloor(s, v) && 0.0 <= q <= limit * f && limit > 0.0
    ensures ZSquared(s, v) <= limit * limit
  {
    SquareMonotone(q, limit * f);
    assert (limit * f) * (limit * f) == (limit * limit) * (f * f);
    QuotientTimes(q * q, f * f);
    QuotientBound(ZSquared(s, v), q * q, limit * limit, f * f);
  }

  lemma BelowFloor(limit: real, f: real, q: real)
    requires limit > 0.0 && f >= 0.000000001 && q <= limit * 0.000000001
    ensures q <= limit * f
  {
    ProductMonotone(0.000000001, f, limit);
    assert f * limit == limit * f;
  }

  // A sample that goes unnoticed and is not the mean.
  lemma FirstSample(cfg: Config, s: Stats) returns (v: real)
    requires cfg.zThreshold > 0.0 && !WarmingUp(cfg, s) && s.variance == 0.0
    ensures Unnoticed(cfg, s, v) && v != s.mean
  {
    var q := Limit(cfg) * 0.000000001;
    if s.ewma + q == s.mean {
      q := q * 0.5;
    }
    v := s.ewma + q;
    BelowFloor(Limit(cfg), DeviationFloor(s, v), q);
    FlatScoreAtMost(s, v, q, DeviationFloor(s, v), Limit(cfg));
    LowScoreIsUnnoticed(cfg, s, v);
  }

  lemma NonzeroSquare(x: real, x2: real)
    requires x != 0.0 && IsSquare(x2, x)
    ensures x2 > 0.0
  {
    if x > 0.0 {
      PositiveSquare(x2, x);
    } else {
      assert x * x == (-x) * (-x);
      PositiveSquare(x2, -x);
    }
  }

  lemma PositiveFactor(x: real, n: real)
    requires n > 0.0 && x * n > 0.0
    ensures x > 0.0
  {
    if x <= 0.0 {
      ProductMonotone(x, 0.0, n);
    }
  }

  lemma SpreadAppears(cfg: Config, s: Stats, v: real)
    requires s.count > 0 && s.variance == 0.0 && v != s.mean
    ensures Updated(cfg, s, v).variance > 0.0
  {
    var n, m := (s.count + 1) as real, s.count as real;
    var after := s.mean + (v - s.mean) / n;
    var x2, product := (v - s.mean) * (v - s.mean), (v - s.mean) * (v - after);
    WelfordIncrement(s.count, s.mean, v);
    NonzeroSquare(v - s.mean, x2);
    ProductPositive(x2, m);
    PositiveFactor(product, n);
    QuotientTimes(product, n);
    PositiveFactor(product / n, n);
    assert Updated(cfg, s, v).variance == (0.0 * m + product) / n;
  }

  // ----- the promise -----

  lemma UnnoticedIsAbsorbed(cfg: Config, s: Stats, v: real)
    requires Unnoticed(cfg, s, v)
    ensures NextOf(cfg)(s, v) == Updated(cfg, s, v)
  {
  }

  lemma AlphaLeads(cfg: Config, s: Stats, level: real)
    requires cfg.zThreshold > 0.0 && cfg.alpha > 0.0 && !WarmingUp(cfg, s) && s.variance >= 0.0
    ensures CanBeLed(cfg, s, level)
  {
    if s.variance > 0.0 {
      var xs := SpreadCanBeLed(cfg, s, level);
    } else {
      var v := FirstSample(cfg, s);
      SpreadAppears(cfg, s, v);
      var xs := SpreadCanBeLed(cfg, Updated(cfg, s, v), level);
      UnnoticedIsAbsorbed(cfg, s, v);
      Cons(NextOf(cfg), UnnoticedOf(cfg), s, v, xs);
      assert Quiet(cfg, s, [v] + xs) && RunFrom(cfg, s, [v] + xs).ewma > level;
    }
  }

  lemma {:induction false} NoAlphaNoMove(cfg: Config, s: Stats, xs: seq<real>)
    requires cfg.alpha == 0.0 && s.count > 0
    ensures RunFrom(cfg, s, xs).ewma == s.ewma && RunFrom(cfg, s, xs).count > 0
  {
    if xs != [] {
      NoAlphaNoMove(cfg, s, xs[..|xs| - 1]);
    }
  }

  // The average of a warmed-up baseline is kept below some level, on all streams of which
  // no sample is refused or fires, only if it does not move at all: with a positive alpha a
  // ramp that is slow enough leads it past every level unnoticed.
  lemma LedAnywhereIff(cfg: Config, s: Stats)
    requires cfg.zThreshold > 0.0 && cfg.alpha >= 0.0 && !WarmingUp(cfg, s) && s.variance >= 0.0
    ensures (forall level: real :: CanBeLed(cfg, s, level)) <==> cfg.alpha > 0.0
  {
    if cfg.alpha > 0.0 {
      forall level: real
        ensures CanBeLed(cfg, s, level)
      {
        AlphaLeads(cfg, s, level);
      }
    } else {
      if CanBeLed(cfg, s, s.ewma) {
        var xs :| Quiet(cfg, s, xs) && RunFrom(cfg, s, xs).ewma > s.ewma;
        NoAlphaNoMove(cfg, s, xs);
      }
    }
  }
}
