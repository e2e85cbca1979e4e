/** The exponentially weighted latency estimate of one carrier, over the reals. */
module Ema {
  import opened Domain

  datatype Config = Config(alpha: real, windowSize: int, multiplier: real, warmup: int)

  datatype State = State(p95: real, observations: nat)

  lemma WindowFactor(window: int)
    ensures window > 0 ==> 2.0 / (window as real + 1.0) * (window + 1) as real == 2.0
    ensures window > 0 ==> 0.0 < 2.0 / (window as real + 1.0) <= 1.0
    ensures window > 1 ==> 2.0 / (window as real + 1.0) < 1.0
  {
    if window > 0 {
      var d := window as real + 1.0;
      assert (window + 1) as real == d && 2.0 / d * d == 2.0;
      assert d >= 2.0;
    }
  }

  /** The smoothing factor chosen by NewEMATracker: always strictly between 0 and 1. */
  function Alpha(cfg: Config): (a: real)
    ensures 0.0 < a < 1.0
    ensures cfg.windowSize >= 2 ==> a * (cfg.windowSize + 1) as real == 2.0
    ensures cfg.windowSize <= 0 && 0.0 < cfg.alpha < 1.0 ==> a == cfg.alpha
    ensures cfg.windowSize == 1 || (cfg.windowSize <= 0 && !(0.0 < cfg.alpha < 1.0)) ==> a == 0.1
  {
    WindowFactor(cfg.windowSize);
    var a := if cfg.windowSize > 0 then 2.0 / (cfg.windowSize as real + 1.0) else cfg.alpha;
    if a <= 0.0 || a >= 1.0 then 0.1 else a
  }

  /** The state before any observation: twice the carrier's timeout hint, in whole milliseconds. */
  function Initial(hint: int): State {
    State(Quotient(hint, MILLISECOND) as real * 2.0, 0)
  }

  /** p is twice the hint in whole milliseconds, so half a million times p is the hint in
      nanoseconds, but for what truncation toward zero takes off. */
  ghost predicate TwiceTheHint(p: real, hint: int) {
    && p == 2.0 * (p / 2.0).Floor as real
    && (0 <= hint ==> p * 500_000.0 <= hint as real < p * 500_000.0 + 1_000_000.0)
    && (hint < 0 ==> p * 500_000.0 - 1_000_000.0 < hint as real <= p * 500_000.0)
  }

  lemma SeedIsTwiceTheHint(hint: int)
    ensures TwiceTheHint(Initial(hint).p95, hint) && Initial(hint).observations == 0
  {
    var whole := Quotient(hint, MILLISECOND) as real;
    assert Initial(hint).p95 == 2.0 * whole && Initial(hint).p95 / 2.0 == whole;
  }

  function Milliseconds(duration: int): real {
    duration as real / 1_000_000.0
  }

  /** The update made by one committed Record. */
  function Observe(alpha: real, s: State, x: real): State {
    State(alpha * x + (1.0 - alpha) * s.p95, s.observations + 1)
  }

  /** The state after the observations, in order. */
  function Fold(alpha: real, s: State, xs: seq<real>): State {
    if xs == [] then s
    else Observe(alpha, Fold(alpha, s, xs[..|xs| - 1]), xs[|xs| - 1])
  }

  lemma FoldNext(alpha: real, s: State, xs: seq<real>, x: real)
    ensures Fold(alpha, s, xs + [x]) == Observe(alpha, Fold(alpha, s, xs), x)
  {
    assert (xs + [x])[..|xs|] == xs;
  }

  lemma {:induction false} FoldCounts(alpha: real, s: State, xs: seq<real>)
    ensures Fold(alpha, s, xs).observations == s.observations + |xs|
  {
    if xs != [] {
      FoldCounts(alpha, s, xs[..|xs| - 1]);
    }
  }

  // ----- The closed form -----

  function Times(r: real): real -> real {
    t => r * t
  }

  function Iterate(f: real -> real, p: real, n: nat): real {
    if n == 0 then p else f(Iterate(f, p, n - 1))
  }

  function Pow(r: real, n: nat): real {
    if n == 0 then 1.0 else r * Pow(r, n - 1)
  }

  lemma {:induction false} TimesIterated(r: real, p: real, n: nat)
    ensures Iterate(Times(r), p, n) == Pow(r, n) * p
  {
    if n > 0 {
      TimesIterated(r, p, n - 1);
      Associate(r, Pow(r, n - 1), p);
    }
  }

  lemma Associate(r: real, q: real, d: real)
    ensures r * (q * d) == (r * q) * d
  {
  }

  function Sum(ws: seq<real>): real {
    if ws == [] then 0.0 else Sum(ws[..|ws| - 1]) + ws[|ws| - 1]
  }

  function Map(f: real -> real, ws: seq<real>): (r: seq<real>)
    ensures |r| == |ws| && forall i :: 0 <= i < |ws| ==> r[i] == f(ws[i])
  {
    if ws == [] then [] else Map(f, ws[..|ws| - 1]) + [f(ws[|ws| - 1])]
  }

  ghost predicate Additive(f: real -> real) {
    f(0.0) == 0.0 && forall a, b, c :: c == a + b ==> f(c) == f(a) + f(b)
  }

  lemma {:induction false} SumMaps(f: real -> real, ws: seq<real>)
    requires Additive(f)
    ensures Sum(Map(f, ws)) == f(Sum(ws))
  {
    if ws != [] {
      var n := |ws| - 1;
      SumMaps(f, ws[..n]);
      SumLast(Map(f, ws[..n]), f(ws[n]));
      assert f(Sum(ws)) == f(Sum(ws[..n])) + f(ws[n]);
    }
  }

  lemma SumLast(ws: seq<real>, w: real)
    ensures Sum(ws + [w]) == Sum(ws) + w
  {
    assert (ws + [w])[..|ws|] == ws;
  }

  lemma TimesAdditive(r: real)
    ensures Additive(Times(r))
  {
    var f := Times(r);
    forall a: real, b: real, c: real | c == a + b ensures f(c) == f(a) + f(b) {
      AddTimes(r, a, b, c);
    }
  }

  lemma AddTimes(r: real, a: real, b: real, c: real)
    requires c == a + b
    ensures Times(r)(c) == Times(r)(a) + Times(r)(b)
  {
    assert r * (a + b) == r * a + r * b;
  }

  /** The contributions of the seed and of the observations, in that order: each observation
      decays all earlier contributions and adds its own. */
  function TermsBy(decay: real -> real, weigh: real -> real, v: real, xs: seq<real>): (terms: seq<real>)
    ensures |terms| == |xs| + 1
  {
    if xs == [] then [v]
    else Map(decay, TermsBy(decay, weigh, v, xs[..|xs| - 1])) + [weigh(xs[|xs| - 1])]
  }

  function FoldBy(decay: real -> real, weigh: real -> real, v: real, xs: seq<real>): real {
    if xs == [] then v
    else weigh(xs[|xs| - 1]) + decay(FoldBy(decay, weigh, v, xs[..|xs| - 1]))
  }

  lemma {:induction false} FoldIsSumOfTerms(decay: real -> real, weigh: real -> real, v: real, xs: seq<real>)
    requires Additive(decay)
    ensures FoldBy(decay, weigh, v, xs) == Sum(TermsBy(decay, weigh, v, xs))
  {
    if xs == [] {
      assert Sum([]) == 0.0;
    } else {
      var n := |xs| - 1;
      FoldIsSumOfTerms(decay, weigh, v, xs[..n]);
      var terms := TermsBy(decay, weigh, v, xs[..n]);
      SumMaps(decay, terms);
      SumLast(Map(decay, terms), weigh(xs[n]));
    }
  }

  /** One more observation decays the terms of the others. */
  lemma TermStep(decay: real -> real, weigh: real -> real, v: real, xs: seq<real>, i: nat)
    requires i < |xs|
    ensures TermsBy(decay, weigh, v, xs)[i] == decay(TermsBy(decay, weigh, v, xs[..|xs| - 1])[i])
  {
    var before := TermsBy(decay, weigh, v, xs[..|xs| - 1]);
    assert TermsBy(decay, weigh, v, xs)[i] == Map(decay, before)[i];
  }

  /** What a term was when it was the last. */
  function Fresh(weigh: real -> real, v: real, xs: seq<real>, i: nat): real
    requires i <= |xs|
  {
    if i == 0 then v else weigh(xs[i - 1])
  }

  lemma TermFresh(decay: real -> real, weigh: real -> real, v: real, xs: seq<real>)
    ensures TermsBy(decay, weigh, v, xs)[|xs|] == Fresh(weigh, v, xs, |xs|)
  {
  }

  lemma {:induction false} TermDecays(decay: real -> real, weigh: real -> real, v: real, xs: seq<real>, i: nat)
    requires i <= |xs|
    ensures TermsBy(decay, weigh, v, xs)[i] == Iterate(decay, Fresh(weigh, v, xs, i), |xs| - i)
  {
    if i == |xs| {
      TermFresh(decay, weigh, v, xs);
    } else {
      TermDecays(decay, weigh, v, xs[..|xs| - 1], i);
      TermStep(decay, weigh, v, xs, i);
    }
  }

  lemma {:induction false} FoldIsFoldBy(alpha: real, s: State, xs: seq<real>)
    ensures Fold(alpha, s, xs).p95 == FoldBy(Times(1.0 - alpha), Times(alpha), s.p95, xs)
  {
    if xs != [] {
      FoldIsFoldBy(alpha, s, xs[..|xs| - 1]);
    }
  }

  /** The contributions to the estimate: r is what is left of the older ones at each step. */
  function Terms(alpha: real, r: real, v: real, xs: seq<real>): (terms: seq<real>)
    ensures |terms| == |xs| + 1
  {
    TermsBy(Times(r), Times(alpha), v, xs)
  }

  /** The estimate is the sum of the contributions. */
  lemma ClosedForm(alpha: real, s: State, xs: seq<real>)
    ensures Fold(alpha, s, xs).p95 == Sum(Terms(alpha, 1.0 - alpha, s.p95, xs))
  {
    FoldIsFoldBy(alpha, s, xs);
    TimesAdditive(1.0 - alpha);
    FoldIsSumOfTerms(Times(1.0 - alpha), Times(alpha), s.p95, xs);
  }

  /** Each contribution is z times its weight, where z is the seed, or alpha times the
      observation: r^n for the seed, and r^(n - i) for observation i of n. */
  lemma TermIsWeighted(alpha: real, r: real, v: real, xs: seq<real>, i: nat, z: real)
    requires i <= |xs| && z == if i == 0 then v else alpha * xs[i - 1]
    ensures Terms(alpha, r, v, xs)[i] == Pow(r, |xs| - i) * z
  {
    assert z == Fresh(Times(alpha), v, xs, i);
    WeightedTerm(r, Times(alpha), v, xs, i, z);
  }

  lemma WeightedTerm(r: real, weigh: real -> real, v: real, xs: seq<real>, i: nat, z: real)
    requires i <= |xs| && z == Fresh(weigh, v, xs, i)
    ensures TermsBy(Times(r), weigh, v, xs)[i] == Pow(r, |xs| - i) * z
  {
    TermDecays(Times(r), weigh, v, xs, i);
    TimesIterated(r, z, |xs| - i);
  }

  /** The weights, which are the contributions when the seed and all observations are 1, add
      up to 1. */
  lemma WeightsSumToOne(alpha: real, n: nat)
    ensures Sum(Terms(alpha, 1.0 - alpha, 1.0, Constant(1.0, n))) == 1.0
  {
    ClosedForm(alpha, State(1.0, 0), Constant(1.0, n));
    ConstantInput(alpha, State(1.0, 0), 1.0, n);
  }

  // ----- Bounds, monotonicity and convergence -----

  lemma {:induction false} StaysInRange(alpha: real, s: State, xs: seq<real>, lo: real, hi: real)
    requires 0.0 < alpha < 1.0 && lo <= s.p95 <= hi
    requires forall i :: 0 <= i < |xs| ==> lo <= xs[i] <= hi
    ensures lo <= Fold(alpha, s, xs).p95 <= hi
  {
    if xs != [] {
      var n := |xs| - 1;
      StaysInRange(alpha, s, xs[..n], lo, hi);
      Between(alpha, xs[n], Fold(alpha, s, xs[..n]).p95, lo, hi);
    }
  }

  lemma NonNegative(a: real, b: real)
    requires 0.0 <= a && 0.0 <= b
    ensures 0.0 <= a * b
  {
  }

  lemma Between(alpha: real, x: real, p: real, lo: real, hi: real)
    requires 0.0 < alpha < 1.0 && lo <= x <= hi && lo <= p <= hi
    ensures lo <= alpha * x + (1.0 - alpha) * p <= hi
  {
    NonNegative(alpha, x - lo);
    NonNegative(alpha, hi - x);
    NonNegative(1.0 - alpha, p - lo);
    NonNegative(1.0 - alpha, hi - p);
  }

  /** Raising the seed or any observation never lowers the estimate. */
  lemma {:induction false} Monotone(alpha: real, s: State, t: State, xs: seq<real>, ys: seq<real>)
    requires 0.0 < alpha < 1.0 && s.p95 <= t.p95 && |xs| == |ys|
    requires forall i :: 0 <= i < |xs| ==> xs[i] <= ys[i]
    ensures Fold(alpha, s, xs).p95 <= Fold(alpha, t, ys).p95
  {
    if xs != [] {
      var n := |xs| - 1;
      Monotone(alpha, s, t, xs[..n], ys[..n]);
      MonotoneStep(alpha, xs[n], ys[n], Fold(alpha, s, xs[..n]), Fold(alpha, t, ys[..n]));
    }
  }

  lemma MonotoneStep(alpha: real, x: real, y: real, s: State, t: State)
    requires 0.0 < alpha < 1.0 && x <= y && s.p95 <= t.p95
    ensures Observe(alpha, s, x).p95 <= Observe(alpha, t, y).p95
  {
    NonNegative(alpha, y - x);
    NonNegative(1.0 - alpha, t.p95 - s.p95);
  }

  function Constant(x: real, n: nat): seq<real> {
    seq(n, _ => x)
  }

  ghost predicate ShrinksBy(f: real -> real, r: real, x: real, t: real) {
    f(t) - x == r * (t - x)
  }

  /** One factor more: from q * d to (r * q) * d. */
  lemma OneFactor(r: real, q: real, d: real, before: real, after: real)
    requires before == q * d && after == r * before
    ensures after == (r * q) * d
  {
    Associate(r, q, d);
  }

  lemma ShrinksOnce(f: real -> real, r: real, x: real, t: real, d: real, q: real)
    requires ShrinksBy(f, r, x, t) && t - x == q * d
    ensures f(t) - x == (r * q) * d
  {
    OneFactor(r, q, d, t - x, f(t) - x);
  }

  /** A map that shrinks every distance to x by the factor r, iterated. */
  lemma {:induction false} Shrinking(f: real -> real, r: real, x: real, p: real, n: nat)
    requires forall t :: ShrinksBy(f, r, x, t)
    ensures Iterate(f, p, n) - x == Pow(r, n) * (p - x)
  {
    if n > 0 {
      Shrinking(f, r, x, p, n - 1);
      ShrinksOnce(f, r, x, Iterate(f, p, n - 1), p - x, Pow(r, n - 1));
    }
  }

  function Towards(alpha: real, x: real): real -> real {
    t => alpha * x + (1.0 - alpha) * t
  }

  lemma {:induction false} FoldIterates(alpha: real, s: State, x: real, n: nat)
    ensures Fold(alpha, s, Constant(x, n)).p95 == Iterate(Towards(alpha, x), s.p95, n)
  {
    if n > 0 {
      FoldIterates(alpha, s, x, n - 1);
      assert Constant(x, n)[..n - 1] == Constant(x, n - 1);
      assert Fold(alpha, s, Constant(x, n)) == Observe(alpha, Fold(alpha, s, Constant(x, n - 1)), x);
    }
  }

  /** Under constant input the distance to it shrinks by exactly 1 - alpha at each step. */
  lemma ConstantInput(alpha: real, s: State, x: real, n: nat)
    ensures Fold(alpha, s, Constant(x, n)).p95 - x == Pow(1.0 - alpha, n) * (s.p95 - x)
  {
    FoldIterates(alpha, s, x, n);
    TowardsIterated(alpha, x, s.p95, n);
  }

  lemma TowardsIterated(alpha: real, x: real, p: real, n: nat)
    ensures Iterate(Towards(alpha, x), p, n) - x == Pow(1.0 - alpha, n) * (p - x)
  {
    var f, r := Towards(alpha, x), 1.0 - alpha;
    forall t: real ensures ShrinksBy(f, r, x, t) {
      TowardsShrinks(alpha, x, t);
    }
    Shrinking(f, r, x, p, n);
  }

  lemma TowardsShrinks(alpha: real, x: real, t: real)
    ensures alpha * x + (1.0 - alpha) * t - x == (1.0 - alpha) * (t - x)
  {
  }

  lemma {:induction false} PowVanishes(r: real, alpha: real, n: nat)
    requires 0.0 < alpha < 1.0 && r == 1.0 - alpha
    ensures 0.0 < Pow(r, n)
    ensures Pow(r, n) * Growth(alpha, n) <= 1.0 && 1.0 <= Growth(alpha, n)
  {
    if n > 0 {
      PowVanishes(r, alpha, n - 1);
      VanishStep(alpha, r, Pow(r, n - 1), Growth(alpha, n - 1));
    }
  }

  /** 1 + n * alpha, one step at a time. */
  function Growth(alpha: real, n: nat): real {
    if n == 0 then 1.0 else Growth(alpha, n - 1) + alpha
  }

  lemma {:induction false} GrowthIsLinear(alpha: real, n: nat)
    ensures Growth(alpha, n) == 1.0 + n as real * alpha
  {
    if n > 0 {
      GrowthIsLinear(alpha, n - 1);
      assert n as real * alpha == (n - 1) as real * alpha + alpha;
    }
  }

  lemma VanishStep(alpha: real, r: real, p: real, k: real)
    requires 0.0 < alpha < 1.0 && r == 1.0 - alpha && 0.0 < p && 1.0 <= k && p * k <= 1.0
    ensures 0.0 < r * p
    ensures (r * p) * (k + alpha) <= 1.0
  {
    var pk, pa := p * k, p * alpha;
    NonNegative(p, k - 1.0);
    NonNegative(r, 1.0 - pk);
    NonNegative(alpha, 1.0 - p);
    NonNegative(r, alpha - pa);
    Distribute(r, p, k, alpha);
    assert r + r * alpha == 1.0 - alpha * alpha;
    NonNegative(alpha, alpha);
  }

  lemma Distribute(r: real, p: real, k: real, a: real)
    ensures (r * p) * (k + a) == r * (p * k) + r * (p * a)
  {
  }

  function Abs(x: real): real {
    if x < 0.0 then -x else x
  }

  /** Under constant input the estimate comes, and stays, as close to it as one likes. */
  lemma Converges(alpha: real, s: State, x: real, eps: real) returns (enough: nat)
    requires 0.0 < alpha < 1.0 && 0.0 < eps
    ensures forall n: nat :: enough <= n ==> Abs(Fold(alpha, s, Constant(x, n)).p95 - x) < eps
  {
    var bound := Exceeding(Abs(s.p95 - x), eps);
    enough := GrowthExceeds(alpha, bound);
    forall n: nat | enough <= n ensures Abs(Fold(alpha, s, Constant(x, n)).p95 - x) < eps {
      NearAfter(alpha, s, x, eps, bound, n);
    }
  }

  lemma Exceeding(d: real, eps: real) returns (k: real)
    requires 0.0 < eps
    ensures d < k * eps
  {
    k := d / eps + 1.0;
    assert d / eps * eps == d;
  }

  lemma GrowthExceeds(alpha: real, bound: real) returns (enough: nat)
    requires 0.0 < alpha
    ensures forall n: nat :: enough <= n ==> bound <= Growth(alpha, n)
  {
    var need := bound / alpha;
    assert need * alpha == bound;
    enough := if need <= 0.0 then 0 else need.Floor + 1;
    forall n: nat | enough <= n ensures bound <= Growth(alpha, n) {
      GrowthIsLinear(alpha, n);
      NonNegative(n as real - need, alpha);
    }
  }

  lemma NearAfter(alpha: real, s: State, x: real, eps: real, bound: real, n: nat)
    requires 0.0 < alpha < 1.0 && 0.0 < eps && Abs(s.p95 - x) < bound * eps && bound <= Growth(alpha, n)
    ensures Abs(Fold(alpha, s, Constant(x, n)).p95 - x) < eps
  {
    var p := SmallFactor(alpha, s, x, n, bound);
    AbsProduct(p, s.p95 - x, Fold(alpha, s, Constant(x, n)).p95 - x, bound, eps);
  }

  /** The factor by which n constant observations have shrunk the distance, and a bound on it. */
  lemma SmallFactor(alpha: real, s: State, x: real, n: nat, bound: real) returns (p: real)
    requires 0.0 < alpha < 1.0 && bound <= Growth(alpha, n)
    ensures 0.0 < p && p * bound <= 1.0
    ensures Fold(alpha, s, Constant(x, n)).p95 - x == p * (s.p95 - x)
  {
    p := SmallPower(1.0 - alpha, alpha, n, bound);
    ConstantInput(alpha, s, x, n);
  }

  lemma SmallPower(r: real, alpha: real, n: nat, bound: real) returns (p: real)
    requires 0.0 < alpha < 1.0 && r == 1.0 - alpha && bound <= Growth(alpha, n)
    ensures p == Pow(r, n) && 0.0 < p && p * bound <= 1.0
  {
    p := Pow(r, n);
    PowVanishes(r, alpha, n);
    Lessen(p, Growth(alpha, n), bound);
  }

  lemma Lessen(p: real, k: real, bound: real)
    requires 0.0 < p && p * k <= 1.0 && bound <= k
    ensures p * bound <= 1.0
  {
    NonNegative(p, k - bound);
  }

  lemma AbsProduct(p: real, d: real, e: real, k: real, eps: real)
    requires 0.0 < p && e == p * d && p * k <= 1.0 && 0.0 < eps && Abs(d) < k * eps
    ensures Abs(e) < eps
  {
    if d < 0.0 {
      NonNegative(p, -d);
      assert e == -(p * -d);
      Shrinks(p, -d, k, eps);
    } else {
      NonNegative(p, d);
      Shrinks(p, d, k, eps);
    }
  }

  lemma Shrinks(p: real, d: real, k: real, eps: real)
    requires 0.0 < p && 0.0 <= d < k * eps && p * k <= 1.0 && 0.0 < eps
    ensures p * d < eps
  {
    assert p * d < p * (k * eps);
    assert p * (k * eps) == (p * k) * eps;
    assert (p * k) * eps <= 1.0 * eps;
  }

  // ----- Hedge threshold -----

  /** math.MaxFloat64: (2^53 - 1) * 2^71 * (2^300)^3. */
  const MAX_FLOAT64: real :=
    9007199254740991.0 * 2361183241434822606848.0
    * 2037035976334486086268445688409378161051468393665936250636140449354381299763336706183397376.0
    * 2037035976334486086268445688409378161051468393665936250636140449354381299763336706183397376.0
    * 2037035976334486086268445688409378161051468393665936250636140449354381299763336706183397376.0

  function HedgeThreshold(cfg: Config, s: State): real {
    if s.observations < cfg.warmup then MAX_FLOAT64 else s.p95 * cfg.multiplier
  }

  /** The difference of two instants, saturated at the range of a 64-bit duration. */
  function Since(now: int, start: int): int {
    var d := now - start;
    if d > MAX_INT64 then MAX_INT64 else if d < MIN_INT64 then MIN_INT64 else d
  }

  /** The elapsed nanoseconds, unless they do not fit in 64 bits. */
  lemma SinceIsElapsed(now: int, start: int)
    ensures -0x8000_0000_0000_0000 <= now - start <= 0x7fff_ffff_ffff_ffff ==> Since(now, start) == now - start
    ensures now - start > 0x7fff_ffff_ffff_ffff ==> Since(now, start) == 0x7fff_ffff_ffff_ffff
    ensures now - start < -0x8000_0000_0000_0000 ==> Since(now, start) == -0x8000_0000_0000_0000
  {
  }

  predicate Overdue(now: int, start: int, threshold: real) {
    Milliseconds(Since(now, start)) >= threshold
  }

  /** The carrier has as many observations as its warm-up asks for, and the elapsed time has
      reached multiplier times their estimate. */
  ghost predicate Due(cfg: Config, s: State, xs: seq<real>, now: int, start: int) {
    |xs| >= cfg.warmup
    && Since(now, start) as real >= Fold(Alpha(cfg), s, xs).p95 * cfg.multiplier * 1_000_000.0
  }

  /** A carrier is overdue exactly when it has as many committed observations as its
      warm-up asks for and the elapsed time has reached multiplier times their estimate. */
  lemma OverdueExactly(cfg: Config, s: State, xs: seq<real>, now: int, start: int)
    requires s.observations == 0
    ensures Overdue(now, start, HedgeThreshold(cfg, Fold(Alpha(cfg), s, xs))) <==> Due(cfg, s, xs, now, start)
  {
    FoldCounts(Alpha(cfg), s, xs);
    OverdueState(cfg, Fold(Alpha(cfg), s, xs), now, start);
  }

  lemma OverdueState(cfg: Config, s: State, now: int, start: int)
    ensures Overdue(now, start, HedgeThreshold(cfg, s)) <==>
            s.observations >= cfg.warmup && Since(now, start) as real >= s.p95 * cfg.multiplier * 1_000_000.0
  {
    assert Milliseconds(Since(now, start)) < MAX_FLOAT64 by {
      assert Since(now, start) as real <= MAX_INT64 as real;
    }
  }

  // ----- The tracker as an object -----

  /** An immutable state behind a pointer. */
  class Cell {
    const value: State
    constructor (v: State)
      ensures value == v
    {
      value := v;
    }
  }

  class Tracker {
    const cfg: Config
    var state: Cell
    ghost var observed: seq<real>
    ghost var gauge: Option<real>
    ghost const seed: State

    ghost predicate Valid()
      reads this
    {
      state.value == Fold(Alpha(cfg), seed, observed) && seed.observations == 0
    }

    constructor (hint: int, config: Config)
      ensures Valid() && cfg == config && seed == Initial(hint) && observed == []
      ensures TwiceTheHint(state.value.p95, hint) && state.value.observations == 0
    {
      cfg := config;
      seed := Initial(hint);
      state := new Cell(Initial(hint));
      observed, gauge := [], None;
      SeedIsTwiceTheHint(hint);
    }

    method CompareAndSwap(expected: Cell, next: Cell) returns (swapped: bool)
      modifies this`state
      ensures swapped == (old(state) == expected)
      ensures state == if swapped then next else old(state)
    {
      swapped := state == expected;
      if swapped { state := next; }
    }

    /** Records one latency; the retry loop ends at once when nobody else is recording. */
    method Record(latency: int)
      requires Valid()
      modifies this`state, this`observed, this`gauge
      ensures Valid() && observed == old(observed) + [Milliseconds(latency)]
      ensures observed[|old(observed)|] * 1_000_000.0 == latency as real
      ensures gauge == Some(state.value.p95)
    {
      var x := Milliseconds(latency);
      var swapped := false;
      while !swapped
        invariant swapped ==> state.value == Observe(Alpha(cfg), old(state.value), x)
        invariant !swapped ==> state == old(state)
        invariant observed == old(observed)
        decreases !swapped
      {
        var seen := state;
        var next := new Cell(Observe(Alpha(cfg), seen.value, x));
        swapped := CompareAndSwap(seen, next);
      }
      FoldNext(Alpha(cfg), seed, observed, x);
      observed := observed + [x];
      gauge := Some(state.value.p95);
    }

    /** The latency at which a hedge should fire, as a statement about what was recorded. */
    method Threshold() returns (t: real)
      requires Valid()
      ensures |observed| < cfg.warmup ==> t == MAX_FLOAT64
      ensures |observed| >= cfg.warmup ==> t == Fold(Alpha(cfg), seed, observed).p95 * cfg.multiplier
    {
      FoldCounts(Alpha(cfg), seed, observed);
      t := HedgeThreshold(cfg, state.value);
    }
  }
}
