/** EmaFilter and Lowpass1Filter, over the reals: the recurrence y = alpha * x + (1 - alpha) * y that
    both run, what it computes, and the two ways its coefficient is chosen. */
module Iir {
  import opened Powers

  /** The fields of either filter. */
  datatype Iir = Iir(alpha: real, y: real, initialized: bool)

  function Feed(f: Iir, x: real): Iir {
    if !f.initialized then f.(y := x, initialized := true)
    else f.(y := f.alpha * x + (1.0 - f.alpha) * f.y)
  }

  function FeedAll(f: Iir, xs: seq<real>): Iir {
    if xs == [] then f else Feed(FeedAll(f, xs[..|xs| - 1]), xs[|xs| - 1])
  }

  function Reset(f: Iir): Iir {
    f.(y := 0.0, initialized := false)
  }

  // ---- coefficients ----

  /** EmaFilter's constructor brings its parameter into (0, 1]. */
  function EmaAlpha(alpha: real): (a: real)
    ensures 0.0 < a <= 1.0
    ensures 0.0 < alpha <= 1.0 ==> a == alpha
    ensures alpha > 1.0 ==> a == 1.0
    ensures alpha <= 0.0 ==> a == 0.001
  {
    if !(alpha > 0.0 && alpha <= 1.0) then (if alpha > 1.0 then 1.0 else 0.001) else alpha
  }

  const TWO_PI: real := 6.28318530718

  function Positive(v: real, fallback: real): (r: real)
    requires fallback > 0.0
    ensures r > 0.0 && (v > 0.0 ==> r == v)
  {
    if !(v > 0.0) then fallback else v
  }

  /** Lowpass1Filter's alpha = dt / (rc + dt), for a cutoff and a sample rate already made positive. */
  function AlphaOf(cutoff: real, rate: real): real
    requires cutoff > 0.0 && rate > 0.0
  {
    ProductPositive(TWO_PI, cutoff);
    var rc := 1.0 / (TWO_PI * cutoff);
    var dt := 1.0 / rate;
    QuotientPositive(TWO_PI * cutoff);
    QuotientPositive(rate);
    dt / (rc + dt)
  }

  function LowpassAlpha(cutoffHz: real, sampleHz: real): real {
    AlphaOf(Positive(cutoffHz, 0.001), Positive(sampleHz, 1.0))
  }

  lemma {:induction false} ProductPositive(a: real, b: real)
    requires a > 0.0 && b > 0.0
    ensures a * b > 0.0
  {}

  lemma {:induction false} QuotientPositive(a: real)
    requires a > 0.0
    ensures 1.0 / a > 0.0
  {}

  /** With w = 2 pi cutoff the coefficient is w / (w + rate). */
  lemma {:induction false} AlphaIsFraction(cutoff: real, rate: real)
    requires cutoff > 0.0 && rate > 0.0
    ensures TWO_PI * cutoff + rate > 0.0
    ensures AlphaOf(cutoff, rate) == TWO_PI * cutoff / (TWO_PI * cutoff + rate)
  {
    var w := TWO_PI * cutoff;
    ProductPositive(TWO_PI, cutoff);
    QuotientPositive(w);
    QuotientPositive(rate);
    Fraction(w, rate);
  }

  lemma {:induction false} Fraction(w: real, r: real)
    requires w > 0.0 && r > 0.0
    ensures 1.0 / w + 1.0 / r > 0.0
    ensures (1.0 / r) / (1.0 / w + 1.0 / r) == w / (w + r)
  {
    var a, b := 1.0 / w, 1.0 / r;
    QuotientPositive(w);
    QuotientPositive(r);
    assert a * w == 1.0 && b * r == 1.0;
    var q := w / (w + r);
    assert q * (w + r) == w;
    // b * (w + r) == w * (a + b), after multiplying through by w and r
    assert b * (w + r) == b * w + 1.0;
    assert w * (a + b) == 1.0 + w * b;
    assert q * (a + b) * (w + r) == w * (a + b) by {
      assert q * (a + b) * (w + r) == (q * (w + r)) * (a + b);
    }
    assert (q * (a + b) - b) * (w + r) == 0.0;
    assert q * (a + b) == b;
  }

  /** The low-pass coefficient, multiplied out, for the cutoff and rate or what stands in for them when they are
      not positive. */
  lemma {:induction false} LowpassAlphaIs(cutoffHz: real, sampleHz: real)
    ensures var cutoff := if cutoffHz > 0.0 then cutoffHz else 0.001;
      var rate := if sampleHz > 0.0 then sampleHz else 1.0;
      LowpassAlpha(cutoffHz, sampleHz) * (6.28318530718 * cutoff + rate) == 6.28318530718 * cutoff
  {
    hide AlphaOf;
    var c, r := Positive(cutoffHz, 0.001), Positive(sampleHz, 1.0);
    AlphaIsFraction(c, r);
    QuotientTimes(TWO_PI * c, TWO_PI * c + r);
  }

  lemma {:induction false} QuotientTimes(a: real, b: real)
    requires b != 0.0
    ensures a / b * b == a
  {}

  /** The low-pass coefficient lies strictly between 0 and 1 and grows with the cutoff. */
  lemma {:induction false} LowpassAlphaInRange(cutoffHz: real, sampleHz: real)
    ensures 0.0 < LowpassAlpha(cutoffHz, sampleHz) < 1.0
  {
    var c, r := Positive(cutoffHz, 0.001), Positive(sampleHz, 1.0);
    AlphaIsFraction(c, r);
    ProductPositive(TWO_PI, c);
    FractionInUnit(TWO_PI * c, r);
  }

  lemma {:induction false} LowpassAlphaIncreases(cutoff1: real, cutoff2: real, sampleHz: real)
    requires 0.0 < cutoff1 < cutoff2
    ensures LowpassAlpha(cutoff1, sampleHz) < LowpassAlpha(cutoff2, sampleHz)
  {
    var r := Positive(sampleHz, 1.0);
    AlphaIsFraction(cutoff1, r);
    AlphaIsFraction(cutoff2, r);
    ProductPositive(TWO_PI, cutoff1);
    FractionIncreases(TWO_PI * cutoff1, TWO_PI * cutoff2, r);
  }

  lemma {:induction false} FractionInUnit(w: real, r: real)
    requires w > 0.0 && r > 0.0
    ensures 0.0 < w / (w + r) < 1.0
  {
    var q := w / (w + r);
    assert q * (w + r) == w;
    PositiveFactor(q, w + r);
    assert (1.0 - q) * (w + r) == r;
    PositiveFactor(1.0 - q, w + r);
  }

  lemma {:induction false} FractionIncreases(v: real, w: real, r: real)
    requires 0.0 < v < w && r > 0.0
    ensures v / (v + r) < w / (w + r)
  {
    FractionInUnit(w, r);
    FractionOrder(v / (v + r), w / (w + r), v, w, r);
  }

  lemma {:induction false} FractionOrder(p: real, q: real, v: real, w: real, r: real)
    requires 0.0 < v < w && r > 0.0 && q < 1.0
    requires p * (v + r) == v && q * (w + r) == w
    ensures p < q
  {
    ProductPositive(1.0 - q, w - v);
    PositiveFactor(q - p, v + r);
  }

  // ---- what the recurrence computes ----

  lemma {:induction false} FeedAllShape(f: Iir, xs: seq<real>)
    ensures FeedAll(f, xs).alpha == f.alpha
    ensures FeedAll(f, xs).initialized == (f.initialized || xs != [])
  {
    if xs != [] {
      FeedAllShape(f, xs[..|xs| - 1]);
    }
  }

  /** Every output since a reset lies between any bounds of the inputs since then. */
  lemma {:induction false} OutputIsBounded(f: Iir, xs: seq<real>, lo: real, hi: real)
    requires !f.initialized && 0.0 <= f.alpha <= 1.0 && xs != []
    requires forall i :: 0 <= i < |xs| ==> lo <= xs[i] <= hi
    ensures lo <= FeedAll(f, xs).y <= hi
  {
    var front := xs[..|xs| - 1];
    FeedAllShape(f, front);
    if front != [] {
      OutputIsBounded(f, front, lo, hi);
      Convex(f.alpha, xs[|xs| - 1], FeedAll(f, front).y, lo, hi);
    }
  }

  lemma {:induction false} Convex(a: real, x: real, y: real, lo: real, hi: real)
    requires 0.0 <= a <= 1.0 && lo <= x <= hi && lo <= y <= hi
    ensures lo <= a * x + (1.0 - a) * y <= hi
  {
    NonNegative(a, x - lo);
    NonNegative(1.0 - a, y - lo);
    NonNegative(a, hi - x);
    NonNegative(1.0 - a, hi - y);
    assert a * x + (1.0 - a) * y - lo == a * (x - lo) + (1.0 - a) * (y - lo);
    assert hi - (a * x + (1.0 - a) * y) == a * (hi - x) + (1.0 - a) * (hi - y);
  }

  function Scale(b: real, ws: seq<real>): (r: seq<real>)
    ensures |r| == |ws|
  {
    if ws == [] then [] else Scale(b, ws[..|ws| - 1]) + [b * ws[|ws| - 1]]
  }

  /** The weights of n inputs: one more input scales the earlier weights by 1 - alpha. */
  function Weights(alpha: real, n: nat): (ws: seq<real>)
    ensures |ws| == n
  {
    if n == 0 then [] else Scale(1.0 - alpha, Weights(alpha, n - 1)) + [if n == 1 then 1.0 else alpha]
  }

  function Times(a: real, b: real): real {
    a * b
  }

  /** The sum of ws[i] * xs[i]. */
  function Dot(ws: seq<real>, xs: seq<real>): real
    requires |ws| == |xs|
  {
    if xs == [] then 0.0
    else Dot(ws[..|xs| - 1], xs[..|xs| - 1]) + Times(ws[|xs| - 1], xs[|xs| - 1])
  }

  lemma {:induction false} DotSnoc(ws: seq<real>, w: real, xs: seq<real>, x: real)
    requires |ws| == |xs|
    ensures Dot(ws + [w], xs + [x]) == Dot(ws, xs) + Times(w, x)
  {
    hide Times;
    assert (ws + [w])[..|xs|] == ws && (xs + [x])[..|xs|] == xs;
  }

  lemma {:induction false} DotScales(b: real, ws: seq<real>, xs: seq<real>)
    requires |ws| == |xs|
    ensures Dot(Scale(b, ws), xs) == b * Dot(ws, xs)
  {
    if xs != [] {
      var i := |xs| - 1;
      DotScales(b, ws[..i], xs[..i]);
      DotSnoc(Scale(b, ws[..i]), b * ws[i], xs[..i], xs[i]);
      assert xs == xs[..i] + [xs[i]];
      MulDistributes(b, Dot(ws[..i], xs[..i]), ws[i], xs[i]);
    }
  }

  lemma {:induction false} MulDistributes(b: real, s: real, w: real, x: real)
    ensures b * s + b * w * x == b * (s + w * x)
  {}

  lemma {:induction false} ScaleAt(b: real, ws: seq<real>, i: nat)
    requires i < |ws|
    ensures Scale(b, ws)[i] == b * ws[i]
  {
    if i < |ws| - 1 {
      ScaleAt(b, ws[..|ws| - 1], i);
    }
  }

  /** Input 0 weighs (1-alpha)^(n-1), input i > 0 weighs alpha (1-alpha)^(n-1-i). */
  lemma {:induction false} WeightAt(alpha: real, n: nat, i: nat)
    requires i < n
    ensures Weights(alpha, n)[i] == (if i == 0 then 1.0 else alpha) * Power(1.0 - alpha, n - 1 - i)
  {
    hide Scale;
    var b, c := 1.0 - alpha, if i == 0 then 1.0 else alpha;
    if i == n - 1 {
      assert Power(b, 0) == 1.0;
    } else {
      WeightAt(alpha, n - 1, i);
      ScaleAt(b, Weights(alpha, n - 1), i);
      assert Power(b, n - 1 - i) == b * Power(b, n - 2 - i);
      MulSwaps(b, c, Power(b, n - 2 - i));
    }
  }

  lemma {:induction false} MulSwaps(b: real, c: real, p: real)
    ensures b * (c * p) == c * (b * p)
  {}

  lemma {:induction false} DotOfWeights(alpha: real, n: nat, xs: seq<real>)
    requires |xs| == n + 1
    ensures Dot(Weights(alpha, n + 1), xs) ==
            (1.0 - alpha) * Dot(Weights(alpha, n), xs[..n]) + (if n == 0 then 1.0 else alpha) * xs[n]
  {
    hide Dot, Scale;
    DotSnoc(Scale(1.0 - alpha, Weights(alpha, n)), if n == 0 then 1.0 else alpha, xs[..n], xs[n]);
    assert xs == xs[..n] + [xs[n]];
    DotScales(1.0 - alpha, Weights(alpha, n), xs[..n]);
  }

  lemma {:induction false} FeedNothing(f: Iir, xs: seq<real>)
    requires xs == []
    ensures FeedAll(f, xs) == f
  {}

  lemma {:induction false} FeedSnoc(f: Iir, xs: seq<real>)
    requires xs != []
    ensures FeedAll(f, xs) == Feed(FeedAll(f, xs[..|xs| - 1]), xs[|xs| - 1])
  {}

  /** The closed form: the output is the weighted sum of all inputs since the reset. */
  lemma {:induction false} ClosedForm(f: Iir, xs: seq<real>)
    requires !f.initialized && xs != []
    ensures FeedAll(f, xs).y == Dot(Weights(f.alpha, |xs|), xs)
  {
    hide FeedAll, Weights;
    var n := |xs| - 1;
    FeedAllShape(f, xs[..n]);
    FeedSnoc(f, xs);
    DotOfWeights(f.alpha, n, xs);
    if n > 0 {
      ClosedForm(f, xs[..n]);
    } else {
      assert Dot(Weights(f.alpha, 0), xs[..0]) == 0.0;
    }
  }

  /** The weights of the closed form sum to 1. */
  lemma {:induction false} WeightsSumToOne(alpha: real, n: nat)
    requires n > 0
    ensures Dot(Weights(alpha, n), seq(n, _ => 1.0)) == 1.0
  {
    var f := Iir(alpha, 0.0, false);
    ConstantOnes(f, n);
    ClosedForm(f, seq(n, _ => 1.0));
  }

  lemma {:induction false} ConstantOnes(f: Iir, n: nat)
    requires !f.initialized && n > 0
    ensures FeedAll(f, seq(n, _ => 1.0)).y == 1.0
  {
    var xs := seq(n, _ => 1.0);
    assert xs[..n - 1] == seq(n - 1, _ => 1.0);
    FeedAllShape(f, xs[..n - 1]);
    if n > 1 {
      ConstantOnes(f, n - 1);
    }
  }

  lemma {:induction false} ErrorStep(alpha: real, c: real, y: real, p: real, y0: real)
    requires y - c == p * (y0 - c)
    ensures alpha * c + (1.0 - alpha) * y - c == (1.0 - alpha) * p * (y0 - c)
  {
    assert alpha * c + (1.0 - alpha) * y - c == (1.0 - alpha) * (y - c);
    assert (1.0 - alpha) * (p * (y0 - c)) == (1.0 - alpha) * p * (y0 - c);
  }

  /** Under a constant input c the error shrinks by exactly 1 - alpha per sample. */
  lemma {:induction false} ConstantInput(f: Iir, c: real, n: nat)
    requires f.initialized
    ensures FeedAll(f, seq(n, _ => c)).y - c == Power(1.0 - f.alpha, n) * (f.y - c)
  {
    hide FeedAll;
    var xs := seq(n, _ => c);
    if n == 0 {
      FeedNothing(f, xs);
    } else {
      assert xs[..n - 1] == seq(n - 1, _ => c);
      ConstantInput(f, c, n - 1);
      FeedAllShape(f, xs[..n - 1]);
      FeedSnoc(f, xs);
      var y, p := FeedAll(f, xs[..n - 1]).y, Power(1.0 - f.alpha, n - 1);
      ErrorStep(f.alpha, c, y, p, f.y);
    }
  }
}
