/**
 The EWMA detector.  Its one-pass recurrences for the mean and the variance are
 exactly the exponentially weighted mean and the weighted variance about that
 final mean, in exact arithmetic.
 */
module Ewma {
  import opened Prelude

  /** Products are named so that equal factors give equal products by congruence. */
  function Mul(a: real, b: real): real {
    a * b
  }

  // ------------------------------------------------------- batch definition

  function Scale(c: real, ws: seq<real>): (r: seq<real>)
    ensures |r| == |ws|
  {
    if ws == [] then [] else Scale(c, ws[..|ws| - 1]) + [Mul(c, ws[|ws| - 1])]
  }

  /** A new observation scales every older weight by 1 - alpha and enters with weight alpha. */
  function Weights(alpha: real, n: nat): (r: seq<real>)
    ensures |r| == n
  {
    if n == 0 then [] else if n == 1 then [1.0] else Scale(1.0 - alpha, Weights(alpha, n - 1)) + [alpha]
  }

  function Dot(ws: seq<real>, vs: seq<real>): real
    requires |ws| == |vs|
  {
    if ws == [] then 0.0
    else Dot(ws[..|ws| - 1], vs[..|vs| - 1]) + Mul(ws[|ws| - 1], vs[|vs| - 1])
  }

  function Ones(n: nat): (r: seq<real>)
    ensures |r| == n
  {
    if n == 0 then [] else Ones(n - 1) + [1.0]
  }

  function SquaredDev(xs: seq<real>, m: real): (r: seq<real>)
    ensures |r| == |xs|
  {
    if xs == [] then [] else SquaredDev(xs[..|xs| - 1], m) + [Mul(xs[|xs| - 1] - m, xs[|xs| - 1] - m)]
  }

  /** The exponentially weighted mean. */
  function Mean(alpha: real, xs: seq<real>): real {
    Dot(Weights(alpha, |xs|), xs)
  }

  /** The weighted variance about that mean. */
  function Variance(alpha: real, xs: seq<real>): real {
    Dot(Weights(alpha, |xs|), SquaredDev(xs, Mean(alpha, xs)))
  }

  // --------------------------------------------------------------- the loop

  /** The loop of `EWMADetector.detect`. */
  method OnePass(alpha: real, hist: seq<real>) returns (ewma: real, ewvar: real)
    requires hist != []
    ensures ewma == Mean(alpha, hist)
    ensures ewvar == Variance(alpha, hist)
  {
    ewma, ewvar := hist[0], 0.0;
    First(alpha, hist[0]);
    assert hist[..1] == [hist[0]];
    for i := 1 to |hist|
      invariant ewma == Mean(alpha, hist[..i])
      invariant ewvar == Variance(alpha, hist[..i])
    {
      MeanStep(alpha, hist[..i], hist[i]);
      VarianceStep(alpha, hist[..i], hist[i]);
      assert hist[..i] + [hist[i]] == hist[..i + 1];
      ewma, ewvar := Update(alpha, ewma, ewvar, hist[i]);
    }
    assert hist[..|hist|] == hist;
  }

  /** The body of the loop. */
  method Update(alpha: real, ewma0: real, ewvar0: real, x: real) returns (ewma: real, ewvar: real)
    ensures ewma == NextMean(alpha, ewma0, x)
    ensures ewvar == NextVariance(alpha, ewma0, ewvar0, x)
  {
    ewma, ewvar := ewma0, ewvar0;
    var diff := x - ewma;
    ewma := ewma + alpha * diff;
    ewvar := (1.0 - alpha) * (ewvar + alpha * diff * diff);
  }

  function NextMean(alpha: real, m: real, x: real): real {
    m + Mul(alpha, x - m)
  }

  function NextVariance(alpha: real, m: real, v: real, x: real): real {
    Mul(1.0 - alpha, v + Mul(Mul(alpha, x - m), x - m))
  }

  lemma First(alpha: real, x: real)
    ensures Mean(alpha, [x]) == x && Variance(alpha, [x]) == 0.0
  {
    DotSnoc([], [], 1.0, x);
    assert [] + [1.0] == [1.0] && [] + [x] == [x];
    DotSnoc([], [], 1.0, Mul(x - x, x - x));
    assert SquaredDev([x], x) == [] + [Mul(x - x, x - x)];
  }

  // ----------------------------------------------------- sums with weights

  lemma DotSnoc(ws: seq<real>, vs: seq<real>, w: real, v: real)
    requires |ws| == |vs|
    ensures Dot(ws + [w], vs + [v]) == Dot(ws, vs) + Mul(w, v)
  {
    assert (ws + [w])[..|ws + [w]| - 1] == ws && (vs + [v])[..|vs + [v]| - 1] == vs;
  }

  lemma {:induction false} DotScale(c: real, ws: seq<real>, vs: seq<real>)
    requires |ws| == |vs|
    ensures Dot(Scale(c, ws), vs) == Mul(c, Dot(ws, vs))
  {
    if ws != [] {
      var n := |ws| - 1;
      DotScale(c, ws[..n], vs[..n]);
      DotSnoc(Scale(c, ws[..n]), vs[..n], Mul(c, ws[n]), vs[n]);
      assert vs[..n] + [vs[n]] == vs;
      Distribute(c, Dot(ws[..n], vs[..n]), ws[n], vs[n]);
    }
  }

  lemma Distribute(c: real, s: real, w: real, v: real)
    ensures Mul(c, s) + Mul(Mul(c, w), v) == Mul(c, s + Mul(w, v))
  {
  }

  /** The sum of squares about `c`, from the sums about `m`. */
  function Moved(dm: real, s: real, t: real, m: real, c: real): real {
    dm + 2.0 * Mul(m - c, s - Mul(m, t)) + Mul(Mul(m - c, m - c), t)
  }

  ghost predicate Recentres(ws: seq<real>, xs: seq<real>, m: real, c: real)
    requires |ws| == |xs|
  {
    Dot(ws, SquaredDev(xs, c)) ==
      Moved(Dot(ws, SquaredDev(xs, m)), Dot(ws, xs), Dot(ws, Ones(|ws|)), m, c)
  }

  /** Moving the centre from `m` to `c`: the parallel axis theorem for weighted sums. */
  lemma {:induction false} Recentre(ws: seq<real>, xs: seq<real>, m: real, c: real)
    requires |ws| == |xs|
    ensures Recentres(ws, xs, m, c)
  {
    if ws != [] {
      var n := |ws| - 1;
      Recentre(ws[..n], xs[..n], m, c);
      RecentreStep(ws[..n], xs[..n], ws[n], xs[n], m, c);
      assert ws == ws[..n] + [ws[n]] && xs == xs[..n] + [xs[n]];
    } else {
      MovedZero(m, c);
    }
  }

  lemma MulZero(a: real)
    ensures Mul(a, 0.0) == 0.0
  {
  }

  lemma MovedZero(m: real, c: real)
    ensures Moved(0.0, 0.0, 0.0, m, c) == 0.0
  {
    MulZero(m);
    MulZero(m - c);
    MulZero(Mul(m - c, m - c));
  }

  lemma DevSnoc(ys: seq<real>, x: real, m: real)
    ensures SquaredDev(ys + [x], m) == SquaredDev(ys, m) + [Mul(x - m, x - m)]
  {
    assert (ys + [x])[..|ys + [x]| - 1] == ys;
  }

  lemma RecentreStep(us: seq<real>, ys: seq<real>, w: real, x: real, m: real, c: real)
    requires |us| == |ys| && Recentres(us, ys, m, c)
    ensures Recentres(us + [w], ys + [x], m, c)
  {
    var n := |us|;
    DevSnoc(ys, x, c);
    DevSnoc(ys, x, m);
    DotSnoc(us, SquaredDev(ys, c), w, Mul(x - c, x - c));
    DotSnoc(us, SquaredDev(ys, m), w, Mul(x - m, x - m));
    DotSnoc(us, ys, w, x);
    DotSnoc(us, Ones(n), w, 1.0);
    assert Ones(n + 1) == Ones(n) + [1.0];
    RecentreSum(Dot(us, SquaredDev(ys, m)), Dot(us, ys), Dot(us, Ones(n)), w, x, m, c);
  }

  lemma RecentreSum(dm: real, s: real, t: real, w: real, x: real, m: real, c: real)
    ensures Moved(dm, s, t, m, c) + Mul(w, Mul(x - c, x - c)) ==
              Moved(dm + Mul(w, Mul(x - m, x - m)), s + Mul(w, x), t + Mul(w, 1.0), m, c)
  {
    var p, wx, w1 := m - c, Mul(w, x), Mul(w, 1.0);
    ExpandSquare(w, x, m, c);
    Split(m, t, w1);
    assert (s + wx) - Mul(m, t + w1) == (s - Mul(m, t)) + (wx - Mul(m, w1));
    Split(p, s - Mul(m, t), wx - Mul(m, w1));
    Split(Mul(p, p), t, w1);
  }

  lemma Split(c: real, a: real, b: real)
    ensures Mul(c, a + b) == Mul(c, a) + Mul(c, b)
  {
  }

  /** One weighted square about `c`, from the square about `m`. */
  lemma ExpandSquare(w: real, x: real, m: real, c: real)
    ensures Mul(w, Mul(x - c, x - c)) ==
              Mul(w, Mul(x - m, x - m))
              + 2.0 * Mul(m - c, Mul(w, x) - Mul(m, Mul(w, 1.0))) + Mul(Mul(m - c, m - c), Mul(w, 1.0))
  {
    var d, p := x - m, m - c;
    calc {
      Mul(w, Mul(x - c, x - c));
      w * ((d + p) * (d + p));
      w * (d * d) + 2.0 * (p * (w * d)) + (p * p) * w;
      w * (d * d) + 2.0 * (p * (w * x - m * w)) + (p * p) * w;
    }
  }

  // ------------------------------------------------ one more observation

  lemma DotStep(alpha: real, n: nat, vs: seq<real>, v: real)
    requires n >= 1 && |vs| == n
    ensures Dot(Weights(alpha, n + 1), vs + [v]) == Mul(1.0 - alpha, Dot(Weights(alpha, n), vs)) + Mul(alpha, v)
  {
    DotSnoc(Scale(1.0 - alpha, Weights(alpha, n)), vs, alpha, v);
    DotScale(1.0 - alpha, Weights(alpha, n), vs);
  }

  function Total(alpha: real, n: nat): real {
    Dot(Weights(alpha, n), Ones(n))
  }

  /** The weights sum to one, for any alpha and any number of observations. */
  lemma {:induction false} WeightsSumToOne(alpha: real, n: nat)
    requires n >= 1
    ensures Total(alpha, n) == 1.0
  {
    if n == 1 {
      SingleWeight(alpha);
    } else {
      WeightsSumToOne(alpha, n - 1);
      TotalStep(alpha, n - 1);
    }
  }

  lemma TotalStep(alpha: real, n: nat)
    requires n >= 1 && Total(alpha, n) == 1.0
    ensures Total(alpha, n + 1) == 1.0
  {
    OnesStep(alpha, n);
    Parts(alpha, Total(alpha, n));
  }

  lemma OnesStep(alpha: real, n: nat)
    requires n >= 1
    ensures Dot(Weights(alpha, n + 1), Ones(n + 1)) ==
            Mul(1.0 - alpha, Dot(Weights(alpha, n), Ones(n))) + Mul(alpha, 1.0)
  {
    DotStep(alpha, n, Ones(n), 1.0);
  }

  lemma SingleWeight(alpha: real)
    ensures Dot(Weights(alpha, 1), Ones(1)) == 1.0
  {
    DotSnoc([], [], 1.0, 1.0);
    assert [] + [1.0] == [1.0] && Ones(1) == [1.0] && Mul(1.0, 1.0) == 1.0;
  }

  lemma Parts(alpha: real, d: real)
    requires d == 1.0
    ensures Mul(1.0 - alpha, d) + Mul(alpha, 1.0) == 1.0
  {
  }

  lemma MeanStep(alpha: real, xs: seq<real>, x: real)
    requires xs != []
    ensures Mean(alpha, xs + [x]) == NextMean(alpha, Mean(alpha, xs), x)
  {
    DotStep(alpha, |xs|, xs, x);
    Blend(alpha, Mean(alpha, xs), x);
  }

  lemma Blend(alpha: real, m: real, x: real)
    ensures Mul(1.0 - alpha, m) + Mul(alpha, x) == NextMean(alpha, m, x)
  {
  }

  lemma VarianceStep(alpha: real, xs: seq<real>, x: real)
    requires xs != []
    ensures Variance(alpha, xs + [x]) == NextVariance(alpha, Mean(alpha, xs), Variance(alpha, xs), x)
  {
    var n, m, c := |xs|, Mean(alpha, xs), Mean(alpha, xs + [x]);
    MeanStep(alpha, xs, x);
    assert (xs + [x])[..|xs + [x]| - 1] == xs;
    DotStep(alpha, n, SquaredDev(xs, c), Mul(x - c, x - c));
    Recentre(Weights(alpha, n), xs, m, c);
    WeightsSumToOne(alpha, n);
    VarianceAlgebra(alpha, m, x, c, Variance(alpha, xs));
  }

  /** The algebra of one step: `v` about `m` is moved to `c`, scaled, and gains the new term. */
  lemma VarianceAlgebra(alpha: real, m: real, x: real, c: real, v: real)
    requires c == NextMean(alpha, m, x)
    ensures Mul(1.0 - alpha, Moved(v, m, 1.0, m, c)) + Mul(alpha, Mul(x - c, x - c)) == NextVariance(alpha, m, v, x)
  {
    var diff := x - m;
    assert m - c == -(alpha * diff) && x - c == (1.0 - alpha) * diff;
    assert Moved(v, m, 1.0, m, c) == v + (alpha * diff) * (alpha * diff);
    Algebra(alpha, v, diff);
  }

  lemma Algebra(alpha: real, v: real, diff: real)
    ensures (1.0 - alpha) * (v + (alpha * diff) * (alpha * diff))
            + alpha * (((1.0 - alpha) * diff) * ((1.0 - alpha) * diff))
            == (1.0 - alpha) * (v + alpha * diff * diff)
  {
  }

  // ---------------------------------------------------- closed form, bounds

  function Pow(b: real, n: nat): real {
    if n == 0 then 1.0 else Mul(b, Pow(b, n - 1))
  }

  /** The weights in closed form: alpha (1 - alpha)^age, and (1 - alpha)^(n - 1) for the first observation. */
  lemma {:induction false} WeightsClosedForm(alpha: real, n: nat, i: nat)
    requires i < n
    ensures Weights(alpha, n)[i] ==
              if i == 0 then Pow(1.0 - alpha, n - 1) else Mul(alpha, Pow(1.0 - alpha, n - 1 - i))
  {
    var b := 1.0 - alpha;
    if i == n - 1 {
      assert n > 1 ==> Mul(alpha, Pow(b, 0)) == alpha;
    } else {
      WeightsClosedForm(alpha, n - 1, i);
      ScaleAt(b, Weights(alpha, n - 1), i);
      if i > 0 {
        assert Pow(b, n - 1 - i) == Mul(b, Pow(b, n - 2 - i));
        Swap(b, alpha, Pow(b, n - 2 - i));
      }
    }
  }

  lemma Swap(b: real, a: real, p: real)
    ensures Mul(b, Mul(a, p)) == Mul(a, Mul(b, p))
  {
  }

  lemma {:induction false} ScaleAt(c: real, ws: seq<real>, i: nat)
    requires i < |ws|
    ensures Scale(c, ws)[i] == Mul(c, ws[i])
  {
    if i < |ws| - 1 {
      ScaleAt(c, ws[..|ws| - 1], i);
    }
  }

  /** For alpha in [0, 1] the variance is never negative and the mean stays between the extremes. */
  lemma {:induction false} Bounds(alpha: real, xs: seq<real>, lo: real, hi: real)
    requires xs != [] && 0.0 <= alpha <= 1.0
    requires forall i :: 0 <= i < |xs| ==> lo <= xs[i] <= hi
    ensures lo <= Mean(alpha, xs) <= hi
    ensures 0.0 <= Variance(alpha, xs)
  {
    var n := |xs| - 1;
    var ys, x := xs[..n], xs[n];
    assert xs == ys + [x];
    if ys == [] {
      assert xs == [x];
      First(alpha, x);
    } else {
      Bounds(alpha, ys, lo, hi);
      MeanStep(alpha, ys, x);
      VarianceStep(alpha, ys, x);
      BlendBounds(alpha, Mean(alpha, ys), x, lo, hi);
      NextVarianceNonNegative(alpha, Mean(alpha, ys), Variance(alpha, ys), x);
    }
  }

  lemma NonNegative(a: real, b: real)
    requires a >= 0.0 && b >= 0.0
    ensures a * b >= 0.0
  {
  }

  lemma Positive(a: real, b: real)
    requires a > 0.0 && b > 0.0
    ensures a * b > 0.0
  {
  }

  lemma BlendBounds(alpha: real, m: real, x: real, lo: real, hi: real)
    requires 0.0 <= alpha <= 1.0 && lo <= m <= hi && lo <= x <= hi
    ensures lo <= NextMean(alpha, m, x) <= hi
  {
    assert NextMean(alpha, m, x) - lo == (1.0 - alpha) * (m - lo) + alpha * (x - lo);
    NonNegative(1.0 - alpha, m - lo);
    NonNegative(alpha, x - lo);
    assert hi - NextMean(alpha, m, x) == (1.0 - alpha) * (hi - m) + alpha * (hi - x);
    NonNegative(1.0 - alpha, hi - m);
    NonNegative(alpha, hi - x);
  }

  lemma NextVarianceNonNegative(alpha: real, m: real, v: real, x: real)
    requires 0.0 <= alpha <= 1.0 && v >= 0.0
    ensures NextVariance(alpha, m, v, x) >= 0.0
  {
    var d := x - m;
    assert d * d >= 0.0;
    assert Mul(Mul(alpha, d), d) == alpha * (d * d);
  }

  /** A constant history has that constant as its mean and no variance. */
  lemma ConstantHistory(alpha: real, xs: seq<real>, k: real)
    requires xs != [] && 0.0 <= alpha <= 1.0 && forall i :: 0 <= i < |xs| ==> xs[i] == k
    ensures Mean(alpha, xs) == k && Variance(alpha, xs) == 0.0
  {
    Bounds(alpha, xs, k, k);
    NoSpread(Weights(alpha, |xs|), xs, k);
  }

  lemma {:induction false} NoSpread(ws: seq<real>, xs: seq<real>, k: real)
    requires |ws| == |xs| && forall i :: 0 <= i < |xs| ==> xs[i] == k
    ensures Dot(ws, SquaredDev(xs, k)) == 0.0
  {
    if ws != [] {
      var n := |ws| - 1;
      NoSpread(ws[..n], xs[..n], k);
      assert ws == ws[..n] + [ws[n]];
      DotSnoc(ws[..n], SquaredDev(xs[..n], k), ws[n], Mul(xs[n] - k, xs[n] - k));
      assert Mul(xs[n] - k, xs[n] - k) == 0.0 && Mul(ws[n], 0.0) == 0.0;
    }
  }

  // -------------------------------------------------------------- the verdict

  function Abs(x: real): real {
    if x < 0.0 then -x else x
  }

  function Max(x: real, y: real): real {
    if x < y then y else x
  }

  /** `max(std, abs(ewma) * 0.01, 1e-9)`. */
  function StdEff(std: real, ewma: real): real {
    Max(std, Max(Abs(ewma) * 0.01, 0.000_000_001))
  }

  /** The decision of the source, given the square root of the variance. */
  predicate Anomalous(deviation: real, std: real, ewma: real, threshold: real) {
    Abs(deviation / StdEff(std, ewma)) >= threshold
  }

  /** The same decision without the square root. */
  predicate AnomalousSquared(deviation: real, ewvar: real, ewma: real, threshold: real) {
    threshold < 0.0 ||
    Mul(deviation, deviation) >=
      Mul(Max(ewvar, Max(Mul(Abs(ewma) * 0.01, Abs(ewma) * 0.01), 0.000_000_000_000_000_001)),
          Mul(threshold, threshold))
  }

  lemma SquareMono(a: real, b: real)
    requires a >= 0.0 && b >= 0.0
    ensures a <= b <==> Mul(a, a) <= Mul(b, b)
  {
    if a < b {
      SquareStrict(a, b);
    } else if b < a {
      SquareStrict(b, a);
    }
  }

  lemma SquareStrict(a: real, b: real)
    requires 0.0 <= a < b
    ensures Mul(a, a) < Mul(b, b)
  {
    NonNegative(a, b - a);
    Positive(b - a, b);
    assert b * b == a * a + a * (b - a) + (b - a) * b;
  }

  lemma SquareMax(a: real, b: real)
    requires a >= 0.0 && b >= 0.0
    ensures Mul(Max(a, b), Max(a, b)) == Max(Mul(a, a), Mul(b, b))
  {
    SquareMono(a, b);
    SquareMono(b, a);
  }

  lemma SquareProduct(t: real, s: real)
    ensures Mul(Mul(t, s), Mul(t, s)) == Mul(Mul(s, s), Mul(t, t))
  {
  }

  /** Whatever number squares to the variance, deciding with it and deciding on squares agree. */
  lemma DecisionSquared(deviation: real, std: real, ewvar: real, ewma: real, threshold: real)
    requires std >= 0.0 && Mul(std, std) == ewvar
    ensures Anomalous(deviation, std, ewma, threshold) <==> AnomalousSquared(deviation, ewvar, ewma, threshold)
  {
    var low := Abs(ewma) * 0.01;
    var s := StdEff(std, ewma);
    SquareMax(low, 0.000_000_001);
    SquareMax(std, Max(low, 0.000_000_001));
    assert Mul(0.000_000_001, 0.000_000_001) == 0.000_000_000_000_000_001;
    QuotientMono(deviation, s, threshold);
    if threshold >= 0.0 {
      assert Mul(threshold, s) >= 0.0;
      SquareMono(Mul(threshold, s), Abs(deviation));
      SquareProduct(threshold, s);
      assert Mul(Abs(deviation), Abs(deviation)) == Mul(deviation, deviation);
    } else {
      assert Mul(threshold, s) < 0.0;
    }
  }

  lemma QuotientMono(d: real, s: real, t: real)
    requires s > 0.0
    ensures Abs(d / s) >= t <==> Abs(d) >= Mul(t, s)
  {
    var q := d / s;
    assert q * s == d;
    assert Abs(q) * s == Abs(d);
    if Abs(q) >= t {
      assert (Abs(q) - t) * s >= 0.0;
    } else {
      assert (t - Abs(q)) * s > 0.0;
    }
  }

  datatype Verdict =
    | Insufficient(observed: real)
    | IndexError
    | Judged(observed: real, expected: real, deviation: real, anomalous: bool)

  /** `EWMADetector.detect`; the last observation is judged when none is given. */
  method Detect(series: seq<real>, current: Option<real>, alpha: real, threshold: real, minHistory: int)
    returns (r: Verdict)
    ensures
      if current.None? && series == [] then r == Insufficient(0.0)
      else
        var observed := if current.Some? then current.value else series[|series| - 1];
        var hist := if current.Some? then series else series[..|series| - 1];
        if |hist| < minHistory then r == Insufficient(observed)
        else if hist == [] then r == IndexError
        else r == Judged(observed, Mean(alpha, hist), observed - Mean(alpha, hist),
                         AnomalousSquared(observed - Mean(alpha, hist), Max(Variance(alpha, hist), 0.0),
                                          Mean(alpha, hist), threshold))
  {
    var hist, observed := series, 0.0;
    if current.None? {
      if series == [] {
        return Insufficient(0.0);
      }
      observed, hist := series[|series| - 1], series[..|series| - 1];
    } else {
      observed := current.value;
    }
    if |hist| < minHistory {
      return Insufficient(observed);
    }
    if hist == [] {
      return IndexError;
    }
    var ewma, ewvar := OnePass(alpha, hist);
    var deviation := observed - ewma;
    r := Judged(observed, ewma, deviation, AnomalousSquared(deviation, Max(ewvar, 0.0), ewma, threshold));
  }
}
