/** The three recurrences of the indicator library, over exact reals and before rounding. */
module Indicators {
  import opened Wrappers
  import opened RealFacts
  import opened Sequences

  // ----- Kalman filter

  /** The gain for a predicted variance and a measurement noise. */
  function Gain(pred: real, r: real): real
    requires pred > 0.0 && r > 0.0
  {
    pred / (pred + r)
  }

  /** The variance after the update step. */
  function Posterior(pred: real, r: real): real
    requires pred > 0.0 && r > 0.0
  {
    (1.0 - Gain(pred, r)) * pred
  }

  /** The state moved by a share g of its distance to the measurement. */
  function Corrected(s: real, g: real, z: real): real {
    s + g * (z - s)
  }

  /** The variance after n measurements; like the gain, it does not depend on them. */
  function VarianceAfter(n: nat, q: real, r: real): (v: real)
    requires q >= 0.0 && r > 0.0
    ensures v > 0.0
  {
    if n == 0 then 1.0
    else
      var pred := VarianceAfter(n - 1, q, r) + q;
      UpdateFacts(pred, r);
      Posterior(pred, r)
  }

  /** The gain used on the n-th measurement (from 0). */
  function GainAt(n: nat, q: real, r: real): real
    requires q >= 0.0 && r > 0.0
  {
    Gain(VarianceAfter(n, q, r) + q, r)
  }

  function StateAfter(series: seq<real>, n: nat, q: real, r: real): real
    requires q >= 0.0 && r > 0.0 && series != [] && n <= |series|
  {
    if n == 0 then series[0]
    else Corrected(StateAfter(series, n - 1, q, r), GainAt(n - 1, q, r), series[n - 1])
  }

  /** `kalman_filter`, before rounding to four places. */
  method KalmanFilter(series: seq<real>, q: real, r: real) returns (filtered: seq<real>)
    requires q >= 0.0 && r > 0.0
    ensures |filtered| == |series|
    ensures forall k :: 0 <= k < |series| ==> filtered[k] == StateAfter(series, k + 1, q, r)
  {
    hide Gain, Posterior, Corrected;
    if series == [] {
      return [];
    }
    var state, variance := series[0], 1.0;
    filtered := [];
    for n := 0 to |series|
      invariant |filtered| == n
      invariant state == StateAfter(series, n, q, r) && variance == VarianceAfter(n, q, r)
      invariant forall k :: 0 <= k < n ==> filtered[k] == StateAfter(series, k + 1, q, r)
    {
      var pred := variance + q;
      state := Corrected(state, Gain(pred, r), series[n]);
      variance := Posterior(pred, r);
      filtered := filtered + [state];
    }
  }

  /** The update step: the gain lies strictly between 0 and 1 and scales the measurement noise
      down to the new variance. */
  lemma UpdateFacts(pred: real, r: real)
    requires pred > 0.0 && r > 0.0
    ensures 0.0 < Gain(pred, r) < 1.0
    ensures Posterior(pred, r) == r * Gain(pred, r)
    ensures 0.0 < Posterior(pred, r) < r
  {
    var d := pred + r;
    var g := pred / d;
    QuotientTimes(pred, d);
    assert g == Gain(pred, r) && Posterior(pred, r) == (1.0 - g) * pred;
    hide Gain, Posterior;
    assert g * (pred + r) == g * pred + g * r;
    UpdateFromProducts(pred, r, g);
    assert (1.0 - g) * pred == pred - g * pred;
    var v, h := r * g, 1.0 - g;
    ProductPositive(r, g);
    ProductPositive(r, h);
    assert r * h == r - v;
    assert Posterior(pred, r) == v;
    assert v == r * Gain(pred, r);
  }

  lemma UpdateFromProducts(pred: real, r: real, g: real)
    requires pred > 0.0 && r > 0.0 && g * pred + g * r == pred
    ensures 0.0 < g < 1.0 && pred - g * pred == r * g
  {
    if g <= 0.0 {
      NonPositiveProduct(pred, g);
      NonPositiveProduct(r, g);
    } else if g >= 1.0 {
      ProductMonotone(1.0, g, pred);
      ProductPositive(g, r);
    }
  }

  lemma NonPositiveProduct(a: real, b: real)
    requires a >= 0.0 && b <= 0.0
    ensures a * b <= 0.0
  {
  }

  lemma GainBounds(n: nat, q: real, r: real)
    requires q >= 0.0 && r > 0.0
    ensures 0.0 < GainAt(n, q, r) < 1.0
    ensures VarianceAfter(n + 1, q, r) == r * GainAt(n, q, r)
    ensures 0.0 < VarianceAfter(n + 1, q, r) < r
  {
    hide Gain, Posterior;
    UpdateFacts(VarianceAfter(n, q, r) + q, r);
  }

  lemma MovedStaysBetween(s: real, z: real, p: real, lo: real, hi: real)
    requires lo <= s <= hi && lo <= z <= hi
    requires if z >= s then 0.0 <= p <= z - s else z - s <= p <= 0.0
    ensures lo <= s + p <= hi
  {
  }

  lemma CorrectedStaysBetween(s: real, z: real, g: real, lo: real, hi: real)
    requires lo <= s <= hi && lo <= z <= hi && 0.0 <= g <= 1.0
    ensures lo <= Corrected(s, g, z) <= hi
  {
    ShareOf(g, z - s);
    MovedStaysBetween(s, z, g * (z - s), lo, hi);
  }

  /** The filtered value never leaves the range of the measurements seen so far. */
  lemma {:induction false} StateStaysInRange(series: seq<real>, n: nat, q: real, r: real, lo: real, hi: real)
    requires q >= 0.0 && r > 0.0 && series != [] && n <= |series|
    requires lo <= series[0] <= hi && forall k :: 0 <= k < n ==> lo <= series[k] <= hi
    ensures lo <= StateAfter(series, n, q, r) <= hi
  {
    hide GainAt, VarianceAfter, Corrected;
    if n > 0 {
      StateStaysInRange(series, n - 1, q, r, lo, hi);
      GainBounds(n - 1, q, r);
      CorrectedStaysBetween(StateAfter(series, n - 1, q, r), series[n - 1], GainAt(n - 1, q, r), lo, hi);
    }
  }

  /** A larger predicted variance gives a larger gain. */
  lemma GainGrowsWithVariance(a: real, b: real, r: real)
    requires 0.0 < a <= b && r > 0.0
    ensures Gain(a, r) <= Gain(b, r)
  {
    OneMinusQuotient(r, a + r);
    OneMinusQuotient(r, b + r);
    QuotientAntitone(r, a + r, b + r);
  }

  lemma VarianceStepMonotone(n: nat, q: real, r: real)
    requires q >= 0.0 && r > 0.0
    ensures VarianceAfter(n + 1, q, r) <= VarianceAfter(n, q, r) ==>
      GainAt(n + 1, q, r) <= GainAt(n, q, r) && VarianceAfter(n + 2, q, r) <= VarianceAfter(n + 1, q, r)
  {
    hide VarianceAfter, Gain;
    var a, b := VarianceAfter(n + 1, q, r), VarianceAfter(n, q, r);
    if a <= b {
      GainGrowsWithVariance(a + q, b + q, r);
      GainBounds(n, q, r);
      GainBounds(n + 1, q, r);
      hide GainAt;
      var g, h := GainAt(n + 1, q, r), GainAt(n, q, r);
      assert VarianceAfter(n + 2, q, r) == r * g && a == r * h;
      ProductMonotoneRight(r, g, h);
    }
  }

  lemma FirstStepShrinksIff(q: real, r: real)
    requires q >= 0.0 && r > 0.0
    ensures VarianceAfter(1, q, r) <= VarianceAfter(0, q, r) <==> q * (r - 1.0) <= 1.0
  {
    var pred := 1.0 + q;
    assert VarianceAfter(0, q, r) == 1.0 && VarianceAfter(1, q, r) == Posterior(pred, r);
    UpdateFacts(pred, r);
    var d := pred + r;
    var g := pred / d;
    assert g == Gain(pred, r);
    QuotientTimes(pred, d);
    var v := VarianceAfter(1, q, r);
    hide VarianceAfter, Gain, Posterior;
    assert v * d == r * pred by { Associate(r, g, d); }
    AtMostOneIff(v, d);
    assert r * pred == r + r * q;
    assert q * (r - 1.0) == r * q - q;
  }

  lemma AtMostOneIff(v: real, d: real)
    requires d > 0.0
    ensures v <= 1.0 <==> v * d <= d
  {
    if v > 1.0 {
      ProductPositive(v - 1.0, d);
      Distribute(d, v, 1.0);
    } else {
      ProductMonotone(v, 1.0, d);
    }
  }

  lemma {:induction false} VarianceShrinks(n: nat, q: real, r: real)
    requires q >= 0.0 && r > 0.0 && q * (r - 1.0) <= 1.0
    ensures VarianceAfter(n + 1, q, r) <= VarianceAfter(n, q, r)
    ensures GainAt(n + 1, q, r) <= GainAt(n, q, r)
  {
    hide GainAt, VarianceAfter;
    if n == 0 {
      FirstStepShrinksIff(q, r);
    } else {
      VarianceShrinks(n - 1, q, r);
      VarianceStepMonotone(n - 1, q, r);
    }
    VarianceStepMonotone(n, q, r);
  }

  /** The filter only ever grows more certain exactly when the noises satisfy q (r - 1) <= 1;
      a measurement noise of at most one is enough. */
  lemma UncertaintyNeverGrowsIff(q: real, r: real)
    requires q >= 0.0 && r > 0.0
    ensures (forall n: nat :: VarianceAfter(n + 1, q, r) <= VarianceAfter(n, q, r)) <==> q * (r - 1.0) <= 1.0
    ensures r <= 1.0 ==> q * (r - 1.0) <= 1.0
  {
    hide VarianceAfter;
    if q * (r - 1.0) <= 1.0 {
      forall n: nat ensures VarianceAfter(n + 1, q, r) <= VarianceAfter(n, q, r) {
        VarianceShrinks(n, q, r);
      }
    } else {
      FirstStepShrinksIff(q, r);
      assert VarianceAfter(0 + 1, q, r) > VarianceAfter(0, q, r);
    }
    if r <= 1.0 {
      NonPositiveProduct(q, r - 1.0);
    }
  }

  /** With weight p on the current mean, one update adds weight i = 1/r on the measurement. */
  lemma PrecisionUpdate(v: real, p: real, s: real, z: real, r: real, i: real)
    requires r > 0.0 && v > 0.0 && v * p == 1.0 && i * r == 1.0
    ensures Posterior(v, r) * (p + i) == 1.0
    ensures Corrected(s, Gain(v, r), z) * (p + i) == s * p + z * i
  {
    var d, w := v + r, p + i;
    var g := v / d;
    QuotientTimes(v, d);
    UpdateFacts(v, r);
    assert g == Gain(v, r) && Posterior(v, r) == r * g;
    GainTimesWeight(v, p, r, g, i, d, w);
    Associate(r, g, w);
    assert Posterior(v, r) * w == r * i == 1.0;
    CorrectedTimesWeight(s, g, z, p, i, w);
  }

  lemma GainTimesWeight(v: real, p: real, r: real, g: real, i: real, d: real, w: real)
    requires r > 0.0 && v > 0.0 && v * p == 1.0 && i * r == 1.0 && d == v + r && w == p + i && g * d == v
    ensures g * w == i
  {
    // g w d = v w = 1 + v i = i (r + v) = i d
    Associate(g, d, w);
    Associate(g, w, d);
    Complement(d, w);
    Distribute(v, p, i);
    Distribute(i, v, r);
    assert g * w * d == v * w == 1.0 + v * i == i * d;
    CancelRight(g * w, i, d);
  }

  lemma CorrectedTimesWeight(s: real, g: real, z: real, p: real, i: real, w: real)
    requires g * w == i && w == p + i
    ensures Corrected(s, g, z) * w == s * p + z * i
  {
    var e := z - s;
    var step := g * e;
    Distribute(w, s, step);
    Associate(g, e, w);
    Associate(g, w, e);
    Complement(e, w);
    assert step * w == i * e;
    Distribute(s, p, i);
    Distribute(i, z, s);
  }

  lemma CancelRight(a: real, b: real, c: real)
    requires c != 0.0 && a * c == b * c
    ensures a == b
  {
    QuotientIs(a * c, c, a);
    QuotientIs(b * c, c, b);
  }

  /** Without process noise the filter is the precision-weighted mean of the first value
      (weight 1) and the measurements (weight i = 1/r each), and the variance is one over the
      total weight. */
  lemma {:induction false} NoiselessFilterIsWeightedMean(series: seq<real>, n: nat, r: real, i: real)
    requires r > 0.0 && i * r == 1.0 && series != [] && n <= |series|
    ensures var weight := 1.0 + n as real * i;
      && VarianceAfter(n, 0.0, r) * weight == 1.0
      && StateAfter(series, n, 0.0, r) * weight == series[0] + Sum(series[..n]) * i
  {
    hide Gain, Posterior, Corrected;
    if n == 0 {
      SumOfNone();
    } else {
      NoiselessFilterIsWeightedMean(series, n - 1, r, i);
      NoiselessStep(series, n, r, i);
    }
  }

  lemma NoiselessStep(series: seq<real>, n: nat, r: real, i: real)
    requires r > 0.0 && i * r == 1.0 && 1 <= n <= |series|
    requires var weight := 1.0 + (n - 1) as real * i;
      && VarianceAfter(n - 1, 0.0, r) * weight == 1.0
      && StateAfter(series, n - 1, 0.0, r) * weight == series[0] + Sum(series[..n - 1]) * i
    ensures var weight := 1.0 + n as real * i;
      && VarianceAfter(n, 0.0, r) * weight == 1.0
      && StateAfter(series, n, 0.0, r) * weight == series[0] + Sum(series[..n]) * i
  {
    hide Gain, Posterior, Corrected, Sum;
    var v, s, z := VarianceAfter(n - 1, 0.0, r), StateAfter(series, n - 1, 0.0, r), series[n - 1];
    var p := 1.0 + (n - 1) as real * i;
    assert VarianceAfter(n, 0.0, r) == Posterior(v, r);
    assert StateAfter(series, n, 0.0, r) == Corrected(s, Gain(v, r), z);
    hide VarianceAfter, StateAfter;
    PrecisionUpdate(v, p, s, z, r, i);
    assert series[..n] == series[..n - 1] + [z];
    SumAppend(series[..n - 1], z);
    Distribute(i, Sum(series[..n - 1]), z);
    Distribute(i, (n - 1) as real, 1.0);
  }

  // ----- exponential moving average

  function EmaAlpha(period: nat, alpha: Option<real>): real {
    if alpha.Some? && alpha.value != 0.0 then alpha.value else 2.0 / (period as real + 1.0)
  }

  function EmaAfter(series: seq<real>, a: real): real
    requires series != []
  {
    if |series| == 1 then series[0]
    else a * series[|series| - 1] + (1.0 - a) * EmaAfter(series[..|series| - 1], a)
  }

  method Ema(series: seq<real>, period: nat, alpha: Option<real>) returns (val: real)
    ensures series == [] ==> val == 0.0
    ensures series != [] ==> val == EmaAfter(series, EmaAlpha(period, alpha))
  {
    if series == [] {
      return 0.0;
    }
    if |series| == 1 {
      return series[0];
    }
    var a := EmaAlpha(period, alpha);
    val := series[0];
    for k := 1 to |series|
      invariant val == EmaAfter(series[..k], a)
    {
      assert series[..k + 1][..k] == series[..k];
      val := a * series[k] + (1.0 - a) * val;
    }
    assert series[..|series|] == series;
  }

  lemma {:induction false} EmaStaysInRange(series: seq<real>, a: real, lo: real, hi: real)
    requires series != [] && 0.0 <= a <= 1.0 && forall k :: 0 <= k < |series| ==> lo <= series[k] <= hi
    ensures lo <= EmaAfter(series, a) <= hi
  {
    if |series| > 1 {
      var before, x := EmaAfter(series[..|series| - 1], a), series[|series| - 1];
      EmaStaysInRange(series[..|series| - 1], a, lo, hi);
      CorrectedStaysBetween(before, x, a, lo, hi);
      Distribute(a, x, before);
      Complement(before, a);
    }
  }

  /** A given factor is used unless it is zero; the default one is two over the period plus one,
      that is 1 at a period of one. */
  lemma SmoothingFactor(period: nat, given: real)
    ensures given != 0.0 ==> EmaAlpha(period, Some(given)) == given
    ensures EmaAlpha(period, Some(0.0)) == EmaAlpha(period, None)
    ensures EmaAlpha(period, None) * (period as real + 1.0) == 2.0
  {
    QuotientTimes(2.0, period as real + 1.0);
  }

  /** The default smoothing factor is admissible for every period of at least one. */
  lemma DefaultEmaStaysInRange(series: seq<real>, period: nat, lo: real, hi: real)
    requires series != [] && period >= 1 && forall k :: 0 <= k < |series| ==> lo <= series[k] <= hi
    ensures lo <= EmaAfter(series, EmaAlpha(period, None)) <= hi
  {
    var d := period as real + 1.0;
    QuotientPositive(2.0, d);
    QuotientMonotone(2.0, d, d);
    QuotientIs(d, d, 1.0);
    EmaStaysInRange(series, EmaAlpha(period, None), lo, hi);
  }

  // ----- weighted sums

  function Power(x: real, n: nat): real {
    if n == 0 then 1.0 else x * Power(x, n - 1)
  }

  function Times(a: real, b: real): real {
    a * b
  }

  /** The sum of the products, position by position. */
  function Dot(w: seq<real>, s: seq<real>): real
    requires |w| == |s|
  {
    if s == [] then 0.0 else Dot(w[..|s| - 1], s[..|s| - 1]) + Times(w[|s| - 1], s[|s| - 1])
  }

  /** Every v is b times its w. */
  ghost predicate Shrunk(v: seq<real>, w: seq<real>, b: real) {
    |v| == |w| && forall k :: 0 <= k < |w| ==> IsProduct(v[k], b, w[k])
  }

  predicate IsProduct(x: real, a: real, b: real) {
    x == a * b
  }

  lemma {:induction false} DotShrinks(v: seq<real>, w: seq<real>, s: seq<real>, b: real)
    requires |w| == |s| && Shrunk(v, w, b)
    ensures Dot(v, s) == b * Dot(w, s)
  {
    if s != [] {
      var n := |s| - 1;
      var x, y, z, rest := v[n], w[n], s[n], Dot(w[..n], s[..n]);
      DotShrinks(v[..n], w[..n], s[..n], b);
      assert Dot(v, s) == b * rest + x * z && Dot(w, s) == rest + y * z;
      assert IsProduct(x, b, y);
      hide Dot, Shrunk;
      Associate(b, y, z);
      Distribute(b, rest, y * z);
    }
  }

  lemma DotOfNone()
    ensures Dot([], []) == 0.0
  {
  }

  lemma DotAppend(w: seq<real>, s: seq<real>, last: real, x: real)
    requires |w| == |s|
    ensures Dot(w + [last], s + [x]) == Dot(w, s) + Times(last, x)
  {
    hide Times;
    assert (w + [last])[..|s|] == w && (s + [x])[..|s|] == s;
  }

  /** One more value: the old weights shrink by b, and the new value gets its own. */
  lemma DotStep(w': seq<real>, w: seq<real>, s: seq<real>, b: real, x: real)
    requires |w| + 1 == |w'| == |s| + 1 && Shrunk(w'[..|w|], w, b)
    ensures Dot(w', s + [x]) == b * Dot(w, s) + w'[|w|] * x
  {
    hide Dot, Shrunk;
    assert w' == w'[..|w|] + [w'[|w|]];
    DotAppend(w'[..|w|], s, w'[|w|], x);
    DotShrinks(w'[..|w|], w, s, b);
  }

  /** The first value weighs (1 - a)^(n - 1), the one at k > 0 weighs a (1 - a)^(n - 1 - k). */
  function EmaWeight(n: nat, k: nat, a: real): real
    requires k < n
  {
    Power(1.0 - a, n - 1 - k) * (if k == 0 then 1.0 else a)
  }

  function EmaWeights(n: nat, a: real): (w: seq<real>)
    ensures |w| == n && forall k :: 0 <= k < n ==> w[k] == EmaWeight(n, k, a)
  {
    seq(n, k requires 0 <= k < n => EmaWeight(n, k, a))
  }

  lemma EmaWeightShrinks(n: nat, k: nat, a: real)
    requires k < n
    ensures IsProduct(EmaWeight(n + 1, k, a), 1.0 - a, EmaWeight(n, k, a))
  {
    var p, own := Power(1.0 - a, n - 1 - k), if k == 0 then 1.0 else a;
    assert Power(1.0 - a, n - k) == (1.0 - a) * p;
    Associate(1.0 - a, p, own);
  }

  lemma EmaWeightsShrink(n: nat, a: real)
    ensures Shrunk(EmaWeights(n + 1, a)[..n], EmaWeights(n, a), 1.0 - a)
    ensures EmaWeights(n + 1, a)[n] == if n == 0 then 1.0 else a
  {
    forall k | 0 <= k < n ensures IsProduct(EmaWeights(n + 1, a)[k], 1.0 - a, EmaWeights(n, a)[k]) {
      EmaWeightShrinks(n, k, a);
    }
    assert Power(1.0 - a, 0) == 1.0;
  }

  /** The moving average is a weighted sum of the series, later values weighing more. */
  lemma {:induction false} EmaIsWeightedSum(series: seq<real>, a: real)
    requires series != []
    ensures EmaAfter(series, a) == Dot(EmaWeights(|series|, a), series)
  {
    hide Dot, EmaWeights, EmaWeight, Shrunk;
    var n := |series| - 1;
    var front, x := series[..n], series[n];
    assert series == front + [x];
    if n == 0 {
      DotOfNone();
    } else {
      EmaIsWeightedSum(front, a);
    }
    EmaWeightsShrink(n, a);
    DotStep(EmaWeights(n + 1, a), EmaWeights(n, a), front, 1.0 - a, x);
  }

  /** And the weights add up to one: it is an average. */
  lemma {:induction false} EmaWeightsSumToOne(n: nat, a: real)
    requires n >= 1
    ensures Sum(EmaWeights(n, a)) == 1.0
  {
    hide EmaWeights, EmaWeight, Shrunk, Sum;
    var v, w := EmaWeights(n, a), EmaWeights(n - 1, a);
    EmaWeightsShrink(n - 1, a);
    SumShrinks(v[..n - 1], w, 1.0 - a);
    assert v == v[..n - 1] + [v[n - 1]];
    SumAppend(v[..n - 1], v[n - 1]);
    if n == 1 {
      assert v == [] + [1.0];
      SumAppend([], 1.0);
      SumOfNone();
    } else {
      EmaWeightsSumToOne(n - 1, a);
    }
  }

  lemma {:induction false} SumShrinks(v: seq<real>, w: seq<real>, b: real)
    requires Shrunk(v, w, b)
    ensures Sum(v) == b * Sum(w)
  {
    if w == [] {
      SumOfNone();
    } else {
      var n := |w| - 1;
      SumShrinks(v[..n], w[..n], b);
      assert IsProduct(v[n], b, w[n]);
      Distribute(b, Sum(w[..n]), w[n]);
    }
  }

  // ----- GARCH(1,1)

  function SumOfSquares(s: seq<real>): real {
    if s == [] then 0.0 else SumOfSquares(s[..|s| - 1]) + s[|s| - 1] * s[|s| - 1]
  }

  function GarchStart(sample: seq<real>): real
    requires sample != []
  {
    SumOfSquares(sample) / |sample| as real
  }

  function GarchAfter(sample: seq<real>, start: real, alpha: real, beta: real, omega: real): real {
    if sample == [] then start
    else
      var r := sample[|sample| - 1];
      omega + alpha * (r * r) + beta * GarchAfter(sample[..|sample| - 1], start, alpha, beta, omega)
  }

  /** The conditional variance of `garch_forecast`; None stands for its fixed answer on fewer
      than five returns. */
  method GarchVariance(sample: seq<real>, alpha: real, beta: real, omega: real) returns (sigma2: Option<real>)
    ensures sigma2 == if |sample| < 5 then None
      else Some(GarchAfter(sample, GarchStart(sample), alpha, beta, omega))
  {
    if |sample| < 5 {
      return None;
    }
    var total := 0.0;
    for k := 0 to |sample|
      invariant total == SumOfSquares(sample[..k])
    {
      assert sample[..k + 1][..k] == sample[..k];
      total := total + sample[k] * sample[k];
    }
    assert sample[..|sample|] == sample;
    var s := total / |sample| as real;
    for k := 0 to |sample|
      invariant s == GarchAfter(sample[..k], GarchStart(sample), alpha, beta, omega)
    {
      assert sample[..k + 1][..k] == sample[..k];
      s := omega + alpha * (sample[k] * sample[k]) + beta * s;
    }
    return Some(s);
  }

  /** What each return adds to the variance. */
  function Shocks(sample: seq<real>, alpha: real, omega: real): (r: seq<real>)
    ensures |r| == |sample| && forall k :: 0 <= k < |sample| ==> r[k] == Shock(sample[k], alpha, omega)
  {
    seq(|sample|, k requires 0 <= k < |sample| => Shock(sample[k], alpha, omega))
  }

  function Shock(r: real, alpha: real, omega: real): real {
    omega + alpha * (r * r)
  }

  /** The return at k weighs beta^(n - 1 - k). */
  function GarchWeights(n: nat, beta: real): (w: seq<real>)
    ensures |w| == n && forall k :: 0 <= k < n ==> w[k] == Power(beta, n - 1 - k)
  {
    seq(n, k requires 0 <= k < n => Power(beta, n - 1 - k))
  }

  lemma GarchWeightsShrink(n: nat, beta: real)
    ensures Shrunk(GarchWeights(n + 1, beta)[..n], GarchWeights(n, beta), beta)
    ensures GarchWeights(n + 1, beta)[n] == 1.0
    ensures IsProduct(Power(beta, n + 1), beta, Power(beta, n))
  {
    forall k | 0 <= k < n ensures IsProduct(GarchWeights(n + 1, beta)[k], beta, GarchWeights(n, beta)[k]) {
      assert Power(beta, n - k) == beta * Power(beta, n - 1 - k);
    }
  }

  /** One step of the recurrence, with the return's own contribution x. */
  function Next(x: real, beta: real, previous: real): real {
    x + beta * previous
  }

  lemma GarchUnrolled(front: seq<real>, r: real, start: real, alpha: real, beta: real, omega: real)
    ensures GarchAfter(front + [r], start, alpha, beta, omega)
      == Next(Shock(r, alpha, omega), beta, GarchAfter(front, start, alpha, beta, omega))
  {
    assert (front + [r])[..|front|] == front;
  }

  lemma DotNext(w': seq<real>, w: seq<real>, s: seq<real>, beta: real, x: real)
    requires |w| + 1 == |w'| == |s| + 1 && Shrunk(w'[..|w|], w, beta) && w'[|w|] == 1.0
    ensures Dot(w', s + [x]) == Next(x, beta, Dot(w, s))
  {
    hide Dot, Shrunk;
    DotStep(w', w, s, beta, x);
  }

  /** A start that has shrunk to the share p, and what came on top of it. */
  function Level(p: real, start: real, d: real): real {
    p * start + d
  }

  lemma LevelNext(x: real, beta: real, p: real, p': real, start: real, d: real)
    requires IsProduct(p', beta, p)
    ensures Next(x, beta, Level(p, start, d)) == Level(p', start, Next(x, beta, d))
  {
    Associate(beta, p, start);
    Distribute(beta, p * start, d);
  }

  lemma GarchOfNone(start: real, alpha: real, beta: real, omega: real)
    ensures GarchAfter([], start, alpha, beta, omega)
      == Level(Power(beta, 0), start, Dot(GarchWeights(0, beta), Shocks([], alpha, omega)))
  {
  }

  lemma {:induction false} GarchIsLevel(sample: seq<real>, start: real, alpha: real, beta: real, omega: real)
    ensures var n := |sample|;
      GarchAfter(sample, start, alpha, beta, omega)
        == Level(Power(beta, n), start, Dot(GarchWeights(n, beta), Shocks(sample, alpha, omega)))
  {
    hide GarchAfter, Dot, Power, GarchWeights, Shocks, Shock, Shrunk, IsProduct, Level, Next;
    if sample == [] {
      GarchOfNone(start, alpha, beta, omega);
    } else {
      var n := |sample| - 1;
      var front, r := sample[..n], sample[n];
      assert sample == front + [r];
      GarchIsLevel(front, start, alpha, beta, omega);
      GarchUnrolled(front, r, start, alpha, beta, omega);
      GarchLevelNext(front, r, start, alpha, beta, omega);
    }
  }

  lemma ShocksAppend(front: seq<real>, r: real, alpha: real, omega: real)
    ensures Shocks(front + [r], alpha, omega) == Shocks(front, alpha, omega) + [Shock(r, alpha, omega)]
  {
    hide Shock;
  }

  lemma GarchLevelNext(front: seq<real>, r: real, start: real, alpha: real, beta: real, omega: real)
    ensures var n, x := |front|, Shock(r, alpha, omega);
      Next(x, beta, Level(Power(beta, n), start, Dot(GarchWeights(n, beta), Shocks(front, alpha, omega))))
        == Level(Power(beta, n + 1), start, Dot(GarchWeights(n + 1, beta), Shocks(front + [r], alpha, omega)))
  {
    hide Dot, Power, GarchWeights, Shock, Shrunk, IsProduct, Level, Next;
    var n, x := |front|, Shock(r, alpha, omega);
    GarchWeightsShrink(n, beta);
    ShocksAppend(front, r, alpha, omega);
    var w, w', shocks := GarchWeights(n, beta), GarchWeights(n + 1, beta), Shocks(front, alpha, omega);
    DotNext(w', w, shocks, beta, x);
    LevelNext(x, beta, Power(beta, n), Power(beta, n + 1), start, Dot(w, shocks));
  }

  /** The forecast forgets its start and every earlier return at the rate beta. */
  lemma GarchIsWeightedSum(sample: seq<real>, start: real, alpha: real, beta: real, omega: real)
    ensures GarchAfter(sample, start, alpha, beta, omega)
      == Power(beta, |sample|) * start + Dot(GarchWeights(|sample|, beta), Shocks(sample, alpha, omega))
  {
    GarchIsLevel(sample, start, alpha, beta, omega);
    hide GarchAfter, Power, Dot, GarchWeights, Shocks;
  }

  /** The start is the mean square. */
  lemma StartIsMeanSquare(sample: seq<real>)
    requires sample != []
    ensures GarchStart(sample) * |sample| as real == Dot(sample, sample)
  {
    SquaresAreDot(sample);
    hide SumOfSquares;
    QuotientTimes(SumOfSquares(sample), |sample| as real);
  }

  lemma {:induction false} SquaresAreDot(s: seq<real>)
    ensures SumOfSquares(s) == Dot(s, s)
  {
    if s != [] {
      SquaresAreDot(s[..|s| - 1]);
    }
  }

  /** `level` is at least (or at most) the value the variance settles at when every squared
      return is m, that is (omega + alpha m) / (1 - beta). */
  predicate AtOrAboveLevel(level: real, alpha: real, beta: real, omega: real, m: real) {
    omega + alpha * m <= level - beta * level
  }

  predicate AtOrBelowLevel(level: real, alpha: real, beta: real, omega: real, m: real) {
    level - beta * level <= omega + alpha * m
  }

  lemma ValueInBand(x: real, square: real, alpha: real, beta: real, omega: real,
                    smallest: real, largest: real, low: real, high: real)
    requires alpha >= 0.0 && beta >= 0.0 && low <= x <= high && smallest <= square <= largest
    requires AtOrBelowLevel(low, alpha, beta, omega, smallest) && AtOrAboveLevel(high, alpha, beta, omega, largest)
    ensures low <= omega + alpha * square + beta * x <= high
  {
    assert alpha * smallest <= alpha * square <= alpha * largest;
    assert beta * low <= beta * x <= beta * high;
  }

  lemma GarchStepInBand(x: real, r: real, alpha: real, beta: real, omega: real,
                        smallest: real, largest: real, low: real, high: real)
    requires alpha >= 0.0 && beta >= 0.0 && low <= x <= high && smallest <= r * r <= largest
    requires AtOrBelowLevel(low, alpha, beta, omega, smallest) && AtOrAboveLevel(high, alpha, beta, omega, largest)
    ensures low <= Next(Shock(r, alpha, omega), beta, x) <= high
  {
    hide AtOrBelowLevel, AtOrAboveLevel;
    ValueInBand(x, r * r, alpha, beta, omega, smallest, largest, low, high);
  }

  ghost predicate SquaresWithin(sample: seq<real>, smallest: real, largest: real) {
    forall k :: 0 <= k < |sample| ==> smallest <= sample[k] * sample[k] <= largest
  }

  lemma SquaresOfFront(sample: seq<real>, smallest: real, largest: real)
    requires sample != [] && SquaresWithin(sample, smallest, largest)
    ensures SquaresWithin(sample[..|sample| - 1], smallest, largest)
    ensures smallest <= sample[|sample| - 1] * sample[|sample| - 1] <= largest
  {
  }

  lemma {:induction false} GarchInBand(sample: seq<real>, start: real, alpha: real, beta: real, omega: real,
                                       smallest: real, largest: real, low: real, high: real)
    requires alpha >= 0.0 && 0.0 <= beta < 1.0
    requires SquaresWithin(sample, smallest, largest) && low <= start <= high
    requires AtOrBelowLevel(low, alpha, beta, omega, smallest) && AtOrAboveLevel(high, alpha, beta, omega, largest)
    ensures low <= GarchAfter(sample, start, alpha, beta, omega) <= high
  {
    hide AtOrBelowLevel, AtOrAboveLevel, SquaresWithin, Next, Shock;
    if sample != [] {
      var front, r := sample[..|sample| - 1], sample[|sample| - 1];
      SquaresOfFront(sample, smallest, largest);
      GarchInBand(front, start, alpha, beta, omega, smallest, largest, low, high);
      GarchUnrolled(front, r, start, alpha, beta, omega);
      assert sample == front + [r];
      GarchStepInBand(GarchAfter(front, start, alpha, beta, omega), r, alpha, beta, omega,
                      smallest, largest, low, high);
    }
  }

  /** The forecast variance stays between bounds that hold its start and the settling levels of
      the smallest and the largest squared return. */
  lemma GarchStaysInBand(sample: seq<real>, start: real, alpha: real, beta: real, omega: real,
                         smallest: real, largest: real, low: real, high: real)
    requires alpha >= 0.0 && 0.0 <= beta < 1.0
    requires forall k :: 0 <= k < |sample| ==> smallest <= sample[k] * sample[k] <= largest
    requires low <= start <= high
    requires AtOrBelowLevel(low, alpha, beta, omega, smallest) && AtOrAboveLevel(high, alpha, beta, omega, largest)
    ensures low <= GarchAfter(sample, start, alpha, beta, omega) <= high
  {
    hide AtOrBelowLevel, AtOrAboveLevel, GarchAfter;
    GarchInBand(sample, start, alpha, beta, omega, smallest, largest, low, high);
  }

  /** Positive, even over returns that are all zero. */
  lemma {:induction false} GarchStaysPositive(sample: seq<real>, start: real, alpha: real, beta: real, omega: real)
    requires alpha >= 0.0 && beta >= 0.0 && omega > 0.0 && start >= 0.0 && sample != []
    ensures GarchAfter(sample, start, alpha, beta, omega) >= omega
  {
    var front, r := sample[..|sample| - 1], sample[|sample| - 1];
    if front != [] {
      GarchStaysPositive(front, start, alpha, beta, omega);
    }
    var x := GarchAfter(front, start, alpha, beta, omega);
    SquareNonNegative(r);
    ProductMonotone(0.0, r * r, alpha);
    ProductMonotone(0.0, x, beta);
  }

  lemma SquareNonNegative(r: real)
    ensures r * r >= 0.0
  {
    if r >= 0.0 {
      ProductMonotone(0.0, r, r);
    } else {
      ProductMonotone(0.0, -r, -r);
      assert r * r == (-r) * (-r);
    }
  }

  lemma {:induction false} SumOfSquaresBounds(s: seq<real>, m: real)
    requires forall k :: 0 <= k < |s| ==> s[k] * s[k] <= m
    ensures 0.0 <= SumOfSquares(s) <= |s| as real * m
  {
    if s != [] {
      SumOfSquaresBounds(s[..|s| - 1], m);
      SquareNonNegative(s[|s| - 1]);
      assert |s| as real * m == (|s| - 1) as real * m + m;
    }
  }

  /** With no squared return above m, the forecast stays at or above omega and at or below the
      larger of its start, the sample's mean square, and the settling level of m. */
  lemma GarchForecastBounds(sample: seq<real>, alpha: real, beta: real, omega: real, m: real)
    requires sample != [] && alpha >= 0.0 && 0.0 <= beta < 1.0 && omega > 0.0
    requires forall k :: 0 <= k < |sample| ==> sample[k] * sample[k] <= m
    ensures var start, level := GarchStart(sample), (omega + alpha * m) / (1.0 - beta);
      && 0.0 <= start <= m
      && omega <= GarchAfter(sample, start, alpha, beta, omega) <= if start > level then start else level
  {
    MeanSquareBounds(sample, m);
    forall k | 0 <= k < |sample| ensures 0.0 <= sample[k] * sample[k] {
      SquareNonNegative(sample[k]);
    }
    var start := GarchStart(sample);
    GarchStaysPositive(sample, start, alpha, beta, omega);
    hide SumOfSquares, GarchStart;
    var level := (omega + alpha * m) / (1.0 - beta);
    var high := if start > level then start else level;
    AboveLevel(high, alpha, beta, omega, m);
    BelowLevel(alpha, beta, omega);
    hide AtOrBelowLevel, AtOrAboveLevel;
    GarchStaysInBand(sample, start, alpha, beta, omega, 0.0, m, 0.0, high);
  }

  lemma AboveLevel(high: real, alpha: real, beta: real, omega: real, m: real)
    requires 0.0 <= beta < 1.0 && (omega + alpha * m) / (1.0 - beta) <= high
    ensures AtOrAboveLevel(high, alpha, beta, omega, m)
  {
    var num, rest := omega + alpha * m, 1.0 - beta;
    QuotientTimes(num, rest);
    ProductMonotone(num / rest, high, rest);
    Complement(high, beta);
  }

  lemma BelowLevel(alpha: real, beta: real, omega: real)
    requires omega >= 0.0
    ensures AtOrBelowLevel(0.0, alpha, beta, omega, 0.0)
  {
  }

  lemma MeanSquareBounds(sample: seq<real>, m: real)
    requires sample != [] && forall k :: 0 <= k < |sample| ==> sample[k] * sample[k] <= m
    ensures 0.0 <= GarchStart(sample) <= m
  {
    SumOfSquaresBounds(sample, m);
    hide SumOfSquares;
    var n := |sample| as real;
    QuotientMonotone(0.0, SumOfSquares(sample), n);
    QuotientMonotone(SumOfSquares(sample), n * m, n);
    QuotientIs(n * m, n, m);
    QuotientIs(0.0, n, 0.0);
  }
}
