/** The one-pass maximum-drawdown scan shared by the backtester and the simulator. */
module Drawdown {
  import opened RealFacts

  /** The highest of the starting value and the curve so far. */
  function Peak(start: real, curve: seq<real>): (p: real)
    ensures p >= start && forall k :: 0 <= k < |curve| ==> curve[k] <= p
    ensures p == start || p in curve
  {
    if curve == [] then start
    else
      var before := Peak(start, curve[..|curve| - 1]);
      if curve[|curve| - 1] > before then curve[|curve| - 1] else before
  }

  /** The relative loss at point j from the highest value up to j. */
  function LossAt(start: real, curve: seq<real>, j: nat): real
    requires start > 0.0 && j < |curve|
  {
    var p := Peak(start, curve[..j + 1]);
    (p - curve[j]) / p
  }

  ghost predicate IsMaxDrawdown(start: real, curve: seq<real>, dd: real)
    requires start > 0.0
  {
    && dd >= 0.0
    && (forall j :: 0 <= j < |curve| ==> LossAt(start, curve, j) <= dd)
    && (dd == 0.0 || exists j :: 0 <= j < |curve| && LossAt(start, curve, j) == dd)
  }

  method Scan(start: real, curve: seq<real>) returns (maxDd: real)
    requires start > 0.0
    ensures IsMaxDrawdown(start, curve, maxDd)
  {
    var peak := start;
    maxDd := 0.0;
    hide Peak, IsMaxDrawdown;
    EmptyCurve(start);
    for k := 0 to |curve|
      invariant peak == Peak(start, curve[..k])
      invariant IsMaxDrawdown(start, curve[..k], maxDd)
    {
      assert curve[..k + 1] == curve[..k] + [curve[k]];
      PeakAppend(start, curve[..k], curve[k]);
      MaxDrawdownAppend(start, curve[..k], curve[k], maxDd);
      if curve[k] > peak {
        peak := curve[k];
      }
      var dd := (peak - curve[k]) / peak;
      if dd > maxDd {
        maxDd := dd;
      }
    }
    assert curve[..|curve|] == curve;
  }

  lemma EmptyCurve(start: real)
    requires start > 0.0
    ensures Peak(start, []) == start && IsMaxDrawdown(start, [], 0.0)
  {
  }

  lemma PeakAppend(start: real, curve: seq<real>, x: real)
    ensures var before := Peak(start, curve);
      Peak(start, curve + [x]) == if x > before then x else before
  {
    assert (curve + [x])[..|curve|] == curve;
  }

  lemma LossSeesThePast(start: real, curve: seq<real>, longer: seq<real>, j: nat)
    requires start > 0.0 && curve <= longer && j < |curve|
    ensures LossAt(start, longer, j) == LossAt(start, curve, j)
  {
    assert longer[..j + 1] == curve[..j + 1];
  }

  lemma LastLoss(start: real, curve: seq<real>, x: real)
    requires start > 0.0
    ensures var p := Peak(start, curve + [x]); LossAt(start, curve + [x], |curve|) == (p - x) / p
  {
    assert (curve + [x])[..|curve| + 1] == curve + [x];
  }

  /** One more point: the scan takes the larger of the old result and the new point's loss. */
  lemma MaxDrawdownAppend(start: real, curve: seq<real>, x: real, dd: real)
    requires start > 0.0 && IsMaxDrawdown(start, curve, dd)
    ensures var p := Peak(start, curve + [x]);
      IsMaxDrawdown(start, curve + [x], if (p - x) / p > dd then (p - x) / p else dd)
  {
    hide Peak, LossAt;
    var longer := curve + [x];
    forall j | 0 <= j < |curve| ensures LossAt(start, longer, j) == LossAt(start, curve, j) {
      LossSeesThePast(start, curve, longer, j);
    }
    LastLoss(start, curve, x);
    if dd > 0.0 {
      var j :| 0 <= j < |curve| && LossAt(start, curve, j) == dd;
      assert LossAt(start, longer, j) == dd;
    }
  }

  /** The scan's result is determined. */
  lemma MaxDrawdownIsUnique(start: real, curve: seq<real>, a: real, b: real)
    requires start > 0.0 && IsMaxDrawdown(start, curve, a) && IsMaxDrawdown(start, curve, b)
    ensures a == b
  {
  }

  // ----- the reading as a worst pair

  /** The relative fall from an earlier to a later point of the curve, the start included. */
  function Fall(series: seq<real>, i: nat, j: nat): real
    requires i <= j < |series| && series[i] > 0.0
  {
    (series[i] - series[j]) / series[i]
  }

  lemma FallGrowsWithThePeak(low: real, high: real, x: real)
    requires 0.0 < low <= high && x > 0.0
    ensures (low - x) / low <= (high - x) / high < 1.0
  {
    OneMinusQuotient(x, low);
    OneMinusQuotient(x, high);
    QuotientAntitone(x, low, high);
    QuotientPositive(x, high);
  }

  /** For a curve that stays positive, the one-pass result is the largest fall over all pairs
      of an earlier and a later point, the starting capital counting as the first point. */
  lemma ScanIsWorstPair(start: real, curve: seq<real>, dd: real)
    requires start > 0.0 && IsMaxDrawdown(start, curve, dd)
    requires forall k :: 0 <= k < |curve| ==> curve[k] > 0.0
    ensures var series := [start] + curve;
      && (forall i: nat, j: nat :: i <= j < |series| ==> Fall(series, i, j) <= dd)
      && (exists i: nat, j: nat :: i <= j < |series| && Fall(series, i, j) == dd)
    ensures 0.0 <= dd < 1.0
  {
    hide Peak;
    var series := [start] + curve;
    forall i: nat, j: nat | i <= j < |series| ensures Fall(series, i, j) <= dd {
      if j > 0 {
        var p := Peak(start, curve[..j]);
        assert i > 0 ==> series[i] == curve[..j][i - 1];
        assert series[j] == curve[j - 1] && LossAt(start, curve, j - 1) == (p - series[j]) / p;
        FallGrowsWithThePeak(series[i], p, series[j]);
      }
    }
    if dd == 0.0 {
      assert Fall(series, 0, 0) == dd;
    } else {
      var j :| 0 <= j < |curve| && LossAt(start, curve, j) == dd;
      var upto := curve[..j + 1];
      var p := Peak(start, upto);
      FallGrowsWithThePeak(start, p, curve[j]);
      if p == start {
        assert Fall(series, 0, j + 1) == dd;
      } else {
        var i :| 0 <= i < |upto| && upto[i] == p;
        assert series[i + 1] == p;
        assert Fall(series, i + 1, j + 1) == dd;
      }
    }
  }
}
