/** The Monte Carlo trade-order simulator. Each shuffle is an input: any permutation of the pnls. */
module MonteCarlo {
  import opened Wrappers
  import opened RealFacts
  import opened Sequences
  import Drawdown

  /** The pnls used when there are no trades. */
  const BASELINE: seq<real> := [350.0, -180.0, 520.0, 210.0, -320.0, 680.0, -150.0, 440.0, 310.0, -220.0,
                                850.0, -410.0, 190.0, -120.0, 490.0]

  function Pnls(trades: seq<real>): seq<real> {
    if trades == [] then BASELINE else trades
  }

  lemma CurveOfNone(start: real)
    ensures Curve(start, []) == []
  {
  }

  /** The equity after each trade. */
  function Curve(start: real, s: seq<real>): (c: seq<real>)
    ensures |c| == |s|
  {
    if s == [] then [] else Curve(start, s[..|s| - 1]) + [start + Sum(s)]
  }

  function Losses(s: seq<real>): (l: real)
    ensures l >= 0.0
  {
    if s == [] then 0.0 else Losses(s[..|s| - 1]) + (if s[|s| - 1] < 0.0 then -s[|s| - 1] else 0.0)
  }

  // ----- sums do not depend on the order

  lemma {:induction false} TotalSplit(a: seq<real>, b: seq<real>)
    ensures Sum(a + b) == Sum(a) + Sum(b)
    ensures Losses(a + b) == Losses(a) + Losses(b)
  {
    if b == [] {
      assert a + b == a;
    } else {
      assert (a + b)[..|a + b| - 1] == a + b[..|b| - 1];
      TotalSplit(a, b[..|b| - 1]);
    }
  }

  lemma TotalOfOne(x: real)
    ensures Sum([x]) == x
    ensures Losses([x]) == if x < 0.0 then -x else 0.0
  {
    assert [x][..0] == [];
  }

  /** Without trades a profitable series of fixed pnls is simulated, not an empty one. */
  lemma EmptyMeansBaseline(trades: seq<real>)
    ensures trades != [] ==> Pnls(trades) == trades
    ensures |Pnls([])| == 15 && Sum(Pnls([])) == 2640.0 && Losses(Pnls([])) == 1400.0
  {
    ghost var first, second, third :=
      [350.0, -180.0, 520.0, 210.0, -320.0], [680.0, -150.0, 440.0, 310.0, -220.0],
      [850.0, -410.0, 190.0, -120.0, 490.0];
    assert BASELINE == first + second + third;
    FiveTotals(350.0, -180.0, 520.0, 210.0, -320.0);
    FiveTotals(680.0, -150.0, 440.0, 310.0, -220.0);
    FiveTotals(850.0, -410.0, 190.0, -120.0, 490.0);
    TotalSplit(first, second);
    TotalSplit(first + second, third);
  }

  function Loss(x: real): real {
    if x < 0.0 then -x else 0.0
  }

  lemma FiveTotals(a: real, b: real, c: real, d: real, e: real)
    ensures Sum([a, b, c, d, e]) == a + b + c + d + e
    ensures Losses([a, b, c, d, e]) == Loss(a) + Loss(b) + Loss(c) + Loss(d) + Loss(e)
  {
    assert [a, b, c, d, e] == [a] + [b] + [c] + [d] + [e];
    TotalOfOne(a);
    TotalOfOne(b);
    TotalOfOne(c);
    TotalOfOne(d);
    TotalOfOne(e);
    TotalSplit([a], [b]);
    TotalSplit([a] + [b], [c]);
    TotalSplit([a] + [b] + [c], [d]);
    TotalSplit([a] + [b] + [c] + [d], [e]);
  }

  lemma MultisetWithout(s: seq<real>, i: nat)
    requires i < |s|
    ensures multiset(s[..i] + s[i + 1..]) == multiset(s) - multiset{s[i]}
  {
    assert s == s[..i] + [s[i]] + s[i + 1..];
  }

  lemma TotalWithout(s: seq<real>, i: nat)
    requires i < |s|
    ensures Sum(s) == Sum(s[..i] + s[i + 1..]) + s[i]
    ensures Losses(s) == Losses(s[..i] + s[i + 1..]) + (if s[i] < 0.0 then -s[i] else 0.0)
  {
    hide Sum, Losses;
    assert s == (s[..i] + [s[i]]) + s[i + 1..];
    TotalSplit(s[..i] + [s[i]], s[i + 1..]);
    TotalSplit(s[..i], [s[i]]);
    TotalSplit(s[..i], s[i + 1..]);
    TotalOfOne(s[i]);
  }

  lemma {:induction false} TotalIsOrderFree(s: seq<real>, t: seq<real>)
    requires multiset(s) == multiset(t)
    ensures Sum(s) == Sum(t) && Losses(s) == Losses(t)
    decreases |s|
  {
    hide Sum, Losses;
    assert |s| == |multiset(s)| == |multiset(t)| == |t|;
    if s != [] {
      var last := |s| - 1;
      assert s[last] in multiset(t);
      var i :| 0 <= i < |t| && t[i] == s[last];
      TotalWithout(t, i);
      TotalWithout(s, last);
      MultisetWithout(t, i);
      MultisetWithout(s, last);
      assert s[..last] + s[last + 1..] == s[..last];
      TotalIsOrderFree(s[..last], t[..i] + t[i + 1..]);
    }
  }

  // ----- how deep a drawdown can get

  lemma CurveAppend(start: real, s: seq<real>, x: real)
    ensures Curve(start, s + [x]) == Curve(start, s) + [start + Sum(s) + x]
    ensures Losses(s + [x]) == Losses(s) + (if x < 0.0 then -x else 0.0)
    ensures Sum(s + [x]) == Sum(s) + x
  {
    assert (s + [x])[..|s|] == s;
  }

  lemma {:induction false} CurvePrefix(start: real, s: seq<real>, k: nat)
    requires k <= |s|
    ensures Curve(start, s)[..k] == Curve(start, s[..k])
  {
    if k == |s| {
      assert s[..k] == s;
    } else {
      assert s[..|s| - 1][..k] == s[..k];
      CurvePrefix(start, s[..|s| - 1], k);
    }
  }

  /** The curve never lies further below its peak than the losses so far. */
  lemma {:induction false} DropBoundedByLosses(start: real, s: seq<real>)
    ensures Drawdown.Peak(start, Curve(start, s)) - (start + Sum(s)) <= Losses(s)
  {
    if s != [] {
      var front := s[..|s| - 1];
      DropBoundedByLosses(start, front);
      assert Curve(start, s)[..|s| - 1] == Curve(start, front);
    }
  }

  lemma {:induction false} LossesMonotone(s: seq<real>, k: nat)
    requires k <= |s|
    ensures Losses(s[..k]) <= Losses(s)
  {
    assert s == s[..k] + s[k..];
    TotalSplit(s[..k], s[k..]);
  }

  lemma CurveAt(start: real, s: seq<real>, j: nat)
    requires j < |s|
    ensures Curve(start, s)[..j + 1] == Curve(start, s[..j + 1])
    ensures Curve(start, s)[j] == start + Sum(s[..j + 1])
  {
    CurvePrefix(start, s, j + 1);
    var c := Curve(start, s[..j + 1]);
    assert c[j] == start + Sum(s[..j + 1]);
    assert Curve(start, s)[j] == Curve(start, s)[..j + 1][j];
  }

  lemma LossAtBounded(start: real, s: seq<real>, j: nat)
    requires start > 0.0 && j < |s|
    ensures Drawdown.LossAt(start, Curve(start, s), j) <= Losses(s) / start
  {
    hide Sum, Losses, Curve, Drawdown.Peak;
    var upto := s[..j + 1];
    CurveAt(start, s, j);
    DropBoundedByLosses(start, upto);
    LossesMonotone(s, j + 1);
    var p := Drawdown.Peak(start, Curve(start, upto));
    QuotientMonotone(p - (start + Sum(upto)), Losses(s), p);
    QuotientAntitone(Losses(s), start, p);
  }

  function Losers(s: seq<real>): seq<real> {
    if s == [] then [] else Losers(s[..|s| - 1]) + (if s[|s| - 1] < 0.0 then [s[|s| - 1]] else [])
  }

  function Winners(s: seq<real>): seq<real> {
    if s == [] then [] else Winners(s[..|s| - 1]) + (if s[|s| - 1] < 0.0 then [] else [s[|s| - 1]])
  }

  lemma {:induction false} LosersAndWinnersArePermutation(s: seq<real>)
    ensures multiset(Losers(s) + Winners(s)) == multiset(s)
  {
    if s != [] {
      var front, x := s[..|s| - 1], s[|s| - 1];
      assert s == front + [x];
      LosersAndWinnersArePermutation(front);
    }
  }

  lemma {:induction false} LosersLoseEverything(s: seq<real>)
    ensures forall k :: 0 <= k < |Losers(s)| ==> Losers(s)[k] < 0.0
    ensures Sum(Losers(s)) == -Losses(s)
  {
    hide Sum;
    if s == [] {
      SumOfNone();
    } else {
      var front, x := s[..|s| - 1], s[|s| - 1];
      LosersLoseEverything(front);
      CurveAppend(0.0, Losers(front), x);
      assert Losers(front) + [] == Losers(front);
    }
  }

  lemma {:induction false} FallingCurvePeak(start: real, s: seq<real>)
    requires forall k :: 0 <= k < |s| ==> s[k] < 0.0
    ensures Drawdown.Peak(start, Curve(start, s)) == start && Sum(s) <= 0.0
  {
    if s != [] {
      FallingCurvePeak(start, s[..|s| - 1]);
      assert Curve(start, s)[..|s| - 1] == Curve(start, s[..|s| - 1]);
    }
  }

  /** No order of the trades draws down more than all losses over the starting capital... */
  lemma NoOrderIsWorse(start: real, s: seq<real>, dd: real)
    requires start > 0.0 && Drawdown.IsMaxDrawdown(start, Curve(start, s), dd)
    ensures dd <= Losses(s) / start
  {
    hide Drawdown.LossAt, Curve, Losses;
    if dd == 0.0 {
      QuotientMonotone(0.0, Losses(s), start);
      QuotientIs(0.0, start, 0.0);
    } else {
      var j :| 0 <= j < |Curve(start, s)| && Drawdown.LossAt(start, Curve(start, s), j) == dd;
      LossAtBounded(start, s, j);
    }
  }

  /** ... and taking every loss first draws down exactly that much. */
  lemma LossesFirstIsWorst(start: real, s: seq<real>, dd: real)
    requires start > 0.0 && Drawdown.IsMaxDrawdown(start, Curve(start, Losers(s) + Winners(s)), dd)
    ensures multiset(Losers(s) + Winners(s)) == multiset(s) && dd == Losses(s) / start
  {
    hide Sum, Losses, Curve, Losers, Winners, Drawdown.Peak;
    var l, order := Losers(s), Losers(s) + Winners(s);
    LosersAndWinnersArePermutation(s);
    LosersLoseEverything(s);
    TotalIsOrderFree(order, s);
    NoOrderIsWorse(start, order, dd);
    if l == [] {
      SumOfNone();
      QuotientIs(0.0, start, 0.0);
    } else {
      LossAfterLosers(start, l, Winners(s));
      assert Drawdown.LossAt(start, Curve(start, order), |l| - 1) == Losses(s) / start;
    }
  }

  lemma LossAfterLosers(start: real, l: seq<real>, rest: seq<real>)
    requires start > 0.0 && l != [] && forall k :: 0 <= k < |l| ==> l[k] < 0.0
    ensures Drawdown.LossAt(start, Curve(start, l + rest), |l| - 1) == -Sum(l) / start
  {
    hide Sum, Curve, Drawdown.Peak;
    FallingCurvePeak(start, l);
    CurveAt(start, l + rest, |l| - 1);
    assert (l + rest)[..|l|] == l;
  }

  // ----- sorting and the percentiles

  ghost predicate Sorted(s: seq<real>) {
    forall i, j :: 0 <= i < j < |s| ==> s[i] <= s[j]
  }

  function Insert(x: real, s: seq<real>): (r: seq<real>)
    requires Sorted(s)
    ensures Sorted(r) && |r| == |s| + 1 && multiset(r) == multiset{x} + multiset(s)
    ensures forall y :: y in r <==> y == x || y in s
  {
    if s == [] then [x]
    else
      assert s == [s[0]] + s[1..];
      if x <= s[0] then [x] + s
      else
        var r := Insert(x, s[1..]);
        assert forall k :: 0 <= k < |r| ==> r[k] in r;
        [s[0]] + r
  }

  function Sort(s: seq<real>): (r: seq<real>)
    ensures Sorted(r) && |r| == |s| && multiset(r) == multiset(s)
    ensures forall y :: y in r <==> y in s
  {
    if s == [] then []
    else
      assert s == [s[0]] + s[1..];
      Insert(s[0], Sort(s[1..]))
  }

  /** `int(n * share)` for a share below one. */
  function Rank(n: nat, share: real): (k: nat)
    requires n >= 1 && 0.0 <= share < 1.0
    ensures k < n && k as real <= n as real * share < (k + 1) as real
  {
    RankInRange(n, share);
    (n as real * share).Floor
  }

  lemma RankInRange(n: nat, share: real)
    requires n >= 1 && 0.0 <= share < 1.0
    ensures 0 <= (n as real * share).Floor < n
  {
    ProductMonotone(0.0, share, n as real);
    ProductPositive(n as real, 1.0 - share);
    assert n as real * (1.0 - share) == n as real - n as real * share;
  }

  lemma RealOrderOfRanks(i: nat, j: nat, x: real, y: real)
    requires i as real <= x <= y < (j + 1) as real
    ensures i <= j
  {
  }

  lemma RankMonotone(n: nat, a: real, b: real)
    requires n >= 1 && 0.0 <= a <= b < 1.0
    ensures Rank(n, a) <= Rank(n, b)
  {
    ProductMonotone(a, b, n as real);
    var i, j := Rank(n, a), Rank(n, b);
    hide Rank;
    RealOrderOfRanks(i, j, n as real * a, n as real * b);
  }

  lemma {:induction false} TotalAtLeast(s: seq<real>, low: real)
    requires forall k :: 0 <= k < |s| ==> s[k] >= low
    ensures Sum(s) >= |s| as real * low
  {
    if s != [] {
      TotalAtLeast(s[..|s| - 1], low);
      assert |s| as real * low == (|s| - 1) as real * low + low;
    }
  }

  lemma {:induction false} TotalAtMost(s: seq<real>, high: real)
    requires forall k :: 0 <= k < |s| ==> s[k] <= high
    ensures Sum(s) <= |s| as real * high
  {
    if s != [] {
      TotalAtMost(s[..|s| - 1], high);
      assert |s| as real * high == (|s| - 1) as real * high + high;
    }
  }

  /** The mean of a tail of a sorted list lies between its first element and its bound. */
  lemma TailMean(s: seq<real>, k: nat, high: real)
    requires Sorted(s) && k < |s| && forall j :: 0 <= j < |s| ==> s[j] <= high
    ensures s[k] <= Sum(s[k..]) / |s[k..]| as real <= high
  {
    var tail := s[k..];
    var n := |tail| as real;
    TotalAtLeast(tail, s[k]);
    TotalAtMost(tail, high);
    QuotientIs(n * s[k], n, s[k]);
    QuotientIs(n * high, n, high);
    QuotientMonotone(n * s[k], Sum(tail), n);
    QuotientMonotone(Sum(tail), n * high, n);
  }

  // ----- the simulator

  datatype Report = Report(
    simulations: nat,
    medianDd: real, p95Dd: real, p99Dd: real, cvar99: real,
    medianEquity: real, worst5Equity: real,
    ruinCount: nat)

  method WalkOne(initial: real, shuffled: seq<real>) returns (equity: real, maxDd: real)
    requires initial > 0.0
    ensures equity == initial + Sum(shuffled)
    ensures Drawdown.IsMaxDrawdown(initial, Curve(initial, shuffled), maxDd)
  {
    hide Sum, Losses, Curve, Drawdown.Peak, Drawdown.IsMaxDrawdown;
    equity := initial;
    var peak := initial;
    maxDd := 0.0;
    SumOfNone();
    CurveOfNone(initial);
    Drawdown.EmptyCurve(initial);
    ghost var curve := [];
    for k := 0 to |shuffled|
      invariant equity == initial + Sum(shuffled[..k])
      invariant curve == Curve(initial, shuffled[..k])
      invariant peak == Drawdown.Peak(initial, curve)
      invariant Drawdown.IsMaxDrawdown(initial, curve, maxDd)
    {
      assert shuffled[..k + 1] == shuffled[..k] + [shuffled[k]];
      CurveAppend(initial, shuffled[..k], shuffled[k]);
      equity := equity + shuffled[k];
      Drawdown.PeakAppend(initial, curve, equity);
      Drawdown.MaxDrawdownAppend(initial, curve, equity, maxDd);
      curve := curve + [equity];
      if equity > peak {
        peak := equity;
      }
      var dd := (peak - equity) / peak;
      if dd > maxDd {
        maxDd := dd;
      }
    }
    assert shuffled[..|shuffled|] == shuffled;
  }

  /** `MonteCarloSimulator.run`; without a simulation there is nothing to index. */
  method Run(trades: seq<real>, shuffles: seq<seq<real>>, initial: real)
    returns (r: Result<Report, string>, drawdowns: seq<real>)
    requires initial > 0.0
    requires forall k :: 0 <= k < |shuffles| ==> multiset(shuffles[k]) == multiset(Pnls(trades))
    ensures |drawdowns| == |shuffles|
    ensures forall k :: 0 <= k < |shuffles| ==>
      Drawdown.IsMaxDrawdown(initial, Curve(initial, shuffles[k]), drawdowns[k])
    ensures r.Err? <==> shuffles == []
    ensures r.Ok? ==> r.value == Summary(drawdowns, seq(|shuffles|, k => initial + Sum(Pnls(trades))),
      if initial + Sum(Pnls(trades)) < initial * 0.5 then |shuffles| else 0)
  {
    hide Sum, Curve, Sort, Rank, Pnls;
    var equities := [];
    var ruinCount := 0;
    ghost var final := initial + Sum(Pnls(trades));
    drawdowns := [];
    for n := 0 to |shuffles|
      invariant |drawdowns| == n
      invariant equities == seq(n, k => final)
      invariant ruinCount == if final < initial * 0.5 then n else 0
      invariant forall k :: 0 <= k < n ==> Drawdown.IsMaxDrawdown(initial, Curve(initial, shuffles[k]), drawdowns[k])
    {
      var equity, dd := WalkOne(initial, shuffles[n]);
      TotalIsOrderFree(shuffles[n], Pnls(trades));
      if equity < initial * 0.5 {
        ruinCount := ruinCount + 1;
      }
      drawdowns := drawdowns + [dd];
      equities := equities + [equity];
    }
    if |shuffles| == 0 {
      return Err("IndexError"), drawdowns;
    }
    return Ok(Summary(drawdowns, equities, ruinCount)), drawdowns;
  }

  function Summary(drawdowns: seq<real>, equities: seq<real>, ruinCount: nat): Report
    requires |drawdowns| == |equities| >= 1
  {
    var n, dds, eqs := |drawdowns|, Sort(drawdowns), Sort(equities);
    var tail := dds[Rank(n, 0.99)..];
    Report(n,
           dds[Rank(n, 0.50)] * 100.0, dds[Rank(n, 0.95)] * 100.0, dds[Rank(n, 0.99)] * 100.0,
           Sum(tail) / |tail| as real * 100.0,
           eqs[Rank(n, 0.50)], eqs[Rank(n, 0.05)],
           ruinCount)
  }

  /** What the drawdown list of any set of shuffles looks like. */
  lemma DrawdownsInRange(pnls: seq<real>, shuffles: seq<seq<real>>, initial: real, drawdowns: seq<real>)
    requires initial > 0.0 && |drawdowns| == |shuffles|
    requires forall k :: 0 <= k < |shuffles| ==> multiset(shuffles[k]) == multiset(pnls)
    requires forall k :: 0 <= k < |shuffles| ==>
      Drawdown.IsMaxDrawdown(initial, Curve(initial, shuffles[k]), drawdowns[k])
    ensures forall k :: 0 <= k < |drawdowns| ==> 0.0 <= drawdowns[k] <= Losses(pnls) / initial
  {
    hide Curve, Losses, Sum;
    forall k | 0 <= k < |drawdowns| ensures 0.0 <= drawdowns[k] <= Losses(pnls) / initial {
      NoOrderIsWorse(initial, shuffles[k], drawdowns[k]);
      TotalIsOrderFree(shuffles[k], pnls);
    }
  }

  lemma PercentilesOrdered(drawdowns: seq<real>, worst: real)
    requires drawdowns != [] && forall k :: 0 <= k < |drawdowns| ==> 0.0 <= drawdowns[k] <= worst
    ensures var n, dds := |drawdowns|, Sort(drawdowns);
      0.0 <= dds[Rank(n, 0.50)] <= dds[Rank(n, 0.95)] <= dds[Rank(n, 0.99)]
        <= Sum(dds[Rank(n, 0.99)..]) / |dds[Rank(n, 0.99)..]| as real <= worst
  {
    hide Sort, Rank, Sum;
    var n, dds := |drawdowns|, Sort(drawdowns);
    forall j | 0 <= j < n ensures 0.0 <= dds[j] <= worst {
      assert dds[j] in dds && dds[j] in drawdowns;
    }
    RankMonotone(n, 0.50, 0.95);
    RankMonotone(n, 0.95, 0.99);
    TailMean(dds, Rank(n, 0.99), worst);
  }

  lemma SortOfEqual(s: seq<real>, x: real)
    requires forall k :: 0 <= k < |s| ==> s[k] == x
    ensures forall k :: 0 <= k < |s| ==> Sort(s)[k] == x
  {
    hide Sort;
    forall k | 0 <= k < |s| ensures Sort(s)[k] == x {
      assert Sort(s)[k] in Sort(s) && Sort(s)[k] in s;
    }
  }

  /** Shuffling changes only the path: final equity is one number, ruin is all or nothing, the
      drawdown percentiles are ordered, and none exceeds all losses over the starting capital. */
  lemma SummaryMeaning(trades: seq<real>, shuffles: seq<seq<real>>, initial: real, drawdowns: seq<real>)
    requires initial > 0.0 && shuffles != [] && |drawdowns| == |shuffles|
    requires forall k :: 0 <= k < |shuffles| ==> multiset(shuffles[k]) == multiset(Pnls(trades))
    requires forall k :: 0 <= k < |shuffles| ==>
      Drawdown.IsMaxDrawdown(initial, Curve(initial, shuffles[k]), drawdowns[k])
    ensures var final := initial + Sum(Pnls(trades));
      var rep := Summary(drawdowns, seq(|shuffles|, k => final), if final < initial * 0.5 then |shuffles| else 0);
      && rep.medianEquity == rep.worst5Equity == final
      && (rep.ruinCount == 0 || rep.ruinCount == rep.simulations)
      && 0.0 <= rep.medianDd <= rep.p95Dd <= rep.p99Dd <= rep.cvar99 <= Losses(Pnls(trades)) / initial * 100.0
  {
    hide Sort, Rank, Sum, Losses, Curve, Pnls;
    DrawdownsInRange(Pnls(trades), shuffles, initial, drawdowns);
    PercentilesOrdered(drawdowns, Losses(Pnls(trades)) / initial);
    var final := initial + Sum(Pnls(trades));
    SortOfEqual(seq(|shuffles|, k => final), final);
  }

  // ----- what the figures are

  lemma SortedFirstIsLeast(s: seq<real>, t: seq<real>)
    requires Sorted(s) && Sorted(t) && multiset(s) == multiset(t) && s != [] && t != []
    ensures s[0] == t[0]
  {
    assert s[0] in multiset(t) && t[0] in multiset(s);
    var i :| 0 <= i < |t| && t[i] == s[0];
    var j :| 0 <= j < |s| && s[j] == t[0];
    assert i > 0 ==> t[0] <= t[i];
    assert j > 0 ==> s[0] <= s[j];
  }

  /** A list has one sorted arrangement. */
  lemma {:induction false} SortedIsUnique(s: seq<real>, t: seq<real>)
    requires Sorted(s) && Sorted(t) && multiset(s) == multiset(t)
    ensures s == t
    decreases |s|
  {
    assert |s| == |multiset(s)| == |multiset(t)| == |t|;
    if s != [] {
      SortedFirstIsLeast(s, t);
      assert s == [s[0]] + s[1..] && t == [t[0]] + t[1..];
      assert multiset(s[1..]) == multiset(s) - multiset{s[0]} && multiset(t[1..]) == multiset(t) - multiset{t[0]};
      SortedIsUnique(s[1..], t[1..]);
    }
  }

  /** k is the whole part of a share of n. */
  predicate IsWholePart(k: nat, n: nat, share: real) {
    k as real <= n as real * share < (k + 1) as real
  }

  lemma WholePartIsRank(k: nat, n: nat, share: real)
    requires n >= 1 && 0.0 <= share < 1.0 && IsWholePart(k, n, share)
    ensures Rank(n, share) == k
  {
  }

  /** Every figure of the report, told by the drawdowns and the final equities in order: the
      percentiles are the entries at the whole parts of n times 0.50, 0.95 and 0.99, in percent,
      the tail figure is the mean from the last of these on, and the equities are the entries at
      0.50 and at 0.05. */
  lemma SummaryFigures(drawdowns: seq<real>, equities: seq<real>, ruinCount: nat,
                       d: seq<real>, q: seq<real>, k50: nat, k95: nat, k99: nat, k05: nat)
    requires |drawdowns| == |equities| >= 1
    requires Sorted(d) && multiset(d) == multiset(drawdowns) && Sorted(q) && multiset(q) == multiset(equities)
    requires var n := |drawdowns|;
      IsWholePart(k50, n, 0.50) && IsWholePart(k95, n, 0.95) && IsWholePart(k99, n, 0.99) && IsWholePart(k05, n, 0.05)
    ensures k50 < |d| && k95 < |d| && k99 < |d| && k50 < |q| && k05 < |q|
    ensures var r := Summary(drawdowns, equities, ruinCount);
      && r.simulations == |drawdowns| && r.ruinCount == ruinCount
      && r.medianDd == d[k50] * 100.0 && r.p95Dd == d[k95] * 100.0 && r.p99Dd == d[k99] * 100.0
      && r.cvar99 == Sum(d[k99..]) / |d[k99..]| as real * 100.0
      && r.medianEquity == q[k50] && r.worst5Equity == q[k05]
  {
    hide Sort, Sum, Rank, IsWholePart;
    var n := |drawdowns|;
    SortedIsUnique(d, Sort(drawdowns));
    SortedIsUnique(q, Sort(equities));
    WholePartIsRank(k50, n, 0.50);
    WholePartIsRank(k95, n, 0.95);
    WholePartIsRank(k99, n, 0.99);
    WholePartIsRank(k05, n, 0.05);
  }
}
