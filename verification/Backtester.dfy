/** The one-position backtest loop of the Python and the JavaScript engine.
    Prices and money are exact reals; the two roundings that move the JavaScript balance are
    parameters, and the Python engine is the instance where both are the identity. */
module Backtester {
  import opened Wrappers
  import opened RealFacts
  import opened Sequences
  import Drawdown

  /** A strategy sees the closes up to and including the current bar, and whether a position is open. */
  type Strategy = (seq<real>, bool) -> int

  datatype Engine = Engine(
    capital: real,
    commission: real,
    slippage: real,
    strategy: Strategy,
    roundUnits: real -> real,
    roundPnl: real -> real)
  {
    ghost predicate Valid() {
      capital > 0.0 && 0.0 <= slippage < 1.0 && commission >= 0.0
    }
    ghost predicate Unrounded() {
      forall x: real :: roundUnits(x) == x && roundPnl(x) == x
    }
  }

  datatype Position = Position(id: nat, entryBar: nat, entryPrice: real, units: real, allocation: real)

  datatype Trade = Trade(id: nat, entryBar: nat, exitBar: nat, entryPrice: real, exitPrice: real,
                         units: real, allocation: real, pnl: real)

  datatype Book = Book(balance: real, position: Option<Position>, trades: seq<Trade>, equity: seq<real>)

  /** The first bar that is traded; the ones before only feed the averages. */
  const WARM_UP: nat := 20

  predicate PositivePrices(closes: seq<real>) {
    forall k :: 0 <= k < |closes| ==> closes[k] > 0.0
  }

  function EntryPrice(e: Engine, price: real): real {
    price * (1.0 + e.slippage)
  }

  function ExitPrice(e: Engine, price: real): real {
    price * (1.0 - e.slippage)
  }

  lemma EntryPricePositive(e: Engine, price: real)
    requires e.Valid() && price > 0.0
    ensures EntryPrice(e, price) > 0.0
  {
    ProductPositive(price, 1.0 + e.slippage);
  }

  function SignalAt(e: Engine, closes: seq<real>, bar: nat, open: bool): int
    requires bar < |closes|
  {
    e.strategy(closes[..bar + 1], open)
  }

  function UnitsFor(e: Engine, allocation: real, exec: real): real
    requires exec != 0.0
  {
    e.roundUnits(allocation / exec)
  }

  function NetPnl(e: Engine, units: real, allocation: real, entryPrice: real, exitPrice: real): real {
    e.roundPnl(RawPnl(units, allocation, entryPrice, exitPrice, e.commission))
  }

  /** The gross gain, less the fee on what went in and on what comes out. */
  function RawPnl(units: real, allocation: real, entryPrice: real, exitPrice: real, commission: real): real {
    units * (exitPrice - entryPrice) - (allocation + units * exitPrice) * commission
  }

  /** One bar: open, close or hold, then mark to market. */
  function Bar(e: Engine, closes: seq<real>, i: nat, b: Book): Book
    requires e.Valid() && PositivePrices(closes) && i < |closes|
  {
    var price := closes[i];
    var signal := SignalAt(e, closes, i, b.position.Some?);
    var next :=
      if b.position.None? && signal == 1 then
        var exec := EntryPrice(e, price);
        EntryPricePositive(e, price);
        var allocation := b.balance * 0.95;
        b.(position := Some(Position(|b.trades| + 1, i, exec, UnitsFor(e, allocation, exec), allocation)))
      else if b.position.Some? && signal == -1 then
        var p := b.position.value;
        var exit := ExitPrice(e, price);
        var pnl := NetPnl(e, p.units, p.allocation, p.entryPrice, exit);
        b.(balance := b.balance + pnl, position := None,
           trades := b.trades + [Trade(p.id, p.entryBar, i, p.entryPrice, exit, p.units, p.allocation, pnl)])
      else b;
    next.(equity := next.equity + [MarkToMarket(next.balance, next.position, price)])
  }

  function MarkToMarket(balance: real, position: Option<Position>, price: real): real {
    if position.Some? then balance + position.value.units * (price - position.value.entryPrice) else balance
  }

  /** The book after the bars before n. */
  function Simulate(e: Engine, closes: seq<real>, n: nat): Book
    requires e.Valid() && PositivePrices(closes) && n <= |closes|
  {
    if n <= WARM_UP then Book(e.capital, None, [], [])
    else Bar(e, closes, n - 1, Simulate(e, closes, n - 1))
  }

  datatype Report = Report(book: Book, maxDrawdown: real)

  /** `Backtester.run`: fewer than 25 candles are refused. */
  method Run(e: Engine, closes: seq<real>) returns (r: Result<Report, string>)
    requires e.Valid() && PositivePrices(closes)
    ensures r.Err? <==> |closes| < 25
    ensures r.Ok? ==> r.value.book == Simulate(e, closes, |closes|)
    ensures r.Ok? ==> Drawdown.IsMaxDrawdown(e.capital, r.value.book.equity, r.value.maxDrawdown)
  {
    hide EntryPrice, ExitPrice, NetPnl, MarkToMarket, SignalAt;
    if |closes| < 25 {
      return Err("Insufficient candle data");
    }
    var balance, position: Option<Position>, trades, equity := e.capital, None, [], [];
    for i := WARM_UP to |closes|
      invariant Book(balance, position, trades, equity) == Simulate(e, closes, i)
    {
      ghost var before := Book(balance, position, trades, equity);
      var price := closes[i];
      var signal := SignalAt(e, closes, i, position.Some?);
      if position.None? && signal == 1 {
        var exec := EntryPrice(e, price);
        EntryPricePositive(e, price);
        var allocation := balance * 0.95;
        position := Some(Position(|trades| + 1, i, exec, UnitsFor(e, allocation, exec), allocation));
      } else if position.Some? && signal == -1 {
        var p := position.value;
        var exit := ExitPrice(e, price);
        var pnl := NetPnl(e, p.units, p.allocation, p.entryPrice, exit);
        balance := balance + pnl;
        trades := trades + [Trade(p.id, p.entryBar, i, p.entryPrice, exit, p.units, p.allocation, pnl)];
        position := None;
      }
      equity := equity + [MarkToMarket(balance, position, price)];
      assert Book(balance, position, trades, equity) == Bar(e, closes, i, before);
    }
    var dd := Drawdown.Scan(e.capital, equity);
    return Ok(Report(Book(balance, position, trades, equity), dd));
  }

  // ----- no look-ahead

  lemma BarSeesOnlyThePast(e: Engine, closes: seq<real>, other: seq<real>, i: nat, b: Book)
    requires e.Valid() && PositivePrices(closes) && PositivePrices(other)
    requires i < |closes| && i < |other| && closes[..i + 1] == other[..i + 1]
    ensures Bar(e, closes, i, b) == Bar(e, other, i, b)
  {
    assert closes[i] == closes[..i + 1][i] && other[i] == other[..i + 1][i];
  }

  lemma {:induction false} BooksAgreeOnSharedBars(e: Engine, closes: seq<real>, other: seq<real>, n: nat)
    requires e.Valid() && PositivePrices(closes) && PositivePrices(other)
    requires n <= |closes| && n <= |other| && closes[..n] == other[..n]
    ensures Simulate(e, closes, n) == Simulate(e, other, n)
  {
    hide Bar;
    if n > WARM_UP {
      assert closes[..n - 1] == closes[..n][..n - 1] && other[..n - 1] == other[..n][..n - 1];
      BooksAgreeOnSharedBars(e, closes, other, n - 1);
      BarSeesOnlyThePast(e, closes, other, n - 1, Simulate(e, closes, n - 1));
    }
  }

  lemma BarAppends(e: Engine, closes: seq<real>, i: nat, b: Book)
    requires e.Valid() && PositivePrices(closes) && i < |closes|
    ensures var c := Bar(e, closes, i, b);
      b.equity <= c.equity && |c.equity| == |b.equity| + 1 && b.trades <= c.trades
  {
  }

  lemma {:induction false} BooksGrow(e: Engine, closes: seq<real>, m: nat, n: nat)
    requires e.Valid() && PositivePrices(closes) && m <= n <= |closes|
    ensures Simulate(e, closes, m).equity <= Simulate(e, closes, n).equity
    ensures Simulate(e, closes, m).trades <= Simulate(e, closes, n).trades
    decreases n
  {
    if m < n && n > WARM_UP {
      hide Bar;
      BooksGrow(e, closes, m, n - 1);
      BarAppends(e, closes, n - 1, Simulate(e, closes, n - 1));
    }
  }

  lemma {:induction false} OneEquityPointPerBar(e: Engine, closes: seq<real>, n: nat)
    requires e.Valid() && PositivePrices(closes) && n <= |closes|
    ensures |Simulate(e, closes, n).equity| == if n <= WARM_UP then 0 else n - WARM_UP
  {
    if n > WARM_UP {
      hide Bar;
      OneEquityPointPerBar(e, closes, n - 1);
      BarAppends(e, closes, n - 1, Simulate(e, closes, n - 1));
    }
  }

  /** No look-ahead: running on the first candles only gives the beginning of the full run's
      equity curve and of its list of closed trades. */
  lemma NoLookAhead(e: Engine, prefix: seq<real>, closes: seq<real>)
    requires e.Valid() && PositivePrices(closes) && prefix <= closes
    ensures PositivePrices(prefix)
    ensures Simulate(e, prefix, |prefix|).equity <= Simulate(e, closes, |closes|).equity
    ensures Simulate(e, prefix, |prefix|).trades <= Simulate(e, closes, |closes|).trades
  {
    hide Simulate;
    assert forall k :: 0 <= k < |prefix| ==> prefix[k] == closes[k];
    assert prefix[..|prefix|] == prefix == closes[..|prefix|];
    BooksAgreeOnSharedBars(e, prefix, closes, |prefix|);
    BooksGrow(e, closes, |prefix|, |closes|);
  }

  // ----- the trade list, described without the loop

  /** Where trade k's search for an entry starts. */
  function FlatFrom(trades: seq<Trade>, k: nat): nat
    requires k <= |trades|
  {
    if k == 0 then WARM_UP else trades[k - 1].exitBar + 1
  }

  ghost predicate FlatBetween(e: Engine, closes: seq<real>, from: nat, to: nat)
    requires to <= |closes|
  {
    forall b :: from <= b < to ==> SignalAt(e, closes, b, false) != 1
  }

  ghost predicate HeldBetween(e: Engine, closes: seq<real>, from: nat, to: nat)
    requires to <= |closes|
  {
    forall b :: from < b < to ==> SignalAt(e, closes, b, true) != -1
  }

  /** A position entered at the first buy signal after `from`. */
  ghost predicate EntryAt(e: Engine, closes: seq<real>, from: nat, bar: nat) {
    && from <= bar < |closes| && FlatBetween(e, closes, from, bar)
    && SignalAt(e, closes, bar, false) == 1
  }

  /** Trade k: in at the first buy signal after the previous exit, out at the first sell
      signal after that, at the slipped prices of those two bars. */
  ghost predicate TradeOk(e: Engine, closes: seq<real>, n: nat, trades: seq<Trade>, k: nat)
    requires n <= |closes| && k < |trades|
  {
    var t := trades[k];
    && t.id == k + 1
    && EntryAt(e, closes, FlatFrom(trades, k), t.entryBar)
    && t.entryBar < t.exitBar < n
    && HeldBetween(e, closes, t.entryBar, t.exitBar)
    && SignalAt(e, closes, t.exitBar, true) == -1
    && t.entryPrice == EntryPrice(e, closes[t.entryBar])
    && t.exitPrice == ExitPrice(e, closes[t.exitBar])
    && t.pnl == NetPnl(e, t.units, t.allocation, t.entryPrice, t.exitPrice)
  }

  ghost predicate TradeLog(e: Engine, closes: seq<real>, n: nat, b: Book)
    requires n <= |closes|
  {
    && (forall k :: 0 <= k < |b.trades| ==> TradeOk(e, closes, n, b.trades, k))
    && FlatFrom(b.trades, |b.trades|) <= (if n <= WARM_UP then WARM_UP else n)
    && match b.position
       case None => FlatBetween(e, closes, FlatFrom(b.trades, |b.trades|), n)
       case Some(p) =>
         && p.id == |b.trades| + 1 && p.entryBar < n
         && EntryAt(e, closes, FlatFrom(b.trades, |b.trades|), p.entryBar)
         && HeldBetween(e, closes, p.entryBar, n)
         && p.entryPrice == EntryPrice(e, closes[p.entryBar])
  }

  lemma TradeOkExtends(e: Engine, closes: seq<real>, n: nat, trades: seq<Trade>, more: seq<Trade>, k: nat)
    requires n < |closes| && k < |trades| && TradeOk(e, closes, n, trades, k) && trades <= more
    ensures TradeOk(e, closes, n + 1, more, k)
  {
    assert FlatFrom(more, k) == FlatFrom(trades, k);
  }

  /** One bar keeps the description of the trade list true. */
  lemma BarExtendsLog(e: Engine, closes: seq<real>, n: nat, b: Book)
    requires e.Valid() && PositivePrices(closes) && WARM_UP <= n < |closes| && TradeLog(e, closes, n, b)
    ensures TradeLog(e, closes, n + 1, Bar(e, closes, n, b))
  {
    var c := Bar(e, closes, n, b);
    hide NetPnl, EntryPrice, ExitPrice, MarkToMarket, SignalAt;
    var m := n + 1;
    forall k | 0 <= k < |b.trades| ensures TradeOk(e, closes, m, c.trades, k) {
      TradeOkExtends(e, closes, n, b.trades, c.trades, k);
    }
    assert FlatFrom(c.trades, |b.trades|) == FlatFrom(b.trades, |b.trades|);
    if |c.trades| > |b.trades| {
      assert TradeOk(e, closes, n + 1, c.trades, |b.trades|);
    }
  }

  /** The closed trades are exactly the first-buy, first-sell intervals of the signals. */
  lemma {:induction false} TradesFollowSignals(e: Engine, closes: seq<real>, n: nat)
    requires e.Valid() && PositivePrices(closes) && n <= |closes|
    ensures TradeLog(e, closes, n, Simulate(e, closes, n))
  {
    if n > WARM_UP {
      hide Bar, TradeLog;
      TradesFollowSignals(e, closes, n - 1);
      BarExtendsLog(e, closes, n - 1, Simulate(e, closes, n - 1));
    }
  }

  function BarsHeld(trades: seq<Trade>): int {
    if trades == [] then 0
    else BarsHeld(trades[..|trades| - 1]) + (trades[|trades| - 1].exitBar - trades[|trades| - 1].entryBar)
  }

  lemma {:induction false} HeldBarsFit(e: Engine, closes: seq<real>, n: nat, trades: seq<Trade>)
    requires n <= |closes| && forall k :: 0 <= k < |trades| ==> TradeOk(e, closes, n, trades, k)
    ensures 0 <= BarsHeld(trades) <= FlatFrom(trades, |trades|) - WARM_UP
  {
    if trades != [] {
      var front := trades[..|trades| - 1];
      forall k | 0 <= k < |front| ensures TradeOk(e, closes, n, front, k) {
        assert TradeOk(e, closes, n, trades, k) && FlatFrom(front, k) == FlatFrom(trades, k);
      }
      HeldBarsFit(e, closes, n, front);
      assert TradeOk(e, closes, n, trades, |trades| - 1);
    }
  }

  /** Closed trades are disjoint intervals in time order; together they hold no more bars than were traded. */
  lemma TradesAreDisjointIntervals(e: Engine, closes: seq<real>)
    requires e.Valid() && PositivePrices(closes)
    ensures var trades := Simulate(e, closes, |closes|).trades;
      && (forall k :: 0 <= k < |trades| ==>
           trades[k].id == k + 1 && WARM_UP <= trades[k].entryBar < trades[k].exitBar < |closes|)
      && (forall j, k :: 0 <= j < k < |trades| ==> trades[j].exitBar < trades[k].entryBar)
      && (trades != [] ==> 1 <= BarsHeld(trades) < |closes| - WARM_UP)
  {
    TradesFollowSignals(e, closes, |closes|);
    hide Simulate, SignalAt, EntryPrice, ExitPrice, NetPnl;
    var trades := Simulate(e, closes, |closes|).trades;
    forall k | 0 <= k < |trades| ensures trades[k].id == k + 1 && trades[k].entryBar < trades[k].exitBar < |closes| {
      assert TradeOk(e, closes, |closes|, trades, k);
    }
    IntervalsInOrder(e, closes, trades, |trades|);
    HeldBarsFit(e, closes, |closes|, trades);
    HeldBarsPositive(e, closes, |closes|, trades);
  }

  lemma HeldBarsPositive(e: Engine, closes: seq<real>, n: nat, trades: seq<Trade>)
    requires n <= |closes| && forall k :: 0 <= k < |trades| ==> TradeOk(e, closes, n, trades, k)
    ensures trades != [] ==> 1 <= BarsHeld(trades) < n - WARM_UP
  {
    if trades != [] {
      var front := trades[..|trades| - 1];
      forall k | 0 <= k < |front| ensures TradeOk(e, closes, n, front, k) {
        assert TradeOk(e, closes, n, trades, k) && FlatFrom(front, k) == FlatFrom(trades, k);
      }
      HeldBarsFit(e, closes, n, front);
      assert TradeOk(e, closes, n, trades, |trades| - 1);
    }
  }

  lemma {:induction false} IntervalsInOrder(e: Engine, closes: seq<real>, trades: seq<Trade>, m: nat)
    requires m <= |trades| && forall k :: 0 <= k < |trades| ==> TradeOk(e, closes, |closes|, trades, k)
    ensures forall k :: 0 <= k < m ==> WARM_UP <= trades[k].entryBar
    ensures forall j, k :: 0 <= j < k < m ==> trades[j].exitBar < trades[k].entryBar
  {
    if m > 0 {
      IntervalsInOrder(e, closes, trades, m - 1);
      assert TradeOk(e, closes, |closes|, trades, m - 1);
      if m > 1 {
        assert TradeOk(e, closes, |closes|, trades, m - 2);
      }
    }
  }

  // ----- money

  function TotalPnl(trades: seq<Trade>): real {
    if trades == [] then 0.0 else TotalPnl(trades[..|trades| - 1]) + trades[|trades| - 1].pnl
  }

  lemma TotalPnlAppend(trades: seq<Trade>, t: Trade)
    ensures TotalPnl(trades + [t]) == TotalPnl(trades) + t.pnl
  {
    assert (trades + [t])[..|trades|] == trades;
  }

  /** A bar moves the balance by the pnl of the trade it closes, if any. */
  lemma BarBooksPnl(e: Engine, closes: seq<real>, i: nat, b: Book)
    requires e.Valid() && PositivePrices(closes) && i < |closes|
    ensures var c := Bar(e, closes, i, b);
      || (c.trades == b.trades && c.balance == b.balance)
      || (c.trades != [] && c.trades == b.trades + [c.trades[|c.trades| - 1]]
          && c.balance == b.balance + c.trades[|c.trades| - 1].pnl)
  {
    hide SignalAt, EntryPrice, ExitPrice, NetPnl, UnitsFor, MarkToMarket;
  }

  /** The balance is the starting capital plus the pnl of the closed trades, under any rounding. */
  lemma {:induction false} BalanceIsCapitalPlusPnl(e: Engine, closes: seq<real>, n: nat)
    requires e.Valid() && PositivePrices(closes) && n <= |closes|
    ensures var b := Simulate(e, closes, n); b.balance == e.capital + TotalPnl(b.trades)
  {
    hide Bar;
    if n > WARM_UP {
      hide TotalPnl;
      var b, c := Simulate(e, closes, n - 1), Simulate(e, closes, n);
      BalanceIsCapitalPlusPnl(e, closes, n - 1);
      BarBooksPnl(e, closes, n - 1, b);
      if c.trades != b.trades {
        TotalPnlAppend(b.trades, c.trades[|c.trades| - 1]);
      }
    }
  }

  /** 95% of the balance at entry, turned into units at the entry price. */
  ghost predicate Sized(e: Engine, balance: real, allocation: real, units: real, entryPrice: real) {
    allocation == balance * 0.95 && entryPrice != 0.0 && units == UnitsFor(e, allocation, entryPrice)
  }

  ghost predicate AllSized(e: Engine, b: Book) {
    && (forall k :: 0 <= k < |b.trades| ==> var t := b.trades[k];
         Sized(e, e.capital + TotalPnl(b.trades[..k]), t.allocation, t.units, t.entryPrice))
    && (b.position.Some? ==> var p := b.position.value;
         Sized(e, e.capital + TotalPnl(b.trades), p.allocation, p.units, p.entryPrice))
  }

  lemma BarKeepsSizes(e: Engine, closes: seq<real>, i: nat, b: Book)
    requires e.Valid() && PositivePrices(closes) && i < |closes|
    requires AllSized(e, b) && b.balance == e.capital + TotalPnl(b.trades)
    ensures AllSized(e, Bar(e, closes, i, b))
  {
    hide NetPnl, SignalAt, TotalPnl, MarkToMarket, EntryPrice, ExitPrice, UnitsFor;
    var c := Bar(e, closes, i, b);
    EntryPricePositive(e, closes[i]);
    forall k | 0 <= k < |c.trades| ensures c.trades[..k] == b.trades[..k] {
    }
    assert b.trades[..|b.trades|] == b.trades;
  }

  lemma NothingToSize(e: Engine)
    ensures AllSized(e, Book(e.capital, None, [], []))
  {
  }

  /** Every trade is sized by the capital and the pnl of the trades closed before it. */
  lemma {:induction false} TradesAreSized(e: Engine, closes: seq<real>, n: nat)
    requires e.Valid() && PositivePrices(closes) && n <= |closes|
    ensures AllSized(e, Simulate(e, closes, n))
  {
    hide AllSized, TotalPnl, Bar;
    if n > WARM_UP {
      TradesAreSized(e, closes, n - 1);
      BalanceIsCapitalPlusPnl(e, closes, n - 1);
      BarKeepsSizes(e, closes, n - 1, Simulate(e, closes, n - 1));
    } else {
      NothingToSize(e);
    }
  }

  // ----- a closed trade, spelled out

  /** What a signal is: the strategy's answer on the closes up to and including the bar. */
  lemma SignalSeesTheBar(e: Engine, closes: seq<real>, bar: nat, open: bool)
    requires bar < |closes|
    ensures SignalAt(e, closes, bar, open) == e.strategy(closes[..bar + 1], open)
  {
  }

  lemma PriceTerms(e: Engine, price: real)
    ensures EntryPrice(e, price) == price * (1.0 + e.slippage) && ExitPrice(e, price) == price * (1.0 - e.slippage)
  {
  }

  /** Every closed trade in the terms of the candles: bought on a buy signal given flat, at that
      bar's close slipped up, and sold on a sell signal given holding, at that bar's close
      slipped down. */
  lemma TradeBars(e: Engine, closes: seq<real>, k: nat)
    requires e.Valid() && PositivePrices(closes) && k < |Simulate(e, closes, |closes|).trades|
    ensures var t := Simulate(e, closes, |closes|).trades[k];
      && t.entryBar < |closes| && t.exitBar < |closes|
      && e.strategy(closes[..t.entryBar + 1], false) == 1 && e.strategy(closes[..t.exitBar + 1], true) == -1
      && t.entryPrice == closes[t.entryBar] * (1.0 + e.slippage)
      && t.exitPrice == closes[t.exitBar] * (1.0 - e.slippage)
  {
    hide Simulate, NetPnl, EntryPrice, ExitPrice, SignalAt;
    TradesFollowSignals(e, closes, |closes|);
    var trades := Simulate(e, closes, |closes|).trades;
    assert TradeOk(e, closes, |closes|, trades, k);
    var t := trades[k];
    hide TradeOk, TradeLog;
    SignalSeesTheBar(e, closes, t.entryBar, false);
    SignalSeesTheBar(e, closes, t.exitBar, true);
    PriceTerms(e, closes[t.entryBar]);
    PriceTerms(e, closes[t.exitBar]);
  }

  lemma UnitsTerms(e: Engine, allocation: real, entry: real) returns (size: real)
    requires entry != 0.0
    ensures UnitsFor(e, allocation, entry) == e.roundUnits(size) && size * entry == allocation
  {
    size := allocation / entry;
    QuotientTimes(allocation, entry);
  }

  /** ... and its size: 95% of the money there was before it went in, for as many units as that buys. */
  lemma TradeSize(e: Engine, closes: seq<real>, k: nat) returns (size: real)
    requires e.Valid() && PositivePrices(closes) && k < |Simulate(e, closes, |closes|).trades|
    ensures var trades := Simulate(e, closes, |closes|).trades;
      && trades[k].allocation == (e.capital + TotalPnl(trades[..k])) * 0.95
      && trades[k].units == e.roundUnits(size) && size * trades[k].entryPrice == trades[k].allocation
  {
    hide Simulate, TotalPnl, UnitsFor;
    TradesAreSized(e, closes, |closes|);
    var t := Simulate(e, closes, |closes|).trades[k];
    size := UnitsTerms(e, t.allocation, t.entryPrice);
  }

  lemma PnlTerms(e: Engine, t: Trade) returns (raw: real)
    ensures NetPnl(e, t.units, t.allocation, t.entryPrice, t.exitPrice) == e.roundPnl(raw)
    ensures raw == t.units * (t.exitPrice - t.entryPrice) - (t.allocation + t.units * t.exitPrice) * e.commission
  {
    raw := RawPnl(t.units, t.allocation, t.entryPrice, t.exitPrice, e.commission);
    assert NetPnl(e, t.units, t.allocation, t.entryPrice, t.exitPrice) == e.roundPnl(raw) by { hide RawPnl; }
  }

  /** ... and what it brings: the difference in price, less the fees on both amounts. */
  lemma TradePnl(e: Engine, closes: seq<real>, k: nat) returns (raw: real)
    requires e.Valid() && PositivePrices(closes) && k < |Simulate(e, closes, |closes|).trades|
    ensures var t := Simulate(e, closes, |closes|).trades[k];
      && t.pnl == e.roundPnl(raw)
      && raw == t.units * (t.exitPrice - t.entryPrice) - (t.allocation + t.units * t.exitPrice) * e.commission
  {
    hide Simulate, NetPnl, EntryPrice, ExitPrice, SignalAt;
    TradesFollowSignals(e, closes, |closes|);
    var trades := Simulate(e, closes, |closes|).trades;
    assert TradeOk(e, closes, |closes|, trades, k);
    hide TradeOk, TradeLog;
    raw := PnlTerms(e, trades[k]);
  }

  // ----- the equity curve

  lemma BarEquity(e: Engine, closes: seq<real>, i: nat, b: Book)
    requires e.Valid() && PositivePrices(closes) && i < |closes|
    ensures var c := Bar(e, closes, i, b);
      c.equity == b.equity + [MarkToMarket(c.balance, c.position, closes[i])]
  {
    hide SignalAt, EntryPrice, ExitPrice, NetPnl, UnitsFor, MarkToMarket;
  }

  /** What a position is worth beyond the money put in, at a price. */
  lemma MarkTerms(balance: real, position: Option<Position>, price: real) returns (gain: real)
    ensures MarkToMarket(balance, position, price) == balance + gain
    ensures position.None? ==> gain == 0.0
    ensures position.Some? ==> gain == position.value.units * (price - position.value.entryPrice)
  {
    gain := if position.Some? then position.value.units * (price - position.value.entryPrice) else 0.0;
  }

  /** A bar's equity point: the balance, and the unrealised gain of the position held, if any. */
  lemma LastEquityPoint(e: Engine, closes: seq<real>, n: nat) returns (gain: real)
    requires e.Valid() && PositivePrices(closes) && WARM_UP < n <= |closes|
    ensures var b := Simulate(e, closes, n);
      && |b.equity| == n - WARM_UP && b.equity[n - 1 - WARM_UP] == e.capital + TotalPnl(b.trades) + gain
      && (b.position.None? ==> gain == 0.0)
      && (b.position.Some? ==> gain == b.position.value.units * (closes[n - 1] - b.position.value.entryPrice))
  {
    hide TotalPnl, Simulate, Bar, MarkToMarket;
    OneEquityPointPerBar(e, closes, n);
    BalanceIsCapitalPlusPnl(e, closes, n);
    NextBook(e, closes, n - 1);
    BarEquity(e, closes, n - 1, Simulate(e, closes, n - 1));
    var b := Simulate(e, closes, n);
    gain := MarkTerms(b.balance, b.position, closes[n - 1]);
  }

  /** The whole curve: point i is the value of the book after bar i. */
  lemma EquityCurve(e: Engine, closes: seq<real>, i: nat) returns (gain: real)
    requires e.Valid() && PositivePrices(closes) && WARM_UP <= i < |closes|
    ensures var curve, b := Simulate(e, closes, |closes|).equity, Simulate(e, closes, i + 1);
      && |curve| == |closes| - WARM_UP && curve[i - WARM_UP] == e.capital + TotalPnl(b.trades) + gain
      && (b.position.None? ==> gain == 0.0)
      && (b.position.Some? ==> gain == b.position.value.units * (closes[i] - b.position.value.entryPrice))
  {
    hide Simulate, TotalPnl;
    OneEquityPointPerBar(e, closes, |closes|);
    gain := LastEquityPoint(e, closes, i + 1);
    BooksGrow(e, closes, i + 1, |closes|);
  }

  // ----- solvency

  ghost predicate Solvent(b: Book) {
    && b.balance > 0.0
    && (b.position.Some? ==>
         var p := b.position.value;
         p.entryPrice > 0.0 && p.units > 0.0 && p.allocation == 0.95 * b.balance && p.units * p.entryPrice ==
           p.allocation)
    && forall k :: 0 <= k < |b.equity| ==> b.equity[k] > 0.0
  }

  lemma EntryBuysAllocation(balance: real, exec: real)
    requires balance > 0.0 && exec > 0.0
    ensures var units := balance * 0.95 / exec; units > 0.0 && units * exec == 0.95 * balance
  {
    QuotientPositive(balance * 0.95, exec);
    QuotientTimes(balance * 0.95, exec);
  }

  lemma OpenEquityPositive(balance: real, units: real, entry: real, price: real)
    requires balance > 0.0 && units > 0.0 && price > 0.0 && units * entry == 0.95 * balance
    ensures balance + units * (price - entry) > 0.0
  {
    ProductPositive(units, price);
    assert units * (price - entry) == units * price - units * entry;
  }

  /** Closing costs at most the allocation and its fee: 5% cover a commission of up to 1/19. */
  lemma ExitKeepsBalance(balance: real, units: real, entry: real, exit: real, commission: real)
    requires balance > 0.0 && units > 0.0 && exit > 0.0 && units * entry == 0.95 * balance
    requires 0.0 <= commission <= 1.0 / 19.0
    ensures balance + (units * (exit - entry) - (0.95 * balance + units * exit) * commission) > 0.0
  {
    var value := units * exit;
    ProductPositive(units, exit);
    ProductPositive(value, 1.0 - commission);
    ProductMonotone(commission, 1.0 / 19.0, 0.95 * balance);
    assert units * (exit - entry) == value - 0.95 * balance;
    assert (0.95 * balance + value) * commission == commission * (0.95 * balance) + value * commission;
    assert value * (1.0 - commission) == value - value * commission;
    assert 1.0 / 19.0 * (0.95 * balance) == 0.05 * balance;
  }

  lemma {:induction false} StaysSolvent(e: Engine, closes: seq<real>, n: nat)
    requires e.Valid() && e.Unrounded() && e.commission <= 1.0 / 19.0 && PositivePrices(closes) && n <= |closes|
    ensures Solvent(Simulate(e, closes, n))
  {
    assert Solvent(Book(e.capital, None, [], []));
    hide Bar, Solvent;
    if n > WARM_UP {
      var b := Simulate(e, closes, n - 1);
      StaysSolvent(e, closes, n - 1);
      TradablePrices(e, closes[n - 1], b);
      BarStaysSolvent(e, closes, n - 1, b);
    }
  }

  ghost predicate Tradable(e: Engine, price: real, balance: real) {
    && EntryPrice(e, price) > 0.0 && ExitPrice(e, price) > 0.0
    && var units := balance * 0.95 / EntryPrice(e, price);
       units > 0.0 && units * EntryPrice(e, price) == 0.95 * balance
  }

  lemma TradablePrices(e: Engine, price: real, b: Book)
    requires e.Valid() && price > 0.0 && Solvent(b)
    ensures Tradable(e, price, b.balance)
  {
    var up, down := 1.0 + e.slippage, 1.0 - e.slippage;
    ProductPositive(price, up);
    ProductPositive(price, down);
    assert EntryPrice(e, price) == price * up && ExitPrice(e, price) == price * down;
    hide EntryPrice, ExitPrice;
    EntryBuysAllocation(b.balance, EntryPrice(e, price));
  }

  lemma UnroundedPnl(e: Engine, units: real, allocation: real, entry: real, exit: real)
    requires e.Unrounded()
    ensures NetPnl(e, units, allocation, entry, exit) ==
      units * (exit - entry) - (allocation + units * exit) * e.commission
  {
  }

  /** One more point, above zero, on the curve of a book. */
  lemma OnePointMore(b: Book, c: Book, price: real)
    requires forall k :: 0 <= k < |b.equity| ==> b.equity[k] > 0.0
    requires c.equity == b.equity + [MarkToMarket(c.balance, c.position, price)]
    requires MarkToMarket(c.balance, c.position, price) > 0.0
    ensures forall k :: 0 <= k < |c.equity| ==> c.equity[k] > 0.0
  {
  }

  /** What a bar does that opens a position. */
  lemma BarBuys(e: Engine, closes: seq<real>, i: nat, b: Book)
    requires e.Valid() && PositivePrices(closes) && i < |closes| && EntryPrice(e, closes[i]) > 0.0
    requires b.position.None? && SignalAt(e, closes, i, false) == 1
    ensures var exec, allocation, c := EntryPrice(e, closes[i]), b.balance * 0.95, Bar(e, closes, i, b);
      && c.position == Some(Position(|b.trades| + 1, i, exec, UnitsFor(e, allocation, exec), allocation))
      && c.balance == b.balance && c.equity == b.equity + [MarkToMarket(c.balance, c.position, closes[i])]
  {
    hide EntryPrice, UnitsFor, SignalAt, MarkToMarket, NetPnl;
  }

  lemma UnroundedUnits(e: Engine, allocation: real, exec: real)
    requires e.Unrounded() && exec != 0.0
    ensures UnitsFor(e, allocation, exec) == allocation / exec
  {
  }

  lemma EntryStaysSolvent(e: Engine, closes: seq<real>, i: nat, b: Book)
    requires e.Valid() && e.Unrounded() && PositivePrices(closes) && i < |closes|
    requires Solvent(b) && Tradable(e, closes[i], b.balance)
    requires b.position.None? && SignalAt(e, closes, i, false) == 1
    ensures Solvent(Bar(e, closes, i, b))
  {
    hide Bar, EntryPrice, ExitPrice, SignalAt;
    var price, c := closes[i], Bar(e, closes, i, b);
    var exec := EntryPrice(e, price);
    var units := b.balance * 0.95 / exec;
    BarBuys(e, closes, i, b);
    UnroundedUnits(e, b.balance * 0.95, exec);
    OpenEquityPositive(b.balance, units, exec, price);
    OnePointMore(b, c, price);
  }

  lemma ExitStaysSolvent(e: Engine, closes: seq<real>, i: nat, b: Book)
    requires e.Valid() && e.Unrounded() && e.commission <= 1.0 / 19.0 && PositivePrices(closes) && i < |closes|
    requires Solvent(b) && ExitPrice(e, closes[i]) > 0.0
    requires b.position.Some? && SignalAt(e, closes, i, true) == -1
    ensures Solvent(Bar(e, closes, i, b))
  {
    var price, c, p := closes[i], Bar(e, closes, i, b), b.position.value;
    var exit := ExitPrice(e, price);
    assert c.balance == b.balance + NetPnl(e, p.units, p.allocation, p.entryPrice, exit) && c.position.None?;
    assert c.equity == b.equity + [MarkToMarket(c.balance, c.position, price)];
    hide EntryPrice, ExitPrice, SignalAt, Bar;
    UnroundedPnl(e, p.units, p.allocation, p.entryPrice, exit);
    hide NetPnl;
    ExitKeepsBalance(b.balance, p.units, p.entryPrice, exit, e.commission);
    OnePointMore(b, c, price);
  }

  lemma HoldStaysSolvent(e: Engine, closes: seq<real>, i: nat, b: Book)
    requires e.Valid() && PositivePrices(closes) && i < |closes| && Solvent(b)
    requires if b.position.Some? then SignalAt(e, closes, i, true) != -1 else SignalAt(e, closes, i, false) != 1
    ensures Solvent(Bar(e, closes, i, b))
  {
    var price, c := closes[i], Bar(e, closes, i, b);
    assert c == b.(equity := b.equity + [MarkToMarket(b.balance, b.position, price)]);
    hide SignalAt, Bar;
    if b.position.Some? {
      OpenEquityPositive(b.balance, b.position.value.units, b.position.value.entryPrice, price);
    }
    OnePointMore(b, c, price);
  }

  lemma BarStaysSolvent(e: Engine, closes: seq<real>, i: nat, b: Book)
    requires e.Valid() && e.Unrounded() && e.commission <= 1.0 / 19.0 && PositivePrices(closes) && i < |closes|
    requires Solvent(b) && Tradable(e, closes[i], b.balance)
    ensures Solvent(Bar(e, closes, i, b))
  {
    var signal := SignalAt(e, closes, i, b.position.Some?);
    hide Bar, Solvent, EntryPrice, SignalAt;
    if b.position.Some? && signal == -1 {
      ExitStaysSolvent(e, closes, i, b);
    } else if b.position.None? && signal == 1 {
      EntryStaysSolvent(e, closes, i, b);
    } else {
      HoldStaysSolvent(e, closes, i, b);
    }
  }

  // ----- ruin

  /** The mean of the closes of the warm-up window, the bar being decided on left out. */
  function WindowMean(seen: seq<real>): real
    requires |seen| > WARM_UP
  {
    Sum(seen[|seen| - 1 - WARM_UP..|seen| - 1]) / 20.0
  }

  /** The engine's Kalman preset: buy above 1.004 times the mean, sell below 0.996 times it. */
  function KalmanSignal(seen: seq<real>, open: bool): int {
    if |seen| <= WARM_UP then 0
    else if seen[|seen| - 1] > WindowMean(seen) * 1.004 then 1
    else if seen[|seen| - 1] < WindowMean(seen) * 0.996 then -1
    else 0
  }

  /** The rule, told by any m that is the mean of the twenty closes before the last one: the
      last close breaks out of the band of 0.4% around it. */
  lemma KalmanRule(seen: seq<real>, open: bool, m: real)
    requires |seen| > 20 && m > 0.0 && m * 20.0 == Sum(seen[|seen| - 21..|seen| - 1])
    ensures var last := seen[|seen| - 1];
      && (KalmanSignal(seen, open) == 1 <==> last - m > 0.004 * m)
      && (KalmanSignal(seen, open) == -1 <==> m - last > 0.004 * m)
      && (KalmanSignal(seen, open) == 0 <==> -0.004 * m <= last - m <= 0.004 * m)
  {
    hide Sum;
    assert WindowMean(seen) == m;
  }

  function Identity(x: real): real {
    x
  }

  /** The Python engine under its Kalman preset. */
  function KalmanEngine(capital: real, commission: real, slippage: real): Engine {
    Engine(capital, commission, slippage, KalmanSignal, Identity, Identity)
  }

  /** A flat window, one close just above it, then a crash that lasts. */
  function CrashCandles(low: real): seq<real> {
    seq(25, i => if i < WARM_UP then 1.0 else if i == WARM_UP then 1.01 else low)
  }

  lemma {:induction false} SumOfOnes(s: seq<real>)
    requires forall k :: 0 <= k < |s| ==> s[k] == 1.0
    ensures Sum(s) == |s| as real
  {
    if s != [] {
      SumOfOnes(s[..|s| - 1]);
    }
  }

  lemma CrashSignals(low: real)
    requires 0.0 < low <= 0.5
    ensures PositivePrices(CrashCandles(low))
    ensures KalmanSignal(CrashCandles(low)[..WARM_UP + 1], false) == 1
    ensures KalmanSignal(CrashCandles(low)[..WARM_UP + 2], true) == -1
  {
    var closes := CrashCandles(low);
    var first, second := closes[..WARM_UP + 1], closes[..WARM_UP + 2];
    SumOfOnes(first[0..WARM_UP]);
    assert WindowMean(first) == 1.0;
    var window := second[1..WARM_UP + 1];
    assert forall k :: 0 <= k < WARM_UP - 1 ==> window[k] == closes[k + 1];
    SumOfOnes(window[..WARM_UP - 1]);
    assert window[WARM_UP - 1] == 1.01;
    assert Sum(window) == 19.0 + 1.01;
    assert WindowMean(second) == 1.0005;
  }

  /** What the fee takes beyond the 5% kept back, and a close that is worth less than that. */
  lemma RuinousClose(capital: real, commission: real) returns (gap: real, low: real)
    requires capital > 0.0 && commission > 1.0 / 19.0
    ensures gap == commission * (0.95 * capital) - 0.05 * capital > 0.0
    ensures 0.0 < low <= 0.5 && low * capital <= gap
  {
    gap := commission * (0.95 * capital) - 0.05 * capital;
    assert gap == (commission - 1.0 / 19.0) * (0.95 * capital);
    ProductPositive(commission - 1.0 / 19.0, 0.95 * capital);
    var crash := gap / capital;
    QuotientPositive(gap, capital);
    QuotientTimes(gap, capital);
    low := if crash < 0.5 then crash else 0.5;
    ProductMonotone(low, crash, capital);
  }

  /** Above 1/19 the fee alone can exceed the 5% kept back: under the Kalman preset one crash
      right after a breakout empties the account. */
  lemma HighCommissionCanRuin(capital: real, commission: real, slippage: real) returns (closes: seq<real>)
    requires capital > 0.0 && commission > 1.0 / 19.0 && 0.0 <= slippage < 1.0
    ensures KalmanEngine(capital, commission, slippage).Valid() && PositivePrices(closes) && |closes| == 25
    ensures Simulate(KalmanEngine(capital, commission, slippage), closes, WARM_UP + 2).balance < 0.0
  {
    hide Simulate, KalmanSignal;
    var e := KalmanEngine(capital, commission, slippage);
    var gap, low := RuinousClose(capital, commission);
    closes := CrashCandles(low);
    CrashSignals(low);
    hide CrashCandles;
    RuinAfterCrash(e, closes, low, gap);
  }

  /** The book after the purchase on the first traded bar of the crash candles. */
  lemma BookAfterPurchase(e: Engine, closes: seq<real>, low: real)
    requires e.Valid() && e.Unrounded() && closes == CrashCandles(low) && PositivePrices(closes)
    requires SignalAt(e, closes, WARM_UP, false) == 1
    ensures EntryPrice(e, 1.01) >= 1.0
    ensures var b, entry := Simulate(e, closes, WARM_UP + 1), EntryPrice(e, 1.01);
      b.balance == e.capital
      && b.position == Some(Position(1, WARM_UP, entry, e.capital * 0.95 / entry, e.capital * 0.95))
  {
    assert closes[WARM_UP] == 1.01;
    UnroundedUnits(e, e.capital * 0.95, EntryPrice(e, 1.01));
    var b := Simulate(e, closes, WARM_UP);
    assert Simulate(e, closes, WARM_UP + 1) == Bar(e, closes, WARM_UP, b);
  }

  lemma SaleAfterPurchase(e: Engine, closes: seq<real>, i: nat, b: Book)
    requires e.Valid() && e.Unrounded() && PositivePrices(closes) && i < |closes| && b.position.Some?
    requires SignalAt(e, closes, i, true) == -1
    ensures var p, exit := b.position.value, ExitPrice(e, closes[i]);
      Bar(e, closes, i, b).balance
        == b.balance + (p.units * (exit - p.entryPrice) - (p.allocation + p.units * exit) * e.commission)
  {
    var p := b.position.value;
    UnroundedPnl(e, p.units, p.allocation, p.entryPrice, ExitPrice(e, closes[i]));
  }

  lemma SlippedExit(e: Engine, price: real)
    requires e.Valid() && price > 0.0
    ensures 0.0 < ExitPrice(e, price) <= price
  {
    var down := 1.0 - e.slippage;
    ProductPositive(price, down);
    ProductMonotone(down, 1.0, price);
    assert ExitPrice(e, price) == price * down == down * price;
  }

  lemma RuinAfterCrash(e: Engine, closes: seq<real>, low: real, gap: real)
    requires e.Valid() && e.Unrounded() && low > 0.0 && closes == CrashCandles(low) && PositivePrices(closes)
    requires SignalAt(e, closes, WARM_UP, false) == 1 && SignalAt(e, closes, WARM_UP + 1, true) == -1
    requires gap == e.commission * (0.95 * e.capital) - 0.05 * e.capital > 0.0 && low * e.capital <= gap
    ensures Simulate(e, closes, WARM_UP + 2).balance < 0.0
  {
    BookAfterPurchase(e, closes, low);
    assert closes[WARM_UP + 1] == low;
    hide Bar, Simulate, EntryPrice, ExitPrice, CrashCandles, SignalAt;
    var b := Simulate(e, closes, WARM_UP + 1);
    NextBook(e, closes, WARM_UP + 1);
    SaleAfterPurchase(e, closes, WARM_UP + 1, b);
    SlippedExit(e, low);
    var c, entry, exit := e.capital, EntryPrice(e, 1.01), ExitPrice(e, low);
    EntryBuysAllocation(c, entry);
    ExitAfterCrash(c, c * 0.95 / entry, entry, exit, low, e.commission, gap);
  }

  lemma NextBook(e: Engine, closes: seq<real>, i: nat)
    requires e.Valid() && PositivePrices(closes) && WARM_UP <= i < |closes|
    ensures Simulate(e, closes, i + 1) == Bar(e, closes, i, Simulate(e, closes, i))
  {
    hide Bar;
  }

  lemma ExitAfterCrash(c: real, units: real, entry: real, exit: real, low: real, commission: real, gap: real)
    requires c > 0.0 && entry >= 1.0 && units > 0.0 && units * entry == 0.95 * c
    requires 0.0 < exit <= low && commission > 0.0 && low * c <= gap
    requires gap == commission * (0.95 * c) - 0.05 * c > 0.0
    ensures c + (units * (exit - entry) - (0.95 * c + units * exit) * commission) < 0.0
  {
    ProductMonotone(1.0, entry, units);
    ProductMonotone(units, 0.95 * c, exit);
    ProductMonotone(exit, low, 0.95 * c);
    var value := units * exit;
    ProductPositive(units, exit);
    ProductPositive(value, commission);
    assert value <= low * (0.95 * c) == 0.95 * (low * c) <= 0.95 * gap;
    assert units * (exit - entry) == value - 0.95 * c;
    assert (0.95 * c + value) * commission == commission * (0.95 * c) + value * commission;
  }

  /** The engine keeps the balance positive on every positive price path. */
  ghost predicate SurvivesEveryPath(e: Engine)
    requires e.Valid()
  {
    forall closes: seq<real>, n: nat | PositivePrices(closes) && n <= |closes| :: Simulate(e, closes, n).balance > 0.0
  }

  /** The account survives every positive price path exactly when the commission is at most
      1/19: that is enough for every strategy, and under the Kalman preset it is needed. */
  lemma SolventIff(capital: real, commission: real, slippage: real)
    requires capital > 0.0 && commission >= 0.0 && 0.0 <= slippage < 1.0
    ensures SurvivesEveryPath(KalmanEngine(capital, commission, slippage)) <==> commission <= 1.0 / 19.0
    ensures commission <= 1.0 / 19.0 ==>
      forall e: Engine | e.Valid() && e.Unrounded() && e.commission == commission :: SurvivesEveryPath(e)
  {
    hide Simulate;
    if commission <= 1.0 / 19.0 {
      forall e: Engine | e.Valid() && e.Unrounded() && e.commission == commission ensures SurvivesEveryPath(e) {
        forall closes: seq<real>, n: nat | PositivePrices(closes) && n <= |closes|
          ensures Simulate(e, closes, n).balance > 0.0
        {
          StaysSolvent(e, closes, n);
        }
      }
      assert KalmanEngine(capital, commission, slippage).Unrounded();
    } else {
      var closes := HighCommissionCanRuin(capital, commission, slippage);
      assert Simulate(KalmanEngine(capital, commission, slippage), closes, WARM_UP + 2).balance < 0.0;
    }
  }

  /** At an affordable commission the reported drawdown is the worst fall between two points of
      the run, and below 100%. */
  lemma DrawdownOfSolventRun(e: Engine, closes: seq<real>, dd: real)
    requires e.Valid() && e.Unrounded() && e.commission <= 1.0 / 19.0 && PositivePrices(closes)
    requires Drawdown.IsMaxDrawdown(e.capital, Simulate(e, closes, |closes|).equity, dd)
    ensures var series := [e.capital] + Simulate(e, closes, |closes|).equity;
      && (forall k :: 0 <= k < |series| ==> series[k] > 0.0)
      && (forall i: nat, j: nat :: i <= j < |series| ==> Drawdown.Fall(series, i, j) <= dd)
      && (exists i: nat, j: nat :: i <= j < |series| && Drawdown.Fall(series, i, j) == dd)
    ensures 0.0 <= dd < 1.0
  {
    StaysSolvent(e, closes, |closes|);
    Drawdown.ScanIsWorstPair(e.capital, Simulate(e, closes, |closes|).equity, dd);
  }
}
