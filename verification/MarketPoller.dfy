/** The rate-limited, round-robin market data poller. */
module MarketPoller {
  import opened Wrappers
  import opened Sequences

  datatype Instrument = Instrument(assetClass: string, symbol: string) {
    function Key(): string {
      assetClass + ":" + symbol
    }
  }

  lemma FirstColon(a: string, b: string, c: string, d: string)
    requires ':' !in a && ':' !in c && a + ":" + b == c + ":" + d
    ensures |a| <= |c|
  {
    var text := a + ":" + b;
    assert text == c + ":" + d && text[|c|] == ':';
    assert forall i :: 0 <= i < |a| ==> text[i] == a[i] && a[i] in a;
  }

  /** Keys tell instruments apart, as long as no asset class holds a colon. */
  lemma KeysTellApart(a: Instrument, b: Instrument)
    requires ':' !in a.assetClass && ':' !in b.assetClass
    ensures a.Key() == b.Key() <==> a == b
  {
    if a.Key() == b.Key() {
      FirstColon(a.assetClass, a.symbol, b.assetClass, b.symbol);
      FirstColon(b.assetClass, b.symbol, a.assetClass, a.symbol);
      var n := |a.assetClass|;
      assert a.assetClass == a.Key()[..n] && b.assetClass == b.Key()[..n];
      assert a.symbol == a.Key()[n + 1..] && b.symbol == b.Key()[n + 1..];
    }
  }

  /** With one, two instruments can share a key, and the second is dropped from the watchlist. */
  lemma ColonMakesKeysCollide(a: string, b: string, c: string)
    ensures Instrument(a + ":" + b, c).Key() == Instrument(a, b + ":" + c).Key()
  {
    assert a + ":" + b + ":" + c == a + ":" + (b + ":" + c);
  }

  // ----- the watchlist

  /** The first instrument of every key, in order; entries without a symbol are dropped. */
  function Dedup(instruments: seq<Instrument>): seq<Instrument> {
    if instruments == [] then []
    else
      var front, last := Dedup(instruments[..|instruments| - 1]), instruments[|instruments| - 1];
      if last.symbol == "" || HasKey(front, last.Key()) then front else front + [last]
  }

  predicate HasKey(list: seq<Instrument>, key: string) {
    exists k :: 0 <= k < |list| && list[k].Key() == key
  }

  lemma {:induction false} DedupMeaning(instruments: seq<Instrument>)
    ensures var d := Dedup(instruments);
      && (forall j, k :: 0 <= j < k < |d| ==> d[j].Key() != d[k].Key())
      && (forall k :: 0 <= k < |d| ==> d[k].symbol != "" && d[k] in instruments)
      && (forall i :: i in instruments && i.symbol != "" ==> HasKey(d, i.Key()))
  {
    if instruments != [] {
      var front, last := instruments[..|instruments| - 1], instruments[|instruments| - 1];
      DedupMeaning(front);
      var d, e := Dedup(front), Dedup(instruments);
      assert instruments == front + [last];
      forall i | i in instruments && i.symbol != "" ensures HasKey(e, i.Key()) {
        if i in front {
          var k :| 0 <= k < |d| && d[k].Key() == i.Key();
          assert e[k].Key() == i.Key();
        } else if !HasKey(d, last.Key()) {
          assert e[|e| - 1].Key() == i.Key();
        }
      }
    }
  }

  lemma SubsequenceOfMore(q: seq<Instrument>, s: seq<Instrument>, x: Instrument)
    requires IsSubsequence(q, s)
    ensures IsSubsequence(q, s + [x])
  {
    var at: seq<nat> :| Embeds(q, s, at);
    assert Embeds(q, s + [x], at);
  }

  /** The watchlist keeps the order in which it was given: round robin follows the caller. */
  lemma {:induction false} DedupKeepsOrder(instruments: seq<Instrument>)
    ensures IsSubsequence(Dedup(instruments), instruments)
  {
    hide IsSubsequence;
    if instruments == [] {
      EmptyIsSubsequence(instruments);
    } else {
      var front, last := instruments[..|instruments| - 1], instruments[|instruments| - 1];
      assert instruments == front + [last];
      DedupKeepsOrder(front);
      SubsequenceTake(Dedup(front), front, last);
      SubsequenceOfMore(Dedup(front), front, last);
    }
  }

  /** The kept instrument of a key is the first one that was given. */
  lemma {:induction false} FirstOfKeyIsKept(instruments: seq<Instrument>, i: nat)
    requires i < |instruments| && instruments[i].symbol != ""
    requires forall j :: 0 <= j < i && instruments[j].symbol != "" ==> instruments[j].Key() != instruments[i].Key()
    ensures instruments[i] in Dedup(instruments)
  {
    var front := instruments[..|instruments| - 1];
    if i < |front| {
      FirstOfKeyIsKept(front, i);
    } else {
      DedupMeaning(front);
      forall k | 0 <= k < |Dedup(front)| ensures Dedup(front)[k].Key() != instruments[i].Key() {
        assert Dedup(front)[k] in front;
      }
    }
  }

  /** The instrument drawn by the k-th of a series of draws starting at a cursor. */
  function DrawIndex(cursor: nat, k: nat, n: nat): (i: nat)
    requires n > 0
    ensures i < n
  {
    (cursor + k) % n
  }

  lemma DrawIndexUnrolled(cursor: nat, k: nat, n: nat)
    requires cursor < n && k <= n
    ensures DrawIndex(cursor, k, n) == if cursor + k < n then cursor + k else cursor + k - n
  {
    if cursor + k < n {
      ModuloIs(cursor + k, n, 0, cursor + k);
    } else {
      ModuloIs(cursor + k, n, 1, cursor + k - n);
    }
  }

  /** Any n consecutive draws over n instruments visit every instrument exactly once. */
  lemma RoundRobin(cursor: nat, n: nat, i: nat)
    requires cursor < n && i < n
    ensures exists k: nat :: k < n && DrawIndex(cursor, k, n) == i
    ensures forall j: nat, k: nat :: j < k < n && DrawIndex(cursor, j, n) == i ==> DrawIndex(cursor, k, n) != i
  {
    var k := if i >= cursor then i - cursor else i + n - cursor;
    DrawIndexUnrolled(cursor, k, n);
    assert DrawIndex(cursor, k, n) == i;
    forall j: nat, k: nat | j < k < n && DrawIndex(cursor, j, n) == i ensures DrawIndex(cursor, k, n) != i {
      DrawIndexUnrolled(cursor, j, n);
      DrawIndexUnrolled(cursor, k, n);
    }
  }

  // ----- the interval

  const MINUTE: int := 60_000

  function AllowedPerMinute(maxCalls: int): (m: nat)
    ensures m >= 1
  {
    if maxCalls >= 1 then maxCalls else 1
  }

  /** The rounded-up share of a minute. */
  function Interval(maxCalls: int): (ms: nat) {
    var m := AllowedPerMinute(maxCalls);
    (MINUTE + m - 1) / m
  }

  lemma IntervalCoversMinute(maxCalls: int)
    ensures AllowedPerMinute(maxCalls) * Interval(maxCalls) >= MINUTE
    ensures Interval(maxCalls) >= 1
  {
    var m := AllowedPerMinute(maxCalls);
    var q, r := (MINUTE + m - 1) / m, (MINUTE + m - 1) % m;
    assert MINUTE + m - 1 == m * q + r && r <= m - 1;
  }

  /** The most requests one chain can start within a minute. */
  function PerChain(maxCalls: int): (n: nat) {
    (MINUTE + Interval(maxCalls) - 1) / Interval(maxCalls)
  }

  lemma PerChainIsTight(maxCalls: int)
    ensures PerChain(maxCalls) * Interval(maxCalls) >= MINUTE
    ensures PerChain(maxCalls) >= 1 && (PerChain(maxCalls) - 1) * Interval(maxCalls) < MINUTE
    ensures PerChain(maxCalls) <= AllowedPerMinute(maxCalls)
  {
    IntervalCoversMinute(maxCalls);
    var m, g, n := AllowedPerMinute(maxCalls), Interval(maxCalls), PerChain(maxCalls);
    hide AllowedPerMinute, Interval;
    var r := (MINUTE + g - 1) % g;
    assert MINUTE + g - 1 == g * n + r && 0 <= r <= g - 1;
    assert (n - 1) * g == g * n - g;
    if n > m {
      AtLeastAMinute(n - 1, m, g);
    }
  }

  lemma AtLeastAMinute(steps: nat, m: nat, gap: nat)
    requires steps >= m && m * gap >= MINUTE
    ensures steps * gap >= MINUTE
  {
    assert steps * gap == m * gap + (steps - m) * gap;
  }

  // ----- polling chains

  /** A chain is one `poll` loop: awaiting its request, awaiting a poll that found nothing to
      do, waiting for its timer, or cleared. */
  datatype Chain = Fetching | Skipping | Sleeping(due: int) | Cleared

  datatype Request = Request(chain: nat, at: int, index: nat)

  datatype Poller = Poller(
    connected: bool,             // a key and a fetch implementation are configured
    maxCalls: int,
    size: nat,                   // length of the watchlist
    cursor: nat,
    inFlight: bool,
    pollTimer: Option<nat>,      // the chain whose timer was set last
    chains: seq<Chain>,
    requests: seq<Request>,
    draws: nat,                  // instruments taken from the watchlist since it was set
    watched: nat,                // requests sent before it was set
    clock: int)

  datatype Event =
    | Start(now: int)
    | Arrive(chain: nat, now: int)
    | Fire(chain: nat, now: int)
    | Stop(now: int)
    | Watch(length: nat, now: int)   // a new watchlist of that many instruments

  predicate Enabled(p: Poller, e: Event) {
    && p.clock <= e.now
    && match e
       case Arrive(c, _) => c < |p.chains| && (p.chains[c].Fetching? || p.chains[c].Skipping?)
       case Fire(c, now) => c < |p.chains| && p.chains[c].Sleeping? && p.chains[c].due <= now
       case _ => true
  }

  /** The awaited poll is over: the chain arms its timer, and `pollTimer` now refers to it. */
  function Sleep(p: Poller, c: nat, now: int): Poller
    requires c < |p.chains|
  {
    p.(chains := p.chains[c := Sleeping(now + Interval(p.maxCalls))], pollTimer := Some(c))
  }

  /** One turn of a chain's loop up to its await. */
  function Poll(p: Poller, c: nat, now: int): Poller
    requires c < |p.chains|
  {
    var skipped := p.(chains := p.chains[c := Skipping]);
    if !p.connected || p.size == 0 then skipped
    else
      var index := p.cursor % p.size;
      var cursor, draws := (p.cursor + 1) % p.size, p.draws + 1;
      if p.inFlight then skipped.(cursor := cursor, draws := draws)
      else
        p.(cursor := cursor, draws := draws, inFlight := true, chains := p.chains[c := Fetching],
           requests := p.requests + [Request(c, now, index)])
  }

  function Step(p: Poller, e: Event): Poller
    requires Enabled(p, e)
  {
    var q := p.(clock := e.now);
    match e
    case Start(now) => if p.pollTimer.Some? then q else Poll(q.(chains := q.chains + [Skipping]), |q.chains|, now)
    case Arrive(c, now) => Sleep(q.(inFlight := p.inFlight && !p.chains[c].Fetching?), c, now)
    case Fire(c, now) => Poll(q, c, now)
    case Stop(_) => if p.pollTimer.Some? then ClearTimer(q, p.pollTimer.value) else q
    case Watch(length, _) => q.(size := length, cursor := 0, draws := 0, watched := |p.requests|)
  }

  /** Clears the timer set last; a chain that is awaiting its request has none to clear. */
  function ClearTimer(p: Poller, c: nat): Poller {
    p.(pollTimer := None,
       chains := if c < |p.chains| && p.chains[c].Sleeping? then p.chains[c := Cleared] else p.chains)
  }

  function Initial(connected: bool, maxCalls: int, size: nat, clock: int): Poller {
    Poller(connected, maxCalls, size, 0, false, None, [], [], 0, 0, clock)
  }

  ghost predicate IsRun(p: Poller, events: seq<Event>)
    decreases |events|
  {
    events == [] || (Enabled(p, events[0]) && IsRun(Step(p, events[0]), events[1..]))
  }

  function After(p: Poller, events: seq<Event>): Poller
    requires IsRun(p, events)
    decreases |events|
  {
    if events == [] then p else After(Step(p, events[0]), events[1..])
  }

  // ----- requests

  /** The flag says whether a request is in flight, and there is never more than one. */
  ghost predicate OneInFlight(p: Poller) {
    && (forall c, d :: 0 <= c < d < |p.chains| ==> !(p.chains[c].Fetching? && p.chains[d].Fetching?))
    && (p.inFlight <==> exists c :: 0 <= c < |p.chains| && p.chains[c].Fetching?)
  }

  lemma StepOneInFlight(p: Poller, e: Event)
    requires Enabled(p, e) && OneInFlight(p)
    ensures OneInFlight(Step(p, e))
  {
    var q := Step(p, e);
    hide Interval;
    if !e.Arrive? {
      if c :| 0 <= c < |p.chains| && p.chains[c].Fetching? {
        assert q.chains[c].Fetching?;
      } else if q.inFlight {
        assert q.chains[if e.Fire? then e.chain else |p.chains|].Fetching?;
      }
    } else if !p.chains[e.chain].Fetching? && p.inFlight {
      var c :| 0 <= c < |p.chains| && p.chains[c].Fetching?;
      assert q.chains[c].Fetching?;
    }
  }

  /** In every run, however many chains there are, requests never overlap. */
  lemma {:induction false} RequestsNeverOverlap(p: Poller, events: seq<Event>)
    requires IsRun(p, events) && OneInFlight(p)
    ensures OneInFlight(After(p, events))
    decreases |events|
  {
    if events != [] {
      StepOneInFlight(p, events[0]);
      RequestsNeverOverlap(Step(p, events[0]), events[1..]);
    }
  }

  /** Every poll with something to do asks at once, unless a request is in flight; a poller that
      is not connected never asks. */
  lemma FirstPollAsks(connected: bool, maxCalls: int, size: nat, clock: int, now: int)
    requires clock <= now
    ensures var p := Initial(connected, maxCalls, size, clock);
      && OneInFlight(p)
      && Step(p, Start(now)).requests == if connected && size > 0 then [Request(0, now, 0)] else []
  {
  }

  lemma {:induction false} UnconnectedNeverAsks(p: Poller, events: seq<Event>)
    requires IsRun(p, events) && !p.connected
    ensures After(p, events).requests == p.requests && After(p, events).cursor <= p.cursor
    decreases |events|
  {
    if events != [] {
      hide Interval;
      UnconnectedNeverAsks(Step(p, events[0]), events[1..]);
    }
  }

  // ----- the rate of one chain, in every run

  /** The times at which a chain started requests. */
  function TimesOf(requests: seq<Request>, c: nat): seq<int> {
    if requests == [] then []
    else
      TimesOf(requests[..|requests| - 1], c)
        + (if requests[|requests| - 1].chain == c then [requests[|requests| - 1].at] else [])
  }

  ghost predicate Spaced(times: seq<int>, gap: int) {
    forall k :: 0 < k < |times| ==> times[k - 1] + gap <= times[k]
  }

  /** A chain's requests keep their distance, and whatever it does next cannot come too soon. */
  ghost predicate ChainOk(p: Poller, c: nat) {
    var times := TimesOf(p.requests, c);
    && Spaced(times, Interval(p.maxCalls))
    && (c >= |p.chains| ==> times == [])
    && (times != [] && c < |p.chains| ==>
         match p.chains[c]
         case Fetching => times[|times| - 1] <= p.clock
         case Skipping => times[|times| - 1] <= p.clock
         case Sleeping(due) => times[|times| - 1] + Interval(p.maxCalls) <= due
         case Cleared => true)
  }

  lemma TimesOfAppend(requests: seq<Request>, r: Request, c: nat)
    ensures TimesOf(requests + [r], c) == TimesOf(requests, c) + (if r.chain == c then [r.at] else [])
  {
    assert (requests + [r])[..|requests|] == requests;
  }

  lemma PollKeepsChains(p: Poller, c: nat, now: int, d: nat)
    requires c < |p.chains| && p.clock == now
    requires d != c ==> ChainOk(p, d)
    requires d == c ==> Spaced(TimesOf(p.requests, c) + [now], Interval(p.maxCalls))
    ensures ChainOk(Poll(p, c, now), d)
  {
    hide Interval, TimesOf;
    var times := TimesOf(p.requests, d);
    if d == c {
      assert Spaced(times, Interval(p.maxCalls)) by {
        assert forall k :: 0 <= k < |times| ==> (times + [now])[k] == times[k];
      }
      assert times != [] ==> times[|times| - 1] + Interval(p.maxCalls) <= now by {
        assert times != [] ==> (times + [now])[|times| - 1] + Interval(p.maxCalls) <= (times + [now])[|times|];
      }
    }
    if p.connected && p.size > 0 && !p.inFlight {
      TimesOfAppend(p.requests, Request(c, now, p.cursor % p.size), d);
      assert times + [] == times;
    }
  }

  lemma StepKeepsChains(p: Poller, e: Event, d: nat)
    requires Enabled(p, e) && ChainOk(p, d)
    ensures ChainOk(Step(p, e), d)
  {
    hide TimesOf, Interval;
    var q := p.(clock := e.now);
    var times := TimesOf(p.requests, d);
    if e.Start? && p.pollTimer.None? {
      assert d == |p.chains| ==> times + [e.now] == [e.now];
      PollKeepsChains(q.(chains := q.chains + [Skipping]), |q.chains|, e.now, d);
    } else if e.Fire? {
      SpacedAppend(times, e.now, Interval(p.maxCalls));
      PollKeepsChains(q, e.chain, e.now, d);
    }
  }

  lemma SpacedAppend(times: seq<int>, t: int, gap: int)
    requires Spaced(times, gap)
    ensures (times != [] ==> times[|times| - 1] + gap <= t) ==> Spaced(times + [t], gap)
  {
  }

  lemma {:induction false} RunKeepsChains(p: Poller, events: seq<Event>, d: nat)
    requires IsRun(p, events) && ChainOk(p, d)
    ensures ChainOk(After(p, events), d) && After(p, events).maxCalls == p.maxCalls
    decreases |events|
  {
    hide ChainOk, TimesOf, Interval;
    if events != [] {
      StepKeepsChains(p, events[0], d);
      RunKeepsChains(Step(p, events[0]), events[1..], d);
    }
  }

  function CountIn(times: seq<int>, from: int): nat {
    if times == [] then 0
    else CountIn(times[..|times| - 1], from) + (if from <= times[|times| - 1] < from + MINUTE then 1 else 0)
  }

  lemma {:induction false} CountAtMostTail(times: seq<int>, from: int, k: nat)
    requires k <= |times|
    ensures CountIn(times, from) <= CountIn(times[..k], from) + (|times| - k)
  {
    if k < |times| {
      assert times[..|times| - 1][..k] == times[..k];
      CountAtMostTail(times[..|times| - 1], from, k);
    } else {
      assert times[..k] == times;
    }
  }

  lemma {:induction false} NoneBefore(times: seq<int>, from: int)
    requires forall k :: 0 <= k < |times| ==> times[k] < from
    ensures CountIn(times, from) == 0
  {
    if times != [] {
      NoneBefore(times[..|times| - 1], from);
    }
  }

  lemma {:induction false} SpacedApart(times: seq<int>, gap: nat, i: nat, j: nat)
    requires Spaced(times, gap) && i <= j < |times|
    ensures times[i] + (j - i) * gap <= times[j]
  {
    if i < j {
      SpacedApart(times, gap, i, j - 1);
      assert times[j - 1] + gap <= times[j];
      assert (j - i) * gap == (j - 1 - i) * gap + gap;
    }
  }

  /** Requests spaced by the interval never crowd a minute. */
  lemma {:induction false} WindowHoldsAtMost(times: seq<int>, maxCalls: int, from: int)
    requires Spaced(times, Interval(maxCalls))
    ensures CountIn(times, from) <= PerChain(maxCalls)
  {
    var m, gap := PerChain(maxCalls), Interval(maxCalls);
    hide Interval, PerChain;
    if times != [] {
      var last := times[|times| - 1];
      if from <= last < from + MINUTE {
        var k := if |times| > m then |times| - m else 0;
        PerChainIsTight(maxCalls);
        forall i | 0 <= i < k ensures times[..k][i] < from {
          SpacedApart(times, gap, i, |times| - 1);
          AtLeastAMinute(|times| - 1 - i, m, gap);
        }
        NoneBefore(times[..k], from);
        CountAtMostTail(times, from, k);
      } else {
        assert Spaced(times[..|times| - 1], gap);
        WindowHoldsAtMost(times[..|times| - 1], maxCalls, from);
      }
    }
  }

  /** In every run, whatever is started and stopped, no half-open minute holds more than the
      allowed number of requests of any one chain. */
  lemma RateOfEachChain(connected: bool, maxCalls: int, size: nat, clock: int, events: seq<Event>, c: nat, from: int)
    requires IsRun(Initial(connected, maxCalls, size, clock), events)
    ensures var rs := After(Initial(connected, maxCalls, size, clock), events).requests;
      CountIn(TimesOf(rs, c), from) <= PerChain(maxCalls) <= AllowedPerMinute(maxCalls)
  {
    var p := Initial(connected, maxCalls, size, clock);
    RunKeepsChains(p, events, c);
    WindowHoldsAtMost(TimesOf(After(p, events).requests, c), maxCalls, from);
    PerChainIsTight(maxCalls);
  }

  // ----- all chains together

  function AllTimes(requests: seq<Request>): seq<int> {
    if requests == [] then [] else AllTimes(requests[..|requests| - 1]) + [requests[|requests| - 1].at]
  }

  /** The calls of `startPolling` that find `pollTimer` null. */
  function EffectiveStarts(p: Poller, events: seq<Event>): nat
    requires IsRun(p, events)
    decreases |events|
  {
    if events == [] then 0
    else (if events[0].Start? && p.pollTimer.None? then 1 else 0) + EffectiveStarts(Step(p, events[0]), events[1..])
  }

  /** The requests in one minute, counted chain by chain. */
  function CountByChain(requests: seq<Request>, n: nat, from: int): nat {
    if n == 0 then 0 else CountByChain(requests, n - 1, from) + CountIn(TimesOf(requests, n - 1), from)
  }

  lemma CountAppend(times: seq<int>, t: int, from: int)
    ensures CountIn(times + [t], from) == CountIn(times, from) + (if from <= t < from + MINUTE then 1 else 0)
  {
    assert (times + [t])[..|times|] == times;
  }

  lemma {:induction false} CountByChainAppend(requests: seq<Request>, r: Request, n: nat, from: int)
    ensures CountByChain(requests + [r], n, from) ==
      CountByChain(requests, n, from) + (if r.chain < n && from <= r.at < from + MINUTE then 1 else 0)
  {
    hide CountIn;
    if n > 0 {
      CountByChainAppend(requests, r, n - 1, from);
      var times := TimesOf(requests, n - 1);
      TimesOfAppend(requests, r, n - 1);
      CountAppend(times, r.at, from);
      assert times + [] == times;
    }
  }

  lemma {:induction false} NothingByChain(n: nat, from: int)
    ensures CountByChain([], n, from) == 0
  {
    if n > 0 {
      NothingByChain(n - 1, from);
    }
  }

  lemma {:induction false} CountsAgree(requests: seq<Request>, n: nat, from: int)
    requires forall k :: 0 <= k < |requests| ==> requests[k].chain < n
    ensures CountIn(AllTimes(requests), from) == CountByChain(requests, n, from)
  {
    if requests == [] {
      NothingByChain(n, from);
    } else {
      var front, r := requests[..|requests| - 1], requests[|requests| - 1];
      assert requests == front + [r];
      CountsAgree(front, n, from);
      CountByChainAppend(front, r, n, from);
      CountAppend(AllTimes(front), r.at, from);
    }
  }

  ghost predicate RequestsOwned(p: Poller) {
    forall k :: 0 <= k < |p.requests| ==> p.requests[k].chain < |p.chains|
  }

  /** Every chain was created by a call of `startPolling` that found no timer. */
  lemma {:induction false} ChainsAreStarts(p: Poller, events: seq<Event>)
    requires IsRun(p, events) && RequestsOwned(p)
    ensures RequestsOwned(After(p, events))
    ensures |After(p, events).chains| == |p.chains| + EffectiveStarts(p, events)
    decreases |events|
  {
    if events != [] {
      hide Interval;
      ChainsAreStarts(Step(p, events[0]), events[1..]);
    }
  }

  lemma {:induction false} CountByChainBound(
    connected: bool, maxCalls: int, size: nat, clock: int, events: seq<Event>, n: nat, from: int)
    requires IsRun(Initial(connected, maxCalls, size, clock), events)
    ensures CountByChain(After(Initial(connected, maxCalls, size, clock), events).requests, n, from)
      <= n * PerChain(maxCalls)
  {
    hide PerChain, AllowedPerMinute, CountIn, TimesOf;
    if n > 0 {
      CountByChainBound(connected, maxCalls, size, clock, events, n - 1, from);
      RateOfEachChain(connected, maxCalls, size, clock, events, n - 1, from);
      assert n * PerChain(maxCalls) == (n - 1) * PerChain(maxCalls) + PerChain(maxCalls);
    }
  }

  /** The rate of the whole poller in every run: no half-open minute holds more requests than
      one chain may start, times the calls of `startPolling` that found `pollTimer` null. */
  lemma RateOfAllChains(connected: bool, maxCalls: int, size: nat, clock: int, events: seq<Event>, from: int)
    requires IsRun(Initial(connected, maxCalls, size, clock), events)
    ensures var p := Initial(connected, maxCalls, size, clock);
      CountIn(AllTimes(After(p, events).requests), from) <= EffectiveStarts(p, events) * PerChain(maxCalls)
  {
    var p := Initial(connected, maxCalls, size, clock);
    hide PerChain, AllowedPerMinute;
    ChainsAreStarts(p, events);
    CountsAgree(After(p, events).requests, EffectiveStarts(p, events), from);
    CountByChainBound(connected, maxCalls, size, clock, events, EffectiveStarts(p, events), from);
  }

  // ----- one chain at a time

  /** Every chain has been cleared: nothing but a new start can send a request. */
  ghost predicate AllCleared(p: Poller) {
    forall c :: 0 <= c < |p.chains| ==> p.chains[c].Cleared?
  }

  /** Every chain but the newest has been cleared. */
  ghost predicate OnlyNewest(p: Poller) {
    forall c :: 0 <= c < |p.chains| - 1 ==> p.chains[c].Cleared?
  }

  /** The newest chain is in the middle of a poll: it has no timer to clear. */
  predicate Awaited(p: Poller) {
    p.chains != [] && (p.chains[|p.chains| - 1].Fetching? || p.chains[|p.chains| - 1].Skipping?)
  }

  /** With no chain alive but the newest, a request is in flight exactly while that one is
      fetching, its timer can be cleared while it sleeps, every draw has sent a request, and since
      the watchlist was set the k-th request went to the k-th instrument of the rotation. */
  ghost predicate OneLive(p: Poller) {
    && OnlyNewest(p)
    && (p.inFlight <==> p.chains != [] && p.chains[|p.chains| - 1].Fetching?)
    && (p.chains != [] && p.chains[|p.chains| - 1].Sleeping? ==> p.pollTimer == Some(|p.chains| - 1))
    && Rotates(p)
  }

  ghost predicate Rotates(p: Poller) {
    && |p.requests| == p.watched + p.draws
    && (p.size > 0 ==>
         && p.cursor == p.draws % p.size
         && forall k :: p.watched <= k < |p.requests| ==> p.requests[k].index == (k - p.watched) % p.size)
  }

  lemma NextModulo(k: nat, n: nat)
    requires n > 0
    ensures (k % n + 1) % n == (k + 1) % n && k % n % n == k % n
  {
    var q, r := k / n, k % n;
    assert k == n * q + r;
    ModuloIs(r, n, 0, r);
    if r + 1 < n {
      ModuloIs(k + 1, n, q, r + 1);
      ModuloIs(r + 1, n, 0, r + 1);
    } else {
      assert n * (q + 1) == n * q + n;
      ModuloIs(k + 1, n, q + 1, 0);
      ModuloIs(r + 1, n, 1, 0);
    }
  }

  lemma ModuloIs(x: nat, n: nat, q: nat, r: nat)
    requires n > 0 && x == n * q + r && r < n
    ensures x % n == r
  {
    var p, s := x / n, x % n;
    assert x == n * p + s;
    if p < q {
      MultipleApart(n, p, q);
    } else if p > q {
      MultipleApart(n, q, p);
    }
  }

  lemma MultipleApart(n: nat, a: nat, b: nat)
    requires a < b
    ensures n * b >= n * a + n
  {
    var d := b - a - 1;
    assert n * d >= 0;
    assert n * b == n * a + n + n * d by {
      assert b == a + 1 + d;
    }
  }

  /** Every effective start finds the chains before it cleared. */
  ghost predicate StartsAlone(p: Poller, events: seq<Event>)
    requires IsRun(p, events)
    decreases |events|
  {
    events != [] ==>
      && (events[0].Start? && p.pollTimer.None? ==> AllCleared(p))
      && StartsAlone(Step(p, events[0]), events[1..])
  }

  /** Every effective start comes at least one interval after the last request. */
  ghost predicate StartsRested(p: Poller, events: seq<Event>)
    requires IsRun(p, events)
    decreases |events|
  {
    events != [] ==>
      && (events[0].Start? && p.pollTimer.None? ==> Rested(p, events[0].now))
      && StartsRested(Step(p, events[0]), events[1..])
  }

  predicate Rested(p: Poller, now: int) {
    p.requests != [] ==> p.requests[|p.requests| - 1].at + Interval(p.maxCalls) <= now
  }

  /** A poll by the newest chain, the only one alive. */
  lemma LonePoll(p: Poller, now: int)
    requires p.chains != [] && OnlyNewest(p) && !p.inFlight && Rotates(p)
    ensures OneLive(Poll(p, |p.chains| - 1, now))
  {
    if p.size > 0 {
      NextModulo(p.draws, p.size);
    }
  }

  lemma StepKeepsOneLive(p: Poller, e: Event)
    requires Enabled(p, e) && OneLive(p) && (e.Start? && p.pollTimer.None? ==> AllCleared(p))
    ensures OneLive(Step(p, e))
  {
    hide Interval;
    var q := p.(clock := e.now);
    if e.Start? && p.pollTimer.None? {
      LonePoll(q.(chains := q.chains + [Skipping]), e.now);
    } else if e.Fire? {
      assert e.chain == |p.chains| - 1;
      LonePoll(q, e.now);
    }
  }

  lemma {:induction false} RunKeepsOneLive(p: Poller, events: seq<Event>)
    requires IsRun(p, events) && OneLive(p) && StartsAlone(p, events)
    ensures OneLive(After(p, events))
    decreases |events|
  {
    hide OneLive, Step, AllCleared;
    if events != [] {
      StepKeepsOneLive(p, events[0]);
      RunKeepsOneLive(Step(p, events[0]), events[1..]);
    }
  }

  /** The requests of all chains keep their distance, and whatever the live one does next cannot
      come too soon. */
  ghost predicate Paced(p: Poller) {
    && Spaced(AllTimes(p.requests), Interval(p.maxCalls))
    && (p.requests != [] ==>
         var last := p.requests[|p.requests| - 1].at;
         && last <= p.clock
         && (p.chains != [] && p.chains[|p.chains| - 1].Sleeping? ==>
              last + Interval(p.maxCalls) <= p.chains[|p.chains| - 1].due))
  }

  lemma LastTime(requests: seq<Request>)
    ensures requests != [] ==>
      AllTimes(requests) != [] && AllTimes(requests)[|AllTimes(requests)| - 1] == requests[|requests| - 1].at
    ensures requests == [] ==> AllTimes(requests) == []
  {
  }

  lemma AllTimesAppend(requests: seq<Request>, r: Request)
    ensures AllTimes(requests + [r]) == AllTimes(requests) + [r.at]
  {
    assert (requests + [r])[..|requests|] == requests;
  }

  lemma PollKeepsPace(p: Poller, now: int)
    requires p.chains != [] && p.clock == now && !p.inFlight
    requires Spaced(AllTimes(p.requests), Interval(p.maxCalls)) && Rested(p, now)
    ensures Paced(Poll(p, |p.chains| - 1, now))
  {
    hide Interval, AllTimes, Spaced;
    IntervalCoversMinute(p.maxCalls);
    LastTime(p.requests);
    SpacedAppend(AllTimes(p.requests), now, Interval(p.maxCalls));
    if p.connected && p.size > 0 {
      AllTimesAppend(p.requests, Request(|p.chains| - 1, now, p.cursor % p.size));
    }
  }

  lemma StepKeepsPace(p: Poller, e: Event)
    requires Enabled(p, e) && OneLive(p) && Paced(p)
    requires e.Start? && p.pollTimer.None? ==> AllCleared(p) && Rested(p, e.now)
    ensures Paced(Step(p, e))
  {
    hide Interval, AllTimes, Spaced, Rotates;
    var q := p.(clock := e.now);
    if e.Start? && p.pollTimer.None? {
      PollKeepsPace(q.(chains := q.chains + [Skipping]), e.now);
    } else if e.Fire? {
      assert e.chain == |p.chains| - 1;
      PollKeepsPace(q, e.now);
    }
  }

  lemma {:induction false} RunKeepsPace(p: Poller, events: seq<Event>)
    requires IsRun(p, events) && OneLive(p) && Paced(p) && StartsAlone(p, events) && StartsRested(p, events)
    ensures Paced(After(p, events)) && After(p, events).maxCalls == p.maxCalls
    decreases |events|
  {
    hide OneLive, Paced, AllCleared, Rested, Interval;
    if events != [] {
      StepKeepsOneLive(p, events[0]);
      StepKeepsPace(p, events[0]);
      RunKeepsPace(Step(p, events[0]), events[1..]);
    }
  }

  ghost predicate KeepsRate(p: Poller, events: seq<Event>)
    requires IsRun(p, events)
  {
    forall from :: Load(After(p, events), from) <= AllowedPerMinute(p.maxCalls)
  }

  /** Polling may be stopped and started again any number of times: as long as every start that
      finds `pollTimer` null also finds the earlier chains cleared, the requests since the
      watchlist was set walk round it in order, skipping nobody; and if each such start comes at
      least one interval after the last request, the poller keeps the rate. */
  lemma CleanRestartsKeepRateAndRotation(
    connected: bool, maxCalls: int, size: nat, clock: int, events: seq<Event>)
    requires IsRun(Initial(connected, maxCalls, size, clock), events)
    requires StartsAlone(Initial(connected, maxCalls, size, clock), events)
    ensures var p := Initial(connected, maxCalls, size, clock);
      && Rotates(After(p, events))
      && (StartsRested(p, events) ==> KeepsRate(p, events))
  {
    var p := Initial(connected, maxCalls, size, clock);
    RunKeepsOneLive(p, events);
    if StartsRested(p, events) {
      RunKeepsPace(p, events);
      forall from ensures Load(After(p, events), from) <= AllowedPerMinute(maxCalls) {
        WindowHoldsAtMost(AllTimes(After(p, events).requests), maxCalls, from);
        PerChainIsTight(maxCalls);
      }
    }
  }

  lemma {:induction false} NoStartIsClean(p: Poller, events: seq<Event>)
    requires IsRun(p, events) && EffectiveStarts(p, events) == 0
    ensures StartsAlone(p, events) && StartsRested(p, events)
    decreases |events|
  {
    hide Step;
    if events != [] {
      NoStartIsClean(Step(p, events[0]), events[1..]);
    }
  }

  /** The first start is always clean. */
  lemma {:induction false} OneStartIsClean(p: Poller, events: seq<Event>)
    requires IsRun(p, events) && EffectiveStarts(p, events) <= 1 && p.chains == [] && p.requests == []
    ensures StartsAlone(p, events) && StartsRested(p, events)
    decreases |events|
  {
    hide Interval;
    if events != [] {
      if events[0].Start? && p.pollTimer.None? {
        NoStartIsClean(Step(p, events[0]), events[1..]);
      } else {
        OneStartIsClean(Step(p, events[0]), events[1..]);
      }
    }
  }

  /** Hence a single effective start keeps the rate and the rotation. */
  lemma OneStartKeepsRateAndRotation(connected: bool, maxCalls: int, size: nat, clock: int, events: seq<Event>)
    requires IsRun(Initial(connected, maxCalls, size, clock), events)
    requires EffectiveStarts(Initial(connected, maxCalls, size, clock), events) <= 1
    ensures var p := Initial(connected, maxCalls, size, clock); Rotates(After(p, events)) && KeepsRate(p, events)
  {
    OneStartIsClean(Initial(connected, maxCalls, size, clock), events);
    CleanRestartsKeepRateAndRotation(connected, maxCalls, size, clock, events);
  }

  // ----- stopping

  ghost predicate NoStarts(events: seq<Event>) {
    forall k :: 0 <= k < |events| ==> !events[k].Start?
  }

  lemma {:induction false} ClearedStaysQuiet(p: Poller, events: seq<Event>)
    requires IsRun(p, events) && AllCleared(p) && NoStarts(events)
    ensures After(p, events).requests == p.requests
    decreases |events|
  {
    if events != [] {
      assert !events[0].Start?;
      assert NoStarts(events[1..]);
      ClearedStaysQuiet(Step(p, events[0]), events[1..]);
    }
  }

  lemma AwaitedChainLivesOn(p: Poller, now: int) returns (later: seq<Event>)
    requires OneLive(p) && p.connected && p.clock <= now && Awaited(p)
    ensures IsRun(Step(p, Stop(now)), later) && NoStarts(later)
    ensures |After(Step(p, Stop(now)), later).requests| == |p.requests| + 1
  {
    var c, due := |p.chains| - 1, now + Interval(p.maxCalls);
    IntervalCoversMinute(p.maxCalls);
    hide Interval;
    var q := Step(p, Stop(now));
    var first, second, third := Arrive(c, now), Watch(1, now), Fire(c, due);
    assert q.chains[c] == p.chains[c];
    var q1 := Step(q, first);
    assert q1.chains[c] == Sleeping(due) && !q1.inFlight;
    var q2 := Step(q1, second);
    assert |Step(q2, third).requests| == |p.requests| + 1;
    hide Step;
    RunAppend(q, [], first);
    assert [] + [first] == [first];
    RunAppend(q, [first], second);
    RunAppend(q, [first] + [second], third);
    later := [first] + [second] + [third];
  }

  /** `stopPolling` promises that polling has stopped. With one chain alive it has, until the
      next start, exactly when that chain was not in the middle of a poll: then it lives on. */
  lemma StopEndsPollingIff(p: Poller, now: int)
    requires OneLive(p) && p.connected && p.clock <= now
    ensures (forall later :: IsRun(Step(p, Stop(now)), later) && NoStarts(later) ==>
               After(Step(p, Stop(now)), later).requests == p.requests)
            <==> !Awaited(p)
  {
    var q := Step(p, Stop(now));
    if !Awaited(p) {
      StopClearsSleeper(p, now);
      forall later | IsRun(q, later) && NoStarts(later) ensures After(q, later).requests == p.requests {
        ClearedStaysQuiet(q, later);
      }
    } else {
      var later := AwaitedChainLivesOn(p, now);
      assert After(q, later).requests != p.requests;
    }
  }

  lemma StopClearsSleeper(p: Poller, now: int)
    requires OneLive(p) && p.clock <= now && !Awaited(p)
    ensures AllCleared(Step(p, Stop(now))) && Step(p, Stop(now)).requests == p.requests
  {
  }

  // ----- more than one chain

  lemma {:induction false} RunAppend(p: Poller, events: seq<Event>, e: Event)
    requires IsRun(p, events) && Enabled(After(p, events), e)
    ensures IsRun(p, events + [e]) && After(p, events + [e]) == Step(After(p, events), e)
    ensures EffectiveStarts(p, events + [e]) ==
      EffectiveStarts(p, events) + (if e.Start? && After(p, events).pollTimer.None? then 1 else 0)
    decreases |events|
  {
    hide Step, Enabled;
    if events == [] {
      assert [] + [e] == [e] && [e][1..] == [];
      assert IsRun(Step(p, e), []);
    } else {
      assert (events + [e])[1..] == events[1..] + [e];
      RunAppend(Step(p, events[0]), events[1..], e);
    }
  }

  /** The requests a run has started in the minute from `from` on. */
  function Load(p: Poller, from: int): nat {
    CountIn(AllTimes(p.requests), from)
  }

  lemma LoadOfRequest(p: Poller, q: Poller, r: Request, from: int)
    requires q.requests == p.requests + [r]
    ensures Load(q, from) == Load(p, from) + (if from <= r.at < from + MINUTE then 1 else 0)
  {
    assert q.requests[..|p.requests|] == p.requests;
    CountAppend(AllTimes(p.requests), r.at, from);
  }

  /** What stays the same while chains are set up. */
  ghost predicate Working(p: Poller, maxCalls: int, n: nat, now: int) {
    p.connected && p.size > 0 && p.maxCalls == maxCalls && |p.chains| == n && p.clock <= now
  }

  /** n calls of `startPolling` before the first poll is over: the first fetches, the others skip. */
  lemma {:induction false} CrowdedStart(maxCalls: int, size: nat, t: int, n: nat) returns (events: seq<Event>)
    requires size > 0 && n >= 1
    ensures IsRun(Initial(true, maxCalls, size, t), events)
    ensures EffectiveStarts(Initial(true, maxCalls, size, t), events) == n
    ensures var p := After(Initial(true, maxCalls, size, t), events);
      && Working(p, maxCalls, n, t) && p.pollTimer.None? && p.inFlight
      && (forall j :: 0 <= j < n ==> p.chains[j] == if j == 0 then Fetching else Skipping)
      && forall k :: 0 <= k < |p.requests| ==> p.requests[k].at == t
  {
    var p0 := Initial(true, maxCalls, size, t);
    if n == 1 {
      events := [];
    } else {
      events := CrowdedStart(maxCalls, size, t, n - 1);
    }
    RunAppend(p0, events, Start(t));
    events := events + [Start(t)];
  }

  /** Then the polls are over one after the other, and all timers are due together. */
  lemma {:induction false} CrowdedSleep(maxCalls: int, size: nat, t: int, n: nat, i: nat) returns (events: seq<Event>)
    requires size > 0 && n >= 1 && i <= n
    ensures IsRun(Initial(true, maxCalls, size, t), events)
    ensures EffectiveStarts(Initial(true, maxCalls, size, t), events) == n
    ensures var p := After(Initial(true, maxCalls, size, t), events);
      && Working(p, maxCalls, n, t) && (i > 0 ==> !p.inFlight)
      && (forall j :: 0 <= j < n ==>
           p.chains[j] == if j < i then Sleeping(t + Interval(maxCalls)) else if j == 0 then Fetching else Skipping)
      && forall k :: 0 <= k < |p.requests| ==> p.requests[k].at == t
  {
    hide Interval;
    var p0 := Initial(true, maxCalls, size, t);
    if i == 0 {
      events := CrowdedStart(maxCalls, size, t, n);
    } else {
      events := CrowdedSleep(maxCalls, size, t, n, i - 1);
      RunAppend(p0, events, Arrive(i - 1, t));
      events := events + [Arrive(i - 1, t)];
    }
  }

  /** Of n chains due together, the first i have had their turn. */
  ghost predicate Turned(p: Poller, maxCalls: int, n: nat, i: nat, due: int) {
    && Working(p, maxCalls, n, due) && !p.inFlight && i <= n
    && forall j :: 0 <= j < n ==> p.chains[j] == Sleeping(if j < i then due + Interval(maxCalls) else due)
  }

  lemma OneTurn(p: Poller, maxCalls: int, n: nat, i: nat, due: int) returns (r: Request)
    requires Turned(p, maxCalls, n, i, due) && i < n
    ensures Enabled(p, Fire(i, due)) && Enabled(Step(p, Fire(i, due)), Arrive(i, due))
    ensures var q := Step(Step(p, Fire(i, due)), Arrive(i, due));
      Turned(q, maxCalls, n, i + 1, due) && q.requests == p.requests + [r] && r.at == due
  {
    hide Interval;
    r := Request(i, due, p.cursor % p.size);
  }

  lemma {:induction false} OneRound(
    p0: Poller, events: seq<Event>, maxCalls: int, n: nat, i: nat, due: int, from: int) returns (longer: seq<Event>)
    requires IsRun(p0, events) && Turned(After(p0, events), maxCalls, n, i, due) && from <= due < from + MINUTE
    ensures IsRun(p0, longer) && Turned(After(p0, longer), maxCalls, n, n, due)
    ensures EffectiveStarts(p0, longer) == EffectiveStarts(p0, events)
    ensures Load(After(p0, longer), from) == Load(After(p0, events), from) + (n - i)
    decreases n - i
  {
    hide Step, Turned, Load;
    longer := events;
    AtMostN(After(p0, events), maxCalls, n, i, due);
    if i < n {
      var p := After(p0, events);
      var r := OneTurn(p, maxCalls, n, i, due);
      RunAppend(p0, events, Fire(i, due));
      longer := events + [Fire(i, due)];
      RunAppend(p0, longer, Arrive(i, due));
      longer := longer + [Arrive(i, due)];
      LoadOfRequest(p, After(p0, longer), r, from);
      longer := OneRound(p0, longer, maxCalls, n, i + 1, due, from);
    }
  }

  lemma AtMostN(p: Poller, maxCalls: int, n: nat, i: nat, due: int)
    requires Turned(p, maxCalls, n, i, due)
    ensures i <= n
  {
  }

  lemma NextRound(p: Poller, maxCalls: int, n: nat, due: int)
    requires Turned(p, maxCalls, n, n, due)
    ensures Turned(p, maxCalls, n, 0, due + Interval(maxCalls))
  {
    hide Interval;
  }

  lemma {:induction false} Rounds(
    p0: Poller, events: seq<Event>, maxCalls: int, n: nat, k: nat, due: int, from: int) returns (longer: seq<Event>)
    requires IsRun(p0, events) && Turned(After(p0, events), maxCalls, n, 0, due) && from <= due
    requires k > 0 ==> due + (k - 1) * Interval(maxCalls) < from + MINUTE
    ensures IsRun(p0, longer) && EffectiveStarts(p0, longer) == EffectiveStarts(p0, events)
    ensures Load(After(p0, longer), from) == Load(After(p0, events), from) + n * k
    decreases k
  {
    hide Turned, Load, Interval;
    longer := events;
    if k > 0 {
      var gap := Interval(maxCalls);
      assert (k - 1) * gap >= 0;
      longer := OneRound(p0, events, maxCalls, n, 0, due, from);
      NextRound(After(p0, longer), maxCalls, n, due);
      assert k > 1 ==> (k - 1) * gap == gap + (k - 2) * gap;
      longer := Rounds(p0, longer, maxCalls, n, k - 1, due + gap, from);
      assert n * k == n + n * (k - 1);
    }
  }

  lemma {:induction false} NoneAt(requests: seq<Request>, t: int, from: int)
    requires t < from && forall k :: 0 <= k < |requests| ==> requests[k].at == t
    ensures CountIn(AllTimes(requests), from) == 0
  {
    if requests != [] {
      NoneAt(requests[..|requests| - 1], t, from);
    }
  }

  /** The bound of `RateOfAllChains` is reached, for every setting and every number of chains:
      start them all before the first poll is over and let every answer come at once. */
  lemma BoundIsReached(maxCalls: int, size: nat, t: int, n: nat) returns (events: seq<Event>, from: int)
    requires size > 0 && n >= 1
    ensures IsRun(Initial(true, maxCalls, size, t), events)
    ensures EffectiveStarts(Initial(true, maxCalls, size, t), events) == n
    ensures Load(After(Initial(true, maxCalls, size, t), events), from) == n * PerChain(maxCalls)
  {
    var p0 := Initial(true, maxCalls, size, t);
    var ready := CrowdedSleep(maxCalls, size, t, n, n);
    IntervalCoversMinute(maxCalls);
    PerChainIsTight(maxCalls);
    hide Interval, PerChain, AllowedPerMinute;
    from := t + Interval(maxCalls);
    NoneAt(After(p0, ready).requests, t, from);
    events := Rounds(p0, ready, maxCalls, n, PerChain(maxCalls), from, from);
  }

  /** A connected poller keeps its rate in every run with at most n effective starts exactly
      when n times one chain's share is allowed. */
  lemma RateHoldsIff(maxCalls: int, size: nat, t: int, n: nat)
    requires size > 0 && n >= 1
    ensures (forall events | IsRun(Initial(true, maxCalls, size, t), events) ::
               EffectiveStarts(Initial(true, maxCalls, size, t), events) <= n ==>
               KeepsRate(Initial(true, maxCalls, size, t), events))
            <==> n * PerChain(maxCalls) <= AllowedPerMinute(maxCalls)
  {
    var p0 := Initial(true, maxCalls, size, t);
    hide PerChain, AllowedPerMinute, Load;
    if n * PerChain(maxCalls) <= AllowedPerMinute(maxCalls) {
      forall events | IsRun(p0, events) && EffectiveStarts(p0, events) <= n ensures KeepsRate(p0, events) {
        forall from ensures Load(After(p0, events), from) <= AllowedPerMinute(maxCalls) {
          LoadWithinBound(maxCalls, size, t, events, n, from);
        }
      }
    } else {
      var events, from := BoundIsReached(maxCalls, size, t, n);
      assert !KeepsRate(p0, events);
    }
  }

  lemma MoreChainsMore(k: nat, n: nat, share: nat)
    requires k <= n
    ensures k * share <= n * share
  {
    var d := n - k;
    assert d * share >= 0;
    assert n * share == k * share + d * share by {
      assert n == k + d;
    }
  }

  lemma LoadWithinBound(maxCalls: int, size: nat, t: int, events: seq<Event>, n: nat, from: int)
    requires IsRun(Initial(true, maxCalls, size, t), events)
    requires EffectiveStarts(Initial(true, maxCalls, size, t), events) <= n
    ensures Load(After(Initial(true, maxCalls, size, t), events), from) <= n * PerChain(maxCalls)
  {
    hide PerChain;
    RateOfAllChains(true, maxCalls, size, t, events, from);
    MoreChainsMore(EffectiveStarts(Initial(true, maxCalls, size, t), events), n, PerChain(maxCalls));
  }

  lemma IntervalIsTight(maxCalls: int)
    ensures AllowedPerMinute(maxCalls) * Interval(maxCalls) < MINUTE + AllowedPerMinute(maxCalls)
  {
    var m := AllowedPerMinute(maxCalls);
    hide AllowedPerMinute;
    var q, r := (MINUTE + m - 1) / m, (MINUTE + m - 1) % m;
    assert MINUTE + m - 1 == m * q + r && r >= 0;
  }

  /** The interval is the least one at which the setting's calls span a minute; a setting below
      one counts as one. */
  lemma IntervalIsLeast(maxCalls: int)
    ensures maxCalls < 1 ==> Interval(maxCalls) == 60_000
    ensures maxCalls >= 1 ==> maxCalls * (Interval(maxCalls) - 1) < 60_000 <= maxCalls * Interval(maxCalls)
  {
    AllowedIs(maxCalls);
    IntervalCoversMinute(maxCalls);
    IntervalIsTight(maxCalls);
    hide Interval, AllowedPerMinute;
    Distribute(maxCalls, Interval(maxCalls));
  }

  lemma Distribute(m: int, g: int)
    ensures m * (g - 1) == m * g - m
  {
  }

  lemma TwoSharesOfSlowPoller(m: nat, g: nat, n: nat)
    requires n * g >= MINUTE && m * g < MINUTE + m && m <= MINUTE
    ensures 2 * n > m
  {
    var d := 2 * n - m;
    assert d * g == 2 * (n * g) - m * g;
    PositiveFactor(d, g);
  }

  lemma PositiveFactor(d: int, g: nat)
    requires d * g > 0
    ensures d > 0
  {
  }

  /** A second start before the first poll is over can break every rate below 120 000 a minute. */
  lemma TwoChainsFitIff(maxCalls: int)
    ensures 2 * PerChain(maxCalls) <= AllowedPerMinute(maxCalls) <==> maxCalls >= 2 * MINUTE
  {
    AllowedIs(maxCalls);
    PerChainIsTight(maxCalls);
    IntervalIsTight(maxCalls);
    if AllowedPerMinute(maxCalls) >= MINUTE {
      IntervalOfFastPoller(maxCalls);
      PerChainOfFastPoller(maxCalls);
      hide AllowedPerMinute, PerChain, Interval;
    } else {
      hide AllowedPerMinute, PerChain, Interval;
      TwoSharesOfSlowPoller(AllowedPerMinute(maxCalls), Interval(maxCalls), PerChain(maxCalls));
    }
  }

  lemma AllowedIs(maxCalls: int)
    ensures AllowedPerMinute(maxCalls) == if maxCalls >= 1 then maxCalls else 1
  {
  }

  lemma IntervalOfFastPoller(maxCalls: int)
    requires AllowedPerMinute(maxCalls) >= MINUTE
    ensures Interval(maxCalls) == 1
  {
    var m := AllowedPerMinute(maxCalls);
    ModuloIs(MINUTE + m - 1, m, 1, MINUTE - 1);
    assert MINUTE + m - 1 == m * ((MINUTE + m - 1) / m) + (MINUTE - 1);
    if (MINUTE + m - 1) / m > 1 {
      MultipleApart(m, 1, (MINUTE + m - 1) / m);
    }
  }

  lemma PerChainOfFastPoller(maxCalls: int)
    requires Interval(maxCalls) == 1
    ensures PerChain(maxCalls) == MINUTE
  {
  }

  // ----- restarts

  /** Start, one immediate answer, stop; and again. */
  function Restarted(t: int, n: nat): seq<Event> {
    if n == 0 then [] else Restarted(t, n - 1) + [Start(t)] + [Arrive(n - 1, t)] + [Stop(t)]
  }

  lemma OneRestart(p: Poller, maxCalls: int, n: nat, t: int) returns (r: Request)
    requires Working(p, maxCalls, n, t) && !p.inFlight && p.pollTimer.None? && AllCleared(p)
    ensures Enabled(p, Start(t)) && Enabled(Step(p, Start(t)), Arrive(n, t))
    ensures Enabled(Step(Step(p, Start(t)), Arrive(n, t)), Stop(t))
    ensures var q := Step(Step(Step(p, Start(t)), Arrive(n, t)), Stop(t));
      && Working(q, maxCalls, n + 1, t) && !q.inFlight && q.pollTimer.None? && AllCleared(q)
      && q.requests == p.requests + [r] && r.at == t
  {
    hide Interval;
    r := Request(n, t, p.cursor % p.size);
  }

  /** Stopping before every new start, so that one chain at a time is alive, does not help: each
      start sends a request at once, and m + 1 of them in one moment break any rate m. */
  lemma {:induction false} RestartsAddUp(maxCalls: int, size: nat, t: int, n: nat)
    requires size > 0
    ensures IsRun(Initial(true, maxCalls, size, t), Restarted(t, n))
    ensures var p := After(Initial(true, maxCalls, size, t), Restarted(t, n));
      && Working(p, maxCalls, n, t) && !p.inFlight && p.pollTimer.None? && AllCleared(p)
      && Load(p, t) == n
  {
    var p0 := Initial(true, maxCalls, size, t);
    if n > 0 {
      hide Load, Step, Working, AllCleared;
      RestartsAddUp(maxCalls, size, t, n - 1);
      var events := Restarted(t, n - 1);
      var p := After(p0, events);
      var r := OneRestart(p, maxCalls, n - 1, t);
      RunAppend(p0, events, Start(t));
      RunAppend(p0, events + [Start(t)], Arrive(n - 1, t));
      RunAppend(p0, events + [Start(t)] + [Arrive(n - 1, t)], Stop(t));
      LoadOfRequest(p, After(p0, Restarted(t, n)), r, t);
    }
  }

  /** Hence no setting keeps its rate if starts and stops are free. */
  lemma RestartsBreakRate(maxCalls: int, size: nat, t: int)
    requires size > 0
    ensures var p0, events := Initial(true, maxCalls, size, t), Restarted(t, AllowedPerMinute(maxCalls) + 1);
      IsRun(p0, events) && !KeepsRate(p0, events)
  {
    hide Load, AllowedPerMinute;
    RestartsAddUp(maxCalls, size, t, AllowedPerMinute(maxCalls) + 1);
    assert Load(After(Initial(true, maxCalls, size, t), Restarted(t, AllowedPerMinute(maxCalls) + 1)), t)
      > AllowedPerMinute(maxCalls);
  }

  // ----- the class

  class PolygonMarketDataAdapter {
    const maxCallsPerMinute: int
    var watchlist: seq<Instrument>
    var cursor: nat

    constructor (maxCallsPerMinute: int)
      ensures this.maxCallsPerMinute == maxCallsPerMinute && watchlist == [] && cursor == 0
    {
      this.maxCallsPerMinute := maxCallsPerMinute;
      watchlist, cursor := [], 0;
    }

    method SetWatchlist(instruments: seq<Instrument>)
      modifies this
      ensures watchlist == Dedup(instruments) && cursor == 0
    {
      var seen: set<string> := {};
      watchlist := [];
      for k := 0 to |instruments|
        invariant watchlist == Dedup(instruments[..k])
        invariant forall key :: key in seen <==> HasKey(watchlist, key)
      {
        assert instruments[..k + 1][..k] == instruments[..k];
        var i := instruments[k];
        if i.symbol != "" && i.Key() !in seen {
          HasKeyAppend(watchlist, i);
          seen := seen + {i.Key()};
          watchlist := watchlist + [i];
        }
      }
      assert instruments[..|instruments|] == instruments;
      cursor := 0;
    }

    /** The next instrument of the rotation, or none. */
    method NextInstrument() returns (i: Option<Instrument>)
      modifies this`cursor
      ensures i == if watchlist == [] then None else Some(watchlist[DrawIndex(old(cursor), 0, |watchlist|)])
      ensures cursor == if watchlist == [] then old(cursor) else DrawIndex(old(cursor), 1, |watchlist|)
    {
      if watchlist == [] {
        return None;
      }
      i := Some(watchlist[cursor % |watchlist|]);
      cursor := (cursor + 1) % |watchlist|;
    }
  }

  lemma HasKeyAppend(list: seq<Instrument>, i: Instrument)
    ensures forall key :: HasKey(list + [i], key) <==> HasKey(list, key) || key == i.Key()
  {
    forall key ensures HasKey(list + [i], key) <==> HasKey(list, key) || key == i.Key() {
      if HasKey(list, key) {
        var k :| 0 <= k < |list| && list[k].Key() == key;
        assert (list + [i])[k].Key() == key;
      }
      assert (list + [i])[|list|].Key() == i.Key();
    }
  }
}
