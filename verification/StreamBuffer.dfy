/** The stream worker's message buffer: an append-only array with a start offset that drops the
    oldest message on overflow, flushed in batches and reset on disconnect. */
module StreamBuffer {
  import opened Sequences

  /** A parsed payload, identified by the order in which the sockets delivered it. */
  type Payload = nat

  const MAX_BUFFER_ITEMS: nat := 20_000

  datatype Event =
    | Accept(payload: Payload)   // a message that parses to an object
    | Ignore                     // anything else the sockets deliver
    | Flush                      // the interval timer
    | Disconnect

  /** The reference: a queue of at most 20,000, and what has happened to everything accepted. */
  datatype Queue = Queue(
    pending: seq<Payload>,
    batches: seq<seq<Payload>>,
    overflowed: seq<Payload>,
    cleared: seq<Payload>)

  const EMPTY: Queue := Queue([], [], [], [])

  function QStep(q: Queue, e: Event): Queue {
    match e
    case Accept(p) =>
      var grown := q.pending + [p];
      if |grown| > MAX_BUFFER_ITEMS
      then q.(pending := grown[1..], overflowed := q.overflowed + [grown[0]])
      else q.(pending := grown)
    case Ignore => q
    case Flush => if q.pending == [] then q else q.(pending := [], batches := q.batches + [q.pending])
    case Disconnect => q.(pending := [], cleared := q.cleared + q.pending)
  }

  function QRun(events: seq<Event>): Queue {
    if events == [] then EMPTY else QStep(QRun(events[..|events| - 1]), events[|events| - 1])
  }

  function Accepted(events: seq<Event>): seq<Payload> {
    if events == [] then []
    else Accepted(events[..|events| - 1]) + AcceptedOne(events[|events| - 1])
  }

  function AcceptedOne(e: Event): seq<Payload> {
    if e.Accept? then [e.payload] else []
  }

  /** The messages accepted since the latest flush or disconnect. */
  function SinceReset(events: seq<Event>): seq<Payload> {
    if events == [] || events[|events| - 1].Flush? || events[|events| - 1].Disconnect? then []
    else SinceReset(events[..|events| - 1]) + AcceptedOne(events[|events| - 1])
  }

  function LastN(s: seq<Payload>, n: nat): seq<Payload> {
    if |s| <= n then s else s[|s| - n..]
  }

  // ----- what the buffer holds

  lemma LastNAppend(s: seq<Payload>, p: Payload, n: nat)
    requires n > 0
    ensures var t := LastN(s, n) + [p];
      LastN(s + [p], n) == if |t| > n then t[1..] else t
  {
  }

  /** Pending is always the last min(count, 20000) messages accepted since the latest flush or disconnect. */
  lemma {:induction false} PendingIsLatest(events: seq<Event>)
    ensures QRun(events).pending == LastN(SinceReset(events), MAX_BUFFER_ITEMS)
  {
    if events != [] {
      var front, e := events[..|events| - 1], events[|events| - 1];
      PendingIsLatest(front);
      if e.Accept? {
        LastNAppend(SinceReset(front), e.payload, MAX_BUFFER_ITEMS);
      } else {
        assert SinceReset(front) + [] == SinceReset(front);
      }
    }
  }

  // ----- where every message ends up

  /** Every place a message can be. */
  ghost function Held(q: Queue): multiset<Payload> {
    multiset(q.pending) + multiset(Concat(q.batches)) + multiset(q.overflowed) + multiset(q.cleared)
  }

  lemma MovedOver(a: multiset<Payload>, a': multiset<Payload>, b: multiset<Payload>, c: multiset<Payload>,
                  c': multiset<Payload>, d: multiset<Payload>, moved: multiset<Payload>, added: multiset<Payload>)
    requires a' + moved == a + added && c' == c + moved
    ensures a' + b + c' + d == a + b + c + d + added
  {
    var l, r := a' + b + c' + d, a + b + c + d + added;
    forall x ensures l[x] == r[x] {
      assert (a' + moved)[x] == (a + added)[x] && c'[x] == (c + moved)[x];
    }
  }

  lemma StepConserves(q: Queue, e: Event)
    ensures Held(QStep(q, e)) == Held(q) + multiset(AcceptedOne(e))
  {
    hide Concat;
    match e
    case Accept(p) =>
      var grown := q.pending + [p];
      assert grown == [grown[0]] + grown[1..];
      assert multiset(grown) == multiset(q.pending) + multiset{p};
      var r := QStep(q, e);
      assert multiset(AcceptedOne(e)) == multiset{p};
      if |grown| > MAX_BUFFER_ITEMS {
        assert multiset(r.pending) + multiset{grown[0]} == multiset(q.pending) + multiset{p};
        assert multiset(r.overflowed) == multiset(q.overflowed) + multiset{grown[0]};
        MovedOver(multiset(q.pending), multiset(r.pending), multiset(Concat(q.batches)), multiset(q.overflowed),
                  multiset(r.overflowed), multiset(q.cleared), multiset{grown[0]}, multiset{p});
      } else {
        assert multiset(r.pending) == multiset(q.pending) + multiset{p};
      }
    case Ignore =>
      assert AcceptedOne(e) == [];
    case Flush =>
      ConcatAppend(q.batches, q.pending);
      assert AcceptedOne(e) == [];
    case Disconnect =>
      assert AcceptedOne(e) == [];
  }

  /** Conservation: every accepted message is in exactly one place, as often as it was accepted:
      still pending, in a batch, dropped as the oldest on overflow, or cleared by a disconnect. */
  lemma {:induction false} NothingElseIsLost(events: seq<Event>)
    ensures multiset(Accepted(events)) == Held(QRun(events))
  {
    hide Held, QStep;
    if events == [] {
      NothingHeld();
    } else {
      var front, e := events[..|events| - 1], events[|events| - 1];
      NothingElseIsLost(front);
      StepConserves(QRun(front), e);
    }
  }

  lemma NothingHeld()
    ensures Held(EMPTY) == multiset{}
  {
  }

  /** The batches one after the other, then what is pending. */
  function Output(q: Queue): seq<Payload> {
    Concat(q.batches) + q.pending
  }

  lemma StepKeepsOrder(q: Queue, e: Event, stream: seq<Payload>)
    requires IsSubsequence(Output(q), stream)
    ensures IsSubsequence(Output(QStep(q, e)), stream + AcceptedOne(e))
  {
    var out := Concat(q.batches);
    hide IsSubsequence, Concat;
    match e
    case Accept(p) =>
      SubsequenceTake(out + q.pending, stream, p);
      assert out + q.pending + [p] == out + (q.pending + [p]);
      if |q.pending + [p]| > MAX_BUFFER_ITEMS {
        var grown := q.pending + [p];
        assert out + grown == out + [grown[0]] + grown[1..];
        SubsequenceDrop(out, [grown[0]], grown[1..], stream + [p]);
      }
    case Ignore =>
      assert stream + [] == stream;
    case Flush =>
      assert stream + [] == stream;
      ConcatAppend(q.batches, q.pending);
      assert out + q.pending + [] == out + q.pending;
    case Disconnect =>
      assert stream + [] == stream;
      assert out + q.pending == out + q.pending + [] && out + [] == out;
      SubsequenceDrop(out, q.pending, [], stream);
  }

  /** Order is preserved: the output is the accepted stream with some messages left out. */
  lemma {:induction false} DeliveredInOrder(events: seq<Event>)
    ensures IsSubsequence(Output(QRun(events)), Accepted(events))
  {
    hide QStep, AcceptedOne;
    if events == [] {
      assert Output(QRun(events)) == [];
      EmptyIsSubsequence(Accepted(events));
    } else {
      DeliveredInOrder(events[..|events| - 1]);
      StepKeepsOrder(QRun(events[..|events| - 1]), events[|events| - 1], Accepted(events[..|events| - 1]));
    }
  }

  /** Hence no batch repeats a message: distinct messages in, distinct messages out. */
  lemma NothingDeliveredTwice(events: seq<Event>)
    requires forall j, k :: 0 <= j < k < |Accepted(events)| ==> Accepted(events)[j] != Accepted(events)[k]
    ensures var out := Concat(QRun(events).batches);
      (forall j, k :: 0 <= j < k < |out| ==> out[j] != out[k]) && (forall k :: 0 <= k < |out| ==>
        out[k] in Accepted(events))
  {
    DeliveredInOrder(events);
    var out, pending := Concat(QRun(events).batches), QRun(events).pending;
    assert out + pending == out + pending + [] && out + [] == out;
    SubsequenceDrop(out, pending, [], Accepted(events));
    SubsequenceOfDistinct(out, Accepted(events));
  }

  /** What is pending after these events, by `PendingIsLatest`. */
  function Latest(events: seq<Event>): seq<Payload> {
    LastN(SinceReset(events), MAX_BUFFER_ITEMS)
  }

  /** The latest messages at each flush that found any. */
  function Flushed(events: seq<Event>): seq<seq<Payload>> {
    if events == [] then []
    else
      var front := events[..|events| - 1];
      Flushed(front) + (if events[|events| - 1].Flush? && Latest(front) != [] then [Latest(front)] else [])
  }

  /** The latest messages at each disconnect. */
  function Discarded(events: seq<Event>): seq<Payload> {
    if events == [] then []
    else
      var front := events[..|events| - 1];
      Discarded(front) + (if events[|events| - 1].Disconnect? then Latest(front) else [])
  }

  /** What is posted and what is lost, without replaying the buffer: the batches are exactly the
      latest messages at every flush that found any, in order, and only a disconnect clears
      messages, the latest ones at that moment. */
  lemma {:induction false} BatchesAreFlushes(events: seq<Event>)
    ensures QRun(events).batches == Flushed(events) && QRun(events).cleared == Discarded(events)
  {
    if events != [] {
      var front := events[..|events| - 1];
      BatchesAreFlushes(front);
      PendingIsLatest(front);
      hide LastN, SinceReset;
      assert Flushed(front) + [] == Flushed(front) && Discarded(front) + [] == Discarded(front);
    }
  }

  /** Overflow happens only to a full buffer, and takes its oldest message. */
  lemma OverflowTakesOldest(events: seq<Event>, e: Event)
    ensures var q, r := QRun(events), QStep(QRun(events), e);
      r.overflowed != q.overflowed ==>
        e.Accept? && |q.pending| == MAX_BUFFER_ITEMS && r.overflowed == q.overflowed + [q.pending[0]]
        && r.pending == q.pending[1..] + [e.payload]
  {
    PendingIsLatest(events);
  }

  // ----- the worker

  class StreamWorker {
    var buffer: seq<Payload>
    var bufferStart: nat
    var posted: seq<seq<Payload>>
    ghost var overflowed: seq<Payload>
    ghost var cleared: seq<Payload>

    ghost predicate Valid()
      reads this
    {
      bufferStart <= |buffer| && |buffer| - bufferStart <= MAX_BUFFER_ITEMS
    }

    /** The offset buffer read as a queue. */
    ghost function Abs(): Queue
      requires Valid()
      reads this
    {
      Queue(buffer[bufferStart..], posted, overflowed, cleared)
    }

    constructor ()
      ensures Valid() && Abs() == QRun([])
    {
      buffer, bufferStart, posted := [], 0, [];
      overflowed, cleared := [], [];
    }

    method OnMessage(payload: Payload)
      requires Valid()
      modifies this
      ensures Valid() && Abs() == QStep(old(Abs()), Accept(payload))
    {
      ghost var grown := buffer[bufferStart..] + [payload];
      buffer := buffer + [payload];
      assert buffer[bufferStart..] == grown;
      if |buffer| - bufferStart > MAX_BUFFER_ITEMS {
        overflowed := overflowed + [buffer[bufferStart]];
        bufferStart := bufferStart + 1;
        assert buffer[bufferStart..] == grown[1..];
      }
    }

    method FlushBuffer()
      requires Valid()
      modifies this
      ensures Valid() && Abs() == QStep(old(Abs()), Flush)
    {
      if bufferStart >= |buffer| {
        return;
      }
      posted := posted + [buffer[bufferStart..]];
      buffer := [];
      bufferStart := 0;
    }

    method OnDisconnect()
      requires Valid()
      modifies this
      ensures Valid() && Abs() == QStep(old(Abs()), Disconnect)
    {
      cleared := cleared + buffer[bufferStart..];
      buffer := [];
      bufferStart := 0;
    }
  }
}
