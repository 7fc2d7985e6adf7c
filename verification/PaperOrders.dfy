/** The paper-order book: idempotent acceptance against a limit, behind a kill switch. */
module PaperOrders {
  import opened Wrappers
  import opened Sequences

  /** `notional` is None when it does not convert to a finite number; `freshId` is the random
      order id drawn if the command is accepted. */
  datatype Command = Command(clientRequestId: Option<string>, notional: Option<real>, freshId: string)

  datatype Reason = KillSwitchActive | IdempotencyKeyRequired | InvalidNotional | LimitExceeded
  datatype Reply =
    | Rejected(reason: Reason)
    | Accepted(orderId: string, clientRequestId: string, amount: real, version: int)

  datatype Audit = KillSwitchEngaged | OrderDeniedKillSwitch(clientRequestId: Option<string>)

  datatype Book = Book(
    limit: real,
    version: int,
    reserved: real,
    orders: map<string, Reply>,
    killSwitch: bool,
    audit: seq<Audit>)

  datatype Input = Submit(command: Command) | Engage | Clear

  // ----- the transitions

  function Key(c: Command): Option<string> {
    if c.clientRequestId == Some("") then None else c.clientRequestId
  }

  function Accept(b: Book, c: Command): (Book, Reply) {
    if b.killSwitch then (b.(audit := b.audit + [OrderDeniedKillSwitch(c.clientRequestId)]), Rejected(KillSwitchActive))
    else if Key(c).None? then (b, Rejected(IdempotencyKeyRequired))
    else if Key(c).value in b.orders then (b, b.orders[Key(c).value])
    else if c.notional.None? || c.notional.value <= 0.0 then (b, Rejected(InvalidNotional))
    else if b.reserved + c.notional.value > b.limit then (b, Rejected(LimitExceeded))
    else
      var r := Accepted(c.freshId, Key(c).value, c.notional.value, b.version);
      (b.(reserved := b.reserved + c.notional.value, orders := b.orders[Key(c).value := r]), r)
  }

  function Step(b: Book, i: Input): (Book, Option<Reply>) {
    match i
    case Submit(c) => var (b', r) := Accept(b, c); (b', Some(r))
    case Engage => (b.(killSwitch := true, audit := b.audit + [KillSwitchEngaged]), None)
    case Clear => (b.(killSwitch := false), None)
  }

  function Run(b: Book, inputs: seq<Input>): (Book, seq<Option<Reply>>)
    decreases |inputs|
  {
    if inputs == [] then (b, [])
    else
      var (b', r) := Step(b, inputs[0]);
      var (b'', rs) := Run(b', inputs[1..]);
      (b'', [r] + rs)
  }

  function After(b: Book, inputs: seq<Input>): Book {
    Run(b, inputs).0
  }

  function New(limit: real): Book {
    Book(limit, 1, 0.0, map[], false, [])
  }

  /** The input is a command that puts a new order on the book. */
  predicate Books(b: Book, i: Input) {
    i.Submit? && !b.killSwitch && Key(i.command).Some? && Key(i.command).value !in b.orders
    && i.command.notional.Some? && i.command.notional.value > 0.0 && b.reserved + i.command.notional.value <= b.limit
  }

  /** The amounts newly accepted in a run, in order. */
  function Booked(b: Book, inputs: seq<Input>): seq<real>
    decreases |inputs|
  {
    if inputs == [] then []
    else
      (if Books(b, inputs[0]) then [inputs[0].command.notional.value] else [])
      + Booked(Step(b, inputs[0]).0, inputs[1..])
  }

  // ----- every run

  ghost predicate Inv(b: Book) {
    && (b.limit >= 0.0 ==> b.reserved <= b.limit) && b.reserved >= 0.0
    && forall k :: k in b.orders ==>
         b.orders[k].Accepted? && b.orders[k].clientRequestId == k && b.orders[k].amount > 0.0
  }

  lemma StepInv(b: Book, i: Input)
    requires Inv(b)
    ensures Inv(Step(b, i).0) && Step(b, i).0.limit == b.limit
    ensures Step(b, i).0.reserved == b.reserved + (if Books(b, i) then i.command.notional.value else 0.0)
    ensures Step(b, i).0.orders.Keys == b.orders.Keys + (if Books(b, i) then {Key(i.command).value} else {})
    ensures forall k :: k in b.orders ==> k in Step(b, i).0.orders && Step(b, i).0.orders[k] == b.orders[k]
  {
  }

  /** Conservation: the reservation is the sum of the amounts accepted, one per order on the
      book, and stays within the limit. */
  lemma {:induction false} ReservedIsSumOfAccepted(b: Book, inputs: seq<Input>)
    requires Inv(b)
    ensures var c := After(b, inputs);
      && c.reserved == b.reserved + Sum(Booked(b, inputs))
      && |c.orders| == |b.orders| + |Booked(b, inputs)|
      && Inv(c) && c.limit == b.limit
      && (forall k :: 0 <= k < |Booked(b, inputs)| ==> Booked(b, inputs)[k] > 0.0)
    decreases |inputs|
  {
    if inputs != [] {
      var i, next := inputs[0], Step(b, inputs[0]).0;
      StepInv(b, i);
      assert |next.orders| == |next.orders.Keys| && |b.orders| == |b.orders.Keys|;
      hide Books, Step, Inv;
      ReservedIsSumOfAccepted(next, inputs[1..]);
      if Books(b, i) {
        var rest := Booked(next, inputs[1..]);
        var amount := i.command.notional.value;
        assert Books(b, i) ==> amount > 0.0 by { BooksPositive(b, i); }
        SumSplit([amount], rest);
        SumAppend([], amount);
        assert [] + [amount] == [amount];
      } else {
        assert [] + Booked(next, inputs[1..]) == Booked(next, inputs[1..]);
      }
    }
  }

  /** From a new book, whatever comes in: the reservation is the sum of the amounts accepted,
      and within the limit; with a negative limit nothing is ever accepted. */
  lemma NewBookKeepsLimit(limit: real, inputs: seq<Input>)
    ensures var c := After(New(limit), inputs);
      && c.reserved == Sum(Booked(New(limit), inputs)) && |c.orders| == |Booked(New(limit), inputs)|
      && 0.0 <= c.reserved <= (if limit < 0.0 then 0.0 else limit)
  {
    assert Inv(New(limit));
    ReservedIsSumOfAccepted(New(limit), inputs);
    if limit < 0.0 {
      NegativeLimitBooksNothing(New(limit), inputs);
    }
  }

  /** The amounts of the orders on the book, one for each of the given keys. */
  function Amounts(orders: map<string, Reply>, keys: seq<string>): (r: seq<real>)
    requires forall k :: 0 <= k < |keys| ==> keys[k] in orders && orders[keys[k]].Accepted?
    ensures |r| == |keys| && forall k :: 0 <= k < |keys| ==> r[k] == orders[keys[k]].amount
  {
    seq(|keys|, k requires 0 <= k < |keys| => orders[keys[k]].amount)
  }

  /** The keys are those of the book, each once, and the amounts of their orders sum up to the
      reservation. */
  ghost predicate Covers(b: Book, keys: seq<string>) {
    && (forall j, k :: 0 <= j < k < |keys| ==> keys[j] != keys[k])
    && (forall key :: key in b.orders <==> key in keys)
    && (forall k :: 0 <= k < |keys| ==> keys[k] in b.orders && b.orders[keys[k]].Accepted?)
    && Sum(Amounts(b.orders, keys)) == b.reserved
  }

  lemma AmountsAppend(orders: map<string, Reply>, keys: seq<string>, key: string, r: Reply)
    requires forall k :: 0 <= k < |keys| ==> keys[k] in orders && orders[keys[k]].Accepted?
    requires r.Accepted? && key !in keys
    ensures Sum(Amounts(orders[key := r], keys + [key])) == Sum(Amounts(orders, keys)) + r.amount
  {
    assert forall k :: 0 <= k < |keys| ==> keys[k] in keys;
    assert Amounts(orders[key := r], keys + [key]) == Amounts(orders, keys) + [r.amount];
    SumAppend(Amounts(orders, keys), r.amount);
  }

  lemma NewOrderCovers(b: Book, c: Book, keys: seq<string>, key: string, r: Reply)
    requires Covers(b, keys) && key !in b.orders && r.Accepted?
    requires c.orders == b.orders[key := r] && c.reserved == b.reserved + r.amount
    ensures Covers(c, keys + [key])
  {
    AmountsAppend(b.orders, keys, key, r);
    hide Amounts, Sum;
    forall k | 0 <= k < |keys| ensures keys[k] != key {
      assert keys[k] in b.orders;
    }
  }

  lemma StepCovers(b: Book, i: Input, keys: seq<string>) returns (keys': seq<string>)
    requires Inv(b) && Covers(b, keys)
    ensures Covers(Step(b, i).0, keys')
  {
    keys' := keys;
    if Books(b, i) {
      var key := Key(i.command).value;
      keys' := keys + [key];
      NewOrderCovers(b, Step(b, i).0, keys, key, Step(b, i).1.value);
    }
    hide Amounts, Sum;
  }

  /** Conservation on the book itself: the amounts in the orders it holds, each key's once, sum
      up to the reservation, in every run. */
  lemma {:induction false} BookCoversReservation(b: Book, inputs: seq<Input>, keys: seq<string>)
    returns (keys': seq<string>)
    requires Inv(b) && Covers(b, keys)
    ensures Covers(After(b, inputs), keys')
    decreases |inputs|
  {
    keys' := keys;
    if inputs != [] {
      keys' := StepCovers(b, inputs[0], keys);
      StepInv(b, inputs[0]);
      hide Covers, Inv, Step;
      keys' := BookCoversReservation(Step(b, inputs[0]).0, inputs[1..], keys');
    }
  }

  lemma NewBookCoversReservation(limit: real, inputs: seq<Input>) returns (keys: seq<string>)
    ensures Covers(After(New(limit), inputs), keys)
  {
    SumOfNone();
    assert Amounts(New(limit).orders, []) == [];
    keys := BookCoversReservation(New(limit), inputs, []);
  }

  /** The orders of a run, from a new book: every one carries its key, the amount, order id and
      limit version of the command that booked it. */
  ghost predicate BookedBy(r: Reply, key: string, c: Command) {
    && c.clientRequestId == Some(key) && key != ""
    && c.notional.Some? && c.notional.value > 0.0
    && r == Accepted(c.freshId, key, c.notional.value, 1)
  }

  lemma {:induction false} OrdersComeFromCommands(b: Book, inputs: seq<Input>, key: string)
    requires b.version == 1
    requires key in After(b, inputs).orders
    ensures || (key in b.orders && After(b, inputs).orders[key] == b.orders[key])
            || exists c :: Submit(c) in inputs && BookedBy(After(b, inputs).orders[key], key, c)
    decreases |inputs|
  {
    if inputs != [] {
      OrdersComeFromCommands(Step(b, inputs[0]).0, inputs[1..], key);
      if c :| Submit(c) in inputs[1..] && BookedBy(After(b, inputs).orders[key], key, c) {
        assert Submit(c) in inputs;
      } else if key !in b.orders {
        assert inputs[0] in inputs;
        assert BookedBy(After(b, inputs).orders[key], key, inputs[0].command);
      }
    }
  }

  /** A command is accepted exactly when it has a key on the book already, or a positive amount
      that the limit leaves room for; the reason for a refusal names the first rule broken. */
  lemma AcceptedIff(b: Book, c: Command)
    requires Inv(b)
    ensures var keyed := c.clientRequestId.Some? && c.clientRequestId.value != "";
      var known := keyed && c.clientRequestId.value in b.orders;
      var sound := c.notional.Some? && c.notional.value > 0.0;
      var fits := sound && b.reserved + c.notional.value <= b.limit;
      var r := Accept(b, c).1;
      && (r.Accepted? <==> !b.killSwitch && keyed && (known || fits))
      && (r == Rejected(KillSwitchActive) <==> b.killSwitch)
      && (r == Rejected(IdempotencyKeyRequired) <==> !b.killSwitch && !keyed)
      && (r == Rejected(InvalidNotional) <==> !b.killSwitch && keyed && !known && !sound)
      && (r == Rejected(LimitExceeded) <==> !b.killSwitch && keyed && !known && sound && !fits)
  {
    assert c.clientRequestId.Some? && c.clientRequestId.value in b.orders ==>
      b.orders[c.clientRequestId.value].Accepted?;
  }

  lemma {:induction false} NegativeLimitBooksNothing(b: Book, inputs: seq<Input>)
    requires Inv(b) && b.limit < 0.0
    ensures Booked(b, inputs) == []
    decreases |inputs|
  {
    if inputs != [] {
      StepInv(b, inputs[0]);
      NegativeLimitBooksNothing(Step(b, inputs[0]).0, inputs[1..]);
    }
  }

  lemma BooksPositive(b: Book, i: Input)
    requires Books(b, i)
    ensures i.command.notional.value > 0.0
  {
  }

  lemma {:induction false} RunSplit(b: Book, s: seq<Input>, t: seq<Input>)
    ensures Run(b, s + t).0 == After(After(b, s), t)
    ensures Run(b, s + t).1 == Run(b, s).1 + Run(After(b, s), t).1
    ensures |Run(b, s).1| == |s|
    decreases |s|
  {
    if s == [] {
      assert s + t == t;
    } else {
      assert (s + t)[1..] == s[1..] + t;
      RunSplit(Step(b, s[0]).0, s[1..], t);
    }
  }

  /** While the switch is on nothing is accepted and every submission is denied and audited. */
  lemma {:induction false} NothingAcceptedWhileEngaged(b: Book, inputs: seq<Input>)
    requires b.killSwitch && forall k :: 0 <= k < |inputs| ==> !inputs[k].Clear?
    ensures var c := After(b, inputs); c.killSwitch && c.reserved == b.reserved && c.orders == b.orders
    ensures |After(b, inputs).audit| == |b.audit| + |inputs|
    ensures |Run(b, inputs).1| == |inputs| && forall k :: 0 <= k < |inputs| ==>
      Run(b, inputs).1[k] == if inputs[k].Submit? then Some(Rejected(KillSwitchActive)) else None
    decreases |inputs|
  {
    RunSplit(b, inputs, []);
    if inputs != [] {
      assert !inputs[0].Clear?;
      NothingAcceptedWhileEngaged(Step(b, inputs[0]).0, inputs[1..]);
    }
  }

  /** A command whose key is already on the book, while the switch is off. */
  predicate IsReplay(b: Book, i: Input) {
    i.Submit? && !b.killSwitch && Key(i.command).Some? && Key(i.command).value in b.orders
  }

  function WithoutReplays(b: Book, inputs: seq<Input>): seq<Input>
    decreases |inputs|
  {
    if inputs == [] then []
    else (if IsReplay(b, inputs[0]) then [] else [inputs[0]]) + WithoutReplays(Step(b, inputs[0]).0, inputs[1..])
  }

  function RepliesToOriginals(b: Book, inputs: seq<Input>): seq<Option<Reply>>
    decreases |inputs|
  {
    if inputs == [] then []
    else
      (if IsReplay(b, inputs[0]) then [] else [Step(b, inputs[0]).1])
      + RepliesToOriginals(Step(b, inputs[0]).0, inputs[1..])
  }

  /** Idempotency of the protocol: deleting every replay from a run changes neither the final
      book, audit log included, nor any other reply. */
  lemma {:induction false} ReplaysCanBeDeleted(b: Book, inputs: seq<Input>)
    ensures Run(b, WithoutReplays(b, inputs)) == (After(b, inputs), RepliesToOriginals(b, inputs))
    decreases |inputs|
  {
    if inputs != [] {
      var next := Step(b, inputs[0]).0;
      ReplaysCanBeDeleted(next, inputs[1..]);
      if IsReplay(b, inputs[0]) {
        assert next == b;
        assert [] + WithoutReplays(b, inputs[1..]) == WithoutReplays(b, inputs[1..]);
        assert [] + RepliesToOriginals(b, inputs[1..]) == RepliesToOriginals(b, inputs[1..]);
      } else {
        var kept := [inputs[0]] + WithoutReplays(next, inputs[1..]);
        assert kept[1..] == WithoutReplays(next, inputs[1..]);
      }
    }
  }

  lemma {:induction false} OrdersPersist(b: Book, inputs: seq<Input>)
    requires Inv(b)
    ensures forall k :: k in b.orders ==> k in After(b, inputs).orders && After(b, inputs).orders[k] == b.orders[k]
    ensures After(b, inputs).reserved >= b.reserved && Inv(After(b, inputs)) && After(b, inputs).limit == b.limit
    decreases |inputs|
  {
    if inputs != [] {
      StepInv(b, inputs[0]);
      OrdersPersist(Step(b, inputs[0]).0, inputs[1..]);
    }
  }

  /** Once accepted, a key gets the very same order back for ever, except while the switch is on. */
  lemma SameKeySameOrder(b: Book, c: Command, between: seq<Input>, again: Command)
    requires Inv(b) && Accept(b, c).1.Accepted? && Key(again) == Key(c)
    ensures var late := After(Accept(b, c).0, between);
      Accept(late, again).1 == if late.killSwitch then Rejected(KillSwitchActive) else Accept(b, c).1
  {
    StepInv(b, Submit(c));
    OrdersPersist(Accept(b, c).0, between);
  }

  /** An amount refused for the limit stays refused: no later command of at least that amount
      is ever booked. */
  lemma RefusedAmountStaysRefused(b: Book, c: Command, between: seq<Input>, again: Command)
    requires Inv(b) && Accept(b, c).1 == Rejected(LimitExceeded)
    requires again.notional.Some? && again.notional.value >= c.notional.value
    ensures !Books(After(Accept(b, c).0, between), Submit(again))
  {
    OrdersPersist(Accept(b, c).0, between);
    assert forall k :: k in b.orders ==> b.orders[k].Accepted?;
  }

  // ----- the class

  class PaperOrderManager {
    const limit: real
    const version: int
    var reserved: real
    var orders: map<string, Reply>
    var killSwitch: bool
    var audit: seq<Audit>

    function Abs(): Book
      reads this
    {
      Book(limit, version, reserved, orders, killSwitch, audit)
    }

    constructor (limit: real)
      ensures Abs() == New(limit)
    {
      this.limit, this.version := limit, 1;
      reserved, orders, killSwitch, audit := 0.0, map[], false, [];
    }

    method EngageKillSwitch()
      modifies this
      ensures Abs() == Step(old(Abs()), Engage).0
    {
      killSwitch := true;
      audit := audit + [KillSwitchEngaged];
    }

    method ClearKillSwitch()
      modifies this
      ensures Abs() == Step(old(Abs()), Clear).0
    {
      killSwitch := false;
    }

    method Submit(c: Command) returns (reply: Reply)
      modifies this
      ensures (Abs(), reply) == Accept(old(Abs()), c)
    {
      if killSwitch {
        audit := audit + [OrderDeniedKillSwitch(c.clientRequestId)];
        return Rejected(KillSwitchActive);
      }
      if Key(c).None? {
        return Rejected(IdempotencyKeyRequired);
      }
      var key := Key(c).value;
      if key in orders {
        return orders[key];
      }
      if c.notional.None? || c.notional.value <= 0.0 {
        return Rejected(InvalidNotional);
      }
      var amount := c.notional.value;
      if reserved + amount > limit {
        return Rejected(LimitExceeded);
      }
      reserved := reserved + amount;
      reply := Accepted(c.freshId, key, amount, version);
      orders := orders[key := reply];
    }
  }
}
