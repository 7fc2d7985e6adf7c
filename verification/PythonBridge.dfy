/** The JSON-RPC bridge to the Python subprocess: a request table with one timer per request,
    replies in any order, write failures, and a local fallback for everything that goes wrong. */
module PythonBridge {
  import opened Wrappers

  datatype Json =
    | Null
    | Bool(b: bool)
    | Num(n: real)
    | Str(s: string)
    | Arr(items: seq<Json>)
    | Obj(fields: map<string, Json>)
  {
    /** JavaScript's truth of a parsed JSON value. */
    predicate Truthy() {
      match this
      case Null => false
      case Bool(b) => b
      case Num(n) => n != 0.0
      case Str(s) => s != ""
      case _ => true
    }

    /** The value of a property; a missing one is as falsy as null. */
    function Field(name: string): Json {
      if Obj? && name in fields then fields[name] else Null
    }
  }

  /** The model type `fallbackExecute` lower-cases. */
  function ModelType(params: Json): Json {
    if params.Field("model_type").Truthy() then params.Field("model_type")
    else if params.Field("modelType").Truthy() then params.Field("modelType")
    else Str("garch")
  }

  /** Whether `fallbackExecute` throws: on a property of null, on lower-casing what is not a
      string, or inside the backtest it runs, which is a parameter here. */
  predicate FallbackThrows(rpc: string, params: Json, backtestThrows: bool) {
    match rpc
    case "train_model" => params.Null? || !ModelType(params).Str?
    case "run_backtest" => params.Null? || backtestThrows
    case "monte_carlo" => params.Null?
    case _ => false
  }

  predicate Falsy(v: Json) {
    v == Null || v == Bool(false) || v == Num(0.0) || v == Str("")
  }

  /** When the fallback throws, for every method and all parameters: three methods read a
      property of null, `run_backtest` passes on its backtest's exception, and `train_model`
      lower-cases the first model type that is not falsy. */
  lemma FallbackThrowsIff(rpc: string, params: Json, backtestThrows: bool)
    ensures rpc !in {"train_model", "run_backtest", "monte_carlo"} ==> !FallbackThrows(rpc, params, backtestThrows)
    ensures rpc in {"train_model", "run_backtest", "monte_carlo"} ==> FallbackThrows(rpc, Null, backtestThrows)
    ensures params != Null ==> !FallbackThrows("monte_carlo", params, backtestThrows)
    ensures params != Null ==> (FallbackThrows("run_backtest", params, backtestThrows) <==> backtestThrows)
    ensures params.Obj? ==>
      var f := params.fields;
      var first := "model_type" in f && !Falsy(f["model_type"]);
      var second := "modelType" in f && !Falsy(f["modelType"]);
      FallbackThrows("train_model", params, backtestThrows) <==>
        if first then !f["model_type"].Str? else second && !f["modelType"].Str?
    ensures params != Null && !params.Obj? ==> !FallbackThrows("train_model", params, backtestThrows)
  {
  }

  /** What a call's promise ends with: a reply's result, the fallback run on a method and its
      parameters, or the exception that fallback threw. */
  datatype Outcome = FromPython(result: Json) | Fallback(rpc: string, params: Json) | Rejected

  /** One invocation of `call` and its promise. */
  datatype Call = Call(
    rpc: string, params: Json, throws: bool, reqId: Option<nat>, writeFailed: bool, outcome: Option<Outcome>)
  {
    function OwnFallback(): Outcome {
      Fallback(rpc, params)
    }

    /** The fallback run where its exception reaches the caller. */
    function FallbackOrRejected(): Outcome {
      if throws then Rejected else OwnFallback()
    }
  }

  datatype Message = Message(id: Option<nat>, isError: bool, result: Json) {
    predicate IsReady() {
      result == Str("ready")
    }
  }

  datatype Bridge = Bridge(
    initialized: bool, process: bool, available: bool, ready: bool,
    requestId: nat,
    pending: map<nat, nat>,   // request id to call
    timers: map<nat, nat>,    // armed timeouts, request id to call
    calls: seq<Call>)

  datatype Event =
    | Invoke(rpc: string, params: Json, backtestThrows: bool, spawns: bool, writes: bool)
    | Receive(msg: Message)
    | Expire(id: nat)
    | PingElapsed
    | ProcessExit
    | ProcessError
    | Terminate

  // ----- the transitions

  /** A promise keeps the first value it is resolved with. */
  function Settle(calls: seq<Call>, k: nat, o: Outcome): seq<Call>
    requires k < |calls|
  {
    if calls[k].outcome.Some? then calls else calls[k := calls[k].(outcome := Some(o))]
  }

  function Initialized(b: Bridge, spawns: bool): Bridge {
    if b.initialized then b
    else b.(initialized := true, process := spawns, available := if spawns then b.available else false)
  }

  function Without(m: map<nat, nat>, id: nat): map<nat, nat> {
    map x | x in m && x != id :: m[x]
  }

  /** The fallback run in a handler or a timer: an exception there settles nothing. */
  function SettleWithFallback(calls: seq<Call>, k: nat): seq<Call>
    requires k < |calls|
  {
    if calls[k].throws then calls else Settle(calls, k, calls[k].OwnFallback())
  }

  /** A request under the next id: table entry, timer, and the write. */
  function AfterSend(b: Bridge, rpc: string, params: Json, throws: bool, writes: bool): Bridge {
    var k, id := |b.calls|, b.requestId + 1;
    var sent := b.(requestId := id, pending := b.pending[id := k]);
    var c := Call(rpc, params, throws, Some(id), !writes, None);
    if writes then sent.(timers := b.timers[id := k], calls := b.calls + [c])
    else sent.(calls := b.calls + [c.(outcome := Some(c.FallbackOrRejected()))])
  }

  function AfterInvoke(b0: Bridge, rpc: string, params: Json, throws: bool, spawns: bool, writes: bool): Bridge {
    var b := Initialized(b0, spawns);
    if b.available && b.process && b.ready then AfterSend(b, rpc, params, throws, writes)
    else
      var c := Call(rpc, params, throws, None, false, None);
      b.(calls := b.calls + [c.(outcome := Some(c.FallbackOrRejected()))])
  }

  /** A message with a pending id removes the entry and the timer, then settles the call. */
  function AfterReceive(b: Bridge, msg: Message): Bridge
    requires Inv(b)
  {
    if msg.IsReady() then b.(ready := true, available := true)
    else if msg.id.Some? && msg.id.value in b.pending then
      var id, k := msg.id.value, b.pending[msg.id.value];
      assert EntryOk(b, id);
      b.(pending := Without(b.pending, id), timers := Without(b.timers, id),
         calls := if msg.isError then SettleWithFallback(b.calls, k) else Settle(b.calls, k, FromPython(msg.result)))
    else b
  }

  /** A timer fires only while it is armed. */
  function AfterExpire(b: Bridge, id: nat): Bridge
    requires Inv(b)
  {
    if id !in b.timers then b
    else
      var k := b.timers[id];
      assert TimerOk(b, id);
      b.(pending := Without(b.pending, id), timers := Without(b.timers, id), calls := SettleWithFallback(b.calls, k))
  }

  function Step(b: Bridge, e: Event): Bridge
    requires Inv(b)
  {
    match e
    case Invoke(rpc, params, backtestThrows, spawns, writes) =>
      AfterInvoke(b, rpc, params, FallbackThrows(rpc, params, backtestThrows), spawns, writes)
    case Receive(msg) => AfterReceive(b, msg)
    case Expire(id) => AfterExpire(b, id)
    case PingElapsed => b.(ready := true, available := true)
    case ProcessExit => b.(ready := false)
    case ProcessError => b.(available := false)
    case Terminate => b.(process := false)
  }

  const INITIAL: Bridge := Bridge(false, false, false, false, 0, map[], map[], [])

  // ----- the invariant

  /** An unsettled call has its timer armed, or its fallback throws and it has left the table;
      only an unsettled call has a timer; a fallback is the call's own. */
  ghost predicate CallOk(b: Bridge, k: nat)
    requires k < |b.calls|
  {
    var c := b.calls[k];
    && (c.reqId.Some? ==> 1 <= c.reqId.value <= b.requestId)
    && (c.outcome.None? ==>
         c.reqId.Some? && (c.reqId.value in b.timers || (c.throws && c.reqId.value !in b.pending)))
    && (c.outcome.Some? && !c.outcome.value.FromPython? ==> c.outcome.value == c.FallbackOrRejected())
    && (c.writeFailed ==> c.outcome == Some(c.FallbackOrRejected()))
  }

  ghost predicate IdsDistinct(b: Bridge) {
    forall j, k :: 0 <= j < k < |b.calls| && b.calls[j].reqId.Some? ==> b.calls[j].reqId != b.calls[k].reqId
  }

  /** A table entry belongs to the call that made it; one without a timer was left by a failed write. */
  ghost predicate EntryOk(b: Bridge, id: nat)
    requires id in b.pending
  {
    var k := b.pending[id];
    && k < |b.calls| && b.calls[k].reqId == Some(id)
    && (id in b.timers || b.calls[k].writeFailed)
  }

  ghost predicate TimerOk(b: Bridge, id: nat)
    requires id in b.timers
  {
    && id in b.pending && b.timers[id] == b.pending[id]
    && b.timers[id] < |b.calls| && b.calls[b.timers[id]].outcome.None?
  }

  ghost predicate Inv(b: Bridge) {
    && (forall k: nat :: k < |b.calls| ==> CallOk(b, k))
    && IdsDistinct(b)
    && (forall id :: id in b.pending ==> EntryOk(b, id))
    && (forall id :: id in b.timers ==> TimerOk(b, id))
  }

  lemma NewIdIsFresh(b: Bridge, id: nat)
    requires Inv(b) && id > b.requestId
    ensures id !in b.pending && id !in b.timers
    ensures forall k :: 0 <= k < |b.calls| ==> b.calls[k].reqId != Some(id)
  {
    forall k | 0 <= k < |b.calls| ensures b.calls[k].reqId != Some(id) {
      assert CallOk(b, k);
    }
  }

  /** A new call at the end of the list leaves the facts about the others alone. */
  lemma AppendInv(b: Bridge, b': Bridge, c: Call)
    requires Inv(b) && b'.calls == b.calls + [c] && b.requestId <= b'.requestId
    requires c.reqId.Some? ==> c.reqId.value > b.requestId
    requires CallOk(b', |b.calls|)
    requires forall id :: id in b.pending ==> id in b'.pending && b'.pending[id] == b.pending[id]
    requires forall id :: id in b'.pending && id !in b.pending ==> EntryOk(b', id)
    requires forall id :: id in b.timers ==> id in b'.timers && b'.timers[id] == b.timers[id]
    requires forall id :: id in b'.timers && id !in b.timers ==> TimerOk(b', id)
    ensures Inv(b')
  {
    forall k: nat | k < |b'.calls| ensures CallOk(b', k) {
      if k < |b.calls| { assert CallOk(b, k); }
    }
    forall j, k | 0 <= j < k < |b'.calls| && b'.calls[j].reqId.Some? ensures b'.calls[j].reqId != b'.calls[k].reqId {
      assert CallOk(b, j);
    }
    forall id | id in b'.pending ensures EntryOk(b', id) {
      if id in b.pending { assert EntryOk(b, id); }
    }
    forall id | id in b'.timers ensures TimerOk(b', id) {
      if id in b.timers { assert TimerOk(b, id); }
    }
  }

  lemma SentCallOk(b: Bridge, rpc: string, params: Json, throws: bool, writes: bool)
    ensures var d := AfterSend(b, rpc, params, throws, writes);
      && CallOk(d, |b.calls|) && EntryOk(d, b.requestId + 1) && (writes ==> TimerOk(d, b.requestId + 1))
  {
  }

  lemma SendInv(b: Bridge, rpc: string, params: Json, throws: bool, writes: bool)
    requires Inv(b)
    ensures Inv(AfterSend(b, rpc, params, throws, writes))
  {
    SentCallOk(b, rpc, params, throws, writes);
    NewIdIsFresh(b, b.requestId + 1);
    hide Inv, CallOk, EntryOk, TimerOk, FallbackThrows;
    var b' := AfterSend(b, rpc, params, throws, writes);
    AppendInv(b, b', b'.calls[|b.calls|]);
  }

  lemma InvokeInv(b0: Bridge, rpc: string, params: Json, throws: bool, spawns: bool, writes: bool)
    requires Inv(b0)
    ensures Inv(AfterInvoke(b0, rpc, params, throws, spawns, writes))
  {
    var b := Initialized(b0, spawns);
    FlagsInv(b0, b);
    hide Inv, Initialized, AfterSend;
    if b.available && b.process && b.ready {
      SendInv(b, rpc, params, throws, writes);
    } else {
      var b' := AfterInvoke(b0, rpc, params, throws, spawns, writes);
      AppendInv(b, b', b'.calls[|b.calls|]);
    }
  }

  /** Nothing but call k has changed, and call k only from unsettled to a proper end. */
  ghost predicate OnlyEnded(calls: seq<Call>, calls': seq<Call>, k: nat)
    requires k < |calls|
  {
    var c := calls[k];
    && |calls'| == |calls| && (forall j :: 0 <= j < |calls| && j != k ==> calls'[j] == calls[j])
    && var o := calls'[k].outcome;
       && calls'[k] == c.(outcome := o)
       && (c.outcome.Some? ==> o == c.outcome)
       && (c.outcome.None? ==>
            if o.None? then c.throws
            else o.value.FromPython? || (!c.throws && o.value == c.OwnFallback()))
  }

  lemma EndingIsOnlyEnding(calls: seq<Call>, k: nat)
    requires k < |calls|
    ensures OnlyEnded(calls, SettleWithFallback(calls, k), k)
    ensures forall result :: OnlyEnded(calls, Settle(calls, k, FromPython(result)), k)
  {
  }

  /** The entry and the timer of request `id`, made by call k, are gone. */
  ghost predicate Removes(b: Bridge, b': Bridge, id: nat, k: nat) {
    && k < |b.calls| && b.calls[k].reqId == Some(id) && OnlyEnded(b.calls, b'.calls, k)
    && b' == b.(pending := Without(b.pending, id), timers := Without(b.timers, id), calls := b'.calls)
  }

  lemma RemoveInv(b: Bridge, b': Bridge, id: nat, k: nat)
    requires Inv(b) && Removes(b, b', id, k)
    ensures Inv(b')
  {
    forall j: nat | j < |b'.calls| ensures CallOk(b', j) {
      assert CallOk(b, j);
      assert j != k && b.calls[j].reqId.Some? ==> b.calls[j].reqId != Some(id);
    }
    forall x | x in b'.pending ensures EntryOk(b', x) {
      assert EntryOk(b, x);
    }
    forall x | x in b'.timers ensures TimerOk(b', x) {
      assert TimerOk(b, x) && EntryOk(b, x);
    }
  }

  /** Every step adds a call, removes one request, or leaves calls, entries and timers alone. */
  lemma StepKinds(b: Bridge, e: Event)
    requires Inv(b)
    ensures var d := Step(b, e);
      || e.Invoke?
      || (d.calls == b.calls && d.pending == b.pending && d.timers == b.timers && d.requestId == b.requestId)
      || (e.Receive? && !e.msg.IsReady() && e.msg.id.Some? && e.msg.id.value in b.pending
          && Removes(b, d, e.msg.id.value, b.pending[e.msg.id.value]))
      || (e.Expire? && e.id in b.timers && Removes(b, d, e.id, b.timers[e.id]))
  {
    hide Settle, SettleWithFallback, Without, CallOk, OnlyEnded;
    if e.Receive? && !e.msg.IsReady() && e.msg.id.Some? && e.msg.id.value in b.pending {
      assert EntryOk(b, e.msg.id.value);
      EndingIsOnlyEnding(b.calls, b.pending[e.msg.id.value]);
    } else if e.Expire? && e.id in b.timers {
      assert TimerOk(b, e.id) && EntryOk(b, e.id);
      EndingIsOnlyEnding(b.calls, b.timers[e.id]);
    }
  }

  lemma StepInv(b: Bridge, e: Event)
    requires Inv(b)
    ensures Inv(Step(b, e))
  {
    if e.Invoke? {
      InvokeInv(b, e.rpc, e.params, FallbackThrows(e.rpc, e.params, e.backtestThrows), e.spawns, e.writes);
    } else {
      StepKinds(b, e);
      hide OnlyEnded;
      if id, k :| Removes(b, Step(b, e), id, k) {
        RemoveInv(b, Step(b, e), id, k);
      } else {
        FlagsInv(b, Step(b, e));
      }
    }
  }

  lemma FlagsInv(b: Bridge, b': Bridge)
    requires Inv(b)
    requires b' == b.(initialized := b'.initialized, available := b'.available,
                      ready := b'.ready, process := b'.process)
    ensures Inv(b')
  {
    forall k: nat | k < |b'.calls| ensures CallOk(b', k) {
      assert CallOk(b, k);
    }
    forall x | x in b'.pending ensures EntryOk(b', x) {
      assert EntryOk(b, x);
    }
    forall x | x in b'.timers ensures TimerOk(b', x) {
      assert TimerOk(b, x);
    }
  }

  // ----- every run

  function Run(b: Bridge, events: seq<Event>): Bridge
    requires Inv(b)
    decreases |events|
  {
    if events == [] then b
    else
      StepInv(b, events[0]);
      Run(Step(b, events[0]), events[1..])
  }

  /** Every step either appends one call or settles at most one. */
  lemma StepShape(b: Bridge, e: Event)
    requires Inv(b)
    ensures var calls := Step(b, e).calls;
      || calls == b.calls
      || (e.Invoke? && |calls| == |b.calls| + 1 && calls[..|b.calls|] == b.calls)
      || (e.Receive? && !e.msg.IsReady() && e.msg.id.Some? && e.msg.id.value in b.pending
          && EntryOk(b, e.msg.id.value) && var k := b.pending[e.msg.id.value];
          calls == if e.msg.isError then SettleWithFallback(b.calls, k)
                   else Settle(b.calls, k, FromPython(e.msg.result)))
      || (e.Expire? && e.id in b.timers && TimerOk(b, e.id) && calls == SettleWithFallback(b.calls, b.timers[e.id]))
  {
    hide Settle, SettleWithFallback, Without, CallOk;
  }

  /** One step adds calls only at the end and never changes a settled one. */
  lemma StepKeepsSettled(b: Bridge, e: Event, k: nat)
    requires Inv(b) && k < |b.calls|
    ensures k < |Step(b, e).calls|
    ensures var c, d := b.calls[k], Step(b, e).calls[k];
      && d.(outcome := c.outcome) == c
      && (c.outcome.Some? ==> d == c)
  {
    StepShape(b, e);
    hide Inv, Step;
    assert e.Invoke? && |Step(b, e).calls| == |b.calls| + 1 ==> Step(b, e).calls[..|b.calls|][k] == Step(b, e).calls[k];
  }

  lemma {:induction false} RunInv(b: Bridge, events: seq<Event>)
    requires Inv(b)
    ensures Inv(Run(b, events))
    decreases |events|
  {
    if events != [] {
      StepInv(b, events[0]);
      RunInv(Step(b, events[0]), events[1..]);
    }
  }

  /** Every call settles at most once: what its promise resolved to is final. */
  lemma {:induction false} SettlesAtMostOnce(b: Bridge, events: seq<Event>, k: nat)
    requires Inv(b) && k < |b.calls|
    ensures k < |Run(b, events).calls|
    ensures Run(b, events).calls[k].(outcome := b.calls[k].outcome) == b.calls[k]
    ensures b.calls[k].outcome.Some? ==> Run(b, events).calls[k] == b.calls[k]
    decreases |events|
  {
    if events != [] {
      StepInv(b, events[0]);
      StepKeepsSettled(b, events[0], k);
      hide Step, Inv;
      SettlesAtMostOnce(Step(b, events[0]), events[1..], k);
    }
  }

  /** The message a call is waiting for. */
  predicate Answers(e: Event, id: nat, result: Json) {
    RepliesTo(e, id) && !e.msg.isError && e.msg.result == result
  }

  lemma StepSettlesWithOwn(b: Bridge, e: Event, k: nat)
    requires Inv(b) && k < |Step(b, e).calls|
    requires k < |b.calls| ==> b.calls[k].outcome.None?
    ensures var c := Step(b, e).calls[k];
      c.outcome.Some? && c.outcome.value.FromPython? ==>
        c.reqId.Some? && Answers(e, c.reqId.value, c.outcome.value.result)
  {
    if e.Invoke? {
      NewCallOutcome(b, e, k);
    } else {
      StepShape(b, e);
      hide Inv, Step;
    }
  }

  lemma NewCallOutcome(b: Bridge, e: Event, k: nat)
    requires Inv(b) && e.Invoke? && k < |Step(b, e).calls|
    requires k < |b.calls| ==> b.calls[k].outcome.None?
    ensures var c := Step(b, e).calls[k]; c.outcome.Some? ==> !c.outcome.value.FromPython?
  {
    hide Inv;
  }

  /** A call settles with the reply that carries its own id, or with the fallback for its own
      method and parameters, or with that fallback's exception; and a call that has not settled
      is still in the table, timer armed, unless its own fallback throws. */
  lemma {:induction false} OwnReplyOrOwnFallback(b: Bridge, events: seq<Event>, k: nat)
    requires Inv(b) && k < |Run(b, events).calls|
    requires k < |b.calls| ==> b.calls[k].outcome.None?
    ensures var end := Run(b, events);
      var c := end.calls[k];
      match c.outcome
      case None =>
        && c.reqId.Some?
        && if c.reqId.value in end.pending then c.reqId.value in end.timers else c.throws
      case Some(FromPython(result)) => c.reqId.Some? && exists e :: e in events && Answers(e, c.reqId.value, result)
      case Some(Fallback(rpc, params)) => rpc == c.rpc && params == c.params && !c.throws
      case Some(Rejected) => c.throws
    decreases |events|
  {
    if events == [] {
      assert CallOk(b, k);
      assert b.calls[k].reqId.value in b.timers ==> TimerOk(b, b.calls[k].reqId.value);
    } else {
      var next := Step(b, events[0]);
      StepInv(b, events[0]);
      assert events[0] in events && forall e :: e in events[1..] ==> e in events;
      if k < |next.calls| && next.calls[k].outcome.Some? {
        StepSettlesWithOwn(b, events[0], k);
        SettlesAtMostOnce(next, events[1..], k);
        assert CallOk(next, k);
      } else {
        OwnReplyOrOwnFallback(next, events[1..], k);
      }
    }
  }

  // ----- the fate of a call that waits for its reply

  predicate RepliesTo(e: Event, id: nat) {
    e.Receive? && e.msg.id == Some(id) && !e.msg.IsReady()
  }

  /** A reply with this id, or the expiry of its timer. */
  predicate Concerns(e: Event, id: nat) {
    RepliesTo(e, id) || e == Expire(id)
  }

  function FirstConcerning(events: seq<Event>, id: nat): (first: Option<Event>)
    ensures first.Some? ==> first.value in events && Concerns(first.value, id)
    ensures first.None? ==> forall e :: e in events ==> !Concerns(e, id)
  {
    if events == [] then None
    else if Concerns(events[0], id) then Some(events[0])
    else FirstConcerning(events[1..], id)
  }

  /** Whether the event makes the bridge run the call's fallback. */
  predicate AsksForFallback(e: Event) {
    e.Expire? || (e.Receive? && e.msg.isError)
  }

  /** What the first event that concerns it makes of a waiting call. */
  function Fate(c: Call, first: Option<Event>): Option<Outcome> {
    if first.None? then None
    else if AsksForFallback(first.value) then (if c.throws then None else Some(c.OwnFallback()))
    else if first.value.Receive? then Some(FromPython(first.value.msg.result))
    else None
  }

  ghost predicate Waiting(b: Bridge, k: nat) {
    k < |b.calls| && b.calls[k].outcome.None? && b.calls[k].reqId.Some? && b.calls[k].reqId.value in b.timers
  }

  /** An unsettled call that nothing will settle: neither entry nor timer is left. */
  ghost predicate Stranded(b: Bridge, k: nat) {
    && k < |b.calls| && b.calls[k].outcome.None? && b.calls[k].reqId.Some?
    && b.calls[k].reqId.value !in b.timers && b.calls[k].reqId.value !in b.pending
  }

  lemma IdBelongsToOne(b: Bridge, j: nat, k: nat)
    requires IdsDistinct(b) && j < |b.calls| && k < |b.calls|
    requires b.calls[j].reqId.Some? && b.calls[j].reqId == b.calls[k].reqId
    ensures j == k
  {
  }

  lemma TimerBelongsTo(b: Bridge, k: nat)
    requires Inv(b) && Waiting(b, k)
    ensures var id := b.calls[k].reqId.value; id in b.pending && b.timers[id] == k && b.pending[id] == k
  {
    var id := b.calls[k].reqId.value;
    assert TimerOk(b, id) && EntryOk(b, id);
    IdBelongsToOne(b, b.timers[id], k);
  }

  lemma OtherEventsKeepWaiting(b: Bridge, e: Event, k: nat)
    requires Inv(b) && Waiting(b, k) && !Concerns(e, b.calls[k].reqId.value)
    ensures Waiting(Step(b, e), k) && Step(b, e).calls[k] == b.calls[k]
  {
    var id := b.calls[k].reqId.value;
    if e.Invoke? {
      NewIdIsFresh(b, b.requestId + 1);
      hide Inv;
    } else {
      StepKinds(b, e);
      hide Step, Inv;
    }
  }

  lemma ConcerningEventDecides(b: Bridge, e: Event, k: nat)
    requires Inv(b) && Waiting(b, k) && Concerns(e, b.calls[k].reqId.value)
    ensures var c, d := b.calls[k], Step(b, e);
      && k < |d.calls| && d.calls[k] == c.(outcome := Fate(c, Some(e)))
      && c.reqId.value !in d.timers && c.reqId.value !in d.pending
  {
    TimerBelongsTo(b, k);
  }

  /** No later event reaches a stranded call: ids are never used again. */
  lemma {:induction false} StrandedForever(b: Bridge, events: seq<Event>, k: nat)
    requires Inv(b) && Stranded(b, k)
    ensures Stranded(Run(b, events), k)
    decreases |events|
  {
    if events != [] {
      StepInv(b, events[0]);
      StepKeepsStranded(b, events[0], k);
      hide Inv, Step, Stranded;
      StrandedForever(Step(b, events[0]), events[1..], k);
    }
  }

  lemma StepKeepsStranded(b: Bridge, e: Event, k: nat)
    requires Inv(b) && Stranded(b, k)
    ensures Stranded(Step(b, e), k)
  {
    if e.Invoke? {
      InvokeKeepsStranded(b, e, k);
    } else {
      StepKinds(b, e);
      assert e.Expire? && e.id in b.timers ==> EntryOk(b, e.id) && TimerOk(b, e.id);
      hide Step, Inv;
    }
  }

  lemma InvokeKeepsStranded(b: Bridge, e: Event, k: nat)
    requires Inv(b) && Stranded(b, k) && e.Invoke?
    ensures Stranded(Step(b, e), k)
  {
    assert CallOk(b, k);
    hide Inv, FallbackThrows;
  }

  lemma {:induction false} DecidedIsFinal(b: Bridge, events: seq<Event>, k: nat)
    requires Inv(b) && k < |b.calls| && b.calls[k].reqId.Some?
    requires b.calls[k].reqId.value !in b.timers && b.calls[k].reqId.value !in b.pending
    ensures k < |Run(b, events).calls| && Run(b, events).calls[k] == b.calls[k]
    ensures b.calls[k].reqId.value !in Run(b, events).timers
    decreases |events|
  {
    SettlesAtMostOnce(b, events, k);
    RunInv(b, events);
    if b.calls[k].outcome.None? {
      StrandedForever(b, events, k);
    } else {
      SettledHasNoTimer(Run(b, events), k);
    }
  }

  lemma SettledHasNoTimer(b: Bridge, k: nat)
    requires Inv(b) && k < |b.calls| && b.calls[k].outcome.Some? && b.calls[k].reqId.Some?
    ensures b.calls[k].reqId.value !in b.timers
  {
    var id := b.calls[k].reqId.value;
    assert id in b.timers ==> TimerOk(b, id) && EntryOk(b, id);
  }

  /** The fate of every request, over every run: it waits, timer armed, until the first reply
      with its id or its timeout; that one event alone decides what the promise resolves to. */
  lemma {:induction false} FateOfRequest(b: Bridge, events: seq<Event>, k: nat)
    requires Inv(b) && Waiting(b, k)
    ensures var c, end := b.calls[k], Run(b, events);
      var first := FirstConcerning(events, c.reqId.value);
      && k < |end.calls| && end.calls[k] == c.(outcome := Fate(c, first))
      && (c.reqId.value in end.timers <==> first.None?)
    decreases |events|
  {
    if events != [] {
      StepInv(b, events[0]);
      hide Inv, Step, CallOk;
      if Concerns(events[0], b.calls[k].reqId.value) {
        ConcerningEventDecides(b, events[0], k);
        DecidedIsFinal(Step(b, events[0]), events[1..], k);
      } else {
        OtherEventsKeepWaiting(b, events[0], k);
        FateOfRequest(Step(b, events[0]), events[1..], k);
      }
    }
  }

  /** A reply whose result is the word "ready" is taken for the start-up notice: its call goes on
      waiting. */
  lemma ReadyReplyIsIgnored(b: Bridge, msg: Message, k: nat)
    requires Inv(b) && Waiting(b, k) && msg.id == b.calls[k].reqId && msg.IsReady()
    ensures Waiting(Step(b, Receive(msg)), k) && Step(b, Receive(msg)).calls[k] == b.calls[k]
  {
    OtherEventsKeepWaiting(b, Receive(msg), k);
  }

  /** A request is left unsettled without a timer exactly when the first event that concerned it
      asked for a fallback, and that fallback throws. */
  lemma UnsettledWithoutTimerIff(b: Bridge, events: seq<Event>, k: nat)
    requires Inv(b) && Waiting(b, k)
    ensures var c, end := b.calls[k], Run(b, events);
      var first := FirstConcerning(events, c.reqId.value);
      && k < |end.calls|
      && (end.calls[k].outcome.None? && c.reqId.value !in end.timers
          <==> first.Some? && AsksForFallback(first.value) && c.throws)
  {
    FateOfRequest(b, events, k);
  }

  predicate Ready(b: Bridge) {
    b.initialized && b.process && b.available && b.ready
  }

  /** A model type that is neither a string nor falsy, say 5, reaches Python, whose answer is an
      error; then the fallback throws as well, and the request is never answered. */
  lemma NumericModelTypeStrands(b: Bridge, modelType: real, later: seq<Event>)
    requires Inv(b) && Ready(b) && modelType != 0.0
    ensures var train := Invoke("train_model", Obj(map["model_type" := Num(modelType)]), false, true, true);
      Stranded(Run(b, [train] + ([Receive(Message(Some(b.requestId + 1), true, Null))] + later)), |b.calls|)
  {
    var params := Obj(map["model_type" := Num(modelType)]);
    var train := Invoke("train_model", params, false, true, true);
    var answer := Receive(Message(Some(b.requestId + 1), true, Null));
    assert params.Field("model_type") == Num(modelType) && FallbackThrows("train_model", params, false);
    StepInv(b, train);
    var c := Step(b, train);
    assert Waiting(c, |b.calls|) && c.calls[|b.calls|].throws;
    ConcerningEventDecides(c, answer, |b.calls|);
    StepInv(c, answer);
    assert Stranded(Step(c, answer), |b.calls|);
    StrandedForever(Step(c, answer), later, |b.calls|);
    hide Step, Inv, FallbackThrows, Stranded;
    assert ([train] + ([answer] + later))[1..] == [answer] + later && ([answer] + later)[1..] == later;
  }

  /** The bridge of a started process becomes ready: the first call starts it, the ping does the rest. */
  lemma BridgeBecomesReady(first: Event)
    requires first.Invoke? && first.spawns
    ensures Inv(INITIAL) && Ready(Run(INITIAL, [first, PingElapsed]))
  {
    assert [first, PingElapsed][1..] == [PingElapsed] && [PingElapsed][1..] == [];
    StepInv(INITIAL, first);
    StepInv(Step(INITIAL, first), PingElapsed);
    assert Run(Step(INITIAL, first), [PingElapsed]) == Step(Step(INITIAL, first), PingElapsed);
  }

  /** A reply to a call that has settled changes no call, and nothing at all unless that call's
      write had failed: then it clears the entry the failure left behind. */
  lemma LateReplyHasNoEffect(b: Bridge, msg: Message)
    requires Inv(b) && !msg.IsReady() && msg.id.Some? && msg.id.value !in b.timers
    ensures Step(b, Receive(msg)).calls == b.calls && Step(b, Receive(msg)).timers == b.timers
    ensures Step(b, Receive(msg)) != b ==>
      msg.id.value in b.pending && EntryOk(b, msg.id.value) && b.calls[b.pending[msg.id.value]].writeFailed
  {
    if msg.id.value in b.pending {
      assert EntryOk(b, msg.id.value);
      assert CallOk(b, b.pending[msg.id.value]);
    }
    assert Without(b.timers, msg.id.value) == b.timers;
  }

  // ----- the entries failed writes leave behind

  /** An entry nobody waits for: its call has settled and no timer will clear it. */
  predicate Leaked(b: Bridge, id: nat) {
    id in b.pending && id !in b.timers
  }

  /** The event is a call that gets as far as writing its request, under this id, and fails. */
  predicate FailsToWrite(b: Bridge, e: Event, id: nat) {
    && e.Invoke? && !e.writes && id == b.requestId + 1
    && var c := Initialized(b, e.spawns); c.available && c.process && c.ready
  }

  /** A failed write settles its call at once, and its entry stays. */
  lemma FailedWriteSettlesAndLeaks(b: Bridge, e: Event)
    requires Inv(b) && e.Invoke?
    ensures Ready(b) && !e.writes ==> FailsToWrite(b, e, b.requestId + 1)
    ensures FailsToWrite(b, e, b.requestId + 1) ==>
      var d := Step(b, e);
      && Leaked(d, b.requestId + 1) && d.pending[b.requestId + 1] == |b.calls|
      && |d.calls| == |b.calls| + 1 && d.calls[|b.calls|].outcome.Some?
  {
    NewIdIsFresh(b, b.requestId + 1);
    hide Inv, FallbackThrows;
  }

  lemma LeakStays(b: Bridge, e: Event, id: nat)
    requires Inv(b) && Leaked(b, id) && !RepliesTo(e, id)
    ensures Leaked(Step(b, e), id)
  {
    assert EntryOk(b, id);
    assert CallOk(b, b.pending[id]);
  }

  lemma LeakedIdIsUsed(b: Bridge, id: nat)
    requires Inv(b) && id in b.pending
    ensures id <= b.requestId
  {
    assert EntryOk(b, id);
    assert CallOk(b, b.pending[id]);
  }

  lemma ReplyClearsEntry(b: Bridge, e: Event, id: nat)
    requires Inv(b) && RepliesTo(e, id)
    ensures id !in Step(b, e).pending
    ensures Step(b, e).requestId == b.requestId
  {
    hide Inv, Settle, SettleWithFallback;
  }

  lemma NoEntryComesBack(b: Bridge, e: Event, id: nat)
    requires Inv(b) && id !in b.pending && id <= b.requestId
    ensures id !in Step(b, e).pending && id <= Step(b, e).requestId
  {
    hide Inv, Settle, SettleWithFallback, FallbackThrows;
  }

  lemma {:induction false} GoneForGood(b: Bridge, events: seq<Event>, id: nat)
    requires Inv(b) && id !in b.pending && id <= b.requestId
    ensures id !in Run(b, events).pending
    decreases |events|
  {
    if events != [] {
      StepInv(b, events[0]);
      NoEntryComesBack(b, events[0], id);
      hide Inv, Step;
      GoneForGood(Step(b, events[0]), events[1..], id);
    }
  }

  /** The entry a failed write leaves is in the table exactly until a reply with its id arrives. */
  lemma {:induction false} FailedWriteLeaksIff(b: Bridge, events: seq<Event>, id: nat)
    requires Inv(b) && Leaked(b, id)
    ensures id in Run(b, events).pending <==> forall e :: e in events ==> !RepliesTo(e, id)
    ensures id in Run(b, events).pending ==> Leaked(Run(b, events), id)
    decreases |events|
  {
    if events != [] {
      StepInv(b, events[0]);
      LeakedIdIsUsed(b, id);
      assert forall e :: e in events <==> e == events[0] || e in events[1..];
      hide Inv, Step;
      if RepliesTo(events[0], id) {
        ReplyClearsEntry(b, events[0], id);
        GoneForGood(Step(b, events[0]), events[1..], id);
      } else {
        LeakStays(b, events[0], id);
        FailedWriteLeaksIff(Step(b, events[0]), events[1..], id);
      }
    }
  }

  lemma OnlyFailedWritesLeak(b: Bridge, e: Event, id: nat)
    requires Inv(b) && !Leaked(b, id) && Leaked(Step(b, e), id)
    ensures FailsToWrite(b, e, id)
  {
    if !e.Invoke? {
      StepKinds(b, e);
      hide Step, Inv, OnlyEnded;
    } else {
      hide Inv, FallbackThrows;
    }
  }

  lemma {:induction false} RunAppend(b: Bridge, events: seq<Event>, e: Event)
    requires Inv(b)
    ensures Inv(Run(b, events)) && Run(b, events + [e]) == Step(Run(b, events), e)
    decreases |events|
  {
    RunInv(b, events);
    hide Step, Inv;
    if events == [] {
      assert [] + [e] == [e] && [e][1..] == [];
      StepInv(b, e);
    } else {
      assert (events + [e])[1..] == events[1..] + [e];
      StepInv(b, events[0]);
      RunAppend(Step(b, events[0]), events[1..], e);
    }
  }

  /** At position j of a run a request with this id could not be written, and no reply with the
      id has come since. */
  ghost predicate FailedAt(b: Bridge, events: seq<Event>, j: nat, id: nat)
    requires Inv(b) && j < |events|
  {
    && FailsToWrite(Run(b, events[..j]), events[j], id)
    && forall e :: e in events[j + 1..] ==> !RepliesTo(e, id)
  }

  lemma FailedAtAppend(b: Bridge, events: seq<Event>, e: Event, j: nat, id: nat)
    requires Inv(b) && j < |events|
    ensures FailedAt(b, events + [e], j, id) <==> FailedAt(b, events, j, id) && !RepliesTo(e, id)
  {
    hide Inv, Step, FailsToWrite;
    assert (events + [e])[..j] == events[..j] && (events + [e])[j + 1..] == events[j + 1..] + [e];
  }

  ghost predicate LeftByFailedWrite(b: Bridge, events: seq<Event>, id: nat)
    requires Inv(b)
  {
    exists j: nat :: j < |events| && FailedAt(b, events, j, id)
  }

  /** The entries nobody waits for, in every run: exactly those of the requests that could not be
      written and whose id has not been answered since. */
  lemma {:induction false} LeakedIff(b: Bridge, events: seq<Event>, id: nat)
    requires Inv(b) && !Leaked(b, id)
    ensures Leaked(Run(b, events), id) <==> LeftByFailedWrite(b, events, id)
    decreases |events|
  {
    if events != [] {
      var n := |events| - 1;
      var front, e := events[..n], events[n];
      assert events == front + [e];
      RunAppend(b, front, e);
      LeakedIff(b, front, id);
      var c := Run(b, front);
      hide Inv, Step, Run, FailsToWrite, Leaked, FailedAt;
      LeakedStepIff(c, e, id);
      forall j: nat | j < n ensures FailedAt(b, events, j, id) <==> FailedAt(b, front, j, id) && !RepliesTo(e, id) {
        FailedAtAppend(b, front, e, j, id);
      }
      FailedAtLast(b, front, e, id);
      if FailsToWrite(c, e, id) {
        assert FailedAt(b, events, n, id);
      }
    }
  }

  lemma LeakedStepIff(b: Bridge, e: Event, id: nat)
    requires Inv(b)
    ensures Leaked(Step(b, e), id) <==> FailsToWrite(b, e, id) || (Leaked(b, id) && !RepliesTo(e, id))
  {
    if Leaked(b, id) {
      if RepliesTo(e, id) {
        ReplyClearsEntry(b, e, id);
      } else {
        LeakStays(b, e, id);
      }
    } else if Leaked(Step(b, e), id) {
      OnlyFailedWritesLeak(b, e, id);
    }
    if e.Invoke? {
      FailedWriteSettlesAndLeaks(b, e);
    }
  }

  lemma FailedAtLast(b: Bridge, front: seq<Event>, e: Event, id: nat)
    requires Inv(b)
    ensures FailedAt(b, front + [e], |front|, id) <==> FailsToWrite(Run(b, front), e, id)
  {
    hide Inv, Step, FailsToWrite;
    assert (front + [e])[..|front|] == front && (front + [e])[|front| + 1..] == [];
  }

  /** Once no timer is armed, a call that has not settled is one whose fallback threw, and what
      is left in the table are exactly the unanswered entries of failed writes. */
  lemma QuiescentBridge(events: seq<Event>)
    ensures Inv(INITIAL)
    ensures var b := Run(INITIAL, events);
      b.timers == map[] ==>
        && (forall k: nat :: k < |b.calls| && b.calls[k].outcome.None? ==> b.calls[k].throws && Stranded(b, k))
        && (forall id :: id in b.pending <==> LeftByFailedWrite(INITIAL, events, id))
  {
    RunInv(INITIAL, events);
    var b := Run(INITIAL, events);
    forall k: nat | k < |b.calls| && b.calls[k].outcome.None? && b.timers == map[]
      ensures b.calls[k].throws && Stranded(b, k)
    {
      assert CallOk(b, k);
    }
    forall id | b.timers == map[] ensures id in b.pending <==> LeftByFailedWrite(INITIAL, events, id) {
      LeakedIff(INITIAL, events, id);
    }
  }

  // ----- calls and invocations

  function Invocations(events: seq<Event>): (r: seq<Event>)
    ensures forall e :: e in r ==> e.Invoke?
  {
    if events == [] then []
    else (if events[0].Invoke? then [events[0]] else []) + Invocations(events[1..])
  }

  /** The call was made by this event, with its method, its parameters and its fallback. */
  predicate MadeBy(c: Call, e: Event)
    requires e.Invoke?
  {
    c.rpc == e.rpc && c.params == e.params && c.throws == FallbackThrows(e.rpc, e.params, e.backtestThrows)
  }

  lemma InvokeMakesItsCall(b: Bridge, e: Event)
    requires Inv(b)
    ensures |Step(b, e).calls| == |b.calls| + (if e.Invoke? then 1 else 0)
    ensures e.Invoke? ==> MadeBy(Step(b, e).calls[|b.calls|], e)
  {
    if !e.Invoke? {
      StepKinds(b, e);
    }
    hide Inv, FallbackThrows, CallOk, Settle, SettleWithFallback;
  }

  /** The promises of a run are those of its invocations, in order. */
  lemma {:induction false} CallsAreInvocations(b: Bridge, events: seq<Event>)
    requires Inv(b)
    ensures |Run(b, events).calls| == |b.calls| + |Invocations(events)|
    ensures forall i :: 0 <= i < |Invocations(events)| ==>
      MadeBy(Run(b, events).calls[|b.calls| + i], Invocations(events)[i])
    decreases |events|
  {
    if events != [] {
      var next, rest := Step(b, events[0]), Invocations(events[1..]);
      StepInv(b, events[0]);
      InvokeMakesItsCall(b, events[0]);
      hide Inv, Step, FallbackThrows;
      CallsAreInvocations(next, events[1..]);
      if events[0].Invoke? {
        SettlesAtMostOnce(next, events[1..], |b.calls|);
        assert Invocations(events) == [events[0]] + rest;
        forall i | 0 <= i <= |rest|
          ensures MadeBy(Run(b, events).calls[|b.calls| + i], Invocations(events)[i])
        {
          if i > 0 {
            assert Invocations(events)[i] == rest[i - 1];
            assert MadeBy(Run(next, events[1..]).calls[|next.calls| + (i - 1)], rest[i - 1]);
          }
        }
      }
    }
  }

  // ----- calls while Python cannot be reached

  /** What makes the bridge believe in Python (again): the start-up notice, or the ping timer. */
  predicate Enables(e: Event) {
    e.PingElapsed? || (e.Receive? && e.msg.IsReady())
  }

  /** One of the two flags is down. */
  predicate Down(b: Bridge) {
    !b.ready || !b.available
  }

  /** There is no process and there will be none: the bridge is initialised only once. */
  predicate Terminated(b: Bridge) {
    b.initialized && !b.process
  }

  /** Nothing was sent, and every new call has settled with its own fallback. */
  ghost predicate OnlyFallbacks(b: Bridge, end: Bridge) {
    && end.requestId == b.requestId && end.pending.Keys <= b.pending.Keys && end.timers.Keys <= b.timers.Keys
    && |end.calls| >= |b.calls|
    && forall k :: |b.calls| <= k < |end.calls| ==>
         var c := end.calls[k];
         c.reqId.None? && c.outcome == Some(if c.throws then Rejected else Fallback(c.rpc, c.params))
  }

  lemma UnreachableStep(b: Bridge, e: Event)
    requires Inv(b) && (Terminated(b) || (Down(b) && !Enables(e)))
    ensures OnlyFallbacks(b, Step(b, e))
    ensures Terminated(b) ==> Terminated(Step(b, e))
    ensures Down(b) && !Enables(e) ==> Down(Step(b, e))
  {
    if !e.Invoke? {
      StepKinds(b, e);
    }
    hide Inv, FallbackThrows, CallOk, Settle, SettleWithFallback;
  }

  /** While a flag is down and nothing sets it again, or for ever once there is no process, no
      request is sent: every call settles at once, with its own fallback. */
  lemma {:induction false} UnreachableMeansFallback(b: Bridge, events: seq<Event>)
    requires Inv(b)
    requires Terminated(b) || (Down(b) && forall e :: e in events ==> !Enables(e))
    ensures OnlyFallbacks(b, Run(b, events))
    decreases |events|
  {
    if events != [] {
      var next := Step(b, events[0]);
      StepInv(b, events[0]);
      UnreachableStep(b, events[0]);
      hide Inv, Step, Enables;
      UnreachableMeansFallback(next, events[1..]);
      NewSettledStay(next, events[1..]);
    }
  }

  lemma NewSettledStay(b: Bridge, events: seq<Event>)
    requires Inv(b)
    ensures |b.calls| <= |Run(b, events).calls|
    ensures forall k :: 0 <= k < |b.calls| && b.calls[k].outcome.Some? ==> Run(b, events).calls[k] == b.calls[k]
  {
    RunKeepsCount(b, events);
    forall k | 0 <= k < |b.calls| && b.calls[k].outcome.Some?
      ensures Run(b, events).calls[k] == b.calls[k]
    {
      SettlesAtMostOnce(b, events, k);
    }
  }

  lemma RunKeepsCount(b: Bridge, events: seq<Event>)
    requires Inv(b)
    ensures |b.calls| <= |Run(b, events).calls|
  {
    if |b.calls| > 0 {
      SettlesAtMostOnce(b, events, |b.calls| - 1);
    }
  }

  /** After the process exits or fails, until a start-up notice or the ping. */
  lemma CallsFallBackAfterExit(b: Bridge, down: Event, events: seq<Event>)
    requires Inv(b) && (down.ProcessExit? || down.ProcessError?)
    requires forall e :: e in events ==> !Enables(e)
    ensures Inv(Step(b, down)) && OnlyFallbacks(b, Run(Step(b, down), events))
  {
    StepInv(b, down);
    UnreachableMeansFallback(Step(b, down), events);
    NewSettledStay(Step(b, down), events);
  }

  /** After `terminate` nothing brings Python back, neither a late notice nor the ping. */
  lemma CallsFallBackAfterTerminate(b: Bridge, events: seq<Event>)
    requires Inv(b) && b.initialized
    ensures Inv(Step(b, Terminate)) && OnlyFallbacks(b, Run(Step(b, Terminate), events))
  {
    StepInv(b, Terminate);
    UnreachableMeansFallback(Step(b, Terminate), events);
  }

  /** And the other way round: with a process, either enabling event lets the next call through;
      it gets the next id and waits with an armed timer. */
  lemma EnabledBridgeSends(b: Bridge, up: Event, e: Event)
    requires Inv(b) && b.initialized && b.process && Enables(up) && e.Invoke? && e.writes
    ensures Inv(Step(b, up)) && Waiting(Step(Step(b, up), e), |b.calls|)
    ensures Step(Step(b, up), e).calls[|b.calls|].reqId == Some(b.requestId + 1)
  {
    StepInv(b, up);
    hide Inv, FallbackThrows;
  }

  // ----- the class

  class PythonBridge {
    var initialized: bool
    var process: bool
    var isPythonAvailable: bool
    var ready: bool
    var requestId: nat
    var pendingRequests: map<nat, nat>
    var timers: map<nat, nat>
    var calls: seq<Call>

    function Abs(): Bridge
      reads this
    {
      Bridge(initialized, process, isPythonAvailable, ready, requestId, pendingRequests, timers, calls)
    }

    constructor ()
      ensures Abs() == INITIAL && Inv(Abs())
    {
      initialized, process, isPythonAvailable, ready, requestId := false, false, false, false, 0;
      pendingRequests, timers, calls := map[], map[], [];
    }

    method Initialize(spawns: bool)
      modifies this
      ensures Abs() == Initialized(old(Abs()), spawns)
    {
      if initialized {
        return;
      }
      initialized := true;
      process := spawns;
      if !spawns {
        isPythonAvailable := false;
      }
    }

    /** Resolve the promise of call k; later resolutions of the same promise are ignored. */
    method Resolve(k: nat, o: Outcome)
      requires k < |calls|
      modifies this`calls
      ensures calls == Settle(old(calls), k, o)
    {
      if calls[k].outcome.None? {
        calls := calls[k := calls[k].(outcome := Some(o))];
      }
    }

    /** The body of the promise: `writes` says whether the pipe accepts the request. */
    method Send(rpc: string, params: Json, throws: bool, writes: bool)
      requires requestId + 1 !in timers
      modifies this
      ensures Abs() == AfterSend(old(Abs()), rpc, params, throws, writes)
    {
      var k := |calls|;
      requestId := requestId + 1;
      var id := requestId;
      timers := timers[id := k];
      pendingRequests := pendingRequests[id := k];
      calls := calls + [Call(rpc, params, throws, Some(id), !writes, None)];
      if !writes {
        timers := Without(timers, id);
        Resolve(k, calls[k].FallbackOrRejected());
        assert timers == old(timers);
      }
    }

    /** `call` up to its first suspension. */
    method Invoke(rpc: string, params: Json, backtestThrows: bool, spawns: bool, writes: bool)
      requires Inv(Abs())
      modifies this
      ensures Abs() == AfterInvoke(old(Abs()), rpc, params, FallbackThrows(rpc, params, backtestThrows), spawns, writes)
    {
      NewIdIsFresh(Abs(), requestId + 1);
      hide Inv, AfterSend, FallbackThrows;
      var throws := FallbackThrows(rpc, params, backtestThrows);
      Initialize(spawns);
      if isPythonAvailable && process && ready {
        Send(rpc, params, throws, writes);
      } else {
        var c := Call(rpc, params, throws, None, false, None);
        calls := calls + [c.(outcome := Some(c.FallbackOrRejected()))];
      }
    }

    /** The fallback of call k in a handler or a timer: an exception leaves the promise as it is. */
    method ResolveWithFallback(k: nat)
      requires k < |calls|
      modifies this`calls
      ensures calls == SettleWithFallback(old(calls), k)
    {
      if !calls[k].throws {
        Resolve(k, calls[k].OwnFallback());
      }
    }

    method HandleMessage(msg: Message)
      requires Inv(Abs())
      modifies this
      ensures Abs() == AfterReceive(old(Abs()), msg)
    {
      if msg.IsReady() {
        ready, isPythonAvailable := true, true;
        return;
      }
      if msg.id.Some? && msg.id.value in pendingRequests {
        var id := msg.id.value;
        var k := pendingRequests[id];
        assert EntryOk(Abs(), id);
        pendingRequests := Without(pendingRequests, id);
        timers := Without(timers, id);
        if msg.isError {
          ResolveWithFallback(k);
        } else {
          Resolve(k, FromPython(msg.result));
        }
      }
    }

    method OnTimeout(id: nat)
      requires Inv(Abs())
      modifies this
      ensures Abs() == AfterExpire(old(Abs()), id)
    {
      if id in timers {
        var k := timers[id];
        assert TimerOk(Abs(), id);
        pendingRequests := Without(pendingRequests, id);
        timers := Without(timers, id);
        ResolveWithFallback(k);
      }
    }
  }
}
