/** The event-sourced read-model projector: one transaction per event, events taken in
    sequence order, and a checkpoint row written in the same transaction as the views. */
module LedgerProjector {
  import opened RealFacts
  import opened Wrappers

  datatype Kind = CashReserved | CashReleased | FillReceived | OrderAccepted | Unsupported

  /** An event with its alternative field names already resolved; None is a missing key. */
  datatype Event = Event(
    seqNo: int,
    kind: Kind,
    entity: Option<string>,
    instrument: Option<string>,
    amount: real,
    quantity: real,
    price: Option<real>)

  datatype Balance = Balance(available: real, reserved: real, lastSeq: int)
  datatype Position = Position(quantity: real, averagePrice: Option<real>, lastSeq: int)

  datatype Views = Views(
    balances: map<string, Balance>,
    positions: map<(string, string), Position>,
    checkpoints: map<string, int>)

  const EMPTY: Views := Views(map[], map[], map[])

  datatype Violation = NotNull

  // ----- the SQL statements

  /** The statement an event's type selects; a missing key violates NOT NULL on insert. */
  function ApplyToViews(v: Views, e: Event): Result<Views, Violation> {
    match e.kind
    case CashReserved =>
      if e.entity.None? then Err(NotNull) else
      var id := e.entity.value;
      var row := if id in v.balances
        then v.balances[id].(reserved := v.balances[id].reserved + e.amount, lastSeq := e.seqNo)
        else Balance(0.0, e.amount, e.seqNo);
      Ok(v.(balances := v.balances[id := row]))
    case CashReleased =>
      if e.entity.None? || e.entity.value !in v.balances then Ok(v) else
      var id := e.entity.value;
      var row := v.balances[id].(reserved := v.balances[id].reserved - e.amount, lastSeq := e.seqNo);
      Ok(v.(balances := v.balances[id := row]))
    case FillReceived =>
      if e.entity.None? || e.instrument.None? then Err(NotNull) else
      var key := (e.entity.value, e.instrument.value);
      var row := if key in v.positions
        then v.positions[key].(quantity := v.positions[key].quantity + e.quantity, lastSeq := e.seqNo)
        else Position(e.quantity, e.price, e.seqNo);
      Ok(v.(positions := v.positions[key := row]))
    case OrderAccepted =>
      if e.entity.None? then Err(NotNull) else
      var id := e.entity.value;
      var row := if id in v.balances then v.balances[id].(lastSeq := e.seqNo) else Balance(0.0, 0.0, e.seqNo);
      Ok(v.(balances := v.balances[id := row]))
    case Unsupported => Ok(v)
  }

  /** The checkpoint upsert with GREATEST. */
  function AdvanceCheckpoint(v: Views, name: string, n: int): Views {
    var cp := if name in v.checkpoints && v.checkpoints[name] > n then v.checkpoints[name] else n;
    v.(checkpoints := v.checkpoints[name := cp])
  }

  function Project(v: Views, e: Event, name: string): Result<Views, Violation> {
    var r := ApplyToViews(v, e);
    if r.Err? then r else Ok(AdvanceCheckpoint(r.value, name, e.seqNo))
  }

  /** The views after exactly these events, or the first violation. */
  function ProjectAll(v: Views, events: seq<Event>, name: string): Result<Views, Violation>
    decreases |events|
  {
    if events == [] then Ok(v)
    else
      var r := Project(v, events[0], name);
      if r.Err? then r else ProjectAll(r.value, events[1..], name)
  }

  // ----- crashes

  /** Where the connection fails during one transaction. A failure while committing may
      arrive before or after the server made the transaction durable. */
  datatype Fault = NoFault | AtBegin | AtStatement | AtCheckpoint | AtCommit(durable: bool)

  /** The durable views after one transaction, and whether the caller saw it succeed. */
  function Attempt(v: Views, e: Event, name: string, fault: Fault): (Views, bool) {
    var r := Project(v, e, name);
    if r.Err? then (v, false)
    else if fault.NoFault? then (r.value, true)
    else if fault == AtCommit(true) then (r.value, false)
    else (v, false)
  }

  datatype Outcome = Outcome(views: Views, applied: seq<int>, ok: bool)

  /** The loop over sorted events: it stops at the first one that throws. */
  function RunSorted(v: Views, events: seq<Event>, name: string, faults: seq<Fault>): Outcome
    decreases |events|
  {
    if events == [] then Outcome(v, [], true)
    else
      var (w, ok) := Attempt(v, events[0], name, if faults == [] then NoFault else faults[0]);
      if !ok then Outcome(w, [], false)
      else
        var rest := RunSorted(w, events[1..], name, if faults == [] then [] else faults[1..]);
        rest.(applied := [events[0].seqNo] + rest.applied)
  }

  // ----- the stable sort on sequence numbers

  function Insert(e: Event, s: seq<Event>): (r: seq<Event>)
    ensures multiset(r) == multiset{e} + multiset(s)
    ensures forall x :: x in r <==> x == e || x in s
  {
    if s == [] then [e]
    else if e.seqNo <= s[0].seqNo then
      assert [s[0]] + s[1..] == s;
      [e] + s
    else
      assert [s[0]] + s[1..] == s;
      [s[0]] + Insert(e, s[1..])
  }

  function SortBySeq(s: seq<Event>): (r: seq<Event>)
    ensures multiset(r) == multiset(s)
    ensures forall x :: x in r <==> x in s
  {
    if s == [] then []
    else
      assert [s[0]] + s[1..] == s;
      Insert(s[0], SortBySeq(s[1..]))
  }

  ghost predicate Ordered(s: seq<Event>) {
    forall i, j :: 0 <= i < j < |s| ==> s[i].seqNo <= s[j].seqNo
  }

  ghost predicate StrictlyOrdered(s: seq<Event>) {
    forall i, j :: 0 <= i < j < |s| ==> s[i].seqNo < s[j].seqNo
  }

  ghost predicate DistinctSeqs(s: seq<Event>) {
    forall i, j :: 0 <= i < j < |s| ==> s[i].seqNo != s[j].seqNo
  }

  function WithSeq(s: seq<Event>, n: int): seq<Event> {
    if s == [] then [] else (if s[0].seqNo == n then [s[0]] else []) + WithSeq(s[1..], n)
  }

  lemma {:induction false} InsertOrdered(e: Event, s: seq<Event>)
    requires Ordered(s)
    ensures Ordered(Insert(e, s))
  {
    if s != [] && e.seqNo > s[0].seqNo {
      InsertOrdered(e, s[1..]);
      var r := Insert(e, s[1..]);
      forall k | 0 <= k < |r| ensures s[0].seqNo <= r[k].seqNo {
        assert r[k] in r;
      }
    }
  }

  lemma WithSeqCons(e: Event, s: seq<Event>, n: int)
    ensures WithSeq([e] + s, n) == (if e.seqNo == n then [e] else []) + WithSeq(s, n)
  {
    assert ([e] + s)[1..] == s;
  }

  lemma {:induction false} InsertStable(e: Event, s: seq<Event>, n: int)
    ensures WithSeq(Insert(e, s), n) == (if e.seqNo == n then [e] else []) + WithSeq(s, n)
  {
    hide WithSeq;
    WithSeqCons(e, s, n);
    if s == [] {
      assert [e] + [] == [e];
    } else if e.seqNo > s[0].seqNo {
      var r := Insert(e, s[1..]);
      assert Insert(e, s) == [s[0]] + r && s == [s[0]] + s[1..];
      hide Insert;
      InsertStable(e, s[1..], n);
      WithSeqCons(s[0], r, n);
      WithSeqCons(s[0], s[1..], n);
      OneOfTwoIsEmpty(if s[0].seqNo == n then [s[0]] else [], if e.seqNo == n then [e] else [], WithSeq(s[1..], n));
    }
  }

  lemma OneOfTwoIsEmpty(a: seq<Event>, b: seq<Event>, rest: seq<Event>)
    requires a == [] || b == []
    ensures a + (b + rest) == b + (a + rest)
  {
    assert [] + rest == rest && [] + (a + rest) == a + rest && [] + (b + rest) == b + rest;
  }

  /** The sort orders by sequence number and keeps arrival order among equals. */
  lemma {:induction false} SortIsStableSort(s: seq<Event>)
    ensures Ordered(SortBySeq(s))
    ensures forall n :: WithSeq(SortBySeq(s), n) == WithSeq(s, n)
  {
    if s != [] {
      SortIsStableSort(s[1..]);
      InsertOrdered(s[0], SortBySeq(s[1..]));
      forall n ensures WithSeq(SortBySeq(s), n) == WithSeq(s, n) {
        InsertStable(s[0], SortBySeq(s[1..]), n);
      }
    }
  }

  lemma MultisetOfTail(s: seq<Event>)
    requires s != []
    ensures multiset(s[1..]) == multiset(s) - multiset{s[0]}
  {
    assert s == [s[0]] + s[1..];
  }

  lemma HeadsAgree(s: seq<Event>, t: seq<Event>)
    requires StrictlyOrdered(s) && Ordered(t) && multiset(s) == multiset(t) && s != [] && t != []
    ensures s[0] == t[0]
  {
    assert s[0] in multiset(t) && t[0] in multiset(s);
    var i :| 0 <= i < |t| && t[i] == s[0];
    var j :| 0 <= j < |s| && s[j] == t[0];
    assert i > 0 ==> t[0].seqNo <= t[i].seqNo;
    assert j > 0 ==> s[0].seqNo < s[j].seqNo;
  }

  /** A strictly ordered sequence is the only ordered arrangement of its elements. */
  lemma {:induction false} StrictOrderIsUnique(s: seq<Event>, t: seq<Event>)
    requires StrictlyOrdered(s) && Ordered(t) && multiset(s) == multiset(t)
    ensures s == t
  {
    assert |s| == |multiset(s)| == |multiset(t)| == |t|;
    if s != [] {
      HeadsAgree(s, t);
      MultisetOfTail(s);
      MultisetOfTail(t);
      StrictOrderIsUnique(s[1..], t[1..]);
      assert s == [s[0]] + s[1..] && t == [t[0]] + t[1..];
    }
  }

  lemma DistinctSortsStrictly(s: seq<Event>)
    requires DistinctSeqs(s)
    ensures StrictlyOrdered(SortBySeq(s))
  {
    SortIsStableSort(s);
    var r := SortBySeq(s);
    forall i, j | 0 <= i < j < |r| ensures r[i].seqNo != r[j].seqNo {
      if r[i].seqNo == r[j].seqNo {
        WithSeqCounts(r, i, j);
        WithSeqAtMostOne(s, r[i].seqNo);
      }
    }
  }

  lemma {:induction false} WithSeqCounts(s: seq<Event>, i: nat, j: nat)
    requires i < j < |s| && s[i].seqNo == s[j].seqNo
    ensures |WithSeq(s, s[i].seqNo)| >= 2
  {
    if i == 0 {
      WithSeqHas(s[1..], j - 1);
    } else {
      WithSeqCounts(s[1..], i - 1, j - 1);
    }
  }

  lemma {:induction false} WithSeqHas(s: seq<Event>, i: nat)
    requires i < |s|
    ensures |WithSeq(s, s[i].seqNo)| >= 1
  {
    if i > 0 {
      WithSeqHas(s[1..], i - 1);
    }
  }

  lemma {:induction false} WithSeqAtMostOne(s: seq<Event>, n: int)
    requires DistinctSeqs(s)
    ensures |WithSeq(s, n)| <= 1
  {
    if s != [] {
      WithSeqAtMostOne(s[1..], n);
      if s[0].seqNo == n {
        WithSeqNone(s[1..], n);
      }
    }
  }

  lemma {:induction false} WithSeqNone(s: seq<Event>, n: int)
    requires forall k :: 0 <= k < |s| ==> s[k].seqNo != n
    ensures WithSeq(s, n) == []
  {
    if s != [] {
      WithSeqNone(s[1..], n);
    }
  }

  // ----- order independence

  /** With distinct sequence numbers the arrival order is irrelevant, crash or no crash. */
  lemma ArrivalOrderIsIrrelevant(v: Views, arrived: seq<Event>, other: seq<Event>, name: string, faults: seq<Fault>)
    requires DistinctSeqs(arrived) && multiset(arrived) == multiset(other)
    ensures RunSorted(v, SortBySeq(arrived), name, faults) == RunSorted(v, SortBySeq(other), name, faults)
  {
    DistinctSortsStrictly(arrived);
    SortIsStableSort(other);
    StrictOrderIsUnique(SortBySeq(arrived), SortBySeq(other));
  }

  // ----- crash and resume

  lemma {:induction false} ProjectAllSplit(v: Views, s: seq<Event>, t: seq<Event>, name: string)
    ensures ProjectAll(v, s + t, name) ==
      if ProjectAll(v, s, name).Err? then ProjectAll(v, s, name)
      else ProjectAll(ProjectAll(v, s, name).value, t, name)
    decreases |s|
  {
    if s == [] {
      assert s + t == t;
    } else {
      assert (s + t)[1..] == s[1..] + t;
      var r := Project(v, s[0], name);
      if r.Ok? {
        ProjectAllSplit(r.value, s[1..], t, name);
      }
    }
  }

  /** A run, whatever fails in it, leaves the views of exactly some prefix of the events. The
      reported ones are that prefix, short of at most one commit whose answer was lost. */
  lemma {:induction false} RunLeavesAPrefix(v: Views, s: seq<Event>, name: string, faults: seq<Fault>) returns (k: nat)
    ensures var out := RunSorted(v, s, name, faults);
      && k <= |s| && ProjectAll(v, s[..k], name) == Ok(out.views)
      && |out.applied| <= k <= |out.applied| + 1
      && (forall i :: 0 <= i < |out.applied| ==> out.applied[i] == s[i].seqNo)
      && (out.ok <==> |out.applied| == |s|)
      && ((forall x :: x in faults ==> !x.AtCommit?) ==> k == |out.applied|)
    decreases |s|
  {
    if s == [] {
      k := 0;
    } else {
      var fault, rest := if faults == [] then NoFault else faults[0], if faults == [] then [] else faults[1..];
      assert forall x :: x in rest ==> x in faults;
      var (w, ok) := Attempt(v, s[0], name, fault);
      if ok {
        var j := RunLeavesAPrefix(w, s[1..], name, rest);
        k := j + 1;
        assert s[..k][1..] == s[1..][..j];
      } else if fault == AtCommit(true) && Project(v, s[0], name).Ok? {
        k := 1;
        assert s[..1][1..] == [];
      } else {
        k := 0;
      }
    }
  }

  /** The event names no row: the insert violates NOT NULL, whatever the views hold. */
  predicate Refused(e: Event) {
    match e.kind
    case CashReserved => e.entity.None?
    case OrderAccepted => e.entity.None?
    case FillReceived => e.entity.None? || e.instrument.None?
    case _ => false
  }

  /** The k-th transaction of a run cannot succeed: its event is refused, or the connection fails in it. */
  predicate Fails(s: seq<Event>, faults: seq<Fault>, k: nat)
    requires k < |s|
  {
    Refused(s[k]) || (k < |faults| && !faults[k].NoFault?)
  }

  /** A run, told exactly: it reports the events before the first transaction that fails, and
      succeeds only if there is none; what is durable are the views of those events, and of the
      failed one too only if its commit became durable without an answer. */
  lemma {:induction false} RunStopsAtFirstFailure(v: Views, s: seq<Event>, name: string, faults: seq<Fault>)
    ensures var out := RunSorted(v, s, name, faults);
      var n := |out.applied|;
      && n <= |s| && (out.ok <==> n == |s|)
      && (forall k :: 0 <= k < n ==> !Fails(s, faults, k) && out.applied[k] == s[k].seqNo)
      && (n < |s| ==> Fails(s, faults, n))
      && ProjectAll(v, s[..n], name).Ok?
      && Ok(out.views) ==
           if n < |s| && !Refused(s[n]) && faults[n] == AtCommit(true) then ProjectAll(v, s[..n + 1], name)
           else ProjectAll(v, s[..n], name)
    decreases |s|
  {
    hide Project;
    if s != [] {
      RefusedIff(v, s[0], name);
      var (w, ok) := Attempt(v, s[0], name, if faults == [] then NoFault else faults[0]);
      if ok {
        var rest := if faults == [] then [] else faults[1..];
        RunStopsAtFirstFailure(w, s[1..], name, rest);
        var n := |RunSorted(w, s[1..], name, rest).applied|;
        assert forall k :: 0 <= k < |s| - 1 ==> Fails(s, faults, k + 1) == Fails(s[1..], rest, k);
        assert s[..n + 1][1..] == s[1..][..n];
        assert n + 1 < |s| ==> s[..n + 2][1..] == s[1..][..n + 1];
      } else {
        assert s[..1][1..] == [];
      }
    }
  }

  lemma RefusedIff(v: Views, e: Event, name: string)
    ensures Project(v, e, name).Err? <==> Refused(e)
  {
  }

  /** The event lies at or below the checkpoint. */
  predicate Passed(v: Views, e: Event, name: string) {
    name in v.checkpoints && e.seqNo <= v.checkpoints[name]
  }

  function Above(s: seq<Event>, v: Views, name: string): seq<Event> {
    if s == [] then []
    else (if Passed(v, s[0], name) then [] else [s[0]]) + Above(s[1..], v, name)
  }

  /** Every event lies above the checkpoint the views start with. */
  ghost predicate AllNew(v: Views, s: seq<Event>, name: string) {
    name in v.checkpoints ==> forall k :: 0 <= k < |s| ==> v.checkpoints[name] < s[k].seqNo
  }

  lemma ViewsKeepCheckpoints(v: Views, e: Event)
    ensures ApplyToViews(v, e).Ok? ==> ApplyToViews(v, e).value.checkpoints == v.checkpoints
  {
  }

  lemma {:induction false} CheckpointAfter(v: Views, s: seq<Event>, name: string)
    requires StrictlyOrdered(s) && AllNew(v, s, name) && ProjectAll(v, s, name).Ok?
    ensures var w := ProjectAll(v, s, name).value;
      if s == [] then w == v else name in w.checkpoints && w.checkpoints[name] == s[|s| - 1].seqNo
    decreases |s|
  {
    hide ApplyToViews;
    if s != [] {
      var w := Project(v, s[0], name).value;
      ViewsKeepCheckpoints(v, s[0]);
      assert w.checkpoints[name] == s[0].seqNo;
      CheckpointAfter(w, s[1..], name);
    }
  }

  lemma {:induction false} AboveIsSuffix(s: seq<Event>, k: nat, v: Views, name: string)
    requires StrictlyOrdered(s) && k <= |s|
    requires if k == 0 then AllNew(v, s, name) else name in v.checkpoints && v.checkpoints[name] == s[k - 1].seqNo
    ensures Above(s, v, name) == s[k..]
  {
    if s != [] {
      if k == 0 {
        AboveIsSuffix(s[1..], 0, v, name);
      } else if k == 1 {
        assert AllNew(v, s[1..], name);
        AboveIsSuffix(s[1..], 0, v, name);
      } else {
        AboveIsSuffix(s[1..], k - 1, v, name);
      }
    }
  }

  /** The committed checkpoint alone tells which prefix has been applied. */
  lemma CheckpointMarksThePrefix(v: Views, s: seq<Event>, k: nat, name: string)
    requires StrictlyOrdered(s) && AllNew(v, s, name) && k <= |s|
    requires ProjectAll(v, s[..k], name).Ok?
    ensures Above(s, ProjectAll(v, s[..k], name).value, name) == s[k..]
  {
    CheckpointAfter(v, s[..k], name);
    if k == 0 {
      assert s[..0] == [];
    }
    AboveIsSuffix(s, k, ProjectAll(v, s[..k], name).value, name);
  }

  /** Any number of runs one after the other, each over the events above the checkpoint it finds. */
  function Restarts(v: Views, s: seq<Event>, name: string, runs: seq<seq<Fault>>): Outcome
    requires runs != []
    decreases |runs|
  {
    var out := RunSorted(v, Above(s, v, name), name, runs[0]);
    if |runs| == 1 then out else Restarts(out.views, s, name, runs[1..])
  }

  /** Exactly once: however often the projector crashes, wherever it crashes, even with the
      answer to a commit lost, the durable views are those of one prefix of the events in
      sequence order; once a run comes through, they are those of all events. */
  lemma {:induction false} ExactlyOnceAcrossRestarts(
    v: Views, s: seq<Event>, k: nat, name: string, runs: seq<seq<Fault>>) returns (j: nat)
    requires StrictlyOrdered(s) && AllNew(v, s, name) && k <= |s| && ProjectAll(v, s[..k], name).Ok? && runs != []
    ensures var out := Restarts(ProjectAll(v, s[..k], name).value, s, name, runs);
      && k <= j <= |s| && ProjectAll(v, s[..j], name) == Ok(out.views)
      && (out.ok ==> ProjectAll(v, s, name) == Ok(out.views))
    decreases |runs|
  {
    hide Project, RunSorted, Above, Ordered;
    var w := ProjectAll(v, s[..k], name).value;
    CheckpointMarksThePrefix(v, s, k, name);
    var m := RunLeavesAPrefix(w, s[k..], name, runs[0]);
    assert s[..k] + s[k..][..m] == s[..k + m];
    ProjectAllSplit(v, s[..k], s[k..][..m], name);
    if |runs| == 1 {
      j := k + m;
      assert j == |s| ==> s[..j] == s;
    } else {
      j := ExactlyOnceAcrossRestarts(v, s, k + m, name, runs[1..]);
    }
  }

  /** Resuming once, without a further fault, reaches the state of an uninterrupted run. */
  lemma ResumeEqualsUninterrupted(v: Views, arrived: seq<Event>, name: string, faults: seq<Fault>)
    requires DistinctSeqs(arrived) && AllNew(v, arrived, name)
    ensures var s := SortBySeq(arrived);
      var crashed := RunSorted(v, s, name, faults);
      RunSorted(crashed.views, Above(s, crashed.views, name), name, []).views == RunSorted(v, s, name, []).views
  {
    hide Project, RunSorted, Above, SortBySeq;
    var s := SortBySeq(arrived);
    DistinctSortsStrictly(arrived);
    assert forall k :: 0 <= k < |s| ==> s[k] in s && s[k] in arrived;
    var k := RunLeavesAPrefix(v, s, name, faults);
    CheckpointMarksThePrefix(v, s, k, name);
    FaultFreeSplit(v, s, k, name);
  }

  lemma {:induction false} FaultFreeSplit(v: Views, s: seq<Event>, k: nat, name: string)
    requires k <= |s| && ProjectAll(v, s[..k], name).Ok?
    ensures RunSorted(ProjectAll(v, s[..k], name).value, s[k..], name, []).views == RunSorted(v, s, name, []).views
    decreases |s|
  {
    if k > 0 {
      assert s[..k][1..] == s[1..][..k - 1];
      assert s[k..] == s[1..][k - 1..];
      FaultFreeSplit(Project(v, s[0], name).value, s[1..], k - 1, name);
    }
  }

  /** The projector itself does not skip old events: given an event, whatever it has seen before
      or since, it changes nothing exactly when the checkpoint is already there, the event moves
      no amount, and the row it would stamp exists and carries its number already. */
  lemma ReapplyIsNoOpIff(w: Views, e: Event, name: string)
    ensures Project(w, e, name) == Ok(w) <==>
      && name in w.checkpoints && w.checkpoints[name] >= e.seqNo
      && match e.kind
         case CashReserved => e.entity.Some? && StampedBalance(w, e.entity.value, e.seqNo) && e.amount == 0.0
         case CashReleased =>
           e.entity.Some? && e.entity.value in w.balances ==>
             StampedBalance(w, e.entity.value, e.seqNo) && e.amount == 0.0
         case FillReceived =>
           && e.entity.Some? && e.instrument.Some? && e.quantity == 0.0
           && var key := (e.entity.value, e.instrument.value);
              key in w.positions && w.positions[key].lastSeq == e.seqNo
         case OrderAccepted => e.entity.Some? && StampedBalance(w, e.entity.value, e.seqNo)
         case Unsupported => true
  {
    var r := Project(w, e, name);
    if r.Ok? {
      var x := r.value;
      assert x.checkpoints == w.checkpoints <==> name in w.checkpoints && w.checkpoints[name] >= e.seqNo by {
        assert x.checkpoints == w.checkpoints ==> x.checkpoints[name] == w.checkpoints[name];
      }
      if e.entity.Some? {
        var id := e.entity.value;
        if !e.kind.FillReceived? {
          SameBalancesIff(w, x, id);
        } else {
          assert x.positions == w.positions <==>
            (id, e.instrument.value) in w.positions && x.positions[(id, e.instrument.value)] ==
              w.positions[(id, e.instrument.value)];
        }
      }
    }
  }

  predicate StampedBalance(w: Views, id: string, n: int) {
    id in w.balances && w.balances[id].lastSeq == n
  }

  lemma SameBalancesIff(w: Views, x: Views, id: string)
    requires forall other :: other != id ==> BalanceOf(x, other) == BalanceOf(w, other)
    ensures x.balances == w.balances <==> BalanceOf(x, id) == BalanceOf(w, id)
  {
    if BalanceOf(x, id) == BalanceOf(w, id) {
      forall k ensures (k in x.balances <==> k in w.balances) && (k in x.balances ==> x.balances[k] == w.balances[k]) {
        assert BalanceOf(x, k) == BalanceOf(w, k);
      }
    }
  }

  // ----- one row at a time

  function BalanceOf(v: Views, id: string): Option<Balance> {
    if id in v.balances then Some(v.balances[id]) else None
  }

  function PositionOf(v: Views, key: (string, string)): Option<Position> {
    if key in v.positions then Some(v.positions[key]) else None
  }

  function CheckpointOf(v: Views, name: string): Option<int> {
    if name in v.checkpoints then Some(v.checkpoints[name]) else None
  }

  predicate CreatesRow(e: Event, id: string) {
    (e.kind.CashReserved? || e.kind.OrderAccepted?) && e.entity == Some(id)
  }

  function ReservedDelta(e: Event, id: string): real {
    if e.entity != Some(id) then 0.0
    else if e.kind.CashReserved? then e.amount
    else if e.kind.CashReleased? then -e.amount
    else 0.0
  }

  /** Reserved minus released, counting every event. */
  function NetReserved(s: seq<Event>, id: string): real {
    if s == [] then 0.0 else NetReserved(s[..|s| - 1], id) + ReservedDelta(s[|s| - 1], id)
  }

  predicate Fills(e: Event, key: (string, string)) {
    e.kind.FillReceived? && e.entity == Some(key.0) && e.instrument == Some(key.1)
  }

  function FilledQuantity(s: seq<Event>, key: (string, string)): real {
    if s == [] then 0.0
    else FilledQuantity(s[..|s| - 1], key) + (if Fills(s[|s| - 1], key) then s[|s| - 1].quantity else 0.0)
  }

  /** The event touches the balance row of an entity once that row exists. */
  predicate Stamps(e: Event, id: string) {
    CreatesRow(e, id) || (e.kind.CashReleased? && e.entity == Some(id))
  }

  /** The number of the last event that stamps a row, or what stood there before. */
  function LastStamp(s: seq<Event>, id: string, before: int): int {
    if s == [] then before
    else if Stamps(s[|s| - 1], id) then s[|s| - 1].seqNo
    else LastStamp(s[..|s| - 1], id, before)
  }

  function LastFill(s: seq<Event>, key: (string, string), before: int): int {
    if s == [] then before
    else if Fills(s[|s| - 1], key) then s[|s| - 1].seqNo
    else LastFill(s[..|s| - 1], key, before)
  }

  /** What the events make of a balance row that exists. */
  function BalanceAfter(b: Balance, s: seq<Event>, id: string): Balance {
    Balance(b.available, b.reserved + NetReserved(s, id), LastStamp(s, id, b.lastSeq))
  }

  function PositionAfter(p: Position, s: seq<Event>, key: (string, string)): Position {
    Position(p.quantity + FilledQuantity(s, key), p.averagePrice, LastFill(s, key, p.lastSeq))
  }

  function HighestSeq(s: seq<Event>, before: Option<int>): Option<int> {
    if s == [] then before
    else
      var h, n := HighestSeq(s[..|s| - 1], before), s[|s| - 1].seqNo;
      if h.Some? && h.value > n then h else Some(n)
  }

  lemma ProjectAllAppend(v: Views, s: seq<Event>, e: Event, name: string)
    ensures ProjectAll(v, s + [e], name) ==
      if ProjectAll(v, s, name).Err? then ProjectAll(v, s, name) else Project(ProjectAll(v, s, name).value, e, name)
  {
    ProjectAllSplit(v, s, [e], name);
    assert [e][1..] == [];
  }

  /** Replaying from any views: rows that exist move by the sums of their events, and the
      checkpoint becomes the highest number seen. */
  lemma {:induction false} RowsAfter(v: Views, s: seq<Event>, name: string, id: string, key: (string, string))
    requires ProjectAll(v, s, name).Ok?
    ensures var w := ProjectAll(v, s, name).value;
      && (id in v.balances ==> BalanceOf(w, id) == Some(BalanceAfter(v.balances[id], s, id)))
      && (key in v.positions ==> PositionOf(w, key) == Some(PositionAfter(v.positions[key], s, key)))
      && CheckpointOf(w, name) == HighestSeq(s, CheckpointOf(v, name))
  {
    if s != [] {
      var front, e := s[..|s| - 1], s[|s| - 1];
      assert s == front + [e];
      ProjectAllAppend(v, front, e, name);
      RowsAfter(v, front, name, id, key);
      StepRows(ProjectAll(v, front, name).value, e, name, id, key);
    }
  }

  /** What one event makes of one balance row. */
  function BalanceStep(row: Option<Balance>, e: Event, id: string): Option<Balance> {
    if !Stamps(e, id) then row
    else if row.None? then (if e.kind.CashReleased? then None else Some(Balance(0.0, ReservedDelta(e, id), e.seqNo)))
    else Some(Balance(row.value.available, row.value.reserved + ReservedDelta(e, id), e.seqNo))
  }

  function PositionStep(row: Option<Position>, e: Event, key: (string, string)): Option<Position> {
    if !Fills(e, key) then row
    else if row.None? then Some(Position(e.quantity, e.price, e.seqNo))
    else Some(row.value.(quantity := row.value.quantity + e.quantity, lastSeq := e.seqNo))
  }

  lemma StepBalanceRow(v: Views, e: Event, name: string, id: string)
    requires Project(v, e, name).Ok?
    ensures BalanceOf(Project(v, e, name).value, id) == BalanceStep(BalanceOf(v, id), e, id)
  {
  }

  lemma StepPositionRow(v: Views, e: Event, name: string, key: (string, string))
    requires Project(v, e, name).Ok?
    ensures PositionOf(Project(v, e, name).value, key) == PositionStep(PositionOf(v, key), e, key)
  {
  }

  /** Every row and the checkpoint change by themselves. */
  lemma StepRows(v: Views, e: Event, name: string, id: string, key: (string, string))
    requires Project(v, e, name).Ok?
    ensures var w := Project(v, e, name).value;
      && BalanceOf(w, id) == BalanceStep(BalanceOf(v, id), e, id)
      && PositionOf(w, key) == PositionStep(PositionOf(v, key), e, key)
      && CheckpointOf(w, name) == (if CheckpointOf(v, name).Some? && v.checkpoints[name] > e.seqNo
                                   then CheckpointOf(v, name) else Some(e.seqNo))
  {
    StepBalanceRow(v, e, name, id);
    StepPositionRow(v, e, name, key);
    hide BalanceOf, PositionOf, BalanceStep, PositionStep, ApplyToViews;
    ViewsKeepCheckpoints(v, e);
  }

  // ----- a restart that does not filter

  lemma {:induction false} StampsAreStable(v: Views, s: seq<Event>, name: string, id: string, key: (string, string))
    requires ProjectAll(v, s, name).Ok?
    ensures var w := ProjectAll(v, s, name).value;
      && (id in w.balances ==> LastStamp(s, id, w.balances[id].lastSeq) == w.balances[id].lastSeq)
      && (key in w.positions ==> LastFill(s, key, w.positions[key].lastSeq) == w.positions[key].lastSeq)
  {
    if s != [] {
      var front, e := s[..|s| - 1], s[|s| - 1];
      assert s == front + [e];
      ProjectAllAppend(v, front, e, name);
      StampsAreStable(v, front, name, id, key);
      StepRows(ProjectAll(v, front, name).value, e, name, id, key);
    }
  }

  lemma {:induction false} SumsSplit(a: seq<Event>, b: seq<Event>, id: string, key: (string, string), m: int, n: int)
    ensures NetReserved(a + b, id) == NetReserved(a, id) + NetReserved(b, id)
    ensures FilledQuantity(a + b, key) == FilledQuantity(a, key) + FilledQuantity(b, key)
    ensures LastStamp(a + b, id, m) == LastStamp(b, id, LastStamp(a, id, m))
    ensures LastFill(a + b, key, n) == LastFill(b, key, LastFill(a, key, n))
    decreases |b|
  {
    if b == [] {
      assert a + b == a;
    } else {
      assert (a + b)[..|a + b| - 1] == a + b[..|b| - 1];
      SumsSplit(a, b[..|b| - 1], id, key, m, n);
    }
  }

  lemma {:induction false} HighestSplit(a: seq<Event>, b: seq<Event>, before: Option<int>)
    ensures HighestSeq(a + b, before) == HighestSeq(b, HighestSeq(a, before))
    decreases |b|
  {
    if b == [] {
      assert a + b == a;
    } else {
      assert (a + b)[..|a + b| - 1] == a + b[..|b| - 1];
      HighestSplit(a, b[..|b| - 1], before);
    }
  }

  ghost predicate NoneAbove(s: seq<Event>, h: Option<int>) {
    forall k :: 0 <= k < |s| ==> h.Some? && s[k].seqNo <= h.value
  }

  lemma {:induction false} HighestBounds(s: seq<Event>, before: Option<int>)
    ensures NoneAbove(s, HighestSeq(s, before))
  {
    if s != [] {
      HighestBounds(s[..|s| - 1], before);
    }
  }

  lemma {:induction false} HighestAbsorbs(s: seq<Event>, h: Option<int>)
    requires NoneAbove(s, h)
    ensures HighestSeq(s, h) == h
  {
    if s != [] {
      var front := s[..|s| - 1];
      forall k | 0 <= k < |front| ensures h.Some? && front[k].seqNo <= h.value {
        assert front[k] == s[k];
      }
      assert s[|s| - 1].seqNo <= h.value;
      HighestAbsorbs(front, h);
    }
  }

  /** A row's future depends on nothing but the row. */
  lemma {:induction false} EqualRowsStayEqual(
      v: Views, w: Views, s: seq<Event>, name: string, id: string, key: (string, string))
    requires ProjectAll(v, s, name).Ok? && ProjectAll(w, s, name).Ok?
    ensures BalanceOf(v, id) == BalanceOf(w, id) ==>
      BalanceOf(ProjectAll(v, s, name).value, id) == BalanceOf(ProjectAll(w, s, name).value, id)
    ensures PositionOf(v, key) == PositionOf(w, key) ==>
      PositionOf(ProjectAll(v, s, name).value, key) == PositionOf(ProjectAll(w, s, name).value, key)
    decreases |s|
  {
    hide Project, BalanceOf, PositionOf;
    if s != [] {
      StepRows(v, s[0], name, id, key);
      StepRows(w, s[0], name, id, key);
      EqualRowsStayEqual(Project(v, s[0], name).value, Project(w, s[0], name).value, s[1..], name, id, key);
    }
  }

  lemma {:induction false} FailsIffRefused(v: Views, s: seq<Event>, name: string)
    ensures ProjectAll(v, s, name).Ok? <==> forall k :: 0 <= k < |s| ==> !Refused(s[k])
    decreases |s|
  {
    if s != [] && Project(v, s[0], name).Ok? {
      FailsIffRefused(Project(v, s[0], name).value, s[1..], name);
      assert forall k :: 0 < k < |s| ==> s[k] == s[1..][k - 1];
    }
  }

  /** The events net to zero for every row the views hold. */
  ghost predicate NetsToZero(w: Views, s: seq<Event>) {
    && (forall id :: id in w.balances ==> NetReserved(s, id) == 0.0)
    && (forall key :: key in w.positions ==> FilledQuantity(s, key) == 0.0)
  }

  /** One balance row and one position after a replay over everything, beside the same rows
      after the remaining events only. */
  lemma ReplayedRows(v: Views, t: seq<Event>, rest: seq<Event>, name: string, id: string, key: (string, string))
    requires ProjectAll(v, t, name).Ok?
    requires var w := ProjectAll(v, t, name).value; ProjectAll(w, t + rest, name).Ok? && ProjectAll(w, rest, name).Ok?
    ensures var w := ProjectAll(v, t, name).value;
      var again, once := ProjectAll(w, t + rest, name).value, ProjectAll(w, rest, name).value;
      && (id in w.balances ==>
           && id in once.balances && id in again.balances
           && again.balances[id] == once.balances[id].(reserved := once.balances[id].reserved + NetReserved(t, id)))
      && (key in w.positions ==>
           && key in once.positions && key in again.positions
           && var q := once.positions[key].quantity + FilledQuantity(t, key);
              again.positions[key] == once.positions[key].(quantity := q))
  {
    hide Project;
    var w := ProjectAll(v, t, name).value;
    RowsAfter(w, t + rest, name, id, key);
    RowsAfter(w, rest, name, id, key);
    StampsAreStable(v, t, name, id, key);
    SumsSplit(t, rest, id, key, if id in w.balances then w.balances[id].lastSeq else 0,
              if key in w.positions then w.positions[key].lastSeq else 0);
  }

  lemma {:induction false} RowsAreKept(v: Views, s: seq<Event>, name: string, id: string, key: (string, string))
    requires ProjectAll(v, s, name).Ok?
    ensures id in v.balances ==> id in ProjectAll(v, s, name).value.balances
    ensures key in v.positions ==> key in ProjectAll(v, s, name).value.positions
  {
    RowsAfter(v, s, name, id, key);
  }

  lemma {:induction false} OtherCheckpoints(v: Views, s: seq<Event>, name: string, other: string)
    requires ProjectAll(v, s, name).Ok? && other != name
    ensures CheckpointOf(ProjectAll(v, s, name).value, other) == CheckpointOf(v, other)
    decreases |s|
  {
    if s != [] {
      OtherCheckpoints(Project(v, s[0], name).value, s[1..], name, other);
    }
  }

  lemma ReplayedCheckpoint(v: Views, t: seq<Event>, rest: seq<Event>, name: string, other: string)
    requires ProjectAll(v, t, name).Ok?
    requires var w := ProjectAll(v, t, name).value; ProjectAll(w, t + rest, name).Ok? && ProjectAll(w, rest, name).Ok?
    ensures var w := ProjectAll(v, t, name).value;
      CheckpointOf(ProjectAll(w, t + rest, name).value, other) == CheckpointOf(ProjectAll(w, rest, name).value, other)
  {
    hide Project, CheckpointOf, HighestSeq;
    var w := ProjectAll(v, t, name).value;
    if other == name {
      RowsAfter(v, t, name, "", ("", ""));
      RowsAfter(w, t + rest, name, "", ("", ""));
      RowsAfter(w, rest, name, "", ("", ""));
      HighestSplit(t, rest, CheckpointOf(w, name));
      HighestBounds(t, CheckpointOf(v, name));
      HighestAbsorbs(t, CheckpointOf(w, name));
    } else {
      OtherCheckpoints(w, t + rest, name, other);
      OtherCheckpoints(w, rest, name, other);
    }
  }

  lemma SameViews(v: Views, w: Views)
    requires forall id :: BalanceOf(v, id) == BalanceOf(w, id)
    requires forall key :: PositionOf(v, key) == PositionOf(w, key)
    requires forall name :: CheckpointOf(v, name) == CheckpointOf(w, name)
    ensures v == w
  {
    assert forall id :: (id in v.balances <==> BalanceOf(v, id).Some?) && (id in w.balances <==>
      BalanceOf(w, id).Some?);
    assert forall id :: id in v.balances ==> BalanceOf(v, id).value == BalanceOf(w, id).value;
    assert v.balances == w.balances;
    assert forall key :: (key in v.positions <==> PositionOf(v, key).Some?) && (key in w.positions <==>
      PositionOf(w, key).Some?);
    assert forall key :: key in v.positions ==> PositionOf(v, key).value == PositionOf(w, key).value;
    assert v.positions == w.positions;
    assert forall n :: (n in v.checkpoints <==> CheckpointOf(v, n).Some?) && (n in w.checkpoints <==>
      CheckpointOf(w, n).Some?);
    assert forall n :: n in v.checkpoints ==> CheckpointOf(v, n).value == CheckpointOf(w, n).value;
    assert v.checkpoints == w.checkpoints;
  }

  /** Replaying the whole log over the views of a prefix, instead of the rest of it, gives the
      views of the log exactly when that prefix nets to zero for every row the views hold. */
  lemma ReplayOverPrefixIff(v: Views, t: seq<Event>, rest: seq<Event>, name: string)
    requires ProjectAll(v, t + rest, name).Ok?
    ensures ProjectAll(v, t, name).Ok?
    ensures var w := ProjectAll(v, t, name).value;
      ProjectAll(w, t + rest, name) == ProjectAll(v, t + rest, name) <==> NetsToZero(w, t)
  {
    hide Project, Refused;
    ProjectAllSplit(v, t, rest, name);
    var w := ProjectAll(v, t, name).value;
    FailsIffRefused(v, t + rest, name);
    FailsIffRefused(w, t + rest, name);
    var again, once := ProjectAll(w, t + rest, name).value, ProjectAll(w, rest, name).value;
    if NetsToZero(w, t) {
      forall id ensures BalanceOf(again, id) == BalanceOf(once, id) {
        ReplayedBalance(v, t, rest, name, id);
      }
      forall key ensures PositionOf(again, key) == PositionOf(once, key) {
        ReplayedPosition(v, t, rest, name, key);
      }
      forall other ensures CheckpointOf(again, other) == CheckpointOf(once, other) {
        ReplayedCheckpoint(v, t, rest, name, other);
      }
      SameViews(again, once);
    }
    if again == once {
      forall id | id in w.balances ensures NetReserved(t, id) == 0.0 {
        ReplayedRows(v, t, rest, name, id, ("", ""));
      }
      forall key | key in w.positions ensures FilledQuantity(t, key) == 0.0 {
        ReplayedRows(v, t, rest, name, "", key);
      }
    }
  }

  lemma ReplayedBalance(v: Views, t: seq<Event>, rest: seq<Event>, name: string, id: string)
    requires ProjectAll(v, t + rest, name).Ok? && ProjectAll(v, t, name).Ok?
    requires var w := ProjectAll(v, t, name).value; ProjectAll(w, t + rest, name).Ok? && ProjectAll(w, rest, name).Ok?
    requires id in ProjectAll(v, t, name).value.balances ==> NetReserved(t, id) == 0.0
    ensures var w := ProjectAll(v, t, name).value;
      BalanceOf(ProjectAll(w, t + rest, name).value, id) == BalanceOf(ProjectAll(w, rest, name).value, id)
  {
    hide Project, NetReserved;
    var w := ProjectAll(v, t, name).value;
    if id in w.balances {
      ReplayedRows(v, t, rest, name, id, ("", ""));
    } else {
      RowsAreKept(v, t, name, id, ("", ""));
      EqualRowsStayEqual(v, w, t + rest, name, id, ("", ""));
      ProjectAllSplit(v, t, rest, name);
    }
  }

  lemma ReplayedPosition(v: Views, t: seq<Event>, rest: seq<Event>, name: string, key: (string, string))
    requires ProjectAll(v, t + rest, name).Ok? && ProjectAll(v, t, name).Ok?
    requires var w := ProjectAll(v, t, name).value; ProjectAll(w, t + rest, name).Ok? && ProjectAll(w, rest, name).Ok?
    requires key in ProjectAll(v, t, name).value.positions ==> FilledQuantity(t, key) == 0.0
    ensures var w := ProjectAll(v, t, name).value;
      PositionOf(ProjectAll(w, t + rest, name).value, key) == PositionOf(ProjectAll(w, rest, name).value, key)
  {
    hide Project, FilledQuantity;
    var w := ProjectAll(v, t, name).value;
    if key in w.positions {
      ReplayedRows(v, t, rest, name, "", key);
    } else {
      RowsAreKept(v, t, name, "", key);
      EqualRowsStayEqual(v, w, t + rest, name, "", key);
      ProjectAllSplit(v, t, rest, name);
    }
  }

  /** The events a run without faults applies: those before the first one that is refused. */
  function Accepted(s: seq<Event>): (r: seq<Event>)
    ensures r <= s && forall k :: 0 <= k < |r| ==> !Refused(r[k])
    ensures |r| < |s| ==> Refused(s[|r|])
  {
    if s == [] || Refused(s[0]) then [] else [s[0]] + Accepted(s[1..])
  }

  lemma {:induction false} FaultFreeRun(v: Views, s: seq<Event>, name: string)
    ensures ProjectAll(v, Accepted(s), name) == Ok(RunSorted(v, s, name, []).views)
    decreases |s|
  {
    if s != [] && !Refused(s[0]) {
      FaultFreeRun(Project(v, s[0], name).value, s[1..], name);
      assert ([s[0]] + Accepted(s[1..]))[1..] == Accepted(s[1..]);
    }
  }

  /** The events at or below the checkpoint the views hold. */
  function AtOrBelow(s: seq<Event>, v: Views, name: string): seq<Event> {
    if s == [] then []
    else
      (if Passed(v, s[0], name) then [s[0]] else []) + AtOrBelow(s[1..], v, name)
  }

  lemma {:induction false} AtOrBelowIsPrefix(s: seq<Event>, k: nat, v: Views, name: string)
    requires k <= |s| && forall i :: 0 <= i < |s| ==> (Passed(v, s[i], name) <==> i < k)
    ensures AtOrBelow(s, v, name) == s[..k]
  {
    if s != [] {
      var j := if k == 0 then 0 else k - 1;
      assert forall i :: 0 <= i < |s[1..]| ==> (Passed(v, s[1..][i], name) <==> i < j) by {
        assert forall i :: 0 <= i < |s[1..]| ==> s[1..][i] == s[i + 1];
      }
      AtOrBelowIsPrefix(s[1..], j, v, name);
      assert Passed(v, s[0], name) <==> 0 < k;
      assert k > 0 ==> s[..k] == [s[0]] + s[1..][..k - 1];
    }
  }

  lemma CheckpointSplits(v: Views, s: seq<Event>, k: nat, name: string)
    requires StrictlyOrdered(s) && AllNew(v, s, name) && k <= |s| && ProjectAll(v, s[..k], name).Ok?
    ensures AtOrBelow(s, ProjectAll(v, s[..k], name).value, name) == s[..k]
  {
    var w := ProjectAll(v, s[..k], name).value;
    CheckpointAfter(v, s[..k], name);
    assert k == 0 ==> s[..k] == [];
    AtOrBelowIsPrefix(s, k, w, name);
  }

  lemma PrefixIsAccepted(s: seq<Event>, k: nat)
    requires k <= |s| && forall i :: 0 <= i < k ==> !Refused(s[..k][i])
    ensures k <= |Accepted(s)|
  {
    assert forall i :: 0 <= i < k ==> s[i] == s[..k][i];
  }

  lemma RestartFromPrefixIff(v: Views, s: seq<Event>, k: nat, name: string)
    requires k <= |s| && ProjectAll(v, s[..k], name).Ok?
    ensures var w := ProjectAll(v, s[..k], name).value;
      (RunSorted(w, s, name, []).views == RunSorted(v, s, name, []).views) <==> NetsToZero(w, s[..k])
  {
    hide Project, RunSorted, NetsToZero, Refused, ProjectAll, Accepted;
    var w := ProjectAll(v, s[..k], name).value;
    var all := Accepted(s);
    FaultFreeRun(v, s, name);
    FaultFreeRun(w, s, name);
    FailsIffRefused(v, s[..k], name);
    PrefixIsAccepted(s, k);
    assert all[..k] == s[..k] && all == all[..k] + all[k..];
    ReplayOverPrefixIff(v, all[..k], all[k..], name);
  }

  /** A crashed projector restarted over all events again, not only over those above its
      checkpoint, ends where an uninterrupted run ends exactly when the events at or below the
      checkpoint net to zero for every balance row and every position on record. */
  lemma RestartOverEverythingIff(v: Views, arrived: seq<Event>, name: string, faults: seq<Fault>)
    requires DistinctSeqs(arrived) && AllNew(v, arrived, name)
    ensures var s := SortBySeq(arrived);
      var crashed := RunSorted(v, s, name, faults).views;
      (RunSorted(crashed, s, name, []).views == RunSorted(v, s, name, []).views)
      <==> NetsToZero(crashed, AtOrBelow(s, crashed, name))
  {
    hide Project, RunSorted, SortBySeq, NetsToZero, ProjectAll, AtOrBelow;
    var s := SortBySeq(arrived);
    DistinctSortsStrictly(arrived);
    assert forall k :: 0 <= k < |s| ==> s[k] in s && s[k] in arrived;
    var k := RunLeavesAPrefix(v, s, name, faults);
    CheckpointSplits(v, s, k, name);
    RestartFromPrefixIff(v, s, k, name);
  }

  /** One reservation applied, the same log given again: the reservation is counted twice. */
  lemma RestartCountsTwice(e: Event)
    requires e.kind.CashReserved? && e.entity.Some? && e.amount > 0.0
    ensures var crashed := RunSorted(EMPTY, [e], "main", []).views;
      RunSorted(crashed, [e], "main", []).views.balances == map[e.entity.value := Balance(0.0, 2.0 * e.amount, e.seqNo)]
  {
    assert [e][1..] == [];
    var w := Project(EMPTY, e, "main").value;
    assert RunSorted(EMPTY, [e], "main", []).views == w;
    assert RunSorted(w, [e], "main", []).views == Project(w, e, "main").value;
  }

  /** An old event given again after a later one moves no amount, yet sets the row's number back. */
  lemma LateReplaySetsNumberBack(first: Event, second: Event)
    requires first.kind.OrderAccepted? && second.kind.CashReserved?
    requires first.entity.Some? && second.entity == first.entity && first.seqNo < second.seqNo
    ensures var w := ProjectAll(EMPTY, [first, second], "main");
      && w.Ok? && w.value.balances == map[first.entity.value := Balance(0.0, second.amount, second.seqNo)]
      && Project(w.value, first, "main").Ok?
      && Project(w.value, first, "main").value.balances
           == map[first.entity.value := Balance(0.0, second.amount, first.seqNo)]
  {
    assert [first, second][1..] == [second] && [second][1..] == [];
    var w := Project(EMPTY, first, "main").value;
    assert ProjectAll(w, [second], "main") == Project(w, second, "main");
  }

  // ----- what the views mean

  /** Releases that arrive before the entity has a balance row, and are lost. */
  function LostReleases(s: seq<Event>, id: string): real {
    if s == [] || CreatesRow(s[0], id) then 0.0
    else (if s[0].kind.CashReleased? && s[0].entity == Some(id) then s[0].amount else 0.0) + LostReleases(s[1..], id)
  }

  function ReservedIn(v: Views, id: string): real {
    if id in v.balances then v.balances[id].reserved else 0.0
  }

  function QuantityIn(v: Views, id: string, instrument: string): real {
    if (id, instrument) in v.positions then v.positions[(id, instrument)].quantity else 0.0
  }

  lemma {:induction false} LostReleasesAppend(s: seq<Event>, e: Event, id: string)
    ensures LostReleases(s + [e], id) == LostReleases(s, id)
      + (if (exists k :: 0 <= k < |s| && CreatesRow(s[k], id)) then 0.0
         else if e.kind.CashReleased? && e.entity == Some(id) then e.amount else 0.0)
  {
    if s == [] {
      assert ([e])[1..] == [];
    } else {
      assert (s + [e])[1..] == s[1..] + [e];
      if !CreatesRow(s[0], id) {
        LostReleasesAppend(s[1..], e, id);
        assert (exists k :: 0 <= k < |s| && CreatesRow(s[k], id)) <==>
          (exists k :: 0 <= k < |s[1..]| && CreatesRow(s[1..][k], id)) by {
          if k :| 0 <= k < |s| && CreatesRow(s[k], id) {
            assert s[1..][k - 1] == s[k];
          }
        }
      }
    }
  }

  ghost predicate ViewsAgree(v: Views, s: seq<Event>, id: string, instrument: string) {
    && (id in v.balances <==> exists k :: 0 <= k < |s| && CreatesRow(s[k], id))
    && (id in v.balances ==> v.balances[id].available == 0.0)
    && ReservedIn(v, id) == NetReserved(s, id) + LostReleases(s, id)
    && QuantityIn(v, id, instrument) == FilledQuantity(s, (id, instrument))
  }

  lemma StepKeepsMeaning(v: Views, s: seq<Event>, e: Event, name: string, id: string, instrument: string)
    requires ViewsAgree(v, s, id, instrument) && Project(v, e, name).Ok?
    ensures ViewsAgree(Project(v, e, name).value, s + [e], id, instrument)
  {
    var t := s + [e];
    assert t[..|t| - 1] == s;
    LostReleasesAppend(s, e, id);
    hide LostReleases;
    if k :| 0 <= k < |s| && CreatesRow(s[k], id) {
      assert CreatesRow(t[k], id);
    }
    if CreatesRow(e, id) {
      assert CreatesRow(t[|s|], id);
    }
    if k :| 0 <= k < |t| && CreatesRow(t[k], id) {
      assert k < |s| ==> CreatesRow(s[k], id);
    }
  }

  /** The views, stated without replaying: a balance row exists once some event has created
      it, the reservation is the net of all events plus what early releases lost, and a
      position is the plain sum of its fills. */
  lemma {:induction false} ViewsMeaning(s: seq<Event>, name: string, id: string, instrument: string)
    requires ProjectAll(EMPTY, s, name).Ok?
    ensures ViewsAgree(ProjectAll(EMPTY, s, name).value, s, id, instrument)
    decreases |s|
  {
    hide ViewsAgree, Project;
    if s == [] {
      NothingProjected(id, instrument);
    } else {
      var front, e := s[..|s| - 1], s[|s| - 1];
      assert s == front + [e];
      ProjectAllSplit(EMPTY, front, [e], name);
      assert [e][1..] == [];
      ViewsMeaning(front, name, id, instrument);
      StepKeepsMeaning(ProjectAll(EMPTY, front, name).value, front, e, name, id, instrument);
    }
  }

  lemma NothingProjected(id: string, instrument: string)
    ensures ViewsAgree(EMPTY, [], id, instrument)
  {
  }

  /** The reserved column is the net of the events exactly when the releases that came before
      the entity's row add up to nothing. */
  lemma ReservedIsNetIff(s: seq<Event>, name: string, id: string)
    requires ProjectAll(EMPTY, s, name).Ok?
    ensures ReservedIn(ProjectAll(EMPTY, s, name).value, id) == NetReserved(s, id) <==> LostReleases(s, id) == 0.0
  {
    ViewsMeaning(s, name, id, "");
  }

  function FirstFill(s: seq<Event>, id: string, instrument: string): Option<Event> {
    if s == [] then None
    else if FirstFill(s[..|s| - 1], id, instrument).Some? then FirstFill(s[..|s| - 1], id, instrument)
    else if Fills(s[|s| - 1], (id, instrument)) then Some(s[|s| - 1])
    else None
  }

  /** A position keeps the price of its first fill: `average_price` never averages. */
  lemma {:induction false} AveragePriceIsFirstPrice(s: seq<Event>, name: string, id: string, instrument: string)
    requires ProjectAll(EMPTY, s, name).Ok?
    ensures var v, first := ProjectAll(EMPTY, s, name).value, FirstFill(s, id, instrument);
      && ((id, instrument) in v.positions <==> first.Some?)
      && (first.Some? ==> v.positions[(id, instrument)].averagePrice == first.value.price)
    decreases |s|
  {
    if s != [] {
      var front, e := s[..|s| - 1], s[|s| - 1];
      assert s == front + [e];
      ProjectAllSplit(EMPTY, front, [e], name);
      assert [e][1..] == [];
      AveragePriceIsFirstPrice(front, name, id, instrument);
      assert ProjectAll(EMPTY, s, name) == Project(ProjectAll(EMPTY, front, name).value, e, name);
    }
  }

  /** Price times quantity over the fills of a position; a fill without a price adds nothing. */
  function FillCost(s: seq<Event>, key: (string, string)): real {
    if s == [] then 0.0
    else
      var e := s[|s| - 1];
      FillCost(s[..|s| - 1], key) + (if Fills(e, key) && e.price.Some? then e.price.value * e.quantity else 0.0)
  }

  /** How far the fills moved away from one price, weighted by quantity. */
  function PriceDrift(s: seq<Event>, key: (string, string), price: real): real {
    if s == [] then 0.0
    else
      var e := s[|s| - 1];
      PriceDrift(s[..|s| - 1], key, price)
        + (if Fills(e, key) && e.price.Some? then (e.price.value - price) * e.quantity else 0.0)
  }

  ghost predicate AllPriced(s: seq<Event>, key: (string, string)) {
    forall k :: 0 <= k < |s| && Fills(s[k], key) ==> s[k].price.Some?
  }

  lemma {:induction false} DriftIsCostOverPrice(s: seq<Event>, key: (string, string), price: real)
    requires AllPriced(s, key)
    ensures PriceDrift(s, key, price) == FillCost(s, key) - price * FilledQuantity(s, key)
  {
    if s != [] {
      var front, e := s[..|s| - 1], s[|s| - 1];
      assert AllPriced(front, key) by {
        assert forall k :: 0 <= k < |front| ==> front[k] == s[k];
      }
      DriftIsCostOverPrice(front, key, price);
      var total, q := FilledQuantity(front, key), if Fills(e, key) then e.quantity else 0.0;
      assert Fills(e, key) ==> e.price.Some?;
      Distribute(price, total, q);
      if Fills(e, key) {
        Distribute(q, e.price.value, price);
      }
    }
  }

  /** The column is the average cost of the position exactly when the fills, weighted by
      quantity, did not move away from the first price. */
  lemma AveragePriceIsAverageIff(s: seq<Event>, name: string, id: string, instrument: string)
    requires ProjectAll(EMPTY, s, name).Ok? && AllPriced(s, (id, instrument))
    requires FilledQuantity(s, (id, instrument)) != 0.0
    ensures var v, key := ProjectAll(EMPTY, s, name).value, (id, instrument);
      && key in v.positions && v.positions[key].averagePrice.Some?
      && var price := v.positions[key].averagePrice.value;
         (price == FillCost(s, key) / FilledQuantity(s, key) <==> PriceDrift(s, key, price) == 0.0)
  {
    var key := (id, instrument);
    AveragePriceIsFirstPrice(s, name, id, instrument);
    FirstFillExists(s, id, instrument);
    hide ProjectAll, FirstFill;
    var v := ProjectAll(EMPTY, s, name).value;
    var price, cost, quantity := v.positions[key].averagePrice.value, FillCost(s, key), FilledQuantity(s, key);
    DriftIsCostOverPrice(s, key, price);
    QuotientTimes(cost, quantity);
    if price * quantity == cost {
      QuotientIs(cost, quantity, price);
    }
  }

  lemma {:induction false} FirstFillExists(s: seq<Event>, id: string, instrument: string)
    requires AllPriced(s, (id, instrument)) && FilledQuantity(s, (id, instrument)) != 0.0
    ensures FirstFill(s, id, instrument).Some? && FirstFill(s, id, instrument).value.price.Some?
  {
    var front, e := s[..|s| - 1], s[|s| - 1];
    assert AllPriced(front, (id, instrument)) by {
      assert forall k :: 0 <= k < |front| ==> front[k] == s[k];
    }
    if FirstFill(front, id, instrument).Some? {
      FirstFillIsPriced(front, id, instrument);
    } else {
      if FilledQuantity(front, (id, instrument)) != 0.0 {
        FirstFillExists(front, id, instrument);
      }
      assert Fills(e, (id, instrument)) ==> e.price.Some?;
    }
  }

  lemma {:induction false} FirstFillIsPriced(s: seq<Event>, id: string, instrument: string)
    requires AllPriced(s, (id, instrument)) && FirstFill(s, id, instrument).Some?
    ensures FirstFill(s, id, instrument).value.price.Some?
  {
    var front := s[..|s| - 1];
    assert AllPriced(front, (id, instrument)) by {
      assert forall k :: 0 <= k < |front| ==> front[k] == s[k];
    }
    if FirstFill(front, id, instrument).Some? {
      FirstFillIsPriced(front, id, instrument);
    }
  }

  // ----- the code

  /** A database connection: what is durable, and the open transaction's working copy. */
  class Client {
    var durable: Views
    var working: Option<Views>

    constructor (views: Views)
      ensures durable == views && working == None
    {
      durable, working := views, None;
    }

    method Begin()
      requires working == None
      modifies this
      ensures working == Some(durable) && durable == old(durable)
    {
      working := Some(durable);
    }

    method Commit()
      requires working.Some?
      modifies this
      ensures durable == old(working.value) && working == None
    {
      durable, working := working.value, None;
    }

    method Rollback()
      modifies this
      ensures durable == old(durable) && working == None
    {
      working := None;
    }

    method ProjectNextEvent(e: Event, name: string, fault: Fault) returns (ok: bool)
      requires working == None
      modifies this
      ensures working == None
      ensures (durable, ok) == Attempt(old(durable), e, name, fault)
    {
      if fault.AtBegin? {
        return false;
      }
      Begin();
      var r := ApplyToViews(working.value, e);
      if r.Err? || fault.AtStatement? {
        Rollback();
        return false;
      }
      working := Some(r.value);
      if fault.AtCheckpoint? {
        Rollback();
        return false;
      }
      working := Some(AdvanceCheckpoint(working.value, name, e.seqNo));
      if fault.AtCommit? {
        if fault.durable { Commit(); } else { Rollback(); }
        return false;
      }
      Commit();
      return true;
    }

    /** `projectEvents`: sort, then one transaction per event until one throws. */
    method ProjectEvents(events: seq<Event>, name: string, faults: seq<Fault>) returns (applied: seq<int>, ok: bool)
      requires working == None
      modifies this
      ensures working == None
      ensures Outcome(durable, applied, ok) == RunSorted(old(durable), SortBySeq(events), name, faults)
    {
      hide SortBySeq, Attempt, Later, RunSorted;
      var sorted := SortBySeq(events);
      applied, ok := [], true;
      var i := 0;
      ghost var out := RunSorted(durable, sorted, name, faults);
      LaterStart(faults);
      while i < |sorted|
        invariant 0 <= i <= |sorted| && working == None && ok
        invariant var rest := RunSorted(durable, sorted[i..], name, Later(faults, i));
          out.views == rest.views && out.ok == rest.ok && out.applied == applied + rest.applied
      {
        RunFrom(durable, sorted, i, name, faults);
        ok := ProjectNextEvent(sorted[i], name, if i < |faults| then faults[i] else NoFault);
        if !ok {
          return;
        }
        applied := applied + [sorted[i].seqNo];
        i := i + 1;
      }
      assert sorted[i..] == [];
      RunOfNone(durable, name, Later(faults, i));
    }
  }

  lemma RunOfNone(v: Views, name: string, faults: seq<Fault>)
    ensures RunSorted(v, [], name, faults) == Outcome(v, [], true)
  {
  }

  /** One turn of the loop. */
  lemma RunFrom(v: Views, sorted: seq<Event>, i: nat, name: string, faults: seq<Fault>)
    requires i < |sorted|
    ensures var (w, ok) := Attempt(v, sorted[i], name, if i < |faults| then faults[i] else NoFault);
      var out := RunSorted(v, sorted[i..], name, Later(faults, i));
      if !ok then out == Outcome(w, [], false)
      else
        var rest := RunSorted(w, sorted[i + 1..], name, Later(faults, i + 1));
        out == rest.(applied := [sorted[i].seqNo] + rest.applied)
  {
    hide Attempt;
    LaterStep(faults, i);
    assert sorted[i..][1..] == sorted[i + 1..];
  }

  function Later(faults: seq<Fault>, i: nat): seq<Fault> {
    if i <= |faults| then faults[i..] else []
  }

  lemma LaterStart(faults: seq<Fault>)
    ensures Later(faults, 0) == faults
  {
  }

  lemma LaterStep(faults: seq<Fault>, i: nat)
    ensures Later(faults, i) == [] <==> i >= |faults|
    ensures i < |faults| ==> Later(faults, i)[0] == faults[i]
    ensures Later(faults, i + 1) == if Later(faults, i) == [] then [] else Later(faults, i)[1..]
  {
  }
}
