/** Projection-versus-ledger reconciliation over bounded windows of the event log. */
module ProjectionReconciliation {
  import opened Wrappers
  import opened Sequences

  /** `amount` is None when it does not convert to a finite number. */
  datatype Event = Event(accountId: Option<string>, aggregateId: Option<string>, amount: Option<real>)

  function NonEmpty(s: Option<string>): Option<string> {
    if s == Some("") then None else s
  }

  function AccountOf(e: Event): Option<string> {
    if NonEmpty(e.accountId).Some? then e.accountId else NonEmpty(e.aggregateId)
  }

  function DeltaOf(e: Event): real {
    if e.amount.Some? then e.amount.value else 0.0
  }

  type Balances = map<string, real>

  function ValueIn(b: Balances, account: string): real {
    if account in b then b[account] else 0.0
  }

  // ----- the projection

  function ProjectLedger(events: seq<Event>): Balances {
    if events == [] then map[]
    else
      var before, e := ProjectLedger(events[..|events| - 1]), events[|events| - 1];
      if AccountOf(e).None? then before
      else before[AccountOf(e).value := ValueIn(before, AccountOf(e).value) + DeltaOf(e)]
  }

  /** The reference: what the log says about one account. */
  function SumFor(events: seq<Event>, account: string): real {
    if events == [] then 0.0
    else SumFor(events[1..], account) + (if AccountOf(events[0]) == Some(account) then DeltaOf(events[0]) else 0.0)
  }

  predicate Mentions(events: seq<Event>, account: string) {
    exists k :: 0 <= k < |events| && AccountOf(events[k]) == Some(account)
  }

  method ComputeLedger(events: seq<Event>) returns (balances: Balances)
    ensures balances == ProjectLedger(events)
  {
    balances := map[];
    for k := 0 to |events|
      invariant balances == ProjectLedger(events[..k])
    {
      assert events[..k + 1][..k] == events[..k];
      var account := AccountOf(events[k]);
      if account.Some? {
        balances := balances[account.value := ValueIn(balances, account.value) + DeltaOf(events[k])];
      }
    }
    assert events[..|events|] == events;
  }

  lemma {:induction false} SumForSplit(a: seq<Event>, b: seq<Event>, account: string)
    ensures SumFor(a + b, account) == SumFor(a, account) + SumFor(b, account)
  {
    if a == [] {
      assert a + b == b;
    } else {
      assert (a + b)[1..] == a[1..] + b;
      SumForSplit(a[1..], b, account);
    }
  }

  /** Every account's balance is the sum of its own events, and only mentioned accounts have one. */
  lemma {:induction false} LedgerMeaning(events: seq<Event>, account: string)
    ensures account in ProjectLedger(events) <==> Mentions(events, account)
    ensures ValueIn(ProjectLedger(events), account) == SumFor(events, account)
    decreases |events|
  {
    if events != [] {
      var front, e := events[..|events| - 1], events[|events| - 1];
      assert events == front + [e];
      LedgerMeaning(front, account);
      SumForSplit(front, [e], account);
      assert SumFor([e], account) == if AccountOf(e) == Some(account) then DeltaOf(e) else 0.0 by {
        assert [e][1..] == [];
      }
      if Mentions(front, account) {
        var k :| 0 <= k < |front| && AccountOf(front[k]) == Some(account);
        assert AccountOf(events[k]) == Some(account);
      }
      if AccountOf(e) == Some(account) {
        assert AccountOf(events[|events| - 1]) == Some(account);
      }
    }
  }

  /** One more entry changes one balance: that of its account id or, where that is absent or
      empty, of its aggregate id. It adds the amount, or nothing for one that is not finite. */
  lemma EachEntryCounts(events: seq<Event>, e: Event, account: string)
    ensures var owner :=
        if e.accountId.Some? && e.accountId.value != "" then e.accountId
        else if e.aggregateId.Some? && e.aggregateId.value != "" then e.aggregateId
        else None;
      var before, after := ProjectLedger(events), ProjectLedger(events + [e]);
      if owner == Some(account) then
        && account in after
        && after[account] == (if account in before then before[account] else 0.0)
                             + (if e.amount.Some? then e.amount.value else 0.0)
      else
        (account in after <==> account in before) && (account in before ==> after[account] == before[account])
  {
    assert (events + [e])[..|events|] == events;
  }

  // ----- one reconciliation

  datatype Flag = Drifted | Missing
  datatype Difference = Difference(account: string, flag: Flag, expected: real, actual: Option<real>)

  datatype Outcome =
    | Unavailable(checkpoint: nat)
    | Reconciled(matched: bool, differences: seq<Difference>, checkpoint: nat, nextCheckpoint: Option<nat>)

  const MAX_WINDOW: nat := 10_000

  function WindowEnd(total: nat, checkpoint: nat, maxEvents: nat): (end: nat)
    ensures end <= total
  {
    var size := if maxEvents < MAX_WINDOW then maxEvents else MAX_WINDOW;
    if checkpoint + size < total then checkpoint + size else total
  }

  /** `events.slice(checkpoint, checkpoint + size)`. */
  function Window(events: seq<Event>, checkpoint: nat, maxEvents: nat): seq<Event> {
    var end := WindowEnd(|events|, checkpoint, maxEvents);
    if checkpoint <= end then events[checkpoint..end] else []
  }

  /** What is reported for an account, if anything. */
  function DifferenceFor(expected: Balances, actual: Balances, account: string): Option<Difference> {
    var e := ValueIn(expected, account);
    if account !in actual then Some(Difference(account, Missing, e, None))
    else if e != actual[account] then Some(Difference(account, Drifted, e, Some(actual[account])))
    else None
  }

  ghost predicate AreDifferences(diffs: seq<Difference>, expected: Balances, actual: Balances, accounts: set<string>) {
    && (forall j, k :: 0 <= j < k < |diffs| ==> diffs[j].account != diffs[k].account)
    && (forall k :: 0 <= k < |diffs| ==>
         diffs[k].account in accounts && DifferenceFor(expected, actual, diffs[k].account) == Some(diffs[k]))
    && (forall a :: a in accounts && DifferenceFor(expected, actual, a).Some? ==>
         DifferenceFor(expected, actual, a).value in diffs)
  }

  /** No account the log mentions is absent, and every balance agrees, absent ones counting as zero. */
  ghost predicate Agrees(expected: Balances, actual: Balances) {
    && (forall a :: a in expected ==> a in actual)
    && (forall a :: ValueIn(expected, a) == ValueIn(actual, a))
  }

  method Reconcile(events: Option<seq<Event>>, projection: Option<Balances>, watermark: Option<string>,
                   checkpoint: nat, maxEvents: nat) returns (r: Outcome)
    ensures r.Unavailable? <==> events.None? || projection.None? || NonEmpty(watermark).None?
    ensures r.Unavailable? ==> r.checkpoint == checkpoint
    ensures r.Reconciled? ==>
      var window := Window(events.value, checkpoint, maxEvents);
      var expected := ProjectLedger(window);
      && AreDifferences(r.differences, expected, projection.value, expected.Keys + projection.value.Keys)
      && r.matched == (r.differences == [])
      && r.checkpoint == checkpoint + |window|
      && r.nextCheckpoint == if r.checkpoint < |events.value| then Some(r.checkpoint) else None
  {
    if events.None? || projection.None? || NonEmpty(watermark).None? {
      return Unavailable(checkpoint);
    }
    var bounded := Window(events.value, checkpoint, maxEvents);
    var expected := ComputeLedger(bounded);
    var actual := projection.value;
    var todo := expected.Keys + actual.Keys;
    ghost var done: set<string> := {};
    var differences := [];
    while todo != {}
      invariant done + todo == expected.Keys + actual.Keys && done !! todo
      invariant AreDifferences(differences, expected, actual, done)
      decreases todo
    {
      var account :| account in todo;
      var d := DifferenceFor(expected, actual, account);
      if d.Some? {
        differences := differences + [d.value];
      }
      todo, done := todo - {account}, done + {account};
    }
    var reached := checkpoint + |bounded|;
    return Reconciled(differences ==
      [], differences, reached, if reached < |events.value| then Some(reached) else None);
  }

  /** "Matched" is agreement, in both directions. */
  lemma MatchedIffAgrees(expected: Balances, actual: Balances, diffs: seq<Difference>)
    requires AreDifferences(diffs, expected, actual, expected.Keys + actual.Keys)
    ensures diffs == [] <==> Agrees(expected, actual)
  {
    if diffs == [] {
      forall a ensures (a in expected ==> a in actual) && ValueIn(expected, a) == ValueIn(actual, a) {
        assert a in expected.Keys + actual.Keys ==> DifferenceFor(expected, actual, a).None?;
      }
    } else {
      assert DifferenceFor(expected, actual, diffs[0].account) == Some(diffs[0]);
      assert diffs[0].account in expected.Keys + actual.Keys;
    }
  }

  /** What a report says: exactly the accounts that are absent or whose balances disagree, each
      with the log's balance as expected and the projection's, if there is one, as actual. */
  lemma DifferencesMeaning(expected: Balances, actual: Balances, diffs: seq<Difference>, account: string)
    requires AreDifferences(diffs, expected, actual, expected.Keys + actual.Keys)
    ensures forall d :: d in diffs && d.account == account ==>
      && d.expected == (if account in expected then expected[account] else 0.0)
      && d.actual == (if account in actual then Some(actual[account]) else None)
      && (d.flag.Missing? <==> account !in actual)
    ensures (exists d :: d in diffs && d.account == account) <==>
      || (account in expected && account !in actual)
      || (account !in expected && account in actual && actual[account] != 0.0)
      || (account in expected && account in actual && expected[account] != actual[account])
  {
    forall d | d in diffs && d.account == account
      ensures DifferenceFor(expected, actual, account) == Some(d) && account in expected.Keys + actual.Keys
    {
      var k :| 0 <= k < |diffs| && diffs[k] == d;
    }
    if account in expected.Keys + actual.Keys && DifferenceFor(expected, actual, account).Some? {
      assert DifferenceFor(expected, actual, account).value in diffs;
    }
  }

  /** A projection in which every reported account has been set to its expected balance. */
  function Corrected(actual: Balances, diffs: seq<Difference>): Balances {
    if diffs == [] then actual
    else Corrected(actual, diffs[..|diffs| - 1])[diffs[|diffs| - 1].account := diffs[|diffs| - 1].expected]
  }

  lemma {:induction false} CorrectedAt(actual: Balances, diffs: seq<Difference>, account: string, x: real)
    requires forall d :: d in diffs && d.account == account ==> d.expected == x
    ensures var r := Corrected(actual, diffs);
      if exists d :: d in diffs && d.account == account then account in r && r[account] == x
      else (account in r <==> account in actual) && (account in r ==> r[account] == actual[account])
  {
    if diffs != [] {
      var front, last := diffs[..|diffs| - 1], diffs[|diffs| - 1];
      assert diffs == front + [last];
      CorrectedAt(actual, front, account, x);
    }
  }

  /** The report is a patch: with it the projection agrees with the log. */
  lemma ReportIsPatch(expected: Balances, actual: Balances, diffs: seq<Difference>)
    requires AreDifferences(diffs, expected, actual, expected.Keys + actual.Keys)
    ensures Agrees(expected, Corrected(actual, diffs))
  {
    forall account
      ensures account in expected ==> account in Corrected(actual, diffs)
      ensures ValueIn(expected, account) == ValueIn(Corrected(actual, diffs), account)
    {
      DifferencesMeaning(expected, actual, diffs, account);
      hide AreDifferences, Corrected;
      CorrectedAt(actual, diffs, account, ValueIn(expected, account));
    }
  }

  // ----- following the checkpoints

  /** The windows met by following `nextCheckpoint` from a checkpoint until it is null. */
  function Windows(events: seq<Event>, checkpoint: nat, maxEvents: nat): (w: seq<seq<Event>>)
    requires maxEvents >= 1 && checkpoint <= |events|
    decreases |events| - checkpoint
  {
    var window := Window(events, checkpoint, maxEvents);
    var reached := checkpoint + |window|;
    [window] + (if reached < |events| then Windows(events, reached, maxEvents) else [])
  }

  /** Following the checkpoints visits every event exactly once, in order. */
  lemma {:induction false} WindowsCoverTheLog(events: seq<Event>, checkpoint: nat, maxEvents: nat)
    requires maxEvents >= 1 && checkpoint <= |events|
    ensures Concat(Windows(events, checkpoint, maxEvents)) == events[checkpoint..]
    decreases |events| - checkpoint
  {
    hide Concat, Window, WindowEnd;
    WindowShape(events, checkpoint, maxEvents);
    var window := Window(events, checkpoint, maxEvents);
    var reached := checkpoint + |window|;
    if reached < |events| {
      WindowsCoverTheLog(events, reached, maxEvents);
      ConcatStep(window, Windows(events, reached, maxEvents));
      SliceJoin(events, checkpoint, reached);
    } else {
      ConcatStep(window, []);
      ConcatOfNone<Event>();
    }
  }

  lemma WindowShape(events: seq<Event>, checkpoint: nat, maxEvents: nat)
    requires maxEvents >= 1 && checkpoint <= |events|
    ensures var n := |Window(events, checkpoint, maxEvents)|;
      && checkpoint + n <= |events| && (checkpoint < |events| ==> n > 0)
      && Window(events, checkpoint, maxEvents) == events[checkpoint..checkpoint + n]
  {
  }

  lemma SliceJoin(events: seq<Event>, i: nat, j: nat)
    requires i <= j <= |events|
    ensures events[i..j] + events[j..] == events[i..]
  {
  }

  /** No window is longer than the caller's bound or the service's own. */
  lemma {:induction false} WindowsAreBounded(events: seq<Event>, checkpoint: nat, maxEvents: nat, k: nat)
    requires maxEvents >= 1 && checkpoint <= |events| && k < |Windows(events, checkpoint, maxEvents)|
    ensures |Windows(events, checkpoint, maxEvents)[k]| <= MAX_WINDOW
    ensures |Windows(events, checkpoint, maxEvents)[k]| <= maxEvents
    decreases |events| - checkpoint
  {
    if k > 0 {
      WindowsAreBounded(events, checkpoint + |Window(events, checkpoint, maxEvents)|, maxEvents, k - 1);
    }
  }

  /** And none but the last holds fewer events than both bounds allow. */
  lemma {:induction false} WindowsAreFull(events: seq<Event>, checkpoint: nat, maxEvents: nat, k: nat)
    requires maxEvents >= 1 && checkpoint <= |events| && k + 1 < |Windows(events, checkpoint, maxEvents)|
    ensures |Windows(events, checkpoint, maxEvents)[k]| == if maxEvents < 10_000 then maxEvents else 10_000
    decreases |events| - checkpoint
  {
    if k > 0 {
      WindowsAreFull(events, checkpoint + |Window(events, checkpoint, maxEvents)|, maxEvents, k - 1);
    }
  }

  /** A window makes no progress, and the caller loops for ever, exactly when it may hold no event. */
  lemma StuckIff(events: seq<Event>, checkpoint: nat, maxEvents: nat)
    ensures checkpoint < |events| ==> (|Window(events, checkpoint, maxEvents)| == 0 <==> maxEvents == 0)
  {
  }

  function WindowSums(w: seq<seq<Event>>, account: string): real {
    if w == [] then 0.0 else ValueIn(ProjectLedger(w[0]), account) + WindowSums(w[1..], account)
  }

  lemma {:induction false} WindowSumsAddUp(w: seq<seq<Event>>, account: string)
    ensures WindowSums(w, account) == SumFor(Concat(w), account)
    ensures Mentions(Concat(w), account) ==> exists k :: 0 <= k < |w| && account in ProjectLedger(w[k])
  {
    if w != [] {
      WindowSumsAddUp(w[1..], account);
      SumForSplit(w[0], Concat(w[1..]), account);
      LedgerMeaning(w[0], account);
      if Mentions(Concat(w), account) {
        var j :| 0 <= j < |Concat(w)| && AccountOf(Concat(w)[j]) == Some(account);
        if j >= |w[0]| {
          assert AccountOf(Concat(w[1..])[j - |w[0]|]) == Some(account);
          var k :| 0 <= k < |w[1..]| && account in ProjectLedger(w[1..][k]);
          assert w[k + 1] == w[1..][k];
        } else {
          assert AccountOf(w[0][j]) == Some(account);
        }
      }
    }
  }

  /** The pointwise sum of one projection per window. */
  function Merge(parts: seq<Balances>): Balances {
    if parts == [] then map[]
    else
      var rest := Merge(parts[1..]);
      map a | a in parts[0].Keys + rest.Keys :: ValueIn(parts[0], a) + ValueIn(rest, a)
  }

  lemma {:induction false} MergeAgrees(w: seq<seq<Event>>, parts: seq<Balances>, account: string)
    requires |w| == |parts| && forall k :: 0 <= k < |w| ==> Agrees(ProjectLedger(w[k]), parts[k])
    ensures ValueIn(Merge(parts), account) == WindowSums(w, account)
    ensures (exists k :: 0 <= k < |w| && account in ProjectLedger(w[k])) ==> account in Merge(parts)
  {
    if w != [] {
      assert Agrees(ProjectLedger(w[0]), parts[0]);
      forall k | 0 <= k < |w[1..]| ensures Agrees(ProjectLedger(w[1..][k]), parts[1..][k]) {
        assert w[1..][k] == w[k + 1] && parts[1..][k] == parts[k + 1];
      }
      MergeAgrees(w[1..], parts[1..], account);
      if k :| 0 <= k < |w| && account in ProjectLedger(w[k]) {
        if k == 0 {
          assert account in parts[0];
        } else {
          assert w[1..][k - 1] == w[k];
        }
      }
    }
  }

  /** Windows that all match compose: the sum of their projections matches the whole log. */
  lemma MatchedWindowsCompose(events: seq<Event>, maxEvents: nat, parts: seq<Balances>)
    requires maxEvents >= 1 && |parts| == |Windows(events, 0, maxEvents)|
    requires forall k :: 0 <= k < |parts| ==> Agrees(ProjectLedger(Windows(events, 0, maxEvents)[k]), parts[k])
    ensures Agrees(ProjectLedger(events), Merge(parts))
  {
    var w := Windows(events, 0, maxEvents);
    WindowsCoverTheLog(events, 0, maxEvents);
    assert events[0..] == events;
    forall a
      ensures a in ProjectLedger(events) ==> a in Merge(parts)
      ensures ValueIn(ProjectLedger(events), a) == ValueIn(Merge(parts), a)
    {
      LedgerMeaning(events, a);
      WindowSumsAddUp(w, a);
      MergeAgrees(w, parts, a);
    }
  }

  ghost predicate AllMatch(w: seq<seq<Event>>, p: Balances) {
    forall k :: 0 <= k < |w| ==> Agrees(ProjectLedger(w[k]), p)
  }

  lemma {:induction false} SameProjectionSums(w: seq<seq<Event>>, p: Balances, account: string)
    requires AllMatch(w, p)
    ensures WindowSums(w, account) == |w| as real * ValueIn(p, account)
    ensures (exists k :: 0 <= k < |w| && account in ProjectLedger(w[k])) ==> account in p
  {
    hide ProjectLedger;
    if w != [] {
      assert Agrees(ProjectLedger(w[0]), p);
      assert AllMatch(w[1..], p) by {
        assert forall k :: 0 <= k < |w[1..]| ==> w[1..][k] == w[k + 1];
      }
      SameProjectionSums(w[1..], p, account);
      if k :| 0 < k < |w| && account in ProjectLedger(w[k]) {
        assert w[k] == w[1..][k - 1];
      }
      OneMoreTime(|w|, ValueIn(p, account));
    }
  }

  lemma OneMoreTime(n: nat, x: real)
    requires n >= 1
    ensures n as real * x == x + (n - 1) as real * x
  {
  }

  lemma SameProjectionAccount(events: seq<Event>, maxEvents: nat, p: Balances, account: string)
    requires maxEvents >= 1 && AllMatch(Windows(events, 0, maxEvents), p)
    ensures account in ProjectLedger(events) ==> account in p
    ensures ValueIn(ProjectLedger(events), account) == |Windows(events, 0, maxEvents)| as real * ValueIn(p, account)
  {
    hide AllMatch, Agrees, Windows, ProjectLedger, WindowSums, SumFor, Concat;
    var w := Windows(events, 0, maxEvents);
    WindowsCoverTheLog(events, 0, maxEvents);
    assert events[0..] == events;
    LedgerMeaning(events, account);
    WindowSumsAddUp(w, account);
    SameProjectionSums(w, p, account);
  }

  /** Every balance of the log is n times that of the projection. */
  ghost predicate Scaled(expected: Balances, p: Balances, n: nat) {
    forall a :: (a in expected ==> a in p) && ValueIn(expected, a) == n as real * ValueIn(p, a)
  }

  lemma SameProjectionScales(events: seq<Event>, maxEvents: nat, p: Balances)
    requires maxEvents >= 1 && AllMatch(Windows(events, 0, maxEvents), p)
    ensures Scaled(ProjectLedger(events), p, |Windows(events, 0, maxEvents)|)
  {
    hide ProjectLedger, Windows, Agrees, AllMatch, ValueIn;
    forall a
      ensures a in ProjectLedger(events) ==> a in p
      ensures ValueIn(ProjectLedger(events), a) == |Windows(events, 0, maxEvents)| as real * ValueIn(p, a)
    {
      SameProjectionAccount(events, maxEvents, p, a);
    }
  }

  lemma ScaledAgreesIff(expected: Balances, p: Balances, n: nat)
    requires n >= 1 && Scaled(expected, p, n)
    ensures Agrees(expected, p) <==> n == 1 || forall a :: a in p ==> p[a] == 0.0
  {
    if n == 1 {
      forall a ensures ValueIn(expected, a) == ValueIn(p, a) {
        OneMoreTime(1, ValueIn(p, a));
      }
    } else if Agrees(expected, p) {
      forall a | a in p ensures p[a] == 0.0 {
        assert ValueIn(expected, a) == ValueIn(p, a) == p[a];
        OnlyZeroRepeats(n, p[a]);
      }
    } else if forall a :: a in p ==> p[a] == 0.0 {
      forall a ensures ValueIn(expected, a) == ValueIn(p, a) {
        assert ValueIn(p, a) == 0.0;
      }
      assert false;
    }
  }

  lemma SingleWindowIff(events: seq<Event>, maxEvents: nat)
    requires maxEvents >= 1
    ensures |Windows(events, 0, maxEvents)| == 1 <==> |events| <= maxEvents && |events| <= MAX_WINDOW
  {
    WindowShape(events, 0, maxEvents);
  }

  /** Windows that all match one and the same projection: the whole log matches it exactly when
      it fits into a single window or every balance of the projection is zero. */
  lemma SameProjectionComposesIff(events: seq<Event>, maxEvents: nat, p: Balances)
    requires maxEvents >= 1 && AllMatch(Windows(events, 0, maxEvents), p)
    ensures Agrees(ProjectLedger(events), p) <==>
      (|events| <= maxEvents && |events| <= MAX_WINDOW) || forall a :: a in p ==> p[a] == 0.0
  {
    hide ProjectLedger, Windows, Agrees, AllMatch, Scaled;
    SingleWindowIff(events, maxEvents);
    WindowsExist(events, maxEvents);
    SameProjectionScales(events, maxEvents, p);
    ScaledAgreesIff(ProjectLedger(events), p, |Windows(events, 0, maxEvents)|);
  }

  lemma WindowsExist(events: seq<Event>, maxEvents: nat)
    requires maxEvents >= 1
    ensures Windows(events, 0, maxEvents) != []
  {
  }

  lemma OnlyZeroRepeats(n: nat, x: real)
    requires n >= 2 && n as real * x == x
    ensures x == 0.0
  {
    assert (n - 1) as real * x == 0.0;
  }

  /** Two equal entries in two windows: each matches the projection, the log does not. */
  lemma SameProjectionCanMislead(e: Event)
    requires AccountOf(e).Some? && DeltaOf(e) != 0.0
    ensures var p := map[AccountOf(e).value := DeltaOf(e)];
      && Windows([e, e], 0, 1) == [[e], [e]]
      && Agrees(ProjectLedger([e]), p) && !Agrees(ProjectLedger([e, e]), p)
  {
    assert [e][..0] == [] && [e, e][..1] == [e];
    assert [e, e][0..1] == [e] && [e, e][1..2] == [e];
    var account := AccountOf(e).value;
    assert ProjectLedger([e]) == map[account := DeltaOf(e)];
    assert ValueIn(ProjectLedger([e, e]), account) == DeltaOf(e) + DeltaOf(e);
    assert Windows([e, e], 1, 1) == [[e]];
  }

  /** Splitting the log never changes an account's total. */
  lemma WindowsPreserveBalances(events: seq<Event>, maxEvents: nat, account: string)
    requires maxEvents >= 1
    ensures WindowSums(Windows(events, 0, maxEvents), account) == ValueIn(ProjectLedger(events), account)
  {
    WindowsCoverTheLog(events, 0, maxEvents);
    WindowSumsAddUp(Windows(events, 0, maxEvents), account);
    LedgerMeaning(events, account);
    assert events[0..] == events;
  }
}
