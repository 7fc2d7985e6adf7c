/** The circuit breaker around database calls. `call` awaits its function, so any number of
    calls may be in flight between an admission and the matching success or failure. */
module CircuitBreaker {
  import opened Wrappers

  datatype State = Closed | Open | HalfOpen

  datatype Breaker = Breaker(state: State, failures: nat, nextAttempt: int)

  /** One thing that happens to the breaker, at a reading of the clock. */
  datatype Event = Start(now: int) | Succeed(now: int) | Fail(now: int)

  datatype Config = Config(breaker: Breaker, inFlight: nat)

  // ----- the transitions

  predicate Admits(b: Breaker, now: int) {
    b.state.Open? ==> now >= b.nextAttempt
  }

  function AfterAdmission(b: Breaker): Breaker {
    if b.state.Open? then b.(state := HalfOpen) else b
  }

  function AfterSuccess(b: Breaker): Breaker {
    b.(failures := 0, state := Closed)
  }

  function AfterFailure(b: Breaker, now: int, threshold: int, timeout: int): Breaker {
    var n := b.failures + 1;
    if n >= threshold then Breaker(Open, n, now + timeout) else b.(failures := n)
  }

  function Step(c: Config, e: Event, threshold: int, timeout: int): Config {
    match e
    case Start(now) => if Admits(c.breaker, now) then Config(AfterAdmission(c.breaker), c.inFlight + 1) else c
    case Succeed(_) => if c.inFlight == 0 then c else Config(AfterSuccess(c.breaker), c.inFlight - 1)
    case Fail(now) =>
      if c.inFlight == 0 then c else Config(AfterFailure(c.breaker, now, threshold, timeout), c.inFlight - 1)
  }

  function After(t0: int, events: seq<Event>, threshold: int, timeout: int): Config {
    if events == [] then Config(Breaker(Closed, 0, t0), 0)
    else Step(After(t0, events[..|events| - 1], threshold, timeout), events[|events| - 1], threshold, timeout)
  }

  /** The clock never runs backwards, and only calls in flight succeed or fail. */
  ghost predicate IsRun(t0: int, events: seq<Event>, threshold: int, timeout: int) {
    && (forall j, k :: 0 <= j < k < |events| ==> events[j].now <= events[k].now)
    && (forall k :: 0 <= k < |events| && !events[k].Start? ==> After(t0, events[..k], threshold, timeout).inFlight > 0)
  }

  function FailuresSinceSuccess(events: seq<Event>): nat {
    if events == [] then 0
    else match events[|events| - 1]
      case Start(_) => FailuresSinceSuccess(events[..|events| - 1])
      case Succeed(_) => 0
      case Fail(_) => FailuresSinceSuccess(events[..|events| - 1]) + 1
  }

  // ----- every run

  lemma PrefixIsRun(t0: int, events: seq<Event>, k: nat, threshold: int, timeout: int)
    requires IsRun(t0, events, threshold, timeout) && k <= |events|
    ensures IsRun(t0, events[..k], threshold, timeout)
  {
    forall j | 0 <= j < k && !events[..k][j].Start?
      ensures After(t0, events[..k][..j], threshold, timeout).inFlight > 0
    {
      assert events[..k][..j] == events[..j] && !events[j].Start?;
    }
  }

  /** The counter holds the failures since the latest success, whatever overlaps. */
  lemma {:induction false} CountsFailuresSinceSuccess(t0: int, events: seq<Event>, threshold: int, timeout: int)
    requires IsRun(t0, events, threshold, timeout)
    ensures After(t0, events, threshold, timeout).breaker.failures == FailuresSinceSuccess(events)
  {
    if events != [] {
      PrefixIsRun(t0, events, |events| - 1, threshold, timeout);
      CountsFailuresSinceSuccess(t0, events[..|events| - 1], threshold, timeout);
    }
  }

  predicate ClosedMeansBelow(b: Breaker, threshold: int) {
    b.state.Closed? <==> b.failures < threshold
  }

  lemma {:induction false} ClosedBelowThreshold(t0: int, events: seq<Event>, threshold: int, timeout: int)
    requires threshold >= 1
    ensures ClosedMeansBelow(After(t0, events, threshold, timeout).breaker, threshold)
  {
    if events != [] {
      ClosedBelowThreshold(t0, events[..|events| - 1], threshold, timeout);
    }
  }

  /** "Closed means fewer failures than the threshold", in both directions and in every run,
      holds exactly for a threshold of at least one. */
  lemma ClosedIffBelowThreshold(threshold: int)
    ensures threshold >= 1 <==> forall t0: int, events: seq<Event>, timeout: int ::
      ClosedMeansBelow(After(t0, events, threshold, timeout).breaker, threshold)
  {
    if threshold >= 1 {
      forall t0: int, events: seq<Event>, timeout: int
        ensures ClosedMeansBelow(After(t0, events, threshold, timeout).breaker, threshold)
      {
        ClosedBelowThreshold(t0, events, threshold, timeout);
      }
    } else {
      assert !ClosedMeansBelow(After(0, [], threshold, 0).breaker, threshold);
    }
  }

  /** What keeps calls out after the failure at i: closed is impossible, open waits for the
      deadline, and half-open is only reached after it. */
  ghost predicate KeepsOut(b: Breaker, deadline: int, latest: int) {
    && !b.state.Closed?
    && (b.state.Open? ==> b.nextAttempt >= deadline)
    && (b.state.HalfOpen? ==> latest >= deadline)
  }

  lemma {:induction false} OpenKeepsCallsOut(t0: int, events: seq<Event>, i: nat, j: nat, threshold: int, timeout: int)
    requires threshold >= 1 && timeout >= 0 && IsRun(t0, events, threshold, timeout) && i < j <= |events|
    requires events[i].Fail? && After(t0, events[..i + 1], threshold, timeout).breaker.state.Open?
    requires forall k :: i < k < j ==> !events[k].Succeed?
    ensures KeepsOut(After(t0, events[..j], threshold, timeout).breaker, events[i].now + timeout, events[j - 1].now)
  {
    assert events[..j][..j - 1] == events[..j - 1];
    var c := After(t0, events[..j - 1], threshold, timeout);
    assert After(t0, events[..j], threshold, timeout) == Step(c, events[j - 1], threshold, timeout);
    assert !events[j - 1].Start? ==> c.inFlight > 0;
    if j > i + 1 {
      OpenKeepsCallsOut(t0, events, i, j - 1, threshold, timeout);
      ClosedBelowThreshold(t0, events[..j - 1], threshold, timeout);
      assert events[i].now <= events[j - 2].now <= events[j - 1].now;
    } else {
      assert c.breaker.failures + 1 >= threshold by {
        if c.breaker.failures + 1 < threshold {
          ClosedBelowThreshold(t0, events[..j], threshold, timeout);
        }
      }
    }
  }

  /** Safety: after a failure that leaves the breaker open, no call is let through before that
      failure's time plus the timeout, unless a call in flight succeeds in between. */
  lemma NoAdmissionBeforeTimeout(t0: int, events: seq<Event>, i: nat, j: nat, threshold: int, timeout: int)
    requires threshold >= 1 && timeout >= 0 && IsRun(t0, events, threshold, timeout) && i < j < |events|
    requires events[i].Fail? && After(t0, events[..i + 1], threshold, timeout).breaker.state.Open?
    requires forall k :: i < k < j ==> !events[k].Succeed?
    requires events[j].Start? && Admits(After(t0, events[..j], threshold, timeout).breaker, events[j].now)
    ensures events[j].now >= events[i].now + timeout
  {
    OpenKeepsCallsOut(t0, events, i, j, threshold, timeout);
    assert events[j - 1].now <= events[j].now;
  }

  /** Recovery: from any state, once the deadline has passed the next call is admitted, and if
      it succeeds the breaker is closed with a clean count. */
  lemma RecoversAfterDeadline(c: Config, now: int, later: int, threshold: int, timeout: int)
    requires now >= c.breaker.nextAttempt
    ensures Admits(c.breaker, now)
    ensures var d := Step(Step(c, Start(now), threshold, timeout), Succeed(later), threshold, timeout);
      d == Config(Breaker(Closed, 0, c.breaker.nextAttempt), c.inFlight)
  {
  }

  /** The time of the latest failure. */
  function LatestFailure(events: seq<Event>): Option<int> {
    if events == [] then None
    else if events[|events| - 1].Fail? then Some(events[|events| - 1].now)
    else LatestFailure(events[..|events| - 1])
  }

  ghost predicate LatestAt(events: seq<Event>, k: nat) {
    k < |events| && events[k].Fail? && forall j :: k < j < |events| ==> !events[j].Fail?
  }

  lemma {:induction false} LatestFailureMeaning(events: seq<Event>, k: nat)
    ensures LatestAt(events, k) ==> LatestFailure(events) == Some(events[k].now)
    ensures (forall j :: 0 <= j < |events| ==> !events[j].Fail?) ==> LatestFailure(events).None?
  {
    if events != [] && !events[|events| - 1].Fail? {
      LatestFailureMeaning(events[..|events| - 1], k);
    }
  }

  /** An open breaker waits for the latest failure's time plus the timeout: neither an earlier
      failure nor the number of failures moves the deadline. */
  ghost predicate WaitsForLatest(b: Breaker, at: Option<int>, threshold: int, timeout: int) {
    b.state.Open? ==> at.Some? && b.failures >= threshold && b.nextAttempt == at.value + timeout
  }

  lemma StepWaitsForLatest(c: Config, at: Option<int>, e: Event, threshold: int, timeout: int)
    requires WaitsForLatest(c.breaker, at, threshold, timeout) && (e.Fail? ==> c.inFlight > 0)
    ensures WaitsForLatest(Step(c, e, threshold, timeout).breaker, if e.Fail? then Some(e.now) else at,
                           threshold, timeout)
  {
  }

  lemma {:induction false} OpenWaitsForLatestFailure(t0: int, events: seq<Event>, threshold: int, timeout: int)
    requires IsRun(t0, events, threshold, timeout)
    ensures WaitsForLatest(After(t0, events, threshold, timeout).breaker, LatestFailure(events), threshold, timeout)
  {
    if events != [] {
      var n := |events| - 1;
      PrefixIsRun(t0, events, n, threshold, timeout);
      OpenWaitsForLatestFailure(t0, events[..n], threshold, timeout);
      assert events[n].Fail? ==> After(t0, events[..n], threshold, timeout).inFlight > 0;
      StepWaitsForLatest(After(t0, events[..n], threshold, timeout), LatestFailure(events[..n]), events[n],
                         threshold, timeout);
    }
    hide IsRun, WaitsForLatest, Step;
  }

  /** Recovery in every run: a call is admitted whenever no failure has happened yet or the
      latest one is at least the timeout ago. */
  lemma AdmittedAfterLatestFailure(t0: int, events: seq<Event>, now: int, threshold: int, timeout: int)
    requires IsRun(t0, events, threshold, timeout)
    requires LatestFailure(events).Some? ==> now >= LatestFailure(events).value + timeout
    ensures Admits(After(t0, events, threshold, timeout).breaker, now)
  {
    OpenWaitsForLatestFailure(t0, events, threshold, timeout);
  }

  /** While the breaker is open the same bound is exact: a call is let through if and only if
      the latest failure is at least the timeout ago. */
  lemma OpenAdmitsIff(t0: int, events: seq<Event>, now: int, threshold: int, timeout: int)
    requires IsRun(t0, events, threshold, timeout) && After(t0, events, threshold, timeout).breaker.state.Open?
    ensures LatestFailure(events).Some?
    ensures Admits(After(t0, events, threshold, timeout).breaker, now)
      <==> now >= LatestFailure(events).value + timeout
  {
    OpenWaitsForLatestFailure(t0, events, threshold, timeout);
  }

  // ----- half-open

  /** A second call is in flight while the breaker is half-open exactly when a call started while
      another was in flight, and the breaker was half-open already or open past its deadline. */
  lemma CrowdedHalfOpenIff(t0: int, events: seq<Event>, e: Event, threshold: int, timeout: int)
    requires threshold >= 1
    ensures var before, after := After(t0, events, threshold, timeout), After(t0, events + [e], threshold, timeout);
      (after.breaker.state.HalfOpen? && after.inFlight >= 2)
      <==> (&& e.Start? && before.inFlight >= 1 && Admits(before.breaker, e.now) && !before.breaker.state.Closed?)
  {
    assert (events + [e])[..|events|] == events;
    ClosedBelowThreshold(t0, events, threshold, timeout);
  }

  function Repeat(e: Event, n: nat): (r: seq<Event>)
    ensures |r| == n && forall k :: 0 <= k < n ==> r[k] == e
  {
    if n == 0 then [] else Repeat(e, n - 1) + [e]
  }

  lemma AfterAppend(t0: int, events: seq<Event>, e: Event, threshold: int, timeout: int)
    ensures After(t0, events + [e], threshold, timeout)
      == Step(After(t0, events, threshold, timeout), e, threshold, timeout)
  {
    assert (events + [e])[..|events|] == events;
  }

  lemma {:induction false} AfterStarts(t0: int, now: int, events: seq<Event>, n: nat, threshold: int, timeout: int)
    requires Admits(After(t0, events, threshold, timeout).breaker, now)
    ensures var c := After(t0, events, threshold, timeout);
      After(t0, events + Repeat(Start(now), n), threshold, timeout)
        == if n == 0 then c else Config(AfterAdmission(c.breaker), c.inFlight + n)
  {
    if n == 0 {
      assert events + Repeat(Start(now), 0) == events;
    } else {
      AfterStarts(t0, now, events, n - 1, threshold, timeout);
      AfterAppend(t0, events + Repeat(Start(now), n - 1), Start(now), threshold, timeout);
      assert events + Repeat(Start(now), n) == events + Repeat(Start(now), n - 1) + [Start(now)];
    }
  }

  lemma AfterNothing(t0: int, threshold: int, timeout: int)
    ensures After(t0, [], threshold, timeout) == Config(Breaker(Closed, 0, t0), 0)
  {
  }

  lemma RepeatLast(e: Event, n: nat)
    ensures Repeat(e, n) == if n == 0 then [] else Repeat(e, n - 1) + [e]
  {
  }

  /** The failures of as many calls as there are; the threshold-th one opens the breaker. */
  lemma {:induction false} AfterFailures(t0: int, n: nat, m: nat, threshold: int, timeout: int)
    requires threshold >= 1 && n <= m && n <= threshold
    ensures After(t0, Repeat(Start(t0), m) + Repeat(Fail(t0), n), threshold, timeout)
      == Config(if n < threshold then Breaker(Closed, n, t0) else Breaker(Open, n, t0 + timeout), m - n)
  {
    hide After, Repeat;
    var starts := Repeat(Start(t0), m);
    RepeatLast(Fail(t0), n);
    if n == 0 {
      assert [] + starts == starts && starts + Repeat(Fail(t0), 0) == starts;
      AfterNothing(t0, threshold, timeout);
      AfterStarts(t0, t0, [], m, threshold, timeout);
    } else {
      AfterFailures(t0, n - 1, m, threshold, timeout);
      var before := starts + Repeat(Fail(t0), n - 1);
      assert starts + Repeat(Fail(t0), n) == before + [Fail(t0)];
      AfterAppend(t0, before, Fail(t0), threshold, timeout);
    }
  }

  /** Half-open is not a single probe: for every threshold, once that many failures have opened
      the breaker and the deadline has passed, any number of calls get in flight at once. */
  lemma HalfOpenAdmitsAnyNumber(t0: int, now: int, n: nat, threshold: nat, timeout: int)
    requires threshold >= 1 && now >= t0 + timeout
    ensures var events := Repeat(Start(t0), threshold) + Repeat(Fail(t0), threshold) + Repeat(Start(now), n);
      After(t0, events, threshold, timeout)
        == Config(Breaker(if n == 0 then Open else HalfOpen, threshold, t0 + timeout), n)
  {
    AfterFailures(t0, threshold, threshold, threshold, timeout);
    AfterStarts(t0, now, Repeat(Start(t0), threshold) + Repeat(Fail(t0), threshold), n, threshold, timeout);
  }

  /** These events are a run: every failure is that of a call in flight. */
  lemma OpeningIsRun(t0: int, now: int, n: nat, threshold: nat, timeout: int)
    requires threshold >= 1 && now >= t0
    ensures var events := Repeat(Start(t0), threshold) + Repeat(Fail(t0), threshold) + Repeat(Start(now), n);
      IsRun(t0, events, threshold, timeout)
  {
    var events := Repeat(Start(t0), threshold) + Repeat(Fail(t0), threshold) + Repeat(Start(now), n);
    forall k | 0 <= k < |events| && !events[k].Start? ensures After(t0, events[..k], threshold, timeout).inFlight > 0 {
      var j := k - threshold;
      RepeatPrefix(Fail(t0), threshold, j);
      assert events[..k] == Repeat(Start(t0), threshold) + Repeat(Fail(t0), j);
      AfterFailures(t0, j, threshold, threshold, timeout);
    }
  }

  lemma RepeatPrefix(e: Event, n: nat, k: nat)
    requires k <= n
    ensures Repeat(e, n)[..k] == Repeat(e, k)
  {
  }

  // ----- the class

  class CircuitBreaker {
    const threshold: int
    const timeout: int
    var failureCount: nat
    var state: State
    var nextAttempt: int

    function Abs(): Breaker
      reads this
    {
      Breaker(state, failureCount, nextAttempt)
    }

    constructor (threshold: int, timeout: int, now: int)
      ensures this.threshold == threshold && this.timeout == timeout
      ensures Abs() == After(now, [], threshold, timeout).breaker
    {
      this.threshold := threshold;
      this.timeout := timeout;
      failureCount, state, nextAttempt := 0, Closed, now;
    }

    /** The part of `call` before the await: throw, or let the call through. */
    method Enter(now: int) returns (admitted: bool)
      modifies this
      ensures admitted == Admits(old(Abs()), now)
      ensures Abs() == if admitted then AfterAdmission(old(Abs())) else old(Abs())
    {
      if state == Open {
        if now < nextAttempt {
          return false;
        }
        state := HalfOpen;
      }
      return true;
    }

    method OnSuccess()
      modifies this
      ensures Abs() == AfterSuccess(old(Abs()))
    {
      failureCount := 0;
      state := Closed;
    }

    method OnFailure(now: int)
      modifies this
      ensures Abs() == AfterFailure(old(Abs()), now, threshold, timeout)
    {
      failureCount := failureCount + 1;
      if failureCount >= threshold {
        state := Open;
        nextAttempt := now + timeout;
      }
    }
  }
}
