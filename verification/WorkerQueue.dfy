/** app/worker.py `process_claimed_item`: what one claim does to a queue item, and the whole life of
    an item over any sequence of claims. Times are microseconds. Everything the pass looks up
    (prompt, model, quota, other runs, what the provider does) is given by a `World`. */
module WorkerQueue {
  import opened Options

  type Time = int

  const MINUTE := 60000000
  const BACKOFF_MINUTES: seq<nat> := [1, 5, 25]
  const MAX_TRANSPORT_ATTEMPTS := |BACKOFF_MINUTES| + 1
  const BILLING_RETRY_MINUTES := 30

  datatype Status = Queued | Leased | Done | Error | Skipped | Deferred | Cancelled

  datatype SkipReason = GraceExpired | InactivePrompt | InactiveModel | QuotaExceeded | DryRun

  datatype ErrorCategory = Billing | RateLimit | Auth | Transient | InvalidRequest | Unknown

  datatype Outcome = Success | Failure(category: ErrorCategory)

  datatype World = World(
    promptActive: bool,
    modelActive: bool,
    quotaReached: bool,
    collision: bool,
    dryRun: bool,
    newRunId: int,
    outcome: Outcome)

  /** The fields of a `run_queue` row that the pass reads or writes. */
  datatype Item = Item(
    status: Status,
    skipReason: Option<SkipReason>,
    scheduledFor: Time,
    queuedAt: Option<Time>,
    attempts: nat,
    transportAttempts: nat,
    runId: Option<int>,
    lastError: Option<ErrorCategory>,
    finishedAt: Option<Time>)

  function Backoff(attempts: int): nat {
    BACKOFF_MINUTES[Min(Max(attempts - 1, 0), |BACKOFF_MINUTES| - 1)]
  }

  predicate IsRetryable(c: ErrorCategory) {
    c == RateLimit || c == Transient || c == Unknown
  }

  predicate IsWaiting(i: Item) {
    i.status == Queued || i.status == Deferred
  }

  predicate IsTerminal(s: Status) {
    s == Done || s == Error || s == Skipped || s == Cancelled
  }

  /** The time the age of an item is measured from. */
  function GraceOrigin(i: Item): Time {
    Min(i.scheduledFor, if i.queuedAt.Some? then i.queuedAt.value else i.scheduledFor)
  }

  function Skip(i: Item, reason: SkipReason, now: Time): Item {
    i.(status := Skipped, skipReason := Some(reason), finishedAt := Some(now))
  }

  /** The pass gets as far as calling the provider. */
  predicate CallsProvider(i: Item, w: World, now: Time, graceMinutes: int) {
    && now - GraceOrigin(i) <= graceMinutes * MINUTE
    && w.promptActive && w.modelActive && !w.quotaReached && !w.collision && !w.dryRun
  }

  /** What the provider's answer makes of an item. */
  function AfterCall(i: Item, outcome: Outcome, now: Time): Item {
    match outcome
    case Success => i.(status := Done, finishedAt := Some(now))
    case Failure(c) =>
      if c == Billing then
        i.(lastError := Some(c), status := Deferred, scheduledFor := now + BILLING_RETRY_MINUTES * MINUTE)
      else
        var n := i.transportAttempts + 1;
        if IsRetryable(c) && n < MAX_TRANSPORT_ATTEMPTS then
          i.(lastError := Some(c), transportAttempts := n, status := Queued,
             scheduledFor := now + Backoff(n) * MINUTE)
        else
          i.(lastError := Some(c), transportAttempts := n, status := Error, finishedAt := Some(now))
  }

  function Processed(i: Item, w: World, now: Time, graceMinutes: int): Item {
    if now - GraceOrigin(i) > graceMinutes * MINUTE then Skip(i, GraceExpired, now)
    else if !w.promptActive then Skip(i, InactivePrompt, now)
    else if !w.modelActive then Skip(i, InactiveModel, now)
    else if w.quotaReached then Skip(i, QuotaExceeded, now)
    else if w.collision then i.(status := Deferred, scheduledFor := now + Backoff(i.attempts) * MINUTE)
    else if w.dryRun then Skip(i, DryRun, now)
    else AfterCall(i.(runId := Some(w.newRunId)), w.outcome, now)
  }

  /** `claim_next` picks waiting items that are due. */
  predicate CanClaim(i: Item, now: Time) {
    IsWaiting(i) && i.scheduledFor <= now
  }

  function Claimed(i: Item): Item {
    i.(status := Leased, attempts := i.attempts + 1)
  }

  class RunQueueItem {
    var status: Status
    var skipReason: Option<SkipReason>
    var scheduledFor: Time
    var queuedAt: Option<Time>
    var attempts: nat
    var transportAttempts: nat
    var runId: Option<int>
    var lastError: Option<ErrorCategory>
    var finishedAt: Option<Time>

    function State(): Item
      reads this
    {
      Item(status, skipReason, scheduledFor, queuedAt, attempts, transportAttempts, runId, lastError, finishedAt)
    }

    constructor (scheduledFor: Time, queuedAt: Option<Time>)
      ensures State() == Enqueued(scheduledFor, queuedAt)
    {
      this.status, this.skipReason, this.scheduledFor, this.queuedAt := Queued, None, scheduledFor, queuedAt;
      this.attempts, this.transportAttempts, this.runId, this.lastError, this.finishedAt := 0, 0, None, None, None;
    }

    method Claim(now: Time) returns (claimed: bool)
      modifies this
      ensures claimed == CanClaim(old(State()), now)
      ensures State() == if claimed then Claimed(old(State())) else old(State())
    {
      claimed := (status == Queued || status == Deferred) && scheduledFor <= now;
      if claimed {
        status := Leased;
        attempts := attempts + 1;
      }
    }

    method ProcessClaimedItem(w: World, now: Time, graceMinutes: int) returns (called: bool)
      modifies this
      ensures State() == Processed(old(State()), w, now, graceMinutes)
      ensures called == CallsProvider(old(State()), w, now, graceMinutes)
    {
      called := false;
      var origin := Min(scheduledFor, if queuedAt.Some? then queuedAt.value else scheduledFor);
      if now - origin > graceMinutes * MINUTE {
        status, skipReason, finishedAt := Skipped, Some(GraceExpired), Some(now);
        return;
      }
      if !w.promptActive {
        status, skipReason, finishedAt := Skipped, Some(InactivePrompt), Some(now);
        return;
      }
      if !w.modelActive {
        status, skipReason, finishedAt := Skipped, Some(InactiveModel), Some(now);
        return;
      }
      if w.quotaReached {
        status, skipReason, finishedAt := Skipped, Some(QuotaExceeded), Some(now);
        return;
      }
      if w.collision {
        status := Deferred;
        scheduledFor := now + Backoff(attempts) * MINUTE;
        return;
      }
      if w.dryRun {
        status, skipReason, finishedAt := Skipped, Some(DryRun), Some(now);
        return;
      }
      runId := Some(w.newRunId);
      called := true;
      if w.outcome.Failure? {
        lastError := Some(w.outcome.category);
        if w.outcome.category == Billing {
          status := Deferred;
          scheduledFor := now + BILLING_RETRY_MINUTES * MINUTE;
          return;
        }
        transportAttempts := transportAttempts + 1;
        if IsRetryable(w.outcome.category) && transportAttempts < MAX_TRANSPORT_ATTEMPTS {
          status := Queued;
          scheduledFor := now + Backoff(transportAttempts) * MINUTE;
        } else {
          status := Error;
          finishedAt := Some(now);
        }
        return;
      }
      status := Done;
      finishedAt := Some(now);
    }
  }

  // ----- the life of an item -----

  function Enqueued(scheduledFor: Time, queuedAt: Option<Time>): Item {
    Item(Queued, None, scheduledFor, queuedAt, 0, 0, None, None, None)
  }

  /** A worker claims the item and finishes its pass, or somebody cancels the item. */
  datatype Event = Pass(now: Time, world: World) | Cancel(now: Time)

  datatype Call = Call(now: Time, outcome: Outcome)

  /** An item with its history: claim times, provider calls, waits ordered after transport failures. */
  datatype Life = Life(item: Item, claims: seq<Time>, calls: seq<Call>, transportWaits: seq<Time>)

  predicate IsTransportFailure(o: Outcome) {
    o.Failure? && o.category != Billing
  }

  function Step(l: Life, e: Event, graceMinutes: int): Life {
    match e
    case Cancel(now) =>
      if l.item.status == Queued then l.(item := l.item.(status := Cancelled, finishedAt := Some(now))) else l
    case Pass(now, w) =>
      if !CanClaim(l.item, now) then l
      else
        var held := Claimed(l.item);
        var after := Processed(held, w, now, graceMinutes);
        var called := CallsProvider(held, w, now, graceMinutes);
        Life(after,
             l.claims + [now],
             if called then l.calls + [Call(now, w.outcome)] else l.calls,
             if called && IsTransportFailure(w.outcome) && IsWaiting(after) then
               l.transportWaits + [after.scheduledFor - now]
             else l.transportWaits)
  }

  function Live(scheduledFor: Time, queuedAt: Option<Time>, events: seq<Event>, graceMinutes: int): Life {
    if events == [] then Life(Enqueued(scheduledFor, queuedAt), [], [], [])
    else
      Step(Live(scheduledFor, queuedAt, events[..|events| - 1], graceMinutes), events[|events| - 1], graceMinutes)
  }

  function TransportFailures(calls: seq<Call>): nat {
    if calls == [] then 0
    else
      TransportFailures(calls[..|calls| - 1]) + if IsTransportFailure(calls[|calls| - 1].outcome) then 1 else 0
  }

  function BillingFailures(calls: seq<Call>): nat {
    if calls == [] then 0
    else
      BillingFailures(calls[..|calls| - 1])
      + if calls[|calls| - 1].outcome == Failure(Billing) then 1 else 0
  }

  function Successes(calls: seq<Call>): nat {
    if calls == [] then 0
    else Successes(calls[..|calls| - 1]) + if calls[|calls| - 1].outcome == Success then 1 else 0
  }

  lemma {:induction false} EveryCallIsCounted(calls: seq<Call>)
    ensures |calls| == TransportFailures(calls) + BillingFailures(calls) + Successes(calls)
  {
    if calls != [] { EveryCallIsCounted(calls[..|calls| - 1]); }
  }

  /** The counters and the status after every completed pass. */
  ghost predicate CountersHold(l: Life) {
    && l.item.status != Leased
    && (l.item.finishedAt.Some? <==> IsTerminal(l.item.status))
    && (l.item.skipReason.Some? <==> l.item.status == Skipped)
    && l.item.attempts == |l.claims|
    && l.item.transportAttempts == TransportFailures(l.calls) <= MAX_TRANSPORT_ATTEMPTS
    && (l.item.transportAttempts == MAX_TRANSPORT_ATTEMPTS ==> l.item.status == Error)
    && Successes(l.calls) == (if l.item.status == Done then 1 else 0)
  }

  lemma OneMoreCall(calls: seq<Call>, c: Call)
    ensures TransportFailures(calls + [c]) == TransportFailures(calls) + if IsTransportFailure(c.outcome) then 1 else 0
    ensures Successes(calls + [c]) == Successes(calls) + if c.outcome == Success then 1 else 0
  {
    assert (calls + [c])[..|calls|] == calls;
  }

  lemma CallKeepsCounters(l: Life, after: Life, now: Time, w: World)
    requires CountersHold(l) && IsWaiting(l.item)
    requires after.item == AfterCall(Claimed(l.item).(runId := Some(w.newRunId)), w.outcome, now)
    requires |after.claims| == |l.claims| + 1 && after.calls == l.calls + [Call(now, w.outcome)]
    ensures CountersHold(after)
  {
    OneMoreCall(l.calls, Call(now, w.outcome));
    hide Backoff, TransportFailures, Successes;
  }

  lemma StepKeepsCounters(l: Life, e: Event, graceMinutes: int)
    requires CountersHold(l)
    ensures CountersHold(Step(l, e, graceMinutes))
  {
    hide Backoff, GraceOrigin, TransportFailures, Successes;
    if e.Pass? && CanClaim(l.item, e.now) && CallsProvider(Claimed(l.item), e.world, e.now, graceMinutes) {
      hide CountersHold, AfterCall;
      CallKeepsCounters(l, Step(l, e, graceMinutes), e.now, e.world);
    }
  }

  /** Over every run: transport attempts count the non-billing failures and nothing else, never pass
      four, and reach four only in a terminal error; no finished pass leaves the item leased; the
      finish time is set exactly when the item is finished; an item succeeds at most once. */
  lemma {:induction false} CountersAlwaysHold(
    scheduledFor: Time, queuedAt: Option<Time>, events: seq<Event>, graceMinutes: int)
    ensures CountersHold(Live(scheduledFor, queuedAt, events, graceMinutes))
  {
    if events != [] {
      hide Step, CountersHold;
      CountersAlwaysHold(scheduledFor, queuedAt, events[..|events| - 1], graceMinutes);
      StepKeepsCounters(Live(scheduledFor, queuedAt, events[..|events| - 1], graceMinutes),
                        events[|events| - 1], graceMinutes);
    }
  }

  const TRANSPORT_WAITS: seq<Time> := [1 * MINUTE, 5 * MINUTE, 25 * MINUTE]

  ghost predicate WaitsHold(l: Life) {
    && l.transportWaits <= TRANSPORT_WAITS
    && (IsWaiting(l.item) ==> |l.transportWaits| == l.item.transportAttempts)
  }

  /** The waits after transport failures are 1, 5 and 25 minutes in this order, however many
      collisions and billing deferrals come between. */
  lemma {:induction false} TransportWaitsAreBackoff(
    scheduledFor: Time, queuedAt: Option<Time>, events: seq<Event>, graceMinutes: int)
    ensures WaitsHold(Live(scheduledFor, queuedAt, events, graceMinutes))
  {
    if events != [] {
      TransportWaitsAreBackoff(scheduledFor, queuedAt, events[..|events| - 1], graceMinutes);
    }
  }

  /** No provider call happens later than the time the item was queued plus the grace period. */
  lemma {:induction false} NoLateCall(scheduledFor: Time, queuedAt: Time, events: seq<Event>, graceMinutes: int)
    ensures var l := Live(scheduledFor, Some(queuedAt), events, graceMinutes);
            && l.item.queuedAt == Some(queuedAt)
            && forall c :: c in l.calls ==> c.now <= queuedAt + graceMinutes * MINUTE
  {
    if events != [] {
      NoLateCall(scheduledFor, queuedAt, events[..|events| - 1], graceMinutes);
    }
  }

  /** How far the calendar has moved: a minute for every claim so far, half an hour for every billing
      failure, before the item can be claimed again. */
  ghost predicate PaceHolds(l: Life, queuedAt: Time, grace: nat) {
    var n, b := |l.claims|, BillingFailures(l.calls);
    && l.item.queuedAt == Some(queuedAt)
    && (IsWaiting(l.item) && n > 0 ==> l.item.scheduledFor >= queuedAt + n * MINUTE && n <= grace + 1)
    && n <= grace + 2
    && (IsWaiting(l.item) && b > 0 ==> l.item.scheduledFor >= queuedAt + b * (30 * MINUTE))
    && (b > 0 ==> (b - 1) * 30 <= grace)
  }

  lemma BackoffIsAMinute(attempts: int)
    ensures Backoff(attempts) >= 1
  {
  }

  lemma ClaimPace(l: Life, queuedAt: Time, grace: nat, now: Time, w: World)
    requires PaceHolds(l, queuedAt, grace) && CanClaim(l.item, now) && now >= queuedAt
    ensures var after := Step(l, Pass(now, w), grace);
            var n := |l.claims|;
            && after.item.queuedAt == l.item.queuedAt && |after.claims| == n + 1
            && now >= queuedAt + n * MINUTE
            && (IsWaiting(after.item) ==> after.item.scheduledFor >= now + MINUTE && now - queuedAt <= grace * MINUTE)
            && n + 1 <= grace + 2
            && (IsWaiting(after.item) ==> n + 1 <= grace + 1)
  {
    BackoffIsAMinute(l.item.attempts + 1);
    BackoffIsAMinute(l.item.transportAttempts + 1);
    hide Backoff;
  }

  lemma BillingPace(l: Life, queuedAt: Time, grace: nat, now: Time, w: World)
    requires PaceHolds(l, queuedAt, grace) && CanClaim(l.item, now) && now >= queuedAt
    ensures var after := Step(l, Pass(now, w), grace);
            var b := BillingFailures(after.calls);
            && (IsWaiting(after.item) && b > 0 ==> after.item.scheduledFor >= queuedAt + b * (30 * MINUTE))
            && (b > 0 ==> (b - 1) * 30 <= grace)
  {
    BackoffIsAMinute(l.item.attempts + 1);
    BackoffIsAMinute(l.item.transportAttempts + 1);
    hide Backoff;
    assert (l.calls + [Call(now, w.outcome)])[..|l.calls|] == l.calls;
  }

  predicate ClaimsFrom(events: seq<Event>, queuedAt: Time) {
    forall e :: e in events && e.Pass? ==> e.now >= queuedAt
  }

  lemma PaceFromParts(l: Life, queuedAt: Time, grace: nat, now: Time, w: World)
    requires PaceHolds(l, queuedAt, grace) && CanClaim(l.item, now) && now >= queuedAt
    ensures PaceHolds(Step(l, Pass(now, w), grace), queuedAt, grace)
  {
    hide Step, BillingFailures;
    ClaimPace(l, queuedAt, grace, now, w);
    BillingPace(l, queuedAt, grace, now, w);
  }

  lemma StepKeepsPace(l: Life, queuedAt: Time, grace: nat, e: Event)
    requires PaceHolds(l, queuedAt, grace) && (e.Pass? ==> e.now >= queuedAt)
    ensures PaceHolds(Step(l, e, grace), queuedAt, grace)
  {
    if e.Pass? && CanClaim(l.item, e.now) {
      hide Step, PaceHolds;
      PaceFromParts(l, queuedAt, grace, e.now, e.world);
    } else {
      hide Processed, CallsProvider, BillingFailures;
    }
  }

  lemma {:induction false} PaceAlwaysHolds(scheduledFor: Time, queuedAt: Time, events: seq<Event>, grace: nat)
    requires ClaimsFrom(events, queuedAt)
    ensures PaceHolds(Live(scheduledFor, Some(queuedAt), events, grace), queuedAt, grace)
  {
    if events != [] {
      hide Step, PaceHolds;
      var front, e := events[..|events| - 1], events[|events| - 1];
      assert e in events && forall x :: x in front ==> x in events;
      PaceAlwaysHolds(scheduledFor, queuedAt, front, grace);
      StepKeepsPace(Live(scheduledFor, Some(queuedAt), front, grace), queuedAt, grace, e);
    }
  }

  /** With claims no earlier than the queueing time, an item is claimed at most grace + 2 times and
      causes at most 5 + grace / 30 provider calls, whatever happens in between. */
  lemma BoundedLife(scheduledFor: Time, queuedAt: Time, events: seq<Event>, grace: nat)
    requires ClaimsFrom(events, queuedAt)
    ensures var l := Live(scheduledFor, Some(queuedAt), events, grace);
            && |l.claims| <= grace + 2
            && |l.calls| <= 5 + grace / 30
  {
    var l := Live(scheduledFor, Some(queuedAt), events, grace);
    PaceAlwaysHolds(scheduledFor, queuedAt, events, grace);
    CountersAlwaysHold(scheduledFor, Some(queuedAt), events, grace);
    EveryCallIsCounted(l.calls);
  }

  // ----- where the age of an item is measured from -----

  /** In every run no call is later than the item's original time plus the grace period. */
  ghost predicate GraceCountsFromOriginalTime(scheduledFor: Time, queuedAt: Time, grace: nat) {
    forall events: seq<Event>, c :: ClaimsFrom(events, queuedAt)
        && c in Live(scheduledFor, Some(queuedAt), events, grace).calls
      ==> c.now <= Min(scheduledFor, queuedAt) + grace * MINUTE
  }

  lemma {:induction false} StaleItemsAreNeverCalled(
    scheduledFor: Time, queuedAt: Time, events: seq<Event>, grace: nat)
    requires queuedAt - scheduledFor > grace * MINUTE && ClaimsFrom(events, queuedAt)
    ensures var l := Live(scheduledFor, Some(queuedAt), events, grace);
            l.calls == [] && (IsWaiting(l.item) ==> l.item == Enqueued(scheduledFor, Some(queuedAt)))
  {
    if events != [] {
      var front, e := events[..|events| - 1], events[|events| - 1];
      assert e in events && forall x :: x in front ==> x in events;
      StaleItemsAreNeverCalled(scheduledFor, queuedAt, front, grace);
    }
  }

  /** A collision on the first claim, then a call at the very end of the grace period. */
  function DriftingRun(queuedAt: Time, grace: nat): seq<Event> {
    [Pass(queuedAt, World(true, true, false, true, false, 0, Success)),
     Pass(queuedAt + grace * MINUTE, World(true, true, false, false, false, 0, Success))]
  }

  lemma DriftingRunCallsLate(scheduledFor: Time, queuedAt: Time, grace: nat)
    requires scheduledFor < queuedAt && queuedAt - scheduledFor <= grace * MINUTE
    ensures ClaimsFrom(DriftingRun(queuedAt, grace), queuedAt)
    ensures Call(queuedAt + grace * MINUTE, Success)
            in Live(scheduledFor, Some(queuedAt), DriftingRun(queuedAt, grace), grace).calls
  {
    var events := DriftingRun(queuedAt, grace);
    assert events[..1] == [events[0]] && events[..1][..0] == [];
    var start := Live(scheduledFor, Some(queuedAt), [], grace);
    var once := Step(start, events[0], grace);
    assert once == Live(scheduledFor, Some(queuedAt), events[..1], grace);
    assert once.item.status == Deferred && once.item.scheduledFor == queuedAt + MINUTE;
  }

  /** The grace period counts from the original time in every run exactly when the item was not queued
      late, or was queued so late that it never lives: a deferral forgets an original time that lies
      before the queueing time. */
  lemma GraceCountsFromOriginalTimeIff(scheduledFor: Time, queuedAt: Time, grace: nat)
    ensures GraceCountsFromOriginalTime(scheduledFor, queuedAt, grace)
            <==> scheduledFor >= queuedAt || queuedAt - scheduledFor > grace * MINUTE
  {
    if scheduledFor >= queuedAt || queuedAt - scheduledFor > grace * MINUTE {
      forall events: seq<Event>, c | ClaimsFrom(events, queuedAt)
          && c in Live(scheduledFor, Some(queuedAt), events, grace).calls
        ensures c.now <= Min(scheduledFor, queuedAt) + grace * MINUTE
      {
        NoLateCall(scheduledFor, queuedAt, events, grace);
        if scheduledFor < queuedAt {
          StaleItemsAreNeverCalled(scheduledFor, queuedAt, events, grace);
        }
      }
    } else {
      DriftingRunCallsLate(scheduledFor, queuedAt, grace);
    }
  }
}
