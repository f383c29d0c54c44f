/** app/worker.py `process_claimed_item`: which provider answers end an item, which send it back, and
    for how long, said of the item and its calls alone. */
module QueueOutcomes {
  import opened Options
  import opened WorkerQueue

  /** A failure that would only repeat itself. */
  predicate IsFinal(o: Outcome) {
    o == Failure(Auth) || o == Failure(InvalidRequest)
  }

  /** A failure that uses up one of the four tries; running out of credit does not. */
  predicate SpendsTry(o: Outcome) {
    match o
    case Success => false
    case Failure(c) => c != Billing
  }

  function Spent(calls: seq<Call>): nat {
    if calls == [] then 0 else Spent(calls[..|calls| - 1]) + if SpendsTry(calls[|calls| - 1].outcome) then 1 else 0
  }

  /** The last call ends the item in error: its failure is final, or it is the fourth try. */
  predicate FailsForGood(calls: seq<Call>) {
    && calls != []
    && var o := calls[|calls| - 1].outcome;
       IsFinal(o) || (SpendsTry(o) && Spent(calls) == 4)
  }

  predicate Succeeds(calls: seq<Call>) {
    calls != [] && calls[|calls| - 1].outcome == Success
  }

  /** The last failure among the calls. */
  function LastFailure(calls: seq<Call>): Option<ErrorCategory> {
    if calls == [] then None
    else
      match calls[|calls| - 1].outcome
      case Failure(c) => Some(c)
      case Success => LastFailure(calls[..|calls| - 1])
  }

  /** The item's state follows from its calls. */
  ghost predicate FollowsCalls(l: Life) {
    var calls, i := l.calls, l.item;
    && (i.status == Error <==> FailsForGood(calls))
    && (i.status == Done <==> Succeeds(calls))
    && (i.status == Error || i.status == Done ==> i.finishedAt == Some(calls[|calls| - 1].now))
    && (forall k :: 0 < k < |calls| ==> !FailsForGood(calls[..k]) && !Succeeds(calls[..k]))
    && i.lastError == LastFailure(calls)
    && i.transportAttempts == Spent(calls)
    && i.status != Leased
    && (IsWaiting(i) ==> Spent(calls) < 4)
  }

  lemma CallAdded(calls: seq<Call>, c: Call)
    ensures (calls + [c])[..|calls|] == calls
    ensures Spent(calls + [c]) == Spent(calls) + if SpendsTry(c.outcome) then 1 else 0
    ensures LastFailure(calls + [c]) == if c.outcome.Failure? then Some(c.outcome.category) else LastFailure(calls)
    ensures forall k :: 0 <= k <= |calls| ==> (calls + [c])[..k] == calls[..k]
  {
    assert (calls + [c])[..|calls|] == calls;
  }

  /** What becomes of the item when its provider is called. */
  lemma CallTells(i: Item, o: Outcome, now: Time)
    ensures var j := AfterCall(i, o, now);
            var n := i.transportAttempts + if SpendsTry(o) then 1 else 0;
            && j.transportAttempts == n
            && j.lastError == (if o.Failure? then Some(o.category) else i.lastError)
            && (j.status == Done <==> o == Success)
            && (j.status == Error <==> IsFinal(o) || (SpendsTry(o) && n >= 4))
            && (j.status == Error || j.status == Done ==> j.finishedAt == Some(now))
            && (j.status == Done || j.status == Error || IsWaiting(j))
  {
    hide Backoff;
  }

  lemma CallFollows(l: Life, e: Event, graceMinutes: int)
    requires FollowsCalls(l) && e.Pass? && CanClaim(l.item, e.now)
    requires CallsProvider(Claimed(l.item), e.world, e.now, graceMinutes)
    ensures FollowsCalls(Step(l, e, graceMinutes))
  {
    var c := Call(e.now, e.world.outcome);
    var held := Claimed(l.item).(runId := Some(e.world.newRunId));
    CallTells(held, e.world.outcome, e.now);
    CallAdded(l.calls, c);
    var after := Step(l, e, graceMinutes);
    assert after.item == AfterCall(held, e.world.outcome, e.now) && after.calls == l.calls + [c];
    hide AfterCall, Step, CallsProvider, Processed, Spent, LastFailure;
    EarlierCallsEndNothing(l, after);
  }

  lemma EarlierCallsEndNothing(l: Life, after: Life)
    requires FollowsCalls(l) && IsWaiting(l.item) && |after.calls| == |l.calls| + 1 && after.calls[..|l.calls|] == l.calls
    ensures forall k :: 0 < k < |after.calls| ==> !FailsForGood(after.calls[..k]) && !Succeeds(after.calls[..k])
  {
    hide FailsForGood, Succeeds, Spent, LastFailure;
    forall k | 0 < k < |after.calls| ensures !FailsForGood(after.calls[..k]) && !Succeeds(after.calls[..k]) {
      assert after.calls[..k] == l.calls[..k];
      assert l.calls[..|l.calls|] == l.calls;
    }
  }

  lemma StepFollows(l: Life, e: Event, graceMinutes: int)
    requires FollowsCalls(l)
    ensures FollowsCalls(Step(l, e, graceMinutes))
  {
    if e.Pass? && CanClaim(l.item, e.now) && CallsProvider(Claimed(l.item), e.world, e.now, graceMinutes) {
      hide FollowsCalls, Step;
      CallFollows(l, e, graceMinutes);
    } else {
      hide Backoff, GraceOrigin, Spent, LastFailure, FailsForGood, Succeeds;
    }
  }

  /** Over every run: an item is in error exactly when its last call failed as unauthorised or invalid, or
      was the fourth failure other than for credit, and it ended at that call; it is done exactly when its
      last call succeeded; no earlier call was of these kinds. */
  lemma {:induction false} StateFollowsCalls(
    scheduledFor: Time, queuedAt: Option<Time>, events: seq<Event>, graceMinutes: int)
    ensures FollowsCalls(Live(scheduledFor, queuedAt, events, graceMinutes))
  {
    if events != [] {
      hide Step, FollowsCalls;
      StateFollowsCalls(scheduledFor, queuedAt, events[..|events| - 1], graceMinutes);
      StepFollows(Live(scheduledFor, queuedAt, events[..|events| - 1], graceMinutes), events[|events| - 1], graceMinutes);
    }
  }

  lemma FinalPrefixFails(calls: seq<Call>, k: nat)
    requires k < |calls| && IsFinal(calls[k].outcome)
    ensures FailsForGood(calls[..k + 1])
  {
    hide Spent;
  }

  /** A final failure is the item's last call and ends it in error at that moment; so an item that
      waits, is done, skipped or cancelled never had one. */
  lemma FinalFailuresEndTheItem(
    scheduledFor: Time, queuedAt: Option<Time>, events: seq<Event>, graceMinutes: int, k: nat)
    requires k < |Live(scheduledFor, queuedAt, events, graceMinutes).calls|
    requires IsFinal(Live(scheduledFor, queuedAt, events, graceMinutes).calls[k].outcome)
    ensures var l := Live(scheduledFor, queuedAt, events, graceMinutes);
            k == |l.calls| - 1 && l.item.status == Error && l.item.finishedAt == Some(l.calls[k].now)
  {
    StateFollowsCalls(scheduledFor, queuedAt, events, graceMinutes);
    var l := Live(scheduledFor, queuedAt, events, graceMinutes);
    hide Live;
    FinalPrefixFails(l.calls, k);
    assert l.calls[..|l.calls|] == l.calls;
  }

  // ----- one claim -----

  /** Why a claimed item is given up before the provider is called: the first reason that holds. */
  function GivenUp(i: Item, w: World, now: Time, graceMinutes: int): Option<SkipReason> {
    if now - i.scheduledFor > graceMinutes * 60000000
       || (i.queuedAt.Some? && now - i.queuedAt.value > graceMinutes * 60000000) then Some(GraceExpired)
    else if !w.promptActive then Some(InactivePrompt)
    else if !w.modelActive then Some(InactiveModel)
    else if w.quotaReached then Some(QuotaExceeded)
    else if w.dryRun && !w.collision then Some(DryRun)
    else None
  }

  /** `status` and the time the item waits until, in minutes from `now`. */
  predicate WaitsFor(i: Item, status: Status, now: Time, minutes: int) {
    i.status == status && i.scheduledFor == now + minutes * 60000000 && i.finishedAt == None && i.skipReason == None
  }

  predicate Ended(i: Item, status: Status, reason: Option<SkipReason>, now: Time) {
    i.status == status && i.skipReason == reason && i.finishedAt == Some(now)
  }

  /** What a claim of a waiting item makes of it. */
  ghost predicate ClaimTells(l: Life, after: Life, w: World, now: Time, graceMinutes: int) {
    var i, j := l.item, after.item;
    var tries := i.transportAttempts + 1;
    && j.attempts == i.attempts + 1 && j.queuedAt == i.queuedAt && after.claims == l.claims + [now]
    && var reason := GivenUp(i, w, now, graceMinutes);
       if reason.Some? then
         && Ended(j, Skipped, reason, now)
         && after.calls == l.calls && j.runId == i.runId && j.scheduledFor == i.scheduledFor
       else if w.collision then
         && WaitsFor(j, Deferred, now, if i.attempts == 0 then 1 else if i.attempts == 1 then 5 else 25)
         && after.calls == l.calls && j.runId == i.runId && j.transportAttempts == i.transportAttempts
       else
         && after.calls == l.calls + [Call(now, w.outcome)] && j.runId == Some(w.newRunId)
         && match w.outcome
            case Success => Ended(j, Done, None, now)
            case Failure(Billing) => WaitsFor(j, Deferred, now, 30) && j.transportAttempts == i.transportAttempts
            case Failure(Auth) => Ended(j, Error, None, now)
            case Failure(InvalidRequest) => Ended(j, Error, None, now)
            case Failure(_) =>
              j.transportAttempts == tries
              && if tries >= 4 then Ended(j, Error, None, now)
                 else WaitsFor(j, Queued, now, if tries == 1 then 1 else if tries == 2 then 5 else 25)
  }

  lemma LiveIsClean(l: Life)
    requires CountersHold(l) && IsWaiting(l.item)
    ensures l.item.finishedAt == None && l.item.skipReason == None
  {
  }

  /** In every run: a due item that is claimed is given up for the first reason there is, put off while
      another run of its prompt and model is under way, or called; the answer ends it, defers it for half
      an hour, or queues it again after 1, 5 and 25 minutes. A claim of any other item changes nothing. */
  lemma EveryClaimTells(
    scheduledFor: Time, queuedAt: Option<Time>, events: seq<Event>, graceMinutes: int, now: Time, w: World)
    ensures var l := Live(scheduledFor, queuedAt, events, graceMinutes);
            var after := Live(scheduledFor, queuedAt, events + [Pass(now, w)], graceMinutes);
            if (l.item.status == Queued || l.item.status == Deferred) && l.item.scheduledFor <= now
            then ClaimTells(l, after, w, now, graceMinutes)
            else after == l
  {
    assert (events + [Pass(now, w)])[..|events|] == events;
    CountersAlwaysHold(scheduledFor, queuedAt, events, graceMinutes);
    var l := Live(scheduledFor, queuedAt, events, graceMinutes);
    assert Live(scheduledFor, queuedAt, events + [Pass(now, w)], graceMinutes) == Step(l, Pass(now, w), graceMinutes);
    hide Live, TransportFailures, Successes;
    if IsWaiting(l.item) { LiveIsClean(l); }
  }

  /** Only an item that is queued can be cancelled: one that is deferred, or that has ended, stays as it is. */
  lemma EveryCancelTells(
    scheduledFor: Time, queuedAt: Option<Time>, events: seq<Event>, graceMinutes: int, now: Time)
    ensures var l := Live(scheduledFor, queuedAt, events, graceMinutes);
            var after := Live(scheduledFor, queuedAt, events + [Cancel(now)], graceMinutes);
            && after.calls == l.calls && after.claims == l.claims
            && if l.item.status == Queued
               then Ended(after.item, Cancelled, None, now) && after.item.scheduledFor == l.item.scheduledFor
               else after == l
  {
    assert (events + [Cancel(now)])[..|events|] == events;
    CountersAlwaysHold(scheduledFor, queuedAt, events, graceMinutes);
    var l := Live(scheduledFor, queuedAt, events, graceMinutes);
    assert Live(scheduledFor, queuedAt, events + [Cancel(now)], graceMinutes) == Step(l, Cancel(now), graceMinutes);
    hide Live, TransportFailures, Successes;
  }
}
