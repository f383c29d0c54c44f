/** app/worker.py's pass twice over: as the one step of `WorkerQueue` and as the separate commits of
    `CrashSafety`. Left alone, the commits come to the same row; and what each sweep does to a row. */
module CrashRefinement {
  import opened Options
  import W = WorkerQueue
  import C = CrashSafety

  const MICROSECONDS := 60000000

  predicate SameStatus(a: C.ItemStatus, b: W.Status) {
    && (a.Queued? <==> b.Queued?) && (a.Leased? <==> b.Leased?) && (a.Done? <==> b.Done?) && (a.Error? <==> b.Error?)
    && (a.Skipped? <==> b.Skipped?) && (a.Deferred? <==> b.Deferred?) && (a.Cancelled? <==> b.Cancelled?)
  }

  predicate SameRun(a: Option<C.Id>, b: Option<int>) {
    match a
    case None => b == None
    case Some(r) => b == Some(r)
  }

  /** Two pictures of one row, the one in minutes, the other in microseconds. */
  predicate SameRow(i: C.Item, v: W.Item) {
    && SameStatus(i.status, v.status)
    && v.scheduledFor == i.scheduledFor * MICROSECONDS && v.queuedAt == Some(i.queuedAt * MICROSECONDS)
    && SameRun(i.runId, v.runId)
  }

  function StatusOf(s: W.Status): C.ItemStatus {
    match s
    case Queued => C.Queued
    case Leased => C.Leased
    case Done => C.Done
    case Error => C.Error
    case Skipped => C.Skipped
    case Deferred => C.Deferred
    case Cancelled => C.Cancelled
  }

  /** The row after a pass, and whether the provider was called, by the one step. */
  function Outcome(v: W.Item, world: W.World, now: C.Time, grace: int): W.Item {
    W.Processed(W.Claimed(v), world, now * MICROSECONDS, grace)
  }

  predicate Calls(v: W.Item, world: W.World, now: C.Time, grace: int) {
    W.CallsProvider(W.Claimed(v), world, now * MICROSECONDS, grace)
  }

  function NextTime(v: W.Item): C.Time {
    v.scheduledFor / MICROSECONDS
  }

  function Drops(s: C.State, w: C.Id, i: C.Id, lease: nat, status: C.ItemStatus, next: C.Time): C.State {
    C.Step(C.Step(C.Step(s, C.ReadClock(w)), C.Claim(w, i, lease)), C.Drop(w, status, next))
  }

  function Commits(
    s: C.State, w: C.Id, i: C.Id, lease: nat, run: C.Id, ok: bool, status: C.ItemStatus, next: C.Time): C.State
  {
    var held := C.Step(C.Step(s, C.ReadClock(w)), C.Claim(w, i, lease));
    var sent := C.Step(C.Step(C.Step(held, C.InsertRun(w, run)), C.Point(w)), C.Send(w));
    C.Step(C.Step(sent, C.RecordRun(w, ok)), C.RecordItem(w, status, next))
  }

  /** The commits of one undisturbed pass, as the world has it. */
  function Pass(s: C.State, w: C.Id, i: C.Id, lease: nat, v: W.Item, world: W.World): C.State {
    var after := Outcome(v, world, s.now, s.grace);
    if Calls(v, world, s.now, s.grace) && world.newRunId >= 0 then
      Commits(s, w, i, lease, world.newRunId, world.outcome.Success?, StatusOf(after.status), NextTime(after))
    else Drops(s, w, i, lease, StatusOf(after.status), NextTime(after))
  }

  /** The worker is free, the row is due, and the world knows of a pending run when there is one. */
  ghost predicate IsReady(s: C.State, w: C.Id, i: C.Id, v: W.Item, world: W.World) {
    && !C.HasItem(C.PhaseOf(s, w)) && i in s.items && SameRow(s.items[i], v)
    && (v.status == W.Queued || v.status == W.Deferred) && v.scheduledFor <= s.now * MICROSECONDS
    && world.newRunId >= 0 && world.newRunId !in s.runs
    && (world.collision <==> IsUnderWay(s, s.items[i].target))
  }

  /** A run for the same prompt, model, persona and market has not finished. */
  ghost predicate IsUnderWay(s: C.State, target: C.Id) {
    exists r :: r in s.runs && s.runs[r].target == target && s.runs[r].status.Pending?
  }

  /** What the pass leaves: the same row, one finished run and one call if it called, and everything else
      as it was. */
  ghost predicate Leaves(s: C.State, w: C.Id, i: C.Id, t: C.State, after: W.Item, called: bool, run: C.Id, ok: bool)
    requires i in s.items
  {
    && t.items.Keys == s.items.Keys && SameRow(t.items[i], after)
    && t.items[i].target == s.items[i].target
    && (forall j :: j in s.items && j != i ==> t.items[j] == s.items[j])
    && C.PhaseOf(t, w).Idle?
    && t.now == s.now && t.grace == s.grace
    && t.sent == s.sent + (if called then [run] else [])
    && t.runs == (if called then s.runs[run := C.Run(s.items[i].target, if ok then C.Success else C.Failed, s.now)] else s.runs)
    && t.recorded == (if called then s.recorded[run := ok] else s.recorded)
    && t.owner == (if called then s.owner[run := i] else s.owner)
  }

  /** What the one step can come to. */
  lemma OutcomeIs(v: W.Item, world: W.World, now: C.Time, grace: int)
    ensures var after := Outcome(v, world, now, grace);
            var called := Calls(v, world, now, grace);
            var inGrace := now * MICROSECONDS - W.GraceOrigin(v) <= grace * MICROSECONDS;
            && after.queuedAt == v.queuedAt
            && (called ==> inGrace && !world.collision && after.runId == Some(world.newRunId))
            && (called && world.outcome.Success? ==> after.status == W.Done)
            && (called && world.outcome.Failure? ==>
                  after.status == W.Queued || after.status == W.Deferred || after.status == W.Error)
            && (!called ==> after.runId == v.runId
                            && (after.status == W.Skipped || (after.status == W.Deferred && inGrace)))
  {
    hide W.Backoff;
  }

  /** And the time it leaves: a whole number of minutes from now while the item waits. */
  lemma NextTimeIs(v: W.Item, world: W.World, now: C.Time, grace: int, scheduled: C.Time)
    requires v.scheduledFor == scheduled * MICROSECONDS
    ensures var after := Outcome(v, world, now, grace);
            after.scheduledFor
            == MICROSECONDS * if after.status == W.Queued || after.status == W.Deferred then NextTime(after) else scheduled
  {
    var after := Outcome(v, world, now, grace);
    var a, t := W.Backoff(v.attempts + 1), W.Backoff(v.transportAttempts + 1);
    hide W.Backoff, W.GraceOrigin;
    assert after.scheduledFor == v.scheduledFor || after.scheduledFor == (now + a) * MICROSECONDS
        || after.scheduledFor == (now + t) * MICROSECONDS || after.scheduledFor == (now + 30) * MICROSECONDS;
  }

  /** Reading the clock and claiming: the worker holds the item, and knows whether it is in its grace. */
  lemma ClaimHolds(s: C.State, w: C.Id, i: C.Id, lease: nat, v: W.Item, world: W.World)
    requires IsReady(s, w, i, v, world)
    ensures var inGrace := s.now * MICROSECONDS - W.GraceOrigin(v) <= s.grace * MICROSECONDS;
            C.Step(C.Step(s, C.ReadClock(w)), C.Claim(w, i, lease))
            == s.(items := s.items[i := C.Claimed(s.items[i], s.now, lease)],
                  workers := s.workers[w := C.Awake(s.now)][w := C.Holding(i, inGrace)])
  {
    hide IsUnderWay;
  }

  /** The row as the pass leaves it, in both pictures. */
  lemma RowsAgree(row: C.Item, v: W.Item, after: W.Item, run: Option<C.Id>, next: C.Time)
    requires SameRow(row, v) && after.queuedAt == v.queuedAt && SameRun(run, after.runId)
    requires after.scheduledFor == MICROSECONDS * if after.status == W.Queued || after.status == W.Deferred then next
                                                  else row.scheduledFor
    ensures forall now: C.Time, lease: nat ::
              SameRow(C.Left(C.Claimed(row, now, lease).(runId := run), StatusOf(after.status), next), after)
  {
  }

  lemma DropsCome(s: C.State, w: C.Id, i: C.Id, lease: nat, v: W.Item, world: W.World, status: C.ItemStatus, next: C.Time)
    requires IsReady(s, w, i, v, world)
    requires status == C.Skipped
             || (status == C.Deferred && s.now * MICROSECONDS - W.GraceOrigin(v) <= s.grace * MICROSECONDS)
    ensures var u := Drops(s, w, i, lease, status, next);
            && u == s.(items := u.items, workers := u.workers)
            && u.items == s.items[i := C.Left(C.Claimed(s.items[i], s.now, lease), status, next)]
            && C.PhaseOf(u, w).Idle?
  {
    ClaimHolds(s, w, i, lease, v, world);
    hide IsUnderWay, W.GraceOrigin, C.Left;
  }

  lemma DropLeaves(s: C.State, w: C.Id, i: C.Id, lease: nat, v: W.Item, world: W.World)
    requires IsReady(s, w, i, v, world) && !Calls(v, world, s.now, s.grace)
    ensures var after := Outcome(v, world, s.now, s.grace);
            Leaves(s, w, i, Pass(s, w, i, lease, v, world), after, false, world.newRunId, false)
  {
    OutcomeIs(v, world, s.now, s.grace);
    NextTimeIs(v, world, s.now, s.grace, s.items[i].scheduledFor);
    hide Outcome, Calls, W.GraceOrigin, IsUnderWay, NextTime, C.PhaseOf, C.Left, Drops, Commits, SameRow;
    var after, row := Outcome(v, world, s.now, s.grace), s.items[i];
    assert SameRun(row.runId, after.runId) by { RunStays(row, v); }
    RowsAgree(row, v, after, row.runId, NextTime(after));
    assert C.Claimed(row, s.now, lease).(runId := row.runId) == C.Claimed(row, s.now, lease);
    DropsCome(s, w, i, lease, v, world, StatusOf(after.status), NextTime(after));
  }

  lemma RunStays(row: C.Item, v: W.Item)
    requires SameRow(row, v)
    ensures SameRun(row.runId, v.runId)
  {
  }

  /** What an answer may come to. */
  predicate IsAnswer(ok: bool, status: C.ItemStatus) {
    if ok then status.Done? else status.Queued? || status.Deferred? || status.Error?
  }

  /** From holding the item to having called. */
  lemma Sends(h: C.State, w: C.Id, i: C.Id, run: C.Id)
    requires C.PhaseOf(h, w) == C.Holding(i, true) && i in h.items && run !in h.runs
    requires !C.HasPendingRun(h, h.items[i].target)
    ensures var t := C.Step(C.Step(C.Step(h, C.InsertRun(w, run)), C.Point(w)), C.Send(w));
            && t.items == h.items[i := h.items[i].(runId := Some(run))]
            && t.runs == h.runs[run := C.Run(h.items[i].target, C.Pending, h.now)]
            && t.owner == h.owner[run := i] && t.sent == h.sent + [run] && t.recorded == h.recorded
            && t.now == h.now && t.grace == h.grace && C.PhaseOf(t, w) == C.Sent(i, run)
  {
    hide C.HasPendingRun;
  }

  /** From having called to being done with the item. */
  lemma Records(t: C.State, w: C.Id, i: C.Id, run: C.Id, ok: bool, status: C.ItemStatus, next: C.Time)
    requires C.PhaseOf(t, w) == C.Sent(i, run) && i in t.items && run in t.runs
    requires IsAnswer(ok, status)
    ensures var u := C.Step(C.Step(t, C.RecordRun(w, ok)), C.RecordItem(w, status, next));
            && u.items == t.items[i := C.Left(t.items[i], status, next)]
            && u.runs == t.runs[run := t.runs[run].(status := if ok then C.Success else C.Failed)]
            && u.owner == t.owner && u.sent == t.sent && u.recorded == t.recorded[run := ok]
            && u.now == t.now && u.grace == t.grace && C.PhaseOf(u, w).Idle?
  {
    hide C.Left;
  }

  lemma UnderWayIs(s: C.State, h: C.State, target: C.Id)
    requires h.runs == s.runs
    ensures C.HasPendingRun(h, target) == IsUnderWay(s, target)
  {
  }

  lemma CommitsCome(s: C.State, w: C.Id, i: C.Id, lease: nat, v: W.Item, world: W.World, run: nat, ok: bool,
                    status: C.ItemStatus, next: C.Time)
    requires IsReady(s, w, i, v, world) && !world.collision && run == world.newRunId
    requires s.now * MICROSECONDS - W.GraceOrigin(v) <= s.grace * MICROSECONDS
    requires IsAnswer(ok, status)
    ensures var u := Commits(s, w, i, lease, run, ok, status, next);
            var row := C.Claimed(s.items[i], s.now, lease).(runId := Some(run));
            && u.items == s.items[i := C.Left(row, status, next)]
            && u.runs == s.runs[run := C.Run(s.items[i].target, if ok then C.Success else C.Failed, s.now)]
            && u.owner == s.owner[run := i] && u.sent == s.sent + [run] && u.recorded == s.recorded[run := ok]
            && u.now == s.now && u.grace == s.grace && C.PhaseOf(u, w).Idle?
  {
    ClaimHolds(s, w, i, lease, v, world);
    var h := C.Step(C.Step(s, C.ReadClock(w)), C.Claim(w, i, lease));
    UnderWayIs(s, h, s.items[i].target);
    assert C.PhaseOf(h, w) == C.Holding(i, true);
    hide C.HasPendingRun, IsUnderWay, C.Step, C.Left, W.GraceOrigin, C.PhaseOf;
    Sends(h, w, i, run);
    var t := C.Step(C.Step(C.Step(h, C.InsertRun(w, run)), C.Point(w)), C.Send(w));
    Records(t, w, i, run, ok, status, next);
  }

  lemma CommitsLeave(s: C.State, w: C.Id, i: C.Id, lease: nat, v: W.Item, world: W.World)
    requires IsReady(s, w, i, v, world) && Calls(v, world, s.now, s.grace)
    ensures var after := Outcome(v, world, s.now, s.grace);
            Leaves(s, w, i, Pass(s, w, i, lease, v, world), after, true, world.newRunId, world.outcome.Success?)
  {
    OutcomeIs(v, world, s.now, s.grace);
    NextTimeIs(v, world, s.now, s.grace, s.items[i].scheduledFor);
    hide Outcome, Calls, W.GraceOrigin, NextTime, Commits, Drops, IsUnderWay, C.PhaseOf, C.Left, SameRow;
    var after := Outcome(v, world, s.now, s.grace);
    var run: nat := world.newRunId;
    RowsAgree(s.items[i], v, after, Some(run), NextTime(after));
    CommitsCome(s, w, i, lease, v, world, run, world.outcome.Success?, StatusOf(after.status), NextTime(after));
  }

  /** A pass that nobody disturbs and that does not crash leaves, commit by commit, the row the one step
      leaves, calls the provider exactly when that does, and touches nothing else. */
  lemma PassIsItsCommits(s: C.State, w: C.Id, i: C.Id, lease: nat, v: W.Item, world: W.World)
    requires IsReady(s, w, i, v, world)
    ensures Leaves(s, w, i, Pass(s, w, i, lease, v, world), Outcome(v, world, s.now, s.grace),
                   Calls(v, world, s.now, s.grace), world.newRunId, world.outcome.Success?)
  {
    if Calls(v, world, s.now, s.grace) {
      CommitsLeave(s, w, i, lease, v, world);
    } else {
      DropLeaves(s, w, i, lease, v, world);
    }
  }

  // ----- the sweeps -----

  /** A release by a clock that has read `at`: it requeues the leased items whose lease was over by then and
      that point at no run, and touches no other and nothing else. */
  lemma ReleaseTells(s: C.State, at: C.Time, i: C.Id)
    requires at <= s.now && i in s.items
    ensures var t := C.Step(s, C.ReleaseExpiredLeases(at));
            var row := s.items[i];
            && t == s.(items := t.items) && i in t.items
            && t.items[i] == if row.status.Leased? && row.runId == None && row.leasedUntil.Some? && row.leasedUntil.value < at
                             then row.(status := C.Queued, leasedUntil := None) else row
  {
  }

  /** The run has been pending for more than half an hour. */
  predicate IsOld(s: C.State, run: C.Id, at: C.Time) {
    run in s.runs && s.runs[run].status == C.Pending && at - s.runs[run].startedAt > 30
  }

  /** A reconciliation by a clock that has read `at`: it fails the runs that have been pending for more than
      half an hour, puts the items that point at one of them and have not ended otherwise in error, and
      touches nothing else. */
  lemma ReconcileTells(s: C.State, at: C.Time, i: C.Id, run: C.Id)
    requires at <= s.now
    ensures var t := C.Step(s, C.ReconcileInterruptedRuns(at));
            && t == s.(items := t.items, runs := t.runs)
            && (run in s.runs ==>
                  run in t.runs && t.runs[run] == if IsOld(s, run, at) then s.runs[run].(status := C.Failed) else s.runs[run])
            && (i in s.items ==>
                  var row := s.items[i];
                  var ended := row.status.Done? || row.status.Error? || row.status.Cancelled?;
                  i in t.items
                  && t.items[i] == if row.runId.Some? && IsOld(s, row.runId.value, at) && !ended
                                   then row.(status := C.Error) else row)
  {
  }

  /** What the other steps do: queueing, cancelling, waiting, dying. */
  lemma OthersTell(s: C.State, i: C.Id, target: C.Id, scheduledFor: C.Time, w: C.Id, minutes: nat)
    ensures i !in s.items ==>
              C.Step(s, C.Enqueue(i, target, scheduledFor))
              == s.(items := s.items[i := C.Item(target, scheduledFor, s.now, C.Queued, None, None)])
    ensures i in s.items ==> C.Step(s, C.Enqueue(i, target, scheduledFor)) == s
    ensures C.Step(s, C.Cancel(i))
            == if i in s.items && s.items[i].status.Queued? then s.(items := s.items[i := s.items[i].(status := C.Cancelled)])
               else s
    ensures C.Step(s, C.Wait(minutes)) == s.(now := s.now + minutes)
    ensures C.Step(s, C.Crash(w)) == s.(workers := s.workers[w := C.Idle])
  {
  }
}
