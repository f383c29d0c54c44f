/** What a worker may lose: app/worker.py `process_claimed_item` as the separate commits it makes, with
    a crash possible between any two, next to the two sweeps of app/services/queue.py. Any number of
    workers and items take their steps in any order, each worker by a clock it read some time ago. Times
    are minutes. */
module CrashSafety {
  import opened Options

  type Id = nat
  type Time = int

  const STALE_RUN_MINUTES := 30

  datatype ItemStatus = Queued | Leased | Done | Error | Skipped | Deferred | Cancelled

  datatype RunStatus = Pending | Success | Failed

  /** `target` stands for the prompt, model, persona and market that the item is to be run for. */
  datatype Item = Item(
    target: Id,
    scheduledFor: Time,
    queuedAt: Time,
    status: ItemStatus,
    leasedUntil: Option<Time>,
    runId: Option<Id>)

  datatype Run = Run(target: Id, status: RunStatus, startedAt: Time)

  /** Where a live worker stands: what it has in memory and not in the database. It reads its clock first;
      `inGrace` tells how the grace check on the claimed item comes out. */
  datatype Phase =
    | Idle
    | Awake(at: Time)
    | Holding(item: Id, inGrace: bool)
    | Created(item: Id, run: Id)
    | Pointed(item: Id, run: Id)
    | Sent(item: Id, run: Id)
    | Answered(item: Id, run: Id, ok: bool)

  /** `items`, `runs` and `now` are durable, `grace` is a setting. The last three keep history: the provider
      calls in order, the item that pointed at a run, and the outcomes that workers themselves wrote down. */
  datatype State = State(
    grace: int,
    items: map<Id, Item>,
    runs: map<Id, Run>,
    now: Time,
    workers: map<Id, Phase>,
    sent: seq<Id>,
    owner: map<Id, Id>,
    recorded: map<Id, bool>)

  /** `next` is the time a deferred or requeued item waits for, `at` a clock reading of the past. */
  datatype Event =
    | Enqueue(i: Id, target: Id, scheduledFor: Time)
    | Cancel(i: Id)
    | ReadClock(w: Id)
    | Claim(w: Id, i: Id, leaseMinutes: nat)
    | Drop(w: Id, status: ItemStatus, next: Time)
    | InsertRun(w: Id, run: Id)
    | Point(w: Id)
    | Send(w: Id)
    | RecordRun(w: Id, ok: bool)
    | RecordItem(w: Id, status: ItemStatus, next: Time)
    | Crash(w: Id)
    | Wait(minutes: nat)
    | ReleaseExpiredLeases(at: Time)
    | ReconcileInterruptedRuns(at: Time)

  function Start(grace: int): State {
    State(grace, map[], map[], 0, map[], [], map[], map[])
  }

  function PhaseOf(s: State, w: Id): Phase {
    if w in s.workers then s.workers[w] else Idle
  }

  predicate HasItem(p: Phase) {
    !p.Idle? && !p.Awake?
  }

  predicate HasRun(p: Phase) {
    p.Created? || p.Pointed? || p.Sent? || p.Answered?
  }

  /** The worker may go on to call, or has called, for its item. */
  predicate IsActive(p: Phase) {
    HasRun(p) || (p.Holding? && p.inGrace)
  }

  predicate IsWaiting(i: Item) {
    i.status == Queued || i.status == Deferred
  }

  /** The last moment the grace check passes. */
  function LastMoment(i: Item, grace: int): Time {
    Min(i.scheduledFor, i.queuedAt) + grace
  }

  /** What the provider's answer lets a pass write on its item. */
  predicate Fits(ok: bool, status: ItemStatus) {
    if ok then status == Done else status == Queued || status == Deferred || status == Error
  }

  /** The item as the pass leaves it. */
  function Left(i: Item, status: ItemStatus, next: Time): Item {
    i.(status := status, scheduledFor := if status == Queued || status == Deferred then next else i.scheduledFor)
  }

  function Released(i: Item, at: Time): Item {
    if i.status == Leased && i.runId.None? && i.leasedUntil.Some? && i.leasedUntil.value < at
    then i.(status := Queued, leasedUntil := None)
    else i
  }

  predicate IsStale(r: Run, at: Time) {
    r.status == Pending && r.startedAt < at - STALE_RUN_MINUTES
  }

  predicate PointsAtStale(i: Item, runs: map<Id, Run>, at: Time) {
    i.runId.Some? && i.runId.value in runs && IsStale(runs[i.runId.value], at)
  }

  function Reconciled(i: Item, runs: map<Id, Run>, at: Time): Item {
    if PointsAtStale(i, runs, at) && i.status != Done && i.status != Error && i.status != Cancelled
    then i.(status := Error)
    else i
  }

  function Move(s: State, w: Id, p: Phase): State {
    s.(workers := s.workers[w := p])
  }

  function Write(s: State, i: Id, row: Item): State {
    s.(items := s.items[i := row])
  }

  function NewItem(s: State, target: Id, scheduledFor: Time): Item {
    Item(target, scheduledFor, s.now, Queued, None, None)
  }

  function EnqueueStep(s: State, i: Id, target: Id, scheduledFor: Time): State {
    if i in s.items then s else Write(s, i, NewItem(s, target, scheduledFor))
  }

  function CancelStep(s: State, i: Id): State {
    if i in s.items && s.items[i].status == Queued then Write(s, i, s.items[i].(status := Cancelled)) else s
  }

  function ReadClockStep(s: State, w: Id): State {
    if HasItem(PhaseOf(s, w)) then s else Move(s, w, Awake(s.now))
  }

  function Claimed(i: Item, at: Time, lease: nat): Item {
    i.(status := Leased, leasedUntil := Some(at + lease))
  }

  predicate CanClaim(s: State, w: Id, i: Id) {
    && PhaseOf(s, w).Awake? && i in s.items
    && IsWaiting(s.items[i]) && s.items[i].scheduledFor <= PhaseOf(s, w).at
  }

  /** The claim, and the look at the item's age that follows it by the same clock reading. */
  function ClaimStep(s: State, w: Id, i: Id, lease: nat): State {
    if CanClaim(s, w, i) then
      var at := PhaseOf(s, w).at;
      Move(Write(s, i, Claimed(s.items[i], at, lease)), w, Holding(i, at <= LastMoment(s.items[i], s.grace)))
    else s
  }

  predicate CanDrop(p: Phase, status: ItemStatus) {
    p.Holding? && (status == Skipped || (status == Deferred && p.inGrace))
  }

  function DropStep(s: State, w: Id, status: ItemStatus, next: Time): State {
    var p := PhaseOf(s, w);
    if CanDrop(p, status) && p.item in s.items then
      Move(Write(s, p.item, Left(s.items[p.item], status, next)), w, Idle)
    else s
  }

  predicate HasPendingRun(s: State, target: Id) {
    exists q :: q in s.runs && s.runs[q].target == target && s.runs[q].status == Pending
  }

  /** The pass looks for a pending run first and defers (`Drop`); between processes it is a unique index
      that keeps a second pending run for the same target out. */
  predicate CanInsert(s: State, w: Id, r: Id) {
    var p := PhaseOf(s, w);
    p.Holding? && p.inGrace && p.item in s.items && r !in s.runs && !HasPendingRun(s, s.items[p.item].target)
  }

  function NewRun(s: State, i: Id): Run
    requires i in s.items
  {
    Run(s.items[i].target, Pending, s.now)
  }

  function InsertStep(s: State, w: Id, r: Id): State {
    var p := PhaseOf(s, w);
    if CanInsert(s, w, r) then Move(s.(runs := s.runs[r := NewRun(s, p.item)]), w, Created(p.item, r)) else s
  }

  function PointStep(s: State, w: Id): State {
    var p := PhaseOf(s, w);
    if p.Created? && p.item in s.items then
      Move(Write(s, p.item, s.items[p.item].(runId := Some(p.run))), w, Pointed(p.item, p.run))
      .(owner := s.owner[p.run := p.item])
    else s
  }

  function SendStep(s: State, w: Id): State {
    var p := PhaseOf(s, w);
    if p.Pointed? then Move(s, w, Sent(p.item, p.run)).(sent := s.sent + [p.run]) else s
  }

  function RecordRunStep(s: State, w: Id, ok: bool): State {
    var p := PhaseOf(s, w);
    if p.Sent? && p.run in s.runs then
      Move(s.(runs := s.runs[p.run := s.runs[p.run].(status := if ok then Success else Failed)],
              recorded := s.recorded[p.run := ok]), w, Answered(p.item, p.run, ok))
    else s
  }

  function RecordItemStep(s: State, w: Id, status: ItemStatus, next: Time): State {
    var p := PhaseOf(s, w);
    if p.Answered? && p.item in s.items && Fits(p.ok, status) then
      Move(Write(s, p.item, Left(s.items[p.item], status, next)), w, Idle)
    else s
  }

  /** `release_expired_leases`, by a clock that read `at`. */
  function ReleaseStep(s: State, at: Time): State {
    if at <= s.now then s.(items := map i | i in s.items :: Released(s.items[i], at)) else s
  }

  /** `reconcile_interrupted_runs`, by a clock that read `at`. */
  function ReconcileStep(s: State, at: Time): State {
    if at <= s.now then
      s.(items := map i | i in s.items :: Reconciled(s.items[i], s.runs, at),
         runs := map r | r in s.runs :: if IsStale(s.runs[r], at) then s.runs[r].(status := Failed) else s.runs[r])
    else s
  }

  /** One step; a step that is not possible changes nothing. */
  function Step(s: State, e: Event): State {
    match e
    case Enqueue(i, target, scheduledFor) => EnqueueStep(s, i, target, scheduledFor)
    case Cancel(i) => CancelStep(s, i)
    case ReadClock(w) => ReadClockStep(s, w)
    case Claim(w, i, lease) => ClaimStep(s, w, i, lease)
    case Drop(w, status, next) => DropStep(s, w, status, next)
    case InsertRun(w, r) => InsertStep(s, w, r)
    case Point(w) => PointStep(s, w)
    case Send(w) => SendStep(s, w)
    case RecordRun(w, ok) => RecordRunStep(s, w, ok)
    case RecordItem(w, status, next) => RecordItemStep(s, w, status, next)
    case Crash(w) => Move(s, w, Idle)
    case Wait(minutes) => s.(now := s.now + minutes)
    case ReleaseExpiredLeases(at) => ReleaseStep(s, at)
    case ReconcileInterruptedRuns(at) => ReconcileStep(s, at)
  }

  function After(s: State, events: seq<Event>): State {
    if events == [] then s else Step(After(s, events[..|events| - 1]), events[|events| - 1])
  }

  // ----- nothing is sent unseen -----

  ghost predicate PhaseHolds(s: State, p: Phase) {
    && (p.Awake? ==> p.at <= s.now)
    && (HasRun(p) ==> RunIsOwn(s, p))
  }

  ghost predicate RunIsOwn(s: State, p: Phase)
    requires HasRun(p)
  {
    && p.run in s.runs
    && (p.Created? ==> p.run !in s.owner)
    && (!p.Created? ==> p.run in s.owner && s.owner[p.run] == p.item)
    && (p.Created? || p.Pointed? ==> p.run !in s.sent)
  }

  /** Every call is for a run some item has pointed to, and no run is sent twice. */
  ghost predicate NothingUnseen(s: State) {
    && (forall r :: r in s.sent ==> r in s.owner)
    && (forall a, b :: 0 <= a < b < |s.sent| ==> s.sent[a] != s.sent[b])
  }

  /** Only a due item is ever leased. */
  predicate LeaseHolds(s: State, i: Item) {
    i.status == Leased ==> i.leasedUntil.Some? && i.scheduledFor <= s.now
  }

  ghost predicate Consistent(s: State) {
    && NothingUnseen(s)
    && (forall r :: r in s.owner ==> r in s.runs)
    && (forall r :: r in s.runs ==> s.runs[r].startedAt <= s.now)
    && (forall i :: i in s.items ==> LeaseHolds(s, s.items[i]))
    && (forall i :: i in s.items && s.items[i].runId.Some? ==>
          s.items[i].runId.value in s.owner && s.owner[s.items[i].runId.value] == i)
    && (forall w :: w in s.workers ==> PhaseHolds(s, s.workers[w]))
    && (forall v, w :: v in s.workers && w in s.workers && v != w && HasRun(s.workers[v]) && HasRun(s.workers[w]) ==>
          s.workers[v].run != s.workers[w].run)
  }

  lemma WriteKeepsConsistent(s: State, i: Id, row: Item)
    requires Consistent(s)
    requires row.runId.Some? ==> row.runId.value in s.owner && s.owner[row.runId.value] == i
    requires LeaseHolds(s, row)
    ensures Consistent(Write(s, i, row))
  {
  }

  lemma MoveKeepsConsistent(s: State, w: Id, p: Phase)
    requires Consistent(s) && PhaseHolds(s, p)
    requires forall v :: v in s.workers && v != w && HasRun(s.workers[v]) && HasRun(p) ==> s.workers[v].run != p.run
    ensures Consistent(Move(s, w, p))
  {
  }

  lemma InsertKeepsConsistent(s: State, w: Id, r: Id)
    requires Consistent(s)
    ensures Consistent(InsertStep(s, w, r))
  {
    if CanInsert(s, w, r) {
      var t := s.(runs := s.runs[r := NewRun(s, PhaseOf(s, w).item)]);
      hide HasPendingRun;
      assert Consistent(t);
      MoveKeepsConsistent(t, w, Created(PhaseOf(s, w).item, r));
    }
  }

  lemma OwnKeepsConsistent(s: State, w: Id, i: Id, r: Id)
    requires Consistent(s) && PhaseOf(s, w) == Created(i, r)
    ensures Consistent(Move(s, w, Pointed(i, r)).(owner := s.owner[r := i]))
  {
    var t := Move(s, w, Pointed(i, r)).(owner := s.owner[r := i]);
    assert PhaseHolds(s, s.workers[w]);
    assert NothingUnseen(t);
    hide NothingUnseen;
    forall v | v in t.workers ensures PhaseHolds(t, t.workers[v]) {
      if v != w { assert PhaseHolds(s, s.workers[v]); }
    }
  }

  /** What a worker's own run is, in a consistent state. */
  lemma OwnRun(s: State, w: Id)
    requires Consistent(s)
    ensures PhaseHolds(s, PhaseOf(s, w))
    ensures forall v :: v in s.workers && v != w && HasRun(s.workers[v]) && HasRun(PhaseOf(s, w)) ==>
              s.workers[v].run != PhaseOf(s, w).run
  {
  }

  lemma PointKeepsConsistent(s: State, w: Id)
    requires Consistent(s)
    ensures Consistent(PointStep(s, w))
  {
    var p := PhaseOf(s, w);
    if p.Created? && p.item in s.items {
      ItemOwnsItsRun(s, p.item);
      hide Consistent;
      OwnKeepsConsistent(s, w, p.item, p.run);
      var t := Move(s, w, Pointed(p.item, p.run)).(owner := s.owner[p.run := p.item]);
      WriteKeepsConsistent(t, p.item, s.items[p.item].(runId := Some(p.run)));
    }
  }

  lemma SentKeepsConsistent(s: State, r: Id)
    requires Consistent(s) && r in s.owner && r !in s.sent
    requires forall w :: w in s.workers && (s.workers[w].Created? || s.workers[w].Pointed?) ==> s.workers[w].run != r
    ensures Consistent(s.(sent := s.sent + [r]))
  {
    var t := s.(sent := s.sent + [r]);
    assert NothingUnseen(t);
    hide NothingUnseen;
    forall w | w in t.workers ensures PhaseHolds(t, t.workers[w]) {
      assert PhaseHolds(s, s.workers[w]);
    }
  }

  lemma SendKeepsConsistent(s: State, w: Id)
    requires Consistent(s)
    ensures Consistent(SendStep(s, w))
  {
    var p := PhaseOf(s, w);
    if p.Pointed? {
      OwnRun(s, w);
      hide Consistent, NothingUnseen;
      MoveKeepsConsistent(s, w, Sent(p.item, p.run));
      SentKeepsConsistent(Move(s, w, Sent(p.item, p.run)), p.run);
    }
  }

  lemma RecordRunKeepsConsistent(s: State, w: Id, ok: bool)
    requires Consistent(s)
    ensures Consistent(RecordRunStep(s, w, ok))
  {
    var p := PhaseOf(s, w);
    if p.Sent? && p.run in s.runs {
      var t := s.(runs := s.runs[p.run := s.runs[p.run].(status := if ok then Success else Failed)],
                  recorded := s.recorded[p.run := ok]);
      assert Consistent(t);
      MoveKeepsConsistent(t, w, Answered(p.item, p.run, ok));
    }
  }

  lemma ReleaseKeepsConsistent(s: State, at: Time)
    requires Consistent(s)
    ensures Consistent(ReleaseStep(s, at))
  {
  }

  lemma ReconcileKeepsConsistent(s: State, at: Time)
    requires Consistent(s)
    ensures Consistent(ReconcileStep(s, at))
  {
  }

  lemma WaitKeepsConsistent(s: State, now: Time)
    requires Consistent(s) && s.now <= now
    ensures Consistent(s.(now := now))
  {
  }

  lemma StepKeepsConsistent(s: State, e: Event)
    requires Consistent(s)
    ensures Consistent(Step(s, e))
  {
    hide Consistent;
    match e
    case InsertRun(w, r) => InsertKeepsConsistent(s, w, r);
    case Point(w) => PointKeepsConsistent(s, w);
    case Send(w) => SendKeepsConsistent(s, w);
    case RecordRun(w, ok) => RecordRunKeepsConsistent(s, w, ok);
    case ReleaseExpiredLeases(at) => ReleaseKeepsConsistent(s, at);
    case ReconcileInterruptedRuns(at) => ReconcileKeepsConsistent(s, at);
    case ReadClock(w) => MoveKeepsConsistent(s, w, Awake(s.now));
    case Wait(minutes) => WaitKeepsConsistent(s, s.now + minutes);
    case Crash(w) => MoveKeepsConsistent(s, w, Idle);
    case _ => PlainStepKeepsConsistent(s, e);
  }

  lemma ItemOwnsItsRun(s: State, i: Id)
    requires Consistent(s) && i in s.items
    ensures s.items[i].runId.Some? ==> s.items[i].runId.value in s.owner && s.owner[s.items[i].runId.value] == i
    ensures s.items[i].runId.Some? ==> s.items[i].runId.value in s.runs
    ensures LeaseHolds(s, s.items[i])
  {
    hide PhaseHolds, NothingUnseen;
  }

  /** The steps that only write an item's row and leave its run alone. */
  lemma PlainStepKeepsConsistent(s: State, e: Event)
    requires Consistent(s) && (e.Enqueue? || e.Cancel? || e.Claim? || e.Drop? || e.RecordItem?)
    ensures Consistent(Step(s, e))
  {
    hide Consistent;
    match e
    case Enqueue(i, target, scheduledFor) =>
      if i !in s.items { WriteKeepsConsistent(s, i, NewItem(s, target, scheduledFor)); }
    case Cancel(i) =>
      if i in s.items {
        ItemOwnsItsRun(s, i);
        WriteKeepsConsistent(s, i, s.items[i].(status := Cancelled));
      }
    case Claim(w, i, lease) => ClaimKeepsConsistent(s, w, i, lease);
    case Drop(w, status, next) => if status != Leased { LeftKeepsConsistent(s, w, status, next); }
    case RecordItem(w, status, next) => if status != Leased { LeftKeepsConsistent(s, w, status, next); }
  }

  lemma ClaimKeepsConsistent(s: State, w: Id, i: Id, lease: nat)
    requires Consistent(s)
    ensures Consistent(ClaimStep(s, w, i, lease))
  {
    if CanClaim(s, w, i) {
      var at := PhaseOf(s, w).at;
      ItemOwnsItsRun(s, i);
      OwnRun(s, w);
      hide Consistent;
      WriteKeepsConsistent(s, i, Claimed(s.items[i], at, lease));
      MoveKeepsConsistent(Write(s, i, Claimed(s.items[i], at, lease)), w, Holding(i, at <= LastMoment(s.items[i], s.grace)));
    }
  }

  lemma LeftKeepsConsistent(s: State, w: Id, status: ItemStatus, next: Time)
    requires Consistent(s) && status != Leased
    ensures var p := PhaseOf(s, w);
            HasItem(p) && p.item in s.items ==>
              Consistent(Move(Write(s, p.item, Left(s.items[p.item], status, next)), w, Idle))
  {
    var p := PhaseOf(s, w);
    if HasItem(p) && p.item in s.items {
      ItemOwnsItsRun(s, p.item);
      hide Consistent;
      WriteKeepsConsistent(s, p.item, Left(s.items[p.item], status, next));
      MoveKeepsConsistent(Write(s, p.item, Left(s.items[p.item], status, next)), w, Idle);
    }
  }

  /** In every interleaving, slow workers and crashes included: each provider call is for a run that its
      item durably pointed to before, no run is sent twice, and a run that no item ever pointed to was
      never sent. */
  lemma {:induction false} NothingIsSentUnseen(grace: int, events: seq<Event>)
    ensures Consistent(After(Start(grace), events))
  {
    if events != [] {
      hide Step, Consistent;
      NothingIsSentUnseen(grace, events[..|events| - 1]);
      StepKeepsConsistent(After(Start(grace), events[..|events| - 1]), events[|events| - 1]);
    }
  }

  // ----- nothing is paid twice -----

  /** Some worker can still claim the item, once it waits, and pass the grace check: later on, or by a clock
      it has already read. */
  ghost predicate IsCallable(s: State, i: Item) {
    || s.now <= LastMoment(i, s.grace)
    || exists w :: w in s.workers && s.workers[w].Awake?
         && i.scheduledFor <= s.workers[w].at <= LastMoment(i, s.grace)
  }

  /** A release takes from no worker that may go on to call an item that another may still call. */
  ghost predicate SparesLiveWorkers(s: State, at: Time) {
    forall w :: w in s.workers && IsActive(s.workers[w]) && s.workers[w].item in s.items ==>
      var row := s.items[s.workers[w].item];
      Released(row, at) == row || !IsCallable(s, row)
  }

  ghost predicate Timely(s: State, e: Event) {
    e.ReleaseExpiredLeases? && e.at <= s.now ==> SparesLiveWorkers(s, e.at)
  }

  ghost predicate TimelyHistory(s: State, events: seq<Event>) {
    events != [] ==>
      TimelyHistory(s, events[..|events| - 1]) && Timely(After(s, events[..|events| - 1]), events[|events| - 1])
  }

  /** Every run sent for the item, but one, was written down as failed by the worker that sent it. */
  ghost predicate Settled(s: State, i: Id, but: Option<Id>) {
    forall r :: r in s.sent && r in s.owner && s.owner[r] == i && Some(r) != but ==>
      r in s.recorded && !s.recorded[r]
  }

  /** What holds of an active worker's item: the row says which run it is at, and nobody else can call for it. */
  ghost predicate PhaseIsHeld(s: State, p: Phase) {
    IsActive(p) ==>
      && p.item in s.items
      && (IsWaiting(s.items[p.item]) ==> !IsCallable(s, s.items[p.item]))
      && (p.Pointed? || p.Sent? || p.Answered? ==> s.items[p.item].runId == Some(p.run))
      && (p.Created? || p.Pointed? || p.Sent? ==> p.run !in s.recorded)
      && (p.Answered? ==> p.run in s.recorded && s.recorded[p.run] == p.ok)
      && Settled(s, p.item, if p.Sent? || p.Answered? then Some(p.run) else None)
  }

  ghost predicate ItemIsHeld(s: State, i: Id)
    requires i in s.items
  {
    IsWaiting(s.items[i]) && IsCallable(s, s.items[i]) ==> Settled(s, i, None)
  }

  /** An item is called for again only after its last call is known to have failed. */
  ghost predicate PaidOnce(s: State) {
    forall a, b :: 0 <= a < b < |s.sent| && s.sent[a] in s.owner && s.sent[b] in s.owner
        && s.owner[s.sent[a]] == s.owner[s.sent[b]]
      ==> s.sent[a] in s.recorded && !s.recorded[s.sent[a]]
  }

  ghost predicate Held(s: State) {
    && PaidOnce(s)
    && (forall r :: r in s.recorded ==> r in s.runs)
    && (forall r :: r in s.owner ==> s.owner[r] in s.items && s.items[s.owner[r]].runId.Some?)
    && (forall i :: i in s.items ==> ItemIsHeld(s, i))
    && (forall w :: w in s.workers ==> PhaseIsHeld(s, s.workers[w]))
    && (forall v, w :: v in s.workers && w in s.workers && v != w && IsActive(s.workers[v]) && IsActive(s.workers[w]) ==>
          s.workers[v].item != s.workers[w].item)
  }

  /** No active worker is at work on the item. */
  ghost predicate IsUnworked(s: State, i: Id) {
    forall w :: w in s.workers && IsActive(s.workers[w]) ==> s.workers[w].item != i
  }

  lemma ReleaseKeepsItem(s: State, at: Time, j: Id)
    requires Held(s) && j in s.items && at <= s.now
    ensures ItemIsHeld(ReleaseStep(s, at), j)
  {
    assert ItemIsHeld(s, j);
    SameCallable(s, ReleaseStep(s, at), ReleaseStep(s, at).items[j]);
    hide IsCallable;
    assert s.items[j].runId.None? ==> Settled(s, j, None);
  }

  /** Who can call for a row depends on the clocks alone. */
  lemma SameCallable(s: State, t: State, row: Item)
    requires t.now == s.now && t.grace == s.grace && t.workers == s.workers
    ensures IsCallable(t, row) <==> IsCallable(s, row)
  {
  }

  lemma ReleaseKeepsPhase(s: State, at: Time, v: Id)
    requires Held(s) && Consistent(s) && SparesLiveWorkers(s, at) && v in s.workers && at <= s.now
    ensures PhaseIsHeld(ReleaseStep(s, at), s.workers[v])
  {
    var p, t := s.workers[v], ReleaseStep(s, at);
    assert PhaseIsHeld(s, p) && PhaseHolds(s, p);
    if IsActive(p) {
      assert Released(s.items[p.item], at) == s.items[p.item] || !IsCallable(s, s.items[p.item]);
      SameCallable(s, t, s.items[p.item]);
      SameCallable(s, t, t.items[p.item]);
      assert IsCallable(s, t.items[p.item]) <==> IsCallable(s, s.items[p.item]);
    }
    hide Held, Consistent, IsCallable, SparesLiveWorkers;
  }

  lemma ReleaseKeepsHeld(s: State, at: Time)
    requires Held(s) && Consistent(s) && (at <= s.now ==> SparesLiveWorkers(s, at))
    ensures Held(ReleaseStep(s, at))
  {
    if at <= s.now {
      var t := ReleaseStep(s, at);
      hide ItemIsHeld, PhaseIsHeld, Consistent, SparesLiveWorkers, Settled;
      forall j | j in t.items ensures ItemIsHeld(t, j) { ReleaseKeepsItem(s, at, j); }
      forall v | v in t.workers ensures PhaseIsHeld(t, t.workers[v]) { ReleaseKeepsPhase(s, at, v); }
    }
  }

  lemma ReconcileKeepsItem(s: State, at: Time, j: Id)
    requires Held(s) && j in s.items && at <= s.now
    ensures ItemIsHeld(ReconcileStep(s, at), j)
  {
    assert ItemIsHeld(s, j);
    SameCallable(s, ReconcileStep(s, at), s.items[j]);
    hide IsCallable;
  }

  lemma ReconcileKeepsPhase(s: State, at: Time, v: Id)
    requires Held(s) && Consistent(s) && v in s.workers && at <= s.now
    ensures PhaseIsHeld(ReconcileStep(s, at), s.workers[v])
  {
    var p := s.workers[v];
    assert PhaseIsHeld(s, p) && PhaseHolds(s, p);
    if IsActive(p) { SameCallable(s, ReconcileStep(s, at), s.items[p.item]); }
    hide Held, Consistent, IsCallable;
  }

  lemma ReconcileKeepsHeld(s: State, at: Time)
    requires Held(s) && Consistent(s)
    ensures Held(ReconcileStep(s, at))
  {
    if at <= s.now {
      var t := ReconcileStep(s, at);
      hide ItemIsHeld, PhaseIsHeld, Consistent, Settled;
      forall j | j in t.items ensures ItemIsHeld(t, j) { ReconcileKeepsItem(s, at, j); }
      forall v | v in t.workers ensures PhaseIsHeld(t, t.workers[v]) { ReconcileKeepsPhase(s, at, v); }
    }
  }

  lemma WriteKeepsHeld(s: State, i: Id, row: Item)
    requires Held(s) && row.runId == if i in s.items then s.items[i].runId else None
    requires IsWaiting(row) && IsCallable(s, row) ==> Settled(s, i, None) && IsUnworked(s, i)
    ensures Held(Write(s, i, row))
  {
    var t := Write(s, i, row);
    hide IsCallable;
    forall j | j in t.items ensures ItemIsHeld(t, j) {
      SameCallable(s, t, t.items[j]);
      if j != i { assert ItemIsHeld(s, j); }
    }
    forall w | w in t.workers ensures PhaseIsHeld(t, t.workers[w]) {
      assert PhaseIsHeld(s, s.workers[w]);
      if IsActive(s.workers[w]) { SameCallable(s, t, t.items[s.workers[w].item]); }
    }
  }

  lemma MoveMakesNothingCallable(s: State, w: Id, p: Phase, row: Item)
    requires p.Awake? ==> p.at == s.now
    ensures IsCallable(Move(s, w, p), row) ==> IsCallable(s, row)
  {
  }

  lemma MoveKeepsHeld(s: State, w: Id, p: Phase)
    requires Held(s) && PhaseIsHeld(s, p) && (p.Awake? ==> p.at == s.now)
    requires forall v :: v in s.workers && v != w && IsActive(s.workers[v]) && IsActive(p) ==> s.workers[v].item != p.item
    ensures Held(Move(s, w, p))
  {
    var t := Move(s, w, p);
    hide IsCallable;
    forall i | i in t.items ensures ItemIsHeld(t, i) {
      assert ItemIsHeld(s, i);
      MoveMakesNothingCallable(s, w, p, s.items[i]);
    }
    forall v | v in t.workers ensures PhaseIsHeld(t, t.workers[v]) {
      if v != w { assert PhaseIsHeld(s, s.workers[v]); }
      if IsActive(t.workers[v]) { MoveMakesNothingCallable(s, w, p, s.items[t.workers[v].item]); }
    }
  }

  lemma WaitKeepsHeld(s: State, now: Time)
    requires Held(s) && s.now <= now
    ensures Held(s.(now := now))
  {
    var t := s.(now := now);
    assert forall row :: IsCallable(t, row) ==> IsCallable(s, row);
    hide IsCallable;
    forall i | i in t.items ensures ItemIsHeld(t, i) { assert ItemIsHeld(s, i); }
    forall v | v in t.workers ensures PhaseIsHeld(t, t.workers[v]) { assert PhaseIsHeld(s, s.workers[v]); }
  }

  lemma NewRunKeepsHeld(s: State, r: Id, run: Run)
    requires Held(s) && Consistent(s) && r !in s.runs
    ensures Held(s.(runs := s.runs[r := run])) && r !in s.recorded
  {
    var t := s.(runs := s.runs[r := run]);
    hide IsCallable;
    forall i | i in t.items ensures ItemIsHeld(t, i) {
      assert ItemIsHeld(s, i);
      SameCallable(s, t, s.items[i]);
    }
    forall v | v in t.workers ensures PhaseIsHeld(t, t.workers[v]) {
      assert PhaseIsHeld(s, s.workers[v]);
      if IsActive(s.workers[v]) { SameCallable(s, t, s.items[s.workers[v].item]); }
    }
  }

  /** What holds of any worker next to an active one. */
  lemma TwoWorkers(s: State, v: Id, w: Id)
    requires Held(s) && Consistent(s) && v in s.workers && w in s.workers && IsActive(s.workers[w])
    ensures PhaseIsHeld(s, s.workers[w]) && PhaseHolds(s, s.workers[w])
    ensures PhaseIsHeld(s, s.workers[v]) && PhaseHolds(s, s.workers[v])
    ensures v != w && IsActive(s.workers[v]) ==> s.workers[v].item != s.workers[w].item
    ensures v != w && HasRun(s.workers[v]) && HasRun(s.workers[w]) ==> s.workers[v].run != s.workers[w].run
  {
    hide PhaseIsHeld, PhaseHolds, PaidOnce, NothingUnseen, ItemIsHeld, LeaseHolds;
  }

  /** With no clock read anew and no time gone by nobody more can call for a row. */
  lemma FewerCallable(s: State, t: State, row: Item)
    requires t.now == s.now && t.grace == s.grace
    requires forall w :: w in t.workers && t.workers[w].Awake? ==> w in s.workers && s.workers[w] == t.workers[w]
    ensures IsCallable(t, row) ==> IsCallable(s, row)
  {
  }

  lemma SameAge(s: State, row: Item, other: Item)
    requires other.scheduledFor == row.scheduledFor && other.queuedAt == row.queuedAt
    ensures IsCallable(s, other) <==> IsCallable(s, row)
  {
  }

  lemma PointKeepsItem(s: State, w: Id, j: Id)
    requires Held(s) && Consistent(s) && PhaseOf(s, w).Created? && j in s.items
    ensures ItemIsHeld(PointStep(s, w), j)
  {
    assert PhaseIsHeld(s, s.workers[w]) && PhaseHolds(s, s.workers[w]) && ItemIsHeld(s, j);
    hide Held, Consistent, IsCallable;
    FewerCallable(s, PointStep(s, w), PointStep(s, w).items[j]);
    SameAge(s, s.items[j], PointStep(s, w).items[j]);
  }

  lemma PointKeepsPhase(s: State, w: Id, v: Id)
    requires Held(s) && Consistent(s) && PhaseOf(s, w).Created? && v in s.workers
    ensures PhaseIsHeld(PointStep(s, w), PointStep(s, w).workers[v])
  {
    TwoWorkers(s, v, w);
    hide Held, Consistent, IsCallable;
    var t := PointStep(s, w);
    if IsActive(s.workers[v]) {
      FewerCallable(s, t, t.items[s.workers[v].item]);
      SameAge(s, s.items[s.workers[v].item], t.items[s.workers[v].item]);
    }
  }

  lemma PointKeepsPaidOnce(s: State, w: Id)
    requires Held(s) && Consistent(s) && PhaseOf(s, w).Created?
    ensures PaidOnce(PointStep(s, w))
  {
    assert PhaseIsHeld(s, s.workers[w]) && PhaseHolds(s, s.workers[w]);
    assert NothingUnseen(s) && PaidOnce(s);
    hide Held, Consistent, IsCallable;
  }

  lemma PointKeepsHeld(s: State, w: Id)
    requires Held(s) && Consistent(s) && PhaseOf(s, w).Created?
    ensures Held(PointStep(s, w))
  {
    assert PhaseIsHeld(s, s.workers[w]) && PhaseHolds(s, s.workers[w]);
    var t := PointStep(s, w);
    hide ItemIsHeld, PhaseIsHeld, PhaseHolds, PaidOnce, Settled, IsCallable, Consistent;
    PointKeepsPaidOnce(s, w);
    forall j | j in t.items ensures ItemIsHeld(t, j) { PointKeepsItem(s, w, j); }
    forall v | v in t.workers ensures PhaseIsHeld(t, t.workers[v]) { PointKeepsPhase(s, w, v); }
  }

  lemma SendKeepsItem(s: State, w: Id, j: Id)
    requires Held(s) && Consistent(s) && PhaseOf(s, w).Pointed? && j in s.items
    ensures ItemIsHeld(SendStep(s, w), j)
  {
    assert PhaseIsHeld(s, s.workers[w]) && PhaseHolds(s, s.workers[w]) && ItemIsHeld(s, j);
    hide Held, Consistent, IsCallable;
    FewerCallable(s, SendStep(s, w), SendStep(s, w).items[j]);
    SameAge(s, s.items[j], SendStep(s, w).items[j]);
  }

  lemma SendKeepsPhase(s: State, w: Id, v: Id)
    requires Held(s) && Consistent(s) && PhaseOf(s, w).Pointed? && v in s.workers
    ensures PhaseIsHeld(SendStep(s, w), SendStep(s, w).workers[v])
  {
    TwoWorkers(s, v, w);
    hide Held, Consistent, IsCallable;
    var t := SendStep(s, w);
    if IsActive(s.workers[v]) {
      FewerCallable(s, t, t.items[s.workers[v].item]);
      SameAge(s, s.items[s.workers[v].item], t.items[s.workers[v].item]);
    }
  }

  lemma SendKeepsPaidOnce(s: State, w: Id)
    requires Held(s) && Consistent(s) && PhaseOf(s, w).Pointed?
    ensures PaidOnce(SendStep(s, w))
  {
    assert PhaseIsHeld(s, s.workers[w]) && PhaseHolds(s, s.workers[w]);
    assert NothingUnseen(s) && PaidOnce(s);
    hide Held, Consistent, IsCallable;
  }

  lemma SendKeepsHeld(s: State, w: Id)
    requires Held(s) && Consistent(s) && PhaseOf(s, w).Pointed?
    ensures Held(SendStep(s, w))
  {
    assert PhaseIsHeld(s, s.workers[w]) && PhaseHolds(s, s.workers[w]);
    var t := SendStep(s, w);
    hide ItemIsHeld, PhaseIsHeld, PhaseHolds, PaidOnce, Settled, IsCallable, Consistent;
    SendKeepsPaidOnce(s, w);
    forall j | j in t.items ensures ItemIsHeld(t, j) { SendKeepsItem(s, w, j); }
    forall v | v in t.workers ensures PhaseIsHeld(t, t.workers[v]) { SendKeepsPhase(s, w, v); }
  }

  lemma RecordKeepsItem(s: State, w: Id, ok: bool, j: Id)
    requires Held(s) && Consistent(s) && PhaseOf(s, w).Sent? && j in s.items
    ensures ItemIsHeld(RecordRunStep(s, w, ok), j)
  {
    assert PhaseIsHeld(s, s.workers[w]) && PhaseHolds(s, s.workers[w]) && ItemIsHeld(s, j);
    hide Held, Consistent, IsCallable;
    FewerCallable(s, RecordRunStep(s, w, ok), RecordRunStep(s, w, ok).items[j]);
    SameAge(s, s.items[j], RecordRunStep(s, w, ok).items[j]);
  }

  lemma RecordKeepsPhase(s: State, w: Id, ok: bool, v: Id)
    requires Held(s) && Consistent(s) && PhaseOf(s, w).Sent? && v in s.workers
    ensures PhaseIsHeld(RecordRunStep(s, w, ok), RecordRunStep(s, w, ok).workers[v])
  {
    TwoWorkers(s, v, w);
    hide Held, Consistent, IsCallable;
    var t := RecordRunStep(s, w, ok);
    if IsActive(s.workers[v]) {
      FewerCallable(s, t, t.items[s.workers[v].item]);
      SameAge(s, s.items[s.workers[v].item], t.items[s.workers[v].item]);
    }
  }

  lemma RecordKeepsPaidOnce(s: State, w: Id, ok: bool)
    requires Held(s) && Consistent(s) && PhaseOf(s, w).Sent?
    ensures PaidOnce(RecordRunStep(s, w, ok))
  {
    assert PhaseIsHeld(s, s.workers[w]) && PhaseHolds(s, s.workers[w]);
    assert NothingUnseen(s) && PaidOnce(s);
    hide Held, Consistent, IsCallable;
  }

  lemma RecordKeepsHeld(s: State, w: Id, ok: bool)
    requires Held(s) && Consistent(s) && PhaseOf(s, w).Sent?
    ensures Held(RecordRunStep(s, w, ok))
  {
    assert PhaseIsHeld(s, s.workers[w]) && PhaseHolds(s, s.workers[w]);
    var t := RecordRunStep(s, w, ok);
    hide ItemIsHeld, PhaseIsHeld, PhaseHolds, PaidOnce, Settled, IsCallable, Consistent;
    RecordKeepsPaidOnce(s, w, ok);
    forall j | j in t.items ensures ItemIsHeld(t, j) { RecordKeepsItem(s, w, ok, j); }
    forall v | v in t.workers ensures PhaseIsHeld(t, t.workers[v]) { RecordKeepsPhase(s, w, ok, v); }
  }

  /** An item that can be claimed within its grace has no active worker on it and nothing open. */
  lemma CallableIsOpen(s: State, i: Id)
    requires Held(s) && (i in s.items ==> IsWaiting(s.items[i]) && IsCallable(s, s.items[i]))
    ensures Settled(s, i, None) && IsUnworked(s, i)
  {
    hide IsCallable;
    assert i in s.items ==> ItemIsHeld(s, i);
    forall w | w in s.workers && IsActive(s.workers[w]) ensures s.workers[w].item != i {
      assert PhaseIsHeld(s, s.workers[w]);
    }
  }

  lemma ClaimKeepsHeld(s: State, w: Id, i: Id, lease: nat)
    requires Held(s) && CanClaim(s, w, i)
    ensures Held(ClaimStep(s, w, i, lease))
  {
    var at := PhaseOf(s, w).at;
    var inGrace := at <= LastMoment(s.items[i], s.grace);
    var t := Write(s, i, Claimed(s.items[i], at, lease));
    if inGrace { CallableIsOpen(s, i); }
    hide Held, IsCallable;
    WriteKeepsHeld(s, i, Claimed(s.items[i], at, lease));
    MoveKeepsHeld(t, w, Holding(i, inGrace));
  }

  lemma InsertKeepsHeld(s: State, w: Id, r: Id)
    requires Held(s) && Consistent(s) && CanInsert(s, w, r)
    ensures Held(InsertStep(s, w, r))
  {
    TwoWorkers(s, w, w);
    hide HasPendingRun, IsCallable;
    var i := PhaseOf(s, w).item;
    var t := s.(runs := s.runs[r := NewRun(s, i)]);
    SameCallable(s, t, s.items[i]);
    assert forall v :: v in s.workers && v != w && IsActive(s.workers[v]) ==> s.workers[v].item != i;
    NewRunKeepsHeld(s, r, NewRun(s, i));
    hide Held, Consistent;
    MoveKeepsHeld(t, w, Created(i, r));
  }

  /** A worker lets its item go with a last write. */
  lemma LeftKeepsHeld(s: State, w: Id, status: ItemStatus, next: Time)
    requires Held(s) && Consistent(s)
    requires var p := PhaseOf(s, w); CanDrop(p, status) || (p.Answered? && Fits(p.ok, status))
    requires PhaseOf(s, w).item in s.items
    ensures var p := PhaseOf(s, w); Held(Move(Write(s, p.item, Left(s.items[p.item], status, next)), w, Idle))
  {
    var p := PhaseOf(s, w);
    if IsActive(p) {
      TwoWorkers(s, w, w);
      assert IsUnworked(Move(s, w, Idle), p.item);
    }
    hide Held, Consistent, IsCallable;
    MoveKeepsHeld(s, w, Idle);
    WriteKeepsHeld(Move(s, w, Idle), p.item, Left(s.items[p.item], status, next));
  }

  lemma StepKeepsHeld(s: State, e: Event)
    requires Held(s) && Consistent(s) && Timely(s, e)
    ensures Held(Step(s, e))
  {
    match e
    case Enqueue(i, target, scheduledFor) =>
      if i !in s.items {
        CallableIsOpen(s, i);
        hide Held, Consistent, Settled, IsUnworked, IsCallable;
        WriteKeepsHeld(s, i, NewItem(s, target, scheduledFor));
      }
    case ReleaseExpiredLeases(at) => ReleaseKeepsHeld(s, at);
    case ReconcileInterruptedRuns(at) => ReconcileKeepsHeld(s, at);
    case _ =>
      hide Held, Consistent, Timely, Settled, IsUnworked, IsCallable;
      WorkerStepKeepsHeld(s, e);
  }

  /** Every step but the arrival of an item and the sweeps. */
  lemma WorkerStepKeepsHeld(s: State, e: Event)
    requires Held(s) && Consistent(s) && !e.Enqueue? && !e.ReleaseExpiredLeases? && !e.ReconcileInterruptedRuns?
    ensures Held(Step(s, e))
  {
    hide Held, Consistent, Settled, IsUnworked, IsCallable;
    match e
    case Cancel(i) =>
      if i in s.items && s.items[i].status == Queued { WriteKeepsHeld(s, i, s.items[i].(status := Cancelled)); }
    case ReadClock(w) => MoveKeepsHeld(s, w, Awake(s.now));
    case Claim(w, i, lease) =>
      if CanClaim(s, w, i) { ClaimKeepsHeld(s, w, i, lease); }
    case Drop(w, status, next) =>
      var p := PhaseOf(s, w);
      if CanDrop(p, status) && p.item in s.items { LeftKeepsHeld(s, w, status, next); }
    case InsertRun(w, r) =>
      if CanInsert(s, w, r) { InsertKeepsHeld(s, w, r); }
    case Point(w) =>
      if PhaseOf(s, w).Created? { PointKeepsHeld(s, w); }
    case Send(w) =>
      if PhaseOf(s, w).Pointed? { SendKeepsHeld(s, w); }
    case RecordRun(w, ok) =>
      if PhaseOf(s, w).Sent? { RecordKeepsHeld(s, w, ok); }
    case RecordItem(w, status, next) =>
      var p := PhaseOf(s, w);
      if p.Answered? && p.item in s.items && Fits(p.ok, status) { LeftKeepsHeld(s, w, status, next); }
    case Crash(w) => MoveKeepsHeld(s, w, Idle);
    case Wait(minutes) => WaitKeepsHeld(s, s.now + minutes);
  }

  lemma {:induction false} TimelyKeepsHeld(s: State, events: seq<Event>)
    requires Held(s) && Consistent(s) && TimelyHistory(s, events)
    ensures Consistent(After(s, events)) && Held(After(s, events))
  {
    if events != [] {
      var front := events[..|events| - 1];
      TimelyKeepsHeld(s, front);
      hide Step, Held, Consistent, Timely;
      StepKeepsHeld(After(s, front), events[|events| - 1]);
      StepKeepsConsistent(After(s, front), events[|events| - 1]);
    }
  }

  /** Over every history in which no release takes an item, while anybody may still call for it, from a
      worker that may too, crashes between any two commits and late reconciliations included: the provider
      is called again for an item only when every earlier call for it was written down as failed, never
      after a success and never after a call whose outcome nobody knows. */
  lemma NothingIsPaidTwice(grace: int, events: seq<Event>)
    requires TimelyHistory(Start(grace), events)
    ensures var s := After(Start(grace), events); Consistent(s) && Held(s) && PaidOnce(s)
  {
    TimelyKeepsHeld(Start(grace), events);
  }

  // ----- what the sweeps do not free -----

  /** No live worker is at work on the item, in its grace or not. */
  ghost predicate IsFree(s: State, i: Id) {
    forall w :: w in s.workers && HasItem(s.workers[w]) ==> s.workers[w].item != i
  }

  predicate RunIsOver(s: State, i: Item) {
    i.runId.Some? ==> i.runId.value in s.runs && s.runs[i.runId.value].status != Pending
  }

  /** Leased, with no live worker on it. */
  ghost predicate IsLost(s: State, i: Id) {
    i in s.items && s.items[i].status == Leased && IsFree(s, i)
  }

  /** Lost, and pointing at a run that is over. */
  ghost predicate IsStranded(s: State, i: Id) {
    IsLost(s, i) && s.items[i].runId.Some? && RunIsOver(s, s.items[i])
  }

  lemma StrandedStays(s: State, i: Id, e: Event)
    requires IsStranded(s, i)
    ensures IsStranded(Step(s, e), i) && Step(s, e).items[i] == s.items[i]
  {
  }

  /** A stranded item stays leased forever: nothing any worker or sweep can do changes its row. */
  lemma {:induction false} StrandedForever(s: State, i: Id, events: seq<Event>)
    requires IsStranded(s, i)
    ensures IsStranded(After(s, events), i) && After(s, events).items[i] == s.items[i]
  {
    if events != [] {
      hide IsStranded, Step;
      StrandedForever(s, i, events[..|events| - 1]);
      StrandedStays(After(s, events[..|events| - 1]), i, events[|events| - 1]);
    }
  }

  /** Both sweeps, some time from now. */
  function Sweeps(s: State, minutes: nat): seq<Event> {
    [Wait(minutes)] + [ReleaseExpiredLeases(s.now + minutes)] + [ReconcileInterruptedRuns(s.now + minutes)]
  }

  lemma AfterOneMore(s: State, events: seq<Event>, e: Event)
    ensures After(s, events + [e]) == Step(After(s, events), e)
  {
    hide Step;
    assert (events + [e])[..|events|] == events;
  }

  lemma AfterOne(s: State, e: Event)
    ensures After(s, [e]) == Step(s, e)
  {
    hide Step;
    assert [e][..0] == [];
    assert After(s, []) == s;
  }

  /** What the sweeps make of a state at a later time. */
  function Swept(s: State, now: Time): State {
    ReconcileStep(ReleaseStep(s.(now := now), now), now)
  }

  lemma SweepSteps(s: State, minutes: nat)
    ensures var now := s.now + minutes;
            Step(Step(Step(s, Wait(minutes)), ReleaseExpiredLeases(now)), ReconcileInterruptedRuns(now)) == Swept(s, now)
  {
    hide ReleaseStep, ReconcileStep;
  }

  lemma AfterThree(s: State, a: Event, b: Event, c: Event)
    ensures After(s, [a] + [b] + [c]) == Step(Step(Step(s, a), b), c)
  {
    hide *;
    AfterOne(s, a);
    AfterOneMore(s, [a], b);
    AfterOneMore(s, [a] + [b], c);
  }

  lemma AfterSweeps(s: State, minutes: nat)
    ensures After(s, Sweeps(s, minutes)) == Swept(s, s.now + minutes)
  {
    AfterThree(s, Wait(minutes), ReleaseExpiredLeases(s.now + minutes), ReconcileInterruptedRuns(s.now + minutes));
    hide After, Step, Swept;
    SweepSteps(s, minutes);
  }

  /** The run a lost item waits for. */
  lemma LostItemWaitsForItsRun(s: State, i: Id)
    requires Consistent(s) && IsLost(s, i) && !IsStranded(s, i)
    ensures var row := s.items[i];
            row.runId.Some? ==> row.runId.value in s.runs && s.runs[row.runId.value].status == Pending
  {
    ItemOwnsItsRun(s, i);
    hide PhaseHolds, NothingUnseen, IsFree;
  }

  lemma LateSweepsFree(s: State, i: Id, minutes: nat)
    requires Consistent(s) && IsLost(s, i) && !IsStranded(s, i)
    requires s.items[i].leasedUntil.Some? && s.now + minutes > s.items[i].leasedUntil.value
    requires s.items[i].runId.Some? && s.items[i].runId.value in s.runs ==>
               s.now + minutes > s.runs[s.items[i].runId.value].startedAt + STALE_RUN_MINUTES
    ensures i in After(s, Sweeps(s, minutes)).items
    ensures var row := After(s, Sweeps(s, minutes)).items[i];
            row.status == if s.items[i].runId.None? then Queued else Error
  {
    hide Consistent, IsStranded, IsFree, After, Swept;
    LostItemWaitsForItsRun(s, i);
    AfterSweeps(s, minutes);
    SweptRow(s, i, s.now + minutes);
  }

  lemma SweptRow(s: State, i: Id, now: Time)
    requires i in s.items && s.items[i].status == Leased
    requires s.items[i].leasedUntil.Some? && now > s.items[i].leasedUntil.value
    requires s.items[i].runId.Some? ==>
               && s.items[i].runId.value in s.runs && s.runs[s.items[i].runId.value].status == Pending
               && now > s.runs[s.items[i].runId.value].startedAt + STALE_RUN_MINUTES
    ensures var items := Swept(s, now).items;
            && i in items
            && items[i].status == if s.items[i].runId.None? then Queued else Error
  {
  }

  predicate IsFreedBy(s: State, i: Id, events: seq<Event>) {
    i in After(s, events).items && After(s, events).items[i].status != Leased
  }

  /** The item of a dead worker is ever freed, and then the sweeps alone free it, exactly when the worker
      died before the item pointed at any run or while the run it points at is still pending. */
  lemma FreedIff(s: State, i: Id)
    requires Consistent(s) && IsLost(s, i)
    ensures (exists events: seq<Event> :: IsFreedBy(s, i, events)) <==> !IsStranded(s, i)
    ensures (exists minutes: nat :: IsFreedBy(s, i, Sweeps(s, minutes))) <==> !IsStranded(s, i)
  {
    if IsStranded(s, i) {
      forall events: seq<Event> ensures !IsFreedBy(s, i, events) { StrandedForever(s, i, events); }
    } else {
      ItemOwnsItsRun(s, i);
      var row := s.items[i];
      var wait := Max(0, 1 + Max(row.leasedUntil.value,
                                 if row.runId.Some? then s.runs[row.runId.value].startedAt + STALE_RUN_MINUTES else 0) - s.now);
      hide Consistent, IsLost, IsStranded, After;
      LateSweepsFree(s, i, wait);
      assert IsFreedBy(s, i, Sweeps(s, wait));
    }
  }

  // ----- what an untimely release does -----

  /** Some timely continuation leads from `s` to `t`. */
  ghost predicate Leads(s: State, t: State) {
    exists events: seq<Event> :: TimelyHistory(s, events) && After(s, events) == t
  }

  lemma LeadsToItself(s: State)
    ensures Leads(s, s)
  {
    assert TimelyHistory(s, []) && After(s, []) == s;
  }

  lemma LeadsOn(s: State, t: State, e: Event)
    requires Leads(s, t) && Timely(t, e)
    ensures Leads(s, Step(t, e))
  {
    hide Step, Timely;
    var events: seq<Event> :| TimelyHistory(s, events) && After(s, events) == t;
    assert (events + [e])[..|events|] == events;
    assert TimelyHistory(s, events + [e]) && After(s, events + [e]) == Step(t, e);
  }

  lemma {:induction false} FreshId(used: set<Id>) returns (x: Id)
    ensures forall y: Id :: y in used ==> y < x
    decreases |used|
  {
    x := 0;
    if !forall y: Id :: y !in used {
      var z: Id :| z in used;
      var above := FreshId(used - {z});
      x := if above < z + 1 then z + 1 else above;
      assert forall y: Id :: y in used ==> y == z || y in used - {z};
    }
  }

  /** No run is pending, except perhaps one. */
  ghost predicate OnlyPending(s: State, r: Option<Id>) {
    forall q :: q in s.runs && s.runs[q].status == Pending ==> Some(q) == r
  }

  /** A worker that may still call holds on to an item that the release has put back into the queue. */
  ghost predicate Loosened(s: State, w: Id, i: Id) {
    && w in s.workers && IsActive(s.workers[w]) && s.workers[w].item == i
    && (s.workers[w].Holding? || s.workers[w].Created?)
    && i in s.items && s.items[i].status == Queued && s.items[i].runId == None
  }

  /** A second worker has claimed it, within its grace. */
  ghost predicate Doubled(s: State, w: Id, v: Id, i: Id) {
    && w in s.workers && IsActive(s.workers[w]) && s.workers[w].item == i
    && (s.workers[w].Holding? || s.workers[w].Created?)
    && v != w && v in s.workers && s.workers[v] == Holding(i, true)
    && i in s.items && s.items[i].runId == None
  }

  /** The first has inserted its run, and no other run is pending. */
  ghost predicate Primed(s: State, w: Id, v: Id, i: Id, r: Id) {
    && w in s.workers && s.workers[w] == Created(i, r) && r in s.runs
    && v != w && v in s.workers && s.workers[v] == Holding(i, true)
    && i in s.items && OnlyPending(s, Some(r))
  }

  /** The first has called and succeeded, and the second has not begun. */
  ghost predicate PaidAndOpen(s: State, v: Id, i: Id, r: Id) {
    && r in s.sent && r in s.owner && s.owner[r] == i && r in s.recorded && s.recorded[r]
    && v in s.workers && s.workers[v] == Holding(i, true)
    && i in s.items && OnlyPending(s, None)
  }

  /** Two calls for the item, the second after the first was written down as a success. */
  ghost predicate PaidTwice(s: State, i: Id) {
    exists a, b :: 0 <= a < b < |s.sent| && s.sent[a] in s.owner && s.sent[b] in s.owner
        && s.owner[s.sent[a]] == i && s.owner[s.sent[b]] == i && s.sent[a] in s.recorded && s.recorded[s.sent[a]]
  }

  lemma PaidTwiceIsNotOnce(s: State, i: Id)
    requires PaidTwice(s, i)
    ensures !PaidOnce(s)
  {
  }

  /** An untimely release puts an item that can still be called for back into the queue. */
  lemma UntimelyReleaseLoosens(s: State, at: Time) returns (w: Id, i: Id)
    requires Held(s) && Consistent(s) && at <= s.now && !SparesLiveWorkers(s, at)
    ensures w in s.workers && IsActive(s.workers[w]) && s.workers[w].item == i
    ensures var t := ReleaseStep(s, at);
            Loosened(t, w, i) && IsCallable(t, t.items[i]) && t.items[i].scheduledFor <= t.now
  {
    w :| w in s.workers && IsActive(s.workers[w]) && s.workers[w].item in s.items
         && Released(s.items[s.workers[w].item], at) != s.items[s.workers[w].item]
         && IsCallable(s, s.items[s.workers[w].item]);
    i := s.workers[w].item;
    assert PhaseIsHeld(s, s.workers[w]);
    ItemOwnsItsRun(s, i);
    var t := ReleaseStep(s, at);
    SameCallable(s, t, s.items[i]);
    SameAge(t, s.items[i], t.items[i]);
    hide Held, Consistent, IsCallable;
  }

  /** Somebody with a clock reading in the item's grace, new or old, can claim it. */
  lemma SomebodyIsAwake(t: State, w: Id, i: Id) returns (u: State, v: Id)
    requires Loosened(t, w, i) && Consistent(t)
    requires IsCallable(t, t.items[i]) && t.items[i].scheduledFor <= t.now
    ensures Leads(t, u) && Consistent(u) && Loosened(u, w, i) && v != w && v in u.workers && u.workers[v].Awake?
    ensures u.items[i].scheduledFor <= u.workers[v].at <= LastMoment(u.items[i], u.grace)
  {
    LeadsToItself(t);
    if t.now <= LastMoment(t.items[i], t.grace) {
      v := FreshId(t.workers.Keys);
      assert v !in t.workers;
      StepKeepsConsistent(t, ReadClock(v));
      hide Leads, Consistent, IsCallable;
      LeadsOn(t, t, ReadClock(v));
      u := Step(t, ReadClock(v));
    } else {
      u := t;
      v :| v in t.workers && t.workers[v].Awake?
           && t.items[i].scheduledFor <= t.workers[v].at <= LastMoment(t.items[i], t.grace);
    }
  }

  lemma LoosenedIsDoubled(t: State, w: Id, i: Id) returns (u: State, v: Id)
    requires Loosened(t, w, i) && Consistent(t)
    requires IsCallable(t, t.items[i]) && t.items[i].scheduledFor <= t.now
    ensures Leads(t, u) && Consistent(u) && Doubled(u, w, v, i)
  {
    hide Leads, Consistent, IsCallable;
    var awake: State;
    awake, v := SomebodyIsAwake(t, w, i);
    LeadsOn(t, awake, Claim(v, i, 0));
    StepKeepsConsistent(awake, Claim(v, i, 0));
    u := Step(awake, Claim(v, i, 0));
  }

  /** The state after half an hour and a reconciliation. */
  function Cleared(s: State): State {
    var now := s.now + STALE_RUN_MINUTES + 1;
    ReconcileStep(s.(now := now), now)
  }

  /** It leaves nothing pending, and does not touch the item. */
  lemma ReconcileClears(s: State, w: Id, v: Id, i: Id)
    requires Consistent(s) && Doubled(s, w, v, i)
    ensures Doubled(Cleared(s), w, v, i) && OnlyPending(Cleared(s), None)
  {
    hide NothingUnseen, PhaseHolds;
  }

  lemma LeadsToCleared(t: State, s: State)
    requires Leads(t, s) && Consistent(s)
    ensures Leads(t, Cleared(s)) && Consistent(Cleared(s))
  {
    hide Consistent, Leads, ReconcileStep;
    var now := s.now + STALE_RUN_MINUTES + 1;
    var waited := Step(s, Wait(STALE_RUN_MINUTES + 1));
    StepKeepsConsistent(s, Wait(STALE_RUN_MINUTES + 1));
    StepKeepsConsistent(waited, ReconcileInterruptedRuns(now));
    LeadsOn(t, s, Wait(STALE_RUN_MINUTES + 1));
    LeadsOn(t, waited, ReconcileInterruptedRuns(now));
  }

  lemma InsertPrimes(s: State, w: Id, v: Id, i: Id, r: Id)
    requires Doubled(s, w, v, i) && s.workers[w].Holding? && OnlyPending(s, None) && r !in s.runs
    ensures Primed(Step(s, InsertRun(w, r)), w, v, i, r)
  {
    assert CanInsert(s, w, r);
  }

  lemma DoubledIsPrimed(t: State, s: State, w: Id, v: Id, i: Id) returns (u: State, r: Id)
    requires Leads(t, s) && Consistent(s) && Doubled(s, w, v, i) && OnlyPending(s, None)
    ensures Leads(t, u) && Primed(u, w, v, i, r)
  {
    if s.workers[w].Holding? {
      r := FreshId(s.runs.Keys);
      assert r !in s.runs;
      u := Step(s, InsertRun(w, r));
      LeadsOn(t, s, InsertRun(w, r));
      InsertPrimes(s, w, v, i, r);
    } else {
      u, r := s, s.workers[w].run;
      OwnRun(s, w);
    }
  }

  lemma PrimedPays(s: State, w: Id, v: Id, i: Id, r: Id)
    requires Primed(s, w, v, i, r)
    ensures PaidAndOpen(Step(Step(Step(s, Point(w)), Send(w)), RecordRun(w, true)), v, i, r)
  {
    var pointed := Step(s, Point(w));
    var sent := Step(pointed, Send(w));
    assert pointed.workers[w] == Pointed(i, r) && pointed.owner[r] == i;
    assert sent.workers[w] == Sent(i, r) && sent.sent[|s.sent|] == r;
  }

  lemma SecondPays(s: State, v: Id, i: Id, r: Id, q: Id)
    requires v in s.workers && s.workers[v] == Created(i, q) && i in s.items && q != r
    requires r in s.sent && r in s.owner && s.owner[r] == i && r in s.recorded && s.recorded[r]
    ensures PaidTwice(Step(Step(s, Point(v)), Send(v)), i)
  {
    var t := Step(Step(s, Point(v)), Send(v));
    var a :| 0 <= a < |s.sent| && s.sent[a] == r;
    assert t.sent[a] == r && t.sent[|s.sent|] == q && t.owner[q] == i;
  }

  lemma SecondInserts(s: State, v: Id, i: Id, r: Id, q: Id)
    requires PaidAndOpen(s, v, i, r) && q !in s.runs
    ensures var t := Step(s, InsertRun(v, q));
            && v in t.workers && t.workers[v] == Created(i, q) && i in t.items
            && t.sent == s.sent && t.owner == s.owner && t.recorded == s.recorded
  {
    assert CanInsert(s, v, q);
  }

  lemma PrimedIsPaidTwice(t: State, s: State, w: Id, v: Id, i: Id, r: Id) returns (end: State)
    requires Leads(t, s) && Primed(s, w, v, i, r)
    ensures Leads(t, end) && PaidTwice(end, i)
  {
    hide Leads, Primed, PaidTwice, PaidAndOpen, Step;
    var pointed := Step(s, Point(w));
    var sent := Step(pointed, Send(w));
    var paid := Step(sent, RecordRun(w, true));
    LeadsOn(t, s, Point(w));
    LeadsOn(t, pointed, Send(w));
    LeadsOn(t, sent, RecordRun(w, true));
    PrimedPays(s, w, v, i, r);
    end := PaidIsPaidTwice(t, paid, v, i, r);
  }

  lemma PaidIsPaidTwice(t: State, s: State, v: Id, i: Id, r: Id) returns (end: State)
    requires Leads(t, s) && PaidAndOpen(s, v, i, r)
    ensures Leads(t, end) && PaidTwice(end, i)
  {
    var q := FreshId(s.runs.Keys + {r});
    assert q !in s.runs && q != r;
    SecondInserts(s, v, i, r, q);
    hide Leads, PaidTwice, Step, OnlyPending;
    var created := Step(s, InsertRun(v, q));
    var pointed := Step(created, Point(v));
    LeadsOn(t, s, InsertRun(v, q));
    LeadsOn(t, created, Point(v));
    LeadsOn(t, pointed, Send(v));
    SecondPays(created, v, i, r, q);
    end := Step(pointed, Send(v));
  }

  /** A release that takes an item anybody may still call for from a worker that may, too, lets the provider
      be paid twice for it, with no further untimely release. */
  lemma UntimelyReleasePaysTwice(s: State, at: Time) returns (w: Id, i: Id, end: State)
    requires Held(s) && Consistent(s) && at <= s.now && !SparesLiveWorkers(s, at)
    ensures w in s.workers && IsActive(s.workers[w]) && s.workers[w].item == i
    ensures Leads(ReleaseStep(s, at), end) && PaidTwice(end, i)
  {
    w, i := UntimelyReleaseLoosens(s, at);
    ReleaseKeepsConsistent(s, at);
    hide Held, Consistent, Leads, PaidTwice, SparesLiveWorkers, ReleaseStep, Loosened, Doubled, Primed, IsCallable, Cleared,
         OnlyPending;
    var t := ReleaseStep(s, at);
    var doubled, v := LoosenedIsDoubled(t, w, i);
    ReconcileClears(doubled, w, v, i);
    LeadsToCleared(t, doubled);
    var primed, r := DoubledIsPrimed(t, Cleared(doubled), w, v, i);
    end := PrimedIsPaidTwice(t, primed, w, v, i, r);
  }

  /** After a release nothing can be paid twice, unless by another untimely release, exactly when each item
      that this release takes from a worker that may go on to call is past its grace, by the time it is and
      by every clock reading that some worker has still to claim by. */
  lemma ReleaseIsSafeIff(s: State, at: Time)
    requires Held(s) && Consistent(s) && at <= s.now
    ensures (forall events: seq<Event> :: TimelyHistory(ReleaseStep(s, at), events) ==>
               PaidOnce(After(ReleaseStep(s, at), events)))
            <==> SparesLiveWorkers(s, at)
  {
    var t := ReleaseStep(s, at);
    if SparesLiveWorkers(s, at) {
      ReleaseKeepsHeld(s, at);
      ReleaseKeepsConsistent(s, at);
      forall events: seq<Event> | TimelyHistory(t, events) ensures PaidOnce(After(t, events)) {
        TimelyKeepsHeld(t, events);
      }
    } else {
      hide Step, Held, Consistent, SparesLiveWorkers, ReleaseStep;
      var w, i, end := UntimelyReleasePaysTwice(s, at);
      PaidTwiceIsNotOnce(end, i);
      hide PaidOnce, PaidTwice;
      var events: seq<Event> :| TimelyHistory(t, events) && After(t, events) == end;
      assert !PaidOnce(After(t, events));
    }
  }

  // ----- histories that show it -----

  /** One item queued when it was due, and the first worker alone at work on it. */
  ghost predicate Scene(s: State, status: ItemStatus, runId: Option<Id>, p: Phase) {
    && 0 in s.items && s.items[0] == Item(0, 0, 0, status, Some(15), runId)
    && 0 in s.workers && s.workers[0] == p
    && (forall w :: w in s.workers ==> w == 0)
  }

  lemma HeldIsReachable(grace: nat) returns (s: State)
    ensures Leads(Start(grace), s) && Scene(s, Leased, None, Holding(0, true))
    ensures s == Start(grace).(items := s.items, workers := s.workers)
  {
    var start := Start(grace);
    LeadsToItself(start);
    hide Leads;
    LeadsOn(start, start, Enqueue(0, 0, 0));
    var queued := Step(start, Enqueue(0, 0, 0));
    LeadsOn(start, queued, ReadClock(0));
    var awake := Step(queued, ReadClock(0));
    LeadsOn(start, awake, Claim(0, 0, 15));
    s := Step(awake, Claim(0, 0, 15));
  }

  lemma CalledIsReachable(grace: nat) returns (s: State)
    ensures Leads(Start(grace), s) && Scene(s, Leased, Some(0), Sent(0, 0)) && 0 in s.runs
    ensures s.grace == grace && s.now == 0
  {
    var held := HeldIsReachable(grace);
    var start := Start(grace);
    hide Leads;
    var created := Step(held, InsertRun(0, 0));
    LeadsOn(start, held, InsertRun(0, 0));
    LeadsOn(start, created, Point(0));
    LeadsOn(start, Step(created, Point(0)), Send(0));
    s := Step(Step(created, Point(0)), Send(0));
  }

  lemma AnsweredIsReachable(grace: nat, ok: bool) returns (s: State)
    ensures Leads(Start(grace), s) && Scene(s, Leased, Some(0), Answered(0, 0, ok))
    ensures 0 in s.runs && s.runs[0].status != Pending && 0 in s.recorded && s.recorded[0] == ok
    ensures s.grace == grace && s.now == 0
  {
    var called := CalledIsReachable(grace);
    hide Leads;
    LeadsOn(Start(grace), called, RecordRun(0, ok));
    s := Step(called, RecordRun(0, ok));
  }

  /** The worker dies after it wrote down the answer and before it closed the item. */
  lemma DyingAfterTheAnswerStrands(grace: nat)
    ensures exists s: State :: Leads(Start(grace), s) && IsStranded(s, 0) && 0 in s.recorded && s.recorded[0]
  {
    var answered := AnsweredIsReachable(grace, true);
    hide Leads;
    LeadsOn(Start(grace), answered, Crash(0));
    var dead := Step(answered, Crash(0));
    assert IsStranded(dead, 0);
  }

  /** After a failed call the item waits its minute and is claimed again. */
  lemma RetryIsReachable(grace: nat) returns (s: State)
    ensures Leads(Start(grace), s) && 0 in s.items && s.items[0].status == Leased && s.items[0].runId == Some(0)
    ensures 0 in s.workers && s.workers[0].Holding? && s.workers[0].item == 0 && forall w :: w in s.workers ==> w == 0
    ensures 0 in s.runs && s.runs[0].status != Pending && 0 in s.recorded && !s.recorded[0]
  {
    var answered := AnsweredIsReachable(grace, false);
    var start := Start(grace);
    hide Leads;
    LeadsOn(start, answered, RecordItem(0, Queued, 1));
    var requeued := Step(answered, RecordItem(0, Queued, 1));
    LeadsOn(start, requeued, Wait(1));
    s := RetryIsClaimed(start, Step(requeued, Wait(1)));
  }

  lemma RetryIsClaimed(start: State, due: State) returns (s: State)
    requires Leads(start, due) && due.now == 1
    requires 0 in due.items && due.items[0] == Item(0, 1, 0, Queued, Some(15), Some(0))
    requires 0 in due.workers && due.workers[0] == Idle && forall w :: w in due.workers ==> w == 0
    ensures Leads(start, s) && 0 in s.items && s.items[0].status == Leased && s.items[0].runId == Some(0)
    ensures 0 in s.workers && s.workers[0].Holding? && s.workers[0].item == 0 && forall w :: w in s.workers ==> w == 0
    ensures s.runs == due.runs && s.recorded == due.recorded
  {
    hide Leads;
    LeadsOn(start, due, ReadClock(0));
    var awake := Step(due, ReadClock(0));
    LeadsOn(start, awake, Claim(0, 0, 15));
    s := Step(awake, Claim(0, 0, 15));
  }

  /** The worker dies on a retry, before the item points at the new run. */
  lemma DyingOnARetryStrands(grace: nat)
    ensures exists s: State :: Leads(Start(grace), s) && IsStranded(s, 0) && 0 in s.recorded && !s.recorded[0]
  {
    var held := RetryIsReachable(grace);
    hide Leads;
    LeadsOn(Start(grace), held, Crash(0));
    var dead := Step(held, Crash(0));
    assert IsStranded(dead, 0);
  }

  /** The first worker has outlived its lease of a quarter of an hour by a minute. */
  lemma LateWorkerIsReachable(grace: nat) returns (s: State)
    requires grace >= 16
    ensures Leads(Start(grace), s) && Scene(s, Leased, None, Holding(0, true)) && s.now == 16
    ensures Held(s) && Consistent(s) && !SparesLiveWorkers(s, 16)
  {
    var held := HeldIsReachable(grace);
    LeadsOn(Start(grace), held, Wait(16));
    s := Step(held, Wait(16));
    assert s.workers[0] == Holding(0, true) && !SparesLiveWorkers(s, 16);
    LeadsToHeld(grace, s);
    hide Held, Consistent, Leads;
  }

  lemma LeadsToHeld(grace: int, s: State)
    requires Leads(Start(grace), s)
    ensures Held(s) && Consistent(s)
  {
    hide Held, Consistent;
    var events: seq<Event> :| TimelyHistory(Start(grace), events) && After(Start(grace), events) == s;
    NothingIsPaidTwice(grace, events);
  }

  /** It does happen, whenever the grace is longer than the lease: one worker that is slower than its lease,
      one release that takes its item, and then the provider is called for the item a second time, after the
      first call succeeded. */
  lemma SlowWorkersPayTwice(grace: nat)
    requires grace >= 16
    ensures exists s: State, end: State ::
              Leads(Start(grace), s) && Scene(s, Leased, None, Holding(0, true)) && s.now == 16
              && Leads(ReleaseStep(s, 16), end) && PaidTwice(end, 0)
  {
    hide Held, Consistent, Leads, PaidTwice, Step, SparesLiveWorkers, ReleaseStep;
    var late := LateWorkerIsReachable(grace);
    var w, i, end := UntimelyReleasePaysTwice(late, 16);
    assert w == 0 && i == 0;
  }

  /** Once the grace is over, taking the item from the same slow worker is safe: the next claim only skips it. */
  lemma ReleaseAfterTheGraceIsSafe(s: State, at: Time, events: seq<Event>)
    requires Held(s) && Consistent(s) && at <= s.now
    requires forall w :: w in s.workers ==> !s.workers[w].Awake?
    requires forall w :: w in s.workers && IsActive(s.workers[w]) && s.workers[w].item in s.items ==>
               LastMoment(s.items[s.workers[w].item], s.grace) < s.now
    requires TimelyHistory(ReleaseStep(s, at), events)
    ensures PaidOnce(After(ReleaseStep(s, at), events))
  {
    ReleaseIsSafeIff(s, at);
  }
}
