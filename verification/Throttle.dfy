/** app/services/rate_limit.py: request pacing shared by every worker process through one row per
    key of `throttle_state`. The UPSERT is one atomic step; reading the clock, the UPSERT and the
    end of the sleep are separate steps, so any number of processes may interleave between them. */
module Throttle {
  import opened Options

  type Time = int  // microseconds

  datatype Request = Request(key: string, interval: int, now: Time)

  /** The slot a reservation gets: now, or the row's `next_available_at` when that lies later. */
  function Slot(table: map<string, Time>, r: Request): Time {
    if r.key in table then Max(table[r.key], r.now) else r.now
  }

  /** The `throttle_state` table. */
  class ThrottleTable {
    var nextAvailableAt: map<string, Time>

    constructor ()
      ensures nextAvailableAt == map[]
    {
      nextAvailableAt := map[];
    }

    /** One UPSERT and its RETURNING value, turned back into the reserved slot. */
    method Reserve(r: Request) returns (slot: Time)
      modifies this
      ensures slot == Slot(old(nextAvailableAt), r)
      ensures nextAvailableAt == old(nextAvailableAt)[r.key := slot + r.interval]
    {
      if r.key in nextAvailableAt {
        nextAvailableAt := nextAvailableAt[r.key := Max(nextAvailableAt[r.key], r.now) + r.interval];
      } else {
        nextAvailableAt := nextAvailableAt[r.key := r.now + r.interval];
      }
      slot := nextAvailableAt[r.key] - r.interval;
    }

    /** The whole call: reserve, then report how long the caller has to sleep (0 for not at all). */
    method Throttle(key: string, interval: int, now: Time) returns (pause: nat)
      modifies this
      ensures nextAvailableAt ==
              old(nextAvailableAt)[key := Slot(old(nextAvailableAt), Request(key, interval, now)) + interval]
      ensures now + pause == Slot(old(nextAvailableAt), Request(key, interval, now))
    {
      var reservedAt := Reserve(Request(key, interval, now));
      var remaining := reservedAt - now;
      pause := if remaining > 0 then remaining else 0;
    }
  }

  // ----- many processes -----

  datatype Process = Idle | ClockRead(request: Request) | Waiting(request: Request, slot: Time)

  datatype Grant = Grant(request: Request, slot: Time)

  datatype Resumption = Resumption(slot: Time, clock: Time)

  datatype System = System(
    table: map<string, Time>,
    processes: map<nat, Process>,
    grants: seq<Grant>,
    resumed: seq<Resumption>)

  /** `Resume` carries the process's own clock when its sleep began and when it ended. */
  datatype Event =
    | ReadClock(pid: nat, request: Request)
    | Upsert(pid: nat)
    | Resume(pid: nat, sleepStart: Time, clock: Time)

  function ProcessOf(s: System, pid: nat): Process {
    if pid in s.processes then s.processes[pid] else Idle
  }

  /** One step; an event that is not enabled leaves the system as it is. A process's own clock does
      not run backwards while it waits, and a sleep lasts at least as long as it was asked to. */
  function Step(s: System, e: Event): System {
    match e
    case ReadClock(pid, request) =>
      if ProcessOf(s, pid).Idle? then s.(processes := s.processes[pid := ClockRead(request)]) else s
    case Upsert(pid) =>
      var p := ProcessOf(s, pid);
      if p.ClockRead? then
        var slot := Slot(s.table, p.request);
        s.(table := s.table[p.request.key := slot + p.request.interval],
           processes := s.processes[pid := Waiting(p.request, slot)],
           grants := s.grants + [Grant(p.request, slot)])
      else s
    case Resume(pid, sleepStart, clock) =>
      var p := ProcessOf(s, pid);
      if p.Waiting? && sleepStart >= p.request.now && clock >= sleepStart + Max(0, p.slot - p.request.now) then
        s.(processes := s.processes[pid := Idle], resumed := s.resumed + [Resumption(p.slot, clock)])
      else s
  }

  function Run(events: seq<Event>): System {
    if events == [] then System(map[], map[], [], [])
    else Step(Run(events[..|events| - 1]), events[|events| - 1])
  }

  /** The grants on one key, in the order the UPSERTs were serialised. */
  function OfKey(grants: seq<Grant>, key: string): seq<Grant> {
    if grants == [] then []
    else
      var rest := OfKey(grants[..|grants| - 1], key);
      var last := grants[|grants| - 1];
      if last.request.key == key then rest + [last] else rest
  }

  function Requests(grants: seq<Grant>): (r: seq<Request>)
    ensures |r| == |grants|
  {
    seq(|grants|, i requires 0 <= i < |grants| => grants[i].request)
  }

  /** Pacing as the documentation states it, for one key alone and with no table: each slot is now,
      or the previous slot plus the previous interval when that is later. */
  function Paced(rs: seq<Request>): (slots: seq<Time>)
    ensures |slots| == |rs|
  {
    if rs == [] then []
    else
      var n := |rs| - 1;
      var before := Paced(rs[..n]);
      before + [if n == 0 then rs[0].now else Max(rs[n].now, before[n - 1] + rs[n - 1].interval)]
  }

  /** What the table knows about a key: its next free moment follows from that key's grants only. */
  ghost predicate TableMatches(table: map<string, Time>, grants: seq<Grant>, key: string) {
    var mine := OfKey(grants, key);
    && (mine == [] <==> key !in table)
    && (mine != [] ==>
          key in table && table[key] == mine[|mine| - 1].slot + mine[|mine| - 1].request.interval)
    && (forall i :: 0 <= i < |mine| ==> mine[i].slot == Paced(Requests(mine))[i])
  }

  lemma GrantKeepsTable(table: map<string, Time>, grants: seq<Grant>, r: Request, key: string)
    requires TableMatches(table, grants, key)
    ensures TableMatches(table[r.key := Slot(table, r) + r.interval], grants + [Grant(r, Slot(table, r))], key)
  {
    var g := Grant(r, Slot(table, r));
    assert (grants + [g])[..|grants|] == grants;
    var mine := OfKey(grants, key);
    if r.key == key {
      var now := mine + [g];
      assert OfKey(grants + [g], key) == now;
      assert Requests(now)[..|mine|] == Requests(mine);
    }
  }

  /** Over every interleaving of any number of processes with arbitrary clock readings, the slots
      granted on a key are exactly the paced slots of that key's own requests: other keys and other
      processes have no influence. */
  lemma {:induction false} SlotsFollowOwnKeyOnly(events: seq<Event>, key: string)
    ensures TableMatches(Run(events).table, Run(events).grants, key)
  {
    if events != [] {
      var before := events[..|events| - 1];
      SlotsFollowOwnKeyOnly(before, key);
      var s, e := Run(before), events[|events| - 1];
      if e.Upsert? && ProcessOf(s, e.pid).ClockRead? {
        GrantKeepsTable(s.table, s.grants, ProcessOf(s, e.pid).request, key);
      }
    }
  }

  lemma {:induction false} PacedPrefix(rs: seq<Request>, n: nat)
    requires n <= |rs|
    ensures Paced(rs[..n]) == Paced(rs)[..n]
  {
    if n < |rs| {
      PacedPrefix(rs[..|rs| - 1], n);
      assert rs[..|rs| - 1][..n] == rs[..n];
    } else {
      assert rs[..n] == rs;
    }
  }

  lemma PacedAt(rs: seq<Request>, i: nat)
    requires i < |rs|
    ensures Paced(rs)[i] == if i == 0 then rs[0].now else Max(rs[i].now, Paced(rs)[i - 1] + rs[i - 1].interval)
  {
    PacedPrefix(rs, i + 1);
    PacedPrefix(rs, i);
    assert rs[..i + 1][..i] == rs[..i];
    var upTo := Paced(rs[..i + 1]);
    assert upTo[i] == Paced(rs)[i];
    if i > 0 { assert Paced(rs[..i])[i - 1] == Paced(rs)[i - 1]; }
  }

  /** Consecutive slots on one key: the exact value, and at least the earlier interval apart. */
  lemma {:induction false} SlotAfterSlot(events: seq<Event>, key: string, i: nat)
    requires i < |OfKey(Run(events).grants, key)|
    ensures var g := OfKey(Run(events).grants, key);
            if i == 0 then g[0].slot == g[0].request.now
            else g[i].slot == Max(g[i].request.now, g[i - 1].slot + g[i - 1].request.interval)
                 && g[i].slot - g[i - 1].slot >= g[i - 1].request.interval
  {
    SlotsFollowOwnKeyOnly(events, key);
    PacedAt(Requests(OfKey(Run(events).grants, key)), i);
  }

  /** The intervals promised by requests `i` up to (not including) `n`. */
  function Intervals(rs: seq<Request>, i: nat, n: nat): int
    requires i <= n <= |rs|
    decreases n - i
  {
    if i == n then 0 else rs[i].interval + Intervals(rs, i + 1, n)
  }

  lemma {:induction false} IntervalsLast(rs: seq<Request>, i: nat, n: nat)
    requires i <= n < |rs|
    ensures Intervals(rs, i, n + 1) == Intervals(rs, i, n) + rs[n].interval
    decreases n - i
  {
    if i < n { IntervalsLast(rs, i + 1, n); }
  }

  /** Closed form of a slot, with no recursion over slots: the latest moment any earlier request on
      the key forces, and no later than that. The caller is never delayed without a cause. */
  lemma {:induction false} PacedClosedForm(rs: seq<Request>, n: nat)
    requires n < |rs|
    ensures forall i: nat :: i <= n ==> Paced(rs)[n] >= rs[i].now + Intervals(rs, i, n)
    ensures exists i: nat :: i <= n && Paced(rs)[n] == rs[i].now + Intervals(rs, i, n)
  {
    PacedAt(rs, n);
    if n == 0 {
      assert Paced(rs)[0] == rs[0].now + Intervals(rs, 0, 0);
    } else {
      PacedClosedForm(rs, n - 1);
      forall i: nat | i <= n
        ensures Paced(rs)[n] >= rs[i].now + Intervals(rs, i, n)
      {
        if i < n { IntervalsLast(rs, i, n - 1); }
      }
      if Paced(rs)[n] == rs[n].now {
        assert Paced(rs)[n] == rs[n].now + Intervals(rs, n, n);
      } else {
        var i: nat :| i <= n - 1 && Paced(rs)[n - 1] == rs[i].now + Intervals(rs, i, n - 1);
        IntervalsLast(rs, i, n - 1);
        assert Paced(rs)[n] == rs[i].now + Intervals(rs, i, n);
      }
    }
  }

  /** Any two slots on a key are as far apart as all the intervals granted from the first up to the
      second, so with intervals of at least `gap` no window holds more than its share of slots. */
  lemma {:induction false} SlotsSpreadOut(events: seq<Event>, key: string, i: nat, j: nat, gap: int)
    requires i <= j < |OfKey(Run(events).grants, key)|
    requires forall k :: i <= k < j ==> OfKey(Run(events).grants, key)[k].request.interval >= gap
    ensures var g := OfKey(Run(events).grants, key);
            && g[j].slot - g[i].slot >= Intervals(Requests(g), i, j)
            && g[j].slot - g[i].slot >= (j - i) * gap
    decreases j
  {
    if i < j {
      SlotsSpreadOut(events, key, i, j - 1, gap);
      SlotAfterSlot(events, key, j);
      IntervalsLast(Requests(OfKey(Run(events).grants, key)), i, j - 1);
    }
  }

  /** No process goes on before its slot by its own clock. */
  lemma {:induction false} NobodyResumesEarly(events: seq<Event>)
    ensures forall r :: r in Run(events).resumed ==> r.clock >= r.slot
  {
    if events != [] {
      NobodyResumesEarly(events[..|events| - 1]);
    }
  }

  /** A process that is free gets the slot it asks for by its next two steps, and goes on at any moment of
      its own clock that is as far from the start of its sleep as the slot is from its request, but at no
      earlier one. */
  lemma RequestIsServed(events: seq<Event>, pid: nat, r: Request, sleepStart: Time, clock: Time)
    requires ProcessOf(Run(events), pid).Idle?
    ensures var asked := events + [ReadClock(pid, r), Upsert(pid)];
            var s, after := Run(asked), Run(asked + [Resume(pid, sleepStart, clock)]);
            var slot := Slot(Run(events).table, r);
            && s.grants == Run(events).grants + [Grant(r, slot)]
            && (if sleepStart >= r.now && clock >= sleepStart && clock - sleepStart >= slot - r.now
                then ProcessOf(after, pid).Idle? && after.resumed == Run(events).resumed + [Resumption(slot, clock)]
                else after == s)
  {
    hide Run, Slot;
    var read := events + [ReadClock(pid, r)];
    var asked := events + [ReadClock(pid, r), Upsert(pid)];
    RunOneMore(events, ReadClock(pid, r));
    RunOneMore(read, Upsert(pid));
    assert read + [Upsert(pid)] == asked;
    RunOneMore(asked, Resume(pid, sleepStart, clock));
    ServedIn(Run(events), pid, r, sleepStart, clock);
  }

  lemma RunOneMore(events: seq<Event>, e: Event)
    ensures Run(events + [e]) == Step(Run(events), e)
  {
    hide Step;
    assert (events + [e])[..|events|] == events;
  }

  lemma ServedIn(before: System, pid: nat, r: Request, sleepStart: Time, clock: Time)
    requires ProcessOf(before, pid).Idle?
    ensures var s := Step(Step(before, ReadClock(pid, r)), Upsert(pid));
            var after := Step(s, Resume(pid, sleepStart, clock));
            var slot := Slot(before.table, r);
            && s.grants == before.grants + [Grant(r, slot)]
            && (if sleepStart >= r.now && clock >= sleepStart && clock - sleepStart >= slot - r.now
                then ProcessOf(after, pid).Idle? && after.resumed == before.resumed + [Resumption(slot, clock)]
                else after == s)
  {
    hide Slot;
  }
}
