/** app/routers/schedules.py: warning about schedules that would run the same prompt on the same
    model for the same persona. One search per schedule, and one pass over all pairs. */
module Overlaps {
  import opened Options

  datatype Prompt = Prompt(id: int, rootPromptId: Option<int>)

  /** What `_resolve_target` finds: the owning client and the active prompts. */
  datatype Target = Target(clientId: int, prompts: seq<Prompt>)

  datatype Schedule = Schedule(
    id: int,
    isActive: bool,
    clientId: int,
    target: Option<Target>,
    modelIds: set<int>,
    personaIds: set<int>)

  datatype Overlap = Overlap(
    schedule: Schedule,
    sharedPrompts: set<int>,
    sharedModels: set<int>,
    sharedPersonas: set<int>)

  /** `p.root_prompt_id or p.id`. */
  function Lineage(p: Prompt): int {
    if p.rootPromptId.Some? && p.rootPromptId.value != 0 then p.rootPromptId.value else p.id
  }

  function Lineages(prompts: seq<Prompt>): set<int> {
    set p | p in prompts :: Lineage(p)
  }

  function PromptIds(s: Schedule): set<int> {
    if s.target.Some? then Lineages(s.target.value.prompts) else {}
  }

  // ----- the search for one combination -----

  predicate IsCandidate(t: Schedule, clientId: int, exclude: Option<int>) {
    t.clientId == clientId && t.isActive && (exclude.Some? ==> t.id != exclude.value)
  }

  predicate IsHit(
    t: Schedule, clientId: int, exclude: Option<int>, prompts: set<int>, models: set<int>, personas: set<int>)
  {
    && IsCandidate(t, clientId, exclude) && t.target.Some?
    && prompts * PromptIds(t) != {} && models * t.modelIds != {} && personas * t.personaIds != {}
  }

  function Search(
    db: seq<Schedule>, clientId: int, exclude: Option<int>,
    prompts: set<int>, models: set<int>, personas: set<int>): seq<Overlap>
  {
    if db == [] then []
    else
      var n := |db| - 1;
      var before := Search(db[..n], clientId, exclude, prompts, models, personas);
      if IsHit(db[n], clientId, exclude, prompts, models, personas) then
        before + [Overlap(db[n], prompts * PromptIds(db[n]), models * db[n].modelIds, personas * db[n].personaIds)]
      else before
  }

  method FindOverlappingSchedules(
    db: seq<Schedule>, clientId: int, exclude: Option<int>,
    prompts: set<int>, models: set<int>, personas: set<int>) returns (overlaps: seq<Overlap>)
    ensures overlaps == Search(db, clientId, exclude, prompts, models, personas)
  {
    overlaps := [];
    for i := 0 to |db|
      invariant overlaps == Search(db[..i], clientId, exclude, prompts, models, personas)
    {
      assert db[..i + 1][..i] == db[..i];
      var candidate := db[i];
      if IsCandidate(candidate, clientId, exclude) && candidate.target.Some? {
        var sharedPrompts := prompts * Lineages(candidate.target.value.prompts);
        var sharedModels := models * candidate.modelIds;
        var sharedPersonas := personas * candidate.personaIds;
        if sharedPrompts != {} && sharedModels != {} && sharedPersonas != {} {
          overlaps := overlaps + [Overlap(candidate, sharedPrompts, sharedModels, sharedPersonas)];
        }
      }
    }
    assert db[..|db|] == db;
  }

  /** The search reports the schedules that share a prompt, a model and a persona, and no others. */
  lemma {:induction false} SearchIsExact(
    db: seq<Schedule>, clientId: int, exclude: Option<int>, prompts: set<int>, models: set<int>, personas: set<int>,
    t: Schedule)
    ensures (exists o :: o in Search(db, clientId, exclude, prompts, models, personas) && o.schedule == t)
            <==> t in db && IsHit(t, clientId, exclude, prompts, models, personas)
  {
    if db != [] {
      var n := |db| - 1;
      SearchIsExact(db[..n], clientId, exclude, prompts, models, personas, t);
      assert db == db[..n] + [db[n]];
      var before := Search(db[..n], clientId, exclude, prompts, models, personas);
      var all := Search(db, clientId, exclude, prompts, models, personas);
      assert forall o :: o in before ==> o in all;
      if t == db[n] && IsHit(t, clientId, exclude, prompts, models, personas) {
        assert all[|before|] in all && all[|before|].schedule == t;
      }
    }
  }

  /** The save-time search, asked on behalf of a schedule already stored. */
  function SearchFor(db: seq<Schedule>, s: Schedule): seq<Overlap> {
    Search(db, s.clientId, Some(s.id), PromptIds(s), s.modelIds, s.personaIds)
  }

  // ----- the counters for every schedule at once -----

  datatype Entry = Entry(id: int, clientId: int, promptIds: set<int>, modelIds: set<int>, personaIds: set<int>)

  predicate Live(s: Schedule) {
    s.isActive && s.target.Some?
  }

  function EntryOf(s: Schedule): Entry
    requires Live(s)
  {
    Entry(s.id, s.target.value.clientId, Lineages(s.target.value.prompts), s.modelIds, s.personaIds)
  }

  function Resolve(schedules: seq<Schedule>): seq<Entry> {
    if schedules == [] then []
    else
      var n := |schedules| - 1;
      Resolve(schedules[..n]) + if Live(schedules[n]) then [EntryOf(schedules[n])] else []
  }

  predicate Meet(a: Entry, b: Entry) {
    && a.clientId == b.clientId
    && a.promptIds * b.promptIds != {} && a.modelIds * b.modelIds != {} && a.personaIds * b.personaIds != {}
  }

  /** How many entries other than number `i` meet `e`. */
  function Partners(e: Entry, i: nat, entries: seq<Entry>): nat {
    if entries == [] then 0
    else
      var n := |entries| - 1;
      Partners(e, i, entries[..n]) + if n != i && Meet(e, entries[n]) then 1 else 0
  }

  predicate UniqueIds(schedules: seq<Schedule>) {
    forall i, j :: 0 <= i < j < |schedules| ==> schedules[i].id != schedules[j].id
  }

  predicate UniqueEntries(entries: seq<Entry>) {
    forall i, j :: 0 <= i < j < |entries| ==> entries[i].id != entries[j].id
  }

  function CountAt(counts: map<int, nat>, id: int): nat {
    if id in counts then counts[id] else 0
  }

  lemma {:induction false} ResolvedIdsAreUnique(schedules: seq<Schedule>)
    requires UniqueIds(schedules)
    ensures UniqueEntries(Resolve(schedules))
    ensures forall e :: e in Resolve(schedules) ==> exists s :: s in schedules && Live(s) && e == EntryOf(s)
  {
    if schedules != [] {
      var n := |schedules| - 1;
      ResolvedIdsAreUnique(schedules[..n]);
      assert forall e :: e in Resolve(schedules[..n]) ==> e.id != schedules[n].id;
    }
  }

  method FindAllOverlapCounts(schedules: seq<Schedule>) returns (counts: map<int, nat>)
    requires UniqueIds(schedules)
    ensures forall id :: id in counts ==> counts[id] > 0 && exists s :: s in schedules && Live(s) && s.id == id
    ensures forall s :: s in schedules && Live(s) ==> CountAt(counts, s.id) == Clashes(s, schedules)
  {
    var resolved := [];
    for k := 0 to |schedules|
      invariant resolved == Resolve(schedules[..k])
    {
      assert schedules[..k + 1][..k] == schedules[..k];
      if Live(schedules[k]) {
        resolved := resolved + [EntryOf(schedules[k])];
      }
    }
    assert schedules[..|schedules|] == schedules;
    ResolvedIdsAreUnique(schedules);
    counts := CountPairs(resolved);
    forall s | s in schedules && Live(s) ensures CountAt(counts, s.id) == Clashes(s, schedules) {
      CounterCountsClashes(counts, schedules, s);
    }
  }

  lemma OneMorePartner(e: Entry, i: nat, entries: seq<Entry>, j: nat)
    requires j < |entries|
    ensures Partners(e, i, entries[..j + 1])
            == Partners(e, i, entries[..j]) + if i != j && Meet(e, entries[j]) then 1 else 0
  {
    hide Meet;
    assert entries[..j + 1][..j] == entries[..j];
  }

  lemma CountGrows(counts: map<int, nat>, id: int, n: nat)
    requires id !in counts
    ensures CountAt(WithCount(counts, id, n), id) == n
    ensures WithCount(counts, id, n)[id := n + 1] == WithCount(counts, id, n + 1)
  {
  }

  method CountPairs(resolved: seq<Entry>) returns (counts: map<int, nat>)
    requires UniqueEntries(resolved)
    ensures forall id :: id in counts ==> counts[id] > 0 && exists e :: e in resolved && e.id == id
    ensures forall i :: 0 <= i < |resolved| ==>
              CountAt(counts, resolved[i].id) == Partners(resolved[i], i, resolved)
  {
    hide Meet, Partners;
    counts := map[];
    for i := 0 to |resolved|
      invariant forall id :: id in counts ==> counts[id] > 0 && exists k :: 0 <= k < i && resolved[k].id == id
      invariant forall k :: 0 <= k < i ==>
                  CountAt(counts, resolved[k].id) == Partners(resolved[k], k, resolved)
    {
      ghost var before, id := counts, resolved[i].id;
      assert id !in counts;
      NoPartnersInNothing(resolved[i], i);
      for j := 0 to |resolved|
        invariant counts == WithCount(before, id, Partners(resolved[i], i, resolved[..j]))
      {
        OneMorePartner(resolved[i], i, resolved, j);
        CountGrows(before, id, Partners(resolved[i], i, resolved[..j]));
        if i != j && Meet(resolved[i], resolved[j]) {
          counts := counts[resolved[i].id := CountAt(counts, resolved[i].id) + 1];
        }
      }
      assert resolved[..|resolved|] == resolved;
    }
  }

  lemma NoPartnersInNothing(e: Entry, i: nat)
    ensures Partners(e, i, []) == 0
  {
  }

  /** The dictionary with one schedule's count in it; a count of 0 is left out. */
  function WithCount(counts: map<int, nat>, id: int, n: nat): map<int, nat> {
    if n == 0 then counts else counts[id := n]
  }

  // ----- the two forms agree -----

  /** `t` overlaps `s` in the eyes of the counter. */
  predicate Clash(s: Schedule, t: Schedule) {
    s.id != t.id && Live(s) && Live(t) && Meet(EntryOf(s), EntryOf(t))
  }

  function Clashes(s: Schedule, schedules: seq<Schedule>): nat {
    if schedules == [] then 0
    else
      var n := |schedules| - 1;
      Clashes(s, schedules[..n]) + if Clash(s, schedules[n]) then 1 else 0
  }

  lemma {:induction false} PartnersAreClashes(s: Schedule, i: nat, schedules: seq<Schedule>)
    requires UniqueIds(schedules) && Live(s)
    requires forall j :: 0 <= j < |Resolve(schedules)| ==> (j == i <==> Resolve(schedules)[j].id == s.id)
    ensures Partners(EntryOf(s), i, Resolve(schedules)) == Clashes(s, schedules)
  {
    if schedules != [] {
      var n := |schedules| - 1;
      var before := Resolve(schedules[..n]);
      assert forall j :: 0 <= j < |before| ==> before[j] == Resolve(schedules)[j];
      PartnersAreClashes(s, i, schedules[..n]);
      var all := Resolve(schedules);
      if Live(schedules[n]) {
        assert all == before + [EntryOf(schedules[n])] && all[..|all| - 1] == before;
        assert all[|before|].id == schedules[n].id;
      } else {
        assert all == before;
      }
    }
  }

  lemma {:induction false} ResolvedPosition(s: Schedule, schedules: seq<Schedule>) returns (i: nat)
    requires s in schedules && Live(s)
    ensures i < |Resolve(schedules)| && Resolve(schedules)[i] == EntryOf(s)
  {
    var n := |schedules| - 1;
    if schedules[n] == s {
      i := |Resolve(schedules[..n])|;
    } else {
      assert schedules == schedules[..n] + [schedules[n]];
      i := ResolvedPosition(s, schedules[..n]);
    }
  }

  /** The counter of a live schedule, as a count over schedules. */
  lemma CounterCountsClashes(counts: map<int, nat>, schedules: seq<Schedule>, s: Schedule)
    requires UniqueIds(schedules) && s in schedules && Live(s)
    requires var entries := Resolve(schedules);
             forall i :: 0 <= i < |entries| ==> CountAt(counts, entries[i].id) == Partners(entries[i], i, entries)
    ensures CountAt(counts, s.id) == Clashes(s, schedules)
  {
    ResolvedIdsAreUnique(schedules);
    var i := ResolvedPosition(s, schedules);
    PartnersAreClashes(s, i, schedules);
  }

  /** Schedules agree on being one client's whether asked by their own or by their target's client. */
  predicate ClientsConsistent(schedules: seq<Schedule>) {
    forall s, t :: s in schedules && t in schedules && Live(s) && Live(t) && s.id != t.id ==>
      (s.clientId == t.clientId <==> s.target.value.clientId == t.target.value.clientId)
  }

  lemma {:induction false} ClashesAreHits(s: Schedule, schedules: seq<Schedule>)
    requires Live(s)
    requires forall t :: t in schedules && Live(t) && s.id != t.id ==>
               (s.clientId == t.clientId <==> s.target.value.clientId == t.target.value.clientId)
    ensures |SearchFor(schedules, s)| == Clashes(s, schedules)
  {
    if schedules != [] {
      var n := |schedules| - 1;
      assert schedules[n] in schedules;
      assert forall t :: t in schedules[..n] ==> t in schedules;
      ClashesAreHits(s, schedules[..n]);
    }
  }

  ghost predicate CountersMatchSearch(schedules: seq<Schedule>) {
    forall s :: s in schedules && Live(s) ==> Clashes(s, schedules) == |SearchFor(schedules, s)|
  }

  /** The same schedules with other prompts, models and personas on them. */
  datatype Contents = Contents(prompts: seq<Prompt>, modelIds: set<int>, personaIds: set<int>)

  function RefillOne(s: Schedule, fill: map<int, Contents>): Schedule {
    var c := if s.id in fill then fill[s.id] else Contents([], {}, {});
    s.(target := if s.target.Some? then Some(Target(s.target.value.clientId, c.prompts)) else None,
       modelIds := c.modelIds, personaIds := c.personaIds)
  }

  function Refill(schedules: seq<Schedule>, fill: map<int, Contents>): (r: seq<Schedule>)
    ensures |r| == |schedules|
  {
    seq(|schedules|, i requires 0 <= i < |schedules| => RefillOne(schedules[i], fill))
  }

  /** Apart from `t` nothing in the list shares a model with anything else. */
  ghost predicate OnlyOneFilled(s: Schedule, t: Schedule, schedules: seq<Schedule>) {
    && (forall u :: u in schedules && u.id != s.id && u.id != t.id ==> u.modelIds == {})
    && (forall u :: u in schedules && u.id == t.id ==> u == t)
  }

  lemma OnlyOneFilledPrefix(s: Schedule, t: Schedule, schedules: seq<Schedule>)
    requires UniqueIds(schedules) && OnlyOneFilled(s, t, schedules) && schedules != []
    ensures var n := |schedules| - 1;
            && UniqueIds(schedules[..n]) && OnlyOneFilled(s, t, schedules[..n])
            && (t in schedules <==> t in schedules[..n] || schedules[n] == t)
            && (schedules[n] == t ==> t !in schedules[..n])
            && (schedules[n].id != s.id && schedules[n] != t ==> schedules[n].modelIds == {})
  {
    var n := |schedules| - 1;
    assert schedules == schedules[..n] + [schedules[n]];
  }

  lemma {:induction false} OnlyOneClash(s: Schedule, t: Schedule, schedules: seq<Schedule>)
    requires UniqueIds(schedules) && OnlyOneFilled(s, t, schedules)
    ensures Clashes(s, schedules) == if t in schedules && Clash(s, t) then 1 else 0
  {
    if schedules != [] {
      OnlyOneFilledPrefix(s, t, schedules);
      hide UniqueIds, OnlyOneFilled;
      OnlyOneClash(s, t, schedules[..|schedules| - 1]);
    }
  }

  lemma {:induction false} OnlyOneHit(s: Schedule, t: Schedule, schedules: seq<Schedule>)
    requires UniqueIds(schedules) && OnlyOneFilled(s, t, schedules)
    ensures |SearchFor(schedules, s)| ==
            if t in schedules && IsHit(t, s.clientId, Some(s.id), PromptIds(s), s.modelIds, s.personaIds) then 1 else 0
  {
    if schedules != [] {
      OnlyOneFilledPrefix(s, t, schedules);
      hide UniqueIds, OnlyOneFilled;
      OnlyOneHit(s, t, schedules[..|schedules| - 1]);
    }
  }

  /** Two schedules that meet in everything but their clients expose a disagreement. */
  lemma DisagreementShows(schedules: seq<Schedule>, s: Schedule, t: Schedule) returns (fill: map<int, Contents>)
    requires UniqueIds(schedules) && s in schedules && t in schedules && Live(s) && Live(t) && s.id != t.id
    requires (s.clientId == t.clientId) != (s.target.value.clientId == t.target.value.clientId)
    ensures !CountersMatchSearch(Refill(schedules, fill))
  {
    var same := Contents([Prompt(1, None)], {1}, {1});
    fill := map[s.id := same, t.id := same];
    var filled := Refill(schedules, fill);
    var s', t' := RefillOne(s, fill), RefillOne(t, fill);
    var i :| 0 <= i < |schedules| && schedules[i] == s;
    var j :| 0 <= j < |schedules| && schedules[j] == t;
    assert filled[i] == s' && filled[j] == t';
    assert 1 in PromptIds(s') * PromptIds(t') by {
      assert Prompt(1, None) in s'.target.value.prompts && Lineage(Prompt(1, None)) == 1;
    }
    assert 1 in s'.modelIds * t'.modelIds && 1 in s'.personaIds * t'.personaIds;
    assert t' in filled && s' in filled;
    OnlyOneClash(s', t', filled);
    OnlyOneHit(s', t', filled);
  }

  lemma RefillKeepsShape(schedules: seq<Schedule>, fill: map<int, Contents>)
    requires ClientsConsistent(schedules)
    ensures ClientsConsistent(Refill(schedules, fill))
  {
    var filled := Refill(schedules, fill);
    forall s, t | s in filled && t in filled && Live(s) && Live(t) && s.id != t.id
      ensures s.clientId == t.clientId <==> s.target.value.clientId == t.target.value.clientId
    {
      var i :| 0 <= i < |filled| && filled[i] == s;
      var j :| 0 <= j < |filled| && filled[j] == t;
      assert schedules[i] in schedules && schedules[j] in schedules;
    }
  }

  /** For every live schedule the pairwise counter equals the number of search results, whatever the
      schedules contain, exactly when targets belong to clients as their schedules do. */
  lemma CountersMatchSearchIff(schedules: seq<Schedule>)
    requires UniqueIds(schedules)
    ensures (forall fill: map<int, Contents> :: CountersMatchSearch(Refill(schedules, fill)))
            <==> ClientsConsistent(schedules)
  {
    if ClientsConsistent(schedules) {
      forall fill: map<int, Contents> ensures CountersMatchSearch(Refill(schedules, fill)) {
        RefillKeepsShape(schedules, fill);
        var filled := Refill(schedules, fill);
        forall s | s in filled && Live(s) ensures Clashes(s, filled) == |SearchFor(filled, s)| {
          ClashesAreHits(s, filled);
        }
      }
    } else {
      var s, t :| s in schedules && t in schedules && Live(s) && Live(t) && s.id != t.id
                  && (s.clientId == t.clientId) != (s.target.value.clientId == t.target.value.clientId);
      var fill := DisagreementShows(schedules, s, t);
      assert !CountersMatchSearch(Refill(schedules, fill));
    }
  }

  // ----- what an overlap is -----

  /** The prompt a version goes back to; one without a root, or with the root 0, is its own. */
  function Origin(p: Prompt): int {
    match p.rootPromptId
    case None => p.id
    case Some(r) => if r == 0 then p.id else r
  }

  /** Among these prompts is a version of the prompt `origin`. */
  ghost predicate HasVersion(prompts: seq<Prompt>, origin: int) {
    exists p :: p in prompts && Origin(p) == origin
  }

  lemma LineagesAre(prompts: seq<Prompt>, origin: int)
    ensures origin in Lineages(prompts) <==> HasVersion(prompts, origin)
  {
    if HasVersion(prompts, origin) {
      var p :| p in prompts && Origin(p) == origin;
      assert Lineage(p) == origin;
    }
    if origin in Lineages(prompts) {
      var p :| p in prompts && Lineage(p) == origin;
      assert Origin(p) == origin;
    }
  }

  ghost predicate ShareAPrompt(a: seq<Prompt>, b: seq<Prompt>) {
    exists p, q :: p in a && q in b && Origin(p) == Origin(q)
  }

  ghost predicate ShareAnId(a: set<int>, b: set<int>) {
    exists x :: x in a && x in b
  }

  lemma SharedLineage(a: seq<Prompt>, b: seq<Prompt>)
    ensures Lineages(a) * Lineages(b) != {} <==> ShareAPrompt(a, b)
  {
    if ShareAPrompt(a, b) {
      var p, q :| p in a && q in b && Origin(p) == Origin(q);
      LineagesAre(a, Origin(p));
      LineagesAre(b, Origin(p));
      assert Origin(p) in Lineages(a) * Lineages(b);
    }
    if Lineages(a) * Lineages(b) != {} {
      var x :| x in Lineages(a) * Lineages(b);
      LineagesAre(a, x);
      LineagesAre(b, x);
      var p :| p in a && Origin(p) == x;
      var q :| q in b && Origin(q) == x;
    }
  }

  lemma SharedId(a: set<int>, b: set<int>)
    ensures a * b != {} <==> ShareAnId(a, b)
  {
    if ShareAnId(a, b) {
      var x :| x in a && x in b;
      assert x in a * b;
    }
    if !ShareAnId(a, b) {
      forall x ensures x !in a * b {
        assert !(x in a && x in b);
      }
    }
  }

  /** Both are switched on, have a target, and would run a version of one prompt on one model for one
      persona. */
  ghost predicate RunTheSame(s: Schedule, t: Schedule) {
    && s.target.Some? && t.target.Some?
    && ShareAPrompt(s.target.value.prompts, t.target.value.prompts)
    && ShareAnId(s.modelIds, t.modelIds) && ShareAnId(s.personaIds, t.personaIds)
  }

  /** The search for a stored schedule finds the other active ones of its client that would run the
      same; the counter goes by the client the targets belong to. */
  lemma OverlapTells(db: seq<Schedule>, s: Schedule, t: Schedule)
    requires s.target.Some?
    ensures (exists o :: o in SearchFor(db, s) && o.schedule == t)
            <==> t in db && t.clientId == s.clientId && t.isActive && t.id != s.id && RunTheSame(s, t)
    ensures s.isActive ==>
              (Clash(s, t) <==> t.id != s.id && t.isActive && RunTheSame(s, t)
                                && s.target.value.clientId == t.target.value.clientId)
  {
    SearchIsExact(db, s.clientId, Some(s.id), PromptIds(s), s.modelIds, s.personaIds, t);
    if t.target.Some? { SharedLineage(s.target.value.prompts, t.target.value.prompts); }
    SharedId(s.modelIds, t.modelIds);
    SharedId(s.personaIds, t.personaIds);
    hide ShareAPrompt, ShareAnId, Lineages, Search;
  }

  /** What a found overlap lists: the shared prompts, models and personas, all of them and no others. */
  lemma {:induction false} OverlapLists(
    db: seq<Schedule>, clientId: int, exclude: Option<int>, prompts: set<int>, models: set<int>, personas: set<int>,
    o: Overlap, x: int)
    requires o in Search(db, clientId, exclude, prompts, models, personas)
    ensures o.schedule in db && o.schedule.target.Some?
    ensures x in o.sharedPrompts <==> x in prompts && HasVersion(o.schedule.target.value.prompts, x)
    ensures x in o.sharedModels <==> x in models && x in o.schedule.modelIds
    ensures x in o.sharedPersonas <==> x in personas && x in o.schedule.personaIds
  {
    var n := |db| - 1;
    var before := Search(db[..n], clientId, exclude, prompts, models, personas);
    if db[n].target.Some? { LineagesAre(db[n].target.value.prompts, x); }
    hide Lineages, HasVersion;
    if o in before { OverlapLists(db[..n], clientId, exclude, prompts, models, personas, o, x); }
  }
}
