/** alembic/versions/0028_backfill_citations_from_raw_payload.py: recompute the stored citations of
    every response from its payload, batch by batch. `P` is the stored payload. */
module Backfill {
  import opened Options
  import opened Adapters

  /** One line of the driving query: a response and its provider. */
  datatype Target = Target(id: int, provider: string)

  datatype Row = Row(rawResponseId: int, citation: Citation)

  datatype Stats = Stats(rewritten: nat, skipped: nat, deleted: nat, inserted: nat)

  /** What the migration only reads: the mapper of each provider, and the payloads. A response
      without a payload is mapped as the empty one. */
  datatype Source<!P> = Source(mappers: map<string, P -> seq<Citation>>, payloads: map<int, P>, empty: P) {
    predicate HasMapper(t: Target) {
      t.provider in mappers
    }

    function Extract(t: Target): seq<Citation>
      requires HasMapper(t)
    {
      mappers[t.provider](if t.id in payloads then payloads[t.id] else empty)
    }
  }

  predicate UniqueTargets(targets: seq<Target>) {
    forall i, j :: 0 <= i < j < |targets| ==> targets[i].id != targets[j].id
  }

  // ----- the table -----

  function Stored(rows: seq<Row>, id: int): nat {
    if rows == [] then 0 else (if rows[0].rawResponseId == id then 1 else 0) + Stored(rows[1..], id)
  }

  function Spared(row: Row, ids: set<int>): seq<Row> {
    if row.rawResponseId in ids then [] else [row]
  }

  function Own(row: Row, id: int): seq<Citation> {
    if row.rawResponseId == id then [row.citation] else []
  }

  /** DELETE ... WHERE raw_response_id IN ids. */
  function Without(rows: seq<Row>, ids: set<int>): seq<Row> {
    if rows == [] then [] else Spared(rows[0], ids) + Without(rows[1..], ids)
  }

  /** The citations of one response, in row order. */
  function CitationsOf(rows: seq<Row>, id: int): seq<Citation> {
    if rows == [] then [] else Own(rows[0], id) + CitationsOf(rows[1..], id)
  }

  function RowsFor(id: int, citations: seq<Citation>): seq<Row> {
    if citations == [] then [] else [Row(id, citations[0])] + RowsFor(id, citations[1..])
  }

  // ----- the whole run, with no batches -----

  /** A response is rewritten unless it has no mapper, or nothing stored and nothing to extract. */
  predicate IsRewritten<P>(src: Source<P>, rows: seq<Row>, t: Target) {
    src.HasMapper(t) && (src.Extract(t) != [] || Stored(rows, t.id) > 0)
  }

  function RewrittenIds<P>(src: Source<P>, rows: seq<Row>, targets: seq<Target>): set<int> {
    set t | t in targets && IsRewritten(src, rows, t) :: t.id
  }

  function ExtractedRows<P>(src: Source<P>, t: Target): seq<Row> {
    if src.HasMapper(t) then RowsFor(t.id, src.Extract(t)) else []
  }

  function FreshRows<P>(src: Source<P>, targets: seq<Target>): seq<Row> {
    if targets == [] then []
    else
      var n := |targets| - 1;
      FreshRows(src, targets[..n]) + ExtractedRows(src, targets[n])
  }

  function Backfilled<P>(src: Source<P>, rows: seq<Row>, targets: seq<Target>): seq<Row> {
    Without(rows, RewrittenIds(src, rows, targets)) + FreshRows(src, targets)
  }

  function Counted<P>(src: Source<P>, rows: seq<Row>, t: Target, s: Stats): Stats {
    if IsRewritten(src, rows, t) then
      Stats(s.rewritten + 1, s.skipped, s.deleted + Stored(rows, t.id), s.inserted + |src.Extract(t)|)
    else s.(skipped := s.skipped + 1)
  }

  function StatsOf<P>(src: Source<P>, rows: seq<Row>, targets: seq<Target>): Stats {
    if targets == [] then Stats(0, 0, 0, 0)
    else
      var n := |targets| - 1;
      Counted(src, rows, targets[n], StatsOf(src, rows, targets[..n]))
  }

  class Database<P> {
    const src: Source<P>
    const targets: seq<Target>
    var rows: seq<Row>

    constructor (src: Source<P>, targets: seq<Target>, rows: seq<Row>)
      ensures this.src == src && this.targets == targets && this.rows == rows
    {
      this.src, this.targets, this.rows := src, targets, rows;
    }

    /** The result names no batch size: it is the same for every one. */
    method BackfillCitations(batchSize: nat) returns (stats: Stats)
      requires batchSize > 0 && UniqueTargets(targets)
      modifies this
      ensures rows == Backfilled(src, old(rows), targets)
      ensures stats == StatsOf(src, old(rows), targets)
    {
      stats := Stats(0, 0, 0, 0);
      var offset := 0;
      BackfillNothing(src, rows);
      while offset < |targets|
        invariant 0 <= offset <= |targets|
        invariant rows == Backfilled(src, old(rows), targets[..offset])
        invariant stats == StatsOf(src, old(rows), targets[..offset])
      {
        var end := Min(offset + batchSize, |targets|);
        stats := ProcessBatch(offset, end, stats, old(rows));
        offset := end;
      }
      assert targets[..offset] == targets;
    }

    /** One batch: decide what to rewrite from the counts stored now, delete, insert. */
    method ProcessBatch(offset: nat, end: nat, before: Stats, ghost first: seq<Row>) returns (stats: Stats)
      requires offset < end <= |targets| && UniqueTargets(targets)
      requires rows == Backfilled(src, first, targets[..offset])
      requires before == StatsOf(src, first, targets[..offset])
      modifies this
      ensures rows == Backfilled(src, first, targets[..end])
      ensures stats == StatsOf(src, first, targets[..end])
    {
      hide Stored, RowsFor, StatsOf, FreshRows, RewrittenIds, Backfilled, UniqueTargets, Without;
      NoIdsYet(src, rows, targets, offset);
      stats := before;
      var idsToRewrite: set<int> := {};
      var rowsToInsert: seq<Row> := [];
      for i := offset to end
        invariant rows == Backfilled(src, first, targets[..offset])
        invariant idsToRewrite == RewrittenIds(src, rows, targets[offset..i])
        invariant FreshRows(src, targets[..i]) == FreshRows(src, targets[..offset]) + rowsToInsert
        invariant StatsOf(src, first, targets[..i])
                  == Stats(stats.rewritten, stats.skipped, stats.deleted, stats.inserted + |rowsToInsert|)
      {
        var t := targets[i];
        OneMoreTarget(src, first, targets, offset, i);
        OneMoreId(src, rows, targets, offset, i);
        if src.HasMapper(t) {
          var citations := src.Extract(t);
          var stored := Stored(rows, t.id);
          if citations == [] && stored == 0 {
            stats := stats.(skipped := stats.skipped + 1);
          } else {
            idsToRewrite := idsToRewrite + {t.id};
            stats := stats.(rewritten := stats.rewritten + 1, deleted := stats.deleted + stored);
            rowsToInsert := rowsToInsert + RowsFor(t.id, citations);
            assert ExtractedRows(src, t) == RowsFor(t.id, citations);
          }
        } else {
          stats := stats.(skipped := stats.skipped + 1);
        }
      }
      JoinBatches(src, first, targets, offset, end, rowsToInsert);
      if idsToRewrite != {} {
        rows := Without(rows, idsToRewrite);
      } else {
        WithoutNothing(rows);
      }
      assert rows + [] == rows;
      if rowsToInsert != [] {
        rows := rows + rowsToInsert;
        stats := stats.(inserted := stats.inserted + |rowsToInsert|);
      }
    }
  }

  // ----- table algebra -----

  lemma OneMoreTarget<P>(src: Source<P>, first: seq<Row>, targets: seq<Target>, offset: nat, i: nat)
    requires UniqueTargets(targets) && offset <= i < |targets|
    ensures Stored(Backfilled(src, first, targets[..offset]), targets[i].id) == Stored(first, targets[i].id)
    ensures StatsOf(src, first, targets[..i + 1])
            == Counted(src, first, targets[i], StatsOf(src, first, targets[..i]))
    ensures FreshRows(src, targets[..i + 1]) == FreshRows(src, targets[..i]) + ExtractedRows(src, targets[i])
    ensures src.HasMapper(targets[i]) ==> |ExtractedRows(src, targets[i])| == |src.Extract(targets[i])|
  {
    LaterIdsUntouched(src, first, targets, offset, i);
    var t := targets[i];
    if src.HasMapper(t) { RowsForLength(t.id, src.Extract(t)); }
    assert targets[..i + 1][..i] == targets[..i] && targets[..i + 1][i] == t;
    hide Stored, Backfilled, RowsFor, UniqueTargets;
  }

  lemma NoIdsYet<P>(src: Source<P>, rows: seq<Row>, targets: seq<Target>, offset: nat)
    requires offset <= |targets|
    ensures RewrittenIds(src, rows, targets[offset..offset]) == {}
  {
  }

  lemma OneMoreId<P>(src: Source<P>, rows: seq<Row>, targets: seq<Target>, offset: nat, i: nat)
    requires offset <= i < |targets|
    ensures RewrittenIds(src, rows, targets[offset..i + 1])
            == RewrittenIds(src, rows, targets[offset..i])
               + if IsRewritten(src, rows, targets[i]) then {targets[i].id} else {}
  {
    assert targets[offset..i + 1] == targets[offset..i] + [targets[i]];
    hide Stored;
  }

  lemma {:induction false} WithoutNothing(rows: seq<Row>)
    ensures Without(rows, {}) == rows
  {
    if rows != [] {
      WithoutNothing(rows[1..]);
      assert rows == [rows[0]] + rows[1..];
    }
  }

  lemma {:induction false} WithoutConcat(a: seq<Row>, b: seq<Row>, ids: set<int>)
    ensures Without(a + b, ids) == Without(a, ids) + Without(b, ids)
  {
    hide Spared;
    if a == [] {
      assert a + b == b;
    } else {
      WithoutConcat(a[1..], b, ids);
      assert (a + b)[1..] == a[1..] + b;
      assert Spared(a[0], ids) + (Without(a[1..], ids) + Without(b, ids))
          == (Spared(a[0], ids) + Without(a[1..], ids)) + Without(b, ids);
    }
  }

  lemma {:induction false} WithoutTwice(rows: seq<Row>, a: set<int>, b: set<int>)
    ensures Without(Without(rows, a), b) == Without(rows, a + b)
  {
    if rows != [] {
      WithoutTwice(rows[1..], a, b);
      if rows[0].rawResponseId !in a {
        assert Without(rows, a)[1..] == Without(rows[1..], a);
      } else {
        assert Without(rows, a) == Without(rows[1..], a);
      }
    }
  }

  lemma {:induction false} StoredConcat(a: seq<Row>, b: seq<Row>, id: int)
    ensures Stored(a + b, id) == Stored(a, id) + Stored(b, id)
  {
    if a == [] {
      assert a + b == b;
    } else {
      StoredConcat(a[1..], b, id);
      assert (a + b)[0] == a[0] && (a + b)[1..] == a[1..] + b;
    }
  }

  lemma CitationsUnfold(rows: seq<Row>, id: int)
    requires rows != []
    ensures CitationsOf(rows, id) == Own(rows[0], id) + CitationsOf(rows[1..], id)
  {
    hide Own;
  }

  lemma AddInFront(x: seq<Citation>, y: seq<Citation>, z: seq<Citation>)
    ensures x + (y + z) == (x + y) + z
  {
  }

  lemma {:induction false} CitationsConcat(a: seq<Row>, b: seq<Row>, id: int)
    ensures CitationsOf(a + b, id) == CitationsOf(a, id) + CitationsOf(b, id)
    ensures Stored(a + b, id) == Stored(a, id) + Stored(b, id)
  {
    StoredConcat(a, b, id);
    if a == [] {
      assert a + b == b;
    } else {
      CitationsConcat(a[1..], b, id);
      assert (a + b)[0] == a[0] && (a + b)[1..] == a[1..] + b;
      CitationsUnfold(a + b, id);
      CitationsUnfold(a, id);
      hide Own, CitationsOf, Stored;
      AddInFront(Own(a[0], id), CitationsOf(a[1..], id), CitationsOf(b, id));
    }
  }

  lemma {:induction false} CitationsWithout(rows: seq<Row>, ids: set<int>, id: int)
    ensures CitationsOf(Without(rows, ids), id) == if id in ids then [] else CitationsOf(rows, id)
    ensures Stored(Without(rows, ids), id) == if id in ids then 0 else Stored(rows, id)
  {
    if rows != [] {
      CitationsWithout(rows[1..], ids, id);
      if rows[0].rawResponseId !in ids {
        assert Without(rows, ids)[1..] == Without(rows[1..], ids);
      } else {
        assert Without(rows, ids) == Without(rows[1..], ids);
      }
    }
  }

  lemma {:induction false} RowsForLength(id: int, citations: seq<Citation>)
    ensures |RowsFor(id, citations)| == |citations|
  {
    if citations != [] { RowsForLength(id, citations[1..]); }
  }

  lemma {:induction false} RowsForBelong(id: int, citations: seq<Citation>, other: int)
    ensures CitationsOf(RowsFor(id, citations), other) == if other == id then citations else []
    ensures Stored(RowsFor(id, citations), other) == if other == id then |citations| else 0
  {
    if citations != [] {
      RowsForBelong(id, citations[1..], other);
      assert RowsFor(id, citations)[1..] == RowsFor(id, citations[1..]);
      assert citations == [citations[0]] + citations[1..];
    }
  }

  // ----- batches -----

  lemma BackfillNothing<P>(src: Source<P>, rows: seq<Row>)
    ensures Backfilled(src, rows, []) == rows
  {
    assert RewrittenIds(src, rows, []) == {};
    WithoutNothing(rows);
  }

  /** Rows inserted for earlier targets never belong to another response. */
  lemma {:induction false} FreshBelongs<P>(src: Source<P>, targets: seq<Target>, id: int)
    requires forall t :: t in targets ==> t.id != id
    ensures CitationsOf(FreshRows(src, targets), id) == [] && Stored(FreshRows(src, targets), id) == 0
  {
    if targets != [] {
      var n := |targets| - 1;
      var t := targets[n];
      assert t in targets;
      FreshBelongs(src, targets[..n], id);
      if src.HasMapper(t) {
        RowsForBelong(t.id, src.Extract(t), id);
        CitationsConcat(FreshRows(src, targets[..n]), RowsFor(t.id, src.Extract(t)), id);
      } else {
        assert FreshRows(src, targets) == FreshRows(src, targets[..n]);
      }
    }
  }

  /** What a later batch reads about its own responses is what the table held at the start. */
  lemma LaterIdsUntouched<P>(src: Source<P>, first: seq<Row>, targets: seq<Target>, offset: nat, i: nat)
    requires UniqueTargets(targets) && offset <= i < |targets|
    ensures Stored(Backfilled(src, first, targets[..offset]), targets[i].id) == Stored(first, targets[i].id)
  {
    var earlier := targets[..offset];
    var id := targets[i].id;
    forall t | t in earlier ensures t.id != id {
      var k :| 0 <= k < |earlier| && earlier[k] == t;
      assert targets[k] == t;
    }
    FreshBelongs(src, earlier, id);
    var ids := RewrittenIds(src, first, earlier);
    CitationsWithout(first, ids, id);
    CitationsConcat(Without(first, ids), FreshRows(src, earlier), id);
  }

  lemma {:induction false} WithoutStrangers(rows: seq<Row>, ids: set<int>)
    requires forall id :: id in ids ==> Stored(rows, id) == 0
    ensures Without(rows, ids) == rows
  {
    if rows != [] {
      assert Stored(rows, rows[0].rawResponseId) > 0;
      forall id | id in ids ensures Stored(rows[1..], id) == 0 { assert Stored(rows, id) == 0; }
      WithoutStrangers(rows[1..], ids);
      assert rows == [rows[0]] + rows[1..];
    }
  }

  lemma EarlierRowsAreStrangers<P>(src: Source<P>, first: seq<Row>, targets: seq<Target>, offset: nat, end: nat)
    requires UniqueTargets(targets) && offset <= end <= |targets|
    ensures forall id :: id in RewrittenIds(src, first, targets[offset..end]) ==>
              Stored(FreshRows(src, targets[..offset]), id) == 0
  {
    var earlier, batch := targets[..offset], targets[offset..end];
    forall id | id in RewrittenIds(src, first, batch) ensures Stored(FreshRows(src, earlier), id) == 0 {
      var t :| t in batch && IsRewritten(src, first, t) && t.id == id;
      var k :| 0 <= k < |batch| && batch[k] == t;
      forall u | u in earlier ensures u.id != id {
        var j :| 0 <= j < |earlier| && earlier[j] == u;
        assert targets[j] == u && targets[offset + k] == t;
      }
      FreshBelongs(src, earlier, id);
    }
  }

  lemma BatchDecidesAsIfFirst<P>(src: Source<P>, first: seq<Row>, targets: seq<Target>, offset: nat, end: nat)
    requires UniqueTargets(targets) && offset <= end <= |targets|
    ensures RewrittenIds(src, Backfilled(src, first, targets[..offset]), targets[offset..end])
            == RewrittenIds(src, first, targets[offset..end])
    ensures RewrittenIds(src, first, targets[..end])
            == RewrittenIds(src, first, targets[..offset]) + RewrittenIds(src, first, targets[offset..end])
  {
    var now := Backfilled(src, first, targets[..offset]);
    var batch := targets[offset..end];
    forall t | t in batch ensures IsRewritten(src, now, t) <==> IsRewritten(src, first, t) {
      var k :| 0 <= k < |batch| && batch[k] == t;
      LaterIdsUntouched(src, first, targets, offset, offset + k);
      assert targets[offset + k] == t && Stored(now, t.id) == Stored(first, t.id);
    }
    hide IsRewritten, Backfilled;
    assert targets[..end] == targets[..offset] + batch;
  }

  /** Deleting and inserting one more batch on top of the earlier ones gives the run over both. */
  lemma JoinBatches<P>(
    src: Source<P>, first: seq<Row>, targets: seq<Target>, offset: nat, end: nat, added: seq<Row>)
    requires UniqueTargets(targets) && offset <= end <= |targets|
    requires FreshRows(src, targets[..end]) == FreshRows(src, targets[..offset]) + added
    ensures var now := Backfilled(src, first, targets[..offset]);
            Without(now, RewrittenIds(src, now, targets[offset..end])) + added
            == Backfilled(src, first, targets[..end])
  {
    BatchDecidesAsIfFirst(src, first, targets, offset, end);
    EarlierRowsAreStrangers(src, first, targets, offset, end);
    hide UniqueTargets, RewrittenIds, FreshRows, Without, Stored;
    var earlier := FreshRows(src, targets[..offset]);
    var a, b := RewrittenIds(src, first, targets[..offset]), RewrittenIds(src, first, targets[offset..end]);
    WithoutConcat(Without(first, a), earlier, b);
    WithoutTwice(first, a, b);
    WithoutStrangers(earlier, b);
    assert (Without(first, a + b) + earlier) + added == Without(first, a + b) + (earlier + added);
  }

  // ----- what the run leaves behind -----

  lemma {:induction false} FreshHolds<P>(src: Source<P>, targets: seq<Target>, t: Target)
    requires UniqueTargets(targets) && t in targets
    ensures CitationsOf(FreshRows(src, targets), t.id) == if src.HasMapper(t) then src.Extract(t) else []
  {
    var n := |targets| - 1;
    var last := targets[n];
    assert targets == targets[..n] + [last];
    CitationsConcat(FreshRows(src, targets[..n]), ExtractedRows(src, last), t.id);
    if src.HasMapper(last) { RowsForBelong(last.id, src.Extract(last), t.id); }
    if t == last {
      FreshBelongs(src, targets[..n], t.id);
    } else {
      FreshHolds(src, targets[..n], t);
    }
    hide RowsFor, UniqueTargets;
  }

  lemma RewrittenIff<P>(src: Source<P>, rows: seq<Row>, targets: seq<Target>, t: Target)
    requires UniqueTargets(targets) && t in targets
    ensures t.id in RewrittenIds(src, rows, targets) <==> IsRewritten(src, rows, t)
  {
    var i :| 0 <= i < |targets| && targets[i] == t;
    if t.id in RewrittenIds(src, rows, targets) {
      var u :| u in targets && IsRewritten(src, rows, u) && u.id == t.id;
      var j :| 0 <= j < |targets| && targets[j] == u;
      assert i == j;
    }
  }

  /** Afterwards a rewritten response holds exactly its mapper's output; every other response, in or
      out of the query, keeps what it had. */
  lemma EveryResponseIsRight<P>(src: Source<P>, rows: seq<Row>, targets: seq<Target>, id: int)
    requires UniqueTargets(targets)
    ensures forall t :: t in targets && t.id == id ==>
              CitationsOf(Backfilled(src, rows, targets), id)
              == if IsRewritten(src, rows, t) then src.Extract(t) else CitationsOf(rows, id)
    ensures (forall t :: t in targets ==> t.id != id) ==>
              CitationsOf(Backfilled(src, rows, targets), id) == CitationsOf(rows, id)
  {
    var ids := RewrittenIds(src, rows, targets);
    CitationsConcat(Without(rows, ids), FreshRows(src, targets), id);
    CitationsWithout(rows, ids, id);
    if forall t :: t in targets ==> t.id != id {
      FreshBelongs(src, targets, id);
    }
    forall t | t in targets && t.id == id
      ensures CitationsOf(Backfilled(src, rows, targets), id)
              == if IsRewritten(src, rows, t) then src.Extract(t) else CitationsOf(rows, id)
    {
      FreshHolds(src, targets, t);
      RewrittenIff(src, rows, targets, t);
    }
  }

  lemma {:induction false} StoredIsLength(rows: seq<Row>, id: int)
    ensures Stored(rows, id) == |CitationsOf(rows, id)|
  {
    if rows != [] { StoredIsLength(rows[1..], id); }
  }

  lemma {:induction false} DeletedRows(rows: seq<Row>, ids: set<int>, id: int)
    requires id !in ids
    ensures |Without(rows, ids + {id})| == |Without(rows, ids)| - Stored(rows, id)
  {
    if rows != [] { DeletedRows(rows[1..], ids, id); }
  }

  /** The counters add up: every response is counted once, and the table grows by inserted minus
      deleted. */
  lemma {:induction false} StatsAddUp<P>(src: Source<P>, rows: seq<Row>, targets: seq<Target>)
    requires UniqueTargets(targets)
    ensures var s := StatsOf(src, rows, targets);
            && s.rewritten + s.skipped == |targets|
            && s.inserted == |FreshRows(src, targets)|
            && |Without(rows, RewrittenIds(src, rows, targets))| == |rows| - s.deleted
            && |Backfilled(src, rows, targets)| == |rows| + s.inserted - s.deleted
  {
    if targets == [] {
      assert RewrittenIds(src, rows, targets) == {};
      WithoutNothing(rows);
    } else {
      var n := |targets| - 1;
      var t := targets[n];
      StatsAddUp(src, rows, targets[..n]);
      assert targets[..n + 1] == targets;
      OneMoreTarget(src, rows, targets, 0, n);
      OneMoreId(src, rows, targets, 0, n);
      assert targets[0..n] == targets[..n] && targets[0..n + 1] == targets;
      OneMoreDeletion(src, rows, targets[..n], t);
      hide Stored, Without, RowsFor, RewrittenIds, FreshRows, StatsOf, UniqueTargets;
    }
  }

  lemma OneMoreDeletion<P>(src: Source<P>, rows: seq<Row>, before: seq<Target>, t: Target)
    requires forall u :: u in before ==> u.id != t.id
    ensures |Without(rows, RewrittenIds(src, rows, before) + {t.id})|
            == |Without(rows, RewrittenIds(src, rows, before))| - Stored(rows, t.id)
    ensures RewrittenIds(src, rows, before) + {} == RewrittenIds(src, rows, before)
  {
    DeletedRows(rows, RewrittenIds(src, rows, before), t.id);
  }

  lemma {:induction false} SecondRunStats<P>(src: Source<P>, now: seq<Row>, targets: seq<Target>)
    requires forall t :: t in targets && src.HasMapper(t) ==> Stored(now, t.id) == |src.Extract(t)|
    ensures StatsOf(src, now, targets).deleted == StatsOf(src, now, targets).inserted
  {
    if targets != [] {
      var n := |targets| - 1;
      assert targets[n] in targets;
      SecondRunStats(src, now, targets[..n]);
    }
  }

  lemma {:induction false} FreshSurvives<P>(src: Source<P>, rows: seq<Row>, targets: seq<Target>, ids: set<int>)
    requires forall t :: t in targets && src.HasMapper(t) && src.Extract(t) != [] ==> t.id in ids
    ensures Without(FreshRows(src, targets), ids) == []
  {
    if targets != [] {
      var n := |targets| - 1;
      var t := targets[n];
      assert t in targets;
      FreshSurvives(src, rows, targets[..n], ids);
      if src.HasMapper(t) {
        WithoutConcat(FreshRows(src, targets[..n]), RowsFor(t.id, src.Extract(t)), ids);
        if src.Extract(t) != [] { AllGone(t.id, src.Extract(t), ids); }
      } else {
        assert FreshRows(src, targets) == FreshRows(src, targets[..n]);
      }
    }
  }

  lemma {:induction false} AllGone(id: int, citations: seq<Citation>, ids: set<int>)
    requires id in ids
    ensures Without(RowsFor(id, citations), ids) == []
  {
    if citations != [] {
      AllGone(id, citations[1..], ids);
      assert RowsFor(id, citations)[1..] == RowsFor(id, citations[1..]);
    }
  }

  /** A second run leaves the table exactly as it is, deleting as many rows as it inserts. */
  lemma BackfillIsIdempotent<P>(src: Source<P>, rows: seq<Row>, targets: seq<Target>)
    requires UniqueTargets(targets)
    ensures var now := Backfilled(src, rows, targets);
            && Backfilled(src, now, targets) == now
            && StatsOf(src, now, targets).deleted == StatsOf(src, now, targets).inserted
  {
    hide RewrittenIds, FreshRows, Without, Stored, StatsOf, UniqueTargets, IsRewritten;
    var now := Backfilled(src, rows, targets);
    ExtractedAndStored(src, rows, targets);
    SecondRunStats(src, now, targets);
    RewritesNoMore(src, rows, targets);
    var ids, again := RewrittenIds(src, rows, targets), RewrittenIds(src, now, targets);
    FreshSurvives(src, now, targets, again);
    DeleteAndReinsert(rows, ids, again, FreshRows(src, targets));
  }

  lemma DeleteAndReinsert(rows: seq<Row>, ids: set<int>, again: set<int>, added: seq<Row>)
    requires again <= ids && Without(added, again) == []
    ensures Without(Without(rows, ids) + added, again) + added == Without(rows, ids) + added
  {
    hide Without;
    WithoutConcat(Without(rows, ids), added, again);
    WithoutTwice(rows, ids, again);
    assert ids + again == ids;
  }

  lemma ExtractedAndStored<P>(src: Source<P>, rows: seq<Row>, targets: seq<Target>)
    requires UniqueTargets(targets)
    ensures forall t :: t in targets && src.HasMapper(t) ==>
              Stored(Backfilled(src, rows, targets), t.id) == |src.Extract(t)|
  {
    var now := Backfilled(src, rows, targets);
    forall t | t in targets && src.HasMapper(t) ensures Stored(now, t.id) == |src.Extract(t)| {
      EveryResponseIsRight(src, rows, targets, t.id);
      StoredIsLength(now, t.id);
      StoredIsLength(rows, t.id);
    }
  }

  /** A second run rewrites no response the first one skipped, and every one it left non-empty. */
  lemma RewritesNoMore<P>(src: Source<P>, rows: seq<Row>, targets: seq<Target>)
    requires UniqueTargets(targets)
    ensures var now := Backfilled(src, rows, targets);
            && RewrittenIds(src, now, targets) <= RewrittenIds(src, rows, targets)
            && forall t :: t in targets && src.HasMapper(t) && src.Extract(t) != [] ==>
                 t.id in RewrittenIds(src, now, targets)
  {
    ExtractedAndStored(src, rows, targets);
    hide Backfilled, UniqueTargets, Stored;
  }

  // ----- in terms of mappers and rows alone -----

  /** What the mapper of a response's provider makes of its payload, of the empty one if it has none. */
  function Output<P>(src: Source<P>, t: Target): seq<Citation>
    requires t.provider in src.mappers
  {
    var payload := if t.id in src.payloads then src.payloads[t.id] else src.empty;
    src.mappers[t.provider](payload)
  }

  ghost predicate HasRows(rows: seq<Row>, id: int) {
    exists r :: r in rows && r.rawResponseId == id
  }

  lemma {:induction false} StoredIff(rows: seq<Row>, id: int)
    ensures Stored(rows, id) > 0 <==> HasRows(rows, id)
  {
    if rows != [] {
      StoredIff(rows[1..], id);
      assert rows == [rows[0]] + rows[1..];
    }
  }

  /** A response is gone over when its provider has a mapper and there is something to delete or insert. */
  ghost predicate IsTouched<P>(src: Source<P>, rows: seq<Row>, t: Target) {
    t.provider in src.mappers && (|Output(src, t)| > 0 || HasRows(rows, t.id))
  }

  lemma RewrittenIsTouched<P>(src: Source<P>, rows: seq<Row>, t: Target)
    ensures IsRewritten(src, rows, t) <==> IsTouched(src, rows, t)
  {
    StoredIff(rows, t.id);
    hide Stored, HasRows;
  }

  ghost function Touched<P>(src: Source<P>, rows: seq<Row>, targets: seq<Target>): set<int> {
    set t | t in targets && IsTouched(src, rows, t) :: t.id
  }

  /** Afterwards every response whose provider has a mapper holds exactly the mapper's output, and every
      other what it held. */
  lemma MappersDecide<P>(src: Source<P>, rows: seq<Row>, targets: seq<Target>, t: Target)
    requires UniqueTargets(targets) && t in targets
    ensures CitationsOf(Backfilled(src, rows, targets), t.id)
            == if t.provider in src.mappers then Output(src, t) else CitationsOf(rows, t.id)
  {
    EveryResponseIsRight(src, rows, targets, t.id);
    StoredIsLength(rows, t.id);
    hide Backfilled, CitationsOf, Stored;
  }

  lemma TouchedGrows<P>(src: Source<P>, rows: seq<Row>, targets: seq<Target>)
    requires UniqueTargets(targets) && targets != []
    ensures var n := |targets| - 1;
            && targets[n].id !in Touched(src, rows, targets[..n])
            && Touched(src, rows, targets)
               == Touched(src, rows, targets[..n]) + if IsTouched(src, rows, targets[n]) then {targets[n].id} else {}
  {
    hide IsTouched;
    assert targets == targets[..|targets| - 1] + [targets[|targets| - 1]];
  }

  /** The counters count just these. */
  lemma {:induction false} StatsCountTouched<P>(src: Source<P>, rows: seq<Row>, targets: seq<Target>)
    requires UniqueTargets(targets)
    ensures StatsOf(src, rows, targets).rewritten == |Touched(src, rows, targets)|
    ensures StatsOf(src, rows, targets).skipped == |targets| - |Touched(src, rows, targets)|
  {
    if targets != [] {
      var n := |targets| - 1;
      StatsCountTouched(src, rows, targets[..n]);
      TouchedGrows(src, rows, targets);
      RewrittenIsTouched(src, rows, targets[n]);
      hide Touched, IsTouched, UniqueTargets, IsRewritten;
    } else {
      assert Touched(src, rows, targets) == {};
    }
  }
}
