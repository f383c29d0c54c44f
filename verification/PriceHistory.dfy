/** app/services/cost.py `prices_at` and app/routers/ai_models.py `_price_history_rows`: two views of
    one model's price history. */
module PriceHistory {
  import opened Options

  datatype Component = Input | Output | CacheRead | CacheWrite | CacheWrite5m | CacheWrite1h

  const COMPONENT_TYPES: seq<Component> := [Input, Output, CacheRead, CacheWrite, CacheWrite5m, CacheWrite1h]

  type Instant = int

  datatype PriceRow = PriceRow(component: Component, price: real, effectiveFrom: Instant)

  // ----- prices_at -----

  /** The row in force per component, after considering the rows in list order. */
  function LatestByType(rows: seq<PriceRow>, at: Instant): map<Component, PriceRow> {
    if rows == [] then map[]
    else
      var n := |rows| - 1;
      var latest := LatestByType(rows[..n], at);
      var row := rows[n];
      if row.effectiveFrom > at then latest
      else if row.component !in latest || row.effectiveFrom > latest[row.component].effectiveFrom then
        latest[row.component := row]
      else latest
  }

  function PricesAt(rows: seq<PriceRow>, at: Instant): map<Component, real> {
    map c | c in LatestByType(rows, at) :: LatestByType(rows, at)[c].price
  }

  method ComputePricesAt(rows: seq<PriceRow>, at: Instant) returns (prices: map<Component, real>)
    ensures prices == PricesAt(rows, at)
  {
    var latest: map<Component, PriceRow> := map[];
    for i := 0 to |rows|
      invariant latest == LatestByType(rows[..i], at)
    {
      assert rows[..i + 1][..i] == rows[..i];
      var row := rows[i];
      if row.effectiveFrom <= at {
        if row.component !in latest || row.effectiveFrom > latest[row.component].effectiveFrom {
          latest := latest[row.component := row];
        }
      }
    }
    assert rows[..|rows|] == rows;
    prices := map c | c in latest :: latest[c].price;
  }

  /** `row` is in force for its component: effective by `at`, no effective row of the component is
      later, and none as late stands before it in the list. */
  ghost predicate IsInForce(rows: seq<PriceRow>, at: Instant, i: nat) {
    && i < |rows| && rows[i].effectiveFrom <= at
    && (forall j :: 0 <= j < |rows| && rows[j].component == rows[i].component && rows[j].effectiveFrom <= at ==>
          rows[j].effectiveFrom <= rows[i].effectiveFrom
          && (rows[j].effectiveFrom == rows[i].effectiveFrom ==> i <= j))
  }

  lemma InForceStays(rows: seq<PriceRow>, at: Instant, i: nat)
    requires rows != [] && IsInForce(rows[..|rows| - 1], at, i)
    requires var row := rows[|rows| - 1];
             row.component == rows[i].component && row.effectiveFrom <= at ==> row.effectiveFrom <= rows[i].effectiveFrom
    ensures IsInForce(rows, at, i)
  {
    var front := rows[..|rows| - 1];
    assert forall j :: 0 <= j < |front| ==> front[j] == rows[j];
  }

  lemma InForceChanges(rows: seq<PriceRow>, at: Instant)
    requires rows != [] && rows[|rows| - 1].effectiveFrom <= at
    requires forall j :: 0 <= j < |rows| - 1 ==>
               (rows[j].component == rows[|rows| - 1].component && rows[j].effectiveFrom <= at ==>
                  rows[j].effectiveFrom < rows[|rows| - 1].effectiveFrom)
    ensures IsInForce(rows, at, |rows| - 1)
  {
  }

  ghost predicate HasEffective(rows: seq<PriceRow>, at: Instant, c: Component) {
    exists i :: 0 <= i < |rows| && rows[i].component == c && rows[i].effectiveFrom <= at
  }

  lemma EffectiveGrows(rows: seq<PriceRow>, at: Instant, c: Component)
    requires rows != []
    ensures var n := |rows| - 1;
            HasEffective(rows, at, c)
            <==> HasEffective(rows[..n], at, c) || (rows[n].component == c && rows[n].effectiveFrom <= at)
  {
    var n := |rows| - 1;
    if HasEffective(rows[..n], at, c) {
      var i :| 0 <= i < n && rows[..n][i].component == c && rows[..n][i].effectiveFrom <= at;
      assert rows[i] == rows[..n][i];
    }
    if HasEffective(rows, at, c) && !(rows[n].component == c && rows[n].effectiveFrom <= at) {
      var i :| 0 <= i < |rows| && rows[i].component == c && rows[i].effectiveFrom <= at;
      assert rows[..n][i] == rows[i];
    }
  }

  /** A component has a price exactly when some row of it is effective by then, and it is the price of
      the row in force. */
  lemma {:induction false} LatestIsInForce(rows: seq<PriceRow>, at: Instant, c: Component) returns (i: nat)
    ensures c in LatestByType(rows, at) <==> HasEffective(rows, at, c)
    ensures c in LatestByType(rows, at) ==>
              IsInForce(rows, at, i) && rows[i].component == c && LatestByType(rows, at)[c] == rows[i]
  {
    i := 0;
    if rows != [] {
      var n := |rows| - 1;
      var front, row := rows[..n], rows[n];
      i := LatestIsInForce(front, at, c);
      EffectiveGrows(rows, at, c);
      assert i < n ==> front[i] == rows[i];
      if row.component == c && row.effectiveFrom <= at
         && (c !in LatestByType(front, at) || row.effectiveFrom > front[i].effectiveFrom) {
        NewRowInForce(rows, at, c, i);
        i := n;
      } else if c in LatestByType(front, at) {
        InForceStays(rows, at, i);
      }
      hide IsInForce, HasEffective;
    }
  }

  lemma NewRowInForce(rows: seq<PriceRow>, at: Instant, c: Component, i: nat)
    requires rows != []
    requires var n := |rows| - 1;
             && rows[n].component == c && rows[n].effectiveFrom <= at
             && (HasEffective(rows[..n], at, c) ==>
                   IsInForce(rows[..n], at, i) && rows[i].component == c && rows[n].effectiveFrom > rows[i].effectiveFrom)
    ensures IsInForce(rows, at, |rows| - 1)
  {
    var n := |rows| - 1;
    assert forall j :: 0 <= j < n ==> rows[..n][j] == rows[j];
    InForceChanges(rows, at);
  }

  // ----- the displayed timeline -----

  datatype PriceSpan = PriceSpan(component: Component, price: real, validFrom: Instant, validUntil: Option<Instant>)

  datatype Group = Group(component: Component, spans: seq<PriceSpan>)

  function OfComponent(rows: seq<PriceRow>, c: Component): seq<PriceRow> {
    if rows == [] then []
    else
      var n := |rows| - 1;
      OfComponent(rows[..n], c) + if rows[n].component == c then [rows[n]] else []
  }

  /** One older row: it extends the oldest span back when the price is the same, and otherwise opens
      a span that ends where the next newer row starts. */
  function AddRow(spans: seq<PriceSpan>, newer: Option<Instant>, row: PriceRow): seq<PriceSpan> {
    var last := |spans| - 1;
    if spans != [] && spans[last].price == row.price then
      spans[..last] + [spans[last].(validFrom := row.effectiveFrom)]
    else
      spans + [PriceSpan(row.component, row.price, row.effectiveFrom, newer)]
  }

  function NewerThan(rows: seq<PriceRow>, n: nat): Option<Instant>
    requires n <= |rows|
  {
    if n > 0 then Some(rows[n - 1].effectiveFrom) else None
  }

  /** The spans of one component's rows, newest first. */
  function Coalesced(rows: seq<PriceRow>): seq<PriceSpan> {
    if rows == [] then []
    else
      var n := |rows| - 1;
      AddRow(Coalesced(rows[..n]), NewerThan(rows, n), rows[n])
  }

  function GroupOf(c: Component, own: seq<PriceRow>): seq<Group> {
    if own == [] then [] else [Group(c, Coalesced(own))]
  }

  function GroupsOf(rows: seq<PriceRow>, types: seq<Component>): seq<Group> {
    if types == [] then []
    else
      var n := |types| - 1;
      GroupsOf(rows, types[..n]) + GroupOf(types[n], OfComponent(rows, types[n]))
  }

  method PriceHistoryRows(rows: seq<PriceRow>) returns (groups: seq<Group>)
    ensures groups == GroupsOf(rows, COMPONENT_TYPES)
  {
    var rowsByType := GroupRows(rows);
    groups := ListGroups(rows, rowsByType, COMPONENT_TYPES);
  }

  method ListGroups(ghost rows: seq<PriceRow>, rowsByType: map<Component, seq<PriceRow>>, types: seq<Component>)
    returns (groups: seq<Group>)
    requires forall c :: RowsIn(rowsByType, c) == OfComponent(rows, c)
    ensures groups == GroupsOf(rows, types)
  {
    hide OfComponent, Coalesced;
    groups := [];
    for k := 0 to |types|
      invariant groups == GroupsOf(rows, types[..k])
    {
      var c := types[k];
      assert types[..k + 1][..k] == types[..k];
      assert RowsIn(rowsByType, c) == OfComponent(rows, c);
      if c in rowsByType && rowsByType[c] != [] {
        OwnRowsOnly(rows, c);
        var spans := CoalesceRows(c, rowsByType[c]);
        groups := groups + [Group(c, spans)];
      }
    }
    assert types[..|types|] == types;
  }

  function RowsIn(rowsByType: map<Component, seq<PriceRow>>, c: Component): seq<PriceRow> {
    if c in rowsByType then rowsByType[c] else []
  }

  /** `rows_by_type.setdefault(component.component_type, []).append(component)`. */
  method GroupRows(rows: seq<PriceRow>) returns (rowsByType: map<Component, seq<PriceRow>>)
    ensures forall c :: RowsIn(rowsByType, c) == OfComponent(rows, c)
  {
    rowsByType := map[];
    for i := 0 to |rows|
      invariant forall c :: RowsIn(rowsByType, c) == OfComponent(rows[..i], c)
    {
      assert rows[..i + 1][..i] == rows[..i];
      var c := rows[i].component;
      rowsByType := rowsByType[c := RowsIn(rowsByType, c) + [rows[i]]];
    }
    assert rows[..|rows|] == rows;
  }

  lemma {:induction false} OwnRowsOnly(rows: seq<PriceRow>, c: Component)
    ensures forall r :: r in OfComponent(rows, c) <==> r in rows && r.component == c
  {
    if rows != [] {
      var n := |rows| - 1;
      OwnRowsOnly(rows[..n], c);
      assert rows == rows[..n] + [rows[n]];
    }
  }

  method CoalesceRows(c: Component, rows: seq<PriceRow>) returns (spans: seq<PriceSpan>)
    requires forall r :: r in rows ==> r.component == c
    ensures spans == Coalesced(rows)
  {
    spans := [];
    for i := 0 to |rows|
      invariant spans == Coalesced(rows[..i])
    {
      assert rows[..i + 1][..i] == rows[..i];
      assert NewerThan(rows[..i + 1], i) == NewerThan(rows, i);
      var row := rows[i];
      var last := |spans| - 1;
      if spans != [] && spans[last].price == row.price {
        spans := spans[..last] + [spans[last].(validFrom := row.effectiveFrom)];
      } else {
        var validUntil := if i > 0 then Some(rows[i - 1].effectiveFrom) else None;
        spans := spans + [PriceSpan(c, row.price, row.effectiveFrom, validUntil)];
      }
    }
    assert rows[..|rows|] == rows;
  }

  // ----- the timeline means what prices_at means -----

  predicate NewestFirst(rows: seq<PriceRow>) {
    forall i, j :: 0 <= i < j < |rows| ==> rows[i].effectiveFrom >= rows[j].effectiveFrom
  }

  predicate Contains(s: PriceSpan, t: Instant) {
    s.validFrom <= t && (s.validUntil.Some? ==> t < s.validUntil.value)
  }

  /** The spans of one component: the newest open-ended and no other, each older one ending where its
      newer neighbour starts, neighbours differing in price. */
  ghost predicate IsTimeline(spans: seq<PriceSpan>) {
    && (forall k :: 0 <= k < |spans| ==> (spans[k].validUntil.None? <==> k == 0))
    && (forall k :: 0 < k < |spans| ==>
          spans[k].validUntil == Some(spans[k - 1].validFrom) && spans[k].price != spans[k - 1].price)
  }

  /** Exactly the span `k` contains `t`, and it shows `price`. */
  ghost predicate OnlySpanAt(spans: seq<PriceSpan>, t: Instant, k: nat, price: real) {
    && k < |spans| && spans[k].price == price
    && forall j :: 0 <= j < |spans| ==> (Contains(spans[j], t) <==> j == k)
  }

  ghost predicate NoSpanAt(spans: seq<PriceSpan>, t: Instant) {
    forall j :: 0 <= j < |spans| ==> !Contains(spans[j], t)
  }

  /** Facts kept while older rows are appended: where the spans end, and that they end in order. */
  ghost predicate EndsWith(spans: seq<PriceSpan>, row: PriceRow) {
    && spans != []
    && spans[|spans| - 1].validFrom == row.effectiveFrom && spans[|spans| - 1].price == row.price
    && (forall k :: 0 <= k < |spans| ==> spans[k].validFrom >= row.effectiveFrom)
    && (forall k :: 0 <= k < |spans| && spans[k].validUntil.Some? ==> spans[k].validUntil.value >= spans[k].validFrom)
  }

  lemma AddRowKeepsTimeline(spans: seq<PriceSpan>, newer: PriceRow, row: PriceRow)
    requires IsTimeline(spans) && EndsWith(spans, newer) && newer.effectiveFrom >= row.effectiveFrom
    ensures var more := AddRow(spans, Some(newer.effectiveFrom), row);
            IsTimeline(more) && EndsWith(more, row)
  {
    var more := AddRow(spans, Some(newer.effectiveFrom), row);
    assert forall k :: 0 <= k < |spans| - 1 ==> more[k] == spans[k];
  }

  /** An older row leaves every instant from its newer neighbour on as it was. */
  lemma AddRowKeepsLater(spans: seq<PriceSpan>, newer: PriceRow, row: PriceRow, t: Instant, k: nat, price: real)
    requires EndsWith(spans, newer) && newer.effectiveFrom >= row.effectiveFrom && t >= newer.effectiveFrom
    requires OnlySpanAt(spans, t, k, price)
    ensures OnlySpanAt(AddRow(spans, Some(newer.effectiveFrom), row), t, k, price)
  {
    var more := AddRow(spans, Some(newer.effectiveFrom), row);
    forall j | 0 <= j < |more| ensures Contains(more[j], t) <==> j == k {
      if j < |spans| { assert Contains(spans[j], t) <==> j == k; }
    }
  }

  /** An older row is shown from its own start up to its newer neighbour, and nothing is before it. */
  lemma AddRowShowsOwn(spans: seq<PriceSpan>, newer: PriceRow, row: PriceRow, t: Instant)
    requires EndsWith(spans, newer) && newer.effectiveFrom >= row.effectiveFrom && t < newer.effectiveFrom
    ensures var more := AddRow(spans, Some(newer.effectiveFrom), row);
            if row.effectiveFrom <= t then OnlySpanAt(more, t, |more| - 1, row.price) else NoSpanAt(more, t)
  {
    var more := AddRow(spans, Some(newer.effectiveFrom), row);
    forall j | 0 <= j < |more| - 1 ensures !Contains(more[j], t) {
      assert more[j] == spans[j];
    }
    var last := |spans| - 1;
    assert spans[last].validUntil.Some? ==> spans[last].validUntil.value >= spans[last].validFrom;
  }

  lemma {:induction false} CoalescedIsTimeline(rows: seq<PriceRow>)
    requires NewestFirst(rows)
    ensures IsTimeline(Coalesced(rows))
    ensures rows == [] <==> Coalesced(rows) == []
    ensures rows != [] ==> EndsWith(Coalesced(rows), rows[|rows| - 1])
  {
    if |rows| == 1 {
      assert Coalesced(rows[..0]) == [];
    } else if rows != [] {
      var n := |rows| - 1;
      CoalescedIsTimeline(rows[..n]);
      AddRowKeepsTimeline(Coalesced(rows[..n]), rows[n - 1], rows[n]);
      hide IsTimeline, EndsWith, AddRow;
    }
  }

  lemma NewestFirstLatest(rows: seq<PriceRow>, c: Component, t: Instant)
    requires rows != [] && NewestFirst(rows) && forall r :: r in rows ==> r.component == c
    ensures var n := |rows| - 1;
            && (c in LatestByType(rows[..n], t) ==> LatestByType(rows, t) == LatestByType(rows[..n], t))
            && (c !in LatestByType(rows[..n], t) ==>
                  (c in LatestByType(rows, t) <==> rows[n].effectiveFrom <= t)
                  && (c in LatestByType(rows, t) ==> LatestByType(rows, t)[c] == rows[n]))
  {
    var n := |rows| - 1;
    assert rows[n] in rows;
    if c in LatestByType(rows[..n], t) {
      var i := LatestIsInForce(rows[..n], t, c);
      assert rows[..n][i] == rows[i];
    }
  }

  lemma {:induction false} TimelineShows(rows: seq<PriceRow>, c: Component, t: Instant) returns (k: nat)
    requires NewestFirst(rows) && forall r :: r in rows ==> r.component == c
    ensures c in LatestByType(rows, t) <==> rows != [] && rows[|rows| - 1].effectiveFrom <= t
    ensures c in LatestByType(rows, t) ==> OnlySpanAt(Coalesced(rows), t, k, LatestByType(rows, t)[c].price)
    ensures c !in LatestByType(rows, t) ==> NoSpanAt(Coalesced(rows), t)
  {
    hide LatestByType, AddRow, OnlySpanAt, NoSpanAt, EndsWith;
    k := 0;
    if |rows| <= 1 {
      OneRowShows(rows, c, t);
    } else {
      var n := |rows| - 1;
      NewestFirstLatest(rows, c, t);
      CoalescedIsTimeline(rows[..n]);
      k := TimelineShows(rows[..n], c, t);
      var spans := Coalesced(rows[..n]);
      if c in LatestByType(rows[..n], t) {
        AddRowKeepsLater(spans, rows[n - 1], rows[n], t, k, LatestByType(rows[..n], t)[c].price);
      } else {
        AddRowShowsOwn(spans, rows[n - 1], rows[n], t);
        CoalescedIsTimeline(rows);
        k := |Coalesced(rows)| - 1;
      }
    }
  }

  lemma OneRowShows(rows: seq<PriceRow>, c: Component, t: Instant)
    requires |rows| <= 1 && forall r :: r in rows ==> r.component == c
    ensures c in LatestByType(rows, t) <==> rows != [] && rows[|rows| - 1].effectiveFrom <= t
    ensures c in LatestByType(rows, t) ==> OnlySpanAt(Coalesced(rows), t, 0, LatestByType(rows, t)[c].price)
    ensures c !in LatestByType(rows, t) ==> NoSpanAt(Coalesced(rows), t)
  {
    if rows != [] {
      assert rows[..0] == [] && rows[0] in rows;
    }
  }

  lemma {:induction false} OwnRowsDecide(rows: seq<PriceRow>, c: Component, t: Instant)
    ensures c in LatestByType(rows, t) <==> c in LatestByType(OfComponent(rows, c), t)
    ensures c in LatestByType(rows, t) ==> LatestByType(rows, t)[c] == LatestByType(OfComponent(rows, c), t)[c]
  {
    if rows != [] {
      var n := |rows| - 1;
      OwnRowsDecide(rows[..n], c, t);
      if rows[n].component == c {
        assert OfComponent(rows, c)[..|OfComponent(rows, c)| - 1] == OfComponent(rows[..n], c);
      } else {
        assert OfComponent(rows, c) == OfComponent(rows[..n], c);
      }
    }
  }

  lemma {:induction false} OwnRowsNewestFirst(rows: seq<PriceRow>, c: Component)
    requires NewestFirst(rows)
    ensures NewestFirst(OfComponent(rows, c))
  {
    if rows != [] {
      var n := |rows| - 1;
      OwnRowsNewestFirst(rows[..n], c);
      OwnRowsOnly(rows[..n], c);
      forall r | r in OfComponent(rows[..n], c) ensures r.effectiveFrom >= rows[n].effectiveFrom {
        assert r in rows[..n];
      }
    }
  }

  /** For every newest-first history and every instant: a component has a price exactly when one of
      its spans contains the instant; there is then exactly one such span, and it shows that price. */
  lemma TimelineMeansPricesAt(rows: seq<PriceRow>, c: Component, t: Instant)
    requires NewestFirst(rows)
    ensures var spans := Coalesced(OfComponent(rows, c));
            && IsTimeline(spans)
            && (c !in PricesAt(rows, t) ==> NoSpanAt(spans, t))
            && (c in PricesAt(rows, t) ==> exists k: nat :: OnlySpanAt(spans, t, k, PricesAt(rows, t)[c]))
  {
    var own := OfComponent(rows, c);
    OwnRowsOnly(rows, c);
    OwnRowsNewestFirst(rows, c);
    OwnRowsDecide(rows, c, t);
    CoalescedIsTimeline(own);
    var k := TimelineShows(own, c, t);
  }

  /** The page shows exactly the priced components, each with its own timeline. */
  lemma {:induction false} GroupsFollowTypes(rows: seq<PriceRow>, types: seq<Component>, g: Group)
    ensures g in GroupsOf(rows, types) <==>
              && g.component in types && OfComponent(rows, g.component) != []
              && g.spans == Coalesced(OfComponent(rows, g.component))
  {
    if types != [] {
      hide OfComponent, Coalesced;
      var n := |types| - 1;
      GroupsFollowTypes(rows, types[..n], g);
      assert types == types[..n] + [types[n]];
    }
  }

  /** Where a component stands on the page. */
  function Rank(c: Component): nat {
    match c
    case Input => 0
    case Output => 1
    case CacheRead => 2
    case CacheWrite => 3
    case CacheWrite5m => 4
    case CacheWrite1h => 5
  }

  ghost predicate InRankOrder(groups: seq<Group>) {
    forall a, b :: 0 <= a < b < |groups| ==> Rank(groups[a].component) < Rank(groups[b].component)
  }

  lemma {:induction false} GroupsKeepOrder(rows: seq<PriceRow>, types: seq<Component>)
    requires forall a, b :: 0 <= a < b < |types| ==> Rank(types[a]) < Rank(types[b])
    ensures InRankOrder(GroupsOf(rows, types))
    ensures forall g :: g in GroupsOf(rows, types) ==> g.component in types
  {
    if types != [] {
      hide OfComponent, Coalesced, Rank, InRankOrder;
      var n := |types| - 1;
      GroupsKeepOrder(rows, types[..n]);
      var before := GroupsOf(rows, types[..n]);
      forall a | 0 <= a < |before| ensures Rank(before[a].component) < Rank(types[n]) {
        assert before[a] in before && before[a].component in types[..n];
        var b :| 0 <= b < n && types[b] == before[a].component;
      }
      OneMoreInOrder(before, GroupOf(types[n], OfComponent(rows, types[n])), types[n]);
    }
  }

  lemma OneMoreInOrder(before: seq<Group>, more: seq<Group>, c: Component)
    requires InRankOrder(before) && |more| <= 1 && forall g :: g in more ==> g.component == c
    requires forall a :: 0 <= a < |before| ==> Rank(before[a].component) < Rank(c)
    ensures InRankOrder(before + more)
  {
    hide Rank;
    if more != [] { assert more[0] in more; }
  }

  lemma {:induction false} SpansKeepComponent(rows: seq<PriceRow>, c: Component)
    requires forall r :: r in rows ==> r.component == c
    ensures forall k :: 0 <= k < |Coalesced(rows)| ==> Coalesced(rows)[k].component == c
  {
    if rows != [] {
      assert rows[|rows| - 1] in rows;
      SpansKeepComponent(rows[..|rows| - 1], c);
    }
  }

  lemma AnyComponentIsListed(c: Component)
    ensures c in COMPONENT_TYPES
  {
    assert COMPONENT_TYPES[Rank(c)] == c;
  }

  /** The groups of one component: its own timeline if it has rows. */
  lemma OwnGroup(rows: seq<PriceRow>, c: Component)
    ensures forall g :: g in GroupsOf(rows, COMPONENT_TYPES) && g.component == c <==>
              g == Group(c, Coalesced(OfComponent(rows, c))) && OfComponent(rows, c) != []
  {
    AnyComponentIsListed(c);
    hide OfComponent, Coalesced, GroupsOf;
    forall g ensures g in GroupsOf(rows, COMPONENT_TYPES) && g.component == c <==>
        g == Group(c, Coalesced(OfComponent(rows, c))) && OfComponent(rows, c) != []
    {
      GroupsFollowTypes(rows, COMPONENT_TYPES, g);
    }
  }

  lemma HasRowsIff(rows: seq<PriceRow>, c: Component)
    ensures OfComponent(rows, c) != [] <==> exists r :: r in rows && r.component == c
  {
    OwnRowsOnly(rows, c);
    var own := OfComponent(rows, c);
    hide OfComponent;
    if own != [] { assert own[0] in own; }
  }

  /** The page shows a group for every component that has a row, and for no other; each once, in the
      fixed order, and every span in it is a span of that component. */
  lemma EveryComponentIsShown(rows: seq<PriceRow>, c: Component)
    ensures var groups := GroupsOf(rows, COMPONENT_TYPES);
            && InRankOrder(groups)
            && ((exists r :: r in rows && r.component == c) <==> (exists g :: g in groups && g.component == c))
            && (forall g :: g in groups && g.component == c ==>
                  forall k :: 0 <= k < |g.spans| ==> g.spans[k].component == c)
  {
    hide GroupsOf, OfComponent, Coalesced, InRankOrder;
    GroupsKeepOrder(rows, COMPONENT_TYPES);
    OwnGroup(rows, c);
    HasRowsIff(rows, c);
    OwnRowsOnly(rows, c);
    SpansKeepComponent(OfComponent(rows, c), c);
    var group := Group(c, Coalesced(OfComponent(rows, c)));
    assert group in GroupsOf(rows, COMPONENT_TYPES) <==> OfComponent(rows, c) != [];
  }
}
