/** app/routers/verification.py: the stratified sample of citations people label without seeing the
    judge's verdict. */
module BlindLabels {
  import opened Options

  datatype Stratum = Stratum(provider: string, verdict: string)

  datatype Mode = Blind | Review

  datatype Label = Label(citationId: int, userId: int, verdict: string, mode: Mode)

  type Strata = map<int, Stratum>

  const HUMAN_VERDICTS := {"supported", "partially_supported", "not_supported", "contradicted"}

  const LLM_JUDGED_VERDICTS := {"llm_supported", "llm_partial", "llm_not_supported", "llm_contradicted"}

  // ----- the strata -----

  datatype Verification = Verification(
    citationId: int, checkType: string, verdict: string, provider: string, createdAt: int)

  predicate IsJudged(v: Verification) {
    v.checkType == "llm" && v.verdict in LLM_JUDGED_VERDICTS
  }

  /** A verdict the judge gave, not one written because it could not be asked. */
  predicate IsOpinion(v: Verification) {
    && v.checkType == "llm"
    && (v.verdict == "llm_supported" || v.verdict == "llm_partial" || v.verdict == "llm_not_supported"
        || v.verdict == "llm_contradicted")
  }

  predicate IsHumanWord(verdict: string) {
    verdict == "supported" || verdict == "partially_supported" || verdict == "not_supported" || verdict == "contradicted"
  }

  /** `v` is a newest real judgement of its citation. */
  ghost predicate IsNewestJudgement(v: Verification, table: seq<Verification>) {
    && v in table && IsJudged(v)
    && forall w :: w in table && IsJudged(w) && w.citationId == v.citationId ==> w.createdAt <= v.createdAt
  }

  /** The rows the query returns: the judged ones, each citation's newest first. */
  ghost predicate IsQueryResult(rows: seq<Verification>, table: seq<Verification>) {
    && (forall v :: v in rows <==> v in table && IsJudged(v))
    && (forall i, j :: 0 <= i < j < |rows| ==>
          rows[i].citationId < rows[j].citationId
          || (rows[i].citationId == rows[j].citationId && rows[i].createdAt >= rows[j].createdAt))
  }

  /** `s` is the stratum of a newest real judgement of the citation. */
  ghost predicate IsStratumOf(s: Stratum, citation: int, table: seq<Verification>) {
    exists v :: IsNewestJudgement(v, table) && v.citationId == citation && s == Stratum(v.provider, v.verdict)
  }

  ghost predicate IsAmong(rows: seq<Verification>, upTo: nat, citation: int) {
    exists k :: 0 <= k < upTo <= |rows| && rows[k].citationId == citation
  }

  lemma FirstRowIsNewest(rows: seq<Verification>, table: seq<Verification>, i: nat)
    requires IsQueryResult(rows, table) && i < |rows| && !IsAmong(rows, i, rows[i].citationId)
    ensures IsStratumOf(Stratum(rows[i].provider, rows[i].verdict), rows[i].citationId, table)
  {
    assert rows[i] in rows;
    forall w | w in table && IsJudged(w) && w.citationId == rows[i].citationId
      ensures w.createdAt <= rows[i].createdAt
    {
      assert w in rows;
      var k :| 0 <= k < |rows| && rows[k] == w;
      assert rows[k].citationId == rows[i].citationId;
      assert k >= i;
    }
    assert IsNewestJudgement(rows[i], table);
  }

  lemma OneMoreRow(rows: seq<Verification>, i: nat, citation: int)
    requires i < |rows|
    ensures IsAmong(rows, i + 1, citation) <==> IsAmong(rows, i, citation) || rows[i].citationId == citation
  {
    if rows[i].citationId == citation { assert IsAmong(rows, i + 1, citation); }
  }

  lemma AllRowsAreTheJudged(rows: seq<Verification>, table: seq<Verification>, citation: int)
    requires IsQueryResult(rows, table)
    ensures IsAmong(rows, |rows|, citation) <==> exists v :: v in table && IsJudged(v) && v.citationId == citation
  {
    if IsAmong(rows, |rows|, citation) {
      var k :| 0 <= k < |rows| && rows[k].citationId == citation;
      assert rows[k] in rows;
    }
    if v :| v in table && IsJudged(v) && v.citationId == citation {
      assert v in rows;
      var k :| 0 <= k < |rows| && rows[k] == v;
      assert rows[k].citationId == citation;
    }
  }

  method CitationStrata(rows: seq<Verification>, ghost table: seq<Verification>) returns (strata: Strata)
    requires IsQueryResult(rows, table)
    ensures forall c :: c in strata <==> exists v :: v in table && IsOpinion(v) && v.citationId == c
    ensures forall c :: c in strata ==> IsStratumOf(strata[c], c, table)
  {
    assert forall v :: IsOpinion(v) <==> IsJudged(v);
    hide IsOpinion, IsJudged;
    hide IsStratumOf, IsAmong, IsQueryResult;
    strata := map[];
    assert forall c :: !IsAmong(rows, 0, c) by { NoneAmongNone(rows); }
    for i := 0 to |rows|
      invariant forall c :: c in strata <==> IsAmong(rows, i, c)
      invariant forall c :: c in strata ==> IsStratumOf(strata[c], c, table)
    {
      forall c ensures IsAmong(rows, i + 1, c) <==> IsAmong(rows, i, c) || rows[i].citationId == c {
        OneMoreRow(rows, i, c);
      }
      if rows[i].citationId !in strata {
        FirstRowIsNewest(rows, table, i);
        strata := strata[rows[i].citationId := Stratum(rows[i].provider, rows[i].verdict)];
      }
    }
    forall c ensures c in strata <==> exists v :: v in table && IsOpinion(v) && v.citationId == c {
      AllRowsAreTheJudged(rows, table, c);
    }
  }

  lemma NoneAmongNone(rows: seq<Verification>)
    ensures forall c :: !IsAmong(rows, 0, c)
  {
  }

  // ----- what to offer next -----

  function LabeledBy(labels: seq<Label>, user: int): set<int> {
    set l | l in labels && l.userId == user && l.mode == Blind :: l.citationId
  }

  function Eligible(strata: Strata, labels: seq<Label>, user: int): set<int> {
    strata.Keys - LabeledBy(labels, user)
  }

  /** Blind labels recorded so far, by anyone, for citations of one stratum. */
  function Recorded(strata: Strata, labels: seq<Label>, s: Stratum): nat {
    if labels == [] then 0
    else
      var n := |labels| - 1;
      var l := labels[n];
      Recorded(strata, labels[..n], s)
      + if l.mode == Blind && l.citationId in strata && strata[l.citationId] == s then 1 else 0
  }

  predicate NoLaterThan(strata: Strata, labels: seq<Label>, c: int, d: int)
    requires c in strata && d in strata
  {
    var m, n := Recorded(strata, labels, strata[c]), Recorded(strata, labels, strata[d]);
    m < n || (m == n && c <= d)
  }

  /** The citation the page offers: one of the stratum with the fewest labels, lowest id first. */
  ghost predicate IsNext(strata: Strata, labels: seq<Label>, user: int, c: int) {
    && c in Eligible(strata, labels, user)
    && forall d :: d in Eligible(strata, labels, user) ==> NoLaterThan(strata, labels, c, d)
  }

  function CountAt(counts: map<Stratum, nat>, s: Stratum): nat {
    if s in counts then counts[s] else 0
  }

  lemma SomeMember(s: set<int>)
    requires s != {}
    ensures exists x :: x in s
  {
    if forall x :: x !in s {
      assert false;
    }
  }

  class LabelTable {
    var labels: seq<Label>

    constructor ()
      ensures labels == []
    {
      labels := [];
    }

    method NextBlindCitationId(strata: Strata, user: int) returns (next: Option<int>)
      ensures next.None? <==> Eligible(strata, labels, user) == {}
      ensures next.Some? ==> IsNext(strata, labels, user, next.value)
    {
      var alreadyLabeled := set l | l in labels && l.userId == user && l.mode == Blind :: l.citationId;
      var eligible := strata.Keys - alreadyLabeled;
      if eligible == {} {
        return None;
      }
      var counts := StratumCounts(strata);
      SomeMember(eligible);
      var best :| best in eligible;
      var rest := eligible - {best};
      while rest != {}
        invariant best in eligible && rest <= eligible
        invariant forall d :: d in eligible - rest ==> NoLaterThan(strata, labels, best, d)
        decreases rest
      {
        SomeMember(rest);
        var d :| d in rest;
        var m, n := CountAt(counts, strata[best]), CountAt(counts, strata[d]);
        ghost var was := best;
        if n < m || (n == m && d < best) {
          best := d;
        }
        forall e | e in eligible && (e == d || e !in rest) ensures NoLaterThan(strata, labels, best, e) {
          if e != d { assert e in eligible - rest && NoLaterThan(strata, labels, was, e); }
        }
        rest := rest - {d};
      }
      next := Some(best);
    }

    method StratumCounts(strata: Strata) returns (counts: map<Stratum, nat>)
      ensures forall s :: CountAt(counts, s) == Recorded(strata, labels, s)
    {
      counts := map[];
      for i := 0 to |labels|
        invariant forall s :: CountAt(counts, s) == Recorded(strata, labels[..i], s)
      {
        assert labels[..i + 1][..i] == labels[..i];
        if labels[i].mode == Blind && labels[i].citationId in strata {
          var s := strata[labels[i].citationId];
          counts := counts[s := CountAt(counts, s) + 1];
        }
      }
      assert labels[..|labels|] == labels;
    }

    method SubmitBlindLabel(citations: set<int>, citationId: int, user: int, verdict: string)
      returns (r: Result<(), string>)
      modifies this
      ensures !IsHumanWord(verdict) ==> r == Err("invalid_verdict")
      ensures IsHumanWord(verdict) && citationId !in citations ==> r == Err("citation_not_found")
      ensures r.Err? ==> labels == old(labels)
      ensures IsHumanWord(verdict) && citationId in citations ==>
                r.Ok? && labels == old(labels) + [Label(citationId, user, verdict, Blind)]
    {
      if verdict !in HUMAN_VERDICTS {
        return Err("invalid_verdict");
      }
      if citationId !in citations {
        return Err("citation_not_found");
      }
      labels := labels + [Label(citationId, user, verdict, Blind)];
      r := Ok(());
    }
  }

  /** The citation to offer is one the user has not labelled blind, from a stratum no other such citation
      of which has fewer labels, and of those the one with the lowest id. */
  lemma NextTells(strata: Strata, labels: seq<Label>, user: int, c: int)
    ensures IsNext(strata, labels, user, c) <==>
              && c in strata && !HasLabelled(labels, user, c)
              && forall d :: d in strata && !HasLabelled(labels, user, d) ==>
                   var m, n := Recorded(strata, labels, strata[c]), Recorded(strata, labels, strata[d]);
                   m <= n && (m == n ==> c <= d)
  {
    forall d ensures d in Eligible(strata, labels, user) <==> d in strata && !HasLabelled(labels, user, d) {
      LabelledIs(labels, user, d);
    }
    hide Eligible, HasLabelled, Recorded;
  }

  ghost predicate HasLabelled(labels: seq<Label>, user: int, c: int) {
    exists l :: l in labels && l.userId == user && l.citationId == c && l.mode.Blind?
  }

  lemma LabelledIs(labels: seq<Label>, user: int, c: int)
    ensures c in LabeledBy(labels, user) <==> HasLabelled(labels, user, c)
  {
  }

  /** There is exactly one citation to offer as long as any is eligible. */
  lemma NextIsUnique(strata: Strata, labels: seq<Label>, user: int, c: int, d: int)
    requires IsNext(strata, labels, user, c) && IsNext(strata, labels, user, d)
    ensures c == d
  {
    assert NoLaterThan(strata, labels, c, d) && NoLaterThan(strata, labels, d, c);
  }

  // ----- whole labelling sessions -----

  /** Every label was submitted for the citation its user was being offered at that moment; any
      number of users take turns in any order. */
  ghost predicate AsOffered(strata: Strata, labels: seq<Label>) {
    labels == []
    || (var n := |labels| - 1;
        && AsOffered(strata, labels[..n])
        && labels[n].mode == Blind
        && IsNext(strata, labels[..n], labels[n].userId, labels[n].citationId))
  }

  ghost predicate HasEligibleIn(strata: Strata, labels: seq<Label>, user: int, s: Stratum) {
    exists c :: c in Eligible(strata, labels, user) && strata[c] == s
  }

  /** At every turn the labelling user still had something to label in every stratum. */
  ghost predicate NeverExhausted(strata: Strata, labels: seq<Label>) {
    labels == []
    || (var n := |labels| - 1;
        && NeverExhausted(strata, labels[..n])
        && forall s :: s in strata.Values ==> HasEligibleIn(strata, labels[..n], labels[n].userId, s))
  }

  lemma OfferedFromFewest(strata: Strata, labels: seq<Label>, user: int, c: int, s: Stratum)
    requires IsNext(strata, labels, user, c) && HasEligibleIn(strata, labels, user, s)
    ensures Recorded(strata, labels, strata[c]) <= Recorded(strata, labels, s)
  {
    var d :| d in Eligible(strata, labels, user) && strata[d] == s;
    assert NoLaterThan(strata, labels, c, d);
  }

  /** While no stratum is exhausted the sample stays balanced: any two strata are within one label. */
  lemma {:induction false} SampleStaysBalanced(strata: Strata, labels: seq<Label>, a: Stratum, b: Stratum)
    requires AsOffered(strata, labels) && NeverExhausted(strata, labels)
    requires a in strata.Values && b in strata.Values
    ensures Recorded(strata, labels, a) <= Recorded(strata, labels, b) + 1
  {
    if labels != [] {
      var n := |labels| - 1;
      SampleStaysBalanced(strata, labels[..n], a, b);
      OfferedFromFewest(strata, labels[..n], labels[n].userId, labels[n].citationId, b);
    }
  }

  // ----- pages open at the same time -----

  /** A page shows its user the citation to label next, as it was when the page was opened. */
  datatype Page = Page(user: int, citation: int)

  datatype Desk = Desk(labels: seq<Label>, pages: seq<Page>)

  datatype Act = OpenPage(page: Page) | SubmitPage(k: nat, verdict: string) | ClosePage(k: nat)

  function Without(pages: seq<Page>, k: nat): seq<Page>
    requires k < |pages|
  {
    pages[..k] + pages[k + 1..]
  }

  function Perform(d: Desk, a: Act): Desk {
    match a
    case OpenPage(page) => d.(pages := d.pages + [page])
    case SubmitPage(k, verdict) =>
      if k < |d.pages| then
        Desk(d.labels + [Label(d.pages[k].citation, d.pages[k].user, verdict, Blind)], Without(d.pages, k))
      else d
    case ClosePage(k) => if k < |d.pages| then d.(pages := Without(d.pages, k)) else d
  }

  function Session(acts: seq<Act>): Desk {
    if acts == [] then Desk([], []) else Perform(Session(acts[..|acts| - 1]), acts[|acts| - 1])
  }

  /** A page is opened on the citation to offer, by a user who still has something in every stratum, while
      fewer than `most` pages are open. */
  ghost predicate IsFair(strata: Strata, d: Desk, a: Act, most: nat) {
    a.OpenPage? ==>
      && |d.pages| < most
      && IsNext(strata, d.labels, a.page.user, a.page.citation)
      && forall s :: s in strata.Values ==> HasEligibleIn(strata, d.labels, a.page.user, s)
  }

  ghost predicate IsFairSession(strata: Strata, acts: seq<Act>, most: nat) {
    acts != [] ==>
      && IsFairSession(strata, acts[..|acts| - 1], most)
      && IsFair(strata, Session(acts[..|acts| - 1]), acts[|acts| - 1], most)
  }

  function ShowsOf(strata: Strata, p: Page, s: Stratum): nat {
    if p.citation in strata && strata[p.citation] == s then 1 else 0
  }

  /** How many open pages show a citation of the stratum. */
  function Shown(strata: Strata, pages: seq<Page>, s: Stratum): (n: nat)
    ensures n <= |pages|
  {
    if pages == [] then 0
    else Shown(strata, pages[..|pages| - 1], s) + ShowsOf(strata, pages[|pages| - 1], s)
  }

  lemma {:induction false} ShownAppends(strata: Strata, a: seq<Page>, b: seq<Page>, s: Stratum)
    ensures Shown(strata, a + b, s) == Shown(strata, a, s) + Shown(strata, b, s)
  {
    if b == [] {
      assert a + b == a;
    } else {
      ShownAppends(strata, a, b[..|b| - 1], s);
      assert (a + b)[..|a + b| - 1] == a + b[..|b| - 1];
    }
  }

  lemma ShownWithout(strata: Strata, pages: seq<Page>, k: nat, s: Stratum)
    requires k < |pages|
    ensures Shown(strata, pages, s) == Shown(strata, Without(pages, k), s) + ShowsOf(strata, pages[k], s)
  {
    var one := [pages[k]];
    assert pages == pages[..k] + (one + pages[k + 1..]);
    assert one[..0] == [] && Shown(strata, one, s) == ShowsOf(strata, pages[k], s);
    ShownAppends(strata, pages[..k], one + pages[k + 1..], s);
    ShownAppends(strata, one, pages[k + 1..], s);
    ShownAppends(strata, pages[..k], pages[k + 1..], s);
  }

  lemma RecordedOneMore(strata: Strata, labels: seq<Label>, p: Page, verdict: string, s: Stratum)
    ensures Recorded(strata, labels + [Label(p.citation, p.user, verdict, Blind)], s)
            == Recorded(strata, labels, s) + ShowsOf(strata, p, s)
  {
    var l := Label(p.citation, p.user, verdict, Blind);
    assert (labels + [l])[..|labels|] == labels;
  }

  /** The labels of a stratum, those about to come from open pages included, are never more than `most`
      ahead of any other's. */
  ghost predicate IsBalanced(strata: Strata, d: Desk, most: nat, a: Stratum, b: Stratum) {
    Recorded(strata, d.labels, a) + Shown(strata, d.pages, a) <= Recorded(strata, d.labels, b) + most
  }

  lemma ActKeepsBalance(strata: Strata, d: Desk, act: Act, most: nat, a: Stratum, b: Stratum)
    requires IsBalanced(strata, d, most, a, b) && IsFair(strata, d, act, most)
    requires a in strata.Values && b in strata.Values
    ensures IsBalanced(strata, Perform(d, act), most, a, b)
  {
    match act
    case OpenPage(page) =>
      assert (d.pages + [page])[..|d.pages|] == d.pages;
      assert HasEligibleIn(strata, d.labels, page.user, b);
      OfferedFromFewest(strata, d.labels, page.user, page.citation, b);
    case SubmitPage(k, verdict) =>
      if k < |d.pages| {
        RecordedOneMore(strata, d.labels, d.pages[k], verdict, a);
        RecordedOneMore(strata, d.labels, d.pages[k], verdict, b);
        ShownWithout(strata, d.pages, k, a);
      }
    case ClosePage(k) =>
      if k < |d.pages| { ShownWithout(strata, d.pages, k, a); }
  }

  /** With up to `most` pages open at a time, submitted in any order against offers however old, any two
      strata stay within `most` labels while no stratum is exhausted. */
  lemma {:induction false} OpenPagesStayBalanced(strata: Strata, acts: seq<Act>, most: nat, a: Stratum, b: Stratum)
    requires IsFairSession(strata, acts, most) && a in strata.Values && b in strata.Values
    ensures IsBalanced(strata, Session(acts), most, a, b)
    ensures Recorded(strata, Session(acts).labels, a) <= Recorded(strata, Session(acts).labels, b) + most
  {
    if acts != [] {
      OpenPagesStayBalanced(strata, acts[..|acts| - 1], most, a, b);
      ActKeepsBalance(strata, Session(acts[..|acts| - 1]), acts[|acts| - 1], most, a, b);
    }
  }

  // ----- what one user is offered -----

  /** How often one user labelled one citation. */
  function Times(labels: seq<Label>, user: int, c: int): nat {
    if labels == [] then 0
    else
      var n := |labels| - 1;
      Times(labels[..n], user, c) + if labels[n].userId == user && labels[n].citationId == c then 1 else 0
  }

  function Turns(labels: seq<Label>, user: int): nat {
    if labels == [] then 0
    else
      var n := |labels| - 1;
      Turns(labels[..n], user) + if labels[n].userId == user then 1 else 0
  }

  lemma LabeledGrows(strata: Strata, labels: seq<Label>, user: int)
    requires labels != [] && AsOffered(strata, labels)
    ensures var n := |labels| - 1;
            LabeledBy(labels, user)
            == LabeledBy(labels[..n], user) + (if labels[n].userId == user then {labels[n].citationId} else {})
  {
    var n := |labels| - 1;
    assert labels[n].mode == Blind;
    hide AsOffered;
    LabeledByOneMore(labels[..n], labels[n], user);
    assert labels == labels[..n] + [labels[n]];
  }

  lemma LabeledByOneMore(labels: seq<Label>, last: Label, user: int)
    requires last.mode == Blind
    ensures LabeledBy(labels + [last], user)
            == LabeledBy(labels, user) + (if last.userId == user then {last.citationId} else {})
  {
    assert forall l :: l in labels + [last] <==> l in labels || l == last;
  }

  /** Nobody is offered the same citation twice; a user has labelled exactly the ones not eligible. */
  lemma {:induction false} NeverOfferedTwice(strata: Strata, labels: seq<Label>, user: int, c: int)
    requires AsOffered(strata, labels)
    ensures Times(labels, user, c) == if c in LabeledBy(labels, user) then 1 else 0
    ensures LabeledBy(labels, user) <= strata.Keys
  {
    if labels != [] {
      NeverOfferedTwice(strata, labels[..|labels| - 1], user, c);
      LabeledGrows(strata, labels, user);
    }
  }

  lemma {:induction false} TurnsAreLabels(strata: Strata, labels: seq<Label>, user: int)
    requires AsOffered(strata, labels)
    ensures Turns(labels, user) == |LabeledBy(labels, user)|
  {
    if labels != [] {
      TurnsAreLabels(strata, labels[..|labels| - 1], user);
      LabeledGrows(strata, labels, user);
    }
  }

  lemma SubsetOfSameSize(a: set<int>, b: set<int>)
    requires a <= b
    ensures |a| <= |b|
    ensures |a| == |b| <==> a == b
  {
    assert b == a + (b - a);
    assert |b| == |a| + |b - a|;
  }

  /** A user is told there is nothing left after exactly one turn per citation, never sooner or
      later, and has then labelled every citation exactly once. */
  lemma StopsAfterEveryCitationOnce(strata: Strata, labels: seq<Label>, user: int)
    requires AsOffered(strata, labels)
    ensures Eligible(strata, labels, user) == {} <==> Turns(labels, user) == |strata|
    ensures Turns(labels, user) <= |strata|
    ensures Eligible(strata, labels, user) == {} ==> forall c :: c in strata ==> Times(labels, user, c) == 1
  {
    TurnsAreLabels(strata, labels, user);
    NeverOfferedTwice(strata, labels, user, 0);
    SubsetOfSameSize(LabeledBy(labels, user), strata.Keys);
    if Eligible(strata, labels, user) == {} {
      forall c | c in strata ensures c in LabeledBy(labels, user) {
        assert c !in Eligible(strata, labels, user);
      }
    }
    forall c | c in strata && Eligible(strata, labels, user) == {} ensures Times(labels, user, c) == 1 {
      NeverOfferedTwice(strata, labels, user, c);
    }
  }

  /** Opening a page labels nothing; submitting it adds its one label, closing it nothing, and both leave the
      other pages open. */
  lemma OpenedPageIsSubmitted(acts: seq<Act>, page: Page, verdict: string)
    ensures var d := Session(acts);
            var withPage := Session(acts + [OpenPage(page)]);
            && withPage.labels == d.labels && withPage.pages == d.pages + [page]
            && Session(acts + [OpenPage(page), SubmitPage(|d.pages|, verdict)])
               == Desk(d.labels + [Label(page.citation, page.user, verdict, Blind)], d.pages)
            && Session(acts + [OpenPage(page), ClosePage(|d.pages|)]) == d
  {
    var d, k := Session(acts), |Session(acts).pages|;
    var first, submit, close := OpenPage(page), SubmitPage(k, verdict), ClosePage(k);
    assert (acts + [first])[..|acts|] == acts;
    assert (acts + [first, submit])[..|acts| + 1] == acts + [first];
    assert (acts + [first, close])[..|acts| + 1] == acts + [first];
    assert Without(d.pages + [page], k) == d.pages;
  }
}
