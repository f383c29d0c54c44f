/** app/services/claim_judge.py `judge_citations`: one pass of the paid paraphrase check, and the passes
    that one job makes of it. */
module ClaimJudge {
  import opened Options
  import opened Verifications

  const LLM_JUDGE_PROVIDERS := {"openai", "google_gemini"}
  const MIN_QUOTE_LENGTH := 20
  const UNPARSED := "Could not parse a recognized verdict from the judge's reply."

  /** `claim` is what `derive_claim` finds. */
  datatype Citation = Citation(id: int, sourceUrl: Option<string>, claim: Option<string>)

  /** `passages` is what `select_passages` finds in the stored text, when there is one. */
  datatype Document = Document(id: int, errorReason: Option<string>, passages: Option<seq<string>>)

  /** `word` is the verdict word of the reply, stripped and in lower case. */
  datatype Judgement = Judgement(word: string, reason: string, quote: string)

  /** A reply: what `_parse_judgement` makes of it, where its quote is in the page, and its price. */
  datatype Reply = Reply(parsed: Option<Judgement>, found: Option<Match>, cost: Option<real>)

  datatype Weather = Fine | Late | Raises

  /** What the pass meets when it comes to a citation. No reply stands for an exception, or the death of
      the worker, between the judge call and the commit. */
  datatype Look = Look(weather: Weather, document: Option<Document>, reply: Option<Reply>, at: Time)

  datatype Ending = Finished | OutOfTime | Raised

  function VerdictOf(word: string): Option<Verdict> {
    if word == "supported" then Some(LlmSupported)
    else if word == "partially_supported" then Some(LlmPartial)
    else if word == "not_supported" then Some(LlmNotSupported)
    else if word == "contradicted" then Some(LlmContradicted)
    else None
  }

  function NonEmpty(s: string): Option<string> {
    if s == "" then None else Some(s)
  }

  function FreeRow(c: Citation, document: int, reason: Option<string>, at: Time): Row {
    Row(c.id, Llm, document, c.claim, Unverifiable, reason, None, None, at)
  }

  /** The row a reply leads to. A reply without a known verdict is kept for review, and so is one whose
      quote is long enough to look for and is not in the page. */
  function JudgedRow(c: Citation, document: int, r: Reply, at: Time): Row {
    var verdict := if r.parsed.Some? then VerdictOf(r.parsed.value.word) else None;
    if verdict.None? then
      Row(c.id, Llm, document, c.claim, Unverifiable, None, None, Some(Opinion(Some(UNPARSED), None, None, true, r.cost)), at)
    else
      var j := r.parsed.value;
      var isLong := |j.quote| >= MIN_QUOTE_LENGTH;
      Row(c.id, Llm, document, c.claim, verdict.value, None, if isLong then r.found else None,
          Some(Opinion(NonEmpty(j.reason), NonEmpty(j.quote), if isLong then Some(r.found.Some?) else None,
                       isLong && r.found.None?, r.cost)), at)
  }

  predicate IsText(s: Option<string>) {
    s.Some? && s.value != ""
  }

  predicate IsDone(rows: seq<Row>, c: Citation, since: Option<Time>) {
    since.Some? && HasSince(rows, Llm, c.id, since.value)
  }

  /** What the pass does about one citation: nothing, a row that costs nothing, or a judge call that
      leads to a row unless the pass breaks off there. */
  datatype Deed = Skip | Place(row: Row) | Ask(answer: Option<Row>)

  /** What there is to do for a citation that has no row yet. */
  function WorkFor(c: Citation, l: Look): Deed {
    if !IsText(c.sourceUrl) || c.claim.None? || l.document.None? then Skip
    else
      var d := l.document.value;
      if d.errorReason.Some? then Place(FreeRow(c, d.id, d.errorReason, l.at))
      else if d.passages.None? then Skip
      else if d.passages.value == [] then Place(FreeRow(c, d.id, Some("no_checkable_text"), l.at))
      else Ask(if l.reply.Some? then Some(JudgedRow(c, d.id, l.reply.value, l.at)) else None)
  }

  function DeedFor(rows: seq<Row>, c: Citation, l: Look, since: Option<Time>): Deed {
    if IsDone(rows, c, since) then Skip else WorkFor(c, l)
  }

  function Written(d: Deed): seq<Row> {
    match d
    case Skip => []
    case Place(row) => [row]
    case Ask(row) => if row.Some? then [row.value] else []
  }

  function Paid(c: Citation, d: Deed): seq<int> {
    if d.Ask? then [c.id] else []
  }

  /** The rows, and the citations sent to the judge so far, in order. */
  datatype Outcome = Outcome(rows: seq<Row>, calls: seq<int>, ending: Ending)

  function Pass(rows: seq<Row>, calls: seq<int>, cs: seq<Citation>, looks: seq<Look>, since: Option<Time>): Outcome
    requires |cs| == |looks|
    decreases |cs|
  {
    if cs == [] then Outcome(rows, calls, Finished)
    else if looks[0].weather == Late then Outcome(rows, calls, OutOfTime)
    else if looks[0].weather == Raises then Outcome(rows, calls, Raised)
    else
      var deed := DeedFor(rows, cs[0], looks[0], since);
      if deed == Ask(None) then Outcome(rows, calls + [cs[0].id], Raised)
      else Pass(rows + Written(deed), calls + Paid(cs[0], deed), cs[1..], looks[1..], since)
  }

  /** The paid adapter, with the calls made so far. */
  class Judge {
    var calls: seq<int>

    constructor ()
      ensures calls == []
    {
      calls := [];
    }

    method Ask(citation: int, reply: Option<Reply>) returns (r: Option<Reply>)
      modifies this
      ensures calls == old(calls) + [citation] && r == reply
    {
      calls := calls + [citation];
      r := reply;
    }
  }

  /** `judge_citations`; it returns whether the pass finished, unless it raises. */
  method JudgeCitations(
    table: VerificationTable, judge: Judge, provider: string, citations: seq<Citation>, looks: seq<Look>,
    since: Option<Time>)
    returns (ending: Ending)
    requires |citations| == |looks|
    modifies table, judge
    ensures provider == "openai" || provider == "google_gemini" ==>
              Outcome(table.rows, judge.calls, ending) == Pass(old(table.rows), old(judge.calls), citations, looks, since)
    ensures provider != "openai" && provider != "google_gemini" ==>
              table.rows == old(table.rows) && judge.calls == old(judge.calls) && ending == Finished
  {
    if provider !in LLM_JUDGE_PROVIDERS {
      return Finished;
    }
    for i := 0 to |citations|
      invariant Pass(old(table.rows), old(judge.calls), citations, looks, since)
             == Pass(table.rows, judge.calls, citations[i..], looks[i..], since)
    {
      var citation, l := citations[i], looks[i];
      assert citations[i..][0] == citation && citations[i..][1..] == citations[i + 1..];
      assert looks[i..][0] == l && looks[i..][1..] == looks[i + 1..];
      assert table.rows + [] == table.rows && judge.calls + [] == judge.calls;
      if l.weather == Late {
        return OutOfTime;
      }
      if l.weather == Raises {
        return Raised;
      }
      if !IsText(citation.sourceUrl) {
        continue;
      }
      if citation.claim.None? {
        continue;
      }
      if since.Some? && HasSince(table.rows, Llm, citation.id, since.value) {
        continue;
      }
      if l.document.None? {
        continue;
      }
      var document := l.document.value;
      if document.errorReason.Some? {
        table.Append(FreeRow(citation, document.id, document.errorReason, l.at));
        continue;
      }
      if document.passages.None? {
        continue;
      }
      if document.passages.value == [] {
        table.Append(FreeRow(citation, document.id, Some("no_checkable_text"), l.at));
        continue;
      }
      var reply := judge.Ask(citation.id, l.reply);
      if reply.None? {
        return Raised;
      }
      table.Append(JudgedRow(citation, document.id, reply.value, l.at));
    }
    return Finished;
  }

  // ----- one pass, seen by one citation -----

  function OwnRows(rows: seq<Row>, c: Citation): seq<Row> {
    RowsOf(rows, Llm, c.id)
  }

  function CallsFor(calls: seq<int>, id: int): nat {
    if calls == [] then 0 else CallsFor(calls[..|calls| - 1], id) + if calls[|calls| - 1] == id then 1 else 0
  }

  lemma CallsForOneMore(calls: seq<int>, d: Deed, c: Citation, id: int)
    ensures CallsFor(calls + Paid(c, d), id) == CallsFor(calls, id) + if d.Ask? && c.id == id then 1 else 0
  {
    if d.Ask? {
      assert (calls + [c.id])[..|calls|] == calls;
    } else {
      assert calls + [] == calls;
    }
  }

  /** How many citations the pass gets through: the deadline, an exception or a judge call without a
      reply ends it. */
  function Reach(rows: seq<Row>, cs: seq<Citation>, looks: seq<Look>, since: Option<Time>): (n: nat)
    requires |cs| == |looks|
    ensures n <= |cs|
    decreases |cs|
  {
    if cs == [] || looks[0].weather != Fine || DeedFor(rows, cs[0], looks[0], since) == Ask(None) then 0
    else 1 + Reach(rows, cs[1..], looks[1..], since)
  }

  predicate AreDistinct(cs: seq<Citation>) {
    forall i, j :: 0 <= i < j < |cs| ==> cs[i].id != cs[j].id
  }

  /** What the pass adds for one citation, and whether it asks the judge about it. */
  function Gain(rows: seq<Row>, cs: seq<Citation>, looks: seq<Look>, since: Option<Time>, k: nat): seq<Row>
    requires |cs| == |looks| && k < |cs|
  {
    if k < Reach(rows, cs, looks, since) then Written(DeedFor(rows, cs[k], looks[k], since)) else []
  }

  predicate Asks(rows: seq<Row>, cs: seq<Citation>, looks: seq<Look>, since: Option<Time>, k: nat)
    requires |cs| == |looks| && k < |cs|
  {
    k <= Reach(rows, cs, looks, since) && looks[k].weather == Fine && DeedFor(rows, cs[k], looks[k], since).Ask?
  }

  lemma WorkIsOwn(c: Citation, l: Look)
    ensures forall r :: r in Written(WorkFor(c, l)) ==> IsOf(r, Llm, c.id) && r.createdAt == l.at
    ensures |Written(WorkFor(c, l))| <= 1
  {
  }

  lemma WrittenIsOwn(rows: seq<Row>, c: Citation, l: Look, since: Option<Time>, kind: CheckKind, id: int)
    ensures var w := Written(DeedFor(rows, c, l, since));
            RowsOf(w, kind, id) == if kind == Llm && id == c.id then w else []
  {
    WorkIsOwn(c, l);
    var w := Written(DeedFor(rows, c, l, since));
    if w != [] {
      assert w[..0] == [] && RowsOf(w[..0], kind, id) == [];
    }
  }

  lemma DeedSeesOwnRows(rows: seq<Row>, more: seq<Row>, c: Citation, l: Look, since: Option<Time>)
    requires OwnRows(rows, c) == OwnRows(more, c)
    ensures DeedFor(rows, c, l, since) == DeedFor(more, c, l, since)
  {
    if since.Some? {
      HasSinceIff(rows, Llm, c.id, since.value);
      HasSinceIff(more, Llm, c.id, since.value);
    }
  }

  /** What is written for one citation is not seen when the pass comes to another. */
  lemma OthersRowIsNotSeen(rows: seq<Row>, c: Citation, l: Look, other: Citation, m: Look, since: Option<Time>)
    requires c.id != other.id
    ensures var more := rows + Written(DeedFor(rows, other, m, since));
            OwnRows(more, c) == OwnRows(rows, c) && DeedFor(more, c, l, since) == DeedFor(rows, c, l, since)
  {
    var w := Written(DeedFor(rows, other, m, since));
    WrittenIsOwn(rows, other, m, since, Llm, c.id);
    hide DeedFor, Written, RowsOf;
    RowsOfAppends(rows, w, Llm, c.id);
    assert OwnRows(rows, c) + [] == OwnRows(rows, c);
    DeedSeesOwnRows(rows, rows + w, c, l, since);
  }

  lemma {:induction false} ReachIgnoresOthers(
    rows: seq<Row>, cs: seq<Citation>, looks: seq<Look>, other: Citation, m: Look, since: Option<Time>)
    requires |cs| == |looks| && forall i :: 0 <= i < |cs| ==> cs[i].id != other.id
    ensures Reach(rows + Written(DeedFor(rows, other, m, since)), cs, looks, since) == Reach(rows, cs, looks, since)
    decreases |cs|
  {
    hide DeedFor, Written;
    if cs != [] {
      OthersRowIsNotSeen(rows, cs[0], looks[0], other, m, since);
      ReachIgnoresOthers(rows, cs[1..], looks[1..], other, m, since);
    }
  }

  lemma {:induction false} PassLeavesOthers(
    rows: seq<Row>, calls: seq<int>, cs: seq<Citation>, looks: seq<Look>, since: Option<Time>, kind: CheckKind, id: int)
    requires |cs| == |looks| && (kind != Llm || forall i :: 0 <= i < |cs| ==> cs[i].id != id)
    ensures var o := Pass(rows, calls, cs, looks, since);
            && RowsOf(o.rows, kind, id) == RowsOf(rows, kind, id)
            && (kind == Llm ==> CallsFor(o.calls, id) == CallsFor(calls, id))
    decreases |cs|
  {
    if cs != [] && looks[0].weather == Fine {
      var deed := DeedFor(rows, cs[0], looks[0], since);
      CallsForOneMore(calls, deed, cs[0], id);
      WrittenIsOwn(rows, cs[0], looks[0], since, kind, id);
      hide DeedFor, RowsOf, CallsFor;
      assert RowsOf(rows, kind, id) + [] == RowsOf(rows, kind, id);
      if deed != Ask(None) {
        RowsOfAppends(rows, Written(deed), kind, id);
        PassLeavesOthers(rows + Written(deed), calls + Paid(cs[0], deed), cs[1..], looks[1..], since, kind, id);
      }
    }
  }

  /** A pass only appends, to the table and to the bill. */
  lemma {:induction false} PassAppends(
    rows: seq<Row>, calls: seq<int>, cs: seq<Citation>, looks: seq<Look>, since: Option<Time>)
    requires |cs| == |looks|
    ensures var o := Pass(rows, calls, cs, looks, since); rows <= o.rows && calls <= o.calls
    decreases |cs|
  {
    if cs != [] && looks[0].weather == Fine {
      var deed := DeedFor(rows, cs[0], looks[0], since);
      hide DeedFor, Written, Paid;
      if deed != Ask(None) {
        PassAppends(rows + Written(deed), calls + Paid(cs[0], deed), cs[1..], looks[1..], since);
      }
    }
  }

  /** Each citation the pass comes to gets exactly the row, and costs exactly the call, that its own look
      and its own earlier rows call for. */
  lemma {:induction false} PassPerCitation(
    rows: seq<Row>, calls: seq<int>, cs: seq<Citation>, looks: seq<Look>, since: Option<Time>, k: nat)
    requires |cs| == |looks| && AreDistinct(cs) && k < |cs|
    ensures var o := Pass(rows, calls, cs, looks, since);
            && OwnRows(o.rows, cs[k]) == OwnRows(rows, cs[k]) + Gain(rows, cs, looks, since, k)
            && CallsFor(o.calls, cs[k].id)
               == CallsFor(calls, cs[k].id) + (if Asks(rows, cs, looks, since, k) then 1 else 0)
    decreases |cs|
  {
    var deed := DeedFor(rows, cs[0], looks[0], since);
    hide DeedFor, RowsOf, CallsFor, Written, Paid;
    if looks[0].weather == Fine && deed != Ask(None) {
      if k == 0 {
        FirstOfPass(rows, calls, cs, looks, since);
      } else {
        CallsForOneMore(calls, deed, cs[0], cs[k].id);
        LaterInPass(rows, cs, looks, since, k);
        PassPerCitation(rows + Written(deed), calls + Paid(cs[0], deed), cs[1..], looks[1..], since, k - 1);
      }
    } else {
      StopOfPass(rows, calls, cs, looks, since, k);
    }
  }

  lemma StopOfPass(
    rows: seq<Row>, calls: seq<int>, cs: seq<Citation>, looks: seq<Look>, since: Option<Time>, k: nat)
    requires |cs| == |looks| && AreDistinct(cs) && k < |cs|
    requires looks[0].weather != Fine || DeedFor(rows, cs[0], looks[0], since) == Ask(None)
    ensures var o := Pass(rows, calls, cs, looks, since);
            && OwnRows(o.rows, cs[k]) == OwnRows(rows, cs[k]) + Gain(rows, cs, looks, since, k)
            && CallsFor(o.calls, cs[k].id)
               == CallsFor(calls, cs[k].id) + (if Asks(rows, cs, looks, since, k) then 1 else 0)
  {
    CallsForOneMore(calls, DeedFor(rows, cs[0], looks[0], since), cs[0], cs[k].id);
    hide DeedFor, RowsOf, CallsFor, Written;
    assert Reach(rows, cs, looks, since) == 0;
    assert OwnRows(rows, cs[k]) + [] == OwnRows(rows, cs[k]);
  }

  lemma OwnRowIsSeen(rows: seq<Row>, c: Citation, l: Look, since: Option<Time>)
    ensures var w := Written(DeedFor(rows, c, l, since)); OwnRows(rows + w, c) == OwnRows(rows, c) + w
  {
    hide DeedFor, Written, RowsOf;
    WrittenIsOwn(rows, c, l, since, Llm, c.id);
    RowsOfAppends(rows, Written(DeedFor(rows, c, l, since)), Llm, c.id);
  }

  lemma PassGoesOn(rows: seq<Row>, calls: seq<int>, cs: seq<Citation>, looks: seq<Look>, since: Option<Time>)
    requires |cs| == |looks| && cs != []
    requires looks[0].weather == Fine && DeedFor(rows, cs[0], looks[0], since) != Ask(None)
    ensures var deed := DeedFor(rows, cs[0], looks[0], since);
            Pass(rows, calls, cs, looks, since)
            == Pass(rows + Written(deed), calls + Paid(cs[0], deed), cs[1..], looks[1..], since)
  {
    hide DeedFor, Written, Paid;
  }

  lemma FirstOfPass(rows: seq<Row>, calls: seq<int>, cs: seq<Citation>, looks: seq<Look>, since: Option<Time>)
    requires |cs| == |looks| && AreDistinct(cs) && cs != []
    requires looks[0].weather == Fine && DeedFor(rows, cs[0], looks[0], since) != Ask(None)
    ensures var o := Pass(rows, calls, cs, looks, since);
            var deed := DeedFor(rows, cs[0], looks[0], since);
            && OwnRows(o.rows, cs[0]) == OwnRows(rows, cs[0]) + Written(deed)
            && CallsFor(o.calls, cs[0].id) == CallsFor(calls, cs[0].id) + (if deed.Ask? then 1 else 0)
  {
    hide DeedFor, Written, RowsOf, CallsFor, Paid, Pass;
    var deed := DeedFor(rows, cs[0], looks[0], since);
    CallsForOneMore(calls, deed, cs[0], cs[0].id);
    OwnRowIsSeen(rows, cs[0], looks[0], since);
    PassGoesOn(rows, calls, cs, looks, since);
    PassLeavesOthers(rows + Written(deed), calls + Paid(cs[0], deed), cs[1..], looks[1..], since, Llm, cs[0].id);
  }

  lemma LaterInPass(rows: seq<Row>, cs: seq<Citation>, looks: seq<Look>, since: Option<Time>, k: nat)
    requires |cs| == |looks| && AreDistinct(cs) && 1 <= k < |cs|
    requires looks[0].weather == Fine && DeedFor(rows, cs[0], looks[0], since) != Ask(None)
    ensures var more := rows + Written(DeedFor(rows, cs[0], looks[0], since));
            && OwnRows(more, cs[k]) == OwnRows(rows, cs[k])
            && Gain(more, cs[1..], looks[1..], since, k - 1) == Gain(rows, cs, looks, since, k)
            && Asks(more, cs[1..], looks[1..], since, k - 1) == Asks(rows, cs, looks, since, k)
  {
    hide DeedFor, Written, RowsOf;
    OthersRowIsNotSeen(rows, cs[k], looks[k], cs[0], looks[0], since);
    ReachIgnoresOthers(rows, cs[1..], looks[1..], cs[0], looks[0], since);
  }

  lemma {:induction false} PassFinishes(
    rows: seq<Row>, calls: seq<int>, cs: seq<Citation>, looks: seq<Look>, since: Option<Time>)
    requires |cs| == |looks| && AreDistinct(cs)
    ensures Pass(rows, calls, cs, looks, since).ending == Finished <==> Reach(rows, cs, looks, since) == |cs|
    decreases |cs|
  {
    hide DeedFor, Written, Paid;
    if cs != [] && looks[0].weather == Fine {
      var deed := DeedFor(rows, cs[0], looks[0], since);
      if deed != Ask(None) {
        ReachIgnoresOthers(rows, cs[1..], looks[1..], cs[0], looks[0], since);
        PassFinishes(rows + Written(deed), calls + Paid(cs[0], deed), cs[1..], looks[1..], since);
      }
    }
  }

  // ----- the passes of one job -----

  /** One attempt of a job: the rows and the calls that other work added since the last one, the citations
      in the order its query returned them, and what the pass met at each. */
  datatype Attempt = Attempt(others: seq<Row>, otherCalls: seq<int>, citations: seq<Citation>, looks: seq<Look>)

  predicate LooksFit(attempts: seq<Attempt>) {
    forall a :: 0 <= a < |attempts| ==> |attempts[a].looks| == |attempts[a].citations|
  }

  function Last(attempts: seq<Attempt>): Attempt
    requires attempts != []
  {
    attempts[|attempts| - 1]
  }

  /** `since` is only passed from the second attempt on. */
  function SinceOf(created: Time, attempts: seq<Attempt>): Option<Time> {
    if |attempts| == 1 then None else Some(created)
  }

  /** What the last of the attempts finds. */
  function Before(rows: seq<Row>, created: Time, attempts: seq<Attempt>): Outcome
    requires LooksFit(attempts) && attempts != []
    decreases |attempts|, 0
  {
    var was := AfterJob(rows, created, attempts[..|attempts| - 1]);
    var a := Last(attempts);
    Outcome(was.rows + a.others, was.calls + a.otherCalls, was.ending)
  }

  /** What the last of the attempts leaves. */
  function AfterJob(rows: seq<Row>, created: Time, attempts: seq<Attempt>): Outcome
    requires LooksFit(attempts)
    decreases |attempts|, 1
  {
    if attempts == [] then Outcome(rows, [], OutOfTime)
    else
      var before := Before(rows, created, attempts);
      Pass(before.rows, before.calls, Last(attempts).citations, Last(attempts).looks, SinceOf(created, attempts))
  }

  /** What was appended to `before`. */
  function Taken<T(==)>(after: seq<T>, before: seq<T>): seq<T> {
    if before <= after then after[|before|..] else []
  }

  /** The rows that the attempts themselves appended for a citation. */
  function Wrote(rows: seq<Row>, created: Time, attempts: seq<Attempt>, c: Citation): seq<Row>
    requires LooksFit(attempts)
    decreases |attempts|
  {
    if attempts == [] then []
    else
      Wrote(rows, created, attempts[..|attempts| - 1], c)
      + OwnRows(Taken(AfterJob(rows, created, attempts).rows, Before(rows, created, attempts).rows), c)
  }

  /** The judge calls that the attempts themselves made about a citation. */
  function Bill(rows: seq<Row>, created: Time, attempts: seq<Attempt>, c: Citation): nat
    requires LooksFit(attempts)
    decreases |attempts|
  {
    if attempts == [] then 0
    else
      Bill(rows, created, attempts[..|attempts| - 1], c)
      + CallsFor(Taken(AfterJob(rows, created, attempts).calls, Before(rows, created, attempts).calls), c.id)
  }

  /** Every attempt goes over the same citations, in whatever order, and the clock does not run backwards.
      Other work may judge the same citations meanwhile. */
  ghost predicate IsJob(cs: seq<Citation>, created: Time, attempts: seq<Attempt>) {
    LooksFit(attempts) && forall a :: 0 <= a < |attempts| ==> IsAttempt(cs, created, attempts[a])
  }

  ghost predicate IsAttempt(cs: seq<Citation>, created: Time, a: Attempt) {
    && AreDistinct(a.citations) && (forall c :: c in a.citations <==> c in cs)
    && (forall k :: 0 <= k < |a.looks| ==> a.looks[k].at >= created)
  }

  lemma FrontIsJob(cs: seq<Citation>, created: Time, attempts: seq<Attempt>)
    requires IsJob(cs, created, attempts) && attempts != []
    ensures IsJob(cs, created, attempts[..|attempts| - 1])
    ensures IsAttempt(cs, created, Last(attempts))
  {
  }

  /** Where the last attempt comes to a citation. */
  lemma PlaceOf(cs: seq<Citation>, created: Time, attempts: seq<Attempt>, c: Citation) returns (k: nat)
    requires IsJob(cs, created, attempts) && attempts != [] && c in cs
    ensures k < |Last(attempts).citations| == |Last(attempts).looks| && Last(attempts).citations[k] == c
    ensures AreDistinct(Last(attempts).citations)
  {
    FrontIsJob(cs, created, attempts);
    k :| 0 <= k < |Last(attempts).citations| && Last(attempts).citations[k] == c;
  }

  /** A citation with a row since the given time keeps it. */
  lemma SinceStays(rows: seq<Row>, more: seq<Row>, id: int, since: Time)
    requires rows <= more && HasSince(rows, Llm, id, since)
    ensures HasSince(more, Llm, id, since)
  {
    var k :| 0 <= k < |rows| && IsOf(rows[k], Llm, id) && rows[k].createdAt >= since;
    assert more[k] == rows[k];
  }

  lemma TakenIsGain(before: seq<Row>, after: seq<Row>, c: Citation, w: seq<Row>)
    requires before <= after && OwnRows(after, c) == OwnRows(before, c) + w
    ensures OwnRows(Taken(after, before), c) == w
  {
    assert before + Taken(after, before) == after;
    RowsOfAppends(before, Taken(after, before), Llm, c.id);
    var x, y := OwnRows(before, c), OwnRows(Taken(after, before), c);
    assert x + y == x + w;
    assert y == (x + y)[|x|..] && w == (x + w)[|x|..];
  }

  lemma TakenCalls(before: seq<int>, after: seq<int>, id: int)
    requires before <= after
    ensures CallsFor(Taken(after, before), id) == CallsFor(after, id) - CallsFor(before, id)
  {
    assert before + Taken(after, before) == after;
    CallsForAppends(before, Taken(after, before), id);
  }

  lemma {:induction false} CallsForAppends(calls: seq<int>, more: seq<int>, id: int)
    ensures CallsFor(calls + more, id) == CallsFor(calls, id) + CallsFor(more, id)
  {
    if more == [] {
      assert calls + more == calls;
    } else {
      var front := more[..|more| - 1];
      CallsForAppends(calls, front, id);
      assert (calls + more)[..|calls + more| - 1] == calls + front;
    }
  }

  lemma WrittenIsRecent(rows: seq<Row>, c: Citation, l: Look, since: Option<Time>, created: Time)
    requires l.at >= created
    ensures var w := Written(DeedFor(rows, c, l, since)); |w| <= 1 && Since(w, created) == w
  {
    WorkIsOwn(c, l);
    var w := Written(DeedFor(rows, c, l, since));
    if w != [] {
      assert w[..0] == [] && Since(w[..0], created) == [];
    }
  }

  /** What the last attempt does about one citation: one that has a row since the job began is skipped, and
      one it writes a row for has one. */
  lemma AttemptPerCitation(rows: seq<Row>, cs: seq<Citation>, created: Time, attempts: seq<Attempt>, k: nat)
    requires IsJob(cs, created, attempts) && attempts != [] && k < |Last(attempts).citations|
    ensures var before, after := Before(rows, created, attempts), AfterJob(rows, created, attempts);
            var own, looks, since := Last(attempts).citations, Last(attempts).looks, SinceOf(created, attempts);
            var w := Gain(before.rows, own, looks, since, k);
            && before.rows <= after.rows && OwnRows(after.rows, own[k]) == OwnRows(before.rows, own[k]) + w
            && OwnRows(Taken(after.rows, before.rows), own[k]) == w
            && CallsFor(Taken(after.calls, before.calls), own[k].id)
               == (if Asks(before.rows, own, looks, since, k) then 1 else 0)
            && |w| <= 1 && Since(w, created) == w
            && (since.Some? && HasSince(before.rows, Llm, own[k].id, created) ==>
                  w == [] && !Asks(before.rows, own, looks, since, k))
            && (w != [] ==> HasSince(after.rows, Llm, own[k].id, created))
  {
    var own, looks, since := Last(attempts).citations, Last(attempts).looks, SinceOf(created, attempts);
    var before, after := Before(rows, created, attempts), AfterJob(rows, created, attempts);
    var c := own[k];
    var w := Gain(before.rows, own, looks, since, k);
    FrontIsJob(cs, created, attempts);
    PassAppends(before.rows, before.calls, own, looks, since);
    PassPerCitation(before.rows, before.calls, own, looks, since, k);
    TakenIsGain(before.rows, after.rows, c, w);
    TakenCalls(before.calls, after.calls, c.id);
    WrittenIsRecent(before.rows, c, looks[k], since, created);
    SinceAppends(OwnRows(before.rows, c), w, created);
    HasSinceIff(after.rows, Llm, c.id, created);
    hide Pass, RowsOf, Since, HasSince, Reach, WorkFor, CallsFor, IsJob, IsAttempt, Taken;
  }

  /** Tables and bills only grow, within an attempt and between two. */
  lemma AttemptExtends(rows: seq<Row>, created: Time, attempts: seq<Attempt>)
    requires LooksFit(attempts) && attempts != []
    ensures AfterJob(rows, created, attempts[..|attempts| - 1]).rows <= Before(rows, created, attempts).rows
    ensures Before(rows, created, attempts).rows <= AfterJob(rows, created, attempts).rows
  {
    var before := Before(rows, created, attempts);
    PassAppends(before.rows, before.calls, Last(attempts).citations, Last(attempts).looks, SinceOf(created, attempts));
  }

  /** Over any attempts, and whatever other work adds meanwhile, the job writes at most one row for each
      citation. */
  lemma {:induction false} AtMostOncePerJob(
    rows: seq<Row>, cs: seq<Citation>, created: Time, attempts: seq<Attempt>, c: Citation)
    requires IsJob(cs, created, attempts) && c in cs
    ensures |Wrote(rows, created, attempts, c)| <= 1
    ensures Wrote(rows, created, attempts, c) != [] ==>
              HasSince(AfterJob(rows, created, attempts).rows, Llm, c.id, created)
    decreases |attempts|
  {
    if attempts != [] {
      var front := attempts[..|attempts| - 1];
      FrontIsJob(cs, created, attempts);
      AttemptExtends(rows, created, attempts);
      var k := PlaceOf(cs, created, attempts, c);
      hide IsJob, IsAttempt, Pass, Gain, Asks, Taken, RowsOf, HasSince, CallsFor;
      AtMostOncePerJob(rows, cs, created, front, c);
      AttemptPerCitation(rows, cs, created, attempts, k);
      if HasSince(AfterJob(rows, created, front).rows, Llm, c.id, created) {
        var before, after := Before(rows, created, attempts).rows, AfterJob(rows, created, attempts).rows;
        SinceStays(AfterJob(rows, created, front).rows, before, c.id, created);
        SinceStays(before, after, c.id, created);
      }
      if |attempts| == 1 { assert Wrote(rows, created, attempts[..0], c) == []; }
    }
  }

  /** No verdict is lost or altered: every table stays the beginning of the next one. */
  lemma {:induction false} JobOnlyAppends(rows: seq<Row>, created: Time, attempts: seq<Attempt>, n: nat)
    requires LooksFit(attempts) && n <= |attempts|
    ensures AfterJob(rows, created, attempts[..n]).rows <= AfterJob(rows, created, attempts).rows
    decreases |attempts|
  {
    if n == |attempts| {
      assert attempts[..n] == attempts;
    } else {
      JobOnlyAppends(rows, created, attempts[..|attempts| - 1], n);
      assert attempts[..|attempts| - 1][..n] == attempts[..n];
      AttemptExtends(rows, created, attempts);
    }
  }

  /** Once a verdict on a citation is committed after an attempt, the job's own or anybody's since it began,
      no later attempt of the job asks the judge about it or writes another. */
  lemma {:induction false} NeverPaidAgain(
    rows: seq<Row>, cs: seq<Citation>, created: Time, attempts: seq<Attempt>, n: nat, c: Citation)
    requires IsJob(cs, created, attempts) && 1 <= n <= |attempts| && c in cs
    requires HasSince(AfterJob(rows, created, attempts[..n]).rows, Llm, c.id, created)
    ensures Bill(rows, created, attempts, c) == Bill(rows, created, attempts[..n], c)
    ensures Wrote(rows, created, attempts, c) == Wrote(rows, created, attempts[..n], c)
    ensures HasSince(AfterJob(rows, created, attempts).rows, Llm, c.id, created)
    decreases |attempts|
  {
    hide Pass, CallsFor, HasSince, RowsOf, Taken, Gain, Asks;
    if n == |attempts| {
      assert attempts[..n] == attempts;
    } else {
      var front := attempts[..|attempts| - 1];
      FrontIsJob(cs, created, attempts);
      AttemptExtends(rows, created, attempts);
      var k := PlaceOf(cs, created, attempts, c);
      assert front[..n] == attempts[..n];
      NeverPaidAgain(rows, cs, created, front, n, c);
      var before, after := Before(rows, created, attempts).rows, AfterJob(rows, created, attempts).rows;
      SinceStays(AfterJob(rows, created, front).rows, before, c.id, created);
      SinceStays(before, after, c.id, created);
      AttemptPerCitation(rows, cs, created, attempts, k);
      assert Wrote(rows, created, front, c) + [] == Wrote(rows, created, front, c);
    }
  }

  /** An attempt that finishes leaves every citation it has work for with a row written since the job began,
      by the job or by other work. */
  lemma FinishedMeansJudged(rows: seq<Row>, cs: seq<Citation>, created: Time, attempts: seq<Attempt>, k: nat)
    requires IsJob(cs, created, attempts) && attempts != [] && k < |Last(attempts).citations|
    requires AfterJob(rows, created, attempts).ending == Finished
    requires !WorkFor(Last(attempts).citations[k], Last(attempts).looks[k]).Skip?
    ensures HasSince(AfterJob(rows, created, attempts).rows, Llm, Last(attempts).citations[k].id, created)
    ensures !IsDone(Before(rows, created, attempts).rows, Last(attempts).citations[k], SinceOf(created, attempts)) ==>
              |Wrote(rows, created, attempts, Last(attempts).citations[k])| == 1
  {
    var own, looks, since := Last(attempts).citations, Last(attempts).looks, SinceOf(created, attempts);
    var before, after := Before(rows, created, attempts), AfterJob(rows, created, attempts);
    FrontIsJob(cs, created, attempts);
    assert own[k] in cs;
    AtMostOncePerJob(rows, cs, created, attempts, own[k]);
    AttemptPerCitation(rows, cs, created, attempts, k);
    PassFinishes(before.rows, before.calls, own, looks, since);
    AnsweredInReach(before.rows, own, looks, since, k);
    hide Pass, WorkFor, RowsOf, Since, HasSince, IsJob, IsAttempt, Reach, Taken, CallsFor;
    if IsDone(before.rows, own[k], since) {
      SinceStays(before.rows, after.rows, own[k].id, created);
    } else {
      assert Gain(before.rows, own, looks, since, k) != [];
    }
  }

  lemma {:induction false} AnsweredInReach(rows: seq<Row>, cs: seq<Citation>, looks: seq<Look>, since: Option<Time>, k: nat)
    requires |cs| == |looks| && k < Reach(rows, cs, looks, since)
    ensures DeedFor(rows, cs[k], looks[k], since) != Ask(None)
    decreases |cs|
  {
    hide DeedFor;
    if k > 0 { AnsweredInReach(rows, cs[1..], looks[1..], since, k - 1); }
  }

  /** The rows of a citation since the job began. */
  function JobRows(rows: seq<Row>, c: Citation, created: Time): seq<Row> {
    Since(OwnRows(rows, c), created)
  }

  /** Nobody else has judged the citations since the job began. */
  ghost predicate IsAlone(rows: seq<Row>, cs: seq<Citation>, created: Time, attempts: seq<Attempt>) {
    && (forall c :: c in cs ==> JobRows(rows, c, created) == [])
    && (forall a, r, c :: 0 <= a < |attempts| && r in attempts[a].others && c in cs ==> !IsOf(r, Llm, c.id))
  }

  lemma AloneFront(rows: seq<Row>, cs: seq<Citation>, created: Time, attempts: seq<Attempt>)
    requires IsAlone(rows, cs, created, attempts) && attempts != []
    ensures IsAlone(rows, cs, created, attempts[..|attempts| - 1])
    ensures forall r, c :: r in Last(attempts).others && c in cs ==> !IsOf(r, Llm, c.id)
  {
    hide JobRows;
  }

  lemma OthersAddNothing(was: seq<Row>, others: seq<Row>, c: Citation)
    requires forall r :: r in others ==> !IsOf(r, Llm, c.id)
    ensures OwnRows(was + others, c) == OwnRows(was, c)
  {
    RowsOfAppends(was, others, Llm, c.id);
    NoneOfOthers(others, Llm, c.id);
    assert OwnRows(was, c) + [] == OwnRows(was, c);
  }

  /** Alone, the rows since the job began are those it wrote. */
  lemma {:induction false} AloneMeansWrote(
    rows: seq<Row>, cs: seq<Citation>, created: Time, attempts: seq<Attempt>, c: Citation)
    requires IsJob(cs, created, attempts) && IsAlone(rows, cs, created, attempts) && c in cs
    ensures JobRows(AfterJob(rows, created, attempts).rows, c, created) == Wrote(rows, created, attempts, c)
    decreases |attempts|
  {
    if attempts != [] {
      var front := attempts[..|attempts| - 1];
      var before := Before(rows, created, attempts).rows;
      FrontIsJob(cs, created, attempts);
      AloneFront(rows, cs, created, attempts);
      var k := PlaceOf(cs, created, attempts, c);
      OthersAddNothing(AfterJob(rows, created, front).rows, Last(attempts).others, c);
      hide IsJob, IsAttempt, IsAlone, Pass, Gain, Taken, RowsOf, Since, HasSince, Asks, CallsFor;
      AloneMeansWrote(rows, cs, created, front, c);
      AttemptPerCitation(rows, cs, created, attempts, k);
      SinceAppends(OwnRows(before, c),
                   Gain(before, Last(attempts).citations, Last(attempts).looks, SinceOf(created, attempts), k), created);
    }
  }

  /** If nobody else judges them meanwhile, each citation with work is left with exactly one row. */
  lemma FinishedAloneMeansOnce(rows: seq<Row>, cs: seq<Citation>, created: Time, attempts: seq<Attempt>, k: nat)
    requires IsJob(cs, created, attempts) && IsAlone(rows, cs, created, attempts)
    requires attempts != [] && k < |Last(attempts).citations|
    requires AfterJob(rows, created, attempts).ending == Finished
    requires !WorkFor(Last(attempts).citations[k], Last(attempts).looks[k]).Skip?
    ensures |JobRows(AfterJob(rows, created, attempts).rows, Last(attempts).citations[k], created)| == 1
  {
    var c := Last(attempts).citations[k];
    FrontIsJob(cs, created, attempts);
    assert c in cs;
    FinishedMeansJudged(rows, cs, created, attempts, k);
    AtMostOncePerJob(rows, cs, created, attempts, c);
    AloneMeansWrote(rows, cs, created, attempts, c);
    HasSinceIff(AfterJob(rows, created, attempts).rows, Llm, c.id, created);
    hide AfterJob, Wrote, RowsOf, Since, HasSince, IsJob, IsAttempt, IsAlone;
  }

  // ----- the bill -----

  /** The attempt asks about this very citation and breaks off before the commit. */
  predicate IsLostOn(rows: seq<Row>, cs: seq<Citation>, looks: seq<Look>, since: Option<Time>, c: Citation)
    requires |cs| == |looks|
  {
    var n := Reach(rows, cs, looks, since);
    n < |cs| && cs[n] == c && Asks(rows, cs, looks, since, n)
  }

  /** How many attempts asked about the citation and broke off before the commit. */
  function LostCalls(rows: seq<Row>, created: Time, attempts: seq<Attempt>, c: Citation): nat
    requires LooksFit(attempts)
    decreases |attempts|
  {
    if attempts == [] then 0
    else
      var before := Before(rows, created, attempts);
      LostCalls(rows, created, attempts[..|attempts| - 1], c)
      + if IsLostOn(before.rows, Last(attempts).citations, Last(attempts).looks, SinceOf(created, attempts), c) then 1
        else 0
  }

  /** A verdict that came from the judge. */
  function BoughtRows(rows: seq<Row>): nat {
    if rows == [] then 0 else BoughtRows(rows[..|rows| - 1]) + if rows[|rows| - 1].opinion.Some? then 1 else 0
  }

  lemma {:induction false} BoughtAppends(a: seq<Row>, b: seq<Row>)
    ensures BoughtRows(a + b) == BoughtRows(a) + BoughtRows(b)
  {
    if b == [] {
      assert a + b == a;
    } else {
      BoughtAppends(a, b[..|b| - 1]);
      assert (a + b)[..|a + b| - 1] == a + b[..|b| - 1];
    }
  }

  /** A call leads to a verdict unless the attempt breaks off at it. */
  lemma CallOrLoss(rows: seq<Row>, cs: seq<Citation>, looks: seq<Look>, since: Option<Time>, k: nat)
    requires |cs| == |looks| && AreDistinct(cs) && k < |cs|
    ensures (if Asks(rows, cs, looks, since, k) then 1 else 0)
            == BoughtRows(Gain(rows, cs, looks, since, k))
               + (if IsLostOn(rows, cs, looks, since, cs[k]) then 1 else 0)
  {
    var w := Written(DeedFor(rows, cs[k], looks[k], since));
    var n := Reach(rows, cs, looks, since);
    assert n < |cs| && cs[n] == cs[k] ==> n == k;
    if k < n {
      AnsweredInReach(rows, cs, looks, since, k);
      FineInReach(rows, cs, looks, since, k);
    }
    if w != [] { assert w[..0] == []; }
    hide Reach, IsDone;
  }

  lemma {:induction false} FineInReach(rows: seq<Row>, cs: seq<Citation>, looks: seq<Look>, since: Option<Time>, k: nat)
    requires |cs| == |looks| && k < Reach(rows, cs, looks, since)
    ensures looks[k].weather == Fine
    decreases |cs|
  {
    hide DeedFor;
    if k > 0 { FineInReach(rows, cs[1..], looks[1..], since, k - 1); }
  }

  /** Each citation is paid for at most once, plus once for every attempt that broke off between asking
      about that very citation and writing its verdict down. */
  lemma {:induction false} TheBill(rows: seq<Row>, cs: seq<Citation>, created: Time, attempts: seq<Attempt>, c: Citation)
    requires IsJob(cs, created, attempts) && c in cs
    ensures Bill(rows, created, attempts, c)
            == BoughtRows(Wrote(rows, created, attempts, c)) + LostCalls(rows, created, attempts, c)
    ensures BoughtRows(Wrote(rows, created, attempts, c)) <= 1
    decreases |attempts|
  {
    AtMostOncePerJob(rows, cs, created, attempts, c);
    AtMostOneBought(Wrote(rows, created, attempts, c));
    if attempts != [] {
      var front := attempts[..|attempts| - 1];
      var before := Before(rows, created, attempts);
      var own, looks, since := Last(attempts).citations, Last(attempts).looks, SinceOf(created, attempts);
      var k := PlaceOf(cs, created, attempts, c);
      FrontIsJob(cs, created, attempts);
      AttemptPerCitation(rows, cs, created, attempts, k);
      hide IsJob, IsAttempt, Pass, CallsFor, Reach, Gain, Asks, BoughtRows, IsLostOn, Taken, RowsOf, HasSince;
      TheBill(rows, cs, created, front, c);
      CallOrLoss(before.rows, own, looks, since, k);
      BoughtAppends(Wrote(rows, created, front, c), Gain(before.rows, own, looks, since, k));
    }
  }

  lemma AtMostOneBought(rows: seq<Row>)
    requires |rows| <= 1
    ensures BoughtRows(rows) <= 1
  {
    if rows != [] { assert rows[..0] == []; }
  }
}
