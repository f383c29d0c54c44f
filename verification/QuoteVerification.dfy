/** app/services/citation_verification.py `verify_citations_by_quote`: one pass of the literal-quote
    check, and the passes that one job makes of it. */
module QuoteVerification {
  import opened Options
  import opened Verifications

  const QUOTE_PROVIDERS := {"anthropic", "perplexity"}
  const PAGE_GONE_REASONS := {"http_404", "http_410"}

  /** `quoteText` is what `_cited_text` finds for the citation, `claim` what `derive_claim` finds. */
  datatype Citation = Citation(id: int, sourceUrl: Option<string>, quoteText: Option<string>, claim: Option<string>)

  datatype Document = Document(id: int, errorReason: Option<string>)

  datatype MatchVerdict = Exact | Normalized | Partial | Absent

  datatype QuoteMatch = QuoteMatch(verdict: MatchVerdict, found: Match)

  /** What archive.org does when it is asked for a snapshot and for the snapshot's content. */
  datatype Archive =
    | NotReachable
    | NoSnapshot
    | ContentNotReachable
    | NoContent
    | Content(document: int, matched: Option<QuoteMatch>)

  datatype Weather = Fine | Late | Raises

  /** What the pass meets when it comes to a citation: the clock past the deadline or an exception, the
      newest document of its URL, how its quote matches, and the archive. */
  datatype Look = Look(weather: Weather, document: Option<Document>, matched: Option<QuoteMatch>, archive: Archive, at: Time)

  datatype Settings = Settings(hasClient: bool, since: Option<Time>, finalAttempt: bool)

  datatype Ending = Finished | OutOfTime | Raised

  function VerdictOf(v: MatchVerdict): Verdict {
    match v
    case Exact => VerifiedExact
    case Normalized => VerifiedNormalized
    case Partial => PartiallyFound
    case Absent => NotFound
  }

  /** `_try_archive_fallback`: an error when archive.org could not be asked. */
  function ArchiveFallback(a: Archive): Result<Option<(int, QuoteMatch)>, ()> {
    match a
    case NotReachable => Err(())
    case ContentNotReachable => Err(())
    case NoSnapshot => Ok(None)
    case NoContent => Ok(None)
    case Content(document, matched) =>
      Ok(if matched.Some? && (matched.value.verdict == Exact || matched.value.verdict == Normalized)
         then Some((document, matched.value)) else None)
  }

  function QuoteRow(c: Citation, document: int, verdict: Verdict, reason: Option<string>, m: Option<QuoteMatch>, at: Time): Row {
    Row(c.id, Quote, document, c.claim, verdict, reason, if m.Some? then Some(m.value.found) else None, None, at)
  }

  predicate IsText(s: Option<string>) {
    s.Some? && s.value != ""
  }

  /** The pass has something to check for the citation. */
  predicate IsCheckable(c: Citation, l: Look) {
    IsText(c.sourceUrl) && IsText(c.quoteText) && l.document.Some?
  }

  predicate AsksArchive(l: Look, hasClient: bool)
    requires l.document.Some?
  {
    hasClient && if l.document.value.errorReason.Some? then l.document.value.errorReason.value in PAGE_GONE_REASONS
                 else l.matched.Some? && l.matched.value.verdict == Absent
  }

  /** The verdict the live document alone gives. */
  function LiveRow(c: Citation, l: Look): Row
    requires l.document.Some?
  {
    var d := l.document.value;
    if d.errorReason.Some? then QuoteRow(c, d.id, Unverifiable, d.errorReason, None, l.at)
    else if l.matched.None? then QuoteRow(c, d.id, Unverifiable, Some("no_checkable_text"), None, l.at)
    else QuoteRow(c, d.id, VerdictOf(l.matched.value.verdict), None, l.matched, l.at)
  }

  /** The row a checkable citation gets, or none when it is left for a retry. */
  function RowFor(c: Citation, l: Look, hasClient: bool, finalAttempt: bool): Option<Row>
    requires l.document.Some?
  {
    var d := l.document.value;
    if !AsksArchive(l, hasClient) then Some(LiveRow(c, l))
    else
      match ArchiveFallback(l.archive)
      case Err(_) =>
        if finalAttempt then Some(QuoteRow(c, d.id, Unverifiable, Some("archive_unavailable"), None, l.at)) else None
      case Ok(None) => Some(LiveRow(c, l))
      case Ok(Some(archived)) =>
        Some(QuoteRow(c, archived.0, if d.errorReason.Some? then ArchiveOnly else PageChanged, None, Some(archived.1), l.at))
  }

  predicate IsDone(rows: seq<Row>, c: Citation, since: Option<Time>) {
    since.Some? && HasSince(rows, Quote, c.id, since.value)
  }

  /** What the pass does about one citation, given the rows already there. */
  datatype Deed = Skip | Write(row: Row) | LeaveForRetry

  function DeedFor(rows: seq<Row>, c: Citation, l: Look, s: Settings): Deed {
    if !IsCheckable(c, l) || IsDone(rows, c, s.since) then Skip
    else
      match RowFor(c, l, s.hasClient, s.finalAttempt)
      case Some(row) => Write(row)
      case None => LeaveForRetry
  }

  datatype Outcome = Outcome(rows: seq<Row>, ending: Ending, archiveDeferred: nat)

  /** The whole pass, citation by citation. */
  function Pass(rows: seq<Row>, cs: seq<Citation>, looks: seq<Look>, s: Settings): Outcome
    requires |cs| == |looks|
    decreases |cs|
  {
    if cs == [] then Outcome(rows, Finished, 0)
    else if looks[0].weather == Late then Outcome(rows, OutOfTime, 0)
    else if looks[0].weather == Raises then Outcome(rows, Raised, 0)
    else
      match DeedFor(rows, cs[0], looks[0], s)
      case Skip => Pass(rows, cs[1..], looks[1..], s)
      case Write(row) => Pass(rows + [row], cs[1..], looks[1..], s)
      case LeaveForRetry =>
        var rest := Pass(rows, cs[1..], looks[1..], s);
        rest.(archiveDeferred := rest.archiveDeferred + 1)
  }

  function More(o: Outcome, deferred: nat): Outcome {
    o.(archiveDeferred := o.archiveDeferred + deferred)
  }

  /** `verify_citations_by_quote`. The out-parameters are `QuoteCheckOutcome`; `Raised` stands for an
      exception, or the death of the worker, that ends the pass before the citation's commit. */
  method VerifyCitationsByQuote(
    table: VerificationTable, provider: string, citations: seq<Citation>, looks: seq<Look>, s: Settings)
    returns (ending: Ending, archiveDeferred: nat)
    requires |citations| == |looks|
    modifies table
    ensures provider == "anthropic" || provider == "perplexity" ==>
              Outcome(table.rows, ending, archiveDeferred) == Pass(old(table.rows), citations, looks, s)
    ensures provider != "anthropic" && provider != "perplexity" ==>
              table.rows == old(table.rows) && ending == Finished && archiveDeferred == 0
  {
    archiveDeferred := 0;
    if provider !in QUOTE_PROVIDERS {
      return Finished, 0;
    }
    for i := 0 to |citations|
      invariant Pass(old(table.rows), citations, looks, s)
             == More(Pass(table.rows, citations[i..], looks[i..], s), archiveDeferred)
    {
      var citation, l := citations[i], looks[i];
      assert citations[i..][0] == citation && citations[i..][1..] == citations[i + 1..];
      assert looks[i..][0] == l && looks[i..][1..] == looks[i + 1..];
      if l.weather == Late {
        return OutOfTime, archiveDeferred;
      }
      if l.weather == Raises {
        return Raised, archiveDeferred;
      }
      if !IsText(citation.sourceUrl) || !IsText(citation.quoteText) {
        continue;
      }
      if s.since.Some? && HasSince(table.rows, Quote, citation.id, s.since.value) {
        continue;
      }
      if l.document.None? {
        continue;
      }
      var row := CheckOne(citation, l, s);
      if row.None? {
        archiveDeferred := archiveDeferred + 1;
      } else {
        table.Append(row.value);
      }
    }
    return Finished, archiveDeferred;
  }

  /** The branches of the loop body for one captured citation. */
  method CheckOne(citation: Citation, l: Look, s: Settings) returns (row: Option<Row>)
    requires l.document.Some?
    ensures row == RowFor(citation, l, s.hasClient, s.finalAttempt)
  {
    var document := l.document.value;
    if document.errorReason.Some? {
      var archived: Option<(int, QuoteMatch)> := None;
      if s.hasClient && document.errorReason.value in PAGE_GONE_REASONS {
        var asked := ArchiveFallback(l.archive);
        if asked.Err? {
          return if s.finalAttempt
            then Some(QuoteRow(citation, document.id, Unverifiable, Some("archive_unavailable"), None, l.at)) else None;
        }
        archived := asked.value;
      }
      if archived.Some? {
        return Some(QuoteRow(citation, archived.value.0, ArchiveOnly, None, Some(archived.value.1), l.at));
      }
      return Some(QuoteRow(citation, document.id, Unverifiable, document.errorReason, None, l.at));
    }
    if l.matched.None? {
      return Some(QuoteRow(citation, document.id, Unverifiable, Some("no_checkable_text"), None, l.at));
    }
    if l.matched.value.verdict == Absent && s.hasClient {
      var asked := ArchiveFallback(l.archive);
      if asked.Err? {
        return if s.finalAttempt
          then Some(QuoteRow(citation, document.id, Unverifiable, Some("archive_unavailable"), None, l.at)) else None;
      }
      if asked.value.Some? {
        return Some(QuoteRow(citation, asked.value.value.0, PageChanged, None, Some(asked.value.value.1), l.at));
      }
    }
    return Some(QuoteRow(citation, document.id, VerdictOf(l.matched.value.verdict), None, l.matched, l.at));
  }

  // ----- one pass, seen by one citation -----

  function OwnRows(rows: seq<Row>, c: Citation): seq<Row> {
    RowsOf(rows, Quote, c.id)
  }

  /** How many citations the pass comes to before the deadline or an exception ends it. */
  function Reach(looks: seq<Look>): (n: nat)
    ensures n <= |looks|
  {
    if looks == [] || looks[0].weather != Fine then 0 else 1 + Reach(looks[1..])
  }

  predicate AreDistinct(cs: seq<Citation>) {
    forall i, j :: 0 <= i < j < |cs| ==> cs[i].id != cs[j].id
  }

  function Written(d: Deed): seq<Row> {
    if d.Write? then [d.row] else []
  }

  /** What a pass adds for one citation. */
  function Gain(rows: seq<Row>, cs: seq<Citation>, looks: seq<Look>, s: Settings, k: nat): seq<Row>
    requires |cs| == |looks| && k < |cs|
  {
    if k < Reach(looks) then Written(DeedFor(rows, cs[k], looks[k], s)) else []
  }

  lemma RowForIsOwn(c: Citation, l: Look, hasClient: bool, finalAttempt: bool)
    requires l.document.Some?
    ensures var row := RowFor(c, l, hasClient, finalAttempt);
            && (row.Some? ==> IsOf(row.value, Quote, c.id) && row.value.createdAt == l.at)
            && (finalAttempt ==> row.Some?)
  {
  }

  lemma WrittenIsOwn(rows: seq<Row>, c: Citation, l: Look, s: Settings, kind: CheckKind, id: int)
    ensures var w := Written(DeedFor(rows, c, l, s));
            RowsOf(w, kind, id) == if kind == Quote && id == c.id then w else []
  {
    if l.document.Some? { RowForIsOwn(c, l, s.hasClient, s.finalAttempt); }
    var w := Written(DeedFor(rows, c, l, s));
    if w != [] {
      assert w[..0] == [];
      assert RowsOf(w[..0], kind, id) == [];
    }
  }

  lemma DeedSeesOwnRows(rows: seq<Row>, more: seq<Row>, c: Citation, l: Look, s: Settings)
    requires OwnRows(rows, c) == OwnRows(more, c)
    ensures DeedFor(rows, c, l, s) == DeedFor(more, c, l, s)
  {
    if s.since.Some? {
      HasSinceIff(rows, Quote, c.id, s.since.value);
      HasSinceIff(more, Quote, c.id, s.since.value);
    }
  }

  /** The pass over the rest, after the first citation. */
  lemma PassUnfold(rows: seq<Row>, cs: seq<Citation>, looks: seq<Look>, s: Settings)
    requires |cs| == |looks| && cs != [] && looks[0].weather == Fine
    ensures var first := DeedFor(rows, cs[0], looks[0], s);
            Pass(rows, cs, looks, s)
            == More(Pass(rows + Written(first), cs[1..], looks[1..], s), if first.LeaveForRetry? then 1 else 0)
  {
    assert rows + [] == rows;
  }

  lemma PassStops(rows: seq<Row>, cs: seq<Citation>, looks: seq<Look>, s: Settings)
    requires |cs| == |looks| && cs != [] && looks[0].weather != Fine
    ensures Pass(rows, cs, looks, s).rows == rows
  {
  }

  lemma {:induction false} PassLeavesOthers(
    rows: seq<Row>, cs: seq<Citation>, looks: seq<Look>, s: Settings, kind: CheckKind, id: int)
    requires |cs| == |looks| && (kind != Quote || forall i :: 0 <= i < |cs| ==> cs[i].id != id)
    ensures RowsOf(Pass(rows, cs, looks, s).rows, kind, id) == RowsOf(rows, kind, id)
    decreases |cs|
  {
    if cs != [] && looks[0].weather == Fine {
      PassUnfold(rows, cs, looks, s);
      var w := Written(DeedFor(rows, cs[0], looks[0], s));
      hide Pass, DeedFor, Written, RowsOf;
      PassLeavesOthers(rows + w, cs[1..], looks[1..], s, kind, id);
      RowsOfAppends(rows, w, kind, id);
      WrittenIsOwn(rows, cs[0], looks[0], s, kind, id);
    }
  }

  /** A pass only appends. */
  lemma {:induction false} PassAppends(rows: seq<Row>, cs: seq<Citation>, looks: seq<Look>, s: Settings)
    requires |cs| == |looks|
    ensures rows <= Pass(rows, cs, looks, s).rows
    decreases |cs|
  {
    if cs != [] && looks[0].weather == Fine {
      PassUnfold(rows, cs, looks, s);
      hide Pass, DeedFor, Written;
      PassAppends(rows + Written(DeedFor(rows, cs[0], looks[0], s)), cs[1..], looks[1..], s);
    }
  }

  /** Whatever happens to the other citations, each citation the pass comes to gets exactly the row its
      own look and its own earlier rows call for, and one it does not come to gets nothing. */
  lemma {:induction false} PassPerCitation(rows: seq<Row>, cs: seq<Citation>, looks: seq<Look>, s: Settings, k: nat)
    requires |cs| == |looks| && AreDistinct(cs) && k < |cs|
    ensures OwnRows(Pass(rows, cs, looks, s).rows, cs[k])
            == OwnRows(rows, cs[k]) + Gain(rows, cs, looks, s, k)
    decreases |cs|
  {
    hide Pass, DeedFor, Written, RowsOf;
    var c, l := cs[k], looks[k];
    assert forall rows: seq<Row> :: rows + [] == rows;
    if looks[0].weather == Fine {
      var w := Written(DeedFor(rows, cs[0], looks[0], s));
      PassUnfold(rows, cs, looks, s);
      RowsOfAppends(rows, w, Quote, c.id);
      WrittenIsOwn(rows, cs[0], looks[0], s, Quote, c.id);
      if k == 0 {
        PassLeavesOthers(rows + w, cs[1..], looks[1..], s, Quote, c.id);
      } else {
        PassPerCitation(rows + w, cs[1..], looks[1..], s, k - 1);
        DeedSeesOwnRows(rows, rows + w, c, l, s);
      }
    } else {
      PassStops(rows, cs, looks, s);
    }
  }

  /** How a pass ends, and when it leaves citations for a retry. */
  lemma {:induction false} PassEnds(rows: seq<Row>, cs: seq<Citation>, looks: seq<Look>, s: Settings)
    requires |cs| == |looks| && AreDistinct(cs)
    ensures var o := Pass(rows, cs, looks, s);
            && (o.ending == Finished <==> Reach(looks) == |cs|)
            && (o.archiveDeferred == 0 <==>
                forall k :: 0 <= k < Reach(looks) ==> !DeedFor(rows, cs[k], looks[k], s).LeaveForRetry?)
    decreases |cs|
  {
    if cs != [] && looks[0].weather == Fine {
      var w := Written(DeedFor(rows, cs[0], looks[0], s));
      PassUnfold(rows, cs, looks, s);
      PassEnds(rows + w, cs[1..], looks[1..], s);
      hide Pass, DeedFor, Written, RowsOf, OwnRows;
      forall k | 1 <= k < Reach(looks)
        ensures DeedFor(rows, cs[k], looks[k], s) == DeedFor(rows + w, cs[1..][k - 1], looks[1..][k - 1], s)
      {
        OthersRowIsNotSeen(rows, cs, looks, s, k);
      }
    }
  }

  lemma OthersRowIsNotSeen(rows: seq<Row>, cs: seq<Citation>, looks: seq<Look>, s: Settings, k: nat)
    requires |cs| == |looks| && AreDistinct(cs) && 1 <= k < |cs|
    ensures DeedFor(rows, cs[k], looks[k], s)
            == DeedFor(rows + Written(DeedFor(rows, cs[0], looks[0], s)), cs[k], looks[k], s)
  {
    var w := Written(DeedFor(rows, cs[0], looks[0], s));
    hide DeedFor, Written, RowsOf;
    RowsOfAppends(rows, w, Quote, cs[k].id);
    WrittenIsOwn(rows, cs[0], looks[0], s, Quote, cs[k].id);
    assert OwnRows(rows, cs[k]) + [] == OwnRows(rows, cs[k]);
    DeedSeesOwnRows(rows, rows + w, cs[k], looks[k], s);
  }

  /** The last attempt never leaves a citation for a retry. */
  lemma FinalAttemptNeverDefers(rows: seq<Row>, cs: seq<Citation>, looks: seq<Look>, s: Settings)
    requires |cs| == |looks| && AreDistinct(cs) && s.finalAttempt
    ensures Pass(rows, cs, looks, s).archiveDeferred == 0
  {
    PassEnds(rows, cs, looks, s);
    forall k | 0 <= k < Reach(looks) ensures !DeedFor(rows, cs[k], looks[k], s).LeaveForRetry? {
      if looks[k].document.Some? { RowForIsOwn(cs[k], looks[k], s.hasClient, true); }
    }
  }

  // ----- the passes of one job -----

  /** One attempt of a job: the rows other work added since the last one, the citations in the order its
      query returned them, and what the pass met at each. */
  datatype Attempt = Attempt(
    others: seq<Row>,
    citations: seq<Citation>,
    looks: seq<Look>,
    hasClient: bool,
    finalAttempt: bool)

  function Last(attempts: seq<Attempt>): Attempt
    requires attempts != []
  {
    attempts[|attempts| - 1]
  }

  /** `since` is only passed from the second attempt on. */
  function SinceOf(created: Time, attempts: seq<Attempt>): Option<Time> {
    if |attempts| == 1 then None else Some(created)
  }

  function SettingsOf(created: Time, attempts: seq<Attempt>): Settings
    requires attempts != []
  {
    Settings(Last(attempts).hasClient, SinceOf(created, attempts), Last(attempts).finalAttempt)
  }

  predicate LooksFit(attempts: seq<Attempt>) {
    forall a :: 0 <= a < |attempts| ==> |attempts[a].looks| == |attempts[a].citations|
  }

  /** The table that the last of the attempts finds. */
  function RowsBefore(rows: seq<Row>, created: Time, attempts: seq<Attempt>): seq<Row>
    requires LooksFit(attempts) && attempts != []
    decreases |attempts|, 0
  {
    AfterJob(rows, created, attempts[..|attempts| - 1]).rows + Last(attempts).others
  }

  /** What the last of the attempts leaves. */
  function AfterJob(rows: seq<Row>, created: Time, attempts: seq<Attempt>): Outcome
    requires LooksFit(attempts)
    decreases |attempts|, 1
  {
    if attempts == [] then Outcome(rows, OutOfTime, 0)
    else
      Pass(RowsBefore(rows, created, attempts), Last(attempts).citations, Last(attempts).looks,
           SettingsOf(created, attempts))
  }

  /** The rows that the attempts themselves appended for a citation. */
  function Wrote(rows: seq<Row>, created: Time, attempts: seq<Attempt>, c: Citation): seq<Row>
    requires LooksFit(attempts)
    decreases |attempts|
  {
    if attempts == [] then []
    else
      var before, after := RowsBefore(rows, created, attempts), AfterJob(rows, created, attempts).rows;
      Wrote(rows, created, attempts[..|attempts| - 1], c) + OwnRows(Taken(after, before), c)
  }

  /** What was appended to `before`. */
  function Taken(after: seq<Row>, before: seq<Row>): seq<Row> {
    if before <= after then after[|before|..] else []
  }

  /** Every attempt goes over the same citations, in whatever order, and the clock does not run backwards.
      Other work may check the same citations meanwhile. */
  ghost predicate IsJob(cs: seq<Citation>, created: Time, attempts: seq<Attempt>) {
    LooksFit(attempts) && forall a :: 0 <= a < |attempts| ==> IsAttempt(cs, created, attempts[a])
  }

  ghost predicate IsAttempt(cs: seq<Citation>, created: Time, a: Attempt) {
    && AreDistinct(a.citations) && (forall c :: c in a.citations <==> c in cs)
    && (forall k :: 0 <= k < |a.looks| ==> a.looks[k].at >= created)
  }

  lemma FrontIsJob(cs: seq<Citation>, created: Time, attempts: seq<Attempt>)
    requires IsJob(cs, created, attempts) && attempts != []
    ensures IsJob(cs, created, attempts[..|attempts| - 1])
    ensures IsAttempt(cs, created, Last(attempts))
  {
  }

  /** Where the last attempt comes to a citation. */
  lemma PlaceOf(cs: seq<Citation>, created: Time, attempts: seq<Attempt>, c: Citation) returns (k: nat)
    requires IsJob(cs, created, attempts) && attempts != [] && c in cs
    ensures k < |Last(attempts).citations| == |Last(attempts).looks| && Last(attempts).citations[k] == c
  {
    FrontIsJob(cs, created, attempts);
    k :| 0 <= k < |Last(attempts).citations| && Last(attempts).citations[k] == c;
  }

  /** A citation with a row since the given time keeps it. */
  lemma SinceStays(rows: seq<Row>, more: seq<Row>, kind: CheckKind, id: int, since: Time)
    requires rows <= more && HasSince(rows, kind, id, since)
    ensures HasSince(more, kind, id, since)
  {
    var k :| 0 <= k < |rows| && IsOf(rows[k], kind, id) && rows[k].createdAt >= since;
    assert more[k] == rows[k];
  }

  lemma TakenIsGain(before: seq<Row>, after: seq<Row>, c: Citation, w: seq<Row>)
    requires before <= after && OwnRows(after, c) == OwnRows(before, c) + w
    ensures OwnRows(Taken(after, before), c) == w
  {
    assert before + Taken(after, before) == after;
    RowsOfAppends(before, Taken(after, before), Quote, c.id);
    var x, y := OwnRows(before, c), OwnRows(Taken(after, before), c);
    assert x + y == x + w;
    assert y == (x + y)[|x|..] && w == (x + w)[|x|..];
  }

  /** What the last attempt does about one citation: one that has a row since the job began is skipped, and
      one it writes a row for has one. */
  lemma AttemptPerCitation(rows: seq<Row>, cs: seq<Citation>, created: Time, attempts: seq<Attempt>, k: nat)
    requires IsJob(cs, created, attempts) && attempts != [] && k < |Last(attempts).citations|
    ensures var before, after := RowsBefore(rows, created, attempts), AfterJob(rows, created, attempts).rows;
            var a := Last(attempts);
            var c := a.citations[k];
            var w := Gain(before, a.citations, a.looks, SettingsOf(created, attempts), k);
            && before <= after && OwnRows(after, c) == OwnRows(before, c) + w && OwnRows(Taken(after, before), c) == w
            && |w| <= 1 && Since(w, created) == w
            && (SinceOf(created, attempts).Some? && HasSince(before, Quote, c.id, created) ==> w == [])
            && (w != [] ==> HasSince(after, Quote, c.id, created))
  {
    var a := Last(attempts);
    var c := a.citations[k];
    var before, after := RowsBefore(rows, created, attempts), AfterJob(rows, created, attempts).rows;
    var st := SettingsOf(created, attempts);
    var w := Gain(before, a.citations, a.looks, st, k);
    FrontIsJob(cs, created, attempts);
    PassAppends(before, a.citations, a.looks, st);
    PassPerCitation(before, a.citations, a.looks, st, k);
    TakenIsGain(before, after, c, w);
    WrittenIsRecent(before, c, a.looks[k], st, created);
    SinceAppends(OwnRows(before, c), w, created);
    HasSinceIff(after, Quote, c.id, created);
    hide Pass, RowFor, RowsOf, Since, HasSince, Reach, IsJob, IsAttempt;
  }

  lemma WrittenIsRecent(rows: seq<Row>, c: Citation, l: Look, s: Settings, created: Time)
    requires l.at >= created
    ensures var w := Written(DeedFor(rows, c, l, s)); |w| <= 1 && Since(w, created) == w
  {
    if l.document.Some? { RowForIsOwn(c, l, s.hasClient, s.finalAttempt); }
    var w := Written(DeedFor(rows, c, l, s));
    if w != [] {
      assert w[..0] == [];
      assert Since(w[..0], created) == [];
    }
  }

  lemma BeforeExtends(rows: seq<Row>, created: Time, attempts: seq<Attempt>)
    requires LooksFit(attempts) && attempts != []
    ensures AfterJob(rows, created, attempts[..|attempts| - 1]).rows <= RowsBefore(rows, created, attempts)
    ensures RowsBefore(rows, created, attempts) <= AfterJob(rows, created, attempts).rows
  {
    PassAppends(RowsBefore(rows, created, attempts), Last(attempts).citations, Last(attempts).looks,
                SettingsOf(created, attempts));
  }

  /** Over any attempts of one job, cut by deadlines, exceptions or archive outages, and whatever other work
      adds meanwhile, the job writes at most one row for each citation. */
  lemma {:induction false} AtMostOncePerJob(
    rows: seq<Row>, cs: seq<Citation>, created: Time, attempts: seq<Attempt>, c: Citation)
    requires IsJob(cs, created, attempts) && c in cs
    ensures |Wrote(rows, created, attempts, c)| <= 1
    ensures Wrote(rows, created, attempts, c) != [] ==>
              HasSince(AfterJob(rows, created, attempts).rows, Quote, c.id, created)
    decreases |attempts|
  {
    if attempts != [] {
      var front := attempts[..|attempts| - 1];
      FrontIsJob(cs, created, attempts);
      BeforeExtends(rows, created, attempts);
      var k := PlaceOf(cs, created, attempts, c);
      hide IsJob, IsAttempt, Pass, Gain, Taken, RowsOf, HasSince, Since;
      AtMostOncePerJob(rows, cs, created, front, c);
      AttemptPerCitation(rows, cs, created, attempts, k);
      if HasSince(AfterJob(rows, created, front).rows, Quote, c.id, created) {
        var before, after := RowsBefore(rows, created, attempts), AfterJob(rows, created, attempts).rows;
        SinceStays(AfterJob(rows, created, front).rows, before, Quote, c.id, created);
        SinceStays(before, after, Quote, c.id, created);
      }
      if |attempts| == 1 { assert Wrote(rows, created, attempts[..0], c) == []; }
    }
  }

  /** No attempt rewrites or removes a row: the table it started from stays its beginning. */
  lemma {:induction false} JobOnlyAppends(rows: seq<Row>, created: Time, attempts: seq<Attempt>)
    requires LooksFit(attempts)
    ensures rows <= AfterJob(rows, created, attempts).rows
    decreases |attempts|
  {
    if attempts != [] {
      JobOnlyAppends(rows, created, attempts[..|attempts| - 1]);
      BeforeExtends(rows, created, attempts);
    }
  }

  /** An attempt that finishes with nothing deferred leaves every checkable citation with a row written since
      the job began, by the job or by other work. */
  lemma FinishedMeansChecked(rows: seq<Row>, cs: seq<Citation>, created: Time, attempts: seq<Attempt>, k: nat)
    requires IsJob(cs, created, attempts) && attempts != [] && k < |Last(attempts).citations|
    requires var o := AfterJob(rows, created, attempts); o.ending == Finished && o.archiveDeferred == 0
    requires IsCheckable(Last(attempts).citations[k], Last(attempts).looks[k])
    ensures HasSince(AfterJob(rows, created, attempts).rows, Quote, Last(attempts).citations[k].id, created)
  {
    var a := Last(attempts);
    var c := a.citations[k];
    var before, after := RowsBefore(rows, created, attempts), AfterJob(rows, created, attempts).rows;
    var st := SettingsOf(created, attempts);
    FrontIsJob(cs, created, attempts);
    AttemptPerCitation(rows, cs, created, attempts, k);
    PassEnds(before, a.citations, a.looks, st);
    assert IsDone(before, c, st.since) ==> HasSince(before, Quote, c.id, created);
    hide Pass, RowFor, RowsOf, Since, HasSince, IsJob, IsAttempt;
    assert !DeedFor(before, c, a.looks[k], st).LeaveForRetry?;
    if HasSince(before, Quote, c.id, created) { SinceStays(before, after, Quote, c.id, created); }
  }

  // ----- a steady world -----

  predicate IsReachable(a: Archive) {
    ArchiveFallback(a).Ok?
  }

  function Undated(rows: seq<Row>): seq<Row> {
    if rows == [] then [] else Undated(rows[..|rows| - 1]) + [rows[|rows| - 1].(createdAt := 0)]
  }

  /** The look is what `base` says, but for the clock, where the pass stops, and an outage of the archive
      that is not its last word. */
  predicate IsLike(l: Look, base: Look, finalAttempt: bool) {
    && l.document == base.document && l.matched == base.matched
    && (l.archive == base.archive || (!IsReachable(l.archive) && !finalAttempt))
  }

  /** The attempt meets at each citation what `base` says of it. */
  predicate IsSteady(cs: seq<Citation>, base: seq<Look>, hasClient: bool, a: Attempt)
    requires |cs| == |base| && |a.citations| == |a.looks|
  {
    && a.hasClient == hasClient
    && forall k, j :: 0 <= k < |a.citations| && 0 <= j < |cs| && a.citations[k] == cs[j] ==>
         IsLike(a.looks[k], base[j], a.finalAttempt)
  }

  /** Nothing stops the pass and the archive can be asked. */
  predicate IsCalm(base: seq<Look>) {
    forall k :: 0 <= k < |base| ==> base[k].weather == Fine && IsReachable(base[k].archive)
  }

  ghost predicate IsSteadyJob(cs: seq<Citation>, base: seq<Look>, hasClient: bool, attempts: seq<Attempt>)
    requires |cs| == |base| && LooksFit(attempts)
  {
    IsCalm(base) && forall a :: 0 <= a < |attempts| ==> IsSteady(cs, base, hasClient, attempts[a])
  }

  /** The row an uninterrupted pass gives the citation. */
  function CalmRows(cs: seq<Citation>, base: seq<Look>, hasClient: bool, k: nat): seq<Row>
    requires |cs| == |base| && k < |cs|
  {
    Written(DeedFor([], cs[k], base[k], Settings(hasClient, None, false)))
  }

  lemma SteadyDeed(rows: seq<Row>, c: Citation, l: Look, base: Look, s: Settings)
    requires IsLike(l, base, s.finalAttempt) && IsReachable(base.archive)
    requires !IsDone(rows, c, s.since)
    ensures var calm := Written(DeedFor([], c, base, Settings(s.hasClient, None, false)));
            var deed := DeedFor(rows, c, l, s);
            && |calm| == (if IsCheckable(c, l) then 1 else 0)
            && (deed.Write? ==> Undated(Written(deed)) == Undated(calm))
            && (deed.Skip? <==> calm == [])
  {
    var calm := Written(DeedFor([], c, base, Settings(s.hasClient, None, false)));
    var w := Written(DeedFor(rows, c, l, s));
    if calm != [] { assert calm[..0] == []; }
    if w != [] { assert w[..0] == []; }
  }

  /** The rows of a citation since the job began. */
  function JobRows(rows: seq<Row>, c: Citation, created: Time): seq<Row> {
    Since(OwnRows(rows, c), created)
  }

  /** Nobody else has checked the citations since the job began. */
  ghost predicate IsAlone(rows: seq<Row>, cs: seq<Citation>, created: Time, attempts: seq<Attempt>) {
    && (forall c :: c in cs ==> JobRows(rows, c, created) == [])
    && (forall a, r, c :: 0 <= a < |attempts| && r in attempts[a].others && c in cs ==> !IsOf(r, Quote, c.id))
  }

  lemma OthersAddNothing(was: seq<Row>, others: seq<Row>, c: Citation)
    requires forall r :: r in others ==> !IsOf(r, Quote, c.id)
    ensures OwnRows(was + others, c) == OwnRows(was, c)
  {
    RowsOfAppends(was, others, Quote, c.id);
    NoneOfOthers(others, Quote, c.id);
    assert OwnRows(was, c) + [] == OwnRows(was, c);
  }

  lemma AloneFront(rows: seq<Row>, cs: seq<Citation>, created: Time, attempts: seq<Attempt>)
    requires IsAlone(rows, cs, created, attempts) && attempts != []
    ensures IsAlone(rows, cs, created, attempts[..|attempts| - 1])
    ensures forall r, c :: r in Last(attempts).others && c in cs ==> !IsOf(r, Quote, c.id)
  {
    hide JobRows;
  }

  /** Alone, the rows since the job began are those it wrote. */
  lemma {:induction false} AloneMeansWrote(
    rows: seq<Row>, cs: seq<Citation>, created: Time, attempts: seq<Attempt>, c: Citation)
    requires IsJob(cs, created, attempts) && IsAlone(rows, cs, created, attempts) && c in cs
    ensures JobRows(AfterJob(rows, created, attempts).rows, c, created) == Wrote(rows, created, attempts, c)
    ensures attempts != [] ==>
              JobRows(RowsBefore(rows, created, attempts), c, created)
              == Wrote(rows, created, attempts[..|attempts| - 1], c)
    decreases |attempts|
  {
    if attempts != [] {
      var front := attempts[..|attempts| - 1];
      FrontIsJob(cs, created, attempts);
      AloneFront(rows, cs, created, attempts);
      var k := PlaceOf(cs, created, attempts, c);
      OthersAddNothing(AfterJob(rows, created, front).rows, Last(attempts).others, c);
      hide IsJob, IsAttempt, IsAlone, Pass, Gain, Taken, RowsOf, Since, HasSince;
      AloneMeansWrote(rows, cs, created, front, c);
      AttemptPerCitation(rows, cs, created, attempts, k);
      SinceAppends(OwnRows(RowsBefore(rows, created, attempts), c),
                   Gain(RowsBefore(rows, created, attempts), Last(attempts).citations, Last(attempts).looks,
                        SettingsOf(created, attempts), k), created);
    }
  }

  /** If nobody else checks them meanwhile, each checkable citation is left with exactly one row. */
  lemma FinishedAloneMeansOnce(rows: seq<Row>, cs: seq<Citation>, created: Time, attempts: seq<Attempt>, k: nat)
    requires IsJob(cs, created, attempts) && IsAlone(rows, cs, created, attempts)
    requires attempts != [] && k < |Last(attempts).citations|
    requires var o := AfterJob(rows, created, attempts); o.ending == Finished && o.archiveDeferred == 0
    requires IsCheckable(Last(attempts).citations[k], Last(attempts).looks[k])
    ensures |JobRows(AfterJob(rows, created, attempts).rows, Last(attempts).citations[k], created)| == 1
  {
    var c := Last(attempts).citations[k];
    FrontIsJob(cs, created, attempts);
    assert c in cs;
    FinishedMeansChecked(rows, cs, created, attempts, k);
    AtMostOncePerJob(rows, cs, created, attempts, c);
    AloneMeansWrote(rows, cs, created, attempts, c);
    HasSinceIff(AfterJob(rows, created, attempts).rows, Quote, c.id, created);
    hide AfterJob, Wrote, RowsOf, Since, HasSince, IsJob, IsAttempt, IsAlone;
  }

  /** In a steady world every row the job has written so far is the uninterrupted pass's row. */
  lemma {:induction false} SteadyRows(
    rows: seq<Row>, cs: seq<Citation>, created: Time, attempts: seq<Attempt>, base: seq<Look>, hasClient: bool, j: nat)
    requires |cs| == |base| && j < |cs|
    requires IsJob(cs, created, attempts) && IsAlone(rows, cs, created, attempts)
    requires IsSteadyJob(cs, base, hasClient, attempts)
    ensures var got := Wrote(rows, created, attempts, cs[j]);
            got == [] || Undated(got) == Undated(CalmRows(cs, base, hasClient, j))
    decreases |attempts|
  {
    if attempts != [] {
      var front, a := attempts[..|attempts| - 1], Last(attempts);
      var before := RowsBefore(rows, created, attempts);
      FrontIsJob(cs, created, attempts);
      AloneFront(rows, cs, created, attempts);
      var k := PlaceOf(cs, created, attempts, cs[j]);
      HasSinceIff(before, Quote, cs[j].id, created);
      AloneMeansWrote(rows, cs, created, attempts, cs[j]);
      assert IsSteady(cs, base, hasClient, a);
      hide IsJob, IsAttempt, IsAlone, DeedFor, Pass, RowsOf, Since, HasSince, Undated, IsLike, Taken;
      SteadyRows(rows, cs, created, front, base, hasClient, j);
      AttemptPerCitation(rows, cs, created, attempts, k);
      AtMostOncePerJob(rows, cs, created, attempts, cs[j]);
      var was := Wrote(rows, created, front, cs[j]);
      assert was + [] == was;
      if was == [] {
        SteadyDeed(before, cs[j], a.looks[k], base[j], SettingsOf(created, attempts));
        SteadyGain(before, a, SettingsOf(created, attempts), k);
      }
    }
  }

  lemma SteadyGain(before: seq<Row>, a: Attempt, s: Settings, k: nat)
    requires |a.citations| == |a.looks| && k < |a.citations|
    ensures var w := Gain(before, a.citations, a.looks, s, k);
            w == [] || w == Written(DeedFor(before, a.citations[k], a.looks[k], s))
    ensures [] + Gain(before, a.citations, a.looks, s, k) == Gain(before, a.citations, a.looks, s, k)
  {
    hide DeedFor;
  }

  lemma {:induction false} CalmReach(base: seq<Look>)
    requires IsCalm(base)
    ensures Reach(base) == |base|
  {
    if base != [] { CalmReach(base[1..]); }
  }

  lemma OnePassRows(rows: seq<Row>, cs: seq<Citation>, created: Time, base: seq<Look>, hasClient: bool, k: nat)
    requires AreDistinct(cs) && |cs| == |base| && k < |cs| && IsCalm(base) && base[k].at >= created
    requires JobRows(rows, cs[k], created) == []
    ensures var once := Pass(rows, cs, base, Settings(hasClient, None, false));
            JobRows(once.rows, cs[k], created) == CalmRows(cs, base, hasClient, k)
  {
    var st := Settings(hasClient, None, false);
    var w := CalmRows(cs, base, hasClient, k);
    assert DeedFor(rows, cs[k], base[k], st) == DeedFor([], cs[k], base[k], st);
    hide Pass, DeedFor, RowsOf, Since, Written;
    CalmReach(base);
    PassPerCitation(rows, cs, base, st, k);
    SinceAppends(OwnRows(rows, cs[k]), w, created);
    WrittenIsRecent([], cs[k], base[k], st, created);
    assert [] + w == w;
  }

  /** In a steady world an interrupted and retried job that ends well leaves, for each citation, the very
      rows of one uninterrupted pass, the time of writing apart. */
  lemma RetriesEqualOnePass(
    rows: seq<Row>, cs: seq<Citation>, created: Time, attempts: seq<Attempt>, base: seq<Look>, hasClient: bool, j: nat)
    requires |cs| == |base| && j < |cs| && base[j].at >= created && attempts != [] && AreDistinct(cs)
    requires IsJob(cs, created, attempts) && IsAlone(rows, cs, created, attempts)
    requires IsSteadyJob(cs, base, hasClient, attempts)
    requires var o := AfterJob(rows, created, attempts); o.ending == Finished && o.archiveDeferred == 0
    ensures var once := Pass(rows, cs, base, Settings(hasClient, None, false));
            Undated(JobRows(AfterJob(rows, created, attempts).rows, cs[j], created))
            == Undated(JobRows(once.rows, cs[j], created))
  {
    OnePassRows(rows, cs, created, base, hasClient, j);
    SteadyRows(rows, cs, created, attempts, base, hasClient, j);
    AloneMeansWrote(rows, cs, created, attempts, cs[j]);
    var a := Last(attempts);
    var k := PlaceOf(cs, created, attempts, cs[j]);
    assert IsSteady(cs, base, hasClient, a);
    SteadyDeed([], cs[j], a.looks[k], base[j], Settings(a.hasClient, None, a.finalAttempt));
    HasSinceIff(AfterJob(rows, created, attempts).rows, Quote, cs[j].id, created);
    hide Pass, DeedFor, RowsOf, Since, HasSince, IsJob, IsAlone, Undated, AfterJob, Wrote;
    if IsCheckable(cs[j], a.looks[k]) {
      FinishedMeansChecked(rows, cs, created, attempts, k);
    }
  }

  // ----- how the job goes on -----

  const MAX_ATTEMPTS := 3
  const BACKOFF_MINUTES: seq<nat> := [1, 5, 25]

  datatype JobStatus = Queued | Leased | Deferred(minutes: nat) | Done | Failed

  /** The status an attempt ends with; only an attempt before the last may have deferred citations. */
  function Concluded(attempts: nat, raised: bool, incomplete: bool, archiveDeferred: nat): JobStatus
    requires attempts >= 1 && (archiveDeferred > 0 ==> attempts < MAX_ATTEMPTS)
  {
    if raised then if attempts >= MAX_ATTEMPTS then Failed else Deferred(BACKOFF_MINUTES[attempts - 1])
    else if incomplete then if attempts >= MAX_ATTEMPTS then Failed else Deferred(BACKOFF_MINUTES[0])
    else if archiveDeferred > 0 then Deferred(BACKOFF_MINUTES[attempts - 1])
    else Done
  }

  class VerificationJob {
    var status: JobStatus
    var attempts: nat
    var scheduledFor: Time
    var finishedAt: Option<Time>

    constructor (now: Time)
      ensures status == Queued && attempts == 0 && scheduledFor == now && finishedAt == None
    {
      status, attempts, scheduledFor, finishedAt := Queued, 0, now, None;
    }

    /** `claim_next_job` takes a job that waits and is due. */
    method Claim(now: Time) returns (claimed: bool)
      modifies this
      ensures claimed <==> (old(status) == Queued || old(status).Deferred?) && old(scheduledFor) <= now
      ensures status == if claimed then Leased else old(status)
      ensures attempts == if claimed then old(attempts) + 1 else old(attempts)
      ensures scheduledFor == old(scheduledFor) && finishedAt == old(finishedAt)
    {
      claimed := (status == Queued || status.Deferred?) && scheduledFor <= now;
      if claimed {
        status, attempts := Leased, attempts + 1;
      }
    }

    /** The end of `process_verification_job`, times in minutes. */
    method Conclude(now: Time, raised: bool, incomplete: bool, archiveDeferred: nat)
      requires status == Leased && finishedAt == None && attempts >= 1
      requires archiveDeferred > 0 ==> attempts < MAX_ATTEMPTS
      modifies this
      ensures status == Concluded(old(attempts), raised, incomplete, archiveDeferred) && attempts == old(attempts)
      ensures finishedAt == if status.Deferred? then None else Some(now)
      ensures scheduledFor == if status.Deferred? then now + status.minutes else old(scheduledFor)
    {
      if raised || incomplete {
        if attempts >= MAX_ATTEMPTS {
          status, finishedAt := Failed, Some(now);
        } else {
          var wait := if raised then BACKOFF_MINUTES[attempts - 1] else BACKOFF_MINUTES[0];
          status, scheduledFor := Deferred(wait), now + wait;
        }
      } else if archiveDeferred > 0 {
        var wait := BACKOFF_MINUTES[attempts - 1];
        status, scheduledFor := Deferred(wait), now + wait;
      } else {
        status, finishedAt := Done, Some(now);
      }
    }
  }

  /** The attempts are told which of them is the last. */
  predicate AreNumbered(attempts: seq<Attempt>) {
    forall a :: 0 <= a < |attempts| ==> (attempts[a].finalAttempt <==> a + 1 >= MAX_ATTEMPTS)
  }

  /** If the attempt's citation number `k` could be checked, it has a row written since the job began. */
  ghost predicate IsSettled(rows: seq<Row>, created: Time, a: Attempt, k: nat)
    requires k < |a.citations| == |a.looks|
  {
    IsCheckable(a.citations[k], a.looks[k]) ==> HasSince(rows, Quote, a.citations[k].id, created)
  }

  /** And exactly one. */
  ghost predicate IsSettledOnce(rows: seq<Row>, created: Time, a: Attempt, k: nat)
    requires k < |a.citations| == |a.looks|
  {
    IsCheckable(a.citations[k], a.looks[k]) ==> |JobRows(rows, a.citations[k], created)| == 1
  }

  /** A job never looks for a wait past the end of the backoff; it is done only when every citation that
      could be checked has been checked since it began, exactly once if by nobody else, and it never fails
      because archive.org was down. The rest of the attempt, the captures and the inline judge, may raise or
      leave work over too. */
  lemma JobEndsSoundly(
    rows: seq<Row>, cs: seq<Citation>, created: Time, attempts: seq<Attempt>, restRaised: bool, restLeft: bool)
    requires IsJob(cs, created, attempts) && AreNumbered(attempts) && attempts != []
    ensures AfterJob(rows, created, attempts).archiveDeferred > 0 ==> |attempts| < MAX_ATTEMPTS
    ensures var o := AfterJob(rows, created, attempts);
            var raised, left := restRaised || o.ending == Raised, restLeft || o.ending != Finished;
            var status := Concluded(|attempts|, raised, left, o.archiveDeferred);
            && (status == Done ==>
                  !raised && !left
                  && forall k | 0 <= k < |Last(attempts).citations| :: IsSettled(o.rows, created, Last(attempts), k))
            && (status == Done && IsAlone(rows, cs, created, attempts) ==>
                  forall k | 0 <= k < |Last(attempts).citations| :: IsSettledOnce(o.rows, created, Last(attempts), k))
            && (status == Failed ==> |attempts| >= MAX_ATTEMPTS && (raised || left))
  {
    var a := Last(attempts);
    var o := AfterJob(rows, created, attempts);
    FrontIsJob(cs, created, attempts);
    hide Pass, HasSince, JobRows, IsAlone;
    if a.finalAttempt {
      FinalAttemptNeverDefers(RowsBefore(rows, created, attempts), a.citations, a.looks, SettingsOf(created, attempts));
    }
    if o.ending == Finished && o.archiveDeferred == 0 {
      forall k | 0 <= k < |a.citations| && IsCheckable(a.citations[k], a.looks[k])
        ensures IsSettled(o.rows, created, a, k)
      {
        FinishedMeansChecked(rows, cs, created, attempts, k);
      }
      if IsAlone(rows, cs, created, attempts) {
        forall k | 0 <= k < |a.citations| && IsCheckable(a.citations[k], a.looks[k])
          ensures IsSettledOnce(o.rows, created, a, k)
        {
          FinishedAloneMeansOnce(rows, cs, created, attempts, k);
        }
      }
    }
  }
}
