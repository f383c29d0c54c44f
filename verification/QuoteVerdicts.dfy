/** app/services/citation_verification.py: which verdict, about which document, a citation is given by
    what the pass finds when it looks, said of the look alone. */
module QuoteVerdicts {
  import opened Options
  import opened Verifications
  import opened QuoteVerification

  // ----- what can be seen -----

  predicate HasError(l: Look) {
    l.document.Some? && l.document.value.errorReason.Some?
  }

  predicate IsGone(l: Look) {
    HasError(l) && (l.document.value.errorReason.value == "http_404" || l.document.value.errorReason.value == "http_410")
  }

  /** The page was captured, and its text compared with the quote, with this result. */
  predicate PageShows(l: Look, v: MatchVerdict) {
    !HasError(l) && l.matched.Some? && l.matched.value.verdict == v
  }

  /** Why archive.org is asked: the page is gone or lacks the quote. */
  predicate NeedsArchive(l: Look, s: Settings) {
    s.hasClient && (IsGone(l) || PageShows(l, Absent))
  }

  predicate CannotBeAsked(a: Archive) {
    a.NotReachable? || a.ContentNotReachable?
  }

  /** An archived copy holds the whole quote, word for word or after normalising. */
  predicate HoldsQuote(a: Archive) {
    match a
    case Content(_, Some(m)) => m.verdict == Exact || m.verdict == Normalized
    case _ => false
  }

  predicate IsDown(l: Look, s: Settings) {
    NeedsArchive(l, s) && CannotBeAsked(l.archive)
  }

  predicate IsRescued(l: Look, s: Settings) {
    NeedsArchive(l, s) && HoldsQuote(l.archive)
  }

  /** The row is the citation's own, written at this look. */
  predicate IsFor(r: Row, c: Citation, l: Look) {
    r.citation == c.id && r.kind == Quote && r.claim == c.claim && r.createdAt == l.at && r.opinion == None
  }

  /** When each verdict is given. */
  predicate VerdictsFit(r: Row, l: Look, s: Settings) {
    && (r.verdict == VerifiedExact <==> PageShows(l, Exact))
    && (r.verdict == VerifiedNormalized <==> PageShows(l, Normalized))
    && (r.verdict == PartiallyFound <==> PageShows(l, Partial))
    && (r.verdict == NotFound <==> PageShows(l, Absent) && !IsDown(l, s) && !IsRescued(l, s))
    && (r.verdict == ArchiveOnly <==> IsRescued(l, s) && IsGone(l))
    && (r.verdict == PageChanged <==> IsRescued(l, s) && PageShows(l, Absent))
    && (r.verdict == Unverifiable <==> IsDown(l, s) || (HasError(l) && !IsRescued(l, s)) || (!HasError(l) && l.matched.None?))
  }

  /** Which document it is about, and where in it the quote was found. */
  predicate DocumentFits(r: Row, l: Look, s: Settings) {
    if IsRescued(l, s) then
      l.archive.Content? && r.document == l.archive.document
      && l.archive.matched.Some? && r.found == Some(l.archive.matched.value.found)
    else
      && l.document.Some? && r.document == l.document.value.id
      && r.found == if r.verdict == Unverifiable || l.matched.None? then None else Some(l.matched.value.found)
  }

  /** Why nothing could be checked. */
  predicate ReasonFits(r: Row, l: Look, s: Settings) {
    if r.verdict != Unverifiable then r.reason == None
    else if IsDown(l, s) then r.reason == Some("archive_unavailable")
    else if HasError(l) then r.reason == l.document.value.errorReason
    else r.reason == Some("no_checkable_text")
  }

  predicate Fits(r: Row, c: Citation, l: Look, s: Settings) {
    IsFor(r, c, l) && VerdictsFit(r, l, s) && DocumentFits(r, l, s) && ReasonFits(r, l, s)
  }

  // ----- what a pass does -----

  /** The pass comes to citation number `k`. */
  predicate ComesTo(looks: seq<Look>, k: nat) {
    k < |looks| && forall i :: 0 <= i <= k ==> looks[i].weather == Fine
  }

  lemma {:induction false} ReachIs(looks: seq<Look>, k: nat)
    ensures k < Reach(looks) <==> ComesTo(looks, k)
  {
    if looks != [] && looks[0].weather == Fine && k > 0 {
      ReachIs(looks[1..], k - 1);
      assert ComesTo(looks, k) <==> ComesTo(looks[1..], k - 1) by {
        if ComesTo(looks[1..], k - 1) {
          forall i | 0 <= i <= k ensures looks[i].weather == Fine {
            if i > 0 { assert looks[i] == looks[1..][i - 1]; }
          }
        }
      }
    }
  }

  /** There is a page address, a quote and a captured document, and no row of the job's own yet. */
  ghost predicate IsDue(rows: seq<Row>, c: Citation, l: Look, s: Settings) {
    && c.sourceUrl.Some? && c.sourceUrl.value != "" && c.quoteText.Some? && c.quoteText.value != "" && l.document.Some?
    && (s.since.Some? ==>
          forall r :: r in rows && r.kind == Quote && r.citation == c.id ==> r.createdAt < s.since.value)
  }

  lemma DueIs(rows: seq<Row>, c: Citation, l: Look, s: Settings)
    ensures IsDue(rows, c, l, s) <==> IsCheckable(c, l) && !IsDone(rows, c, s.since)
  {
  }

  lemma RowFits(c: Citation, l: Look, s: Settings)
    requires l.document.Some?
    ensures var row := RowFor(c, l, s.hasClient, s.finalAttempt);
            && (row.None? <==> IsDown(l, s) && !s.finalAttempt)
            && (row.Some? ==> Fits(row.value, c, l, s))
  {
  }

  /** For every citation of every pass: one that is not due, or that the pass does not come to, gets no
      row; one whose archive cannot be asked gets none before the last attempt; every other gets exactly
      one, with the verdict, document, reason and place that its look calls for. */
  lemma PassTells(rows: seq<Row>, cs: seq<Citation>, looks: seq<Look>, s: Settings, k: nat)
    requires |cs| == |looks| && AreDistinct(cs) && k < |cs|
    ensures var before, after := OwnRows(rows, cs[k]), OwnRows(Pass(rows, cs, looks, s).rows, cs[k]);
            if ComesTo(looks, k) && IsDue(rows, cs[k], looks[k], s) && (IsDown(looks[k], s) ==> s.finalAttempt)
            then |after| == |before| + 1 && after[..|before|] == before && Fits(after[|before|], cs[k], looks[k], s)
            else after == before
  {
    var c, l := cs[k], looks[k];
    PassPerCitation(rows, cs, looks, s, k);
    ReachIs(looks, k);
    DueIs(rows, c, l, s);
    if l.document.Some? { RowFits(c, l, s); }
    hide Pass, OwnRows, ComesTo, IsDue, IsDown, Fits, RowFor, IsDone;
    assert OwnRows(rows, c) + [] == OwnRows(rows, c);
  }

  /** Each row a pass appends belongs to a citation it came to. */
  lemma {:induction false} EveryRowIsDue(rows: seq<Row>, cs: seq<Citation>, looks: seq<Look>, s: Settings, p: nat)
    requires |cs| == |looks| && |rows| <= p < |Pass(rows, cs, looks, s).rows|
    ensures exists k :: 0 <= k < |cs| && ComesTo(looks, k) && Fits(Pass(rows, cs, looks, s).rows[p], cs[k], looks[k], s)
    decreases |cs|
  {
    if cs != [] && looks[0].weather == Fine {
      PassUnfold(rows, cs, looks, s);
      var w := Written(DeedFor(rows, cs[0], looks[0], s));
      if looks[0].document.Some? { RowFits(cs[0], looks[0], s); }
      hide Pass, Fits, RowFor;
      PassAppends(rows + w, cs[1..], looks[1..], s);
      if p < |rows + w| {
        assert (rows + w)[p] == w[0];
        assert ComesTo(looks, 0);
      } else {
        EveryRowIsDue(rows + w, cs[1..], looks[1..], s, p);
        var k :| 0 <= k < |cs| - 1 && ComesTo(looks[1..], k)
                 && Fits(Pass(rows, cs, looks, s).rows[p], cs[1..][k], looks[1..][k], s);
        ReachIs(looks[1..], k);
        ReachIs(looks, k + 1);
        hide ComesTo;
        assert cs[1..][k] == cs[k + 1] && looks[1..][k] == looks[k + 1];
      }
    }
  }

  // ----- how an attempt of the job ends -----

  /** An attempt that raised or left work over ends the job only as the third; before that the job waits a
      minute for work left over, and 1 or 5 minutes, by attempts, after an exception or for the archive;
      it is done when there is nothing of all this. */
  lemma ConclusionTells(attempts: nat, raised: bool, incomplete: bool, archiveDeferred: nat)
    requires attempts >= 1 && (archiveDeferred > 0 ==> attempts < 3)
    ensures var status := Concluded(attempts, raised, incomplete, archiveDeferred);
            && (status == Done <==> !raised && !incomplete && archiveDeferred == 0)
            && (status == Failed <==> attempts >= 3 && (raised || incomplete))
            && (status.Deferred? <==> attempts < 3 && (raised || incomplete || archiveDeferred > 0))
            && (status.Deferred? ==> status.minutes == if attempts == 1 || (incomplete && !raised) then 1 else 5)
  {
  }
}
