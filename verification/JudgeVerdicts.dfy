/** app/services/claim_judge.py: which verdict a citation is given, what is paid for it and what is
    kept for a person to look at, said of the look alone. */
module JudgeVerdicts {
  import opened Options
  import opened Verifications
  import opened ClaimJudge

  /** There is a page address, a claim and a captured document, and no row of the job's own yet. */
  ghost predicate IsOpen(rows: seq<Row>, c: Citation, l: Look, since: Option<Time>) {
    && c.sourceUrl.Some? && c.sourceUrl.value != "" && c.claim.Some? && l.document.Some?
    && (since.Some? ==> forall r :: r in rows && r.kind == Llm && r.citation == c.id ==> r.createdAt < since.value)
  }

  predicate HasError(l: Look) {
    l.document.Some? && l.document.value.errorReason.Some?
  }

  predicate HasText(l: Look) {
    l.document.Some? && l.document.value.errorReason.None? && l.document.value.passages.Some?
  }

  /** The judge is asked: the page was captured and some of its text bears on the claim. */
  predicate IsAsked(l: Look) {
    HasText(l) && l.document.value.passages.value != []
  }

  /** The reply carries this verdict word. */
  predicate Says(l: Look, word: string) {
    IsAsked(l) && l.reply.Some? && l.reply.value.parsed.Some? && l.reply.value.parsed.value.word == word
  }

  predicate SaysNothingKnown(l: Look) {
    && IsAsked(l) && l.reply.Some?
    && !Says(l, "supported") && !Says(l, "partially_supported") && !Says(l, "not_supported") && !Says(l, "contradicted")
  }

  predicate VerdictsFit(r: Row, l: Look) {
    && (r.verdict == LlmSupported <==> Says(l, "supported"))
    && (r.verdict == LlmPartial <==> Says(l, "partially_supported"))
    && (r.verdict == LlmNotSupported <==> Says(l, "not_supported"))
    && (r.verdict == LlmContradicted <==> Says(l, "contradicted"))
    && (r.verdict == Unverifiable <==> HasError(l) || (HasText(l) && !IsAsked(l)) || SaysNothingKnown(l))
  }

  predicate ReasonFits(r: Row, l: Look) {
    r.reason == if HasError(l) then l.document.value.errorReason
                else if HasText(l) && !IsAsked(l) then Some("no_checkable_text") else None
  }

  function Given(s: string): Option<string> {
    if |s| == 0 then None else Some(s)
  }

  /** What is kept of a reply: its price always; of a known verdict its reason and quote, whether a quote
      of twenty characters or more is in the page, and where. A person looks at it when there is no known
      verdict, or when such a quote is not in the page. */
  predicate OpinionFits(r: Row, l: Look) {
    if !IsAsked(l) then r.opinion == None && r.found == None
    else if l.reply.None? || r.opinion.None? then false
    else
      var reply, o := l.reply.value, r.opinion.value;
      && o.cost == reply.cost
      && if SaysNothingKnown(l) then
           && o.needsReview && o.quote == None && o.quoteFound == None && r.found == None
           && o.reason == Some("Could not parse a recognized verdict from the judge's reply.")
         else if reply.parsed.None? then false
         else
           var j := reply.parsed.value;
           && o.reason == Given(j.reason) && o.quote == Given(j.quote)
           && (o.needsReview <==> |j.quote| >= 20 && reply.found.None?)
           && o.quoteFound == (if |j.quote| >= 20 then Some(reply.found.Some?) else None)
           && r.found == (if |j.quote| >= 20 then reply.found else None)
  }

  predicate Fits(r: Row, c: Citation, l: Look) {
    && r.citation == c.id && r.kind == Llm && r.claim == c.claim && r.createdAt == l.at
    && l.document.Some? && r.document == l.document.value.id
    && VerdictsFit(r, l) && ReasonFits(r, l) && OpinionFits(r, l)
  }

  /** What there is to do ends in a row: not without a stored text, and not without a reply. */
  predicate EndsInRow(l: Look) {
    (HasError(l) || HasText(l)) && (IsAsked(l) ==> l.reply.Some?)
  }

  lemma OpenIs(rows: seq<Row>, c: Citation, l: Look, since: Option<Time>)
    ensures IsOpen(rows, c, l, since) <==>
              IsText(c.sourceUrl) && c.claim.Some? && l.document.Some? && !IsDone(rows, c, since)
  {
  }

  /** For an open citation: what is written, and whether the judge is paid. */
  lemma DeedTells(rows: seq<Row>, c: Citation, l: Look, since: Option<Time>)
    ensures var deed := DeedFor(rows, c, l, since);
            && (deed.Ask? <==> IsOpen(rows, c, l, since) && IsAsked(l))
            && (deed == Ask(None) <==> IsOpen(rows, c, l, since) && IsAsked(l) && l.reply.None?)
            && if IsOpen(rows, c, l, since) && EndsInRow(l)
               then |Written(deed)| == 1 && Fits(Written(deed)[0], c, l)
               else Written(deed) == []
  {
    OpenIs(rows, c, l, since);
    hide IsOpen, IsDone;
  }

  /** The pass gets through the citations before number `k`: nothing ends it there. */
  ghost predicate GetsTo(rows: seq<Row>, cs: seq<Citation>, looks: seq<Look>, since: Option<Time>, k: nat)
    requires |cs| == |looks| && k < |cs|
  {
    forall i :: 0 <= i < k ==> looks[i].weather == Fine && !BreaksOff(rows, cs[i], looks[i], since)
  }

  /** The judge is asked and there is no reply. */
  ghost predicate BreaksOff(rows: seq<Row>, c: Citation, l: Look, since: Option<Time>) {
    IsOpen(rows, c, l, since) && IsAsked(l) && l.reply.None?
  }

  lemma {:induction false} GetsToIs(rows: seq<Row>, cs: seq<Citation>, looks: seq<Look>, since: Option<Time>, k: nat)
    requires |cs| == |looks| && k < |cs|
    ensures k <= Reach(rows, cs, looks, since) <==> GetsTo(rows, cs, looks, since, k)
    ensures k < Reach(rows, cs, looks, since) <==>
              GetsTo(rows, cs, looks, since, k) && looks[k].weather == Fine && !BreaksOff(rows, cs[k], looks[k], since)
    decreases k
  {
    DeedTells(rows, cs[0], looks[0], since);
    hide DeedFor, BreaksOff, Fits, EndsInRow;
    if k > 0 {
      GetsToIs(rows, cs[1..], looks[1..], since, k - 1);
      GetsToNext(rows, cs, looks, since, k);
    }
  }

  lemma GetsToNext(rows: seq<Row>, cs: seq<Citation>, looks: seq<Look>, since: Option<Time>, k: nat)
    requires |cs| == |looks| && 0 < k < |cs|
    ensures GetsTo(rows, cs, looks, since, k) <==>
              looks[0].weather == Fine && !BreaksOff(rows, cs[0], looks[0], since)
              && GetsTo(rows, cs[1..], looks[1..], since, k - 1)
  {
    hide BreaksOff;
    if GetsTo(rows, cs[1..], looks[1..], since, k - 1) {
      forall i | 1 <= i < k ensures looks[i].weather == Fine && !BreaksOff(rows, cs[i], looks[i], since) {
        assert looks[1..][i - 1] == looks[i] && cs[1..][i - 1] == cs[i];
      }
    }
  }

  /** For every citation of every pass: it gets exactly one row, as its look calls for, when it is open,
      the pass gets to it and its page has been captured, and the judge, if asked, replies; otherwise
      none. The judge is paid for it exactly when it is open, the pass gets to it and some of the page
      bears on the claim. */
  lemma PassTells(
    rows: seq<Row>, calls: seq<int>, cs: seq<Citation>, looks: seq<Look>, since: Option<Time>, k: nat)
    requires |cs| == |looks| && AreDistinct(cs) && k < |cs|
    ensures var o := Pass(rows, calls, cs, looks, since);
            var before, after := OwnRows(rows, cs[k]), OwnRows(o.rows, cs[k]);
            var comes := GetsTo(rows, cs, looks, since, k) && looks[k].weather == Fine;
            var open := IsOpen(rows, cs[k], looks[k], since);
            && (if comes && open && EndsInRow(looks[k])
                then |after| == |before| + 1 && after[..|before|] == before && Fits(after[|before|], cs[k], looks[k])
                else after == before)
            && CallsFor(o.calls, cs[k].id)
               == CallsFor(calls, cs[k].id) + if comes && open && IsAsked(looks[k]) then 1 else 0
  {
    var c, l := cs[k], looks[k];
    PassPerCitation(rows, calls, cs, looks, since, k);
    GetsToIs(rows, cs, looks, since, k);
    DeedTells(rows, c, l, since);
    hide Pass, OwnRows, GetsTo, IsOpen, Fits, DeedFor, CallsFor, Reach, Written, IsAsked, HasError, HasText;
    assert OwnRows(rows, c) + [] == OwnRows(rows, c);
  }
}
