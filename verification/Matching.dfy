/** app/analysis/matching.py: the spans of all candidate names in an answer, found by one regular
    expression that tries longer names first at every position. Unicode's word-character and
    case-folding tables are parameters. */
module Matching {
  import opened Options

  datatype Alphabet = Alphabet(isWord: char -> bool, fold: char -> char)

  datatype Span = Span(start: nat, end: nat)

  datatype Hit = Hit(span: Span, term: string)

  predicate SameFolded(ab: Alphabet, a: string, b: string) {
    |a| == |b| && forall k :: 0 <= k < |a| ==> ab.fold(a[k]) == ab.fold(b[k])
  }

  /** `term` stands at `at`, whatever its case, with no word character touching either end. */
  predicate Occurs(ab: Alphabet, text: string, term: string, at: nat) {
    && at + |term| <= |text|
    && SameFolded(ab, text[at..at + |term|], term)
    && (at > 0 ==> !ab.isWord(text[at - 1]))
    && (at + |term| < |text| ==> !ab.isWord(text[at + |term|]))
  }

  // ----- sorted(set(candidates), key=len, reverse=True) -----

  /** One possible iteration order of `set(candidates)`. */
  ghost predicate IsSetOrder(order: seq<string>, candidates: seq<string>) {
    && (forall i, j :: 0 <= i < j < |order| ==> order[i] != order[j])
    && (forall c :: c in order <==> c in candidates)
  }

  function InsertByLength(x: string, sorted: seq<string>): seq<string> {
    if sorted == [] || |x| >= |sorted[0]| then [x] + sorted
    else [sorted[0]] + InsertByLength(x, sorted[1..])
  }

  /** Stable sort, longest first. */
  function LongestFirst(order: seq<string>): seq<string> {
    if order == [] then [] else InsertByLength(order[0], LongestFirst(order[1..]))
  }

  function OfLength(terms: seq<string>, n: nat): seq<string> {
    if terms == [] then []
    else (if |terms[0]| == n then [terms[0]] else []) + OfLength(terms[1..], n)
  }

  ghost predicate Descending(terms: seq<string>) {
    forall i, j :: 0 <= i < j < |terms| ==> |terms[i]| >= |terms[j]|
  }

  lemma {:induction false} InsertKeepsMembers(x: string, sorted: seq<string>)
    ensures forall c :: c in InsertByLength(x, sorted) <==> c == x || c in sorted
  {
    if sorted != [] && |x| < |sorted[0]| {
      InsertKeepsMembers(x, sorted[1..]);
      assert sorted == [sorted[0]] + sorted[1..];
    }
  }

  lemma {:induction false} InsertKeepsDescending(x: string, sorted: seq<string>)
    requires Descending(sorted)
    ensures Descending(InsertByLength(x, sorted))
  {
    if sorted != [] && |x| < |sorted[0]| {
      InsertKeepsDescending(x, sorted[1..]);
      InsertKeepsMembers(x, sorted[1..]);
      var rest := InsertByLength(x, sorted[1..]);
      forall j | 0 <= j < |rest| ensures |sorted[0]| >= |rest[j]| {
        assert rest[j] in rest;
      }
    }
  }

  lemma {:induction false} InsertIsStable(x: string, sorted: seq<string>, n: nat)
    ensures OfLength(InsertByLength(x, sorted), n) == OfLength([x] + sorted, n)
  {
    assert ([x] + sorted)[1..] == sorted;
    if sorted != [] && |x| < |sorted[0]| {
      InsertIsStable(x, sorted[1..], n);
      var rest := InsertByLength(x, sorted[1..]);
      assert ([sorted[0]] + rest)[1..] == rest;
      assert ([x] + sorted[1..])[1..] == sorted[1..];
    }
  }

  /** The sort keeps the members, puts longer ones first and keeps equal lengths in their order. */
  lemma {:induction false} LongestFirstSorts(order: seq<string>, n: nat)
    ensures Descending(LongestFirst(order))
    ensures forall c :: c in LongestFirst(order) <==> c in order
    ensures OfLength(LongestFirst(order), n) == OfLength(order, n)
  {
    if order != [] {
      LongestFirstSorts(order[1..], n);
      var tail := LongestFirst(order[1..]);
      InsertKeepsMembers(order[0], tail);
      InsertKeepsDescending(order[0], tail);
      InsertIsStable(order[0], tail, n);
      assert ([order[0]] + tail)[1..] == tail;
      assert order == [order[0]] + order[1..];
    }
  }

  // ----- the scan -----

  /** The alternative the expression takes at `at`: the first one, in its own order, that fits. */
  function FirstFit(ab: Alphabet, text: string, ordered: seq<string>, at: nat): Option<string> {
    if ordered == [] then None
    else if Occurs(ab, text, ordered[0], at) then Some(ordered[0])
    else FirstFit(ab, text, ordered[1..], at)
  }

  /** Where the search goes on after a match: at its end, one further when it was empty. */
  function Resume(from: nat, term: string): (next: nat)
    ensures next > from
  {
    if term == "" then from + 1 else from + |term|
  }

  /** `finditer`: leftmost match first, then the rest of the text. */
  function Scan(ab: Alphabet, text: string, ordered: seq<string>, from: nat): seq<Hit>
    decreases |text| + 1 - from
  {
    if from > |text| then []
    else
      match FirstFit(ab, text, ordered, from)
      case None => Scan(ab, text, ordered, from + 1)
      case Some(term) =>
        [Hit(Span(from, from + |term|), term)]
        + Scan(ab, text, ordered, Resume(from, term))
  }

  function Spans(hits: seq<Hit>): (r: seq<Span>)
    ensures |r| == |hits|
  {
    seq(|hits|, i requires 0 <= i < |hits| => hits[i].span)
  }

  function Terms(hits: seq<Hit>): set<string> {
    set h | h in hits :: h.term
  }

  /** `dict.fromkeys(c for c in candidates if c in matched)`: each matched candidate once, where it
      first stands. */
  function KeepMatched(candidates: seq<string>, matched: set<string>): seq<string> {
    if candidates == [] then []
    else
      var n := |candidates| - 1;
      var before := KeepMatched(candidates[..n], matched);
      var c := candidates[n];
      if c in matched && c !in before then before + [c] else before
  }

  function MatchedTerms(ab: Alphabet, text: string, candidates: seq<string>, order: seq<string>): seq<string> {
    KeepMatched(candidates, Terms(Scan(ab, text, LongestFirst(order), 0)))
  }

  lemma {:induction false} FitIsFirst(ab: Alphabet, text: string, ordered: seq<string>, at: nat)
    requires Descending(ordered)
    ensures match FirstFit(ab, text, ordered, at)
            case None => forall c :: c in ordered ==> !Occurs(ab, text, c, at)
            case Some(t) =>
              && t in ordered && Occurs(ab, text, t, at)
              && forall c :: c in ordered && Occurs(ab, text, c, at) ==> |c| <= |t|
  {
    if ordered != [] && !Occurs(ab, text, ordered[0], at) {
      FitIsFirst(ab, text, ordered[1..], at);
    }
  }

  lemma ScanStep(ab: Alphabet, text: string, ordered: seq<string>, from: nat, hits: seq<Hit>)
    requires from <= |text|
    requires Scan(ab, text, ordered, 0) == hits + Scan(ab, text, ordered, from)
    ensures match FirstFit(ab, text, ordered, from)
            case None => Scan(ab, text, ordered, 0) == hits + Scan(ab, text, ordered, from + 1)
            case Some(term) =>
              var hit := Hit(Span(from, from + |term|), term);
              && Scan(ab, text, ordered, 0)
                 == (hits + [hit]) + Scan(ab, text, ordered, Resume(from, term))
              && Spans(hits + [hit]) == Spans(hits) + [hit.span]
              && Terms(hits + [hit]) == Terms(hits) + {term}
  {
    if FirstFit(ab, text, ordered, from).Some? {
      var term := FirstFit(ab, text, ordered, from).value;
      var hit := Hit(Span(from, from + |term|), term);
      var rest := Scan(ab, text, ordered, Resume(from, term));
      assert hits + ([hit] + rest) == (hits + [hit]) + rest;
      assert forall h :: h in hits + [hit] <==> h in hits || h == hit;
    }
  }

  method MatchSpans(ab: Alphabet, text: string, candidates: seq<string>, setOrder: seq<string>)
    returns (spans: seq<Span>, matchedTerms: seq<string>)
    requires IsSetOrder(setOrder, candidates)
    ensures spans == Spans(Scan(ab, text, LongestFirst(setOrder), 0))
    ensures matchedTerms == MatchedTerms(ab, text, candidates, setOrder)
  {
    if candidates == [] {
      LongestFirstSorts(setOrder, 0);
      NothingToFind(ab, text, LongestFirst(setOrder), 0);
      return [], [];
    }
    var matched;
    spans, matched := FindAll(ab, text, LongestFirst(setOrder));
    matchedTerms := [];
    var i := 0;
    while i < |candidates|
      invariant 0 <= i <= |candidates|
      invariant matchedTerms == KeepMatched(candidates[..i], matched)
    {
      assert candidates[..i + 1][..i] == candidates[..i];
      if candidates[i] in matched && candidates[i] !in matchedTerms {
        matchedTerms := matchedTerms + [candidates[i]];
      }
      i := i + 1;
    }
    assert candidates[..i] == candidates;
  }

  /** The loop over `re.finditer`. */
  method FindAll(ab: Alphabet, text: string, ordered: seq<string>) returns (spans: seq<Span>, matched: set<string>)
    ensures spans == Spans(Scan(ab, text, ordered, 0))
    ensures matched == Terms(Scan(ab, text, ordered, 0))
  {
    hide Scan, FirstFit, Resume;
    spans, matched := [], {};
    ghost var hits: seq<Hit> := [];
    var from := 0;
    assert hits + Scan(ab, text, ordered, 0) == Scan(ab, text, ordered, 0);
    while from <= |text|
      invariant Scan(ab, text, ordered, 0) == hits + Scan(ab, text, ordered, from)
      invariant spans == Spans(hits) && matched == Terms(hits)
      decreases |text| + 1 - from
    {
      ScanStep(ab, text, ordered, from, hits);
      var fit := FirstFit(ab, text, ordered, from);
      match fit
      case None => from := from + 1;
      case Some(term) =>
        spans := spans + [Span(from, from + |term|)];
        matched := matched + {term};
        hits := hits + [Hit(Span(from, from + |term|), term)];
        from := Resume(from, term);
    }
    ScanEnds(ab, text, ordered, from);
    assert hits + [] == hits;
  }

  lemma ScanEnds(ab: Alphabet, text: string, ordered: seq<string>, from: nat)
    requires from > |text|
    ensures Scan(ab, text, ordered, from) == []
  {
  }

  lemma {:induction false} NothingToFind(ab: Alphabet, text: string, ordered: seq<string>, from: nat)
    requires Descending(ordered) && forall c :: c !in ordered
    ensures Scan(ab, text, ordered, from) == []
    decreases |text| + 1 - from
  {
    FitIsFirst(ab, text, ordered, from);
    if from <= |text| { NothingToFind(ab, text, ordered, from + 1); }
  }

  // ----- what the spans are -----

  ghost predicate StartsAt(ab: Alphabet, text: string, candidates: seq<string>, at: nat) {
    exists c :: c in candidates && Occurs(ab, text, c, at)
  }

  ghost predicate IsLongestAt(ab: Alphabet, text: string, candidates: seq<string>, s: Span) {
    && (exists c :: c in candidates && Occurs(ab, text, c, s.start) && s.start + |c| == s.end)
    && (forall c :: c in candidates && Occurs(ab, text, c, s.start) ==> s.start + |c| <= s.end)
  }

  ghost predicate Covered(spans: seq<Span>, at: nat) {
    exists i :: 0 <= i < |spans| && spans[i].start <= at < spans[i].end
  }

  /** In bounds, increasing and disjoint. */
  ghost predicate Ordered(spans: seq<Span>, from: nat, limit: nat) {
    spans == [] || (from <= spans[0].start < spans[0].end <= limit && Ordered(spans[1..], spans[0].end, limit))
  }

  lemma {:induction false} OrderedPairwise(spans: seq<Span>, from: nat, limit: nat)
    requires Ordered(spans, from, limit)
    ensures forall i :: 0 <= i < |spans| ==> from <= spans[i].start < spans[i].end <= limit
    ensures forall i, j :: 0 <= i < j < |spans| ==> spans[i].end <= spans[j].start
  {
    if spans != [] {
      OrderedPairwise(spans[1..], spans[0].end, limit);
      assert forall i :: 0 < i < |spans| ==> spans[i] == spans[1..][i - 1];
    }
  }

  /** A span list as the documentation describes it, without an order on candidates and without a
      scan: in bounds, increasing and disjoint; each span a candidate, and no longer candidate fits
      where it starts; every occurrence of a candidate starts inside a span. */
  ghost predicate Canonical(ab: Alphabet, text: string, candidates: seq<string>, from: nat, spans: seq<Span>) {
    && Ordered(spans, from, |text|)
    && (forall i :: 0 <= i < |spans| ==> IsLongestAt(ab, text, candidates, spans[i]))
    && (forall at: nat :: at >= from && StartsAt(ab, text, candidates, at) ==> Covered(spans, at))
  }

  lemma CoveredCons(s: Span, rest: seq<Span>, at: nat)
    ensures Covered([s] + rest, at) <==> s.start <= at < s.end || Covered(rest, at)
  {
    var all := [s] + rest;
    if s.start <= at < s.end {
      assert all[0] == s;
    }
    if Covered(rest, at) {
      var i :| 0 <= i < |rest| && rest[i].start <= at < rest[i].end;
      assert all[i + 1] == rest[i];
    }
    if Covered(all, at) {
      var i :| 0 <= i < |all| && all[i].start <= at < all[i].end;
      if i > 0 { assert all[i] == rest[i - 1]; }
    }
  }

  lemma CanonicalCons(ab: Alphabet, text: string, candidates: seq<string>, s: Span, rest: seq<Span>)
    requires s.start < s.end <= |text| && IsLongestAt(ab, text, candidates, s)
    requires Canonical(ab, text, candidates, s.end, rest)
    ensures Canonical(ab, text, candidates, s.start, [s] + rest)
  {
    hide StartsAt, IsLongestAt, Covered;
    assert ([s] + rest)[1..] == rest;
    forall at: nat | at >= s.start && StartsAt(ab, text, candidates, at)
      ensures Covered([s] + rest, at)
    {
      CoveredCons(s, rest, at);
    }
  }

  lemma SpansOfCons(h: Hit, rest: seq<Hit>)
    ensures Spans([h] + rest) == [h.span] + Spans(rest)
  {
  }

  lemma FitIsLongest(ab: Alphabet, text: string, candidates: seq<string>, ordered: seq<string>, at: nat)
    requires Descending(ordered) && forall c :: c in ordered <==> c in candidates
    ensures match FirstFit(ab, text, ordered, at)
            case None => !StartsAt(ab, text, candidates, at)
            case Some(t) =>
              && t in candidates && at + |t| <= |text|
              && IsLongestAt(ab, text, candidates, Span(at, at + |t|))
  {
    FitIsFirst(ab, text, ordered, at);
  }

  lemma {:induction false} ScanFromIsCanonical(
    ab: Alphabet, text: string, candidates: seq<string>, ordered: seq<string>, from: nat)
    requires Descending(ordered) && "" !in candidates
    requires forall c :: c in ordered <==> c in candidates
    ensures Canonical(ab, text, candidates, from, Spans(Scan(ab, text, ordered, from)))
    decreases |text| + 1 - from
  {
    hide Occurs, FirstFit, IsLongestAt, Covered, Descending;
    if from <= |text| {
      FitIsLongest(ab, text, candidates, ordered, from);
      match FirstFit(ab, text, ordered, from)
      case None =>
        hide StartsAt;
        ScanFromIsCanonical(ab, text, candidates, ordered, from + 1);
      case Some(term) =>
        hide StartsAt;
        ScanFromIsCanonical(ab, text, candidates, ordered, from + |term|);
        var span := Span(from, from + |term|);
        var rest := Scan(ab, text, ordered, from + |term|);
        CanonicalCons(ab, text, candidates, span, Spans(rest));
        SpansOfCons(Hit(span, term), rest);
    } else {
      assert forall at: nat :: at >= from ==> !StartsAt(ab, text, candidates, at) by { PastTheEnd(ab, text, candidates, from); }
    }
  }

  lemma PastTheEnd(ab: Alphabet, text: string, candidates: seq<string>, from: nat)
    requires from > |text|
    ensures forall at: nat :: at >= from ==> !StartsAt(ab, text, candidates, at)
  {
  }

  /** The scan computes the canonical spans of the candidates. */
  lemma ScanIsCanonical(ab: Alphabet, text: string, candidates: seq<string>, order: seq<string>)
    requires IsSetOrder(order, candidates) && "" !in candidates
    ensures Canonical(ab, text, candidates, 0, Spans(Scan(ab, text, LongestFirst(order), 0)))
  {
    LongestFirstSorts(order, 0);
    ScanFromIsCanonical(ab, text, candidates, LongestFirst(order), 0);
  }

  lemma CanonicalTail(ab: Alphabet, text: string, candidates: seq<string>, from: nat, spans: seq<Span>)
    requires Canonical(ab, text, candidates, from, spans) && spans != []
    ensures Canonical(ab, text, candidates, spans[0].end, spans[1..])
  {
    hide StartsAt, IsLongestAt, Covered;
    var rest := spans[1..];
    assert spans == [spans[0]] + rest;
    forall at: nat | at >= spans[0].end && StartsAt(ab, text, candidates, at)
      ensures Covered(rest, at)
    {
      CoveredCons(spans[0], rest, at);
    }
  }

  lemma LongestSpanStarts(ab: Alphabet, text: string, xs: seq<string>, ys: seq<string>, s: Span)
    requires forall c :: c in xs <==> c in ys
    requires IsLongestAt(ab, text, xs, s)
    ensures StartsAt(ab, text, ys, s.start)
  {
    var c :| c in xs && Occurs(ab, text, c, s.start) && s.start + |c| == s.end;
    assert c in ys;
  }

  lemma LongestIsForced(ab: Alphabet, text: string, xs: seq<string>, ys: seq<string>, s: Span, t: Span)
    requires forall c :: c in xs <==> c in ys
    requires IsLongestAt(ab, text, xs, s) && IsLongestAt(ab, text, ys, t) && s.start == t.start
    ensures s == t
  {
    hide Occurs;
  }

  lemma FirstSpanIsForced(
    ab: Alphabet, text: string, xs: seq<string>, ys: seq<string>, from: nat, a: seq<Span>, b: seq<Span>)
    requires forall c :: c in xs <==> c in ys
    requires Canonical(ab, text, xs, from, a) && Canonical(ab, text, ys, from, b) && a != []
    ensures b != [] && b[0].start <= a[0].start
  {
    hide StartsAt, IsLongestAt;
    LongestSpanStarts(ab, text, xs, ys, a[0]);
    assert Covered(b, a[0].start);
    OrderedPairwise(b, from, |text|);
  }

  /** There is only one canonical span list, even for candidate lists that merely share members. */
  lemma {:induction false} CanonicalIsUnique(
    ab: Alphabet, text: string, xs: seq<string>, ys: seq<string>, from: nat, a: seq<Span>, b: seq<Span>)
    requires forall c :: c in xs <==> c in ys
    requires Canonical(ab, text, xs, from, a) && Canonical(ab, text, ys, from, b)
    ensures a == b
    decreases |a|
  {
    hide StartsAt, IsLongestAt, Covered;
    if a != [] {
      FirstSpanIsForced(ab, text, xs, ys, from, a, b);
      FirstSpanIsForced(ab, text, ys, xs, from, b, a);
      LongestIsForced(ab, text, xs, ys, a[0], b[0]);
      CanonicalTail(ab, text, xs, from, a);
      CanonicalTail(ab, text, ys, from, b);
      CanonicalIsUnique(ab, text, xs, ys, a[0].end, a[1..], b[1..]);
      assert a == [a[0]] + a[1..] && b == [b[0]] + b[1..];
    } else if b != [] {
      FirstSpanIsForced(ab, text, ys, xs, from, b, a);
    }
  }

  /** The spans depend neither on the order of the candidates nor on the set's iteration order. */
  lemma SpansIgnoreOrder(
    ab: Alphabet, text: string, xs: seq<string>, ys: seq<string>, o1: seq<string>, o2: seq<string>)
    requires forall c :: c in xs <==> c in ys
    requires IsSetOrder(o1, xs) && IsSetOrder(o2, ys) && "" !in xs
    ensures Spans(Scan(ab, text, LongestFirst(o1), 0)) == Spans(Scan(ab, text, LongestFirst(o2), 0))
  {
    ScanIsCanonical(ab, text, xs, o1);
    ScanIsCanonical(ab, text, ys, o2);
    CanonicalIsUnique(ab, text, xs, ys, 0,
                      Spans(Scan(ab, text, LongestFirst(o1), 0)), Spans(Scan(ab, text, LongestFirst(o2), 0)));
  }

  // ----- which terms are reported: not always independent of the set's order -----

  ghost predicate CaseVariantFree(ab: Alphabet, candidates: seq<string>) {
    forall c, d :: c in candidates && d in candidates && SameFolded(ab, c, d) ==> c == d
  }

  ghost predicate TermsIgnoreSetOrder(ab: Alphabet, candidates: seq<string>) {
    forall text, o1, o2 :: IsSetOrder(o1, candidates) && IsSetOrder(o2, candidates) ==>
      MatchedTerms(ab, text, candidates, o1) == MatchedTerms(ab, text, candidates, o2)
  }

  ghost predicate IsOccurrence(ab: Alphabet, text: string, ordered: seq<string>, h: Hit) {
    h.term in ordered && Occurs(ab, text, h.term, h.span.start) && h.span.start + |h.term| == h.span.end
  }

  lemma {:induction false} HitsAreOccurrences(ab: Alphabet, text: string, ordered: seq<string>, from: nat, h: Hit)
    requires Descending(ordered) && h in Scan(ab, text, ordered, from)
    ensures IsOccurrence(ab, text, ordered, h)
    decreases |text| + 1 - from
  {
    FitIsFirst(ab, text, ordered, from);
    match FirstFit(ab, text, ordered, from)
    case None => HitsAreOccurrences(ab, text, ordered, from + 1, h);
    case Some(term) =>
      if h != Hit(Span(from, from + |term|), term) {
        HitsAreOccurrences(ab, text, ordered, Resume(from, term), h);
      }
  }

  lemma SameSpansSameTerms(ab: Alphabet, text: string, candidates: seq<string>, a: seq<string>, b: seq<string>)
    requires CaseVariantFree(ab, candidates) && Descending(a) && Descending(b)
    requires forall c :: c in a ==> c in candidates
    requires forall c :: c in b ==> c in candidates
    requires Spans(Scan(ab, text, a, 0)) == Spans(Scan(ab, text, b, 0))
    ensures Terms(Scan(ab, text, a, 0)) <= Terms(Scan(ab, text, b, 0))
  {
    var ha, hb := Scan(ab, text, a, 0), Scan(ab, text, b, 0);
    forall h | h in ha ensures h.term in Terms(hb) {
      var i :| 0 <= i < |ha| && ha[i] == h;
      assert Spans(ha)[i] == Spans(hb)[i];
      var g := hb[i];
      assert g in hb && g.span == h.span;
      HitsAreOccurrences(ab, text, a, 0, h);
      HitsAreOccurrences(ab, text, b, 0, g);
      assert SameFolded(ab, h.term, g.term);
    }
  }

  lemma OwnTextFits(ab: Alphabet, candidates: seq<string>, ordered: seq<string>, first: string, c: string)
    requires Descending(ordered) && forall t :: t in ordered ==> t in candidates
    requires "" !in candidates && SameFolded(ab, c, first)
    requires OfLength(ordered, |c|) != [] && OfLength(ordered, |c|)[0] == first
    ensures FirstFit(ab, c, ordered, 0) == Some(first)
    ensures FirstFit(ab, c, ordered, |c|) == None
  {
    assert c[0..|first|] == c;
    FirstOfLength(ab, c, ordered, 0);
    FitIsFirst(ab, c, ordered, |c|);
  }

  /** On a text that is `c` itself the scan reports the first candidate, in set order, that equals
      `c` up to case. */
  lemma OwnTextFindsTheFirstVariant(ab: Alphabet, candidates: seq<string>, order: seq<string>, c: string)
    requires IsSetOrder(order, candidates) && "" !in candidates
    requires order != [] && SameFolded(ab, c, order[0])
    ensures Terms(Scan(ab, c, LongestFirst(order), 0)) == {order[0]}
  {
    hide Occurs;
    var first := order[0];
    var ordered := LongestFirst(order);
    LongestFirstSorts(order, |c|);
    assert first in order && OfLength(order, |c|)[0] == first;
    OwnTextFits(ab, candidates, ordered, first, c);
    hide FirstFit, LongestFirst, OfLength;
    assert Scan(ab, c, ordered, |c| + 1) == [];
    assert Scan(ab, c, ordered, |c|) == [];
    assert Scan(ab, c, ordered, 0) == [Hit(Span(0, |c|), first)];
  }

  /** When a candidate as long as the rest of the text fits, it is the first such in the list that does. */
  lemma {:induction false} FirstOfLength(ab: Alphabet, text: string, ordered: seq<string>, at: nat)
    requires Descending(ordered) && at <= |text|
    requires OfLength(ordered, |text| - at) != []
    requires Occurs(ab, text, OfLength(ordered, |text| - at)[0], at)
    ensures FirstFit(ab, text, ordered, at) == Some(OfLength(ordered, |text| - at)[0])
  {
    if !Occurs(ab, text, ordered[0], at) {
      FirstOfLength(ab, text, ordered[1..], at);
    } else if |ordered[0]| != |text| - at {
      LengthMember(ordered, |text| - at);
    }
  }

  lemma {:induction false} LengthMember(terms: seq<string>, n: nat)
    requires OfLength(terms, n) != []
    ensures OfLength(terms, n)[0] in terms && |OfLength(terms, n)[0]| == n
  {
    if |terms[0]| != n { LengthMember(terms[1..], n); }
  }

  lemma {:induction false} Enumerate(candidates: seq<string>) returns (order: seq<string>)
    ensures IsSetOrder(order, candidates)
  {
    if candidates == [] {
      order := [];
    } else {
      order := Enumerate(candidates[1..]);
      if candidates[0] !in order { order := [candidates[0]] + order; }
      assert forall c :: c in candidates <==> c == candidates[0] || c in candidates[1..];
    }
  }

  lemma OrderStartingWith(candidates: seq<string>, c: string) returns (order: seq<string>)
    requires c in candidates
    ensures IsSetOrder(order, candidates) && order != [] && order[0] == c
  {
    var any := Enumerate(candidates);
    assert c in any;
    var k :| 0 <= k < |any| && any[k] == c;
    order := [c] + any[..k] + any[k + 1..];
    forall x ensures x in order <==> x in candidates {
      if x in any {
        var j :| 0 <= j < |any| && any[j] == x;
        assert j == k || (j < k && any[..k][j] == x) || (j > k && any[k + 1..][j - k - 1] == x);
      }
    }
  }

  lemma {:induction false} KeepMatchedMembers(candidates: seq<string>, matched: set<string>)
    ensures forall c :: c in KeepMatched(candidates, matched) <==> c in candidates && c in matched
    ensures forall i, j :: 0 <= i < j < |KeepMatched(candidates, matched)| ==>
              KeepMatched(candidates, matched)[i] != KeepMatched(candidates, matched)[j]
  {
    if candidates != [] {
      var n := |candidates| - 1;
      KeepMatchedMembers(candidates[..n], matched);
      assert candidates == candidates[..n] + [candidates[n]];
    }
  }

  /** The spans never depend on the set's iteration order, but the reported terms do, for some
      answer, exactly when two different candidates differ by case alone. */
  lemma TermsIgnoreSetOrderIff(ab: Alphabet, candidates: seq<string>)
    requires "" !in candidates
    ensures TermsIgnoreSetOrder(ab, candidates) <==> CaseVariantFree(ab, candidates)
  {
    if CaseVariantFree(ab, candidates) {
      forall text, o1, o2 | IsSetOrder(o1, candidates) && IsSetOrder(o2, candidates)
        ensures MatchedTerms(ab, text, candidates, o1) == MatchedTerms(ab, text, candidates, o2)
      {
        SpansIgnoreOrder(ab, text, candidates, candidates, o1, o2);
        LongestFirstSorts(o1, 0);
        LongestFirstSorts(o2, 0);
        SameSpansSameTerms(ab, text, candidates, LongestFirst(o1), LongestFirst(o2));
        SameSpansSameTerms(ab, text, candidates, LongestFirst(o2), LongestFirst(o1));
        assert Terms(Scan(ab, text, LongestFirst(o1), 0)) == Terms(Scan(ab, text, LongestFirst(o2), 0));
      }
    } else {
      var c, d :| c in candidates && d in candidates && SameFolded(ab, c, d) && c != d;
      var o1 := OrderStartingWith(candidates, c);
      var o2 := OrderStartingWith(candidates, d);
      OwnTextFindsTheFirstVariant(ab, candidates, o1, c);
      OwnTextFindsTheFirstVariant(ab, candidates, o2, c);
      KeepMatchedMembers(candidates, {c});
      KeepMatchedMembers(candidates, {d});
      assert c in MatchedTerms(ab, c, candidates, o1);
      assert c !in MatchedTerms(ab, c, candidates, o2);
    }
  }

  // ----- what an occurrence is, and candidates that are empty -----

  /** `term` stands at `at` letter by letter, but for case, and touches no word character. */
  lemma OccursIff(ab: Alphabet, text: string, term: string, at: nat)
    ensures Occurs(ab, text, term, at) <==>
              && at + |term| <= |text|
              && (forall k :: 0 <= k < |term| ==> ab.fold(text[at + k]) == ab.fold(term[k]))
              && (at == 0 || !ab.isWord(text[at - 1]))
              && (at + |term| == |text| || !ab.isWord(text[at + |term|]))
  {
    if at + |term| <= |text| {
      var part := text[at..at + |term|];
      assert forall k :: 0 <= k < |term| ==> part[k] == text[at + k];
    }
  }

  /** The first place a span does not take: an empty one takes the place it stands at. */
  function Behind(s: Span): nat {
    if s.start == s.end then s.start + 1 else s.end
  }

  ghost predicate Takes(spans: seq<Span>, at: nat) {
    exists s :: s in spans && s.start <= at < Behind(s)
  }

  ghost predicate InTurn(spans: seq<Span>, from: nat, limit: nat) {
    spans == []
    || (from <= spans[0].start <= spans[0].end <= limit && InTurn(spans[1..], Behind(spans[0]), limit))
  }

  /** For any candidates, the empty name among them too: the spans come one behind the other, each is the
      longest candidate where it starts, and every occurrence of a candidate starts at a place some span
      takes. */
  lemma {:induction false} ScanTakesAll(
    ab: Alphabet, text: string, candidates: seq<string>, ordered: seq<string>, from: nat)
    requires Descending(ordered) && forall c :: c in ordered <==> c in candidates
    ensures var spans := Spans(Scan(ab, text, ordered, from));
            && InTurn(spans, from, |text|)
            && (forall s :: s in spans ==> IsLongestAt(ab, text, candidates, s))
            && forall at: nat :: at >= from && StartsAt(ab, text, candidates, at) ==> Takes(spans, at)
    decreases |text| + 1 - from
  {
    hide Occurs, FirstFit, IsLongestAt, Descending, StartsAt, Takes;
    if from <= |text| {
      FitIsLongest(ab, text, candidates, ordered, from);
      match FirstFit(ab, text, ordered, from)
      case None =>
        ScanTakesAll(ab, text, candidates, ordered, from + 1);
      case Some(term) =>
        var span := Span(from, from + |term|);
        var next := Resume(from, term);
        assert next == Behind(span);
        ScanTakesAll(ab, text, candidates, ordered, next);
        var rest := Scan(ab, text, ordered, next);
        SpansOfCons(Hit(span, term), rest);
        SpanInFront(ab, text, candidates, span, Spans(rest));
    } else {
      PastTheEnd(ab, text, candidates, from);
    }
  }

  lemma SpanInFront(ab: Alphabet, text: string, candidates: seq<string>, s: Span, rest: seq<Span>)
    requires s.start <= s.end <= |text| && InTurn(rest, Behind(s), |text|)
    requires forall at: nat :: at >= Behind(s) && StartsAt(ab, text, candidates, at) ==> Takes(rest, at)
    ensures InTurn([s] + rest, s.start, |text|)
    ensures forall at: nat :: at >= s.start && StartsAt(ab, text, candidates, at) ==> Takes([s] + rest, at)
  {
    hide StartsAt;
    var all := [s] + rest;
    assert all[1..] == rest && all[0] in all;
    forall at: nat | at >= s.start && StartsAt(ab, text, candidates, at) ensures Takes(all, at) {
      if at >= Behind(s) {
        var t :| t in rest && t.start <= at < Behind(t);
        assert t in all;
      }
    }
  }
}
