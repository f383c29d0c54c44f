/** app/services/claims.py: finding the sentence of the answer that a citation backs. */
module Claims {
  import opened Options
  import opened Adapters
  import opened Text
  import Utf8
  import A = Anthropic

  datatype Method = AnthropicBlock | OpenaiBeforeMarker | GeminiSentence

  datatype DerivedClaim = DerivedClaim(text: string, start: nat, end: nat, how: Method)

  /** What this module reads of a stored citation. */
  datatype StoredCitation = StoredCitation(
    position: Option<int>,
    sourceUrl: Option<string>,
    citedAnswerSpan: Option<string>,
    answerSpanStart: Option<int>,
    answerSpanEnd: Option<int>)

  function Store(c: Citation): StoredCitation {
    StoredCitation(Some(c.position), c.sourceUrl, c.citedAnswerSpan, c.answerSpanStart, c.answerSpanEnd)
  }

  /** The claim is a literal, non-empty piece of the answer. */
  predicate IsSliceOf(c: DerivedClaim, text: string) {
    c.text != "" && c.start <= c.end <= |text| && text[c.start..c.end] == c.text
  }

  const MIN_OPENAI_CLAIM_LENGTH := 15

  // ----- boundaries -----

  /** The run of word characters that ends just before `pos`. */
  function WordRun(ct: CharTable, text: string, pos: nat): (r: nat)
    requires pos <= |text|
    ensures r <= pos
  {
    if pos > 0 && ct.isWord(text[pos - 1]) then 1 + WordRun(ct, text, pos - 1) else 0
  }

  method PrecedingWordLength(ct: CharTable, text: string, pos: nat) returns (r: nat)
    requires pos <= |text|
    ensures r == WordRun(ct, text, pos)
    ensures r <= pos && forall k :: pos - r <= k < pos ==> ct.isWord(text[k])
    ensures r < pos ==> !ct.isWord(text[pos - r - 1])
  {
    var i := pos;
    while i > 0 && ct.isWord(text[i - 1])
      invariant 0 <= i <= pos
      invariant WordRun(ct, text, pos) == pos - i + WordRun(ct, text, i)
      invariant forall k :: i <= k < pos ==> ct.isWord(text[k])
    {
      i := i - 1;
    }
    r := pos - i;
  }

  predicate IsCloser(c: char) {
    c == '"' || c == '\'' || c == '\U{201C}' || c == '\U{201D}' || c == ')' || c == ']'
  }

  /** A terminator, at most one closing quote or bracket, one whitespace; the end of it. */
  function SentenceEndAt(ct: CharTable, text: string, i: nat, limit: nat): (r: Option<nat>)
    requires limit <= |text|
    ensures r.Some? ==> i < r.value <= limit
  {
    if i >= limit || text[i] !in ".!?" then None
    else if i + 2 < limit && IsCloser(text[i + 1]) && ct.isSpace(text[i + 2]) then Some(i + 3)
    else if i + 1 < limit && ct.isSpace(text[i + 1]) then Some(i + 2)
    else None
  }

  /** Ends of sentences found from `i` on, leaving out those after a one-letter word. */
  function SentenceEnds(ct: CharTable, text: string, i: nat, limit: nat): (r: seq<nat>)
    requires limit <= |text|
    ensures forall c :: c in r ==> i < c <= limit
    decreases limit - i
  {
    if i >= limit then []
    else
      match SentenceEndAt(ct, text, i, limit)
      case None => SentenceEnds(ct, text, i + 1, limit)
      case Some(e) => (if WordRun(ct, text, i) > 1 then [e] else []) + SentenceEnds(ct, text, e, limit)
  }

  ghost predicate IsSentenceEnd(ct: CharTable, text: string, from: nat, limit: nat, c: nat)
    requires limit <= |text|
  {
    exists i: nat :: from <= i < limit && SentenceEndAt(ct, text, i, limit) == Some(c) && WordRun(ct, text, i) > 1
  }

  /** The left-to-right scan, which skips past each match, misses no sentence end. */
  lemma {:induction false} SentenceEndsAreAll(ct: CharTable, text: string, from: nat, limit: nat, c: nat)
    requires limit <= |text| && !ct.isSpace('.') && !ct.isSpace('!') && !ct.isSpace('?')
    ensures c in SentenceEnds(ct, text, from, limit) <==> IsSentenceEnd(ct, text, from, limit, c)
    decreases limit - from
  {
    if from < limit {
      match SentenceEndAt(ct, text, from, limit)
      case None =>
        SentenceEndsAreAll(ct, text, from + 1, limit, c);
      case Some(e) =>
        SentenceEndsAreAll(ct, text, e, limit, c);
        assert forall i: nat :: from < i < e ==> SentenceEndAt(ct, text, i, limit) == None;
    }
  }

  /** A link marker `([..](..))` starting at `i`; the end of it. */
  function MarkerAt(text: string, i: nat, limit: nat): (r: Option<nat>)
    requires limit <= |text|
    ensures r.Some? ==> i < r.value <= limit
  {
    if i + 2 > limit || text[i] != '(' || text[i + 1] != '[' then None
    else
      var j := Find(text, "]", i + 2, limit);
      if j == -1 || j + 1 >= limit || text[j + 1] != '(' then None
      else
        var k := Find(text, ")", j + 2, limit);
        if k != -1 && k + 1 < limit && text[k + 1] == ')' then Some(k + 2) else None
  }

  function MarkerEnds(text: string, i: nat, limit: nat): (r: seq<nat>)
    requires limit <= |text|
    ensures forall c :: c in r ==> i < c <= limit
    decreases limit - i
  {
    if i >= limit then []
    else
      match MarkerAt(text, i, limit)
      case None => MarkerEnds(text, i + 1, limit)
      case Some(e) => [e] + MarkerEnds(text, e, limit)
  }

  function LineStart(text: string, c: char, pos: nat): (r: seq<nat>)
    requires pos <= |text|
    ensures forall k :: k in r ==> 0 < k <= pos
  {
    var at := RFindChar(text, c, pos);
    if at == -1 then [] else [at + 1]
  }

  function Candidates(ct: CharTable, text: string, pos: nat): (r: seq<nat>)
    requires pos <= |text|
    ensures forall c :: c in r ==> 0 < c <= pos
  {
    SentenceEnds(ct, text, 0, pos) + LineStart(text, '\n', pos) + LineStart(text, '|', pos) + MarkerEnds(text, 0, pos)
  }

  /** The largest candidate with something but whitespace between it and `pos`; 0 when there is none. */
  function Nearest(ct: CharTable, text: string, pos: nat, candidates: seq<nat>): (r: nat)
    requires pos <= |text| && forall c :: c in candidates ==> c <= pos
    ensures r == 0 || (r in candidates && !IsBlank(ct, text[r..pos]))
    ensures r <= pos
    ensures forall c :: c in candidates && c > r ==> IsBlank(ct, text[c..pos])
  {
    if candidates == [] then 0
    else
      assert forall c :: c in candidates[1..] ==> c in candidates;
      var best := Nearest(ct, text, pos, candidates[1..]);
      var c := candidates[0];
      assert c in candidates;
      if c > best && !IsBlank(ct, text[c..pos]) then c else best
  }

  function Boundary(ct: CharTable, text: string, pos: nat): (r: nat)
    requires pos <= |text|
    ensures r <= pos
  {
    Nearest(ct, text, pos, Candidates(ct, text, pos))
  }

  /** The boundary is the nearest place where a sentence, line, cell or marker ends and after which
      something stands before `pos`: every nearer such place is followed by whitespace alone. */
  lemma BoundaryIsNearest(ct: CharTable, text: string, pos: nat)
    requires pos <= |text|
    ensures var r := Boundary(ct, text, pos);
            && (r == 0 || (r in Candidates(ct, text, pos) && !IsBlank(ct, text[r..pos])))
            && (forall c :: c in Candidates(ct, text, pos) && c > r ==> IsBlank(ct, text[c..pos]))
  {
  }

  function InsertDescending(x: nat, sorted: seq<nat>): seq<nat> {
    if sorted == [] || x >= sorted[0] then [x] + sorted else [sorted[0]] + InsertDescending(x, sorted[1..])
  }

  function SortDescending(s: seq<nat>): seq<nat> {
    if s == [] then [] else InsertDescending(s[0], SortDescending(s[1..]))
  }

  ghost predicate IsDescending(s: seq<nat>) {
    forall i, j :: 0 <= i < j < |s| ==> s[i] >= s[j]
  }

  lemma {:induction false} InsertMembers(x: nat, sorted: seq<nat>)
    ensures forall c :: c in InsertDescending(x, sorted) <==> c == x || c in sorted
  {
    if sorted != [] && x < sorted[0] {
      InsertMembers(x, sorted[1..]);
      assert sorted == [sorted[0]] + sorted[1..];
    }
  }

  lemma {:induction false} InsertIsDescending(x: nat, sorted: seq<nat>)
    requires IsDescending(sorted)
    ensures IsDescending(InsertDescending(x, sorted))
  {
    if sorted != [] && x < sorted[0] {
      InsertIsDescending(x, sorted[1..]);
      InsertMembers(x, sorted[1..]);
      var rest := InsertDescending(x, sorted[1..]);
      forall j | 0 <= j < |rest| ensures sorted[0] >= rest[j] { assert rest[j] in rest; }
    }
  }

  lemma {:induction false} SortedMembers(s: seq<nat>)
    ensures IsDescending(SortDescending(s))
    ensures forall c :: c in SortDescending(s) <==> c in s
  {
    if s != [] {
      SortedMembers(s[1..]);
      InsertIsDescending(s[0], SortDescending(s[1..]));
      InsertMembers(s[0], SortDescending(s[1..]));
      assert s == [s[0]] + s[1..];
    }
  }

  lemma NearestIsForced(ct: CharTable, text: string, pos: nat, candidates: seq<nat>, r: nat)
    requires pos <= |text| && forall c :: c in candidates ==> c <= pos
    requires r == 0 || (r in candidates && !IsBlank(ct, text[r..pos]))
    requires forall c :: c in candidates && c > r ==> IsBlank(ct, text[c..pos])
    ensures r == Nearest(ct, text, pos, candidates)
  {
    hide IsBlank;
  }

  /** The walk over the candidates, nearest first. */
  method BoundaryBefore(ct: CharTable, text: string, pos: nat) returns (r: nat)
    requires pos <= |text|
    ensures r == Boundary(ct, text, pos)
  {
    var candidates := Candidates(ct, text, pos);
    var sorted := SortDescending(candidates);
    SortedMembers(candidates);
    hide Candidates, SortDescending, IsBlank;
    for i := 0 to |sorted|
      invariant forall k :: 0 <= k < |sorted| ==> sorted[k] in candidates
      invariant forall k :: 0 <= k < i ==> IsBlank(ct, text[sorted[k]..pos])
    {
      assert sorted[i] in sorted;
      if !IsBlank(ct, text[sorted[i]..pos]) {
        forall c | c in candidates && c > sorted[i] ensures IsBlank(ct, text[c..pos]) {
          assert c in sorted;
        }
        NearestIsForced(ct, text, pos, candidates, sorted[i]);
        return sorted[i];
      }
    }
    forall c | c in candidates && c > 0 ensures IsBlank(ct, text[c..pos]) { assert c in sorted; }
    NearestIsForced(ct, text, pos, candidates, 0);
    r := 0;
  }

  // ----- leading markdown -----

  function CountLeading(s: string, c: char): (n: nat)
    ensures n <= |s|
  {
    if s != "" && s[0] == c then 1 + CountLeading(s[1..], c) else 0
  }

  function LeadingDigits(ct: CharTable, s: string): (n: nat)
    ensures n <= |s|
  {
    if s != "" && ct.isDigit(s[0]) then 1 + LeadingDigits(ct, s[1..]) else 0
  }

  /** Length of the list, heading or emphasis mark the text starts with; 0 when there is none. */
  function LeadingToken(ct: CharTable, s: string): (n: nat)
    ensures n <= |s|
  {
    if |s| >= 2 && (s[..2] == "**" || s[..2] == "__") then 2
    else if s != "" && s[0] == '#' then
      var hashes := CountLeading(s, '#');
      hashes + LeadingSpaces(ct, s[hashes..])
    else if s != "" && s[0] in "-*+" && LeadingSpaces(ct, s[1..]) > 0 then 1 + LeadingSpaces(ct, s[1..])
    else if NumberToken(ct, s) > 0 then NumberToken(ct, s)
    else if s != "" && s[0] == '|' then 1 + LeadingSpaces(ct, s[1..])
    else 0
  }

  function NumberToken(ct: CharTable, s: string): (n: nat)
    ensures n <= |s|
  {
    var digits := LeadingDigits(ct, s);
    if digits > 0 && digits < |s| && s[digits] in ".)" && LeadingSpaces(ct, s[digits + 1..]) > 0 then
      digits + 1 + LeadingSpaces(ct, s[digits + 1..])
    else 0
  }

  function DropTokens(ct: CharTable, s: string): (r: string)
    decreases |s|
  {
    var n := LeadingToken(ct, s);
    if n == 0 then s else DropTokens(ct, LStrip(ct, s[n..]))
  }

  function CleanLeading(ct: CharTable, raw: string): string {
    DropTokens(ct, Strip(ct, raw))
  }

  method CleanLeadingLoop(ct: CharTable, raw: string) returns (cleaned: string)
    ensures cleaned == CleanLeading(ct, raw)
  {
    cleaned := Strip(ct, raw);
    var n := LeadingToken(ct, cleaned);
    while n > 0
      invariant DropTokens(ct, cleaned) == CleanLeading(ct, raw)
      invariant n == LeadingToken(ct, cleaned)
      decreases |cleaned|, n
    {
      cleaned := LStrip(ct, cleaned[n..]);
      n := LeadingToken(ct, cleaned);
    }
  }

  lemma SuffixOfSuffix(s: string, a: nat, b: nat)
    requires a <= |s| && b <= |s[a..]|
    ensures s[a..][b..] == s[a + b..]
  {
  }

  lemma TokenLeavesTrim(ct: CharTable, s: string, n: nat)
    requires IsTrim(ct, s) && n <= |s|
    ensures IsTrim(ct, LStrip(ct, s[n..]))
    ensures LStrip(ct, s[n..]) == s[n + LeadingSpaces(ct, s[n..])..]
  {
    SuffixOfSuffix(s, n, LeadingSpaces(ct, s[n..]));
  }

  lemma {:induction false} DropTokensIsSuffix(ct: CharTable, s: string) returns (from: nat)
    requires IsTrim(ct, s)
    ensures from <= |s| && DropTokens(ct, s) == s[from..]
    ensures LeadingToken(ct, DropTokens(ct, s)) == 0 && IsTrim(ct, DropTokens(ct, s))
    decreases |s|
  {
    hide LeadingToken, LeadingSpaces, LStrip, IsTrim;
    var n := LeadingToken(ct, s);
    if n == 0 {
      from := 0;
    } else {
      var skipped := n + LeadingSpaces(ct, s[n..]);
      TokenLeavesTrim(ct, s, n);
      from := DropTokensIsSuffix(ct, s[skipped..]);
      SuffixOfSuffix(s, skipped, from);
      from := skipped + from;
    }
  }

  /** Cleaning only cuts at the two ends, and what is left can be found again in the input. */
  lemma CleanIsSlice(ct: CharTable, raw: string) returns (at: nat)
    ensures OccursAt(raw, CleanLeading(ct, raw), at)
    ensures LeadingToken(ct, CleanLeading(ct, raw)) == 0 && IsTrim(ct, CleanLeading(ct, raw))
  {
    StripCuts(ct, raw);
    var a := LeadingSpaces(ct, raw);
    var s := Strip(ct, raw);
    hide Strip, LeadingSpaces, LeadingToken, DropTokens;
    var from := DropTokensIsSuffix(ct, s);
    at := a + from;
    assert raw[a..a + |s|][from..] == raw[at..a + |s|];
  }

  /** Cleaning twice is cleaning once. */
  lemma CleanIsIdempotent(ct: CharTable, raw: string)
    ensures CleanLeading(ct, CleanLeading(ct, raw)) == CleanLeading(ct, raw)
  {
    var at := CleanIsSlice(ct, raw);
    TrimStripsToItself(ct, CleanLeading(ct, raw));
  }

  lemma FindStopsAt(text: string, part: string, from: nat, limit: nat, at: nat)
    requires from <= at && at + |part| <= limit && at + |part| <= |text| && text[at..at + |part|] == part
    ensures var r := Find(text, part, from, limit);
            r != -1 && from <= r <= at && r + |part| <= |text| && text[r..r + |part|] == part
  {
    hide Find;
    assert OccursAt(text, part, at);
  }

  lemma OccursThrough(text: string, from: nat, to: nat, part: string, offset: nat)
    requires from <= to <= |text| && OccursAt(text[from..to], part, offset)
    ensures from + offset + |part| <= to && text[from + offset..from + offset + |part|] == part
  {
    SliceOfSlice(text, from, text[from..to], offset, part);
  }

  lemma CleanedStands(ct: CharTable, text: string, from: nat, to: nat) returns (at: nat)
    requires from <= to <= |text|
    ensures var claim := CleanLeading(ct, text[from..to]);
            from <= at && at + |claim| <= to && text[at..at + |claim|] == claim
  {
    hide CleanLeading, LeadingToken, IsTrim;
    var offset := CleanIsSlice(ct, text[from..to]);
    OccursThrough(text, from, to, CleanLeading(ct, text[from..to]), offset);
    at := from + offset;
  }

  /** A cleaned piece of a text can always be found again where it was cut out. */
  lemma CleanedIsFound(ct: CharTable, text: string, from: nat, to: nat, limit: nat)
    requires from <= to <= |text| && to <= limit
    ensures var claim := CleanLeading(ct, text[from..to]);
            var r := Find(text, claim, from, limit);
            && r != -1 && from <= r && r + |claim| <= to && text[r..r + |claim|] == claim
  {
    hide CleanLeading, Find;
    var at := CleanedStands(ct, text, from, to);
    FindStopsAt(text, CleanLeading(ct, text[from..to]), from, limit, at);
  }

  /** The claim cut out of a window, if anything is left of it, is a slice of the text inside it. */
  lemma CutClaimIsSlice(ct: CharTable, text: string, from: nat, to: nat, limit: nat, how: Method)
    requires from <= to <= |text| && to <= limit
    ensures var claim := CleanLeading(ct, text[from..to]);
            var at := Find(text, claim, from, limit);
            && at != -1 && from <= at && at + |claim| <= to
            && (claim != "" ==> IsSliceOf(DerivedClaim(claim, at, at + |claim|, how), text))
  {
    hide CleanLeading;
    CleanedIsFound(ct, text, from, to, limit);
  }

  // ----- OpenAI -----

  /** Where the text the claim is cut from starts: one boundary back, two when that is too short. */
  function OpenaiBoundary(ct: CharTable, text: string, marker: nat): (r: nat)
    requires marker <= |text|
    ensures r <= marker
  {
    var boundary := Boundary(ct, text, marker);
    if |CleanLeading(ct, text[boundary..marker])| < MIN_OPENAI_CLAIM_LENGTH && boundary > 0 then
      Boundary(ct, text, boundary)
    else boundary
  }

  function OpenaiClaim(ct: CharTable, c: StoredCitation, text: string): Option<DerivedClaim> {
    if c.answerSpanStart.None? || c.answerSpanEnd.None? then None
    else if !(0 <= c.answerSpanStart.value <= c.answerSpanEnd.value <= |text|) then None
    else
      var marker := c.answerSpanStart.value;
      var boundary := OpenaiBoundary(ct, text, marker);
      var claim := CleanLeading(ct, text[boundary..marker]);
      var at := Find(text, claim, boundary, marker);
      if claim == "" || at == -1 then None
      else Some(DerivedClaim(claim, at, at + |claim|, OpenaiBeforeMarker))
  }

  method DeriveOpenaiClaim(ct: CharTable, c: StoredCitation, text: string) returns (r: Option<DerivedClaim>)
    ensures r == OpenaiClaim(ct, c, text)
  {
    hide Boundary, CleanLeading;
    if c.answerSpanStart.None? || c.answerSpanEnd.None? {
      return None;
    }
    var startIndex, endIndex := c.answerSpanStart.value, c.answerSpanEnd.value;
    if !(0 <= startIndex <= endIndex <= |text|) {
      return None;
    }
    var boundary := BoundaryBefore(ct, text, startIndex);
    var claim := CleanLeadingLoop(ct, text[boundary..startIndex]);
    if |claim| < MIN_OPENAI_CLAIM_LENGTH && boundary > 0 {
      var earlier := BoundaryBefore(ct, text, boundary);
      EarlierBoundaryIsEarlier(ct, text, boundary);
      if earlier < boundary {
        claim := CleanLeadingLoop(ct, text[earlier..startIndex]);
        boundary := earlier;
      }
    }
    if claim == "" {
      return None;
    }
    var at := Find(text, claim, boundary, startIndex);
    if at == -1 {
      return None;
    }
    r := Some(DerivedClaim(claim, at, at + |claim|, OpenaiBeforeMarker));
  }

  /** A boundary taken before a boundary really lies before it. */
  lemma EarlierBoundaryIsEarlier(ct: CharTable, text: string, boundary: nat)
    requires 0 < boundary <= |text|
    ensures Boundary(ct, text, boundary) < boundary
  {
    hide Candidates;
    assert text[boundary..boundary] == "";
  }

  // ----- Gemini -----

  /** The character index a UTF-8 byte offset points at; a negative offset counts from the end. */
  function ByteOffsetToCharHint(text: string, byteOffset: Option<int>): Option<int> {
    if byteOffset.None? then None
    else
      var encoded := Utf8.Encode(text);
      var b := byteOffset.value;
      if b >= |encoded| then Some(|text|)
      else Some(|Utf8.DecodeIgnore(encoded[..if b >= 0 then b else Max(0, |encoded| + b)])|)
  }

  function ClosestFrom(text: string, segment: string, hint: int, best: int, pos: nat): int
    requires pos <= |text|
    decreases |text| - pos
  {
    var next := Find(text, segment, pos + 1, |text|);
    if next == -1 then best
    else ClosestFrom(text, segment, hint, if Abs(next - hint) < Abs(best - hint) then next else best, next)
  }

  function Closest(text: string, segment: string, hint: Option<int>): int {
    var first := Find(text, segment, 0, |text|);
    if first == -1 || hint.None? then first else ClosestFrom(text, segment, hint.value, first, first)
  }

  method FindClosestOccurrence(text: string, segment: string, hint: Option<int>) returns (best: int)
    ensures best == Closest(text, segment, hint)
  {
    var first := Find(text, segment, 0, |text|);
    if first == -1 || hint.None? {
      return first;
    }
    var bestDistance := Abs(first - hint.value);
    best := first;
    var pos: nat := first;
    while true
      invariant 0 <= pos <= |text| && bestDistance == Abs(best - hint.value)
      invariant ClosestFrom(text, segment, hint.value, best, pos) == Closest(text, segment, hint)
      decreases |text| - pos
    {
      var next := Find(text, segment, pos + 1, |text|);
      if next == -1 {
        return;
      }
      var distance := Abs(next - hint.value);
      if distance < bestDistance {
        best, bestDistance := next, distance;
      }
      pos := next;
    }
  }

  /** `best` is the occurrence nearest to the hint among those up to `pos`, the earliest on ties. */
  ghost predicate NearestUpTo(text: string, segment: string, hint: int, best: int, pos: int) {
    && OccursAt(text, segment, best) && best <= pos
    && forall at :: at <= pos && OccursAt(text, segment, at) ==>
         Abs(best - hint) <= Abs(at - hint) && (Abs(best - hint) == Abs(at - hint) ==> best <= at)
  }

  lemma NoneLeft(text: string, segment: string, hint: int, best: int, pos: nat)
    requires pos <= |text| && NearestUpTo(text, segment, hint, best, pos)
    requires Find(text, segment, pos + 1, |text|) == -1
    ensures NearestUpTo(text, segment, hint, best, |text|)
  {
    hide Find;
  }

  lemma OneMoreOccurrence(text: string, segment: string, hint: int, best: int, pos: nat, next: int)
    requires pos <= |text| && NearestUpTo(text, segment, hint, best, pos)
    requires next == Find(text, segment, pos + 1, |text|) && next != -1
    ensures NearestUpTo(text, segment, hint, if Abs(next - hint) < Abs(best - hint) then next else best, next)
  {
    var found := OccursAt(text, segment, next);
    assert found && forall at :: pos < at < next ==> !OccursAt(text, segment, at);
    hide OccursAt, Find;
  }

  lemma {:induction false} ClosestFromIsNearest(text: string, segment: string, hint: int, best: int, pos: nat)
    requires pos <= |text| && NearestUpTo(text, segment, hint, best, pos)
    ensures NearestUpTo(text, segment, hint, ClosestFrom(text, segment, hint, best, pos), |text|)
    decreases |text| - pos
  {
    hide NearestUpTo, Abs, OccursAt;
    var next := Find(text, segment, pos + 1, |text|);
    if next == -1 {
      NoneLeft(text, segment, hint, best, pos);
    } else {
      OneMoreOccurrence(text, segment, hint, best, pos, next);
      assert pos < next <= |text| by { FoundInside(text, segment, pos + 1); }
      ClosestFromIsNearest(text, segment, hint, if Abs(next - hint) < Abs(best - hint) then next else best, next);
    }
  }

  lemma FoundInside(text: string, segment: string, from: nat)
    ensures Find(text, segment, from, |text|) != -1 ==> from <= Find(text, segment, from, |text|) <= |text|
  {
  }

  /** Over all occurrences, overlapping ones included, the result has the least distance to the hint,
      and is the earliest of those; without a hint it is the first occurrence. */
  lemma ClosestIsNearest(text: string, segment: string, hint: Option<int>)
    ensures var r := Closest(text, segment, hint);
            && (r == -1 <==> forall at :: !OccursAt(text, segment, at))
            && (r != -1 && hint.Some? ==> NearestUpTo(text, segment, hint.value, r, |text|))
            && (r != -1 && hint.None? ==> OccursAt(text, segment, r) && forall at :: OccursAt(text, segment, at) ==> r <= at)
  {
    var first := Find(text, segment, 0, |text|);
    if first != -1 && hint.Some? {
      ClosestFromIsNearest(text, segment, hint.value, first, first);
    }
  }

  /** A byte offset that is the UTF-8 length of the first `k` characters is turned into `k`. */
  lemma HintIsExact(text: string, k: nat)
    requires k <= |text|
    ensures ByteOffsetToCharHint(text, Some(|Utf8.Encode(text[..k])|)) == Some(k)
  {
    var encoded, b := Utf8.Encode(text), |Utf8.Encode(text[..k])|;
    assert text[..|text|] == text;
    if k < |text| {
      Utf8.LongerTextMoreBytes(text, k, |text|);
      Utf8.PrefixDecodes(text, b);
      var m := |Utf8.DecodeIgnore(encoded[..b])|;
      if m < k {
        if m + 1 < k { Utf8.LongerTextMoreBytes(text, m + 1, k); }
      } else if k < m {
        Utf8.LongerTextMoreBytes(text, k, m);
      }
    }
  }

  /** Any byte offset inside the text points at the character whose bytes it falls into. */
  lemma HintIsEnclosingChar(text: string, b: nat)
    requires b < |Utf8.Encode(text)|
    ensures var m := |Utf8.DecodeIgnore(Utf8.Encode(text)[..b])|;
            && ByteOffsetToCharHint(text, Some(b)) == Some(m)
            && m < |text| && |Utf8.Encode(text[..m])| <= b < |Utf8.Encode(text[..m + 1])|
  {
    Utf8.PrefixDecodes(text, b);
    assert text[..|text|] == text;
  }

  /** The segment is located where it really stands, however often it recurs. */
  lemma GeminiFindsTheRightOccurrence(text: string, segment: string, k: nat)
    requires OccursAt(text, segment, k)
    ensures Closest(text, segment, ByteOffsetToCharHint(text, Some(|Utf8.Encode(text[..k])|))) == k
  {
    HintIsExact(text, k);
    ClosestIsNearest(text, segment, Some(k));
  }

  /** The end of the sentence or line a segment ends in. */
  function ForwardEnd(text: string, i: nat): (r: nat)
    requires i <= |text|
    ensures i <= r <= |text|
    decreases |text| - i
  {
    if i == |text| then |text|
    else if text[i] in ".!?" then i + 1
    else if text[i] == '\n' then i
    else ForwardEnd(text, i + 1)
  }

  function GeminiClaim(ct: CharTable, c: StoredCitation, text: string): Option<DerivedClaim> {
    if c.citedAnswerSpan.None? || c.citedAnswerSpan.value == "" then None
    else
      var segment := c.citedAnswerSpan.value;
      var start := Closest(text, segment, ByteOffsetToCharHint(text, c.answerSpanStart));
      ClosestIsNearest(text, segment, ByteOffsetToCharHint(text, c.answerSpanStart));
      if start == -1 then None
      else
        var end := ForwardEnd(text, start + |segment|);
        var boundary := Boundary(ct, text, start);
        var claim := CleanLeading(ct, text[boundary..end]);
        var at := Find(text, claim, boundary, end + 1);
        if claim == "" || at == -1 then None
        else Some(DerivedClaim(claim, at, at + |claim|, GeminiSentence))
  }

  method ScanForward(text: string, segmentEnd: nat) returns (forwardEnd: nat)
    requires segmentEnd <= |text|
    ensures forwardEnd == ForwardEnd(text, segmentEnd)
    ensures segmentEnd <= forwardEnd <= |text|
    ensures forall k :: segmentEnd <= k < forwardEnd - 1 ==> text[k] !in ".!?\n"
  {
    forwardEnd := |text|;
    for i := segmentEnd to |text|
      invariant forwardEnd == |text|
      invariant ForwardEnd(text, i) == ForwardEnd(text, segmentEnd)
      invariant forall k :: segmentEnd <= k < i ==> text[k] !in ".!?\n"
    {
      if text[i] in ".!?" {
        return i + 1;
      }
      if text[i] == '\n' {
        return i;
      }
    }
  }

  method DeriveGeminiClaim(ct: CharTable, c: StoredCitation, text: string) returns (r: Option<DerivedClaim>)
    ensures r == GeminiClaim(ct, c, text)
  {
    hide Boundary, CleanLeading, ByteOffsetToCharHint, Closest, Find, ForwardEnd;
    if c.citedAnswerSpan.None? || c.citedAnswerSpan.value == "" {
      return None;
    }
    var segment := c.citedAnswerSpan.value;
    var hint := ByteOffsetToCharHint(text, c.answerSpanStart);
    var start := FindClosestOccurrence(text, segment, hint);
    ClosestIsNearest(text, segment, hint);
    if start == -1 {
      return None;
    }
    var forwardEnd := ScanForward(text, start + |segment|);
    var boundary := BoundaryBefore(ct, text, start);
    var claim := CleanLeadingLoop(ct, text[boundary..forwardEnd]);
    if claim == "" {
      return None;
    }
    var at := Find(text, claim, boundary, forwardEnd + 1);
    if at == -1 {
      return None;
    }
    r := Some(DerivedClaim(claim, at, at + |claim|, GeminiSentence));
  }

  // ----- Anthropic -----

  datatype Traced = Traced(block: nat, citation: A.BlockCitation)

  /** Every citation of every text block, with the number of its block. */
  function Flatten(blocks: seq<A.Block>): seq<Traced> {
    if blocks == [] then []
    else
      var n := |blocks| - 1;
      var cs := A.CitationsOf(blocks[n]);
      Flatten(blocks[..n]) + seq(|cs|, j requires 0 <= j < |cs| => Traced(n, cs[j]))
  }

  /** Citation `j` of block `b` is where the running count says. */
  predicate IsFlatAt(flat: seq<Traced>, blocks: seq<A.Block>, b: nat, j: nat)
    requires b < |blocks| && j < |A.CitationsOf(blocks[b])|
  {
    var p := A.CitationStart(blocks, b) + j;
    p < |flat| && flat[p] == Traced(b, A.CitationsOf(blocks[b])[j])
  }

  lemma FlatStays(flat: seq<Traced>, more: seq<Traced>, blocks: seq<A.Block>, last: A.Block, b: nat, j: nat)
    requires b < |blocks| && j < |A.CitationsOf(blocks[b])| && IsFlatAt(flat, blocks, b, j)
    requires |flat| <= |more| && more[..|flat|] == flat
    ensures IsFlatAt(more, blocks + [last], b, j)
  {
    A.StartsOfPrefix(blocks, last, b);
    assert more[..|flat|][A.CitationStart(blocks, b) + j] == flat[A.CitationStart(blocks, b) + j];
  }

  lemma FlatIsNew(flat: seq<Traced>, more: seq<Traced>, blocks: seq<A.Block>, last: A.Block, j: nat)
    requires |flat| == A.CitationStart(blocks, |blocks|) && j < |A.CitationsOf(last)|
    requires |flat| + j < |more| && more[|flat| + j] == Traced(|blocks|, A.CitationsOf(last)[j])
    ensures IsFlatAt(more, blocks + [last], |blocks|, j)
  {
    A.StartsOfPrefix(blocks, last, |blocks|);
  }

  lemma {:induction false} FlattenAt(blocks: seq<A.Block>)
    ensures |Flatten(blocks)| == A.CitationStart(blocks, |blocks|)
    ensures forall t :: t in Flatten(blocks) ==> t.block < |blocks|
    ensures forall b: nat, j: nat :: b < |blocks| && j < |A.CitationsOf(blocks[b])| ==>
              IsFlatAt(Flatten(blocks), blocks, b, j)
  {
    if blocks != [] {
      hide IsFlatAt, A.CitationsOf;
      var n := |blocks| - 1;
      var before, last := blocks[..n], blocks[n];
      assert blocks == before + [last];
      FlattenAt(before);
      A.StartsOfPrefix(before, last, n);
      forall b: nat, j: nat | b < |blocks| && j < |A.CitationsOf(blocks[b])|
        ensures IsFlatAt(Flatten(blocks), blocks, b, j)
      {
        if b < n {
          assert blocks[b] == before[b];
          FlatStays(Flatten(before), Flatten(blocks), before, last, b, j);
        } else {
          FlatIsNew(Flatten(before), Flatten(blocks), before, last, j);
        }
      }
    }
  }

  function AnthropicClaim(ct: CharTable, c: StoredCitation, content: seq<A.Block>): Option<DerivedClaim> {
    var blocks := A.TextBlocks(content);
    var flattened := Flatten(blocks);
    if c.position.None? || !(0 <= c.position.value < |flattened|) then None
    else
      var t := flattened[c.position.value];
      FlattenAt(blocks);
      if t.citation.url != c.sourceUrl then None
      else
        var text := A.TextOf(blocks[t.block]);
        var stripped := Strip(ct, text);
        var start := A.TextStart(blocks, t.block) + LeadingSpaces(ct, text);
        if stripped == "" then None
        else Some(DerivedClaim(stripped, start, start + |stripped|, AnthropicBlock))
  }

  method DeriveAnthropicClaim(ct: CharTable, c: StoredCitation, content: seq<A.Block>)
    returns (r: Option<DerivedClaim>)
    ensures r == AnthropicClaim(ct, c, content)
  {
    hide Strip, LeadingSpaces, A.TextBlocks, A.TextOf, A.CitationsOf, IsFlatAt;
    var blocks := A.TextBlocks(content);
    var flattened: seq<Traced> := [];
    for b := 0 to |blocks|
      invariant flattened == Flatten(blocks[..b])
    {
      assert blocks[..b + 1][..b] == blocks[..b];
      var cs := A.CitationsOf(blocks[b]);
      flattened := flattened + seq(|cs|, j requires 0 <= j < |cs| => Traced(b, cs[j]));
    }
    assert blocks[..|blocks|] == blocks;
    if c.position.None? || !(0 <= c.position.value < |flattened|) {
      return None;
    }
    var t := flattened[c.position.value];
    FlattenAt(blocks);
    if t.citation.url != c.sourceUrl {
      return None;
    }
    var blockStart := 0;
    for b := 0 to t.block
      invariant blockStart == A.TextStart(blocks, b)
    {
      blockStart := blockStart + |A.TextOf(blocks[b])|;
    }
    var text := A.TextOf(blocks[t.block]);
    var stripped := Strip(ct, text);
    if stripped == "" {
      return None;
    }
    var start := blockStart + LeadingSpaces(ct, text);
    r := Some(DerivedClaim(stripped, start, start + |stripped|, AnthropicBlock));
  }

  lemma {:induction false} BlockOfPosition(blocks: seq<A.Block>, p: nat) returns (b: nat, j: nat)
    requires p < A.CitationStart(blocks, |blocks|)
    ensures b < |blocks| && j < |A.CitationsOf(blocks[b])| && p == A.CitationStart(blocks, b) + j
  {
    var n := |blocks| - 1;
    if p >= A.CitationStart(blocks, n) {
      b, j := n, p - A.CitationStart(blocks, n);
    } else {
      assert blocks == blocks[..n] + [blocks[n]];
      A.StartsOfPrefix(blocks[..n], blocks[n], n);
      b, j := BlockOfPosition(blocks[..n], p);
      A.StartsOfPrefix(blocks[..n], blocks[n], b);
    }
  }

  /** Flatten and un-flatten are inverse: a citation mapped at position `p` is traced back to the
      block and the place in it that carried it; the URL check never rejects it, a claim is missing
      only when that block is blank, and otherwise lies inside that block's part of the answer. */
  lemma AnthropicTracesBack(
    ct: CharTable, content: seq<A.Block>, extractDomain: string -> Option<string>, p: nat)
    returns (b: nat, j: nat)
    requires p < |A.Mapped(content, extractDomain)|
    ensures var blocks := A.TextBlocks(content);
            var citation := A.Mapped(content, extractDomain)[p];
            var claim := AnthropicClaim(ct, Store(citation), content);
            && b < |blocks| && j < |A.CitationsOf(blocks[b])|
            && p == A.CitationStart(blocks, b) + j
            && citation == A.ToCitation(A.CitationsOf(blocks[b])[j], p, extractDomain)
            && (claim.None? <==> IsBlank(ct, A.TextOf(blocks[b])))
            && (claim.Some? ==>
                  && claim.value.text == Strip(ct, A.TextOf(blocks[b]))
                  && A.TextStart(blocks, b) <= claim.value.start
                  && claim.value.end <= A.TextStart(blocks, b) + |A.TextOf(blocks[b])|)
  {
    hide Strip, LeadingSpaces, A.TextBlocks, A.TextOf, A.CitationsOf, A.CitationStart, A.Mapped, Flatten, IsBlank;
    var blocks := A.TextBlocks(content);
    A.FlatteningIsTraceable(content, extractDomain);
    b, j := BlockOfPosition(blocks, p);
    assert A.IsAt(A.Mapped(content, extractDomain), blocks, b, j, extractDomain);
    FlattenAt(blocks);
    assert IsFlatAt(Flatten(blocks), blocks, b, j);
    StripCuts(ct, A.TextOf(blocks[b]));
  }

  // ----- every claim is a literal slice -----

  lemma AnthropicClaimIsSlice(ct: CharTable, c: StoredCitation, content: seq<A.Block>)
    ensures var claim := AnthropicClaim(ct, c, content);
            claim.Some? ==> IsSliceOf(claim.value, A.RenderedText(content))
  {
    hide Strip, LeadingSpaces, A.TextBlocks, A.TextOf, A.CitationsOf, A.CitationStart, Flatten, IsBlank, IsFlatAt;
    hide IsTrim, A.RenderedText, A.TextStart;
    var claim := AnthropicClaim(ct, c, content);
    if claim.Some? {
      var blocks := A.TextBlocks(content);
      FlattenAt(blocks);
      var b := Flatten(blocks)[c.position.value].block;
      A.RenderedTextByBlocks(content, b);
      var text, from := A.TextOf(blocks[b]), A.TextStart(blocks, b);
      StripCuts(ct, text);
      var a := LeadingSpaces(ct, text);
      SliceOfSlice(A.RenderedText(content), from, text, a, claim.value.text);
    }
  }

  lemma SliceOfSlice(all: string, from: nat, part: string, a: nat, inner: string)
    requires from + |part| <= |all| && all[from..from + |part|] == part
    requires a + |inner| <= |part| && part[a..a + |inner|] == inner
    ensures all[from + a..from + a + |inner|] == inner
  {
    forall k | 0 <= k < |inner| ensures all[from + a..from + a + |inner|][k] == inner[k] {
      assert part[a..a + |inner|][k] == part[a + k];
      assert all[from..from + |part|][a + k] == all[from + (a + k)];
    }
  }

  /** An OpenAI claim is a slice that ends at or before its marker; the search for it never fails, so
      a claim is missing only for bad offsets or when nothing is left after cleaning. */
  lemma OpenaiClaimIsSlice(ct: CharTable, c: StoredCitation, text: string)
    ensures var claim := OpenaiClaim(ct, c, text);
            && (claim.Some? ==> IsSliceOf(claim.value, text) && claim.value.end <= c.answerSpanStart.value)
            && (claim.None? <==>
                  || c.answerSpanStart.None? || c.answerSpanEnd.None?
                  || !(0 <= c.answerSpanStart.value <= c.answerSpanEnd.value <= |text|)
                  || CleanLeading(ct, text[OpenaiBoundary(ct, text, c.answerSpanStart.value)..c.answerSpanStart.value]) == "")
  {
    hide OpenaiBoundary, CleanLeading, IsSliceOf;
    if c.answerSpanStart.Some? && c.answerSpanEnd.Some?
       && 0 <= c.answerSpanStart.value <= c.answerSpanEnd.value <= |text| {
      var marker := c.answerSpanStart.value;
      CutClaimIsSlice(ct, text, OpenaiBoundary(ct, text, marker), marker, marker, OpenaiBeforeMarker);
    }
  }

  lemma GeminiClaimIsSlice(ct: CharTable, c: StoredCitation, text: string)
    ensures var claim := GeminiClaim(ct, c, text);
            claim.Some? ==> IsSliceOf(claim.value, text)
  {
    hide Boundary, CleanLeading, ByteOffsetToCharHint, Closest, IsSliceOf, ForwardEnd, Find;
    if GeminiClaim(ct, c, text).Some? {
      var segment := c.citedAnswerSpan.value;
      var hint := ByteOffsetToCharHint(text, c.answerSpanStart);
      ClosestIsNearest(text, segment, hint);
      var at := Closest(text, segment, hint);
      var end := ForwardEnd(text, at + |segment|);
      CutClaimIsSlice(ct, text, Boundary(ct, text, at), end, end + 1, GeminiSentence);
    }
  }

  /** A Gemini claim is cut from a window that contains the located segment; the search for it never
      fails either, so a located segment has no claim only when cleaning leaves nothing. */
  lemma GeminiWindowHoldsSegment(ct: CharTable, c: StoredCitation, text: string)
    requires c.citedAnswerSpan.Some? && c.citedAnswerSpan.value != ""
    ensures var segment := c.citedAnswerSpan.value;
            var at := Closest(text, segment, ByteOffsetToCharHint(text, c.answerSpanStart));
            && (at == -1 <==> forall k :: !OccursAt(text, segment, k))
            && (at == -1 ==> GeminiClaim(ct, c, text).None?)
            && (at != -1 ==>
                  && OccursAt(text, segment, at)
                  && Boundary(ct, text, at) <= at && at + |segment| <= ForwardEnd(text, at + |segment|)
                  && (GeminiClaim(ct, c, text).None? <==>
                        CleanLeading(ct, text[Boundary(ct, text, at)..ForwardEnd(text, at + |segment|)]) == ""))
  {
    hide Boundary, CleanLeading, ByteOffsetToCharHint, Closest, IsSliceOf, Find;
    var segment := c.citedAnswerSpan.value;
    var hint := ByteOffsetToCharHint(text, c.answerSpanStart);
    ClosestIsNearest(text, segment, hint);
    var at := Closest(text, segment, hint);
    if at != -1 {
      var end := ForwardEnd(text, at + |segment|);
      CutClaimIsSlice(ct, text, Boundary(ct, text, at), end, end + 1, GeminiSentence);
    }
  }

  function Claim(
    ct: CharTable, provider: string, c: StoredCitation, rendered: Option<string>, content: seq<A.Block>)
    : Option<DerivedClaim>
  {
    if rendered.None? || rendered.value == "" then None
    else if provider == "anthropic" then AnthropicClaim(ct, c, content)
    else if provider == "openai" then OpenaiClaim(ct, c, rendered.value)
    else if provider == "google_gemini" then GeminiClaim(ct, c, rendered.value)
    else None
  }

  /** For all three providers and all inputs a derived claim is a literal, non-empty, in-bounds slice
      of the answer (Anthropic's answer being the join of its text blocks). */
  lemma EveryClaimIsSlice(
    ct: CharTable, provider: string, c: StoredCitation, rendered: Option<string>, content: seq<A.Block>)
    requires provider == "anthropic" && rendered.Some? ==> rendered.value == A.RenderedText(content)
    ensures var claim := Claim(ct, provider, c, rendered, content);
            claim.Some? ==> rendered.Some? && IsSliceOf(claim.value, rendered.value)
  {
    hide AnthropicClaim, OpenaiClaim, GeminiClaim, IsSliceOf;
    if rendered.Some? {
      AnthropicClaimIsSlice(ct, c, content);
      OpenaiClaimIsSlice(ct, c, rendered.value);
      GeminiClaimIsSlice(ct, c, rendered.value);
    }
  }
}
