/** app/services/claims.py: where a claim starts and ends and what is cleaned off it, said of the
    characters of the answer alone. */
module ClaimBoundaries {
  import opened Options
  import opened Text
  import opened Claims
  import A = Anthropic

  /** What Python's character classes say of the characters the fixed patterns name. */
  predicate FitsPatterns(ct: CharTable) {
    && ct.isSpace('\n')
    && forall c :: c in ".!?|#*_-+()[]\"'\U{201C}\U{201D}" ==> !ct.isSpace(c) && !ct.isDigit(c)
  }

  predicate AllSpace(ct: CharTable, text: string, from: nat, to: nat)
    requires to <= |text|
  {
    forall k :: from <= k < to ==> ct.isSpace(text[k])
  }

  predicate Avoids(text: string, chars: string, from: nat, to: nat)
    requires to <= |text|
  {
    forall k :: from <= k < to ==> text[k] !in chars
  }

  // ----- the four places a claim may start after -----

  /** A full stop, exclamation or question mark after a word of two letters or more; perhaps one
      closing quote or bracket; one whitespace, after which `c` stands. */
  ghost predicate EndsSentence(ct: CharTable, text: string, pos: nat, c: nat)
    requires pos <= |text|
  {
    c <= pos && exists i: nat :: EndsSentenceAt(ct, text, i, c)
  }

  predicate EndsSentenceAt(ct: CharTable, text: string, i: nat, c: nat) {
    && 2 <= i < c <= |text|
    && (text[i] == '.' || text[i] == '!' || text[i] == '?')
    && ct.isWord(text[i - 1]) && ct.isWord(text[i - 2])
    && ct.isSpace(text[c - 1])
    && (c == i + 2
        || (c == i + 3
            && (text[i + 1] == '"' || text[i + 1] == '\'' || text[i + 1] == '\U{201C}' || text[i + 1] == '\U{201D}'
                || text[i + 1] == ')' || text[i + 1] == ']')))
  }

  /** `c` stands just after the last `sign` before `pos`. */
  predicate IsAfterLast(text: string, sign: char, pos: nat, c: nat)
    requires pos <= |text|
  {
    0 < c <= pos && text[c - 1] == sign && forall k :: c <= k < pos ==> text[k] != sign
  }

  /** `([label](url))`: a label without `]`, a URL without `)`. */
  predicate IsMarkerBy(text: string, i: nat, j: nat, k: nat, e: nat)
    requires e <= |text|
  {
    && i + 2 <= j && j + 2 <= k && e == k + 2
    && text[i] == '(' && text[i + 1] == '[' && Avoids(text, "]", i + 2, j)
    && text[j] == ']' && text[j + 1] == '(' && Avoids(text, ")", j + 2, k)
    && text[k] == ')' && text[k + 1] == ')'
  }

  ghost predicate IsMarker(text: string, i: nat, e: nat)
    requires e <= |text|
  {
    exists j: nat, k: nat :: IsMarkerBy(text, i, j, k, e)
  }

  datatype Marker = Marker(start: nat, end: nat)

  ghost predicate AreMarkers(text: string, from: nat, pos: nat, marks: seq<Marker>)
    requires pos <= |text|
  {
    forall m :: m in marks ==> from <= m.start < m.end <= pos && IsMarker(text, m.start, m.end)
  }

  ghost predicate InOrder(marks: seq<Marker>) {
    forall a, b :: 0 <= a < b < |marks| ==> marks[a].end <= marks[b].start
  }

  ghost predicate Holds(marks: seq<Marker>, i: nat) {
    exists m :: m in marks && m.start <= i < m.end
  }

  ghost predicate LeavesOut(text: string, from: nat, pos: nat, marks: seq<Marker>)
    requires pos <= |text|
  {
    exists i: nat, e: nat :: from <= i && e <= pos && IsMarker(text, i, e) && !Holds(marks, i)
  }

  /** The markers a reader meets from `from` on when reading on after each: they lie one after the
      other, and every marker starts inside one of them. */
  ghost predicate IsScan(text: string, from: nat, pos: nat, marks: seq<Marker>)
    requires pos <= |text|
  {
    AreMarkers(text, from, pos, marks) && InOrder(marks) && !LeavesOut(text, from, pos, marks)
  }

  ghost predicate EndsMarker(text: string, pos: nat, c: nat)
    requires pos <= |text|
  {
    exists marks: seq<Marker> :: IsScan(text, 0, pos, marks) && exists m :: m in marks && m.end == c
  }

  /** A claim that ends at `pos` may start at `c`: something ends there, and something else than
      whitespace follows. */
  ghost predicate MayStart(ct: CharTable, text: string, pos: nat, c: nat)
    requires pos <= |text|
  {
    && c <= pos
    && (EndsSentence(ct, text, pos, c) || IsAfterLast(text, '\n', pos, c) || IsAfterLast(text, '|', pos, c)
        || EndsMarker(text, pos, c))
    && !AllSpace(ct, text, c, pos)
  }

  // ----- the model's searches find just these places -----

  lemma SentenceEndIs(ct: CharTable, text: string, i: nat, pos: nat, c: nat)
    requires pos <= |text| && FitsPatterns(ct)
    ensures i < pos && SentenceEndAt(ct, text, i, pos) == Some(c) && WordRun(ct, text, i) > 1
            <==> c <= pos && EndsSentenceAt(ct, text, i, c)
  {
    if i < pos {
      assert WordRun(ct, text, i) > 1 <==> i >= 2 && ct.isWord(text[i - 1]) && ct.isWord(text[i - 2]);
      hide WordRun;
    }
  }

  lemma SentenceEndsAre(ct: CharTable, text: string, pos: nat, c: nat)
    requires pos <= |text| && FitsPatterns(ct)
    ensures c in SentenceEnds(ct, text, 0, pos) <==> EndsSentence(ct, text, pos, c)
  {
    SentenceEndsAreAll(ct, text, 0, pos, c);
    forall i: nat
      ensures i < pos && SentenceEndAt(ct, text, i, pos) == Some(c) && WordRun(ct, text, i) > 1
              <==> c <= pos && EndsSentenceAt(ct, text, i, c)
    {
      SentenceEndIs(ct, text, i, pos, c);
    }
    hide SentenceEndAt, WordRun, EndsSentenceAt, SentenceEnds, FitsPatterns;
  }

  lemma LineStartIs(text: string, sign: char, pos: nat, c: nat)
    requires pos <= |text|
    ensures c in LineStart(text, sign, pos) <==> IsAfterLast(text, sign, pos, c)
  {
    hide RFindChar;
  }

  lemma FindOne(text: string, sign: string, from: nat, to: nat, at: nat)
    requires |sign| == 1 && to <= |text|
    ensures Find(text, sign, from, to) == at <==>
              from <= at < to && text[at] == sign[0] && Avoids(text, sign, from, at)
  {
    hide Find;
    assert forall k: nat :: k < |text| ==> (OccursAt(text, sign, k) <==> text[k] == sign[0]);
    assert forall c :: c in sign <==> c == sign[0];
    hide OccursAt;
    var r := Find(text, sign, from, to);
    if from <= at < to && text[at] == sign[0] && Avoids(text, sign, from, at) {
      assert OccursAt(text, sign, at);
      assert OccursAt(text, sign, r);
    }
    if r == at {
      forall k | from <= k < at ensures text[k] !in sign { assert !OccursAt(text, sign, k); }
    }
  }

  lemma MarkerIs(text: string, i: nat, pos: nat, e: nat)
    requires pos <= |text|
    ensures MarkerAt(text, i, pos) == Some(e) <==> e <= pos && IsMarker(text, i, e)
  {
    hide Find, Avoids;
    if MarkerAt(text, i, pos) == Some(e) {
      var j := Find(text, "]", i + 2, pos);
      var k := Find(text, ")", j + 2, pos);
      FindOne(text, "]", i + 2, pos, j);
      FindOne(text, ")", j + 2, pos, k);
      assert IsMarkerBy(text, i, j, k, e);
    }
    if e <= pos && IsMarker(text, i, e) {
      var j: nat, k: nat :| IsMarkerBy(text, i, j, k, e);
      FindOne(text, "]", i + 2, pos, j);
      FindOne(text, ")", j + 2, pos, k);
    }
  }

  function Ends(marks: seq<Marker>): seq<nat> {
    if marks == [] then [] else [marks[0].end] + Ends(marks[1..])
  }

  lemma {:induction false} EndsMembers(marks: seq<Marker>, c: nat)
    ensures c in Ends(marks) <==> exists m :: m in marks && m.end == c
  {
    if marks != [] {
      EndsMembers(marks[1..], c);
      assert marks == [marks[0]] + marks[1..];
    }
  }

  lemma MarkersAreForward(text: string, i: nat, e: nat)
    requires e <= |text| && IsMarker(text, i, e)
    ensures i < e
  {
  }

  lemma NoMarkerHere(text: string, from: nat, pos: nat)
    requires pos <= |text| && MarkerAt(text, from, pos) == None
    ensures forall e: nat :: e <= pos ==> !IsMarker(text, from, e)
  {
    forall e: nat | e <= pos ensures !IsMarker(text, from, e) { MarkerIs(text, from, pos, e); }
  }

  lemma OneMarkerHere(text: string, from: nat, pos: nat, e: nat)
    requires pos <= |text| && MarkerAt(text, from, pos) == Some(e)
    ensures from < e <= pos && IsMarker(text, from, e)
    ensures forall f: nat :: f <= pos && IsMarker(text, from, f) ==> f == e
  {
    MarkerIs(text, from, pos, e);
    forall f: nat | f <= pos && IsMarker(text, from, f) ensures f == e { MarkerIs(text, from, pos, f); }
  }

  lemma SkipNone(text: string, from: nat, pos: nat, marks: seq<Marker>)
    requires from < pos <= |text| && forall e: nat :: e <= pos ==> !IsMarker(text, from, e)
    ensures IsScan(text, from, pos, marks) <==> IsScan(text, from + 1, pos, marks)
  {
    hide IsMarker, Holds, InOrder;
    if LeavesOut(text, from, pos, marks) {
      var i: nat, e: nat :| from <= i && e <= pos && IsMarker(text, i, e) && !Holds(marks, i);
      assert i != from;
    }
  }

  lemma FirstHolds(text: string, from: nat, pos: nat, marks: seq<Marker>)
    requires pos <= |text| && AreMarkers(text, from, pos, marks) && InOrder(marks) && Holds(marks, from)
    ensures marks != [] && marks[0].start == from
  {
    hide IsMarker;
    var m :| m in marks && m.start <= from < m.end;
    var a :| 0 <= a < |marks| && marks[a] == m;
    assert marks[0] in marks;
  }

  lemma HeldByRest(marks: seq<Marker>, i: nat)
    requires marks != []
    ensures Holds(marks, i) <==> marks[0].start <= i < marks[0].end || Holds(marks[1..], i)
  {
    assert marks == [marks[0]] + marks[1..];
    if Holds(marks[1..], i) {
      var m :| m in marks[1..] && m.start <= i < m.end;
      assert m in marks;
    }
    assert marks[0] in marks;
  }

  lemma RestIsScan(text: string, from: nat, pos: nat, marks: seq<Marker>)
    requires pos <= |text| && marks != [] && marks[0].start == from && from < marks[0].end <= pos
    requires IsMarker(text, from, marks[0].end)
    ensures IsScan(text, from, pos, marks) <==> IsScan(text, marks[0].end, pos, marks[1..])
  {
    var e, rest := marks[0].end, marks[1..];
    RestLeavesOut(text, from, pos, marks);
    if IsScan(text, from, pos, marks) {
      LaterMarks(text, from, pos, marks);
    }
    if IsScan(text, e, pos, rest) {
      EarlierMarks(text, from, pos, marks);
    }
  }

  lemma RestLeavesOut(text: string, from: nat, pos: nat, marks: seq<Marker>)
    requires pos <= |text| && marks != [] && marks[0].start == from && from < marks[0].end <= pos
    ensures LeavesOut(text, from, pos, marks) <==> LeavesOut(text, marks[0].end, pos, marks[1..])
  {
    hide IsMarker, Holds;
    forall i: nat ensures Holds(marks, i) <==> from <= i < marks[0].end || Holds(marks[1..], i) { HeldByRest(marks, i); }
  }

  lemma LaterMarks(text: string, from: nat, pos: nat, marks: seq<Marker>)
    requires pos <= |text| && marks != [] && AreMarkers(text, from, pos, marks) && InOrder(marks)
    ensures marks[0].end <= pos && AreMarkers(text, marks[0].end, pos, marks[1..]) && InOrder(marks[1..])
  {
    hide IsMarker;
    var rest := marks[1..];
    assert marks[0] in marks;
    forall m | m in rest ensures m in marks && marks[0].end <= m.start {
      var b :| 0 <= b < |rest| && rest[b] == m;
      assert marks[b + 1] == m;
    }
  }

  lemma EarlierMarks(text: string, from: nat, pos: nat, marks: seq<Marker>)
    requires pos <= |text| && marks != [] && marks[0].start == from && from < marks[0].end <= pos
    requires IsMarker(text, from, marks[0].end)
    requires AreMarkers(text, marks[0].end, pos, marks[1..]) && InOrder(marks[1..])
    ensures AreMarkers(text, from, pos, marks) && InOrder(marks)
  {
    hide IsMarker;
    RestInOrder(marks, marks[0].end);
    assert marks == [marks[0]] + marks[1..];
  }

  lemma RestInOrder(marks: seq<Marker>, e: nat)
    requires marks != [] && marks[0].end == e && InOrder(marks[1..]) && forall m :: m in marks[1..] ==> e <= m.start
    ensures InOrder(marks)
  {
    forall a, b | 0 <= a < b < |marks| ensures marks[a].end <= marks[b].start {
      assert marks[b] == marks[1..][b - 1];
      if a > 0 { assert marks[a] == marks[1..][a - 1]; }
    }
  }

  lemma NothingToScan(text: string, from: nat, pos: nat, marks: seq<Marker>)
    requires pos <= from && pos <= |text|
    ensures IsScan(text, from, pos, marks) <==> marks == []
  {
    if marks != [] { assert marks[0] in marks; }
    forall i: nat, e: nat | from <= i && e <= pos && IsMarker(text, i, e) ensures false {
      MarkersAreForward(text, i, e);
    }
    hide IsMarker;
  }

  /** What the skipping search finds is the one scan there is. */
  lemma {:induction false} ScanEnds(text: string, from: nat, pos: nat, marks: seq<Marker>)
    requires pos <= |text| && IsScan(text, from, pos, marks)
    ensures Ends(marks) == MarkerEnds(text, from, pos)
    decreases pos - from
  {
    hide IsMarker, MarkerAt, LeavesOut, Holds, InOrder, AreMarkers;
    if from >= pos {
      NothingToScan(text, from, pos, marks);
    } else {
      match MarkerAt(text, from, pos)
      case None =>
        NoMarkerHere(text, from, pos);
        SkipNone(text, from, pos, marks);
        ScanEnds(text, from + 1, pos, marks);
      case Some(e) =>
        OneMarkerHere(text, from, pos, e);
        FirstIs(text, from, pos, marks, e);
        RestIsScan(text, from, pos, marks);
        ScanEnds(text, e, pos, marks[1..]);
    }
  }

  lemma FirstIs(text: string, from: nat, pos: nat, marks: seq<Marker>, e: nat)
    requires pos <= |text| && IsScan(text, from, pos, marks) && from < e <= pos && IsMarker(text, from, e)
    requires forall f: nat :: f <= pos && IsMarker(text, from, f) ==> f == e
    ensures marks != [] && marks[0] == Marker(from, e)
  {
    hide IsMarker, Holds, InOrder;
    assert Holds(marks, from);
    FirstHolds(text, from, pos, marks);
    assert marks[0] in marks;
  }

  lemma {:induction false} ScanExists(text: string, from: nat, pos: nat) returns (marks: seq<Marker>)
    requires pos <= |text|
    ensures IsScan(text, from, pos, marks)
    decreases pos - from
  {
    hide IsMarker, MarkerAt, IsScan;
    if from >= pos {
      marks := [];
      NothingToScan(text, from, pos, marks);
    } else {
      match MarkerAt(text, from, pos)
      case None =>
        marks := ScanExists(text, from + 1, pos);
        NoMarkerHere(text, from, pos);
        SkipNone(text, from, pos, marks);
      case Some(e) =>
        OneMarkerHere(text, from, pos, e);
        var rest := ScanExists(text, e, pos);
        marks := [Marker(from, e)] + rest;
        assert marks[1..] == rest;
        RestIsScan(text, from, pos, marks);
    }
  }

  lemma MarkerEndsAre(text: string, pos: nat, c: nat)
    requires pos <= |text|
    ensures c in MarkerEnds(text, 0, pos) <==> EndsMarker(text, pos, c)
  {
    hide IsScan, MarkerEnds, Ends;
    var scan := ScanExists(text, 0, pos);
    ScanEnds(text, 0, pos, scan);
    EndsMembers(scan, c);
    if EndsMarker(text, pos, c) {
      var marks: seq<Marker> :| IsScan(text, 0, pos, marks) && exists m :: m in marks && m.end == c;
      ScanEnds(text, 0, pos, marks);
      EndsMembers(marks, c);
    }
  }

  lemma CandidatesAre(ct: CharTable, text: string, pos: nat, c: nat)
    requires pos <= |text| && FitsPatterns(ct)
    ensures c in Candidates(ct, text, pos) && !IsBlank(ct, text[c..pos]) <==> MayStart(ct, text, pos, c)
  {
    SentenceEndsAre(ct, text, pos, c);
    LineStartIs(text, '\n', pos, c);
    LineStartIs(text, '|', pos, c);
    MarkerEndsAre(text, pos, c);
    if c <= pos { BlankIs(ct, text, c, pos); }
    hide SentenceEnds, LineStart, MarkerEnds, EndsSentence, IsAfterLast, EndsMarker, IsBlank, AllSpace, FitsPatterns;
  }

  lemma BlankIs(ct: CharTable, text: string, from: nat, to: nat)
    requires from <= to <= |text|
    ensures IsBlank(ct, text[from..to]) <==> AllSpace(ct, text, from, to)
  {
    if IsBlank(ct, text[from..to]) {
      forall k | from <= k < to ensures ct.isSpace(text[k]) { assert text[from..to][k - from] == text[k]; }
    }
  }

  /** The boundary is the last place where a claim that ends at `pos` may start, and the start of the
      text when there is none. */
  lemma BoundaryIff(ct: CharTable, text: string, pos: nat, c: nat)
    requires pos <= |text| && FitsPatterns(ct)
    ensures Boundary(ct, text, pos) == c <==>
              && (c == 0 || MayStart(ct, text, pos, c))
              && forall d: nat :: MayStart(ct, text, pos, d) ==> d <= c
  {
    forall d: nat
      ensures d in Candidates(ct, text, pos) && !IsBlank(ct, text[d..pos]) <==> MayStart(ct, text, pos, d)
    {
      CandidatesAre(ct, text, pos, d);
    }
    BoundaryIsNearest(ct, text, pos);
    hide Boundary, Candidates, MayStart, IsBlank, FitsPatterns;
  }

  // ----- lines -----

  /** A line break with something else than whitespace on both sides of it. */
  ghost predicate SpansLines(ct: CharTable, text: string, from: nat, to: nat)
    requires to <= |text|
  {
    exists k :: from <= k < to && text[k] == '\n' && !AllSpace(ct, text, from, k) && !AllSpace(ct, text, k, to)
  }

  /** What is cut out before `pos` spans lines exactly when nothing but whitespace stands on the line
      of `pos` itself and what comes before that line spans lines already: of all the line breaks
      only the last one is looked at. */
  lemma SpansLinesIff(ct: CharTable, text: string, pos: nat, n: nat)
    requires FitsPatterns(ct) && n < pos <= |text| && IsAfterLast(text, '\n', pos, n + 1)
    ensures var start := Boundary(ct, text, pos);
            SpansLines(ct, text, start, pos) <==> AllSpace(ct, text, n + 1, pos) && SpansLines(ct, text, start, n)
  {
    var start := Boundary(ct, text, pos);
    hide Boundary, MayStart;
    if !AllSpace(ct, text, n + 1, pos) {
      StartsOnLastLine(ct, text, pos, n);
    } else {
      BlankLastLine(ct, text, start, n, pos);
    }
  }

  lemma BlankLastLine(ct: CharTable, text: string, start: nat, n: nat, pos: nat)
    requires FitsPatterns(ct) && n < pos <= |text| && IsAfterLast(text, '\n', pos, n + 1) && AllSpace(ct, text, n + 1, pos)
    ensures SpansLines(ct, text, start, pos) <==> SpansLines(ct, text, start, n)
  {
    assert ct.isSpace('\n') && text[n] == '\n';
    hide FitsPatterns;
    assert AllSpace(ct, text, n, pos);
    forall k: nat | k <= n ensures AllSpace(ct, text, k, n) <==> AllSpace(ct, text, k, pos) {
    }
    hide AllSpace;
  }

  /** When something stands on the line of `pos` before it, nothing of the lines above is taken along. */
  lemma StartsOnLastLine(ct: CharTable, text: string, pos: nat, n: nat)
    requires FitsPatterns(ct) && n < pos <= |text| && IsAfterLast(text, '\n', pos, n + 1)
    requires !AllSpace(ct, text, n + 1, pos)
    ensures n < Boundary(ct, text, pos)
  {
    BoundaryIff(ct, text, pos, Boundary(ct, text, pos));
    assert MayStart(ct, text, pos, n + 1);
    hide Boundary;
  }

  /** Two short lines and an empty third one before the marker: the claim is both lines. */
  lemma ClaimOverTwoLines(ct: CharTable, c: StoredCitation)
    requires FitsPatterns(ct) && forall k :: k in "abcd" ==> !ct.isSpace(k) && !ct.isDigit(k)
    requires c.answerSpanStart == Some(6) && c.answerSpanEnd == Some(6)
    ensures OpenaiClaim(ct, c, "ab\ncd\n") == Some(DerivedClaim("ab\ncd", 0, 5, OpenaiBeforeMarker))
  {
    NothingButLines(ct);
    CleansToLines(ct);
    hide FitsPatterns;
    ClaimFromStart(ct, c, "ab\ncd\n", "ab\ncd");
  }

  lemma ClaimFromStart(ct: CharTable, c: StoredCitation, text: string, claim: string)
    requires Boundary(ct, text, |text|) == 0 && CleanLeading(ct, text) == claim && claim != "" && claim <= text
    requires c.answerSpanStart == Some(|text|) && c.answerSpanEnd == Some(|text|)
    ensures OpenaiClaim(ct, c, text) == Some(DerivedClaim(claim, 0, |claim|, OpenaiBeforeMarker))
  {
    hide Boundary, CleanLeading, Find;
    assert text[0..|text|] == text;
    FoundAtStart(text, claim);
  }

  lemma FoundAtStart(text: string, part: string)
    requires part <= text
    ensures Find(text, part, 0, |text|) == 0
  {
    hide Find;
    assert OccursAt(text, part, 0);
  }

  lemma NothingButLines(ct: CharTable)
    requires FitsPatterns(ct)
    ensures Boundary(ct, "ab\ncd\n", 6) == 0
  {
    var text := "ab\ncd\n";
    BoundaryIff(ct, text, 6, 0);
    hide Boundary, IsScan;
    forall d: nat ensures !MayStart(ct, text, 6, d) { NowhereToStart(ct, d); }
    hide MayStart;
  }

  lemma NowhereToStart(ct: CharTable, d: nat)
    requires FitsPatterns(ct)
    ensures !MayStart(ct, "ab\ncd\n", 6, d)
  {
    var text := "ab\ncd\n";
    MarkerEndsAre(text, 6, d);
    NoParenthesisNoMarker(text, 0, 6);
    hide EndsMarker;
    assert !EndsSentence(ct, text, 6, d) by {
      assert forall i: nat :: i < 6 ==> text[i] != '.' && text[i] != '!' && text[i] != '?';
    }
    assert !IsAfterLast(text, '|', 6, d);
    assert text[5] == '\n';
    assert IsAfterLast(text, '\n', 6, d) ==> d == 6;
  }

  lemma {:induction false} NoParenthesisNoMarker(text: string, from: nat, pos: nat)
    requires pos <= |text| && Avoids(text, "(", from, pos)
    ensures MarkerEnds(text, from, pos) == []
    decreases pos - from
  {
    if from < pos {
      assert text[from] !in "(";
      NoParenthesisNoMarker(text, from + 1, pos);
    }
  }

  lemma CleansToLines(ct: CharTable)
    requires FitsPatterns(ct) && forall k :: k in "abcd" ==> !ct.isSpace(k) && !ct.isDigit(k)
    ensures CleanLeading(ct, "ab\ncd\n") == "ab\ncd"
  {
    var text := "ab\ncd\n";
    assert LStrip(ct, text) == text;
    assert text[..5] == "ab\ncd";
    assert TrailingSpaces(ct, text[..5]) == 0;
    assert TrailingSpaces(ct, text) == 1;
    assert Strip(ct, text) == "ab\ncd";
    assert LeadingToken(ct, "ab\ncd") == 0;
  }

  // ----- the end of a Gemini claim's window -----

  /** The window ends with the first full stop, exclamation or question mark, before the first line
      break, or with the text. */
  lemma ForwardEndIff(text: string, i: nat, r: nat)
    requires i <= |text|
    ensures ForwardEnd(text, i) == r <==>
              && i <= r <= |text|
              && ((i < r && Avoids(text, ".!?\n", i, r - 1) && text[r - 1] in ".!?")
                  || (Avoids(text, ".!?\n", i, r) && (r == |text| || text[r] == '\n')))
    decreases |text| - i
  {
    if i < |text| && text[i] !in ".!?\n" {
      ForwardEndIff(text, i + 1, r);
    }
  }

  // ----- what is cleaned off the front -----

  predicate IsEmphasis(s: string) {
    2 <= |s| && ((s[0] == '*' && s[1] == '*') || (s[0] == '_' && s[1] == '_'))
  }

  /** The spaces from `from` on end at `n`. */
  predicate SpacesEnd(ct: CharTable, s: string, from: nat, n: nat) {
    from <= n <= |s| && AllSpace(ct, s, from, n) && (n < |s| ==> !ct.isSpace(s[n]))
  }

  ghost predicate IsHeading(ct: CharTable, s: string, n: nat) {
    exists h: nat :: 1 <= h <= |s| && (forall k :: 0 <= k < h ==> s[k] == '#') && (h < |s| ==> s[h] != '#')
                     && SpacesEnd(ct, s, h, n)
  }

  predicate IsBullet(ct: CharTable, s: string, n: nat) {
    n >= 2 && |s| >= 1 && (s[0] == '-' || s[0] == '*' || s[0] == '+') && SpacesEnd(ct, s, 1, n)
  }

  predicate IsNumberBy(ct: CharTable, s: string, n: nat, d: nat) {
    && 1 <= d < |s| && (forall k :: 0 <= k < d ==> ct.isDigit(s[k])) && (s[d] == '.' || s[d] == ')')
    && d + 1 < n && SpacesEnd(ct, s, d + 1, n)
  }

  ghost predicate IsNumber(ct: CharTable, s: string, n: nat) {
    exists d: nat :: IsNumberBy(ct, s, n, d)
  }

  predicate IsCell(ct: CharTable, s: string, n: nat) {
    |s| >= 1 && s[0] == '|' && SpacesEnd(ct, s, 1, n)
  }

  /** `s` starts with `n` characters of list, heading or emphasis marks: two asterisks or underscores;
      hashes and the spaces after them; a bullet or a number with at least one space; a pipe. */
  ghost predicate StartsWithMark(ct: CharTable, s: string, n: nat) {
    if IsEmphasis(s) then n == 2
    else IsHeading(ct, s, n) || IsBullet(ct, s, n) || IsNumber(ct, s, n) || IsCell(ct, s, n)
  }

  lemma SpacesAre(ct: CharTable, s: string, from: nat, n: nat)
    requires from <= |s|
    ensures n == from + LeadingSpaces(ct, s[from..]) <==> SpacesEnd(ct, s, from, n)
  {
    var m := LeadingSpaces(ct, s[from..]);
    assert forall k :: from <= k < |s| ==> s[k] == s[from..][k - from];
    forall k | from <= k < from + m ensures ct.isSpace(s[k]) { assert s[from..][..m][k - from] == s[k]; }
    hide LeadingSpaces;
  }

  lemma {:induction false} HashesAre(s: string)
    ensures var h := CountLeading(s, '#');
            (forall k :: 0 <= k < h ==> s[k] == '#') && (h < |s| ==> s[h] != '#')
  {
    if s != "" && s[0] == '#' { HashesAre(s[1..]); }
  }

  lemma {:induction false} DigitsAre(ct: CharTable, s: string)
    ensures var d := LeadingDigits(ct, s);
            (forall k :: 0 <= k < d ==> ct.isDigit(s[k])) && (d < |s| ==> !ct.isDigit(s[d]))
  {
    if s != "" && ct.isDigit(s[0]) { DigitsAre(ct, s[1..]); }
  }

  lemma EmphasisIs(s: string)
    ensures |s| >= 2 && (s[..2] == "**" || s[..2] == "__") <==> IsEmphasis(s)
  {
    if |s| >= 2 { assert s[..2] == [s[0], s[1]]; }
  }

  lemma HeadingIs(ct: CharTable, s: string, n: nat)
    requires s != "" && s[0] == '#'
    ensures IsHeading(ct, s, n) <==> n == CountLeading(s, '#') + LeadingSpaces(ct, s[CountLeading(s, '#')..])
  {
    HashesAre(s);
    var h := CountLeading(s, '#');
    assert h >= 1;
    SpacesAre(ct, s, h, n);
    hide LeadingSpaces, CountLeading, SpacesEnd;
    if IsHeading(ct, s, n) {
      var g: nat :| 1 <= g <= |s| && (forall k :: 0 <= k < g ==> s[k] == '#') && (g < |s| ==> s[g] != '#')
                    && SpacesEnd(ct, s, g, n);
      assert g == h;
    }
  }

  lemma NumberStart(ct: CharTable, s: string, n: nat, g: nat)
    requires FitsPatterns(ct) && IsNumberBy(ct, s, n, g)
    ensures g == LeadingDigits(ct, s)
  {
    DigitsAre(ct, s);
    hide LeadingDigits, SpacesEnd;
    assert !ct.isDigit('.') && !ct.isDigit(')') by { PointsAreNoDigits(ct); }
    hide FitsPatterns;
  }

  lemma PointsAreNoDigits(ct: CharTable)
    requires FitsPatterns(ct)
    ensures !ct.isDigit('.') && !ct.isDigit(')')
  {
    assert '.' in ".!?|#*_-+()[]\"'\U{201C}\U{201D}" && ')' in ".!?|#*_-+()[]\"'\U{201C}\U{201D}";
  }

  lemma NumberIs(ct: CharTable, s: string, n: nat)
    requires FitsPatterns(ct) && n > 0
    ensures IsNumber(ct, s, n) <==> NumberToken(ct, s) == n
  {
    hide FitsPatterns;
    DigitsAre(ct, s);
    var d := LeadingDigits(ct, s);
    if d < |s| { SpacesAre(ct, s, d + 1, n); }
    hide LeadingSpaces, LeadingDigits, SpacesEnd;
    if IsNumber(ct, s, n) {
      var g: nat :| IsNumberBy(ct, s, n, g);
      NumberStart(ct, s, n, g);
    }
    if NumberToken(ct, s) == n { assert IsNumberBy(ct, s, n, d); }
  }

  /** The mark found is the one the text starts with, and none is found only when there is none. */
  lemma LeadingTokenIff(ct: CharTable, s: string, n: nat)
    requires FitsPatterns(ct) && n > 0
    ensures LeadingToken(ct, s) == n <==> StartsWithMark(ct, s, n)
  {
    EmphasisIs(s);
    NumberIs(ct, s, n);
    if s != "" {
      SpacesAre(ct, s, 1, n);
      if s[0] == '#' { HeadingIs(ct, s, n); }
      NumbersStartWithDigits(ct, s);
    }
    hide LeadingSpaces, CountLeading, NumberToken, IsNumber, SpacesEnd;
  }

  lemma NumbersStartWithDigits(ct: CharTable, s: string)
    requires s != ""
    ensures NumberToken(ct, s) > 0 ==> ct.isDigit(s[0])
  {
  }

  /** One mark at `a`, then all the spaces up to `b`. */
  ghost predicate MarkFrom(ct: CharTable, s: string, a: nat, b: nat)
    requires a <= |s|
  {
    exists n: nat :: StartsWithMark(ct, s[a..], n) && SpacesEnd(ct, s, a + n, b)
  }

  ghost predicate Unmarked(ct: CharTable, s: string) {
    forall n: nat :: StartsWithMark(ct, s, n) ==> n == 0
  }

  /** From cut to cut a mark and the spaces after it are taken off; at the last one no mark stands. */
  ghost predicate AreCuts(ct: CharTable, s: string, cuts: seq<nat>) {
    && cuts != [] && cuts[0] == 0 && (forall k :: 0 <= k < |cuts| ==> cuts[k] <= |s|)
    && (forall k :: 1 <= k < |cuts| ==> MarkFrom(ct, s, cuts[k - 1], cuts[k]))
    && Unmarked(ct, s[cuts[|cuts| - 1]..])
  }

  lemma MarkMoves(ct: CharTable, s: string, skipped: nat, a: nat, b: nat)
    requires skipped <= |s| && a <= |s[skipped..]| && MarkFrom(ct, s[skipped..], a, b)
    ensures MarkFrom(ct, s, skipped + a, skipped + b)
  {
    hide StartsWithMark;
    assert s[skipped..][a..] == s[skipped + a..];
    var n: nat :| StartsWithMark(ct, s[skipped..][a..], n) && SpacesEnd(ct, s[skipped..], a + n, b);
    assert SpacesEnd(ct, s, skipped + a + n, skipped + b);
  }

  lemma UnmarkedIs(ct: CharTable, s: string)
    requires FitsPatterns(ct)
    ensures LeadingToken(ct, s) == 0 <==> Unmarked(ct, s)
  {
    forall m: nat | m > 0 ensures LeadingToken(ct, s) == m <==> StartsWithMark(ct, s, m) { LeadingTokenIff(ct, s, m); }
    hide LeadingToken, StartsWithMark;
    if LeadingToken(ct, s) > 0 { assert StartsWithMark(ct, s, LeadingToken(ct, s)); }
  }

  lemma TokenIsMark(ct: CharTable, s: string)
    requires FitsPatterns(ct) && LeadingToken(ct, s) > 0
    ensures var n := LeadingToken(ct, s);
            var skipped := n + LeadingSpaces(ct, s[n..]);
            skipped <= |s| && LStrip(ct, s[n..]) == s[skipped..] && MarkFrom(ct, s, 0, skipped)
  {
    hide LeadingToken, StartsWithMark, LeadingSpaces, SpacesEnd, FitsPatterns;
    var n := LeadingToken(ct, s);
    LeadingTokenIff(ct, s, n);
    var skipped := n + LeadingSpaces(ct, s[n..]);
    SpacesAre(ct, s, n, skipped);
    assert s[0..] == s;
    assert StartsWithMark(ct, s[0..], n) && SpacesEnd(ct, s, 0 + n, skipped);
    SuffixOfSuffix(s, n, LeadingSpaces(ct, s[n..]));
  }

  lemma {:induction false} DropTokensCuts(ct: CharTable, s: string) returns (cuts: seq<nat>)
    requires FitsPatterns(ct)
    ensures AreCuts(ct, s, cuts)
    ensures DropTokens(ct, s) == s[cuts[|cuts| - 1]..]
    decreases |s|
  {
    hide LeadingToken, Unmarked, LeadingSpaces, FitsPatterns, MarkFrom, LStrip, AreCuts;
    UnmarkedIs(ct, s);
    if LeadingToken(ct, s) == 0 {
      cuts := [0];
      NoCuts(ct, s);
    } else {
      TokenIsMark(ct, s);
      var n := LeadingToken(ct, s);
      var skipped := n + LeadingSpaces(ct, s[n..]);
      var rest := DropTokensCuts(ct, s[skipped..]);
      CutsAreSome(ct, s[skipped..], rest);
      cuts := [0] + seq(|rest|, k requires 0 <= k < |rest| => skipped + rest[k]);
      CutsMove(ct, s, skipped, rest, cuts);
    }
  }

  lemma NoCuts(ct: CharTable, s: string)
    requires Unmarked(ct, s)
    ensures AreCuts(ct, s, [0]) && s[0..] == s
  {
    hide Unmarked;
    assert s[0..] == s;
  }

  lemma CutsAreSome(ct: CharTable, s: string, cuts: seq<nat>)
    requires AreCuts(ct, s, cuts)
    ensures cuts != [] && cuts[|cuts| - 1] <= |s|
  {
    hide Unmarked, MarkFrom;
  }

  lemma CutsMove(ct: CharTable, s: string, skipped: nat, rest: seq<nat>, cuts: seq<nat>)
    requires skipped <= |s| && AreCuts(ct, s[skipped..], rest) && MarkFrom(ct, s, 0, skipped)
    requires |cuts| == |rest| + 1 && cuts[0] == 0 && forall k :: 0 <= k < |rest| ==> cuts[k + 1] == skipped + rest[k]
    ensures AreCuts(ct, s, cuts)
    ensures s[cuts[|cuts| - 1]..] == s[skipped..][rest[|rest| - 1]..]
  {
    hide StartsWithMark, MarkFrom, Unmarked;
    forall k | 0 <= k < |cuts| ensures cuts[k] <= |s| {
      if k > 0 { assert rest[k - 1] <= |s[skipped..]|; }
    }
    assert cuts[|cuts| - 1] == skipped + rest[|rest| - 1];
    assert s[skipped..][rest[|rest| - 1]..] == s[skipped + rest[|rest| - 1]..];
    forall k | 1 <= k < |cuts| ensures MarkFrom(ct, s, cuts[k - 1], cuts[k]) {
      if k > 1 {
        assert rest[k - 2] <= |s[skipped..]|;
        MarkMoves(ct, s, skipped, rest[k - 2], rest[k - 1]);
      }
    }
  }

  /** Cleaning takes off the blank ends and then mark after mark, until none is left. */
  lemma CleanTakesMarks(ct: CharTable, raw: string) returns (cuts: seq<nat>)
    requires FitsPatterns(ct)
    ensures AreCuts(ct, Strip(ct, raw), cuts)
    ensures CleanLeading(ct, raw) == Strip(ct, raw)[cuts[|cuts| - 1]..]
  {
    cuts := DropTokensCuts(ct, Strip(ct, raw));
  }

  // ----- the claims -----

  /** The claim is all of the text from `from` to `to` that cleaning leaves, where it first stands. */
  predicate IsCutFrom(ct: CharTable, text: string, claim: DerivedClaim, from: nat, to: nat)
    requires from <= to <= |text|
  {
    && claim.text == CleanLeading(ct, text[from..to])
    && from <= claim.start && claim.end == claim.start + |claim.text| && claim.end <= to
    && OccursAt(text, claim.text, claim.start)
    && forall k :: from <= k < claim.start ==> !OccursAt(text, claim.text, k)
  }

  lemma CutAtFirst(ct: CharTable, text: string, from: nat, to: nat, limit: nat, how: Method)
    requires from <= to <= |text| && to <= limit
    ensures var claim := CleanLeading(ct, text[from..to]);
            var at := Find(text, claim, from, limit);
            at >= 0 && IsCutFrom(ct, text, DerivedClaim(claim, at, at + |claim|, how), from, to)
  {
    hide CleanLeading, Find;
    CleanedIsFound(ct, text, from, to, limit);
  }

  /** What stands before an OpenAI marker back to the boundary; when fewer than fifteen characters of
      it are left, back to the boundary before that one. */
  lemma OpenaiClaimIs(ct: CharTable, c: StoredCitation, text: string)
    requires c.answerSpanStart.Some? && c.answerSpanEnd.Some?
    requires 0 <= c.answerSpanStart.value <= c.answerSpanEnd.value <= |text|
    ensures var marker := c.answerSpanStart.value;
            var nearest := Boundary(ct, text, marker);
            var short := |CleanLeading(ct, text[nearest..marker])| < 15;
            var claim := OpenaiClaim(ct, c, text);
            claim.Some? ==>
              && claim.value.how == OpenaiBeforeMarker
              && (!short ==> IsCutFrom(ct, text, claim.value, nearest, marker))
              && (short && nearest == 0 ==> IsCutFrom(ct, text, claim.value, 0, marker))
              && (short && nearest > 0 ==>
                    Boundary(ct, text, nearest) < nearest
                    && IsCutFrom(ct, text, claim.value, Boundary(ct, text, nearest), marker))
  {
    hide CleanLeading, Boundary, Find, IsCutFrom;
    var marker := c.answerSpanStart.value;
    CutAtFirst(ct, text, OpenaiBoundary(ct, text, marker), marker, marker, OpenaiBeforeMarker);
    if Boundary(ct, text, marker) > 0 { EarlierBoundaryIsEarlier(ct, text, Boundary(ct, text, marker)); }
  }

  /** Gemini's segment where it stands, widened back to its boundary and on to the end of its sentence
      or line. */
  lemma GeminiClaimIs(ct: CharTable, c: StoredCitation, text: string)
    requires c.citedAnswerSpan.Some? && c.citedAnswerSpan.value != ""
    ensures var segment := c.citedAnswerSpan.value;
            var at := Closest(text, segment, ByteOffsetToCharHint(text, c.answerSpanStart));
            var claim := GeminiClaim(ct, c, text);
            claim.Some? ==>
              && claim.value.how == GeminiSentence && OccursAt(text, segment, at)
              && IsCutFrom(ct, text, claim.value, Boundary(ct, text, at), ForwardEnd(text, at + |segment|))
  {
    hide CleanLeading, Boundary, Find, IsCutFrom, ByteOffsetToCharHint, Closest, ForwardEnd;
    var segment := c.citedAnswerSpan.value;
    var hint := ByteOffsetToCharHint(text, c.answerSpanStart);
    ClosestIsNearest(text, segment, hint);
    var at := Closest(text, segment, hint);
    if at != -1 {
      var end := ForwardEnd(text, at + |segment|);
      CutAtFirst(ct, text, Boundary(ct, text, at), end, end + 1, GeminiSentence);
    }
  }

  /** A claim is only derived for the three providers that say where in the answer a source is cited, each
      in its own way, and only from an answer that has text. */
  lemma ProvidersTell(
    ct: CharTable, provider: string, c: StoredCitation, rendered: Option<string>, content: seq<A.Block>)
    ensures var claim := Claim(ct, provider, c, rendered, content);
            && (rendered.None? || |rendered.value| == 0 ==> claim.None?)
            && (rendered.Some? && |rendered.value| > 0 ==>
                  && (provider == "anthropic" ==> claim == AnthropicClaim(ct, c, content))
                  && (provider == "openai" ==> claim == OpenaiClaim(ct, c, rendered.value))
                  && (provider == "google_gemini" ==> claim == GeminiClaim(ct, c, rendered.value)))
            && (claim.Some? ==>
                  && (claim.value.how == AnthropicBlock <==> provider == "anthropic")
                  && (claim.value.how == OpenaiBeforeMarker <==> provider == "openai")
                  && (claim.value.how == GeminiSentence <==> provider == "google_gemini"))
  {
    WaysTell(ct, c, if rendered.Some? then rendered.value else "", content);
    assert "anthropic"[0] == 'a' && "openai"[0] == 'o' && "google_gemini"[0] == 'g';
    hide AnthropicClaim, OpenaiClaim, GeminiClaim;
  }

  lemma WaysTell(ct: CharTable, c: StoredCitation, text: string, content: seq<A.Block>)
    ensures AnthropicClaim(ct, c, content).Some? ==> AnthropicClaim(ct, c, content).value.how == AnthropicBlock
    ensures OpenaiClaim(ct, c, text).Some? ==> OpenaiClaim(ct, c, text).value.how == OpenaiBeforeMarker
    ensures GeminiClaim(ct, c, text).Some? ==> GeminiClaim(ct, c, text).value.how == GeminiSentence
  {
    hide Strip, LeadingSpaces, CleanLeading, Find, Boundary, ByteOffsetToCharHint, Closest, ForwardEnd;
  }
}
