/** app/routers/runs.py: splicing the stored match spans into the answer as <mark> elements. */
module Highlight {
  import opened Options
  import opened Matching

  const OPEN_BODY := "mark class=\"bg-amber-200 rounded px-0.5\""
  const CLOSE_BODY := "/mark"
  const OPEN_MARK := "<" + OPEN_BODY + ">"
  const CLOSE_MARK := "<" + CLOSE_BODY + ">"

  /** markupsafe's escape, one character at a time. */
  function EscapeChar(c: char): string {
    if c == '&' then "&amp;"
    else if c == '<' then "&lt;"
    else if c == '>' then "&gt;"
    else if c == '\'' then "&#39;"
    else if c == '"' then "&#34;"
    else [c]
  }

  function Escape(text: string): string {
    if text == "" then "" else EscapeChar(text[0]) + Escape(text[1..])
  }

  /** `text[a:b]`: Python clamps both bounds and gives "" when they cross. */
  function Slice(text: string, a: nat, b: nat): string {
    var from, to := Min(a, |text|), Min(b, |text|);
    if from <= to then text[from..to] else ""
  }

  function Marked(text: string): string {
    OPEN_MARK + Escape(text) + CLOSE_MARK
  }

  function Highlighted(text: string, spans: seq<Span>, cursor: nat): string {
    if spans == [] then Escape(Slice(text, cursor, |text|))
    else
      Escape(Slice(text, cursor, spans[0].start))
      + Marked(Slice(text, spans[0].start, spans[0].end))
      + Highlighted(text, spans[1..], spans[0].end)
  }

  method HighlightMatches(text: string, spans: seq<Span>) returns (html: string)
    ensures html == Highlighted(text, spans, 0)
  {
    if spans == [] {
      assert Slice(text, 0, |text|) == text;
      return Escape(text);
    }
    html := "";
    var cursor := 0;
    var i := 0;
    while i < |spans|
      invariant 0 <= i <= |spans|
      invariant Highlighted(text, spans, 0) == html + Highlighted(text, spans[i..], cursor)
    {
      ghost var before := html;
      html := html + Escape(Slice(text, cursor, spans[i].start));
      html := html + Marked(Slice(text, spans[i].start, spans[i].end));
      assert spans[i..][1..] == spans[i + 1..];
      Reassociate(before, Escape(Slice(text, cursor, spans[i].start)),
                  Marked(Slice(text, spans[i].start, spans[i].end)), Highlighted(text, spans[i + 1..], spans[i].end));
      cursor := spans[i].end;
      i := i + 1;
    }
    html := html + Escape(Slice(text, cursor, |text|));
  }

  lemma Reassociate(a: string, b: string, c: string, d: string)
    ensures a + (b + c + d) == (a + b + c) + d
  {
  }

  // ----- what a reader of the page gets back -----

  /** The page without its tags: everything from a '<' to the next '>' removed. */
  function DropTags(html: string, inTag: bool): string {
    if html == "" then ""
    else if inTag then DropTags(html[1..], html[0] != '>')
    else if html[0] == '<' then DropTags(html[1..], true)
    else [html[0]] + DropTags(html[1..], false)
  }

  /** The pieces of the text that end up on the page, in page order. */
  function Emitted(text: string, spans: seq<Span>, cursor: nat): string {
    if spans == [] then Slice(text, cursor, |text|)
    else
      Slice(text, cursor, spans[0].start) + Slice(text, spans[0].start, spans[0].end)
      + Emitted(text, spans[1..], spans[0].end)
  }

  predicate Without(s: string, c: char) {
    forall k :: 0 <= k < |s| ==> s[k] != c
  }

  lemma {:induction false} PlainPasses(plain: string, rest: string)
    requires Without(plain, '<')
    ensures DropTags(plain + rest, false) == plain + DropTags(rest, false)
  {
    if plain == "" {
      assert plain + rest == rest;
    } else {
      PlainPasses(plain[1..], rest);
      assert (plain + rest)[1..] == plain[1..] + rest;
      assert plain == [plain[0]] + plain[1..];
    }
  }

  lemma {:induction false} TagBodyVanishes(body: string, rest: string)
    requires Without(body, '>')
    ensures DropTags(body + (">" + rest), true) == DropTags(rest, false)
  {
    if body == "" {
      assert body + (">" + rest) == ">" + rest;
      assert (">" + rest)[1..] == rest;
    } else {
      TagBodyVanishes(body[1..], rest);
      assert (body + (">" + rest))[1..] == body[1..] + (">" + rest);
    }
  }

  lemma TagVanishes(tag: string, body: string, rest: string)
    requires Without(body, '>') && tag == "<" + body + ">"
    ensures DropTags(tag + rest, false) == DropTags(rest, false)
  {
    TagBodyVanishes(body, rest);
    assert (tag + rest)[1..] == body + (">" + rest);
  }

  lemma {:induction false} EscapeIsPlain(text: string)
    ensures Without(Escape(text), '<')
  {
    if text != "" {
      EscapeIsPlain(text[1..]);
      assert Without(EscapeChar(text[0]), '<');
      hide EscapeChar;
    }
  }

  lemma {:induction false} EscapeConcat(a: string, b: string)
    ensures Escape(a + b) == Escape(a) + Escape(b)
  {
    hide EscapeChar;
    if a == "" {
      assert a + b == b;
    } else {
      EscapeConcat(a[1..], b);
      assert (a + b)[1..] == a[1..] + b;
      assert EscapeChar(a[0]) + (Escape(a[1..]) + Escape(b)) == (EscapeChar(a[0]) + Escape(a[1..])) + Escape(b);
    }
  }

  lemma MarkTagsVanish(rest: string)
    ensures DropTags(OPEN_MARK + rest, false) == DropTags(rest, false)
    ensures DropTags(CLOSE_MARK + rest, false) == DropTags(rest, false)
  {
    hide DropTags;
    MarkTagBodies();
    TagVanishes(OPEN_MARK, OPEN_BODY, rest);
    TagVanishes(CLOSE_MARK, CLOSE_BODY, rest);
  }

  lemma MarkTagBodies()
    ensures Without(OPEN_BODY, '>') && Without(CLOSE_BODY, '>')
  {
  }

  lemma MarksVanish(text: string, rest: string)
    ensures DropTags(Marked(text) + rest, false) == Escape(text) + DropTags(rest, false)
  {
    hide DropTags, Escape;
    var inner := Escape(text) + (CLOSE_MARK + rest);
    Nest(OPEN_MARK, Escape(text), CLOSE_MARK, rest);
    MarkTagsVanish(inner);
    EscapeIsPlain(text);
    PlainPasses(Escape(text), CLOSE_MARK + rest);
    MarkTagsVanish(rest);
  }

  lemma Nest(a: string, b: string, c: string, d: string)
    ensures (a + b + c) + d == a + (b + (c + d))
  {
  }

  /** Without its tags the page is the escaped pieces, whatever the spans are. */
  lemma {:induction false} DroppingTagsLeavesEmitted(text: string, spans: seq<Span>, cursor: nat)
    ensures DropTags(Highlighted(text, spans, cursor), false) == Escape(Emitted(text, spans, cursor))
  {
    hide DropTags, Escape, Slice, Marked;
    if spans == [] {
      var last := Slice(text, cursor, |text|);
      EscapeIsPlain(last);
      PlainPasses(Escape(last), "");
      assert DropTags("", false) == "" by { NoTagsInNothing(); }
      assert Escape(last) + "" == Escape(last);
    } else {
      var gap, hit := Slice(text, cursor, spans[0].start), Slice(text, spans[0].start, spans[0].end);
      var rest := Highlighted(text, spans[1..], spans[0].end);
      var tail := Emitted(text, spans[1..], spans[0].end);
      DroppingTagsLeavesEmitted(text, spans[1..], spans[0].end);
      GapAndHit(gap, hit, rest);
      EscapeConcat(gap, hit);
      EscapeConcat(gap + hit, tail);
      assert Escape(gap) + (Escape(hit) + Escape(tail)) == (Escape(gap) + Escape(hit)) + Escape(tail);
    }
  }

  lemma NoTagsInNothing()
    ensures DropTags("", false) == ""
  {
  }

  lemma GapAndHit(gap: string, hit: string, rest: string)
    ensures DropTags(Escape(gap) + Marked(hit) + rest, false) == Escape(gap) + (Escape(hit) + DropTags(rest, false))
  {
    hide DropTags, Escape, Marked;
    assert Escape(gap) + Marked(hit) + rest == Escape(gap) + (Marked(hit) + rest);
    EscapeIsPlain(gap);
    PlainPasses(Escape(gap), Marked(hit) + rest);
    MarksVanish(hit, rest);
  }

  /** The spans never step back, once bounds past the end of the text are read as its end. */
  predicate Forward(spans: seq<Span>, cursor: nat, length: nat) {
    spans == []
    || (Min(cursor, length) <= Min(spans[0].start, length) <= Min(spans[0].end, length)
        && Forward(spans[1..], spans[0].end, length))
  }

  lemma SliceJoins(text: string, a: nat, b: nat, c: nat)
    requires Min(a, |text|) <= Min(b, |text|) <= Min(c, |text|)
    ensures Slice(text, a, b) + Slice(text, b, c) == Slice(text, a, c)
  {
  }

  lemma {:induction false} ForwardEmitsTheRest(text: string, spans: seq<Span>, cursor: nat)
    requires Forward(spans, cursor, |text|)
    ensures Emitted(text, spans, cursor) == Slice(text, cursor, |text|)
  {
    hide Slice;
    if spans != [] {
      ForwardEmitsTheRest(text, spans[1..], spans[0].end);
      SliceJoins(text, cursor, spans[0].start, spans[0].end);
      SliceJoins(text, cursor, spans[0].end, |text|);
    }
  }

  lemma {:induction false} SteppingBackRepeats(text: string, spans: seq<Span>, cursor: nat)
    ensures |Emitted(text, spans, cursor)| >= |text| - Min(cursor, |text|)
    ensures !Forward(spans, cursor, |text|) ==> |Emitted(text, spans, cursor)| > |text| - Min(cursor, |text|)
  {
    if spans != [] { SteppingBackRepeats(text, spans[1..], spans[0].end); }
  }

  lemma EscapeCharsDiffer(a: char, b: char, x: string, y: string)
    requires EscapeChar(a) + x == EscapeChar(b) + y
    ensures a == b && x == y
  {
    var left, right := EscapeChar(a) + x, EscapeChar(b) + y;
    assert left[0] == right[0];
    if left[0] == '&' {
      assert |EscapeChar(a)| >= 4 && |EscapeChar(b)| >= 4;
      assert left[1] == right[1] && left[2] == right[2] && left[3] == right[3];
      assert a == b;
    }
    assert x == left[|EscapeChar(a)|..] && y == right[|EscapeChar(b)|..];
  }

  /** Escaping loses nothing. */
  lemma {:induction false} EscapeIsInjective(a: string, b: string)
    requires Escape(a) == Escape(b)
    ensures a == b
  {
    if a != "" && b != "" {
      EscapeCharsDiffer(a[0], b[0], Escape(a[1..]), Escape(b[1..]));
      EscapeIsInjective(a[1..], b[1..]);
      assert a == [a[0]] + a[1..] && b == [b[0]] + b[1..];
    }
  }

  /** Dropping the tags gives back the escaped answer exactly when the stored spans move forward
      only: overlapping or unsorted spans repeat text on the page. */
  lemma HighlightKeepsTextIff(text: string, spans: seq<Span>)
    ensures DropTags(Highlighted(text, spans, 0), false) == Escape(text) <==> Forward(spans, 0, |text|)
  {
    DroppingTagsLeavesEmitted(text, spans, 0);
    if Forward(spans, 0, |text|) {
      ForwardEmitsTheRest(text, spans, 0);
      assert Slice(text, 0, |text|) == text;
    } else {
      SteppingBackRepeats(text, spans, 0);
      if Escape(Emitted(text, spans, 0)) == Escape(text) {
        EscapeIsInjective(Emitted(text, spans, 0), text);
        assert false;
      }
    }
  }

  lemma {:induction false} OrderedIsForward(spans: seq<Span>, cursor: nat, length: nat)
    requires Ordered(spans, cursor, length)
    ensures Forward(spans, cursor, length)
  {
    if spans != [] { OrderedIsForward(spans[1..], spans[0].end, length); }
  }

  /** The spans `MatchSpans` stores are spans the page can splice: the answer is never altered. */
  lemma MatchedSpansHighlightCleanly(ab: Alphabet, text: string, candidates: seq<string>, order: seq<string>)
    requires IsSetOrder(order, candidates) && "" !in candidates
    ensures DropTags(Highlighted(text, Spans(Scan(ab, text, LongestFirst(order), 0)), 0), false) == Escape(text)
  {
    ScanIsCanonical(ab, text, candidates, order);
    var spans := Spans(Scan(ab, text, LongestFirst(order), 0));
    OrderedIsForward(spans, 0, |text|);
    HighlightKeepsTextIff(text, spans);
  }

  // ----- which characters carry the mark -----

  /** What a browser makes of the page: each character outside the tags, and whether it is marked. A tag
      that starts with a slash ends the mark, any other starts it. */
  datatype Shown = Shown(c: char, marked: bool)

  function Show(html: string, inTag: bool, marked: bool): seq<Shown> {
    if html == "" then []
    else if inTag then Show(html[1..], html[0] != '>', marked)
    else if html[0] == '<' then Show(html[1..], true, |html| == 1 || html[1] != '/')
    else [Shown(html[0], marked)] + Show(html[1..], false, marked)
  }

  function All(plain: string, marked: bool): seq<Shown> {
    if plain == "" then [] else [Shown(plain[0], marked)] + All(plain[1..], marked)
  }

  /** Some span covers place `k` of the text. */
  predicate IsCovered(spans: seq<Span>, k: nat) {
    exists s :: s in spans && s.start <= k < s.end
  }

  /** The text from place `from` up to `to`, each character escaped and marked if a span covers it. */
  function Wanted(text: string, spans: seq<Span>, from: nat, to: nat): seq<Shown>
    requires from <= to <= |text|
    decreases |text| - from
  {
    if from == to then []
    else All(EscapeChar(text[from]), IsCovered(spans, from)) + Wanted(text, spans, from + 1, to)
  }

  lemma {:induction false} PlainIsShown(plain: string, rest: string, marked: bool)
    requires Without(plain, '<')
    ensures Show(plain + rest, false, marked) == All(plain, marked) + Show(rest, false, marked)
  {
    if plain == "" {
      assert plain + rest == rest;
    } else {
      PlainIsShown(plain[1..], rest, marked);
      assert (plain + rest)[1..] == plain[1..] + rest;
      assert plain == [plain[0]] + plain[1..];
    }
  }

  lemma {:induction false} BodyIsPassed(body: string, rest: string, marked: bool)
    requires Without(body, '>')
    ensures Show(body + (">" + rest), true, marked) == Show(rest, false, marked)
  {
    if body == "" {
      assert body + (">" + rest) == ">" + rest;
      assert (">" + rest)[1..] == rest;
    } else {
      BodyIsPassed(body[1..], rest, marked);
      assert (body + (">" + rest))[1..] == body[1..] + (">" + rest);
    }
  }

  lemma TagIsPassed(tag: string, body: string, rest: string, marked: bool)
    requires Without(body, '>') && tag == "<" + body + ">" && body != ""
    ensures Show(tag + rest, false, marked) == Show(rest, false, body[0] != '/')
  {
    BodyIsPassed(body, rest, body[0] != '/');
    assert (tag + rest)[1..] == body + (">" + rest);
    assert (tag + rest)[1] == body[0];
  }

  lemma MarkIsShown(text: string, rest: string)
    ensures Show(Marked(text) + rest, false, false) == All(Escape(text), true) + Show(rest, false, false)
  {
    hide Show, Escape;
    MarkTagBodies();
    Nest(OPEN_MARK, Escape(text), CLOSE_MARK, rest);
    EscapeIsPlain(text);
    var inner := Escape(text) + (CLOSE_MARK + rest);
    assert OPEN_BODY[0] == 'm' && CLOSE_BODY[0] == '/';
    TagIsPassed(OPEN_MARK, OPEN_BODY, inner, false);
    PlainIsShown(Escape(text), CLOSE_MARK + rest, true);
    TagIsPassed(CLOSE_MARK, CLOSE_BODY, rest, true);
  }

  lemma {:induction false} AllConcat(a: string, b: string, marked: bool)
    ensures All(a + b, marked) == All(a, marked) + All(b, marked)
  {
    if a == "" {
      assert a + b == b;
    } else {
      AllConcat(a[1..], b, marked);
      assert (a + b)[1..] == a[1..] + b;
    }
  }

  /** A stretch that is covered throughout, or not at all. */
  lemma {:induction false} StretchIsWanted(text: string, spans: seq<Span>, from: nat, to: nat, marked: bool)
    requires from <= to <= |text| && forall k :: from <= k < to ==> IsCovered(spans, k) == marked
    ensures All(Escape(text[from..to]), marked) == Wanted(text, spans, from, to)
    decreases |text| - from
  {
    hide EscapeChar, IsCovered;
    if from < to {
      StretchIsWanted(text, spans, from + 1, to, marked);
      var s := text[from..to];
      assert s[0] == text[from] && s[1..] == text[from + 1..to];
      AllConcat(EscapeChar(text[from]), Escape(s[1..]), marked);
    }
  }

  lemma {:induction false} WantedSplits(text: string, spans: seq<Span>, from: nat, mid: nat, to: nat)
    requires from <= mid <= to <= |text|
    ensures Wanted(text, spans, from, to) == Wanted(text, spans, from, mid) + Wanted(text, spans, mid, to)
    decreases mid - from
  {
    hide EscapeChar, IsCovered;
    if from < mid { WantedSplits(text, spans, from + 1, mid, to); }
  }

  lemma {:induction false} LaterSpansCover(text: string, spans: seq<Span>, from: nat, to: nat)
    requires spans != [] && from <= to <= |text| && spans[0].end <= from
    ensures Wanted(text, spans, from, to) == Wanted(text, spans[1..], from, to)
    decreases |text| - from
  {
    hide EscapeChar;
    if from < to {
      LaterSpansCover(text, spans, from + 1, to);
      assert spans == [spans[0]] + spans[1..];
      assert IsCovered(spans, from) == IsCovered(spans[1..], from);
    }
  }

  lemma {:induction false} SpansStartAfter(spans: seq<Span>, cursor: nat, length: nat)
    requires Ordered(spans, cursor, length)
    ensures forall s :: s in spans ==> cursor <= s.start <= s.end <= length
  {
    if spans != [] {
      SpansStartAfter(spans[1..], spans[0].end, length);
      assert spans == [spans[0]] + spans[1..];
    }
  }

  lemma {:induction false} PageShowsWanted(text: string, spans: seq<Span>, cursor: nat)
    requires cursor <= |text| && Ordered(spans, cursor, |text|)
    ensures Show(Highlighted(text, spans, cursor), false, false) == Wanted(text, spans, cursor, |text|)
  {
    hide Show, Escape, EscapeChar, Marked, Wanted;
    if spans == [] {
      var last := text[cursor..|text|];
      assert Slice(text, cursor, |text|) == last;
      EscapeIsPlain(last);
      PlainIsShown(Escape(last), "", false);
      assert Escape(last) + "" == Escape(last);
      assert Show("", false, false) == [] by { NothingIsShown(); }
      StretchIsWanted(text, spans, cursor, |text|, false);
    } else {
      var s := spans[0];
      SpansStartAfter(spans, cursor, |text|);
      SpansStartAfter(spans[1..], s.end, |text|);
      assert s in spans && spans == [s] + spans[1..];
      var gap, hit, rest := text[cursor..s.start], text[s.start..s.end], Highlighted(text, spans[1..], s.end);
      GapAndHitShown(gap, hit, rest);
      PageShowsWanted(text, spans[1..], s.end);
      StretchIsWanted(text, spans, cursor, s.start, false);
      StretchIsWanted(text, spans, s.start, s.end, true);
      LaterSpansCover(text, spans, s.end, |text|);
      WantedSplits(text, spans, cursor, s.start, |text|);
      WantedSplits(text, spans, s.start, s.end, |text|);
    }
  }

  lemma NothingIsShown()
    ensures Show("", false, false) == []
  {
  }

  lemma GapAndHitShown(gap: string, hit: string, rest: string)
    ensures Show(Escape(gap) + Marked(hit) + rest, false, false)
            == All(Escape(gap), false) + (All(Escape(hit), true) + Show(rest, false, false))
  {
    hide Show, Escape, Marked;
    assert Escape(gap) + Marked(hit) + rest == Escape(gap) + (Marked(hit) + rest);
    EscapeIsPlain(gap);
    PlainIsShown(Escape(gap), Marked(hit) + rest, false);
    MarkIsShown(hit, rest);
  }

  /** On the page of an answer and its matches, each character of the text shows up escaped, in order,
      and carries the mark exactly when a match covers it. */
  lemma MarksAreMatches(ab: Alphabet, text: string, candidates: seq<string>, order: seq<string>)
    requires IsSetOrder(order, candidates) && "" !in candidates
    ensures var spans := Spans(Scan(ab, text, LongestFirst(order), 0));
            Show(Highlighted(text, spans, 0), false, false) == Wanted(text, spans, 0, |text|)
  {
    ScanIsCanonical(ab, text, candidates, order);
    PageShowsWanted(text, Spans(Scan(ab, text, LongestFirst(order), 0)), 0);
  }

  predicate StartsWith(html: string, entity: string) {
    |entity| <= |html| && forall k :: 0 <= k < |entity| ==> html[k] == entity[k]
  }

  /** A browser reads the five entities back. */
  function Unescape(html: string): string {
    if html == "" then ""
    else if html[0] != '&' then [html[0]] + Unescape(html[1..])
    else if StartsWith(html, "&amp;") then "&" + Unescape(html[5..])
    else if StartsWith(html, "&lt;") then "<" + Unescape(html[4..])
    else if StartsWith(html, "&gt;") then ">" + Unescape(html[4..])
    else if StartsWith(html, "&#39;") then "'" + Unescape(html[5..])
    else if StartsWith(html, "&#34;") then "\"" + Unescape(html[5..])
    else [html[0]] + Unescape(html[1..])
  }

  lemma FirstIsEntity(c: char, rest: string)
    ensures var html := EscapeChar(c) + rest;
            && html != "" && (html[0] == '&' <==> c == '&' || c == '<' || c == '>' || c == '\'' || c == '"')
            && (StartsWith(html, "&amp;") <==> c == '&') && (StartsWith(html, "&lt;") <==> c == '<')
            && (StartsWith(html, "&gt;") <==> c == '>') && (StartsWith(html, "&#39;") <==> c == '\'')
            && (StartsWith(html, "&#34;") <==> c == '"')
  {
    var html := EscapeChar(c) + rest;
    if c == '&' {
      assert html[1] == 'a';
    } else if c == '<' {
      assert html[1] == 'l';
    } else if c == '>' {
      assert html[1] == 'g';
    } else if c == '\'' {
      assert html[1] == '#' && html[3] == '9';
    } else if c == '"' {
      assert html[1] == '#' && html[3] == '4';
    }
  }

  lemma FirstComesBack(c: char, rest: string)
    ensures Unescape(EscapeChar(c) + rest) == [c] + Unescape(rest)
  {
    FirstIsEntity(c, rest);
    assert (EscapeChar(c) + rest)[|EscapeChar(c)|..] == rest;
    hide StartsWith;
  }

  /** Escaped text is shown as it was. */
  lemma {:induction false} EscapedComesBack(text: string)
    ensures Unescape(Escape(text)) == text
  {
    if text != "" {
      FirstComesBack(text[0], Escape(text[1..]));
      hide EscapeChar, Unescape;
      EscapedComesBack(text[1..]);
      assert [text[0]] + text[1..] == text;
    }
  }
}
