/** The parts of Python's `str` the claim derivation relies on. Which characters are whitespace,
    word characters or digits is a parameter; the punctuation the fixed patterns name is none of them. */
module Text {
  import opened Options

  datatype CharTable = CharTable(isSpace: char -> bool, isWord: char -> bool, isDigit: char -> bool)

  predicate IsBlank(ct: CharTable, s: string) {
    forall i :: 0 <= i < |s| ==> ct.isSpace(s[i])
  }

  function LeadingSpaces(ct: CharTable, s: string): (n: nat)
    ensures n <= |s|
    ensures IsBlank(ct, s[..n])
    ensures n < |s| ==> !ct.isSpace(s[n])
  {
    if s == "" || !ct.isSpace(s[0]) then 0
    else
      assert forall i :: 0 < i < |s| ==> s[i] == s[1..][i - 1];
      1 + LeadingSpaces(ct, s[1..])
  }

  function TrailingSpaces(ct: CharTable, s: string): (n: nat)
    ensures n <= |s|
    ensures IsBlank(ct, s[|s| - n..])
    ensures n < |s| ==> !ct.isSpace(s[|s| - n - 1])
  {
    if s == "" || !ct.isSpace(s[|s| - 1]) then 0 else 1 + TrailingSpaces(ct, s[..|s| - 1])
  }

  function LStrip(ct: CharTable, s: string): string {
    s[LeadingSpaces(ct, s)..]
  }

  function RStrip(ct: CharTable, s: string): string {
    s[..|s| - TrailingSpaces(ct, s)]
  }

  function Strip(ct: CharTable, s: string): string {
    RStrip(ct, LStrip(ct, s))
  }

  /** No whitespace at either end. */
  predicate IsTrim(ct: CharTable, s: string) {
    s != "" ==> !ct.isSpace(s[0]) && !ct.isSpace(s[|s| - 1])
  }

  lemma BlankMeansAllLeading(ct: CharTable, s: string)
    ensures LeadingSpaces(ct, s) == |s| <==> IsBlank(ct, s)
  {
    assert s[..|s|] == s;
    if LeadingSpaces(ct, s) < |s| {
      assert !ct.isSpace(s[LeadingSpaces(ct, s)]);
    }
  }

  lemma RStripCuts(ct: CharTable, s: string)
    requires s != "" ==> !ct.isSpace(s[0])
    ensures |RStrip(ct, s)| <= |s| && s[..|RStrip(ct, s)|] == RStrip(ct, s)
    ensures IsTrim(ct, RStrip(ct, s)) && (RStrip(ct, s) == "" <==> s == "")
  {
    assert IsBlank(ct, s[|s| - TrailingSpaces(ct, s)..]);
  }

  /** Stripping cuts the longest blank ends off and nothing else. */
  lemma StripCuts(ct: CharTable, s: string)
    ensures var a := LeadingSpaces(ct, s);
            && a + |Strip(ct, s)| <= |s|
            && s[a..a + |Strip(ct, s)|] == Strip(ct, s)
            && IsTrim(ct, Strip(ct, s))
            && (Strip(ct, s) == "" <==> IsBlank(ct, s))
  {
    hide LeadingSpaces, RStrip, IsTrim, IsBlank;
    var a := LeadingSpaces(ct, s);
    RStripCuts(ct, LStrip(ct, s));
    BlankMeansAllLeading(ct, s);
    SliceOfDrop(s, a, Strip(ct, s));
  }

  lemma SliceOfDrop(s: string, a: nat, r: string)
    requires a <= |s| && |r| <= |s[a..]| && s[a..][..|r|] == r
    ensures s[a..a + |r|] == r
  {
  }

  lemma TrimStripsToItself(ct: CharTable, s: string)
    requires IsTrim(ct, s)
    ensures Strip(ct, s) == s
  {
  }

  // ----- str.find -----

  predicate OccursAt(text: string, part: string, at: int) {
    0 <= at && at + |part| <= |text| && text[at..at + |part|] == part
  }

  /** `text.find(part, from, to)`: the first place at or after `from` that ends by `to`, or -1. */
  function Find(text: string, part: string, from: nat, to: nat): (r: int)
    ensures r == -1 || (from <= r && r + |part| <= to && OccursAt(text, part, r))
    ensures forall at :: from <= at && at + |part| <= to && OccursAt(text, part, at) ==> r != -1 && r <= at
    decreases |text| + 1 - from
  {
    if from + |part| > Min(to, |text|) then -1
    else if text[from..from + |part|] == part then from
    else Find(text, part, from + 1, to)
  }

  /** `text.rfind(c, 0, to)` for one character. */
  function RFindChar(text: string, c: char, to: nat): (r: int)
    ensures r == -1 || (0 <= r < Min(to, |text|) && text[r] == c)
    ensures forall k :: 0 <= k < Min(to, |text|) && text[k] == c ==> k <= r
  {
    if to == 0 then -1
    else if to <= |text| && text[to - 1] == c then to - 1
    else RFindChar(text, c, to - 1)
  }
}
