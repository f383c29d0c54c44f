/** UTF-8 as section 3 of RFC 3629 defines it, and Python's decoding with errors="ignore". */
module Utf8 {
  import opened Options

  function EncodeChar(c: char): (r: seq<byte>)
    ensures 1 <= |r| <= 4
  {
    var u := c as int;
    if u < 0x80 then [u]
    else if u < 0x800 then [0xC0 + u / 64, 0x80 + u % 64]
    else if u < 0x1_0000 then [0xE0 + u / 4096, 0x80 + u / 64 % 64, 0x80 + u % 64]
    else [0xF0 + u / 262144, 0x80 + u / 4096 % 64, 0x80 + u / 64 % 64, 0x80 + u % 64]
  }

  function Encode(text: string): seq<byte> {
    if text == "" then [] else EncodeChar(text[0]) + Encode(text[1..])
  }

  /** How many bytes a sequence starting with `b` has; 0 when none starts with it. */
  function SequenceLength(b: byte): nat {
    if b < 0x80 then 1
    else if 0xC2 <= b < 0xE0 then 2
    else if 0xE0 <= b < 0xF0 then 3
    else if 0xF0 <= b < 0xF5 then 4
    else 0
  }

  predicate IsContinuation(b: byte) {
    0x80 <= b < 0xC0
  }

  function CodePoint(s: seq<byte>): int
    requires 1 <= |s| <= 4
  {
    if |s| == 1 then s[0]
    else if |s| == 2 then Bits(s[0], 0xC0) * 64 + Bits(s[1], 0x80)
    else if |s| == 3 then Bits(s[0], 0xE0) * 4096 + Bits(s[1], 0x80) * 64 + Bits(s[2], 0x80)
    else Bits(s[0], 0xF0) * 262144 + Bits(s[1], 0x80) * 4096 + Bits(s[2], 0x80) * 64 + Bits(s[3], 0x80)
  }

  /** The payload of a byte once the marker bits are taken off. */
  function Bits(b: byte, marker: int): int {
    b as int - marker
  }

  predicate IsScalar(u: int) {
    0 <= u < 0xD800 || 0xE000 <= u < 0x11_0000
  }

  /** The shortest-form rule: what the encoder would never have produced is not a sequence. */
  predicate IsShortest(u: int, length: nat) {
    || (length == 1 && u < 0x80)
    || (length == 2 && 0x80 <= u < 0x800)
    || (length == 3 && 0x800 <= u < 0x1_0000)
    || (length == 4 && 0x1_0000 <= u)
  }

  /** The character the bytes start with, if they start with a complete valid sequence. */
  function DecodeFirst(bytes: seq<byte>): Option<char>
    requires bytes != []
  {
    var n := SequenceLength(bytes[0]);
    if n == 0 || |bytes| < n || !(forall k :: 1 <= k < n ==> IsContinuation(bytes[k])) then None
    else
      var u := CodePoint(bytes[..n]);
      if IsScalar(u) && IsShortest(u, n) then Some(u as char) else None
  }

  /** `bytes.decode("utf-8", errors="ignore")`. */
  function DecodeIgnore(bytes: seq<byte>): string {
    if bytes == [] then ""
    else
      match DecodeFirst(bytes)
      case Some(c) => [c] + DecodeIgnore(bytes[SequenceLength(bytes[0])..])
      case None => DecodeIgnore(bytes[1..])
  }

  lemma SixBitDigits(u: nat)
    ensures u == u / 64 * 64 + u % 64
    ensures u / 64 == u / 4096 * 64 + u / 64 % 64
    ensures u / 4096 == u / 262144 * 64 + u / 4096 % 64
  {
  }

  lemma EncodedCharParts(c: char)
    ensures var e := EncodeChar(c);
            && SequenceLength(e[0]) == |e|
            && (forall k :: 1 <= k < |e| ==> IsContinuation(e[k]))
            && CodePoint(e) == c as int && IsScalar(c as int) && IsShortest(c as int, |e|)
  {
    SixBitDigits(c as int);
  }

  /** Decoding undoes encoding, one character at a time. */
  lemma DecodesBack(c: char, rest: seq<byte>)
    ensures DecodeFirst(EncodeChar(c) + rest) == Some(c)
    ensures SequenceLength((EncodeChar(c) + rest)[0]) == |EncodeChar(c)|
  {
    EncodedCharParts(c);
    hide CodePoint, SequenceLength, EncodeChar;
    var all := EncodeChar(c) + rest;
    assert all[..|EncodeChar(c)|] == EncodeChar(c);
  }

  lemma {:induction false} ContinuationsAreIgnored(bytes: seq<byte>)
    requires forall k :: 0 <= k < |bytes| ==> IsContinuation(bytes[k])
    ensures DecodeIgnore(bytes) == ""
  {
    if bytes != [] { ContinuationsAreIgnored(bytes[1..]); }
  }

  /** A character cut off in the middle is dropped whole. */
  lemma CutCharIsIgnored(c: char, j: nat)
    requires j < |EncodeChar(c)|
    ensures DecodeIgnore(EncodeChar(c)[..j]) == ""
  {
    EncodedCharParts(c);
    if j > 0 {
      var cut := EncodeChar(c)[..j];
      assert cut[0] == EncodeChar(c)[0];
      assert DecodeFirst(cut) == None;
      ContinuationsAreIgnored(cut[1..]);
    }
  }

  lemma EncodeUnfold(text: string)
    requires text != ""
    ensures Encode(text) == EncodeChar(text[0]) + Encode(text[1..])
  {
    hide EncodeChar;
  }

  lemma AddInFront(x: seq<byte>, y: seq<byte>, z: seq<byte>)
    ensures x + (y + z) == (x + y) + z
  {
  }

  lemma {:induction false} EncodeConcat(a: string, b: string)
    ensures Encode(a + b) == Encode(a) + Encode(b)
  {
    hide EncodeChar;
    if a == "" {
      assert a + b == b;
    } else {
      EncodeConcat(a[1..], b);
      assert (a + b)[0] == a[0] && (a + b)[1..] == a[1..] + b;
      EncodeUnfold(a + b);
      EncodeUnfold(a);
      hide Encode;
      AddInFront(EncodeChar(a[0]), Encode(a[1..]), Encode(b));
    }
  }

  /** `m` characters of the text are all that fit into `size` bytes. */
  predicate Fits(text: string, size: nat, m: nat) {
    && m <= |text| && |Encode(text[..m])| <= size
    && (m < |text| ==> size < |Encode(text[..m + 1])|)
  }

  lemma FitsCons(text: string, size: nat, m: nat)
    requires text != "" && size >= |EncodeChar(text[0])|
    requires Fits(text[1..], size - |EncodeChar(text[0])|, m)
    ensures Fits(text, size, m + 1)
  {
    hide EncodeChar;
    PrefixOfCons(text, m);
    if m < |text[1..]| { PrefixOfCons(text, m + 1); }
    hide Encode;
  }

  lemma NothingFits(text: string, size: nat)
    requires text != "" && size < |EncodeChar(text[0])|
    ensures Fits(text, size, 0)
  {
    hide EncodeChar;
    PrefixOfCons(text, 0);
    assert Encode(text[1..][..0]) == [];
  }

  lemma DecodeCons(c: char, rest: seq<byte>)
    ensures DecodeIgnore(EncodeChar(c) + rest) == [c] + DecodeIgnore(rest)
  {
    DecodesBack(c, rest);
    hide DecodeFirst, SequenceLength, EncodeChar;
    var all := EncodeChar(c) + rest;
    assert all[|EncodeChar(c)|..] == rest;
  }

  /** Decoding a prefix of an encoded text gives back the characters that fit into it whole. */
  lemma {:induction false} PrefixDecodes(text: string, size: nat)
    requires size <= |Encode(text)|
    ensures var m := |DecodeIgnore(Encode(text)[..size])|;
            m <= |text| && Fits(text, size, m) && DecodeIgnore(Encode(text)[..size]) == text[..m]
  {
    hide EncodeChar, DecodeIgnore, Fits;
    if text == "" {
      assert Encode(text)[..size] == [];
      ContinuationsAreIgnored([]);
      assert Fits(text, size, 0) by { EmptyFits(size); }
    } else {
      var head, tail := EncodeChar(text[0]), Encode(text[1..]);
      if size < |head| {
        assert Encode(text)[..size] == head[..size];
        CutCharIsIgnored(text[0], size);
        NothingFits(text, size);
      } else {
        var left := tail[..size - |head|];
        assert Encode(text)[..size] == head + left;
        DecodeCons(text[0], left);
        PrefixDecodes(text[1..], size - |head|);
        var m := |DecodeIgnore(left)|;
        FitsCons(text, size, m);
        assert m <= |text[1..]| by { FitsBound(text[1..], size - |head|, m); }
        assert text[..m + 1] == [text[0]] + text[1..][..m];
      }
    }
  }

  lemma EmptyFits(size: nat)
    ensures Fits("", size, 0)
  {
  }

  lemma FitsBound(text: string, size: nat, m: nat)
    requires Fits(text, size, m)
    ensures m <= |text|
  {
  }

  lemma PrefixOfCons(text: string, m: nat)
    requires text != "" && m <= |text| - 1
    ensures text[..m + 1] == [text[0]] + text[1..][..m]
    ensures Encode(text[..m + 1]) == EncodeChar(text[0]) + Encode(text[1..][..m])
  {
    assert text[..m + 1][1..] == text[1..][..m];
  }

  lemma {:induction false} LongerTextMoreBytes(text: string, a: nat, b: nat)
    requires a < b <= |text|
    ensures |Encode(text[..a])| < |Encode(text[..b])|
  {
    assert text[..b] == text[..a] + text[a..b];
    EncodeConcat(text[..a], text[a..b]);
    assert text[a..b] != "";
    hide EncodeChar;
    assert |Encode(text[a..b])| >= 1;
  }
}
