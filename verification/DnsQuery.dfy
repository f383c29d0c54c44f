/** app/worker.py `_build_ptr_query`, and what it and the reader of names and answers make of each other. */
module DnsQuery {
  import opened Options
  import opened Dns
  import opened DnsMessages

  datatype QueryError = LabelTooLong | NotAscii

  /** `s.split(".")`. */
  function SplitDots(s: string): (r: seq<string>)
    ensures |r| >= 1
  {
    if s == "" then [""]
    else
      var rest := SplitDots(s[1..]);
      if s[0] == '.' then [""] + rest else [[s[0]] + rest[0]] + rest[1..]
  }

  function Reversed<T>(s: seq<T>): seq<T> {
    if s == [] then [] else Reversed(s[1..]) + [s[0]]
  }

  const ARPA: seq<string> := ["in-addr", "arpa"]

  function ArpaName(ip: string): string {
    Dotted(Reversed(SplitDots(ip))) + ".in-addr.arpa"
  }

  predicate IsAscii(s: string) {
    forall i :: 0 <= i < |s| ==> s[i] as int < 128
  }

  /** `label.encode("ascii")`. */
  function AsciiBytes(s: string): (r: Label)
    requires IsAscii(s)
    ensures |r| == |s|
  {
    seq(|s|, i requires 0 <= i < |s| => s[i] as int)
  }

  /** Each label behind its length. A length over 255 does not fit a byte. */
  function LabelBytes(labels: seq<string>): Result<seq<byte>, QueryError> {
    if labels == [] then Ok([])
    else if |labels[0]| > 255 then Err(LabelTooLong)
    else if !IsAscii(labels[0]) then Err(NotAscii)
    else
      match LabelBytes(labels[1..])
      case Err(e) => Err(e)
      case Ok(rest) => Ok([|labels[0]|] + AsciiBytes(labels[0]) + rest)
  }

  function QueryHeader(queryId: nat): (s: seq<byte>)
    requires queryId < 65536
    ensures |s| == 12
  {
    [queryId / 256, queryId % 256, 1, 0, 0, 1, 0, 0, 0, 0, 0, 0]
  }

  /** `_build_ptr_query`. */
  function BuildPtrQuery(ip: string, queryId: nat): Result<seq<byte>, QueryError>
    requires queryId < 65536
  {
    match LabelBytes(SplitDots(ArpaName(ip)))
    case Err(e) => Err(e)
    case Ok(question) => Ok(QueryHeader(queryId) + (question + [0]) + [0, 12, 0, 1])
  }

  // ----- splitting and joining -----

  predicate IsDotless(s: string) {
    forall i :: 0 <= i < |s| ==> s[i] != '.'
  }

  predicate AreDotless(parts: seq<string>) {
    forall i :: 0 <= i < |parts| ==> IsDotless(parts[i])
  }

  lemma {:induction false} PartsAreDotless(s: string)
    ensures AreDotless(SplitDots(s))
  {
    if s != "" { PartsAreDotless(s[1..]); }
  }

  lemma {:induction false} SplitAtDot(part: string, rest: string)
    requires IsDotless(part)
    ensures SplitDots(part + "." + rest) == [part] + SplitDots(rest)
  {
    if part == "" {
      assert "" + "." + rest == "." + rest;
      assert ("." + rest)[1..] == rest;
    } else {
      SplitAtDot(part[1..], rest);
      assert (part + "." + rest)[1..] == part[1..] + "." + rest;
      assert [part[0]] + part[1..] == part;
    }
  }

  lemma {:induction false} SplitDotless(part: string)
    requires IsDotless(part)
    ensures SplitDots(part) == [part]
  {
    if part != "" {
      SplitDotless(part[1..]);
      assert [part[0]] + part[1..] == part;
    }
  }

  lemma {:induction false} SplitOfDotted(parts: seq<string>)
    requires |parts| >= 1 && AreDotless(parts)
    ensures SplitDots(Dotted(parts)) == parts
    decreases |parts|
  {
    if |parts| == 1 {
      SplitDotless(parts[0]);
    } else {
      SplitOfDotted(parts[1..]);
      SplitAtDot(parts[0], Dotted(parts[1..]));
      assert [parts[0]] + parts[1..] == parts;
    }
  }

  lemma {:induction false} DottedOfSplit(s: string)
    ensures Dotted(SplitDots(s)) == s
  {
    if s != "" {
      DottedOfSplit(s[1..]);
      var rest := SplitDots(s[1..]);
      if s[0] == '.' {
        assert ([""] + rest)[1..] == rest;
      } else {
        var parts := [[s[0]] + rest[0]] + rest[1..];
        assert parts[1..] == rest[1..];
        if |rest| > 1 {
          assert ([s[0]] + rest[0]) + "." + Dotted(rest[1..]) == [s[0]] + (rest[0] + "." + Dotted(rest[1..]));
        }
      }
    }
  }

  lemma {:induction false} DottedAppends(a: seq<string>, b: seq<string>)
    requires |a| >= 1 && |b| >= 1
    ensures Dotted(a + b) == Dotted(a) + "." + Dotted(b)
    decreases |a|
  {
    assert (a + b)[0] == a[0] && (a + b)[1..] == a[1..] + b;
    if |a| > 1 {
      DottedAppends(a[1..], b);
      assert a[0] + "." + (Dotted(a[1..]) + "." + Dotted(b)) == (a[0] + "." + Dotted(a[1..])) + "." + Dotted(b);
    } else {
      assert a[1..] + b == b;
    }
  }

  lemma {:induction false} ReversedKeeps<T>(s: seq<T>)
    ensures |Reversed(s)| == |s|
    ensures forall x :: x in Reversed(s) <==> x in s
  {
    if s != [] {
      ReversedKeeps(s[1..]);
      assert s == [s[0]] + s[1..];
    }
  }

  function QueryLabels(ip: string): seq<string> {
    Reversed(SplitDots(ip)) + ARPA
  }

  /** The labels of the query are the parts of the address backwards, then in-addr and arpa. */
  lemma QueryLabelsAreReversed(ip: string)
    ensures ArpaName(ip) == Dotted(QueryLabels(ip))
    ensures SplitDots(ArpaName(ip)) == QueryLabels(ip)
  {
    var back := Reversed(SplitDots(ip));
    ReversedKeeps(SplitDots(ip));
    DottedAppends(back, ARPA);
    assert Dotted(ARPA) == "in-addr.arpa" by {
      assert ARPA[1..] == ["arpa"];
    }
    assert Dotted(back) + "." + "in-addr.arpa" == Dotted(back) + ".in-addr.arpa";
    PartsAreDotless(ip);
    assert AreDotless(QueryLabels(ip)) by {
      forall i | 0 <= i < |QueryLabels(ip)| ensures IsDotless(QueryLabels(ip)[i]) {
        if i < |back| { assert back[i] in back; }
      }
    }
    SplitOfDotted(QueryLabels(ip));
  }

  // ----- the query reads back -----

  predicate Fits(part: string) {
    1 <= |part| <= READABLE_LABEL
  }

  predicate AllFit(labels: seq<string>) {
    forall l :: l in labels ==> Fits(l)
  }

  function WireLabels(labels: seq<string>): seq<Label>
    requires LabelBytes(labels).Ok?
  {
    if labels == [] then [] else [AsciiBytes(labels[0])] + WireLabels(labels[1..])
  }

  lemma AsciiIsDecoded(s: string)
    requires IsAscii(s)
    ensures Decoded(AsciiBytes(s)) == s
  {
  }

  lemma LabelBytesUnfold(labels: seq<string>)
    requires labels != [] && LabelBytes(labels).Ok?
    ensures IsAscii(labels[0]) && |labels[0]| <= 255 && LabelBytes(labels[1..]).Ok?
    ensures LabelBytes(labels).value == ([|labels[0]|] + AsciiBytes(labels[0])) + LabelBytes(labels[1..]).value
  {
  }

  lemma FitsInFront(l: Label, rest: seq<Label>)
    requires 1 <= |l| <= READABLE_LABEL && LabelsFit(rest, READABLE_LABEL)
    ensures LabelsFit([l] + rest, READABLE_LABEL)
    ensures EncodeLabels([l] + rest) == ([|l|] + l) + EncodeLabels(rest)
    ensures DecodeAll([l] + rest) == [Decoded(l)] + DecodeAll(rest)
  {
    assert ([l] + rest)[1..] == rest;
  }

  lemma {:induction false} WireLabelsEncode(labels: seq<string>)
    requires LabelBytes(labels).Ok? && AllFit(labels)
    ensures LabelsFit(WireLabels(labels), READABLE_LABEL)
    ensures EncodeLabels(WireLabels(labels)) == LabelBytes(labels).value
    ensures DecodeAll(WireLabels(labels)) == labels
  {
    if labels != [] {
      LabelBytesUnfold(labels);
      AsciiIsDecoded(labels[0]);
      assert labels[0] in labels && Fits(labels[0]) && |AsciiBytes(labels[0])| == |labels[0]|;
      hide LabelBytes, IsAscii, AsciiBytes, Decoded, LabelsFit, EncodeLabels, DecodeAll;
      WireLabelsEncode(labels[1..]);
      FitsInFront(AsciiBytes(labels[0]), WireLabels(labels[1..]));
      assert labels == [labels[0]] + labels[1..];
    }
  }

  lemma QueryParts(ip: string, queryId: nat, q: seq<byte>)
    requires queryId < 65536 && BuildPtrQuery(ip, queryId) == Ok(q)
    ensures LabelBytes(QueryLabels(ip)).Ok?
    ensures var question := LabelBytes(QueryLabels(ip)).value;
            |q| == 12 + |question| + 5 && BytesAt(q, 12, question + [0])
  {
    QueryLabelsAreReversed(ip);
    hide LabelBytes, SplitDots, QueryLabels, ArpaName;
    var question := LabelBytes(QueryLabels(ip)).value;
    assert q[12..12 + |question + [0]|] == question + [0];
  }

  lemma FittingQueryReadsBack(ip: string, queryId: nat, q: seq<byte>)
    requires queryId < 65536 && BuildPtrQuery(ip, queryId) == Ok(q) && AllFit(QueryLabels(ip))
    ensures NameAt(q, 12) == Ok(Name(ArpaName(ip), |q| - 4))
  {
    QueryParts(ip, queryId, q);
    QueryLabelsAreReversed(ip);
    hide BuildPtrQuery, QueryLabels, ArpaName, SplitDots, LabelBytes, BytesAt, AllFit, DecodeAll;
    var labels := QueryLabels(ip);
    WireLabelsEncode(labels);
    var wire := WireLabels(labels);
    assert EncodeName(NameCode(wire, Root)) == LabelBytes(labels).value + [0];
    RootIsRead(q, 12, wire, 0);
  }

  /** A part of no bytes reads as the end of the name, one of 192 or more as a pointer. */
  lemma BadFirstByteEnds(data: seq<byte>, offset: nat, part: string)
    requires IsAscii(part) && |part| <= 255 && !Fits(part) && BytesAt(data, offset, [|part|] + AsciiBytes(part))
    ensures ReadLabels(data, offset, 0).Ok? ==> ReadLabels(data, offset, 0).value.end <= offset + 1 + |part|
  {
    ByteAt(data, offset, [|part|] + AsciiBytes(part), 0);
    hide BytesAt, IsAscii, AsciiBytes, Decoded, Taken;
    assert data[offset] == |part|;
  }

  lemma EndPasses(labels: seq<string>, rest: Result<Read, DnsError>)
    ensures var r := ReadPast(labels, None, rest);
            r.Ok? ==> rest.Ok? && r.value.end == rest.value.end
  {
  }

  lemma BadLabelComesFirstOrLater(labels: seq<string>)
    requires !AllFit(labels)
    ensures labels != [] && (Fits(labels[0]) ==> !AllFit(labels[1..]))
  {
    if labels != [] {
      assert labels == [labels[0]] + labels[1..];
    }
  }

  lemma {:induction false} BadLabelEndsEarly(data: seq<byte>, offset: nat, labels: seq<string>)
    requires LabelBytes(labels).Ok? && !AllFit(labels) && BytesAt(data, offset, LabelBytes(labels).value)
    ensures ReadLabels(data, offset, 0).Ok? ==>
              ReadLabels(data, offset, 0).value.end <= offset + |LabelBytes(labels).value|
    decreases |labels|
  {
    BadLabelComesFirstOrLater(labels);
    LabelBytesUnfold(labels);
    var first, rest := labels[0], labels[1..];
    var head := [|first|] + AsciiBytes(first);
    hide ReadLabels, ReadPast, LabelBytes, BytesAt, IsAscii, AsciiBytes, Decoded, AllFit;
    BytesAtParts(data, offset, head, LabelBytes(rest).value);
    if Fits(first) {
      var next := offset + 1 + |first|;
      LabelIsRead(data, offset, AsciiBytes(first), 0);
      EndPasses([Decoded(AsciiBytes(first))], ReadLabels(data, next, 0));
      BadLabelEndsEarly(data, next, rest);
    } else {
      BadFirstByteEnds(data, offset, first);
    }
  }

  lemma QueryLabelsFitIff(ip: string)
    ensures AllFit(QueryLabels(ip)) <==> forall part :: part in SplitDots(ip) ==> Fits(part)
  {
    hide SplitDots, Reversed;
    ReversedKeeps(SplitDots(ip));
    assert forall l :: l in QueryLabels(ip) <==> l in SplitDots(ip) || l in ARPA;
  }

  /** For every address the query can be built for, the reader finds the reversed address in the query,
      and the offset just after it, if and only if no part of the address is empty or longer than 191. */
  lemma QueryReadsBackIff(ip: string, queryId: nat, q: seq<byte>)
    requires queryId < 65536 && BuildPtrQuery(ip, queryId) == Ok(q)
    ensures NameAt(q, 12) == Ok(Name(ArpaName(ip), |q| - 4))
            <==> forall part :: part in SplitDots(ip) ==> Fits(part)
  {
    hide BuildPtrQuery, QueryLabels, SplitDots, LabelBytes, ReadLabels, AllFit, BytesAt, Fits;
    QueryLabelsFitIff(ip);
    if AllFit(QueryLabels(ip)) {
      FittingQueryReadsBack(ip, queryId, q);
    } else {
      QueryParts(ip, queryId, q);
      var question := LabelBytes(QueryLabels(ip)).value;
      BytesAtParts(q, 12, question, [0]);
      BadLabelEndsEarly(q, 12, QueryLabels(ip));
    }
  }

  predicate IsQuad(ip: string) {
    forall part :: part in SplitDots(ip) ==> IsOctet(part)
  }

  predicate IsOctet(part: string) {
    1 <= |part| <= 3 && forall i :: 0 <= i < |part| ==> '0' <= part[i] <= '9'
  }

  lemma {:induction false} GoodLabelsEncode(labels: seq<string>)
    requires forall l :: l in labels ==> |l| <= 255 && IsAscii(l)
    ensures LabelBytes(labels).Ok?
  {
    hide IsAscii;
    if labels != [] { GoodLabelsEncode(labels[1..]); }
  }

  lemma QuadLabelsEncode(ip: string)
    requires IsQuad(ip)
    ensures LabelBytes(QueryLabels(ip)).Ok?
  {
    hide SplitDots, Reversed, LabelBytes;
    ReversedKeeps(SplitDots(ip));
    forall l | l in QueryLabels(ip) ensures |l| <= 255 && IsAscii(l) {
      if l in SplitDots(ip) {
        assert IsOctet(l);
      } else {
        assert l in ARPA;
      }
    }
    GoodLabelsEncode(QueryLabels(ip));
  }

  /** A dotted quad always gets a query that reads back. */
  lemma QuadsReadBack(ip: string, queryId: nat)
    requires queryId < 65536 && IsQuad(ip)
    ensures var q := BuildPtrQuery(ip, queryId);
            q.Ok? && NameAt(q.value, 12) == Ok(Name(ArpaName(ip), |q.value| - 4))
  {
    QueryLabelsAreReversed(ip);
    QuadLabelsEncode(ip);
    hide SplitDots, QueryLabels, LabelBytes, NameAt, ArpaName, QueryHeader;
    assert forall part :: part in SplitDots(ip) ==> IsOctet(part) && Fits(part);
    QueryReadsBackIff(ip, queryId, BuildPtrQuery(ip, queryId).value);
  }

  // ----- the query as RFC 1035 writes it -----

  predicate AreBytesOf(l: Label, s: string) {
    |l| == |s| && forall i :: 0 <= i < |l| ==> l[i] as int == s[i] as int
  }

  /** The parts of the address backwards, then in-addr and arpa, as bytes. */
  predicate AreQueryLabels(wire: seq<Label>, parts: seq<string>) {
    var n := |parts|;
    && |wire| == n + 2
    && (forall k :: 0 <= k < n ==> AreBytesOf(wire[k], parts[n - 1 - k]))
    && AreBytesOf(wire[n], "in-addr") && AreBytesOf(wire[n + 1], "arpa")
  }

  lemma {:induction false} ReversedAt<T>(s: seq<T>)
    ensures |Reversed(s)| == |s|
    ensures forall k :: 0 <= k < |s| ==> Reversed(s)[k] == s[|s| - 1 - k]
  {
    if s != [] { ReversedAt(s[1..]); }
  }

  lemma {:induction false} WireLabelsAre(labels: seq<string>, wire: seq<Label>)
    requires LabelBytes(labels).Ok? && |wire| == |labels| && forall k :: 0 <= k < |wire| ==> AreBytesOf(wire[k], labels[k])
    ensures wire == WireLabels(labels)
  {
    if labels != [] {
      LabelBytesUnfold(labels);
      assert AreBytesOf(wire[0], labels[0]) && wire[0] == AsciiBytes(labels[0]);
      hide LabelBytes, AsciiBytes, IsAscii, AreBytesOf;
      forall k | 0 <= k < |wire[1..]| ensures AreBytesOf(wire[1..][k], labels[1..][k]) {
        assert AreBytesOf(wire[k + 1], labels[k + 1]);
      }
      WireLabelsAre(labels[1..], wire[1..]);
      assert wire == [wire[0]] + wire[1..];
    }
  }

  lemma QueryWireLabels(ip: string, wire: seq<Label>)
    requires LabelBytes(QueryLabels(ip)).Ok? && AreQueryLabels(wire, SplitDots(ip))
    ensures wire == WireLabels(QueryLabels(ip))
  {
    var labels := QueryLabels(ip);
    hide SplitDots, LabelBytes, AreBytesOf;
    ReversedAt(SplitDots(ip));
    forall k | 0 <= k < |wire| ensures AreBytesOf(wire[k], labels[k]) {
      if k >= |SplitDots(ip)| { assert labels[k] == ARPA[k - |SplitDots(ip)|]; }
    }
    hide Reversed;
    WireLabelsAre(labels, wire);
  }

  /** A PTR query: recursion desired, one question of type 12 and class 1, nothing else. */
  function PtrQuery(queryId: nat, wire: seq<Label>): Message {
    Message(queryId, 0x0100, [Question(NameCode(wire, Root), 12, 1)], [], 0, 0, [])
  }

  /** When every part of the address fits a label of RFC 1035, the query is the encoding of the PTR
      query for the address backwards under in-addr.arpa. */
  lemma QueryIsMessage(ip: string, queryId: nat, q: seq<byte>, wire: seq<Label>)
    requires queryId < 65536 && BuildPtrQuery(ip, queryId) == Ok(q)
    requires forall part :: part in SplitDots(ip) ==> 1 <= |part| <= 63
    requires AreQueryLabels(wire, SplitDots(ip))
    ensures IsMessage(PtrQuery(queryId, wire))
    ensures q == Encode(PtrQuery(queryId, wire))
  {
    hide LabelBytes, SplitDots, AreBytesOf, EncodeLabels;
    QueryLabelsAreReversed(ip);
    assert LabelBytes(QueryLabels(ip)).Ok?;
    FitQueryLabels(ip);
    QueryWireLabels(ip, wire);
    WireLabelsEncode(QueryLabels(ip));
    ShortLabels(ip, wire);
    hide WireLabels, DecodeAll, QueryLabels, ArpaName, AreQueryLabels, LabelsFit;
    QueryBytes(queryId, wire);
  }

  lemma FitQueryLabels(ip: string)
    requires forall part :: part in SplitDots(ip) ==> 1 <= |part| <= 63
    ensures AllFit(QueryLabels(ip))
  {
    hide SplitDots, Reversed;
    QueryLabelsFitIff(ip);
  }

  lemma ShortLabels(ip: string, wire: seq<Label>)
    requires forall part :: part in SplitDots(ip) ==> 1 <= |part| <= 63
    requires AreQueryLabels(wire, SplitDots(ip))
    ensures LabelsFit(wire, RFC_LABEL)
  {
    hide SplitDots;
    var parts := SplitDots(ip);
    forall l | l in wire ensures 1 <= |l| <= RFC_LABEL {
      var k :| 0 <= k < |wire| && wire[k] == l;
      if k < |parts| { assert parts[|parts| - 1 - k] in parts; }
    }
  }

  lemma QueryBytes(queryId: nat, wire: seq<Label>)
    requires queryId < 65536 && LabelsFit(wire, RFC_LABEL)
    ensures IsMessage(PtrQuery(queryId, wire)) && LabelsFit(wire, READABLE_LABEL)
    ensures Encode(PtrQuery(queryId, wire)) == QueryHeader(queryId) + (EncodeLabels(wire) + [0]) + [0, 12, 0, 1]
  {
    hide EncodeLabels;
    var m := PtrQuery(queryId, wire);
    var q := m.questions[0];
    assert m.questions[1..] == [];
    assert EncodeQuestions(m.questions) == EncodeQuestion(q);
    assert U16(q.qtype) + U16(q.qclass) == [0, 12, 0, 1];
    assert EncodeRecords(m.answers) + m.rest == [];
    assert EncodeQuestion(q) == EncodeLabels(wire) + [0] + [0, 12, 0, 1];
    assert EncodeHeader(m) == QueryHeader(queryId);
    hide EncodeHeader, QueryHeader, EncodeQuestion, EncodeQuestions, EncodeRecords, IsMessage;
    assert Encode(m) == EncodeHeader(m) + EncodeQuestion(q);
  }

  /** Whatever the parts, the fields around the name are those of a PTR query. */
  lemma QueryFields(ip: string, queryId: nat, q: seq<byte>)
    requires queryId < 65536 && BuildPtrQuery(ip, queryId) == Ok(q)
    ensures |q| >= 17 && U16At(q, 0) == queryId && U16At(q, 2) == 0x0100
    ensures U16At(q, 4) == 1 && U16At(q, 6) == 0 && U16At(q, 8) == 0 && U16At(q, 10) == 0
    ensures q[|q| - 5] == 0 && U16At(q, |q| - 4) == 12 && U16At(q, |q| - 2) == 1
  {
    hide LabelBytes, SplitDots, ArpaName;
    var question := LabelBytes(SplitDots(ArpaName(ip))).value;
    var h := QueryHeader(queryId);
    assert forall k :: 0 <= k < 12 ==> q[k] == h[k];
    assert q[|q| - 4..] == [0, 12, 0, 1];
  }

  lemma {:induction false} OnlyGoodLabelsEncode(labels: seq<string>)
    requires LabelBytes(labels).Ok?
    ensures forall l :: l in labels ==> |l| <= 255 && IsAscii(l)
  {
    hide IsAscii;
    if labels != [] {
      LabelBytesUnfold(labels);
      OnlyGoodLabelsEncode(labels[1..]);
      assert labels == [labels[0]] + labels[1..];
    }
  }

  lemma QueryLabelsAre(ip: string)
    ensures forall l :: l in QueryLabels(ip) <==> l in SplitDots(ip) || l == "in-addr" || l == "arpa"
  {
    ReversedKeeps(SplitDots(ip));
    hide SplitDots, Reversed;
    assert forall l :: l in ARPA <==> l == "in-addr" || l == "arpa";
  }

  lemma ArpaLabelsAreGood()
    ensures |"in-addr"| <= 255 && |"arpa"| <= 255 && IsAscii("in-addr") && IsAscii("arpa")
  {
  }

  lemma GoodPartsMakeGoodLabels(ip: string)
    ensures (forall part :: part in SplitDots(ip) ==> |part| <= 255 && IsAscii(part))
            <==> forall l :: l in QueryLabels(ip) ==> |l| <= 255 && IsAscii(l)
  {
    QueryLabelsAre(ip);
    ArpaLabelsAreGood();
    hide SplitDots, IsAscii, QueryLabels;
  }

  /** A query is built exactly for addresses whose parts are ASCII and no longer than a byte can say. */
  lemma QueryIsBuiltIff(ip: string, queryId: nat)
    requires queryId < 65536
    ensures BuildPtrQuery(ip, queryId).Ok? <==> forall part :: part in SplitDots(ip) ==> |part| <= 255 && IsAscii(part)
  {
    QueryLabelsAreReversed(ip);
    GoodPartsMakeGoodLabels(ip);
    hide SplitDots, LabelBytes, IsAscii, ArpaName, QueryLabels, QueryHeader;
    if LabelBytes(QueryLabels(ip)).Ok? {
      OnlyGoodLabelsEncode(QueryLabels(ip));
    }
    if forall part :: part in SplitDots(ip) ==> |part| <= 255 && IsAscii(part) {
      GoodLabelsEncode(QueryLabels(ip));
    }
  }

  // ----- why no query is built -----

  /** The first label that cannot be written decides. */
  lemma {:induction false} FirstBadLabelDecides(labels: seq<string>, k: nat)
    requires k < |labels| && (|labels[k]| > 255 || !IsAscii(labels[k]))
    requires forall j :: 0 <= j < k ==> |labels[j]| <= 255 && IsAscii(labels[j])
    ensures LabelBytes(labels) == Err(if |labels[k]| > 255 then LabelTooLong else NotAscii)
  {
    hide IsAscii;
    if k > 0 {
      assert |labels[0]| <= 255 && IsAscii(labels[0]);
      FirstBadLabelDecides(labels[1..], k - 1);
    }
  }

  /** The last part of the address that cannot be written, for the parts are taken backwards. */
  lemma LastBadPartDecides(ip: string, queryId: nat, k: nat)
    requires queryId < 65536 && k < |SplitDots(ip)|
    requires |SplitDots(ip)[k]| > 255 || !IsAscii(SplitDots(ip)[k])
    requires forall j :: k < j < |SplitDots(ip)| ==> |SplitDots(ip)[j]| <= 255 && IsAscii(SplitDots(ip)[j])
    ensures BuildPtrQuery(ip, queryId) == Err(if |SplitDots(ip)[k]| > 255 then LabelTooLong else NotAscii)
  {
    QueryLabelsAreReversed(ip);
    ReversedAt(SplitDots(ip));
    hide SplitDots, Reversed, LabelBytes, IsAscii, ArpaName, QueryHeader;
    FirstBadLabelDecides(QueryLabels(ip), |SplitDots(ip)| - 1 - k);
  }

  // ----- the query and its answer -----

  /** Asked for an address, a name server repeats the question and points back to it; whatever name the
      one record carries is what the reader returns. */
  lemma QueryAndReply(
    ip: string, queryId: nat, q: seq<byte>, wire: seq<Label>, flags: nat, ttl: nat, target: seq<Label>, data: seq<byte>)
    requires queryId < 65536 && BuildPtrQuery(ip, queryId) == Ok(q)
    requires forall part :: part in SplitDots(ip) ==> 1 <= |part| <= 63
    requires AreQueryLabels(wire, SplitDots(ip))
    requires IsMessage(Reply(queryId, flags, wire, ttl, target)) && flags % 16 == 0
    requires data == Encode(Reply(queryId, flags, wire, ttl, target))
    ensures IsMessage(PtrQuery(queryId, wire)) && q == Encode(PtrQuery(queryId, wire))
    ensures PtrQuery(queryId, wire).questions == Reply(queryId, flags, wire, ttl, target).questions
    ensures PtrNames(data, queryId) == Ok([Dotted(DecodeAll(target))])
    ensures PtrNames(q, queryId) == Ok([])
  {
    hide SplitDots, BuildPtrQuery, Encode, IsMessage, AreQueryLabels, PtrNames, DecodeAll, Dotted;
    QueryIsMessage(ip, queryId, q, wire);
    ReplyIsRead(queryId, flags, wire, ttl, target, data);
    RootMeansItself(q, wire);
    ResponseIsRead(PtrQuery(queryId, wire), q, [], queryId);
  }
}
