/** app/worker.py's DNS codec: the reader of possibly compressed names (RFC 1035, section 4.1.4), the
    PTR query it sends and the reader of the answer. */
module Dns {
  import opened Options

  type Label = seq<byte>

  datatype DnsError = IndexError | CompressionLoop | ShortRecord

  const MAX_HOPS := 16

  /** The bytes of `data` from `from` on, at most `count`: what a Python slice gives. */
  function Taken(data: seq<byte>, from: nat, count: nat): seq<byte> {
    data[Min(from, |data|)..Min(from + count, |data|)]
  }

  /** `bytes.decode("ascii", "replace")`. */
  function Decoded(s: seq<byte>): string {
    seq(|s|, i requires 0 <= i < |s| => if s[i] < 128 then s[i] as char else '\U{FFFD}')
  }

  function Dotted(labels: seq<string>): string {
    if labels == [] then ""
    else if |labels| == 1 then labels[0]
    else labels[0] + "." + Dotted(labels[1..])
  }

  // ----- reading a name -----

  datatype Read = Read(labels: seq<string>, end: nat)

  datatype Name = Name(text: string, next: nat)

  predicate IsPointerByte(b: byte) {
    b >= 192
  }

  function PointerTarget(high: byte, low: byte): nat {
    (high % 64) * 256 + low
  }

  /** The labels the reader collects from `offset` on, having followed `hops` pointers. */
  function ReadLabels(data: seq<byte>, offset: nat, hops: nat): Result<Read, DnsError>
    requires hops <= MAX_HOPS
    decreases MAX_HOPS - hops, |data| - Min(offset, |data|)
  {
    if offset >= |data| then Err(IndexError)
    else if data[offset] == 0 then Ok(Read([], offset + 1))
    else if IsPointerByte(data[offset]) then
      if offset + 1 >= |data| then Err(IndexError)
      else if hops == MAX_HOPS then Err(CompressionLoop)
      else ReadPast([], Some(offset + 2), ReadLabels(data, PointerTarget(data[offset], data[offset + 1]), hops + 1))
    else
      ReadPast([Decoded(Taken(data, offset + 1, data[offset]))], None,
               ReadLabels(data, offset + 1 + data[offset], hops))
  }

  /** What remains to be read, put behind the labels already read; the first pointer fixes the end. */
  function ReadPast(labels: seq<string>, end: Option<nat>, rest: Result<Read, DnsError>): Result<Read, DnsError> {
    match rest
    case Err(e) => Err(e)
    case Ok(read) => Ok(Read(labels + read.labels, if end.Some? then end.value else read.end))
  }

  lemma ReadPastTwice(
    labels: seq<string>, end: Option<nat>, more: seq<string>, later: Option<nat>, rest: Result<Read, DnsError>)
    ensures ReadPast(labels, end, ReadPast(more, later, rest))
            == ReadPast(labels + more, if end.Some? then end else later, rest)
  {
    if rest.Ok? {
      assert labels + (more + rest.value.labels) == labels + more + rest.value.labels;
    }
  }

  function NameAt(data: seq<byte>, offset: nat): Result<Name, DnsError> {
    match ReadLabels(data, offset, 0)
    case Err(e) => Err(e)
    case Ok(read) => Ok(Name(Dotted(read.labels), read.end))
  }

  /** What one turn of the reader comes to. */
  lemma ReadStep(data: seq<byte>, at: nat, hops: nat, labels: seq<string>, end: Option<nat>)
    requires hops <= MAX_HOPS && at < |data| && data[at] != 0
    ensures IsPointerByte(data[at]) && at + 1 < |data| && hops < MAX_HOPS ==>
              ReadPast(labels, end, ReadLabels(data, at, hops))
              == ReadPast(labels, if end.Some? then end else Some(at + 2),
                          ReadLabels(data, PointerTarget(data[at], data[at + 1]), hops + 1))
    ensures !IsPointerByte(data[at]) ==>
              ReadPast(labels, end, ReadLabels(data, at, hops))
              == ReadPast(labels + [Decoded(Taken(data, at + 1, data[at]))], end,
                          ReadLabels(data, at + 1 + data[at], hops))
  {
    if IsPointerByte(data[at]) {
      if at + 1 < |data| && hops < MAX_HOPS {
        var rest := ReadLabels(data, PointerTarget(data[at], data[at + 1]), hops + 1);
        ReadPastTwice(labels, end, [], Some(at + 2), rest);
        assert labels + [] == labels;
      }
    } else {
      ReadPastTwice(labels, end, [Decoded(Taken(data, at + 1, data[at]))], None,
                    ReadLabels(data, at + 1 + data[at], hops));
    }
  }

  /** How the reader ends. */
  lemma ReadStops(data: seq<byte>, at: nat, hops: nat, labels: seq<string>, end: Option<nat>)
    requires hops <= MAX_HOPS
    ensures at >= |data| ==> ReadPast(labels, end, ReadLabels(data, at, hops)) == Err(IndexError)
    ensures at < |data| && data[at] == 0 ==>
              ReadPast(labels, end, ReadLabels(data, at, hops))
              == Ok(Read(labels, if end.Some? then end.value else at + 1))
    ensures at < |data| && IsPointerByte(data[at]) ==>
              && (at + 1 >= |data| ==> ReadPast(labels, end, ReadLabels(data, at, hops)) == Err(IndexError))
              && (at + 1 < |data| && hops == MAX_HOPS ==>
                    ReadPast(labels, end, ReadLabels(data, at, hops)) == Err(CompressionLoop))
  {
    assert labels + [] == labels;
  }

  /** `_read_dns_name`. It ends on every byte string: each turn follows one of at most sixteen pointers
      or leaves fewer bytes. */
  method ReadDnsName(data: seq<byte>, offset: nat) returns (r: Result<Name, DnsError>)
    ensures r == NameAt(data, offset)
  {
    hide ReadLabels, ReadPast, Decoded, Taken, PointerTarget, Dotted;
    var labels: seq<string> := [];
    var end: Option<nat> := None;
    var hops: nat, at: nat := 0, offset;
    ReadPastNothing(ReadLabels(data, offset, 0));
    while true
      invariant hops <= MAX_HOPS
      invariant ReadLabels(data, offset, 0) == ReadPast(labels, end, ReadLabels(data, at, hops))
      decreases MAX_HOPS - hops, |data| - Min(at, |data|)
    {
      ReadStops(data, at, hops, labels, end);
      if at >= |data| {
        return Err(IndexError);
      }
      var length := data[at];
      if length == 0 {
        at := at + 1;
        return Ok(Name(Dotted(labels), if end.Some? then end.value else at));
      }
      ReadStep(data, at, hops, labels, end);
      if IsPointerByte(length) {
        if at + 1 >= |data| {
          return Err(IndexError);
        }
        if hops + 1 > MAX_HOPS {
          return Err(CompressionLoop);
        }
        if end == None {
          end := Some(at + 2);
        }
        at, hops := PointerTarget(length, data[at + 1]), hops + 1;
      } else {
        labels := labels + [Decoded(Taken(data, at + 1, length))];
        at := at + 1 + length;
      }
    }
  }

  // ----- names as RFC 1035 writes them -----

  datatype Tail = Root | Pointer(target: nat)

  /** A name on the wire: labels, then the root or a pointer to where the name goes on. */
  datatype NameCode = NameCode(labels: seq<Label>, tail: Tail)

  /** RFC 1035 allows labels of 1 to 63 bytes; the reader takes any first byte below 192 as a length. */
  predicate LabelsFit(labels: seq<Label>, most: nat) {
    forall l :: l in labels ==> 1 <= |l| <= most
  }

  const RFC_LABEL := 63
  const READABLE_LABEL := 191

  predicate IsCode(code: NameCode, most: nat) {
    LabelsFit(code.labels, most) && (code.tail.Pointer? ==> code.tail.target < 16384)
  }

  function EncodeLabels(labels: seq<Label>): seq<byte>
    requires LabelsFit(labels, READABLE_LABEL)
  {
    if labels == [] then [] else [|labels[0]|] + labels[0] + EncodeLabels(labels[1..])
  }

  function EncodeTail(tail: Tail): seq<byte>
    requires tail.Pointer? ==> tail.target < 16384
  {
    match tail
    case Root => [0]
    case Pointer(t) => [192 + t / 256, t % 256]
  }

  function EncodeName(code: NameCode): seq<byte>
    requires IsCode(code, READABLE_LABEL)
  {
    EncodeLabels(code.labels) + EncodeTail(code.tail)
  }

  predicate BytesAt(data: seq<byte>, offset: nat, s: seq<byte>) {
    offset + |s| <= |data| && data[offset..offset + |s|] == s
  }

  lemma BytesAtParts(data: seq<byte>, offset: nat, a: seq<byte>, b: seq<byte>)
    ensures BytesAt(data, offset, a + b) <==> BytesAt(data, offset, a) && BytesAt(data, offset + |a|, b)
  {
    if offset + |a| + |b| <= |data| {
      var whole := data[offset..offset + |a| + |b|];
      assert whole[..|a|] == data[offset..offset + |a|];
      assert whole[|a|..] == data[offset + |a|..offset + |a| + |b|];
      assert whole == whole[..|a|] + whole[|a|..];
      assert (a + b)[..|a|] == a && (a + b)[|a|..] == b;
    }
  }

  lemma ByteAt(data: seq<byte>, offset: nat, s: seq<byte>, k: nat)
    requires BytesAt(data, offset, s) && k < |s|
    ensures data[offset + k] == s[k]
  {
    assert data[offset..offset + |s|][k] == data[offset + k];
  }

  /** The name code is written at `offset`. */
  predicate WrittenAt(data: seq<byte>, offset: nat, code: NameCode) {
    IsCode(code, READABLE_LABEL) && BytesAt(data, offset, EncodeName(code))
  }

  /** The code spells `labels`: its own, then those of a name written where its pointer leads, and so on
      over exactly `hops` pointers. */
  ghost predicate Spells(data: seq<byte>, code: NameCode, labels: seq<Label>, hops: nat)
    decreases hops
  {
    && code.labels <= labels
    && match code.tail
       case Root => hops == 0 && labels == code.labels
       case Pointer(t) =>
         hops > 0 && exists rest: NameCode ::
           WrittenAt(data, t, rest) && Spells(data, rest, labels[|code.labels|..], hops - 1)
  }

  /** From the code at least `hops` pointers can be followed; the last may lead anywhere. */
  ghost predicate LeadsOn(data: seq<byte>, code: NameCode, hops: nat)
    requires hops > 0
    decreases hops
  {
    && code.tail.Pointer?
    && (hops > 1 ==> exists rest: NameCode :: WrittenAt(data, code.tail.target, rest) && LeadsOn(data, rest, hops - 1))
  }

  function DecodeAll(labels: seq<Label>): seq<string> {
    if labels == [] then [] else [Decoded(labels[0])] + DecodeAll(labels[1..])
  }

  lemma DecodeAllUnfold(labels: seq<Label>)
    requires labels != []
    ensures DecodeAll(labels) == [Decoded(labels[0])] + DecodeAll(labels[1..])
  {
    hide Decoded;
  }

  lemma AddInFront(x: seq<string>, y: seq<string>, z: seq<string>)
    ensures x + (y + z) == (x + y) + z
  {
  }

  lemma {:induction false} DecodeAllAppends(a: seq<Label>, b: seq<Label>)
    ensures DecodeAll(a + b) == DecodeAll(a) + DecodeAll(b)
  {
    hide Decoded;
    if a == [] {
      assert a + b == b;
    } else {
      DecodeAllAppends(a[1..], b);
      assert (a + b)[0] == a[0] && (a + b)[1..] == a[1..] + b;
      DecodeAllUnfold(a + b);
      DecodeAllUnfold(a);
      hide DecodeAll;
      AddInFront([Decoded(a[0])], DecodeAll(a[1..]), DecodeAll(b));
    }
  }

  lemma LabelIsRead(data: seq<byte>, offset: nat, l: Label, hops: nat)
    requires hops <= MAX_HOPS && 1 <= |l| <= READABLE_LABEL && BytesAt(data, offset, [|l|] + l)
    ensures ReadLabels(data, offset, hops) == ReadPast([Decoded(l)], None, ReadLabels(data, offset + 1 + |l|, hops))
  {
    BytesAtParts(data, offset, [|l|], l);
    ByteAt(data, offset, [|l|], 0);
    assert Taken(data, offset + 1, |l|) == l;
  }

  lemma {:induction false} LabelsAreRead(data: seq<byte>, offset: nat, labels: seq<Label>, hops: nat)
    requires hops <= MAX_HOPS && LabelsFit(labels, READABLE_LABEL) && BytesAt(data, offset, EncodeLabels(labels))
    ensures ReadLabels(data, offset, hops)
            == ReadPast(DecodeAll(labels), None, ReadLabels(data, offset + |EncodeLabels(labels)|, hops))
    decreases |labels|
  {
    hide ReadLabels, ReadPast, BytesAt, Decoded;
    if labels == [] {
      ReadPastNothing(ReadLabels(data, offset, hops));
    } else {
      var first, rest := labels[0], labels[1..];
      var next := offset + 1 + |first|;
      BytesAtParts(data, offset, [|first|] + first, EncodeLabels(rest));
      LabelIsRead(data, offset, first, hops);
      LabelsAreRead(data, next, rest, hops);
      ReadPastTwice([Decoded(first)], None, DecodeAll(rest), None,
                    ReadLabels(data, next + |EncodeLabels(rest)|, hops));
    }
  }

  lemma ReadPastNothing(r: Result<Read, DnsError>)
    ensures ReadPast([], None, r) == r
  {
    if r.Ok? { assert [] + r.value.labels == r.value.labels; }
  }

  lemma PointerIsRead(data: seq<byte>, offset: nat, t: nat, hops: nat)
    requires hops <= MAX_HOPS && t < 16384 && BytesAt(data, offset, EncodeTail(Pointer(t)))
    ensures ReadLabels(data, offset, hops)
            == if hops == MAX_HOPS then Err(CompressionLoop)
               else ReadPast([], Some(offset + 2), ReadLabels(data, t, hops + 1))
  {
    var s := EncodeTail(Pointer(t));
    ByteAt(data, offset, s, 0);
    ByteAt(data, offset, s, 1);
    assert PointerTarget(192 + t / 256, t % 256) == t;
  }

  lemma ReadPastRoot(labels: seq<string>, end: nat)
    ensures ReadPast(labels, None, Ok(Read([], end))) == Ok(Read(labels, end))
  {
    assert labels + [] == labels;
  }

  lemma ReadPastError(labels: seq<string>, end: Option<nat>, e: DnsError)
    ensures ReadPast(labels, end, Err(e)) == Err(e)
  {
  }

  lemma ZeroIsRead(data: seq<byte>, offset: nat, hops: nat)
    requires hops <= MAX_HOPS && BytesAt(data, offset, EncodeTail(Root))
    ensures ReadLabels(data, offset, hops) == Ok(Read([], offset + 1))
  {
    ByteAt(data, offset, [0], 0);
  }

  /** Where the parts of a written name lie. */
  lemma NameParts(data: seq<byte>, offset: nat, labels: seq<Label>, tail: Tail)
    requires WrittenAt(data, offset, NameCode(labels, tail))
    ensures IsCode(NameCode(labels, tail), READABLE_LABEL)
    ensures LabelsFit(labels, READABLE_LABEL) && BytesAt(data, offset, EncodeLabels(labels))
    ensures tail.Pointer? ==> tail.target < 16384
    ensures BytesAt(data, offset + |EncodeLabels(labels)|, EncodeTail(tail))
    ensures |EncodeName(NameCode(labels, tail))| == |EncodeLabels(labels)| + if tail.Root? then 1 else 2
  {
    hide BytesAt, EncodeLabels, LabelsFit;
    BytesAtParts(data, offset, EncodeLabels(labels), EncodeTail(tail));
  }

  lemma RootIsRead(data: seq<byte>, offset: nat, labels: seq<Label>, hops: nat)
    requires hops <= MAX_HOPS && WrittenAt(data, offset, NameCode(labels, Root))
    ensures IsCode(NameCode(labels, Root), READABLE_LABEL)
    ensures ReadLabels(data, offset, hops)
            == Ok(Read(DecodeAll(labels), offset + |EncodeName(NameCode(labels, Root))|))
  {
    hide *;
    NameParts(data, offset, labels, Root);
    var at := offset + |EncodeLabels(labels)|;
    ZeroIsRead(data, at, hops);
    LabelsAreRead(data, offset, labels, hops);
    ReadPastRoot(DecodeAll(labels), at + 1);
  }

  lemma CompressedIsRead(data: seq<byte>, offset: nat, labels: seq<Label>, t: nat, hops: nat)
    requires hops <= MAX_HOPS && WrittenAt(data, offset, NameCode(labels, Pointer(t)))
    ensures IsCode(NameCode(labels, Pointer(t)), READABLE_LABEL)
    ensures ReadLabels(data, offset, hops)
            == if hops == MAX_HOPS then Err(CompressionLoop)
               else ReadPast(DecodeAll(labels), Some(offset + |EncodeName(NameCode(labels, Pointer(t)))|),
                             ReadLabels(data, t, hops + 1))
  {
    hide *;
    NameParts(data, offset, labels, Pointer(t));
    var at := offset + |EncodeLabels(labels)|;
    PointerIsRead(data, at, t, hops);
    LabelsAreRead(data, offset, labels, hops);
    if hops < MAX_HOPS {
      ReadPastTwice(DecodeAll(labels), None, [], Some(at + 2), ReadLabels(data, t, hops + 1));
      assert DecodeAll(labels) + [] == DecodeAll(labels);
    } else {
      ReadPastError(DecodeAll(labels), None, CompressionLoop);
    }
  }

  lemma ReadPastSpelled(labels: seq<Label>, behind: seq<Label>, end: nat, later: nat)
    ensures ReadPast(DecodeAll(labels), Some(end), Ok(Read(DecodeAll(behind), later)))
            == Ok(Read(DecodeAll(labels + behind), end))
  {
    hide DecodeAll;
    DecodeAllAppends(labels, behind);
  }

  lemma WrittenIsCode(data: seq<byte>, offset: nat, code: NameCode)
    requires WrittenAt(data, offset, code)
    ensures IsCode(code, READABLE_LABEL)
  {
  }

  /** Whatever the compression, the reader gives back the labels a name spells and the offset just after
      its own bytes, if it takes at most sixteen pointers to read them, and gives up otherwise. */
  lemma {:induction false} SpelledIsRead(
    data: seq<byte>, offset: nat, code: NameCode, labels: seq<Label>, more: nat, hops: nat)
    requires hops <= MAX_HOPS && WrittenAt(data, offset, code) && Spells(data, code, labels, more)
    ensures ReadLabels(data, offset, hops)
            == if hops + more <= MAX_HOPS then Ok(Read(DecodeAll(labels), offset + |EncodeName(code)|))
               else Err(CompressionLoop)
    decreases more
  {
    hide ReadLabels, WrittenAt, DecodeAll, EncodeName, ReadPast, IsCode;
    WrittenIsCode(data, offset, code);
    match code.tail
    case Root =>
      assert code == NameCode(labels, Root);
      RootIsRead(data, offset, labels, hops);
    case Pointer(t) =>
      assert code == NameCode(code.labels, Pointer(t));
      CompressedIsRead(data, offset, code.labels, t, hops);
      if hops < MAX_HOPS {
        var behind := labels[|code.labels|..];
        var rest: NameCode :| WrittenAt(data, t, rest) && Spells(data, rest, behind, more - 1);
        SpelledIsRead(data, t, rest, behind, more - 1, hops + 1);
        assert code.labels + behind == labels;
        WrittenIsCode(data, t, rest);
        ReadPastSpelled(code.labels, behind, offset + |EncodeName(code)|, t + |EncodeName(rest)|);
        ReadPastError(DecodeAll(code.labels), Some(offset + |EncodeName(code)|), CompressionLoop);
      }
  }

  /** A chain of more than sixteen pointers, loops included, is refused. */
  lemma {:induction false} LongChainsAreRefused(data: seq<byte>, offset: nat, code: NameCode, more: nat, hops: nat)
    requires hops <= MAX_HOPS && more == MAX_HOPS + 1 - hops
    requires WrittenAt(data, offset, code) && LeadsOn(data, code, more)
    ensures ReadLabels(data, offset, hops) == Err(CompressionLoop)
    decreases more
  {
    hide ReadLabels, WrittenAt, DecodeAll, EncodeName;
    var t := code.tail.target;
    assert code == NameCode(code.labels, Pointer(t));
    CompressedIsRead(data, offset, code.labels, t, hops);
    if hops < MAX_HOPS {
      var rest: NameCode :| WrittenAt(data, t, rest) && LeadsOn(data, rest, more - 1);
      LongChainsAreRefused(data, t, rest, more - 1, hops + 1);
    }
  }

  lemma {:induction false} SelfPointersLeadOn(data: seq<byte>, offset: nat, code: NameCode, hops: nat)
    requires hops > 0 && WrittenAt(data, offset, code) && code.tail == Pointer(offset)
    ensures LeadsOn(data, code, hops)
    decreases hops
  {
    if hops > 1 { SelfPointersLeadOn(data, offset, code, hops - 1); }
  }

  /** A name that points back to itself is refused, whatever stands before the pointer. */
  lemma LoopsAreRefused(data: seq<byte>, offset: nat, code: NameCode)
    requires WrittenAt(data, offset, code) && code.tail == Pointer(offset)
    ensures NameAt(data, offset) == Err(CompressionLoop)
  {
    SelfPointersLeadOn(data, offset, code, MAX_HOPS + 1);
    hide WrittenAt, LeadsOn, ReadLabels;
    LongChainsAreRefused(data, offset, code, MAX_HOPS + 1, 0);
  }

  lemma LabelInFrontEncodes(l: Label, rest: NameCode)
    requires 1 <= |l| <= READABLE_LABEL && IsCode(rest, READABLE_LABEL)
    ensures IsCode(NameCode([l] + rest.labels, rest.tail), READABLE_LABEL)
    ensures EncodeName(NameCode([l] + rest.labels, rest.tail)) == ([|l|] + l) + EncodeName(rest)
  {
    var labels := [l] + rest.labels;
    assert labels[0] == l && labels[1..] == rest.labels;
    assert EncodeLabels(labels) == ([|l|] + l) + EncodeLabels(rest.labels);
    hide EncodeLabels, EncodeTail;
    var head, mid, last := [|l|] + l, EncodeLabels(rest.labels), EncodeTail(rest.tail);
    assert (head + mid) + last == head + (mid + last);
  }

  lemma LabelInFrontSpells(data: seq<byte>, l: Label, rest: NameCode, spelled: seq<Label>, more: nat)
    requires Spells(data, rest, spelled, more)
    ensures Spells(data, NameCode([l] + rest.labels, rest.tail), [l] + spelled, more)
  {
    var code, labels := NameCode([l] + rest.labels, rest.tail), [l] + spelled;
    hide WrittenAt;
    assert labels[|code.labels|..] == spelled[|rest.labels|..];
    assert labels[..|code.labels|] == [l] + spelled[..|rest.labels|];
  }

  lemma LabelInFront(data: seq<byte>, offset: nat, l: Label, rest: NameCode, spelled: seq<Label>, more: nat)
    requires 1 <= |l| <= READABLE_LABEL && BytesAt(data, offset, [|l|] + l)
    requires WrittenAt(data, offset + 1 + |l|, rest) && Spells(data, rest, spelled, more)
    ensures WrittenAt(data, offset, NameCode([l] + rest.labels, rest.tail))
    ensures Spells(data, NameCode([l] + rest.labels, rest.tail), [l] + spelled, more)
  {
    hide BytesAt, EncodeName, Spells;
    LabelInFrontEncodes(l, rest);
    BytesAtParts(data, offset, [|l|] + l, EncodeName(rest));
    LabelInFrontSpells(data, l, rest, spelled, more);
  }

  lemma RootIsSpelled(data: seq<byte>, offset: nat)
    requires offset < |data| && data[offset] == 0
    ensures WrittenAt(data, offset, NameCode([], Root)) && Spells(data, NameCode([], Root), [], 0)
  {
    assert EncodeName(NameCode([], Root)) == [0];
  }

  lemma PointerSpells(data: seq<byte>, t: nat, rest: NameCode, spelled: seq<Label>, more: nat)
    requires WrittenAt(data, t, rest) && Spells(data, rest, spelled, more)
    ensures Spells(data, NameCode([], Pointer(t)), spelled, more + 1)
  {
    hide WrittenAt;
    assert spelled[0..] == spelled;
  }

  lemma PointerBytes(data: seq<byte>, offset: nat)
    requires offset + 1 < |data| && IsPointerByte(data[offset])
    ensures WrittenAt(data, offset, NameCode([], Pointer(PointerTarget(data[offset], data[offset + 1]))))
  {
    var b, c := data[offset], data[offset + 1];
    var t := PointerTarget(b, c);
    assert t / 256 == b - 192 && t % 256 == c;
    assert EncodeTail(Pointer(t)) == [b, c];
    assert EncodeLabels([]) + [b, c] == [b, c];
    assert EncodeName(NameCode([], Pointer(t))) == [b, c];
    assert data[offset..offset + 2] == [b, c];
  }

  lemma PointerInFront(data: seq<byte>, offset: nat, rest: NameCode, spelled: seq<Label>, more: nat)
    requires offset + 1 < |data| && IsPointerByte(data[offset])
    requires WrittenAt(data, PointerTarget(data[offset], data[offset + 1]), rest) && Spells(data, rest, spelled, more)
    ensures var code := NameCode([], Pointer(PointerTarget(data[offset], data[offset + 1])));
            WrittenAt(data, offset, code) && Spells(data, code, spelled, more + 1)
  {
    hide *;
    PointerSpells(data, PointerTarget(data[offset], data[offset + 1]), rest, spelled, more);
    PointerBytes(data, offset);
  }

  /** Whatever the reader accepts was spelled by a name code, over at most sixteen pointers. */
  lemma {:induction false} ReadIsSpelled(data: seq<byte>, offset: nat, hops: nat)
    returns (code: NameCode, labels: seq<Label>, more: nat)
    requires hops <= MAX_HOPS && ReadLabels(data, offset, hops).Ok?
    ensures hops + more <= MAX_HOPS && WrittenAt(data, offset, code) && Spells(data, code, labels, more)
    decreases MAX_HOPS - hops, |data| - Min(offset, |data|)
  {
    hide WrittenAt, Spells, PointerTarget, Decoded, Taken;
    var b := data[offset];
    if b == 0 {
      code, labels, more := NameCode([], Root), [], 0;
      RootIsSpelled(data, offset);
    } else if IsPointerByte(b) {
      var t := PointerTarget(b, data[offset + 1]);
      var rest, spelled, after := ReadIsSpelled(data, t, hops + 1);
      code, labels, more := NameCode([], Pointer(t)), spelled, after + 1;
      PointerInFront(data, offset, rest, spelled, after);
    } else {
      var next := offset + 1 + b;
      var rest, spelled, after := ReadIsSpelled(data, next, hops);
      var l := data[offset + 1..next];
      code, labels, more := NameCode([l] + rest.labels, rest.tail), [l] + spelled, after;
      assert data[offset..next] == [b] + l;
      LabelInFront(data, offset, l, rest, spelled, after);
    }
  }

  /** The reader accepts exactly the names that labels of at most 191 bytes and at most sixteen pointers
      spell: RFC 1035's, and also those with the length bytes 64 to 191 that it reserves. */
  lemma AcceptsExactlyTheSpelled(data: seq<byte>, offset: nat)
    ensures ReadLabels(data, offset, 0).Ok?
            <==> exists code: NameCode, labels: seq<Label>, hops: nat ::
                   hops <= 16 && WrittenAt(data, offset, code) && Spells(data, code, labels, hops)
  {
    if ReadLabels(data, offset, 0).Ok? {
      var code, labels, hops := ReadIsSpelled(data, offset, 0);
      assert hops <= 16 && WrittenAt(data, offset, code) && Spells(data, code, labels, hops);
    }
    if code: NameCode, labels: seq<Label>, hops: nat
      :| hops <= 16 && WrittenAt(data, offset, code) && Spells(data, code, labels, hops) {
      SpelledIsRead(data, offset, code, labels, hops, 0);
    }
  }

  /** An ASCII character, or the mark that stands for a byte that is none. */
  predicate IsShown(c: char) {
    c as int < 128 || c == '\U{FFFD}'
  }

  lemma DecodedIsShown(s: seq<byte>)
    ensures |Decoded(s)| == |s|
    ensures forall k :: 0 <= k < |s| ==> IsShown(Decoded(s)[k]) && (s[k] < 128 <==> Decoded(s)[k] as int == s[k])
  {
  }

  lemma {:induction false} DottedIsShown(labels: seq<string>)
    requires forall l, c :: l in labels && c in l ==> IsShown(c)
    ensures forall c :: c in Dotted(labels) ==> IsShown(c)
  {
    if |labels| > 1 {
      DottedIsShown(labels[1..]);
      assert labels[0] in labels;
    } else if |labels| == 1 {
      assert labels[0] in labels;
    }
  }

  lemma {:induction false} LabelsAreShown(data: seq<byte>, offset: nat, hops: nat)
    requires hops <= MAX_HOPS && ReadLabels(data, offset, hops).Ok?
    ensures forall l, c :: l in ReadLabels(data, offset, hops).value.labels && c in l ==> IsShown(c)
    decreases MAX_HOPS - hops, |data| - Min(offset, |data|)
  {
    var b := data[offset];
    hide IsShown, Decoded, Taken;
    if b != 0 {
      if IsPointerByte(b) {
        LabelsAreShown(data, PointerTarget(b, data[offset + 1]), hops + 1);
      } else {
        LabelsAreShown(data, offset + 1 + b, hops);
        var s := Taken(data, offset + 1, b);
        DecodedIsShown(s);
        forall c | c in Decoded(s) ensures IsShown(c) {
          var k :| 0 <= k < |Decoded(s)| && Decoded(s)[k] == c;
        }
      }
    }
  }

  /** Whatever bytes a message holds, a name read from it is ASCII but for the replacement mark. */
  lemma NamesAreShown(data: seq<byte>, offset: nat)
    requires NameAt(data, offset).Ok?
    ensures forall c :: c in NameAt(data, offset).value.text ==> IsShown(c)
  {
    LabelsAreShown(data, offset, 0);
    hide ReadLabels, IsShown, Dotted;
    DottedIsShown(ReadLabels(data, offset, 0).value.labels);
  }
}
