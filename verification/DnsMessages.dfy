/** app/worker.py's two DNS messages: the PTR query it builds and the response it takes apart
    (RFC 1035, sections 4.1.1 to 4.1.4). */
module DnsMessages {
  import opened Options
  import opened Dns

  function U16(n: nat): seq<byte>
    requires n < 65536
  {
    [n / 256, n % 256]
  }

  function U32(n: nat): seq<byte>
    requires n < 4294967296
  {
    U16(n / 65536) + U16(n % 65536)
  }

  function U16At(data: seq<byte>, at: nat): nat
    requires at + 2 <= |data|
  {
    (data[at] as int) * 256 + data[at + 1] as int
  }

  lemma U16IsRead(data: seq<byte>, at: nat, n: nat)
    requires n < 65536 && BytesAt(data, at, U16(n))
    ensures U16At(data, at) == n
  {
    ByteAt(data, at, U16(n), 0);
    ByteAt(data, at, U16(n), 1);
  }

  // ----- reading a response -----

  /** The offset after `n` questions. */
  function QuestionsEnd(data: seq<byte>, offset: nat, n: nat): Result<nat, DnsError>
    decreases n
  {
    if n == 0 then Ok(offset)
    else
      match NameAt(data, offset)
      case Err(e) => Err(e)
      case Ok(name) => QuestionsEnd(data, name.next + 4, n - 1)
  }

  function Onto(names: seq<string>, rest: Result<seq<string>, DnsError>): Result<seq<string>, DnsError> {
    match rest
    case Err(e) => Err(e)
    case Ok(more) => Ok(names + more)
  }

  /** The targets of the PTR records among the `n` records from `offset` on. */
  function TargetsFrom(data: seq<byte>, offset: nat, n: nat): Result<seq<string>, DnsError>
    decreases n
  {
    if n == 0 then Ok([])
    else
      match NameAt(data, offset)
      case Err(e) => Err(e)
      case Ok(owner) =>
        var at := owner.next;
        if at + 10 > |data| then Err(ShortRecord)
        else
          var next := at + 10 + U16At(data, at + 8);
          if U16At(data, at) != 12 then TargetsFrom(data, next, n - 1)
          else
            match NameAt(data, at + 10)
            case Err(e) => Err(e)
            case Ok(target) => Onto([target.text], TargetsFrom(data, next, n - 1))
  }

  function PtrNames(data: seq<byte>, queryId: nat): Result<seq<string>, DnsError> {
    if |data| < 12 || U16At(data, 0) != queryId || U16At(data, 2) % 16 != 0 then Ok([])
    else
      match QuestionsEnd(data, 12, U16At(data, 4))
      case Err(e) => Err(e)
      case Ok(offset) => TargetsFrom(data, offset, U16At(data, 6))
  }

  lemma OntoTwice(names: seq<string>, more: seq<string>, rest: Result<seq<string>, DnsError>)
    ensures Onto(names, Onto(more, rest)) == Onto(names + more, rest)
  {
    if rest.Ok? { assert names + (more + rest.value) == names + more + rest.value; }
  }

  lemma OntoError(names: seq<string>, e: DnsError)
    ensures Onto(names, Err(e)) == Err(e)
  {
  }

  lemma NothingLeft(names: seq<string>, data: seq<byte>, offset: nat)
    ensures Onto(names, TargetsFrom(data, offset, 0)) == Ok(names)
  {
    assert names + [] == names;
  }

  lemma OntoNothing(rest: Result<seq<string>, DnsError>)
    ensures Onto([], rest) == rest
  {
    if rest.Ok? { assert [] + rest.value == rest.value; }
  }

  /** What reading the record at `offset` comes to. */
  ghost predicate ReadsAs(data: seq<byte>, offset: nat, rtype: nat, target: Option<string>, next: nat) {
    && NameAt(data, offset).Ok?
    && var at := NameAt(data, offset).value.next;
       && at + 10 <= |data|
       && U16At(data, at) == rtype
       && at + 10 + U16At(data, at + 8) == next
       && (target.Some? <==> rtype == 12)
       && (rtype == 12 ==> NameAt(data, at + 10).Ok? && NameAt(data, at + 10).value.text == target.value)
  }

  lemma RecordStep(data: seq<byte>, offset: nat, n: nat, rtype: nat, target: Option<string>, next: nat)
    requires n > 0 && ReadsAs(data, offset, rtype, target, next)
    ensures TargetsFrom(data, offset, n)
            == Onto(if target.Some? then [target.value] else [], TargetsFrom(data, next, n - 1))
  {
    hide NameAt, U16At;
    OntoNothing(TargetsFrom(data, next, n - 1));
  }

  lemma RecordFails(data: seq<byte>, offset: nat, n: nat)
    requires n > 0
    ensures NameAt(data, offset).Err? ==> TargetsFrom(data, offset, n) == Err(NameAt(data, offset).error)
    ensures NameAt(data, offset).Ok? ==>
              var at := NameAt(data, offset).value.next;
              && (at + 10 > |data| ==> TargetsFrom(data, offset, n) == Err(ShortRecord))
              && (at + 10 <= |data| && U16At(data, at) == 12 && NameAt(data, at + 10).Err?
                  ==> TargetsFrom(data, offset, n) == Err(NameAt(data, at + 10).error))
  {
    hide NameAt, U16At;
  }

  /** The question loop of `_parse_ptr_response`. */
  method SkipQuestions(data: seq<byte>, qdcount: nat) returns (r: Result<nat, DnsError>)
    ensures r == QuestionsEnd(data, 12, qdcount)
  {
    hide NameAt;
    var offset: nat := 12;
    for i := 0 to qdcount
      invariant QuestionsEnd(data, 12, qdcount) == QuestionsEnd(data, offset, qdcount - i)
    {
      var name := ReadDnsName(data, offset);
      if name.Err? {
        return Err(name.error);
      }
      offset := name.value.next + 4;
    }
    return Ok(offset);
  }

  /** The answer loop of `_parse_ptr_response`. */
  method CollectTargets(data: seq<byte>, first: nat, ancount: nat) returns (r: Result<seq<string>, DnsError>)
    ensures r == TargetsFrom(data, first, ancount)
  {
    hide U16At, NameAt, TargetsFrom, Onto;
    var offset: nat := first;
    var names: seq<string> := [];
    OntoNothing(TargetsFrom(data, offset, ancount));
    for i := 0 to ancount
      invariant TargetsFrom(data, first, ancount) == Onto(names, TargetsFrom(data, offset, ancount - i))
    {
      ghost var start := offset;
      RecordFails(data, start, ancount - i);
      var owner := ReadDnsName(data, offset);
      if owner.Err? {
        OntoError(names, owner.error);
        return Err(owner.error);
      }
      offset := owner.value.next;
      if offset + 10 > |data| {
        OntoError(names, ShortRecord);
        return Err(ShortRecord);
      }
      var rtype, rdlength := U16At(data, offset), U16At(data, offset + 8);
      offset := offset + 10;
      ghost var rest := TargetsFrom(data, offset + rdlength, ancount - i - 1);
      if rtype == 12 {
        var target := ReadDnsName(data, offset);
        if target.Err? {
          OntoError(names, target.error);
          return Err(target.error);
        }
        RecordStep(data, start, ancount - i, rtype, Some(target.value.text), offset + rdlength);
        OntoTwice(names, [target.value.text], rest);
        names := names + [target.value.text];
      } else {
        RecordStep(data, start, ancount - i, rtype, None, offset + rdlength);
        OntoNothing(rest);
      }
      offset := offset + rdlength;
    }
    NothingLeft(names, data, offset);
    return Ok(names);
  }

  /** `_parse_ptr_response`. */
  method ParsePtrResponse(data: seq<byte>, queryId: nat) returns (r: Result<seq<string>, DnsError>)
    ensures r == PtrNames(data, queryId)
  {
    if |data| < 12 {
      return Ok([]);
    }
    var rid, flags, qdcount, ancount := U16At(data, 0), U16At(data, 2), U16At(data, 4), U16At(data, 6);
    if rid != queryId || flags % 16 != 0 {
      return Ok([]);
    }
    var offset := SkipQuestions(data, qdcount);
    if offset.Err? {
      return Err(offset.error);
    }
    r := CollectTargets(data, offset.value, ancount);
  }

  // ----- messages as RFC 1035 writes them -----

  datatype Question = Question(name: NameCode, qtype: nat, qclass: nat)

  datatype RData = PtrData(name: NameCode) | OtherData(rtype: nat, bytes: seq<byte>)

  datatype Record = Record(owner: NameCode, rclass: nat, ttl: nat, rdata: RData)

  /** `rest` stands for the authority and additional sections, which the reader does not look at. */
  datatype Message = Message(
    id: nat,
    flags: nat,
    questions: seq<Question>,
    answers: seq<Record>,
    nscount: nat,
    arcount: nat,
    rest: seq<byte>)

  predicate IsQuestion(q: Question) {
    IsCode(q.name, RFC_LABEL) && q.qtype < 65536 && q.qclass < 65536
  }

  predicate IsRecord(r: Record) {
    && IsCode(r.owner, RFC_LABEL) && r.rclass < 65536 && r.ttl < 4294967296
    && match r.rdata
       case PtrData(name) => IsCode(name, RFC_LABEL) && |EncodeName(name)| < 65536
       case OtherData(rtype, bytes) => rtype < 65536 && rtype != 12 && |bytes| < 65536
  }

  predicate IsMessage(m: Message) {
    && m.id < 65536 && m.flags < 65536 && m.nscount < 65536 && m.arcount < 65536
    && |m.questions| < 65536 && |m.answers| < 65536
    && (forall q :: q in m.questions ==> IsQuestion(q))
    && (forall r :: r in m.answers ==> IsRecord(r))
  }

  function EncodeQuestion(q: Question): seq<byte>
    requires IsQuestion(q)
  {
    EncodeName(q.name) + (U16(q.qtype) + U16(q.qclass))
  }

  function EncodeRData(d: RData): seq<byte>
    requires d.PtrData? ==> IsCode(d.name, RFC_LABEL)
  {
    match d
    case PtrData(name) => EncodeName(name)
    case OtherData(_, bytes) => bytes
  }

  function RecordType(d: RData): nat {
    if d.PtrData? then 12 else d.rtype
  }

  /** The ten bytes between a record's owner and its data. */
  function FixedPart(r: Record): (s: seq<byte>)
    requires IsRecord(r)
    ensures |s| == 10
  {
    U16(RecordType(r.rdata)) + U16(r.rclass) + U32(r.ttl) + U16(|EncodeRData(r.rdata)|)
  }

  function EncodeRecord(r: Record): seq<byte>
    requires IsRecord(r)
  {
    EncodeName(r.owner) + (FixedPart(r) + EncodeRData(r.rdata))
  }

  function EncodeQuestions(qs: seq<Question>): seq<byte>
    requires forall q :: q in qs ==> IsQuestion(q)
  {
    if qs == [] then [] else EncodeQuestion(qs[0]) + EncodeQuestions(qs[1..])
  }

  function EncodeRecords(rs: seq<Record>): seq<byte>
    requires forall r :: r in rs ==> IsRecord(r)
  {
    if rs == [] then [] else EncodeRecord(rs[0]) + EncodeRecords(rs[1..])
  }

  function EncodeHeader(m: Message): (s: seq<byte>)
    requires IsMessage(m)
    ensures |s| == 12
  {
    [m.id / 256, m.id % 256, m.flags / 256, m.flags % 256,
     |m.questions| / 256, |m.questions| % 256, |m.answers| / 256, |m.answers| % 256,
     m.nscount / 256, m.nscount % 256, m.arcount / 256, m.arcount % 256]
  }

  function Encode(m: Message): seq<byte>
    requires IsMessage(m)
  {
    EncodeHeader(m) + (EncodeQuestions(m.questions) + (EncodeRecords(m.answers) + m.rest))
  }

  /** The name spells these labels over at most sixteen pointers. */
  ghost predicate Means(data: seq<byte>, code: NameCode, labels: seq<Label>) {
    exists hops: nat :: hops <= MAX_HOPS && Spells(data, code, labels, hops)
  }

  ghost predicate IsMeaningful(data: seq<byte>, code: NameCode) {
    exists labels: seq<Label> :: Means(data, code, labels)
  }

  /** The names the PTR records carry, in order; every owner is a meaningful name too. */
  ghost predicate Carry(data: seq<byte>, rs: seq<Record>, targets: seq<seq<Label>>) {
    if rs == [] then targets == []
    else
      && IsMeaningful(data, rs[0].owner)
      && match rs[0].rdata
         case PtrData(name) => targets != [] && Means(data, name, targets[0]) && Carry(data, rs[1..], targets[1..])
         case OtherData(_, _) => Carry(data, rs[1..], targets)
  }

  function Texts(names: seq<seq<Label>>): seq<string> {
    if names == [] then [] else [Dotted(DecodeAll(names[0]))] + Texts(names[1..])
  }

  lemma MeaningIsRead(data: seq<byte>, offset: nat, code: NameCode, labels: seq<Label>)
    requires WrittenAt(data, offset, code) && Means(data, code, labels)
    ensures NameAt(data, offset) == Ok(Name(Dotted(DecodeAll(labels)), offset + |EncodeName(code)|))
  {
    hide Spells, ReadLabels, WrittenAt, EncodeName, DecodeAll, Dotted;
    var hops: nat :| hops <= MAX_HOPS && Spells(data, code, labels, hops);
    SpelledIsRead(data, offset, code, labels, hops, 0);
  }

  lemma NameIsRead(data: seq<byte>, offset: nat, code: NameCode)
    requires WrittenAt(data, offset, code) && IsMeaningful(data, code)
    ensures NameAt(data, offset).Ok? && NameAt(data, offset).value.next == offset + |EncodeName(code)|
  {
    hide WrittenAt, Means, NameAt, EncodeName, DecodeAll, Dotted;
    var labels: seq<Label> :| Means(data, code, labels);
    MeaningIsRead(data, offset, code, labels);
  }

  lemma WrittenFits(data: seq<byte>, offset: nat, code: NameCode)
    requires IsCode(code, RFC_LABEL) && BytesAt(data, offset, EncodeName(code))
    ensures WrittenAt(data, offset, code)
  {
  }

  lemma QuestionParts(data: seq<byte>, offset: nat, q: Question)
    requires IsQuestion(q) && BytesAt(data, offset, EncodeQuestion(q))
    ensures IsCode(q.name, READABLE_LABEL) && WrittenAt(data, offset, q.name)
    ensures |EncodeQuestion(q)| == |EncodeName(q.name)| + 4
  {
    hide BytesAt, EncodeName;
    BytesAtParts(data, offset, EncodeName(q.name), U16(q.qtype) + U16(q.qclass));
    WrittenFits(data, offset, q.name);
  }

  lemma QuestionIsRead(data: seq<byte>, offset: nat, q: Question)
    requires IsQuestion(q) && BytesAt(data, offset, EncodeQuestion(q)) && IsMeaningful(data, q.name)
    ensures NameAt(data, offset).Ok? && NameAt(data, offset).value.next + 4 == offset + |EncodeQuestion(q)|
  {
    hide BytesAt, EncodeName, EncodeQuestion, IsMeaningful, NameAt, WrittenAt;
    QuestionParts(data, offset, q);
    NameIsRead(data, offset, q.name);
  }

  lemma {:induction false} QuestionsAreRead(data: seq<byte>, offset: nat, qs: seq<Question>)
    requires forall q :: q in qs ==> IsQuestion(q) && IsMeaningful(data, q.name)
    requires BytesAt(data, offset, EncodeQuestions(qs))
    ensures QuestionsEnd(data, offset, |qs|) == Ok(offset + |EncodeQuestions(qs)|)
    decreases |qs|
  {
    hide BytesAt, NameAt, EncodeQuestion, IsQuestion, IsMeaningful;
    if qs != [] {
      BytesAtParts(data, offset, EncodeQuestion(qs[0]), EncodeQuestions(qs[1..]));
      QuestionIsRead(data, offset, qs[0]);
      QuestionsAreRead(data, offset + |EncodeQuestion(qs[0])|, qs[1..]);
    }
  }

  lemma FixedPartIsRead(data: seq<byte>, at: nat, r: Record)
    requires IsRecord(r) && BytesAt(data, at, FixedPart(r))
    ensures at + 10 <= |data|
    ensures U16At(data, at) == RecordType(r.rdata) && U16At(data, at + 8) == |EncodeRData(r.rdata)|
    ensures U16At(data, at + 2) == r.rclass && U16At(data, at + 4) * 65536 + U16At(data, at + 6) == r.ttl
  {
    ShortRData(r);
    hide U16At, EncodeRData, U16;
    var a, b, c, d := U16(RecordType(r.rdata)), U16(r.rclass), U32(r.ttl), U16(|EncodeRData(r.rdata)|);
    TwoBytes(RecordType(r.rdata));
    TwoBytes(r.rclass);
    TwoBytes(r.ttl / 65536);
    TwoBytes(r.ttl % 65536);
    BytesAtParts(data, at, a + b + c, d);
    BytesAtParts(data, at, a + b, c);
    BytesAtParts(data, at, a, b);
    BytesAtParts(data, at + 4, U16(r.ttl / 65536), U16(r.ttl % 65536));
    U16IsRead(data, at, RecordType(r.rdata));
    U16IsRead(data, at + 2, r.rclass);
    U16IsRead(data, at + 4, r.ttl / 65536);
    U16IsRead(data, at + 6, r.ttl % 65536);
    U16IsRead(data, at + 8, |EncodeRData(r.rdata)|);
  }

  lemma ShortRData(r: Record)
    requires IsRecord(r)
    ensures RecordType(r.rdata) < 65536 && |EncodeRData(r.rdata)| < 65536
  {
  }

  lemma TwoBytes(n: nat)
    requires n < 65536
    ensures |U16(n)| == 2
  {
  }

  /** Where the parts of a record lie. */
  lemma RecordParts(data: seq<byte>, offset: nat, r: Record)
    requires IsRecord(r) && BytesAt(data, offset, EncodeRecord(r))
    ensures var at := offset + |EncodeName(r.owner)|;
            && IsCode(r.owner, READABLE_LABEL) && WrittenAt(data, offset, r.owner)
            && BytesAt(data, at, FixedPart(r))
            && BytesAt(data, at + 10, EncodeRData(r.rdata))
            && offset + |EncodeRecord(r)| == at + 10 + |EncodeRData(r.rdata)|
  {
    hide BytesAt, EncodeName, FixedPart, EncodeRData;
    BytesAtParts(data, offset, EncodeName(r.owner), FixedPart(r) + EncodeRData(r.rdata));
    BytesAtParts(data, offset + |EncodeName(r.owner)|, FixedPart(r), EncodeRData(r.rdata));
    WrittenFits(data, offset, r.owner);
  }

  lemma OtherIsRead(data: seq<byte>, offset: nat, r: Record)
    requires IsRecord(r) && BytesAt(data, offset, EncodeRecord(r)) && IsMeaningful(data, r.owner) && r.rdata.OtherData?
    ensures ReadsAs(data, offset, r.rdata.rtype, None, offset + |EncodeRecord(r)|)
  {
    hide BytesAt, NameAt, EncodeName, EncodeRecord, FixedPart, U16At, IsMeaningful, WrittenAt, IsCode;
    RecordParts(data, offset, r);
    FixedPartIsRead(data, offset + |EncodeName(r.owner)|, r);
    NameIsRead(data, offset, r.owner);
  }

  lemma PtrIsRead(data: seq<byte>, offset: nat, r: Record, labels: seq<Label>)
    requires IsRecord(r) && BytesAt(data, offset, EncodeRecord(r)) && IsMeaningful(data, r.owner)
    requires r.rdata.PtrData? && Means(data, r.rdata.name, labels)
    ensures ReadsAs(data, offset, 12, Some(Dotted(DecodeAll(labels))), offset + |EncodeRecord(r)|)
  {
    hide BytesAt, NameAt, EncodeName, EncodeRecord, FixedPart, U16At, IsMeaningful, WrittenAt, IsCode, Means, DecodeAll,
         Dotted;
    RecordParts(data, offset, r);
    var at := offset + |EncodeName(r.owner)|;
    FixedPartIsRead(data, at, r);
    NameIsRead(data, offset, r.owner);
    WrittenFits(data, at + 10, r.rdata.name);
    MeaningIsRead(data, at + 10, r.rdata.name, labels);
  }

  lemma {:induction false} RecordsAreRead(data: seq<byte>, offset: nat, rs: seq<Record>, targets: seq<seq<Label>>)
    requires forall r :: r in rs ==> IsRecord(r)
    requires BytesAt(data, offset, EncodeRecords(rs)) && Carry(data, rs, targets)
    ensures TargetsFrom(data, offset, |rs|) == Ok(Texts(targets))
    decreases |rs|
  {
    hide BytesAt, EncodeRecord, IsRecord, Means, IsMeaningful, DecodeAll, Dotted, ReadsAs;
    if rs != [] {
      var r := rs[0];
      var next := offset + |EncodeRecord(r)|;
      BytesAtParts(data, offset, EncodeRecord(r), EncodeRecords(rs[1..]));
      match r.rdata
      case OtherData(rtype, _) =>
        OtherIsRead(data, offset, r);
        RecordsAreRead(data, next, rs[1..], targets);
        RecordStep(data, offset, |rs|, rtype, None, next);
        OntoNothing(TargetsFrom(data, next, |rs| - 1));
      case PtrData(name) =>
        PtrIsRead(data, offset, r, targets[0]);
        RecordsAreRead(data, next, rs[1..], targets[1..]);
        RecordStep(data, offset, |rs|, 12, Some(Dotted(DecodeAll(targets[0]))), next);
    }
  }

  lemma HeaderIsRead(m: Message, data: seq<byte>)
    requires IsMessage(m) && data == Encode(m)
    ensures |data| >= 12 && U16At(data, 0) == m.id && U16At(data, 2) == m.flags
    ensures U16At(data, 4) == |m.questions| && U16At(data, 6) == |m.answers|
    ensures U16At(data, 8) == m.nscount && U16At(data, 10) == m.arcount
  {
    hide EncodeQuestions, EncodeRecords;
    var h := EncodeHeader(m);
    assert forall k: nat :: k < 12 ==> data[k] == h[k];
  }

  lemma ThreeParts(data: seq<byte>, h: seq<byte>, qs: seq<byte>, rs: seq<byte>, rest: seq<byte>)
    requires data == h + (qs + (rs + rest))
    ensures BytesAt(data, |h|, qs) && BytesAt(data, |h| + |qs|, rs)
  {
    assert BytesAt(data, 0, data);
    hide BytesAt;
    BytesAtParts(data, 0, h, qs + (rs + rest));
    BytesAtParts(data, |h|, qs, rs + rest);
    BytesAtParts(data, |h| + |qs|, rs, rest);
  }

  /** Where the sections of a message lie. */
  lemma MessageParts(m: Message, data: seq<byte>)
    requires IsMessage(m) && data == Encode(m)
    ensures BytesAt(data, 12, EncodeQuestions(m.questions))
    ensures BytesAt(data, 12 + |EncodeQuestions(m.questions)|, EncodeRecords(m.answers))
  {
    hide BytesAt, EncodeQuestions, EncodeRecords, EncodeHeader;
    ThreeParts(data, EncodeHeader(m), EncodeQuestions(m.questions), EncodeRecords(m.answers), m.rest);
  }

  /** The round trip: for a message built from questions and records, with any use of compression that
      takes at most sixteen pointers a name, the reader returns exactly the PTR targets, in order, when
      the id matches and the response code is zero, and nothing otherwise. */
  lemma ResponseIsRead(m: Message, data: seq<byte>, targets: seq<seq<Label>>, queryId: nat)
    requires IsMessage(m) && data == Encode(m)
    requires forall q :: q in m.questions ==> IsMeaningful(data, q.name)
    requires Carry(data, m.answers, targets)
    ensures PtrNames(data, queryId)
            == Ok(if m.id == queryId && m.flags % 16 == 0 then Texts(targets) else [])
  {
    HeaderIsRead(m, data);
    hide Encode, EncodeQuestions, EncodeRecords, EncodeHeader, U16At, BytesAt, IsMeaningful, Carry, Texts, QuestionsEnd,
         TargetsFrom, IsQuestion, IsRecord;
    MessageParts(m, data);
    QuestionsAreRead(data, 12, m.questions);
    RecordsAreRead(data, 12 + |EncodeQuestions(m.questions)|, m.answers, targets);
  }

  /** The answer a name server gives to a PTR query: the question again, and one record whose owner is a
      pointer back to it. */
  function Reply(id: nat, flags: nat, asked: seq<Label>, ttl: nat, target: seq<Label>): Message {
    Message(id, flags, [Question(NameCode(asked, Root), 12, 1)],
            [Record(NameCode([], Pointer(12)), 1, ttl, PtrData(NameCode(target, Root)))], 0, 0, [])
  }

  lemma RootMeansItself(data: seq<byte>, labels: seq<Label>)
    ensures Means(data, NameCode(labels, Root), labels)
  {
    assert Spells(data, NameCode(labels, Root), labels, 0);
  }

  lemma PointerMeansThatName(data: seq<byte>, t: nat, labels: seq<Label>)
    requires WrittenAt(data, t, NameCode(labels, Root))
    ensures Means(data, NameCode([], Pointer(t)), labels)
  {
    assert Spells(data, NameCode(labels, Root), labels, 0);
    PointerSpells(data, t, NameCode(labels, Root), labels, 0);
  }

  lemma FirstQuestionIsWritten(m: Message, data: seq<byte>)
    requires IsMessage(m) && data == Encode(m) && m.questions != []
    ensures WrittenAt(data, 12, m.questions[0].name)
  {
    MessageParts(m, data);
    hide BytesAt, EncodeQuestion, EncodeName, Encode, WrittenAt;
    BytesAtParts(data, 12, EncodeQuestion(m.questions[0]), EncodeQuestions(m.questions[1..]));
    QuestionParts(data, 12, m.questions[0]);
  }

  lemma OneTargetIsCarried(data: seq<byte>, r: Record, target: seq<Label>)
    requires IsMeaningful(data, r.owner) && r.rdata.PtrData? && Means(data, r.rdata.name, target)
    ensures Carry(data, [r], [target]) && Texts([target]) == [Dotted(DecodeAll(target))]
  {
    hide Means, IsMeaningful, Dotted, DecodeAll;
    assert [r][1..] == [] && [target][1..] == [];
  }

  /** Such an answer, compressed as it is, gives back its one target. */
  lemma ReplyIsRead(id: nat, flags: nat, asked: seq<Label>, ttl: nat, target: seq<Label>, data: seq<byte>)
    requires IsMessage(Reply(id, flags, asked, ttl, target)) && flags % 16 == 0
    requires data == Encode(Reply(id, flags, asked, ttl, target))
    ensures PtrNames(data, id) == Ok([Dotted(DecodeAll(target))])
  {
    hide Encode, IsMessage, Means, WrittenAt, DecodeAll, Dotted, PtrNames, Texts, Carry;
    var m := Reply(id, flags, asked, ttl, target);
    FirstQuestionIsWritten(m, data);
    RootMeansItself(data, asked);
    RootMeansItself(data, target);
    PointerMeansThatName(data, 12, asked);
    OneTargetIsCarried(data, m.answers[0], target);
    ResponseIsRead(m, data, [target], id);
  }
}
