/** The message decoder of dns2tcp.go (`parseDNSMsg`): the 12-byte header,
    then the question section, then (when the header announces any) the
    answer section. The authority and additional sections are never read.

    `DecodeHeader`, `QuestionAt`, `RecordAt`, `Questions`, `Records` and
    `DecodeMessage` are the specification, one function per step of the Go
    code; `ParseDNSMsg` is the Go function itself, filling pre-allocated
    arrays in two loops, proved equal to `DecodeMessage`. */
module MessageDecoder {
  import opened Wire
  import opened Bits
  import opened NameDecoder

  /** The header fields as `dnsMsgHdr` holds them. Go's `uint` fields
      (opcode, rcode) are 4-bit values here. */
  datatype Header = Header(
    id: u16,
    response: bool,
    opcode: nat,
    authoritative: bool,
    truncated: bool,
    recursionDesired: bool,
    recursionAvailable: bool,
    rcode: nat,
    questionNum: u16,
    answerNum: u16,
    authorityNum: u16,
    additionalNum: u16)

  /** `dnsQuestion` */
  datatype Question = Question(name: string, qtype: u16, qclass: u16)

  /** `dnsRR`; Go's `Data` field is `rdata` here. */
  datatype ResourceRecord = ResourceRecord(name: string, rrtype: u16, rrclass: u16, ttl: u32, rdlength: u16, rdata: seq<byte>)

  /** `dnsMsg` */
  datatype Message = Message(header: Header, question: seq<Question>, answer: seq<ResourceRecord>,
                             ns: seq<ResourceRecord>, extra: seq<ResourceRecord>)

  /** Where the question section starts. */
  const HeaderSize: nat := 12

  /** The header: six big-endian 16-bit words, the second holding the flags.
      `response` is set to true whatever the QR bit says. */
  function DecodeHeader(data: seq<byte>): (r: Result<Header>)
    ensures r.Ok? <==> |data| >= HeaderSize
    ensures r.Err? ==> r.fault == FieldTooShort(|data| / 2 * 2)
    ensures r.Ok? ==> && r.value.id == data[0] as int * 0x100 + data[1] as int
                      && r.value.questionNum == data[4] as int * 0x100 + data[5] as int
                      && r.value.answerNum == data[6] as int * 0x100 + data[7] as int
                      && r.value.authorityNum == data[8] as int * 0x100 + data[9] as int
                      && r.value.additionalNum == data[10] as int * 0x100 + data[11] as int
  {
    var id :- ReadU16(data, 0);
    var f :- ReadU16(data, 2);
    var qd :- ReadU16(data, 4);
    var an :- ReadU16(data, 6);
    var ns :- ReadU16(data, 8);
    var ar :- ReadU16(data, 10);
    Ok(Header(
      id := id,
      response := true,
      opcode := And(Shr(f, 11), 0x000F),
      authoritative := Itob(Shr(And(f, 0x0400), 10)),
      truncated := Itob(Shr(And(f, 0x0200), 9)),
      recursionDesired := Itob(Shr(And(f, 0x0100), 8)),
      recursionAvailable := Itob(Shr(And(f, 0x00F0), 7)),
      rcode := And(f, 0x000F),
      questionNum := qd,
      answerNum := an,
      authorityNum := ns,
      additionalNum := ar))
  }

  /** One iteration of the question loop at `cursor`: the question and the
      cursor after it. */
  function QuestionAt(data: seq<byte>, cursor: int): Result<(Question, int)>
  {
    var name :- DomainNameOf(data, cursor);
    var qtype :- ReadU16(data, name.offset);
    var qclass :- ReadU16(data, name.offset + 2);
    Ok((Question(name.name, qtype, qclass), name.offset + 4))
  }

  /** One iteration of the answer loop at `cursor`: the record and the cursor
      after it. `binary.Read` fills the rdlength-byte slice from what is left
      of the buffer and fails when fewer bytes remain; that is a `log.Fatal`. */
  function RecordAt(data: seq<byte>, cursor: int): Result<(ResourceRecord, int)>
  {
    var name :- DomainNameOf(data, cursor);
    var o := name.offset;
    var rrtype :- ReadU16(data, o);
    var rrclass :- ReadU16(data, o + 2);
    var ttl :- ReadU32(data, o + 4);
    var rdlength :- ReadU16(data, o + 8);
    var at := o + 10;
    if at + rdlength > |data| then Err(RdataTruncated(at))
    else Ok((ResourceRecord(name.name, rrtype, rrclass, ttl, rdlength, data[at..at + rdlength]), at + rdlength))
  }

  /** `RecordAt` once each of its reads is known to succeed: the step the
      answer loop of `ParseDNSMsg` takes, apart from the loop's own state. */
  lemma RecordAtReads(data: seq<byte>, cursor: int, name: DomainName, rrtype: u16, rrclass: u16, ttl: u32, rdlength: u16)
    requires DomainNameOf(data, cursor) == Ok(name)
    requires ReadU16(data, name.offset) == Ok(rrtype) && ReadU16(data, name.offset + 2) == Ok(rrclass)
    requires ReadU32(data, name.offset + 4) == Ok(ttl) && ReadU16(data, name.offset + 8) == Ok(rdlength)
    requires name.offset + 10 + rdlength <= |data|
    ensures RecordAt(data, cursor)
            == Ok((ResourceRecord(name.name, rrtype, rrclass, ttl, rdlength, data[name.offset + 10..name.offset + 10 + rdlength]),
                   name.offset + 10 + rdlength))
  {
  }

  /** The question loop from `cursor` with `k` iterations to go, `acc` holding
      the questions already read. */
  function Questions(data: seq<byte>, cursor: int, k: nat, acc: seq<Question>): Result<(seq<Question>, int)>
    decreases k
  {
    if k == 0 then Ok((acc, cursor))
    else
      var step :- QuestionAt(data, cursor);
      Questions(data, step.1, k - 1, acc + [step.0])
  }

  /** The answer loop, in the same form. */
  function Records(data: seq<byte>, cursor: int, k: nat, acc: seq<ResourceRecord>): Result<(seq<ResourceRecord>, int)>
    decreases k
  {
    if k == 0 then Ok((acc, cursor))
    else
      var step :- RecordAt(data, cursor);
      Records(data, step.1, k - 1, acc + [step.0])
  }

  /** `parseDNSMsg(data)` */
  function DecodeMessage(data: seq<byte>): Result<Message>
  {
    var h :- DecodeHeader(data);
    var qs :- Questions(data, HeaderSize, h.questionNum, []);
    if h.answerNum > 0 then
      var rs :- Records(data, qs.1, h.answerNum, []);
      Ok(Message(h, qs.0, rs.0, [], []))
    else
      Ok(Message(h, qs.0, [], [], []))
  }

  /** The question loop of `parseDNSMsg`: `make([]dnsQuestion, n)` filled
      one question at a time from `start`. */
  method ReadQuestions(data: seq<byte>, start: int, n: u16) returns (r: Result<(seq<Question>, int)>)
    ensures r == Questions(data, start, n, [])
  {
    ghost var goal := Questions(data, start, n, []);
    var question := new Question[n](_ => Question("", 0, 0));
    var cursor := start;
    var i: nat := 0;
    while i < n
      invariant i <= n
      invariant Questions(data, cursor, n - i, question[..i]) == goal
    {
      var name := GetDomainName(data, cursor);
      if name.Err? {
        return Err(name.fault);
      }
      cursor := name.value.offset;
      var qtype := ReadU16(data, cursor);
      if qtype.Err? {
        return Err(qtype.fault);
      }
      cursor := cursor + 2;
      var qclass := ReadU16(data, cursor);
      if qclass.Err? {
        return Err(qclass.fault);
      }
      cursor := cursor + 2;
      question[i] := Question(name.value.name, qtype.value, qclass.value);
      assert question[..i + 1] == question[..i] + [question[i]];
      i := i + 1;
    }
    assert question[..i] == question[..];
    return Ok((question[..], cursor));
  }

  /** The body of the answer loop of `parseDNSMsg` at `cursor`: the name,
      the four fixed fields and the rdlength octets of data, read in turn,
      with the cursor moved past each. */
  method ReadRecord(data: seq<byte>, cursor: int) returns (r: Result<(ResourceRecord, int)>)
    ensures r == RecordAt(data, cursor)
  {
    var name := GetDomainName(data, cursor);
    if name.Err? {
      return Err(name.fault);
    }
    var at := name.value.offset;
    var rrtype := ReadU16(data, at);
    if rrtype.Err? {
      return Err(rrtype.fault);
    }
    at := at + 2;
    var rrclass := ReadU16(data, at);
    if rrclass.Err? {
      return Err(rrclass.fault);
    }
    at := at + 2;
    var ttl := ReadU32(data, at);
    if ttl.Err? {
      return Err(ttl.fault);
    }
    at := at + 4;
    var rdlength := ReadU16(data, at);
    if rdlength.Err? {
      return Err(rdlength.fault);
    }
    at := at + 2;
    if at + rdlength.value > |data| {
      return Err(RdataTruncated(at));
    }
    RecordAtReads(data, cursor, name.value, rrtype.value, rrclass.value, ttl.value, rdlength.value);
    return Ok((ResourceRecord(name.value.name, rrtype.value, rrclass.value, ttl.value, rdlength.value,
                              data[at..at + rdlength.value]), at + rdlength.value));
  }

  /** One iteration of the answer loop, whatever the step reads. */
  lemma RecordsStep(data: seq<byte>, cursor: int, k: nat, acc: seq<ResourceRecord>, step: Result<(ResourceRecord, int)>)
    requires step == RecordAt(data, cursor)
    ensures step.Err? ==> Records(data, cursor, k + 1, acc) == Err(step.fault)
    ensures step.Ok? ==> Records(data, cursor, k + 1, acc) == Records(data, step.value.1, k, acc + [step.value.0])
  {
  }

  /** The answer loop of `parseDNSMsg`: `make([]dnsRR, n)` filled one record
      at a time from `start`. */
  method ReadRecords(data: seq<byte>, start: int, n: u16) returns (r: Result<(seq<ResourceRecord>, int)>)
    ensures r == Records(data, start, n, [])
  {
    ghost var goal := Records(data, start, n, []);
    var answer := new ResourceRecord[n](_ => ResourceRecord("", 0, 0, 0, 0, []));
    var cursor := start;
    var i: nat := 0;
    while i < n
      invariant i <= n
      invariant Records(data, cursor, n - i, answer[..i]) == goal
    {
      var step := ReadRecord(data, cursor);
      RecordsStep(data, cursor, n - i - 1, answer[..i], step);
      if step.Err? {
        return Err(step.fault);
      }
      answer[i] := step.value.0;
      cursor := step.value.1;
      assert answer[..i + 1] == answer[..i] + [answer[i]];
      i := i + 1;
    }
    assert answer[..i] == answer[..];
    return Ok((answer[..], cursor));
  }

  /** `parseDNSMsg`: the header, the question loop from offset 12, and the
      answer loop only when the answer count is nonzero. */
  method ParseDNSMsg(data: seq<byte>) returns (r: Result<Message>)
    ensures r == DecodeMessage(data)
  {
    var h :- DecodeHeader(data);
    var qs :- ReadQuestions(data, HeaderSize, h.questionNum);
    var answer: seq<ResourceRecord> := [];
    if h.answerNum > 0 {
      var rs :- ReadRecords(data, qs.1, h.answerNum);
      answer := rs.0;
    }
    return Ok(Message(h, qs.0, answer, [], []));
  }
}
