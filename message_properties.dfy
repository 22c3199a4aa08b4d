/** What `parseDNSMsg` does, stated against independent descriptions: the
    header flags bit by bit (section 4.1.1 of RFC 1035), the shape of the
    decoded message, each section as a chain of records decoded where the
    previous one ended, and the encodings of a question and of a resource
    record that the decoder reads back. */
module MessageProperties {
  import opened Wire
  import opened Bits
  import opened NameDecoder
  import opened NameProperties
  import opened MessageDecoder

  // ---------------------------------------------------------------------
  // The header

  /** The second header word. */
  function Flags(data: seq<byte>): nat
    requires |data| >= 4
  {
    data[2] as int * 0x100 + data[3] as int
  }

  /** The top bit of a nibble: `(g & 0xF) >> 3` is bit 3 of g. */
  lemma NibbleTop(g: nat)
    ensures Shr(And(g, 0xF), 3) == Bit(g, 3)
  {
    var n := And(g, 0xF);
    AndNibble(g);
    assert Shr(n, 3) == n / 2 / 2 / 2;
    assert n / 2 / 2 / 2 == Bit(g, 3);
  }

  /** Bit 7 of the flags is all `(dnsmisc & 0x00F0) >> 7` leaves: the three
      bits below it (the reserved Z field) are shifted out. */
  lemma RecursionAvailableBit(f: nat)
    ensures Shr(And(f, 0x00F0), 7) == Bit(f, 7)
  {
    var n := And(Shr(f, 4), 0xF);
    assert And(f, 0x00F0) == Shl(n, 4) by {
      assert Shl(0xF, 4) == 0xF0;
      AndShl(f, 0xF, 4);
    }
    assert Shr(Shl(n, 4), 7) == Shr(n, 3) by {
      ShrShr(Shl(n, 4), 4, 3);
      ShrShl(n, 4);
    }
    NibbleTop(Shr(f, 4));
    BitOfShr(f, 4, 3);
  }

  /** `(dnsmisc >> 11) & 0x000F` is bits 11-14 of the flags. */
  lemma OpcodeBits(f: nat)
    ensures And(Shr(f, 11), 0x000F) == Bit(f, 11) + 2 * Bit(f, 12) + 4 * Bit(f, 13) + 8 * Bit(f, 14)
  {
    AndNibble(Shr(f, 11));
    BitOfShr(f, 11, 0);
    BitOfShr(f, 11, 1);
    BitOfShr(f, 11, 2);
    BitOfShr(f, 11, 3);
  }

  /** The single-bit masks of AA, TC and RD, shifted down, are bits 10, 9 and 8. */
  lemma FlagBits(f: nat)
    ensures Shr(And(f, 0x0400), 10) == Bit(f, 10)
    ensures Shr(And(f, 0x0200), 9) == Bit(f, 9)
    ensures Shr(And(f, 0x0100), 8) == Bit(f, 8)
  {
    assert Shl(1, 10) == 0x400 && Shl(1, 9) == 0x200 && Shl(1, 8) == 0x100;
    SingleBitMask(f, 10);
    SingleBitMask(f, 9);
    SingleBitMask(f, 8);
  }

  /** The header's flag fields, read off the second header word: opcode in
      bits 11-14, AA, TC, RD and RA in bits 10, 9, 8 and 7, and RCODE in
      bits 0-3. `response` is always true (the QR bit is ignored). */
  lemma HeaderFlags(data: seq<byte>)
    requires |data| >= HeaderSize
    ensures var h := DecodeHeader(data).value;
            var f := Flags(data);
            && h.response
            && h.opcode == Bit(f, 11) + 2 * Bit(f, 12) + 4 * Bit(f, 13) + 8 * Bit(f, 14)
            && (h.authoritative <==> Bit(f, 10) == 1)
            && (h.truncated <==> Bit(f, 9) == 1)
            && (h.recursionDesired <==> Bit(f, 8) == 1)
            && (h.recursionAvailable <==> Bit(f, 7) == 1)
            && h.rcode == Bit(f, 0) + 2 * Bit(f, 1) + 4 * Bit(f, 2) + 8 * Bit(f, 3)
  {
    var f := Flags(data);
    OpcodeBits(f);
    FlagBits(f);
    RecursionAvailableBit(f);
    AndNibble(f);
  }

  /** The header only looks at the first twelve octets. */
  lemma HeaderPrefix(data: seq<byte>, rest: seq<byte>)
    requires |data| >= HeaderSize
    ensures DecodeHeader(data + rest) == DecodeHeader(data)
  {
    assert forall i :: 0 <= i < |data| ==> (data + rest)[i] == data[i];
  }

  // ---------------------------------------------------------------------
  // The shape of a decoded message

  lemma {:induction false} QuestionsLength(data: seq<byte>, c: int, k: nat, acc: seq<Question>)
    requires Questions(data, c, k, acc).Ok?
    ensures var qs := Questions(data, c, k, acc).value.0; |qs| == |acc| + k && qs[..|acc|] == acc
    decreases k
  {
    if k > 0 {
      var step := QuestionAt(data, c).value;
      QuestionsLength(data, step.1, k - 1, acc + [step.0]);
      var qs := Questions(data, c, k, acc).value.0;
      assert qs[..|acc|] == qs[..|acc| + 1][..|acc|];
    }
  }

  lemma {:induction false} RecordsLength(data: seq<byte>, c: int, k: nat, acc: seq<ResourceRecord>)
    requires Records(data, c, k, acc).Ok?
    ensures var rs := Records(data, c, k, acc).value.0; |rs| == |acc| + k && rs[..|acc|] == acc
    decreases k
  {
    if k > 0 {
      var step := RecordAt(data, c).value;
      RecordsLength(data, step.1, k - 1, acc + [step.0]);
      var rs := Records(data, c, k, acc).value.0;
      assert rs[..|acc|] == rs[..|acc| + 1][..|acc|];
    }
  }

  /** A decoded message has exactly as many questions and answers as its
      header announces, and empty authority and additional sections. */
  lemma MessageShape(data: seq<byte>)
    requires DecodeMessage(data).Ok?
    ensures var m := DecodeMessage(data).value;
            && m.header == DecodeHeader(data).value
            && |m.question| == m.header.questionNum
            && |m.answer| == m.header.answerNum
            && m.ns == [] && m.extra == []
  {
    var h := DecodeHeader(data).value;
    QuestionsLength(data, HeaderSize, h.questionNum, []);
    if h.answerNum > 0 {
      var qs := Questions(data, HeaderSize, h.questionNum, []).value;
      RecordsLength(data, qs.1, h.answerNum, []);
    }
  }

  /** A question announced after the buffer is used up is a panic: the name
      read at the end is the empty sentinel, and the type after it cannot be
      read. So more questions than the buffer holds never yield a shorter
      list. */
  lemma {:induction false} QuestionsRunOut(data: seq<byte>, c: int, k: nat, j: nat, acc: seq<Question>, qs: seq<Question>)
    requires j > 0 && Questions(data, c, k, acc) == Ok((qs, |data|))
    ensures Questions(data, c, k + j, acc) == Err(FieldTooShort(|data|))
    decreases k
  {
    if k == 0 {
      assert DomainNameOf(data, |data|) == Ok(DomainName("", |data|));
    } else {
      var step := QuestionAt(data, c).value;
      QuestionsRunOut(data, step.1, k - 1, j, acc + [step.0], qs);
    }
  }

  /** The same for resource records: announcing more answers than the buffer
      holds is a panic, never a shorter answer list. */
  lemma {:induction false} RecordsRunOut(data: seq<byte>, c: int, k: nat, j: nat, acc: seq<ResourceRecord>, rs: seq<ResourceRecord>)
    requires j > 0 && Records(data, c, k, acc) == Ok((rs, |data|))
    ensures Records(data, c, k + j, acc) == Err(FieldTooShort(|data|))
    decreases k
  {
    if k == 0 {
      assert DomainNameOf(data, |data|) == Ok(DomainName("", |data|));
    } else {
      var step := RecordAt(data, c).value;
      RecordsRunOut(data, step.1, k - 1, j, acc + [step.0], rs);
    }
  }

  /** A message whose buffer ends right after its k-th answer, while the
      header announces more than k, does not decode: the answer count is
      enforced, never silently cut short. */
  lemma AnswersRunOut(data: seq<byte>, qs: seq<Question>, c: int, k: nat, rs: seq<ResourceRecord>)
    requires DecodeHeader(data).Ok?
    requires Questions(data, HeaderSize, DecodeHeader(data).value.questionNum, []) == Ok((qs, c))
    requires k < DecodeHeader(data).value.answerNum && Records(data, c, k, []) == Ok((rs, |data|))
    ensures DecodeMessage(data) == Err(FieldTooShort(|data|))
  {
    var n := DecodeHeader(data).value.answerNum;
    RecordsRunOut(data, c, k, n - k, [], rs);
  }

  /** A question that decodes carries the name read at the cursor, and the
      loop resumes four octets (type and class) after that name, still
      inside the message. */
  lemma QuestionCursor(data: seq<byte>, c: int)
    requires QuestionAt(data, c).Ok?
    ensures DomainNameOf(data, c).Ok?
    ensures var n := DomainNameOf(data, c).value;
            var (q, next) := QuestionAt(data, c).value;
            q.name == n.name && next == n.offset + 4 && next <= |data|
  {
  }

  /** A record that decodes carries the name read at the cursor, its data is
      the `rdlength` octets after the ten fixed octets that follow the name,
      and the loop resumes just after that data, still inside the message. */
  lemma RecordCursor(data: seq<byte>, c: int)
    requires RecordAt(data, c).Ok?
    ensures DomainNameOf(data, c).Ok?
    ensures var n := DomainNameOf(data, c).value;
            var (r, next) := RecordAt(data, c).value;
            && r.name == n.name
            && next == n.offset + 10 + r.rdlength <= |data|
            && r.rdata == data[n.offset + 10..next]
  {
  }

  // ---------------------------------------------------------------------
  // Encodings the decoder reads back

  /** A 16-bit value in network byte order. */
  function U16Bytes(x: u16): (b: seq<byte>)
    ensures |b| == 2
  {
    [x / 0x100, x % 0x100]
  }

  /** A 32-bit value in network byte order: the high half, then the low half. */
  function U32Bytes(x: u32): (b: seq<byte>)
    ensures |b| == 4
  {
    U16Bytes(x / 0x1_0000) + U16Bytes(x % 0x1_0000)
  }

  lemma U16RoundTrip(data: seq<byte>, at: int, x: u16)
    requires EncodedAt(data, at, U16Bytes(x))
    ensures ReadU16(data, at) == Ok(x)
  {
    assert data[at] == data[at..at + 2][0] && data[at + 1] == data[at..at + 2][1];
  }

  lemma U32RoundTrip(data: seq<byte>, at: int, x: u32)
    requires EncodedAt(data, at, U32Bytes(x))
    ensures ReadU32(data, at) == Ok(x)
  {
    EncodedAtSuffix(data, at, U16Bytes(x / 0x1_0000), U16Bytes(x % 0x1_0000));
    U16RoundTrip(data, at, x / 0x1_0000);
    U16RoundTrip(data, at + 2, x % 0x1_0000);
  }

  /** The ten octets after a record's name: type, class, TTL and data length. */
  function RecordFields(rrtype: u16, rrclass: u16, ttl: u32, rdlength: u16): (b: seq<byte>)
    ensures |b| == 10
  {
    U16Bytes(rrtype) + U16Bytes(rrclass) + U32Bytes(ttl) + U16Bytes(rdlength)
  }

  lemma FieldsRoundTrip(data: seq<byte>, o: int, rrtype: u16, rrclass: u16, ttl: u32, rdlength: u16)
    requires EncodedAt(data, o, RecordFields(rrtype, rrclass, ttl, rdlength))
    ensures ReadU16(data, o) == Ok(rrtype) && ReadU16(data, o + 2) == Ok(rrclass)
    ensures ReadU32(data, o + 4) == Ok(ttl) && ReadU16(data, o + 8) == Ok(rdlength)
  {
    var a := U16Bytes(rrtype);
    var b := a + U16Bytes(rrclass);
    var d := b + U32Bytes(ttl);
    EncodedAtSuffix(data, o, d, U16Bytes(rdlength));
    EncodedAtSuffix(data, o, b, U32Bytes(ttl));
    EncodedAtSuffix(data, o, a, U16Bytes(rrclass));
    U16RoundTrip(data, o, rrtype);
    U16RoundTrip(data, o + 2, rrclass);
    U32RoundTrip(data, o + 4, ttl);
    U16RoundTrip(data, o + 8, rdlength);
  }

  /** Whatever the encoding of the name at `c`, the type and class after it
      complete the question, and the loop moves on past them. */
  lemma QuestionAfterName(data: seq<byte>, c: int, name: string, o: int, qtype: u16, qclass: u16)
    requires DomainNameOf(data, c) == Ok(DomainName(name, o))
    requires EncodedAt(data, o, U16Bytes(qtype) + U16Bytes(qclass))
    ensures QuestionAt(data, c) == Ok((Question(name, qtype, qclass), o + 4))
  {
    EncodedAtSuffix(data, o, U16Bytes(qtype), U16Bytes(qclass));
    U16RoundTrip(data, o, qtype);
    U16RoundTrip(data, o + 2, qclass);
  }

  /** Whatever the encoding of the name at `c`, the fields and the rdlength
      octets after it complete the record, and the loop moves on past them. */
  lemma RecordAfterName(data: seq<byte>, c: int, name: string, o: int, rrtype: u16, rrclass: u16, ttl: u32, rdata: seq<byte>)
    requires DomainNameOf(data, c) == Ok(DomainName(name, o)) && |rdata| < 0x1_0000
    requires EncodedAt(data, o, RecordFields(rrtype, rrclass, ttl, |rdata|) + rdata)
    ensures RecordAt(data, c) == Ok((ResourceRecord(name, rrtype, rrclass, ttl, |rdata|, rdata), o + 10 + |rdata|))
  {
    EncodedAtSuffix(data, o, RecordFields(rrtype, rrclass, ttl, |rdata|), rdata);
    FieldsRoundTrip(data, o, rrtype, rrclass, ttl, |rdata|);
  }

  /** Record data that runs past the end of the message is a `log.Fatal`,
      whatever the name and the fields before it. */
  lemma RdataPastEnd(data: seq<byte>, c: int, name: string, o: int, rrtype: u16, rrclass: u16, ttl: u32, rdlength: u16)
    requires DomainNameOf(data, c) == Ok(DomainName(name, o))
    requires EncodedAt(data, o, RecordFields(rrtype, rrclass, ttl, rdlength)) && o + 10 + rdlength > |data|
    ensures RecordAt(data, c) == Err(RdataTruncated(o + 10))
  {
    FieldsRoundTrip(data, o, rrtype, rrclass, ttl, rdlength);
  }

  // ---------------------------------------------------------------------
  // Whole sections written out without compression

  /** A question as a sender writes it, and the record it decodes to. */
  datatype PlainQuestion = PlainQuestion(labels: seq<seq<byte>>, qtype: u16, qclass: u16)

  /** Record data short enough for its length to fit the 16-bit rdlength. */
  type Rdata = s: seq<byte> | |s| < 0x1_0000

  /** A resource record as a sender writes it. */
  datatype PlainRecord = PlainRecord(labels: seq<seq<byte>>, rrtype: u16, rrclass: u16, ttl: u32, rdata: Rdata)

  ghost predicate QuestionsEncodable(ps: seq<PlainQuestion>)
  {
    forall i :: 0 <= i < |ps| ==> ValidLabels(ps[i].labels) && |ps[i].labels| <= LabelSlots
  }

  ghost predicate RecordsEncodable(ps: seq<PlainRecord>)
  {
    forall i :: 0 <= i < |ps| ==> ValidLabels(ps[i].labels) && |ps[i].labels| <= LabelSlots
  }

  function EncodeQuestion(p: PlainQuestion): seq<byte>
    requires ValidLabels(p.labels)
  {
    EncodeName(p.labels) + U16Bytes(p.qtype) + U16Bytes(p.qclass)
  }

  function EncodeRecord(p: PlainRecord): seq<byte>
    requires ValidLabels(p.labels)
  {
    EncodeName(p.labels) + RecordFields(p.rrtype, p.rrclass, p.ttl, |p.rdata|) + p.rdata
  }

  /** The questions one after the other. */
  function EncodeQuestions(ps: seq<PlainQuestion>): seq<byte>
    requires QuestionsEncodable(ps)
  {
    if ps == [] then [] else EncodeQuestion(ps[0]) + EncodeQuestions(ps[1..])
  }

  /** The records one after the other. */
  function EncodeRecords(ps: seq<PlainRecord>): seq<byte>
    requires RecordsEncodable(ps)
  {
    if ps == [] then [] else EncodeRecord(ps[0]) + EncodeRecords(ps[1..])
  }

  /** What the decoder should produce: the labels dot-joined, fields as written. */
  function QuestionOf(p: PlainQuestion): Question
  {
    Question(Dotted(p.labels), p.qtype, p.qclass)
  }

  function RecordOf(p: PlainRecord): ResourceRecord
  {
    ResourceRecord(Dotted(p.labels), p.rrtype, p.rrclass, p.ttl, |p.rdata|, p.rdata)
  }

  function QuestionsOf(ps: seq<PlainQuestion>): (qs: seq<Question>)
    ensures |qs| == |ps|
    ensures forall i :: 0 <= i < |ps| ==> qs[i] == QuestionOf(ps[i])
  {
    if ps == [] then [] else [QuestionOf(ps[0])] + QuestionsOf(ps[1..])
  }

  function RecordsOf(ps: seq<PlainRecord>): (rs: seq<ResourceRecord>)
    ensures |rs| == |ps|
    ensures forall i :: 0 <= i < |ps| ==> rs[i] == RecordOf(ps[i])
  {
    if ps == [] then [] else [RecordOf(ps[0])] + RecordsOf(ps[1..])
  }

  /** An encoded question decodes to its dotted name and its two fields, and
      the loop moves on just past it. */
  lemma QuestionRoundTrip(data: seq<byte>, c: nat, p: PlainQuestion)
    requires ValidLabels(p.labels) && |p.labels| <= LabelSlots
    requires EncodedAt(data, c, EncodeQuestion(p))
    ensures QuestionAt(data, c) == Ok((QuestionOf(p), c + |EncodeQuestion(p)|))
  {
    var n := EncodeName(p.labels);
    EncodedAtSuffix(data, c, n, U16Bytes(p.qtype) + U16Bytes(p.qclass));
    UncompressedName(data, c, p.labels);
    QuestionAfterName(data, c, Dotted(p.labels), c + |n|, p.qtype, p.qclass);
  }

  /** An encoded resource record decodes to its name, fields and data, and
      the loop moves on just past it. */
  lemma RecordRoundTrip(data: seq<byte>, c: nat, p: PlainRecord)
    requires ValidLabels(p.labels) && |p.labels| <= LabelSlots
    requires EncodedAt(data, c, EncodeRecord(p))
    ensures RecordAt(data, c) == Ok((RecordOf(p), c + |EncodeRecord(p)|))
  {
    var n := EncodeName(p.labels);
    var tail := RecordFields(p.rrtype, p.rrclass, p.ttl, |p.rdata|) + p.rdata;
    assert EncodeRecord(p) == n + tail;
    EncodedAtSuffix(data, c, n, tail);
    UncompressedName(data, c, p.labels);
    RecordAfterName(data, c, Dotted(p.labels), c + |n|, p.rrtype, p.rrclass, p.ttl, p.rdata);
  }

  /** The cursor before each of the questions `ps` written from `c`, and the
      one after the last. */
  ghost function QuestionCursors(c: int, ps: seq<PlainQuestion>): (cs: seq<int>)
    requires QuestionsEncodable(ps)
    ensures |cs| == |ps| + 1 && cs[0] == c
    decreases ps
  {
    if ps == [] then [c]
    else [c] + QuestionCursors(c + |EncodeQuestion(ps[0])|, ps[1..])
  }

  /** The cursor before each of the records `ps` written from `c`, and the
      one after the last. */
  ghost function RecordCursors(c: int, ps: seq<PlainRecord>): (cs: seq<int>)
    requires RecordsEncodable(ps)
    ensures |cs| == |ps| + 1 && cs[0] == c
    decreases ps
  {
    if ps == [] then [c]
    else [c] + RecordCursors(c + |EncodeRecord(ps[0])|, ps[1..])
  }

  /** `Questions` under a second name: a proof alias for the loop lemmas,
      not a model definition. */
  ghost function QuestionLoop(data: seq<byte>, cursor: int, k: nat, acc: seq<Question>): Result<(seq<Question>, int)>
  {
    Questions(data, cursor, k, acc)
  }

  /** One iteration of the loop, whatever the step reads. */
  lemma QuestionChainStep(data: seq<byte>, c: int, x: Question, c2: int, k: nat, acc: seq<Question>)
    requires QuestionAt(data, c) == Ok((x, c2))
    ensures QuestionLoop(data, c, k + 1, acc) == QuestionLoop(data, c2, k, acc + [x])
  {
  }

  /** The steps after the first one form a chain of their own. */
  lemma QuestionChainTail(data: seq<byte>, cs: seq<int>, qs: seq<Question>)
    requires |cs| == |qs| + 1 && qs != []
    requires forall i :: 0 <= i < |qs| ==> QuestionAt(data, cs[i]) == Ok((qs[i], cs[i + 1]))
    ensures forall i :: 0 <= i < |qs[1..]| ==> QuestionAt(data, cs[1..][i]) == Ok((qs[1..][i], cs[1..][i + 1]))
  {
    forall i | 0 <= i < |qs[1..]| ensures QuestionAt(data, cs[1..][i]) == Ok((qs[1..][i], cs[1..][i + 1])) {
      assert cs[1..][i] == cs[i + 1] && qs[1..][i] == qs[i + 1] && cs[1..][i + 1] == cs[i + 2];
    }
  }

  /** The last cursor is just past the encoded questions. */
  lemma {:induction false} QuestionCursorsEnd(c: int, ps: seq<PlainQuestion>)
    requires QuestionsEncodable(ps)
    ensures QuestionCursors(c, ps)[|ps|] == c + |EncodeQuestions(ps)|
    decreases ps
  {
    if ps != [] {
      var c2 := c + |EncodeQuestion(ps[0])|;
      QuestionCursorsEnd(c2, ps[1..]);
      assert QuestionCursors(c, ps) == [c] + QuestionCursors(c2, ps[1..]);
    }
  }

  /** The question at index `i` of an encoded section sits at its cursor, and
      the next cursor is just past it. */
  lemma {:induction false} QuestionSlot(data: seq<byte>, c: nat, ps: seq<PlainQuestion>, i: nat)
    requires QuestionsEncodable(ps) && EncodedAt(data, c, EncodeQuestions(ps)) && i < |ps|
    ensures ValidLabels(ps[i].labels) && |ps[i].labels| <= LabelSlots
    ensures EncodedAt(data, QuestionCursors(c, ps)[i], EncodeQuestion(ps[i]))
    ensures QuestionCursors(c, ps)[i + 1] == QuestionCursors(c, ps)[i] + |EncodeQuestion(ps[i])|
    decreases i
  {
    var c2 := c + |EncodeQuestion(ps[0])|;
    EncodedAtSuffix(data, c, EncodeQuestion(ps[0]), EncodeQuestions(ps[1..]));
    if i > 0 {
      QuestionSlot(data, c2, ps[1..], i - 1);
      assert QuestionCursors(c, ps) == [c] + QuestionCursors(c2, ps[1..]);
      assert ps[i] == ps[1..][i - 1];
    }
  }

  /** The loop step at the cursor of index `i` reads the question at index `i`. */
  lemma QuestionAtCursor(data: seq<byte>, c: nat, ps: seq<PlainQuestion>, i: nat)
    requires QuestionsEncodable(ps) && EncodedAt(data, c, EncodeQuestions(ps)) && i < |ps|
    ensures QuestionAt(data, QuestionCursors(c, ps)[i]) == Ok((QuestionsOf(ps)[i], QuestionCursors(c, ps)[i + 1]))
  {
    QuestionSlot(data, c, ps, i);
    QuestionRoundTrip(data, QuestionCursors(c, ps)[i], ps[i]);
  }

  /** The question loop over any cursors `cs` where the step at `cs[i]` reads
      `qs[i]` and stops at `cs[i + 1]`: it collects `qs` and stops at the
      last cursor. */
  lemma {:induction false} QuestionsChain(data: seq<byte>, cs: seq<int>, qs: seq<Question>, acc: seq<Question>)
    requires |cs| == |qs| + 1
    requires forall i :: 0 <= i < |qs| ==> QuestionAt(data, cs[i]) == Ok((qs[i], cs[i + 1]))
    ensures QuestionLoop(data, cs[0], |qs|, acc) == Ok((acc + qs, cs[|qs|]))
    decreases qs
  {
    if qs == [] {
      assert acc + qs == acc;
    } else {
      QuestionChainStep(data, cs[0], qs[0], cs[1], |qs| - 1, acc);
      QuestionChainTail(data, cs, qs);
      QuestionsChain(data, cs[1..], qs[1..], acc + [qs[0]]);
      assert (acc + [qs[0]]) + qs[1..] == acc + qs;
    }
  }

  /** The last cursor is just past the encoded records. */
  lemma {:induction false} RecordCursorsEnd(c: int, ps: seq<PlainRecord>)
    requires RecordsEncodable(ps)
    ensures RecordCursors(c, ps)[|ps|] == c + |EncodeRecords(ps)|
    decreases ps
  {
    if ps != [] {
      var c2 := c + |EncodeRecord(ps[0])|;
      RecordCursorsEnd(c2, ps[1..]);
      assert RecordCursors(c, ps) == [c] + RecordCursors(c2, ps[1..]);
    }
  }

  /** The record at index `i` of an encoded section sits at its cursor, and
      the next cursor is just past it. */
  lemma {:induction false} RecordSlot(data: seq<byte>, c: nat, ps: seq<PlainRecord>, i: nat)
    requires RecordsEncodable(ps) && EncodedAt(data, c, EncodeRecords(ps)) && i < |ps|
    ensures ValidLabels(ps[i].labels) && |ps[i].labels| <= LabelSlots
    ensures EncodedAt(data, RecordCursors(c, ps)[i], EncodeRecord(ps[i]))
    ensures RecordCursors(c, ps)[i + 1] == RecordCursors(c, ps)[i] + |EncodeRecord(ps[i])|
    decreases i
  {
    var c2 := c + |EncodeRecord(ps[0])|;
    EncodedAtSuffix(data, c, EncodeRecord(ps[0]), EncodeRecords(ps[1..]));
    if i > 0 {
      RecordSlot(data, c2, ps[1..], i - 1);
      assert RecordCursors(c, ps) == [c] + RecordCursors(c2, ps[1..]);
      assert ps[i] == ps[1..][i - 1];
    }
  }

  /** The loop step at the cursor of index `i` reads the record at index `i`. */
  lemma RecordAtCursor(data: seq<byte>, c: nat, ps: seq<PlainRecord>, i: nat)
    requires RecordsEncodable(ps) && EncodedAt(data, c, EncodeRecords(ps)) && i < |ps|
    ensures RecordAt(data, RecordCursors(c, ps)[i]) == Ok((RecordsOf(ps)[i], RecordCursors(c, ps)[i + 1]))
  {
    var cs := RecordCursors(c, ps);
    RecordSlot(data, c, ps, i);
    RecordRoundTrip(data, cs[i], ps[i]);
    StepIs(RecordAt(data, cs[i]), RecordOf(ps[i]), RecordsOf(ps)[i], cs[i] + |EncodeRecord(ps[i])|, cs[i + 1]);
  }

  /** A step result restated with equal parts. */
  lemma StepIs<T>(step: Result<(T, int)>, x: T, y: T, c: int, c2: int)
    requires step == Ok((x, c)) && x == y && c == c2
    ensures step == Ok((y, c2))
  {
  }

  /** `Records` under a second name: a proof alias for the loop lemmas, not
      a model definition. */
  ghost function RecordLoop(data: seq<byte>, cursor: int, k: nat, acc: seq<ResourceRecord>): Result<(seq<ResourceRecord>, int)>
  {
    Records(data, cursor, k, acc)
  }

  /** One iteration of the loop, whatever the step reads. */
  lemma RecordChainStep(data: seq<byte>, c: int, x: ResourceRecord, c2: int, k: nat, acc: seq<ResourceRecord>)
    requires RecordAt(data, c) == Ok((x, c2))
    ensures RecordLoop(data, c, k + 1, acc) == RecordLoop(data, c2, k, acc + [x])
  {
  }

  /** The steps after the first one form a chain of their own. */
  lemma RecordChainTail(data: seq<byte>, cs: seq<int>, rs: seq<ResourceRecord>)
    requires |cs| == |rs| + 1 && rs != []
    requires forall i :: 0 <= i < |rs| ==> RecordAt(data, cs[i]) == Ok((rs[i], cs[i + 1]))
    ensures forall i :: 0 <= i < |rs[1..]| ==> RecordAt(data, cs[1..][i]) == Ok((rs[1..][i], cs[1..][i + 1]))
  {
    forall i | 0 <= i < |rs[1..]| ensures RecordAt(data, cs[1..][i]) == Ok((rs[1..][i], cs[1..][i + 1])) {
      assert cs[1..][i] == cs[i + 1] && rs[1..][i] == rs[i + 1] && cs[1..][i + 1] == cs[i + 2];
    }
  }

  /** The answer loop, in the same way. */
  lemma {:induction false} RecordsChain(data: seq<byte>, cs: seq<int>, rs: seq<ResourceRecord>, acc: seq<ResourceRecord>)
    requires |cs| == |rs| + 1
    requires forall i :: 0 <= i < |rs| ==> RecordAt(data, cs[i]) == Ok((rs[i], cs[i + 1]))
    ensures RecordLoop(data, cs[0], |rs|, acc) == Ok((acc + rs, cs[|rs|]))
    decreases rs
  {
    if rs == [] {
      assert acc + rs == acc;
    } else {
      RecordChainStep(data, cs[0], rs[0], cs[1], |rs| - 1, acc);
      RecordChainTail(data, cs, rs);
      RecordsChain(data, cs[1..], rs[1..], acc + [rs[0]]);
      assert (acc + [rs[0]]) + rs[1..] == acc + rs;
    }
  }

  /** The question loop reads back any number of encoded questions, in order,
      and stops just past the last. */
  lemma QuestionsRoundTrip(data: seq<byte>, c: nat, ps: seq<PlainQuestion>, acc: seq<Question>)
    requires QuestionsEncodable(ps) && EncodedAt(data, c, EncodeQuestions(ps))
    ensures Questions(data, c, |ps|, acc) == Ok((acc + QuestionsOf(ps), c + |EncodeQuestions(ps)|))
  {
    QuestionLoopRoundTrip(data, c, ps, acc);
  }

  /** `QuestionsRoundTrip` through the alias. */
  lemma QuestionLoopRoundTrip(data: seq<byte>, c: nat, ps: seq<PlainQuestion>, acc: seq<Question>)
    requires QuestionsEncodable(ps) && EncodedAt(data, c, EncodeQuestions(ps))
    ensures QuestionLoop(data, c, |ps|, acc) == Ok((acc + QuestionsOf(ps), c + |EncodeQuestions(ps)|))
  {
    var cs := QuestionCursors(c, ps);
    var qs := QuestionsOf(ps);
    forall i | 0 <= i < |qs| ensures QuestionAt(data, cs[i]) == Ok((qs[i], cs[i + 1])) {
      QuestionAtCursor(data, c, ps, i);
    }
    QuestionCursorsEnd(c, ps);
    QuestionsChain(data, cs, qs, acc);
  }

  /** The answer loop reads back any number of encoded records, in order,
      and stops just past the last. */
  lemma RecordsRoundTrip(data: seq<byte>, c: nat, ps: seq<PlainRecord>, acc: seq<ResourceRecord>)
    requires RecordsEncodable(ps) && EncodedAt(data, c, EncodeRecords(ps))
    ensures Records(data, c, |ps|, acc) == Ok((acc + RecordsOf(ps), c + |EncodeRecords(ps)|))
  {
    RecordLoopRoundTrip(data, c, ps, acc);
  }

  /** `RecordsRoundTrip` through the alias. */
  lemma RecordLoopRoundTrip(data: seq<byte>, c: nat, ps: seq<PlainRecord>, acc: seq<ResourceRecord>)
    requires RecordsEncodable(ps) && EncodedAt(data, c, EncodeRecords(ps))
    ensures RecordLoop(data, c, |ps|, acc) == Ok((acc + RecordsOf(ps), c + |EncodeRecords(ps)|))
  {
    var cs := RecordCursors(c, ps);
    var rs := RecordsOf(ps);
    forall i | 0 <= i < |rs| ensures RecordAt(data, cs[i]) == Ok((rs[i], cs[i + 1])) {
      RecordAtCursor(data, c, ps, i);
    }
    RecordCursorsEnd(c, ps);
    RecordsChain(data, cs, rs, acc);
  }

  /** The alias and the loop agree, whatever names the counts and cursors. */
  lemma RecordLoopIsRecords(data: seq<byte>, c: int, n: nat, k: nat, acc: seq<ResourceRecord>,
                            x: seq<ResourceRecord>, e: int, c2: int)
    requires RecordLoop(data, c, n, acc) == Ok((x, e)) && k == n && c2 == e
    ensures Records(data, c, k, acc) == Ok((x, c2))
  {
  }

  /** The question loop counterpart of `RecordLoopIsRecords`. */
  lemma QuestionLoopIsQuestions(data: seq<byte>, c: int, n: nat, k: nat, acc: seq<Question>,
                                x: seq<Question>, e: int, c2: int)
    requires QuestionLoop(data, c, n, acc) == Ok((x, e)) && k == n && c2 == e
    ensures Questions(data, c, k, acc) == Ok((x, c2))
  {
  }

  /** The question section of a message, read from offset 12 with nothing
      read before it. */
  lemma QuestionSection(data: seq<byte>, qs: seq<PlainQuestion>, k: nat, c: int)
    requires QuestionsEncodable(qs) && EncodedAt(data, HeaderSize, EncodeQuestions(qs))
    requires k == |qs| && c == HeaderSize + |EncodeQuestions(qs)|
    ensures Questions(data, HeaderSize, k, []) == Ok((QuestionsOf(qs), c))
  {
    QuestionLoopRoundTrip(data, HeaderSize, qs, []);
    EmptyPrefix(QuestionsOf(qs));
    QuestionLoopIsQuestions(data, HeaderSize, |qs|, k, [], [] + QuestionsOf(qs), HeaderSize + |EncodeQuestions(qs)|, c);
  }

  /** The answer section of a message, read from where the questions end. */
  lemma AnswerSection(data: seq<byte>, c: nat, rs: seq<PlainRecord>, k: nat, c2: int)
    requires RecordsEncodable(rs) && EncodedAt(data, c, EncodeRecords(rs))
    requires k == |rs| && c2 == c + |EncodeRecords(rs)|
    ensures Records(data, c, k, []) == Ok((RecordsOf(rs), c2))
  {
    RecordLoopRoundTrip(data, c, rs, []);
    EmptyPrefix(RecordsOf(rs));
    RecordLoopIsRecords(data, c, |rs|, k, [], [] + RecordsOf(rs), c + |EncodeRecords(rs)|, c2);
  }

  /** `parseDNSMsg` assembled from its three steps: the header, the questions
      read from offset 12, and the answers read where the questions end. */
  lemma DecodeFromSections(data: seq<byte>, h: Header, qs: seq<Question>, c: int, rs: seq<ResourceRecord>, c2: int)
    requires DecodeHeader(data) == Ok(h)
    requires Questions(data, HeaderSize, h.questionNum, []) == Ok((qs, c))
    requires Records(data, c, h.answerNum, []) == Ok((rs, c2))
    ensures DecodeMessage(data) == Ok(Message(h, qs, rs, [], []))
  {
  }

  /** The decoder's loops start from an empty accumulator. */
  lemma EmptyPrefix<T>(s: seq<T>)
    ensures [] + s == s
  {
  }

  /** A message whose header announces |qs| questions and |rs| answers, and
      whose sections are those questions and records written without
      compression, decodes to exactly them. */
  lemma MessageRoundTrip(data: seq<byte>, h: Header, qs: seq<PlainQuestion>, rs: seq<PlainRecord>)
    requires DecodeHeader(data) == Ok(h) && h.questionNum == |qs| && h.answerNum == |rs|
    requires QuestionsEncodable(qs) && RecordsEncodable(rs)
    requires EncodedAt(data, HeaderSize, EncodeQuestions(qs) + EncodeRecords(rs))
    ensures DecodeMessage(data) == Ok(Message(h, QuestionsOf(qs), RecordsOf(rs), [], []))
  {
    var c := HeaderSize + |EncodeQuestions(qs)|;
    var c2 := c + |EncodeRecords(rs)|;
    EncodedAtSuffix(data, HeaderSize, EncodeQuestions(qs), EncodeRecords(rs));
    QuestionSection(data, qs, h.questionNum, c);
    AnswerSection(data, c, rs, h.answerNum, c2);
    DecodeFromSections(data, h, QuestionsOf(qs), c, RecordsOf(rs), c2);
  }
}
