// A message cut short: every prefix of a message whose names are written
// without compression, stopping before its last octet, is refused by the
// decoder, wherever the cut falls.

module Truncation {
  import opened Wire
  import opened NameDecoder
  import opened NameProperties
  import opened MessageDecoder
  import opened MessageProperties

  /** A question cut off anywhere inside it is refused: in the name, the
      name decodes to ("", len(data)) or fails, and the type read fails; after
      the name, the type or the class read fails. */
  lemma QuestionCut(data: seq<byte>, c: nat, p: PlainQuestion)
    requires ValidLabels(p.labels) && |p.labels| <= LabelSlots
    requires EndsInside(data, c, EncodeQuestion(p))
    ensures QuestionAt(data, c).Err?
  {
    var n := EncodeName(p.labels);
    EndsInsideSplit(data, c, n, U16Bytes(p.qtype) + U16Bytes(p.qclass));
    if |data| < c + |n| {
      NameCut(data, c, p.labels);
    } else {
      UncompressedName(data, c, p.labels);
    }
  }

  /** A record cut off anywhere inside it is refused: in the name, in the ten
      octets of fields, or in the record data, which then runs past the end. */
  lemma RecordCut(data: seq<byte>, c: nat, p: PlainRecord)
    requires ValidLabels(p.labels) && |p.labels| <= LabelSlots
    requires EndsInside(data, c, EncodeRecord(p))
    ensures RecordAt(data, c).Err?
  {
    var n := EncodeName(p.labels);
    var fields := RecordFields(p.rrtype, p.rrclass, p.ttl, |p.rdata|);
    assert EncodeRecord(p) == n + (fields + p.rdata);
    EndsInsideSplit(data, c, n, fields + p.rdata);
    if |data| < c + |n| {
      NameCut(data, c, p.labels);
    } else {
      var o := c + |n|;
      UncompressedName(data, c, p.labels);
      EndsInsideSplit(data, o, fields, p.rdata);
      if o + 10 <= |data| {
        RdataPastEnd(data, c, Dotted(p.labels), o, p.rrtype, p.rrclass, p.ttl, |p.rdata|);
      }
    }
  }

  /** The question loop over encoded questions cut off before the end of the
      last one fails. */
  lemma {:induction false} QuestionsCut(data: seq<byte>, c: nat, ps: seq<PlainQuestion>, acc: seq<Question>)
    requires QuestionsEncodable(ps) && EndsInside(data, c, EncodeQuestions(ps))
    ensures QuestionLoop(data, c, |ps|, acc).Err?
    decreases ps
  {
    assert ps != [];
    var p := ps[0];
    var rest := ps[1..];
    assert QuestionsEncodable(rest) by {
      assert forall i :: 0 <= i < |rest| ==> rest[i] == ps[i + 1];
    }
    assert ValidLabels(p.labels) && |p.labels| <= LabelSlots;
    EndsInsideSplit(data, c, EncodeQuestion(p), EncodeQuestions(rest));
    var c2 := c + |EncodeQuestion(p)|;
    if |data| < c2 {
      QuestionCut(data, c, p);
    } else {
      QuestionRoundTrip(data, c, p);
      QuestionChainStep(data, c, QuestionOf(p), c2, |rest|, acc);
      QuestionsCut(data, c2, rest, acc + [QuestionOf(p)]);
    }
  }

  /** The answer loop over encoded records cut off before the end of the last
      one fails. */
  lemma {:induction false} RecordsCut(data: seq<byte>, c: nat, ps: seq<PlainRecord>, acc: seq<ResourceRecord>)
    requires RecordsEncodable(ps) && EndsInside(data, c, EncodeRecords(ps))
    ensures RecordLoop(data, c, |ps|, acc).Err?
    decreases ps
  {
    assert ps != [];
    var p := ps[0];
    var rest := ps[1..];
    assert RecordsEncodable(rest) by {
      assert forall i :: 0 <= i < |rest| ==> rest[i] == ps[i + 1];
    }
    assert ValidLabels(p.labels) && |p.labels| <= LabelSlots;
    EndsInsideSplit(data, c, EncodeRecord(p), EncodeRecords(rest));
    var c2 := c + |EncodeRecord(p)|;
    if |data| < c2 {
      RecordCut(data, c, p);
    } else {
      RecordRoundTrip(data, c, p);
      RecordChainStep(data, c, RecordOf(p), c2, |rest|, acc);
      RecordsCut(data, c2, rest, acc + [RecordOf(p)]);
    }
  }

  /** A failure in the question loop is a failure of `parseDNSMsg`. */
  lemma FailInQuestions(data: seq<byte>, h: Header, n: nat)
    requires DecodeHeader(data) == Ok(h) && h.questionNum == n
    requires QuestionLoop(data, HeaderSize, n, []).Err?
    ensures DecodeMessage(data).Err?
  {
  }

  /** A failure in the answer loop, when the header announces answers, is a
      failure of `parseDNSMsg`. */
  lemma FailInAnswers(data: seq<byte>, h: Header, n: nat, qs: seq<Question>, c: int, m: nat)
    requires DecodeHeader(data) == Ok(h) && h.questionNum == n && h.answerNum == m && m > 0
    requires QuestionLoop(data, HeaderSize, n, []) == Ok((qs, c))
    requires RecordLoop(data, c, m, []).Err?
    ensures DecodeMessage(data).Err?
  {
  }

  /** Cutting a buffer inside bytes written in it leaves them ending inside
      the shorter buffer. */
  lemma CutInside(data: seq<byte>, at: int, bytes: seq<byte>, cut: nat)
    requires EncodedAt(data, at, bytes) && at <= cut < at + |bytes|
    ensures EndsInside(data[..cut], at, bytes)
  {
    assert data[..cut][at..] == data[at..at + |bytes|][..cut - at];
  }

  /** A message that ends inside its question section: the question loop
      fails. */
  lemma QuestionSectionCut(data: seq<byte>, h: Header, qs: seq<PlainQuestion>)
    requires DecodeHeader(data) == Ok(h) && h.questionNum == |qs|
    requires QuestionsEncodable(qs) && EndsInside(data, HeaderSize, EncodeQuestions(qs))
    ensures DecodeMessage(data).Err?
  {
    QuestionsCut(data, HeaderSize, qs, []);
    FailInQuestions(data, h, |qs|);
  }

  /** A message whose questions are whole and which ends inside its answer
      section: the answer loop fails. */
  lemma AnswerSectionCut(data: seq<byte>, h: Header, qs: seq<PlainQuestion>, rs: seq<PlainRecord>)
    requires DecodeHeader(data) == Ok(h) && h.questionNum == |qs| && h.answerNum == |rs|
    requires QuestionsEncodable(qs) && RecordsEncodable(rs)
    requires EncodedAt(data, HeaderSize, EncodeQuestions(qs))
    requires EndsInside(data, HeaderSize + |EncodeQuestions(qs)|, EncodeRecords(rs))
    ensures DecodeMessage(data).Err?
  {
    var c := HeaderSize + |EncodeQuestions(qs)|;
    QuestionLoopRoundTrip(data, HeaderSize, qs, []);
    RecordsCut(data, c, rs, []);
    assert rs != [];
    FailInAnswers(data, h, |qs|, [] + QuestionsOf(qs), c, |rs|);
  }

  /** The two sections of a message that ends inside them: the question loop
      fails, or the questions are whole and the answer loop fails. */
  lemma SectionsCut(data: seq<byte>, h: Header, qs: seq<PlainQuestion>, rs: seq<PlainRecord>)
    requires DecodeHeader(data) == Ok(h) && h.questionNum == |qs| && h.answerNum == |rs|
    requires QuestionsEncodable(qs) && RecordsEncodable(rs)
    requires EndsInside(data, HeaderSize, EncodeQuestions(qs) + EncodeRecords(rs))
    ensures DecodeMessage(data).Err?
  {
    EndsInsideSplit(data, HeaderSize, EncodeQuestions(qs), EncodeRecords(rs));
    if |data| < HeaderSize + |EncodeQuestions(qs)| {
      QuestionSectionCut(data, h, qs);
    } else {
      AnswerSectionCut(data, h, qs, rs);
    }
  }

  /** Every proper prefix of a message that decodes by `MessageRoundTrip`, cut
      anywhere before the end of its last answer, is refused: in the header,
      in a question or in a record. */
  lemma TruncatedMessage(data: seq<byte>, h: Header, qs: seq<PlainQuestion>, rs: seq<PlainRecord>, cut: nat)
    requires DecodeHeader(data) == Ok(h) && h.questionNum == |qs| && h.answerNum == |rs|
    requires QuestionsEncodable(qs) && RecordsEncodable(rs)
    requires EncodedAt(data, HeaderSize, EncodeQuestions(qs) + EncodeRecords(rs))
    requires cut < HeaderSize + |EncodeQuestions(qs) + EncodeRecords(rs)|
    ensures DecodeMessage(data[..cut]).Err?
  {
    var d := data[..cut];
    if cut >= HeaderSize {
      HeaderPrefix(d, data[cut..]);
      assert d + data[cut..] == data;
      CutInside(data, HeaderSize, EncodeQuestions(qs) + EncodeRecords(rs), cut);
      SectionsCut(d, h, qs, rs);
    }
  }
}
