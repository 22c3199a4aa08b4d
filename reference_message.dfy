/** The 92-octet response of dns2tcp_test.go: a header announcing one
    question and two answers, the question `test.example.com A IN`, an
    answer for `sub1.test.example.com` written out in full, and one for
    `sub2.test.example.com` whose suffix is a compression pointer to the
    question's name at offset 12. */
module ReferenceMessage {
  import opened Wire
  import opened Bits
  import opened NameDecoder
  import opened NameProperties
  import opened MessageDecoder
  import opened MessageProperties

  // The labels, in ASCII.
  const Test: seq<byte> := [116, 101, 115, 116]
  const Example: seq<byte> := [101, 120, 97, 109, 112, 108, 101]
  const Com: seq<byte> := [99, 111, 109]
  const Sub1: seq<byte> := [115, 117, 98, 49]
  const Sub2: seq<byte> := [115, 117, 98, 50]

  // The message, piece by piece, as the test lays it out.
  /** ID 0x1234, flags 0x8180, one question, two answers, no others. */
  const HeaderOctets: seq<byte> := [0x12, 0x34, 0x81, 0x80, 0x00, 0x01, 0x00, 0x02, 0x00, 0x00, 0x00, 0x00]
  /** Offset 12: "test" "example" "com" and the zero octet. */
  const QuestionName: seq<byte> := [4, 116, 101, 115, 116, 7, 101, 120, 97, 109, 112, 108, 101, 3, 99, 111, 109, 0]
  /** Offset 30: QTYPE A, QCLASS IN. */
  const QuestionFields: seq<byte> := [0x00, 0x01, 0x00, 0x01]
  /** Offset 34: "sub1" "test" "example" "com" and the zero octet. */
  const Answer1Name: seq<byte> := [4, 115, 117, 98, 49, 4, 116, 101, 115, 116, 7, 101, 120, 97, 109, 112, 108, 101, 3, 99, 111, 109, 0]
  /** Offset 57 (and 78 for the second answer): TYPE A, CLASS IN, TTL 225, RDLENGTH 4. */
  const AnswerFields: seq<byte> := [0x00, 0x01, 0x00, 0x01, 0x00, 0x00, 0x00, 0xE1, 0x00, 0x04]
  /** Offset 67: 192.0.2.1 */
  const Answer1Data: seq<byte> := [192, 0, 2, 1]
  /** Offset 71: "sub2", then a pointer to offset 12. */
  const Answer2Name: seq<byte> := [4, 115, 117, 98, 50, 0xC0, 0x0C]
  /** Offset 88: 192.0.2.2 */
  const Answer2Data: seq<byte> := [192, 0, 2, 2]

  // The message from each offset on.
  const From88: seq<byte> := Answer2Data
  const From78: seq<byte> := AnswerFields + From88
  const From71: seq<byte> := Answer2Name + From78
  const From67: seq<byte> := Answer1Data + From71
  const From57: seq<byte> := AnswerFields + From67
  const From34: seq<byte> := Answer1Name + From57
  const From30: seq<byte> := QuestionFields + From34
  const From12: seq<byte> := QuestionName + From30
  /** The whole message. */
  const Response: seq<byte> := HeaderOctets + From12

  /** The header the test expects: a response, opcode 0, RD and RA set,
      RCODE 0, one question, two answers. */
  const ResponseHeader: Header := Header(
    id := 0x1234, response := true, opcode := 0, authoritative := false, truncated := false,
    recursionDesired := true, recursionAvailable := true, rcode := 0,
    questionNum := 1, answerNum := 2, authorityNum := 0, additionalNum := 0)

  const Answer1: ResourceRecord := ResourceRecord("sub1.test.example.com", 1, 1, 225, 4, Answer1Data)
  const Answer2: ResourceRecord := ResourceRecord("sub2.test.example.com", 1, 1, 225, 4, Answer2Data)

  lemma AtEnd(x: seq<byte>, y: seq<byte>)
    ensures EncodedAt(x + y, |x|, y)
  {
    assert (x + y)[|x|..|x| + |y|] == y;
  }

  /** The byte string written as text. */
  lemma NameText(bs: seq<byte>, s: string)
    requires |bs| == |s| && forall i :: 0 <= i < |s| ==> s[i] as int == bs[i]
    ensures Text(bs) == s
  {
  }

  lemma QuestionNameText()
    ensures Dotted([Test, Example, Com]) == "test.example.com"
  {
    NameText(Test, "test");
    NameText(Example, "example");
    NameText(Com, "com");
    assert Texts([Test, Example, Com]) == ["test", "example", "com"];
    assert Join(["test", "example", "com"]) == "test" + "." + ("example" + "." + "com");
  }

  /** A label in front of a name adds its text and a dot in front. */
  lemma DottedCons(l: seq<byte>, ls: seq<seq<byte>>)
    requires ls != []
    ensures Dotted([l] + ls) == Text(l) + "." + Dotted(ls)
  {
    TextsAppend([l], ls);
    assert Texts([l]) == [Text(l)];
    assert ([Text(l)] + Texts(ls))[1..] == Texts(ls);
  }

  lemma Answer1NameText()
    ensures Dotted([Sub1, Test, Example, Com]) == "sub1.test.example.com"
  {
    assert [Sub1, Test, Example, Com] == [Sub1] + [Test, Example, Com];
    DottedCons(Sub1, [Test, Example, Com]);
    NameText(Sub1, "sub1");
    QuestionNameText();
  }

  lemma Answer2NameText()
    ensures Dotted(Labels(Hop(71, [Sub2], Last(12, [Test, Example, Com])))) == "sub2.test.example.com"
  {
    assert Labels(Hop(71, [Sub2], Last(12, [Test, Example, Com]))) == [Sub2] + [Test, Example, Com];
    DottedCons(Sub2, [Test, Example, Com]);
    NameText(Sub2, "sub2");
    QuestionNameText();
  }

  /** The bits of the flags word 0x8180: QR, RD and RA. */
  lemma FlagsOfResponse(f: nat)
    requires f == 0x8180
    ensures Bit(f, 0) == 0 && Bit(f, 1) == 0 && Bit(f, 2) == 0 && Bit(f, 3) == 0
    ensures Bit(f, 7) == 1 && Bit(f, 8) == 1 && Bit(f, 9) == 0 && Bit(f, 10) == 0
    ensures Bit(f, 11) == 0 && Bit(f, 12) == 0 && Bit(f, 13) == 0 && Bit(f, 14) == 0
  {
    assert Shr(0x8180, 8) == 0x81;
    BitOfShr(0x8180, 8, 3);
    BitOfShr(0x8180, 8, 4);
    BitOfShr(0x8180, 8, 5);
    BitOfShr(0x8180, 8, 6);
  }

  /** The flags word 0x8180 decodes to a response with opcode 0, RD and RA
      set, AA and TC clear, and RCODE 0. */
  lemma ResponseFlagsDecode(data: seq<byte>)
    requires |data| >= HeaderSize && Flags(data) == 0x8180
    ensures var h := DecodeHeader(data).value;
            && h.response && h.opcode == 0 && !h.authoritative && !h.truncated
            && h.recursionDesired && h.recursionAvailable && h.rcode == 0
  {
    HeaderFlags(data);
    FlagsOfResponse(Flags(data));
  }

  /** Twelve octets as the test's header decode to the header it expects. */
  lemma ResponseHeaderDecodes(data: seq<byte>)
    requires |data| >= HeaderSize
    requires data[0] == 0x12 && data[1] == 0x34 && data[2] == 0x81 && data[3] == 0x80
    requires data[4] == 0 && data[5] == 1 && data[6] == 0 && data[7] == 2
    requires data[8] == 0 && data[9] == 0 && data[10] == 0 && data[11] == 0
    ensures DecodeHeader(data) == Ok(ResponseHeader)
  {
    ResponseFlagsDecode(data);
  }

  /** The response starts with the header octets. */
  lemma ResponseIsHeaderFirst()
    ensures DecodeHeader(Response) == Ok(ResponseHeader)
  {
    assert Response[..HeaderSize] == HeaderOctets;
    ResponseHeaderDecodes(Response);
  }

  // The pieces are the encodings the decoder reads back.

  lemma QuestionNameEncoded()
    ensures ValidLabels([Test, Example, Com])
    ensures QuestionName == EncodeName([Test, Example, Com])
    ensures QuestionName == EncodeLabels([Test, Example, Com]) + [0]
  {
    assert EncodeLabels([Com]) == [3] + Com;
    assert EncodeLabels([Example, Com]) == [7] + Example + EncodeLabels([Com]);
    assert EncodeLabels([Test, Example, Com]) == [4] + Test + EncodeLabels([Example, Com]);
  }

  lemma Answer1NameEncoded()
    ensures ValidLabels([Sub1, Test, Example, Com])
    ensures Answer1Name == EncodeName([Sub1, Test, Example, Com])
  {
    assert EncodeLabels([Com]) == [3] + Com;
    assert EncodeLabels([Example, Com]) == [7] + Example + EncodeLabels([Com]);
    assert EncodeLabels([Test, Example, Com]) == [4] + Test + EncodeLabels([Example, Com]);
    assert EncodeLabels([Sub1, Test, Example, Com]) == [4] + Sub1 + EncodeLabels([Test, Example, Com]);
  }

  lemma Answer2NameEncoded()
    ensures ValidLabels([Sub2])
    ensures Answer2Name == EncodeLabels([Sub2]) + PointerBytes(12)
  {
    assert EncodeLabels([Sub2]) == [4] + Sub2;
  }

  lemma FieldsEncoded()
    ensures QuestionFields == U16Bytes(1) + U16Bytes(1)
    ensures AnswerFields == RecordFields(1, 1, 225, 4)
  {
    assert U32Bytes(225) == [0, 0, 0, 0xE1];
  }

  // Where each piece sits in the response.

  lemma PrefixOf(d: seq<byte>, at: int, a: seq<byte>, b: seq<byte>, c: seq<byte>)
    requires EncodedAt(d, at, a + (b + c))
    ensures EncodedAt(d, at, a + b)
  {
    assert (a + (b + c))[..|a + b|] == a + b;
    assert d[at..at + |a + b|] == d[at..at + |a + (b + c)|][..|a + b|];
  }

  lemma Layout()
    ensures |Response| == 92
    ensures EncodedAt(Response, 12, QuestionName) && EncodedAt(Response, 30, QuestionFields)
    ensures EncodedAt(Response, 34, Answer1Name) && EncodedAt(Response, 57, AnswerFields + Answer1Data)
    ensures EncodedAt(Response, 71, Answer2Name) && EncodedAt(Response, 78, AnswerFields + Answer2Data)
  {
    AtEnd(HeaderOctets, From12);
    EncodedAtSuffix(Response, 12, QuestionName, From30);
    EncodedAtSuffix(Response, 30, QuestionFields, From34);
    EncodedAtSuffix(Response, 34, Answer1Name, From57);
    PrefixOf(Response, 57, AnswerFields, Answer1Data, From71);
    EncodedAtSuffix(Response, 57, AnswerFields, From67);
    EncodedAtSuffix(Response, 67, Answer1Data, From71);
    EncodedAtSuffix(Response, 71, Answer2Name, From78);
  }

  // The three steps of the decoder.

  lemma QuestionDecodes()
    ensures QuestionAt(Response, 12) == Ok((Question("test.example.com", 1, 1), 34))
  {
    Layout();
    QuestionNameEncoded();
    QuestionNameText();
    UncompressedName(Response, 12, [Test, Example, Com]);
    FieldsEncoded();
    QuestionAfterName(Response, 12, "test.example.com", 30, 1, 1);
  }

  lemma Answer1Decodes()
    ensures RecordAt(Response, 34) == Ok((Answer1, 71))
  {
    Layout();
    Answer1NameEncoded();
    Answer1NameText();
    UncompressedName(Response, 34, [Sub1, Test, Example, Com]);
    FieldsEncoded();
    RecordAfterName(Response, 34, "sub1.test.example.com", 57, 1, 1, 225, Answer1Data);
  }

  /** The second name: "sub2" at 71, then a pointer to the question's
      labels at 12, which end in the zero octet at 29. */
  lemma Answer2NameDecodes()
    ensures DomainNameOf(Response, 71) == Ok(DomainName("sub2.test.example.com", 78))
  {
    Layout();
    Answer2NameEncoded();
    QuestionNameEncoded();
    EncodedAtSuffix(Response, 71, EncodeLabels([Sub2]), PointerBytes(12));
    EncodedAtSuffix(Response, 12, EncodeLabels([Test, Example, Com]), [0]);
    var r := Hop(71, [Sub2], Last(12, [Test, Example, Com]));
    assert Chain(Response, r);
    Answer2NameText();
    CompressedName(Response, r);
  }

  lemma Answer2Decodes()
    ensures RecordAt(Response, 71) == Ok((Answer2, 92))
  {
    Layout();
    Answer2NameDecodes();
    FieldsEncoded();
    RecordAfterName(Response, 71, "sub2.test.example.com", 78, 1, 1, 225, Answer2Data);
  }

  /** `parseDNSMsg` decodes the response to what the test checks field by
      field, the compressed second name included. */
  lemma ReferenceDecode()
    ensures DecodeMessage(Response) == Ok(Message(
      ResponseHeader, [Question("test.example.com", 1, 1)], [Answer1, Answer2], [], []))
  {
    ResponseIsHeaderFirst();
    var question := [Question("test.example.com", 1, 1)];
    assert Questions(Response, HeaderSize, 1, []) == Ok((question, 34)) by {
      QuestionDecodes();
      QuestionChainStep(Response, 12, question[0], 34, 0, []);
      assert [] + [question[0]] == question;
    }
    assert Records(Response, 34, 2, []) == Ok(([Answer1, Answer2], 92)) by {
      Answer1Decodes();
      Answer2Decodes();
      RecordChainStep(Response, 34, Answer1, 71, 1, []);
      RecordChainStep(Response, 71, Answer2, 92, 0, [] + [Answer1]);
      assert [] + [Answer1] + [Answer2] == [Answer1, Answer2];
    }
  }
}
