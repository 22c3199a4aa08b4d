# dns2tcp message decoder in Dafny

dns2tcp is a small Go proxy. It receives DNS queries over UDP and forwards
them to an upstream resolver over TCP. Its core is a hand-written decoder
for DNS messages in the wire format of RFC 1035, in `dns2tcp.go`:

- `getDomainName` reads one domain name. A name is a run of length-prefixed
  labels, possibly ending in a compression pointer (section 4.1.4 of RFC 1035).
- `parseDNSMsg` reads the 12-octet header, the question section and the
  answer section into a `dnsMsg`.
- `Itob` turns a 16-bit flag value into a Go `bool`.

This project models that decoder and proves properties of it.

Modules, one per concern:

- `Wire` (`wire.dfy`): Go's `byte`, `uint16` and `uint32` as subset types.
  - The big-endian reads of `encoding/binary`, plus `string(b)`,
    `make([]byte, n)` and `Itob`.
  - `Fault` names every point where the Go code would panic or call
    `log.Fatal` instead of returning. A `Result` is `Ok` exactly when the
    Go call returns normally.
- `Bits` (`bits.dfy`): Go's `>>`, `<<`, `&`, `|` and `^` on non-negative
  integers, defined arithmetically, with the lemmas that relate them.
- `NameDecoder` (`names.dfy`): the name decoder.
  - `Walk` is the specification: one call per iteration of the Go loop.
  - `DomainNameOf` is `getDomainName` as a function.
  - `GetDomainName` is the Go loop itself. It fills a 63-slot label array
    and is proved equal to `DomainNameOf`.
- `NameProperties` (`name_properties.dfy`): what the name decoder does on
  well-formed and malformed input.
  - Well-formed input: plain names, and names that follow pointer chains.
  - Malformed input: pointer loops, reserved length octets, truncation,
    and too many labels.
- `MessageDecoder` (`message.dfy`): the message decoder.
  - `DecodeMessage` is the specification, one function per step of
    `parseDNSMsg`.
  - `ReadQuestions`, `ReadRecords` and `ParseDNSMsg` are the Go loops over
    pre-allocated arrays. Each is proved equal to its specification.
- `MessageProperties` (`message_properties.dfy`): properties of the message
  decoder.
  - The header flags, bit by bit.
  - The shape of a decoded message.
  - Failure when a section runs out of data.
  - Round trips: questions, records, whole sections and whole messages
    written without compression decode back to what was written.
- `Truncation` (`truncation.dfy`): a message whose names are written
  without compression (the messages `MessageRoundTrip` decodes), cut off
  anywhere before the end of its last answer, is refused. This holds whether
  the cut falls in the header, in a name, in the fixed fields or in the
  record data.
- `ReferenceMessage` (`reference_message.dfy`): the 92-octet response of
  `dns2tcp_test.go`. It is proved to decode to exactly the values the test
  checks, including the compressed name of the second answer.

The model follows the Go code wherever it differs from what a careful
decoder would do. Each of these behaviours is part of the model:

- Some malformed names do not fail. Instead `getDomainName` returns a fixed
  name and offset:
  - `""` and `len(data)` when the cursor runs off the end;
  - `""` and the remaining length when a length octet uses one of the two
    reserved patterns;
  - `"Too many compression pointers"` and the saved offset after eleven hops.
- A label that is cut short by the end of the buffer is read only as far as
  the buffer goes (`dns2tcp.go:82`), and the cursor then stands at
  `len(data)` (`dns2tcp.go:91`). The next iteration therefore returns `""`
  and `len(data)` (`dns2tcp.go:67-68`). The zero octets with which
  `make([]byte, n)` pads the stored label therefore never reach a decoded
  name. For a name read without pointers, `TruncatedLabel` and `NameCut`
  prove this: the outcome is the name `""` or an error.
- The authority and additional sections are never read. `ns` and `extra`
  are always empty, whatever the header counts say.
- `response` is always true, whatever the QR bit says.
- `recursion_available` is computed as `(flags & 0x00F0) >> 7`. Only bit 7
  survives that shift, so bits 4 to 6 of the flags word do not matter.
- Every out-of-range access panics in Go, and a failed read calls
  `log.Fatal`. Both are `Err` outcomes here. Go never returns an error value
  from `parseDNSMsg`.
- The test calls `parseDNSMsg` as if it returned a message and an error
  (`dns2tcp_test.go:63`), but the function returns only the message
  (`dns2tcp.go:117`). The model follows the function. "No error" in the
  test corresponds to the `Ok` outcome here.

## Model

| member | source | states |
|---|---|---|
| Wire.ReadU16 | dns2tcp.go:141-143 | a 16-bit read at an offset succeeds exactly when two octets remain; on success the value is the big-endian word; otherwise the fault is a short field at that offset |
| Wire.ReadU32 | dns2tcp.go:157-158 | a 32-bit read succeeds exactly when four octets remain; on success the value is the big-endian double word; otherwise the fault is a short field at that offset |
| Wire.Itob | dns2tcp.go:51-56 | the flag is true exactly when the 16-bit value is nonzero |
| Wire.Text | dns2tcp.go:90 | `string(label)` has one character per octet, with the octet's value as its code point |
| Wire.Zeros | dns2tcp.go:81 | a freshly made label buffer has the requested length and every octet zero |
| NameDecoder.KindMatchesMask | dns2tcp.go:76-106 | length octets below 0x40 take the label case of the switch on `& 0xC0`, octets from 0xC0 the pointer case, and the octets in between the default case, in both directions |
| NameDecoder.PointerTarget | dns2tcp.go:103 | a pointer's target is a 14-bit offset, below 0x4000 |
| NameDecoder.PointerTargetMatchesGo | dns2tcp.go:103 | the target equals Go's `(hi ^ 0xC0) << 8 \| lo` for every pointer octet pair |
| NameDecoder.KindOf | dns2tcp.go:76 | the three cases of the switch on `labelsize & 0xC0`; `KindMatchesMask` proves each case matches its mask value |
| NameDecoder.LabelBytes | dns2tcp.go:81-91 | the stored label always has its declared length; its first `LabelAdvance` octets are the buffer's octets from the cursor, and the rest are the zeros of `make` |
| NameDecoder.LabelAdvance | dns2tcp.go:82-91 | the cursor advances by at most the declared length and never past the end of the buffer: by the whole label, or exactly up to the end of the buffer |
| NameDecoder.Join | dns2tcp.go:109 | `strings.Join(labels[0:n], ".")`; `UncompressedName` and `CompressedName` prove that the decoded name is the labels joined by dots |
| NameDecoder.Walk | dns2tcp.go:65-107 | one call per iteration of the labelled loop; its outcomes are stated by the `NameProperties` lemmas, from `UncompressedName` to `SixtyFourthLabel`, `PointerPastEnd` and `WalkCut` |
| NameDecoder.DomainNameOf | dns2tcp.go:58-115 | `getDomainName`, with the slice at line 62 rejecting a start offset past the end; `GetDomainName` is proved equal to it, and the `NameProperties` lemmas state its results |
| NameDecoder.GetDomainName | dns2tcp.go:58-115 | the Go loop over a 63-slot label array returns exactly what the iteration-by-iteration specification returns, for every buffer and start offset |
| NameProperties.UncompressedName | dns2tcp.go:65-114 | a name of at most 63 valid labels, written without compression, decodes to its labels joined by dots, and decoding resumes just past the zero octet |
| NameProperties.CompressedName | dns2tcp.go:92-113 | a chain of label runs joined by pointers, with at most eleven pointers, decodes to all the labels in order, and decoding resumes just past the first pointer's two octets |
| NameProperties.CompressionTransparent | dns2tcp.go:92-113 | a compressed name decodes to the same text as the same labels written out in full |
| NameProperties.PointerCap | dns2tcp.go:97-99 | a chain with more than eleven pointers yields the fixed "Too many compression pointers" name, with the offset just past the first pointer octet |
| NameProperties.SelfPointer | dns2tcp.go:97-103 | a pointer to itself ends in the same fixed name instead of looping |
| NameProperties.ResumeAfterPointer | dns2tcp.go:94-113 | once a pointer has been followed, a normal end resumes one octet past the saved offset; any fixed name comes with the saved offset, the buffer length or the remaining length |
| NameProperties.FirstPointerFixesResume | dns2tcp.go:94-113 | when a name's first pointer follows plain labels, a normal end resumes just past that pointer, whatever the pointer leads to |
| NameProperties.LabelsWellFormed | dns2tcp.go:63-91 | a decoded name has at most 63 labels, each of 1 to 63 characters with octet code points, and keeps the labels already read as a prefix |
| NameProperties.ReservedLengthByte | dns2tcp.go:104-105 | a length octet of pattern 01 or 10 after valid labels yields the empty name with the remaining length as offset |
| NameProperties.EndOfBufferInName | dns2tcp.go:67-68 | labels that run up to the end of the buffer without a terminator yield the empty name with the buffer length as offset |
| NameProperties.TruncatedLabel | dns2tcp.go:81-91 | a label whose declared length runs past the end consumes what remains, and decoding then ends with the empty name at the buffer length |
| NameProperties.LabelLengthAtEnd | dns2tcp.go:82-86 | a label length that is the last octet of the buffer is a read error at the end of the buffer |
| NameProperties.PointerAtEnd | dns2tcp.go:102 | a pointer whose second octet is missing is an out-of-range access at the end of the buffer |
| NameProperties.SixtyFourthLabel | dns2tcp.go:90 | a 64th label overflows the 63-slot label array |
| NameProperties.PointerPastEnd | dns2tcp.go:67-68 | after plain labels, a pointer whose target is at or past the end of the buffer yields the empty name with the buffer length as offset |
| NameProperties.WalkCut | dns2tcp.go:65-91 | labels that the end of the buffer cuts off before their terminator end the loop with the empty name at the buffer length, or with the read error of a length octet that is the last octet |
| NameProperties.NameCut | dns2tcp.go:58-115 | a name written without compression and cut off anywhere before its zero octet decodes to the empty name at the buffer length, or fails |
| NameProperties.PointerBytesTarget | dns2tcp.go:103 | the two-octet encoding of any 14-bit offset is read as a pointer to that offset |
| MessageDecoder.DecodeHeader | dns2tcp.go:119-133 | the header decodes exactly when twelve octets are present; the fault otherwise is at the first word that does not fit; id and the four counts are the big-endian words at 0, 4, 6, 8 and 10 |
| MessageDecoder.ReadQuestions | dns2tcp.go:135-146 | the question loop over a pre-allocated array returns exactly the specified questions and cursor, or the same fault |
| MessageDecoder.ReadRecord | dns2tcp.go:152-167 | the reads of one iteration of the answer loop (name, type, class, TTL, rdlength, then the data) return exactly the record and cursor of one specified step, or the same fault |
| MessageDecoder.ReadRecords | dns2tcp.go:150-169 | the answer loop over a pre-allocated array, one `ReadRecord` per iteration, returns exactly the specified records and cursor, or the same fault |
| MessageDecoder.ParseDNSMsg | dns2tcp.go:117-172 | the imperative decoder returns exactly the specified message, and reads answers only when the answer count is nonzero |
| MessageDecoder.QuestionAt | dns2tcp.go:139-144 | one iteration of the question loop; `QuestionCursor`, `QuestionAfterName` and `QuestionRoundTrip` state what it reads and where it stops |
| MessageDecoder.RecordAt | dns2tcp.go:152-167 | one iteration of the answer loop; `RecordCursor`, `RecordAfterName`, `RdataPastEnd` and `RecordRoundTrip` state what it reads and where it stops |
| MessageDecoder.Questions | dns2tcp.go:135-146 | the question loop; `QuestionsLength`, `QuestionsRunOut` and `QuestionsRoundTrip` state its results, and `ReadQuestions` is proved equal to it |
| MessageDecoder.Records | dns2tcp.go:150-169 | the answer loop; `RecordsLength`, `RecordsRunOut` and `RecordsRoundTrip` state its results, and `ReadRecords` is proved equal to it |
| MessageDecoder.DecodeMessage | dns2tcp.go:117-172 | `parseDNSMsg`; `ParseDNSMsg` is proved equal to it, `MessageShape` and `MessageRoundTrip` state its results, and `TruncatedMessage` its failure on every cut message |
| MessageProperties.HeaderFlags | dns2tcp.go:121-128 | response is always set; opcode is bits 11 to 14 of the flags word and rcode bits 0 to 3; AA, TC, RD and RA hold exactly when bits 10, 9, 8 and 7 are set |
| MessageProperties.RecursionAvailableBit | dns2tcp.go:127 | `(flags & 0x00F0) >> 7` is the value of bit 7 alone |
| MessageProperties.OpcodeBits | dns2tcp.go:123 | `(flags >> 11) & 0x000F` is the number made of bits 11 to 14 |
| MessageProperties.FlagBits | dns2tcp.go:124-126 | each single-bit mask shifted down is the value of that bit |
| MessageProperties.HeaderPrefix | dns2tcp.go:119-133 | the header depends only on the first twelve octets |
| MessageProperties.QuestionsLength | dns2tcp.go:135-145 | a successful question loop adds exactly as many questions as it iterates, after those already read |
| MessageProperties.RecordsLength | dns2tcp.go:150-168 | a successful answer loop adds exactly as many records as it iterates, after those already read |
| MessageProperties.MessageShape | dns2tcp.go:135-171 | a decoded message carries the decoded header, exactly as many questions and answers as the header counts, and empty authority and additional sections |
| MessageProperties.QuestionsRunOut | dns2tcp.go:137-144 | a question loop that reaches the end of the buffer with iterations still to go fails with a short field at the end |
| MessageProperties.RecordsRunOut | dns2tcp.go:151-168 | an answer loop that reaches the end of the buffer with iterations still to go fails with a short field at the end |
| MessageProperties.AnswersRunOut | dns2tcp.go:148-171 | a message whose answers end at the end of the buffer before the announced count fails with a short field at the end |
| MessageProperties.QuestionCursor | dns2tcp.go:139-144 | a decoded question has the name the name decoder returns, and the cursor moves four octets past the name, within the buffer |
| MessageProperties.RecordCursor | dns2tcp.go:152-167 | a decoded record has the decoded name; its data is the rdlength octets after the ten fixed octets; the cursor moves past them, within the buffer |
| MessageProperties.U16RoundTrip | dns2tcp.go:141 | the 16-bit read returns any value written in big-endian order |
| MessageProperties.U32RoundTrip | dns2tcp.go:157 | the 32-bit read returns any value written in big-endian order |
| MessageProperties.FieldsRoundTrip | dns2tcp.go:153-160 | type, class, TTL and rdlength written after a name read back as written |
| MessageProperties.QuestionAfterName | dns2tcp.go:139-144 | after any name, written type and class give that question and the cursor four octets on |
| MessageProperties.RecordAfterName | dns2tcp.go:152-167 | after any name, written fields and data give that record, with the data byte for byte, and the cursor past the data |
| MessageProperties.RdataPastEnd | dns2tcp.go:161-165 | an rdlength that runs past the end of the buffer is the fatal read error at the start of the data |
| MessageProperties.QuestionRoundTrip | dns2tcp.go:139-144 | a question written without compression decodes to itself and ends where its encoding ends |
| MessageProperties.RecordRoundTrip | dns2tcp.go:152-167 | a resource record written without compression decodes to itself and ends where its encoding ends |
| MessageProperties.QuestionsRoundTrip | dns2tcp.go:137-145 | any sequence of questions written back to back decodes to the same questions in order, after those already read, and stops just past the last |
| MessageProperties.RecordsRoundTrip | dns2tcp.go:151-168 | any sequence of records written back to back decodes to the same records in order, after those already read, and stops just past the last |
| MessageProperties.QuestionSection | dns2tcp.go:135-146 | the question section written from offset 12 decodes to its questions and ends where it ends |
| MessageProperties.AnswerSection | dns2tcp.go:148-169 | the answer section written where the questions stop decodes to its records and ends where it ends |
| MessageProperties.MessageRoundTrip | dns2tcp.go:117-172 | a header announcing the counts, followed by the questions and records written without compression, decodes to exactly that header, questions and answers, and no other records |
| Truncation.QuestionCut | dns2tcp.go:139-143 | a question cut off anywhere inside it is refused: the name decodes to the empty name at the end of the buffer, or fails, or the type or class read fails |
| Truncation.RecordCut | dns2tcp.go:152-165 | a record cut off anywhere inside it is refused: in its name, in its ten fixed octets, or in its data, which then runs past the end |
| Truncation.QuestionsCut | dns2tcp.go:137-145 | the question loop over questions written back to back and cut off before the end of the last one fails |
| Truncation.RecordsCut | dns2tcp.go:151-168 | the answer loop over records written back to back and cut off before the end of the last one fails |
| Truncation.QuestionSectionCut | dns2tcp.go:135-146 | a message that ends inside its question section is refused |
| Truncation.AnswerSectionCut | dns2tcp.go:148-169 | a message whose questions are whole and which ends inside its answer section is refused |
| Truncation.SectionsCut | dns2tcp.go:135-169 | a message that ends inside its question or answer section is refused |
| Truncation.TruncatedMessage | dns2tcp.go:117-172 | every prefix of a message that `MessageRoundTrip` decodes, cut before the end of its last answer, is refused: in the header, in a question or in a record |
| ReferenceMessage.ResponseFlagsDecode | dns2tcp_test.go:68-83 | the flags word 0x8180 gives a response with opcode 0, RD and RA set, AA and TC clear, and rcode 0 |
| ReferenceMessage.ResponseHeaderDecodes | dns2tcp_test.go:22-29 | the test's twelve header octets decode to id 0x1234, one question, two answers and no other records |
| ReferenceMessage.Layout | dns2tcp_test.go:22-61 | the test message is 92 octets long, with each part at the offset the decoder reaches |
| ReferenceMessage.QuestionDecodes | dns2tcp_test.go:91-104 | the question at offset 12 is test.example.com, type A, class IN |
| ReferenceMessage.Answer1Decodes | dns2tcp_test.go:111-131 | the first answer is sub1.test.example.com, A, IN, TTL 225, with data 192.0.2.1 |
| ReferenceMessage.Answer2NameDecodes | dns2tcp_test.go:133-137 | the compressed name of the second answer decodes to sub2.test.example.com, and decoding resumes after the pointer |
| ReferenceMessage.Answer2Decodes | dns2tcp_test.go:133-153 | the second answer is sub2.test.example.com, A, IN, TTL 225, with data 192.0.2.2, and it ends at the end of the message |
| ReferenceMessage.ReferenceDecode | dns2tcp_test.go:22-153 | the whole test message decodes to exactly the header, question and two answers the test expects |

## Left out

- `dnsRequest`, `dnsListen` and `main` are not part of this model. They do network I/O: TCP to the upstream resolver (address `DNSSERVER`) and UDP to clients.
- The `log.Printf` calls in `getDomainName` and `parseDNSMsg` are not modelled. They print diagnostics and change no result.
- A `log.Fatal` or panic ends the process in Go. Here it is an `Err` value that the caller receives. Process exit is not modelled.
- The struct tags on `dnsQuestion` and `dnsRR` are not modelled. No code in the core reads them.
- Go's `int` is taken as unbounded. Cursors in a DNS message stay far below any machine limit, so no overflow is modelled.
- The `n--` of the pointer branch (`dns2tcp.go:93`) and the `n++` of the loop's post statement (`dns2tcp.go:66`) cancel out, and a pointer iteration reads or writes no label slot between them. The model leaves the label count alone on that path, so nothing observable is lost.
- `ParseDNSMsg`: Go fills the `msg` struct field by field. The model builds the same value once every field is known. On the `Err` path Go has no partial struct to return either.
- Truncation is stated only for messages whose names are written without compression (`TruncatedMessage`). It is not stated for compressed names. It does not hold for every message either: a reserved length octet (`dns2tcp.go:104-105`) returns the remaining length `len(data[cursor:])` as the offset, and that offset shrinks with the buffer. So a message cut short can still decode.
- Round trips are proved for names written without compression, whole sections included (`MessageRoundTrip`). Compressed names are covered one name at a time (`CompressedName`, `CompressionTransparent`). A general round trip for sections whose names point into earlier records is not stated.
