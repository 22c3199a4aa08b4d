/** What `getDomainName` does, stated against independent descriptions of
    the wire format: how a list of labels is encoded, how a two-byte
    compression pointer is encoded, and chains of label runs linked by
    pointers. */
module NameProperties {
  import opened Wire
  import opened Bits
  import opened NameDecoder

  /** A label as RFC 1035 allows it on the wire: 1 to 63 octets. */
  ghost predicate ValidLabel(l: seq<byte>)
  {
    1 <= |l| <= 63
  }

  ghost predicate ValidLabels(ls: seq<seq<byte>>)
  {
    forall i :: 0 <= i < |ls| ==> ValidLabel(ls[i])
  }

  /** Each label as its length octet followed by its octets (no terminator). */
  function EncodeLabels(ls: seq<seq<byte>>): (e: seq<byte>)
    requires ValidLabels(ls)
  {
    if ls == [] then []
    else
      var len: byte := |ls[0]|;
      [len] + ls[0] + EncodeLabels(ls[1..])
  }

  /** An uncompressed name: its labels followed by the zero octet. */
  function EncodeName(ls: seq<seq<byte>>): seq<byte>
    requires ValidLabels(ls)
  {
    EncodeLabels(ls) + [0]
  }

  /** A compression pointer to offset t: top bits 11, then 14 bits of t. */
  function PointerBytes(t: nat): seq<byte>
    requires t < 0x4000
  {
    [0xC0 + t / 0x100, t % 0x100]
  }

  /** The labels as Go strings, and the dotted name they make. */
  function Texts(ls: seq<seq<byte>>): (ts: seq<string>)
    ensures |ts| == |ls|
  {
    seq(|ls|, i requires 0 <= i < |ls| => Text(ls[i]))
  }

  function Dotted(ls: seq<seq<byte>>): string
  {
    Join(Texts(ls))
  }

  /** A name stored as runs of labels linked by compression pointers: the
      labels `seg` of each run are written at `start`, and a `Hop` run is
      followed by a pointer to the start of `rest`. */
  datatype Runs =
    | Last(start: nat, seg: seq<seq<byte>>)
    | Hop(start: nat, seg: seq<seq<byte>>, rest: Runs)

  /** All labels of the runs, in order. */
  function Labels(r: Runs): seq<seq<byte>>
  {
    match r
    case Last(_, seg) => seg
    case Hop(_, seg, rest) => seg + Labels(rest)
  }

  /** The number of runs, one more than the number of pointers. */
  function Count(r: Runs): nat
  {
    match r
    case Last(_, _) => 1
    case Hop(_, _, rest) => 1 + Count(rest)
  }

  /** The labels of the first k runs. */
  function LabelsBefore(r: Runs, k: nat): seq<seq<byte>>
  {
    if k == 0 then []
    else
      match r
      case Last(_, seg) => seg
      case Hop(_, seg, rest) => seg + LabelsBefore(rest, k - 1)
  }


  ghost predicate EncodedAt(data: seq<byte>, at: int, bytes: seq<byte>)
  {
    0 <= at && at + |bytes| <= |data| && data[at..at + |bytes|] == bytes
  }

  /** The buffer ends strictly inside `bytes` written at `at`: what is left
      of the buffer from `at` on is a proper prefix of them. */
  ghost predicate EndsInside(data: seq<byte>, at: int, bytes: seq<byte>)
  {
    0 <= at <= |data| < at + |bytes| && data[at..] == bytes[..|data| - at]
  }

  /** The run of labels `seg` is encoded at `start` and ends at the offset returned. */
  ghost predicate RunAt(data: seq<byte>, start: nat, seg: seq<seq<byte>>)
  {
    ValidLabels(seg) && EncodedAt(data, start, EncodeLabels(seg))
  }


  /** A `Hop` run in place, followed by its pointer to the next run. */
  ghost predicate HopAt(data: seq<byte>, r: Runs)
    requires r.Hop?
  {
    && RunAt(data, r.start, r.seg)
    && r.rest.start < 0x4000
    && EncodedAt(data, r.start + |EncodeLabels(r.seg)|, PointerBytes(r.rest.start))
  }

  /** A `Last` run in place, followed by the zero octet. */
  ghost predicate EndAt(data: seq<byte>, r: Runs)
    requires r.Last?
  {
    RunAt(data, r.start, r.seg) && EncodedAt(data, r.start + |EncodeLabels(r.seg)|, [0])
  }

  /** The runs are in place, each `Hop` followed by its pointer (nothing is
      said about what follows the last run). */
  ghost predicate Linked(data: seq<byte>, r: Runs)
  {
    match r
    case Last(start, seg) => RunAt(data, start, seg)
    case Hop(_, _, rest) => HopAt(data, r) && Linked(data, rest)
  }

  /** A complete compressed name: linked runs, the last ending in the zero octet. */
  ghost predicate Chain(data: seq<byte>, r: Runs)
  {
    match r
    case Last(_, _) => EndAt(data, r)
    case Hop(_, _, rest) => HopAt(data, r) && Chain(data, rest)
  }

  /** A Go string that `getDomainName` can store as one label. */
  ghost predicate WellFormedLabel(s: string)
  {
    1 <= |s| <= 63 && forall j :: 0 <= j < |s| ==> s[j] as int < 0x100
  }

  /** `Walk` under a second name: a proof alias for the lemmas below, not a
      model definition. */
  ghost function Outcome(data: seq<byte>, cursor: nat, labels: seq<string>, ptr: nat, offset: int, length: int): Result<NameEnd>
    requires ptr <= PointerLimit + 1
  {
    Walk(data, cursor, labels, ptr, offset, length)
  }

  // ---------------------------------------------------------------------
  // The switch on `labelsize & 0xC0` and the pointer arithmetic

  /** The target of an encoded pointer is the offset it was built from. */
  lemma PointerBytesTarget(t: nat)
    requires t < 0x4000
    ensures KindOf(PointerBytes(t)[0]) == PointerStart
    ensures PointerTarget(PointerBytes(t)[0], PointerBytes(t)[1]) == t
  {
  }

  // ---------------------------------------------------------------------
  // Helpers on the encodings

  lemma TextsAppend(a: seq<seq<byte>>, b: seq<seq<byte>>)
    ensures Texts(a + b) == Texts(a) + Texts(b)
  {
  }

  lemma EncodedAtSuffix(data: seq<byte>, at: int, a: seq<byte>, b: seq<byte>)
    requires EncodedAt(data, at, a + b)
    ensures EncodedAt(data, at, a) && EncodedAt(data, at + |a|, b)
  {
    assert data[at..at + |a|] == (a + b)[..|a|];
    assert data[at + |a|..at + |a| + |b|] == (a + b)[|a|..];
  }

  // ---------------------------------------------------------------------
  // Walking over labels

  /** Reading one well-formed label appends its text and moves the cursor
      past its length octet and its octets. */
  lemma WalkOverLabel(data: seq<byte>, c: nat, l: seq<byte>, acc: seq<string>,
                      ptr: nat, offset: int, length: int, next: nat)
    requires ValidLabel(l) && next == c + 1 + |l| && next <= |data|
    requires data[c] == |l| && data[c + 1..next] == l
    requires |acc| < LabelSlots && ptr <= PointerLimit + 1
    ensures Outcome(data, c, acc, ptr, offset, length) == Outcome(data, next, acc + [Text(l)], ptr, offset, length)
  {
    assert LabelBytes(data, c + 1, |l|) == l;
  }

  /** Reading a run of well-formed labels appends their texts and moves the
      cursor past their encoding, without touching the pointer state. */
  lemma {:induction false} WalkOverLabels(data: seq<byte>, c: nat, ls: seq<seq<byte>>, acc: seq<string>,
                                          ptr: nat, offset: int, length: int)
    requires ValidLabels(ls) && EncodedAt(data, c, EncodeLabels(ls))
    requires |acc| + |ls| <= LabelSlots && ptr <= PointerLimit + 1
    ensures Outcome(data, c, acc, ptr, offset, length)
         == Outcome(data, c + |EncodeLabels(ls)|, acc + Texts(ls), ptr, offset, length)
    decreases ls
  {
    if ls == [] {
      assert acc + Texts(ls) == acc;
    } else {
      var l := ls[0];
      var rest := ls[1..];
      var next := c + 1 + |l|;
      var mid := acc + [Text(l)];
      assert ValidLabel(l);
      assert ValidLabels(rest) by {
        assert forall i :: 0 <= i < |rest| ==> rest[i] == ls[i + 1];
      }
      var e := EncodeLabels(ls);
      var er := EncodeLabels(rest);
      var head: seq<byte> := [|l| as byte] + l;
      assert e == head + er;
      EncodedAtSuffix(data, c, head, er);
      assert data[c] == |l| by { assert data[c..next][0] == data[c]; }
      assert data[c + 1..next] == l by { assert data[c + 1..next] == data[c..next][1..]; }
      assert next + |er| == c + |e|;
      assert mid + Texts(rest) == acc + Texts(ls) by {
        assert Texts(ls) == [Text(l)] + Texts(rest);
      }
      WalkOverLabel(data, c, l, acc, ptr, offset, length, next);
      WalkOverLabels(data, next, rest, mid, ptr, offset, length);
    }
  }

  /** How `getDomainName` turns the end of its loop into its result. */
  lemma NameOfWalk(data: seq<byte>, start: nat, e: NameEnd)
    requires start <= |data| && Outcome(data, start, [], 0, 0, |data| - start) == Ok(e)
    ensures e.Terminated? ==> DomainNameOf(data, start) == Ok(DomainName(Join(e.labels), e.resume))
    ensures e.Sentinel? ==> DomainNameOf(data, start) == Ok(DomainName(e.name, e.offset))
  {
  }

  // ---------------------------------------------------------------------
  // Uncompressed names

  /** Without pointers, the name is the labels joined with "." (the root
      gives ""), and the resume offset is just past the zero octet. */
  lemma UncompressedName(data: seq<byte>, c: nat, ls: seq<seq<byte>>)
    requires ValidLabels(ls) && |ls| <= LabelSlots
    requires EncodedAt(data, c, EncodeName(ls))
    ensures DomainNameOf(data, c) == Ok(DomainName(Dotted(ls), c + |EncodeName(ls)|))
  {
    EncodedAtSuffix(data, c, EncodeLabels(ls), [0]);
    WalkOverLabels(data, c, ls, [], 0, 0, |data| - c);
    assert [] + Texts(ls) == Texts(ls);
  }

  // ---------------------------------------------------------------------
  // Compressed names

  /** The zero octet ends the name: the labels stand, and the function
      resumes past the first pointer if one was followed, else past the zero. */
  lemma WalkOverTerminator(data: seq<byte>, here: nat, acc: seq<string>, ptr: nat, offset: int, length: int)
    requires EncodedAt(data, here, [0]) && ptr <= PointerLimit + 1
    ensures Outcome(data, here, acc, ptr, offset, length)
         == Ok(Terminated(acc, if ptr != 0 then offset + 1 else here + 1))
  {
    assert data[here] == data[here..here + 1][0];
  }

  /** A pointer, while fewer than eleven have been followed, moves the cursor
      to its target; the first one also saves the offset just past its first
      octet. */
  lemma WalkOverPointer(data: seq<byte>, here: nat, acc: seq<string>, ptr: nat, offset: int, length: int, t: nat)
    requires t < 0x4000 && EncodedAt(data, here, PointerBytes(t)) && ptr <= PointerLimit
    ensures Outcome(data, here, acc, ptr, offset, length)
         == Outcome(data, t, acc, ptr + 1, if ptr == 0 then here + 1 else offset, length)
  {
    assert data[here] == PointerBytes(t)[0] && data[here + 1] == PointerBytes(t)[1] by {
      assert data[here..here + 2] == PointerBytes(t);
    }
    PointerBytesTarget(t);
  }

  /** The twelfth pointer is not followed. */
  lemma WalkAtCap(data: seq<byte>, here: nat, acc: seq<string>, offset: int, length: int, t: nat)
    requires t < 0x4000 && EncodedAt(data, here, PointerBytes(t))
    ensures Outcome(data, here, acc, PointerLimit + 1, offset, length) == Ok(Sentinel(TooManyPointers, offset))
  {
    assert data[here] == PointerBytes(t)[0] by {
      assert data[here..here + 2] == PointerBytes(t);
    }
    PointerBytesTarget(t);
  }

  /** The last run of a chain: its labels, then the zero octet. */
  lemma EndStep(data: seq<byte>, r: Runs, acc: seq<string>, ptr: nat, offset: int, length: int)
    requires r.Last? && EndAt(data, r)
    requires |acc| + |r.seg| <= LabelSlots && ptr <= PointerLimit + 1
    ensures Outcome(data, r.start, acc, ptr, offset, length)
         == Ok(Terminated(acc + Texts(r.seg), if ptr != 0 then offset + 1 else r.start + |EncodeLabels(r.seg)| + 1))
  {
    WalkOverLabels(data, r.start, r.seg, acc, ptr, offset, length);
    WalkOverTerminator(data, r.start + |EncodeLabels(r.seg)|, acc + Texts(r.seg), ptr, offset, length);
  }

  /** A `Hop` run: its labels, then the pointer, followed; the first pointer
      saves the offset just past its first octet. */
  lemma HopStep(data: seq<byte>, r: Runs, acc: seq<string>, ptr: nat, offset: int, length: int,
                acc2: seq<string>, ptr2: nat, saved: int)
    requires r.Hop? && HopAt(data, r)
    requires |acc| + |r.seg| <= LabelSlots && ptr <= PointerLimit
    requires acc2 == acc + Texts(r.seg) && ptr2 == ptr + 1
    requires saved == if ptr == 0 then r.start + |EncodeLabels(r.seg)| + 1 else offset
    ensures Outcome(data, r.start, acc, ptr, offset, length) == Outcome(data, r.rest.start, acc2, ptr2, saved, length)
  {
    WalkOverLabels(data, r.start, r.seg, acc, ptr, offset, length);
    WalkOverPointer(data, r.start + |EncodeLabels(r.seg)|, acc + Texts(r.seg), ptr, offset, length, r.rest.start);
  }

  /** A `Hop` run whose pointer the hop cap refuses. */
  lemma CapStep(data: seq<byte>, r: Runs, acc: seq<string>, offset: int, length: int)
    requires r.Hop? && HopAt(data, r)
    requires |acc| + |r.seg| <= LabelSlots
    ensures Outcome(data, r.start, acc, PointerLimit + 1, offset, length) == Ok(Sentinel(TooManyPointers, offset))
  {
    WalkOverLabels(data, r.start, r.seg, acc, PointerLimit + 1, offset, length);
    WalkAtCap(data, r.start + |EncodeLabels(r.seg)|, acc + Texts(r.seg), offset, length, r.rest.start);
  }

  /** The rest of a chain, entered with `ptr` >= 1 pointers already followed
      and the resume offset saved as `offset`: its labels are appended and
      the function returns offset + 1, whatever the later pointers are. */
  lemma {:induction false} ChainFrom(data: seq<byte>, r: Runs, ptr: nat, acc: seq<string>, offset: int, length: int)
    requires Chain(data, r)
    requires 1 <= ptr && ptr + Count(r) <= PointerLimit + 2
    requires |acc| + |Labels(r)| <= LabelSlots
    ensures Outcome(data, r.start, acc, ptr, offset, length) == Ok(Terminated(acc + Texts(Labels(r)), offset + 1))
    decreases r
  {
    match r
    case Last(_, _) =>
      EndStep(data, r, acc, ptr, offset, length);
    case Hop(_, seg, rest) =>
      assert (acc + Texts(seg)) + Texts(Labels(rest)) == acc + Texts(Labels(r)) by {
        TextsAppend(seg, Labels(rest));
      }
      HopStep(data, r, acc, ptr, offset, length, acc + Texts(seg), ptr + 1, offset);
      ChainFrom(data, rest, ptr + 1, acc + Texts(seg), offset, length);
  }

  /** The loop over a chain of two to twelve runs, from the first. */
  lemma CompressedWalk(data: seq<byte>, r: Runs, saved: int)
    requires Chain(data, r) && r.Hop? && Count(r) <= PointerLimit + 2 && |Labels(r)| <= LabelSlots
    requires saved == r.start + |EncodeLabels(r.seg)| + 1
    ensures r.start <= |data|
    ensures Outcome(data, r.start, [], 0, 0, |data| - r.start) == Ok(Terminated(Texts(Labels(r)), saved + 1))
  {
    assert ([] + Texts(r.seg)) + Texts(Labels(r.rest)) == Texts(Labels(r)) by {
      TextsAppend(r.seg, Labels(r.rest));
    }
    HopStep(data, r, [], 0, 0, |data| - r.start, [] + Texts(r.seg), 1, saved);
    ChainFrom(data, r.rest, 1, [] + Texts(r.seg), saved, |data| - r.start);
  }

  /** A name made of two to twelve runs linked by one to eleven pointers
      decodes to all their labels in order, and resumes just past the FIRST
      pointer. */
  lemma CompressedName(data: seq<byte>, r: Runs)
    requires Chain(data, r) && r.Hop? && Count(r) <= PointerLimit + 2
    requires |Labels(r)| <= LabelSlots
    ensures DomainNameOf(data, r.start) == Ok(DomainName(Dotted(Labels(r)), r.start + |EncodeLabels(r.seg)| + 2))
  {
    var saved := r.start + |EncodeLabels(r.seg)| + 1;
    CompressedWalk(data, r, saved);
    NameOfWalk(data, r.start, Terminated(Texts(Labels(r)), saved + 1));
  }

  /** Compression is transparent: a chained name and the same labels written
      out uncompressed decode to the same text. */
  lemma CompressionTransparent(data: seq<byte>, r: Runs, plain: seq<byte>, c: nat)
    requires Chain(data, r) && r.Hop? && Count(r) <= PointerLimit + 2
    requires |Labels(r)| <= LabelSlots
    requires ValidLabels(Labels(r)) && EncodedAt(plain, c, EncodeName(Labels(r)))
    ensures DomainNameOf(data, r.start).Ok? && DomainNameOf(plain, c).Ok?
    ensures DomainNameOf(data, r.start).value.name == DomainNameOf(plain, c).value.name
  {
    CompressedName(data, r);
    UncompressedName(plain, c, Labels(r));
  }

  /** The rest of linked runs, entered with `ptr` >= 1 pointers followed,
      that still hold the pointer the cap refuses. */
  lemma {:induction false} LinkedCap(data: seq<byte>, r: Runs, ptr: nat, acc: seq<string>, offset: int, length: int)
    requires Linked(data, r)
    requires 1 <= ptr <= PointerLimit + 1 && ptr + Count(r) >= PointerLimit + 3
    requires |acc| + |LabelsBefore(r, PointerLimit + 2 - ptr)| <= LabelSlots
    ensures Outcome(data, r.start, acc, ptr, offset, length) == Ok(Sentinel(TooManyPointers, offset))
    decreases r
  {
    match r
    case Hop(_, seg, rest) =>
      if ptr <= PointerLimit {
        HopStep(data, r, acc, ptr, offset, length, acc + Texts(seg), ptr + 1, offset);
        LinkedCap(data, rest, ptr + 1, acc + Texts(seg), offset, length);
      } else {
        assert LabelsBefore(r, 1) == seg + [];
        CapStep(data, r, acc, offset, length);
      }
  }

  /** The loop over linked runs that hold a twelfth pointer, from the first. */
  lemma CappedWalk(data: seq<byte>, r: Runs, saved: int)
    requires Linked(data, r) && Count(r) >= PointerLimit + 3
    requires |LabelsBefore(r, PointerLimit + 2)| <= LabelSlots
    requires saved == r.start + |EncodeLabels(r.seg)| + 1
    ensures r.start <= |data|
    ensures Outcome(data, r.start, [], 0, 0, |data| - r.start) == Ok(Sentinel(TooManyPointers, saved))
  {
    HopStep(data, r, [], 0, 0, |data| - r.start, [] + Texts(r.seg), 1, saved);
    LinkedCap(data, r.rest, 1, [] + Texts(r.seg), saved, |data| - r.start);
  }

  /** The hop cap: at most eleven pointers are followed. The twelfth yields the
      name "Too many compression pointers" with the offset just past the FIRST
      octet of the first pointer (Go returns `offset` there, not `offset + 1`). */
  lemma PointerCap(data: seq<byte>, r: Runs)
    requires Linked(data, r) && Count(r) >= PointerLimit + 3
    requires |LabelsBefore(r, PointerLimit + 2)| <= LabelSlots
    ensures DomainNameOf(data, r.start) == Ok(DomainName(TooManyPointers, r.start + |EncodeLabels(r.seg)| + 1))
  {
    var saved := r.start + |EncodeLabels(r.seg)| + 1;
    CappedWalk(data, r, saved);
    NameOfWalk(data, r.start, Sentinel(TooManyPointers, saved));
  }

  lemma {:induction false} SelfLoop(data: seq<byte>, p: nat, ptr: nat, offset: int, length: int)
    requires p < 0x4000 && EncodedAt(data, p, PointerBytes(p))
    requires 1 <= ptr <= PointerLimit + 1
    ensures Outcome(data, p, [], ptr, offset, length) == Ok(Sentinel(TooManyPointers, offset))
    decreases PointerLimit + 1 - ptr
  {
    assert data[p] == PointerBytes(p)[0] && data[p + 1] == PointerBytes(p)[1];
    PointerBytesTarget(p);
    if ptr <= PointerLimit {
      SelfLoop(data, p, ptr + 1, offset, length);
    }
  }

  /** A pointer to itself cannot hang the decoder: it stops at the hop cap. */
  lemma SelfPointer(data: seq<byte>, p: nat)
    requires p < 0x4000 && EncodedAt(data, p, PointerBytes(p))
    ensures DomainNameOf(data, p) == Ok(DomainName(TooManyPointers, p + 1))
  {
    assert data[p] == PointerBytes(p)[0] && data[p + 1] == PointerBytes(p)[1];
    PointerBytesTarget(p);
    SelfLoop(data, p, 1, p + 1, |data| - p);
  }

  // ---------------------------------------------------------------------
  // The resume offset, for arbitrary input

  /** Once a pointer has been followed, a terminated name always resumes at
      the saved offset + 1; the only other outcomes are the three fixed
      returns, which do not use the saved offset except for the hop cap. */
  lemma {:induction false} ResumeAfterPointer(data: seq<byte>, cursor: nat, labels: seq<string>,
                                              ptr: nat, offset: int, length: int)
    requires 1 <= ptr <= PointerLimit + 1
    ensures match Outcome(data, cursor, labels, ptr, offset, length)
      case Ok(Terminated(_, resume)) => resume == offset + 1
      case Ok(Sentinel(name, o)) =>
        (name == TooManyPointers && o == offset) || (name == "" && (o == |data| || o == length))
      case Err(_) => true
    decreases PointerLimit + 1 - ptr, |data| - cursor
  {
    if cursor < |data| {
      var size := data[cursor];
      var next := cursor + 1;
      if size != 0 && KindOf(size) == LabelLength && next != |data| && |labels| < LabelSlots {
        ResumeAfterPointer(data, next + LabelAdvance(data, next, size),
                           labels + [Text(LabelBytes(data, next, size))], ptr, offset, length);
      } else if size != 0 && KindOf(size) == PointerStart && ptr <= PointerLimit && next < |data| {
        ResumeAfterPointer(data, PointerTarget(size, data[next]), labels, ptr + 1, offset, length);
      }
    }
  }

  /** For any buffer: when a run of labels at `start` is followed by a
      pointer at p, a name that is not one of the fixed returns resumes at
      p + 2, after the first pointer. */
  lemma FirstPointerFixesResume(data: seq<byte>, start: nat, ls: seq<seq<byte>>)
    requires ValidLabels(ls) && |ls| <= LabelSlots && EncodedAt(data, start, EncodeLabels(ls))
    requires start + |EncodeLabels(ls)| + 1 < |data| && data[start + |EncodeLabels(ls)|] >= 0xC0
    ensures var p := start + |EncodeLabels(ls)|;
            match DomainNameOf(data, start)
            case Ok(DomainName(name, o)) =>
              o == p + 2 || (name == TooManyPointers && o == p + 1)
              || (name == "" && (o == |data| || o == |data| - start))
            case Err(_) => true
  {
    var p := start + |EncodeLabels(ls)|;
    var length := |data| - start;
    WalkOverLabels(data, start, ls, [], 0, 0, length);
    var acc := [] + Texts(ls);
    var t := PointerTarget(data[p], data[p + 1]);
    assert Outcome(data, p, acc, 0, 0, length) == Outcome(data, t, acc, 1, p + 1, length);
    ResumeAfterPointer(data, t, acc, 1, p + 1, length);
  }

  // ---------------------------------------------------------------------
  // Every stored label is well formed

  /** Each label the loop stores is 1 to 63 bytes of text, and at most 63 are
      stored; a terminated walk keeps the labels it started with in front. */
  lemma {:induction false} LabelsWellFormed(data: seq<byte>, cursor: nat, labels: seq<string>,
                                            ptr: nat, offset: int, length: int)
    requires ptr <= PointerLimit + 1 && |labels| <= LabelSlots
    requires forall i :: 0 <= i < |labels| ==> WellFormedLabel(labels[i])
    ensures match Outcome(data, cursor, labels, ptr, offset, length)
      case Ok(Terminated(ls, _)) =>
        |ls| <= LabelSlots && labels <= ls && forall i :: 0 <= i < |ls| ==> WellFormedLabel(ls[i])
      case _ => true
    decreases PointerLimit + 1 - ptr, |data| - cursor
  {
    if cursor < |data| {
      var size := data[cursor];
      var next := cursor + 1;
      if size != 0 && KindOf(size) == LabelLength && next != |data| && |labels| < LabelSlots {
        var l := Text(LabelBytes(data, next, size));
        assert WellFormedLabel(l);
        LabelsWellFormed(data, next + LabelAdvance(data, next, size), labels + [l], ptr, offset, length);
      } else if size != 0 && KindOf(size) == PointerStart && ptr <= PointerLimit && next < |data| {
        LabelsWellFormed(data, PointerTarget(size, data[next]), labels, ptr + 1,
                         if ptr == 0 then next else offset, length);
      }
    }
  }

  // ---------------------------------------------------------------------
  // Malformed and out-of-range input after a run of labels

  /** A reserved length octet (top bits 01 or 10) returns "" with the offset
      `len(data) - start`, computed before the loop began. */
  lemma ReservedLengthByte(data: seq<byte>, start: nat, ls: seq<seq<byte>>)
    requires ValidLabels(ls) && |ls| <= LabelSlots && EncodedAt(data, start, EncodeLabels(ls))
    requires start + |EncodeLabels(ls)| < |data|
    requires 0x40 <= data[start + |EncodeLabels(ls)|] < 0xC0
    ensures DomainNameOf(data, start) == Ok(DomainName("", |data| - start))
  {
    WalkOverLabels(data, start, ls, [], 0, 0, |data| - start);
  }

  /** Running out of bytes where a length octet should be returns ("", len(data)). */
  lemma EndOfBufferInName(data: seq<byte>, start: nat, ls: seq<seq<byte>>)
    requires ValidLabels(ls) && |ls| <= LabelSlots && EncodedAt(data, start, EncodeLabels(ls))
    requires start + |EncodeLabels(ls)| == |data|
    ensures DomainNameOf(data, start) == Ok(DomainName("", |data|))
  {
    WalkOverLabels(data, start, ls, [], 0, 0, |data| - start);
  }

  /** A pointer whose target lies at or past the end of the buffer: the
      next iteration finds no length octet and returns ("", len(data)). */
  lemma PointerPastEnd(data: seq<byte>, start: nat, ls: seq<seq<byte>>)
    requires ValidLabels(ls) && |ls| <= LabelSlots && EncodedAt(data, start, EncodeLabels(ls))
    requires var p := start + |EncodeLabels(ls)|;
             p + 1 < |data| && data[p] >= 0xC0 && PointerTarget(data[p], data[p + 1]) >= |data|
    ensures DomainNameOf(data, start) == Ok(DomainName("", |data|))
  {
    var p := start + |EncodeLabels(ls)|;
    var t := PointerTarget(data[p], data[p + 1]);
    var acc := [] + Texts(ls);
    WalkOverLabels(data, start, ls, [], 0, 0, |data| - start);
    assert KindOf(data[p]) == PointerStart;
    assert Outcome(data, p, acc, 0, 0, |data| - start) == Outcome(data, t, acc, 1, p + 1, |data| - start);
    assert Outcome(data, t, acc, 1, p + 1, |data| - start) == Ok(Sentinel("", |data|));
  }

  /** A label cut short by the end of the buffer is read partially, and the
      loop then finds itself at the end: ("", len(data)). */
  lemma TruncatedLabel(data: seq<byte>, start: nat, ls: seq<seq<byte>>)
    requires ValidLabels(ls) && |ls| < LabelSlots && EncodedAt(data, start, EncodeLabels(ls))
    requires var p := start + |EncodeLabels(ls)|;
             p + 1 < |data| && 1 <= data[p] < 0x40 && p + 1 + data[p] > |data|
    ensures DomainNameOf(data, start) == Ok(DomainName("", |data|))
  {
    var p := start + |EncodeLabels(ls)|;
    var acc := [] + Texts(ls);
    WalkOverLabels(data, start, ls, [], 0, 0, |data| - start);
    assert p + 1 + LabelAdvance(data, p + 1, data[p]) == |data|;
    assert Outcome(data, p, acc, 0, 0, |data| - start)
        == Outcome(data, |data|, acc + [Text(LabelBytes(data, p + 1, data[p]))], 0, 0, |data| - start);
  }

  /** A label length octet as the very last byte: `Read` on an empty buffer
      reports io.EOF and the program exits through log.Fatal. */
  lemma LabelLengthAtEnd(data: seq<byte>, start: nat, ls: seq<seq<byte>>)
    requires ValidLabels(ls) && |ls| <= LabelSlots && EncodedAt(data, start, EncodeLabels(ls))
    requires var p := start + |EncodeLabels(ls)|; p + 1 == |data| && 1 <= data[p] < 0x40
    ensures DomainNameOf(data, start) == Err(LabelUnreadable(|data|))
  {
    WalkOverLabels(data, start, ls, [], 0, 0, |data| - start);
  }

  /** A pointer octet as the very last byte: `data[cursor]` panics. */
  lemma PointerAtEnd(data: seq<byte>, start: nat, ls: seq<seq<byte>>)
    requires ValidLabels(ls) && |ls| <= LabelSlots && EncodedAt(data, start, EncodeLabels(ls))
    requires var p := start + |EncodeLabels(ls)|; p + 1 == |data| && data[p] >= 0xC0
    ensures DomainNameOf(data, start) == Err(PointerTruncated(|data|))
  {
    WalkOverLabels(data, start, ls, [], 0, 0, |data| - start);
  }

  /** A 64th label overflows the 63-slot label slice: `labels[63]` panics. */
  lemma SixtyFourthLabel(data: seq<byte>, start: nat, ls: seq<seq<byte>>)
    requires ValidLabels(ls) && |ls| == LabelSlots && EncodedAt(data, start, EncodeLabels(ls))
    requires var p := start + |EncodeLabels(ls)|; p + 1 < |data| && 1 <= data[p] < 0x40
    ensures DomainNameOf(data, start) == Err(TooManyLabels)
  {
    WalkOverLabels(data, start, ls, [], 0, 0, |data| - start);
  }

  // ---------------------------------------------------------------------
  // A name cut off by the end of the buffer

  /** Splitting a cut-off encoding: the buffer ends inside the first part,
      or the first part is whole and the buffer ends inside the second. */
  lemma EndsInsideSplit(data: seq<byte>, at: int, a: seq<byte>, b: seq<byte>)
    requires EndsInside(data, at, a + b)
    ensures |data| < at + |a| ==> EndsInside(data, at, a)
    ensures |data| >= at + |a| ==> EncodedAt(data, at, a) && EndsInside(data, at + |a|, b)
  {
    var n := |data| - at;
    if n < |a| {
      assert (a + b)[..n] == a[..n];
    } else {
      assert data[at..at + |a|] == data[at..][..|a|];
      assert (a + b)[..n][..|a|] == a;
      assert data[at + |a|..] == data[at..][|a|..];
      assert (a + b)[..n][|a|..] == b[..n - |a|];
    }
  }

  /** From any loop state, labels cut off by the end of the buffer end the
      loop either at the top, with ("", len(data)), or on a length octet
      that is the last byte, with the io.EOF log.Fatal. */
  lemma {:induction false} WalkCut(data: seq<byte>, c: nat, ls: seq<seq<byte>>, acc: seq<string>,
                                   ptr: nat, offset: int, length: int)
    requires ValidLabels(ls) && |acc| + |ls| <= LabelSlots && ptr <= PointerLimit + 1
    requires EndsInside(data, c, EncodeName(ls))
    ensures Outcome(data, c, acc, ptr, offset, length) == Ok(Sentinel("", |data|))
         || Outcome(data, c, acc, ptr, offset, length) == Err(LabelUnreadable(|data|))
    decreases ls
  {
    if c < |data| {
      assert ls != [];
      var l := ls[0];
      var rest := ls[1..];
      var next := c + 1 + |l|;
      assert ValidLabel(l);
      assert ValidLabels(rest) by {
        assert forall i :: 0 <= i < |rest| ==> rest[i] == ls[i + 1];
      }
      var head: seq<byte> := [|l| as byte] + l;
      assert EncodeName(ls) == head + EncodeName(rest);
      assert data[c] == |l| by {
        assert data[c..][0] == data[c];
      }
      if c + 1 < |data| {
        if |data| < next {
          assert LabelAdvance(data, c + 1, |l|) == |data| - (c + 1);
          assert Outcome(data, c, acc, ptr, offset, length)
              == Outcome(data, |data|, acc + [Text(LabelBytes(data, c + 1, |l|))], ptr, offset, length);
        } else {
          EndsInsideSplit(data, c, head, EncodeName(rest));
          assert data[c + 1..next] == l by {
            assert data[c + 1..next] == data[c..next][1..];
          }
          WalkOverLabel(data, c, l, acc, ptr, offset, length, next);
          WalkCut(data, next, rest, acc + [Text(l)], ptr, offset, length);
        }
      }
    }
  }

  /** A name cut off by the end of the buffer never yields a label: the
      result is ("", len(data)), or the io.EOF log.Fatal when the last byte
      is a length octet. */
  lemma NameCut(data: seq<byte>, start: nat, ls: seq<seq<byte>>)
    requires ValidLabels(ls) && |ls| <= LabelSlots && EndsInside(data, start, EncodeName(ls))
    ensures DomainNameOf(data, start) == Ok(DomainName("", |data|))
         || DomainNameOf(data, start) == Err(LabelUnreadable(|data|))
  {
    WalkCut(data, start, ls, [], 0, 0, |data| - start);
  }
}
