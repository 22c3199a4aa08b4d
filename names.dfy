/** The name decoder of dns2tcp.go (`getDomainName`): reads length-prefixed
    labels starting at a byte offset, follows compression pointers
    (section 4.1.4 of RFC 1035), and returns the dot-joined name with the
    offset where the enclosing record continues.

    `Walk` is the specification: one call per iteration of the Go loop,
    carrying the loop's state (cursor, labels so far, pointers followed,
    saved offset). `GetDomainName` is the loop itself, proved equal to it. */
module NameDecoder {
  import opened Wire
  import opened Bits

  /** The pointer branch gives up once `ptr > 10`: eleven hops are followed. */
  const PointerLimit: nat := 10
  /** `labels := make([]string, 63)` */
  const LabelSlots: nat := 63
  /** The name returned when the hop cap is hit. */
  const TooManyPointers: string := "Too many compression pointers"

  /** What `getDomainName` returns: the name and the offset to resume at. */
  datatype DomainName = DomainName(name: string, offset: int)

  /** How the label loop ended: at a zero length byte (`break Loop`), with the
      labels read and the offset the function will return; or at one of the
      early `return`s, each of which hands back a fixed name. */
  datatype NameEnd =
    | Terminated(labels: seq<string>, resume: int)
    | Sentinel(name: string, offset: int)

  /** The three arms of `switch labelsize & 0xC0`. */
  datatype LengthKind = LabelLength | PointerStart | Reserved

  /** The arm `switch labelsize & 0xC0` picks, read off the value of the
      length octet; `KindMatchesMask` proves it is the arm the mask selects. */
  function KindOf(size: byte): LengthKind
  {
    if size < 0x40 then LabelLength
    else if size >= 0xC0 then PointerStart
    else Reserved
  }

  /** Case 0x00 of the switch is taken exactly for labels, case 0xC0 exactly
      for pointers, and the default for the two reserved patterns. */
  lemma KindMatchesMask(size: byte)
    ensures KindOf(size) == LabelLength <==> And(size, 0xC0) == 0x00
    ensures KindOf(size) == PointerStart <==> And(size, 0xC0) == 0xC0
    ensures KindOf(size) == Reserved <==> And(size, 0xC0) == 0x40 || And(size, 0xC0) == 0x80
  {
    TopBits(size);
    var q := size / 64;
    if q == 0 {
      assert size < 0x40 && And(size, 0xC0) == 0;
    } else if q == 1 {
      assert 0x40 <= size < 0x80 && And(size, 0xC0) == 0x40;
    } else if q == 2 {
      assert 0x80 <= size < 0xC0 && And(size, 0xC0) == 0x80;
    } else {
      assert q == 3;
      assert size >= 0xC0 && And(size, 0xC0) == 0xC0;
    }
  }

  /** `b & 0xC0` keeps the value of the two top bits of an octet, in place. */
  lemma TopBits(b: byte)
    ensures And(b, 0xC0) == (b / 64) * 64
  {
    var q := b / 64;
    ShlMul(q, 6);
    ShrPastLow(q, b % 64, 6);
    AndShl(b, 3, 6);
    assert And(q, 3) == q by {
      assert q == 0 || q == 1 || q == 2 || q == 3;
    }
  }

  /** `strings.Join(labels, ".")` */
  function Join(labels: seq<string>): string
  {
    if |labels| == 0 then ""
    else if |labels| == 1 then labels[0]
    else labels[0] + "." + Join(labels[1..])
  }

  /** The jump target of a pointer whose first byte is `hi` and second `lo`:
      the 14-bit offset made of the low six bits of `hi` followed by `lo`.
      `PointerTargetMatchesGo` proves it is Go's `(int(hi) ^ 0xC0) << 8 | int(lo)`. */
  function PointerTarget(hi: byte, lo: byte): (t: nat)
    requires hi >= 0xC0
    ensures t < 0x4000
  {
    (hi - 0xC0) * 0x100 + lo
  }

  lemma PointerTargetMatchesGo(hi: byte, lo: byte)
    requires hi >= 0xC0
    ensures PointerTarget(hi, lo) == Or(Shl(Xor(hi, 0xC0), 8), lo)
  {
    KindMatchesMask(hi);
    XorSubset(hi, 0xC0);
    ShlMul(hi - 0xC0, 8);
    OrBelowShift(hi - 0xC0, lo, 8);
  }

  /** The bytes a label of declared length `size` ends up holding:
      `make([]byte, size)` filled by `bytes.Buffer.Read`, which copies what
      is left of the buffer up to `size` bytes; the rest stays zero. */
  function LabelBytes(data: seq<byte>, at: nat, size: nat): (l: seq<byte>)
    requires at <= |data|
    ensures |l| == size
    ensures l[..LabelAdvance(data, at, size)] == data[at..at + LabelAdvance(data, at, size)]
    ensures l[LabelAdvance(data, at, size)..] == Zeros(size - LabelAdvance(data, at, size))
  {
    var got := if size <= |data| - at then size else |data| - at;
    data[at..at + got] + Zeros(size - got)
  }

  /** How far `bytes.Buffer.Read` advances over a label of `size` bytes at
      `at`: the whole label, or up to the end of the buffer when that comes
      first. */
  function LabelAdvance(data: seq<byte>, at: nat, size: nat): (got: nat)
    requires at <= |data|
    ensures got <= size && at + got <= |data|
    ensures got == size || at + got == |data|
  {
    if size <= |data| - at then size else |data| - at
  }

  /** The Go loop from the state (cursor, labels, ptr, offset) on; `length`
      is `len(data[start:])`, fixed when the call began. */
  function Walk(data: seq<byte>, cursor: nat, labels: seq<string>, ptr: nat, offset: int, length: int): Result<NameEnd>
    requires ptr <= PointerLimit + 1
    decreases PointerLimit + 1 - ptr, |data| - cursor
  {
    if cursor >= |data| then Ok(Sentinel("", |data|))
    else
      var size := data[cursor];
      var next := cursor + 1;
      if size == 0 then
        Ok(Terminated(labels, if ptr != 0 then offset + 1 else next))
      else if KindOf(size) == LabelLength then
        if next == |data| then Err(LabelUnreadable(next))
        else if |labels| >= LabelSlots then Err(TooManyLabels)
        else
          Walk(data, next + LabelAdvance(data, next, size),
               labels + [Text(LabelBytes(data, next, size))], ptr, offset, length)
      else if KindOf(size) == PointerStart then
        var saved := if ptr == 0 then next else offset;
        if ptr > PointerLimit then Ok(Sentinel(TooManyPointers, saved))
        else if next >= |data| then Err(PointerTruncated(next))
        else Walk(data, PointerTarget(size, data[next]), labels, ptr + 1, saved, length)
      else
        Ok(Sentinel("", length))
  }

  /** One label iteration of the loop: the label is stored and the cursor
      moves past what `Read` copied. */
  lemma LabelStep(data: seq<byte>, cursor: nat, labels: seq<string>, ptr: nat, offset: int, length: int)
    requires ptr <= PointerLimit + 1 && cursor + 1 < |data| && |labels| < LabelSlots
    requires data[cursor] != 0 && KindOf(data[cursor]) == LabelLength
    ensures Walk(data, cursor, labels, ptr, offset, length)
            == Walk(data, cursor + 1 + LabelAdvance(data, cursor + 1, data[cursor]),
                    labels + [Text(LabelBytes(data, cursor + 1, data[cursor]))], ptr, offset, length)
  {
  }

  /** `getDomainName(data, start)` */
  function DomainNameOf(data: seq<byte>, start: int): Result<DomainName>
  {
    if start < 0 || start > |data| then Err(StartOutOfRange(start))
    else
      match Walk(data, start, [], 0, 0, |data| - start)
      case Err(f) => Err(f)
      case Ok(Terminated(labels, resume)) => Ok(DomainName(Join(labels), resume))
      case Ok(Sentinel(name, offset)) => Ok(DomainName(name, offset))
  }

  /** The labelled `for` loop of `getDomainName`, over a pre-allocated
      63-slot label array. Go decrements `n` in the pointer branch and the
      loop's post statement increments it again; here `n` is simply left
      alone on that path. */
  method GetDomainName(data: seq<byte>, start: int) returns (r: Result<DomainName>)
    ensures r == DomainNameOf(data, start)
  {
    if start < 0 || start > |data| {
      return Err(StartOutOfRange(start));
    }
    var length := |data| - start;
    ghost var goal := Walk(data, start, [], 0, 0, length);
    var labels := new string[LabelSlots];
    var cursor: nat, n: nat, ptr: nat, offset: int := start, 0, 0, 0;
    while true
      invariant n <= LabelSlots && ptr <= PointerLimit + 1
      invariant Walk(data, cursor, labels[..n], ptr, offset, length) == goal
      decreases PointerLimit + 1 - ptr, |data| - cursor
    {
      if cursor >= |data| {
        return Ok(DomainName("", |data|));
      }
      var size := data[cursor];
      cursor := cursor + 1;
      if size == 0 {
        break;
      }
      var kind := KindOf(size);
      if kind == LabelLength {
        if cursor == |data| {
          return Err(LabelUnreadable(cursor));
        }
        var got := LabelAdvance(data, cursor, size);
        if n >= LabelSlots {
          return Err(TooManyLabels);
        }
        labels[n] := Text(LabelBytes(data, cursor, size));
        LabelStep(data, cursor - 1, labels[..n], ptr, offset, length);
        assert labels[..n + 1] == labels[..n] + [labels[n]];
        cursor := cursor + got;
        n := n + 1;
      } else if kind == PointerStart {
        if ptr == 0 {
          offset := cursor;
        }
        if ptr > PointerLimit {
          return Ok(DomainName(TooManyPointers, offset));
        }
        ptr := ptr + 1;
        if cursor >= |data| {
          return Err(PointerTruncated(cursor));
        }
        var c1 := data[cursor];
        cursor := PointerTarget(size, c1);
      } else {
        return Ok(DomainName("", length));
      }
    }
    var name := Join(labels[..n]);
    if ptr != 0 {
      return Ok(DomainName(name, offset + 1));
    }
    return Ok(DomainName(name, cursor));
  }
}
