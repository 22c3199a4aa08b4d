/** The vocabulary shared by both decoders: octets and machine integers,
    the ways the Go program stops instead of returning, and the fixed-width
    big-endian reads it performs with `encoding/binary`. */
module Wire {

  /** Go `byte` */
  type byte = x: int | 0 <= x < 0x100
  /** Go `uint16` */
  type u16 = x: int | 0 <= x < 0x1_0000
  /** Go `uint32` */
  type u32 = x: int | 0 <= x < 0x1_0000_0000

  /** Every point where the Go decoder would not return: a runtime panic or
      a `log.Fatal`. None of them is reachable as a return value in Go; here
      each is an explicit outcome, so `Ok` is exactly "the Go call returned". */
  datatype Fault =
    | FieldTooShort(at: int)  // BigEndian.Uint16/Uint32 on data[at:] that is too short: panic
    | StartOutOfRange(at: int)// the slice data[cursor:] at the top of getDomainName: panic
    | PointerTruncated(at: int) // data[cursor] for the second pointer byte past the end: panic
    | TooManyLabels           // labels[n] with n == 63 in the 63-slot slice: panic
    | LabelUnreadable(at: int)  // bytes.Buffer.Read on an empty remainder returns io.EOF: log.Fatal
    | RdataTruncated(at: int)   // binary.Read of Rdlength bytes from a shorter remainder: log.Fatal

  datatype Result<+T> = Ok(value: T) | Err(fault: Fault) {
    predicate IsFailure() {
      Err?
    }

    function PropagateFailure<U>(): Result<U>
      requires Err?
    {
      Err(fault)
    }

    function Extract(): T
      requires Ok?
    {
      value
    }
  }

  /** `binary.BigEndian.Uint16(data[at:])`: the slice and the two-byte read
      either succeed together or panic. */
  function ReadU16(data: seq<byte>, at: int): (r: Result<u16>)
    ensures r.Ok? <==> 0 <= at && at + 2 <= |data|
    ensures r.Err? ==> r.fault == FieldTooShort(at)
    ensures r.Ok? ==> r.value == data[at] as int * 0x100 + data[at + 1] as int
  {
    if 0 <= at && at + 2 <= |data| then Ok(data[at] as int * 0x100 + data[at + 1] as int)
    else Err(FieldTooShort(at))
  }

  /** `binary.BigEndian.Uint32(data[at:])` */
  function ReadU32(data: seq<byte>, at: int): (r: Result<u32>)
    ensures r.Ok? <==> 0 <= at && at + 4 <= |data|
    ensures r.Err? ==> r.fault == FieldTooShort(at)
    ensures r.Ok? ==> r.value == ((data[at] as int * 0x100 + data[at + 1] as int) * 0x100 + data[at + 2] as int) * 0x100 + data[at + 3] as int
  {
    if 0 <= at && at + 4 <= |data| then
      Ok(((data[at] as int * 0x100 + data[at + 1] as int) * 0x100 + data[at + 2] as int) * 0x100 + data[at + 3] as int)
    else Err(FieldTooShort(at))
  }

  /** Go's `string(b)` for a byte slice: a Go string is a sequence of bytes,
      rendered here as the characters with the same code points. */
  function Text(bs: seq<byte>): (s: string)
    ensures |s| == |bs|
    ensures forall i :: 0 <= i < |bs| ==> s[i] as int == bs[i]
  {
    seq(|bs|, i requires 0 <= i < |bs| => bs[i] as char)
  }

  /** `make([]byte, n)`: n zero bytes. */
  function Zeros(n: nat): (z: seq<byte>)
    ensures |z| == n
    ensures forall i :: 0 <= i < n ==> z[i] == 0
  {
    seq(n, _ => 0)
  }

  /** `Itob`: a 16-bit value read as a Go bool, true exactly when it is nonzero. */
  function Itob(x: u16): (b: bool)
    ensures b <==> x != 0
  {
    if x == 0 then false else true
  }
}
