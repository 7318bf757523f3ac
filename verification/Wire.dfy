/** Machine integers, result codes and packet headers shared by the sender and the receiver.

    A header is a record of known length; its fields are read and written as a record, the way
    the program does it through a pointer cast. Raw memory and send buffers are sequences of
    `Cell`s: a cell holds one payload byte or one byte of a header record. */
module Wire {

  const TWO16 := 0x1_0000
  const TWO32 := 0x1_0000_0000
  const TWO64 := 0x1_0000_0000_0000_0000
  const UINT16_MAX := TWO16 - 1
  const UINT32_MAX := TWO32 - 1
  const UINT64_MAX := TWO64 - 1

  type byte = n: nat | n < 256
  type u16 = n: nat | n < TWO16
  type u32 = n: nat | n < TWO32
  type u64 = n: nat | n < TWO64

  /** The cast to 16 bits. */
  function Low16(a: nat): u16 {
    if a < TWO16 then a else a % TWO16
  }

  /** Incrementing a 16-bit counter. */
  function Next16(a: u16): u16 {
    if a == UINT16_MAX then 0 else a + 1
  }

  /** Incrementing a 64-bit counter. */
  function Next64(a: u64): u64 {
    if a == UINT64_MAX then 0 else a + 1
  }

  /** Unsigned 64-bit subtraction. */
  function Sub64(a: u64, b: u64): u64 {
    (a - b) % TWO64
  }

  /** Unsigned 64-bit addition. */
  function Add64(a: u64, b: int): u64 {
    (a + b) % TWO64
  }

  // ---------------------------------------------------------------------------------------
  // Products and quotients of sizes that are both unknown

  /** count * stride. */
  function Strides(stride: nat, count: nat): nat {
    if count == 0 then 0 else Strides(stride, count - 1) + stride
  }

  lemma {:induction false} StridesIsProduct(stride: nat, count: nat)
    ensures Strides(stride, count) == count * stride
  {
    if count > 0 {
      StridesIsProduct(stride, count - 1);
      assert count * stride == (count - 1) * stride + stride;
    }
  }

  lemma {:induction false} StridesGrow(stride: nat, i: nat, j: nat)
    requires i <= j
    ensures Strides(stride, i) <= Strides(stride, j)
    ensures i < j ==> Strides(stride, i) + stride <= Strides(stride, j)
    decreases j
  {
    if i < j {
      StridesGrow(stride, i, j - 1);
    }
  }

  /** n / stride. */
  function Whole(n: nat, stride: nat): (q: nat)
    requires stride > 0
    ensures Strides(stride, q) <= n < Strides(stride, q) + stride
  {
    if n < stride then 0 else Whole(n - stride, stride) + 1
  }

  /** A point lies in the stride its quotient names and in no other. */
  lemma WholeAt(n: nat, stride: nat, q: nat)
    requires stride > 0
    ensures Whole(n, stride) == q <==> Strides(stride, q) <= n < Strides(stride, q + 1)
  {
    var w := Whole(n, stride);
    if q < w {
      StridesGrow(stride, q, w);
    } else if w < q {
      StridesGrow(stride, w, q);
    }
  }

  lemma WholeIsQuotient(n: nat, stride: nat)
    requires stride > 0
    ensures Whole(n, stride) == n / stride
  {
    var q := n / stride;
    StridesIsProduct(stride, q);
    assert n == q * stride + n % stride;
    WholeAt(n, stride, q);
  }

  // ---------------------------------------------------------------------------------------
  // Result codes

  datatype Message =
    | NoError
    | ReservedPTSValue
    | ReservedDTSValue
    | ReservedCodeValue
    | ReservedStreamValue
    | DtsPtsDiffTooLarge
    | TooLargeFrame
    | InternalCalculationError
    | TooOldFragment
    | DuplicatePacketReceived
    | BufferOutOfResources
    | BufferOutOfBounds
    | Type2FrameOutOfBounds
    | FrameSizeMismatch
    | Type0Frame
    | UnknownFrameType
    | ReceiverNotRunning
    | TooLargeEmbeddedData
    | IllegalEmbeddedData

  // ---------------------------------------------------------------------------------------
  // Header records

  const TYPE1_HEADER := 8
  const TYPE3_HEADER := 8

  /** The fields of the type2 record take 27 bytes, and more when the compiler pads them; nothing
      below depends on the exact figure. */
  type Type2HeaderSize = n: nat | 27 <= n <= 100 witness 27
  const TYPE2_HEADER: Type2HeaderSize

  const CONTENT_UNKNOWN: byte := 0x00
  const CONTENT_EFPSIG: byte := 0x80

  datatype Header =
    | Type1(frameType: byte, stream: byte, superFrameNo: u16, fragmentNo: u16, ofFragmentNo: u16)
    | Type2(frameType: byte, stream: byte, content: byte, sizeOfData: u16, superFrameNo: u16,
            ofFragmentNo: u16, type1PacketSize: u16, pts: u64, dtsPtsDiff: u32, code: u32)
    | Type3(frameType: byte, stream: byte, superFrameNo: u16, type1PacketSize: u16,
            ofFragmentNo: u16)

  /** The low nibble of the first byte says how the rest of the header is laid out. */
  function Nibble(frameType: byte): byte {
    frameType % 16
  }

  /** The high nibble carries the caller's flags. */
  function FlagBits(frameType: byte): byte {
    frameType - frameType % 16
  }

  /** The record a header is read as is the one its first byte announces. */
  predicate Announced(h: Header) {
    match Nibble(h.frameType)
    case 1 => h.Type1?
    case 2 => h.Type2?
    case 3 => h.Type3?
    case _ => true
  }

  function HeaderSize(h: Header): nat {
    match h
    case Type1(_, _, _, _, _) => TYPE1_HEADER
    case Type2(_, _, _, _, _, _, _, _, _, _) => TYPE2_HEADER
    case Type3(_, _, _, _, _) => TYPE3_HEADER
  }

  datatype Packet = Packet(header: Header, payload: seq<byte>)

  function PacketSize(p: Packet): nat {
    HeaderSize(p.header) + |p.payload|
  }

  // ---------------------------------------------------------------------------------------
  // Memory

  datatype Cell = Data(b: byte) | Head(h: Header, at: nat)

  function HeaderCells(h: Header): (cells: seq<Cell>)
    ensures |cells| == HeaderSize(h)
  {
    seq(HeaderSize(h), i requires 0 <= i < HeaderSize(h) => Head(h, i))
  }

  function DataCells(bytes: seq<byte>): (cells: seq<Cell>)
    ensures |cells| == |bytes|
  {
    seq(|bytes|, i requires 0 <= i < |bytes| => Data(bytes[i]))
  }

  /** The bytes a packet occupies on the wire: header record, then payload. */
  function Encode(p: Packet): (cells: seq<Cell>)
    ensures |cells| == PacketSize(p)
  {
    HeaderCells(p.header) + DataCells(p.payload)
  }

  datatype Option<+T> = None | Some(value: T)

  /** Reads a packet back: a complete header record followed by payload bytes only. */
  function Decode(cells: seq<Cell>): Option<Packet> {
    if cells == [] || !cells[0].Head? then None
    else
      var h := cells[0].h;
      var size := HeaderSize(h);
      if |cells| < size || cells[..size] != HeaderCells(h) then None
      else if exists i :: size <= i < |cells| && !cells[i].Data? then None
      else Some(Packet(h, seq(|cells| - size, i requires 0 <= i < |cells| - size => cells[size + i].b)))
  }

  /** What the receiver reads is what the sender wrote, and nothing else reads as that packet. */
  lemma DecodeInvertsEncode(cells: seq<Cell>, p: Packet)
    ensures Decode(cells) == Some(p) <==> cells == Encode(p)
  {
    var size := HeaderSize(p.header);
    if cells == Encode(p) {
      assert cells[0] == HeaderCells(p.header)[0];
      assert cells[..size] == HeaderCells(p.header);
      assert forall i :: 0 <= i < |p.payload| ==> cells[size + i] == DataCells(p.payload)[i];
      assert forall i :: size <= i < |cells| ==> cells[i] == DataCells(p.payload)[i - size];
      assert Decode(cells).Some?;
      assert Decode(cells).value.payload == p.payload;
    }
    if Decode(cells) == Some(p) {
      assert cells == cells[..size] + cells[size..];
      assert cells[size..] == DataCells(p.payload);
    }
  }
}
