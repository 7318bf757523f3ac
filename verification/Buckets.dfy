/** One bucket: the record the receiver keeps for a superframe under assembly, and what a bucket
    that has seen some of a superframe's fragments contains. */
module Buckets {
  import opened Wire
  import opened Fragmenter

  /** One byte of a superframe buffer; allocation does not initialise it. */
  datatype Slot = Unset | Byte(b: byte)

  /** The buffer: its allocation, and the size it is announced with. */
  datatype SuperFrame = SuperFrame(frameSize: nat, data: seq<Slot>)

  /** What the receiver remembers per stream from the last type2 packet seen on it. */
  datatype Stream = Stream(content: byte, code: u32)

  const NO_STREAM := Stream(CONTENT_UNKNOWN, UINT32_MAX)

  datatype Bucket = Bucket(
    active: bool,
    content: byte,
    savedNo: u16,
    timeout: int,
    counter: u16,
    ofNo: u16,
    order: u64,
    fragmentSize: nat,
    pts: u64,
    dts: u64,
    code: u32,
    stream: byte,
    source: byte,
    flags: byte,
    received: set<nat>,
    frame: Option<SuperFrame>)

  const FRESH := Bucket(false, CONTENT_UNKNOWN, 0, 0, 0, 0, UINT64_MAX, 0, UINT64_MAX, UINT64_MAX, UINT32_MAX,
                        0, 0, 0, {}, None)

  // ---------------------------------------------------------------------------------------
  // Filling a bucket

  /** Headers whose fields index the stream table and the received-fragment bitset in bounds. */
  predicate InRange(p: Packet) {
    p.header.stream < 255 && 0 <= PositionOf(p.header) < UINT16_MAX
  }

  /** Freshly allocated memory. */
  function Blank(n: nat): (data: seq<Slot>)
    ensures |data| == n
  {
    seq(n, _ => Unset)
  }

  /** Copying bytes into a buffer. */
  function Overlay(data: seq<Slot>, at: nat, bytes: seq<byte>): (r: seq<Slot>)
    ensures |r| == |data|
  {
    seq(|data|, x requires 0 <= x < |data| => if at <= x < at + |bytes| then Byte(bytes[x - at]) else data[x])
  }

  /** The stream table entry after a packet: a type2 packet declares content type and code. */
  function Declared(st: Stream, p: Packet): Stream {
    if p.header.Type2? then Stream(p.header.content, p.header.code) else st
  }

  /** The payload bytes a packet contributes. */
  function Carried(p: Packet): seq<byte> {
    if p.header.Type2? && p.header.sizeOfData <= |p.payload| then p.payload[..p.header.sizeOfData] else p.payload
  }

  /** Buffer size when this packet opens the bucket. */
  function Reserved(p: Packet): nat
    requires InRange(p)
  {
    match p.header
    case Type1(_, _, _, _, of) => Strides(|p.payload|, of + 1)
    case Type2(_, _, _, size, _, of, stride, _, _, _) => Strides(stride, of) + size
    case Type3(_, _, _, stride, of) => Strides(stride, of - 1) + |p.payload|
  }

  function AnnouncedStride(p: Packet): nat {
    match p.header
    case Type1(_, _, _, _, _) => |p.payload|
    case Type2(_, _, _, _, _, _, stride, _, _, _) => stride
    case Type3(_, _, _, stride, _) => stride
  }

  /** The bucket a packet opens, before its bytes are copied. `st` is the stream's table entry,
      already updated. */
  function Prepared(st: Stream, p: Packet, source: byte, order: u64, timeout: int): Bucket
    requires InRange(p)
  {
    var h := p.header;
    var stride := AnnouncedStride(p);
    Bucket(
      true, st.content, h.superFrameNo, timeout, 0, h.ofFragmentNo, order, stride,
      if h.Type2? then h.pts else UINT64_MAX,
      if h.Type2? then DecodedDts(h.pts, h.dtsPtsDiff) else UINT64_MAX,
      st.code, h.stream, source, FlagBits(h.frameType), {PositionOf(h)},
      Some(SuperFrame(if h.Type1? then Strides(stride, h.ofFragmentNo) else Reserved(p), Blank(Reserved(p)))))
  }

  /** The bucket after a packet opened it. */
  function Opened(st: Stream, p: Packet, source: byte, order: u64, timeout: int): Bucket
    requires InRange(p)
  {
    var b := Prepared(st, p, source, order, timeout);
    var frame := b.frame.value;
    b.(frame := Some(frame.(data := Overlay(frame.data, Strides(AnnouncedStride(p), PositionOf(p.header)),
                                            Carried(p)))))
  }

  /** Where a packet for an open bucket is copied to. */
  function InsertAt(b: Bucket, p: Packet): nat
    requires InRange(p)
  {
    Strides(if p.header.Type2? then p.header.type1PacketSize else b.fragmentSize, PositionOf(p.header))
  }

  /** The buffer after a packet for an open bucket that has not seen its position yet. */
  function FilledFrame(b: Bucket, p: Packet): SuperFrame
    requires InRange(p) && b.frame.Some?
  {
    var frame := b.frame.value;
    var data := Overlay(frame.data, InsertAt(b, p), Carried(p));
    match p.header
    case Type1(_, _, _, _, _) => SuperFrame(frame.frameSize, data)
    case Type2(_, _, _, size, _, of, _, _, _, _) =>
      if size == 0 then frame else SuperFrame(Strides(b.fragmentSize, of) + size, data)
    case Type3(_, _, _, _, of) => SuperFrame(Strides(b.fragmentSize, of - 1) + |p.payload|, data)
  }

  function Filled(b: Bucket, p: Packet): Bucket
    requires InRange(p) && b.frame.Some?
  {
    var h := p.header;
    var b1 := b.(received := b.received + {PositionOf(h)},
                 counter := Low16(b.counter + 1),
                 frame := Some(FilledFrame(b, p)));
    if h.Type2? then
      b1.(pts := h.pts, dts := DecodedDts(h.pts, h.dtsPtsDiff), code := h.code, content := h.content,
          stream := h.stream, flags := FlagBits(h.frameType))
    else b1
  }

  /** The copy a packet causes stays inside the buffer. */
  predicate CopyFits(data: seq<Slot>, at: nat, bytes: seq<byte>) {
    bytes != [] ==> at + |bytes| <= |data|
  }

  // ---------------------------------------------------------------------------------------
  // Counting fragments

  /** All positions up to the last. */
  function Positions(last: nat): set<nat> {
    if last == 0 then {0} else Positions(last - 1) + {last}
  }

  lemma {:induction false} PositionsAre(last: nat)
    ensures forall i: nat :: i in Positions(last) <==> i <= last
    ensures |Positions(last)| == last + 1
  {
    if last > 0 {
      PositionsAre(last - 1);
    }
  }

  lemma SubsetSize<T>(a: set<T>, b: set<T>)
    requires a <= b
    ensures |a| <= |b| && (|a| == |b| ==> a == b)
  {
    assert b == a + (b - a);
  }

  /** The fragment counter counts the received set, which names only fragments that exist. */
  ghost predicate Counted(b: Bucket) {
    b.received != {} && b.counter + 1 == |b.received|
    && forall i :: i in b.received ==> i <= b.ofNo && i < UINT16_MAX
  }

  predicate Complete(b: Bucket) {
    b.counter == b.ofNo
  }

  /** The counter reaches the number of the last fragment exactly when every fragment is there. */
  lemma CompleteIffAll(b: Bucket)
    requires Counted(b)
    ensures Complete(b) <==> b.received == Positions(b.ofNo)
  {
    PositionsAre(b.ofNo);
    SubsetSize(b.received, Positions(b.ofNo));
  }

  lemma OpenedCounted(st: Stream, p: Packet, source: byte, order: u64, timeout: int)
    requires InRange(p) && PositionOf(p.header) <= p.header.ofFragmentNo
    ensures Counted(Opened(st, p, source, order, timeout))
  {
  }

  lemma BelowLimit(s: set<nat>, limit: nat)
    requires forall i :: i in s ==> i <= limit
    ensures |s| <= limit + 1
  {
    PositionsAre(limit);
    SubsetSize(s, Positions(limit));
  }

  lemma FilledCounted(b: Bucket, p: Packet)
    requires InRange(p) && b.frame.Some? && Counted(b)
    requires PositionOf(p.header) <= b.ofNo && PositionOf(p.header) !in b.received
    ensures Counted(Filled(b, p)) && Filled(b, p).counter == b.counter + 1
  {
    BelowLimit(b.received, UINT16_MAX - 1);
  }

  // ---------------------------------------------------------------------------------------
  // A bucket that has seen some fragments of one superframe

  /** What slot x of the buffer holds once the fragments in `got` have arrived. */
  function SlotOf(f: Media, mtu: Mtu, got: set<nat>, x: nat): Slot {
    var n := |f.payload|;
    if x < n && Stride(n, mtu) > 0 && Whole(x, Stride(n, mtu)) in got then Byte(f.payload[x]) else Unset
  }

  /** The announced size: the true one once the last fragment that carries data is in, or if the
      data ends where that fragment would; a multiple of the stride before that. */
  function ExpectedSize(n: nat, mtu: Mtu, got: set<nat>): nat {
    var last := LastPosition(n, mtu);
    var full := Strides(Stride(n, mtu), last);
    if (full < n && last in got) || (full > n && last - 1 in got) then n else full
  }

  /** The bucket holds the fragments of f whose positions are in its received set, and is
      otherwise determined by f. */
  ghost predicate Reassembles(b: Bucket, f: Media, no: u16, mtu: Mtu) {
    var n := |f.payload|;
    var last := LastPosition(n, mtu);
    && b.active && b.savedNo == no && b.ofNo == last && b.fragmentSize == Stride(n, mtu)
    && Counted(b)
    && b.flags == FlagBits(f.flags) && b.stream == f.stream
    && b.frame.Some?
    && b.frame.value.frameSize == ExpectedSize(n, mtu, b.received)
    && |b.frame.value.data| >= n && |b.frame.value.data| >= b.frame.value.frameSize
    && (forall x :: 0 <= x < |b.frame.value.data| ==> b.frame.value.data[x] == SlotOf(f, mtu, b.received, x))
    && (if last in b.received
        then b.pts == f.pts && b.dts == f.dts && b.code == f.code && b.content == f.content
        else b.pts == UINT64_MAX && b.dts == UINT64_MAX)
  }

  /** One fragment's bytes land in exactly the slots of its chunk. */
  lemma OverlaySlot(f: Media, mtu: Mtu, got: set<nat>, i: nat, data: seq<Slot>, at: nat, x: nat)
    requires |f.payload| <= MaxPayload(mtu) && x < |data|
    requires data[x] == SlotOf(f, mtu, got, x)
    requires Chunk(f.payload, mtu, i) != [] ==> at == Strides(Stride(|f.payload|, mtu), i)
    ensures Overlay(data, at, Chunk(f.payload, mtu, i))[x] == SlotOf(f, mtu, got + {i}, x)
  {
    var n := |f.payload|;
    var stride := Stride(n, mtu);
    var chunk := Chunk(f.payload, mtu, i);
    StridesGrow(stride, i, i + 1);
    if x < n && stride > 0 {
      WholeAt(x, stride, i);
    }
    if chunk != [] {
      assert at == ChunkStart(n, mtu, i);
    }
  }

  lemma FragmentFacts(f: Media, no: u16, mtu: Mtu, i: nat)
    requires Accepted(f, mtu) && i <= LastPosition(|f.payload|, mtu)
    ensures var p := FragmentAt(f, no, mtu, i);
            var n := |f.payload|;
            var last := LastPosition(n, mtu);
            var stride := Stride(n, mtu);
            && WellLabelled(p, f, no, mtu, i)
            && (InRange(p) <==> f.stream < 255)
            && Carried(p) == p.payload == Chunk(f.payload, mtu, i)
            && AnnouncedStride(p) == stride
            && (p.header.Type2? <==> i == last)
            && (p.payload != [] ==> Strides(stride, i) + |p.payload| == ChunkStart(n, mtu, i + 1) <= n)
            && (p.header.Type1? ==> Strides(stride, i + 1) <= n)
            && (p.header.Type2? ==>
                 && p.header.pts == f.pts && DecodedDts(p.header.pts, p.header.dtsPtsDiff) == f.dts
                 && p.header.code == f.code && p.header.content == f.content
                 && p.header.type1PacketSize == stride
                 && p.header.sizeOfData == |p.payload|
                 && (Strides(stride, last) <= n ==> |p.payload| == n - Strides(stride, last))
                 && (Strides(stride, last) > n ==> p.payload == []))
            && (p.header.Type3? ==>
                 && p.header.type1PacketSize == stride && i == last - 1
                 && Strides(stride, last) > n && Strides(stride, i) + |p.payload| == n)
  {
    FragmentLabels(f, no, mtu, i);
    Shape(|f.payload|, mtu);
    ChunksGrow(|f.payload|, mtu, i, i + 1);
    if i < Type1Count(|f.payload|, mtu) {
      ChunkStartExact(|f.payload|, mtu, i);
      ChunkStartExact(|f.payload|, mtu, i + 1);
    }
  }
}
