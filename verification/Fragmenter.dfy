/** What the sender puts on the wire for one superframe: the specification both send methods are
    proved against, and the facts about it the receiver relies on.

    Positions number the fragments of a superframe 0, 1, .., LastPosition: type1 packets first,
    then at most one type3 packet, and always one closing type2 packet. */
module Fragmenter {
  import opened Wire

  /** One call's arguments, apart from the sender's own state. */
  datatype Media = Media(payload: seq<byte>, content: byte, pts: u64, dts: u64, code: u32,
                         stream: byte, flags: byte)

  type Mtu = m: nat | 255 <= m <= 65535 witness 255

  // ---------------------------------------------------------------------------------------
  // Sizes and positions

  /** Payload bytes in a type1 packet. */
  function Type1Payload(mtu: Mtu): nat {
    mtu - TYPE1_HEADER
  }

  function Type2Payload(mtu: Mtu): nat {
    mtu - TYPE2_HEADER
  }

  /** Largest superframe the sender accepts. */
  function MaxPayload(mtu: Mtu): nat {
    Type1Payload(mtu) * (UINT16_MAX - 1) + Type2Payload(mtu)
  }

  predicate FitsOnePacket(n: nat, mtu: Mtu) {
    n + TYPE2_HEADER <= mtu
  }

  function Type1Count(n: nat, mtu: Mtu): nat {
    if FitsOnePacket(n, mtu) then 0 else Whole(n, Type1Payload(mtu))
  }

  /** The bytes left after the type1 packets do not fit a type2 packet. */
  predicate NeedsType3(n: nat, mtu: Mtu) {
    !FitsOnePacket(n, mtu) && n - Strides(Type1Payload(mtu), Type1Count(n, mtu)) > Type2Payload(mtu)
  }

  function LastPosition(n: nat, mtu: Mtu): nat {
    Type1Count(n, mtu) + if NeedsType3(n, mtu) then 1 else 0
  }

  /** Distance between the payload offsets of neighbouring fragments, as a receiver learns it:
      a superframe sent in one packet announces its own size. */
  function Stride(n: nat, mtu: Mtu): nat {
    if FitsOnePacket(n, mtu) then n else Type1Payload(mtu)
  }

  function Min(a: nat, b: nat): nat {
    if a < b then a else b
  }

  /** Payload offset at which the fragment at position i starts; it ends where i + 1 starts. */
  function ChunkStart(n: nat, mtu: Mtu, i: nat): (at: nat)
    ensures at <= n
  {
    Min(Strides(Stride(n, mtu), i), n)
  }

  function Chunk(payload: seq<byte>, mtu: Mtu, i: nat): (chunk: seq<byte>)
    ensures |chunk| == ChunkStart(|payload|, mtu, i + 1) - ChunkStart(|payload|, mtu, i)
  {
    ChunksGrow(|payload|, mtu, i, i + 1);
    payload[ChunkStart(|payload|, mtu, i)..ChunkStart(|payload|, mtu, i + 1)]
  }

  lemma ChunksGrow(n: nat, mtu: Mtu, i: nat, j: nat)
    requires i <= j
    ensures ChunkStart(n, mtu, i) <= ChunkStart(n, mtu, j)
  {
    StridesGrow(Stride(n, mtu), i, j);
  }

  /** The number of type1 packets is bounded by the 16-bit fragment counter, and at the bound there
      is no room for a type3 packet. */
  lemma CountBound(n: nat, mtu: Mtu, bound: nat)
    requires n <= MaxPayload(mtu) && bound == UINT16_MAX - 1
    ensures Type1Count(n, mtu) <= bound
    ensures Type1Count(n, mtu) == bound ==> !NeedsType3(n, mtu)
  {
    var stride := Type1Payload(mtu);
    var q := Type1Count(n, mtu);
    StridesIsProduct(stride, bound);
    if q > bound {
      StridesGrow(stride, bound, q);
    }
  }

  /** The sizes of the pieces, for every size and MTU the sender accepts. */
  lemma Shape(n: nat, mtu: Mtu)
    requires n <= MaxPayload(mtu)
    ensures LastPosition(n, mtu) <= UINT16_MAX - 1
    ensures Strides(Stride(n, mtu), Type1Count(n, mtu)) <= n
    ensures ChunkStart(n, mtu, LastPosition(n, mtu) + 1) == n
    ensures NeedsType3(n, mtu) <==> Strides(Stride(n, mtu), LastPosition(n, mtu)) > n
    ensures n - ChunkStart(n, mtu, LastPosition(n, mtu)) <= Type2Payload(mtu)
  {
    var stride := Stride(n, mtu);
    var q := Type1Count(n, mtu);
    CountBound(n, mtu, UINT16_MAX - 1);
    assert Strides(stride, q) <= n <= Strides(stride, q) + stride == Strides(stride, q + 1);
    if NeedsType3(n, mtu) {
      assert Strides(stride, q + 2) == Strides(stride, q + 1) + stride;
    }
  }

  lemma ChunkStartExact(n: nat, mtu: Mtu, i: nat)
    requires n <= MaxPayload(mtu) && i <= Type1Count(n, mtu)
    ensures ChunkStart(n, mtu, i) == Strides(Stride(n, mtu), i)
  {
    Shape(n, mtu);
    StridesGrow(Stride(n, mtu), i, Type1Count(n, mtu));
  }

  // ---------------------------------------------------------------------------------------
  // Acceptance

  /** The checks of a send call, in the program's order. */
  function Verdict(f: Media, mtu: Mtu): Message {
    if f.pts == UINT64_MAX then ReservedPTSValue
    else if f.dts == UINT64_MAX then ReservedDTSValue
    else if f.code == UINT32_MAX then ReservedCodeValue
    else if f.stream == 0 && f.content != CONTENT_EFPSIG then ReservedStreamValue
    else if Sub64(f.pts, f.dts) >= UINT32_MAX then DtsPtsDiffTooLarge
    else if |f.payload| > MaxPayload(mtu) then TooLargeFrame
    else NoError
  }

  predicate Accepted(f: Media, mtu: Mtu) {
    Verdict(f, mtu).NoError?
  }

  // ---------------------------------------------------------------------------------------
  // Packets

  function Type1Packet(f: Media, no: u16, mtu: Mtu, i: nat): Packet
    requires Accepted(f, mtu) && i < Type1Count(|f.payload|, mtu)
  {
    Shape(|f.payload|, mtu);
    Packet(Type1(1 + FlagBits(f.flags), f.stream, no, i, LastPosition(|f.payload|, mtu)),
           Chunk(f.payload, mtu, i))
  }

  function Type3Packet(f: Media, no: u16, mtu: Mtu): Packet
    requires Accepted(f, mtu)
  {
    Shape(|f.payload|, mtu);
    Packet(Type3(3 + FlagBits(f.flags), f.stream, no, Type1Payload(mtu), LastPosition(|f.payload|, mtu)),
           Chunk(f.payload, mtu, Type1Count(|f.payload|, mtu)))
  }

  function Type2Packet(f: Media, no: u16, mtu: Mtu): Packet
    requires Accepted(f, mtu)
  {
    Shape(|f.payload|, mtu);
    var last := LastPosition(|f.payload|, mtu);
    var tail := Chunk(f.payload, mtu, last);
    Packet(Type2(2 + FlagBits(f.flags), f.stream, f.content, |tail|, no, last,
                 Stride(|f.payload|, mtu), f.pts, Sub64(f.pts, f.dts), f.code),
           tail)
  }

  /** The fragment at position i. */
  function FragmentAt(f: Media, no: u16, mtu: Mtu, i: nat): Packet
    requires Accepted(f, mtu) && i <= LastPosition(|f.payload|, mtu)
  {
    if i == LastPosition(|f.payload|, mtu) then Type2Packet(f, no, mtu)
    else if i == Type1Count(|f.payload|, mtu) then Type3Packet(f, no, mtu)
    else Type1Packet(f, no, mtu, i)
  }

  /** Everything one accepted call sends, in order. */
  function Packets(f: Media, no: u16, mtu: Mtu): (ps: seq<Packet>)
    requires Accepted(f, mtu)
    ensures |ps| == LastPosition(|f.payload|, mtu) + 1
  {
    var count := LastPosition(|f.payload|, mtu) + 1;
    seq(count, i requires 0 <= i < count => FragmentAt(f, no, mtu, i))
  }

  /** The position a receiver reads off a header. */
  function PositionOf(h: Header): int {
    match h
    case Type1(_, _, _, i, _) => i
    case Type2(_, _, _, _, _, of, _, _, _, _) => of
    case Type3(_, _, _, _, of) => of - 1
  }

  function Joined(ps: seq<Packet>): seq<byte> {
    if ps == [] then [] else Joined(ps[..|ps| - 1]) + ps[|ps| - 1].payload
  }

  function TypeNumber(h: Header): nat {
    if h.Type1? then 1 else if h.Type2? then 2 else 3
  }

  /** What every packet of a superframe says about itself. */
  ghost predicate WellLabelled(p: Packet, f: Media, no: u16, mtu: Mtu, i: nat) {
    && PacketSize(p) <= mtu
    && PositionOf(p.header) == i
    && p.header.superFrameNo == no
    && p.header.ofFragmentNo == LastPosition(|f.payload|, mtu)
    && p.header.stream == f.stream
    && p.header.frameType == f.flags / 16 * 16 + TypeNumber(p.header)
    && Announced(p.header)
    && p.payload == Chunk(f.payload, mtu, i)
    && (p.header.Type1? ==> |p.payload| == mtu - 8)
    && (p.header.Type3? ==> p.header.type1PacketSize == mtu - 8)
    && (p.header.Type2? ==>
          && p.header.sizeOfData == |p.payload|
          && p.header.type1PacketSize == (if |f.payload| <= mtu - TYPE2_HEADER then |f.payload| else mtu - 8))
  }

  lemma FragmentLabels(f: Media, no: u16, mtu: Mtu, i: nat)
    requires Accepted(f, mtu) && i <= LastPosition(|f.payload|, mtu)
    ensures WellLabelled(FragmentAt(f, no, mtu, i), f, no, mtu, i)
  {
    var n := |f.payload|;
    Shape(n, mtu);
    var p := FragmentAt(f, no, mtu, i);
    if i == LastPosition(n, mtu) {
      assert p == Type2Packet(f, no, mtu);
    } else {
      assert |Chunk(f.payload, mtu, i)| <= Stride(n, mtu) by {
        assert Strides(Stride(n, mtu), i + 1) == Strides(Stride(n, mtu), i) + Stride(n, mtu);
      }
      if i < Type1Count(n, mtu) {
        ChunkStartExact(n, mtu, i);
        ChunkStartExact(n, mtu, i + 1);
      }
      assert if i == Type1Count(n, mtu) then p == Type3Packet(f, no, mtu) else p == Type1Packet(f, no, mtu, i);
    }
  }

  /** Fragmentation is an exact partition: the payloads joined in order are the input; every
      packet fits the MTU; the positions read off the headers are 0, 1, .., n with n a valid index
      of the received-fragment bitset; all headers name the same superframe and the same last position. */
  lemma ExactPartition(f: Media, no: u16, mtu: Mtu)
    requires Accepted(f, mtu)
    ensures Joined(Packets(f, no, mtu)) == f.payload
    ensures 1 <= |Packets(f, no, mtu)| <= UINT16_MAX
    ensures forall i :: 0 <= i < |Packets(f, no, mtu)| ==> WellLabelled(Packets(f, no, mtu)[i], f, no, mtu, i)
  {
    var ps := Packets(f, no, mtu);
    Shape(|f.payload|, mtu);
    JoinedPrefix(f, no, mtu, |ps|);
    assert ps[..|ps|] == ps;
    forall i | 0 <= i < |ps| ensures WellLabelled(ps[i], f, no, mtu, i) {
      FragmentLabels(f, no, mtu, i);
    }
  }

  lemma {:induction false} JoinedPrefix(f: Media, no: u16, mtu: Mtu, k: nat)
    requires Accepted(f, mtu) && k <= |Packets(f, no, mtu)|
    ensures Joined(Packets(f, no, mtu)[..k]) == f.payload[..ChunkStart(|f.payload|, mtu, k)]
  {
    var ps := Packets(f, no, mtu);
    if k == 0 {
      assert ps[..0] == [];
    } else {
      JoinedPrefix(f, no, mtu, k - 1);
      assert ps[..k][..k - 1] == ps[..k - 1];
      assert ps[k - 1].payload == Chunk(f.payload, mtu, k - 1);
      ChunkExtends(f.payload, mtu, k - 1);
    }
  }

  lemma ChunkExtends(payload: seq<byte>, mtu: Mtu, i: nat)
    ensures payload[..ChunkStart(|payload|, mtu, i)] + Chunk(payload, mtu, i) == payload[..ChunkStart(|payload|, mtu, i + 1)]
  {
    ChunksGrow(|payload|, mtu, i, i + 1);
  }

  // ---------------------------------------------------------------------------------------
  // Time stamps

  /** The decode time stamp a receiver computes from a type2 header. */
  function DecodedDts(pts: u64, dtsPtsDiff: u32): u64 {
    if dtsPtsDiff == UINT32_MAX then UINT64_MAX else Sub64(pts, dtsPtsDiff)
  }

  /** Both time stamps survive, also when pts < dts makes the unsigned subtraction wrap, and the
      "no DTS" marker is never sent. */
  lemma TimeStampsSurvive(f: Media, no: u16, mtu: Mtu)
    requires Accepted(f, mtu)
    ensures var h := Type2Packet(f, no, mtu).header;
            h.pts == f.pts && h.dtsPtsDiff != UINT32_MAX && DecodedDts(h.pts, h.dtsPtsDiff) == f.dts
  {
  }

  /** The presentation time follows the decode time by a difference that fits the header. */
  predicate Follows(pts: u64, dts: u64) {
    exists d: nat :: d < 0xffff_ffff && pts == Add64(dts, d)
  }

  /** Exactly which calls are accepted: neither time stamp nor the code is reserved, stream 0 carries
      signalling only, the presentation time follows the decode time on the 64-bit circle by less than
      2^32 - 1, and the payload fits 65534 type1 packets and one type2 packet. */
  lemma AcceptedIff(f: Media, mtu: Mtu)
    ensures Accepted(f, mtu) <==>
            && f.pts != 0xffff_ffff_ffff_ffff && f.dts != 0xffff_ffff_ffff_ffff
            && f.code != 0xffff_ffff && (f.stream != 0 || f.content == 0x80)
            && Follows(f.pts, f.dts)
            && |f.payload| <= 65534 * (mtu - 8) + (mtu - TYPE2_HEADER)
  {
    FollowsIff(f.pts, f.dts);
  }

  lemma FollowsIff(pts: u64, dts: u64)
    ensures Sub64(pts, dts) < 0xffff_ffff <==> Follows(pts, dts)
  {
    if Sub64(pts, dts) < 0xffff_ffff {
      assert pts == Add64(dts, Sub64(pts, dts));
    }
  }

  /** Which refusal a call gets: the first reason that applies, in this order. Content 0x80 is the
      protocol's own signalling. */
  lemma RefusedFor(f: Media, mtu: Mtu)
    ensures var pts, dts, code := f.pts == 0xffff_ffff_ffff_ffff, f.dts == 0xffff_ffff_ffff_ffff, f.code == 0xffff_ffff;
            var stream := f.stream == 0 && f.content != 0x80;
            var apart := !Follows(f.pts, f.dts);
            var large := |f.payload| > 65534 * (mtu - 8) + (mtu - TYPE2_HEADER);
            && (Verdict(f, mtu) == ReservedPTSValue <==> pts)
            && (Verdict(f, mtu) == ReservedDTSValue <==> dts && !pts)
            && (Verdict(f, mtu) == ReservedCodeValue <==> code && !dts && !pts)
            && (Verdict(f, mtu) == ReservedStreamValue <==> stream && !code && !dts && !pts)
            && (Verdict(f, mtu) == DtsPtsDiffTooLarge <==> apart && !stream && !code && !dts && !pts)
            && (Verdict(f, mtu) == TooLargeFrame <==> large && !apart && !stream && !code && !dts && !pts)
            && (Verdict(f, mtu) == NoError <==> !large && !apart && !stream && !code && !dts && !pts)
  {
    FollowsIff(f.pts, f.dts);
  }
}
