/** The sender: one superframe in, a sequence of packets out, in a copying and in a zero-copy form.
    Both are proved to emit the same packets, with the same result and the same counter update. */
module Sending {
  import opened Wire
  import opened Fragmenter

  /** Writes a header record over the cells at `at`. */
  method PutHeader(mem: array<Cell>, at: nat, h: Header)
    requires at + HeaderSize(h) <= mem.Length
    modifies mem
    ensures mem[..] == old(mem[..at]) + HeaderCells(h) + old(mem[at + HeaderSize(h)..])
  {
    forall i | 0 <= i < HeaderSize(h) {
      mem[at + i] := Head(h, i);
    }
  }

  /** Copies bytes over the cells at `at`. */
  method PutBytes(mem: array<Cell>, at: nat, bytes: seq<byte>)
    requires at + |bytes| <= mem.Length
    modifies mem
    ensures mem[..] == old(mem[..at]) + DataCells(bytes) + old(mem[at + |bytes|..])
  {
    forall i | 0 <= i < |bytes| {
      mem[at + i] := Data(bytes[i]);
    }
  }

  /** Memory differs at most in the 100 bytes before `base` and the n bytes from it. */
  ghost predicate SameOutside(mem: seq<Cell>, was: seq<Cell>, base: nat, n: nat) {
    |mem| == |was| && forall i :: 0 <= i < |mem| && !(base - 100 <= i < base + n) ==> mem[i] == was[i]
  }

  lemma TailOfTail(mem: seq<Cell>, base: nat, payload: seq<byte>, from: nat, to: nat)
    requires from <= to <= |payload| && base + |payload| <= |mem|
    requires mem[base + from..base + |payload|] == DataCells(payload[from..])
    ensures mem[base + to..base + |payload|] == DataCells(payload[to..])
  {
    assert mem[base + to..base + |payload|] == mem[base + from..base + |payload|][to - from..];
    assert payload[to..] == payload[from..][to - from..];
  }

  /** The wire form of everything one accepted call sends. */
  function Sent(f: Media, no: u16, mtu: Mtu): (wire: seq<seq<Cell>>)
    requires Accepted(f, mtu)
    ensures |wire| == |Packets(f, no, mtu)|
  {
    var ps := Packets(f, no, mtu);
    seq(|ps|, i requires 0 <= i < |ps| => Encode(ps[i]))
  }

  // ---------------------------------------------------------------------------------------
  // What the send loops build, piece by piece

  function Header1(f: Media, flags: byte, no: u16, of: u16): Header
    requires flags % 16 == 0
  {
    Type1(1 + flags, f.stream, no, 0, of)
  }

  function Header3(f: Media, flags: byte, no: u16, mtu: Mtu, of: u16): Header
    requires flags % 16 == 0
  {
    Type3(3 + flags, f.stream, no, Type1Payload(mtu), of)
  }

  function Header2(f: Media, flags: byte, no: u16, of: u16, stride: u16, size: u16, diff: u32): Header
    requires flags % 16 == 0
  {
    Type2(2 + flags, f.stream, f.content, size, no, of, stride, f.pts, diff, f.code)
  }

  /** One packet on the wire: a header in front of payload[from..to]. */
  function Piece(h: Header, payload: seq<byte>, from: nat, to: nat): seq<Cell>
    requires from <= to <= |payload|
  {
    HeaderCells(h) + DataCells(payload[from..to])
  }

  /** `count` type1 packets. */
  function Type1Run(h: Header, payload: seq<byte>, stride: nat, count: nat): (wire: seq<seq<Cell>>)
    requires h.Type1? && count <= TWO16 && Strides(stride, count) <= |payload|
    ensures |wire| == count
  {
    if count == 0 then []
    else
      Type1Run(h, payload, stride, count - 1)
      + [Piece(h.(fragmentNo := count - 1), payload, Strides(stride, count - 1), Strides(stride, count))]
  }

  lemma {:induction false} Type1RunAt(h: Header, payload: seq<byte>, stride: nat, count: nat, i: nat)
    requires h.Type1? && i < count <= TWO16 && Strides(stride, count) <= |payload|
    ensures Strides(stride, i) <= Strides(stride, i + 1) <= |payload|
    ensures Type1Run(h, payload, stride, count)[i]
            == Piece(h.(fragmentNo := i), payload, Strides(stride, i), Strides(stride, i + 1))
  {
    StridesGrow(stride, i + 1, count);
    if i < count - 1 {
      Type1RunAt(h, payload, stride, count - 1, i);
    }
  }

  /** q pieces of `stride` bytes are the most that `size` bytes fill. */
  predicate Fills(size: nat, stride: nat, q: nat) {
    Strides(stride, q) <= size < Strides(stride, q + 1)
  }

  /** A superframe in several packets is a run of type1 packets, perhaps a type3 packet with the
      remainder, and a type2 packet with the rest. */
  function Pieces(f: Media, flags: byte, no: u16, mtu: Mtu, q: nat): seq<seq<Cell>>
    requires Accepted(f, mtu) && flags % 16 == 0
    requires q < UINT16_MAX && Fills(|f.payload|, Type1Payload(mtu), q)
  {
    var n := |f.payload|;
    var stride := Type1Payload(mtu);
    var at := Strides(stride, q);
    var diff := Sub64(f.pts, f.dts);
    if n - at > Type2Payload(mtu) then
      Type1Run(Header1(f, flags, no, q + 1), f.payload, stride, q)
      + [Piece(Header3(f, flags, no, mtu, q + 1), f.payload, at, n)]
      + [Piece(Header2(f, flags, no, q + 1, stride, 0, diff), f.payload, n, n)]
    else
      Type1Run(Header1(f, flags, no, q), f.payload, stride, q)
      + [Piece(Header2(f, flags, no, q, stride, n - at, diff), f.payload, at, n)]
  }

  lemma FillsIsCount(f: Media, mtu: Mtu, q: nat)
    requires Accepted(f, mtu) && !FitsOnePacket(|f.payload|, mtu)
    requires Fills(|f.payload|, Type1Payload(mtu), q)
    ensures q == Type1Count(|f.payload|, mtu) && q < UINT16_MAX
    ensures LastPosition(|f.payload|, mtu) ==
            if |f.payload| - Strides(Type1Payload(mtu), q) > Type2Payload(mtu) then q + 1 else q
  {
    WholeAt(|f.payload|, Type1Payload(mtu), q);
    CountBound(|f.payload|, mtu, UINT16_MAX - 1);
  }

  lemma Type1Sent(f: Media, no: u16, mtu: Mtu, i: nat)
    requires Accepted(f, mtu) && i < Type1Count(|f.payload|, mtu)
    ensures var n := |f.payload|;
            var stride := Type1Payload(mtu);
            && i < LastPosition(n, mtu) <= UINT16_MAX - 1
            && Strides(stride, i) <= Strides(stride, i + 1) <= n
            && Sent(f, no, mtu)[i] ==
                 Piece(Header1(f, FlagBits(f.flags), no, LastPosition(n, mtu)).(fragmentNo := i), f.payload,
                       Strides(stride, i), Strides(stride, i + 1))
  {
    Shape(|f.payload|, mtu);
    ChunkStartExact(|f.payload|, mtu, i);
    ChunkStartExact(|f.payload|, mtu, i + 1);
  }

  /** The packets after the type1 packets. */
  lemma EndSent(f: Media, no: u16, mtu: Mtu)
    requires Accepted(f, mtu) && !FitsOnePacket(|f.payload|, mtu)
    ensures var n := |f.payload|;
            var stride := Type1Payload(mtu);
            var q := Type1Count(n, mtu);
            var at := Strides(stride, q);
            var flags := FlagBits(f.flags);
            var diff := Sub64(f.pts, f.dts);
            && q < UINT16_MAX && at <= n && q <= LastPosition(n, mtu)
            && (NeedsType3(n, mtu) ==>
                 Sent(f, no, mtu)[q..] ==
                   [Piece(Header3(f, flags, no, mtu, q + 1), f.payload, at, n),
                    Piece(Header2(f, flags, no, q + 1, stride, 0, diff), f.payload, n, n)])
            && (!NeedsType3(n, mtu) ==>
                 n - at <= Type2Payload(mtu)
                 && Sent(f, no, mtu)[q..] ==
                   [Piece(Header2(f, flags, no, q, stride, n - at, diff), f.payload, at, n)])
  {
    Shape(|f.payload|, mtu);
    CountBound(|f.payload|, mtu, UINT16_MAX - 1);
    ChunkStartExact(|f.payload|, mtu, Type1Count(|f.payload|, mtu));
    if NeedsType3(|f.payload|, mtu) {
      assert ChunkStart(|f.payload|, mtu, LastPosition(|f.payload|, mtu)) == |f.payload|;
    }
  }

  lemma SentInPieces(f: Media, no: u16, mtu: Mtu, q: nat)
    requires Accepted(f, mtu) && !FitsOnePacket(|f.payload|, mtu)
    requires q < UINT16_MAX && Fills(|f.payload|, Type1Payload(mtu), q)
    ensures Sent(f, no, mtu) == Pieces(f, FlagBits(f.flags), no, mtu, q)
  {
    var n := |f.payload|;
    var stride := Type1Payload(mtu);
    FillsIsCount(f, mtu, q);
    EndSent(f, no, mtu);
    var h := Header1(f, FlagBits(f.flags), no, LastPosition(n, mtu));
    var run := Type1Run(h, f.payload, stride, q);
    forall i | 0 <= i < q ensures Sent(f, no, mtu)[i] == run[i] {
      Type1Sent(f, no, mtu, i);
      Type1RunAt(h, f.payload, stride, q, i);
    }
    assert Sent(f, no, mtu) == Sent(f, no, mtu)[..q] + Sent(f, no, mtu)[q..];
    assert Sent(f, no, mtu)[..q] == run;
  }

  lemma SentInOne(f: Media, no: u16, mtu: Mtu)
    requires Accepted(f, mtu) && FitsOnePacket(|f.payload|, mtu)
    ensures Sent(f, no, mtu) ==
            [Piece(Header2(f, FlagBits(f.flags), no, 0, |f.payload|, |f.payload|, Sub64(f.pts, f.dts)),
                   f.payload, 0, |f.payload|)]
  {
    Shape(|f.payload|, mtu);
    assert Strides(|f.payload|, 1) == Strides(|f.payload|, 0) + |f.payload|;
  }

  // ---------------------------------------------------------------------------------------
  // The sender object

  class Sender {
    const mtu: Mtu
    var superFrameNoGenerator: u16
    const sendBufferFixed: array<Cell>
    var sendBufferEnd: seq<Cell>

    ghost predicate Valid() {
      sendBufferFixed.Length == mtu
    }

    constructor (setMtu: Mtu)
      ensures Valid() && fresh(sendBufferFixed) && mtu == setMtu && superFrameNoGenerator == 0
    {
      mtu := setMtu;
      superFrameNoGenerator := 0;
      sendBufferFixed := new Cell[setMtu](_ => Data(0));
      sendBufferEnd := [];
    }

    method SetSuperFrameNo(no: u16)
      modifies `superFrameNoGenerator
      ensures superFrameNoGenerator == no
    {
      superFrameNoGenerator := no;
    }

    /** The checks both forms start with; `diff` is what the type2 header will carry. */
    method Check(f: Media) returns (msg: Message, diff: u64)
      ensures msg == Verdict(f, mtu) && diff == Sub64(f.pts, f.dts)
    {
      diff := Sub64(f.pts, f.dts);
      if f.pts == UINT64_MAX { return ReservedPTSValue, diff; }
      if f.dts == UINT64_MAX { return ReservedDTSValue, diff; }
      if f.code == UINT32_MAX { return ReservedCodeValue, diff; }
      if f.stream == 0 && f.content != CONTENT_EFPSIG { return ReservedStreamValue, diff; }
      if diff >= UINT32_MAX { return DtsPtsDiffTooLarge, diff; }
      if |f.payload| > (mtu - TYPE1_HEADER) * (UINT16_MAX - 1) + (mtu - TYPE2_HEADER) {
        return TooLargeFrame, diff;
      }
      return NoError, diff;
    }

    /** The number of type1 packets: the cast of the floored quotient to 16 bits loses nothing. */
    method FloorQuotient(f: Media) returns (q: u16)
      requires Accepted(f, mtu) && !FitsOnePacket(|f.payload|, mtu)
      ensures q < UINT16_MAX && Fills(|f.payload|, Type1Payload(mtu), q)
    {
      var size, payloadType1 := |f.payload|, mtu - TYPE1_HEADER;
      WholeIsQuotient(size, payloadType1);
      CountBound(size, mtu, UINT16_MAX - 1);
      q := Low16(size / payloadType1);
    }

    /** How a superframe in several packets is cut; both forms compute this the same way. */
    method Cut(f: Media)
      returns (payloadType1: u16, count: u16, ofFragmentNo: u16, type3Needed: bool, reminderData: nat)
      requires Accepted(f, mtu) && !FitsOnePacket(|f.payload|, mtu)
      ensures payloadType1 == Type1Payload(mtu)
      ensures count < UINT16_MAX && Fills(|f.payload|, payloadType1, count)
      ensures reminderData == |f.payload| - Strides(payloadType1, count)
      ensures type3Needed == (reminderData > Type2Payload(mtu))
      ensures ofFragmentNo == count + if type3Needed then 1 else 0
    {
      payloadType1 := Low16(mtu - TYPE1_HEADER);
      var payloadType2 := Low16(mtu - TYPE2_HEADER);
      count := FloorQuotient(f);
      ofFragmentNo := count;
      type3Needed := false;
      reminderData := |f.payload| - Strides(payloadType1, count);
      if reminderData > payloadType2 {
        type3Needed := true;
        ofFragmentNo := Low16(ofFragmentNo + 1);
      }
    }

    /** The copying form. Each packet is built in a send buffer of the sender's own. */
    method PackAndSendFromPtr(f: Media) returns (msg: Message, wire: seq<seq<Cell>>)
      requires Valid()
      modifies this, sendBufferFixed
      ensures msg == Verdict(f, mtu)
      ensures msg.NoError? ==> wire == Sent(f, old(superFrameNoGenerator), mtu)
                               && superFrameNoGenerator == Next16(old(superFrameNoGenerator))
      ensures !msg.NoError? ==> wire == [] && superFrameNoGenerator == old(superFrameNoGenerator)
    {
      var ptsDtsDiff;
      msg, ptsDtsDiff := Check(f);
      if !msg.NoError? { return msg, []; }
      var flags := FlagBits(f.flags);
      var size := |f.payload|;

      if size + TYPE2_HEADER <= mtu {
        var header := Header2(f, flags, superFrameNoGenerator, 0, Low16(size), Low16(size), ptsDtsDiff);
        sendBufferEnd := HeaderCells(header) + DataCells(f.payload[0..size]);
        wire := [sendBufferEnd];
        SentInOne(f, superFrameNoGenerator, mtu);
        superFrameNoGenerator := Next16(superFrameNoGenerator);
        return NoError, wire;
      }
      msg, wire := SendInPieces(f, flags, ptsDtsDiff);
      superFrameNoGenerator := Next16(superFrameNoGenerator);
    }

    /** The rest of the copying form: a superframe that needs more than one packet. None of the
        internal consistency checks ever fires. */
    method SendInPieces(f: Media, flags: byte, ptsDtsDiff: u64) returns (msg: Message, wire: seq<seq<Cell>>)
      requires Valid() && Accepted(f, mtu) && !FitsOnePacket(|f.payload|, mtu)
      requires flags == FlagBits(f.flags) && ptsDtsDiff == Sub64(f.pts, f.dts)
      modifies `sendBufferEnd, sendBufferFixed
      ensures msg == NoError
      ensures wire == Sent(f, superFrameNoGenerator, mtu)
    {
      var size := |f.payload|;
      var payloadType1, ofFragmentNoType1, ofFragmentNo, type3Needed, reminderData := Cut(f);

      var header1 := Header1(f, flags, superFrameNoGenerator, ofFragmentNo);
      var fragmentNo, dataPointer;
      fragmentNo, dataPointer, wire := SendType1Packets(header1, f.payload, payloadType1, ofFragmentNoType1);

      if type3Needed {
        fragmentNo := Low16(fragmentNo + 1);
        var header3 := Header3(f, flags, superFrameNoGenerator, mtu, ofFragmentNo);
        sendBufferEnd := HeaderCells(header3) + DataCells(f.payload[dataPointer..dataPointer + reminderData]);
        dataPointer := dataPointer + reminderData;
        if dataPointer != size { return InternalCalculationError, wire; }
        wire := wire + [sendBufferEnd];
      }

      var dataLeftToSend := size - dataPointer;
      if (type3Needed && dataLeftToSend != 0)
         || dataLeftToSend + TYPE2_HEADER > mtu
         || ofFragmentNo != fragmentNo {
        return InternalCalculationError, wire;
      }

      var header2 := Header2(f, flags, superFrameNoGenerator, ofFragmentNo, payloadType1, Low16(dataLeftToSend),
                             ptsDtsDiff);
      sendBufferEnd := HeaderCells(header2) + DataCells(f.payload[dataPointer..dataPointer + dataLeftToSend]);
      wire := wire + [sendBufferEnd];
      assert wire == Pieces(f, flags, superFrameNoGenerator, mtu, ofFragmentNoType1);
      SentInPieces(f, superFrameNoGenerator, mtu, ofFragmentNoType1);
      return NoError, wire;
    }

    /** The loop over type1 packets: the header is written into the buffer once, and after that
        only its fragment number changes. */
    method SendType1Packets(header: Header, payload: seq<byte>, payloadType1: nat, count: u16)
      returns (fragmentNo: u16, dataPointer: nat, wire: seq<seq<Cell>>)
      requires Valid() && header.Type1? && TYPE1_HEADER + payloadType1 == mtu
      requires Strides(payloadType1, count) <= |payload|
      modifies sendBufferFixed
      ensures fragmentNo == count && dataPointer == Strides(payloadType1, count)
      ensures wire == Type1Run(header, payload, payloadType1, count)
    {
      fragmentNo, dataPointer, wire := 0, 0, [];
      var inBuffer := header;
      PutHeader(sendBufferFixed, 0, inBuffer);
      while fragmentNo < count
        invariant 0 <= fragmentNo <= count
        invariant dataPointer == Strides(payloadType1, fragmentNo) <= |payload|
        invariant inBuffer.Type1? && inBuffer == header.(fragmentNo := inBuffer.fragmentNo)
        invariant wire == Type1Run(header, payload, payloadType1, fragmentNo)
      {
        StridesGrow(payloadType1, fragmentNo + 1, count);
        inBuffer := inBuffer.(fragmentNo := fragmentNo);
        PutHeader(sendBufferFixed, 0, inBuffer);
        PutBytes(sendBufferFixed, TYPE1_HEADER, payload[dataPointer..dataPointer + payloadType1]);
        assert sendBufferFixed[..] == Piece(inBuffer, payload, dataPointer, dataPointer + payloadType1);
        wire := wire + [sendBufferFixed[..]];
        fragmentNo := fragmentNo + 1;
        dataPointer := dataPointer + payloadType1;
      }
    }

    // -------------------------------------------------------------------------------------
    // The zero-copy form

    /** The superframe lies in the caller's memory at `base`, behind 100 bytes that may be
        overwritten. Headers are written into that memory, each in front of the bytes it announces,
        over bytes already handed to the send function. Only the size of f.payload is read here;
        its bytes are the ones in memory. */
    method DestructivePackAndSendFromPtr(mem: array<Cell>, base: nat, f: Media)
      returns (msg: Message, wire: seq<seq<Cell>>)
      requires 100 <= base <= base + |f.payload| <= mem.Length
      requires mem[base..base + |f.payload|] == DataCells(f.payload)
      modifies this, mem
      ensures msg == Verdict(f, mtu)
      ensures msg.NoError? ==> wire == Sent(f, old(superFrameNoGenerator), mtu)
                               && superFrameNoGenerator == Next16(old(superFrameNoGenerator))
      ensures !msg.NoError? ==> wire == [] && superFrameNoGenerator == old(superFrameNoGenerator)
                                && mem[..] == old(mem[..])
      ensures SameOutside(mem[..], old(mem[..]), base, |f.payload|)
    {
      var ptsDtsDiff;
      msg, ptsDtsDiff := Check(f);
      if !msg.NoError? { return msg, []; }
      var flags := FlagBits(f.flags);
      var size := |f.payload|;

      if size + TYPE2_HEADER <= mtu {
        var header := Header2(f, flags, superFrameNoGenerator, 0, Low16(size), Low16(size), ptsDtsDiff);
        var packet := SendInPlace(mem, base, 0, size, header, f.payload);
        wire := [packet];
        SentInOne(f, superFrameNoGenerator, mtu);
        superFrameNoGenerator := Next16(superFrameNoGenerator);
        return NoError, wire;
      }
      msg, wire := SendInPiecesInPlace(mem, base, f, flags, ptsDtsDiff);
      superFrameNoGenerator := Next16(superFrameNoGenerator);
    }

    /** Writes a header in front of payload[from..to] where it lies and hands both to the send
        function. The bytes not yet sent are untouched. */
    method SendInPlace(mem: array<Cell>, base: nat, from: nat, to: nat, h: Header, ghost payload: seq<byte>)
      returns (packet: seq<Cell>)
      requires 100 <= base <= base + |payload| <= mem.Length && from <= to <= |payload|
      requires mem[base + from..base + |payload|] == DataCells(payload[from..])
      modifies mem
      ensures packet == Piece(h, payload, from, to)
      ensures mem[base + to..base + |payload|] == DataCells(payload[to..])
      ensures SameOutside(mem[..], old(mem[..]), base, |payload|)
    {
      var at := base + from - HeaderSize(h);
      ghost var was := mem[..];
      PutHeader(mem, at, h);
      assert mem[..] == was[..at] + HeaderCells(h) + was[base + from..];
      packet := mem[at..base + to];
      assert mem[at..base + from] == HeaderCells(h);
      assert mem[base + from..] == was[base + from..];
      forall i | 0 <= i < to - from
        ensures mem[base + from + i] == DataCells(payload[from..to])[i]
      {
        assert mem[base + from + i] == was[base + from..base + |payload|][i];
      }
      assert mem[base + from..base + to] == DataCells(payload[from..to]);
      assert packet == mem[at..base + from] + mem[base + from..base + to];
      assert mem[base + from..base + |payload|] == was[base + from..base + |payload|];
      TailOfTail(mem[..], base, payload, from, to);
    }

    method SendInPiecesInPlace(mem: array<Cell>, base: nat, f: Media, flags: byte, ptsDtsDiff: u64)
      returns (msg: Message, wire: seq<seq<Cell>>)
      requires 100 <= base <= base + |f.payload| <= mem.Length
      requires mem[base..base + |f.payload|] == DataCells(f.payload)
      requires Accepted(f, mtu) && !FitsOnePacket(|f.payload|, mtu)
      requires flags == FlagBits(f.flags) && ptsDtsDiff == Sub64(f.pts, f.dts)
      modifies mem
      ensures msg == NoError
      ensures wire == Sent(f, superFrameNoGenerator, mtu)
      ensures SameOutside(mem[..], old(mem[..]), base, |f.payload|)
    {
      var size := |f.payload|;
      var payloadType1, ofFragmentNoType1, ofFragmentNo, type3Needed, reminderData := Cut(f);

      var header1 := Header1(f, flags, superFrameNoGenerator, ofFragmentNo);
      var fragmentNo, dataPointer;
      fragmentNo, dataPointer, wire :=
        SendType1PacketsInPlace(mem, base, header1, payloadType1, ofFragmentNoType1, f.payload);

      var end;
      msg, end := SendEndInPlace(mem, base, f, flags, ptsDtsDiff, payloadType1, fragmentNo, dataPointer,
                                 ofFragmentNo, type3Needed, reminderData);
      wire := wire + end;
      assert wire == Pieces(f, flags, superFrameNoGenerator, mtu, ofFragmentNoType1);
      SentInPieces(f, superFrameNoGenerator, mtu, ofFragmentNoType1);
    }

    /** The packets after the in-place loop. */
    method SendEndInPlace(mem: array<Cell>, base: nat, f: Media, flags: byte, ptsDtsDiff: u32, payloadType1: u16,
                          sent: u16, from: nat, ofFragmentNo: u16, type3Needed: bool, reminderData: nat)
      returns (msg: Message, wire: seq<seq<Cell>>)
      requires 100 <= base <= base + |f.payload| <= mem.Length
      requires flags % 16 == 0 && payloadType1 == Type1Payload(mtu)
      requires from + reminderData == |f.payload|
      requires type3Needed == (reminderData > Type2Payload(mtu)) && sent < UINT16_MAX
      requires ofFragmentNo == sent + if type3Needed then 1 else 0
      requires mem[base + from..base + |f.payload|] == DataCells(f.payload[from..])
      modifies mem
      ensures msg == NoError
      ensures wire ==
        if type3Needed then
          [Piece(Header3(f, flags, superFrameNoGenerator, mtu, ofFragmentNo), f.payload, from, |f.payload|),
           Piece(Header2(f, flags, superFrameNoGenerator, ofFragmentNo, payloadType1, 0, ptsDtsDiff),
                 f.payload, |f.payload|, |f.payload|)]
        else
          [Piece(Header2(f, flags, superFrameNoGenerator, ofFragmentNo, payloadType1, reminderData, ptsDtsDiff),
                 f.payload, from, |f.payload|)]
      ensures SameOutside(mem[..], old(mem[..]), base, |f.payload|)
    {
      var size, dataPointer, fragmentNo := |f.payload|, from, sent;
      wire := [];
      if type3Needed {
        fragmentNo := Low16(fragmentNo + 1);
        var header3 := Header3(f, flags, superFrameNoGenerator, mtu, ofFragmentNo);
        dataPointer := dataPointer + reminderData;
        if dataPointer != size { return InternalCalculationError, wire; }
        var packet3 := SendInPlace(mem, base, dataPointer - reminderData, dataPointer, header3, f.payload);
        wire := wire + [packet3];
      }

      var dataLeftToSend := size - dataPointer;
      if (type3Needed && dataLeftToSend != 0)
         || dataLeftToSend + TYPE2_HEADER > mtu
         || ofFragmentNo != fragmentNo {
        return InternalCalculationError, wire;
      }

      var header2 := Header2(f, flags, superFrameNoGenerator, ofFragmentNo, payloadType1, Low16(dataLeftToSend),
                             ptsDtsDiff);
      var packet2 := SendInPlace(mem, base, dataPointer, size, header2, f.payload);
      wire := wire + [packet2];
      return NoError, wire;
    }

    /** The in-place loop over type1 packets. */
    method SendType1PacketsInPlace(mem: array<Cell>, base: nat, header: Header, payloadType1: nat, count: u16,
                                   ghost payload: seq<byte>)
      returns (fragmentNo: u16, dataPointer: nat, wire: seq<seq<Cell>>)
      requires 100 <= base <= base + |payload| <= mem.Length
      requires mem[base..base + |payload|] == DataCells(payload)
      requires header.Type1? && Strides(payloadType1, count) <= |payload|
      modifies mem
      ensures fragmentNo == count && dataPointer == Strides(payloadType1, count)
      ensures wire == Type1Run(header, payload, payloadType1, count)
      ensures mem[base + dataPointer..base + |payload|] == DataCells(payload[dataPointer..])
      ensures SameOutside(mem[..], old(mem[..]), base, |payload|)
    {
      fragmentNo, dataPointer, wire := 0, 0, [];
      assert payload[0..] == payload;
      while fragmentNo < count
        invariant 0 <= fragmentNo <= count
        invariant dataPointer == Strides(payloadType1, fragmentNo) <= |payload|
        invariant wire == Type1Run(header, payload, payloadType1, fragmentNo)
        invariant mem[base + dataPointer..base + |payload|] == DataCells(payload[dataPointer..])
        invariant SameOutside(mem[..], old(mem[..]), base, |payload|)
      {
        StridesGrow(payloadType1, fragmentNo + 1, count);
        var packet := SendInPlace(mem, base, dataPointer, dataPointer + payloadType1,
                                  header.(fragmentNo := fragmentNo), payload);
        wire := wire + [packet];
        fragmentNo := fragmentNo + 1;
        dataPointer := dataPointer + payloadType1;
      }
    }
  }

  /** The two forms, side by side: same result, same packets, same counter. */
  method SendBothWays(copying: Sender, zeroCopy: Sender, mem: array<Cell>, base: nat, f: Media)
    returns (msg: Message, wire: seq<seq<Cell>>, msg': Message, wire': seq<seq<Cell>>)
    requires copying != zeroCopy && copying.Valid() && mem != copying.sendBufferFixed
    requires copying.mtu == zeroCopy.mtu
    requires copying.superFrameNoGenerator == zeroCopy.superFrameNoGenerator
    requires 100 <= base <= base + |f.payload| <= mem.Length
    requires mem[base..base + |f.payload|] == DataCells(f.payload)
    modifies copying, copying.sendBufferFixed, zeroCopy, mem
    ensures msg == msg' && wire == wire'
    ensures copying.superFrameNoGenerator == zeroCopy.superFrameNoGenerator
  {
    msg, wire := copying.PackAndSendFromPtr(f);
    msg', wire' := zeroCopy.DestructivePackAndSendFromPtr(mem, base, f);
  }
}
