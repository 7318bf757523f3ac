/** The receiver as the program keeps it: bucket objects updated in place, buffers filled in place,
    and a map from delivery order to bucket. Every method is proved to do to the abstract state what
    the functions of Receiving and Delivery say. */
module ReceiverObjects {
  import opened Wire
  import opened Fragmenter
  import opened Buckets
  import opened Receiving
  import opened Delivery

  /** A superframe buffer, with the metadata it is given when it is delivered. */
  class SuperFrameObject {
    var frameSize: nat
    const frameData: array<Slot>
    var dataContent: byte
    var broken: bool
    var pts: u64
    var dts: u64
    var code: u32
    var streamId: byte
    var source: byte
    var flags: byte
    var superFrameNo: u16

    constructor (allocSize: nat)
      ensures fresh(frameData) && frameSize == allocSize && frameData[..] == Blank(allocSize)
    {
      frameSize := allocSize;
      frameData := new Slot[allocSize](_ => Unset);
      dataContent := CONTENT_UNKNOWN;
      broken := true;
      pts, dts, code := UINT64_MAX, UINT64_MAX, UINT32_MAX;
      streamId, source, flags, superFrameNo := 0, 0, 0, 0;
    }

    ghost function Value(): SuperFrame
      reads this, frameData
    {
      SuperFrame(frameSize, frameData[..])
    }

    /** Copies bytes into the buffer. */
    method CopyIn(at: nat, bytes: seq<byte>)
      requires CopyFits(frameData[..], at, bytes)
      modifies frameData
      ensures frameData[..] == Overlay(old(frameData[..]), at, bytes)
    {
      forall i | 0 <= i < |bytes| {
        frameData[at + i] := Byte(bytes[i]);
      }
    }
  }

  class BucketObject {
    var active: bool
    var dataContent: byte
    var savedSuperFrameNo: u16
    var timeout: int
    var fragmentCounter: u16
    var ofFragmentNo: u16
    var deliveryOrder: u64
    var fragmentSize: nat
    var pts: u64
    var dts: u64
    var code: u32
    var stream: byte
    var source: byte
    var flags: byte
    var haveReceivedFragment: set<nat>
    var bucketData: SuperFrameObject?

    constructor ()
      ensures Value() == FRESH && bucketData == null
    {
      active := false;
      dataContent := CONTENT_UNKNOWN;
      savedSuperFrameNo, timeout, fragmentCounter, ofFragmentNo := 0, 0, 0, 0;
      deliveryOrder := UINT64_MAX;
      fragmentSize := 0;
      pts, dts, code := UINT64_MAX, UINT64_MAX, UINT32_MAX;
      stream, source, flags := 0, 0, 0;
      haveReceivedFragment := {};
      bucketData := null;
    }

    /** The objects a bucket owns. */
    ghost function Footprint(): set<object>
      reads this
    {
      {this} + if bucketData == null then {} else {bucketData, bucketData.frameData}
    }

    ghost function Value(): Bucket
      reads this, Footprint()
    {
      Bucket(active, dataContent, savedSuperFrameNo, timeout, fragmentCounter, ofFragmentNo, deliveryOrder,
             fragmentSize, pts, dts, code, stream, source, flags, haveReceivedFragment,
             if bucketData == null then None else Some(bucketData.Value()))
    }

    /** What every packet sets when it opens the bucket. */
    method Claim(st: Stream, h: Header, lSource: byte, order: u64, lTimeout: int)
      modifies this
      ensures active && dataContent == st.content && code == st.code && savedSuperFrameNo == h.superFrameNo
      ensures timeout == lTimeout && fragmentCounter == 0 && ofFragmentNo == h.ofFragmentNo
      ensures deliveryOrder == order && stream == h.stream && source == lSource && flags == FlagBits(h.frameType)
    {
      deliveryOrder := order;
      active := true;
      source := lSource;
      flags := FlagBits(h.frameType);
      stream := h.stream;
      dataContent := st.content;
      code := st.code;
      savedSuperFrameNo := h.superFrameNo;
      timeout := lTimeout;
      fragmentCounter := 0;
      ofFragmentNo := h.ofFragmentNo;
    }

    /** What a type1 packet sets when it opens the bucket; `st` is the stream's table entry. The
        buffer is new and nothing is copied yet. */
    method PrepareType1(st: Stream, p: Packet, lSource: byte, order: u64, lTimeout: int)
      requires InRange(p) && p.header.Type1?
      modifies this
      ensures Value() == Prepared(st, p, lSource, order, lTimeout)
      ensures bucketData != null && fresh(bucketData) && fresh(bucketData.frameData)
    {
      var h := p.header;
      Claim(st, h, lSource, order, lTimeout);
      pts, dts := UINT64_MAX, UINT64_MAX;
      haveReceivedFragment := {h.fragmentNo};
      fragmentSize := |p.payload|;
      bucketData := new SuperFrameObject(Strides(fragmentSize, h.ofFragmentNo + 1));
      bucketData.frameSize := Strides(fragmentSize, h.ofFragmentNo);
    }

    /** What a type2 packet sets when it opens the bucket; `st` is the stream's table entry. The
        buffer is new and nothing is copied yet. */
    method PrepareType2(st: Stream, p: Packet, lSource: byte, order: u64, lTimeout: int)
      requires InRange(p) && p.header.Type2?
      modifies this
      ensures Value() == Prepared(st, p, lSource, order, lTimeout)
      ensures bucketData != null && fresh(bucketData) && fresh(bucketData.frameData)
    {
      var h := p.header;
      Claim(st, h, lSource, order, lTimeout);
      pts, dts := h.pts, DecodedDts(h.pts, h.dtsPtsDiff);
      haveReceivedFragment := {h.ofFragmentNo};
      fragmentSize := h.type1PacketSize;
      bucketData := new SuperFrameObject(Strides(fragmentSize, h.ofFragmentNo) + h.sizeOfData);
    }

    /** What a type3 packet sets when it opens the bucket; `st` is the stream's table entry. The
        buffer is new and nothing is copied yet. */
    method PrepareType3(st: Stream, p: Packet, lSource: byte, order: u64, lTimeout: int)
      requires InRange(p) && p.header.Type3?
      modifies this
      ensures Value() == Prepared(st, p, lSource, order, lTimeout)
      ensures bucketData != null && fresh(bucketData) && fresh(bucketData.frameData)
    {
      var h := p.header;
      Claim(st, h, lSource, order, lTimeout);
      pts, dts := UINT64_MAX, UINT64_MAX;
      haveReceivedFragment := {h.ofFragmentNo - 1};
      fragmentSize := h.type1PacketSize;
      bucketData := new SuperFrameObject(Strides(fragmentSize, h.ofFragmentNo - 1) + |p.payload|);
    }

    /** The copy that follows. */
    method CopyFirst(p: Packet)
      requires InRange(p) && bucketData != null
      requires CopyFits(bucketData.frameData[..], Strides(AnnouncedStride(p), PositionOf(p.header)), Carried(p))
      modifies Footprint() - {this}
      ensures bucketData == old(bucketData)
      ensures var was := old(Value());
              Value() == was.(frame := Some(was.frame.value.(data :=
                Overlay(was.frame.value.data, Strides(AnnouncedStride(p), PositionOf(p.header)), Carried(p)))))
    {
      bucketData.CopyIn(Strides(AnnouncedStride(p), PositionOf(p.header)), Carried(p));
    }

    /** Opens the bucket for a packet of any type; refuses a position past the last one. */
    method Open(st: Stream, p: Packet, lSource: byte, order: u64, lTimeout: int) returns (ok: bool)
      requires InRange(p) && FirstCopyFits(p)
      modifies this
      ensures ok <==> PositionOf(p.header) <= p.header.ofFragmentNo
      ensures Value() == if ok then Opened(st, p, lSource, order, lTimeout)
                         else Prepared(st, p, lSource, order, lTimeout).(active := false)
      ensures forall o :: o in Footprint() ==> o == this || fresh(o)
    {
      match p.header {
        case Type1(_, _, _, _, _) => PrepareType1(st, p, lSource, order, lTimeout);
        case Type2(_, _, _, _, _, _, _, _, _, _) => PrepareType2(st, p, lSource, order, lTimeout);
        case Type3(_, _, _, _, _) => PrepareType3(st, p, lSource, order, lTimeout);
      }
      ok := PositionOf(p.header) <= ofFragmentNo;
      if ok {
        CopyFirst(p);
      } else {
        active := false;
      }
    }

    /** A further packet of any type. */
    method Fill(p: Packet)
      requires InRange(p) && bucketData != null && (p.header.Type2? ==> p.header.sizeOfData <= |p.payload|)
      requires CopyFits(bucketData.frameData[..], InsertAt(Value(), p), Carried(p))
      modifies Footprint()
      ensures bucketData == old(bucketData) && Value() == Filled(old(Value()), p)
    {
      match p.header {
        case Type1(_, _, _, _, _) => FillType1(p);
        case Type2(_, _, _, _, _, _, _, _, _, _) => FillType2(p);
        case Type3(_, _, _, _, _) => FillType3(p);
      }
    }

    /** A further type1 packet. */
    method FillType1(p: Packet)
      requires InRange(p) && p.header.Type1? && bucketData != null
      requires CopyFits(bucketData.frameData[..], InsertAt(Value(), p), Carried(p))
      modifies Footprint()
      ensures bucketData == old(bucketData) && Value() == Filled(old(Value()), p)
    {
      haveReceivedFragment := haveReceivedFragment + {p.header.fragmentNo};
      fragmentCounter := Low16(fragmentCounter + 1);
      bucketData.CopyIn(Strides(fragmentSize, p.header.fragmentNo), p.payload);
    }

    /** A type2 packet for a bucket opened by another fragment. */
    method FillType2(p: Packet)
      requires InRange(p) && p.header.Type2? && bucketData != null && p.header.sizeOfData <= |p.payload|
      requires CopyFits(bucketData.frameData[..], InsertAt(Value(), p), Carried(p))
      modifies Footprint()
      ensures bucketData == old(bucketData) && Value() == Filled(old(Value()), p)
    {
      var h := p.header;
      if h.sizeOfData != 0 {
        bucketData.frameSize := Strides(fragmentSize, h.ofFragmentNo) + h.sizeOfData;
        bucketData.CopyIn(Strides(h.type1PacketSize, h.ofFragmentNo), p.payload[..h.sizeOfData]);
      }
      assert bucketData.Value() == old(FilledFrame(Value(), p));
      NoteType2(h);
    }

    /** The fields a type2 packet settles. */
    method NoteType2(h: Header)
      requires h.Type2?
      modifies `haveReceivedFragment, `pts, `dts, `code, `flags, `fragmentCounter, `stream, `dataContent
      ensures haveReceivedFragment == old(haveReceivedFragment) + {h.ofFragmentNo}
      ensures pts == h.pts && dts == DecodedDts(h.pts, h.dtsPtsDiff) && code == h.code
      ensures flags == FlagBits(h.frameType) && fragmentCounter == Low16(old(fragmentCounter) + 1)
      ensures stream == h.stream && dataContent == h.content
    {
      haveReceivedFragment := haveReceivedFragment + {h.ofFragmentNo};
      pts := h.pts;
      dts := DecodedDts(h.pts, h.dtsPtsDiff);
      code := h.code;
      flags := FlagBits(h.frameType);
      fragmentCounter := Low16(fragmentCounter + 1);
      stream := h.stream;
      dataContent := h.content;
    }

    /** A type3 packet for a bucket opened by another fragment. */
    method FillType3(p: Packet)
      requires InRange(p) && p.header.Type3? && bucketData != null
      requires CopyFits(bucketData.frameData[..], InsertAt(Value(), p), Carried(p))
      modifies Footprint()
      ensures bucketData == old(bucketData) && Value() == Filled(old(Value()), p)
    {
      var fragmentNo := p.header.ofFragmentNo - 1;
      haveReceivedFragment := haveReceivedFragment + {fragmentNo};
      fragmentCounter := Low16(fragmentCounter + 1);
      bucketData.frameSize := Strides(fragmentSize, fragmentNo) + |p.payload|;
      bucketData.CopyIn(Strides(fragmentSize, fragmentNo), p.payload);
    }

    /** Fills in the buffer's metadata, as it is done just before the buffer is handed out. */
    method AssembleData() returns (d: Delivery)
      requires bucketData != null
      modifies bucketData
      ensures Value() == old(Value()) && d == Assemble(Value())
    {
      bucketData.dataContent := dataContent;
      bucketData.broken := fragmentCounter != ofFragmentNo;
      bucketData.pts := pts;
      bucketData.dts := dts;
      bucketData.code := code;
      bucketData.streamId := stream;
      bucketData.source := source;
      bucketData.flags := flags;
      bucketData.superFrameNo := savedSuperFrameNo;
      d := Delivery(bucketData.frameSize, bucketData.frameData[..], bucketData.dataContent, bucketData.broken,
                    bucketData.pts, bucketData.dts, bucketData.code, bucketData.streamId, bucketData.source,
                    bucketData.flags, bucketData.superFrameNo);
    }
  }
}
