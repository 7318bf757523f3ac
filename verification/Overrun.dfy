/** When the copy a packet causes leaves the superframe buffer. */
module Overrun {
  import opened Wire
  import opened Fragmenter
  import opened Buckets
  import opened Reassembly
  import opened Receiving
  import opened Delivery
  import opened Channel
  import opened TooOld

  /** The room that the fragment at position i of a superframe of n bytes makes when it opens a bucket.
      Only a type1 packet makes room for any superframe with as many fragments. */
  function Room(n: nat, mtu: Mtu, i: nat): nat {
    var last := LastPosition(n, mtu);
    if i < Type1Count(n, mtu) then Strides(Type1Payload(mtu), last + 1)
    else if i == last && NeedsType3(n, mtu) then Strides(Type1Payload(mtu), last)
    else n
  }

  lemma Allocation(f: Media, no: u16, mtu: Mtu, i: nat)
    requires Accepted(f, mtu) && f.stream < 255 && i <= LastPosition(|f.payload|, mtu)
    ensures InRange(FragmentAt(f, no, mtu, i))
    ensures Reserved(FragmentAt(f, no, mtu, i)) == Room(|f.payload|, mtu, i)
  {
    if i == LastPosition(|f.payload|, mtu) {
      AllocationOfLast(f, no, mtu);
    } else {
      FragmentFacts(f, no, mtu, i);
    }
  }

  lemma AllocationOfLast(f: Media, no: u16, mtu: Mtu)
    requires Accepted(f, mtu) && f.stream < 255
    ensures var i := LastPosition(|f.payload|, mtu);
            InRange(FragmentAt(f, no, mtu, i)) && Reserved(FragmentAt(f, no, mtu, i)) == Room(|f.payload|, mtu, i)
  {
    FragmentFacts(f, no, mtu, LastPosition(|f.payload|, mtu));
    Shape(|f.payload|, mtu);
  }

  // ---------------------------------------------------------------------------------------
  // What a bucket has kept since it was opened, in any run

  /** Bucket i, if in use, has the size that its opening fragment gave it, and takes the number, the
      last position and the stride from there, whatever was filled in since. */
  ghost predicate KeepsRoom(l: Link, y: System, i: nat)
    requires Inv(y.s) && i < BUCKETS
  {
    var b := y.s.buckets[i];
    b.active ==>
      && i in y.owners && i in y.openers && OnLink(l, y.owners[i], y.openers[i])
      && var n := |l.sent[y.owners[i]].payload|;
         && b.savedNo == No(l, y.owners[i]) && b.ofNo == LastPosition(n, l.mtu) && b.fragmentSize == Stride(n, l.mtu)
         && b.frame.Some? && |b.frame.value.data| == Room(n, l.mtu, y.openers[i])
  }

  ghost predicate RoomsKept(l: Link, y: System)
    requires Inv(y.s)
  {
    forall i :: 0 <= i < BUCKETS ==> KeepsRoom(l, y, i)
  }

  lemma OpeningMakesRoom(l: Link, mode: Mode, y: System, e: Event)
    requires Inv(y.s) && Legal(l, e) && e.Arrive? && !y.s.buckets[Slot0(l, e.frame)].active
    ensures KeepsRoom(l, Step(l, mode, y, e), Slot0(l, e.frame))
  {
    Allocation(l.sent[e.frame], No(l, e.frame), l.mtu, e.position);
    FragmentFacts(l.sent[e.frame], No(l, e.frame), l.mtu, e.position);
  }

  lemma FillingKeepsRoom(l: Link, mode: Mode, y: System, e: Event)
    requires Inv(y.s) && Legal(l, e) && e.Arrive? && y.s.buckets[Slot0(l, e.frame)].active
    requires KeepsRoom(l, y, Slot0(l, e.frame))
    ensures KeepsRoom(l, Step(l, mode, y, e), Slot0(l, e.frame))
  {
    assert Filed(y.s, Slot0(l, e.frame));
    FillingKeepsSize(y.s, PacketOf(l, e.frame, e.position), l.source, e.now);
  }

  /** What a packet leaves as it is in a bucket that is in use. */
  lemma FillingKeepsSize(s: State, p: Packet, source: byte, now: int)
    requires Inv(s) && InRange(p) && s.buckets[Index(p.header.superFrameNo)].active
    ensures var i := Index(p.header.superFrameNo);
            var b, b' := s.buckets[i], Unpack(s, p, source, now).0.buckets[i];
            b'.active ==>
              && b'.savedNo == b.savedNo && b'.ofNo == b.ofNo && b'.fragmentSize == b.fragmentSize
              && (b.frame.Some? ==> b'.frame.Some? && |b'.frame.value.data| == |b.frame.value.data|)
  {
    assert Filed(s, Index(p.header.superFrameNo));
  }

  lemma StepKeepsRooms(l: Link, mode: Mode, y: System, e: Event)
    requires Inv(y.s) && Legal(l, e) && RoomsKept(l, y)
    ensures RoomsKept(l, Step(l, mode, y, e))
  {
    forall i | 0 <= i < BUCKETS ensures KeepsRoom(l, Step(l, mode, y, e), i) {
      assert KeepsRoom(l, y, i);
      if e.Tick? {
        PassContract(y.s, mode, e.now);
      } else if i != Slot0(l, e.frame) {
        UnpackTouches(y.s, PacketOf(l, e.frame, e.position), l.source, e.now);
      } else if y.s.buckets[i].active {
        FillingKeepsRoom(l, mode, y, e);
      } else {
        OpeningMakesRoom(l, mode, y, e);
      }
    }
  }

  lemma {:induction false} RunKeepsRooms(l: Link, mode: Mode, bucketTimeoutMs: u32, holTimeoutMs: u32, events: seq<Event>)
    requires forall e :: e in events ==> Legal(l, e)
    ensures RoomsKept(l, After(l, mode, Start(bucketTimeoutMs, holTimeoutMs), events))
  {
    if events != [] {
      var n := |events| - 1;
      RunKeepsRooms(l, mode, bucketTimeoutMs, holTimeoutMs, events[..n]);
      StepKeepsRooms(l, mode, After(l, mode, Start(bucketTimeoutMs, holTimeoutMs), events[..n]), events[n]);
    }
  }

  // ---------------------------------------------------------------------------------------
  // When a copy leaves the buffer

  /** The fragment at position i of f is taken by a bucket opened by the fragment at position o of g,
      and its bytes end, in their own superframe, beyond the room that one made. */
  ghost predicate Exceeds(f: Media, i: nat, g: Media, o: nat, mtu: Mtu) {
    Chunk(f.payload, mtu, i) != [] && ChunkStart(|f.payload|, mtu, i + 1) > Room(|g.payload|, mtu, o)
  }

  /** A bucket in use takes the arriving fragment, and it exceeds the room made by the fragment that
      opened the bucket. */
  ghost predicate LeavesBuffer(l: Link, y: System, e: Event)
    requires Inv(y.s) && Legal(l, e) && e.Arrive?
  {
    var i := Slot0(l, e.frame);
    && y.s.buckets[i].active && Takes(y.s.buckets[i], PacketOf(l, e.frame, e.position))
    && i in y.owners && i in y.openers && y.owners[i] < |l.sent|
    && Exceeds(l.sent[e.frame], e.position, l.sent[y.owners[i]], y.openers[i], l.mtu)
  }

  /** Where a bucket opened for g copies a fragment of f that it takes: to the fragment's offset in f. */
  lemma ForeignOffset(b: Bucket, g: Media, f: Media, no: u16, mtu: Mtu, i: nat)
    requires Accepted(g, mtu) && b.ofNo == LastPosition(|g.payload|, mtu) && b.fragmentSize == Stride(|g.payload|, mtu)
    requires Accepted(f, mtu) && f.stream < 255 && i <= LastPosition(|f.payload|, mtu)
    requires LastPosition(|f.payload|, mtu) == b.ofNo
    ensures var p := FragmentAt(f, no, mtu, i);
            && InRange(p) && Carried(p) == Chunk(f.payload, mtu, i)
            && (Carried(p) != [] ==> InsertAt(b, p) + |Carried(p)| == ChunkStart(|f.payload|, mtu, i + 1))
  {
    FragmentFacts(f, no, mtu, i);
  }

  /** For any arrival, with or without the channel's promise about equal numbers, now or before: this is
      exactly when the copy leaves the buffer. */
  lemma CopyFitsIff(l: Link, y: System, e: Event)
    requires Inv(y.s) && Legal(l, e) && e.Arrive? && RoomsKept(l, y)
    ensures CopiesFit(y.s, PacketOf(l, e.frame, e.position)) <==> !LeavesBuffer(l, y, e)
  {
    var k := e.frame;
    var b := y.s.buckets[Slot0(l, k)];
    assert KeepsRoom(l, y, Slot0(l, k));
    if b.active {
      if Takes(b, PacketOf(l, k, e.position)) {
        ForeignOffset(b, l.sent[y.owners[Slot0(l, k)]], l.sent[k], No(l, k), l.mtu, e.position);
      }
    } else {
      ReservedEnough(l.sent[k], No(l, k), l.mtu, e.position);
    }
  }

  /** So it is over whole runs, whatever the channel does. */
  lemma CopyFitsOverRuns(l: Link, mode: Mode, bucketTimeoutMs: u32, holTimeoutMs: u32, events: seq<Event>)
    requires forall e :: e in events ==> Legal(l, e)
    ensures events != [] && events[|events| - 1].Arrive? ==>
              var last := events[|events| - 1];
              assert last in events;
              assert Legal(l, last);
              var y := After(l, mode, Start(bucketTimeoutMs, holTimeoutMs), events[..|events| - 1]);
              (CopiesFit(y.s, PacketOf(l, last.frame, last.position)) <==> !LeavesBuffer(l, y, last))
  {
    if events != [] && events[|events| - 1].Arrive? {
      var n := |events| - 1;
      RunKeepsRooms(l, mode, bucketTimeoutMs, holTimeoutMs, events[..n]);
      CopyFitsIff(l, After(l, mode, Start(bucketTimeoutMs, holTimeoutMs), events[..n]), events[n]);
    }
  }

  /** The fragments of 487 and of 504 bytes at an MTU of 255: both have positions 0, 1 and 2. */
  lemma TwoSizes(mtu: Mtu)
    requires mtu == 255
    ensures LastPosition(487, mtu) == LastPosition(504, mtu) == 2
    ensures Type1Count(487, mtu) == 1 && NeedsType3(487, mtu)
    ensures ChunkStart(504, mtu, 2) == 494 && ChunkStart(504, mtu, 3) == 504
  {
    WholeAt(487, 247, 1);
    WholeAt(504, 247, 2);
    Shape(504, mtu);
  }

  /** The type3 packet of a superframe of 487 bytes opens the bucket and reserves 487 bytes. The
      closing packet of a superframe of 504 bytes sent 65536 later is accepted, and copies its 10
      bytes to offset 494. */
  lemma CopyLeavesBuffer(l: Link, mode: Mode, bucketTimeoutMs: u32, holTimeoutMs: u32, k: nat, now: int)
      returns (y: System)
    requires l.mtu == 255 && k + TWO16 < |l.sent|
    requires |l.sent[k].payload| == 487 && |l.sent[k + TWO16].payload| == 504
    ensures OnLink(l, k, 1) && OnLink(l, k + TWO16, 2) && Inv(y.s)
    ensures y == Step(l, mode, Start(bucketTimeoutMs, holTimeoutMs), Arrive(k, 1, now))
    ensures !CopiesFit(y.s, PacketOf(l, k + TWO16, 2))
    ensures Answer(l, y, Arrive(k + TWO16, 2, now)) == NoError
  {
    TwoSizes(l.mtu);
    SameSlot(l, k);
    y := FirstOpens(l, mode, bucketTimeoutMs, holTimeoutMs, k, 1, now);
    assert RoomsKept(l, Start(bucketTimeoutMs, holTimeoutMs));
    StepKeepsRooms(l, mode, Start(bucketTimeoutMs, holTimeoutMs), Arrive(k, 1, now));
    CopyFitsIff(l, y, Arrive(k + TWO16, 2, now));
  }

  lemma SuchALink() returns (l: Link)
    ensures l.mtu == 255 && 0 + TWO16 < |l.sent|
    ensures |l.sent[0].payload| == 487 && |l.sent[0 + TWO16].payload| == 504
  {
    var first := Media(seq(487, _ => 7), 0x83, 1000, 1000, 0, 1, 0);
    var later := first.(payload := seq(504, _ => 7));
    assert Accepted(first, 255) && Accepted(later, 255);
    l := Link(seq(TWO16 + 1, k => if k == 0 then first else later), 0, 255, 0);
  }
}
