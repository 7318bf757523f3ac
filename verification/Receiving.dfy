/** The receiver's state and what one incoming packet does to it. */
module Receiving {
  import opened Wire
  import opened Fragmenter
  import opened Buckets
  import opened Sequencing

  const BUCKETS := 8192
  const STREAMS := 255

  /** The receiver between two calls. The map sends a delivery order to the index of the bucket it
      points at; the program sorts it by key. */
  datatype State = State(
    buckets: seq<Bucket>,
    bucketMap: map<u64, nat>,
    streams: seq<Stream>,
    unwrapper: Unwrapper,
    holFirstRun: bool,
    nextExpected: u64,
    bucketTimeoutMs: u32,
    holTimeoutMs: u32)

  predicate Sized(s: State) {
    |s.buckets| == BUCKETS && |s.streams| == STREAMS
  }

  /** Milliseconds to microseconds in 32-bit arithmetic. */
  function Micros(ms: u32): u32 {
    (ms * 1000) % TWO32
  }

  function Initial(bucketTimeoutMs: u32, holTimeoutMs: u32): (s: State)
    ensures Sized(s)
  {
    State(seq(BUCKETS, _ => FRESH), map[], seq(STREAMS, _ => NO_STREAM), START, true, 0,
          bucketTimeoutMs, holTimeoutMs)
  }

  /** The bucket a superframe number selects: its low 13 bits. */
  function Index(no: u16): (i: nat)
    ensures i < BUCKETS
  {
    no % BUCKETS
  }

  // ---------------------------------------------------------------------------------------
  // One packet

  /** A packet for a bucket that is not in use. */
  function OpenBucket(s: State, p: Packet, source: byte, now: int): (State, Message)
    requires Sized(s) && InRange(p)
  {
    var h := p.header;
    var i := Index(h.superFrameNo);
    var s1 := s.(unwrapper := Unwrap(s.unwrapper, h.superFrameNo));
    var order := s1.unwrapper.recalc;
    if order == s.buckets[i].order then (s1, TooOldFragment)
    else
      var st := Declared(s.streams[h.stream], p);
      var timeout := now + Micros(s.bucketTimeoutMs);
      var s2 := s1.(streams := s.streams[h.stream := st]);
      if h.ofFragmentNo < PositionOf(h) then
        var b := Prepared(st, p, source, order, timeout);
        (s2.(bucketMap := s.bucketMap[order := i] - {order}, buckets := s.buckets[i := b.(active := false)]),
         BufferOutOfBounds)
      else
        var b := Opened(st, p, source, order, timeout);
        (s2.(bucketMap := s.bucketMap[order := i], buckets := s.buckets[i := b]), NoError)
  }

  /** A packet for a bucket in use. */
  function FillBucket(s: State, p: Packet): (State, Message)
    requires Sized(s) && InRange(p) && s.buckets[Index(p.header.superFrameNo)].frame.Some?
  {
    var h := p.header;
    var i := Index(h.superFrameNo);
    var b := s.buckets[i];
    if h.superFrameNo != b.savedNo then (s, BufferOutOfResources)
    else if b.ofNo < PositionOf(h) || h.ofFragmentNo != b.ofNo then
      (s.(bucketMap := s.bucketMap - {b.order}, buckets := s.buckets[i := b.(active := false)]), BufferOutOfBounds)
    else if PositionOf(h) in b.received then (s, DuplicatePacketReceived)
    else
      (s.(streams := s.streams[h.stream := Declared(s.streams[h.stream], p)],
          buckets := s.buckets[i := Filled(b, p)]),
       NoError)
  }

  // ---------------------------------------------------------------------------------------
  // The invariant tying map, bucket array and unwrapper together

  /** A bucket in use is filed in the map under its delivery order, which also determines its index
      and the superframe number it was opened with; it owns a buffer and counts its fragments. */
  ghost predicate Filed(s: State, i: nat)
    requires Sized(s) && i < BUCKETS
  {
    var b := s.buckets[i];
    b.active ==>
      && b.order in s.bucketMap
      && b.order % BUCKETS == i && b.order % TWO16 == b.savedNo
      && b.frame.Some? && Counted(b)
  }

  /** A map entry points at the bucket in use that has the entry's key as delivery order. */
  ghost predicate Points(s: State, k: u64)
    requires Sized(s)
  {
    k in s.bucketMap ==>
      s.bucketMap[k] == k % BUCKETS && s.buckets[k % BUCKETS].active && s.buckets[k % BUCKETS].order == k
  }

  ghost predicate Inv(s: State) {
    && Sized(s)
    && Consistent(s.unwrapper)
    && (forall i :: 0 <= i < BUCKETS ==> Filed(s, i))
    && (forall k: u64 :: Points(s, k))
  }

  /** The keys of the map are exactly the delivery orders of the buckets in use. */
  lemma KeysAreActiveOrders(s: State)
    requires Inv(s)
    ensures s.bucketMap.Keys == set i | 0 <= i < BUCKETS && s.buckets[i].active :: s.buckets[i].order
    ensures forall i, j :: 0 <= i < j < BUCKETS && s.buckets[i].active && s.buckets[j].active
                           ==> s.buckets[i].order != s.buckets[j].order
  {
    forall k: u64 | k in s.bucketMap
      ensures exists i :: 0 <= i < BUCKETS && s.buckets[i].active && s.buckets[i].order == k
    {
      assert Points(s, k);
    }
    forall i | 0 <= i < BUCKETS && s.buckets[i].active
      ensures s.buckets[i].order in s.bucketMap && s.buckets[i].order % BUCKETS == i
    {
      assert Filed(s, i);
    }
  }

  lemma InitialInv(bucketTimeoutMs: u32, holTimeoutMs: u32)
    ensures Inv(Initial(bucketTimeoutMs, holTimeoutMs))
  {
  }

  /** A state in which a call finds and leaves the receiver. */
  type ValidState = s: State | Inv(s) ghost witness Initial(0, 0)

  lemma LowBitsOfIndex(order: u64)
    ensures order % TWO16 % BUCKETS == order % BUCKETS
  {
    assert order == TWO16 * (order / TWO16) + order % TWO16;
  }

  /** The order computed for a packet whose bucket is not in use selects that bucket, and no map
      entry has it: opening never overwrites another bucket's entry. */
  lemma OpeningIsFresh(s: State, no: u16)
    requires Inv(s) && !s.buckets[Index(no)].active
    ensures var u := Unwrap(s.unwrapper, no);
            && Consistent(u) && u.recalc % TWO16 == no && u.recalc % BUCKETS == Index(no)
            && u.recalc !in s.bucketMap
  {
    UnwrapConsistent(s.unwrapper, no);
    var order := Unwrap(s.unwrapper, no).recalc;
    LowBitsOfIndex(order);
    assert Points(s, order);
  }

  /** If opening a bucket for the packet copies its bytes, they fit the buffer it allocates. */
  predicate FirstCopyFits(p: Packet)
    requires InRange(p)
  {
    PositionOf(p.header) <= p.header.ofFragmentNo ==>
      CopyFits(Blank(Reserved(p)), Strides(AnnouncedStride(p), PositionOf(p.header)), Carried(p))
  }

  /** A bucket in use takes the packet's bytes. */
  predicate Takes(b: Bucket, p: Packet) {
    p.header.superFrameNo == b.savedNo && p.header.ofFragmentNo == b.ofNo
    && PositionOf(p.header) <= b.ofNo && PositionOf(p.header) !in b.received
  }

  /** The copy a packet causes, if it causes one, stays inside the buffer, as copying in the program
      demands. */
  predicate CopiesFit(s: State, p: Packet)
    requires Sized(s) && InRange(p)
  {
    var b := s.buckets[Index(p.header.superFrameNo)];
    if b.active then b.frame.Some? && Takes(b, p) ==> CopyFits(b.frame.value.data, InsertAt(b, p), Carried(p))
    else Unwrap(s.unwrapper, p.header.superFrameNo).recalc != b.order ==> FirstCopyFits(p)
  }

  /** The three unpack methods. A type2 packet shorter than it says is refused before anything else. */
  function Unpack(s: State, p: Packet, source: byte, now: int): (State, Message)
    requires Inv(s) && InRange(p)
  {
    var i := Index(p.header.superFrameNo);
    assert Filed(s, i);
    if p.header.Type2? && |p.payload| < p.header.sizeOfData then (s, Type2FrameOutOfBounds)
    else if s.buckets[i].active then FillBucket(s, p)
    else OpenBucket(s, p, source, now)
  }

  /** Every packet with in-range headers keeps the invariant, whatever else it contains. */
  lemma UnpackKeepsInv(s: State, p: Packet, source: byte, now: int)
    requires Inv(s) && InRange(p)
    ensures Inv(Unpack(s, p, source, now).0)
  {
    var i := Index(p.header.superFrameNo);
    assert Filed(s, i);
    if p.header.Type2? && |p.payload| < p.header.sizeOfData {
    } else if s.buckets[i].active {
      FillKeepsInv(s, p);
    } else {
      OpenKeepsInv(s, p, source, now);
    }
  }

  lemma OpenKeepsInv(s: State, p: Packet, source: byte, now: int)
    requires Inv(s) && InRange(p) && !s.buckets[Index(p.header.superFrameNo)].active
    ensures Inv(OpenBucket(s, p, source, now).0)
  {
    var no := p.header.superFrameNo;
    var i := Index(no);
    var (s', msg) := OpenBucket(s, p, source, now);
    OpeningIsFresh(s, no);
    var order := Unwrap(s.unwrapper, no).recalc;
    if msg.NoError? {
      OpenedCounted(s'.streams[p.header.stream], p, source, order, now + Micros(s.bucketTimeoutMs));
    }
    forall j | 0 <= j < BUCKETS ensures Filed(s', j) {
      assert Filed(s, j);
      assert j != i && s.buckets[j].active ==> s.buckets[j].order != order;
    }
    forall k: u64 ensures Points(s', k) {
      assert Points(s, k);
    }
  }

  lemma FillKeepsInv(s: State, p: Packet)
    requires Inv(s) && InRange(p) && s.buckets[Index(p.header.superFrameNo)].active
    ensures s.buckets[Index(p.header.superFrameNo)].frame.Some?
    ensures Inv(FillBucket(s, p).0)
  {
    var i := Index(p.header.superFrameNo);
    var b := s.buckets[i];
    assert Filed(s, i);
    var (s', msg) := FillBucket(s, p);
    if msg.NoError? {
      FilledCounted(b, p);
    }
    forall j | 0 <= j < BUCKETS ensures Filed(s', j) {
      assert Filed(s, j);
    }
    forall k: u64 ensures Points(s', k) {
      assert Points(s, k);
    }
  }

  // ---------------------------------------------------------------------------------------
  // What each answer means

  /** A packet touches its own bucket, that bucket's map entry and its own stream's entry at most. */
  lemma UnpackTouches(s: State, p: Packet, source: byte, now: int)
    requires Inv(s) && InRange(p)
    ensures var s' := Unpack(s, p, source, now).0;
            var i := Index(p.header.superFrameNo);
            && |s'.buckets| == BUCKETS && |s'.streams| == STREAMS
            && (forall j :: 0 <= j < BUCKETS && j != i ==> s'.buckets[j] == s.buckets[j])
            && (forall k: u64 :: k % BUCKETS != i ==> (k in s'.bucketMap <==> k in s.bucketMap))
            && (forall st :: 0 <= st < STREAMS && st != p.header.stream ==> s'.streams[st] == s.streams[st])
            && s'.holFirstRun == s.holFirstRun && s'.nextExpected == s.nextExpected
            && s'.bucketTimeoutMs == s.bucketTimeoutMs && s'.holTimeoutMs == s.holTimeoutMs
            && (s'.unwrapper == if s.buckets[i].active || (p.header.Type2? && |p.payload| < p.header.sizeOfData)
                                then s.unwrapper else Unwrap(s.unwrapper, p.header.superFrameNo))
  {
    var i := Index(p.header.superFrameNo);
    assert Filed(s, i);
    if !s.buckets[i].active {
      OpeningIsFresh(s, p.header.superFrameNo);
    }
  }

  /** An accepted packet adds its position to what its bucket holds, and only its position. The
      time-out is set by the fragment that opens the bucket and never moved. */
  lemma AcceptedAdds(s: State, p: Packet, source: byte, now: int)
    requires Inv(s) && InRange(p) && Unpack(s, p, source, now).1.NoError?
    ensures var s' := Unpack(s, p, source, now).0;
            var b, b' := s.buckets[Index(p.header.superFrameNo)], s'.buckets[Index(p.header.superFrameNo)];
            && b'.active && PositionOf(p.header) in b'.received
            && b'.received - {PositionOf(p.header)} == (if b.active then b.received else {})
            && b'.savedNo == p.header.superFrameNo && b'.ofNo == p.header.ofFragmentNo
            && b'.timeout == (if b.active then b.timeout else now + 1000 * s.bucketTimeoutMs % 0x1_0000_0000)
            && (b.active ==> b'.order == b.order && b'.source == b.source)
            && (p.header.Type2? ==> s'.streams[p.header.stream] == Stream(b'.content, b'.code))
            && (!p.header.Type2? ==> s'.streams == s.streams)
            && (!b.active && !p.header.Type2? ==> s.streams[p.header.stream] == Stream(b'.content, b'.code))
  {
    assert Filed(s, Index(p.header.superFrameNo));
  }

  /** Which answer a packet gets. One that is shorter than it says is refused whatever its bucket holds.
      A bucket in use takes packets of its number and last position, each position once, and is freed by
      one of its number with another last position. A bucket not in use refuses the order it remembers. */
  lemma AnswerIff(s: State, p: Packet, source: byte, now: int)
    requires Inv(s) && InRange(p)
    ensures var msg := Unpack(s, p, source, now).1;
            var h, b := p.header, s.buckets[Index(p.header.superFrameNo)];
            var short := h.Type2? && |p.payload| < h.sizeOfData;
            var known := Unwrap(s.unwrapper, h.superFrameNo).recalc == b.order;
            && (msg.Type2FrameOutOfBounds? <==> short)
            && (msg.BufferOutOfResources? <==> !short && b.active && b.savedNo != h.superFrameNo)
            && (msg.BufferOutOfBounds? <==>
                 !short && if b.active then b.savedNo == h.superFrameNo && !(PositionOf(h) <= h.ofFragmentNo == b.ofNo)
                           else !known && PositionOf(h) > h.ofFragmentNo)
            && (msg.DuplicatePacketReceived? <==>
                 && !short && b.active && b.savedNo == h.superFrameNo
                 && PositionOf(h) <= h.ofFragmentNo == b.ofNo && PositionOf(h) in b.received)
            && (msg.TooOldFragment? <==> !short && !b.active && known)
            && (msg.NoError? <==>
                 && !short && PositionOf(h) <= h.ofFragmentNo
                 && if b.active then Takes(b, p) else !known)
  {
    assert Filed(s, Index(p.header.superFrameNo));
  }

  /** A refused packet leaves the receiver as it was, except that one refused as too old is still
      unwrapped, and one out of bounds frees its bucket together with its map entry. */
  lemma RefusedChanges(s: State, p: Packet, source: byte, now: int)
    requires Inv(s) && InRange(p) && !Unpack(s, p, source, now).1.NoError?
    ensures var (s', msg) := Unpack(s, p, source, now);
            var i := Index(p.header.superFrameNo);
            && msg in {TooOldFragment, DuplicatePacketReceived, BufferOutOfResources, BufferOutOfBounds,
                       Type2FrameOutOfBounds}
            && (msg.TooOldFragment? ==>
                 !s.buckets[i].active && s' == s.(unwrapper := Unwrap(s.unwrapper, p.header.superFrameNo)))
            && (msg in {DuplicatePacketReceived, BufferOutOfResources, Type2FrameOutOfBounds} ==> s' == s)
            && (msg.BufferOutOfBounds? ==>
                 && !s'.buckets[i].active && (forall k :: k in s'.bucketMap ==> k % BUCKETS != i)
                 && (if s.buckets[i].active then s'.buckets[i] == s.buckets[i].(active := false)
                     else s'.buckets[i].order == s'.unwrapper.recalc))
  {
    var i := Index(p.header.superFrameNo);
    assert Filed(s, i);
    UnpackKeepsInv(s, p, source, now);
    var s' := Unpack(s, p, source, now).0;
    forall k | k in s'.bucketMap ensures s'.buckets[k % BUCKETS].active {
      assert Points(s', k);
    }
  }
}
