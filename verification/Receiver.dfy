/** The receiver object and its methods. */
module ReceiverClass {
  import opened Wire
  import opened Fragmenter
  import opened Sequencing
  import opened Buckets
  import opened Receiving
  import opened Delivery
  import opened FirstPass
  import opened ScanSteps
  import opened ReceiverObjects

  /** The map on indices: each entry points at the bucket its key selects. */
  ghost function Indices(m: map<u64, BucketObject>): map<u64, nat> {
    map k | k in m :: k % BUCKETS
  }

  lemma IndicesAdded(m: map<u64, BucketObject>, k: u64, b: BucketObject)
    ensures Indices(m[k := b]) == Indices(m)[k := k % BUCKETS]
  {
  }

  lemma IndicesRemoved(m: map<u64, BucketObject>, ks: set<u64>)
    ensures Indices(m - ks) == Indices(m) - ks
  {
  }

  /** All objects a sequence of buckets owns. */
  ghost function Owned(bs: seq<BucketObject>): set<object>
    reads bs
  {
    set b, o | b in bs && o in b.Footprint() :: o
  }

  /** The superframe buffers a sequence of buckets owns. */
  ghost function Frames(bs: seq<BucketObject>): set<object>
    reads bs
  {
    set b | b in bs && b.bucketData != null :: b.bucketData
  }

  lemma FramesOwned(bs: seq<BucketObject>)
    ensures forall o :: o in Frames(bs) ==> o in Owned(bs)
    ensures forall b :: b in bs ==> b in Owned(bs)
  {
    forall o | o in Frames(bs) ensures o in Owned(bs) {
      var b :| b in bs && b.bucketData == o;
      assert o in b.Footprint();
    }
    forall b | b in bs ensures b in Owned(bs) {
      assert b in b.Footprint();
    }
  }

  /** The buckets are separate objects and share no buffers. */
  ghost predicate Apart(bs: seq<BucketObject>)
    reads bs
  {
    forall i, j :: 0 <= i < |bs| && 0 <= j < |bs| && i != j ==> Separate(bs, i, j)
  }

  ghost predicate Separate(bs: seq<BucketObject>, i: nat, j: nat)
    requires i < |bs| && j < |bs|
    reads bs
  {
    bs[i].Footprint() !! bs[j].Footprint()
  }

  ghost function Values(bs: seq<BucketObject>): (vs: seq<Bucket>)
    reads bs, Owned(bs)
    ensures |vs| == |bs|
  {
    seq(|bs|, i requires 0 <= i < |bs| reads bs, Owned(bs) => bs[i].Value())
  }

  /** The bucket object's value after the packet that claims it. */
  function Claimed(st: Stream, p: Packet, source: byte, order: u64, timeout: int): Bucket
    requires InRange(p)
  {
    if PositionOf(p.header) <= p.header.ofFragmentNo then Opened(st, p, source, order, timeout)
    else Prepared(st, p, source, order, timeout).(active := false)
  }

  lemma OpenBucketClaims(s: State, p: Packet, source: byte, now: int)
    requires Sized(s) && InRange(p)
    ensures var i := Index(p.header.superFrameNo);
            var u := Unwrap(s.unwrapper, p.header.superFrameNo);
            var st := Declared(s.streams[p.header.stream], p);
            var filed := s.bucketMap[u.recalc := i];
            var ok := PositionOf(p.header) <= p.header.ofFragmentNo;
            u.recalc != s.buckets[i].order ==>
            OpenBucket(s, p, source, now) ==
              (s.(unwrapper := u, streams := s.streams[p.header.stream := st],
                  buckets := s.buckets[i := Claimed(st, p, source, u.recalc, now + Micros(s.bucketTimeoutMs))],
                  bucketMap := if ok then filed else filed - {u.recalc}),
               if ok then NoError else BufferOutOfBounds)
  {
  }

  /** What a call with the bytes of a packet leaves, answers and hands to the host. */
  function Answered(s: State, cells: seq<Cell>, source: byte, mode: Mode, threadsActive: bool, arrives: int, checks: int)
    : (State, Message, seq<Delivery>)
    requires Inv(s) && cells != [] && cells[0].Head?
    requires |cells| >= HeaderSize(cells[0].h) && Nibble(cells[0].h.frameType) in {1, 2, 3} ==>
               Decode(cells).Some? && InRange(Decode(cells).value)
  {
    if mode.Threaded? && !threadsActive then (s, ReceiverNotRunning, [])
    else if Nibble(cells[0].h.frameType) == 0 then (s, Type0Frame, [])
    else if Nibble(cells[0].h.frameType) > 3 then (s, UnknownFrameType, [])
    else if |cells| < HeaderSize(cells[0].h) then (s, FrameSizeMismatch, [])
    else
      var p := Decode(cells).value;
      UnpackKeepsInv(s, p, source, arrives);
      var (s1, msg) := Receiving.Unpack(s, p, source, arrives);
      if mode.Threaded? then (s1, msg, [])
      else
        PassContract(s1, mode, checks);
        var (s2, keys) := Pass(s1, mode, checks);
        (s2, msg, Deliveries(s1, keys))
  }

  /** The bucket list of a new receiver. */
  method NewBuckets() returns (bs: seq<BucketObject>)
    ensures |bs| == BUCKETS
    ensures forall b :: b in bs ==> fresh(b) && b.bucketData == null && b.Value() == FRESH
    ensures forall i, j :: 0 <= i < j < |bs| ==> bs[i] != bs[j]
  {
    bs := [];
    while |bs| < BUCKETS
      invariant |bs| <= BUCKETS
      invariant forall b :: b in bs ==> fresh(b) && b.bucketData == null && b.Value() == FRESH
      invariant forall i, j :: 0 <= i < j < |bs| ==> bs[i] != bs[j]
    {
      var b := new BucketObject();
      bs := bs + [b];
    }
  }

  class Receiver {
    const buckets: seq<BucketObject>
    var bucketMap: map<u64, BucketObject>
    const streams: array<Stream>
    var oldSuperFrameNumber: u16
    var superFrameRecalc: u64
    var superFrameFirstTime: bool
    var deliveryHolFirstRun: bool
    var nextExpectedFrameNumber: u64
    const bucketTimeoutMs: u32
    const holTimeoutMs: u32
    var superFrameQueue: seq<Delivery>
    var superFrameReady: bool

    // -------------------------------------------------------------------------------------
    // The abstract state

    ghost function Repr(): set<object>
      reads this, buckets
    {
      {this, streams} + Owned(buckets)
    }

    /** A map entry points at the bucket its key selects. */
    ghost predicate Shape()
      reads this, buckets
    {
      && |buckets| == BUCKETS && streams.Length == STREAMS && Apart(buckets)
      && (forall k :: k in bucketMap ==> bucketMap[k] == buckets[k % BUCKETS])
    }

    ghost function Model(): State
      reads this, buckets, Repr()
    {
      State(Values(buckets), Indices(bucketMap), streams[..],
            Unwrapper(superFrameFirstTime, oldSuperFrameNumber, superFrameRecalc),
            deliveryHolFirstRun, nextExpectedFrameNumber, bucketTimeoutMs, holTimeoutMs)
    }

    ghost predicate Valid()
      reads this, buckets, Repr()
    {
      Shape() && Inv(Model())
    }

    constructor (bucketTimeoutMasterMs: u32, holTimeoutMasterMs: u32)
      ensures Valid() && fresh(Repr()) && Model() == Initial(bucketTimeoutMasterMs, holTimeoutMasterMs)
      ensures superFrameQueue == [] && !superFrameReady
    {
      var bs := NewBuckets();
      buckets := bs;
      bucketMap := map[];
      streams := new Stream[STREAMS](_ => NO_STREAM);
      oldSuperFrameNumber, superFrameRecalc, superFrameFirstTime := 0, 0, true;
      deliveryHolFirstRun, nextExpectedFrameNumber := true, 0;
      superFrameQueue, superFrameReady := [], false;
      bucketTimeoutMs, holTimeoutMs := bucketTimeoutMasterMs, holTimeoutMasterMs;
      new;
      NewIsInitial();
    }

    lemma NewIsInitial()
      requires |buckets| == BUCKETS && (forall b :: b in buckets ==> b.bucketData == null && b.Value() == FRESH)
      requires bucketMap == map[] && streams[..] == seq(STREAMS, _ => NO_STREAM)
      requires superFrameFirstTime && oldSuperFrameNumber == superFrameRecalc == 0
      requires deliveryHolFirstRun && nextExpectedFrameNumber == 0
      ensures Model() == Initial(bucketTimeoutMs, holTimeoutMs) && Inv(Model())
    {
      InitialInv(bucketTimeoutMs, holTimeoutMs);
      assert Values(buckets) == Initial(bucketTimeoutMs, holTimeoutMs).buckets;
    }

    // -------------------------------------------------------------------------------------
    // One packet

    /** Only bucket i was touched, and possibly given a new buffer. */
    twostate lemma BucketReplaced(i: nat)
      requires old(Apart(buckets)) && i < |buckets|
      requires forall o :: o in old(Owned(buckets)) && o !in old(buckets[i].Footprint()) ==> unchanged(o)
      requires forall o :: o in buckets[i].Footprint() ==> o in old(buckets[i].Footprint()) || !old(allocated(o))
      ensures Apart(buckets)
      ensures Values(buckets) == old(Values(buckets))[i := buckets[i].Value()]
    {
      forall j | 0 <= j < |buckets| && j != i
        ensures buckets[j].Footprint() == old(buckets[j].Footprint()) && buckets[j].Value() == old(buckets[j].Value())
        ensures Separate(buckets, i, j) && Separate(buckets, j, i)
      {
        assert old(Separate(buckets, i, j));
        assert buckets[j] in old(buckets[j].Footprint());
      }
      forall j, k | 0 <= j < |buckets| && 0 <= k < |buckets| && j != k
        ensures Separate(buckets, j, k)
      {
        assert old(Separate(buckets, j, k));
      }
    }

    /** The bucket a packet selects owns what it did, and new objects. */
    twostate predicate Grown(p: Packet)
      requires |buckets| == BUCKETS
      reads this, buckets, buckets[Index(p.header.superFrameNo)].Footprint()
    {
      var b := buckets[Index(p.header.superFrameNo)];
      forall o :: o in b.Footprint() ==> o in old(b.Footprint()) || fresh(o)
    }

    /** So the buffers are those there were, and new ones. */
    twostate lemma FramesGrown(p: Packet)
      requires |buckets| == BUCKETS && Grown(p)
      requires forall j :: 0 <= j < BUCKETS && j != Index(p.header.superFrameNo) ==> unchanged(buckets[j])
      ensures forall o :: o in Owned(buckets) || o in Frames(buckets) ==> o in old(Owned(buckets)) || fresh(o)
    {
      forall o | o in Frames(buckets) ensures o in Owned(buckets) {
        var b :| b in buckets && b.bucketData == o;
        assert o in b.Footprint();
      }
      forall j, o | 0 <= j < BUCKETS && o in buckets[j].Footprint()
        ensures o in old(Owned(buckets)) || fresh(o)
      {
        assert buckets[j] in buckets;
      }
    }

    /** Every bucket has the buffer it had, or none. */
    twostate predicate Shrunk()
      reads this, buckets
    {
      forall b :: b in buckets ==> b.bucketData == null || b.bucketData == old(b.bucketData)
    }

    /** Then the buckets own no more than they did. */
    twostate lemma ShrunkOwned()
      requires Shrunk()
      ensures Owned(buckets) <= old(Owned(buckets))
    {
      forall o | o in Owned(buckets) ensures o in old(Owned(buckets)) {
        var b :| b in buckets && o in b.Footprint();
        assert o in old(b.Footprint());
      }
    }

    /** What is not in the footprint does not matter. */
    twostate lemma Untouched()
      requires forall o :: o in old(Repr()) ==> unchanged(o)
      ensures Repr() == old(Repr()) && Model() == old(Model()) && Shape() == old(Shape())
      ensures superFrameQueue == old(superFrameQueue)
    {
      assert this in old(Repr()) && streams in old(Repr());
      forall b | b in buckets ensures b.Footprint() == old(b.Footprint()) && b.Value() == old(b.Value()) {
        assert forall o :: o in old(b.Footprint()) ==> o in old(Repr());
        assert b in old(b.Footprint());
        if old(b.bucketData) != null {
          assert old(b.bucketData) in old(b.Footprint()) && old(b.bucketData.frameData) in old(b.Footprint());
        }
      }
      assert Values(buckets) == old(Values(buckets));
      assert Owned(buckets) == old(Owned(buckets));
      assert Apart(buckets) == old(Apart(buckets)) by {
        forall i, j | 0 <= i < |buckets| && 0 <= j < |buckets|
          ensures Separate(buckets, i, j) == old(Separate(buckets, i, j))
        {
          assert buckets[i] in buckets && buckets[j] in buckets;
        }
      }
    }

    /** Unwraps a superframe number. */
    method SuperFrameRecalculator(no: u16) returns (order: u64)
      requires Apart(buckets)
      modifies `oldSuperFrameNumber, `superFrameRecalc, `superFrameFirstTime
      ensures Unwrapper(superFrameFirstTime, oldSuperFrameNumber, superFrameRecalc)
              == Unwrap(old(Unwrapper(superFrameFirstTime, oldSuperFrameNumber, superFrameRecalc)), no)
      ensures order == superFrameRecalc
      ensures Apart(buckets) && Owned(buckets) == old(Owned(buckets)) && Values(buckets) == old(Values(buckets))
    {
      if superFrameFirstTime {
        oldSuperFrameNumber := no;
        superFrameRecalc := no;
        superFrameFirstTime := false;
        return superFrameRecalc;
      }
      var changeValue := Narrow16(Signed16(no) - Signed16(oldSuperFrameNumber));
      oldSuperFrameNumber := no;
      superFrameRecalc := Add64(superFrameRecalc, changeValue);
      return superFrameRecalc;
    }

    /** A type2 packet updates its stream's entry. */
    method DeclareStream(p: Packet)
      requires Apart(buckets) && InRange(p) && streams.Length == STREAMS
      modifies streams
      ensures Apart(buckets) && Owned(buckets) == old(Owned(buckets)) && Values(buckets) == old(Values(buckets))
      ensures streams[..] == old(streams[..])[p.header.stream := Declared(old(streams[p.header.stream]), p)]
    {
      if p.header.Type2? {
        streams[p.header.stream] := Stream(p.header.content, p.header.code);
      }
    }

    /** Files a bucket in the map. */
    method File(order: u64, b: BucketObject)
      requires Shape() && b == buckets[order % BUCKETS]
      modifies `bucketMap
      ensures Apart(buckets) && Owned(buckets) == old(Owned(buckets)) && Values(buckets) == old(Values(buckets))
      ensures Shape() && Indices(bucketMap) == Indices(old(bucketMap))[order := order % BUCKETS]
    {
      IndicesAdded(bucketMap, order, b);
      bucketMap := bucketMap[order := b];
    }

    /** Drops a map entry. */
    method Drop(order: u64)
      requires Shape()
      modifies `bucketMap
      ensures Apart(buckets) && Owned(buckets) == old(Owned(buckets)) && Values(buckets) == old(Values(buckets))
      ensures Shape() && Indices(bucketMap) == Indices(old(bucketMap)) - {order}
    {
      IndicesRemoved(bucketMap, {order});
      bucketMap := bucketMap - {order};
    }

    /** Opens bucket i and leaves the others alone. */
    method OpenAt(i: nat, p: Packet, source: byte, order: u64, timeout: int) returns (ok: bool)
      requires i < |buckets| && Apart(buckets) && streams.Length == STREAMS && InRange(p)
      requires FirstCopyFits(p)
      modifies buckets[i]
      ensures Apart(buckets) && fresh(buckets[i].Footprint() - old(buckets[i].Footprint()))
      ensures ok <==> PositionOf(p.header) <= p.header.ofFragmentNo
      ensures Values(buckets) == old(Values(buckets))[i :=
                Claimed(streams[p.header.stream], p, source, order, timeout)]
    {
      ok := buckets[i].Open(streams[p.header.stream], p, source, order, timeout);
      BucketReplaced(i);
    }

    /** Fills bucket i and leaves the others alone. */
    method FillAt(i: nat, p: Packet)
      requires i < |buckets| && Apart(buckets) && InRange(p) && buckets[i].bucketData != null
      requires p.header.Type2? ==> p.header.sizeOfData <= |p.payload|
      requires CopyFits(buckets[i].bucketData.frameData[..], InsertAt(buckets[i].Value(), p), Carried(p))
      modifies buckets[i].Footprint()
      ensures Apart(buckets) && fresh(buckets[i].Footprint() - old(buckets[i].Footprint()))
      ensures Values(buckets) == old(Values(buckets))[i := Filled(old(buckets[i].Value()), p)]
    {
      buckets[i].Fill(p);
      BucketReplaced(i);
    }

    /** Gives up on bucket i and leaves the others alone. */
    method Abandon(i: nat)
      requires i < |buckets| && Apart(buckets)
      modifies buckets[i]
      ensures Apart(buckets) && buckets[i].Footprint() == old(buckets[i].Footprint())
      ensures Values(buckets) == old(Values(buckets))[i := old(buckets[i].Value()).(active := false)]
    {
      buckets[i].active := false;
      BucketReplaced(i);
    }

    /** Files the bucket a packet selects under its delivery order and opens it; a position past the
        last one undoes the filing. */
    method Occupy(p: Packet, source: byte, order: u64, timeout: int) returns (ok: bool)
      requires Shape() && InRange(p)
      requires FirstCopyFits(p)
      requires order % BUCKETS == Index(p.header.superFrameNo)
      modifies `bucketMap, streams, buckets[Index(p.header.superFrameNo)]
      ensures Shape() && Grown(p)
      ensures ok <==> PositionOf(p.header) <= p.header.ofFragmentNo
      ensures streams[..] == old(streams[..])[p.header.stream := Declared(old(streams[p.header.stream]), p)]
      ensures Indices(bucketMap) ==
                var filed := Indices(old(bucketMap))[order := Index(p.header.superFrameNo)];
                if ok then filed else filed - {order}
      ensures Values(buckets) == old(Values(buckets))[Index(p.header.superFrameNo) :=
                Claimed(Declared(old(streams[p.header.stream]), p), p, source, order, timeout)]
    {
      var i := Index(p.header.superFrameNo);
      File(order, buckets[i]);
      DeclareStream(p);
      ok := OpenAt(i, p, source, order, timeout);
      if !ok {
        Drop(order);
      }
    }

    /** The half of the three unpack methods for a bucket not in use. */
    method OpenBucket(p: Packet, source: byte, now: int) returns (msg: Message)
      requires Shape() && InRange(p) && CopiesFit(Model(), p)
      requires !buckets[Index(p.header.superFrameNo)].active
      requires Unwrap(Model().unwrapper, p.header.superFrameNo).recalc % BUCKETS == Index(p.header.superFrameNo)
      modifies `bucketMap, `oldSuperFrameNumber, `superFrameRecalc, `superFrameFirstTime,
               streams, buckets[Index(p.header.superFrameNo)]
      ensures Shape() && Grown(p)
      ensures (Model(), msg) == Receiving.OpenBucket(old(Model()), p, source, now)
    {
      ghost var was := Model();
      var i := Index(p.header.superFrameNo);
      var candidate := SuperFrameRecalculator(p.header.superFrameNo);
      if candidate == buckets[i].deliveryOrder {
        return TooOldFragment;
      }
      OpenBucketClaims(was, p, source, now);
      var ok := Occupy(p, source, candidate, now + Micros(bucketTimeoutMs));
      msg := if ok then NoError else BufferOutOfBounds;
    }

    /** The half of the three unpack methods for a bucket in use. */
    method FillBucket(p: Packet) returns (msg: Message)
      requires Shape() && InRange(p) && CopiesFit(Model(), p)
      requires p.header.Type2? ==> p.header.sizeOfData <= |p.payload|
      requires var b := buckets[Index(p.header.superFrameNo)]; b.active && b.bucketData != null
      modifies `bucketMap, `oldSuperFrameNumber, `superFrameRecalc, `superFrameFirstTime,
               streams, buckets[Index(p.header.superFrameNo)].Footprint()
      ensures Shape() && Grown(p)
      ensures old(Model()).buckets[Index(p.header.superFrameNo)].frame.Some?
      ensures (Model(), msg) == Receiving.FillBucket(old(Model()), p)
    {
      var h := p.header;
      var i := Index(h.superFrameNo);
      var b := buckets[i];
      if h.superFrameNo != b.savedSuperFrameNo {
        return BufferOutOfResources;
      }
      if b.ofFragmentNo < PositionOf(h) || h.ofFragmentNo != b.ofFragmentNo {
        Drop(b.deliveryOrder);
        Abandon(i);
        return BufferOutOfBounds;
      }
      if PositionOf(h) in b.haveReceivedFragment {
        return DuplicatePacketReceived;
      }
      FillAt(i, p);
      DeclareStream(p);
      return NoError;
    }

    /** Unpacks one packet. */
    method Unpack(p: Packet, source: byte, now: int) returns (msg: Message)
      requires Valid() && InRange(p) && CopiesFit(Model(), p)
      modifies `bucketMap, `oldSuperFrameNumber, `superFrameRecalc, `superFrameFirstTime,
               streams, buckets[Index(p.header.superFrameNo)].Footprint()
      ensures Valid() && Grown(p) && superFrameQueue == old(superFrameQueue)
      ensures (Model(), msg) == Receiving.Unpack(old(Model()), p, source, now)
    {
      ghost var was := Model();
      var i := Index(p.header.superFrameNo);
      UnpackKeepsInv(was, p, source, now);
      assert Filed(was, i);
      if p.header.Type2? && |p.payload| < p.header.sizeOfData {
        return Type2FrameOutOfBounds;
      }
      if buckets[i].active {
        msg := FillBucket(p);
      } else {
        OpeningIsFresh(was, p.header.superFrameNo);
        msg := OpenBucket(p, source, now);
      }
    }

    // -------------------------------------------------------------------------------------
    // The delivery pass

    /** Fills in the metadata of the bucket under key k and hands its buffer out. */
    method HandOut(k: u64) returns (d: Delivery)
      requires Valid() && k in bucketMap
      modifies Frames(buckets)
      ensures Shape() && Values(buckets) == old(Values(buckets)) && Frames(buckets) == old(Frames(buckets))
      ensures d == Assemble(At(old(Model()), k))
    {
      ghost var i := k % BUCKETS;
      assert Points(Model(), k) && Filed(Model(), i);
      assert bucketMap[k].bucketData in Frames(buckets);
      d := bucketMap[k].AssembleData();
      BucketReplaced(i);
    }

    /** What the scan without head-of-line blocking does with one bucket. */
    method VisitFree(k: u64, now: int) returns (d: Option<Delivery>)
      requires Valid() && k in bucketMap
      modifies Frames(buckets)
      ensures Valid() && Model() == old(Model()) && Frames(buckets) == old(Frames(buckets))
      ensures var b := At(old(Model()), k);
              d == if Expired(b, 0, now) || Complete(b) then Some(Assemble(b)) else None
    {
      var b := bucketMap[k];
      assert Points(Model(), k);
      if b.timeout <= now || b.fragmentCounter == b.ofFragmentNo {
        var handed := HandOut(k);
        return Some(handed);
      }
      return None;
    }

    /** What the scan with head-of-line blocking does with one bucket: nothing if it is blocked. */
    method VisitHol(k: u64, now: int) returns (d: Option<Delivery>)
      requires Valid() && k in bucketMap
      modifies `nextExpectedFrameNumber, Frames(buckets)
      ensures Shape() && Frames(buckets) == old(Frames(buckets))
      ensures var b := At(old(Model()), k);
              var expected := b.order == old(nextExpectedFrameNumber) && Complete(b);
              var out := expected || Expired(b, Micros(holTimeoutMs), now);
              && d == (if out then Some(Assemble(b)) else None)
              && Model() == old(Model()).(nextExpected := if out then Next64(k) else old(nextExpectedFrameNumber))
    {
      var b := bucketMap[k];
      assert Points(Model(), k);
      if b.deliveryOrder == nextExpectedFrameNumber && b.fragmentCounter == b.ofFragmentNo {
        var handed := HandOut(k);
        nextExpectedFrameNumber := Next64(nextExpectedFrameNumber);
        return Some(handed);
      }
      if b.timeout + Micros(holTimeoutMs) <= now {
        var handed := HandOut(k);
        nextExpectedFrameNumber := Next64(b.deliveryOrder);
        return Some(handed);
      }
      return None;
    }

    /** What the scan does with one bucket, and whether it ends there. */
    method Visit(k: u64, now: int, ghost s: State, ghost keys: seq<u64>, ghost j: nat, ghost done: seq<u64>)
      returns (d: Option<Delivery>, blocked: bool)
      requires Valid() && Model() == s.(nextExpected := nextExpectedFrameNumber)
      requires Lists(s, keys) && j < |keys| && k == keys[j] && k in bucketMap
      modifies `nextExpectedFrameNumber, Frames(buckets)
      ensures Shape() && Frames(buckets) == old(Frames(buckets))
      ensures Model() == s.(nextExpected := nextExpectedFrameNumber)
      ensures k in s.bucketMap && (d.Some? ==> d.value == Assemble(At(s, k)))
      ensures var done' := if d.Some? then done + [k] else done;
              Ahead(s, done, keys, j, old(nextExpectedFrameNumber), now) ==
                if blocked then Scanned(done', nextExpectedFrameNumber)
                else Ahead(s, done', keys, j + 1, nextExpectedFrameNumber, now)
    {
      assert s.bucketMap.Keys == bucketMap.Keys;
      AheadStep(s, done, keys, j, nextExpectedFrameNumber, now);
      if holTimeoutMs != 0 {
        d := VisitHol(k, now);
        blocked := d.None?;
      } else {
        d := VisitFree(k, now);
        blocked := false;
      }
    }

    /** Sets the head of the line to the first held bucket. */
    method SetHead()
      requires Valid() && bucketMap.Keys != {}
      modifies `deliveryHolFirstRun, `nextExpectedFrameNumber
      ensures Shape() && Frames(buckets) == old(Frames(buckets))
      ensures Model() == old(Model()).(holFirstRun := false, nextExpected := Least(old(Model()).bucketMap.Keys))
    {
      assert bucketMap.Keys == Model().bucketMap.Keys;
      assert Points(Model(), Least(bucketMap.Keys));
      deliveryHolFirstRun := false;
      nextExpectedFrameNumber := bucketMap[Least(bucketMap.Keys)].deliveryOrder;
    }

    /** In head-of-line mode, the first turn of the first pass sets the head speculatively. */
    method SetHeadIfFirst()
      requires Valid() && bucketMap.Keys != {}
      modifies `deliveryHolFirstRun, `nextExpectedFrameNumber
      ensures Shape() && Frames(buckets) == old(Frames(buckets)) && Model() == Headed(old(Model()))
    {
      assert bucketMap.Keys == Model().bucketMap.Keys;
      if holTimeoutMs != 0 && deliveryHolFirstRun {
        SetHead();
      }
    }

    /** One turn of the run-to-completion loop; the first one finds the head as it was. */
    method CallBackTurn(k: u64, now: int, ghost was: State, ghost s: State, ghost keys: seq<u64>, ghost j: nat,
                        ghost done: seq<u64>, ghost next: u64)
      returns (d: Option<Delivery>, blocked: bool)
      requires Shape() && Heads(was, s) && was.bucketMap.Keys != {}
      requires AtTurn(was, s, j, next, Model())
      requires Lists(s, keys) && j < |keys| && k == keys[j] && k in bucketMap
      modifies `deliveryHolFirstRun, `nextExpectedFrameNumber, Frames(buckets)
      ensures Shape() && Frames(buckets) == old(Frames(buckets))
      ensures AtTurn(was, s, j + 1, nextExpectedFrameNumber, Model())
      ensures k in s.bucketMap && (d.Some? ==> d.value == Assemble(At(s, k)))
      ensures Reached(s, done, keys, j, next, false, now) ==>
              Reached(s, if d.Some? then done + [k] else done, keys, j + 1, nextExpectedFrameNumber, blocked, now)
    {
      HeadedTwice(was, next);
      SetHeadIfFirst();
      NextIrrelevant(s, nextExpectedFrameNumber);
      d, blocked := Visit(k, now, s, keys, j, done);
    }

    /** The loop of the run-to-completion pass: each superframe that is due goes to the host in its
        turn. The first turn sets the head. */
    method CallBackDue(now: int, ghost s: State) returns (deleteList: seq<u64>, delivered: seq<Delivery>)
      requires Valid() && Heads(Model(), s)
      modifies `deliveryHolFirstRun, `nextExpectedFrameNumber, Frames(buckets)
      ensures Shape() && Model() == s.(nextExpected := Scan(s, now).next)
      ensures Lists(s, deleteList) && deleteList == Scan(s, now).keys
      ensures delivered == Deliveries(s, deleteList)
    {
      ghost var was := Model();
      var keys := Sorted(bucketMap.Keys);
      assert bucketMap.Keys == was.bucketMap.Keys == s.bucketMap.Keys;
      AheadStart(s, now);
      deleteList, delivered := [], [];
      ghost var next := s.nextExpected;
      var j, blocked := 0, false;
      while j < |keys| && !blocked
        invariant 0 <= j <= |keys| && (blocked ==> j > 0) && Shape() && Frames(buckets) == old(Frames(buckets))
        invariant AtTurn(was, s, j, next, Model())
        invariant Lists(s, keys) && Lists(s, deleteList) && delivered == Deliveries(s, deleteList)
        invariant Reached(s, deleteList, keys, j, next, blocked, now)
      {
        assert keys[j] in keys;
        var d;
        d, blocked := CallBackTurn(keys[j], now, was, s, keys, j, deleteList, next);
        next := nextExpectedFrameNumber;
        if d.Some? {
          DeliveriesGrow(s, deleteList, keys[j]);
          deleteList, delivered := deleteList + [keys[j]], delivered + [d.value];
        }
        j := j + 1;
      }
      ScanDone(was, s, Model(), deleteList, keys, j, next, blocked, now);
    }

    /** Frees the bucket under key k. */
    method Release(k: u64)
      requires Shape() && k in bucketMap
      modifies `bucketMap, buckets
      ensures Shape() && Model() == Released(old(Model()), k)
      ensures Shrunk()
    {
      var deleteMe := bucketMap[k];
      Drop(k);
      deleteMe.active := false;
      deleteMe.bucketData := null;
      BucketReplaced(k % BUCKETS);
    }

    /** Frees the delivered buckets. */
    method ReleaseAll(deleteList: seq<u64>)
      requires Shape() && Mapped(Model()) && Ascending(deleteList)
      requires forall k :: k in deleteList ==> k in Model().bucketMap
      modifies `bucketMap, buckets
      ensures Shape() && Model() == Close(old(Model()), deleteList) && Shrunk()
    {
      ghost var s := Model();
      for j := 0 to |deleteList|
        invariant Shape() && Model() == Close(s, deleteList[..j]) && Shrunk()
      {
        assert deleteList[..j + 1] == deleteList[..j] + [deleteList[j]];
        ReleasedIsClosed(s, deleteList[..j], deleteList[j]);
        Release(deleteList[j]);
      }
      assert deleteList[..|deleteList|] == deleteList;
    }

    /** The pass at the end of a run-to-completion call. Returns what the host's callback gets, in order. */
    method RunToCompletionMethod(now: int) returns (keys: seq<u64>, delivered: seq<Delivery>)
      requires Valid()
      modifies `bucketMap, `deliveryHolFirstRun, `nextExpectedFrameNumber, buckets, Frames(buckets)
      ensures Valid() && Shrunk() && Owned(buckets) <= old(Owned(buckets))
      ensures (Model(), keys) == Pass(old(Model()), RunToCompletion, now)
      ensures Lists(old(Model()), keys) && delivered == Deliveries(old(Model()), keys)
    {
      ghost var s := Model();
      PassContract(s, RunToCompletion, now);
      RunToCompletionPasses(s, now);
      HeadedInv(s);
      keys, delivered := CallBackDue(now, Headed(s));
      NextIrrelevant(Headed(s), nextExpectedFrameNumber);
      MovedNothing(Model());
      MovedMapped(Model(), []);
      ReleaseAll(keys);
      ShrunkOwned();
    }

    // -------------------------------------------------------------------------------------
    // The worker thread's pass

    /** Whether some held bucket has timed out. */
    method AnyTimedOut(now: int) returns (found: bool)
      requires Valid()
      ensures Shape() && Model() == old(Model())
      ensures found <==> SomeTimedOut(old(Model()), now)
    {
      ghost var s := Model();
      var keys := Sorted(bucketMap.Keys);
      assert bucketMap.Keys == s.bucketMap.Keys;
      TimedOutAmongAll(s, keys, now);
      found := false;
      for j := 0 to |keys|
        invariant Lists(s, keys)
        invariant found == TimedOutAmong(s, keys, j, now)
      {
        TimedOutStep(s, keys, j, now);
        if bucketMap[keys[j]].timeout <= now {
          found := true;
        }
      }
    }

    /** Whether the worker may set the head: two superframes are held or one has timed out. */
    method HeadIsDue(now: int) returns (go: bool)
      requires Valid() && holTimeoutMs != 0 && deliveryHolFirstRun
      ensures Shape() && Model() == old(Model())
      ensures go == !WorkerWaits(old(Model()), now)
      ensures go <==> !AtMostOneHeld(old(Model())) || exists i :: 0 <= i < 8192 && TimedOut(old(Model()), i, now)
    {
      assert bucketMap.Keys == Model().bucketMap.Keys;
      MayGo(Model(), now);
      var timedOut := AnyTimedOut(now);
      go := |bucketMap.Keys| > 1 || timedOut;
    }

    /** Fills in the metadata of bucket i's buffer and takes the buffer out of the bucket. */
    method MoveOut(i: nat) returns (d: Delivery)
      requires i < |buckets| && Apart(buckets) && buckets[i].bucketData != null
      modifies buckets[i], buckets[i].bucketData
      ensures Apart(buckets) && Shrunk() && buckets[i].deliveryOrder == old(buckets[i].deliveryOrder)
      ensures d == Assemble(old(buckets[i].Value()))
      ensures Values(buckets) == old(Values(buckets))[i := old(buckets[i].Value()).(frame := None)]
    {
      d := buckets[i].AssembleData();
      buckets[i].bucketData := null;
      BucketReplaced(i);
    }

    /** Moves the buffer of the bucket under key k to the queue and raises the flag. `s` is what the
        receiver would be with all buffers in place. */
    method Push(k: u64, ghost s: State, ghost done: seq<u64>)
      requires Shape() && Inv(s) && Model() == Moved(s, done)
      requires k in s.bucketMap && k in bucketMap && k !in done
      modifies `superFrameQueue, `superFrameReady, buckets[k % BUCKETS], buckets[k % BUCKETS].bucketData
      ensures Shape() && Shrunk() && Model() == Moved(s, done + [k]) && buckets[k % BUCKETS].deliveryOrder == k
      ensures superFrameQueue == old(superFrameQueue) + [Assemble(At(s, k))] && superFrameReady
    {
      MovedOne(s, done, k);
      var d := MoveOut(k % BUCKETS);
      superFrameQueue := superFrameQueue + [d];
      superFrameReady := true;
    }

    /** What the worker does with one bucket without head-of-line blocking. */
    method PushFree(k: u64, now: int, ghost s: State, ghost done: seq<u64>) returns (out: bool)
      requires Shape() && Inv(s) && Model() == Moved(s, done)
      requires k in s.bucketMap && k in bucketMap && k !in done
      modifies `superFrameQueue, `superFrameReady, buckets[k % BUCKETS], buckets[k % BUCKETS].bucketData
      ensures Shape() && Shrunk() && Model() == Moved(s, if out then done + [k] else done)
      ensures out == (Expired(At(s, k), 0, now) || Complete(At(s, k)))
      ensures superFrameQueue == old(superFrameQueue) + if out then [Assemble(At(s, k))] else []
      ensures superFrameReady == (old(superFrameReady) || out)
    {
      MovedOne(s, done, k);
      var b := bucketMap[k];
      out := b.timeout <= now || b.fragmentCounter == b.ofFragmentNo;
      if out {
        Push(k, s, done);
      }
    }

    /** What the worker does with one bucket with head-of-line blocking: nothing if it is blocked. */
    method PushHol(k: u64, now: int, ghost s: State, ghost done: seq<u64>) returns (out: bool)
      requires Shape() && Inv(s) && Model() == Moved(s, done)
      requires k in s.bucketMap && k in bucketMap && k !in done
      modifies `nextExpectedFrameNumber, `superFrameQueue, `superFrameReady,
               buckets[k % BUCKETS], buckets[k % BUCKETS].bucketData
      ensures Shape() && Shrunk()
      ensures Model() == Moved(s, if out then done + [k] else done)
                           .(nextExpected := if out then Next64(k) else s.nextExpected)
      ensures var b := At(s, k);
              out == ((b.order == s.nextExpected && Complete(b)) || Expired(b, Micros(s.holTimeoutMs), now))
      ensures superFrameQueue == old(superFrameQueue) + if out then [Assemble(At(s, k))] else []
      ensures superFrameReady == (old(superFrameReady) || out)
    {
      MovedOne(s, done, k);
      var b := bucketMap[k];
      if b.deliveryOrder == nextExpectedFrameNumber && b.fragmentCounter == b.ofFragmentNo {
        Push(k, s, done);
        nextExpectedFrameNumber := Next64(nextExpectedFrameNumber);
        return true;
      }
      if b.timeout + Micros(holTimeoutMs) <= now {
        Push(k, s, done);
        nextExpectedFrameNumber := Next64(b.deliveryOrder);
        return true;
      }
      return false;
    }

    /** The head of the line as the worker's turn finds it; false means that the pass ends here, which
        only the first turn can find. */
    method WorkerHead(now: int, ghost was: State, ghost s: State, ghost keys: seq<u64>, ghost j: nat, ghost next: u64,
                      ghost done: seq<u64>)
      returns (go: bool)
      requires Shape() && Model() in AtWorker(was, s, keys, j, next, done, false, now)
      modifies `deliveryHolFirstRun, `nextExpectedFrameNumber
      ensures Shape()
      ensures go ==> Model() == Moved(s, done).(nextExpected := next) && (j == 0 ==> !WorkerWaits(was, now))
      ensures !go ==> Model() in AfterWorker(was, s, done, now)
    {
      ghost var m := Model();
      assert WorkerAt(was, s, keys, j, next, done, false, now, m);
      MovedNothing(s);
      HeadedTwice(was, next);
      go := true;
      if holTimeoutMs != 0 && deliveryHolFirstRun {
        go := HeadIsDue(now);
        if go {
          assert bucketMap.Keys == was.bucketMap.Keys;
          SetHead();
        } else {
          WaitEnds(was, s, keys, next, done, now, m);
        }
      }
    }

    /** One turn of the worker's loop, once the head is set. */
    method WorkerTurn(k: u64, now: int, ghost s: State, ghost keys: seq<u64>, ghost j: nat, ghost done: seq<u64>,
                      ghost next: u64)
      returns (out: bool, blocked: bool)
      requires Shape() && Inv(s) && Model() == Moved(s, done).(nextExpected := next)
      requires Lists(s, keys) && j < |keys| && k == keys[j] && k in bucketMap && k !in done
      modifies `nextExpectedFrameNumber, `superFrameQueue, `superFrameReady,
               buckets[k % BUCKETS], buckets[k % BUCKETS].bucketData
      ensures Shape() && Shrunk() && k in s.bucketMap
      ensures var done' := if out then done + [k] else done;
              && Model() == Moved(s, done').(nextExpected := nextExpectedFrameNumber)
              && (Reached(s, done, keys, j, next, false, now) ==>
                    Reached(s, done', keys, j + 1, nextExpectedFrameNumber, blocked, now))
      ensures superFrameQueue == old(superFrameQueue) + if out then [Assemble(At(s, k))] else []
      ensures superFrameReady == (old(superFrameReady) || out)
    {
      assert k in keys;
      NextIrrelevant(s, next);
      AheadStep(s, done, keys, j, next, now);
      if holTimeoutMs != 0 {
        out := PushHol(k, now, s.(nextExpected := next), done);
        blocked := !out;
      } else {
        out := PushFree(k, now, s.(nextExpected := next), done);
        blocked := false;
      }
    }

    /** One turn of the worker's loop, once the head is set. Returns what is handed out so far. */
    method WorkerIteration(now: int, ghost was: State, ghost s: State, keys: seq<u64>, j: nat, deleteList: seq<u64>,
                           ghost next: u64, ghost m: State, ghost queue: seq<Delivery>, ghost ready: bool)
      returns (blocked: bool, done: seq<u64>)
      requires Shape() && j < |keys| && m in AtWorker(was, s, keys, j, next, deleteList, false, now)
      requires Lists(s, keys) && Lists(s, deleteList)
      requires Model() == Moved(s, deleteList).(nextExpected := next) && (j == 0 ==> !WorkerWaits(was, now))
      requires Queued(queue, superFrameQueue, ready, superFrameReady, s, deleteList)
      modifies `nextExpectedFrameNumber, `superFrameQueue, `superFrameReady,
               buckets[keys[j] % BUCKETS], buckets[keys[j] % BUCKETS].bucketData
      ensures Shape() && Shrunk() && Lists(s, done)
      ensures Model() in AtWorker(was, s, keys, j + 1, nextExpectedFrameNumber, done, blocked, now)
      ensures Queued(queue, superFrameQueue, ready, superFrameReady, s, done)
    {
      assert keys[j] in keys && bucketMap.Keys == s.bucketMap.Keys;
      QueuedMore(queue, superFrameQueue, ready, superFrameReady, s, deleteList, keys, j);
      var out;
      out, blocked := WorkerTurn(keys[j], now, s, keys, j, deleteList, next);
      done := if out then deleteList + [keys[j]] else deleteList;
      WorkerTurned(was, s, keys, j, next, deleteList, now, m, Model(), nextExpectedFrameNumber, out, blocked);
    }

    /** One turn of the worker's loop, the settling of the head included; false means that the pass ends
        here. */
    method WorkerStep(now: int, ghost was: State, ghost s: State, keys: seq<u64>, j: nat, deleteList: seq<u64>,
                      ghost next: u64, ghost queue: seq<Delivery>, ghost ready: bool)
      returns (go: bool, blocked: bool, done: seq<u64>)
      requires Shape() && j < |keys| && Model() in AtWorker(was, s, keys, j, next, deleteList, false, now)
      requires Lists(s, keys) && Lists(s, deleteList)
      requires Queued(queue, superFrameQueue, ready, superFrameReady, s, deleteList)
      modifies `deliveryHolFirstRun, `nextExpectedFrameNumber, `superFrameQueue, `superFrameReady, buckets, Frames(buckets)
      ensures Shape() && Shrunk() && Lists(s, done)
      ensures Queued(queue, superFrameQueue, ready, superFrameReady, s, done)
      ensures go ==> Model() in AtWorker(was, s, keys, j + 1, nextExpectedFrameNumber, done, blocked, now)
      ensures !go ==> Model() in AfterWorker(was, s, done, now)
    {
      ghost var m := Model();
      go := WorkerHead(now, was, s, keys, j, next, deleteList);
      if !go {
        return go, false, deleteList;
      }
      blocked, done := WorkerIteration(now, was, s, keys, j, deleteList, next, m, queue, ready);
    }

    /** The worker's loop: each superframe that is due is moved to the queue in its turn. */
    method PushDue(now: int, ghost s: State) returns (deleteList: seq<u64>)
      requires Valid() && Heads(Model(), s) && bucketMap.Keys != {}
      modifies `deliveryHolFirstRun, `nextExpectedFrameNumber, `superFrameQueue, `superFrameReady, buckets, Frames(buckets)
      ensures Shape() && Shrunk()
      ensures Lists(s, deleteList)
      ensures Queued(old(superFrameQueue), superFrameQueue, old(superFrameReady), superFrameReady, s, deleteList)
      ensures Model() in AfterWorker(old(Model()), s, deleteList, now)
    {
      ghost var was := Model();
      var keys := Sorted(bucketMap.Keys);
      assert bucketMap.Keys == was.bucketMap.Keys == s.bucketMap.Keys;
      WorkerStarts(was, s, now);
      deleteList := [];
      ghost var next := s.nextExpected;
      var j, go, blocked := 0, true, false;
      while j < |keys| && go && !blocked
        invariant j <= |keys| && Shape() && Shrunk()
        invariant Lists(s, keys) && Lists(s, deleteList)
        invariant Model() in if go then AtWorker(was, s, keys, j, next, deleteList, blocked, now)
                             else AfterWorker(was, s, deleteList, now)
        invariant Queued(old(superFrameQueue), superFrameQueue, old(superFrameReady), superFrameReady, s, deleteList)
      {
        go, blocked, deleteList := WorkerStep(now, was, s, keys, j, deleteList, next,
                                              old(superFrameQueue), old(superFrameReady));
        next := nextExpectedFrameNumber;
        j := j + 1;
      }
      if go {
        WorkerDone(was, s, Model(), deleteList, keys, j, next, blocked, now);
      }
    }

    /** The worker thread's pass, from taking the lock to releasing it. */
    method ReceiverWorkerPass(now: int) returns (ghost keys: seq<u64>)
      requires Valid()
      modifies `bucketMap, `deliveryHolFirstRun, `nextExpectedFrameNumber, `superFrameQueue, `superFrameReady,
               buckets, Frames(buckets)
      ensures Valid() && Shrunk() && Owned(buckets) <= old(Owned(buckets))
      ensures (Model(), keys) == Pass(old(Model()), Threaded, now) && Lists(old(Model()), keys)
      ensures superFrameQueue == old(superFrameQueue) + Deliveries(old(Model()), keys)
      ensures superFrameReady == (old(superFrameReady) || keys != [])
    {
      ghost var s := Model();
      PassContract(s, Threaded, now);
      WorkerPasses(s, now);
      HeadedInv(s);
      assert bucketMap.Keys == s.bucketMap.Keys;
      keys := [];
      if bucketMap.Keys == {} {
        return;
      }
      var deleteList := PushDue(now, Headed(s));
      keys := deleteList;
      FreeMoved(s, Model(), deleteList, now);
      ReleaseAll(deleteList);
      ShrunkOwned();
    }

    // -------------------------------------------------------------------------------------
    // A packet from the network

    /** The two passes, seen from outside: they stay within what the receiver owns. */
    method WorkerPassWithin(now: int) returns (ghost keys: seq<u64>)
      requires Valid()
      modifies Repr()
      ensures Valid() && Repr() <= old(Repr())
      ensures (Model(), keys) == Pass(old(Model()), Threaded, now) && Lists(old(Model()), keys)
      ensures superFrameQueue == old(superFrameQueue) + Deliveries(old(Model()), keys)
    {
      FramesOwned(buckets);
      keys := ReceiverWorkerPass(now);
    }

    method RunToCompletionWithin(now: int) returns (keys: seq<u64>, delivered: seq<Delivery>)
      requires Valid()
      modifies Repr()
      ensures Valid() && Repr() <= old(Repr())
      ensures (Model(), keys) == Pass(old(Model()), RunToCompletion, now)
      ensures Lists(old(Model()), keys) && delivered == Deliveries(old(Model()), keys)
    {
      FramesOwned(buckets);
      keys, delivered := RunToCompletionMethod(now);
    }

    /** Takes one packet as it came from the network. Outside the worker-thread mode a delivery pass
        follows, and the host gets its superframes before the call returns. */
    method ReceiveFragmentFromPtr(cells: seq<Cell>, source: byte, mode: Mode, threadsActive: bool,
                                  arrives: int, checks: int)
      returns (msg: Message, delivered: seq<Delivery>)
      requires Valid() && cells != [] && cells[0].Head? && Announced(cells[0].h)
      requires |cells| >= HeaderSize(cells[0].h) && Nibble(cells[0].h.frameType) in {1, 2, 3} ==>
                 Decode(cells).Some? && InRange(Decode(cells).value) && CopiesFit(Model(), Decode(cells).value)
      modifies `bucketMap, `oldSuperFrameNumber, `superFrameRecalc, `superFrameFirstTime, `deliveryHolFirstRun,
               `nextExpectedFrameNumber, streams, buckets, Owned(buckets)
      ensures Valid() && forall o :: o in Owned(buckets) ==> o in old(Owned(buckets)) || fresh(o)
      ensures var (s, m, ds) := Answered(old(Model()), cells, source, mode, threadsActive, arrives, checks);
              Model() == s && msg == m && delivered == ds
      ensures mode.Threaded? ==> superFrameQueue == old(superFrameQueue)
    {
      delivered := [];
      if !threadsActive && mode.Threaded? {
        return ReceiverNotRunning, [];
      }
      var nibble := Nibble(cells[0].h.frameType);
      if nibble == 0 {
        return Type0Frame, [];
      }
      if nibble !in {1, 2, 3} {
        return UnknownFrameType, [];
      }
      if |cells| < HeaderSize(cells[0].h) {
        return FrameSizeMismatch, [];
      }
      ghost var s := Model();
      var p := Decode(cells).value;
      UnpackKeepsInv(s, p, source, arrives);
      forall j | 0 <= j < BUCKETS && j != Index(p.header.superFrameNo)
        ensures buckets[j] !in buckets[Index(p.header.superFrameNo)].Footprint()
      {
        assert Separate(buckets, j, Index(p.header.superFrameNo));
      }
      msg := Unpack(p, source, arrives);
      FramesGrown(p);
      if mode.RunToCompletion? {
        var keys;
        keys, delivered := RunToCompletionMethod(checks);
      }
    }
  }

  /** A worker pass from state s leaves another receiver alone. */
  method WorkerPassBeside(r: Receiver, other: Receiver, now: int, ghost s: State)
    returns (ghost keys: seq<u64>, ghost after: State)
    requires r.Valid() && other.Valid() && r.Repr() !! other.Repr() && r.Model() == s
    modifies r.Repr()
    ensures r.Valid() && other.Valid() && r.Repr() !! other.Repr()
    ensures other.Repr() == old(other.Repr()) && other.Model() == old(other.Model())
    ensures Inv(s) && (after, keys) == Pass(s, Threaded, now) && r.Model() == after && Lists(s, keys)
    ensures r.superFrameQueue == old(r.superFrameQueue) + Deliveries(s, keys)
  {
    keys := r.WorkerPassWithin(now);
    after := r.Model();
    other.Untouched();
  }

  /** So does a run-to-completion pass. */
  method RunToCompletionBeside(r: Receiver, other: Receiver, now: int, ghost s: State)
    returns (delivered: seq<Delivery>, ghost keys: seq<u64>, ghost after: State)
    requires r.Valid() && other.Valid() && r.Repr() !! other.Repr() && r.Model() == s
    modifies r.Repr()
    ensures r.Valid() && other.Valid() && other.Model() == old(other.Model())
    ensures other.superFrameQueue == old(other.superFrameQueue)
    ensures Inv(s) && (after, keys) == Pass(s, RunToCompletion, now) && r.Model() == after
    ensures Lists(s, keys) && delivered == Deliveries(s, keys)
  {
    var list;
    list, delivered := r.RunToCompletionWithin(now);
    keys, after := list, r.Model();
    other.Untouched();
  }

  /** The two passes, side by side, once the head is set or without head-of-line blocking: the worker
      queues what the other hands to the host's callback, in the same order, and both receivers are left
      alike. */
  method PassBothWays(threaded: Receiver, direct: Receiver, now: int) returns (delivered: seq<Delivery>)
    requires threaded.Valid() && direct.Valid() && threaded.Repr() !! direct.Repr()
    requires threaded.Model() == direct.Model()
    requires threaded.holTimeoutMs == 0 || !threaded.deliveryHolFirstRun
    modifies threaded.Repr(), direct.Repr()
    ensures threaded.Valid() && direct.Valid() && threaded.Model() == direct.Model()
    ensures threaded.superFrameQueue == old(threaded.superFrameQueue) + delivered
  {
    ghost var s := threaded.Model();
    ModesAgree(s, now);
    ghost var keys, after := WorkerPassBeside(threaded, direct, now, s);
    ghost var keys', after';
    delivered, keys', after' := RunToCompletionBeside(direct, threaded, now, s);
  }
}
