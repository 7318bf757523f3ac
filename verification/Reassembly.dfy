/** Reassembling one superframe: whichever fragment opens the bucket and in whatever order the
    others follow, the bucket's contents depend only on which fragments have arrived. */
module Reassembly {
  import opened Wire
  import opened Fragmenter
  import opened Buckets

  /** Slots of the buffer, after overlaying one fragment on a buffer that held `got`. */
  lemma OverlayFragment(f: Media, mtu: Mtu, got: set<nat>, i: nat, data: seq<Slot>, at: nat)
    requires |f.payload| <= MaxPayload(mtu)
    requires forall x :: 0 <= x < |data| ==> data[x] == SlotOf(f, mtu, got, x)
    requires Chunk(f.payload, mtu, i) != [] ==> at == Strides(Stride(|f.payload|, mtu), i)
    ensures forall x :: 0 <= x < |data| ==>
              Overlay(data, at, Chunk(f.payload, mtu, i))[x] == SlotOf(f, mtu, got + {i}, x)
  {
    forall x | 0 <= x < |data|
      ensures Overlay(data, at, Chunk(f.payload, mtu, i))[x] == SlotOf(f, mtu, got + {i}, x)
    {
      OverlaySlot(f, mtu, got, i, data, at, x);
    }
  }

  /** The buffer is large enough whichever fragment opens the bucket, and so is the announced size. */
  lemma ReservedEnough(f: Media, no: u16, mtu: Mtu, i: nat)
    requires Accepted(f, mtu) && f.stream < 255 && i <= LastPosition(|f.payload|, mtu)
    ensures var p := FragmentAt(f, no, mtu, i);
            var stride := Stride(|f.payload|, mtu);
            && InRange(p)
            && |f.payload| <= Reserved(p)
            && ExpectedSize(|f.payload|, mtu, {i}) <= Reserved(p)
            && ExpectedSize(|f.payload|, mtu, {i}) ==
                 (if p.header.Type1? then Strides(stride, p.header.ofFragmentNo) else Reserved(p))
            && CopyFits(Blank(Reserved(p)), Strides(AnnouncedStride(p), i), Carried(p))
  {
    var n := |f.payload|;
    var last := LastPosition(n, mtu);
    var stride := Stride(n, mtu);
    FragmentFacts(f, no, mtu, i);
    Shape(n, mtu);
    assert Strides(stride, last + 1) == Strides(stride, last) + stride;
    if i < last {
      assert FragmentAt(f, no, mtu, i).header.Type1? ==> i < Type1Count(n, mtu);
    }
  }

  /** Any fragment opens a bucket that holds just that fragment. */
  lemma OpenReassembles(f: Media, no: u16, mtu: Mtu, i: nat, st: Stream, source: byte, order: u64, timeout: int)
    requires Accepted(f, mtu) && f.stream < 255 && i <= LastPosition(|f.payload|, mtu)
    ensures var p := FragmentAt(f, no, mtu, i);
            && InRange(p)
            && Reassembles(Opened(Declared(st, p), p, source, order, timeout), f, no, mtu)
            && Opened(Declared(st, p), p, source, order, timeout).received == {i}
  {
    var p := FragmentAt(f, no, mtu, i);
    FragmentFacts(f, no, mtu, i);
    ReservedEnough(f, no, mtu, i);
    OpenedCounted(Declared(st, p), p, source, order, timeout);
    OverlayFragment(f, mtu, {}, i, Blank(Reserved(p)), Strides(AnnouncedStride(p), i));
    assert {} + {i} == {i};
  }

  /** The copy of a further fragment stays inside the buffer, whichever fragment opened it. */
  lemma FillFits(b: Bucket, f: Media, no: u16, mtu: Mtu, i: nat)
    requires Accepted(f, mtu) && f.stream < 255 && i <= LastPosition(|f.payload|, mtu)
    requires Reassembles(b, f, no, mtu)
    ensures var p := FragmentAt(f, no, mtu, i);
            InRange(p) && CopyFits(b.frame.value.data, InsertAt(b, p), Carried(p))
  {
    FragmentFacts(f, no, mtu, i);
  }

  /** A further fragment of the same superframe is added to what the bucket holds. */
  lemma FillReassembles(b: Bucket, f: Media, no: u16, mtu: Mtu, i: nat)
    requires Accepted(f, mtu) && f.stream < 255 && i <= LastPosition(|f.payload|, mtu)
    requires Reassembles(b, f, no, mtu) && i !in b.received
    ensures var p := FragmentAt(f, no, mtu, i);
            && InRange(p)
            && Reassembles(Filled(b, p), f, no, mtu)
            && Filled(b, p).received == b.received + {i}
  {
    FragmentFacts(f, no, mtu, i);
    FilledCounted(b, FragmentAt(f, no, mtu, i));
    FilledData(b, f, no, mtu, i);
    FilledSize(b, f, no, mtu, i);
  }

  lemma FilledData(b: Bucket, f: Media, no: u16, mtu: Mtu, i: nat)
    requires Accepted(f, mtu) && f.stream < 255 && i <= LastPosition(|f.payload|, mtu)
    requires Reassembles(b, f, no, mtu) && i !in b.received
    ensures var p := FragmentAt(f, no, mtu, i);
            && InRange(p)
            && |FilledFrame(b, p).data| == |b.frame.value.data|
            && forall x :: 0 <= x < |b.frame.value.data| ==>
                 FilledFrame(b, p).data[x] == SlotOf(f, mtu, b.received + {i}, x)
  {
    var p := FragmentAt(f, no, mtu, i);
    var data := b.frame.value.data;
    FragmentFacts(f, no, mtu, i);
    OverlayFragment(f, mtu, b.received, i, data, InsertAt(b, p));
    assert FilledFrame(b, p).data == Overlay(data, InsertAt(b, p), Carried(p));
  }

  lemma FilledSize(b: Bucket, f: Media, no: u16, mtu: Mtu, i: nat)
    requires Accepted(f, mtu) && f.stream < 255 && i <= LastPosition(|f.payload|, mtu)
    requires Reassembles(b, f, no, mtu) && i !in b.received
    ensures var p := FragmentAt(f, no, mtu, i);
            && InRange(p)
            && FilledFrame(b, p).frameSize == ExpectedSize(|f.payload|, mtu, b.received + {i})
            && FilledFrame(b, p).frameSize <= |b.frame.value.data|
  {
    var p := FragmentAt(f, no, mtu, i);
    FragmentFacts(f, no, mtu, i);
    if p.header.Type1? {
      ExpectedSizeKept(|f.payload|, mtu, b.received, i);
    }
  }

  /** A type1 packet does not settle the size. */
  lemma ExpectedSizeKept(n: nat, mtu: Mtu, got: set<nat>, i: nat)
    requires n <= MaxPayload(mtu) && i < LastPosition(n, mtu)
    requires Strides(Stride(n, mtu), i + 1) <= n
    ensures ExpectedSize(n, mtu, got + {i}) == ExpectedSize(n, mtu, got)
  {
  }

  // ---------------------------------------------------------------------------------------
  // Confluence

  /** One arrival of the fragment at a position, with what else the receiver then has at hand. */
  datatype Arrival = Arrival(position: nat, remembered: Stream, source: byte, order: u64, timeout: int)

  ghost predicate Arrivals(f: Media, mtu: Mtu, run: seq<Arrival>) {
    forall k :: 0 <= k < |run| ==> run[k].position <= LastPosition(|f.payload|, mtu)
  }

  /** The bucket after a run of arrivals: the first opens it, duplicates change nothing. */
  function AfterArrivals(f: Media, no: u16, mtu: Mtu, run: seq<Arrival>): Bucket
    requires Accepted(f, mtu) && f.stream < 255 && Arrivals(f, mtu, run)
  {
    if run == [] then FRESH
    else
      var b := AfterArrivals(f, no, mtu, run[..|run| - 1]);
      var a := run[|run| - 1];
      var p := FragmentAt(f, no, mtu, a.position);
      FragmentFacts(f, no, mtu, a.position);
      if !b.active then Opened(Declared(a.remembered, p), p, a.source, a.order, a.timeout)
      else if a.position in b.received || b.frame.None? then b
      else Filled(b, p)
  }

  function Arrived(run: seq<Arrival>): set<nat> {
    set k | 0 <= k < |run| :: run[k].position
  }

  lemma {:induction false} RunReassembles(f: Media, no: u16, mtu: Mtu, run: seq<Arrival>)
    requires Accepted(f, mtu) && f.stream < 255 && Arrivals(f, mtu, run)
    requires run != []
    ensures Reassembles(AfterArrivals(f, no, mtu, run), f, no, mtu)
    ensures AfterArrivals(f, no, mtu, run).received == Arrived(run)
  {
    var front := run[..|run| - 1];
    var a := run[|run| - 1];
    assert Arrived(run) == Arrived(front) + {a.position};
    if front == [] {
      assert Arrived(front) == {};
      OpenReassembles(f, no, mtu, a.position, a.remembered, a.source, a.order, a.timeout);
    } else {
      RunReassembles(f, no, mtu, front);
      var b := AfterArrivals(f, no, mtu, front);
      if a.position !in b.received {
        FillReassembles(b, f, no, mtu, a.position);
      } else {
        assert Arrived(run) == Arrived(front);
      }
    }
  }

  /** Two buckets that hold the same fragments of the same superframe differ at most in when they
      were opened, where the buffer ends beyond the payload, and what the stream table offered
      before the closing packet came. */
  ghost predicate SameContents(b: Bucket, c: Bucket) {
    && b.received == c.received && b.counter == c.counter && b.ofNo == c.ofNo && b.savedNo == c.savedNo
    && b.fragmentSize == c.fragmentSize && b.flags == c.flags && b.stream == c.stream
    && b.pts == c.pts && b.dts == c.dts
    && (b.ofNo in b.received ==> b.code == c.code && b.content == c.content)
    && b.frame.Some? && c.frame.Some?
    && b.frame.value.frameSize == c.frame.value.frameSize
    && forall x :: 0 <= x < |b.frame.value.data| && x < |c.frame.value.data| ==>
         b.frame.value.data[x] == c.frame.value.data[x]
  }

  /** Confluence: any two runs of arrivals with the same set of fragments leave the same contents. */
  lemma Confluence(f: Media, no: u16, mtu: Mtu, run: seq<Arrival>, run': seq<Arrival>)
    requires Accepted(f, mtu) && f.stream < 255 && Arrivals(f, mtu, run) && Arrivals(f, mtu, run')
    requires run != [] && run' != [] && Arrived(run) == Arrived(run')
    ensures SameContents(AfterArrivals(f, no, mtu, run), AfterArrivals(f, no, mtu, run'))
  {
    RunReassembles(f, no, mtu, run);
    RunReassembles(f, no, mtu, run');
  }

  function Bytes(payload: seq<byte>): (slots: seq<Slot>)
    ensures |slots| == |payload|
  {
    seq(|payload|, x requires 0 <= x < |payload| => Byte(payload[x]))
  }

  /** A complete bucket announces the sent size, its buffer starts with exactly the payload, and
      its metadata is what was sent. */
  lemma CompleteIsSent(b: Bucket, f: Media, no: u16, mtu: Mtu)
    requires Accepted(f, mtu) && Reassembles(b, f, no, mtu) && Complete(b)
    ensures b.frame.value.frameSize == |f.payload| <= |b.frame.value.data|
    ensures b.frame.value.data[..b.frame.value.frameSize] == Bytes(f.payload)
    ensures b.pts == f.pts && b.dts == f.dts && b.code == f.code && b.content == f.content
    ensures b.stream == f.stream && b.flags == FlagBits(f.flags)
  {
    var n := |f.payload|;
    var stride := Stride(n, mtu);
    var last := LastPosition(n, mtu);
    CompleteIffAll(b);
    PositionsAre(last);
    Shape(n, mtu);
    forall x | 0 <= x < n ensures b.frame.value.data[x] == Byte(f.payload[x]) {
      SlotCovered(f, mtu, x);
    }
  }

  /** Every payload byte lies in the chunk of an existing position. */
  lemma SlotCovered(f: Media, mtu: Mtu, x: nat)
    requires Accepted(f, mtu) && x < |f.payload|
    ensures Stride(|f.payload|, mtu) > 0
    ensures Whole(x, Stride(|f.payload|, mtu)) <= LastPosition(|f.payload|, mtu)
  {
    var n := |f.payload|;
    var stride := Stride(n, mtu);
    Shape(n, mtu);
    var q := Whole(x, stride);
    if q > LastPosition(n, mtu) {
      StridesGrow(stride, LastPosition(n, mtu) + 1, q);
    }
  }

  /** When all fragments have arrived, in any order and with any duplicates, the superframe is
      complete and restored; before that it is not complete. */
  lemma AllArrived(f: Media, no: u16, mtu: Mtu, run: seq<Arrival>)
    requires Accepted(f, mtu) && f.stream < 255 && Arrivals(f, mtu, run) && run != []
    ensures var b := AfterArrivals(f, no, mtu, run);
            && (Complete(b) <==> Arrived(run) == Positions(LastPosition(|f.payload|, mtu)))
            && (Complete(b) ==>
                 && b.frame.Some? && b.frame.value.frameSize == |f.payload| <= |b.frame.value.data|
                 && b.frame.value.data[..|f.payload|] == Bytes(f.payload))
  {
    var b := AfterArrivals(f, no, mtu, run);
    RunReassembles(f, no, mtu, run);
    CompleteIffAll(b);
    if Complete(b) {
      CompleteIsSent(b, f, no, mtu);
    }
  }

  /** What an incomplete bucket is delivered with: every fragment that came lies at its true offset,
      no other slot is written, and the size is the true one exactly when the last fragment that
      carries data came or the data ends on a fragment boundary. */
  lemma BrokenContents(b: Bucket, f: Media, no: u16, mtu: Mtu, i: nat)
    requires Accepted(f, mtu) && Reassembles(b, f, no, mtu)
    requires i <= LastPosition(|f.payload|, mtu)
    ensures var n := |f.payload|;
            var last := LastPosition(n, mtu);
            var full := Strides(Stride(n, mtu), last);
            var at, to := ChunkStart(n, mtu, i), ChunkStart(n, mtu, i + 1);
            && at <= to <= |b.frame.value.data|
            && b.frame.value.data[at..to] ==
                 (if i in b.received then Bytes(Chunk(f.payload, mtu, i)) else Blank(to - at))
            && (b.frame.value.frameSize == n <==>
                  full == n || (full < n && last in b.received) || (full > n && last - 1 in b.received))
            && (b.frame.value.frameSize != n ==> b.frame.value.frameSize == full)
  {
    var n := |f.payload|;
    var stride := Stride(n, mtu);
    ChunksGrow(n, mtu, i, i + 1);
    forall x | ChunkStart(n, mtu, i) <= x < ChunkStart(n, mtu, i + 1)
      ensures b.frame.value.data[x] == if i in b.received then Byte(f.payload[x]) else Unset
    {
      WholeAt(x, stride, i);
    }
  }
}
