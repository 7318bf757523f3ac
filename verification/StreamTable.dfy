/** How a superframe is labelled whose closing packet, which carries content type and code, is missing. */
module StreamTable {
  import opened Wire
  import opened Fragmenter
  import opened Buckets
  import opened Receiving
  import opened Delivery
  import opened Channel

  /** The arrival brings the closing fragment of a superframe of the stream and is accepted. */
  ghost predicate Declares(l: Link, y: System, e: Event, stream: nat)
    requires Inv(y.s) && Legal(l, e)
  {
    && e.Arrive? && e.position == LastPosition(|l.sent[e.frame].payload|, l.mtu)
    && l.sent[e.frame].stream == stream && Answer(l, y, e).NoError?
  }

  /** Content type and code of the superframe whose closing fragment was accepted last on a stream; before the
      first one the content is unknown and the code the reserved one. */
  ghost function Latest(l: Link, mode: Mode, y: System, events: seq<Event>, stream: nat): Stream
    requires Inv(y.s) && forall e :: e in events ==> Legal(l, e)
  {
    if events == [] then Stream(0x00, 0xffff_ffff)
    else
      var e := events[|events| - 1];
      if Declares(l, After(l, mode, y, events[..|events| - 1]), e, stream) then
        Stream(l.sent[e.frame].content, l.sent[e.frame].code)
      else Latest(l, mode, y, events[..|events| - 1], stream)
  }

  lemma StepDeclares(l: Link, mode: Mode, y: System, e: Event, stream: nat)
    requires Inv(y.s) && Legal(l, e) && stream < 255
    ensures |Step(l, mode, y, e).s.streams| == 255
    ensures Step(l, mode, y, e).s.streams[stream] ==
            if Declares(l, y, e, stream) then Stream(l.sent[e.frame].content, l.sent[e.frame].code)
            else y.s.streams[stream]
  {
    if e.Tick? {
      PassContract(y.s, mode, e.now);
    } else {
      FragmentFacts(l.sent[e.frame], No(l, e.frame), l.mtu, e.position);
      ArriveDeclares(y.s, PacketOf(l, e.frame, e.position), l.source, e.now);
    }
  }

  lemma ArriveDeclares(s: State, p: Packet, source: byte, now: int)
    requires Inv(s) && InRange(p) && PositionOf(p.header) <= p.header.ofFragmentNo
    ensures var (s', msg) := Unpack(s, p, source, now);
            && |s'.streams| == 255
            && s'.streams == if p.header.Type2? && msg.NoError? then
                               s.streams[p.header.stream := Stream(p.header.content, p.header.code)]
                             else s.streams
  {
    assert Filed(s, Index(p.header.superFrameNo));
    assert s.streams[p.header.stream := s.streams[p.header.stream]] == s.streams;
  }

  /** The stream table remembers the closing fragment accepted last. */
  lemma {:induction false} RunDeclares(l: Link, mode: Mode, bucketTimeoutMs: u32, holTimeoutMs: u32, events: seq<Event>,
                                       stream: nat)
    requires (forall e :: e in events ==> Legal(l, e)) && stream < 255
    ensures var y := After(l, mode, Start(bucketTimeoutMs, holTimeoutMs), events);
            |y.s.streams| == 255
            && y.s.streams[stream] == Latest(l, mode, Start(bucketTimeoutMs, holTimeoutMs), events, stream)
  {
    if events != [] {
      var n := |events| - 1;
      RunDeclares(l, mode, bucketTimeoutMs, holTimeoutMs, events[..n], stream);
      StepDeclares(l, mode, After(l, mode, Start(bucketTimeoutMs, holTimeoutMs), events[..n]), events[n], stream);
    }
  }

  /** The arrival opens a bucket. */
  ghost predicate Opens(l: Link, y: System, e: Event, i: nat)
    requires Inv(y.s) && Legal(l, e)
  {
    e.Arrive? && Slot0(l, e.frame) == i && !y.s.buckets[Slot0(l, e.frame)].active && Answer(l, y, e).NoError?
  }

  /** What was accepted last on the stream of a bucket's superframe when the bucket was last opened. */
  ghost function WhenOpened(l: Link, mode: Mode, y: System, events: seq<Event>, i: nat): Stream
    requires Inv(y.s) && forall e :: e in events ==> Legal(l, e)
  {
    if events == [] then Stream(0x00, 0xffff_ffff)
    else
      var front, e := events[..|events| - 1], events[|events| - 1];
      if Opens(l, After(l, mode, y, front), e, i) then Latest(l, mode, y, front, l.sent[e.frame].stream)
      else WhenOpened(l, mode, y, front, i)
  }

  /** A bucket in use without its closing fragment is labelled with `st`. */
  ghost predicate Labelled(b: Bucket, st: Stream) {
    b.active && b.ofNo !in b.received ==> b.content == st.content && b.code == st.code
  }

  lemma StepLabels(l: Link, mode: Mode, y: System, e: Event, i: nat, st: Stream)
    requires Inv(y.s) && Legal(l, e) && i < BUCKETS && Labelled(y.s.buckets[i], st) && !Opens(l, y, e, i)
    ensures Labelled(Step(l, mode, y, e).s.buckets[i], st)
  {
    if e.Tick? {
      PassContract(y.s, mode, e.now);
    } else if i != Slot0(l, e.frame) {
      UnpackTouches(y.s, PacketOf(l, e.frame, e.position), l.source, e.now);
    } else {
      ArriveLabels(y.s, PacketOf(l, e.frame, e.position), l.source, e.now, st);
    }
  }

  lemma ArriveLabels(s: State, p: Packet, source: byte, now: int, st: Stream)
    requires Inv(s) && InRange(p) && Labelled(s.buckets[Index(p.header.superFrameNo)], st)
    requires s.buckets[Index(p.header.superFrameNo)].active || !Unpack(s, p, source, now).1.NoError?
    ensures Labelled(Unpack(s, p, source, now).0.buckets[Index(p.header.superFrameNo)], st)
  {
    assert Filed(s, Index(p.header.superFrameNo));
  }

  lemma OpeningLabels(l: Link, mode: Mode, y: System, e: Event, i: nat)
    requires Inv(y.s) && Legal(l, e) && i < BUCKETS && Opens(l, y, e, i)
    ensures l.sent[e.frame].stream < |y.s.streams|
    ensures Labelled(Step(l, mode, y, e).s.buckets[i], y.s.streams[l.sent[e.frame].stream])
  {
    FragmentFacts(l.sent[e.frame], No(l, e.frame), l.mtu, e.position);
  }

  lemma {:induction false} RunLabels(l: Link, mode: Mode, bucketTimeoutMs: u32, holTimeoutMs: u32, events: seq<Event>,
                                     i: nat)
    requires (forall e :: e in events ==> Legal(l, e)) && i < BUCKETS
    ensures Labelled(After(l, mode, Start(bucketTimeoutMs, holTimeoutMs), events).s.buckets[i],
                     WhenOpened(l, mode, Start(bucketTimeoutMs, holTimeoutMs), events, i))
  {
    if events != [] {
      var n := |events| - 1;
      var y := After(l, mode, Start(bucketTimeoutMs, holTimeoutMs), events[..n]);
      RunLabels(l, mode, bucketTimeoutMs, holTimeoutMs, events[..n], i);
      if Opens(l, y, events[n], i) {
        assert events[n] in events;
        RunDeclares(l, mode, bucketTimeoutMs, holTimeoutMs, events[..n], l.sent[events[n].frame].stream);
        OpeningLabels(l, mode, y, events[n], i);
      } else {
        StepLabels(l, mode, y, events[n], i,
                   WhenOpened(l, mode, Start(bucketTimeoutMs, holTimeoutMs), events[..n], i));
      }
    }
  }

  /** Over any run, a superframe that is delivered without its closing fragment has the content type and code
      that were the latest on its stream when its bucket was opened. */
  lemma DeliveredUnlabelled(l: Link, mode: Mode, bucketTimeoutMs: u32, holTimeoutMs: u32, events: seq<Event>, key: u64)
    requires forall e :: e in events ==> Legal(l, e)
    requires key in After(l, mode, Start(bucketTimeoutMs, holTimeoutMs), events).s.bucketMap
    ensures var b := At(After(l, mode, Start(bucketTimeoutMs, holTimeoutMs), events).s, key);
            var st := WhenOpened(l, mode, Start(bucketTimeoutMs, holTimeoutMs), events, key % BUCKETS);
            b.ofNo !in b.received ==> Assemble(b).content == st.content && Assemble(b).code == st.code
  {
    var y := After(l, mode, Start(bucketTimeoutMs, holTimeoutMs), events);
    assert Points(y.s, key);
    RunLabels(l, mode, bucketTimeoutMs, holTimeoutMs, events, key % BUCKETS);
  }
}
