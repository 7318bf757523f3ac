/** One sender, one receiver and an unreliable channel between them: packets may be lost, reordered
    and duplicated at will, and delivery passes may happen at any time. */
module Channel {
  import opened Wire
  import opened Fragmenter
  import opened Sequencing
  import opened Buckets
  import opened Reassembly
  import opened Receiving
  import opened Delivery

  /** Everything a sender has been asked to send, all of it accepted; `first` is the number it
      started from. */
  datatype AnyLink = Link(sent: seq<Media>, first: nat, mtu: Mtu, source: byte)

  ghost predicate Proper(l: AnyLink) {
    forall f :: f in l.sent ==> Accepted(f, l.mtu) && f.stream < 255
  }

  type Link = l: AnyLink | Proper(l) ghost witness Link([], 0, 255, 0)

  /** The superframe number on the wire: the sender's 16-bit counter. */
  function No(l: Link, k: nat): u16 {
    (l.first + k) % TWO16
  }

  lemma NoCounts(l: Link, k: nat)
    ensures No(l, k + 1) == Next16(No(l, k))
  {
  }

  function Slot0(l: Link, k: nat): (i: nat)
    ensures i < BUCKETS
  {
    Index(No(l, k))
  }

  predicate OnLink(l: Link, k: nat, i: nat) {
    k < |l.sent| && i <= LastPosition(|l.sent[k].payload|, l.mtu)
  }

  /** The packet at position i of the k-th superframe. */
  function PacketOf(l: Link, k: nat, i: nat): (p: Packet)
    requires OnLink(l, k, i)
    ensures InRange(p) && p.header.superFrameNo == No(l, k)
    ensures !(p.header.Type2? && |p.payload| < p.header.sizeOfData)
    ensures PositionOf(p.header) == i <= p.header.ofFragmentNo == LastPosition(|l.sent[k].payload|, l.mtu)
    ensures p.header.stream == l.sent[k].stream
  {
    FragmentFacts(l.sent[k], No(l, k), l.mtu, i);
    FragmentAt(l.sent[k], No(l, k), l.mtu, i)
  }

  datatype Event =
    | Arrive(frame: nat, position: nat, now: int)
    | Tick(now: int)

  ghost predicate Legal(l: Link, e: Event) {
    e.Arrive? ==> OnLink(l, e.frame, e.position)
  }

  /** The receiver, together with bookkeeping of what it cannot see: for which superframe, by the
      fragment at which of its positions and when each bucket was last opened, which superframes were
      delivered, and the true numbers of the first and the last superframe whose number was unwrapped. */
  datatype System = System(
    s: State,
    owners: map<nat, nat>,
    openers: map<nat, nat>,
    openedAt: map<nat, int>,
    delivered: seq<Delivery>,
    who: seq<nat>,
    firstSeen: nat,
    lastSeen: nat)

  function Start(bucketTimeoutMs: u32, holTimeoutMs: u32): (y: System)
    ensures Inv(y.s)
  {
    InitialInv(bucketTimeoutMs, holTimeoutMs);
    System(Initial(bucketTimeoutMs, holTimeoutMs), map[], map[], map[], [], [], 0, 0)
  }

  /** The result code of an arrival. */
  function Answer(l: Link, y: System, e: Event): Message
    requires Inv(y.s) && Legal(l, e) && e.Arrive?
  {
    UnpackKeepsInv(y.s, PacketOf(l, e.frame, e.position), l.source, e.now);
    Unpack(y.s, PacketOf(l, e.frame, e.position), l.source, e.now).1
  }

  function Owner(y: System, key: u64): nat {
    if key % BUCKETS in y.owners then y.owners[key % BUCKETS] else 0
  }

  function Owners(y: System, keys: seq<u64>): (who: seq<nat>)
    ensures |who| == |keys|
    ensures forall m :: 0 <= m < |keys| ==> who[m] == Owner(y, keys[m])
  {
    seq(|keys|, m requires 0 <= m < |keys| => Owner(y, keys[m]))
  }

  function Step(l: Link, mode: Mode, y: System, e: Event): (y': System)
    requires Inv(y.s) && Legal(l, e)
    ensures Inv(y'.s)
  {
    match e
    case Arrive(k, i, now) =>
      var p := PacketOf(l, k, i);
      UnpackKeepsInv(y.s, p, l.source, now);
      var (s, msg) := Unpack(y.s, p, l.source, now);
      if y.s.buckets[Slot0(l, k)].active then y.(s := s)
      else
        y.(s := s,
           owners := if msg.NoError? then y.owners[Slot0(l, k) := k] else y.owners,
           openers := if msg.NoError? then y.openers[Slot0(l, k) := i] else y.openers,
           openedAt := if msg.NoError? then y.openedAt[Slot0(l, k) := now] else y.openedAt,
           firstSeen := if y.s.unwrapper.firstTime then l.first + k else y.firstSeen,
           lastSeen := l.first + k)
    case Tick(now) =>
      PassContract(y.s, mode, now);
      var (s, keys) := Pass(y.s, mode, now);
      y.(s := s, delivered := y.delivered + Deliveries(y.s, keys),
         who := y.who + Owners(y, keys))
  }

  // ---------------------------------------------------------------------------------------
  // End-to-end soundness

  /** A packet never meets a bucket in use for another superframe with the same 16-bit number: no two
      superframes a multiple of 65536 apart are under way in the receiver at once. */
  ghost predicate Unambiguous(l: Link, y: System, e: Event)
    requires Inv(y.s) && Legal(l, e)
  {
    e.Arrive? ==>
      var b := y.s.buckets[Slot0(l, e.frame)];
      b.active && b.savedNo == No(l, e.frame) ==>
        Slot0(l, e.frame) in y.owners && y.owners[Slot0(l, e.frame)] == e.frame
  }

  /** Bucket i, if in use, holds fragments of its owner only. */
  ghost predicate OwnerHolds(l: Link, y: System, i: nat)
    requires Inv(y.s) && i < BUCKETS
  {
    y.s.buckets[i].active ==>
      && i in y.owners && y.owners[i] < |l.sent| && Slot0(l, y.owners[i]) == i
      && y.s.buckets[i].source == l.source
      && Reassembles(y.s.buckets[i], l.sent[y.owners[i]], No(l, y.owners[i]), l.mtu)
  }

  /** A delivery made of the fragments of superframe k at the positions in `got`: each fragment's bytes
      lie at their true offset and no other slot is written; the size and the time stamps are those
      that these fragments tell; it is marked broken exactly if one is missing. */
  ghost predicate MadeOf(l: Link, d: Delivery, k: nat, got: set<nat>)
    requires k < |l.sent|
  {
    var f := l.sent[k];
    var n := |f.payload|;
    var last := LastPosition(n, l.mtu);
    && got != {} && (forall i :: i in got ==> i <= last)
    && (d.broken <==> got != Positions(last))
    && d.frameSize == ExpectedSize(n, l.mtu, got) <= |d.data| && n <= |d.data|
    && (forall x :: 0 <= x < |d.data| ==> d.data[x] == SlotOf(f, l.mtu, got, x))
    && (if last in got then d.pts == f.pts && d.dts == f.dts && d.code == f.code && d.content == f.content
        else d.pts == UINT64_MAX && d.dts == UINT64_MAX)
  }

  ghost predicate MadeOfSome(l: Link, d: Delivery, k: nat)
    requires k < |l.sent|
  {
    exists got :: MadeOf(l, d, k, got)
  }

  /** A delivery holds fragments of one sent superframe at their true places. An intact one is that
      superframe, byte for byte, with its time stamps, code, content type, stream and flags. */
  ghost predicate Faithful(l: Link, d: Delivery, k: nat) {
    && k < |l.sent|
    && d.superFrameNo == No(l, k) && d.stream == l.sent[k].stream
    && d.flags == l.sent[k].flags / 16 * 16 && d.source == l.source
    && MadeOfSome(l, d, k)
    && (!d.broken ==>
         && d.frameSize == |l.sent[k].payload| <= |d.data|
         && d.data[..d.frameSize] == Bytes(l.sent[k].payload)
         && d.pts == l.sent[k].pts && d.dts == l.sent[k].dts
         && d.code == l.sent[k].code && d.content == l.sent[k].content)
  }

  /** What a bucket that reassembles superframe k is delivered as. */
  lemma AssembledFaithful(l: Link, b: Bucket, k: nat)
    requires k < |l.sent| && b.source == l.source && Reassembles(b, l.sent[k], No(l, k), l.mtu)
    ensures Faithful(l, Assemble(b), k) && MadeOf(l, Assemble(b), k, b.received)
  {
    CompleteIffAll(b);
    if Complete(b) {
      CompleteIsSent(b, l.sent[k], No(l, k), l.mtu);
    }
    assert MadeOf(l, Assemble(b), k, b.received);
  }

  ghost predicate AllFaithful(l: Link, ds: seq<Delivery>, who: seq<nat>) {
    |ds| == |who| && forall j :: 0 <= j < |ds| ==> Faithful(l, ds[j], who[j])
  }

  lemma AllFaithfulConcat(l: Link, ds: seq<Delivery>, who: seq<nat>, ds': seq<Delivery>, who': seq<nat>)
    requires AllFaithful(l, ds, who) && AllFaithful(l, ds', who')
    ensures AllFaithful(l, ds + ds', who + who')
  {
  }

  ghost predicate SoundSoFar(l: Link, y: System)
    requires Inv(y.s)
  {
    && (forall i :: 0 <= i < BUCKETS ==> OwnerHolds(l, y, i))
    && AllFaithful(l, y.delivered, y.who)
  }

  lemma ArriveSound(l: Link, mode: Mode, y: System, e: Event)
    requires Inv(y.s) && Legal(l, e) && e.Arrive? && Unambiguous(l, y, e) && SoundSoFar(l, y)
    ensures SoundSoFar(l, Step(l, mode, y, e))
    ensures var b := y.s.buckets[Slot0(l, e.frame)];
            && (Answer(l, y, e) == BufferOutOfResources <==> b.active && b.savedNo != No(l, e.frame))
            && (Answer(l, y, e) == DuplicatePacketReceived <==>
                 b.active && b.savedNo == No(l, e.frame) && e.position in b.received)
            && (Answer(l, y, e) == TooOldFragment ==> !b.active)
            && Answer(l, y, e) in {NoError, TooOldFragment, DuplicatePacketReceived, BufferOutOfResources}
  {
    var i := Slot0(l, e.frame);
    assert OwnerHolds(l, y, i);
    AnswerIff(y.s, PacketOf(l, e.frame, e.position), l.source, e.now);
    forall j | 0 <= j < BUCKETS ensures OwnerHolds(l, Step(l, mode, y, e), j) {
      if j != i {
        assert OwnerHolds(l, y, j);
      } else if y.s.buckets[i].active {
        FillSound(l, mode, y, e);
      } else {
        OpenSound(l, mode, y, e);
      }
    }
  }

  /** No copy ever leaves its buffer, whichever fragment opened the bucket. */
  lemma CopiesInBounds(l: Link, y: System, e: Event)
    requires Inv(y.s) && Legal(l, e) && e.Arrive? && Unambiguous(l, y, e) && SoundSoFar(l, y)
    ensures CopiesFit(y.s, PacketOf(l, e.frame, e.position))
  {
    var k := e.frame;
    var b := y.s.buckets[Slot0(l, k)];
    assert OwnerHolds(l, y, Slot0(l, k));
    if b.active {
      if b.savedNo == No(l, k) {
        FillFits(b, l.sent[k], No(l, k), l.mtu, e.position);
      }
    } else {
      ReservedEnough(l.sent[k], No(l, k), l.mtu, e.position);
    }
  }

  lemma OpenSound(l: Link, mode: Mode, y: System, e: Event)
    requires Inv(y.s) && Legal(l, e) && e.Arrive? && SoundSoFar(l, y)
    requires !y.s.buckets[Slot0(l, e.frame)].active
    ensures OwnerHolds(l, Step(l, mode, y, e), Slot0(l, e.frame))
  {
    var k := e.frame;
    OpenReassembles(l.sent[k], No(l, k), l.mtu, e.position, y.s.streams[l.sent[k].stream], l.source,
                    Unwrap(y.s.unwrapper, No(l, k)).recalc, e.now + Micros(y.s.bucketTimeoutMs));
  }

  lemma FillSound(l: Link, mode: Mode, y: System, e: Event)
    requires Inv(y.s) && Legal(l, e) && e.Arrive? && Unambiguous(l, y, e) && SoundSoFar(l, y)
    requires y.s.buckets[Slot0(l, e.frame)].active
    ensures OwnerHolds(l, Step(l, mode, y, e), Slot0(l, e.frame))
  {
    var k := e.frame;
    var i := Slot0(l, k);
    var b := y.s.buckets[i];
    assert OwnerHolds(l, y, i) && Filed(y.s, i);
    if b.savedNo == No(l, k) && e.position !in b.received {
      FillReassembles(b, l.sent[k], No(l, k), l.mtu, e.position);
      assert Step(l, mode, y, e).s.buckets[i] == Filled(b, PacketOf(l, k, e.position));
    } else {
      assert Step(l, mode, y, e).s == y.s;
    }
  }

  lemma DeliverySound(l: Link, y: System, key: u64)
    requires Inv(y.s) && SoundSoFar(l, y) && key in y.s.bucketMap
    ensures Faithful(l, Assemble(At(y.s, key)), Owner(y, key))
    ensures Owner(y, key) < |l.sent|
    ensures MadeOf(l, Assemble(At(y.s, key)), Owner(y, key), At(y.s, key).received)
  {
    var b := At(y.s, key);
    assert Points(y.s, key);
    assert OwnerHolds(l, y, key % BUCKETS);
    AssembledFaithful(l, b, Owner(y, key));
  }

  lemma TickSound(l: Link, mode: Mode, y: System, e: Event)
    requires Inv(y.s) && e.Tick? && SoundSoFar(l, y)
    ensures SoundSoFar(l, Step(l, mode, y, e))
  {
    PassContract(y.s, mode, e.now);
    var keys := Pass(y.s, mode, e.now).1;
    AllDeliveriesSound(l, y, keys);
    AllFaithfulConcat(l, y.delivered, y.who, Deliveries(y.s, keys), Owners(y, keys));
    forall i | 0 <= i < BUCKETS ensures OwnerHolds(l, Step(l, mode, y, e), i) {
      TickHolds(l, mode, y, e, i);
    }
  }

  lemma AllDeliveriesSound(l: Link, y: System, keys: seq<u64>)
    requires Inv(y.s) && SoundSoFar(l, y) && Lists(y.s, keys)
    ensures AllFaithful(l, Deliveries(y.s, keys), Owners(y, keys))
  {
    forall m | 0 <= m < |keys| ensures Faithful(l, Deliveries(y.s, keys)[m], Owners(y, keys)[m]) {
      assert keys[m] in keys;
      DeliverySound(l, y, keys[m]);
    }
  }

  lemma TickHolds(l: Link, mode: Mode, y: System, e: Event, i: nat)
    requires Inv(y.s) && e.Tick? && SoundSoFar(l, y) && i < BUCKETS
    ensures OwnerHolds(l, Step(l, mode, y, e), i)
  {
    PassContract(y.s, mode, e.now);
    assert OwnerHolds(l, y, i);
  }

  /** The system after a run of events. */
  function After(l: Link, mode: Mode, y: System, events: seq<Event>): (y': System)
    requires Inv(y.s) && forall e :: e in events ==> Legal(l, e)
    ensures Inv(y'.s)
  {
    if events == [] then y
    else Step(l, mode, After(l, mode, y, events[..|events| - 1]), events[|events| - 1])
  }

  /** Every event of a run meets the condition. */
  ghost predicate AllUnambiguous(l: Link, mode: Mode, y: System, events: seq<Event>)
    requires Inv(y.s) && forall e :: e in events ==> Legal(l, e)
  {
    events != [] ==>
      && AllUnambiguous(l, mode, y, events[..|events| - 1])
      && Unambiguous(l, After(l, mode, y, events[..|events| - 1]), events[|events| - 1])
  }

  lemma {:induction false} SoundnessFrom(l: Link, mode: Mode, y: System, events: seq<Event>)
    requires Inv(y.s) && SoundSoFar(l, y)
    requires forall e :: e in events ==> Legal(l, e)
    requires AllUnambiguous(l, mode, y, events)
    ensures SoundSoFar(l, After(l, mode, y, events))
  {
    if events != [] {
      var n := |events| - 1;
      SoundnessFrom(l, mode, y, events[..n]);
      if events[n].Arrive? {
        ArriveSound(l, mode, After(l, mode, y, events[..n]), events[n]);
      } else {
        TickSound(l, mode, After(l, mode, y, events[..n]), events[n]);
      }
    }
  }

  /** Over whole runs no copy leaves its buffer: the one the last event of any run causes does not. */
  lemma CopiesAlwaysInBounds(l: Link, mode: Mode, bucketTimeoutMs: u32, holTimeoutMs: u32, events: seq<Event>)
    requires forall e :: e in events ==> Legal(l, e)
    requires AllUnambiguous(l, mode, Start(bucketTimeoutMs, holTimeoutMs), events)
    ensures events != [] && events[|events| - 1].Arrive? ==>
              var last := events[|events| - 1];
              assert last in events;
              var y := After(l, mode, Start(bucketTimeoutMs, holTimeoutMs), events[..|events| - 1]);
              CopiesFit(y.s, PacketOf(l, last.frame, last.position))
  {
    if events != [] && events[|events| - 1].Arrive? {
      var n := |events| - 1;
      SoundnessFrom(l, mode, Start(bucketTimeoutMs, holTimeoutMs), events[..n]);
      CopiesInBounds(l, After(l, mode, Start(bucketTimeoutMs, holTimeoutMs), events[..n]), events[n]);
    }
  }

  /** End-to-end soundness: whatever the channel does, every superframe the receiver ever delivers
      belongs to a sent one, and one it delivers as intact is that one. */
  lemma EndToEnd(l: Link, mode: Mode, bucketTimeoutMs: u32, holTimeoutMs: u32, events: seq<Event>)
    requires forall e :: e in events ==> Legal(l, e)
    requires AllUnambiguous(l, mode, Start(bucketTimeoutMs, holTimeoutMs), events)
    ensures var y := After(l, mode, Start(bucketTimeoutMs, holTimeoutMs), events);
            AllFaithful(l, y.delivered, y.who)
  {
    SoundnessFrom(l, mode, Start(bucketTimeoutMs, holTimeoutMs), events);
  }
}
