/** Which answer a packet of the sender gets, in terms of what arrived before. */
module Answers {
  import opened Wire
  import opened Fragmenter
  import opened Buckets
  import opened Receiving
  import opened Delivery
  import opened Channel
  import opened AtMostOnce
  import opened TooOld
  import opened SentOrder
  import opened Overrun
  import opened ReceiverClass

  // ---------------------------------------------------------------------------------------
  // Over any run

  /** The positions whose fragments a bucket has accepted since it was last opened. */
  ghost function Taken(l: Link, mode: Mode, y: System, events: seq<Event>, i: nat): set<nat>
    requires Inv(y.s) && forall e :: e in events ==> Legal(l, e)
  {
    if events == [] then {}
    else
      var e := events[|events| - 1];
      var front := Taken(l, mode, y, events[..|events| - 1], i);
      var before := After(l, mode, y, events[..|events| - 1]);
      if e.Arrive? && Slot0(l, e.frame) == i && Answer(l, before, e).NoError? then
        (if i < BUCKETS && before.s.buckets[i].active then front else {}) + {e.position}
      else front
  }

  lemma ArriveTakes(l: Link, mode: Mode, y: System, e: Event, i: nat)
    requires Inv(y.s) && Legal(l, e) && e.Arrive? && i == Slot0(l, e.frame)
    requires Step(l, mode, y, e).s.buckets[i].active
    ensures Step(l, mode, y, e).s.buckets[i].received ==
            if !Answer(l, y, e).NoError? then y.s.buckets[i].received
            else (if y.s.buckets[i].active then y.s.buckets[i].received else {}) + {e.position}
    ensures !Answer(l, y, e).NoError? ==> y.s.buckets[i].active
  {
    var p := PacketOf(l, e.frame, e.position);
    if Answer(l, y, e).NoError? {
      AcceptedAdds(y.s, p, l.source, e.now);
    } else {
      RefusedChanges(y.s, p, l.source, e.now);
    }
  }

  lemma StaysPut(l: Link, mode: Mode, y: System, e: Event, i: nat)
    requires Inv(y.s) && Legal(l, e) && i < BUCKETS && (e.Arrive? ==> i != Slot0(l, e.frame))
    ensures Step(l, mode, y, e).s.buckets[i].active ==> Step(l, mode, y, e).s.buckets[i] == y.s.buckets[i]
  {
    if e.Arrive? {
      UnpackTouches(y.s, PacketOf(l, e.frame, e.position), l.source, e.now);
    } else {
      PassContract(y.s, mode, e.now);
    }
  }

  /** What a bucket in use has received is what it has accepted since it was opened. */
  lemma {:induction false} RunTakes(l: Link, mode: Mode, bucketTimeoutMs: u32, holTimeoutMs: u32, events: seq<Event>, i: nat)
    requires i < BUCKETS && forall e :: e in events ==> Legal(l, e)
    ensures var y := After(l, mode, Start(bucketTimeoutMs, holTimeoutMs), events);
            y.s.buckets[i].active ==>
              y.s.buckets[i].received == Taken(l, mode, Start(bucketTimeoutMs, holTimeoutMs), events, i)
  {
    if events != [] {
      var n := |events| - 1;
      var before := After(l, mode, Start(bucketTimeoutMs, holTimeoutMs), events[..n]);
      RunTakes(l, mode, bucketTimeoutMs, holTimeoutMs, events[..n], i);
      if Step(l, mode, before, events[n]).s.buckets[i].active {
        if events[n].Arrive? && i == Slot0(l, events[n].frame) {
          ArriveTakes(l, mode, before, events[n], i);
        } else {
          StaysPut(l, mode, before, events[n], i);
        }
      }
    }
  }

  /** What a bucket is in use for: a superframe with the same 16-bit number as k, and with the same last
      position. */
  ghost predicate SameNumber(l: Link, y: System, k: nat) {
    Slot0(l, k) in y.owners && (l.first + y.owners[Slot0(l, k)]) % 65536 == (l.first + k) % 65536
  }

  ghost predicate SameShape(l: Link, y: System, k: nat) {
    && k < |l.sent| && Slot0(l, k) in y.owners && y.owners[Slot0(l, k)] < |l.sent|
    && LastPosition(|l.sent[y.owners[Slot0(l, k)]].payload|, l.mtu) == LastPosition(|l.sent[k].payload|, l.mtu)
  }

  lemma AnswerFrom(l: Link, y: System, e: Event)
    requires Inv(y.s) && Legal(l, e) && e.Arrive? && RoomsKept(l, y)
    ensures var b := y.s.buckets[Slot0(l, e.frame)];
            var msg := Answer(l, y, e);
            && (msg == BufferOutOfResources <==> b.active && !SameNumber(l, y, e.frame))
            && (msg == BufferOutOfBounds <==> b.active && SameNumber(l, y, e.frame) && !SameShape(l, y, e.frame))
            && (msg == DuplicatePacketReceived <==>
                 b.active && SameNumber(l, y, e.frame) && SameShape(l, y, e.frame) && e.position in b.received)
            && (msg == TooOldFragment ==> !b.active)
            && msg in {NoError, BufferOutOfResources, BufferOutOfBounds, DuplicatePacketReceived, TooOldFragment}
  {
    AnswerIff(y.s, PacketOf(l, e.frame, e.position), l.source, e.now);
    assert KeepsRoom(l, y, Slot0(l, e.frame));
  }

  /** Over any run, whatever the channel does: a fragment is out of resources if and only if its bucket is
      in use for another 16-bit number, out of bounds if and only if it is in use for that number with
      another last position, and a duplicate if and only if it is in use for both and has accepted that
      position since it was opened. */
  lemma AnswersOverRuns(l: Link, mode: Mode, bucketTimeoutMs: u32, holTimeoutMs: u32, events: seq<Event>, last: Event)
    requires (forall e :: e in events ==> Legal(l, e)) && Legal(l, last) && last.Arrive?
    ensures var y := After(l, mode, Start(bucketTimeoutMs, holTimeoutMs), events);
            var k, msg := last.frame, Answer(l, y, last);
            var used := y.s.buckets[Slot0(l, k)].active;
            var taken := last.position in Taken(l, mode, Start(bucketTimeoutMs, holTimeoutMs), events, Slot0(l, k));
            && (msg == BufferOutOfResources <==> used && !SameNumber(l, y, k))
            && (msg == BufferOutOfBounds <==> used && SameNumber(l, y, k) && !SameShape(l, y, k))
            && (msg == DuplicatePacketReceived <==> used && SameNumber(l, y, k) && SameShape(l, y, k) && taken)
            && (used ==> (msg == NoError <==> SameNumber(l, y, k) && SameShape(l, y, k) && !taken))
  {
    RunKeepsRooms(l, mode, bucketTimeoutMs, holTimeoutMs, events);
    RunTakes(l, mode, bucketTimeoutMs, holTimeoutMs, events, Slot0(l, last.frame));
    AnswerFrom(l, After(l, mode, Start(bucketTimeoutMs, holTimeoutMs), events), last);
  }

  // ---------------------------------------------------------------------------------------
  // Over a channel that keeps its promises

  /** The fragment at position i of superframe k has been accepted. */
  ghost predicate WasAccepted(l: Link, mode: Mode, y: System, events: seq<Event>, k: nat, i: nat)
    requires Inv(y.s) && forall e :: e in events ==> Legal(l, e)
  {
    events != [] &&
      var e := events[|events| - 1];
      || WasAccepted(l, mode, y, events[..|events| - 1], k, i)
      || (e.Arrive? && e.frame == k && e.position == i
          && Answer(l, After(l, mode, y, events[..|events| - 1]), e).NoError?)
  }

  lemma AcceptedIsHeld(l: Link, mode: Mode, y: System, e: Event)
    requires Inv(y.s) && Legal(l, e) && e.Arrive? && Unambiguous(l, y, e) && Answer(l, y, e).NoError?
    ensures HeldOrDelivered(l, Step(l, mode, y, e), e.frame)
  {
    var p := PacketOf(l, e.frame, e.position);
    AnswerIff(y.s, p, l.source, e.now);
    AcceptedAdds(y.s, p, l.source, e.now);
  }

  /** What has been accepted of a superframe is held until the superframe is delivered. */
  lemma {:induction false} AcceptedIsKept(l: Link, mode: Mode, bucketTimeoutMs: u32, holTimeoutMs: u32, events: seq<Event>,
                                          k: nat, i: nat)
    requires forall e :: e in events ==> Legal(l, e)
    requires AllUnambiguous(l, mode, Start(bucketTimeoutMs, holTimeoutMs), events)
    requires WasAccepted(l, mode, Start(bucketTimeoutMs, holTimeoutMs), events, k, i)
    ensures HeldOrDelivered(l, After(l, mode, Start(bucketTimeoutMs, holTimeoutMs), events), k)
  {
    var n := |events| - 1;
    var before := After(l, mode, Start(bucketTimeoutMs, holTimeoutMs), events[..n]);
    if WasAccepted(l, mode, Start(bucketTimeoutMs, holTimeoutMs), events[..n], k, i) {
      AcceptedIsKept(l, mode, bucketTimeoutMs, holTimeoutMs, events[..n], k, i);
      SoundnessFrom(l, mode, Start(bucketTimeoutMs, holTimeoutMs), events[..n]);
      StepKeepsHeld(l, mode, before, events[n], k);
    } else {
      AcceptedIsHeld(l, mode, before, events[n]);
    }
  }

  /** Superframe k is under way in its bucket. */
  ghost predicate HeldNow(l: Link, y: System, k: nat)
    requires Inv(y.s)
  {
    y.s.buckets[Slot0(l, k)].active && Slot0(l, k) in y.owners && y.owners[Slot0(l, k)] == k
  }

  /** What one arrival changes in what is held of superframe k. */
  lemma ArriveHolds(l: Link, mode: Mode, y: System, e: Event, k: nat, i: nat)
    requires Inv(y.s) && Legal(l, e) && e.Arrive? && Unambiguous(l, y, e)
    requires HeldNow(l, Step(l, mode, y, e), k)
    ensures i in Step(l, mode, y, e).s.buckets[Slot0(l, k)].received <==>
            || (HeldNow(l, y, k) && i in y.s.buckets[Slot0(l, k)].received)
            || (e.frame == k && e.position == i && Answer(l, y, e).NoError?)
    ensures !HeldNow(l, y, k) ==> e.frame == k && !y.s.buckets[Slot0(l, k)].active
  {
    AnswerIff(y.s, PacketOf(l, e.frame, e.position), l.source, e.now);
    if Slot0(l, e.frame) == Slot0(l, k) {
      ArriveTakes(l, mode, y, e, Slot0(l, k));
    } else {
      StaysPut(l, mode, y, e, Slot0(l, k));
    }
  }

  /** While superframe k is under way, its bucket has received exactly what was accepted of it. */
  lemma {:induction false} HeldIsAccepted(l: Link, mode: Mode, bucketTimeoutMs: u32, holTimeoutMs: u32, events: seq<Event>,
                                          k: nat, i: nat)
    requires forall e :: e in events ==> Legal(l, e)
    requires AllOrderly(l, mode, Start(bucketTimeoutMs, holTimeoutMs), events)
    requires AllUnambiguous(l, mode, Start(bucketTimeoutMs, holTimeoutMs), events)
    requires HeldNow(l, After(l, mode, Start(bucketTimeoutMs, holTimeoutMs), events), k)
    ensures i in After(l, mode, Start(bucketTimeoutMs, holTimeoutMs), events).s.buckets[Slot0(l, k)].received
            <==> WasAccepted(l, mode, Start(bucketTimeoutMs, holTimeoutMs), events, k, i)
  {
    if events != [] {
      var n := |events| - 1;
      var before := After(l, mode, Start(bucketTimeoutMs, holTimeoutMs), events[..n]);
      if events[n].Arrive? {
        ArriveHolds(l, mode, before, events[n], k, i);
      } else {
        StaysPut(l, mode, before, events[n], Slot0(l, k));
      }
      if HeldNow(l, before, k) {
        HeldIsAccepted(l, mode, bucketTimeoutMs, holTimeoutMs, events[..n], k, i);
      } else {
        NotYetAccepted(l, mode, bucketTimeoutMs, holTimeoutMs, events, k, i);
      }
    }
  }

  /** Before its bucket is opened for it, nothing of a superframe has been accepted. */
  lemma NotYetAccepted(l: Link, mode: Mode, bucketTimeoutMs: u32, holTimeoutMs: u32, events: seq<Event>, k: nat, i: nat)
    requires events != [] && (forall e :: e in events ==> Legal(l, e)) && events[|events| - 1].Arrive?
    requires AllOrderly(l, mode, Start(bucketTimeoutMs, holTimeoutMs), events)
    requires AllUnambiguous(l, mode, Start(bucketTimeoutMs, holTimeoutMs), events)
    requires !HeldNow(l, After(l, mode, Start(bucketTimeoutMs, holTimeoutMs), events[..|events| - 1]), k)
    requires HeldNow(l, After(l, mode, Start(bucketTimeoutMs, holTimeoutMs), events), k)
    ensures !WasAccepted(l, mode, Start(bucketTimeoutMs, holTimeoutMs), events[..|events| - 1], k, i)
  {
    var n := |events| - 1;
    var start := Start(bucketTimeoutMs, holTimeoutMs);
    var before := After(l, mode, start, events[..n]);
    ArriveHolds(l, mode, before, events[n], k, i);
    DeliveredAtMostOnce(l, mode, bucketTimeoutMs, holTimeoutMs, events[..n]);
    if WasAccepted(l, mode, start, events[..n], k, i) {
      AcceptedIsKept(l, mode, bucketTimeoutMs, holTimeoutMs, events[..n], k, i);
      DeliveredIsTooOld(l, before, events[n]);
      AnswerIff(before.s, PacketOf(l, k, events[n].position), l.source, events[n].now);
      RefusedChanges(before.s, PacketOf(l, k, events[n].position), l.source, events[n].now);
    }
  }

  /** A superframe that has been accepted in part and not been delivered, other than k and for the same
      bucket: their numbers differ by a multiple of 8192. */
  ghost predicate InTheWay(l: Link, mode: Mode, y: System, events: seq<Event>, k: nat, w: nat, i: nat)
    requires Inv(y.s) && forall e :: e in events ==> Legal(l, e)
  {
    w != k && (w - k) % 8192 == 0 && WasAccepted(l, mode, y, events, w, i) && w !in After(l, mode, y, events).who
  }

  lemma SameBucket(l: Link, k: nat, w: nat)
    ensures Slot0(l, k) == Slot0(l, w) <==> (w - k) % 8192 == 0
  {
    IndexIs(l.first + k);
    IndexIs(l.first + w);
    SameMod(l.first + w, l.first + k);
    assert l.first + w - (l.first + k) == w - k;
  }

  lemma IndexIs(t: nat)
    ensures t % TWO16 % BUCKETS == t % 8192
  {
    assert t == TWO16 * (t / TWO16) + t % TWO16;
  }

  lemma SameMod(a: int, b: int)
    ensures a % 8192 == b % 8192 <==> (a - b) % 8192 == 0
  {
    assert a == 8192 * (a / 8192) + a % 8192 && b == 8192 * (b / 8192) + b % 8192;
    assert a - b == 8192 * (a / 8192 - b / 8192) + (a % 8192 - b % 8192);
  }

  /** A fragment's bucket is in use for its superframe exactly when part of that was accepted and it has
      not been delivered; so for any superframe. */
  lemma HeldIff(l: Link, mode: Mode, bucketTimeoutMs: u32, holTimeoutMs: u32, events: seq<Event>, w: nat, i: nat)
    requires forall e :: e in events ==> Legal(l, e)
    requires AllOrderly(l, mode, Start(bucketTimeoutMs, holTimeoutMs), events)
    requires AllUnambiguous(l, mode, Start(bucketTimeoutMs, holTimeoutMs), events)
    ensures var y := After(l, mode, Start(bucketTimeoutMs, holTimeoutMs), events);
            HeldNow(l, y, w) && i in y.s.buckets[Slot0(l, w)].received <==>
            WasAccepted(l, mode, Start(bucketTimeoutMs, holTimeoutMs), events, w, i) && w !in y.who
  {
    var y := After(l, mode, Start(bucketTimeoutMs, holTimeoutMs), events);
    DeliveredAtMostOnce(l, mode, bucketTimeoutMs, holTimeoutMs, events);
    if HeldNow(l, y, w) {
      HeldIsAccepted(l, mode, bucketTimeoutMs, holTimeoutMs, events, w, i);
      assert w in y.who ==> DoneWith(l, y, w);
    } else if WasAccepted(l, mode, Start(bucketTimeoutMs, holTimeoutMs), events, w, i) {
      AcceptedIsKept(l, mode, bucketTimeoutMs, holTimeoutMs, events, w, i);
    }
  }

  /** The bucket is in use for another number exactly when another superframe is in the way. */
  lemma OtherIsInTheWay(l: Link, mode: Mode, bucketTimeoutMs: u32, holTimeoutMs: u32, events: seq<Event>, last: Event)
    requires (forall e :: e in events ==> Legal(l, e)) && Legal(l, last) && last.Arrive?
    requires AllOrderly(l, mode, Start(bucketTimeoutMs, holTimeoutMs), events)
    requires AllUnambiguous(l, mode, Start(bucketTimeoutMs, holTimeoutMs), events)
    ensures var y := After(l, mode, Start(bucketTimeoutMs, holTimeoutMs), events);
            y.s.buckets[Slot0(l, last.frame)].active && !HeldNow(l, y, last.frame) <==>
            exists w, i :: InTheWay(l, mode, Start(bucketTimeoutMs, holTimeoutMs), events, last.frame, w, i)
  {
    var y := After(l, mode, Start(bucketTimeoutMs, holTimeoutMs), events);
    var k := last.frame;
    if y.s.buckets[Slot0(l, k)].active && !HeldNow(l, y, k) {
      var w, i := UserIsInTheWay(l, mode, bucketTimeoutMs, holTimeoutMs, events, k);
    }
    forall w, i | InTheWay(l, mode, Start(bucketTimeoutMs, holTimeoutMs), events, k, w, i)
      ensures y.s.buckets[Slot0(l, k)].active && !HeldNow(l, y, k)
    {
      InTheWayUses(l, mode, bucketTimeoutMs, holTimeoutMs, events, k, w, i);
    }
  }

  lemma UserIsInTheWay(l: Link, mode: Mode, bucketTimeoutMs: u32, holTimeoutMs: u32, events: seq<Event>, k: nat)
      returns (w: nat, i: nat)
    requires forall e :: e in events ==> Legal(l, e)
    requires AllOrderly(l, mode, Start(bucketTimeoutMs, holTimeoutMs), events)
    requires AllUnambiguous(l, mode, Start(bucketTimeoutMs, holTimeoutMs), events)
    requires var y := After(l, mode, Start(bucketTimeoutMs, holTimeoutMs), events);
             y.s.buckets[Slot0(l, k)].active && !HeldNow(l, y, k)
    ensures InTheWay(l, mode, Start(bucketTimeoutMs, holTimeoutMs), events, k, w, i)
  {
    var y := After(l, mode, Start(bucketTimeoutMs, holTimeoutMs), events);
    SoundnessFrom(l, mode, Start(bucketTimeoutMs, holTimeoutMs), events);
    w, i := HoldsSomething(l, y, Slot0(l, k));
    HeldIff(l, mode, bucketTimeoutMs, holTimeoutMs, events, w, i);
    SameBucket(l, k, w);
  }

  lemma HoldsSomething(l: Link, y: System, slot: nat) returns (w: nat, i: nat)
    requires Inv(y.s) && SoundSoFar(l, y) && slot < BUCKETS && y.s.buckets[slot].active
    ensures slot in y.owners && w == y.owners[slot] && Slot0(l, w) == slot && i in y.s.buckets[slot].received
  {
    assert OwnerHolds(l, y, slot);
    w := y.owners[slot];
    i :| i in y.s.buckets[slot].received;
  }

  lemma InTheWayUses(l: Link, mode: Mode, bucketTimeoutMs: u32, holTimeoutMs: u32, events: seq<Event>, k: nat,
                     w: nat, i: nat)
    requires forall e :: e in events ==> Legal(l, e)
    requires AllOrderly(l, mode, Start(bucketTimeoutMs, holTimeoutMs), events)
    requires AllUnambiguous(l, mode, Start(bucketTimeoutMs, holTimeoutMs), events)
    requires InTheWay(l, mode, Start(bucketTimeoutMs, holTimeoutMs), events, k, w, i)
    ensures var y := After(l, mode, Start(bucketTimeoutMs, holTimeoutMs), events);
            y.s.buckets[Slot0(l, k)].active && !HeldNow(l, y, k)
  {
    HeldIff(l, mode, bucketTimeoutMs, holTimeoutMs, events, w, i);
    SameBucket(l, k, w);
  }

  /** Which answer every fragment gets over an orderly, unambiguous channel, from what was accepted and
      delivered before: it is a duplicate if and only if it has been accepted before and its superframe has
      not been delivered; it is out of resources if and only if another superframe, a multiple of 8192 away,
      has been accepted in part and not been delivered; it is too old if and only if its superframe has been
      delivered or is mistaken; and otherwise it is accepted. */
  lemma AnswersInHistory(l: Link, mode: Mode, bucketTimeoutMs: u32, holTimeoutMs: u32, events: seq<Event>, last: Event)
    requires (forall e :: e in events ==> Legal(l, e)) && Legal(l, last) && last.Arrive?
    requires AllOrderly(l, mode, Start(bucketTimeoutMs, holTimeoutMs), events)
    requires AllUnambiguous(l, mode, Start(bucketTimeoutMs, holTimeoutMs), events)
    requires Orderly(l, After(l, mode, Start(bucketTimeoutMs, holTimeoutMs), events), last)
    requires Unambiguous(l, After(l, mode, Start(bucketTimeoutMs, holTimeoutMs), events), last)
    ensures var start := Start(bucketTimeoutMs, holTimeoutMs);
            var y := After(l, mode, start, events);
            var k, msg := last.frame, Answer(l, y, last);
            var again := WasAccepted(l, mode, start, events, k, last.position) && k !in y.who;
            var inTheWay := exists w, i :: InTheWay(l, mode, start, events, k, w, i);
            var late := k in y.who || Mistaken(l, y, last);
            && (msg == DuplicatePacketReceived <==> again)
            && (msg == BufferOutOfResources <==> inTheWay)
            && (msg == TooOldFragment <==> late)
            && (msg == NoError <==> !again && !inTheWay && !late)
  {
    var y := After(l, mode, Start(bucketTimeoutMs, holTimeoutMs), events);
    RunAccounts(l, mode, bucketTimeoutMs, holTimeoutMs, events);
    RunKeepsRooms(l, mode, bucketTimeoutMs, holTimeoutMs, events);
    AnswerFrom(l, y, last);
    TooOldIff(l, y, last);
    HeldIff(l, mode, bucketTimeoutMs, holTimeoutMs, events, last.frame, last.position);
    OtherIsInTheWay(l, mode, bucketTimeoutMs, holTimeoutMs, events, last);
    UseIsForNumber(l, y, last);
  }

  lemma UseIsForNumber(l: Link, y: System, e: Event)
    requires Inv(y.s) && Legal(l, e) && e.Arrive? && Unambiguous(l, y, e) && RoomsKept(l, y)
    ensures y.s.buckets[Slot0(l, e.frame)].active ==> (SameNumber(l, y, e.frame) <==> HeldNow(l, y, e.frame))
    ensures y.s.buckets[Slot0(l, e.frame)].active && SameNumber(l, y, e.frame) ==> SameShape(l, y, e.frame)
  {
    assert KeepsRoom(l, y, Slot0(l, e.frame));
  }

  // ---------------------------------------------------------------------------------------
  // From the bytes of a call

  /** Which calls are answered without looking at a bucket: all while a threaded receiver is not running, and
      by the low four bits of the first byte and the number of bytes otherwise. They change nothing and
      deliver nothing. */
  lemma CallAnswerIff(s: State, cells: seq<Cell>, source: byte, mode: Mode, threadsActive: bool, arrives: int, checks: int)
    requires Inv(s) && cells != [] && cells[0].Head? && Announced(cells[0].h)
    requires |cells| >= HeaderSize(cells[0].h) && Nibble(cells[0].h.frameType) in {1, 2, 3} ==>
               Decode(cells).Some? && InRange(Decode(cells).value)
    ensures var (s', msg, delivered) := Answered(s, cells, source, mode, threadsActive, arrives, checks);
            var h, kind := cells[0].h, cells[0].h.frameType % 16;
            var running := mode.RunToCompletion? || threadsActive;
            var header: nat := if kind == 2 then TYPE2_HEADER else 8;
            && (msg == ReceiverNotRunning <==> !running)
            && (msg == Type0Frame <==> running && kind == 0)
            && (msg == UnknownFrameType <==> running && kind > 3)
            && (msg == FrameSizeMismatch <==> running && 1 <= kind <= 3 && |cells| < header)
            && (msg == Type2FrameOutOfBounds <==>
                 running && kind == 2 && h.Type2? && header <= |cells| < header + h.sizeOfData)
            && (msg in {ReceiverNotRunning, Type0Frame, UnknownFrameType, FrameSizeMismatch} ==>
                 s' == s && delivered == [])
            && (mode.Threaded? ==> delivered == [])
  {
    if |cells| >= HeaderSize(cells[0].h) && Nibble(cells[0].h.frameType) in {1, 2, 3} {
      AnswerIff(s, Decode(cells).value, source, arrives);
    }
  }
}
