/** What the answer "too old" tells about delivery. */
module TooOld {
  import opened Wire
  import opened Fragmenter
  import opened Sequencing
  import opened Buckets
  import opened Receiving
  import opened Delivery
  import opened Channel
  import opened AtMostOnce

  /** If bucket i was opened and is not in use, the superframe it was last opened for is delivered. */
  ghost predicate LeftByDelivery(y: System, i: nat)
    requires Inv(y.s) && i < BUCKETS
  {
    i in y.owners && !y.s.buckets[i].active ==> y.owners[i] in y.who
  }

  ghost predicate Accounted(l: Link, y: System)
    requires Inv(y.s)
  {
    && (forall i :: 0 <= i < BUCKETS ==> LeftByDelivery(y, i))
    && (forall i :: i in y.owners ==> y.owners[i] < |l.sent|)
    && (!y.s.unwrapper.firstTime ==> l.first <= y.firstSeen < l.first + |l.sent|)
  }

  lemma ArriveAccounts(l: Link, mode: Mode, y: System, e: Event)
    requires Inv(y.s) && Legal(l, e) && e.Arrive? && Unambiguous(l, y, e) && SoundSoFar(l, y) && Accounted(l, y)
    ensures Accounted(l, Step(l, mode, y, e))
  {
    forall i | 0 <= i < BUCKETS ensures LeftByDelivery(Step(l, mode, y, e), i) {
      assert LeftByDelivery(y, i);
      ArriveKeepsBucket(l, mode, y, e, i);
    }
  }

  /** An arrival frees no bucket, delivers nothing, and a bucket it opens is in use. */
  lemma ArriveKeepsBucket(l: Link, mode: Mode, y: System, e: Event, i: nat)
    requires Inv(y.s) && Legal(l, e) && e.Arrive? && Unambiguous(l, y, e) && SoundSoFar(l, y) && i < BUCKETS
    ensures var y' := Step(l, mode, y, e);
            && y'.who == y.who
            && (y.s.buckets[i].active ==> y'.s.buckets[i].active && i in y.owners && i in y'.owners
                                          && y'.owners[i] == y.owners[i])
            && (!y'.s.buckets[i].active ==>
                  (i in y'.owners <==> i in y.owners) && (i in y.owners ==> y'.owners[i] == y.owners[i]))
  {
    assert OwnerHolds(l, y, Slot0(l, e.frame)) && OwnerHolds(l, y, i) && Filed(y.s, Slot0(l, e.frame));
    ArriveSound(l, mode, y, e);
  }

  /** A pass frees exactly the buckets whose superframes it delivers. */
  lemma TickFreesDelivered(l: Link, mode: Mode, y: System, e: Event, i: nat)
    requires Inv(y.s) && e.Tick? && i < BUCKETS && i in y.owners
    ensures var y' := Step(l, mode, y, e);
            && y'.owners == y.owners
            && (y'.s.buckets[i].active ==> y.s.buckets[i].active)
            && (y.s.buckets[i].active && !y'.s.buckets[i].active ==> y.owners[i] in y'.who)
  {
    PassContract(y.s, mode, e.now);
    var keys := Pass(y.s, mode, e.now).1;
    var b := y.s.buckets[i];
    if b.active && b.order in keys {
      var m :| 0 <= m < |keys| && keys[m] == b.order;
      assert Filed(y.s, i);
      assert Owners(y, keys)[m] == y.owners[i];
    }
  }

  lemma TickAccounts(l: Link, mode: Mode, y: System, e: Event)
    requires Inv(y.s) && e.Tick? && Accounted(l, y)
    ensures Accounted(l, Step(l, mode, y, e))
  {
    PassContract(y.s, mode, e.now);
    var y' := Step(l, mode, y, e);
    forall i | 0 <= i < BUCKETS ensures LeftByDelivery(y', i) {
      assert LeftByDelivery(y, i);
      if i in y.owners {
        TickFreesDelivered(l, mode, y, e, i);
      }
    }
  }

  /** The superframe is mistaken for one it is not: its order is what its bucket remembers, though
      the bucket was last opened for another one a multiple of 2^64 away, or was never opened and the
      order is the one a fresh bucket starts with. */
  predicate Mistaken(l: Link, y: System, e: Event)
    requires Inv(y.s) && Legal(l, e) && e.Arrive?
  {
    var i := Slot0(l, e.frame);
    var first := FirstSeen(l, y, e.frame);
    !y.s.buckets[i].active
    && if i in y.owners then y.owners[i] != e.frame && (e.frame - y.owners[i]) % TWO64 == 0
       else (l.first + e.frame - (first - first % TWO16) + 1) % TWO64 == 0
  }

  /** A fragment is refused as too old if and only if its superframe has been delivered or is
      mistaken for one it is not; never both. */
  lemma TooOldIff(l: Link, y: System, e: Event)
    requires Inv(y.s) && Legal(l, e) && e.Arrive? && OnceSoFar(l, y) && Orderly(l, y, e) && Accounted(l, y)
    ensures Answer(l, y, e) == TooOldFragment <==> e.frame in y.who || Mistaken(l, y, e)
    ensures !(e.frame in y.who && Mistaken(l, y, e))
  {
    if y.s.buckets[Slot0(l, e.frame)].active {
      UsedIsNotTooOld(l, y, e);
    } else {
      RefusedIff(l, y, e);
      DeliveredIfLast(l, y, e);
      assert 0 % TWO64 == 0;
    }
  }

  /** A superframe whose bucket is in use is neither refused as too old nor delivered. */
  lemma UsedIsNotTooOld(l: Link, y: System, e: Event)
    requires Inv(y.s) && Legal(l, e) && e.Arrive? && y.s.buckets[Slot0(l, e.frame)].active
    requires OnceSoFar(l, y) && Orderly(l, y, e)
    ensures Answer(l, y, e) != TooOldFragment && e.frame !in y.who
  {
    assert Filed(y.s, Slot0(l, e.frame));
    assert e.frame in y.who ==> DoneWith(l, y, e.frame);
  }

  /** A superframe whose bucket is not in use is delivered if the bucket was last opened for it. */
  lemma DeliveredIfLast(l: Link, y: System, e: Event)
    requires Inv(y.s) && Legal(l, e) && e.Arrive? && !y.s.buckets[Slot0(l, e.frame)].active
    requires OnceSoFar(l, y) && Orderly(l, y, e) && Accounted(l, y)
    ensures var i := Slot0(l, e.frame);
            e.frame in y.who <==> i in y.owners && y.owners[i] == e.frame
  {
    assert LeftByDelivery(y, Slot0(l, e.frame));
    assert e.frame in y.who ==> DoneWith(l, y, e.frame);
  }

  /** So few superframes that no two of them, counted from the 65536-block before the first, have equal
      orders. */
  predicate Few(l: Link) {
    |l.sent| < TWO64 - TWO16
  }

  /** The superframe just before the 65536-block of the first one seen, while its bucket was never
      opened. */
  predicate JustBefore(l: Link, y: System, e: Event)
    requires Inv(y.s) && Legal(l, e) && e.Arrive?
  {
    var first := FirstSeen(l, y, e.frame);
    Slot0(l, e.frame) !in y.owners && !y.s.buckets[Slot0(l, e.frame)].active
    && l.first + e.frame + 1 == first - first % TWO16
  }

  /** With fewer than 2^64 - 65536 superframes this is the only one that can be mistaken. */
  lemma MistakenIfFew(l: Link, y: System, e: Event)
    requires Inv(y.s) && Legal(l, e) && e.Arrive? && Accounted(l, y) && Few(l)
    ensures Mistaken(l, y, e) <==> JustBefore(l, y, e)
  {
    var i := Slot0(l, e.frame);
    var first := FirstSeen(l, y, e.frame);
    if i in y.owners {
      NoMultiple(e.frame - y.owners[i]);
    } else {
      NoMultiple(l.first + e.frame - (first - first % TWO16) + 1);
    }
  }

  lemma NoMultiple(d: int)
    requires -TWO64 < d < TWO64
    ensures d % TWO64 == 0 <==> d == 0
  {
  }

  /** All invariants of a run in which the channel keeps both its promises. */
  lemma {:induction false} RunAccounts(l: Link, mode: Mode, bucketTimeoutMs: u32, holTimeoutMs: u32, events: seq<Event>)
    requires forall e :: e in events ==> Legal(l, e)
    requires AllOrderly(l, mode, Start(bucketTimeoutMs, holTimeoutMs), events)
    requires AllUnambiguous(l, mode, Start(bucketTimeoutMs, holTimeoutMs), events)
    ensures var y := After(l, mode, Start(bucketTimeoutMs, holTimeoutMs), events);
            OnceSoFar(l, y) && SoundSoFar(l, y) && Accounted(l, y)
  {
    var start := Start(bucketTimeoutMs, holTimeoutMs);
    DeliveredAtMostOnce(l, mode, bucketTimeoutMs, holTimeoutMs, events);
    SoundnessFrom(l, mode, start, events);
    if events != [] {
      var n := |events| - 1;
      RunAccounts(l, mode, bucketTimeoutMs, holTimeoutMs, events[..n]);
      if events[n].Arrive? {
        ArriveAccounts(l, mode, After(l, mode, start, events[..n]), events[n]);
      } else {
        TickAccounts(l, mode, After(l, mode, start, events[..n]), events[n]);
      }
    }
  }

  /** So in every such run, exactly the superframes delivered before, and the mistaken ones, are
      refused as too old. */
  lemma TooOldOverRuns(l: Link, mode: Mode, bucketTimeoutMs: u32, holTimeoutMs: u32, events: seq<Event>)
    requires forall e :: e in events ==> Legal(l, e)
    requires AllOrderly(l, mode, Start(bucketTimeoutMs, holTimeoutMs), events)
    requires AllUnambiguous(l, mode, Start(bucketTimeoutMs, holTimeoutMs), events)
    ensures events != [] && events[|events| - 1].Arrive? ==>
              var last := events[|events| - 1];
              assert last in events;
              var y := After(l, mode, Start(bucketTimeoutMs, holTimeoutMs), events[..|events| - 1]);
              && (Answer(l, y, last) == TooOldFragment <==> last.frame in y.who || Mistaken(l, y, last))
              && (Few(l) ==> (Mistaken(l, y, last) <==> JustBefore(l, y, last)))
  {
    if events != [] && events[|events| - 1].Arrive? {
      var n := |events| - 1;
      RunAccounts(l, mode, bucketTimeoutMs, holTimeoutMs, events[..n]);
      var y := After(l, mode, Start(bucketTimeoutMs, holTimeoutMs), events[..n]);
      TooOldIff(l, y, events[n]);
      if Few(l) {
        MistakenIfFew(l, y, events[n]);
      }
    }
  }

  // ---------------------------------------------------------------------------------------
  // Without the channel's promise about equal numbers

  /** The first packet of a run opens its bucket. */
  lemma FirstOpens(l: Link, mode: Mode, bucketTimeoutMs: u32, holTimeoutMs: u32, k: nat, i: nat, now: int)
      returns (y: System)
    requires OnLink(l, k, i)
    ensures y == Step(l, mode, Start(bucketTimeoutMs, holTimeoutMs), Arrive(k, i, now)) && Inv(y.s)
    ensures Tracks(y.s.unwrapper, l.first + k, l.first + k) && y.firstSeen == y.lastSeen == l.first + k
    ensures y.owners == map[Slot0(l, k) := k] && y.who == []
    ensures var b := y.s.buckets[Slot0(l, k)];
            && b == Opened(y.s.streams[l.sent[k].stream], PacketOf(l, k, i), l.source, No(l, k),
                           now + Micros(bucketTimeoutMs))
            && y.s.streams[l.sent[k].stream] == Declared(NO_STREAM, PacketOf(l, k, i))
  {
    TracksFirst(l.first + k);
    y := Step(l, mode, Start(bucketTimeoutMs, holTimeoutMs), Arrive(k, i, now));
  }

  /** And no other one. */
  lemma FirstOpensOnly(l: Link, mode: Mode, bucketTimeoutMs: u32, holTimeoutMs: u32, k: nat, i: nat, now: int, slot: nat)
    requires OnLink(l, k, i) && slot < BUCKETS && slot != Slot0(l, k)
    ensures Step(l, mode, Start(bucketTimeoutMs, holTimeoutMs), Arrive(k, i, now)).s.buckets[slot] == FRESH
  {
  }

  lemma SameSlot(l: Link, k: nat)
    ensures No(l, k + TWO16) == No(l, k) && Slot0(l, k + TWO16) == Slot0(l, k)
  {
  }

  /** A bucket in use for a superframe with another last position is freed. */
  lemma MisfitFrees(l: Link, mode: Mode, y: System, e: Event) returns (y': System)
    requires Inv(y.s) && Legal(l, e) && e.Arrive?
    requires var b := y.s.buckets[Slot0(l, e.frame)];
             b.active && b.savedNo == No(l, e.frame) && b.ofNo != LastPosition(|l.sent[e.frame].payload|, l.mtu)
    ensures y' == Step(l, mode, y, e) && Inv(y'.s) && Answer(l, y, e) == BufferOutOfBounds
    ensures y' == y.(s := y'.s) && y'.s.unwrapper == y.s.unwrapper
    ensures var b := y.s.buckets[Slot0(l, e.frame)];
            y'.s.buckets[Slot0(l, e.frame)] == b.(active := false)
  {
    assert Filed(y.s, Slot0(l, e.frame));
    y' := Step(l, mode, y, e);
  }

  /** The result code promises that the superframe was delivered. It was not, when the one just before
      the 65536-block of the superframe k seen first arrives late: its order wraps to 2^64 - 1, which is
      what a bucket that was never opened remembers. */
  lemma TooOldWithoutDelivery(l: Link, mode: Mode, bucketTimeoutMs: u32, holTimeoutMs: u32, k: nat, i: nat, j: nat,
                              p: nat, now: int)
      returns (y: System)
    requires OnLink(l, k, i) && OnLink(l, j, p) && Slot0(l, k) != Slot0(l, j)
    requires k - j <= 0x8000 && l.first + j + 1 == l.first + k - No(l, k)
    ensures y == Step(l, mode, Start(bucketTimeoutMs, holTimeoutMs), Arrive(k, i, now)) && Inv(y.s)
    ensures Orderly(l, Start(bucketTimeoutMs, holTimeoutMs), Arrive(k, i, now))
    ensures Orderly(l, y, Arrive(j, p, now)) && Unambiguous(l, y, Arrive(j, p, now))
    ensures Answer(l, y, Arrive(j, p, now)) == TooOldFragment && y.who == []
  {
    y := FirstOpens(l, mode, bucketTimeoutMs, holTimeoutMs, k, i, now);
    FirstOpensOnly(l, mode, bucketTimeoutMs, holTimeoutMs, k, i, now, Slot0(l, j));
    UnwrapsToTop(y.s.unwrapper, l.first + k, l.first + j);
    FreshRefuses(l, y, Arrive(j, p, now));
  }

  /** A bucket never opened refuses the order 2^64 - 1. */
  lemma FreshRefuses(l: Link, y: System, e: Event)
    requires Inv(y.s) && Legal(l, e) && e.Arrive? && y.s.buckets[Slot0(l, e.frame)] == FRESH
    requires Unwrap(y.s.unwrapper, No(l, e.frame)).recalc == UINT64_MAX
    ensures Answer(l, y, e) == TooOldFragment
  {
  }

  lemma UnwrapsToTop(u: Unwrapper, first: nat, t: nat)
    requires Tracks(u, first, first) && Near(first, t) && t + 1 == first - first % TWO16
    ensures Unwrap(u, t % TWO16).recalc == UINT64_MAX
  {
    StepReach(u, first, first, t);
    WrapsToTop(first, t);
  }

  lemma WrapsToTop(first: nat, t: nat)
    requires t + 1 == first - first % TWO16
    ensures OrderOf(first, t) == UINT64_MAX
  {
  }

  /** A number seen once more unwraps to the order it had. */
  lemma SameAgain(u: Unwrapper)
    requires !u.firstTime
    ensures Unwrap(u, u.oldNo) == u
  {
  }

  /** Superframes k and k + 65536 with different numbers of fragments are under way at once: the
      fragment of the later one frees the bucket, and the next fragment of the earlier one is refused
      as too old, although nothing was delivered. All arrivals are orderly. */
  lemma FreedWithoutDelivery(l: Link, mode: Mode, bucketTimeoutMs: u32, holTimeoutMs: u32, k: nat, now: int)
      returns (y1: System, y2: System)
    requires OnLink(l, k, 1) && OnLink(l, k + TWO16, 0)
    requires LastPosition(|l.sent[k].payload|, l.mtu) != LastPosition(|l.sent[k + TWO16].payload|, l.mtu)
    ensures y1 == Step(l, mode, Start(bucketTimeoutMs, holTimeoutMs), Arrive(k, 0, now))
    ensures Inv(y1.s) && y2 == Step(l, mode, y1, Arrive(k + TWO16, 0, now)) && Inv(y2.s)
    ensures Orderly(l, Start(bucketTimeoutMs, holTimeoutMs), Arrive(k, 0, now))
    ensures Orderly(l, y1, Arrive(k + TWO16, 0, now)) && Orderly(l, y2, Arrive(k, 1, now))
    ensures !Unambiguous(l, y1, Arrive(k + TWO16, 0, now))
    ensures Answer(l, y1, Arrive(k + TWO16, 0, now)) == BufferOutOfBounds
    ensures Answer(l, y2, Arrive(k, 1, now)) == TooOldFragment && y2.who == []
  {
    SameSlot(l, k);
    y1 := FirstOpens(l, mode, bucketTimeoutMs, holTimeoutMs, k, 0, now);
    y2 := MisfitFrees(l, mode, y1, Arrive(k + TWO16, 0, now));
    SameAgain(y2.s.unwrapper);
  }

  /** A link for both: a superframe in two packets, and 65536 later one in a single packet, with
      number 0. */
  lemma SuchALink() returns (l: Link)
    ensures OnLink(l, TWO16, 0) && OnLink(l, TWO16 - 1, 0) && Slot0(l, TWO16) != Slot0(l, TWO16 - 1)
    ensures l.first + (TWO16 - 1) + 1 == l.first + TWO16 - No(l, TWO16)
    ensures OnLink(l, 0, 1) && OnLink(l, 0 + TWO16, 0)
    ensures LastPosition(|l.sent[0].payload|, l.mtu) != LastPosition(|l.sent[0 + TWO16].payload|, l.mtu)
  {
    var small := Media([7], 0x83, 1000, 1000, 0, 1, 0);
    var large := small.(payload := seq(300, _ => 7));
    assert Accepted(small, 255) && Accepted(large, 255);
    WholeAt(300, 247, 1);
    l := Link(seq(TWO16 + 1, k => if k == 0 then large else small), 0, 255, 0);
  }
}
