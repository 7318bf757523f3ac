/** Head-of-line mode in terms of what was sent, as long as buckets are opened only for superframes
    within the 2^64 that start with the 65536-block of the first one seen. */
module SentOrder {
  import opened Wire
  import opened Sequencing
  import opened Receiving
  import opened Delivery
  import opened Channel
  import opened AtMostOnce
  import opened TooOld
  import Runs

  predicate Rising(who: seq<nat>) {
    forall i, j :: 0 <= i < j < |who| ==> who[i] < who[j]
  }

  lemma RisingConcat(a: seq<nat>, b: seq<nat>)
    ensures Rising(a + b) <==> Rising(a) && Rising(b) && (a != [] && b != [] ==> a[|a| - 1] < b[0])
  {
    if Rising(a + b) {
      assert forall i :: 0 <= i < |a| ==> a[i] == (a + b)[i];
      assert forall i :: 0 <= i < |b| ==> b[i] == (a + b)[|a| + i];
    }
  }

  // ---------------------------------------------------------------------------------------
  // Orders that stand for what was sent

  /** Superframe k was sent within the 2^64 superframes that start with the 65536-block of the first one
      seen, so its order is its distance from there. */
  predicate Plain(l: Link, firstSeen: nat, k: nat) {
    0 <= l.first + k - (firstSeen - firstSeen % TWO16) < UINT64_MAX
  }

  lemma PlainOrder(l: Link, firstSeen: nat, k: nat)
    requires Plain(l, firstSeen, k)
    ensures OrderOf(firstSeen, l.first + k) == l.first + k - (firstSeen - firstSeen % TWO16) < UINT64_MAX
  {
  }

  /** A bucket is opened for such superframes only. */
  ghost predicate InBlocks(l: Link, y: System, e: Event)
    requires Inv(y.s) && Legal(l, e)
  {
    e.Arrive? && !y.s.buckets[Slot0(l, e.frame)].active && Answer(l, y, e) == NoError ==>
      Plain(l, FirstSeen(l, y, e.frame), e.frame)
  }

  ghost predicate PlainSoFar(l: Link, y: System)
    requires Inv(y.s)
  {
    && (y.s.unwrapper.firstTime ==> y.owners == map[] && y.who == [])
    && (forall i :: i in y.owners ==> Plain(l, y.firstSeen, y.owners[i]))
    && (forall k :: k in y.who ==> Plain(l, y.firstSeen, k))
  }

  /** The head follows the superframe delivered last. */
  ghost predicate HeadFollows(l: Link, y: System)
    requires Inv(y.s)
  {
    && HolMode(y.s)
    && (y.s.holFirstRun ==> y.who == [])
    && (y.who != [] ==> y.s.nextExpected == OrderOf(y.firstSeen, l.first + y.who[|y.who| - 1]) + 1)
  }

  /** A key of the map is the order of the superframe its bucket was opened for. */
  lemma KeyIs(l: Link, y: System, key: u64)
    requires Inv(y.s) && OnceSoFar(l, y) && PlainSoFar(l, y) && key in y.s.bucketMap
    ensures key % BUCKETS in y.owners && Owner(y, key) == y.owners[key % BUCKETS]
    ensures Slot0(l, Owner(y, key)) == key % BUCKETS
    ensures key == l.first + Owner(y, key) - (y.firstSeen - y.firstSeen % TWO16)
                == OrderOf(y.firstSeen, l.first + Owner(y, key))
    ensures key < UINT64_MAX && Plain(l, y.firstSeen, Owner(y, key))
    ensures Owner(y, key) !in y.who
  {
    assert Points(y.s, key) && Remembers(l, y, key % BUCKETS);
    PlainOrder(l, y.firstSeen, y.owners[key % BUCKETS]);
    assert Owner(y, key) in y.who ==> DoneWith(l, y, Owner(y, key));
  }

  /** Later orders were sent later. */
  lemma OwnersRise(l: Link, y: System, keys: seq<u64>)
    requires Inv(y.s) && OnceSoFar(l, y) && PlainSoFar(l, y) && Lists(y.s, keys) && Ascending(keys)
    ensures Rising(Owners(y, keys))
  {
    forall i, j | 0 <= i < j < |keys| ensures Owners(y, keys)[i] < Owners(y, keys)[j] {
      assert keys[i] in keys && keys[j] in keys;
      KeyIs(l, y, keys[i]);
      KeyIs(l, y, keys[j]);
    }
  }

  // ---------------------------------------------------------------------------------------
  // One event

  lemma ArriveKeepsPlain(l: Link, mode: Mode, y: System, e: Event)
    requires Inv(y.s) && Legal(l, e) && e.Arrive? && InBlocks(l, y, e)
    requires OnceSoFar(l, y) && PlainSoFar(l, y) && HeadFollows(l, y)
    ensures PlainSoFar(l, Step(l, mode, y, e)) && HeadFollows(l, Step(l, mode, y, e))
  {
    UnpackTouches(y.s, PacketOf(l, e.frame, e.position), l.source, e.now);
    assert Filed(y.s, Slot0(l, e.frame));
  }

  /** A pass overtakes: the earliest-sent held superframe was sent before the one delivered last, and
      has timed out. */
  ghost predicate Overtakes(y: System, now: int)
    requires Inv(y.s)
  {
    y.who != [] && y.s.bucketMap.Keys != {}
    && var k := Least(y.s.bucketMap.Keys);
       Owner(y, k) < y.who[|y.who| - 1] && Expired(At(y.s, k), Micros(y.s.holTimeoutMs), now)
  }

  /** What a pass delivers, in terms of what was sent. */
  lemma TickDelivers(l: Link, mode: Mode, y: System, now: int) returns (keys: seq<u64>)
    requires Inv(y.s) && OnceSoFar(l, y) && PlainSoFar(l, y) && HeadFollows(l, y)
    ensures keys == Pass(y.s, mode, now).1 && Lists(y.s, keys) && Ascending(keys)
    ensures Step(l, mode, y, Tick(now)).who == y.who + Owners(y, keys) && Rising(Owners(y, keys))
    ensures y.who != [] && y.s.bucketMap.Keys != {} ==>
              && (keys != [] ==> keys[0] == Least(y.s.bucketMap.Keys))
              && (keys != [] && keys[0] < y.s.nextExpected ==> Expired(At(y.s, keys[0]), Micros(y.s.holTimeoutMs), now))
              && (Expired(At(y.s, Least(y.s.bucketMap.Keys)), Micros(y.s.holTimeoutMs), now) ==> keys != [])
    ensures y.s.bucketMap.Keys == {} ==> keys == []
  {
    keys := Pass(y.s, mode, now).1;
    PassContract(y.s, mode, now);
    OwnersRise(l, y, keys);
    if y.who != [] && y.s.bucketMap.Keys != {} {
      Runs.FirstOut(y.s, mode, now);
    }
    if keys != [] {
      assert keys[0] in keys;
    }
  }

  /** One pass of such a run, exactly: it breaks the sent order if and only if it overtakes. */
  lemma InBlocksTickRisesIff(l: Link, mode: Mode, y: System, now: int)
    requires Inv(y.s) && OnceSoFar(l, y) && PlainSoFar(l, y) && HeadFollows(l, y)
    ensures Rising(Step(l, mode, y, Tick(now)).who) <==> Rising(y.who) && !Overtakes(y, now)
  {
    var keys := TickDelivers(l, mode, y, now);
    RisingConcat(y.who, Owners(y, keys));
    if y.who != [] && y.s.bucketMap.Keys != {} {
      LeastAgainstLast(l, y);
    }
  }

  /** The least key lies below the head if and only if its superframe was sent before the one delivered
      last. */
  lemma LeastAgainstLast(l: Link, y: System)
    requires Inv(y.s) && OnceSoFar(l, y) && PlainSoFar(l, y) && HeadFollows(l, y)
    requires y.who != [] && y.s.bucketMap.Keys != {}
    ensures var k, last := Least(y.s.bucketMap.Keys), y.who[|y.who| - 1];
            && Owner(y, k) != last && (k < y.s.nextExpected <==> Owner(y, k) < last)
  {
    var last := y.who[|y.who| - 1];
    KeyIs(l, y, Least(y.s.bucketMap.Keys));
    assert last in y.who;
    PlainOrder(l, y.firstSeen, last);
  }

  lemma TickKeepsPlain(l: Link, mode: Mode, y: System, now: int)
    requires Inv(y.s) && OnceSoFar(l, y) && PlainSoFar(l, y) && HeadFollows(l, y)
    ensures PlainSoFar(l, Step(l, mode, y, Tick(now))) && HeadFollows(l, Step(l, mode, y, Tick(now)))
  {
    TickKeepsWhoPlain(l, mode, y, now);
    TickKeepsHead(l, mode, y, now);
  }

  lemma TickKeepsWhoPlain(l: Link, mode: Mode, y: System, now: int)
    requires Inv(y.s) && OnceSoFar(l, y) && PlainSoFar(l, y) && HeadFollows(l, y)
    ensures PlainSoFar(l, Step(l, mode, y, Tick(now)))
  {
    var keys := TickDelivers(l, mode, y, now);
    PassContract(y.s, mode, now);
    forall m | 0 <= m < |keys| ensures Plain(l, y.firstSeen, Owners(y, keys)[m]) && !y.s.unwrapper.firstTime {
      assert keys[m] in keys;
      KeyIs(l, y, keys[m]);
    }
  }

  lemma TickKeepsHead(l: Link, mode: Mode, y: System, now: int)
    requires Inv(y.s) && OnceSoFar(l, y) && PlainSoFar(l, y) && HeadFollows(l, y)
    ensures HeadFollows(l, Step(l, mode, y, Tick(now)))
  {
    var keys := TickDelivers(l, mode, y, now);
    Runs.HeadAfterPass(y.s, mode, now);
    if keys != [] {
      assert keys[|keys| - 1] in keys;
      KeyIs(l, y, keys[|keys| - 1]);
    }
  }

  // ---------------------------------------------------------------------------------------
  // Whole runs, pass by pass

  /** The channel's part: orderly, and within the blocks from the first superframe seen. */
  ghost predicate AllInBlocks(l: Link, mode: Mode, y: System, events: seq<Event>)
    requires Inv(y.s) && forall e :: e in events ==> Legal(l, e)
  {
    events != [] ==>
      && AllInBlocks(l, mode, y, events[..|events| - 1])
      && InBlocks(l, After(l, mode, y, events[..|events| - 1]), events[|events| - 1])
  }

  ghost predicate NeverOvertakes(l: Link, mode: Mode, y: System, events: seq<Event>)
    requires Inv(y.s) && forall e :: e in events ==> Legal(l, e)
  {
    events != [] ==>
      var n := |events| - 1;
      && NeverOvertakes(l, mode, y, events[..n])
      && (events[n].Tick? ==> !Overtakes(After(l, mode, y, events[..n]), events[n].now))
  }

  lemma {:induction false} RunKeepsPlain(l: Link, mode: Mode, bucketTimeoutMs: u32, holTimeoutMs: u32, events: seq<Event>)
    requires holTimeoutMs != 0 && forall e :: e in events ==> Legal(l, e)
    requires AllOrderly(l, mode, Start(bucketTimeoutMs, holTimeoutMs), events)
    requires AllInBlocks(l, mode, Start(bucketTimeoutMs, holTimeoutMs), events)
    ensures var y := After(l, mode, Start(bucketTimeoutMs, holTimeoutMs), events);
            OnceSoFar(l, y) && PlainSoFar(l, y) && HeadFollows(l, y)
  {
    DeliveredAtMostOnce(l, mode, bucketTimeoutMs, holTimeoutMs, events);
    if events != [] {
      var n := |events| - 1;
      RunKeepsPlain(l, mode, bucketTimeoutMs, holTimeoutMs, events[..n]);
      var y := After(l, mode, Start(bucketTimeoutMs, holTimeoutMs), events[..n]);
      if events[n].Arrive? {
        ArriveKeepsPlain(l, mode, y, events[n]);
      } else {
        TickKeepsPlain(l, mode, y, events[n].now);
      }
    }
  }

  lemma ArriveDelivers(l: Link, mode: Mode, y: System, e: Event)
    requires Inv(y.s) && Legal(l, e) && e.Arrive?
    ensures Step(l, mode, y, e).who == y.who
  {
  }

  /** Over such a run, superframes are delivered in the order in which they were sent if and only if
      no pass overtakes. */
  lemma {:induction false} InBlocksOrderKeptIff(l: Link, mode: Mode, bucketTimeoutMs: u32, holTimeoutMs: u32,
                                                events: seq<Event>)
    requires holTimeoutMs != 0 && forall e :: e in events ==> Legal(l, e)
    requires AllOrderly(l, mode, Start(bucketTimeoutMs, holTimeoutMs), events)
    requires AllInBlocks(l, mode, Start(bucketTimeoutMs, holTimeoutMs), events)
    ensures Rising(After(l, mode, Start(bucketTimeoutMs, holTimeoutMs), events).who) <==>
            NeverOvertakes(l, mode, Start(bucketTimeoutMs, holTimeoutMs), events)
  {
    if events != [] {
      var n := |events| - 1;
      var y := After(l, mode, Start(bucketTimeoutMs, holTimeoutMs), events[..n]);
      InBlocksOrderKeptIff(l, mode, bucketTimeoutMs, holTimeoutMs, events[..n]);
      RunKeepsPlain(l, mode, bucketTimeoutMs, holTimeoutMs, events[..n]);
      if events[n].Arrive? {
        ArriveDelivers(l, mode, y, events[n]);
      } else {
        InBlocksTickRisesIff(l, mode, y, events[n].now);
      }
    }
  }

  // ---------------------------------------------------------------------------------------
  // Whole runs, arrival by arrival

  /** A bucket is opened only for a superframe sent after all delivered ones. */
  ghost predicate OpensAbove(l: Link, y: System, e: Event)
    requires Inv(y.s) && Legal(l, e)
  {
    e.Arrive? && !y.s.buckets[Slot0(l, e.frame)].active && Answer(l, y, e) == NoError ==>
      forall w :: w in y.who ==> w < e.frame
  }

  ghost predicate AllOpenAbove(l: Link, mode: Mode, y: System, events: seq<Event>)
    requires Inv(y.s) && forall e :: e in events ==> Legal(l, e)
  {
    events != [] ==>
      && AllOpenAbove(l, mode, y, events[..|events| - 1])
      && OpensAbove(l, After(l, mode, y, events[..|events| - 1]), events[|events| - 1])
  }

  /** Everything held was sent after everything delivered. */
  ghost predicate HeldAbove(l: Link, y: System)
    requires Inv(y.s)
  {
    Rising(y.who) && forall key, w :: key in y.s.bucketMap && w in y.who ==> w < Owner(y, key)
  }

  lemma ArriveKeepsAbove(l: Link, mode: Mode, y: System, e: Event)
    requires Inv(y.s) && Legal(l, e) && e.Arrive? && OpensAbove(l, y, e) && HeldAbove(l, y)
    ensures HeldAbove(l, Step(l, mode, y, e))
  {
    var y' := Step(l, mode, y, e);
    var i := Slot0(l, e.frame);
    UnpackTouches(y.s, PacketOf(l, e.frame, e.position), l.source, e.now);
    assert Filed(y.s, i);
    forall key, w | key in y'.s.bucketMap && w in y'.who ensures w < Owner(y', key) {
      assert Points(y'.s, key) && Points(y.s, key);
      if key % BUCKETS == i {
        OwnKey(l, mode, y, e, key);
      } else {
        assert Owner(y', key) == Owner(y, key);
      }
    }
  }

  /** The map entry of the arriving packet's bucket, after the arrival. */
  lemma OwnKey(l: Link, mode: Mode, y: System, e: Event, key: u64)
    requires Inv(y.s) && Legal(l, e) && e.Arrive? && key % BUCKETS == Slot0(l, e.frame)
    requires key in Step(l, mode, y, e).s.bucketMap
    ensures if y.s.buckets[Slot0(l, e.frame)].active then
              key in y.s.bucketMap && Owner(Step(l, mode, y, e), key) == Owner(y, key)
            else
              Answer(l, y, e) == NoError && Owner(Step(l, mode, y, e), key) == e.frame
  {
    assert Points(Step(l, mode, y, e).s, key) && Points(y.s, key) && Filed(y.s, Slot0(l, e.frame));
  }

  lemma TickKeepsAbove(l: Link, mode: Mode, y: System, now: int)
    requires Inv(y.s) && OnceSoFar(l, y) && PlainSoFar(l, y) && HeadFollows(l, y) && HeldAbove(l, y)
    ensures HeldAbove(l, Step(l, mode, y, Tick(now)))
  {
    var keys := TickDelivers(l, mode, y, now);
    var y' := Step(l, mode, y, Tick(now));
    RisingConcat(y.who, Owners(y, keys));
    if keys != [] && y.who != [] {
      assert keys[0] in keys && y.who[|y.who| - 1] in y.who;
    }
    forall key, w | key in y'.s.bucketMap && w in y'.who ensures w < Owner(y', key) {
      StillAbove(l, mode, y, now, key, w);
    }
  }

  lemma StillAbove(l: Link, mode: Mode, y: System, now: int, key: u64, w: nat)
    requires Inv(y.s) && OnceSoFar(l, y) && PlainSoFar(l, y) && HeadFollows(l, y) && HeldAbove(l, y)
    requires key in Step(l, mode, y, Tick(now)).s.bucketMap && w in Step(l, mode, y, Tick(now)).who
    ensures w < Owner(Step(l, mode, y, Tick(now)), key)
  {
    var keys := TickDelivers(l, mode, y, now);
    LeftIsAbove(y.s, mode, now);
    assert key in y.s.bucketMap;
    if w !in y.who {
      var m :| 0 <= m < |keys| && Owners(y, keys)[m] == w;
      assert keys[m] in keys;
      KeyIs(l, y, key);
      KeyIs(l, y, keys[m]);
    }
  }

  /** A head-of-line pass leaves behind only orders above all it hands out. */
  lemma LeftIsAbove(s: State, mode: Mode, now: int)
    requires Inv(s) && HolMode(s)
    ensures var (s', keys) := Pass(s, mode, now);
            && (forall k :: k in s'.bucketMap ==> k in s.bucketMap)
            && (forall k, m :: k in s'.bucketMap && 0 <= m < |keys| ==> keys[m] < k)
  {
    PassContract(s, mode, now);
    if s.holFirstRun {
      Runs.FirstPass(s, mode, now);
      if Pass(s, mode, now) != (s, []) {
        Runs.HolSummary(s.(holFirstRun := false, nextExpected := Least(s.bucketMap.Keys)), mode, now);
      }
    } else {
      Runs.HolSummary(s, mode, now);
    }
  }

  lemma {:induction false} OpenAboveSuffices(l: Link, mode: Mode, bucketTimeoutMs: u32, holTimeoutMs: u32,
                                             events: seq<Event>)
    requires holTimeoutMs != 0 && forall e :: e in events ==> Legal(l, e)
    requires AllOrderly(l, mode, Start(bucketTimeoutMs, holTimeoutMs), events)
    requires AllInBlocks(l, mode, Start(bucketTimeoutMs, holTimeoutMs), events)
    requires AllOpenAbove(l, mode, Start(bucketTimeoutMs, holTimeoutMs), events)
    ensures HeldAbove(l, After(l, mode, Start(bucketTimeoutMs, holTimeoutMs), events))
  {
    if events != [] {
      var n := |events| - 1;
      var y := After(l, mode, Start(bucketTimeoutMs, holTimeoutMs), events[..n]);
      OpenAboveSuffices(l, mode, bucketTimeoutMs, holTimeoutMs, events[..n]);
      RunKeepsPlain(l, mode, bucketTimeoutMs, holTimeoutMs, events[..n]);
      if events[n].Arrive? {
        ArriveKeepsAbove(l, mode, y, events[n]);
      } else {
        TickKeepsAbove(l, mode, y, events[n].now);
      }
    }
  }

  /** Superframe k was opened: it is held or delivered. */
  ghost predicate HeldOrDelivered(l: Link, y: System, k: nat)
    requires Inv(y.s)
  {
    k in y.who || (Slot0(l, k) in y.owners && y.owners[Slot0(l, k)] == k && y.s.buckets[Slot0(l, k)].active)
  }

  lemma StepKeepsHeld(l: Link, mode: Mode, y: System, e: Event, k: nat)
    requires Inv(y.s) && Legal(l, e) && Unambiguous(l, y, e) && SoundSoFar(l, y) && HeldOrDelivered(l, y, k)
    ensures HeldOrDelivered(l, Step(l, mode, y, e), k)
    ensures y.who <= Step(l, mode, y, e).who
  {
    if e.Arrive? {
      ArriveKeepsBucket(l, mode, y, e, Slot0(l, k));
    } else if k !in y.who {
      TickFreesDelivered(l, mode, y, e, Slot0(l, k));
    }
  }

  /** A bucket opened for k when w, sent later, had been delivered: as long as k is held, and for ever
      after. */
  ghost predicate Late(l: Link, y: System, k: nat, w: nat)
    requires Inv(y.s)
  {
    && HeldOrDelivered(l, y, k) && k < w && w in y.who
    && forall i, j :: 0 <= i < |y.who| && 0 <= j < |y.who| && y.who[i] == k && y.who[j] == w ==> j < i
  }

  lemma LateBreaks(l: Link, y: System, k: nat, w: nat)
    requires Inv(y.s) && Late(l, y, k, w) && y.s.bucketMap.Keys == {}
    ensures !Rising(y.who)
  {
    assert Filed(y.s, Slot0(l, k));
    var i :| 0 <= i < |y.who| && y.who[i] == k;
    var j :| 0 <= j < |y.who| && y.who[j] == w;
  }

  lemma LateStaysLate(l: Link, mode: Mode, y: System, e: Event, k: nat, w: nat)
    requires Inv(y.s) && Legal(l, e) && Unambiguous(l, y, e) && SoundSoFar(l, y) && Late(l, y, k, w)
    requires OnceSoFar(l, Step(l, mode, y, e))
    ensures Late(l, Step(l, mode, y, e), k, w)
  {
    StepKeepsHeld(l, mode, y, e, k);
    var y' := Step(l, mode, y, e);
    var j0 :| 0 <= j0 < |y.who| && y.who[j0] == w;
    assert y'.who[j0] == w;
    forall i, j | 0 <= i < |y'.who| && 0 <= j < |y'.who| && y'.who[i] == k && y'.who[j] == w ensures j < i {
      assert j == j0;
      if i < |y.who| {
        assert y.who[i] == k;
      }
    }
  }

  /** Opening a bucket below a delivered superframe makes it late. */
  lemma OpensLate(l: Link, mode: Mode, y: System, e: Event) returns (w: nat)
    requires Inv(y.s) && Legal(l, e) && !OpensAbove(l, y, e) && OnceSoFar(l, y) && Orderly(l, y, e)
    ensures Late(l, Step(l, mode, y, e), e.frame, w)
  {
    w :| w in y.who && e.frame <= w;
    if e.frame in y.who {
      DeliveredIsTooOld(l, y, e);
    }
    OpenedIsHeld(l, mode, y, e);
  }

  lemma OpenedIsHeld(l: Link, mode: Mode, y: System, e: Event)
    requires Inv(y.s) && Legal(l, e) && e.Arrive? && !y.s.buckets[Slot0(l, e.frame)].active && Answer(l, y, e).NoError?
    ensures HeldOrDelivered(l, Step(l, mode, y, e), e.frame) && Step(l, mode, y, e).who == y.who
  {
    assert Filed(y.s, Slot0(l, e.frame));
  }

  /** Either all buckets were opened above what was delivered, or some superframe is late. */
  lemma {:induction false} AboveOrLate(l: Link, mode: Mode, bucketTimeoutMs: u32, holTimeoutMs: u32, events: seq<Event>)
    requires forall e :: e in events ==> Legal(l, e)
    requires AllOrderly(l, mode, Start(bucketTimeoutMs, holTimeoutMs), events)
    requires AllUnambiguous(l, mode, Start(bucketTimeoutMs, holTimeoutMs), events)
    ensures AllOpenAbove(l, mode, Start(bucketTimeoutMs, holTimeoutMs), events)
            || exists k, w :: Late(l, After(l, mode, Start(bucketTimeoutMs, holTimeoutMs), events), k, w)
  {
    if events != [] {
      var n := |events| - 1;
      var y := After(l, mode, Start(bucketTimeoutMs, holTimeoutMs), events[..n]);
      AboveOrLate(l, mode, bucketTimeoutMs, holTimeoutMs, events[..n]);
      RunAccounts(l, mode, bucketTimeoutMs, holTimeoutMs, events[..n]);
      RunAccounts(l, mode, bucketTimeoutMs, holTimeoutMs, events);
      if !AllOpenAbove(l, mode, Start(bucketTimeoutMs, holTimeoutMs), events[..n]) {
        var k, w :| Late(l, y, k, w);
        LateStaysLate(l, mode, y, events[n], k, w);
      } else if !OpensAbove(l, y, events[n]) {
        var w := OpensLate(l, mode, y, events[n]);
      }
    }
  }

  /** Once everything held has gone out in such a run, the superframes were delivered in the order in which they
      were sent if and only if each bucket was opened for a superframe sent after all those delivered
      by then. */
  lemma InBlocksOrderIff(l: Link, mode: Mode, bucketTimeoutMs: u32, holTimeoutMs: u32, events: seq<Event>)
    requires holTimeoutMs != 0 && forall e :: e in events ==> Legal(l, e)
    requires AllOrderly(l, mode, Start(bucketTimeoutMs, holTimeoutMs), events)
    requires AllUnambiguous(l, mode, Start(bucketTimeoutMs, holTimeoutMs), events)
    requires AllInBlocks(l, mode, Start(bucketTimeoutMs, holTimeoutMs), events)
    requires After(l, mode, Start(bucketTimeoutMs, holTimeoutMs), events).s.bucketMap.Keys == {}
    ensures Rising(After(l, mode, Start(bucketTimeoutMs, holTimeoutMs), events).who) <==>
            AllOpenAbove(l, mode, Start(bucketTimeoutMs, holTimeoutMs), events)
  {
    var y := After(l, mode, Start(bucketTimeoutMs, holTimeoutMs), events);
    AboveOrLate(l, mode, bucketTimeoutMs, holTimeoutMs, events);
    if AllOpenAbove(l, mode, Start(bucketTimeoutMs, holTimeoutMs), events) {
      OpenAboveSuffices(l, mode, bucketTimeoutMs, holTimeoutMs, events);
    } else {
      var k, w :| Late(l, y, k, w);
      LateBreaks(l, y, k, w);
    }
  }
}
