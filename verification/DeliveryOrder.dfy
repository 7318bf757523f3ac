/** Head-of-line mode over any orderly, unambiguous channel, superframes from before the first-seen
    block included: exactly when they are delivered in the order in which they were sent. */
module DeliveryOrder {
  import opened Wire
  import opened Sequencing
  import opened Receiving
  import opened Delivery
  import opened Channel
  import opened AtMostOnce
  import opened TooOld
  import opened SentOrder
  import Runs

  /** Superframe k was sent before the 65536-block of the first one seen; its order has wrapped. */
  predicate BeforeBlock(l: Link, firstSeen: nat, k: nat) {
    l.first + k < firstSeen - firstSeen % TWO16
  }

  /** With few superframes these are the only ones whose order is not their distance from the block. */
  lemma OnlyEarlyWrap(l: Link, firstSeen: nat, k: nat)
    requires Few(l) && l.first <= firstSeen < l.first + |l.sent| && k < |l.sent|
    ensures Plain(l, firstSeen, k) <==> !BeforeBlock(l, firstSeen, k)
  {
  }

  /** And their orders lie above all others. */
  lemma EarlyAbove(l: Link, firstSeen: nat, k: nat, j: nat)
    requires Few(l) && l.first <= firstSeen < l.first + |l.sent| && k < |l.sent| && j < |l.sent|
    requires BeforeBlock(l, firstSeen, k) && !BeforeBlock(l, firstSeen, j)
    ensures OrderOf(firstSeen, l.first + j) < OrderOf(firstSeen, l.first + k)
  {
    Wrapped(l.first + k - (firstSeen - firstSeen % TWO16));
    PlainOrder(l, firstSeen, j);
  }

  lemma Wrapped(d: int)
    requires -TWO64 < d < 0
    ensures d % TWO64 == TWO64 + d
  {
  }

  // ---------------------------------------------------------------------------------------
  // Invariants

  /** The superframe seen first. */
  function First(l: Link, y: System): nat {
    if y.firstSeen < l.first then 0 else y.firstSeen - l.first
  }

  /** If the i-th delivery is of a superframe from before the block, the one seen first was delivered
      before it. */
  ghost predicate AfterFirst(l: Link, y: System, i: nat)
    requires i < |y.who|
  {
    BeforeBlock(l, y.firstSeen, y.who[i]) ==> First(l, y) in y.who[..i]
  }

  ghost predicate FirstKept(l: Link, y: System)
    requires Inv(y.s)
  {
    && (y.s.unwrapper.firstTime ==> y.owners == map[] && y.who == [])
    && (!y.s.unwrapper.firstTime ==> HeldOrDelivered(l, y, First(l, y)))
    && (forall i :: 0 <= i < |y.who| ==> AfterFirst(l, y, i))
  }

  /** The head follows the superframe delivered last. */
  ghost predicate HeadLast(l: Link, y: System)
    requires Inv(y.s)
  {
    && HolMode(y.s)
    && (y.s.holFirstRun ==> y.who == [])
    && (y.who != [] ==> y.s.nextExpected == Next64(OrderOf(y.firstSeen, l.first + y.who[|y.who| - 1])))
  }

  /** Everything known of a run over an orderly, unambiguous channel, head-of-line mode aside. */
  ghost predicate Known(l: Link, y: System)
    requires Inv(y.s)
  {
    OnceSoFar(l, y) && SoundSoFar(l, y) && Accounted(l, y) && FirstKept(l, y)
  }

  /** A key of the map is the order of the superframe its bucket was opened for. */
  lemma KeyOrder(l: Link, y: System, key: u64)
    requires Inv(y.s) && Known(l, y) && key in y.s.bucketMap
    ensures !y.s.unwrapper.firstTime && Owner(y, key) < |l.sent| && Owner(y, key) !in y.who
    ensures key == OrderOf(y.firstSeen, l.first + Owner(y, key))
  {
    assert Points(y.s, key) && Remembers(l, y, key % BUCKETS);
    assert Owner(y, key) in y.who ==> DoneWith(l, y, Owner(y, key));
  }

  lemma DeliveredOnLink(l: Link, y: System, k: nat)
    requires Inv(y.s) && Known(l, y) && k in y.who
    ensures k < |l.sent| && !y.s.unwrapper.firstTime
  {
    assert DoneWith(l, y, k);
  }

  /** The bucket of the superframe seen first is filed under its order, which is not wrapped. */
  lemma FirstKey(l: Link, y: System) returns (key: u64)
    requires Inv(y.s) && Known(l, y) && !y.s.unwrapper.firstTime && First(l, y) !in y.who
    ensures key in y.s.bucketMap && Owner(y, key) == First(l, y) && !BeforeBlock(l, y.firstSeen, First(l, y))
  {
    var i := Slot0(l, First(l, y));
    assert Filed(y.s, i);
    key := y.s.buckets[i].order;
  }

  /** The least key belongs to the superframe sent first of all held ones from the block on, if there
      are any. */
  lemma LeastIsEarliest(l: Link, y: System, key: u64)
    requires Inv(y.s) && Known(l, y) && Few(l) && key in y.s.bucketMap && !BeforeBlock(l, y.firstSeen, Owner(y, key))
    ensures var least := Least(y.s.bucketMap.Keys);
            !BeforeBlock(l, y.firstSeen, Owner(y, least)) && Owner(y, least) <= Owner(y, key)
  {
    var least := Least(y.s.bucketMap.Keys);
    KeyOrder(l, y, least);
    KeyOrder(l, y, key);
    if BeforeBlock(l, y.firstSeen, Owner(y, least)) {
      EarlyAbove(l, y.firstSeen, Owner(y, least), Owner(y, key));
    } else {
      PlainKey(l, y, least);
      PlainKey(l, y, key);
    }
  }

  // ---------------------------------------------------------------------------------------
  // One event

  lemma ArriveKeepsFirst(l: Link, mode: Mode, y: System, e: Event)
    requires Inv(y.s) && Legal(l, e) && e.Arrive? && Unambiguous(l, y, e) && Known(l, y)
    ensures FirstKept(l, Step(l, mode, y, e))
  {
    ArriveDelivers(l, mode, y, e);
    if y.s.unwrapper.firstTime {
      FirstArrives(l, mode, y, e);
    } else {
      StepKeepsHeld(l, mode, y, e, First(l, y));
      FirstStays(l, mode, y, e);
      AfterFirstKept(l, y, Step(l, mode, y, e));
    }
  }

  lemma AfterFirstKept(l: Link, y: System, y': System)
    requires y'.who == y.who && y'.firstSeen == y.firstSeen
    requires forall i :: 0 <= i < |y.who| ==> AfterFirst(l, y, i)
    ensures forall i :: 0 <= i < |y'.who| ==> AfterFirst(l, y', i)
  {
    forall i | 0 <= i < |y'.who| ensures AfterFirst(l, y', i) {
      assert AfterFirst(l, y, i);
    }
  }

  lemma FirstStays(l: Link, mode: Mode, y: System, e: Event)
    requires Inv(y.s) && Legal(l, e) && !y.s.unwrapper.firstTime
    ensures Step(l, mode, y, e).firstSeen == y.firstSeen && !Step(l, mode, y, e).s.unwrapper.firstTime
  {
    if e.Tick? {
      PassContract(y.s, mode, e.now);
    } else {
      FirstStaysOnArrival(l, mode, y, e);
    }
  }

  lemma FirstStaysOnArrival(l: Link, mode: Mode, y: System, e: Event)
    requires Inv(y.s) && Legal(l, e) && !y.s.unwrapper.firstTime && e.Arrive?
    ensures Step(l, mode, y, e).firstSeen == y.firstSeen && !Step(l, mode, y, e).s.unwrapper.firstTime
  {
    assert Filed(y.s, Slot0(l, e.frame));
  }

  /** The first packet opens its bucket. */
  lemma FirstArrives(l: Link, mode: Mode, y: System, e: Event)
    requires Inv(y.s) && Legal(l, e) && e.Arrive? && Known(l, y) && y.s.unwrapper.firstTime
    ensures var y' := Step(l, mode, y, e);
            !y'.s.unwrapper.firstTime && First(l, y') == e.frame && HeldOrDelivered(l, y', e.frame)
  {
    assert Remembers(l, y, Slot0(l, e.frame));
  }

  /** What a pass delivers. */
  lemma PassKeys(l: Link, mode: Mode, y: System, now: int) returns (keys: seq<u64>)
    requires Inv(y.s) && HolMode(y.s)
    ensures keys == Pass(y.s, mode, now).1 && Lists(y.s, keys) && Ascending(keys)
    ensures var y' := Step(l, mode, y, Tick(now));
            && y'.who == y.who + Owners(y, keys) && y'.firstSeen == y.firstSeen
            && y'.s.unwrapper == y.s.unwrapper && y'.owners == y.owners
    ensures forall key, m :: key in y.s.bucketMap && key !in keys && 0 <= m < |keys| ==> keys[m] < key
    ensures y.s.bucketMap.Keys == {} ==> keys == []
  {
    keys := Pass(y.s, mode, now).1;
    PassContract(y.s, mode, now);
    LeftIsAbove(y.s, mode, now);
    var s := Pass(y.s, mode, now).0;
    forall key, m | key in y.s.bucketMap && key !in keys && 0 <= m < |keys| ensures keys[m] < key {
      assert key in s.bucketMap.Keys;
    }
    assert keys != [] ==> keys[0] in keys;
  }

  lemma InFront<T>(a: seq<T>, b: seq<T>, m: nat, x: T)
    requires m <= |b| && (x in a || x in b[..m])
    ensures x in (a + b)[..|a| + m]
  {
    assert (a + b)[..|a| + m] == a + b[..m];
  }

  /** If a superframe from before the block is handed out and the one seen first is still held, that
      goes out before it. */
  lemma FirstGoesFirst(l: Link, y: System, keys: seq<u64>, m: nat)
    requires Inv(y.s) && Known(l, y) && Few(l) && Lists(y.s, keys) && Ascending(keys) && m < |keys|
    requires forall key :: key in y.s.bucketMap && key !in keys ==> keys[m] < key
    requires First(l, y) !in y.who && BeforeBlock(l, y.firstSeen, Owner(y, keys[m]))
    ensures First(l, y) in Owners(y, keys)[..m]
  {
    assert keys[m] in keys;
    KeyOrder(l, y, keys[m]);
    var key := FirstKey(l, y);
    KeyOrder(l, y, key);
    EarlyAbove(l, y.firstSeen, Owner(y, keys[m]), First(l, y));
    var j :| 0 <= j < |keys| && keys[j] == key;
    assert Owners(y, keys)[..m][j] == First(l, y);
  }

  /** A superframe from before the block is handed out after the one seen first. */
  lemma EarlyAfterFirst(l: Link, mode: Mode, y: System, now: int, m: nat)
    requires Inv(y.s) && Known(l, y) && HolMode(y.s) && Few(l)
    requires m < |Pass(y.s, mode, now).1|
    ensures var y' := Step(l, mode, y, Tick(now));
            && |y.who| + m < |y'.who| && AfterFirst(l, y', |y.who| + m)
            && y'.who[|y.who| + m] == Owner(y, Pass(y.s, mode, now).1[m]) && y'.firstSeen == y.firstSeen
  {
    var keys := PassKeys(l, mode, y, now);
    if BeforeBlock(l, y.firstSeen, Owner(y, keys[m])) && First(l, y) !in y.who {
      FirstGoesFirst(l, y, keys, m);
    }
    AfterFirstAdded(l, y, Step(l, mode, y, Tick(now)), Owners(y, keys), m);
  }

  lemma TickKeepsFirst(l: Link, mode: Mode, y: System, now: int)
    requires Inv(y.s) && Known(l, y) && HolMode(y.s) && Few(l)
    ensures FirstKept(l, Step(l, mode, y, Tick(now)))
  {
    TickKeepsFirstHeld(l, mode, y, now);
    forall i | 0 <= i < |Step(l, mode, y, Tick(now)).who| ensures AfterFirst(l, Step(l, mode, y, Tick(now)), i) {
      TickKeepsAfter(l, mode, y, now, i);
    }
  }

  lemma TickKeepsFirstHeld(l: Link, mode: Mode, y: System, now: int)
    requires Inv(y.s) && Known(l, y) && HolMode(y.s)
    ensures var y' := Step(l, mode, y, Tick(now));
            && (y'.s.unwrapper.firstTime ==> y'.owners == map[] && y'.who == [])
            && (!y'.s.unwrapper.firstTime ==> HeldOrDelivered(l, y', First(l, y')))
  {
    var keys := PassKeys(l, mode, y, now);
    if y.s.unwrapper.firstTime {
      NothingHeld(l, y);
    } else {
      StepKeepsHeld(l, mode, y, Tick(now), First(l, y));
    }
  }

  lemma TickKeepsAfter(l: Link, mode: Mode, y: System, now: int, i: nat)
    requires Inv(y.s) && Known(l, y) && HolMode(y.s) && Few(l)
    requires i < |Step(l, mode, y, Tick(now)).who|
    ensures AfterFirst(l, Step(l, mode, y, Tick(now)), i)
  {
    var keys := PassKeys(l, mode, y, now);
    if i < |y.who| {
      AfterFirstStays(l, y, Step(l, mode, y, Tick(now)), Owners(y, keys), i);
    } else {
      EarlyAfterFirst(l, mode, y, now, i - |y.who|);
    }
  }

  lemma AfterFirstStays(l: Link, y: System, y': System, more: seq<nat>, i: nat)
    requires y'.who == y.who + more && y'.firstSeen == y.firstSeen && i < |y.who| && AfterFirst(l, y, i)
    ensures AfterFirst(l, y', i)
  {
    assert y'.who[..i] == y.who[..i];
  }

  /** One more delivery, after the one of the superframe seen first. */
  lemma AfterFirstAdded(l: Link, y: System, y': System, more: seq<nat>, m: nat)
    requires y'.who == y.who + more && y'.firstSeen == y.firstSeen && m < |more|
    requires BeforeBlock(l, y.firstSeen, more[m]) ==> First(l, y) in y.who || First(l, y) in more[..m]
    ensures y'.who[|y.who| + m] == more[m] && AfterFirst(l, y', |y.who| + m)
  {
    if BeforeBlock(l, y.firstSeen, more[m]) {
      InFront(y.who, more, m, First(l, y));
    }
  }

  lemma NothingHeld(l: Link, y: System)
    requires Inv(y.s) && Known(l, y) && y.s.unwrapper.firstTime
    ensures y.s.bucketMap.Keys == {}
  {
    forall key | key in y.s.bucketMap ensures false {
      KeyOrder(l, y, key);
    }
  }

  lemma TickKeepsLast(l: Link, mode: Mode, y: System, now: int)
    requires Inv(y.s) && Known(l, y) && HeadLast(l, y)
    ensures HeadLast(l, Step(l, mode, y, Tick(now)))
  {
    var keys := PassKeys(l, mode, y, now);
    Runs.HeadAfterPass(y.s, mode, now);
    if keys != [] {
      LastKey(l, y, keys);
    }
    HeadMoves(l, y, Step(l, mode, y, Tick(now)), keys);
  }

  lemma HeadMoves(l: Link, y: System, y': System, keys: seq<u64>)
    requires Inv(y.s) && Inv(y'.s) && HeadLast(l, y) && HolMode(y'.s) && y'.firstSeen == y.firstSeen
    requires y'.who == y.who + Owners(y, keys)
    requires y'.s.holFirstRun ==> y.s.holFirstRun && keys == []
    requires keys == [] && !y.s.holFirstRun ==> y'.s.nextExpected == y.s.nextExpected
    requires keys != [] ==>
               && y'.s.nextExpected == Next64(keys[|keys| - 1])
               && keys[|keys| - 1] == OrderOf(y.firstSeen, l.first + Owners(y, keys)[|keys| - 1])
    ensures HeadLast(l, y')
  {
    if keys != [] {
      assert y'.who[|y'.who| - 1] == Owners(y, keys)[|keys| - 1];
    } else {
      assert y'.who == y.who;
    }
  }

  lemma LastKey(l: Link, y: System, keys: seq<u64>)
    requires Inv(y.s) && Known(l, y) && Lists(y.s, keys) && keys != []
    ensures keys[|keys| - 1] == OrderOf(y.firstSeen, l.first + Owners(y, keys)[|keys| - 1])
  {
    assert keys[|keys| - 1] in keys;
    KeyOrder(l, y, keys[|keys| - 1]);
  }

  lemma ArriveKeepsLast(l: Link, mode: Mode, y: System, e: Event)
    requires Inv(y.s) && Legal(l, e) && e.Arrive? && HeadLast(l, y)
    requires y.who != [] ==> !y.s.unwrapper.firstTime
    ensures HeadLast(l, Step(l, mode, y, e))
  {
    UnpackTouches(y.s, PacketOf(l, e.frame, e.position), l.source, e.now);
    ArriveDelivers(l, mode, y, e);
    if y.who != [] {
      FirstStays(l, mode, y, e);
    }
  }

  // ---------------------------------------------------------------------------------------
  // One pass, exactly

  /** The pass hands out a superframe from before the block of the first one seen. */
  ghost predicate HandsOutEarly(l: Link, mode: Mode, y: System, now: int)
    requires Inv(y.s)
  {
    exists key :: key in Pass(y.s, mode, now).1 && BeforeBlock(l, y.firstSeen, Owner(y, key))
  }

  /** Something from before the block among the deliveries breaks the sent order. */
  lemma EarlyBreaks(l: Link, y: System, i: nat)
    requires i < |y.who| && AfterFirst(l, y, i) && BeforeBlock(l, y.firstSeen, y.who[i])
    ensures !Rising(y.who)
  {
    var j :| 0 <= j < i && y.who[..i][j] == First(l, y);
    assert y.who[j] > y.who[i];
  }

  lemma PlainOwnersRise(l: Link, y: System, keys: seq<u64>)
    requires Inv(y.s) && Known(l, y) && Few(l) && Lists(y.s, keys) && Ascending(keys)
    requires forall key :: key in keys ==> !BeforeBlock(l, y.firstSeen, Owner(y, key))
    ensures Rising(Owners(y, keys))
  {
    forall i, j | 0 <= i < j < |keys| ensures Owners(y, keys)[i] < Owners(y, keys)[j] {
      assert keys[i] in keys && keys[j] in keys;
      PlainKey(l, y, keys[i]);
      PlainKey(l, y, keys[j]);
    }
  }

  lemma PlainKey(l: Link, y: System, key: u64)
    requires Inv(y.s) && Known(l, y) && Few(l) && key in y.s.bucketMap && !BeforeBlock(l, y.firstSeen, Owner(y, key))
    ensures key == l.first + Owner(y, key) - (y.firstSeen - y.firstSeen % TWO16)
  {
    KeyOrder(l, y, key);
    OnlyEarlyWrap(l, y.firstSeen, Owner(y, key));
    PlainOrder(l, y.firstSeen, Owner(y, key));
  }

  lemma HandingOutEarlyBreaks(l: Link, mode: Mode, y: System, now: int)
    requires Inv(y.s) && Known(l, y) && HolMode(y.s) && Few(l) && HandsOutEarly(l, mode, y, now)
    ensures !Rising(Step(l, mode, y, Tick(now)).who)
  {
    var keys := Pass(y.s, mode, now).1;
    var m :| 0 <= m < |keys| && BeforeBlock(l, y.firstSeen, Owner(y, keys[m]));
    EarlyAfterFirst(l, mode, y, now, m);
    EarlyBreaks(l, Step(l, mode, y, Tick(now)), |y.who| + m);
  }

  /** The first superframe a pass hands out was sent after the one delivered last, unless the pass
      overtakes. */
  lemma FirstOutIff(l: Link, mode: Mode, y: System, now: int)
    requires Inv(y.s) && Known(l, y) && HeadLast(l, y) && Few(l) && Rising(y.who) && y.who != []
    requires !HandsOutEarly(l, mode, y, now)
    ensures var keys := Pass(y.s, mode, now).1;
            Lists(y.s, keys) && (keys != [] && y.who[|y.who| - 1] >= Owner(y, keys[0]) <==> Overtakes(y, now))
  {
    var keys := PassKeys(l, mode, y, now);
    var last := y.who[|y.who| - 1];
    LastIsPlain(l, y);
    if y.s.bucketMap.Keys != {} {
      Runs.FirstOut(y.s, mode, now);
      KeyOrder(l, y, Least(y.s.bucketMap.Keys));
      assert last in y.who;
      if keys != [] {
        assert keys[0] in keys;
        PlainKey(l, y, keys[0]);
      }
    }
  }

  /** While the deliveries rise, the last one is not from before the block, so the head is just above it. */
  lemma LastIsPlain(l: Link, y: System)
    requires Inv(y.s) && Known(l, y) && HeadLast(l, y) && Few(l) && Rising(y.who) && y.who != []
    ensures y.s.nextExpected == l.first + y.who[|y.who| - 1] - (y.firstSeen - y.firstSeen % TWO16) + 1
  {
    var last := y.who[|y.who| - 1];
    assert last in y.who;
    DeliveredOnLink(l, y, last);
    LastIsNotEarly(l, y);
    AfterPlain(l, y.firstSeen, last);
  }

  lemma AfterPlain(l: Link, firstSeen: nat, k: nat)
    requires Few(l) && l.first <= firstSeen < l.first + |l.sent| && k < |l.sent| && !BeforeBlock(l, firstSeen, k)
    ensures Next64(OrderOf(firstSeen, l.first + k)) == l.first + k - (firstSeen - firstSeen % TWO16) + 1
  {
    OnlyEarlyWrap(l, firstSeen, k);
    PlainOrder(l, firstSeen, k);
  }

  lemma LastIsNotEarly(l: Link, y: System)
    requires Inv(y.s) && FirstKept(l, y) && Rising(y.who) && y.who != []
    ensures !BeforeBlock(l, y.firstSeen, y.who[|y.who| - 1])
  {
    var i := |y.who| - 1;
    assert AfterFirst(l, y, i);
    if BeforeBlock(l, y.firstSeen, y.who[i]) {
      EarlyBreaks(l, y, i);
    }
  }

  /** One pass breaks the sent order if and only if it overtakes or hands out a superframe from before
      the block. */
  lemma TickRisesIff(l: Link, mode: Mode, y: System, now: int)
    requires Inv(y.s) && Known(l, y) && HeadLast(l, y) && Few(l)
    ensures Rising(Step(l, mode, y, Tick(now)).who) <==>
            Rising(y.who) && !Overtakes(y, now) && !HandsOutEarly(l, mode, y, now)
  {
    if HandsOutEarly(l, mode, y, now) {
      HandingOutEarlyBreaks(l, mode, y, now);
    } else {
      TickRisesIfPlain(l, mode, y, now);
    }
  }

  lemma TickRisesIfPlain(l: Link, mode: Mode, y: System, now: int)
    requires Inv(y.s) && Known(l, y) && HeadLast(l, y) && Few(l) && !HandsOutEarly(l, mode, y, now)
    ensures Rising(Step(l, mode, y, Tick(now)).who) <==> Rising(y.who) && !Overtakes(y, now)
  {
    var keys := PassKeys(l, mode, y, now);
    SentOrder.RisingConcat(y.who, Owners(y, keys));
    PlainOwnersRise(l, y, keys);
    if y.who != [] && Rising(y.who) {
      FirstOutIff(l, mode, y, now);
    }
  }

  // ---------------------------------------------------------------------------------------
  // Whole runs

  /** The channel keeps both its promises. */
  ghost predicate GoodRun(l: Link, mode: Mode, bucketTimeoutMs: u32, holTimeoutMs: u32, events: seq<Event>) {
    && holTimeoutMs != 0 && (forall e :: e in events ==> Legal(l, e))
    && AllOrderly(l, mode, Start(bucketTimeoutMs, holTimeoutMs), events)
    && AllUnambiguous(l, mode, Start(bucketTimeoutMs, holTimeoutMs), events)
  }

  lemma {:induction false} RunKnown(l: Link, mode: Mode, bucketTimeoutMs: u32, holTimeoutMs: u32, events: seq<Event>)
    requires Few(l) && GoodRun(l, mode, bucketTimeoutMs, holTimeoutMs, events)
    ensures var y := After(l, mode, Start(bucketTimeoutMs, holTimeoutMs), events);
            Known(l, y) && HeadLast(l, y)
  {
    RunAccounts(l, mode, bucketTimeoutMs, holTimeoutMs, events);
    if events != [] {
      var n := |events| - 1;
      var y := After(l, mode, Start(bucketTimeoutMs, holTimeoutMs), events[..n]);
      RunKnown(l, mode, bucketTimeoutMs, holTimeoutMs, events[..n]);
      if events[n].Arrive? {
        ArriveKeepsFirst(l, mode, y, events[n]);
        ArriveKeepsLast(l, mode, y, events[n]);
      } else {
        TickKeepsFirst(l, mode, y, events[n].now);
        TickKeepsLast(l, mode, y, events[n].now);
      }
    }
  }

  ghost predicate NeverBreaks(l: Link, mode: Mode, y: System, events: seq<Event>)
    requires Inv(y.s) && forall e :: e in events ==> Legal(l, e)
  {
    events != [] ==>
      var n := |events| - 1;
      && NeverBreaks(l, mode, y, events[..n])
      && (events[n].Tick? ==>
            var before := After(l, mode, y, events[..n]);
            !Overtakes(before, events[n].now) && !HandsOutEarly(l, mode, before, events[n].now))
  }

  /** Over a whole run, superframes are delivered in the order in which they were sent if and only if no
      pass overtakes or hands out one from before the block of the first one seen. */
  lemma {:induction false} SentOrderKeptIff(l: Link, mode: Mode, bucketTimeoutMs: u32, holTimeoutMs: u32, events: seq<Event>)
    requires Few(l) && GoodRun(l, mode, bucketTimeoutMs, holTimeoutMs, events)
    ensures Rising(After(l, mode, Start(bucketTimeoutMs, holTimeoutMs), events).who) <==>
            NeverBreaks(l, mode, Start(bucketTimeoutMs, holTimeoutMs), events)
  {
    if events != [] {
      var n := |events| - 1;
      var y := After(l, mode, Start(bucketTimeoutMs, holTimeoutMs), events[..n]);
      SentOrderKeptIff(l, mode, bucketTimeoutMs, holTimeoutMs, events[..n]);
      RunKnown(l, mode, bucketTimeoutMs, holTimeoutMs, events[..n]);
      if events[n].Arrive? {
        ArriveDelivers(l, mode, y, events[n]);
      } else {
        TickRisesIff(l, mode, y, events[n].now);
      }
    }
  }

  /** A superframe from before the block was opened: it is held or delivered. */
  ghost predicate EarlyKept(l: Link, y: System, w: nat)
    requires Inv(y.s)
  {
    !y.s.unwrapper.firstTime && BeforeBlock(l, y.firstSeen, w) && HeldOrDelivered(l, y, w)
  }

  lemma OpensEarly(l: Link, mode: Mode, y: System, e: Event)
    requires Inv(y.s) && Legal(l, e) && Known(l, y) && Few(l) && Orderly(l, y, e) && !InBlocks(l, y, e)
    ensures EarlyKept(l, Step(l, mode, y, e), e.frame)
  {
    PlainFirst(l, e.frame);
    FirstStays(l, mode, y, e);
    OnlyEarlyWrap(l, y.firstSeen, e.frame);
  }

  lemma PlainFirst(l: Link, k: nat)
    ensures Plain(l, l.first + k, k)
  {
  }

  lemma EarlyKeptStays(l: Link, mode: Mode, y: System, e: Event, w: nat)
    requires Inv(y.s) && Legal(l, e) && Unambiguous(l, y, e) && SoundSoFar(l, y) && EarlyKept(l, y, w)
    ensures EarlyKept(l, Step(l, mode, y, e), w)
  {
    StepKeepsHeld(l, mode, y, e, w);
    FirstStays(l, mode, y, e);
  }

  /** Either buckets were opened only for superframes from the block on, or an earlier one is kept. */
  lemma {:induction false} InBlocksOrKept(l: Link, mode: Mode, bucketTimeoutMs: u32, holTimeoutMs: u32, events: seq<Event>)
      returns (w: nat)
    requires Few(l) && GoodRun(l, mode, bucketTimeoutMs, holTimeoutMs, events)
    ensures AllInBlocks(l, mode, Start(bucketTimeoutMs, holTimeoutMs), events)
            || EarlyKept(l, After(l, mode, Start(bucketTimeoutMs, holTimeoutMs), events), w)
  {
    w := 0;
    if events != [] {
      var n := |events| - 1;
      var y := After(l, mode, Start(bucketTimeoutMs, holTimeoutMs), events[..n]);
      RunKnown(l, mode, bucketTimeoutMs, holTimeoutMs, events[..n]);
      w := InBlocksOrKept(l, mode, bucketTimeoutMs, holTimeoutMs, events[..n]);
      if EarlyKept(l, y, w) {
        EarlyKeptStays(l, mode, y, events[n], w);
      } else if !InBlocks(l, y, events[n]) {
        w := events[n].frame;
        OpensEarly(l, mode, y, events[n]);
      }
    }
  }

  /** When nothing is held, an earlier one has been delivered, and breaks the sent order. */
  lemma KeptBreaks(l: Link, y: System, w: nat)
    requires Inv(y.s) && Known(l, y) && EarlyKept(l, y, w) && y.s.bucketMap.Keys == {}
    ensures !Rising(y.who)
  {
    assert Filed(y.s, Slot0(l, w));
    var i :| 0 <= i < |y.who| && y.who[i] == w;
    assert AfterFirst(l, y, i);
    EarlyBreaks(l, y, i);
  }

  /** Once everything held has gone out, superframes were delivered in the order in which they were sent
      if and only if each bucket was opened for one sent after all those delivered by then, and none for
      one from before the 65536-block of the first one seen. */
  lemma SentOrderIff(l: Link, mode: Mode, bucketTimeoutMs: u32, holTimeoutMs: u32, events: seq<Event>)
    requires Few(l) && GoodRun(l, mode, bucketTimeoutMs, holTimeoutMs, events)
    requires After(l, mode, Start(bucketTimeoutMs, holTimeoutMs), events).s.bucketMap.Keys == {}
    ensures Rising(After(l, mode, Start(bucketTimeoutMs, holTimeoutMs), events).who) <==>
            && AllOpenAbove(l, mode, Start(bucketTimeoutMs, holTimeoutMs), events)
            && AllInBlocks(l, mode, Start(bucketTimeoutMs, holTimeoutMs), events)
  {
    var y := After(l, mode, Start(bucketTimeoutMs, holTimeoutMs), events);
    RunKnown(l, mode, bucketTimeoutMs, holTimeoutMs, events);
    AboveOrLate(l, mode, bucketTimeoutMs, holTimeoutMs, events);
    var w := InBlocksOrKept(l, mode, bucketTimeoutMs, holTimeoutMs, events);
    if !AllOpenAbove(l, mode, Start(bucketTimeoutMs, holTimeoutMs), events) {
      var k, v :| Late(l, y, k, v);
      LateBreaks(l, y, k, v);
    } else if !AllInBlocks(l, mode, Start(bucketTimeoutMs, holTimeoutMs), events) {
      KeptBreaks(l, y, w);
    } else {
      OpenAboveSuffices(l, mode, bucketTimeoutMs, holTimeoutMs, events);
    }
  }
}
