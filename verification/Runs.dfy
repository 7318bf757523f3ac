/** Whole runs of a receiver: any packets with in-range headers, interleaved with delivery passes. */
module Runs {
  import opened Wire
  import opened Sequencing
  import opened Buckets
  import opened Receiving
  import opened Delivery

  datatype Event = Arrive(p: Packet, source: byte, now: int) | Tick(now: int)

  predicate Legal(e: Event) {
    e.Arrive? ==> InRange(e.p)
  }

  /** One event: the state after it and the orders it delivered. */
  function Next(s: State, mode: Mode, e: Event): (r: (State, seq<u64>))
    requires Inv(s) && Legal(e)
    ensures Inv(r.0)
  {
    match e
    case Arrive(p, source, now) =>
      UnpackKeepsInv(s, p, source, now);
      (Unpack(s, p, source, now).0, [])
    case Tick(now) =>
      PassContract(s, mode, now);
      Pass(s, mode, now)
  }

  /** A run so far: the state reached and all orders delivered, in delivery order. */
  datatype Run = Run(s: State, orders: seq<u64>)

  /** Every reachable state satisfies the invariant. */
  function After(s0: State, mode: Mode, events: seq<Event>): (r: Run)
    requires Inv(s0) && forall e :: e in events ==> Legal(e)
    ensures Inv(r.s)
  {
    if events == [] then Run(s0, [])
    else
      var before := After(s0, mode, events[..|events| - 1]);
      var (s, keys) := Next(before.s, mode, events[|events| - 1]);
      Run(s, before.orders + keys)
  }

  // ---------------------------------------------------------------------------------------
  // Head-of-line ordering

  /** The order a packet opens a bucket with, if it opens one. */
  function OpenedOrder(s: State, e: Event): Option<u64>
    requires Inv(s) && Legal(e)
  {
    if e.Tick? || s.buckets[Index(e.p.header.superFrameNo)].active then None
    else
      UnpackKeepsInv(s, e.p, e.source, e.now);
      if Unpack(s, e.p, e.source, e.now).1.NoError? then Some(Unwrap(s.unwrapper, e.p.header.superFrameNo).recalc)
      else None
  }

  /** No bucket is opened below the head once the head is set, nor at the one order that has no
      successor. */
  ghost predicate InTime(s: State, e: Event)
    requires Inv(s) && Legal(e)
  {
    var o := OpenedOrder(s, e);
    o.Some? ==> o.value < UINT64_MAX && (!s.holFirstRun ==> s.nextExpected <= o.value)
  }

  ghost predicate AllInTime(s0: State, mode: Mode, events: seq<Event>)
    requires Inv(s0) && forall e :: e in events ==> Legal(e)
  {
    forall n :: 0 <= n < |events| ==> InTime(After(s0, mode, events[..n]).s, events[n])
  }

  ghost predicate HeadInv(r: Run)
    requires Inv(r.s)
  {
    && HolMode(r.s)
    && Ascending(r.orders)
    && (r.s.holFirstRun ==> r.orders == [])
    && (forall k :: k in r.s.bucketMap ==> k < UINT64_MAX && (!r.s.holFirstRun ==> r.s.nextExpected <= k))
    && (forall i :: 0 <= i < |r.orders| ==> r.orders[i] < r.s.nextExpected)
  }

  lemma ArriveKeepsHead(r: Run, mode: Mode, e: Event)
    requires Inv(r.s) && HeadInv(r) && Legal(e) && e.Arrive? && InTime(r.s, e)
    ensures HeadInv(Run(Next(r.s, mode, e).0, r.orders))
    ensures Next(r.s, mode, e).0.nextExpected == r.s.nextExpected
    ensures Next(r.s, mode, e).0.holFirstRun == r.s.holFirstRun
  {
    assert Filed(r.s, Index(e.p.header.superFrameNo));
  }

  /** The order after the last one delivered, if any was. */
  function Following(keys: seq<u64>, next: u64): u64
  {
    if keys == [] then next else Next64(keys[|keys| - 1])
  }

  /** What a prefix of an ascending sequence leaves behind lies above it. */
  lemma LeftBehind(keys: seq<u64>, held: seq<u64>, next: u64)
    requires Ascending(held) && keys <= held
    ensures Ascending(keys) && NextAt(held, next, |keys|) == Following(keys, next)
    ensures forall k :: k in keys ==> k in held
    ensures forall k :: k in held && k !in keys && keys != [] ==> keys[|keys| - 1] < k
  {
    assert forall j :: 0 <= j < |keys| ==> keys[j] == held[j];
    forall k | k in held && k !in keys && keys != [] ensures keys[|keys| - 1] < k {
      var j :| 0 <= j < |held| && held[j] == k;
      InPrefix(keys, held, j);
    }
  }

  lemma InPrefix(keys: seq<u64>, held: seq<u64>, j: nat)
    requires keys <= held && j < |held|
    ensures j < |keys| ==> held[j] in keys
  {
    if j < |keys| {
      assert keys[j] == held[j];
    }
  }

  /** A head-of-line pass, once the head is set: delivered orders are an ascending prefix of the held
      ones, and the head follows the last of them. */
  lemma HolSummary(s: State, mode: Mode, now: int)
    requires Inv(s) && HolMode(s) && !s.holFirstRun
    ensures var (s', keys) := Pass(s, mode, now);
            && Ascending(keys)
            && !s'.holFirstRun && s'.holTimeoutMs == s.holTimeoutMs
            && s'.nextExpected == Following(keys, s.nextExpected)
            && (forall k :: k in keys ==> k in s.bucketMap)
            && (forall k :: k in s'.bucketMap ==> k in s.bucketMap)
            && (forall k :: k in s'.bucketMap && keys != [] ==> keys[|keys| - 1] < k)
  {
    var held := Sorted(s.bucketMap.Keys);
    SortedIsAscending(s.bucketMap.Keys);
    HolPassContract(s, mode, now);
    var (s', keys) := Pass(s, mode, now);
    LeftBehind(keys, held, s.nextExpected);
    assert s' == Close(s.(nextExpected := s'.nextExpected), keys);
  }

  /** Setting the head does not deliver; the pass then goes on as if the head had been set before. */
  lemma FirstPass(s: State, mode: Mode, now: int)
    requires Inv(s) && HolMode(s) && s.holFirstRun
    ensures Pass(s, mode, now) == (s, [])
            || (s.bucketMap.Keys != {}
                && var s1 := s.(holFirstRun := false, nextExpected := Least(s.bucketMap.Keys));
                   Inv(s1) && Pass(s, mode, now) == Pass(s1, mode, now))
  {
    var settled := Settled(s, mode, now);
    if settled.Some? {
      SettledInv(s, mode, now);
    }
  }

  lemma TickKeepsHead(r: Run, mode: Mode, e: Event)
    requires Inv(r.s) && HeadInv(r) && e.Tick?
    ensures var (s, keys) := Next(r.s, mode, e);
            && HeadInv(Run(s, r.orders + keys))
            && (!r.s.holFirstRun ==> !s.holFirstRun && r.s.nextExpected <= s.nextExpected)
  {
    if r.s.holFirstRun {
      FirstPass(r.s, mode, e.now);
      if Pass(r.s, mode, e.now) != (r.s, []) {
        var s1 := r.s.(holFirstRun := false, nextExpected := Least(r.s.bucketMap.Keys));
        SettledTickKeepsHead(Run(s1, r.orders), mode, e.now);
      }
    } else {
      SettledTickKeepsHead(r, mode, e.now);
    }
  }

  lemma SettledTickKeepsHead(r: Run, mode: Mode, now: int)
    requires Inv(r.s) && HeadInv(r) && !r.s.holFirstRun
    ensures var (s, keys) := Pass(r.s, mode, now);
            && Inv(s)
            && HeadInv(Run(s, r.orders + keys)) && !s.holFirstRun && r.s.nextExpected <= s.nextExpected
  {
    PassContract(r.s, mode, now);
    HolSummary(r.s, mode, now);
    var (s, keys) := Pass(r.s, mode, now);
    OrdersExtend(r.orders, keys, r.s.nextExpected);
    forall k | k in s.bucketMap ensures k < UINT64_MAX && s.nextExpected <= k {
      assert k in r.s.bucketMap;
      if keys != [] {
        NotBelow(keys, r.s.nextExpected, k);
      }
    }
  }

  lemma NotBelow(keys: seq<u64>, next: u64, k: u64)
    requires keys != [] && keys[|keys| - 1] < k
    ensures Following(keys, next) <= k
  {
  }

  lemma StepKeepsHead(r: Run, mode: Mode, e: Event)
    requires Inv(r.s) && HeadInv(r) && Legal(e) && InTime(r.s, e)
    ensures var (s, keys) := Next(r.s, mode, e);
            && HeadInv(Run(s, r.orders + keys))
            && (!r.s.holFirstRun ==> !s.holFirstRun && r.s.nextExpected <= s.nextExpected)
  {
    if e.Arrive? {
      ArriveKeepsHead(r, mode, e);
      assert r.orders + [] == r.orders;
    } else {
      TickKeepsHead(r, mode, e);
    }
  }

  lemma OrdersExtend(orders: seq<u64>, keys: seq<u64>, next: u64)
    requires Ascending(orders) && forall i :: 0 <= i < |orders| ==> orders[i] < next
    requires Ascending(keys) && forall k :: k in keys ==> next <= k < UINT64_MAX
    ensures Ascending(orders + keys)
    ensures forall i :: 0 <= i < |orders + keys| ==> (orders + keys)[i] < Following(keys, next)
    ensures next <= Following(keys, next)
  {
    if keys != [] {
      var last := keys[|keys| - 1];
      assert last in keys && keys[0] in keys;
      assert Following(keys, next) == last + 1;
      forall i | 0 <= i < |keys| ensures next <= keys[i] <= last {
        assert keys[i] in keys;
      }
    }
  }

  /** Over a whole run in head-of-line mode, if buckets are opened in time, the delivered orders
      strictly increase across all passes and the head stays above all of them. */
  lemma {:induction false} HeadOfLineOrdering(s0: State, mode: Mode, events: seq<Event>)
    requires Inv(s0) && HolMode(s0) && s0.holFirstRun && s0.bucketMap.Keys == {}
    requires forall e :: e in events ==> Legal(e)
    requires AllInTime(s0, mode, events)
    ensures HeadInv(After(s0, mode, events))
  {
    if events != [] {
      var n := |events| - 1;
      InTimePrefix(s0, mode, events, n);
      HeadOfLineOrdering(s0, mode, events[..n]);
      StepKeepsHead(After(s0, mode, events[..n]), mode, events[n]);
    }
  }

  lemma InTimePrefix(s0: State, mode: Mode, events: seq<Event>, n: nat)
    requires Inv(s0) && forall e :: e in events ==> Legal(e)
    requires AllInTime(s0, mode, events) && n < |events|
    ensures forall e :: e in events[..n] ==> Legal(e)
    ensures AllInTime(s0, mode, events[..n])
    ensures InTime(After(s0, mode, events[..n]).s, events[n])
  {
    forall m | 0 <= m < n
      ensures InTime(After(s0, mode, events[..n][..m]).s, events[..n][m])
    {
      assert events[..n][..m] == events[..m];
      assert InTime(After(s0, mode, events[..m]).s, events[m]);
    }
  }

  /** The head never moves back in such a run. */
  lemma HeadNeverMovesBack(s0: State, mode: Mode, events: seq<Event>, n: nat)
    requires Inv(s0) && HolMode(s0) && s0.holFirstRun && s0.bucketMap.Keys == {}
    requires forall e :: e in events ==> Legal(e)
    requires AllInTime(s0, mode, events) && n < |events|
    ensures var before := After(s0, mode, events[..n]).s;
            var after := After(s0, mode, events[..n + 1]).s;
            !before.holFirstRun ==> !after.holFirstRun && before.nextExpected <= after.nextExpected
  {
    InTimePrefix(s0, mode, events, n);
    HeadOfLineOrdering(s0, mode, events[..n]);
    assert events[..n + 1][..n] == events[..n];
    StepKeepsHead(After(s0, mode, events[..n]), mode, events[n]);
  }

  /** Where a pass will stop, in terms of the state before it: the first m held buckets are unblocked,
      and the next one, if any, is not. */
  ghost predicate StopsAt(s: State, held: seq<u64>, now: int, m: nat)
    requires Lists(s, held)
  {
    && m <= |held|
    && (forall j :: 0 <= j < m ==> Unblocked(s, held, s.nextExpected, now, j))
    && (m < |held| ==> !Unblocked(s, held, s.nextExpected, now, m))
  }

  lemma StopsOnce(s: State, held: seq<u64>, now: int, m: nat, n: nat)
    requires Lists(s, held) && StopsAt(s, held, now, m) && StopsAt(s, held, now, n)
    ensures m == n
  {
  }

  /** A pass stops there, and leaves the head behind the last bucket before it. */
  lemma PassStops(s: State, mode: Mode, now: int) returns (held: seq<u64>, n: nat, head: u64)
    requires Inv(s) && HolMode(s) && !s.holFirstRun
    ensures held == Sorted(s.bucketMap.Keys) && Lists(s, held) && StopsAt(s, held, now, n)
    ensures head == Pass(s, mode, now).0.nextExpected == NextAt(held, s.nextExpected, n)
  {
    held, n := Sorted(s.bucketMap.Keys), |Pass(s, mode, now).1|;
    head := Pass(s, mode, now).0.nextExpected;
    HolPassContract(s, mode, now);
  }

  /** Without that condition the head does move back: exactly when what the pass finds unblocked ends
      before the superframe that precedes the head. */
  lemma HeadMovesBackIff(s: State, mode: Mode, now: int)
    requires Inv(s) && HolMode(s) && !s.holFirstRun
    requires forall k :: k in s.bucketMap ==> k < UINT64_MAX
    ensures Lists(s, Sorted(s.bucketMap.Keys))
    ensures var held := Sorted(s.bucketMap.Keys);
            Pass(s, mode, now).0.nextExpected < s.nextExpected <==>
            exists m: nat :: StopsAt(s, held, now, m) && m > 0 && held[m - 1] + 1 < s.nextExpected
  {
    var held, n, head := PassStops(s, mode, now);
    forall m: nat | StopsAt(s, held, now, m) ensures m == n {
      StopsOnce(s, held, now, m, n);
    }
    if n > 0 {
      assert held[n - 1] in held;
      assert head == held[n - 1] + 1;
    }
  }

  // ---------------------------------------------------------------------------------------
  // Exactly when delivered orders stop rising

  /** What holds in every run in head-of-line mode, in time or not: the head follows the last
      delivered order. */
  ghost predicate Headed(r: Run)
    requires Inv(r.s)
  {
    && HolMode(r.s)
    && (r.s.holFirstRun ==> r.orders == [])
    && (r.orders != [] ==> r.s.nextExpected == Next64(r.orders[|r.orders| - 1]))
  }

  /** What a pass makes of the head. */
  lemma HeadAfterPass(s: State, mode: Mode, now: int)
    requires Inv(s) && HolMode(s)
    ensures var (s', keys) := Pass(s, mode, now);
            && HolMode(s') && (s'.holFirstRun ==> s.holFirstRun && keys == [])
            && (keys != [] ==> s'.nextExpected == Next64(keys[|keys| - 1]))
            && (keys == [] && !s.holFirstRun ==> s'.nextExpected == s.nextExpected)
  {
    if s.holFirstRun {
      FirstPass(s, mode, now);
      if Pass(s, mode, now) != (s, []) {
        HolSummary(s.(holFirstRun := false, nextExpected := Least(s.bucketMap.Keys)), mode, now);
      }
    } else {
      HolSummary(s, mode, now);
    }
  }

  lemma StepKeepsHeaded(r: Run, mode: Mode, e: Event)
    requires Inv(r.s) && Headed(r) && Legal(e)
    ensures var (s, keys) := Next(r.s, mode, e);
            Headed(Run(s, r.orders + keys))
  {
    if e.Arrive? {
      UnpackTouches(r.s, e.p, e.source, e.now);
      assert r.orders + [] == r.orders;
    } else {
      PassContract(r.s, mode, e.now);
      HeadAfterPass(r.s, mode, e.now);
    }
  }

  /** A pass that hands out an order not above the last one: the least held order is not above it,
      and is unblocked. Since the head is just above the last one, that means timed out, unless the
      orders have wrapped. */
  ghost predicate Breaks(r: Run, now: int)
    requires Inv(r.s)
  {
    r.orders != [] && r.s.bucketMap.Keys != {}
    && var k := Least(r.s.bucketMap.Keys);
       var last := r.orders[|r.orders| - 1];
       k <= last && (Expired(At(r.s, k), Micros(r.s.holTimeoutMs), now)
                     || (last == UINT64_MAX && k == 0 && Complete(At(r.s, k))))
  }

  lemma RisingConcat(a: seq<u64>, b: seq<u64>)
    ensures Ascending(a + b) <==> Ascending(a) && Ascending(b) && (a != [] && b != [] ==> a[|a| - 1] < b[0])
  {
    if Ascending(a + b) {
      assert forall i :: 0 <= i < |a| ==> a[i] == (a + b)[i];
      assert forall i :: 0 <= i < |b| ==> b[i] == (a + b)[|a| + i];
    }
  }

  /** The least held order is handed out first, if it is unblocked. */
  lemma FirstOut(s: State, mode: Mode, now: int)
    requires Inv(s) && HolMode(s) && !s.holFirstRun && s.bucketMap.Keys != {}
    ensures var k := Least(s.bucketMap.Keys);
            var keys := Pass(s, mode, now).1;
            && (keys != [] ==> keys[0] == k)
            && (keys != [] <==> (k == s.nextExpected && Complete(At(s, k)))
                                || Expired(At(s, k), Micros(s.holTimeoutMs), now))
  {
    HolPassContract(s, mode, now);
    var held := Sorted(s.bucketMap.Keys);
    assert held[0] == Least(s.bucketMap.Keys);
    var keys := Pass(s, mode, now).1;
    if keys == [] {
      assert !Unblocked(s, held, s.nextExpected, now, 0);
    } else {
      assert Unblocked(s, held, s.nextExpected, now, 0);
    }
  }

  /** One pass, exactly. */
  lemma PassBreaksOrderIff(r: Run, mode: Mode, now: int)
    requires Inv(r.s) && Headed(r) && Ascending(r.orders)
    ensures !Ascending(r.orders + Pass(r.s, mode, now).1) <==> Breaks(r, now)
  {
    PassContract(r.s, mode, now);
    RisingConcat(r.orders, Pass(r.s, mode, now).1);
    if r.orders != [] && r.s.bucketMap.Keys != {} {
      FirstOut(r.s, mode, now);
    }
  }

  /** No pass of the run breaks the order. */
  ghost predicate NeverBreaks(s0: State, mode: Mode, events: seq<Event>)
    requires Inv(s0) && forall e :: e in events ==> Legal(e)
  {
    events != [] ==>
      var n := |events| - 1;
      && NeverBreaks(s0, mode, events[..n])
      && (events[n].Tick? ==> !Breaks(After(s0, mode, events[..n]), events[n].now))
  }

  lemma StepRisesIff(r: Run, mode: Mode, e: Event)
    requires Inv(r.s) && Headed(r) && Legal(e)
    ensures Ascending(r.orders + Next(r.s, mode, e).1) <==>
            Ascending(r.orders) && (e.Tick? ==> !Breaks(r, e.now))
  {
    RisingConcat(r.orders, Next(r.s, mode, e).1);
    if e.Tick? && Ascending(r.orders) {
      PassBreaksOrderIff(r, mode, e.now);
    }
  }

  /** Whole runs, exactly, for any packets at all: delivered orders strictly increase across all passes
      if and only if no pass of the run breaks them. */
  lemma {:induction false} OrdersRiseIff(s0: State, mode: Mode, events: seq<Event>)
    requires Inv(s0) && HolMode(s0) && s0.holFirstRun
    requires forall e :: e in events ==> Legal(e)
    ensures Headed(After(s0, mode, events))
    ensures Ascending(After(s0, mode, events).orders) <==> NeverBreaks(s0, mode, events)
  {
    if events != [] {
      var n := |events| - 1;
      OrdersRiseIff(s0, mode, events[..n]);
      StepKeepsHeaded(After(s0, mode, events[..n]), mode, events[n]);
      StepRisesIff(After(s0, mode, events[..n]), mode, events[n]);
    }
  }
}
