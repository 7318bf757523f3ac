/** What the first pass makes of superframes that have all arrived. */
module Batch {
  import opened Wire
  import opened Fragmenter
  import opened Buckets
  import opened Receiving
  import opened Delivery
  import opened Channel
  import opened AtMostOnce
  import opened TooOld
  import opened SentOrder
  import opened Answers
  import opened TimeOuts
  import opened Fifo

  // ---------------------------------------------------------------------------------------
  // Superframes that have all arrived

  /** Fragments of the n superframes from k on, and nothing else, have arrived; `first` came first, and all
      lie in its 65536-block or after it. */
  ghost predicate Window(l: Link, events: seq<Event>, k: nat, n: nat) {
    && k + n <= |l.sent| && n <= 8192
    && (forall e :: e in events ==> e.Arrive? && Legal(l, e) && k <= e.frame < k + n)
    && (events != [] ==> l.first + events[0].frame - No(l, events[0].frame) <= l.first + k)
  }

  /** All that is known while they arrive. */
  ghost predicate Arriving(l: Link, y: System, k: nat, n: nat)
    requires Inv(y.s)
  {
    && y.who == [] && y.delivered == []
    && (y.s.unwrapper.firstTime ==> y.owners == map[])
    && (!y.s.unwrapper.firstTime ==>
         && Block(l, y) <= l.first + k <= y.firstSeen < l.first + k + n
         && l.first + k <= y.lastSeen < l.first + k + n)
    && (forall i :: i in y.owners ==> k <= y.owners[i] < k + n && Slot0(l, y.owners[i]) == i)
  }

  /** The number from which orders count. */
  function Block(l: Link, y: System): int {
    y.firstSeen - y.firstSeen % TWO16
  }

  /** Within 8192 superframes each has its own bucket. */
  lemma OwnBucket(l: Link, k: nat, n: nat, a: nat, b: nat)
    requires n <= 8192 && k <= a < k + n && k <= b < k + n && Slot0(l, a) == Slot0(l, b)
    ensures a == b
  {
    SameBucket(l, a, b);
  }

  lemma ArrivesWell(l: Link, y: System, e: Event, k: nat, n: nat)
    requires Inv(y.s) && Legal(l, e) && e.Arrive? && n <= 8192 && k <= e.frame < k + n
    requires Arriving(l, y, k, n) && SoundSoFar(l, y)
    ensures Orderly(l, y, e) && Unambiguous(l, y, e)
  {
    var i := Slot0(l, e.frame);
    assert OwnerHolds(l, y, i);
    if i in y.owners {
      OwnBucket(l, k, n, y.owners[i], e.frame);
    }
  }

  lemma StaysArriving(l: Link, mode: Mode, y: System, e: Event, k: nat, n: nat)
    requires Inv(y.s) && Legal(l, e) && e.Arrive? && k <= e.frame < k + n && Arriving(l, y, k, n)
    requires y.s.unwrapper.firstTime ==> l.first + e.frame - No(l, e.frame) <= l.first + k
    requires y.s.unwrapper.firstTime ==> !y.s.buckets[Slot0(l, e.frame)].active
    ensures Arriving(l, Step(l, mode, y, e), k, n) && !Step(l, mode, y, e).s.unwrapper.firstTime
  {
  }

  /** Such a run is orderly and unambiguous. */
  lemma {:induction false} WindowRun(l: Link, mode: Mode, bucketTimeoutMs: u32, holTimeoutMs: u32, events: seq<Event>,
                                     k: nat, n: nat)
    requires Window(l, events, k, n)
    ensures AllOrderly(l, mode, Start(bucketTimeoutMs, holTimeoutMs), events)
    ensures AllUnambiguous(l, mode, Start(bucketTimeoutMs, holTimeoutMs), events)
    ensures var y := After(l, mode, Start(bucketTimeoutMs, holTimeoutMs), events);
            Arriving(l, y, k, n) && (events != [] ==> !y.s.unwrapper.firstTime)
  {
    if events != [] {
      var m := |events| - 1;
      var front := events[..m];
      WindowFront(l, events, k, n);
      WindowRun(l, mode, bucketTimeoutMs, holTimeoutMs, front, k, n);
      var y := After(l, mode, Start(bucketTimeoutMs, holTimeoutMs), front);
      SoundnessFrom(l, mode, Start(bucketTimeoutMs, holTimeoutMs), front);
      ArrivesWell(l, y, events[m], k, n);
      StaysArriving(l, mode, y, events[m], k, n);
    }
  }

  /** The fragment at position i of superframe f has arrived. */
  ghost predicate Came(events: seq<Event>, f: nat, i: nat) {
    exists m :: 0 <= m < |events| && events[m].Arrive? && events[m].frame == f && events[m].position == i
  }

  /** None of them is refused but as a duplicate. */
  lemma OnlyDuplicates(l: Link, mode: Mode, bucketTimeoutMs: u32, holTimeoutMs: u32, events: seq<Event>, last: Event,
                       k: nat, n: nat)
    requires Window(l, events, k, n) && Legal(l, last) && last.Arrive? && k <= last.frame < k + n
    ensures var start := Start(bucketTimeoutMs, holTimeoutMs);
            var msg := Answer(l, After(l, mode, start, events), last);
            msg == NoError
            || (msg == DuplicatePacketReceived && WasAccepted(l, mode, start, events, last.frame, last.position))
  {
    var y := After(l, mode, Start(bucketTimeoutMs, holTimeoutMs), events);
    WindowRun(l, mode, bucketTimeoutMs, holTimeoutMs, events, k, n);
    SoundnessFrom(l, mode, Start(bucketTimeoutMs, holTimeoutMs), events);
    ArrivesWell(l, y, last, k, n);
    NotMistaken(l, y, last, k, n);
    NothingInTheWay(l, mode, Start(bucketTimeoutMs, holTimeoutMs), events, k, n, last.frame);
    AnswersInHistory(l, mode, bucketTimeoutMs, holTimeoutMs, events, last);
  }

  lemma NothingInTheWay(l: Link, mode: Mode, y: System, events: seq<Event>, k: nat, n: nat, f: nat)
    requires Inv(y.s) && n <= 8192 && k <= f < k + n
    requires forall e :: e in events ==> Legal(l, e) && e.Arrive? && k <= e.frame < k + n
    ensures !exists w, i :: InTheWay(l, mode, y, events, f, w, i)
  {
    forall w: nat, i: nat ensures !InTheWay(l, mode, y, events, f, w, i) {
      if InTheWay(l, mode, y, events, f, w, i) {
        OnlyFromWindow(l, mode, y, events, k, n, w, i);
        TooClose(w - f);
      }
    }
  }

  lemma TooClose(d: int)
    requires -8192 < d < 8192 && d != 0
    ensures d % 8192 != 0
  {
  }

  lemma NotMistaken(l: Link, y: System, e: Event, k: nat, n: nat)
    requires Inv(y.s) && Legal(l, e) && e.Arrive? && n <= 8192 && k <= e.frame < k + n && Arriving(l, y, k, n)
    ensures !Mistaken(l, y, e)
  {
    if Slot0(l, e.frame) in y.owners {
      OwnBucket(l, k, n, y.owners[Slot0(l, e.frame)], e.frame);
    } else if !y.s.unwrapper.firstTime {
      NoMultiple(l.first + e.frame - Block(l, y) + 1);
    } else {
      NoMultiple(No(l, e.frame) + 1);
    }
  }

  lemma {:induction false} OnlyFromWindow(l: Link, mode: Mode, y: System, events: seq<Event>, k: nat, n: nat, w: nat, i: nat)
    requires Inv(y.s) && (forall e :: e in events ==> Legal(l, e) && e.Arrive? && k <= e.frame < k + n)
    requires WasAccepted(l, mode, y, events, w, i)
    ensures k <= w < k + n
  {
    if WasAccepted(l, mode, y, events[..|events| - 1], w, i) {
      OnlyFromWindow(l, mode, y, events[..|events| - 1], k, n, w, i);
    }
  }

  lemma {:induction false} CameIsAccepted(l: Link, mode: Mode, bucketTimeoutMs: u32, holTimeoutMs: u32, events: seq<Event>,
                                          k: nat, n: nat, f: nat, i: nat)
    requires Window(l, events, k, n) && Came(events, f, i)
    ensures WasAccepted(l, mode, Start(bucketTimeoutMs, holTimeoutMs), events, f, i)
  {
    var m := |events| - 1;
    WindowFront(l, events, k, n);
    CameBeforeOrLast(events, f, i);
    if Came(events[..m], f, i) {
      CameIsAccepted(l, mode, bucketTimeoutMs, holTimeoutMs, events[..m], k, n, f, i);
    } else {
      OnlyDuplicates(l, mode, bucketTimeoutMs, holTimeoutMs, events[..m], events[m], k, n);
    }
  }

  lemma WindowFront(l: Link, events: seq<Event>, k: nat, n: nat)
    requires events != [] && Window(l, events, k, n)
    ensures var last := events[|events| - 1];
            Window(l, events[..|events| - 1], k, n) && last.Arrive? && Legal(l, last) && k <= last.frame < k + n
  {
    var front := events[..|events| - 1];
    assert front != [] ==> front[0] == events[0];
    assert events[|events| - 1] in events;
  }

  lemma CameBeforeOrLast(events: seq<Event>, f: nat, i: nat)
    requires Came(events, f, i)
    ensures var last := events[|events| - 1];
            Came(events[..|events| - 1], f, i) || (last.Arrive? && last.frame == f && last.position == i)
  {
    var j :| 0 <= j < |events| && events[j].Arrive? && events[j].frame == f && events[j].position == i;
    var front := events[..|events| - 1];
    if j < |front| {
      assert front[j] == events[j];
    }
  }

  // ---------------------------------------------------------------------------------------
  // The pass that follows

  /** All fragments of superframe f are held, under the order that is its distance from the block. */
  ghost predicate HeldWhole(l: Link, y: System, f: nat)
    requires Inv(y.s)
  {
    && f < |l.sent| && HeldNow(l, y, f)
    && var b := y.s.buckets[Slot0(l, f)];
       b.received == Positions(LastPosition(|l.sent[f].payload|, l.mtu)) && b.order == l.first + f - Block(l, y)
  }

  lemma AllCame(l: Link, mode: Mode, bucketTimeoutMs: u32, holTimeoutMs: u32, events: seq<Event>, k: nat, n: nat, f: nat)
    requires Window(l, events, k, n) && k <= f < k + n
    requires forall i :: OnLink(l, f, i) ==> Came(events, f, i)
    ensures HeldWhole(l, After(l, mode, Start(bucketTimeoutMs, holTimeoutMs), events), f)
  {
    var y := After(l, mode, Start(bucketTimeoutMs, holTimeoutMs), events);
    assert OnLink(l, f, 0) && Came(events, f, 0);
    CameIsHeld(l, mode, bucketTimeoutMs, holTimeoutMs, events, k, n, f, 0);
    forall i: nat | i <= LastPosition(|l.sent[f].payload|, l.mtu) ensures i in y.s.buckets[Slot0(l, f)].received {
      assert OnLink(l, f, i);
      CameIsHeld(l, mode, bucketTimeoutMs, holTimeoutMs, events, k, n, f, i);
    }
    AllReceived(l, y, k, n, f);
  }

  lemma CameIsHeld(l: Link, mode: Mode, bucketTimeoutMs: u32, holTimeoutMs: u32, events: seq<Event>,
                   k: nat, n: nat, f: nat, i: nat)
    requires Window(l, events, k, n) && Came(events, f, i)
    ensures var y := After(l, mode, Start(bucketTimeoutMs, holTimeoutMs), events);
            && SoundSoFar(l, y) && OnceSoFar(l, y) && Arriving(l, y, k, n) && !y.s.unwrapper.firstTime
            && HeldNow(l, y, f) && i in y.s.buckets[Slot0(l, f)].received
  {
    WindowRun(l, mode, bucketTimeoutMs, holTimeoutMs, events, k, n);
    RunAccounts(l, mode, bucketTimeoutMs, holTimeoutMs, events);
    CameIsAccepted(l, mode, bucketTimeoutMs, holTimeoutMs, events, k, n, f, i);
    HeldIff(l, mode, bucketTimeoutMs, holTimeoutMs, events, f, i);
  }

  lemma AllReceived(l: Link, y: System, k: nat, n: nat, f: nat)
    requires Inv(y.s) && SoundSoFar(l, y) && OnceSoFar(l, y) && Arriving(l, y, k, n) && !y.s.unwrapper.firstTime
    requires f < |l.sent| && k <= f < k + n <= k + 8192 && HeldNow(l, y, f)
    requires forall i: nat :: i <= LastPosition(|l.sent[f].payload|, l.mtu) ==> i in y.s.buckets[Slot0(l, f)].received
    ensures HeldWhole(l, y, f)
  {
    var last := LastPosition(|l.sent[f].payload|, l.mtu);
    var b := y.s.buckets[Slot0(l, f)];
    assert OwnerHolds(l, y, Slot0(l, f)) && Remembers(l, y, Slot0(l, f)) && Filed(y.s, Slot0(l, f));
    PositionsAre(last);
    assert b.received == Positions(last);
    PlainOrder(l, y.firstSeen, f);
  }

  /** The orders of n complete superframes in a row. */
  ghost predicate InARow(s: State, base: u64, n: nat)
    requires Inv(s)
  {
    && base + n <= UINT64_MAX
    && (forall key: u64 :: key in s.bucketMap <==> base <= key < base + n)
    && (forall key :: key in s.bucketMap ==> Complete(At(s, key)))
  }

  lemma KeysInARow(l: Link, y: System, k: nat, n: nat) returns (base: u64)
    requires Inv(y.s) && SoundSoFar(l, y) && OnceSoFar(l, y) && Arriving(l, y, k, n) && !y.s.unwrapper.firstTime
    requires n <= 8192 && forall f :: k <= f < k + n ==> HeldWhole(l, y, f)
    ensures base == l.first + k - Block(l, y) && InARow(y.s, base, n)
    ensures forall key :: key in y.s.bucketMap ==> Owner(y, key) == k + (key - base)
  {
    base := l.first + k - Block(l, y);
    forall key: u64 | key in y.s.bucketMap ensures base <= key < base + n {
      KeyFromRow(l, y, k, n, key);
    }
    forall key: u64 | base <= key < base + n
      ensures key in y.s.bucketMap && Owner(y, key) == k + (key - base) && Complete(At(y.s, key))
    {
      KeyInRow(l, y, k, n, k + (key - base));
    }
  }

  lemma KeyInRow(l: Link, y: System, k: nat, n: nat, f: nat)
    requires Inv(y.s) && SoundSoFar(l, y) && k <= f < k + n && n <= 8192 && Arriving(l, y, k, n)
    requires !y.s.unwrapper.firstTime && HeldWhole(l, y, f)
    ensures var key := l.first + f - Block(l, y);
            && 0 <= key < TWO64 && key in y.s.bucketMap && Owner(y, key) == f && Complete(At(y.s, key))
  {
    var b := y.s.buckets[Slot0(l, f)];
    assert Filed(y.s, Slot0(l, f)) && OwnerHolds(l, y, Slot0(l, f)) && Points(y.s, b.order);
    CompleteIffAll(b);
  }

  lemma KeyFromRow(l: Link, y: System, k: nat, n: nat, key: u64)
    requires Inv(y.s) && SoundSoFar(l, y) && Arriving(l, y, k, n) && !y.s.unwrapper.firstTime && n <= 8192
    requires key in y.s.bucketMap && forall f :: k <= f < k + n ==> HeldWhole(l, y, f)
    ensures l.first + k - Block(l, y) <= key < l.first + k + n - Block(l, y)
  {
    assert Points(y.s, key) && OwnerHolds(l, y, key % BUCKETS);
    var f := y.owners[key % BUCKETS];
    assert HeldWhole(l, y, f);
  }

  /** The keys in order. */
  lemma SortedRow(s: State, base: u64, n: nat)
    requires Inv(s) && InARow(s, base, n)
    ensures var held := Sorted(s.bucketMap.Keys);
            |held| == n && Lists(s, held) && forall j :: 0 <= j < n ==> held[j] == base + j
  {
    SortedIsAscending(s.bucketMap.Keys);
    RowIs(Sorted(s.bucketMap.Keys), base, n);
  }

  lemma FirstIn(keys: seq<u64>)
    ensures keys != [] ==> keys[0] in keys
  {
  }

  lemma {:induction false} RowIs(held: seq<u64>, base: u64, n: nat)
    requires Ascending(held) && base + n <= UINT64_MAX && forall key: u64 :: key in held <==> base <= key < base + n
    ensures |held| == n && forall j :: 0 <= j < n ==> held[j] == base + j
  {
    FirstIn(held);
    if n > 0 {
      assert base in held;
      var j :| 0 <= j < |held| && held[j] == base;
      assert j == 0;
      var rest := held[1..];
      forall key: u64 ensures key in rest <==> base + 1 <= key < base + n {
        if key in rest {
          var m :| 0 <= m < |rest| && rest[m] == key;
          assert held[m + 1] == key && held[m + 1] in held;
        }
        if base + 1 <= key < base + n {
          assert key in held;
        }
      }
      RowIs(rest, base + 1, n - 1);
      forall i | 0 <= i < n ensures held[i] == base + i {
        assert i > 0 ==> held[i] == rest[i - 1];
      }
    }
  }

  lemma {:induction false} RowGoesOut(s: State, keys: seq<u64>, base: u64, now: int)
    requires Lists(s, keys) && base + |keys| <= UINT64_MAX
    requires forall j :: 0 <= j < |keys| ==> keys[j] == base + j
    requires forall key :: key in keys ==> Complete(At(s, key))
    ensures ScanHol(s, keys, base, now).keys == keys && ScanFree(s, keys, now) == keys
  {
    if keys != [] {
      RowGoesOut(s, keys[1..], base + 1, now);
    }
  }

  /** A pass hands all of them out, in order. */
  lemma PassInARow(s: State, mode: Mode, base: u64, n: nat, now: int)
    requires Inv(s) && InARow(s, base, n) && n >= 2 && (HolMode(s) ==> s.holFirstRun)
    ensures Pass(s, mode, now).1 == Sorted(s.bucketMap.Keys) && Lists(s, Sorted(s.bucketMap.Keys))
    ensures Inv(Pass(s, mode, now).0) && Pass(s, mode, now).0.bucketMap.Keys == {}
  {
    var held := Sorted(s.bucketMap.Keys);
    SortedIsAscending(s.bucketMap.Keys);
    SettlesInARow(s, mode, base, n, now);
    var s1, keys := PassIsScan(s, mode, now);
    ScanInARow(Settled(s, mode, now).value, base, n, now);
    PassContract(s, mode, now);
    assert Pass(s, mode, now).0.bucketMap.Keys == {};
  }

  lemma SettlesInARow(s: State, mode: Mode, base: u64, n: nat, now: int)
    requires Inv(s) && InARow(s, base, n) && n >= 2 && (HolMode(s) ==> s.holFirstRun)
    ensures Settled(s, mode, now).Some?
    ensures var s1 := Settled(s, mode, now).value;
            && Inv(s1) && InARow(s1, base, n) && s1.bucketMap == s.bucketMap && (HolMode(s1) ==> s1.nextExpected == base)
  {
    SortedRow(s, base, n);
    SortedIsAscending(s.bucketMap.Keys);
    assert Least(s.bucketMap.Keys) == Sorted(s.bucketMap.Keys)[0];
    SettledInv(s, mode, now);
    var s1 := Settled(s, mode, now).value;
    forall key | key in s1.bucketMap ensures Complete(At(s1, key)) {
      assert At(s1, key) == At(s, key);
    }
  }

  lemma ScanInARow(s: State, base: u64, n: nat, now: int)
    requires Inv(s) && InARow(s, base, n) && (HolMode(s) ==> s.nextExpected == base)
    ensures Scan(s, now).keys == Sorted(s.bucketMap.Keys)
  {
    SortedRow(s, base, n);
    SortedIsAscending(s.bucketMap.Keys);
    RowGoesOut(s, Sorted(s.bucketMap.Keys), base, now);
  }

  /** Whatever the order in which they come and whatever is repeated: once all fragments of n superframes in
      a row have arrived, 2 <= n <= 8192, all lying in the 65536-block of the one that came first or after it,
      a pass delivers all of them at once, in the order in which they were sent and intact; in both modes,
      with and without head-of-line blocking, at any time, though it is the first pass. */
  lemma AllComeThenGo(l: Link, mode: Mode, bucketTimeoutMs: u32, holTimeoutMs: u32, events: seq<Event>, k: nat, n: nat,
                      now: int)
    requires Window(l, events, k, n) && n >= 2
    requires forall f, i :: k <= f < k + n && OnLink(l, f, i) ==> Came(events, f, i)
    ensures var y := Step(l, mode, After(l, mode, Start(bucketTimeoutMs, holTimeoutMs), events), Tick(now));
            && y.s.bucketMap.Keys == {} && |y.delivered| == n
            && forall j :: 0 <= j < n ==> Intact(l, y.delivered[j], k + j)
  {
    var y := After(l, mode, Start(bucketTimeoutMs, holTimeoutMs), events);
    assert OnLink(l, k, 0) && Came(events, k, 0);
    CameIsHeld(l, mode, bucketTimeoutMs, holTimeoutMs, events, k, n, k, 0);
    forall f | k <= f < k + n ensures HeldWhole(l, y, f) {
      AllCame(l, mode, bucketTimeoutMs, holTimeoutMs, events, k, n, f);
    }
    var base := KeysInARow(l, y, k, n);
    HeadStillUnset(l, mode, bucketTimeoutMs, holTimeoutMs, events);
    GoInARow(l, mode, y, base, k, n, now);
  }

  /** Arrivals do not set the head. */
  lemma {:induction false} HeadStillUnset(l: Link, mode: Mode, bucketTimeoutMs: u32, holTimeoutMs: u32, events: seq<Event>)
    requires forall e :: e in events ==> e.Arrive? && Legal(l, e)
    ensures After(l, mode, Start(bucketTimeoutMs, holTimeoutMs), events).s.holFirstRun
  {
    if events != [] {
      var m := |events| - 1;
      HeadStillUnset(l, mode, bucketTimeoutMs, holTimeoutMs, events[..m]);
      var y := After(l, mode, Start(bucketTimeoutMs, holTimeoutMs), events[..m]);
      assert events[m] in events;
      UnpackTouches(y.s, PacketOf(l, events[m].frame, events[m].position), l.source, events[m].now);
    }
  }

  lemma GoInARow(l: Link, mode: Mode, y: System, base: u64, k: nat, n: nat, now: int)
    requires Inv(y.s) && SoundSoFar(l, y) && y.delivered == [] && y.s.holFirstRun
    requires InARow(y.s, base, n) && n >= 2 && forall key :: key in y.s.bucketMap ==> Owner(y, key) == k + (key - base)
    ensures var y' := Step(l, mode, y, Tick(now));
            && y'.s.bucketMap.Keys == {} && |y'.delivered| == n
            && forall j :: 0 <= j < n ==> Intact(l, y'.delivered[j], k + j)
  {
    PassInARow(y.s, mode, base, n, now);
    RowIntact(l, y, base, k, n);
    var y' := Step(l, mode, y, Tick(now));
    assert y'.delivered == Deliveries(y.s, Sorted(y.s.bucketMap.Keys));
  }

  lemma RowIntact(l: Link, y: System, base: u64, k: nat, n: nat)
    requires Inv(y.s) && SoundSoFar(l, y) && InARow(y.s, base, n)
    requires forall key :: key in y.s.bucketMap ==> Owner(y, key) == k + (key - base)
    ensures var keys := Sorted(y.s.bucketMap.Keys);
            && Lists(y.s, keys) && |Deliveries(y.s, keys)| == n
            && forall j :: 0 <= j < n ==> Intact(l, Deliveries(y.s, keys)[j], k + j)
  {
    SortedRow(y.s, base, n);
    var keys := Sorted(y.s.bucketMap.Keys);
    forall j | 0 <= j < n ensures Intact(l, Deliveries(y.s, keys)[j], k + j) {
      assert keys[j] in keys;
      IntactUnder(l, y, keys[j]);
    }
  }

  lemma IntactUnder(l: Link, y: System, key: u64)
    requires Inv(y.s) && SoundSoFar(l, y) && key in y.s.bucketMap && Complete(At(y.s, key))
    ensures Intact(l, Assemble(At(y.s, key)), Owner(y, key))
  {
    DeliverySound(l, y, key);
  }
}
