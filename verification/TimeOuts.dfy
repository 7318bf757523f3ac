/** Time-outs in numbers: how long after its first fragment a superframe is held, over any run. The settings are
    in milliseconds, the clock in microseconds. */
module TimeOuts {
  import opened Wire
  import opened Buckets
  import opened Receiving
  import opened Delivery
  import opened Channel

  /** Milliseconds in microseconds, as far as 32 bits go: longer times wrap. */
  lemma Microseconds(ms: u32)
    ensures Micros(ms) == 1000 * ms % 0x1_0000_0000
    ensures Micros(ms) == 1000 * ms <==> ms <= 4294967
  {
  }

  /** A bucket in use times out a fixed time after it was opened, whatever arrived since. */
  ghost predicate Timed(y: System, i: nat)
    requires Inv(y.s) && i < BUCKETS
  {
    y.s.buckets[i].active ==>
      i in y.openedAt && y.s.buckets[i].timeout == y.openedAt[i] + Micros(y.s.bucketTimeoutMs)
  }

  ghost predicate AllTimed(y: System)
    requires Inv(y.s)
  {
    forall i :: 0 <= i < BUCKETS ==> Timed(y, i)
  }

  lemma ArriveTimes(l: Link, mode: Mode, y: System, e: Event)
    requires Inv(y.s) && Legal(l, e) && e.Arrive? && Timed(y, Slot0(l, e.frame))
    ensures Timed(Step(l, mode, y, e), Slot0(l, e.frame))
  {
    var p := PacketOf(l, e.frame, e.position);
    UnpackTouches(y.s, p, l.source, e.now);
    if Answer(l, y, e).NoError? {
      AcceptedAdds(y.s, p, l.source, e.now);
    } else {
      RefusedChanges(y.s, p, l.source, e.now);
    }
  }

  lemma StepTimes(l: Link, mode: Mode, y: System, e: Event)
    requires Inv(y.s) && Legal(l, e) && AllTimed(y)
    ensures AllTimed(Step(l, mode, y, e))
    ensures Step(l, mode, y, e).s.bucketTimeoutMs == y.s.bucketTimeoutMs
    ensures Step(l, mode, y, e).s.holTimeoutMs == y.s.holTimeoutMs
  {
    forall i | 0 <= i < BUCKETS ensures Timed(Step(l, mode, y, e), i) {
      assert Timed(y, i);
      if e.Tick? {
        PassContract(y.s, mode, e.now);
      } else if i == Slot0(l, e.frame) {
        ArriveTimes(l, mode, y, e);
      } else {
        UnpackTouches(y.s, PacketOf(l, e.frame, e.position), l.source, e.now);
      }
    }
    if e.Tick? {
      PassContract(y.s, mode, e.now);
    } else {
      UnpackTouches(y.s, PacketOf(l, e.frame, e.position), l.source, e.now);
    }
  }

  lemma {:induction false} RunTimes(l: Link, mode: Mode, bucketTimeoutMs: u32, holTimeoutMs: u32, events: seq<Event>)
    requires forall e :: e in events ==> Legal(l, e)
    ensures var y := After(l, mode, Start(bucketTimeoutMs, holTimeoutMs), events);
            AllTimed(y) && y.s.bucketTimeoutMs == bucketTimeoutMs && y.s.holTimeoutMs == holTimeoutMs
  {
    if events != [] {
      var n := |events| - 1;
      RunTimes(l, mode, bucketTimeoutMs, holTimeoutMs, events[..n]);
      StepTimes(l, mode, After(l, mode, Start(bucketTimeoutMs, holTimeoutMs), events[..n]), events[n]);
    }
  }

  /** When the bucket under a key was opened. */
  ghost function OpenedAt(y: System, key: u64): int {
    if key % 8192 in y.openedAt then y.openedAt[key % 8192] else 0
  }

  lemma TimedOutAt(y: System, key: u64)
    requires Inv(y.s) && AllTimed(y) && key in y.s.bucketMap
    ensures At(y.s, key).timeout == OpenedAt(y, key) + Micros(y.s.bucketTimeoutMs)
  {
    assert Points(y.s, key) && Timed(y, key % BUCKETS);
  }

  // ---------------------------------------------------------------------------------------
  // One pass

  /** What a pass hands out is what the scan selects, if there is one. */
  lemma PassIsScan(s: State, mode: Mode, now: int) returns (s1: State, keys: seq<u64>)
    requires Inv(s)
    ensures Inv(s1) && s1.buckets == s.buckets && s1.bucketMap == s.bucketMap && s1.holTimeoutMs == s.holTimeoutMs
    ensures keys == Pass(s, mode, now).1 && Lists(s, keys)
    ensures keys == if Settled(s, mode, now).Some? then Scan(s1, now).keys else []
  {
    PassContract(s, mode, now);
    keys := Pass(s, mode, now).1;
    s1 := s;
    if Settled(s, mode, now).Some? {
      SettledInv(s, mode, now);
      s1 := Settled(s, mode, now).value;
    }
  }

  /** A scan selects an incomplete bucket only when it has timed out. */
  lemma ScanWaits(s: State, now: int, key: u64)
    requires Inv(s) && key in Scan(s, now).keys
    ensures key in s.bucketMap
    ensures Complete(At(s, key)) || At(s, key).timeout + Micros(s.holTimeoutMs) <= now
  {
    SortedIsAscending(s.bucketMap.Keys);
    var held := Sorted(s.bucketMap.Keys);
    if HolMode(s) {
      ScanHolPrefix(s, held, s.nextExpected, now);
      var j :| 0 <= j < |Scan(s, now).keys| && Scan(s, now).keys[j] == key;
      assert Unblocked(s, held, s.nextExpected, now, j) && held[j] == key;
    } else {
      ScanFreeSelects(s, held, now);
    }
  }

  lemma IncompleteIsLate(s: State, mode: Mode, now: int, key: u64)
    requires Inv(s) && key in Pass(s, mode, now).1
    ensures key in s.bucketMap
    ensures Complete(At(s, key)) || At(s, key).timeout + Micros(s.holTimeoutMs) <= now
  {
    var s1, keys := PassIsScan(s, mode, now);
    ScanWaits(s1, now, key);
    assert At(s1, key) == At(s, key);
  }

  /** The bucket under the key has timed out, and in head-of-line mode so have all under lower keys. */
  ghost predicate LateUpTo(s: State, key: u64, now: int)
    requires Inv(s)
  {
    forall k :: k in s.bucketMap && (if HolMode(s) then k <= key else k == key) ==>
      At(s, k).timeout + Micros(s.holTimeoutMs) <= now
  }

  lemma ScanTakes(s: State, now: int, key: u64)
    requires Inv(s) && key in s.bucketMap && LateUpTo(s, key, now)
    ensures key in Scan(s, now).keys
  {
    SortedIsAscending(s.bucketMap.Keys);
    var held := Sorted(s.bucketMap.Keys);
    if HolMode(s) {
      var j :| 0 <= j < |held| && held[j] == key;
      forall i | 0 <= i <= j ensures Expired(At(s, held[i]), Micros(s.holTimeoutMs), now) {
        assert held[i] in held && held[i] <= key;
      }
      HolTakes(s, held, now, j);
    } else {
      ScanFreeSelects(s, held, now);
    }
  }

  lemma HolTakes(s: State, held: seq<u64>, now: int, j: nat)
    requires Lists(s, held) && Ascending(held) && j < |held|
    requires forall i :: 0 <= i <= j ==> Expired(At(s, held[i]), Micros(s.holTimeoutMs), now)
    ensures held[j] in ScanHol(s, held, s.nextExpected, now).keys
  {
    ScanHolPrefix(s, held, s.nextExpected, now);
    var keys := ScanHol(s, held, s.nextExpected, now).keys;
    assert |keys| > j;
    assert keys[j] == held[j];
  }

  lemma LateGoesOut(s: State, mode: Mode, now: int, key: u64)
    requires Inv(s) && key in s.bucketMap && LateUpTo(s, key, now)
    ensures key in Pass(s, mode, now).1
  {
    assert Expired(At(s, key), 0, now);
    var s1, keys := PassIsScan(s, mode, now);
    forall k | k in s.bucketMap ensures At(s1, k) == At(s, k) {
    }
    ScanTakes(s1, now, key);
  }

  // ---------------------------------------------------------------------------------------
  // Over whole runs

  /** Over any run and in both modes, a superframe is delivered incomplete only once its time-out, and in
      head-of-line mode the head-of-line time-out after that, have passed since its bucket was opened. */
  lemma HeldUntilDue(l: Link, mode: Mode, bucketTimeoutMs: u32, holTimeoutMs: u32, events: seq<Event>, now: int, m: nat)
    requires forall e :: e in events ==> Legal(l, e)
    requires m < |Pass(After(l, mode, Start(bucketTimeoutMs, holTimeoutMs), events).s, mode, now).1|
    ensures var y := After(l, mode, Start(bucketTimeoutMs, holTimeoutMs), events);
            var keys := Pass(y.s, mode, now).1;
            Lists(y.s, keys)
            && (Deliveries(y.s, keys)[m].broken ==>
                  OpenedAt(y, keys[m]) + 1000 * bucketTimeoutMs % 0x1_0000_0000 + 1000 * holTimeoutMs % 0x1_0000_0000
                    <= now)
  {
    var y := After(l, mode, Start(bucketTimeoutMs, holTimeoutMs), events);
    RunTimes(l, mode, bucketTimeoutMs, holTimeoutMs, events);
    Microseconds(bucketTimeoutMs);
    Microseconds(holTimeoutMs);
    DeliveredLate(y, mode, now, m);
  }

  lemma DeliveredLate(y: System, mode: Mode, now: int, m: nat)
    requires Inv(y.s) && AllTimed(y) && m < |Pass(y.s, mode, now).1|
    ensures var keys := Pass(y.s, mode, now).1;
            Lists(y.s, keys)
            && (Deliveries(y.s, keys)[m].broken ==>
                  OpenedAt(y, keys[m]) + Micros(y.s.bucketTimeoutMs) + Micros(y.s.holTimeoutMs) <= now)
  {
    var s1, keys := PassIsScan(y.s, mode, now);
    assert keys[m] in keys;
    IncompleteIsLate(y.s, mode, now, keys[m]);
    TimedOutAt(y, keys[m]);
  }

  /** So below 4294968 milliseconds, where nothing wraps: no pass hands it out incomplete any earlier. */
  lemma NotBefore(l: Link, mode: Mode, bucketTimeoutMs: u32, holTimeoutMs: u32, events: seq<Event>, now: int, m: nat)
    requires forall e :: e in events ==> Legal(l, e)
    requires m < |Pass(After(l, mode, Start(bucketTimeoutMs, holTimeoutMs), events).s, mode, now).1|
    requires bucketTimeoutMs < 4294968 && holTimeoutMs < 4294968
    ensures var y := After(l, mode, Start(bucketTimeoutMs, holTimeoutMs), events);
            var keys := Pass(y.s, mode, now).1;
            Lists(y.s, keys)
            && (now < OpenedAt(y, keys[m]) + 1000 * bucketTimeoutMs + 1000 * holTimeoutMs ==>
                  !Deliveries(y.s, keys)[m].broken)
  {
    HeldUntilDue(l, mode, bucketTimeoutMs, holTimeoutMs, events, now, m);
    Microseconds(bucketTimeoutMs);
    Microseconds(holTimeoutMs);
  }

  /** And over any run, the next pass hands out what is due, complete or not: without head-of-line
      blocking every bucket that is due, in head-of-line mode every one that is due together with all
      lower orders. */
  lemma NotAfter(l: Link, mode: Mode, bucketTimeoutMs: u32, holTimeoutMs: u32, events: seq<Event>, now: int, key: u64)
    requires forall e :: e in events ==> Legal(l, e)
    requires key in After(l, mode, Start(bucketTimeoutMs, holTimeoutMs), events).s.bucketMap
    requires bucketTimeoutMs < 4294968 && holTimeoutMs < 4294968
    requires var y := After(l, mode, Start(bucketTimeoutMs, holTimeoutMs), events);
             forall k :: k in y.s.bucketMap && (if holTimeoutMs == 0 then k == key else k <= key) ==>
               OpenedAt(y, k) + 1000 * bucketTimeoutMs + 1000 * holTimeoutMs <= now
    ensures key in Pass(After(l, mode, Start(bucketTimeoutMs, holTimeoutMs), events).s, mode, now).1
  {
    var y := After(l, mode, Start(bucketTimeoutMs, holTimeoutMs), events);
    RunTimes(l, mode, bucketTimeoutMs, holTimeoutMs, events);
    Microseconds(bucketTimeoutMs);
    Microseconds(holTimeoutMs);
    forall k | k in y.s.bucketMap && (if holTimeoutMs == 0 then k == key else k <= key)
      ensures At(y.s, k).timeout + Micros(y.s.holTimeoutMs) <= now
    {
      TimedOutAt(y, k);
    }
    LateGoesOut(y.s, mode, now, key);
  }

  /** Without head-of-line blocking, exactly: what a pass hands out has all fragments or is due. */
  lemma GoesOutIff(l: Link, mode: Mode, bucketTimeoutMs: u32, events: seq<Event>, now: int, key: u64)
    requires forall e :: e in events ==> Legal(l, e)
    requires bucketTimeoutMs < 4294968
    requires key in After(l, mode, Start(bucketTimeoutMs, 0), events).s.bucketMap
    ensures var y := After(l, mode, Start(bucketTimeoutMs, 0), events);
            key in Pass(y.s, mode, now).1 <==>
            At(y.s, key).received == Positions(At(y.s, key).ofNo) || OpenedAt(y, key) + 1000 * bucketTimeoutMs <= now
  {
    var y := After(l, mode, Start(bucketTimeoutMs, 0), events);
    RunTimes(l, mode, bucketTimeoutMs, 0, events);
    Microseconds(bucketTimeoutMs);
    TimedOutAt(y, key);
    FreeGoesOutIff(y.s, mode, now, key);
  }

  lemma FreeGoesOutIff(s: State, mode: Mode, now: int, key: u64)
    requires Inv(s) && s.holTimeoutMs == 0 && key in s.bucketMap
    ensures key in Pass(s, mode, now).1 <==>
            At(s, key).received == Positions(At(s, key).ofNo) || At(s, key).timeout <= now
  {
    FreePassContract(s, mode, now);
    assert Points(s, key) && Filed(s, key % BUCKETS);
    CompleteIffAll(At(s, key));
  }

  // ---------------------------------------------------------------------------------------
  // In head-of-line mode, exactly

  /** The held superframe of order k need not wait for others: it has timed out for good, or has all its
      fragments and either follows the held one of the order just below or, being the least, is the one expected. */
  ghost predicate NeedNotWait(s: State, k: u64, now: int)
    requires Inv(s) && k in s.bucketMap
  {
    || At(s, k).timeout + 1000 * s.holTimeoutMs % 0x1_0000_0000 <= now
    || (At(s, k).received == Positions(At(s, k).ofNo)
        && if exists lower :: lower in s.bucketMap && lower < k then k > 0 && k - 1 in s.bucketMap
           else k == s.nextExpected)
  }

  lemma UnblockedIff(s: State, held: seq<u64>, now: int, j: nat)
    requires Lists(s, held) && Ascending(held) && (forall k :: k in s.bucketMap ==> k in held) && j < |held|
    ensures Unblocked(s, held, s.nextExpected, now, j) <==> NeedNotWait(s, held[j], now)
  {
    var k := held[j];
    Microseconds(s.holTimeoutMs);
    assert k in held && Points(s, k) && Filed(s, k % BUCKETS);
    CompleteIffAll(At(s, k));
    FollowsIff(s, held, j);
  }

  lemma FollowsIff(s: State, held: seq<u64>, j: nat)
    requires Lists(s, held) && Ascending(held) && (forall k :: k in s.bucketMap ==> k in held) && j < |held|
    ensures (exists lower :: lower in s.bucketMap && lower < held[j]) <==> j > 0
    ensures j > 0 ==> (Next64(held[j - 1]) == held[j] <==> held[j] > 0 && held[j] - 1 in s.bucketMap)
  {
    var k := held[j];
    forall lower | lower in s.bucketMap ensures held[0] <= lower {
      var m := PlaceOf(held, lower);
      InOrder(held, 0, m);
    }
    if j > 0 {
      InOrder(held, j - 1, j);
      assert held[j - 1] in held;
      if k > 0 && k - 1 in s.bucketMap {
        var m := PlaceOf(held, k - 1);
        if j <= m {
          InOrder(held, j, m);
        }
        InOrder(held, m, j - 1);
      }
    }
  }

  lemma PlaceOf(held: seq<u64>, k: u64) returns (m: nat)
    requires k in held
    ensures m < |held| && held[m] == k
  {
    m :| 0 <= m < |held| && held[m] == k;
  }

  lemma InOrder(held: seq<u64>, a: nat, b: nat)
    requires Ascending(held) && a <= b < |held|
    ensures held[a] <= held[b] && (a < b ==> held[a] < held[b])
  {
  }

  /** Once the head is set, a pass hands out a held superframe if and only if it and all held ones of lower
      orders need not wait. */
  lemma HolGoesOutIff(s: State, mode: Mode, now: int, key: u64)
    requires Inv(s) && s.holTimeoutMs != 0 && !s.holFirstRun && key in s.bucketMap
    ensures key in Pass(s, mode, now).1 <==> forall k :: k in s.bucketMap && k <= key ==> NeedNotWait(s, k, now)
  {
    HolPassContract(s, mode, now);
    SortedIsAscending(s.bucketMap.Keys);
    var held := Sorted(s.bucketMap.Keys);
    var keys := Pass(s, mode, now).1;
    var j :| 0 <= j < |held| && held[j] == key;
    if j < |keys| {
      assert keys[j] == key;
      forall k | k in s.bucketMap && k <= key ensures NeedNotWait(s, k, now) {
        var i :| 0 <= i < |held| && held[i] == k;
        assert i <= j;
        UnblockedIff(s, held, now, i);
      }
    } else {
      BlockedByOne(s, mode, now, held, j);
    }
  }

  lemma BlockedByOne(s: State, mode: Mode, now: int, held: seq<u64>, j: nat)
    requires Inv(s) && s.holTimeoutMs != 0 && !s.holFirstRun && held == Sorted(s.bucketMap.Keys)
    requires |Pass(s, mode, now).1| <= j < |held|
    ensures held[j] !in Pass(s, mode, now).1
    ensures exists k :: k in s.bucketMap && k <= held[j] && !NeedNotWait(s, k, now)
  {
    var m := |Pass(s, mode, now).1|;
    BlockedAt(s, mode, now, held);
    SortedIsAscending(s.bucketMap.Keys);
    InOrder(held, m, j);
    assert held[m] in held && held[m] <= held[j];
    NotInPrefix(Pass(s, mode, now).1, held, j);
  }

  lemma BlockedAt(s: State, mode: Mode, now: int, held: seq<u64>)
    requires Inv(s) && s.holTimeoutMs != 0 && !s.holFirstRun && held == Sorted(s.bucketMap.Keys)
    requires |Pass(s, mode, now).1| < |held|
    ensures Pass(s, mode, now).1 <= held
    ensures var k := held[|Pass(s, mode, now).1|]; k in s.bucketMap && !NeedNotWait(s, k, now)
  {
    HolPassContract(s, mode, now);
    SortedIsAscending(s.bucketMap.Keys);
    UnblockedIff(s, held, now, |Pass(s, mode, now).1|);
  }

  lemma NotInPrefix(keys: seq<u64>, held: seq<u64>, j: nat)
    requires Ascending(held) && keys <= held && |keys| <= j < |held|
    ensures held[j] !in keys
  {
    forall i | 0 <= i < |keys| ensures keys[i] != held[j] {
      assert keys[i] == held[i];
      InOrder(held, i, j);
    }
  }
}
