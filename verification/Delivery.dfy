/** The delivery pass: which buckets are handed to the host, in what order, and what is left. */
module Delivery {
  import opened Wire
  import opened Buckets
  import opened Receiving

  // ---------------------------------------------------------------------------------------
  // Map order

  predicate Ascending(keys: seq<u64>) {
    forall i, j :: 0 <= i < j < |keys| ==> keys[i] < keys[j]
  }

  predicate IsLeast(k: u64, keys: set<u64>) {
    k in keys && forall l :: l in keys ==> k <= l
  }

  lemma {:induction false} LeastExists(keys: set<u64>)
    requires keys != {}
    ensures exists k :: IsLeast(k, keys)
  {
    var k :| k in keys;
    if keys == {k} {
      assert IsLeast(k, keys);
    } else {
      LeastExists(keys - {k});
      var m :| IsLeast(m, keys - {k});
      var least := if k < m then k else m;
      forall l | l in keys ensures least <= l {
        assert l == k || l in keys - {k};
      }
      assert IsLeast(least, keys);
    }
  }

  function Least(keys: set<u64>): (k: u64)
    requires keys != {}
    ensures IsLeast(k, keys)
  {
    LeastExists(keys);
    var k :| IsLeast(k, keys);
    k
  }

  /** The keys in the order in which the map is iterated. */
  function Sorted(keys: set<u64>): seq<u64> {
    if keys == {} then [] else [Least(keys)] + Sorted(keys - {Least(keys)})
  }

  lemma {:induction false} SortedIsAscending(keys: set<u64>)
    ensures Ascending(Sorted(keys)) && |Sorted(keys)| == |keys|
    ensures forall k :: k in Sorted(keys) <==> k in keys
  {
    if keys != {} {
      var k := Least(keys);
      var rest := Sorted(keys - {k});
      SortedIsAscending(keys - {k});
      forall i | 0 <= i < |rest| ensures k < rest[i] {
        assert rest[i] in rest;
      }
    }
  }

  // ---------------------------------------------------------------------------------------
  // What the host gets

  datatype Delivery = Delivery(frameSize: nat, data: seq<Slot>, content: byte, broken: bool, pts: u64, dts: u64,
                               code: u32, stream: byte, source: byte, flags: byte, superFrameNo: u16)

  function Assemble(b: Bucket): Delivery
    requires b.frame.Some?
  {
    Delivery(b.frame.value.frameSize, b.frame.value.data, b.content, b.counter != b.ofNo, b.pts, b.dts, b.code,
             b.stream, b.source, b.flags, b.savedNo)
  }

  ghost predicate Lists(s: State, keys: seq<u64>) {
    Inv(s) && forall k :: k in keys ==> k in s.bucketMap
  }

  /** The bucket a map entry points at. */
  function At(s: State, k: u64): (b: Bucket)
    requires Inv(s) && k in s.bucketMap
    ensures b.active && b.order == k && b.frame.Some?
  {
    assert Points(s, k);
    assert Filed(s, k % BUCKETS);
    s.buckets[s.bucketMap[k]]
  }

  function Deliveries(s: State, keys: seq<u64>): (ds: seq<Delivery>)
    requires Lists(s, keys)
    ensures |ds| == |keys|
  {
    seq(|keys|, j requires 0 <= j < |keys| => Assemble(At(s, keys[j])))
  }

  // ---------------------------------------------------------------------------------------
  // The pass

  datatype Mode = Threaded | RunToCompletion

  predicate Expired(b: Bucket, allowance: nat, now: int) {
    b.timeout + allowance <= now
  }

  datatype Scanned = Scanned(keys: seq<u64>, next: u64)

  /** Head-of-line mode: deliver until a bucket is neither the expected complete one nor timed out. */
  function ScanHol(s: State, keys: seq<u64>, next: u64, now: int): Scanned
    requires Lists(s, keys)
  {
    if keys == [] then Scanned([], next)
    else
      var b := At(s, keys[0]);
      if b.order == next && Complete(b) then
        var rest := ScanHol(s, keys[1..], Next64(next), now);
        Scanned([keys[0]] + rest.keys, rest.next)
      else if Expired(b, Micros(s.holTimeoutMs), now) then
        var rest := ScanHol(s, keys[1..], Next64(b.order), now);
        Scanned([keys[0]] + rest.keys, rest.next)
      else Scanned([], next)
  }

  /** Without head-of-line blocking: deliver whatever is complete or timed out. */
  function ScanFree(s: State, keys: seq<u64>, now: int): seq<u64>
    requires Lists(s, keys)
  {
    if keys == [] then []
    else
      var b := At(s, keys[0]);
      if Expired(b, 0, now) || Complete(b) then [keys[0]] + ScanFree(s, keys[1..], now)
      else ScanFree(s, keys[1..], now)
  }

  predicate HolMode(s: State) {
    s.holTimeoutMs != 0
  }

  predicate SomeTimedOut(s: State, now: int)
    requires Inv(s)
  {
    exists k :: k in s.bucketMap.Keys && Expired(At(s, k), 0, now)
  }

  /** The first pass in head-of-line mode sets the head: at once when run to completion, and in the
      worker thread once two superframes are held or one has timed out. */
  predicate HeadSettles(s: State, mode: Mode, now: int)
    requires Inv(s)
  {
    s.bucketMap.Keys != {}
    && (mode.RunToCompletion? || |s.bucketMap.Keys| > 1 || SomeTimedOut(s, now))
  }

  /** The state in which the buckets are looked at, if they are. */
  function Settled(s: State, mode: Mode, now: int): Option<State>
    requires Inv(s)
  {
    if !HolMode(s) || !s.holFirstRun then Some(s)
    else if HeadSettles(s, mode, now) then
      Some(s.(holFirstRun := false, nextExpected := At(s, Least(s.bucketMap.Keys)).order))
    else None
  }

  lemma SettledInv(s: State, mode: Mode, now: int)
    requires Inv(s) && Settled(s, mode, now).Some?
    ensures var s1 := Settled(s, mode, now).value;
            && Inv(s1) && s1.bucketMap == s.bucketMap && s1.buckets == s.buckets
            && s1.holTimeoutMs == s.holTimeoutMs && (HolMode(s) ==> !s1.holFirstRun)
  {
    var s1 := Settled(s, mode, now).value;
    forall i | 0 <= i < BUCKETS ensures Filed(s1, i) {
      assert Filed(s, i);
    }
    forall k: u64 ensures Points(s1, k) {
      assert Points(s, k);
    }
  }

  function Scan(s: State, now: int): Scanned
    requires Inv(s)
  {
    SortedIsAscending(s.bucketMap.Keys);
    var keys := Sorted(s.bucketMap.Keys);
    if HolMode(s) then ScanHol(s, keys, s.nextExpected, now)
    else Scanned(ScanFree(s, keys, now), s.nextExpected)
  }

  /** Delivered buckets leave the map, give up their buffer and become free. */
  function Close(s: State, keys: seq<u64>): State {
    s.(bucketMap := map k | k in s.bucketMap && k !in keys :: s.bucketMap[k],
       buckets := seq(|s.buckets|, i requires 0 <= i < |s.buckets| =>
                        if s.buckets[i].active && s.buckets[i].order in keys
                        then s.buckets[i].(active := false, frame := None) else s.buckets[i]))
  }

  /** One pass: the new state and the delivered orders. */
  function Pass(s: State, mode: Mode, now: int): (State, seq<u64>)
    requires Inv(s)
  {
    match Settled(s, mode, now)
    case None => (s, [])
    case Some(s1) =>
      SettledInv(s, mode, now);
      var scanned := Scan(s1, now);
      (Close(s1.(nextExpected := scanned.next), scanned.keys), scanned.keys)
  }

  // ---------------------------------------------------------------------------------------
  // Contract of a scan

  lemma {:induction false} ScanFreeSelects(s: State, keys: seq<u64>, now: int)
    requires Lists(s, keys) && Ascending(keys)
    ensures Ascending(ScanFree(s, keys, now))
    ensures forall k :: k in ScanFree(s, keys, now) <==>
                        k in keys && (Expired(At(s, k), 0, now) || Complete(At(s, k)))
  {
    if keys != [] {
      ScanFreeSelects(s, keys[1..], now);
      var rest := ScanFree(s, keys[1..], now);
      forall j | 0 <= j < |rest| ensures keys[0] < rest[j] {
        assert rest[j] in keys[1..];
      }
      assert forall k :: k in keys <==> k == keys[0] || k in keys[1..];
    }
  }

  /** The order expected when the j-th key is looked at. */
  function NextAt(keys: seq<u64>, next: u64, j: nat): u64
    requires j <= |keys|
  {
    if j == 0 then next else Next64(keys[j - 1])
  }

  ghost predicate Unblocked(s: State, keys: seq<u64>, next: u64, now: int, j: nat)
    requires Lists(s, keys) && j < |keys|
  {
    (keys[j] == NextAt(keys, next, j) && Complete(At(s, keys[j])))
    || Expired(At(s, keys[j]), Micros(s.holTimeoutMs), now)
  }

  /** A head-of-line scan delivers the longest prefix of unblocked buckets. */
  lemma {:induction false} ScanHolPrefix(s: State, keys: seq<u64>, next: u64, now: int)
    requires Lists(s, keys)
    ensures var r := ScanHol(s, keys, next, now);
            && r.keys <= keys
            && r.next == NextAt(keys, next, |r.keys|)
            && (forall j :: 0 <= j < |r.keys| ==> Unblocked(s, keys, next, now, j))
            && (|r.keys| < |keys| ==> !Unblocked(s, keys, next, now, |r.keys|))
  {
    if keys != [] {
      var r := ScanHol(s, keys, next, now);
      if Unblocked(s, keys, next, now, 0) {
        var next' := Next64(keys[0]);
        ScanHolPrefix(s, keys[1..], next', now);
        var r' := ScanHol(s, keys[1..], next', now);
        assert r.keys == [keys[0]] + r'.keys && r.next == r'.next;
        forall j | 0 <= j < |keys| - 1
          ensures Unblocked(s, keys, next, now, j + 1) == Unblocked(s, keys[1..], next', now, j)
        {
          assert keys[1..][j] == keys[j + 1];
        }
        forall j | 0 <= j < |r.keys| ensures Unblocked(s, keys, next, now, j) {
          if j > 0 {
            assert Unblocked(s, keys[1..], next', now, j - 1);
          }
        }
      }
    }
  }

  lemma ScanSubset(s: State, now: int)
    requires Inv(s)
    ensures Ascending(Scan(s, now).keys)
    ensures forall k :: k in Scan(s, now).keys ==> k in s.bucketMap
  {
    var keys := Sorted(s.bucketMap.Keys);
    SortedIsAscending(s.bucketMap.Keys);
    if HolMode(s) {
      ScanHolPrefix(s, keys, s.nextExpected, now);
      PrefixAscending(Scan(s, now).keys, keys);
    } else {
      ScanFreeSelects(s, keys, now);
    }
  }

  lemma PrefixAscending(a: seq<u64>, b: seq<u64>)
    requires Ascending(b) && a <= b
    ensures Ascending(a) && forall k :: k in a ==> k in b
  {
    assert forall i :: 0 <= i < |a| ==> a[i] == b[i];
  }

  // ---------------------------------------------------------------------------------------
  // Contract of a pass

  lemma CloseKeepsInv(s: State, keys: seq<u64>)
    requires Inv(s)
    ensures Inv(Close(s, keys))
  {
    var s' := Close(s, keys);
    forall i | 0 <= i < BUCKETS ensures Filed(s', i) {
      assert Filed(s, i);
    }
    forall k: u64 ensures Points(s', k) {
      assert Points(s, k);
    }
  }

  /** A pass keeps the map and the bucket array consistent. It delivers buckets that were held, each
      once, in ascending order; exactly those leave the map and become free; all others are untouched. */
  lemma PassContract(s: State, mode: Mode, now: int)
    requires Inv(s)
    ensures var (s', keys) := Pass(s, mode, now);
            && Inv(s')
            && Ascending(keys)
            && Lists(s, keys)
            && s'.bucketMap.Keys == s.bucketMap.Keys - (set k | k in keys)
            && (forall i :: 0 <= i < BUCKETS ==>
                  s'.buckets[i] == if s.buckets[i].active && s.buckets[i].order in keys
                                   then s.buckets[i].(active := false, frame := None)
                                   else s.buckets[i])
            && s'.streams == s.streams && s'.unwrapper == s.unwrapper
            && s'.bucketTimeoutMs == s.bucketTimeoutMs && s'.holTimeoutMs == s.holTimeoutMs
  {
    var settled := Settled(s, mode, now);
    if settled.Some? {
      SettledInv(s, mode, now);
      var s1 := settled.value;
      ScanSubset(s1, now);
      var scanned := Scan(s1, now);
      NextIrrelevant(s1, scanned.next);
      CloseContract(s1.(nextExpected := scanned.next), scanned.keys);
    }
  }

  lemma CloseContract(s: State, keys: seq<u64>)
    requires Inv(s)
    ensures var s' := Close(s, keys);
            && Inv(s')
            && s'.bucketMap.Keys == s.bucketMap.Keys - (set k | k in keys)
            && (forall i :: 0 <= i < BUCKETS ==>
                  s'.buckets[i] == if s.buckets[i].active && s.buckets[i].order in keys
                                   then s.buckets[i].(active := false, frame := None)
                                   else s.buckets[i])
  {
    CloseKeepsInv(s, keys);
  }

  lemma NextIrrelevant(s: State, next: u64)
    requires Inv(s)
    ensures Inv(s.(nextExpected := next))
  {
    var s' := s.(nextExpected := next);
    forall i | 0 <= i < BUCKETS ensures Filed(s', i) {
      assert Filed(s, i);
    }
    forall k: u64 ensures Points(s', k) {
      assert Points(s, k);
    }
  }

  /** Without head-of-line blocking exactly the complete and the timed-out buckets are delivered,
      so none of either kind remains. */
  lemma FreePassContract(s: State, mode: Mode, now: int)
    requires Inv(s) && !HolMode(s)
    ensures var (s', keys) := Pass(s, mode, now);
            && Inv(s')
            && (forall k :: k in keys <==>
                  k in s.bucketMap && (At(s, k).timeout <= now || Complete(At(s, k))))
            && (forall k :: k in s'.bucketMap ==> now < At(s', k).timeout && !Complete(At(s', k)))
  {
    PassContract(s, mode, now);
    SortedIsAscending(s.bucketMap.Keys);
    ScanFreeSelects(s, Sorted(s.bucketMap.Keys), now);
    var (s', keys) := Pass(s, mode, now);
    forall k | k in s'.bucketMap ensures At(s', k) == At(s, k) {
      assert Points(s', k) && Points(s, k);
    }
  }

  /** With head-of-line blocking, once the head is set, the delivered orders are the longest prefix
      of the held ones in which each is the expected complete one or timed out. What is expected
      next follows the last one delivered, and the first bucket left behind is blocked. */
  lemma HolPassContract(s: State, mode: Mode, now: int)
    requires Inv(s) && HolMode(s) && !s.holFirstRun
    ensures var (s', keys) := Pass(s, mode, now);
            var held := Sorted(s.bucketMap.Keys);
            && Lists(s, held) && Ascending(held)
            && keys <= held
            && s'.nextExpected == NextAt(held, s.nextExpected, |keys|)
            && (forall j :: 0 <= j < |keys| ==> Unblocked(s, held, s.nextExpected, now, j))
            && (|keys| < |held| ==> !Unblocked(s, held, s.nextExpected, now, |keys|))
  {
    SortedIsAscending(s.bucketMap.Keys);
    ScanHolPrefix(s, Sorted(s.bucketMap.Keys), s.nextExpected, now);
  }

  /** Once the head is set, or without head-of-line blocking, the worker thread's pass and the
      run-to-completion pass do the same. */
  lemma ModesAgree(s: State, now: int)
    requires Inv(s) && (!HolMode(s) || !s.holFirstRun)
    ensures Pass(s, Threaded, now) == Pass(s, RunToCompletion, now)
  {
  }

  /** Nothing is held for ever: a pass at or after every held bucket's time-out plus the
      head-of-line allowance empties the map, the first pass included. */
  lemma NoPermanentBlocking(s: State, mode: Mode, now: int)
    requires Inv(s)
    requires forall k :: k in s.bucketMap ==> At(s, k).timeout + 1000 * s.holTimeoutMs % 0x1_0000_0000 <= now
    ensures Pass(s, mode, now).0.bucketMap.Keys == {}
    ensures Pass(s, mode, now).1 == Sorted(s.bucketMap.Keys)
  {
    assert Micros(s.holTimeoutMs) == 1000 * s.holTimeoutMs % 0x1_0000_0000;
    forall k | k in s.bucketMap ensures Expired(At(s, k), if HolMode(s) then Micros(s.holTimeoutMs) else 0, now) {
    }
    LateOnesGo(s, mode, now);
  }

  lemma LateOnesGo(s: State, mode: Mode, now: int)
    requires Inv(s)
    requires forall k :: k in s.bucketMap ==> Expired(At(s, k), if HolMode(s) then Micros(s.holTimeoutMs) else 0, now)
    ensures Pass(s, mode, now).0.bucketMap.Keys == {}
    ensures Pass(s, mode, now).1 == Sorted(s.bucketMap.Keys)
  {
    PassContract(s, mode, now);
    SortedIsAscending(s.bucketMap.Keys);
    if s.bucketMap.Keys != {} {
      assert Expired(At(s, Least(s.bucketMap.Keys)), 0, now);
      SettledInv(s, mode, now);
      AllScanned(Settled(s, mode, now).value, now);
    }
    var (s', keys) := Pass(s, mode, now);
    assert s'.bucketMap.Keys == {};
  }

  lemma AllScanned(s: State, now: int)
    requires Inv(s)
    requires forall k :: k in s.bucketMap ==> Expired(At(s, k), if HolMode(s) then Micros(s.holTimeoutMs) else 0, now)
    ensures Scan(s, now).keys == Sorted(s.bucketMap.Keys)
  {
    var held := Sorted(s.bucketMap.Keys);
    SortedIsAscending(s.bucketMap.Keys);
    if HolMode(s) {
      AllScannedHol(s, held, s.nextExpected, now);
    } else {
      AllScannedFree(s, held, now);
    }
  }

  lemma {:induction false} AllScannedHol(s: State, keys: seq<u64>, next: u64, now: int)
    requires Lists(s, keys) && forall k :: k in keys ==> Expired(At(s, k), Micros(s.holTimeoutMs), now)
    ensures ScanHol(s, keys, next, now).keys == keys
  {
    if keys != [] {
      AllScannedHol(s, keys[1..], Next64(next), now);
      AllScannedHol(s, keys[1..], Next64(keys[0]), now);
    }
  }

  lemma {:induction false} AllScannedFree(s: State, keys: seq<u64>, now: int)
    requires Lists(s, keys) && forall k :: k in keys ==> Expired(At(s, k), 0, now)
    ensures ScanFree(s, keys, now) == keys
  {
    if keys != [] {
      AllScannedFree(s, keys[1..], now);
    }
  }
}
