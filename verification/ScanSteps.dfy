/** A delivery pass step by step: what its loops have done so far, and what is left to do. */
module ScanSteps {
  import opened Wire
  import opened Buckets
  import opened Receiving
  import opened Delivery

  // ---------------------------------------------------------------------------------------
  // The head of the line

  /** The state with the head set, if it is not set yet and something is held. */
  ghost function Headed(s: State): State
    requires Inv(s)
  {
    if HolMode(s) && s.holFirstRun && s.bucketMap.Keys != {} then
      s.(holFirstRun := false, nextExpected := Least(s.bucketMap.Keys))
    else s
  }

  ghost predicate Heads(was: State, s: State) {
    Inv(was) && Inv(s) && s == Headed(was)
  }

  lemma HeadedInv(s: State)
    requires Inv(s)
    ensures Inv(Headed(s)) && Headed(s).bucketMap == s.bucketMap && Headed(s).buckets == s.buckets
    ensures forall keys :: Lists(s, keys) ==> Lists(Headed(s), keys) && Deliveries(Headed(s), keys) == Deliveries(s, keys)
  {
    NextIrrelevant(s, Headed(s).nextExpected);
    var s1 := Headed(s);
    forall i | 0 <= i < BUCKETS ensures Filed(s1, i) {
      assert Filed(s, i);
    }
    forall k: u64 ensures Points(s1, k) {
      assert Points(s, k);
    }
  }

  /** Once set, the head is not set again. */
  lemma HeadedTwice(s: State, next: u64)
    requires Inv(s) && s.bucketMap.Keys != {}
    ensures var s1 := Headed(s).(nextExpected := next);
            Inv(s1) && Headed(s1) == s1
  {
    HeadedInv(s);
    NextIrrelevant(Headed(s), next);
  }

  /** What a pass comes to once the head is set: scan, then free what was handed out. */
  ghost function Passed(s: State, now: int): (State, seq<u64>)
    requires Inv(s)
  {
    var scanned := Scan(s, now);
    (Close(s.(nextExpected := scanned.next), scanned.keys), scanned.keys)
  }

  lemma CloseNothing(s: State)
    ensures Close(s, []) == s
  {
    assert Close(s, []).buckets == s.buckets;
  }

  /** A run-to-completion pass sets the head whenever something is held. */
  lemma RunToCompletionPasses(s: State, now: int)
    requires Inv(s)
    ensures Inv(Headed(s)) && Pass(s, RunToCompletion, now) == Passed(Headed(s), now)
  {
    HeadedInv(s);
    CloseNothing(s);
    if s.bucketMap.Keys == {} {
      assert Sorted(s.bucketMap.Keys) == [];
    } else if HolMode(s) && s.holFirstRun {
      assert At(s, Least(s.bucketMap.Keys)).order == Least(s.bucketMap.Keys);
    }
  }

  /** The worker waits for a second superframe or a time-out before it sets the head. */
  ghost predicate WorkerWaits(s: State, now: int)
    requires Inv(s)
  {
    HolMode(s) && s.holFirstRun && |s.bucketMap.Keys| <= 1 && !SomeTimedOut(s, now)
  }

  lemma WorkerPasses(s: State, now: int)
    requires Inv(s)
    ensures Inv(Headed(s))
    ensures Pass(s, Threaded, now) ==
            if s.bucketMap.Keys == {} || WorkerWaits(s, now) then (s, []) else Passed(Headed(s), now)
  {
    HeadedInv(s);
    CloseNothing(s);
    if s.bucketMap.Keys == {} {
      assert Sorted(s.bucketMap.Keys) == [];
    } else if HolMode(s) && s.holFirstRun {
      assert At(s, Least(s.bucketMap.Keys)).order == Least(s.bucketMap.Keys);
    }
  }

  // ---------------------------------------------------------------------------------------
  // The scan

  /** What a scan comes to when `done` is handed out and the j-th key is looked at next. */
  ghost function Ahead(s: State, done: seq<u64>, keys: seq<u64>, j: nat, next: u64, now: int): Scanned
    requires Lists(s, keys) && j <= |keys|
  {
    if HolMode(s) then
      var rest := ScanHol(s, keys[j..], next, now);
      Scanned(done + rest.keys, rest.next)
    else Scanned(done + ScanFree(s, keys[j..], now), next)
  }

  lemma AheadStart(s: State, now: int)
    requires Inv(s)
    ensures var keys := Sorted(s.bucketMap.Keys);
            Lists(s, keys) && Ahead(s, [], keys, 0, s.nextExpected, now) == Scan(s, now)
  {
    var keys := Sorted(s.bucketMap.Keys);
    SortedIsAscending(s.bucketMap.Keys);
    assert keys[0..] == keys;
  }

  /** The receiver's state when the j-th turn begins: the first one finds the head as it was. */
  ghost predicate AtTurn(was: State, s: State, j: nat, next: u64, now: State) {
    if j == 0 then now == was && next == s.nextExpected else now == s.(nextExpected := next)
  }

  /** The scan comes to what is handed out and what is ahead. */
  ghost predicate Reached(s: State, done: seq<u64>, keys: seq<u64>, j: nat, next: u64, blocked: bool, now: int)
    requires Lists(s, keys) && j <= |keys|
  {
    Scan(s, now) == if blocked then Scanned(done, next) else Ahead(s, done, keys, j, next, now)
  }

  /** Nothing held, nothing to do. */
  lemma NothingHeld(was: State, s: State, now: int)
    requires Heads(was, s) && was.bucketMap.Keys == {}
    ensures s == was && Scan(s, now) == Scanned([], s.nextExpected)
  {
    assert Sorted(was.bucketMap.Keys) == [];
  }

  lemma AheadEnd(s: State, done: seq<u64>, keys: seq<u64>, next: u64, now: int)
    requires Lists(s, keys)
    ensures Ahead(s, done, keys, |keys|, next, now) == Scanned(done, next)
  {
    assert keys[|keys|..] == [];
  }

  lemma ScanDone(was: State, s: State, m: State, done: seq<u64>, keys: seq<u64>, j: nat, next: u64, blocked: bool, now: int)
    requires Heads(was, s) && keys == Sorted(was.bucketMap.Keys)
    requires Lists(s, keys) && j <= |keys| && if blocked then j > 0 else j == |keys|
    requires AtTurn(was, s, j, next, m) && Reached(s, done, keys, j, next, blocked, now)
    ensures done == Scan(s, now).keys && m == s.(nextExpected := Scan(s, now).next)
  {
    AheadEnd(s, done, keys, next, now);
    assert Scan(s, now) == Scanned(done, next);
    if j == 0 {
      assert was.bucketMap.Keys == {};
      NothingHeld(was, s, now);
    }
  }

  lemma AheadStep(s: State, done: seq<u64>, keys: seq<u64>, j: nat, next: u64, now: int)
    requires Lists(s, keys) && j < |keys| && keys[j] in s.bucketMap
    ensures var b := At(s, keys[j]);
            Ahead(s, done, keys, j, next, now) ==
              if HolMode(s) then
                if (b.order == next && Complete(b)) || Expired(b, Micros(s.holTimeoutMs), now)
                then Ahead(s, done + [keys[j]], keys, j + 1, Next64(keys[j]), now)
                else Scanned(done, next)
              else
                Ahead(s, if Expired(b, 0, now) || Complete(b) then done + [keys[j]] else done, keys, j + 1, next, now)
  {
    assert keys[j..][1..] == keys[j + 1..];
  }

  lemma DeliveriesGrow(s: State, keys: seq<u64>, k: u64)
    requires Lists(s, keys) && k in s.bucketMap
    ensures Lists(s, keys + [k]) && Deliveries(s, keys + [k]) == Deliveries(s, keys) + [Assemble(At(s, k))]
  {
  }

  /** Whether one of the first j keys has timed out. */
  ghost predicate TimedOutAmong(s: State, keys: seq<u64>, j: nat, now: int)
    requires Lists(s, keys) && j <= |keys|
  {
    exists l :: 0 <= l < j && Expired(At(s, keys[l]), 0, now)
  }

  lemma TimedOutStep(s: State, keys: seq<u64>, j: nat, now: int)
    requires Lists(s, keys) && j < |keys|
    ensures keys[j] in s.bucketMap && At(s, keys[j]) == s.buckets[keys[j] % BUCKETS]
    ensures TimedOutAmong(s, keys, j + 1, now) == (TimedOutAmong(s, keys, j, now) || Expired(At(s, keys[j]), 0, now))
  {
    assert keys[j] in keys;
    assert Points(s, keys[j]);
  }

  lemma TimedOutAmongAll(s: State, keys: seq<u64>, now: int)
    requires Inv(s) && keys == Sorted(s.bucketMap.Keys)
    ensures Lists(s, keys) && TimedOutAmong(s, keys, |keys|, now) == SomeTimedOut(s, now)
  {
    SortedIsAscending(s.bucketMap.Keys);
  }

  // ---------------------------------------------------------------------------------------
  // Buffers that have left their buckets

  /** The worker moves each buffer to the queue at once; the buckets are freed afterwards. */
  function Moved(s: State, done: seq<u64>): State {
    s.(buckets := seq(|s.buckets|, i requires 0 <= i < |s.buckets| =>
                        if s.buckets[i].active && s.buckets[i].order in done
                        then s.buckets[i].(frame := None) else s.buckets[i]))
  }

  lemma MovedNothing(s: State)
    ensures Moved(s, []) == s
  {
    assert Moved(s, []).buckets == s.buckets;
  }

  lemma MovedOne(s: State, done: seq<u64>, k: u64)
    requires Inv(s) && k in s.bucketMap
    ensures var i := k % BUCKETS;
            && |Moved(s, done).buckets| == BUCKETS
            && Moved(s, done + [k]) ==
                 Moved(s, done).(buckets := Moved(s, done).buckets[i := Moved(s, done).buckets[i].(frame := None)])
            && (k !in done ==> Moved(s, done).buckets[i] == At(s, k))
  {
    var i := k % BUCKETS;
    assert Points(s, k);
    var a, b := Moved(s, done + [k]).buckets, Moved(s, done).buckets[i := Moved(s, done).buckets[i].(frame := None)];
    forall j | 0 <= j < BUCKETS ensures a[j] == b[j] {
      assert Filed(s, j);
    }
    assert a == b;
  }

  /** The receiver's state when the worker's j-th turn begins: what is handed out is moved out. */
  ghost predicate AtWorkerTurn(was: State, s: State, done: seq<u64>, j: nat, next: u64, now: State) {
    if j == 0 then now == was && done == [] && next == s.nextExpected
    else now == Moved(s, done).(nextExpected := next)
  }

  /** What the worker has pushed on the queue for what it moved out. */
  ghost predicate Queued(was: seq<Delivery>, queue: seq<Delivery>, wasReady: bool, ready: bool, s: State, done: seq<u64>)
    requires Lists(s, done)
  {
    queue == was + Deliveries(s, done) && ready == (wasReady || done != [])
  }

  lemma QueuedMore(was: seq<Delivery>, queue: seq<Delivery>, wasReady: bool, ready: bool, s: State, done: seq<u64>,
                   keys: seq<u64>, j: nat)
    requires Lists(s, done) && Lists(s, keys) && j < |keys| && Queued(was, queue, wasReady, ready, s, done)
    ensures keys[j] in s.bucketMap && Lists(s, done + [keys[j]])
    ensures Queued(was, queue + [Assemble(At(s, keys[j]))], wasReady, true, s, done + [keys[j]])
  {
    assert keys[j] in keys;
    DeliveriesGrow(s, done, keys[j]);
  }

  /** The receiver's states when the worker's j-th turn can begin, and the loop has come so far. */
  ghost function AtWorker(was: State, s: State, keys: seq<u64>, j: nat, next: u64, done: seq<u64>, blocked: bool,
                          now: int): iset<State>
  {
    iset m | WorkerAt(was, s, keys, j, next, done, blocked, now, m)
  }

  ghost predicate WorkerAt(was: State, s: State, keys: seq<u64>, j: nat, next: u64, done: seq<u64>, blocked: bool,
                           now: int, m: State)
  {
    && Heads(was, s) && keys == Sorted(was.bucketMap.Keys) && was.bucketMap.Keys != {}
    && Lists(s, keys) && Ascending(keys) && Lists(s, done) && j <= |keys|
    && (forall i :: j <= i < |keys| ==> keys[i] !in done)
    && (blocked ==> j > 0)
    && (j > 0 ==> !WorkerWaits(was, now))
    && AtWorkerTurn(was, s, done, j, next, m)
    && Reached(s, done, keys, j, next, blocked, now)
  }

  lemma WorkerStarts(was: State, s: State, now: int)
    requires Heads(was, s) && was.bucketMap.Keys != {}
    ensures was in AtWorker(was, s, Sorted(was.bucketMap.Keys), 0, s.nextExpected, [], false, now)
    ensures Lists(s, Sorted(was.bucketMap.Keys))
  {
    SortedIsAscending(was.bucketMap.Keys);
    AheadStart(s, now);
    var keys := Sorted(was.bucketMap.Keys);
    assert AtWorkerTurn(was, s, [], 0, s.nextExpected, was);
    assert Reached(s, [], keys, 0, s.nextExpected, false, now);
    assert Lists(s, keys) && Lists(s, []);
  }

  lemma WorkerTurned(was: State, s: State, keys: seq<u64>, j: nat, next: u64, done: seq<u64>, now: int, m: State,
                     m': State, next': u64, out: bool, blocked: bool)
    requires m in AtWorker(was, s, keys, j, next, done, false, now) && j < |keys| && (j == 0 ==> !WorkerWaits(was, now))
    requires var done' := if out then done + [keys[j]] else done;
             && Lists(s, done') && m' == Moved(s, done').(nextExpected := next')
             && (Reached(s, done, keys, j, next, false, now) ==> Reached(s, done', keys, j + 1, next', blocked, now))
    ensures m' in AtWorker(was, s, keys, j + 1, next', if out then done + [keys[j]] else done, blocked, now)
  {
  }

  /** The receiver's states when the worker's loop can have ended, having handed out `done`. */
  ghost function AfterWorker(was: State, s: State, done: seq<u64>, now: int): iset<State> {
    iset m | WorkerEnded(was, s, done, now, m)
  }

  ghost predicate WorkerEnded(was: State, s: State, done: seq<u64>, now: int, m: State) {
    && Heads(was, s)
    && if WorkerWaits(was, now) then m == was && done == []
       else done == Scan(s, now).keys && m == Moved(s, done).(nextExpected := Scan(s, now).next)
  }

  lemma WaitEnds(was: State, s: State, keys: seq<u64>, next: u64, done: seq<u64>, now: int, m: State)
    requires m in AtWorker(was, s, keys, 0, next, done, false, now) && Heads(was, s) && WorkerWaits(was, now)
    ensures was in AfterWorker(was, s, done, now)
  {
  }

  lemma WorkerDone(was: State, s: State, m: State, done: seq<u64>, keys: seq<u64>, j: nat, next: u64,
                   blocked: bool, now: int)
    requires m in AtWorker(was, s, keys, j, next, done, blocked, now) && (j < |keys| ==> blocked)
    ensures m in AfterWorker(was, s, done, now)
  {
    SortedIsAscending(was.bucketMap.Keys);
    assert |keys| > 0;
    assert j == |keys| ==> keys[j..] == [];
    assert Scan(s, now) == Scanned(done, next);
  }

  lemma CloseMoved(s: State, keys: seq<u64>)
    ensures Close(Moved(s, keys), keys) == Close(s, keys)
  {
    assert Close(Moved(s, keys), keys).buckets == Close(s, keys).buckets;
  }

  // ---------------------------------------------------------------------------------------
  // Freeing buckets

  /** The map and the bucket array agree on what is in use, with or without buffers. */
  ghost predicate Mapped(s: State) {
    Sized(s) && (forall i :: 0 <= i < BUCKETS ==> MapsTo(s, i)) && (forall k: u64 :: Points(s, k))
  }

  ghost predicate MapsTo(s: State, i: nat)
    requires Sized(s) && i < BUCKETS
  {
    s.buckets[i].active ==> s.buckets[i].order % BUCKETS == i
  }

  lemma MovedMapped(s: State, done: seq<u64>)
    requires Inv(s)
    ensures Mapped(Moved(s, done))
  {
    var s1 := Moved(s, done);
    forall i | 0 <= i < BUCKETS ensures MapsTo(s1, i) {
      assert Filed(s, i);
    }
    forall k: u64 ensures Points(s1, k) {
      assert Points(s, k);
    }
  }

  /** What freeing one delivered bucket does. */
  function Released(s: State, k: u64): State
    requires Sized(s)
  {
    var i := k % BUCKETS;
    s.(bucketMap := s.bucketMap - {k}, buckets := s.buckets[i := s.buckets[i].(active := false, frame := None)])
  }

  lemma ReleasedIsClosed(s: State, keys: seq<u64>, k: u64)
    requires Mapped(s) && k in s.bucketMap && k !in keys
    ensures Close(s, keys + [k]) == Released(Close(s, keys), k)
    ensures k in Close(s, keys).bucketMap
  {
    var a, b := Close(s, keys + [k]), Released(Close(s, keys), k);
    assert Points(s, k);
    forall i | 0 <= i < BUCKETS ensures a.buckets[i] == b.buckets[i] {
      assert MapsTo(s, i);
    }
    assert a.buckets == b.buckets;
  }

  /** After the worker's loop, freeing the buckets of what it moved completes the pass. */
  lemma FreeMoved(was: State, m: State, done: seq<u64>, now: int)
    requires Inv(was) && was.bucketMap.Keys != {} && m in AfterWorker(was, Headed(was), done, now)
    ensures Mapped(m) && Ascending(done) && forall k :: k in done ==> k in m.bucketMap
    ensures (Close(m, done), done) == Pass(was, Threaded, now)
  {
    WorkerPasses(was, now);
    if WorkerWaits(was, now) {
      MovedMapped(was, []);
      MovedNothing(was);
      CloseNothing(was);
    } else {
      var s := Headed(was).(nextExpected := Scan(Headed(was), now).next);
      NextIrrelevant(Headed(was), s.nextExpected);
      ScanSubset(Headed(was), now);
      MovedMapped(s, done);
      CloseMoved(s, done);
    }
  }
}
