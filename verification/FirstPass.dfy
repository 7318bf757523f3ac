/** When the first pass in head-of-line mode sets the head. */
module FirstPass {
  import opened Wire
  import opened Buckets
  import opened Receiving
  import opened Delivery

  lemma TwoAreHeld(s: State, i: nat, j: nat)
    requires Inv(s) && i < j < BUCKETS && s.buckets[i].active && s.buckets[j].active
    ensures |s.bucketMap.Keys| > 1
  {
    assert Filed(s, i) && Filed(s, j);
    var two := {s.buckets[i].order, s.buckets[j].order};
    assert |two| == 2;
    SubsetSize(two, s.bucketMap.Keys);
  }

  lemma HoldsTwo(s: State) returns (i: nat, j: nat)
    requires Inv(s) && |s.bucketMap.Keys| > 1
    ensures i < j < BUCKETS && s.buckets[i].active && s.buckets[j].active
  {
    var a: u64 :| a in s.bucketMap.Keys;
    if s.bucketMap.Keys <= {a} {
      SubsetSize(s.bucketMap.Keys, {a});
    }
    var b: u64 :| b in s.bucketMap.Keys && b != a;
    assert Points(s, a) && Points(s, b);
    i, j := a % BUCKETS, b % BUCKETS;
    if j < i {
      i, j := j, i;
    }
  }

  /** A bucket in use that has timed out. */
  predicate TimedOut(s: State, i: nat, now: int)
    requires Sized(s) && i < BUCKETS
  {
    s.buckets[i].active && s.buckets[i].timeout <= now
  }

  lemma SomeTimedOutIff(s: State, now: int)
    requires Inv(s)
    ensures SomeTimedOut(s, now) <==> exists i :: 0 <= i < 8192 && TimedOut(s, i, now)
  {
    if SomeTimedOut(s, now) {
      var k :| k in s.bucketMap.Keys && Expired(At(s, k), 0, now);
      assert Points(s, k);
      assert TimedOut(s, k % BUCKETS, now);
    }
    forall i | 0 <= i < 8192 && TimedOut(s, i, now) ensures SomeTimedOut(s, now) {
      assert Filed(s, i);
      var k := s.buckets[i].order;
      assert Points(s, k);
      assert k in s.bucketMap.Keys && Expired(At(s, k), 0, now);
    }
  }

  /** No two buckets are in use. */
  predicate AtMostOneHeld(s: State)
    requires Sized(s)
  {
    forall i, j :: 0 <= i < j < 8192 && s.buckets[i].active ==> !s.buckets[j].active
  }

  lemma AtMostOneIff(s: State)
    requires Inv(s)
    ensures AtMostOneHeld(s) <==> |s.bucketMap.Keys| <= 1
  {
    if |s.bucketMap.Keys| > 1 {
      var i, j := HoldsTwo(s);
    }
    forall i, j | 0 <= i < j < 8192 && s.buckets[i].active && s.buckets[j].active ensures |s.bucketMap.Keys| > 1 {
      TwoAreHeld(s, i, j);
    }
  }

  /** When the first pass leaves the head unset: in the worker thread if and only if at most one bucket is in
      use and none has timed out, and when run to completion if and only if none is in use. Then it does
      nothing. */
  lemma HeadUnsetIff(s: State, mode: Mode, now: int)
    requires Inv(s) && s.holTimeoutMs != 0 && s.holFirstRun
    ensures mode.Threaded? ==>
              (Pass(s, mode, now).0.holFirstRun <==>
                 AtMostOneHeld(s) && forall i :: 0 <= i < 8192 ==> !TimedOut(s, i, now))
    ensures mode.RunToCompletion? ==>
              (Pass(s, mode, now).0.holFirstRun <==> forall i :: 0 <= i < 8192 ==> !s.buckets[i].active)
    ensures Pass(s, mode, now).0.holFirstRun ==> Pass(s, mode, now) == (s, [])
  {
    AtMostOneIff(s);
    SomeTimedOutIff(s, now);
    NoneHeldIff(s);
    if Settled(s, mode, now).Some? {
      SettledInv(s, mode, now);
    }
  }

  lemma NoneHeldIff(s: State)
    requires Inv(s)
    ensures s.bucketMap.Keys == {} <==> forall i :: 0 <= i < 8192 ==> !s.buckets[i].active
    ensures s.bucketMap.Keys == {} ==> |s.bucketMap.Keys| == 0
  {
    if s.bucketMap.Keys != {} {
      var k: u64 :| k in s.bucketMap.Keys;
      assert Points(s, k);
    }
    forall i | 0 <= i < 8192 && s.buckets[i].active ensures s.bucketMap.Keys != {} {
      assert Filed(s, i);
    }
  }

  /** What the worker looks for before it sets the head, in terms of the buckets. */
  lemma MayGo(s: State, now: int)
    requires Inv(s)
    ensures |s.bucketMap.Keys| > 1 || SomeTimedOut(s, now) <==>
            !AtMostOneHeld(s) || exists i :: 0 <= i < 8192 && TimedOut(s, i, now)
  {
    AtMostOneIff(s);
    SomeTimedOutIff(s, now);
  }
}
