/** Runs in which a late superframe goes out after one that was sent later. */
module LateHead {
  import opened Wire
  import opened Fragmenter
  import opened Sequencing
  import opened Receiving
  import opened Delivery
  import opened Buckets
  import opened Channel
  import opened AtMostOnce
  import opened TooOld
  import opened SentOrder
  import opened Fifo

  /** A sender whose first superframe has number `first`, below 65536, and goes out in one packet. */
  ghost predicate StartsAt(l: Link, first: u16) {
    l.first == first && OnLink(l, 0, 0) && LastPosition(|l.sent[0].payload|, l.mtu) == 0
  }

  /** Superframe n is received first and delivered at once, so the head is at n + 1. Superframe n - 1
      comes late, is held although complete, and goes out once it has timed out: after its successor,
      and the head moves back to n. */
  lemma HeadMovesBack(l: Link, late: Link, s0: ValidState, arrives: int, n: u16)
      returns (first: Call, s2: State, due: int, s3: State)
    requires n > 0 && StartsAt(l, n) && StartsAt(late, n - 1)
    requires s0 == Initial(s0.bucketTimeoutMs, s0.holTimeoutMs) && HolMode(s0)
    ensures first == Receive(l, s0, 0, 0, 0, 0)
    ensures first.answers == [NoError] && |first.delivered| == 1 && first.delivered[0].superFrameNo == n
    ensures Unpack(first.s, PacketOf(late, 0, 0), late.source, arrives) == (s2, NoError)
    ensures Inv(s2) && s2.nextExpected == n + 1 && due == arrives + Allowance(s0)
    ensures forall now :: now < due ==> Pass(s2, RunToCompletion, now).1 == []
    ensures Pass(s2, RunToCompletion, due) == (s3, [n - 1]) && s3.nextExpected == n
  {
    StartsIdle(l, s0.bucketTimeoutMs, s0.holTimeoutMs);
    first := FirstComes(l, s0);
    EarlyNumbers(l, n);
    s2, due, s3 := LateOne(l, late, first.s, arrives, n);
  }

  lemma LateOne(l: Link, late: Link, s1: ValidState, arrives: int, n: u16) returns (s2: State, due: int, s3: State)
    requires n > 0 && StartsAt(l, n) && StartsAt(late, n - 1)
    requires Idle(l, s1, 1) && HolMode(s1) && !s1.holFirstRun && s1.nextExpected == n + 1
    ensures Unpack(s1, PacketOf(late, 0, 0), late.source, arrives) == (s2, NoError)
    ensures Inv(s2) && s2.nextExpected == n + 1 && due == arrives + Allowance(s1)
    ensures forall now :: now < due ==> Pass(s2, RunToCompletion, now).1 == []
    ensures Pass(s2, RunToCompletion, due) == (s3, [n - 1]) && s3.nextExpected == n
  {
    s2, due := LateArrives(l, late, s1, arrives);
    s3 := LateGoesOut(s2, n - 1, due);
  }

  /** Before the first wrap a superframe's order is its number. */
  lemma EarlyOrder(first: u16, t: nat)
    requires t <= TWO16
    ensures OrderOf(first, t) == t
  {
  }

  lemma EarlyNumbers(l: Link, n: u16)
    requires l.first == n
    ensures No(l, 0) == n && OrderOf(l.first, l.first + 1) == n + 1
  {
    EarlyOrder(n, n + 1);
  }

  lemma FirstComes(l: Link, s0: ValidState) returns (r: Call)
    requires OnLink(l, 0, 0) && LastPosition(|l.sent[0].payload|, l.mtu) == 0
    requires s0 in Awaiting(l, 0, 0, 0) && HolMode(s0)
    ensures r == Receive(l, s0, 0, 0, 0, 0)
    ensures Idle(l, r.s, 1) && SameSettings(s0, r.s)
    ensures r.s.nextExpected == OrderOf(l.first, l.first + 1) && !r.s.holFirstRun
    ensures r.answers == [NoError] && |r.delivered| == 1 && r.delivered[0].superFrameNo == No(l, 0)
  {
    ReceiveLast(l, s0, 0, 0, 0, 0);
    r := Receive(l, s0, 0, 0, 0, 0);
    assert Idle(l, r.s, 1);
  }

  /** The late superframe's bucket was never used, and its number unwraps to its true order. */
  lemma LateFindsItsBucketFresh(l: Link, late: Link, s1: State)
    requires Idle(l, s1, 1) && 0 < l.first < TWO16 && late.first == l.first - 1
    ensures Unwrap(s1.unwrapper, No(late, 0)).recalc == late.first
    ensures var b := s1.buckets[Slot0(late, 0)];
            !b.active && b.order == UINT64_MAX
  {
    var i := Slot0(late, 0);
    StepReach(s1.unwrapper, l.first, l.first, late.first);
    EarlyOrder(l.first, late.first);
    assert Filed(s1, i) && RemembersLast(l, s1, 1, i);
    IndexOf(late, 0);
    OneBack(l.first);
  }

  lemma OneBack(t: nat)
    requires t > 0
    ensures (t - (t - 1) % BUCKETS) % BUCKETS == 1
  {
    assert t - (t - 1) % BUCKETS == BUCKETS * ((t - 1) / BUCKETS) + 1;
  }

  lemma LateArrives(l: Link, late: Link, s1: State, arrives: int) returns (s2: State, due: int)
    requires Idle(l, s1, 1) && 0 < l.first < TWO16 && late.first == l.first - 1
    requires OnLink(late, 0, 0) && LastPosition(|late.sent[0].payload|, late.mtu) == 0
    ensures Unpack(s1, PacketOf(late, 0, 0), late.source, arrives) == (s2, NoError)
    ensures Inv(s2) && s2.bucketMap.Keys == {late.first} && SameSettings(s1, s2)
    ensures s2.holFirstRun == s1.holFirstRun && s2.nextExpected == s1.nextExpected
    ensures At(s2, late.first).timeout + Micros(s2.holTimeoutMs) == due
    ensures due == arrives + Micros(s1.bucketTimeoutMs) + Micros(s1.holTimeoutMs)
  {
    var p := PacketOf(late, 0, 0);
    LateFindsItsBucketFresh(l, late, s1);
    UnpackKeepsInv(s1, p, late.source, arrives);
    s2 := Unpack(s1, p, late.source, arrives).0;
    assert Points(s2, late.first);
    due := arrives + Micros(s1.bucketTimeoutMs) + Micros(s1.holTimeoutMs);
  }

  /** A bucket that is not the expected one waits for its time-out and then moves the head behind it. */
  lemma LateGoesOut(s2: State, o: u64, due: int) returns (s3: State)
    requires Inv(s2) && s2.bucketMap.Keys == {o} && HolMode(s2) && !s2.holFirstRun && s2.nextExpected != o
    requires At(s2, o).timeout + Micros(s2.holTimeoutMs) == due
    ensures forall now :: now < due ==> Pass(s2, RunToCompletion, now).1 == []
    ensures Pass(s2, RunToCompletion, due) == (s3, [o]) && s3.nextExpected == Next64(o)
  {
    OnlyOne(o);
    forall now | now < due ensures Pass(s2, RunToCompletion, now).1 == [] {
      ScanOne(s2, o, s2.nextExpected, now);
    }
    ScanOne(s2, o, s2.nextExpected, due);
    s3 := Pass(s2, RunToCompletion, due).0;
  }

  // ---------------------------------------------------------------------------------------
  // In terms of what was sent

  /** Superframe k is sent in one packet. */
  predicate Single(l: Link, k: nat) {
    OnLink(l, k, 0) && LastPosition(|l.sent[k].payload|, l.mtu) == 0
  }

  /** k comes first and is delivered at once; j, sent earlier, comes late. */
  ghost predicate LatePair(l: Link, j: nat, k: nat) {
    Single(l, j) && Single(l, k) && j < k && k - j <= 0x8000 && Slot0(l, j) != Slot0(l, k)
  }

  lemma LaterComes(l: Link, bucketTimeoutMs: u32, holTimeoutMs: u32, k: nat, now: int) returns (y1: System, y2: System)
    requires Single(l, k) && holTimeoutMs != 0
    ensures y1 == Step(l, RunToCompletion, Start(bucketTimeoutMs, holTimeoutMs), Arrive(k, 0, now)) && Inv(y1.s)
    ensures y2 == Step(l, RunToCompletion, y1, Tick(now)) && Inv(y2.s)
    ensures y2.who == [k] && y2.owners == map[Slot0(l, k) := k] && y2.s.bucketMap.Keys == {}
    ensures y2.firstSeen == y2.lastSeen == l.first + k && Tracks(y2.s.unwrapper, l.first + k, l.first + k)
    ensures !y2.s.holFirstRun && y2.s.nextExpected == No(l, k) + 1
    ensures y2.s.bucketTimeoutMs == bucketTimeoutMs && y2.s.holTimeoutMs == holTimeoutMs
    ensures forall i :: 0 <= i < BUCKETS && i != Slot0(l, k) ==>
              !y2.s.buckets[i].active && y2.s.buckets[i].order == UINT64_MAX
  {
    y1 := FirstOpens(l, RunToCompletion, bucketTimeoutMs, holTimeoutMs, k, 0, now);
    var o: u64 := No(l, k);
    LowBitsOfIndex(o);
    assert Points(y1.s, o);
    PassContract(y1.s, RunToCompletion, now);
    PassOne(y1.s, o, now);
    y2 := Step(l, RunToCompletion, y1, Tick(now));
  }

  lemma EarlierComes(l: Link, y2: System, j: nat, k: nat, now: int) returns (y3: System, o: u64)
    requires Inv(y2.s) && LatePair(l, j, k) && y2.s.bucketMap.Keys == {} && y2.owners == map[Slot0(l, k) := k]
    requires y2.firstSeen == y2.lastSeen == l.first + k && Tracks(y2.s.unwrapper, l.first + k, l.first + k)
    requires !y2.s.buckets[Slot0(l, j)].active && y2.s.buckets[Slot0(l, j)].order == UINT64_MAX
    requires OrderOf(l.first + k, l.first + j) != UINT64_MAX
    ensures o == OrderOf(l.first + k, l.first + j)
    ensures y3 == Step(l, RunToCompletion, y2, Arrive(j, 0, now)) && Inv(y3.s)
    ensures Orderly(l, y2, Arrive(j, 0, now)) && Unambiguous(l, y2, Arrive(j, 0, now))
    ensures y3.s.bucketMap.Keys == {o} && Owner(y3, o) == j && y3.who == y2.who
    ensures At(y3.s, o).timeout == now + Micros(y2.s.bucketTimeoutMs)
    ensures y3.s.holFirstRun == y2.s.holFirstRun && y3.s.nextExpected == y2.s.nextExpected
    ensures y3.s.holTimeoutMs == y2.s.holTimeoutMs
  {
    StepReach(y2.s.unwrapper, l.first + k, l.first + k, l.first + j);
    o := OrderOf(l.first + k, l.first + j);
    y3 := Step(l, RunToCompletion, y2, Arrive(j, 0, now));
    OpeningIsFresh(y2.s, No(l, j));
    assert Points(y3.s, o);
  }

  /** For every such pair the earlier-sent superframe is delivered after the later-sent one, although
      every arrival is orderly and unambiguous. If j was sent in the 65536-block of k or later, that is
      below the head; if it was sent before that block its order has wrapped to the top, and nothing in
      the receiver shows that it is late. */
  lemma SentOrderBroken(l: Link, bucketTimeoutMs: u32, holTimeoutMs: u32, j: nat, k: nat, a: int, b: int)
      returns (y1: System, y2: System, y3: System, due: int, y4: System)
    requires LatePair(l, j, k) && holTimeoutMs != 0
    requires OrderOf(l.first + k, l.first + j) != UINT64_MAX
    ensures y1 == Step(l, RunToCompletion, Start(bucketTimeoutMs, holTimeoutMs), Arrive(k, 0, a)) && Inv(y1.s)
    ensures y2 == Step(l, RunToCompletion, y1, Tick(a)) && Inv(y2.s)
    ensures y3 == Step(l, RunToCompletion, y2, Arrive(j, 0, b)) && Inv(y3.s)
    ensures y4 == Step(l, RunToCompletion, y3, Tick(due))
    ensures Orderly(l, y2, Arrive(j, 0, b)) && Unambiguous(l, y2, Arrive(j, 0, b))
    ensures y2.who == [k] && y4.who == [k, j] && y4.s.bucketMap.Keys == {} && !Rising(y4.who)
    ensures y2.s.nextExpected == No(l, k) + 1
    ensures var block := l.first + k - No(l, k);
            OrderOf(l.first + k, l.first + j) ==
              if l.first + j >= block then l.first + j - block else TWO64 - (block - l.first - j)
  {
    y1, y2 := LaterComes(l, bucketTimeoutMs, holTimeoutMs, k, a);
    var o;
    y3, o := EarlierComes(l, y2, j, k, b);
    LateOrder(l, j, k);
    due := b + Micros(bucketTimeoutMs) + Micros(holTimeoutMs);
    var s := LateGoesOut(y3.s, o, due);
    PassContract(y3.s, RunToCompletion, due);
    y4 := Step(l, RunToCompletion, y3, Tick(due));
    assert y4.who == y3.who + Owners(y3, [o]);
    assert y4.who[0] == k && y4.who[1] == j;
  }

  /** The order of the earlier one, seen from the later one. It is never the head. */
  lemma LateOrder(l: Link, j: nat, k: nat)
    requires j < k && k - j <= 0x8000
    ensures var block := l.first + k - No(l, k);
            var o := OrderOf(l.first + k, l.first + j);
            && o == (if l.first + j >= block then l.first + j - block else TWO64 - (block - l.first - j))
            && o != No(l, k) + 1
  {
  }

  // ---------------------------------------------------------------------------------------
  // Late, and nothing delivered yet

  lemma SortedPair(a: u64, b: u64)
    requires a < b
    ensures Sorted({a, b}) == [a, b]
  {
    assert {a, b} - {a} == {b};
    OnlyOne(b);
  }

  /** The channel keeps its promises, and the bucket, if one is opened, is for a superframe sent after all
      delivered ones. */
  ghost predicate Fair(l: Link, y: System, e: Event)
    requires Inv(y.s) && Legal(l, e)
  {
    Orderly(l, y, e) && Unambiguous(l, y, e) && OpensAbove(l, y, e)
  }

  /** Superframe k came first and is held, and nothing else. */
  ghost predicate OneHeld(l: Link, y: System, k: nat, deadline: int)
    requires Inv(y.s)
  {
    && y.firstSeen == y.lastSeen == l.first + k && y.owners == map[Slot0(l, k) := k] && y.who == []
    && Tracks(y.s.unwrapper, l.first + k, l.first + k)
    && y.s.bucketMap.Keys == {No(l, k)} && y.s.buckets[Slot0(l, k)].timeout == deadline
  }

  lemma OneComes(l: Link, mode: Mode, bucketTimeoutMs: u32, holTimeoutMs: u32, k: nat, i: nat, now: int)
      returns (y1: System)
    requires OnLink(l, k, i)
    ensures y1 == Step(l, mode, Start(bucketTimeoutMs, holTimeoutMs), Arrive(k, i, now)) && Inv(y1.s)
    ensures OneHeld(l, y1, k, now + Micros(bucketTimeoutMs))
    ensures y1.s.bucketTimeoutMs == bucketTimeoutMs && y1.s.holTimeoutMs == holTimeoutMs
    ensures Fair(l, Start(bucketTimeoutMs, holTimeoutMs), Arrive(k, i, now))
  {
    y1 := FirstOpens(l, mode, bucketTimeoutMs, holTimeoutMs, k, i, now);
  }

  /** Superframes k and j are held, and nothing else. */
  ghost predicate TwoHeld(l: Link, y: System, k: nat, j: nat, o: u64, deadline: int, deadline': int)
    requires Inv(y.s)
  {
    && y.owners == map[Slot0(l, k) := k][Slot0(l, j) := j] && y.who == []
    && o % BUCKETS == Slot0(l, j) && y.s.bucketMap.Keys == {No(l, k), o}
    && y.s.buckets[Slot0(l, k)].timeout == deadline && y.s.buckets[Slot0(l, j)].timeout == deadline'
  }

  lemma AnotherComes(l: Link, mode: Mode, y1: System, k: nat, j: nat, p: nat, deadline: int, now: int)
      returns (y2: System, o: u64)
    requires Inv(y1.s) && OneHeld(l, y1, k, deadline)
    requires OnLink(l, j, p) && j < k && k - j <= 0x8000 && Slot0(l, j) != Slot0(l, k)
    requires y1.s.buckets[Slot0(l, j)] == FRESH && OrderOf(l.first + k, l.first + j) != UINT64_MAX
    ensures y2 == Step(l, mode, y1, Arrive(j, p, now)) && Inv(y2.s)
    ensures o == OrderOf(l.first + k, l.first + j) && SameSettings(y1.s, y2.s)
    ensures TwoHeld(l, y2, k, j, o, deadline, now + Micros(y1.s.bucketTimeoutMs))
    ensures Fair(l, y1, Arrive(j, p, now)) && Answer(l, y1, Arrive(j, p, now)) == NoError
  {
    StepReach(y1.s.unwrapper, l.first + k, l.first + k, l.first + j);
    o := OrderOf(l.first + k, l.first + j);
    OpeningIsFresh(y1.s, No(l, j));
    y2 := Step(l, mode, y1, Arrive(j, p, now));
  }

  /** When both have timed out, the one with the wrapped order goes out last. */
  lemma BothGoOut(l: Link, mode: Mode, y2: System, o: u64, j: nat, k: nat, deadline: int, deadline': int, due: int)
      returns (y3: System)
    requires Inv(y2.s) && HolMode(y2.s) && TwoHeld(l, y2, k, j, o, deadline, deadline')
    requires No(l, k) < o && Slot0(l, j) != Slot0(l, k)
    requires deadline + Micros(y2.s.holTimeoutMs) <= due && deadline' + Micros(y2.s.holTimeoutMs) <= due
    ensures y3 == Step(l, mode, y2, Tick(due)) && y3.s.bucketMap.Keys == {} && y3.who == [k, j]
  {
    var n: u64 := No(l, k);
    assert Points(y2.s, n) && Points(y2.s, o);
    SortedPair(n, o);
    NoPermanentBlocking(y2.s, mode, due);
    PassContract(y2.s, mode, due);
    assert Owners(y2, [n, o]) == [k, j];
    y3 := Step(l, mode, y2, Tick(due));
  }

  /** Superframe k is the first one seen. Before any pass a packet of j arrives, sent before the
      65536-block of k. Both buckets are opened while nothing has been delivered, so no bucket is opened
      for a superframe sent before a delivered one. Once both have timed out, k is delivered before j. */
  lemma WrappedOrderBroken(l: Link, mode: Mode, bucketTimeoutMs: u32, holTimeoutMs: u32, k: nat, i: nat, j: nat, p: nat,
                           a: int, b: int)
      returns (y1: System, y2: System, due: int, y3: System)
    requires OnLink(l, k, i) && OnLink(l, j, p) && j < k && k - j <= 0x8000 && Slot0(l, j) != Slot0(l, k)
    requires holTimeoutMs != 0 && l.first + j + 1 < l.first + k - No(l, k)
    ensures y1 == Step(l, mode, Start(bucketTimeoutMs, holTimeoutMs), Arrive(k, i, a)) && Inv(y1.s)
    ensures y2 == Step(l, mode, y1, Arrive(j, p, b)) && Inv(y2.s) && y3 == Step(l, mode, y2, Tick(due))
    ensures Fair(l, Start(bucketTimeoutMs, holTimeoutMs), Arrive(k, i, a)) && Fair(l, y1, Arrive(j, p, b))
    ensures Answer(l, y1, Arrive(j, p, b)) == NoError
    ensures y3.s.bucketMap.Keys == {} && y3.who == [k, j] && !Rising(y3.who)
  {
    y1 := OneComes(l, mode, bucketTimeoutMs, holTimeoutMs, k, i, a);
    FirstOpensOnly(l, mode, bucketTimeoutMs, holTimeoutMs, k, i, a, Slot0(l, j));
    LateOrder(l, j, k);
    var o;
    y2, o := AnotherComes(l, mode, y1, k, j, p, a + Micros(bucketTimeoutMs), b);
    due := (if a < b then b else a) + Micros(bucketTimeoutMs) + Micros(holTimeoutMs);
    y3 := BothGoOut(l, mode, y2, o, j, k, a + Micros(bucketTimeoutMs), b + Micros(bucketTimeoutMs), due);
    Falls(k, j);
  }

  lemma Falls(k: nat, j: nat)
    requires j < k
    ensures !Rising([k, j])
  {
    assert [k, j][0] > [k, j][1];
  }
}
