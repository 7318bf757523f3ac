/** A lossless, in-order channel into a receiver that runs to completion: every superframe comes
    out, in order, intact, in the very call that brings its last fragment. */
module Fifo {
  import opened Wire
  import opened Fragmenter
  import opened Sequencing
  import opened Buckets
  import opened Reassembly
  import opened Receiving
  import opened Delivery
  import opened Channel
  import opened Relay

  /** What a call of receiveFragment leaves, answers and hands to the host. */
  type Call = Leg<ValidState, Message, Delivery>

  /** The call for the fragment at position i of superframe k: unpack at `arrives`, then a delivery
      pass at `checks`. Where there is no such fragment there is no call. */
  function Receive(l: Link, s: ValidState, k: nat, i: nat, arrives: int, checks: int): Call {
    if !OnLink(l, k, i) then Leg(s, [], [])
    else
      var p := PacketOf(l, k, i);
      UnpackKeepsInv(s, p, l.source, arrives);
      var (s1, msg) := Unpack(s, p, l.source, arrives);
      PassContract(s1, RunToCompletion, checks);
      var (s2, keys) := Pass(s1, RunToCompletion, checks);
      Leg(s2, [msg], Deliveries(s1, keys))
  }

  // ---------------------------------------------------------------------------------------
  // Where a first-in first-out run stands

  /** The order bucket i remembers when superframes 0..k-1 have gone through the receiver: that of
      the last one that selected it, if any did. */
  function LastOrder(l: Link, k: nat, i: nat): u64 {
    var j := k - 1 - (l.first + k - 1 - i) % BUCKETS;
    if j >= 0 then OrderOf(l.first, l.first + j) else UINT64_MAX
  }

  function OrderAt(l: Link, k: nat): u64 {
    OrderOf(l.first, l.first + k)
  }

  ghost predicate Remembered(l: Link, s: State, k: nat)
    requires Inv(s)
  {
    forall i :: 0 <= i < BUCKETS ==> RemembersLast(l, s, k, i)
  }

  ghost predicate RemembersLast(l: Link, s: State, k: nat, i: nat)
    requires Inv(s) && i < BUCKETS
  {
    s.buckets[i].order == LastOrder(l, k, i)
  }

  /** Superframes 0..k-1 have been delivered and nothing is held. */
  ghost predicate Idle(l: Link, s: State, k: nat) {
    && Inv(s) && s.bucketMap.Keys == {}
    && (if k == 0 then s.unwrapper == START else Tracks(s.unwrapper, l.first, l.first + k - 1))
    && Remembered(l, s, k)
    && (HolMode(s) ==> if k == 0 then s.holFirstRun else !s.holFirstRun && s.nextExpected == OrderAt(l, k))
  }

  /** The fragments 0..i of superframe k are held, and nothing else. */
  ghost predicate Holding(l: Link, s: State, k: nat, i: nat, deadline: int) {
    && Inv(s) && OnLink(l, k, i) && s.bucketMap.Keys == {OrderAt(l, k)}
    && Tracks(s.unwrapper, l.first, l.first + k)
    && Remembered(l, s, k + 1)
    && (HolMode(s) && !s.holFirstRun ==> s.nextExpected == OrderAt(l, k))
    && var b := s.buckets[Slot0(l, k)];
       && OrderAt(l, k) % BUCKETS == Slot0(l, k)
       && Reassembles(b, l.sent[k], No(l, k), l.mtu) && b.source == l.source
       && b.received == Positions(i) && b.timeout == deadline
  }

  /** A delivery of the k-th superframe, whole. */
  ghost predicate Intact(l: Link, d: Delivery, k: nat) {
    Faithful(l, d, k) && !d.broken
  }

  /** The states in which the fragment at position i of superframe k is the next to come. `deadline`
      is when the superframe times out, once its first fragment has come. */
  ghost function Awaiting(l: Link, k: nat, i: nat, deadline: int): iset<ValidState> {
    iset s: ValidState | if i == 0 then Idle(l, s, k) else Holding(l, s, k, i - 1, deadline)
  }

  /** Two receivers with the same settings. */
  ghost predicate SameSettings(s: State, s': State) {
    s.bucketTimeoutMs == s'.bucketTimeoutMs && s.holTimeoutMs == s'.holTimeoutMs
  }

  lemma Residues(l: Link, k: nat)
    ensures OrderAt(l, k) % BUCKETS == Slot0(l, k)
    ensures Next64(OrderAt(l, k)) == OrderAt(l, k + 1)
  {
    var t := l.first % TWO16 + k;
    assert OrderAt(l, k) == t % TWO64 && OrderAt(l, k + 1) == (t + 1) % TWO64;
    AddToLowBits(l.first, k);
    LowBits(t);
    LowBitsOfIndex(OrderAt(l, k));
    NextResidue(t);
  }

  /** The order of superframe k is not the one its bucket remembers. */
  lemma NotRemembered(l: Link, k: nat)
    ensures LastOrder(l, k, Slot0(l, k)) != OrderAt(l, k)
  {
    var i := Slot0(l, k);
    IndexOf(l, k);
    assert (l.first + k - 1 - i) % BUCKETS == BUCKETS - 1;
    var base := l.first - l.first % TWO16;
    if k >= BUCKETS {
      SameResidue(l.first + k - BUCKETS - base, l.first + k - base);
    }
  }

  lemma IndexOf(l: Link, k: nat)
    ensures Slot0(l, k) == (l.first + k) % BUCKETS
    ensures (l.first + k - Slot0(l, k)) % BUCKETS == 0
  {
    var t := l.first + k;
    assert t % TWO16 % BUCKETS == t % BUCKETS by { LowResidue(t); }
    assert t == BUCKETS * (t / BUCKETS) + t % BUCKETS;
  }

  lemma LowResidue(t: nat)
    ensures t % TWO16 % BUCKETS == t % BUCKETS
  {
    assert t == TWO16 * (t / TWO16) + t % TWO16;
  }

  /** One more superframe changes only what its own bucket remembers. */
  lemma LastOrderNext(l: Link, k: nat, i: nat)
    requires i < BUCKETS
    ensures LastOrder(l, k + 1, i) == if i == Slot0(l, k) then OrderAt(l, k) else LastOrder(l, k, i)
  {
    IndexOf(l, k);
    Distance(l.first + k, i);
  }

  /** How far back the last number lies that selects bucket i. */
  lemma Distance(t: nat, i: nat)
    requires i < BUCKETS
    ensures (t - i) % BUCKETS == 0 <==> i == t % BUCKETS
    ensures i != t % BUCKETS ==> (t - 1 - i) % BUCKETS == (t - i) % BUCKETS - 1
  {
    var q, r := t / BUCKETS, t % BUCKETS;
    if i < r {
      ResidueIs(t - i, q, r - i);
      ResidueIs(t - 1 - i, q, r - i - 1);
    } else if i > r {
      ResidueIs(t - i, q - 1, BUCKETS + r - i);
      ResidueIs(t - 1 - i, q - 1, BUCKETS + r - i - 1);
    } else {
      ResidueIs(t - i, q, 0);
    }
  }

  lemma ResidueIs(t: int, q: int, r: nat)
    requires r < BUCKETS && t == BUCKETS * q + r
    ensures t % BUCKETS == r
  {
  }

  // ---------------------------------------------------------------------------------------
  // Unpacking

  lemma OpenFirst(l: Link, s: State, k: nat, arrives: int)
    requires Idle(l, s, k) && OnLink(l, k, 0)
    ensures var p := PacketOf(l, k, 0);
            && !s.buckets[Slot0(l, k)].active
            && var (s1, msg) := Unpack(s, p, l.source, arrives);
               && msg == NoError && SameSettings(s, s1)
               && Holding(l, s1, k, 0, arrives + Micros(s.bucketTimeoutMs))
  {
    var p := PacketOf(l, k, 0);
    var f := l.sent[k];
    FirstUnwraps(l, s, k);
    Residues(l, k);
    UnpackKeepsInv(s, p, l.source, arrives);
    OpenReassembles(f, No(l, k), l.mtu, 0, s.streams[f.stream], l.source, OrderAt(l, k),
                    arrives + Micros(s.bucketTimeoutMs));
    var s1 := Unpack(s, p, l.source, arrives).0;
    assert Positions(0) == {0};
    OneMoreRemembered(l, s, s1, k);
  }

  /** Opening the bucket of superframe k makes it remember that one. */
  lemma OneMoreRemembered(l: Link, s: State, s1: State, k: nat)
    requires Inv(s) && Remembered(l, s, k) && Inv(s1) && s1.buckets[Slot0(l, k)].order == OrderAt(l, k)
    requires forall j :: 0 <= j < BUCKETS && j != Slot0(l, k) ==> s1.buckets[j] == s.buckets[j]
    ensures Remembered(l, s1, k + 1)
  {
    var k1 := k + 1;
    forall j | 0 <= j < BUCKETS ensures RemembersLast(l, s1, k1, j) {
      assert RemembersLast(l, s, k, j);
      LastOrderNext(l, k, j);
    }
  }

  /** The first fragment of superframe k finds its bucket free and remembering another order. */
  lemma FirstUnwraps(l: Link, s: State, k: nat)
    requires Idle(l, s, k)
    ensures !s.buckets[Slot0(l, k)].active
    ensures Tracks(Unwrap(s.unwrapper, No(l, k)), l.first, l.first + k)
    ensures s.buckets[Slot0(l, k)].order != OrderAt(l, k)
  {
    assert Filed(s, Slot0(l, k)) && RemembersLast(l, s, k, Slot0(l, k));
    NotRemembered(l, k);
    if k == 0 {
      TracksFirst(l.first);
    } else {
      StepReach(s.unwrapper, l.first, l.first + k - 1, l.first + k);
    }
  }

  lemma FillNext(l: Link, s: State, k: nat, i: nat, deadline: int, arrives: int)
    requires i > 0 && Holding(l, s, k, i - 1, deadline) && OnLink(l, k, i)
    ensures var p := PacketOf(l, k, i);
            && s.buckets[Slot0(l, k)].active && s.buckets[Slot0(l, k)].frame.Some?
            && var (s1, msg) := Unpack(s, p, l.source, arrives);
               && msg == NoError && SameSettings(s, s1)
               && Holding(l, s1, k, i, deadline)
               && s1.holFirstRun == s.holFirstRun
  {
    var p := PacketOf(l, k, i);
    var b := s.buckets[Slot0(l, k)];
    UnpackKeepsInv(s, p, l.source, arrives);
    PositionsAre(i - 1);
    FillReassembles(b, l.sent[k], No(l, k), l.mtu, i);
    assert Positions(i) == Positions(i - 1) + {i};
    var s1 := Unpack(s, p, l.source, arrives).0;
    assert s1.buckets[Slot0(l, k)] == Filled(b, p);
    var k1 := k + 1;
    forall j | 0 <= j < BUCKETS ensures RemembersLast(l, s1, k1, j) {
      assert RemembersLast(l, s, k + 1, j);
    }
  }

  // ---------------------------------------------------------------------------------------
  // The pass, with one bucket held

  lemma PassOne(s: State, o: u64, now: int)
    requires Inv(s) && s.bucketMap.Keys == {o}
    requires HolMode(s) && !s.holFirstRun ==> s.nextExpected == o
    ensures var (s', keys) := Pass(s, RunToCompletion, now);
            var b := At(s, o);
            && (Complete(b) ==> keys == [o])
            && (!Complete(b) && !Expired(b, if HolMode(s) then Micros(s.holTimeoutMs) else 0, now) ==> keys == [])
            && (HolMode(s) ==> !s'.holFirstRun && s'.nextExpected == if keys == [] then o else Next64(o))
  {
    OnlyOne(o);
    SettledInv(s, RunToCompletion, now);
    var s1 := Settled(s, RunToCompletion, now).value;
    assert At(s1, o) == At(s, o);
    ScanOne(s1, o, s1.nextExpected, now);
    assert Scan(s1, now).keys == Pass(s, RunToCompletion, now).1;
  }

  lemma ScanOne(s: State, o: u64, next: u64, now: int)
    requires Inv(s) && o in s.bucketMap
    ensures ScanHol(s, [o], next, now) ==
            if o == next && Complete(At(s, o)) then Scanned([o], Next64(next))
            else if Expired(At(s, o), Micros(s.holTimeoutMs), now) then Scanned([o], Next64(o))
            else Scanned([], next)
    ensures ScanFree(s, [o], now) == if Expired(At(s, o), 0, now) || Complete(At(s, o)) then [o] else []
  {
    assert [o][1..] == [];
  }

  lemma OnlyOne(o: u64)
    ensures Sorted({o}) == [o]
  {
    assert {o} - {o} == {};
  }

  lemma PassPartway(l: Link, s: State, k: nat, i: nat, deadline: int, now: int)
    requires Holding(l, s, k, i, deadline) && i < LastPosition(|l.sent[k].payload|, l.mtu)
    requires now < deadline + if HolMode(s) then Micros(s.holTimeoutMs) else 0
    ensures var (s', keys) := Pass(s, RunToCompletion, now);
            keys == [] && Holding(l, s', k, i, deadline) && SameSettings(s, s')
            && (HolMode(s') ==> !s'.holFirstRun)
  {
    var o := OrderAt(l, k);
    PassContract(s, RunToCompletion, now);
    PassOne(s, o, now);
    assert Points(s, o);
    var b := At(s, o);
    CompleteIffAll(b);
    PositionsAre(i);
    PositionsAre(LastPosition(|l.sent[k].payload|, l.mtu));
    assert LastPosition(|l.sent[k].payload|, l.mtu) !in b.received;
    PassRemembers(l, s, k + 1, now);
  }

  lemma PassRemembers(l: Link, s: State, k: nat, now: int)
    requires Inv(s) && Remembered(l, s, k)
    ensures var s' := Pass(s, RunToCompletion, now).0;
            Inv(s') && Remembered(l, s', k)
  {
    PassContract(s, RunToCompletion, now);
    var s' := Pass(s, RunToCompletion, now).0;
    forall j | 0 <= j < BUCKETS ensures RemembersLast(l, s', k, j) {
      assert RemembersLast(l, s, k, j);
    }
  }

  lemma PassComplete(l: Link, s: State, k: nat, deadline: int, now: int)
    requires OnLink(l, k, 0) && Holding(l, s, k, LastPosition(|l.sent[k].payload|, l.mtu), deadline)
    ensures var (s', keys) := Pass(s, RunToCompletion, now);
            && keys == [OrderAt(l, k)] && Lists(s, keys)
            && Intact(l, Deliveries(s, keys)[0], k)
            && Idle(l, s', k + 1) && SameSettings(s, s')
  {
    HeldWhole(l, s, k, deadline);
    PassHandsOut(l, s, k, now);
    PassRemembers(l, s, k + 1, now);
  }

  /** All fragments are there, and make up the superframe. */
  lemma HeldWhole(l: Link, s: State, k: nat, deadline: int)
    requires OnLink(l, k, 0) && Holding(l, s, k, LastPosition(|l.sent[k].payload|, l.mtu), deadline)
    ensures OrderAt(l, k) in s.bucketMap
    ensures var b := At(s, OrderAt(l, k)); Complete(b) && b.frame.Some? && Intact(l, Assemble(b), k)
  {
    var o := OrderAt(l, k);
    assert Points(s, o);
    var b := At(s, o);
    CompleteIffAll(b);
    AssembledFaithful(l, b, k);
  }

  /** The pass hands out the one bucket held, which is complete. */
  lemma PassHandsOut(l: Link, s: State, k: nat, now: int)
    requires Inv(s) && s.bucketMap.Keys == {OrderAt(l, k)} && Complete(At(s, OrderAt(l, k)))
    requires HolMode(s) && !s.holFirstRun ==> s.nextExpected == OrderAt(l, k)
    ensures var (s', keys) := Pass(s, RunToCompletion, now);
            && Inv(s') && keys == [OrderAt(l, k)] && Lists(s, keys) && SameSettings(s, s')
            && s'.bucketMap.Keys == {} && s'.unwrapper == s.unwrapper
            && (HolMode(s') ==> !s'.holFirstRun && s'.nextExpected == OrderAt(l, k + 1))
  {
    PassContract(s, RunToCompletion, now);
    PassOne(s, OrderAt(l, k), now);
    Residues(l, k);
    var s' := Pass(s, RunToCompletion, now).0;
    assert s'.bucketMap.Keys == {};
  }

  // ---------------------------------------------------------------------------------------
  // One call

  lemma ReceivePart(l: Link, s: ValidState, k: nat, i: nat, deadline: int, arrives: int, checks: int)
    requires OnLink(l, k, i) && i < LastPosition(|l.sent[k].payload|, l.mtu)
    requires s in Awaiting(l, k, i, deadline)
    requires i == 0 ==> deadline == arrives + Micros(s.bucketTimeoutMs)
    requires checks < deadline + if HolMode(s) then Micros(s.holTimeoutMs) else 0
    ensures var r := Receive(l, s, k, i, arrives, checks);
            && r.answers == [NoError] && r.delivered == []
            && r.s in Awaiting(l, k, i + 1, deadline) && SameSettings(s, r.s)
  {
    if i == 0 {
      OpenFirst(l, s, k, arrives);
    } else {
      FillNext(l, s, k, i, deadline, arrives);
    }
    var s1 := Unpack(s, PacketOf(l, k, i), l.source, arrives).0;
    PassPartway(l, s1, k, i, deadline, checks);
  }

  lemma ReceiveLast(l: Link, s: ValidState, k: nat, deadline: int, arrives: int, checks: int)
    requires OnLink(l, k, 0)
    requires s in Awaiting(l, k, LastPosition(|l.sent[k].payload|, l.mtu), deadline)
    ensures var r := Receive(l, s, k, LastPosition(|l.sent[k].payload|, l.mtu), arrives, checks);
            && r.answers == [NoError] && |r.delivered| == 1 && Intact(l, r.delivered[0], k)
            && r.s in Awaiting(l, k + 1, 0, 0) && SameSettings(s, r.s)
  {
    var last := LastPosition(|l.sent[k].payload|, l.mtu);
    if last == 0 {
      OpenFirst(l, s, k, arrives);
    } else {
      FillNext(l, s, k, last, deadline, arrives);
    }
    var s1 := Unpack(s, PacketOf(l, k, last), l.source, arrives).0;
    PassComplete(l, s1, k, if last == 0 then arrives + Micros(s.bucketTimeoutMs) else deadline, checks);
  }

  // ---------------------------------------------------------------------------------------
  // Whole runs

  /** The clock readings of a run: when the fragment at a position of a superframe is unpacked, and
      when the pass of the same call looks at the time-outs. */
  datatype Clock = Clock(arrives: (nat, nat) -> int, checks: (nat, nat) -> int)

  /** No superframe's time-out is reached before its last fragment comes. */
  ghost predicate NoTimeOut(l: Link, c: Clock, allowance: int) {
    forall k :: 0 <= k < |l.sent| ==> FrameInTime(l, c, allowance, k)
  }

  ghost predicate FrameInTime(l: Link, c: Clock, allowance: int, k: nat)
    requires k < |l.sent|
  {
    forall i: nat :: i < Count(l, k) - 1 ==> c.checks(k, i) < c.arrives(k, 0) + allowance
  }

  /** How long after its first fragment a superframe may still be completed. */
  function Allowance(s: State): int {
    1000 * s.bucketTimeoutMs % 0x1_0000_0000 + 1000 * s.holTimeoutMs % 0x1_0000_0000
  }

  /** How many fragments superframe k is sent in. */
  function Count(l: Link, k: nat): (n: nat)
    requires k < |l.sent|
    ensures n > 0 && OnLink(l, k, n - 1)
  {
    LastPosition(|l.sent[k].payload|, l.mtu) + 1
  }

  /** The first n fragments of superframe k, one call after the other. */
  function FeedFrame(l: Link, c: Clock, s: ValidState, k: nat, n: nat): Call {
    Steps((s: ValidState, i: nat) => Receive(l, s, k, i, c.arrives(k, i), c.checks(k, i)), s, n)
  }

  /** All fragments of superframes 0..n-1, in order. */
  function Feed(l: Link, c: Clock, s: ValidState, n: nat): Call {
    Steps((s: ValidState, k: nat) => if k < |l.sent| then FeedFrame(l, c, s, k, Count(l, k)) else Leg(s, [], []), s, n)
  }

  ghost predicate AllFine(answers: seq<Message>) {
    forall m :: m in answers ==> m == NoError
  }

  /** Superframes 0..n-1, each whole, in order. */
  ghost predicate InOrder(l: Link, ds: seq<Delivery>, n: nat) {
    |ds| == n && forall k :: 0 <= k < n ==> Intact(l, ds[k], k)
  }

  /** Until the last fragment of a superframe nothing is delivered. */
  ghost predicate Quiet(l: Link, k: nat, s: ValidState, deadline: int, i: nat, r: Call) {
    r.delivered == [] && AllFine(r.answers) && SameSettings(s, r.s) && r.s in Awaiting(l, k, i, deadline)
  }

  ghost function QuietCalls(l: Link, k: nat, s: ValidState, deadline: int, i: nat): iset<Call> {
    iset r: Call | Quiet(l, k, s, deadline, i, r)
  }

  lemma StaysQuiet(l: Link, c: Clock, s: ValidState, k: nat, i: nat, deadline: int, before: Call) returns (r: Call)
    requires OnLink(l, k, i + 1) && FrameInTime(l, c, Allowance(s), k)
    requires deadline == c.arrives(k, 0) + Micros(s.bucketTimeoutMs)
    requires before in QuietCalls(l, k, s, deadline, i)
    ensures r == Extended(before, Receive(l, before.s, k, i, c.arrives(k, i), c.checks(k, i)))
    ensures r in QuietCalls(l, k, s, deadline, i + 1)
  {
    assert c.checks(k, i) < c.arrives(k, 0) + Allowance(s);
    ReceivePart(l, before.s, k, i, deadline, c.arrives(k, i), c.checks(k, i));
    r := Extended(before, Receive(l, before.s, k, i, c.arrives(k, i), c.checks(k, i)));
  }

  /** Where the first n fragments of superframe k lead. */
  ghost predicate LeadsTo(l: Link, c: Clock, s: ValidState, k: nat, n: nat, call: Call) {
    call == FeedFrame(l, c, s, k, n)
  }

  ghost function FedTo(l: Link, c: Clock, s: ValidState, k: nat, n: nat): iset<Call> {
    iset call | LeadsTo(l, c, s, k, n, call)
  }

  lemma FedToIs(l: Link, c: Clock, s: ValidState, k: nat, n: nat, call: Call)
    ensures call in FedTo(l, c, s, k, n) <==> call == FeedFrame(l, c, s, k, n)
  {
    assert LeadsTo(l, c, s, k, n, call) <==> call == FeedFrame(l, c, s, k, n);
  }

  lemma NothingFed(l: Link, c: Clock, s: ValidState, k: nat)
    ensures Leg(s, [], []) in FedTo(l, c, s, k, 0)
  {
    assert LeadsTo(l, c, s, k, 0, Leg(s, [], []));
  }

  lemma OnlyOneFedTo(l: Link, c: Clock, s: ValidState, k: nat, n: nat, a: Call, b: Call)
    requires a in FedTo(l, c, s, k, n) && b in FedTo(l, c, s, k, n)
    ensures a == b
  {
    assert LeadsTo(l, c, s, k, n, a) && LeadsTo(l, c, s, k, n, b);
  }

  lemma FeedFrameGrows(l: Link, c: Clock, s: ValidState, k: nat, n: nat, before: Call, r: Call)
    requires before in FedTo(l, c, s, k, n)
    requires r == Extended(before, Receive(l, before.s, k, n, c.arrives(k, n), c.checks(k, n)))
    ensures r in FedTo(l, c, s, k, n + 1)
  {
    assert LeadsTo(l, c, s, k, n, before);
    assert LeadsTo(l, c, s, k, n + 1, r);
  }

  lemma OneMoreQuiet(l: Link, c: Clock, s: ValidState, k: nat, i: nat, deadline: int, before: Call) returns (r: Call)
    requires OnLink(l, k, i + 1) && FrameInTime(l, c, Allowance(s), k)
    requires deadline == c.arrives(k, 0) + Micros(s.bucketTimeoutMs)
    requires before in FedTo(l, c, s, k, i) && before in QuietCalls(l, k, s, deadline, i)
    ensures r in FedTo(l, c, s, k, i + 1) && r in QuietCalls(l, k, s, deadline, i + 1)
  {
    r := StaysQuiet(l, c, s, k, i, deadline, before);
    FeedFrameGrows(l, c, s, k, i, before, r);
  }

  lemma {:induction false} QuietUntil(l: Link, c: Clock, s: ValidState, k: nat, n: nat, deadline: int) returns (r: Call)
    requires OnLink(l, k, n) && FrameInTime(l, c, Allowance(s), k)
    requires deadline == c.arrives(k, 0) + Micros(s.bucketTimeoutMs)
    requires s in Awaiting(l, k, 0, 0)
    ensures r in FedTo(l, c, s, k, n) && r in QuietCalls(l, k, s, deadline, n)
  {
    if n == 0 {
      r := Leg(s, [], []);
      StartsQuiet(l, k, s, deadline);
      NothingFed(l, c, s, k);
    } else {
      r := QuietUntil(l, c, s, k, n - 1, deadline);
      r := OneMoreQuiet(l, c, s, k, n - 1, deadline, r);
    }
  }

  /** Nothing is delivered and nothing refused before the last fragment of a superframe. */
  lemma NothingEarly(l: Link, c: Clock, s: ValidState, k: nat, n: nat, deadline: int) returns (r: Call)
    requires OnLink(l, k, n) && FrameInTime(l, c, Allowance(s), k)
    requires deadline == c.arrives(k, 0) + Micros(s.bucketTimeoutMs)
    requires s in Awaiting(l, k, 0, 0)
    ensures r == FeedFrame(l, c, s, k, n)
    ensures r in QuietCalls(l, k, s, deadline, n)
  {
    r := QuietUntil(l, c, s, k, n, deadline);
    FedToIs(l, c, s, k, n, r);
  }

  lemma StartsQuiet(l: Link, k: nat, s: ValidState, deadline: int)
    requires s in Awaiting(l, k, 0, 0)
    ensures Leg(s, [], []) in QuietCalls(l, k, s, deadline, 0)
  {
    assert s in Awaiting(l, k, 0, deadline);
  }

  /** Superframe k came through, whole, and nothing else. */
  ghost predicate CameThrough(l: Link, k: nat, s: ValidState, r: Call) {
    AllFine(r.answers) && SameSettings(s, r.s) && |r.delivered| == 1 && Intact(l, r.delivered[0], k)
    && r.s in Awaiting(l, k + 1, 0, 0)
  }

  lemma LastOne(l: Link, s: ValidState, k: nat, deadline: int, n: nat, before: Call, arrives: int, checks: int)
    returns (r: Call)
    requires OnLink(l, k, 0) && n == LastPosition(|l.sent[k].payload|, l.mtu)
    requires before in QuietCalls(l, k, s, deadline, n)
    ensures r == Extended(before, Receive(l, before.s, k, n, arrives, checks))
    ensures CameThrough(l, k, s, r)
  {
    ReceiveLast(l, before.s, k, deadline, arrives, checks);
    r := Extended(before, Receive(l, before.s, k, n, arrives, checks));
  }

  ghost function Through(l: Link, k: nat, s: ValidState): iset<Call> {
    iset r: Call | CameThrough(l, k, s, r)
  }

  lemma LastOneFed(l: Link, c: Clock, s: ValidState, k: nat, deadline: int, n: nat, before: Call) returns (r: Call)
    requires OnLink(l, k, 0) && n == LastPosition(|l.sent[k].payload|, l.mtu)
    requires before in FedTo(l, c, s, k, n) && before in QuietCalls(l, k, s, deadline, n)
    ensures r in FedTo(l, c, s, k, n + 1) && r in Through(l, k, s)
  {
    r := LastOne(l, s, k, deadline, n, before, c.arrives(k, n), c.checks(k, n));
    FeedFrameGrows(l, c, s, k, n, before, r);
  }

  /** The call that brings the last fragment delivers the superframe. */
  lemma FrameDelivered(l: Link, c: Clock, s: ValidState, k: nat) returns (r: Call)
    requires k < |l.sent| && FrameInTime(l, c, Allowance(s), k)
    requires s in Awaiting(l, k, 0, 0)
    ensures r == FeedFrame(l, c, s, k, Count(l, k)) && CameThrough(l, k, s, r)
  {
    var n := Count(l, k) - 1;
    var deadline := c.arrives(k, 0) + Micros(s.bucketTimeoutMs);
    var before := QuietUntil(l, c, s, k, n, deadline);
    r := LastOneFed(l, c, s, k, deadline, n, before);
    FedToIs(l, c, s, k, n + 1, r);
  }

  lemma StartsIdle(l: Link, bucketTimeoutMs: u32, holTimeoutMs: u32)
    ensures Inv(Initial(bucketTimeoutMs, holTimeoutMs))
    ensures Initial(bucketTimeoutMs, holTimeoutMs) in Awaiting(l, 0, 0, 0)
  {
    InitialInv(bucketTimeoutMs, holTimeoutMs);
  }

  /** Lossless first-in first-out: for runs of any length, across every wrap of the 16-bit and of the
      64-bit number and every reuse of a bucket, with and without head-of-line blocking, exactly the
      sent superframes are delivered, in order and intact, and no packet is refused. */
  lemma LosslessFifo(l: Link, c: Clock, s0: ValidState, n: nat)
    requires s0 == Initial(s0.bucketTimeoutMs, s0.holTimeoutMs)
    requires n <= |l.sent| && NoTimeOut(l, c, Allowance(s0))
    ensures var r := Feed(l, c, s0, n);
            InOrder(l, r.delivered, n) && AllFine(r.answers) && r.s in Awaiting(l, n, 0, 0)
  {
    var step :=
      (s: ValidState, k: nat) => if k < |l.sent| then FeedFrame(l, c, s, k, Count(l, k)) else Leg(s, [], []);
    var keeps := (k: nat, r: Call) => r in CaughtUp(l, s0, k);
    StartsCaught(l, s0);
    forall k: nat, r: Call | k < n && keeps(k, r) ensures keeps(k + 1, Extended(r, step(r.s, k))) {
      CatchesUp(l, c, s0, k, r);
    }
    StepsKeep(step, keeps, s0, n);
    assert Caught(l, s0, n, Feed(l, c, s0, n));
  }

  /** Superframes 0..k-1 were received without a hitch. */
  ghost predicate Caught(l: Link, s0: ValidState, k: nat, r: Call) {
    InOrder(l, r.delivered, k) && AllFine(r.answers) && SameSettings(s0, r.s) && r.s in Awaiting(l, k, 0, 0)
  }

  ghost function CaughtUp(l: Link, s0: ValidState, k: nat): iset<Call> {
    iset r: Call | Caught(l, s0, k, r)
  }

  lemma StartsCaught(l: Link, s0: ValidState)
    requires s0 == Initial(s0.bucketTimeoutMs, s0.holTimeoutMs)
    ensures Leg(s0, [], []) in CaughtUp(l, s0, 0)
  {
    StartsIdle(l, s0.bucketTimeoutMs, s0.holTimeoutMs);
    assert Caught(l, s0, 0, Leg(s0, [], []));
  }

  lemma CatchesUp(l: Link, c: Clock, s0: ValidState, k: nat, r: Call)
    requires k < |l.sent| && NoTimeOut(l, c, Allowance(s0)) && r in CaughtUp(l, s0, k)
    ensures Extended(r, FeedFrame(l, c, r.s, k, Count(l, k))) in CaughtUp(l, s0, k + 1)
  {
    assert Caught(l, s0, k, r);
    var last := FrameDelivered(l, c, r.s, k);
    OneMoreThrough(l, s0, k, r, last);
  }

  lemma OneMoreThrough(l: Link, s0: ValidState, k: nat, r: Call, last: Call)
    requires Caught(l, s0, k, r) && CameThrough(l, k, r.s, last)
    ensures Extended(r, last) in CaughtUp(l, s0, k + 1)
  {
    assert Caught(l, s0, k + 1, Extended(r, last));
  }
}
