/** No superframe is delivered twice, and exactly when a fragment is refused as too old. */
module AtMostOnce {
  import opened Wire
  import opened Sequencing
  import opened Receiving
  import opened Delivery
  import opened Channel

  /** The channel's part of the bargain: no fragment of a superframe arrives after its bucket was
      opened for a later one, and the numbers that are unwrapped stay within reach of each other. */
  ghost predicate Orderly(l: Link, y: System, e: Event)
    requires Inv(y.s) && Legal(l, e)
  {
    e.Arrive? ==>
      && (Slot0(l, e.frame) in y.owners ==> y.owners[Slot0(l, e.frame)] <= e.frame)
      && (!y.s.buckets[Slot0(l, e.frame)].active && !y.s.unwrapper.firstTime ==>
            Near(y.lastSeen, l.first + e.frame))
  }

  /** Bucket i remembers the unwrapped number of the superframe it was last opened for. */
  ghost predicate Remembers(l: Link, y: System, i: nat)
    requires Inv(y.s) && i < BUCKETS
  {
    if i in y.owners then
      && !y.s.unwrapper.firstTime
      && Slot0(l, y.owners[i]) == i
      && y.s.buckets[i].order == OrderOf(y.firstSeen, l.first + y.owners[i])
    else !y.s.buckets[i].active && y.s.buckets[i].order == UINT64_MAX
  }

  /** A delivered superframe is one its bucket was opened for, and is under way no more. */
  ghost predicate DoneWith(l: Link, y: System, k: nat)
    requires Inv(y.s)
  {
    var i := Slot0(l, k);
    && i in y.owners && k <= y.owners[i]
    && (k == y.owners[i] ==> !y.s.buckets[i].active)
  }

  ghost predicate Distinct(who: seq<nat>) {
    forall j, m :: 0 <= j < m < |who| ==> who[j] != who[m]
  }

  ghost predicate OnceSoFar(l: Link, y: System)
    requires Inv(y.s)
  {
    && (!y.s.unwrapper.firstTime ==> Tracks(y.s.unwrapper, y.firstSeen, y.lastSeen))
    && (y.s.unwrapper.firstTime ==> y.s.unwrapper == START)
    && (forall i :: 0 <= i < BUCKETS ==> Remembers(l, y, i))
    && (forall k :: k in y.who ==> DoneWith(l, y, k))
    && Distinct(y.who)
  }

  /** The unwrapper follows an arrival that reaches it. */
  lemma UnwrapArrival(l: Link, y: System, k: nat)
    requires Inv(y.s) && OnceSoFar(l, y)
    requires !y.s.unwrapper.firstTime ==> Near(y.lastSeen, l.first + k)
    ensures var u := Unwrap(y.s.unwrapper, No(l, k));
            var first := if y.s.unwrapper.firstTime then l.first + k else y.firstSeen;
            Tracks(u, first, l.first + k)
  {
    if y.s.unwrapper.firstTime {
      TracksFirst(l.first + k);
    } else {
      StepReach(y.s.unwrapper, y.firstSeen, y.lastSeen, l.first + k);
    }
  }

  /** The true number of the first superframe unwrapped, once superframe k has been. */
  function FirstSeen(l: Link, y: System, k: nat): nat {
    if y.s.unwrapper.firstTime then l.first + k else y.firstSeen
  }

  /** A bucket not in use answers by comparing the unwrapped number with the one it remembers. */
  lemma AnswerIfFree(l: Link, y: System, e: Event) returns (order: u64)
    requires Inv(y.s) && Legal(l, e) && e.Arrive? && OnceSoFar(l, y) && Orderly(l, y, e)
    requires !y.s.buckets[Slot0(l, e.frame)].active
    ensures order == OrderOf(FirstSeen(l, y, e.frame), l.first + e.frame)
    ensures Answer(l, y, e) == TooOldFragment <==> order == y.s.buckets[Slot0(l, e.frame)].order
  {
    UnwrapArrival(l, y, e.frame);
    order := Unwrap(y.s.unwrapper, No(l, e.frame)).recalc;
  }

  /** A fragment that finds its bucket not in use is refused as too old if and only if its bucket
      was last opened for that very superframe (or one a multiple of 2^64 away), or the bucket was
      never opened and the superframe is the one just before the 65536-block of the first one seen. */
  lemma RefusedIff(l: Link, y: System, e: Event)
    requires Inv(y.s) && Legal(l, e) && e.Arrive? && OnceSoFar(l, y) && Orderly(l, y, e)
    requires !y.s.buckets[Slot0(l, e.frame)].active
    ensures var i := Slot0(l, e.frame);
            var first := FirstSeen(l, y, e.frame);
            Answer(l, y, e) == TooOldFragment <==>
              if i in y.owners then (e.frame - y.owners[i]) % TWO64 == 0
              else (l.first + e.frame - (first - first % TWO16) + 1) % TWO64 == 0
  {
    var k := e.frame;
    var i := Slot0(l, k);
    var order := AnswerIfFree(l, y, e);
    var last := RememberedOrder(l, y, i);
    RefusedArithmetic(FirstSeen(l, y, k), l.first, k, if i in y.owners then y.owners[i] else 0);
  }

  /** The order a bucket not in use compares with. */
  lemma RememberedOrder(l: Link, y: System, i: nat) returns (order: u64)
    requires Inv(y.s) && OnceSoFar(l, y) && i < BUCKETS
    ensures order == y.s.buckets[i].order
    ensures order == if i in y.owners then OrderOf(y.firstSeen, l.first + y.owners[i]) else UINT64_MAX
    ensures i in y.owners ==> !y.s.unwrapper.firstTime
  {
    assert Remembers(l, y, i);
    order := y.s.buckets[i].order;
  }

  lemma RefusedArithmetic(first: nat, base: nat, k: nat, owner: nat)
    ensures OrderOf(first, base + k) == OrderOf(first, base + owner) <==> (k - owner) % TWO64 == 0
    ensures OrderOf(first, base + k) == UINT64_MAX <==> (base + k - (first - first % TWO16) + 1) % TWO64 == 0
  {
    OrdersAgree(first, base + k, base + owner);
    assert base + k - (base + owner) == k - owner;
    NeverGiven(first, base + k);
  }

  lemma OrdersAgree(first: nat, a: nat, b: nat)
    ensures OrderOf(first, a) == OrderOf(first, b) <==> (a - b) % TWO64 == 0
  {
    var base := first - first % TWO16;
    SameOrder(a - base, b - base);
    assert (a - base) - (b - base) == a - b;
  }

  lemma NeverGiven(first: nat, a: nat)
    ensures OrderOf(first, a) == UINT64_MAX <==> (a - (first - first % TWO16) + 1) % TWO64 == 0
  {
    SameOrder(a - (first - first % TWO16), -1);
  }

  lemma SameOrder(a: int, b: int)
    ensures a % TWO64 == b % TWO64 <==> (a - b) % TWO64 == 0
  {
    assert a == TWO64 * (a / TWO64) + a % TWO64;
    assert b == TWO64 * (b / TWO64) + b % TWO64;
    var q := a / TWO64 - b / TWO64;
    assert a - b == TWO64 * q + (a % TWO64 - b % TWO64);
  }

  lemma ArriveOnce(l: Link, mode: Mode, y: System, e: Event)
    requires Inv(y.s) && Legal(l, e) && e.Arrive? && OnceSoFar(l, y) && Orderly(l, y, e)
    ensures OnceSoFar(l, Step(l, mode, y, e))
  {
    var y' := Step(l, mode, y, e);
    ArriveTracks(l, mode, y, e);
    forall j | 0 <= j < BUCKETS ensures Remembers(l, y', j) {
      ArriveRemembers(l, mode, y, e, j);
    }
    forall w | w in y.who ensures DoneWith(l, y', w) {
      ArriveLeavesDone(l, mode, y, e, w);
    }
  }

  lemma ArriveTracks(l: Link, mode: Mode, y: System, e: Event)
    requires Inv(y.s) && Legal(l, e) && e.Arrive? && OnceSoFar(l, y) && Orderly(l, y, e)
    ensures var y' := Step(l, mode, y, e);
            && y'.who == y.who
            && (!y'.s.unwrapper.firstTime ==> Tracks(y'.s.unwrapper, y'.firstSeen, y'.lastSeen))
            && (y'.s.unwrapper.firstTime ==> y'.s.unwrapper == START)
  {
    var i := Slot0(l, e.frame);
    assert Remembers(l, y, i);
    if !y.s.buckets[i].active {
      UnwrapArrival(l, y, e.frame);
    }
  }

  lemma ArriveLeavesDone(l: Link, mode: Mode, y: System, e: Event, w: nat)
    requires Inv(y.s) && Legal(l, e) && e.Arrive? && OnceSoFar(l, y) && Orderly(l, y, e) && w in y.who
    ensures DoneWith(l, Step(l, mode, y, e), w)
  {
    var i := Slot0(l, e.frame);
    assert DoneWith(l, y, w) && Remembers(l, y, i);
    if !y.s.buckets[i].active && w == e.frame {
      DeliveredIsTooOld(l, y, e);
    }
  }

  lemma ArriveRemembers(l: Link, mode: Mode, y: System, e: Event, j: nat)
    requires Inv(y.s) && Legal(l, e) && e.Arrive? && OnceSoFar(l, y) && Orderly(l, y, e) && j < BUCKETS
    ensures Remembers(l, Step(l, mode, y, e), j)
  {
    assert Remembers(l, y, j);
    if j == Slot0(l, e.frame) && !y.s.buckets[j].active {
      UnwrapArrival(l, y, e.frame);
      OpeningRemembers(l, mode, y, e);
    } else {
      OthersRemember(l, mode, y, e, j);
    }
  }

  lemma OpeningRemembers(l: Link, mode: Mode, y: System, e: Event)
    requires Inv(y.s) && Legal(l, e) && e.Arrive?
    requires !y.s.buckets[Slot0(l, e.frame)].active && Remembers(l, y, Slot0(l, e.frame))
    requires Tracks(Unwrap(y.s.unwrapper, No(l, e.frame)), FirstSeen(l, y, e.frame), l.first + e.frame)
    ensures Remembers(l, Step(l, mode, y, e), Slot0(l, e.frame))
  {
  }

  lemma OthersRemember(l: Link, mode: Mode, y: System, e: Event, j: nat)
    requires Inv(y.s) && Legal(l, e) && e.Arrive? && j < BUCKETS && Remembers(l, y, j)
    requires j == Slot0(l, e.frame) ==> y.s.buckets[j].active
    ensures Remembers(l, Step(l, mode, y, e), j)
  {
  }

  lemma TickOnce(l: Link, mode: Mode, y: System, e: Event)
    requires Inv(y.s) && e.Tick? && OnceSoFar(l, y)
    ensures OnceSoFar(l, Step(l, mode, y, e))
  {
    PassContract(y.s, mode, e.now);
    var keys := Pass(y.s, mode, e.now).1;
    var y' := Step(l, mode, y, e);
    forall j | 0 <= j < BUCKETS ensures Remembers(l, y', j) {
      TickRemembers(l, mode, y, e, j);
    }
    var more := y'.who[|y.who|..];
    forall m | 0 <= m < |keys|
      ensures more[m] == Owner(y, keys[m])
      ensures DoneWith(l, y', more[m]) && more[m] !in y.who && Slot0(l, more[m]) == keys[m] % BUCKETS
    {
      DeliveredOwner(l, mode, y, e, m);
    }
    forall a, b | 0 <= a < b < |more| ensures more[a] != more[b] {
      assert keys[a] in keys && keys[b] in keys;
      DifferentBuckets(y.s, keys[a], keys[b]);
    }
    Appended(y.who, more);
    forall w | w in y'.who ensures DoneWith(l, y', w) {
      if w in y.who {
        TickLeavesDone(l, mode, y, e, w);
      }
    }
  }

  lemma TickRemembers(l: Link, mode: Mode, y: System, e: Event, j: nat)
    requires Inv(y.s) && e.Tick? && OnceSoFar(l, y) && j < BUCKETS
    ensures Remembers(l, Step(l, mode, y, e), j)
  {
    PassContract(y.s, mode, e.now);
    assert Remembers(l, y, j);
  }

  lemma TickLeavesDone(l: Link, mode: Mode, y: System, e: Event, w: nat)
    requires Inv(y.s) && e.Tick? && OnceSoFar(l, y) && w in y.who
    ensures DoneWith(l, Step(l, mode, y, e), w)
  {
    PassContract(y.s, mode, e.now);
    assert DoneWith(l, y, w);
  }

  lemma Appended(who: seq<nat>, more: seq<nat>)
    requires Distinct(who) && Distinct(more) && forall m :: 0 <= m < |more| ==> more[m] !in who
    ensures Distinct(who + more)
  {
  }

  lemma DifferentBuckets(s: State, k: u64, k': u64)
    requires Inv(s) && k in s.bucketMap && k' in s.bucketMap && k != k'
    ensures k % BUCKETS != k' % BUCKETS
  {
    assert Points(s, k) && Points(s, k');
  }

  lemma DeliveredOwner(l: Link, mode: Mode, y: System, e: Event, m: nat)
    requires Inv(y.s) && e.Tick? && OnceSoFar(l, y)
    requires m < |Pass(y.s, mode, e.now).1|
    ensures var key := Pass(y.s, mode, e.now).1[m];
            && DoneWith(l, Step(l, mode, y, e), Owner(y, key)) && Owner(y, key) !in y.who
            && Slot0(l, Owner(y, key)) == key % BUCKETS
  {
    PassContract(y.s, mode, e.now);
    var key := Pass(y.s, mode, e.now).1[m];
    assert key in Pass(y.s, mode, e.now).1;
    assert Points(y.s, key);
    assert Remembers(l, y, key % BUCKETS);
  }

  ghost predicate AllOrderly(l: Link, mode: Mode, y: System, events: seq<Event>)
    requires Inv(y.s) && forall e :: e in events ==> Legal(l, e)
  {
    events != [] ==>
      && AllOrderly(l, mode, y, events[..|events| - 1])
      && Orderly(l, After(l, mode, y, events[..|events| - 1]), events[|events| - 1])
  }

  /** Over a whole run, no superframe is delivered twice. */
  lemma {:induction false} DeliveredAtMostOnce(l: Link, mode: Mode, bucketTimeoutMs: u32, holTimeoutMs: u32,
                                               events: seq<Event>)
    requires forall e :: e in events ==> Legal(l, e)
    requires AllOrderly(l, mode, Start(bucketTimeoutMs, holTimeoutMs), events)
    ensures var y := After(l, mode, Start(bucketTimeoutMs, holTimeoutMs), events);
            OnceSoFar(l, y) && Distinct(y.who)
  {
    if events != [] {
      var n := |events| - 1;
      DeliveredAtMostOnce(l, mode, bucketTimeoutMs, holTimeoutMs, events[..n]);
      var y := After(l, mode, Start(bucketTimeoutMs, holTimeoutMs), events[..n]);
      if events[n].Arrive? {
        ArriveOnce(l, mode, y, events[n]);
      } else {
        TickOnce(l, mode, y, events[n]);
      }
    }
  }

  /** A later fragment of a delivered superframe is refused as too old. */
  lemma DeliveredIsTooOld(l: Link, y: System, e: Event)
    requires Inv(y.s) && Legal(l, e) && e.Arrive? && OnceSoFar(l, y) && Orderly(l, y, e)
    requires e.frame in y.who
    ensures Answer(l, y, e) == TooOldFragment
  {
    assert DoneWith(l, y, e.frame);
    assert y.owners[Slot0(l, e.frame)] == e.frame;
    RefusedIff(l, y, e);
  }
}
