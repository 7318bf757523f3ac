/** A receiver object fed by an unreliable channel, and what its host's callback gets. */
module Serving {
  import opened Wire
  import opened Receiving
  import opened Delivery
  import opened Channel
  import opened ReceiverClass
  import Fifo
  import Loopback
  import Handoff
  import Progress

  /** A packet reaches the object. */
  method Arrives(r: Receiver, l: Link, k: nat, i: nat, now: int)
    requires r.Valid() && OnLink(l, k, i) && CopiesFit(r.Model(), PacketOf(l, k, i))
    modifies r.Repr()
    ensures r.Valid() && forall o :: o in r.Repr() ==> o in old(r.Repr()) || fresh(o)
    ensures r.Model() == Unpack(old(r.Model()), PacketOf(l, k, i), l.source, now).0
    ensures r.superFrameQueue == old(r.superFrameQueue)
  {
    FramesOwned(r.buckets);
    Loopback.ReadsBack(l, k, i);
    var msg, none := r.ReceiveFragmentFromPtr(Encode(PacketOf(l, k, i)), l.source, Threaded, true, now, now);
  }

  /** The time of a delivery pass comes. */
  method Passes(r: Receiver, mode: Mode, now: int) returns (delivered: seq<Delivery>, ghost keys: seq<u64>)
    requires r.Valid()
    modifies r.Repr()
    ensures r.Valid() && r.Repr() <= old(r.Repr())
    ensures (r.Model(), keys) == Pass(old(r.Model()), mode, now)
    ensures Lists(old(r.Model()), keys) && delivered == Deliveries(old(r.Model()), keys)
    ensures Queued(mode, r.superFrameQueue, old(r.superFrameQueue), delivered)
  {
    if mode.Threaded? {
      var queued := |r.superFrameQueue|;
      keys := r.WorkerPassWithin(now);
      delivered := r.superFrameQueue[queued..];
    } else {
      var list;
      list, delivered := r.RunToCompletionWithin(now);
      keys := list;
    }
  }

  /** One event reaches the object: a packet, or the time of a delivery pass. */
  method ServeOne(r: Receiver, l: Link, mode: Mode, e: Event, ghost y: System)
    returns (delivered: seq<Delivery>, ghost y': System)
    requires r.Valid() && Legal(l, e) && Inv(y.s) && r.Model() == y.s
    requires Unambiguous(l, y, e) && SoundSoFar(l, y)
    modifies r.Repr()
    ensures r.Valid() && forall o :: o in r.Repr() ==> o in old(r.Repr()) || fresh(o)
    ensures y' == Step(l, mode, y, e) && r.Model() == y'.s && y'.delivered == y.delivered + delivered
    ensures Queued(mode, r.superFrameQueue, old(r.superFrameQueue), delivered)
  {
    match e {
      case Arrive(k, i, now) =>
        CopiesInBounds(l, y, e);
        Arrives(r, l, k, i, now);
        delivered := [];
      case Tick(now) =>
        ghost var keys;
        delivered, keys := Passes(r, mode, now);
    }
    y' := Step(l, mode, y, e);
  }

  /** The system after the first n events. */
  ghost function Before(l: Link, mode: Mode, y: System, events: seq<Event>, n: nat): (y': System)
    requires Inv(y.s) && (forall e :: e in events ==> Legal(l, e)) && n <= |events|
    ensures Inv(y'.s)
  {
    if n == 0 then y else Step(l, mode, Before(l, mode, y, events, n - 1), events[n - 1])
  }

  lemma {:induction false} BeforeIs(l: Link, mode: Mode, y: System, events: seq<Event>, n: nat)
    requires Inv(y.s) && (forall e :: e in events ==> Legal(l, e)) && n <= |events|
    ensures forall e :: e in events[..n] ==> Legal(l, e)
    ensures Before(l, mode, y, events, n) == After(l, mode, y, events[..n])
  {
    if n > 0 {
      BeforeIs(l, mode, y, events, n - 1);
      assert events[..n][..n - 1] == events[..n - 1];
    }
  }

  lemma {:induction false} PrefixUnambiguous(l: Link, mode: Mode, y: System, events: seq<Event>, n: nat)
    requires Inv(y.s) && (forall e :: e in events ==> Legal(l, e)) && n <= |events|
    requires AllUnambiguous(l, mode, y, events)
    ensures forall e :: e in events[..n] ==> Legal(l, e)
    ensures AllUnambiguous(l, mode, y, events[..n])
  {
    if n == |events| {
      assert events[..n] == events;
    } else {
      var front := events[..|events| - 1];
      assert front[..n] == events[..n];
      PrefixUnambiguous(l, mode, y, front, n);
    }
  }

  /** What is known when the n-th event comes. */
  lemma WhenItComes(l: Link, mode: Mode, y: System, events: seq<Event>, n: nat)
    requires Inv(y.s) && SoundSoFar(l, y) && (forall e :: e in events ==> Legal(l, e)) && n < |events|
    requires AllUnambiguous(l, mode, y, events)
    ensures Legal(l, events[n])
    ensures Unambiguous(l, Before(l, mode, y, events, n), events[n]) && SoundSoFar(l, Before(l, mode, y, events, n))
  {
    assert events[n] in events;
    PrefixUnambiguous(l, mode, y, events, n + 1);
    BeforeIs(l, mode, y, events, n);
    var run := events[..n + 1];
    assert run[..|run| - 1] == events[..n] && run[|run| - 1] == events[n];
    SoundnessFrom(l, mode, y, events[..n]);
  }

  /** A state and deliveries that the system has after the first n events. */
  ghost predicate Through(l: Link, mode: Mode, y: System, events: seq<Event>, n: nat, s: State, delivered: seq<Delivery>) {
    && Inv(y.s) && SoundSoFar(l, y) && n <= |events|
    && (forall e :: e in events ==> Legal(l, e)) && AllUnambiguous(l, mode, y, events)
    && s == Before(l, mode, y, events, n).s
    && Before(l, mode, y, events, n).delivered == y.delivered + delivered
  }

  ghost function ThroughAll(l: Link, mode: Mode, y: System, events: seq<Event>, n: nat): iset<(State, seq<Delivery>)> {
    iset s, delivered | Through(l, mode, y, events, n, s, delivered) :: (s, delivered)
  }

  /** The object has gone through the first n events as the system has. */
  ghost predicate InStep(r: Receiver, l: Link, mode: Mode, y: System, events: seq<Event>, n: nat, delivered: seq<Delivery>)
    reads r, r.buckets, r.Repr()
  {
    r.Valid() && (r.Model(), delivered) in ThroughAll(l, mode, y, events, n)
  }

  /** The worker has put the deliveries on the queue. */
  ghost predicate Queued(mode: Mode, queue: seq<Delivery>, was: seq<Delivery>, delivered: seq<Delivery>) {
    mode.Threaded? ==> queue == was + delivered
  }

  ghost function QueueAfter(mode: Mode, was: seq<Delivery>, delivered: seq<Delivery>): iset<seq<Delivery>> {
    iset queue | Queued(mode, queue, was, delivered)
  }

  lemma Regroup<T>(a: seq<T>, b: seq<T>, c: seq<T>)
    ensures (a + b) + c == a + (b + c)
  {
  }

  lemma QueuedMore(mode: Mode, queue: seq<Delivery>, between: seq<Delivery>, more: seq<Delivery>, was: seq<Delivery>,
                   delivered: seq<Delivery>)
    requires between in QueueAfter(mode, was, delivered) && queue in QueueAfter(mode, between, more)
    ensures queue in QueueAfter(mode, was, delivered + more)
  {
    assert Queued(mode, between, was, delivered) && Queued(mode, queue, between, more);
    Regroup(was, delivered, more);
  }

  method ServeNth(r: Receiver, l: Link, mode: Mode, events: seq<Event>, n: nat, soFar: seq<Delivery>, ghost y: System)
    returns (delivered: seq<Delivery>)
    requires n < |events| && InStep(r, l, mode, y, events, n, soFar)
    modifies r.Repr()
    ensures InStep(r, l, mode, y, events, n + 1, soFar + delivered)
    ensures forall o :: o in r.Repr() ==> o in old(r.Repr()) || fresh(o)
    ensures r.superFrameQueue in QueueAfter(mode, old(r.superFrameQueue), delivered)
  {
    assert Through(l, mode, y, events, n, r.Model(), soFar);
    WhenItComes(l, mode, y, events, n);
    ghost var next;
    delivered, next := ServeOne(r, l, mode, events[n], Before(l, mode, y, events, n));
    assert next == Before(l, mode, y, events, n + 1);
    Regroup(y.delivered, soFar, delivered);
    assert Through(l, mode, y, events, n + 1, r.Model(), soFar + delivered);
  }

  method ServeAll(r: Receiver, l: Link, mode: Mode, events: seq<Event>, ghost y: System) returns (delivered: seq<Delivery>)
    requires InStep(r, l, mode, y, events, 0, [])
    modifies r.Repr()
    ensures InStep(r, l, mode, y, events, |events|, delivered)
    ensures r.superFrameQueue in QueueAfter(mode, old(r.superFrameQueue), delivered)
  {
    delivered := [];
    for n := 0 to |events|
      invariant forall o :: o in r.Repr() ==> o in old(r.Repr()) || fresh(o)
      invariant InStep(r, l, mode, y, events, n, delivered)
      invariant r.superFrameQueue in QueueAfter(mode, old(r.superFrameQueue), delivered)
    {
      ghost var queue := r.superFrameQueue;
      var ds := ServeNth(r, l, mode, events, n, delivered, y);
      QueuedMore(mode, r.superFrameQueue, queue, ds, old(r.superFrameQueue), delivered);
      delivered := delivered + ds;
    }
  }

  /** End-to-end soundness of the object: whatever the channel does to the packets, every delivery is
      made of one sent superframe's fragments, and one that is not marked broken is that superframe. In
      the threaded mode the deliveries are what the worker queues. */
  method Serve(r: Receiver, l: Link, mode: Mode, events: seq<Event>) returns (delivered: seq<Delivery>, ghost who: seq<nat>)
    requires r.Valid() && r.Model() == Initial(r.bucketTimeoutMs, r.holTimeoutMs)
    requires forall e :: e in events ==> Legal(l, e)
    requires AllUnambiguous(l, mode, Start(r.bucketTimeoutMs, r.holTimeoutMs), events)
    modifies r.Repr()
    ensures r.Valid() && AllFaithful(l, delivered, who)
    ensures var y := After(l, mode, Start(r.bucketTimeoutMs, r.holTimeoutMs), events);
            r.Model() == y.s && delivered == y.delivered && who == y.who
    ensures Queued(mode, r.superFrameQueue, old(r.superFrameQueue), delivered)
  {
    ghost var y := Start(r.bucketTimeoutMs, r.holTimeoutMs);
    assert Through(l, mode, y, events, 0, r.Model(), []);
    delivered := ServeAll(r, l, mode, events, y);
    assert Through(l, mode, y, events, |events|, r.Model(), delivered);
    BeforeIs(l, mode, y, events, |events|);
    assert events[..|events|] == events && [] + delivered == delivered;
    SoundnessFrom(l, mode, y, events);
    who := After(l, mode, y, events).who;
  }

  // ---------------------------------------------------------------------------------------
  // Run to completion: unpacking and the pass are one call

  /** A call with the packet at a position of a superframe, and the clock when it is unpacked and when
      the pass looks at the time-outs. */
  datatype Received = Received(frame: nat, position: nat, arrives: int, checks: int)

  ghost predicate OnLinkAll(l: Link, calls: seq<Received>) {
    forall c :: c in calls ==> OnLink(l, c.frame, c.position)
  }

  /** The events of the system that the calls stand for. */
  ghost function Events(calls: seq<Received>): seq<Event> {
    if calls == [] then []
    else
      var c := calls[|calls| - 1];
      Events(calls[..|calls| - 1]) + [Arrive(c.frame, c.position, c.arrives)] + [Tick(c.checks)]
  }

  /** The system after a call. */
  ghost function Called(l: Link, y: System, c: Received): (y': System)
    requires Inv(y.s) && OnLink(l, c.frame, c.position)
    ensures Inv(y'.s)
  {
    Step(l, RunToCompletion, Step(l, RunToCompletion, y, Arrive(c.frame, c.position, c.arrives)), Tick(c.checks))
  }

  lemma {:induction false} EventsLegal(l: Link, calls: seq<Received>)
    requires OnLinkAll(l, calls)
    ensures forall e :: e in Events(calls) ==> Legal(l, e)
  {
    if calls != [] {
      EventsLegal(l, calls[..|calls| - 1]);
    }
  }

  /** What one more event adds to a run. */
  lemma OneMore(l: Link, mode: Mode, y: System, run: seq<Event>, e: Event)
    requires Inv(y.s) && (forall d :: d in run ==> Legal(l, d)) && Legal(l, e)
    ensures forall d :: d in run + [e] ==> Legal(l, d)
    ensures After(l, mode, y, run + [e]) == Step(l, mode, After(l, mode, y, run), e)
    ensures AllUnambiguous(l, mode, y, run + [e]) <==>
            AllUnambiguous(l, mode, y, run) && Unambiguous(l, After(l, mode, y, run), e)
  {
    assert (run + [e])[..|run|] == run && (run + [e])[|run|] == e;
  }

  /** The calls are with packets of the link, and the channel keeps its promise about equal numbers. */
  ghost predicate GoodCalls(l: Link, y: System, calls: seq<Received>)
    requires Inv(y.s)
  {
    && OnLinkAll(l, calls) && (forall e :: e in Events(calls) ==> Legal(l, e))
    && AllUnambiguous(l, RunToCompletion, y, Events(calls))
  }

  /** What the last call adds to a run. */
  lemma LastCall(l: Link, y: System, calls: seq<Received>)
    requires Inv(y.s) && calls != [] && GoodCalls(l, y, calls)
    ensures GoodCalls(l, y, calls[..|calls| - 1])
    ensures var before := After(l, RunToCompletion, y, Events(calls[..|calls| - 1]));
            var c := calls[|calls| - 1];
            && OnLink(l, c.frame, c.position)
            && After(l, RunToCompletion, y, Events(calls)) == Called(l, before, c)
            && Unambiguous(l, before, Arrive(c.frame, c.position, c.arrives))
  {
    var front := Events(calls[..|calls| - 1]);
    var c := calls[|calls| - 1];
    assert c in calls;
    EventsLegal(l, calls[..|calls| - 1]);
    OneMore(l, RunToCompletion, y, front, Arrive(c.frame, c.position, c.arrives));
    OneMore(l, RunToCompletion, y, front + [Arrive(c.frame, c.position, c.arrives)], Tick(c.checks));
  }

  /** One call reaches the object. */
  method ServeCall(r: Receiver, l: Link, c: Received, ghost y: System) returns (delivered: seq<Delivery>)
    requires r.Valid() && OnLink(l, c.frame, c.position) && Inv(y.s) && r.Model() == y.s
    requires Unambiguous(l, y, Arrive(c.frame, c.position, c.arrives)) && SoundSoFar(l, y)
    modifies r.Repr()
    ensures r.Valid() && forall o :: o in r.Repr() ==> o in old(r.Repr()) || fresh(o)
    ensures r.Model() == Called(l, y, c).s && Called(l, y, c).delivered == y.delivered + delivered
  {
    CopiesInBounds(l, y, Arrive(c.frame, c.position, c.arrives));
    FramesOwned(r.buckets);
    CallIsReceive(l, y, c);
    var msg;
    msg, delivered := Loopback.ReceivePacket(r, l, c.frame, c.position, Encode(PacketOf(l, c.frame, c.position)),
                                             c.arrives, c.checks);
  }

  lemma CallIsReceive(l: Link, y: System, c: Received)
    requires OnLink(l, c.frame, c.position) && Inv(y.s)
    ensures var call := Fifo.Receive(l, y.s, c.frame, c.position, c.arrives, c.checks);
            Called(l, y, c).s == call.s && Called(l, y, c).delivered == y.delivered + call.delivered
  {
  }

  /** The object has gone through the calls as the system has. */
  ghost predicate InStepDirect(r: Receiver, l: Link, y: System, calls: seq<Received>, delivered: seq<Delivery>)
    reads r, r.buckets, r.Repr()
  {
    && r.Valid() && Inv(y.s) && OnLinkAll(l, calls) && (forall e :: e in Events(calls) ==> Legal(l, e))
    && r.Model() == After(l, RunToCompletion, y, Events(calls)).s
    && After(l, RunToCompletion, y, Events(calls)).delivered == y.delivered + delivered
  }

  method ServeCalls(r: Receiver, l: Link, calls: seq<Received>, ghost y: System) returns (delivered: seq<Delivery>)
    requires InStepDirect(r, l, y, [], []) && SoundSoFar(l, y) && GoodCalls(l, y, calls)
    modifies r.Repr()
    ensures InStepDirect(r, l, y, calls, delivered)
    ensures forall o :: o in r.Repr() ==> o in old(r.Repr()) || fresh(o)
    decreases |calls|
  {
    if calls == [] {
      return [];
    }
    var front := calls[..|calls| - 1];
    LastCall(l, y, calls);
    var soFar := ServeCalls(r, l, front, y);
    SoundnessFrom(l, RunToCompletion, y, Events(front));
    var ds := ServeCall(r, l, calls[|calls| - 1], After(l, RunToCompletion, y, Events(front)));
    Regroup(y.delivered, soFar, ds);
    return soFar + ds;
  }

  /** End-to-end soundness of the object run to completion: each call unpacks a packet and delivers to
      the host before it returns. */
  method ServeDirect(r: Receiver, l: Link, calls: seq<Received>) returns (delivered: seq<Delivery>, ghost who: seq<nat>)
    requires r.Valid() && r.Model() == Initial(r.bucketTimeoutMs, r.holTimeoutMs)
    requires GoodCalls(l, Start(r.bucketTimeoutMs, r.holTimeoutMs), calls)
    modifies r.Repr()
    ensures r.Valid() && AllFaithful(l, delivered, who)
    ensures var y := After(l, RunToCompletion, Start(r.bucketTimeoutMs, r.holTimeoutMs), Events(calls));
            r.Model() == y.s && delivered == y.delivered && who == y.who
  {
    ghost var y := Start(r.bucketTimeoutMs, r.holTimeoutMs);
    delivered := ServeCalls(r, l, calls, y);
    assert [] + delivered == delivered;
    SoundnessFrom(l, RunToCompletion, y, Events(calls));
    who := After(l, RunToCompletion, y, Events(calls)).who;
  }

  /** Down to the host's callback in the threaded mode: if what the worker has pushed so far is what its
      passes have delivered so far, then whatever the threads' interleaving, the callback has got the
      first of these deliveries, in order, and each is faithful. */
  lemma CallbackSound(l: Link, bucketTimeoutMs: u32, holTimeoutMs: u32, events: seq<Event>,
                      run: seq<Handoff.Step<Delivery>>)
    requires forall e :: e in events ==> Legal(l, e)
    requires AllUnambiguous(l, Threaded, Start(bucketTimeoutMs, holTimeoutMs), events)
    requires Handoff.Possible(Handoff.Start<Delivery>(), run)
    requires Handoff.Pushes(run) <= After(l, Threaded, Start(bucketTimeoutMs, holTimeoutMs), events).delivered
    ensures var y := After(l, Threaded, Start(bucketTimeoutMs, holTimeoutMs), events);
            var h := Handoff.After(Handoff.Start<Delivery>(), run);
            && h.called <= y.delivered && |h.called| <= |y.who|
            && AllFaithful(l, h.called, y.who[..|h.called|])
  {
    EndToEnd(l, Threaded, bucketTimeoutMs, holTimeoutMs, events);
    Handoff.CallbacksArePushes(run);
  }
  /** While the receiver runs, once the worker has queued the deliveries of a run the host's callback gets
      all of them, whatever is queued after them: after three steps of the delivery thread for each, and
      one more. */
  lemma CallbackComplete(l: Link, bucketTimeoutMs: u32, holTimeoutMs: u32, events: seq<Event>,
                         run: seq<Handoff.Step<Delivery>>, more: seq<Handoff.Step<Delivery>>)
    requires forall e :: e in events ==> Legal(l, e)
    requires AllUnambiguous(l, Threaded, Start(bucketTimeoutMs, holTimeoutMs), events)
    requires Handoff.Possible(Handoff.Start<Delivery>(), run) && Handoff.ClearActive !in run
    requires Handoff.Pushes(run) == After(l, Threaded, Start(bucketTimeoutMs, holTimeoutMs), events).delivered
    requires Handoff.Possible(Handoff.After(Handoff.Start<Delivery>(), run), more) && Handoff.ClearActive !in more
    requires Handoff.DeliverySteps(more) >= 3 * |Handoff.Pushes(run)| + 1
    ensures var y := After(l, Threaded, Start(bucketTimeoutMs, holTimeoutMs), events);
            var h := Handoff.After(Handoff.After(Handoff.Start<Delivery>(), run), more);
            y.delivered <= h.called && AllFaithful(l, h.called[..|y.delivered|], y.who)
  {
    EndToEnd(l, Threaded, bucketTimeoutMs, holTimeoutMs, events);
    Handoff.CallbacksArePushes(run);
    Progress.RunPassesOn(Handoff.Start<Delivery>(), run, 0);
    Handoff.PushedIs(Handoff.Start<Delivery>(), run);
    Progress.PassesOn(Handoff.After(Handoff.Start<Delivery>(), run), more);
    assert [] + Handoff.Pushes(run) == Handoff.Pushes(run);
  }
}
