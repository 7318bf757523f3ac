/** What the delivery thread passes on while the receiver runs. */
module Progress {
  import opened Handoff

  /** At the lock with something queued, the thread pops the first frame and calls back with it. */
  lemma HandsOver<T>(s: State<T>)
    requires Inv(s) && s.pc.AtLock? && s.queue != []
    ensures Possible(s, [TakeLock, CallBack])
    ensures var s' := After(s, [TakeLock, CallBack]);
            s'.called == s.called + [s.queue[0]] && s'.queue == s.queue[1..] && s'.pushed == s.pushed && s'.pc.Top?
  {
    var run: seq<Step<T>> := [TakeLock, CallBack];
    var s1 := Next(s, TakeLock);
    var s2 := Next(s1, CallBack);
    var rest := run[1..];
    assert rest[0] == CallBack && rest[1..] == [];
    assert Possible(s2, rest[1..]) && After(s2, rest[1..]) == s2;
    assert Possible(s1, rest) && After(s1, rest) == s2;
  }

  /** How many steps the delivery thread is at most from having passed on the first m frames pushed. */
  function Left<T>(s: State<T>, m: nat): nat {
    var queued := m - |s.called| - |Held(s)|;
    if queued <= 0 then if |s.called| < m then 1 else 0
    else
      match s.pc
      case AtLock => 3 * queued - 1
      case Outside => 3 * queued + 1
      case _ => 3 * queued
  }

  /** While the receiver runs, no step takes the delivery thread back, and every step of its own brings it
      closer to having passed on the first m frames. */
  lemma StepPassesOn<T>(s: State<T>, e: Step<T>, m: nat)
    requires Inv(s) && s.threadActive && m <= |s.pushed| && Enabled(s, e) && !e.ClearActive?
    ensures Inv(Next(s, e)) && Next(s, e).threadActive && m <= |Next(s, e).pushed|
    ensures Left(Next(s, e), m) <= Left(s, m)
    ensures ByDeliveryThread(e) && Left(s, m) > 0 ==> Left(Next(s, e), m) < Left(s, m)
  {
    StepKeepsInv(s, e);
  }

  /** Until it has passed them on, a step that brings it closer is possible, and is not a spurious
      wake-up: the thread is never stuck. */
  lemma NextStep<T>(s: State<T>, m: nat) returns (e: Step<T>)
    requires Inv(s) && s.threadActive && m <= |s.pushed| && Left(s, m) > 0
    ensures OfHandingOver(e) && Enabled(s, e) && Left(Next(s, e), m) < Left(s, m)
  {
    match s.pc
    case Top => e := TestLoop;
    case AtLock => e := TakeLock;
    case Asleep => e := WorkerNotifies;
    case Outside => e := CallBack;
  }

  /** The delivery thread's own steps and the notification it waits for. */
  predicate OfHandingOver<T>(e: Step<T>) {
    e.TestLoop? || e.TakeLock? || e.CallBack? || e.WorkerNotifies?
  }

  lemma {:induction false} RunPassesOn<T>(s: State<T>, run: seq<Step<T>>, m: nat)
    requires Inv(s) && s.threadActive && m <= |s.pushed| && Possible(s, run) && ClearActive !in run
    ensures Inv(After(s, run)) && After(s, run).threadActive
    ensures Left(After(s, run), m) == 0 || Left(After(s, run), m) + DeliverySteps(run) <= Left(s, m)
    decreases |run|
  {
    if run != [] {
      StepPassesOn(s, run[0], m);
      RunPassesOn(Next(s, run[0]), run[1..], m);
    }
  }

  /** Whatever the worker does meanwhile: while the receiver runs, everything pushed by now has been
      passed on, in order, once the delivery thread has taken three steps for each queued frame and
      one for the frame in hand. */
  lemma PassesOn<T>(s: State<T>, run: seq<Step<T>>)
    requires Inv(s) && s.threadActive && Possible(s, run) && ClearActive !in run
    requires DeliverySteps(run) >= 3 * |s.queue| + 1
    ensures s.pushed <= After(s, run).called
  {
    var s' := After(s, run);
    RunPassesOn(s, run, |s.pushed|);
    PushedIs(s, run);
    assert s'.called <= s'.pushed;
    assert s'.pushed[..|s.pushed|] == s.pushed;
  }

  /** From any state of a running receiver, the delivery thread's steps and at most a notification
      empty the queue: everything pushed has been passed on, and the flag is down. */
  lemma {:induction false} Drains<T>(s: State<T>) returns (run: seq<Step<T>>)
    requires Inv(s) && s.threadActive
    ensures Possible(s, run) && |run| <= 3 * |s.queue| + 1 && forall e :: e in run ==> OfHandingOver(e)
    ensures var s' := After(s, run);
            && Inv(s') && s'.threadActive
            && s'.called == s'.pushed == s.pushed && s'.queue == [] && !s'.ready && !s'.pc.Outside?
  {
    run := DrainsIn(s);
    StartIsBounded(s);
  }

  lemma StartIsBounded<T>(s: State<T>)
    requires Inv(s)
    ensures Left(s, |s.pushed|) <= 3 * |s.queue| + 1
  {
  }

  lemma {:induction false} DrainsIn<T>(s: State<T>) returns (run: seq<Step<T>>)
    requires Inv(s) && s.threadActive
    ensures Possible(s, run) && |run| <= Left(s, |s.pushed|) && forall e :: e in run ==> OfHandingOver(e)
    ensures var s' := After(s, run);
            && Inv(s') && s'.threadActive
            && s'.called == s'.pushed == s.pushed && s'.queue == [] && !s'.ready && !s'.pc.Outside?
    decreases Left(s, |s.pushed|)
  {
    if Left(s, |s.pushed|) == 0 {
      run := [];
      assert s.called + Held(s) + s.queue == s.called;
    } else {
      var e := NextStep(s, |s.pushed|);
      StepPassesOn(s, e, |s.pushed|);
      var rest := DrainsIn(Next(s, e));
      run := [e] + rest;
      assert run[1..] == rest;
    }
  }

  /** And then the delivery thread goes to sleep. */
  lemma ThenSleeps<T>(s: State<T>) returns (run: seq<Step<T>>)
    requires Inv(s) && s.threadActive && s.queue == [] && !s.pc.Outside?
    ensures Possible(s, run) && |run| <= 2 && forall e :: e in run ==> ByDeliveryThread(e)
    ensures After(s, run) == s.(pc := Asleep) && !s.ready
  {
    match s.pc
    case Asleep => run := [];
    case AtLock =>
      run := [TakeLock];
      assert run[1..] == [];
    case Top =>
      run := [TestLoop, TakeLock];
      assert run[1..] == [TakeLock] && run[1..][1..] == [];
      assert Possible(Next(s, TestLoop), run[1..]);
  }
}
