/** The queue between the worker thread and the delivery thread, as interleaved atomic steps: each
    locked region is one step, and a condition-variable wait can be left by a notification or
    spuriously, after which the lock is taken and the flag looked at again. */
module Handoff {
  import opened Wire

  /** Where the delivery thread is: testing the loop condition, about to take the lock, asleep in the
      wait, outside the lock with what it popped, or finished. */
  datatype Pc = Top | AtLock | Asleep | Outside | Finished

  /** How far stopping has come: not called, thread flag cleared, ready flag raised. */
  datatype Stopping = Running | Cleared | Raised

  datatype State<T> = State(
    threadActive: bool,
    ready: bool,
    queue: seq<T>,
    pc: Pc,
    inHand: Option<T>,
    workerOwes: bool,   // the worker has raised the flag and not notified yet
    stopOwes: bool,     // so has the stopping thread
    stopping: Stopping,
    pushed: seq<T>,     // everything the worker has queued so far
    called: seq<T>)     // everything the callback has got so far

  function Start<T>(): State<T> {
    State(true, false, [], Top, None, false, false, Running, [], [])
  }

  datatype Step<T> =
    | TestLoop | TakeLock | WakeSpuriously | CallBack
    | Push(frame: T) | WorkerNotifies
    | ClearActive | RaiseReady | StopNotifies

  predicate ByDeliveryThread<T>(e: Step<T>) {
    e.TestLoop? || e.TakeLock? || e.WakeSpuriously? || e.CallBack?
  }

  predicate Enabled<T>(s: State<T>, e: Step<T>) {
    match e
    case TestLoop => s.pc.Top?
    case TakeLock => s.pc.AtLock?
    case WakeSpuriously => s.pc.Asleep?
    case CallBack => s.pc.Outside?
    case Push(_) => !s.workerOwes
    case WorkerNotifies => s.workerOwes
    case ClearActive => s.stopping.Running?
    case RaiseReady => s.stopping.Cleared?
    case StopNotifies => s.stopOwes
  }

  function Woken(pc: Pc): Pc {
    if pc.Asleep? then AtLock else pc
  }

  /** Under the lock: sleep while the flag is down; otherwise pop, and lower the flag if that
      emptied the queue. */
  function Locked<T>(s: State<T>): State<T> {
    if !s.ready then s.(pc := Asleep)
    else
      var s1 := if s.queue == [] then s.(inHand := None) else s.(inHand := Some(s.queue[0]), queue := s.queue[1..]);
      s1.(pc := Outside, ready := s1.queue != [])
  }

  function Next<T>(s: State<T>, e: Step<T>): State<T>
    requires Enabled(s, e)
  {
    match e
    case TestLoop => s.(pc := if s.threadActive then AtLock else Finished)
    case TakeLock => Locked(s)
    case WakeSpuriously => s.(pc := AtLock)
    case CallBack =>
      s.(pc := Top, inHand := None, called := s.called + Held(s))
    case Push(f) =>
      s.(queue := s.queue + [f], ready := true, workerOwes := true, pushed := s.pushed + [f])
    case WorkerNotifies => s.(workerOwes := false, pc := Woken(s.pc))
    case ClearActive => s.(threadActive := false, stopping := Cleared)
    case RaiseReady => s.(ready := true, stopOwes := true, stopping := Raised)
    case StopNotifies => s.(stopOwes := false, pc := Woken(s.pc))
  }

  /** What the delivery thread has popped and not yet passed on. */
  function Held<T>(s: State<T>): seq<T> {
    match s.inHand
    case None => []
    case Some(f) => [f]
  }

  ghost predicate Inv<T>(s: State<T>) {
    && (s.queue != [] ==> s.ready)
    && s.called + Held(s) + s.queue == s.pushed
    && (s.inHand.Some? ==> s.pc.Outside?)
    && (s.pc.Asleep? && s.ready ==> s.workerOwes || s.stopOwes)
    && (s.threadActive <==> s.stopping.Running?)
    && (s.stopping.Raised? && (s.pc.AtLock? || s.pc.Asleep?) ==> s.ready)
    && (s.pc.Finished? ==> !s.threadActive)
    && (s.stopOwes ==> s.stopping.Raised?)
    && (!s.stopping.Raised? ==> (s.ready ==> s.queue != []) && (s.pc.Outside? ==> s.inHand.Some?))
  }

  lemma StepKeepsInv<T>(s: State<T>, e: Step<T>)
    requires Inv(s) && Enabled(s, e)
    ensures Inv(Next(s, e))
  {
    if e.TakeLock? && s.queue != [] {
      assert s.queue == [s.queue[0]] + s.queue[1..];
    }
  }

  /** A run: a sequence of steps, each possible when it is taken. */
  ghost predicate Possible<T>(s: State<T>, run: seq<Step<T>>)
    decreases |run|
  {
    run != [] ==> Enabled(s, run[0]) && Possible(Next(s, run[0]), run[1..])
  }

  function After<T>(s: State<T>, run: seq<Step<T>>): State<T>
    requires Possible(s, run)
    decreases |run|
  {
    if run == [] then s else After(Next(s, run[0]), run[1..])
  }

  lemma {:induction false} RunKeepsInv<T>(s: State<T>, run: seq<Step<T>>)
    requires Inv(s) && Possible(s, run)
    ensures Inv(After(s, run))
    decreases |run|
  {
    if run != [] {
      StepKeepsInv(s, run[0]);
      RunKeepsInv(Next(s, run[0]), run[1..]);
    }
  }

  /** In every reachable state: the consumer never sleeps on data without a notification being on
      its way, and nothing is lost, duplicated or reordered between worker and callback. When the
      delivery thread has ended, exactly what is still queued has not been passed on. */
  lemma NeverSleepsOnData<T>(run: seq<Step<T>>)
    requires Possible(Start<T>(), run)
    ensures var s := After(Start(), run);
            && (s.queue != [] ==> s.ready)
            && (s.pc.Asleep? && s.queue != [] ==> s.workerOwes || s.stopOwes)
            && s.called + Held(s) + s.queue == s.pushed
            && (s.pc.Finished? ==> s.called + s.queue == s.pushed)
  {
    RunKeepsInv(Start<T>(), run);
  }

  // ---------------------------------------------------------------------------------------
  // What the worker pushes

  /** Everything the worker pushes in a run. */
  function Pushes<T>(run: seq<Step<T>>): seq<T> {
    if run == [] then [] else (if run[0].Push? then [run[0].frame] else []) + Pushes(run[1..])
  }

  lemma {:induction false} PushedIs<T>(s: State<T>, run: seq<Step<T>>)
    requires Possible(s, run)
    ensures After(s, run).pushed == s.pushed + Pushes(run)
    decreases |run|
  {
    if run != [] {
      PushedIs(Next(s, run[0]), run[1..]);
    }
  }

  /** The callback has got what was pushed, in order, up to some point; the rest is in the delivery
      thread's hand or queued. */
  lemma CallbacksArePushes<T>(run: seq<Step<T>>)
    requires Possible(Start<T>(), run)
    ensures var s := After(Start(), run);
            s.called <= Pushes(run) && s.called + Held(s) + s.queue == Pushes(run)
  {
    NeverSleepsOnData(run);
    PushedIs(Start<T>(), run);
    var s := After(Start<T>(), run);
    assert [] + Pushes(run) == Pushes(run);
    assert s.called + Held(s) + s.queue == s.called + (Held(s) + s.queue);
  }

  /** The steps of one worker pass: push and notify for each frame it hands out. */
  function PassSteps<T>(frames: seq<T>): seq<Step<T>> {
    if frames == [] then [] else [Push(frames[0]), WorkerNotifies] + PassSteps(frames[1..])
  }

  /** The state after the worker has pushed frames and notified. */
  function Pushed<T>(s: State<T>, frames: seq<T>): State<T> {
    if frames == [] then s
    else s.(queue := s.queue + frames, ready := true, pc := Woken(s.pc), pushed := s.pushed + frames)
  }

  lemma PushedOneMore<T>(s: State<T>, frames: seq<T>)
    requires !s.workerOwes && frames != []
    ensures Enabled(s, Push(frames[0])) && Enabled(Next(s, Push(frames[0])), WorkerNotifies)
    ensures var s2 := Next(Next(s, Push(frames[0])), WorkerNotifies);
            !s2.workerOwes && Pushed(s2, frames[1..]) == Pushed(s, frames)
  {
    assert [frames[0]] + frames[1..] == frames;
    assert s.queue + [frames[0]] + frames[1..] == s.queue + frames;
    assert s.pushed + [frames[0]] + frames[1..] == s.pushed + frames;
    if frames[1..] == [] {
      assert frames == [frames[0]];
    }
  }

  /** What a worker pass does to queue and flag, if the delivery thread does not come between. */
  lemma {:induction false} PassQueues<T>(s: State<T>, frames: seq<T>)
    requires !s.workerOwes
    ensures Possible(s, PassSteps(frames)) && After(s, PassSteps(frames)) == Pushed(s, frames)
    ensures Pushes(PassSteps(frames)) == frames
    decreases |frames|
  {
    if frames != [] {
      var rest := PassSteps(frames[1..]);
      var run := PassSteps(frames);
      assert run[0] == Push(frames[0]) && run[1..] == [WorkerNotifies] + rest;
      assert run[1..][0] == WorkerNotifies && run[1..][1..] == rest;
      PushedOneMore(s, frames);
      PassQueues(Next(Next(s, Push(frames[0])), WorkerNotifies), frames[1..]);
    }
  }

  lemma {:induction false} RunOn<T>(s: State<T>, a: seq<Step<T>>, b: seq<Step<T>>)
    requires Possible(s, a) && Possible(After(s, a), b)
    ensures Possible(s, a + b) && After(s, a + b) == After(After(s, a), b)
    decreases |a|
  {
    if a == [] {
      assert a + b == b;
    } else {
      assert (a + b)[1..] == a[1..] + b;
      RunOn(Next(s, a[0]), a[1..], b);
    }
  }

  /** Frames can be left behind: for any frames there is a run in which they are pushed, the receiver is
      stopped, and the delivery thread ends with all of them still queued. */
  lemma StopLeavesQueued<T>(frames: seq<T>) returns (run: seq<Step<T>>)
    ensures Possible(Start<T>(), run) && Pushes(run) == frames
    ensures After(Start<T>(), run).pc.Finished?
    ensures After(Start<T>(), run).queue == frames && After(Start<T>(), run).called == []
  {
    var end: seq<Step<T>> := [ClearActive, TestLoop];
    PassQueues(Start<T>(), frames);
    var s := After(Start<T>(), PassSteps(frames));
    assert s.pc == Top;
    assert end[1..] == [TestLoop] && end[1..][1..] == [];
    assert Possible(Next(s, ClearActive), end[1..]);
    assert After(s, end) == Next(Next(s, ClearActive), TestLoop);
    run := PassSteps(frames) + end;
    RunOn(Start<T>(), PassSteps(frames), end);
    PushedIs(Start<T>(), run);
    assert [] + Pushes(run) == Pushes(run) && [] + frames == frames;
    assert After(Start<T>(), run).pushed == frames;
  }

  // ---------------------------------------------------------------------------------------
  // Stopping

  /** How many steps the delivery thread is from its end, once the ready flag was raised to stop it. */
  function Rank(pc: Pc): nat {
    match pc
    case Asleep => 4
    case AtLock => 3
    case Outside => 2
    case Top => 1
    case Finished => 0
  }

  /** After the stop flag was raised, every step of the delivery thread brings it closer to its end, no
      other step takes it back, and until it has ended some step that brings it closer is possible
      that does not depend on a spurious wake-up. */
  lemma StopMakesProgress<T>(s: State<T>, e: Step<T>)
    requires Inv(s) && s.stopping.Raised? && Enabled(s, e)
    ensures Next(s, e).stopping.Raised?
    ensures Rank(Next(s, e).pc) <= Rank(s.pc)
    ensures ByDeliveryThread(e) ==> Rank(Next(s, e).pc) < Rank(s.pc)
    ensures !s.pc.Finished? ==> exists w: Step<T> ::
              !w.WakeSpuriously? && !w.Push? && Enabled(s, w) && Rank(Next(s, w).pc) < Rank(s.pc)
  {
    if s.pc.Asleep? {
      var w: Step<T> := if s.workerOwes then WorkerNotifies else StopNotifies;
      assert Enabled(s, w) && Rank(Next(s, w).pc) < Rank(s.pc);
    } else if s.pc.AtLock? {
      assert Enabled(s, TakeLock) && Rank(Next(s, TakeLock).pc) < Rank(s.pc);
    } else if s.pc.Outside? {
      assert Enabled(s, CallBack) && Rank(Next(s, CallBack).pc) < Rank(s.pc);
    } else if s.pc.Top? {
      assert Enabled(s, TestLoop) && Rank(Next(s, TestLoop).pc) < Rank(s.pc);
    }
  }

  function DeliverySteps<T>(run: seq<Step<T>>): nat {
    if run == [] then 0 else (if ByDeliveryThread(run[0]) then 1 else 0) + DeliverySteps(run[1..])
  }

  /** Whatever the other threads do, the delivery thread takes at most four more steps once the
      ready flag was raised to stop it; after the fourth it has finished. */
  lemma {:induction false} StopsInFourSteps<T>(s: State<T>, run: seq<Step<T>>)
    requires Inv(s) && s.stopping.Raised? && Possible(s, run)
    ensures DeliverySteps(run) + Rank(After(s, run).pc) <= Rank(s.pc) <= 4
    ensures DeliverySteps(run) == 4 ==> After(s, run).pc.Finished?
    decreases |run|
  {
    if run != [] {
      StopMakesProgress(s, run[0]);
      StepKeepsInv(s, run[0]);
      StopsInFourSteps(Next(s, run[0]), run[1..]);
    }
  }

  // ---------------------------------------------------------------------------------------
  // What stopping loses

  /** The delivery thread is still to look at the queue once more. */
  predicate Waiting(pc: Pc) {
    pc.AtLock? || pc.Asleep?
  }

  /** What is pushed in a run while the delivery thread is still to look at the queue. */
  function EarlyPushes<T>(s: State<T>, run: seq<Step<T>>): seq<T>
    requires Possible(s, run)
    decreases |run|
  {
    if run == [] then []
    else (if run[0].Push? && Waiting(s.pc) then [run[0].frame] else []) + EarlyPushes(Next(s, run[0]), run[1..])
  }

  /** And what is pushed when it is not. */
  function LatePushes<T>(s: State<T>, run: seq<Step<T>>): seq<T>
    requires Possible(s, run)
    decreases |run|
  {
    if run == [] then []
    else (if run[0].Push? && !Waiting(s.pc) then [run[0].frame] else []) + LatePushes(Next(s, run[0]), run[1..])
  }

  /** The frame it will find there: the first one queued by then. */
  function Found<T>(s: State<T>, early: seq<T>): seq<T> {
    if Waiting(s.pc) && s.queue + early != [] then [(s.queue + early)[0]] else []
  }

  /** Once stopping has begun the delivery thread looks at the queue at most once more, so after that
      everything pushed is late. */
  lemma {:induction false} EarlyThenLate<T>(s: State<T>, run: seq<Step<T>>)
    requires Inv(s) && !s.threadActive && Possible(s, run)
    ensures EarlyPushes(s, run) + LatePushes(s, run) == Pushes(run)
    ensures !Waiting(s.pc) ==> EarlyPushes(s, run) == []
    decreases |run|
  {
    if run != [] {
      var s' := Next(s, run[0]);
      StepKeepsInv(s, run[0]);
      if !Waiting(s.pc) { NoLongerWaiting(s, run[0]); }
      EarlyThenLate(s', run[1..]);
    }
  }

  lemma NoLongerWaiting<T>(s: State<T>, e: Step<T>)
    requires Enabled(s, e) && !s.threadActive && !Waiting(s.pc)
    ensures !Waiting(Next(s, e).pc)
  {
  }

  /** One step's share in what the thread still passes on. */
  lemma StepFinds<T>(s: State<T>, e: Step<T>, early: seq<T>)
    requires Inv(s) && !s.threadActive && Enabled(s, e)
    requires var s' := Next(s, e); !Waiting(s'.pc) ==> early == []
    ensures var s' := Next(s, e);
            var all := (if e.Push? && Waiting(s.pc) then [e.frame] else []) + early;
            s'.called + Held(s') + Found(s', early) == s.called + Held(s) + Found(s, all)
  {
    match e
    case Push(f) => PushFinds(s, f, early);
    case TakeLock => LockFinds(s, early);
    case _ =>
  }

  lemma PushFinds<T>(s: State<T>, f: T, early: seq<T>)
    requires !s.workerOwes && (!Waiting(s.pc) ==> early == [])
    ensures Found(Next(s, Push(f)), early) == Found(s, (if Waiting(s.pc) then [f] else []) + early)
  {
    assert s.queue + ([f] + early) == s.queue + [f] + early;
  }

  lemma LockFinds<T>(s: State<T>, early: seq<T>)
    requires Inv(s) && !s.threadActive && s.pc.AtLock?
    requires !Waiting(Locked(s).pc) ==> early == []
    ensures Locked(s).called + Held(Locked(s)) + Found(Locked(s), early) == s.called + Held(s) + Found(s, [] + early)
  {
    assert [] + early == early;
    if s.queue != [] {
      assert (s.queue + early)[0] == s.queue[0];
    }
  }

  /** What the callback has got when the delivery thread has ended: what it had, the frame in hand, and
      the one frame the thread may still find. */
  lemma {:induction false} StopDelivers<T>(s: State<T>, run: seq<Step<T>>)
    requires Inv(s) && !s.threadActive && Possible(s, run) && After(s, run).pc.Finished?
    ensures After(s, run).called == s.called + Held(s) + Found(s, EarlyPushes(s, run))
    decreases |run|
  {
    if run == [] {
      assert s.called + Held(s) + [] == s.called;
    } else {
      var s' := Next(s, run[0]);
      StepKeepsInv(s, run[0]);
      EarlyThenLate(s', run[1..]);
      StepFinds(s, run[0], EarlyPushes(s', run[1..]));
      StopDelivers(s', run[1..]);
    }
  }

  /** How many frames the delivery thread may still find once stopping has begun. */
  function Spare(pc: Pc): nat {
    if Waiting(pc) then 1 else 0
  }

  /** What is lost: all that is queued or still pushed, but the one frame the thread finds. */
  lemma StopLeaves<T>(s: State<T>, run: seq<Step<T>>)
    requires Inv(s) && !s.threadActive && Possible(s, run) && After(s, run).pc.Finished?
    ensures Found(s, EarlyPushes(s, run)) + After(s, run).queue == s.queue + Pushes(run)
    ensures After(s, run).called == After(s, run).pushed <==> After(s, run).queue == []
  {
    var end := After(s, run);
    StopDelivers(s, run);
    RunKeepsInv(s, run);
    PushedIs(s, run);
    QueuedIsLost(end);
    Cancel(s.called + Held(s), s.queue, Pushes(run), Found(s, EarlyPushes(s, run)), end.queue);
  }

  lemma QueuedIsLost<T>(s: State<T>)
    requires Inv(s) && s.pc.Finished?
    ensures s.pushed == s.called + s.queue
    ensures s.called == s.pushed <==> s.queue == []
  {
    assert s.called + [] + s.queue == s.called + s.queue;
    assert s.queue == [] ==> s.called + s.queue == s.called;
  }

  lemma Cancel<T>(got: seq<T>, queue: seq<T>, more: seq<T>, found: seq<T>, left: seq<T>)
    requires got + found + left == got + queue + more
    ensures found + left == queue + more
  {
    assert got + found + left == got + (found + left) && got + queue + more == got + (queue + more);
    assert (got + (found + left))[|got|..] == found + left && (got + (queue + more))[|got|..] == queue + more;
  }

  /** Exactly when stopping loses nothing, from any state in which it has begun: no more is queued, or
      pushed in time, than the one frame that the delivery thread finds if it is still to look at the
      queue, and nothing is pushed after it has looked. */
  lemma StopLosesNothingIff<T>(s: State<T>, run: seq<Step<T>>)
    requires Inv(s) && !s.threadActive && Possible(s, run) && After(s, run).pc.Finished?
    ensures After(s, run).called == After(s, run).pushed <==>
            LatePushes(s, run) == [] && |s.queue| + |EarlyPushes(s, run)| <= Spare(s.pc)
    ensures Pushes(run) == [] ==>
              (After(s, run).called == After(s, run).pushed <==> |s.queue| <= Spare(s.pc))
  {
    StopLeaves(s, run);
    EarlyThenLate(s, run);
    var early := EarlyPushes(s, run);
    assert |Found(s, early)| + |After(s, run).queue| == |s.queue| + |early| + |LatePushes(s, run)|;
    assert |Found(s, early)| == if Waiting(s.pc) && |s.queue| + |early| > 0 then 1 else 0;
  }
}
