/**
 * What the DebugNet sender achieves when it is left alone: a message behind an open gate is accepted
 * and sent, and a stop of a quiet sender drains the queue and frees it. The schedules are explicit:
 * every step is one of the protocol, taken by the threads named.
 */
module DebugNetProgress {
  import opened DebugNet

  ghost predicate InSteps(s: State, who: set<int>, n: nat, s': State)
    decreases n
  {
    if n == 0 then s' == s
    else exists t, middle :: t in who && Step(s, t, middle) && InSteps(middle, who, n - 1, s')
  }

  /** The threads `who` may take `s` to `s'` while all others rest. */
  ghost predicate Reaches(s: State, who: set<int>, s': State) {
    exists n: nat :: InSteps(s, who, n, s')
  }

  lemma Start(s: State, who: set<int>)
    ensures Reaches(s, who, s)
  {
    assert InSteps(s, who, 0, s);
  }

  lemma {:induction false} Append(s: State, who: set<int>, n: nat, middle: State, t: int, s': State)
    requires InSteps(s, who, n, middle) && t in who && Step(middle, t, s')
    ensures InSteps(s, who, n + 1, s')
    decreases n
  {
    hide Step;
    if n == 0 {
      assert InSteps(s', who, 0, s');
    } else {
      var u, next :| u in who && Step(s, u, next) && InSteps(next, who, n - 1, middle);
      Append(next, who, n - 1, middle, t, s');
    }
  }

  lemma Next(s: State, who: set<int>, middle: State, t: int, s': State)
    requires Reaches(s, who, middle) && t in who && Step(middle, t, s')
    ensures Reaches(s, who, s')
  {
    hide Step, InSteps;
    var n: nat :| InSteps(s, who, n, middle);
    Append(s, who, n, middle, t, s');
  }

  // ---- a writer alone ----

  function WithWriter(s: State, i: nat, w: Writer): State
    requires i < |s.writers|
  {
    s.(writers := s.writers[i := w])
  }

  lemma WriterMoves(s: State, i: nat, w: Writer, t: State, w': Writer)
    requires i < |s.writers| && t.writers == s.writers
    requires GateMoves(WithWriter(s, i, w), i, w, WithWriter(t, i, w), w') || EnqueueMoves(WithWriter(s, i, w), i, w, WithWriter(t, i, w), w')
    ensures Step(WithWriter(s, i, w), i, WithWriter(t, i, w'))
  {
    hide GateMoves, EnqueueMoves;
    var a, b := WithWriter(s, i, w), WithWriter(t, i, w');
    assert b.writers == a.writers[i := b.writers[i]];
    assert b.(writers := a.writers) == WithWriter(t, i, w);
  }

  /** One more step of writer `i`, from `w` to `w'`. */
  lemma WriterNext(s0: State, s: State, i: nat, w: Writer, t: State, w': Writer)
    requires i < |s.writers| && t.writers == s.writers && Reaches(s0, {i}, WithWriter(s, i, w))
    requires GateMoves(WithWriter(s, i, w), i, w, WithWriter(t, i, w), w') || EnqueueMoves(WithWriter(s, i, w), i, w, WithWriter(t, i, w), w')
    ensures Reaches(s0, {i}, WithWriter(t, i, w'))
  {
    hide GateMoves, EnqueueMoves, Step, Reaches, WithWriter;
    WriterMoves(s, i, w, t, w');
    Next(s0, {i}, WithWriter(s, i, w), i, WithWriter(t, i, w'));
  }

  /** The writer is in front of an open gate and the queue is free to use. */
  predicate MayWrite(s: State, i: nat) {
    && i < |s.writers| && s.writers[i] == Away && !s.c.closed && s.c.life == Running && s.c.writers < 255
    && s.q.holder == Free && s.q.stored
  }

  function Behind(s: State, i: nat): State {
    s.(c := s.c.(writers := s.c.writers + 1), q := s.q.(holder := ByWriter(i)))
  }

  lemma WriterEnters(s: State, i: nat, m: Message)
    requires MayWrite(s, i)
    ensures Reaches(s, {i}, WithWriter(Behind(s, i), i, DebugNet.Append(m)))
  {
    hide Reaches;
    var counted := s.(c := s.c.(writers := s.c.writers + 1));
    assert WithWriter(s, i, Away) == s;
    Start(s, {i});
    WriterNext(s, s, i, Away, s, Loaded(m));
    WriterNext(s, s, i, Loaded(m), s, Admitting(m));
    WriterNext(s, s, i, Admitting(m), counted, Admitted(m));
    WriterNext(s, counted, i, Admitted(m), counted, Enqueue(m));
    WriterNext(s, counted, i, Enqueue(m), Behind(s, i), Check(m));
    WriterNext(s, Behind(s, i), i, Check(m), Behind(s, i), DebugNet.Append(m));
  }

  /** Giving the lock back, signalling, and leaving through the gate. */
  lemma WriterLeaves(s0: State, s: State, i: nat)
    requires i < |s.writers| && 0 < s.c.writers && Reaches(s0, {i}, WithWriter(s, i, UnlockSignal))
    ensures Reaches(s0, {i}, WithWriter(s.(q := s.q.(holder := Free, sema := true), c := s.c.(writers := s.c.writers - 1)), i, Away))
  {
    hide Reaches;
    var free := s.(q := s.q.(holder := Free));
    var told := s.(q := s.q.(holder := Free, sema := true));
    WriterNext(s0, s, i, UnlockSignal, free, Signal);
    WriterNext(s0, free, i, Signal, told, Leave);
    WriterNext(s0, told, i, Leave, told.(c := s.c.(writers := s.c.writers - 1)), Away);
  }

  /** A message in front of an open gate with room in the queue is accepted, and the worker is
      signalled; everything else is as it was. */
  lemma WriterIsHeard(s: State, i: nat, m: Message)
    requires MayWrite(s, i) && |s.q.accepted| - s.q.taken != 64
    ensures Reaches(s, {i}, s.(q := s.q.(accepted := s.q.accepted + [m], sema := true)))
  {
    hide Reaches;
    WriterEnters(s, i, m);
    var added := Behind(s, i).(q := s.q.(accepted := s.q.accepted + [m], holder := ByWriter(i)));
    WriterNext(s, Behind(s, i), i, DebugNet.Append(m), added, UnlockSignal);
    WriterLeaves(s, added, i);
    assert s.writers[i := Away] == s.writers;
  }

  /** With the queue full the message is dropped and nothing changes. */
  lemma FullQueueDrops(s: State, i: nat, m: Message)
    requires MayWrite(s, i) && |s.q.accepted| - s.q.taken == 64
    ensures Reaches(s, {i}, s)
  {
    hide Reaches;
    WriterEnters(s, i, m);
    var free := Behind(s, i).(q := s.q);
    WriterNext(s, Behind(s, i), i, DebugNet.Append(m), Behind(s, i), UnlockDrop);
    WriterNext(s, Behind(s, i), i, UnlockDrop, free, Leave);
    WriterNext(s, free, i, Leave, s, Away);
    assert WithWriter(s, i, Away) == s;
  }

  // ---- the worker and the stop ----

  lemma WorkerNext(s0: State, who: set<int>, s: State, s': State)
    requires Reaches(s0, who, s) && -1 in who && WorkerMoves(s, s')
    ensures Reaches(s0, who, s')
  {
    hide Reaches, WorkerMoves, StopperMoves, EmergencyMoves, GateMoves, EnqueueMoves;
    Next(s0, who, s, -1, s');
  }

  lemma StopperNext(s0: State, who: set<int>, s: State, s': State)
    requires Reaches(s0, who, s) && -2 in who && StopperMoves(s, s')
    ensures Reaches(s0, who, s')
  {
    hide Reaches, WorkerMoves, StopperMoves, EmergencyMoves, GateMoves, EnqueueMoves;
    Next(s0, who, s, -2, s');
  }

  /** The worker may end: a stop is under way, nobody is behind the gate, and nothing is left. */
  predicate Finished(s: State) {
    s.c.life == Stopping && s.c.ready && s.q.taken == |s.q.accepted| && s.c.writers == 0
  }

  /** Under the lock the worker decides, with what it holds in hand. */
  lemma WorkerDecides(s0: State, who: set<int>, s: State, hand: Hand)
    requires Reaches(s0, who, s) && -1 in who && s.worker == LoadState(hand) && s.q.holder == ByWorker
    ensures Reaches(s0, who, s.(q := s.q.(holder := Free), worker := CheckOwner(hand, Finished(s))))
  {
    hide Reaches;
    var t := s;
    if s.c.life == Stopping {
      t := s.(worker := LoadReady(hand));
      WorkerNext(s0, who, s, t);
      if s.c.ready {
        var count := s.(worker := LoadCount(hand));
        WorkerNext(s0, who, t, count);
        t := count;
        if s.q.taken == |s.q.accepted| {
          t := s.(worker := LoadWriters(hand));
          WorkerNext(s0, who, count, t);
        }
      }
    }
    var u := s.(worker := Unlock(hand, Finished(s)));
    WorkerNext(s0, who, t, u);
    WorkerNext(s0, who, u, s.(q := s.q.(holder := Free), worker := CheckOwner(hand, Finished(s))));
  }

  /** A worker at work with nobody else in the queue. */
  predicate Working(s: State) {
    s.worker == TryLock && s.q.holder == Free && !s.c.ownerGone && s.q.taken <= |s.q.accepted|
  }

  /** The oldest message is taken and sent. */
  lemma WorkerSendsOne(s0: State, who: set<int>, s: State)
    requires Reaches(s0, who, s) && -1 in who && Working(s) && s.q.taken < |s.q.accepted|
    ensures Reaches(s0, who, s.(q := s.q.(taken := s.q.taken + 1), sent := s.sent + [s.q.accepted[s.q.taken]]))
  {
    hide Reaches;
    var m := s.q.accepted[s.q.taken];
    var pop := s.(q := s.q.(holder := ByWorker), worker := Pop);
    var held := s.(q := s.q.(holder := ByWorker, taken := s.q.taken + 1), worker := LoadState(Holding(m)));
    WorkerNext(s0, who, s, pop);
    WorkerNext(s0, who, pop, held);
    WorkerDecides(s0, who, held, Holding(m));
    var stop := Finished(held);
    var free := s.(q := s.q.(taken := s.q.taken + 1));
    WorkerNext(s0, who, free.(worker := CheckOwner(Holding(m), stop)), free.(worker := Send(m, stop)));
    WorkerNext(s0, who, free.(worker := Send(m, stop)), free.(sent := s.sent + [m], worker := Decide(true, stop)));
    WorkerNext(s0, who, free.(sent := s.sent + [m], worker := Decide(true, stop)), free.(sent := s.sent + [m]));
  }

  function Drained(s: State): State
    requires s.q.taken <= |s.q.accepted|
  {
    s.(q := s.q.(taken := |s.q.accepted|), sent := s.sent + s.q.accepted[s.q.taken..])
  }

  lemma {:induction false} WorkerSendsAll(s0: State, who: set<int>, s: State)
    requires Reaches(s0, who, s) && -1 in who && Working(s)
    ensures Reaches(s0, who, Drained(s))
    decreases |s.q.accepted| - s.q.taken
  {
    hide Reaches;
    if s.q.taken == |s.q.accepted| {
      assert Drained(s) == s;
    } else {
      WorkerSendsOne(s0, who, s);
      var t := s.(q := s.q.(taken := s.q.taken + 1), sent := s.sent + [s.q.accepted[s.q.taken]]);
      WorkerSendsAll(s0, who, t);
      assert s.sent + [s.q.accepted[s.q.taken]] + s.q.accepted[s.q.taken + 1..] == s.sent + s.q.accepted[s.q.taken..];
      assert Drained(t) == Drained(s);
    }
  }

  /** With the queue empty the worker goes back to sleep, or ends when it may. */
  lemma WorkerRests(s0: State, who: set<int>, s: State)
    requires Reaches(s0, who, s) && -1 in who && Working(s) && s.q.taken == |s.q.accepted|
    ensures Reaches(s0, who, s.(worker := if Finished(s) then CloseGate else Parked))
  {
    hide Reaches;
    var pop := s.(q := s.q.(holder := ByWorker), worker := Pop);
    var held := s.(q := s.q.(holder := ByWorker), worker := LoadState(Empty));
    WorkerNext(s0, who, s, pop);
    WorkerNext(s0, who, pop, held);
    WorkerDecides(s0, who, held, Empty);
    WorkerNext(s0, who, s.(worker := CheckOwner(Empty, Finished(s))), s.(worker := Decide(false, Finished(s))));
    WorkerNext(s0, who, s.(worker := Decide(false, Finished(s))), s.(worker := if Finished(s) then CloseGate else Parked));
  }

  /** A signalled worker that is left alone sends everything accepted and goes back to sleep. */
  lemma WorkerSends(s: State)
    requires s.worker == Parked && s.q.sema && s.q.holder == Free && !s.c.ownerGone && s.q.taken <= |s.q.accepted| && s.c.life == Running
    ensures Reaches(s, {-1}, s.(q := s.q.(taken := |s.q.accepted|, sema := false), sent := s.sent + s.q.accepted[s.q.taken..]))
  {
    hide Reaches;
    var woken := s.(q := s.q.(sema := false), worker := Woken);
    var work := s.(q := s.q.(sema := false), worker := TryLock);
    Start(s, {-1});
    WorkerNext(s, {-1}, s, woken);
    WorkerNext(s, {-1}, woken, work);
    WorkerSendsAll(s, {-1}, work);
    WorkerRests(s, {-1}, Drained(work));
  }

  /** A sender at rest: nobody behind the gate, the worker asleep and the queue its own. */
  predicate AtRest(s: State) {
    && s.c.life == Running && s.c.writers == 0 && s.worker == Parked && s.stopper == NotStopping && s.q.holder == Free
    && !s.c.ownerGone && s.q.taken <= |s.q.accepted|
  }

  lemma StopShutsGate(s: State, who: set<int>)
    requires AtRest(s) && -2 in who
    ensures Reaches(s, who, s.(c := s.c.(closed := true, life := Stopping, ready := true), q := s.q.(sema := true), stopper := Join))
  {
    hide Reaches;
    Start(s, who);
    var shut := s.(c := s.c.(closed := true));
    var stopping := s.(c := s.c.(closed := true, life := Stopping));
    var unready := s.(c := s.c.(closed := true, life := Stopping, ready := false));
    var woken := unready.(q := s.q.(sema := true));
    var ready := woken.(c := woken.c.(ready := true));
    StopperNext(s, who, s, s.(stopper := LoadLife));
    StopperNext(s, who, s.(stopper := LoadLife), s.(stopper := ShutGate(true)));
    StopperNext(s, who, s.(stopper := ShutGate(true)), shut.(stopper := StoreStopping));
    StopperNext(s, who, shut.(stopper := StoreStopping), stopping.(stopper := ClearReady));
    StopperNext(s, who, stopping.(stopper := ClearReady), unready.(stopper := WakeFirst));
    StopperNext(s, who, unready.(stopper := WakeFirst), woken.(stopper := AwaitWriters));
    StopperNext(s, who, woken.(stopper := AwaitWriters), woken.(stopper := SetReady));
    StopperNext(s, who, woken.(stopper := SetReady), ready.(stopper := WakeAgain));
    StopperNext(s, who, ready.(stopper := WakeAgain), ready.(stopper := Join));
  }

  /** A stop of a sender at rest comes to an end: everything accepted has been sent, the gate is
      shut, the worker has ended and the queue is freed. */
  lemma StopCompletes(s: State)
    requires AtRest(s)
    ensures var s' := State(Queue(s.q.accepted, |s.q.accepted|, Free, false, false),
        Control(true, 0, Stopped, true, false, s.c.fault), s.sent + s.q.accepted[s.q.taken..], s.writers, Ended, Done, s.emergency);
      Reaches(s, {-1, -2}, s')
  {
    hide Reaches;
    var who := {-1, -2};
    StopShutsGate(s, who);
    var joining := s.(c := s.c.(closed := true, life := Stopping, ready := true), q := s.q.(sema := true), stopper := Join);
    var work := joining.(q := s.q.(sema := false), worker := TryLock);
    WorkerNext(s, who, joining, joining.(q := s.q.(sema := false), worker := Woken));
    WorkerNext(s, who, joining.(q := s.q.(sema := false), worker := Woken), work);
    WorkerSendsAll(s, who, work);
    var empty := Drained(work);
    WorkerRests(s, who, empty);
    var ended := empty.(c := empty.c.(life := Exited), worker := Ended);
    WorkerNext(s, who, empty.(worker := CloseGate), empty.(worker := StoreExited));
    WorkerNext(s, who, empty.(worker := StoreExited), ended);
    StopEnds(s, who, ended);
  }

  lemma StopEnds(s0: State, who: set<int>, s: State)
    requires Reaches(s0, who, s) && -2 in who && s.stopper == Join && s.worker == Ended
    ensures Reaches(s0, who, s.(q := Queue(s.q.accepted, |s.q.accepted|, s.q.holder, false, s.q.sema),
                                c := s.c.(closed := true, life := Stopped), stopper := Done))
  {
    hide Reaches;
    StopperNext(s0, who, s, s.(stopper := Reclaim));
    StopperNext(s0, who, s.(stopper := Reclaim),
      s.(q := Queue(s.q.accepted, |s.q.accepted|, s.q.holder, false, s.q.sema), c := s.c.(closed := true, life := Stopped), stopper := Done));
  }

  // ---- bounds and the emergency stop ----

  /** At most sixty-four messages wait, and at most 255 writers are counted. */
  lemma Bounded(states: seq<State>, who: seq<int>, k: nat)
    requires Run(states, who) && k < |states|
    ensures |states[k].q.accepted| - states[k].q.taken <= 64 && states[k].c.writers <= 255
  {
    hide Init, Step, CountWriters;
    RunKeepsInv(states, who, k);
  }

  /** An emergency stop shuts the gate, tells the worker and wakes it, and a running sender is then
      stopping. */
  lemma EmergencyStops(s: State)
    requires s.emergency == Quiet
    ensures Reaches(s, {-3}, s.(c := s.c.(closed := true, ownerGone := true, ready := true,
                                          life := if s.c.life == Running then Stopping else s.c.life), q := s.q.(sema := true)))
  {
    hide Reaches;
    Start(s, {-3});
    var shut := s.(c := s.c.(closed := true));
    var gone := shut.(c := shut.c.(ownerGone := true));
    var stopping := gone.(c := gone.c.(life := if s.c.life == Running then Stopping else s.c.life));
    var ready := stopping.(c := stopping.c.(ready := true));
    EmergencyNext(s, s, s.(emergency := EShutGate));
    EmergencyNext(s, s.(emergency := EShutGate), shut.(emergency := EFlag));
    EmergencyNext(s, shut.(emergency := EFlag), gone.(emergency := EState));
    EmergencyNext(s, gone.(emergency := EState), stopping.(emergency := EReady));
    EmergencyNext(s, stopping.(emergency := EReady), ready.(emergency := EWake));
    EmergencyNext(s, ready.(emergency := EWake), ready.(q := s.q.(sema := true)));
  }

  lemma EmergencyNext(s0: State, s: State, s': State)
    requires Reaches(s0, {-3}, s) && EmergencyMoves(s, s')
    ensures Reaches(s0, {-3}, s')
  {
    hide Reaches, WorkerMoves, StopperMoves, EmergencyMoves, GateMoves, EnqueueMoves;
    Next(s0, {-3}, s, -3, s');
  }

  /** A worker whose owner is gone ends without sending more. */
  lemma WorkerAbandons(s: State)
    requires s.worker == Parked && s.q.sema && s.c.ownerGone
    ensures Reaches(s, {-1}, s.(q := s.q.(sema := false), c := s.c.(closed := true, life := Exited), worker := Ended))
  {
    hide Reaches;
    Start(s, {-1});
    var calm := s.(q := s.q.(sema := false));
    var shut := calm.(c := s.c.(closed := true));
    WorkerNext(s, {-1}, s, calm.(worker := Woken));
    WorkerNext(s, {-1}, calm.(worker := Woken), calm.(worker := CloseGate));
    WorkerNext(s, {-1}, calm.(worker := CloseGate), shut.(worker := StoreExited));
    WorkerNext(s, {-1}, shut.(worker := StoreExited), shut.(c := shut.c.(life := Exited), worker := Ended));
  }
}
