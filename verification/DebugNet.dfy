/**
 * The DebugNet sender over one session: any number of writers behind a gate that counts them, one
 * worker that sleeps on a binary semaphore and sends in order, a stop that drains the queue before
 * it frees it, and an emergency stop that may come at any time. Each atomic access is one step.
 *
 * Messages only leave at the head, so the queue is what is left of the list of all accepted
 * messages: `accepted[taken..]`. `sent` lists the messages passed to the network.
 */
module DebugNet {

  const SLOTS: nat := 64
  const MAX_WRITERS: nat := 255

  type Message = nat

  datatype Life = Running | Stopping | Exited | Stopped

  datatype Holder = Free | ByWriter(writer: nat) | ByWorker

  datatype Writer =
    | Away
    | Loaded(message: Message)       // saw the gate open
    | Admitting(message: Message)    // and the sender running
    | Admitted(message: Message)     // counted by the gate
    | Enqueue(message: Message)      // sender still running: about to try the queue lock
    | Check(message: Message) | Append(message: Message) | UnlockDrop | UnlockSignal
    | Signal | Leave

  /** The message the worker has taken off the queue. */
  datatype Hand = Empty | Holding(message: Message)

  datatype Worker =
    | Parked | Woken | TryLock | Pop
    | LoadState(hand: Hand) | LoadReady(hand: Hand) | LoadCount(hand: Hand) | LoadWriters(hand: Hand)
    | Unlock(hand: Hand, stop: bool) | CheckOwner(hand: Hand, stop: bool) | Send(message: Message, stop: bool) | Decide(sentOne: bool, stop: bool)
    | CloseGate | StoreExited | Ended

  datatype Stopper =
    | NotStopping | LoadLife | ShutGate(running: bool) | StoreStopping | ClearReady | WakeFirst
    | AwaitWriters | SetReady | WakeAgain | Join | Reclaim | Done

  datatype Emergency = Quiet | EShutGate | EFlag | EState | EReady | EWake

  datatype Queue = Queue(accepted: seq<Message>, taken: nat, holder: Holder, stored: bool, sema: bool)

  datatype Control = Control(closed: bool, writers: nat, life: Life, ready: bool, ownerGone: bool, fault: bool)

  datatype State = State(q: Queue, c: Control, sent: seq<Message>, writers: seq<Writer>, worker: Worker, stopper: Stopper, emergency: Emergency)

  ghost predicate Init(s: State) {
    && s.q == Queue([], 0, Free, true, false)
    && s.c == Control(false, 0, Running, false, false, false)
    && s.sent == [] && s.worker == Parked && s.stopper == NotStopping && s.emergency == Quiet
    && forall i :: 0 <= i < |s.writers| ==> s.writers[i] == Away
  }

  // ---- writers ----

  /** debugnet_begin_write: through the gate. */
  ghost predicate GateMoves(s: State, i: nat, w: Writer, s': State, w': Writer) {
    match w
    case Away => s' == s && (w' == Away || (w'.Loaded? && !s.c.closed))
    case Loaded(m) => s' == s && w' == (if s.c.life == Running then Admitting(m) else Away)
    case Admitting(m) =>
      || (!s.c.closed && s.c.writers < MAX_WRITERS && w' == Admitted(m) && s' == s.(c := s.c.(writers := s.c.writers + 1)))
      || (s' == s && w' == Away)
    case Admitted(m) => s' == s && w' == (if s.c.life == Running then Enqueue(m) else Leave)
    case Leave => w' == Away && s' == s.(c := s.c.(writers := if s.c.writers > 0 then s.c.writers - 1 else MAX_WRITERS))
    case _ => false
  }

  /** debugnet_enqueue. */
  ghost predicate EnqueueMoves(s: State, i: nat, w: Writer, s': State, w': Writer) {
    match w
    case Enqueue(m) =>
      if s.q.holder == Free then s' == s.(q := s.q.(holder := ByWriter(i))) && w' == Check(m)
      else s' == s && w' == Leave
    case Check(m) => s' == s && w' == (if s.c.life == Running && s.q.stored then Append(m) else UnlockDrop)
    case Append(m) =>
      if |s.q.accepted| - s.q.taken == SLOTS then s' == s && w' == UnlockDrop
      else s' == s.(q := s.q.(accepted := s.q.accepted + [m])) && w' == UnlockSignal
    case UnlockDrop => s' == s.(q := s.q.(holder := Free)) && w' == Leave
    case UnlockSignal => s' == s.(q := s.q.(holder := Free)) && w' == Signal
    case Signal => s' == s.(q := s.q.(sema := true)) && w' == Leave
    case _ => false
  }

  // ---- the worker ----

  /** One turn under the queue lock: take a message, then decide whether this may be the end. */
  ghost predicate TurnMoves(s: State, s': State) {
    match s.worker
    case Pop =>
      if s.q.taken < |s.q.accepted|
      then s' == s.(q := s.q.(taken := s.q.taken + 1), worker := LoadState(Holding(s.q.accepted[s.q.taken])))
      else s' == s.(worker := LoadState(Empty))
    case LoadState(hand) => s' == s.(worker := if s.c.life == Stopping then LoadReady(hand) else Unlock(hand, false))
    case LoadReady(hand) => s' == s.(worker := if s.c.ready then LoadCount(hand) else Unlock(hand, false))
    case LoadCount(hand) => s' == s.(worker := if s.q.taken == |s.q.accepted| then LoadWriters(hand) else Unlock(hand, false))
    case LoadWriters(hand) => s' == s.(worker := Unlock(hand, s.c.writers == 0))
    case Unlock(hand, stop) => s' == s.(q := s.q.(holder := Free), worker := CheckOwner(hand, stop))
    case _ => false
  }

  /** debugnet_thread_main. */
  ghost predicate WorkerMoves(s: State, s': State) {
    match s.worker
    case Parked =>
      || (s.q.sema && s' == s.(q := s.q.(sema := false), worker := Woken))
      || s' == s.(c := s.c.(fault := true), worker := CloseGate)                        // the wait failed
    case Woken => s' == s.(worker := if s.c.ownerGone then CloseGate else TryLock)
    case TryLock =>
      if s.q.holder == Free then s' == s.(q := s.q.(holder := ByWorker), worker := Pop)
      else s' == s.(worker := if s.c.ownerGone then CloseGate else TryLock)
    case CheckOwner(hand, stop) =>
      s' == s.(worker := if s.c.ownerGone then CloseGate else if hand.Empty? then Decide(false, stop) else Send(hand.message, stop))
    case Send(m, stop) => s' == s.(sent := s.sent + [m], worker := Decide(true, stop))
    case Decide(sentOne, stop) => s' == s.(worker := if sentOne then TryLock else if stop then CloseGate else Parked)
    case CloseGate => s' == s.(c := s.c.(closed := true), worker := StoreExited)
    case StoreExited => s' == s.(c := s.c.(life := Exited), worker := Ended)
    case Ended => s' == s
    case _ => TurnMoves(s, s')
  }

  // ---- stopping ----

  /** uvdb_debugnet_stop, which may give up at every wait and be called again. */
  ghost predicate StopperMoves(s: State, s': State) {
    match s.stopper
    case NotStopping => s' == s.(stopper := LoadLife)
    case LoadLife => s' == s.(stopper := if s.c.life == Stopped then Done else ShutGate(s.c.life == Running))
    case ShutGate(running) => s' == s.(c := s.c.(closed := true), stopper := if running then StoreStopping else AwaitWriters)
    case StoreStopping => s' == s.(c := s.c.(life := Stopping), stopper := ClearReady)
    case ClearReady => s' == s.(c := s.c.(ready := false), stopper := WakeFirst)
    case WakeFirst => s' == s.(q := s.q.(sema := true), stopper := AwaitWriters)
    case AwaitWriters => s' == s.(stopper := if s.c.writers == 0 then SetReady else AwaitWriters) || s' == s.(stopper := NotStopping)
    case SetReady => s' == s.(c := s.c.(ready := true), stopper := WakeAgain)
    case WakeAgain => s' == s.(q := s.q.(sema := true), stopper := Join)
    case Join => (s.worker == Ended && s' == s.(stopper := Reclaim)) || s' == s.(stopper := NotStopping)
    case Reclaim =>
      // the queue goes even if a handle cannot be deleted yet
      || s' == s.(q := Queue(s.q.accepted, |s.q.accepted|, s.q.holder, false, s.q.sema), c := s.c.(closed := true, life := Stopped), stopper := Done)
      || s' == s.(q := Queue(s.q.accepted, |s.q.accepted|, s.q.holder, false, s.q.sema), c := s.c.(closed := true, life := Exited), stopper := NotStopping)
    case Done => s' == s
  }

  /** debugnet_request_emergency_stop. */
  ghost predicate EmergencyMoves(s: State, s': State) {
    match s.emergency
    case Quiet => s' == s.(emergency := EShutGate)
    case EShutGate => s' == s.(c := s.c.(closed := true), emergency := EFlag)
    case EFlag => s' == s.(c := s.c.(ownerGone := true), emergency := EState)
    case EState => s' == s.(c := s.c.(life := if s.c.life == Running then Stopping else s.c.life), emergency := EReady)
    case EReady => s' == s.(c := s.c.(ready := true), emergency := EWake)
    case EWake => s' == s.(q := s.q.(sema := true), emergency := Quiet)
  }

  /** A writer moves, the worker (-1), the stop (-2), or the emergency stop (-3). */
  ghost predicate Step(s: State, who: int, s': State) {
    if who == -1 then WorkerMoves(s, s')
    else if who == -2 then StopperMoves(s, s')
    else if who == -3 then EmergencyMoves(s, s')
    else
      && 0 <= who < |s.writers| == |s'.writers| && s'.writers == s.writers[who := s'.writers[who]]
      && (var w, w', middle := s.writers[who], s'.writers[who], s'.(writers := s.writers);
          GateMoves(s, who, w, middle, w') || EnqueueMoves(s, who, w, middle, w'))
  }

  // ---- what every interleaving keeps ----

  predicate Counted(w: Writer) {
    w.Admitted? || w.Enqueue? || w.Check? || w.Append? || w.UnlockDrop? || w.UnlockSignal? || w.Signal? || w.Leave?
  }

  function CountWriters(ws: seq<Writer>): nat {
    if |ws| == 0 then 0 else CountWriters(ws[..|ws| - 1]) + (if Counted(ws[|ws| - 1]) then 1 else 0)
  }

  lemma {:induction false} CountUpdate(ws: seq<Writer>, i: nat, w: Writer)
    requires i < |ws|
    ensures CountWriters(ws[i := w]) == CountWriters(ws) + (if Counted(w) then 1 else 0) - (if Counted(ws[i]) then 1 else 0)
  {
    hide Counted;
    var n := |ws| - 1;
    if i == n {
      assert ws[i := w][..n] == ws[..n];
    } else {
      CountUpdate(ws[..n], i, w);
      assert ws[i := w][..n] == ws[..n][i := w];
    }
  }

  lemma {:induction false} CountPositive(ws: seq<Writer>, i: nat)
    requires i < |ws|
    ensures Counted(ws[i]) ==> CountWriters(ws) > 0
  {
    hide Counted;
    if i < |ws| - 1 {
      CountPositive(ws[..|ws| - 1], i);
    }
  }

  lemma {:induction false} CountAway(ws: seq<Writer>)
    requires forall i :: 0 <= i < |ws| ==> ws[i] == Away
    ensures CountWriters(ws) == 0
  {
    if |ws| > 0 {
      CountAway(ws[..|ws| - 1]);
    }
  }

  predicate WriterInLock(w: Writer) {
    w.Check? || w.Append? || w.UnlockDrop? || w.UnlockSignal?
  }

  predicate WorkerInLock(w: Worker) {
    w.Pop? || w.LoadState? || w.LoadReady? || w.LoadCount? || w.LoadWriters? || w.Unlock?
  }

  predicate WorkerLeft(w: Worker) {
    w.CloseGate? || w.StoreExited? || w.Ended?
  }

  function HandOf(w: Worker): Hand {
    match w
    case LoadState(hand) => hand
    case LoadReady(hand) => hand
    case LoadCount(hand) => hand
    case LoadWriters(hand) => hand
    case Unlock(hand, _) => hand
    case CheckOwner(hand, _) => hand
    case Send(m, _) => Holding(m)
    case _ => Empty
  }

  predicate StopFlag(w: Worker) {
    (w.Unlock? || w.CheckOwner? || w.Send? || w.Decide?) && w.stop
  }

  /** Nobody is behind the gate, and nobody will be. */
  predicate Sealed(c: Control) {
    c.closed && c.writers == 0
  }

  ghost predicate Locking(s: State) {
    && (forall i :: 0 <= i < |s.writers| ==> (WriterInLock(s.writers[i]) <==> s.q.holder == ByWriter(i)))
    && (WorkerInLock(s.worker) <==> s.q.holder == ByWorker)
    && (s.q.holder.ByWriter? ==> s.q.holder.writer < |s.writers|)
  }

  ghost predicate Counting(s: State) {
    s.c.writers == CountWriters(s.writers) <= MAX_WRITERS
  }

  /** Messages are sent in order, none twice, and the worker holds at most the latest one. */
  ghost predicate InOrder(s: State) {
    && s.q.taken <= |s.q.accepted| && |s.q.accepted| - s.q.taken <= SLOTS
    && (if WorkerLeft(s.worker) then s.sent <= s.q.accepted && |s.sent| <= s.q.taken
        else
          var hand := HandOf(s.worker);
          if hand.Empty? then s.sent == s.q.accepted[..s.q.taken]
          else s.q.taken > 0 && s.q.accepted[s.q.taken - 1] == hand.message && s.sent == s.q.accepted[..s.q.taken - 1])
    && (WorkerInLock(s.worker) && !s.worker.Pop? && HandOf(s.worker).Empty? ==> s.q.taken == |s.q.accepted|)
  }

  predicate StopShut(p: Stopper) {
    !p.NotStopping? && !p.LoadLife? && !p.ShutGate?
  }

  predicate StopSealed(p: Stopper) {
    p.SetReady? || p.WakeAgain? || p.Join? || p.Reclaim?
  }

  /** Who may rely on the gate being shut, and on nobody being behind it. */
  ghost predicate Gated(s: State) {
    && (StopShut(s.stopper) && !s.stopper.Done? ==> s.c.closed)
    && (StopSealed(s.stopper) ==> Sealed(s.c))
    && (s.emergency.EFlag? || s.emergency.EState? || s.emergency.EReady? || s.emergency.EWake? || s.c.ownerGone ==> s.c.closed)
    && (s.emergency.EState? || s.emergency.EReady? ==> s.c.ownerGone)
    && (s.c.ready && !s.c.ownerGone ==> Sealed(s.c))
    && (s.stopper.Reclaim? ==> s.worker.Ended?)
    && (!s.q.stored || s.c.life == Stopped ==> s.worker.Ended? && Sealed(s.c))
  }

  predicate Normal(c: Control) {
    !c.ownerGone && !c.fault
  }

  /** The worker only sets out to end once everything accepted has been taken and no more can come. */
  ghost predicate Draining(s: State) {
    Normal(s.c) ==>
      && (s.worker.LoadCount? || s.worker.LoadWriters? || StopFlag(s.worker) || WorkerLeft(s.worker) ==> Sealed(s.c))
      && (s.worker.LoadWriters? || StopFlag(s.worker) || WorkerLeft(s.worker) ==> s.q.taken == |s.q.accepted|)
      && (WorkerLeft(s.worker) ==> s.sent == s.q.accepted)
  }

  predicate Asleep(w: Worker) {
    w.Parked? || (w.CheckOwner? && w.hand.Empty?) || (w.Decide? && !w.sentOne)
  }

  ghost predicate SignalDue(s: State) {
    s.q.sema || exists i :: 0 <= i < |s.writers| && (s.writers[i].UnlockSignal? || s.writers[i].Signal?)
  }

  /** A worker that goes to sleep over a message has a signal coming. */
  ghost predicate Waking(s: State) {
    Asleep(s.worker) && s.q.taken < |s.q.accepted| ==> SignalDue(s)
  }

  ghost predicate Inv(s: State) {
    Locking(s) && Counting(s) && InOrder(s) && Gated(s) && Draining(s) && Waking(s)
  }

  lemma InitInv(s: State)
    requires Init(s)
    ensures Inv(s)
  {
    CountAway(s.writers);
  }

  /** One writer moved: the rest of the state changed as `GateMoves` or `EnqueueMoves` says. */
  ghost predicate WriterStep(s: State, i: nat, s': State) {
    i < |s.writers| == |s'.writers| && s'.writers == s.writers[i := s'.writers[i]]
  }

  lemma GateKeepsInv(s: State, i: nat, s': State)
    requires Inv(s) && WriterStep(s, i, s') && GateMoves(s, i, s.writers[i], s'.(writers := s.writers), s'.writers[i])
    ensures Inv(s')
  {
    hide CountWriters;
    CountUpdate(s.writers, i, s'.writers[i]);
    CountPositive(s.writers, i);
    assert s'.q == s.q && s'.sent == s.sent && s'.worker == s.worker && s'.stopper == s.stopper && s'.emergency == s.emergency;
    assert Counting(s');
    assert Sealed(s.c) ==> Sealed(s'.c);
    assert Locking(s');
    if SignalDue(s) && !s.q.sema {
      var k :| 0 <= k < |s.writers| && (s.writers[k].UnlockSignal? || s.writers[k].Signal?);
      assert s'.writers[k] == s.writers[k];
    }
  }

  lemma EnqueueKeepsLocking(s: State, i: nat, s': State)
    requires Locking(s) && WriterStep(s, i, s') && EnqueueMoves(s, i, s.writers[i], s'.(writers := s.writers), s'.writers[i])
    ensures Locking(s')
  {
  }

  lemma EnqueueKeepsCounting(s: State, i: nat, s': State)
    requires Counting(s) && WriterStep(s, i, s') && EnqueueMoves(s, i, s.writers[i], s'.(writers := s.writers), s'.writers[i])
    ensures Counting(s') && s.c.writers > 0 && s'.c == s.c
  {
    hide CountWriters;
    CountUpdate(s.writers, i, s'.writers[i]);
    CountPositive(s.writers, i);
  }

  lemma EnqueueKeepsOrder(s: State, i: nat, s': State)
    requires Locking(s) && InOrder(s) && Gated(s) && s.c.writers > 0 && WriterStep(s, i, s')
    requires EnqueueMoves(s, i, s.writers[i], s'.(writers := s.writers), s'.writers[i])
    ensures InOrder(s')
  {
    if s.writers[i].Append? {
      assert !WorkerInLock(s.worker);
      assert s'.q.taken == s.q.taken && s'.q.accepted[..s.q.taken] == s.q.accepted[..s.q.taken];
      if s.q.taken > 0 {
        assert s'.q.accepted[..s.q.taken - 1] == s.q.accepted[..s.q.taken - 1];
      }
    } else {
      assert s'.q.accepted == s.q.accepted && s'.q.taken == s.q.taken && s'.sent == s.sent && s'.worker == s.worker;
    }
  }

  lemma EnqueueKeepsWaking(s: State, i: nat, s': State)
    requires Waking(s) && WriterStep(s, i, s') && EnqueueMoves(s, i, s.writers[i], s'.(writers := s.writers), s'.writers[i])
    ensures Waking(s')
  {
    if s.writers[i].Append? && s'.writers[i].UnlockSignal? {
      assert SignalDue(s');
    } else if s.writers[i].UnlockSignal? {
      assert s'.writers[i].Signal?;
      assert SignalDue(s');
    } else if SignalDue(s) && !s.q.sema && !s'.q.sema {
      var k :| 0 <= k < |s.writers| && (s.writers[k].UnlockSignal? || s.writers[k].Signal?);
      assert s'.writers[k] == s.writers[k];
      assert SignalDue(s');
    }
  }

  lemma EnqueueKeepsInv(s: State, i: nat, s': State)
    requires Inv(s) && WriterStep(s, i, s') && EnqueueMoves(s, i, s.writers[i], s'.(writers := s.writers), s'.writers[i])
    ensures Inv(s')
  {
    hide Locking, InOrder, Waking, Counting, CountWriters;
    EnqueueKeepsLocking(s, i, s');
    EnqueueKeepsCounting(s, i, s');
    EnqueueKeepsOrder(s, i, s');
    EnqueueKeepsWaking(s, i, s');
    assert s'.worker == s.worker && s'.stopper == s.stopper && s'.emergency == s.emergency && s'.q.stored == s.q.stored;
  }

  // ---- the worker ----

  lemma TurnKeepsInv(s: State, s': State)
    requires Inv(s) && WorkerInLock(s.worker) && TurnMoves(s, s')
    ensures Inv(s')
  {
    hide CountWriters;
    assert s'.writers == s.writers && s'.c == s.c && s'.sent == s.sent;
    if s.worker.Pop? && s.q.taken < |s.q.accepted| {
      assert s'.q.accepted[..s'.q.taken - 1] == s.q.accepted[..s.q.taken];
    }
  }

  lemma WorkerKeepsOrder(s: State, s': State)
    requires Inv(s) && !WorkerInLock(s.worker) && WorkerMoves(s, s')
    ensures InOrder(s')
  {
    hide CountWriters, Locking, Waking;
    if s.worker.Send? {
      assert s'.sent == s.q.accepted[..s.q.taken];
    }
  }

  lemma WorkerKeepsDraining(s: State, s': State)
    requires Inv(s) && !WorkerInLock(s.worker) && WorkerMoves(s, s')
    ensures Gated(s') && Draining(s')
  {
    hide CountWriters, Locking, Waking;
    if s.worker.Decide? && !s.worker.sentOne && s.worker.stop && Normal(s.c) {
      assert s.q.accepted[..s.q.taken] == s.q.accepted;
    }
  }

  lemma WorkerKeepsInv(s: State, s': State)
    requires Inv(s) && WorkerMoves(s, s')
    ensures Inv(s')
  {
    hide CountWriters, InOrder, Gated, Draining;
    if WorkerInLock(s.worker) {
      TurnKeepsInv(s, s');
    } else {
      WorkerKeepsOrder(s, s');
      WorkerKeepsDraining(s, s');
      assert s'.writers == s.writers && s'.c.writers == s.c.writers;
      if s.q.sema && s'.q.sema {
        assert SignalDue(s');
      }
    }
  }

  lemma StopperKeepsGated(s: State, s': State)
    requires Gated(s) && StopperMoves(s, s')
    ensures Gated(s')
  {
  }

  lemma SameOrder(s: State, s': State)
    requires InOrder(s) && Draining(s)
    requires s'.worker == s.worker && s'.sent == s.sent && s'.q.accepted == s.q.accepted && s'.q.taken == s.q.taken
    requires (Normal(s'.c) ==> Normal(s.c)) && (Sealed(s.c) ==> Sealed(s'.c))
    ensures InOrder(s') && Draining(s')
  {
  }

  lemma ReclaimKeepsOrder(s: State, s': State)
    requires s.worker.Ended? && Sealed(s'.c) && InOrder(s) && Draining(s)
    requires s'.worker == s.worker && s'.sent == s.sent && s'.q.accepted == s.q.accepted && s'.q.taken == |s.q.accepted|
    requires Normal(s'.c) ==> Normal(s.c)
    ensures InOrder(s') && Draining(s')
  {
  }

  lemma StopperKeepsDraining(s: State, s': State)
    requires Gated(s) && InOrder(s) && Draining(s) && StopperMoves(s, s')
    ensures InOrder(s') && Draining(s')
  {
    hide InOrder, Draining;
    if s.stopper.Reclaim? {
      ReclaimKeepsOrder(s, s');
    } else {
      SameOrder(s, s');
    }
  }

  lemma StopperKeepsInv(s: State, s': State)
    requires Inv(s) && StopperMoves(s, s')
    ensures Inv(s')
  {
    hide CountWriters, Locking, Gated, Draining, InOrder;
    StopperKeepsGated(s, s');
    StopperKeepsDraining(s, s');
    assert s'.writers == s.writers && s'.worker == s.worker && s'.q.accepted == s.q.accepted && s'.q.holder == s.q.holder;
    assert s'.c.writers == s.c.writers;
    SameLocking(s, s');
    StopperKeepsWaking(s, s');
  }

  lemma StopperKeepsWaking(s: State, s': State)
    requires Gated(s) && Waking(s) && StopperMoves(s, s')
    ensures Waking(s')
  {
    if SignalDue(s) {
      assert SignalDue(s');
    }
  }

  lemma SameLocking(s: State, s': State)
    requires Locking(s) && s'.writers == s.writers && s'.worker == s.worker && s'.q.holder == s.q.holder
    ensures Locking(s')
  {
  }

  lemma EmergencyKeepsInv(s: State, s': State)
    requires Inv(s) && EmergencyMoves(s, s')
    ensures Inv(s')
  {
    hide CountWriters, Locking;
    assert s'.writers == s.writers && s'.sent == s.sent && s'.worker == s.worker && s'.q.accepted == s.q.accepted && s'.q.holder == s.q.holder;
    assert Locking(s') by { SameLocking(s, s'); }
    assert Waking(s') by {
      if SignalDue(s) {
        assert SignalDue(s');
      }
    }
  }

  lemma StepKeepsInv(s: State, who: int, s': State)
    requires Inv(s) && Step(s, who, s')
    ensures Inv(s')
  {
    hide Inv, WorkerMoves, StopperMoves, EmergencyMoves, GateMoves, EnqueueMoves;
    if who == -1 {
      WorkerKeepsInv(s, s');
    } else if who == -2 {
      StopperKeepsInv(s, s');
    } else if who == -3 {
      EmergencyKeepsInv(s, s');
    } else if GateMoves(s, who, s.writers[who], s'.(writers := s.writers), s'.writers[who]) {
      GateKeepsInv(s, who, s');
    } else {
      EnqueueKeepsInv(s, who, s');
    }
  }

  // ---- whole runs ----

  ghost predicate Run(states: seq<State>, who: seq<int>) {
    && |states| == |who| + 1 && Init(states[0])
    && forall k :: 0 <= k < |who| ==> Step(states[k], who[k], states[k + 1])
  }

  lemma {:induction false} RunKeepsInv(states: seq<State>, who: seq<int>, k: nat)
    requires Run(states, who) && k < |states|
    ensures Inv(states[k])
  {
    hide Init, Step, Inv;
    if k == 0 {
      InitInv(states[0]);
    } else {
      var j := k - 1;
      RunKeepsInv(states, who, j);
      var s, s' := states[j], states[j + 1];
      assert Step(s, who[j], s');
      StepKeepsInv(s, who[j], s');
    }
  }

  /** Messages reach the network in the order they were accepted, none twice; and a worker that ends
      without an emergency or a failed wait has sent every one of them. */
  lemma NormalStopDrains(states: seq<State>, who: seq<int>, k: nat)
    requires Run(states, who) && k < |states|
    ensures var s := states[k];
      && s.sent <= s.q.accepted
      && (s.worker.Ended? && !s.c.ownerGone && !s.c.fault ==> s.sent == s.q.accepted && s.c.closed && s.c.writers == 0)
  {
    hide Init, Step, CountWriters;
    RunKeepsInv(states, who, k);
  }

  /** A worker asleep over a non-empty queue has a signal waiting or a writer about to give one. */
  lemma NoLostWakeup(states: seq<State>, who: seq<int>, k: nat)
    requires Run(states, who) && k < |states| && states[k].worker.Parked? && states[k].q.taken < |states[k].q.accepted|
    ensures SignalDue(states[k])
  {
    hide Init, Step, CountWriters;
    RunKeepsInv(states, who, k);
  }

  /** The queue is freed only behind a shut gate with no writer inside and the worker gone, so
      nobody uses it afterwards. */
  lemma FreedIsUnused(states: seq<State>, who: seq<int>, k: nat)
    requires Run(states, who) && k < |states| && !states[k].q.stored
    ensures var s := states[k];
      && s.c.closed && s.worker.Ended?
      && forall i :: 0 <= i < |s.writers| ==> !Counted(s.writers[i]) && !WriterInLock(s.writers[i])
  {
    hide Init, Step, CountWriters;
    RunKeepsInv(states, who, k);
    var s := states[k];
    forall i | 0 <= i < |s.writers| ensures !Counted(s.writers[i]) && !WriterInLock(s.writers[i]) {
      CountPositive(s.writers, i);
    }
  }
}
