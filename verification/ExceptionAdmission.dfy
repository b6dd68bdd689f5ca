/**
 * Exception admission: any number of exception callbacks, the guard that admits them, the protocol
 * gate and the state lock a primary callback takes, and a teardown that closes the guard and waits
 * for it to fall idle. Each atomic access is one step; a compare-exchange loop is its one
 * successful exchange.
 */
module ExceptionAdmission {

  const TYPES: nat := 3
  const MAX_ACTIVE: nat := 0x7fff_ffff

  datatype Entry = Primary | Nested | Closed

  datatype Pc =
    | Out
    | Admitted                       // counted as an admission, not yet in the guard
    | Claiming                       // counted in the guard while it was open
    | Entered(entry: Entry)          // still counted as an admission
    | Refused                        // the guard had no room or the type is unknown
    | Decided(entry: Entry)
    | Unclaimed(entry: Entry)        // about to offer the exception to the predecessor
    | Chained(entry: Entry)          // the predecessor runs
    | TryGate | TryLock              // the gate is taken at TryLock
    | Contended                      // gate taken, lock not: about to give the gate back
    | Stopped                        // gate and lock taken: the debugger runs
    | Waiting                        // the lock is given up while a packet is awaited
    | Unlocked                       // about to give the gate back
    | Leaving(entry: Entry) | Uncounting
    | Broken                         // a release that did not find what it was to give back

  datatype Callback = Callback(pc: Pc, kind: nat, thread: nat)

  /** The word of the guard, and who it stands for. */
  datatype Guard = Guard(closed: bool, active: nat, owner: nat, primary: int, mask: seq<bool>, chainers: seq<int>)

  /** The protocol gate, which only callbacks acquire, and the state lock. Holder -1 is nobody; the
      lock's holder is -2 while a thread outside has it. */
  datatype Locks = Locks(gate: nat, closing: bool, gateHolder: int, lockHolder: int)

  /** The teardown: it loads the admissions, the active count, the owner and the mask in turn. */
  datatype Teardown = Idle | Watching(loaded: nat) | Quiet

  datatype State = State(g: Guard, locks: Locks, admissions: nat, teardown: Teardown, callbacks: seq<Callback>)

  predicate HasEntry(pc: Pc) {
    pc.Entered? || pc.Decided? || pc.Unclaimed? || pc.Chained? || pc.Leaving?
  }

  /** Inside the guard: counted and not yet uncounted. */
  predicate Inside(pc: Pc) {
    HasEntry(pc) || pc.Claiming? || pc.TryGate? || pc.TryLock? || pc.Contended? || pc.Stopped? || pc.Waiting? || pc.Unlocked? || pc.Uncounting?
  }

  predicate IsPrimary(pc: Pc) {
    (HasEntry(pc) && pc.entry.Primary?) || pc.TryGate? || pc.TryLock? || pc.Contended? || pc.Stopped? || pc.Waiting? || pc.Unlocked?
  }

  /** Admitted while the guard was open, so primary or nested or about to become one of them. */
  predicate Open(pc: Pc) {
    IsPrimary(pc) || (HasEntry(pc) && pc.entry.Nested?) || pc.Claiming?
  }

  predicate HasGate(pc: Pc) {
    pc.TryLock? || pc.Contended? || pc.Stopped? || pc.Waiting? || pc.Unlocked?
  }

  predicate IsAdmission(pc: Pc) {
    pc.Admitted? || pc.Claiming? || pc.Entered? || pc.Refused?
  }

  ghost predicate Init(s: State) {
    && s.g == Guard(false, 0, 0, -1, [false, false, false], [-1, -1, -1])
    && s.locks == Locks(0, false, -1, -1) && s.admissions == 0 && s.teardown == Idle
    && forall i :: 0 <= i < |s.callbacks| ==> s.callbacks[i].pc == Out
  }

  ghost predicate Shaped(s: State) {
    |s.g.mask| == TYPES == |s.g.chainers|
  }

  // ---- the steps of a callback ----

  /** Into the guard, up to the entry result. */
  ghost predicate EnterMoves(s: State, i: nat, c: Callback, s': State, c': Callback) {
    match c.pc
    case Out => c'.pc == Admitted && s' == s.(admissions := s.admissions + 1)
    case Admitted =>
      if c.kind >= TYPES || s.g.active == MAX_ACTIVE then c' == c.(pc := Refused) && s' == s
      else c' == c.(pc := if s.g.closed then Entered(Closed) else Claiming) && s' == s.(g := s.g.(active := s.g.active + 1))
    case Claiming =>
      if s.g.owner == 0 then c' == c.(pc := Entered(Primary)) && s' == s.(g := s.g.(owner := c.kind + 1, primary := i))
      else c' == c.(pc := Entered(Nested)) && s' == s
    case Entered(entry) => Uncounts(s, c, s', c', Decided(entry))
    case Refused => Uncounts(s, c, s', c', Out)
    case _ => false
  }

  ghost predicate Uncounts(s: State, c: Callback, s': State, c': Callback, next: Pc) {
    if s.admissions > 0 then c' == c.(pc := next) && s' == s.(admissions := s.admissions - 1)
    else c' == c.(pc := Broken) && s' == s
  }

  /** Offering the exception to the predecessor of its type, at most one at a time. */
  ghost predicate ChainMoves(s: State, i: nat, c: Callback, s': State, c': Callback)
    requires Shaped(s)
  {
    match c.pc
    case Decided(entry) =>
      // a primary callback goes on to the gate if the session can claim the stop
      s' == s && (c' == c.(pc := Unclaimed(entry)) || (entry.Primary? && c' == c.(pc := TryGate)))
    case Unclaimed(entry) =>
      // no predecessor, or one of this type is already running
      || (s' == s && c' == c.(pc := Leaving(entry)))
      || (c.kind < TYPES && !s.g.mask[c.kind] && c' == c.(pc := Chained(entry)) &&
          s' == s.(g := s.g.(mask := s.g.mask[c.kind := true], chainers := s.g.chainers[c.kind := i])))
    case Chained(entry) =>
      c.kind < TYPES && c' == c.(pc := Leaving(entry)) &&
      s' == s.(g := s.g.(mask := s.g.mask[c.kind := false], chainers := s.g.chainers[c.kind := -1]))
    case _ => false
  }

  /** The gate, the lock, and giving them back. */
  ghost predicate GateMoves(s: State, i: nat, c: Callback, s': State, c': Callback) {
    match c.pc
    case TryGate =>
      if s.locks.gate == 0 && !s.locks.closing
      then c' == c.(pc := TryLock) && s' == s.(locks := s.locks.(gate := c.thread + 1, gateHolder := i))
      else c' == c.(pc := Unclaimed(Primary)) && s' == s
    case TryLock =>
      if s.locks.lockHolder == -1 then c' == c.(pc := Stopped) && s' == s.(locks := s.locks.(lockHolder := i))
      else c' == c.(pc := Contended) && s' == s
    case Contended => ReleasesGate(s, c, s', c', Unclaimed(Primary))
    case Stopped =>
      if s.locks.lockHolder == i
      then (c' == c.(pc := Unlocked) || c' == c.(pc := Waiting)) && s' == s.(locks := s.locks.(lockHolder := -1))
      else c' == c.(pc := Broken) && s' == s
    case Waiting =>
      if s.locks.lockHolder == -1 then c' == c.(pc := Stopped) && s' == s.(locks := s.locks.(lockHolder := i))
      else c' == c && s' == s
    case Unlocked => ReleasesGate(s, c, s', c', Leaving(Primary))
    case _ => false
  }

  ghost predicate ReleasesGate(s: State, c: Callback, s': State, c': Callback, next: Pc) {
    if s.locks.gate == c.thread + 1 then c' == c.(pc := next) && s' == s.(locks := s.locks.(gate := 0, gateHolder := -1))
    else c' == c.(pc := Broken) && s' == s
  }

  ghost predicate LeaveMoves(s: State, i: nat, c: Callback, s': State, c': Callback) {
    match c.pc
    case Leaving(entry) =>
      if !entry.Primary? then c' == c.(pc := Uncounting) && s' == s
      else if s.g.owner == c.kind + 1 then c' == c.(pc := Uncounting) && s' == s.(g := s.g.(owner := 0, primary := -1))
      else c' == c.(pc := Broken) && s' == s
    case Uncounting =>
      if s.g.active > 0 then c' == c.(pc := Out) && s' == s.(g := s.g.(active := s.g.active - 1))
      else c' == c.(pc := Broken) && s' == s
    case _ => false
  }

  // ---- the others ----

  ghost predicate TeardownMoves(s: State, s': State)
    requires Shaped(s)
  {
    match s.teardown
    case Idle => s' == s.(g := s.g.(closed := true), teardown := Watching(0))
    case Watching(loaded) =>
      if loaded == 0 then s' == s.(teardown := if s.admissions == 0 then Watching(1) else Watching(0))
      else if loaded == 1 then s' == s.(teardown := if s.g.active == 0 then Watching(2) else Watching(0))
      else if loaded == 2 then s' == s.(teardown := if s.g.owner == 0 then Watching(3) else Watching(0))
      else s' == s.(teardown := if true in s.g.mask then Watching(0) else Quiet)
    case Quiet => s' == s
  }

  /** Threads outside close and reopen the gate and use the state lock. */
  ghost predicate OutsideMoves(s: State, s': State) {
    || s' == s.(locks := s.locks.(closing := true))
    || (s.locks.gate == 0 && s' == s.(locks := s.locks.(closing := false)))
    || (s.locks.lockHolder == -1 && s' == s.(locks := s.locks.(lockHolder := -2)))
    || (s.locks.lockHolder == -2 && s' == s.(locks := s.locks.(lockHolder := -1)))
  }

  ghost predicate CallbackMoves(s: State, i: nat, c: Callback, s': State, c': Callback)
    requires Shaped(s)
  {
    EnterMoves(s, i, c, s', c') || ChainMoves(s, i, c, s', c') || GateMoves(s, i, c, s', c') || LeaveMoves(s, i, c, s', c')
  }

  /** A callback moves, the teardown does (-1), or somebody outside (-2). */
  ghost predicate Step(s: State, who: int, s': State)
    requires Shaped(s)
  {
    if who == -1 then TeardownMoves(s, s')
    else if who == -2 then OutsideMoves(s, s')
    else
      && 0 <= who < |s.callbacks| == |s'.callbacks|
      && s'.callbacks == s.callbacks[who := s'.callbacks[who]]
      && CallbackMoves(s, who, s.callbacks[who], s'.(callbacks := s.callbacks), s'.callbacks[who])
  }

  // ---- what every interleaving keeps ----

  function CountInside(cs: seq<Callback>): nat {
    if |cs| == 0 then 0 else CountInside(cs[..|cs| - 1]) + (if Inside(cs[|cs| - 1].pc) then 1 else 0)
  }

  function CountAdmissions(cs: seq<Callback>): nat {
    if |cs| == 0 then 0 else CountAdmissions(cs[..|cs| - 1]) + (if IsAdmission(cs[|cs| - 1].pc) then 1 else 0)
  }

  lemma {:induction false} CountUpdate(cs: seq<Callback>, i: nat, c: Callback)
    requires i < |cs|
    ensures CountInside(cs[i := c]) == CountInside(cs) + (if Inside(c.pc) then 1 else 0) - (if Inside(cs[i].pc) then 1 else 0)
    ensures CountAdmissions(cs[i := c]) == CountAdmissions(cs) + (if IsAdmission(c.pc) then 1 else 0) - (if IsAdmission(cs[i].pc) then 1 else 0)
  {
    hide Inside, IsAdmission;
    var n := |cs| - 1;
    if i == n {
      assert cs[i := c][..n] == cs[..n];
    } else {
      CountUpdate(cs[..n], i, c);
      assert cs[i := c][..n] == cs[..n][i := c];
    }
  }

  lemma {:induction false} CountPositive(cs: seq<Callback>, i: nat)
    requires i < |cs|
    ensures Inside(cs[i].pc) ==> CountInside(cs) > 0
    ensures IsAdmission(cs[i].pc) ==> CountAdmissions(cs) > 0
  {
    hide Inside, IsAdmission;
    if i < |cs| - 1 {
      CountPositive(cs[..|cs| - 1], i);
    }
  }

  lemma {:induction false} CountOut(cs: seq<Callback>)
    requires forall i :: 0 <= i < |cs| ==> cs[i].pc == Out
    ensures CountInside(cs) == 0 && CountAdmissions(cs) == 0
  {
    if |cs| > 0 {
      CountOut(cs[..|cs| - 1]);
    }
  }

  /** The counters are the numbers of callbacks they count. */
  ghost predicate Counted(s: State) {
    && s.g.active == CountInside(s.callbacks)
    && s.admissions == CountAdmissions(s.callbacks)
  }

  /** Every release found what it was to give back. */
  ghost predicate Unbroken(s: State) {
    forall i :: 0 <= i < |s.callbacks| ==> s.callbacks[i].pc != Broken && (Inside(s.callbacks[i].pc) ==> s.callbacks[i].kind < TYPES)
  }

  /** Exactly the callback the owner word stands for is primary. */
  ghost predicate Owned(s: State) {
    && (s.g.primary == -1 <==> s.g.owner == 0)
    && (s.g.primary != -1 ==> 0 <= s.g.primary < |s.callbacks| && s.g.owner == s.callbacks[s.g.primary].kind + 1)
    && forall i :: 0 <= i < |s.callbacks| ==> (IsPrimary(s.callbacks[i].pc) <==> i == s.g.primary)
  }

  /** Exactly the callbacks the mask stands for run a predecessor, one for each type. */
  ghost predicate ChainedOnce(s: State)
    requires Shaped(s)
  {
    && (forall t :: 0 <= t < TYPES ==> (s.g.mask[t] <==> s.g.chainers[t] != -1))
    && (forall i :: 0 <= i < |s.callbacks| && s.callbacks[i].pc.Chained? ==>
          s.callbacks[i].kind < TYPES && s.g.chainers[s.callbacks[i].kind] == i)
    && (forall t :: 0 <= t < TYPES && s.g.chainers[t] != -1 ==>
          0 <= s.g.chainers[t] < |s.callbacks| && s.callbacks[s.g.chainers[t]].pc.Chained? && s.callbacks[s.g.chainers[t]].kind == t)
  }

  /** Exactly the callback the gate stands for has it, and likewise the lock. */
  ghost predicate Locked(s: State) {
    && (s.locks.gateHolder == -1 <==> s.locks.gate == 0)
    && (s.locks.gateHolder != -1 ==> 0 <= s.locks.gateHolder < |s.callbacks| && s.locks.gate == s.callbacks[s.locks.gateHolder].thread + 1)
    && -2 <= s.locks.lockHolder < |s.callbacks|
    && (s.locks.lockHolder >= 0 ==> s.callbacks[s.locks.lockHolder].pc.Stopped?)
    && (forall i :: 0 <= i < |s.callbacks| ==> (HasGate(s.callbacks[i].pc) <==> i == s.locks.gateHolder))
    && (forall i :: 0 <= i < |s.callbacks| ==> (s.callbacks[i].pc.Stopped? <==> i == s.locks.lockHolder))
  }

  predicate SawNobody(t: Teardown) {
    t.Quiet? || (t.Watching? && t.loaded >= 2)
  }

  /** Once the teardown has seen the closed guard empty, nobody is in it as primary or nested. */
  ghost predicate Fenced(s: State) {
    && (s.g.closed <==> !s.teardown.Idle?)
    && (s.teardown.Watching? ==> s.teardown.loaded <= 3)
    && (SawNobody(s.teardown) ==> forall i :: 0 <= i < |s.callbacks| ==> !Open(s.callbacks[i].pc))
  }

  ghost predicate Inv(s: State) {
    Shaped(s) && Counted(s) && Unbroken(s) && Owned(s) && ChainedOnce(s) && Locked(s) && Fenced(s)
  }

  lemma InitInv(s: State)
    requires Init(s)
    ensures Inv(s)
  {
    CountOut(s.callbacks);
  }

  lemma StepKeepsCounted(s: State, who: nat, s': State)
    requires Inv(s) && Step(s, who, s') && s'.callbacks[who].pc != Broken
    ensures Counted(s')
  {
    hide Owned, ChainedOnce, Locked, Fenced, Unbroken, CountInside, CountAdmissions;
    var c, c' := s.callbacks[who], s'.callbacks[who];
    CountUpdate(s.callbacks, who, c');
    CountPositive(s.callbacks, who);
    CountsFollow(s, who, c, s'.(callbacks := s.callbacks), c');
  }

  /** A step moves a counter exactly when its callback starts or stops being counted. */
  lemma CountsFollow(s: State, i: nat, c: Callback, s': State, c': Callback)
    requires Shaped(s) && CallbackMoves(s, i, c, s', c')
    requires Inside(c.pc) ==> s.g.active > 0
    requires IsAdmission(c.pc) ==> s.admissions > 0
    ensures s'.g.active == s.g.active + (if Inside(c'.pc) then 1 else 0) - (if Inside(c.pc) then 1 else 0) || c'.pc == Broken
    ensures s'.admissions == s.admissions + (if IsAdmission(c'.pc) then 1 else 0) - (if IsAdmission(c.pc) then 1 else 0) || c'.pc == Broken
  {
    if EnterMoves(s, i, c, s', c') {
    } else if ChainMoves(s, i, c, s', c') {
    } else if GateMoves(s, i, c, s', c') {
    }
  }

  lemma StepKeepsUnbroken(s: State, who: nat, s': State)
    requires Inv(s) && Step(s, who, s')
    ensures Unbroken(s')
  {
    hide ChainedOnce, Fenced, CountInside, CountAdmissions;
    CountPositive(s.callbacks, who);
  }

  lemma StepKeepsOwned(s: State, who: nat, s': State)
    requires Inv(s) && Step(s, who, s') && s'.callbacks[who].pc != Broken
    ensures Owned(s')
  {
    hide Counted, ChainedOnce, Locked, Fenced;
    var c, c', middle := s.callbacks[who], s'.callbacks[who], s'.(callbacks := s.callbacks);
    if EnterMoves(s, who, c, middle, c') {
      EnterKeepsOwned(s, who, s');
    } else if LeaveMoves(s, who, c, middle, c') {
      LeaveKeepsOwned(s, who, s');
    } else {
      assert s'.g.owner == s.g.owner && s'.g.primary == s.g.primary && c'.kind == c.kind;
      assert IsPrimary(c.pc) <==> IsPrimary(c'.pc);
    }
  }

  lemma EnterKeepsOwned(s: State, who: nat, s': State)
    requires Shaped(s) && Owned(s) && who < |s.callbacks| == |s'.callbacks| && s'.callbacks == s.callbacks[who := s'.callbacks[who]]
    requires EnterMoves(s, who, s.callbacks[who], s'.(callbacks := s.callbacks), s'.callbacks[who])
    ensures Owned(s') || s'.callbacks[who].pc == Broken
  {
  }

  lemma LeaveKeepsOwned(s: State, who: nat, s': State)
    requires Shaped(s) && Owned(s) && who < |s.callbacks| == |s'.callbacks| && s'.callbacks == s.callbacks[who := s'.callbacks[who]]
    requires LeaveMoves(s, who, s.callbacks[who], s'.(callbacks := s.callbacks), s'.callbacks[who])
    ensures Owned(s') || s'.callbacks[who].pc == Broken
  {
  }

  lemma StepKeepsChained(s: State, who: nat, s': State)
    requires Inv(s) && Step(s, who, s')
    ensures Shaped(s') && ChainedOnce(s')
  {
    hide Counted, Owned, Locked, Fenced;
    var c, c', middle := s.callbacks[who], s'.callbacks[who], s'.(callbacks := s.callbacks);
    if ChainMoves(s, who, c, middle, c') {
      ChainKeepsChained(s, who, s');
    } else {
      assert s'.g.mask == s.g.mask && s'.g.chainers == s.g.chainers;
      assert !c.pc.Chained? && !c'.pc.Chained?;
    }
  }

  lemma ChainKeepsChained(s: State, who: nat, s': State)
    requires Shaped(s) && ChainedOnce(s) && who < |s.callbacks| == |s'.callbacks| && s'.callbacks == s.callbacks[who := s'.callbacks[who]]
    requires ChainMoves(s, who, s.callbacks[who], s'.(callbacks := s.callbacks), s'.callbacks[who])
    ensures Shaped(s') && ChainedOnce(s')
  {
  }

  lemma StepKeepsLocked(s: State, who: nat, s': State)
    requires Inv(s) && Step(s, who, s')
    ensures Locked(s')
  {
    hide Counted, Owned, ChainedOnce, Fenced;
    var c, c', middle := s.callbacks[who], s'.callbacks[who], s'.(callbacks := s.callbacks);
    if GateMoves(s, who, c, middle, c') {
      GateKeepsLocked(s, who, s');
    } else {
      assert s'.locks == s.locks && !HasGate(c.pc) && !HasGate(c'.pc);
    }
  }

  lemma GateKeepsLocked(s: State, who: nat, s': State)
    requires Locked(s) && who < |s.callbacks| == |s'.callbacks| && s'.callbacks == s.callbacks[who := s'.callbacks[who]]
    requires GateMoves(s, who, s.callbacks[who], s'.(callbacks := s.callbacks), s'.callbacks[who])
    ensures Locked(s')
  {
  }

  lemma StepKeepsFenced(s: State, who: nat, s': State)
    requires Inv(s) && Step(s, who, s')
    ensures Fenced(s')
  {
    hide Counted, Owned, ChainedOnce, Locked;
  }

  lemma TeardownKeepsInv(s: State, s': State)
    requires Inv(s) && TeardownMoves(s, s')
    ensures Inv(s')
  {
    hide CountInside, CountAdmissions, Open, Inside;
    if s.g.active == 0 {
      NobodyOpen(s);
    }
    assert s'.callbacks == s.callbacks && s'.locks == s.locks;
    assert s'.g == s.g.(closed := s'.g.closed);
  }

  lemma OutsideKeepsInv(s: State, s': State)
    requires Inv(s) && OutsideMoves(s, s')
    ensures Inv(s')
  {
    hide CountInside, CountAdmissions, Open, Inside;
    assert s'.g == s.g && s'.callbacks == s.callbacks;
    assert s'.locks.gate == s.locks.gate && s'.locks.gateHolder == s.locks.gateHolder;
  }

  lemma NobodyOpen(s: State)
    requires Counted(s) && s.g.active == 0
    ensures forall i :: 0 <= i < |s.callbacks| ==> !Open(s.callbacks[i].pc)
  {
    forall i | 0 <= i < |s.callbacks| ensures !Open(s.callbacks[i].pc) {
      CountPositive(s.callbacks, i);
    }
  }

  lemma StepKeepsInv(s: State, who: int, s': State)
    requires Inv(s) && Step(s, who, s')
    ensures Inv(s')
  {
    if who == -1 {
      TeardownKeepsInv(s, s');
    } else if who == -2 {
      OutsideKeepsInv(s, s');
    } else {
      StepKeepsUnbroken(s, who, s');
      StepKeepsCounted(s, who, s');
      StepKeepsOwned(s, who, s');
      StepKeepsChained(s, who, s');
      StepKeepsLocked(s, who, s');
      StepKeepsFenced(s, who, s');
    }
  }

  // ---- whole runs ----

  ghost predicate Run(states: seq<State>, who: seq<int>) {
    && |states| == |who| + 1 && Init(states[0])
    && forall k :: 0 <= k < |who| ==> Shaped(states[k]) && Step(states[k], who[k], states[k + 1])
  }

  lemma {:induction false} RunKeepsInv(states: seq<State>, who: seq<int>, k: nat)
    requires Run(states, who) && k < |states|
    ensures Inv(states[k])
  {
    hide Init, Step, Inv;
    if k == 0 {
      InitInv(states[0]);
    } else {
      var j := k - 1;
      RunKeepsInv(states, who, j);
      var s, s' := states[j], states[j + 1];
      assert Shaped(s) && Step(s, who[j], s');
      StepKeepsInv(s, who[j], s');
    }
  }

  /** In every reachable state at most one callback is primary, at most one runs a predecessor of
      each type, the active count is the number of callbacks inside, and no release has failed. */
  lemma AdmissionIsExclusive(states: seq<State>, who: seq<int>, k: nat, i: nat, j: nat)
    requires Run(states, who) && k < |states| && i < j < |states[k].callbacks|
    ensures var s := states[k];
      && !(IsPrimary(s.callbacks[i].pc) && IsPrimary(s.callbacks[j].pc))
      && !(s.callbacks[i].pc.Chained? && s.callbacks[j].pc.Chained? && s.callbacks[i].kind == s.callbacks[j].kind)
      && !(HasGate(s.callbacks[i].pc) && HasGate(s.callbacks[j].pc))
      && s.g.active == CountInside(s.callbacks)
      && s.callbacks[i].pc != Broken && s.callbacks[j].pc != Broken
  {
    hide Init, Step, CountInside, CountAdmissions;
    RunKeepsInv(states, who, k);
  }

  lemma {:induction false} QuietStays(states: seq<State>, who: seq<int>, k: nat, m: nat)
    requires Run(states, who) && k <= m < |states| && states[k].teardown.Quiet?
    ensures states[m].teardown.Quiet?
  {
    if k < m {
      QuietStays(states, who, k, m - 1);
      var s, s' := states[m - 1], states[m - 1 + 1];
      assert Step(s, who[m - 1], s');
    }
  }

  /** After the guard was closed and seen idle, no primary and no nested callback is ever inside. */
  lemma ClosedAndIdleIsFinal(states: seq<State>, who: seq<int>, k: nat, m: nat, i: nat)
    requires Run(states, who) && k <= m < |states| && states[k].teardown.Quiet? && i < |states[m].callbacks|
    ensures var pc := states[m].callbacks[i].pc; !IsPrimary(pc) && !(HasEntry(pc) && pc.entry.Nested?) && !pc.Claiming?
  {
    hide Init, Step, CountInside, CountAdmissions;
    QuietStays(states, who, k, m);
    RunKeepsInv(states, who, m);
  }

  /** When every callback has returned, everything any of them took has been given back. */
  lemma ReturnedGivesBack(states: seq<State>, who: seq<int>, k: nat)
    requires Run(states, who) && k < |states| && forall i :: 0 <= i < |states[k].callbacks| ==> states[k].callbacks[i].pc == Out
    ensures var s := states[k];
      && s.g.active == 0 && s.g.owner == 0 && true !in s.g.mask && s.admissions == 0
      && s.locks.gate == 0 && s.locks.lockHolder < 0
  {
    hide Init, Step, CountInside, CountAdmissions;
    RunKeepsInv(states, who, k);
    CountOut(states[k].callbacks);
  }
}
