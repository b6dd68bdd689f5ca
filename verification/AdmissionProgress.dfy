/**
 * What an exception callback achieves when it is left alone: the first one stops the target with
 * gate and lock in hand and gives everything back, a second one runs the predecessor, and a
 * teardown of an idle guard comes to an end. The schedules are explicit: every step is one of the
 * protocol, taken by the thread named.
 */
module AdmissionProgress {
  import opened ExceptionAdmission

  ghost predicate InSteps(s: State, who: int, n: nat, s': State)
    decreases n
  {
    if n == 0 then s' == s
    else Shaped(s) && exists middle :: Step(s, who, middle) && InSteps(middle, who, n - 1, s')
  }

  /** The thread `who` may take `s` to `s'` while all others rest. */
  ghost predicate Reaches(s: State, who: int, s': State) {
    exists n: nat :: InSteps(s, who, n, s')
  }

  lemma Start(s: State, who: int)
    ensures Reaches(s, who, s)
  {
    assert InSteps(s, who, 0, s);
  }

  lemma {:induction false} OneMore(s: State, who: int, n: nat, middle: State, s': State)
    requires InSteps(s, who, n, middle) && Shaped(middle) && Step(middle, who, s')
    ensures InSteps(s, who, n + 1, s')
    decreases n
  {
    hide Step, Shaped;
    if n == 0 {
      assert InSteps(s', who, 0, s');
    } else {
      var next :| Step(s, who, next) && InSteps(next, who, n - 1, middle);
      OneMore(next, who, n - 1, middle, s');
    }
  }

  lemma Next(s: State, who: int, middle: State, s': State)
    requires Reaches(s, who, middle) && Shaped(middle) && Step(middle, who, s')
    ensures Reaches(s, who, s')
  {
    hide Step, InSteps, Shaped;
    var n: nat :| InSteps(s, who, n, middle);
    OneMore(s, who, n, middle, s');
  }

  function With(s: State, i: nat, pc: Pc): State
    requires i < |s.callbacks|
  {
    s.(callbacks := s.callbacks[i := s.callbacks[i].(pc := pc)])
  }

  /** One more step of callback `i`, from `pc` to `pc'`. */
  lemma CallbackNext(s0: State, s: State, i: nat, pc: Pc, t: State, pc': Pc)
    requires i < |s.callbacks| && t.callbacks == s.callbacks && Shaped(s) && Reaches(s0, i, With(s, i, pc))
    requires CallbackMoves(With(s, i, pc), i, s.callbacks[i].(pc := pc), With(t, i, pc), s.callbacks[i].(pc := pc'))
    ensures Reaches(s0, i, With(t, i, pc'))
  {
    hide CallbackMoves, Reaches, TeardownMoves, OutsideMoves;
    var a, b := With(s, i, pc), With(t, i, pc');
    assert b.callbacks == a.callbacks[i := b.callbacks[i]];
    assert b.(callbacks := a.callbacks) == With(t, i, pc);
    Next(s0, i, a, b);
  }

  /** The callback is outside, of a known type, and the guard has room. */
  predicate MayEnter(s: State, i: nat) {
    && i < |s.callbacks| && s.callbacks[i].pc == Out && s.callbacks[i].kind < 3 && s.g.active < 0x7fff_ffff
    && |s.g.mask| == 3 == |s.g.chainers|
  }

  function Inner(s: State): State {
    s.(g := s.g.(active := s.g.active + 1))
  }

  /** How the guard answers a callback that enters it alone. */
  function Answer(s: State): Entry {
    if s.g.closed then Closed else if s.g.owner == 0 then Primary else Nested
  }

  function Entered(s: State, i: nat): State
    requires i < |s.callbacks|
  {
    if Answer(s).Primary? then Inner(s).(g := Inner(s).g.(owner := s.callbacks[i].kind + 1, primary := i)) else Inner(s)
  }

  lemma Enters(s: State, i: nat)
    requires MayEnter(s, i)
    ensures Reaches(s, i, With(Entered(s, i), i, Decided(Answer(s))))
  {
    hide Reaches, ChainMoves, GateMoves, LeaveMoves;
    Start(s, i);
    assert With(s, i, Out) == s;
    var admitted := s.(admissions := s.admissions + 1);
    var inner := Inner(admitted);
    var entered := Entered(s, i).(admissions := s.admissions + 1);
    CallbackNext(s, s, i, Out, admitted, Admitted);
    if s.g.closed {
      CallbackNext(s, admitted, i, Admitted, inner, Pc.Entered(Closed));
    } else {
      CallbackNext(s, admitted, i, Admitted, inner, Claiming);
      CallbackNext(s, inner, i, Claiming, entered, Pc.Entered(Answer(s)));
    }
    CallbackNext(s, entered, i, Pc.Entered(Answer(s)), Entered(s, i), Decided(Answer(s)));
  }

  /** A full guard or an unknown type is refused and leaves no trace. */
  lemma RefusedLeavesNoTrace(s: State, i: nat)
    requires i < |s.callbacks| && s.callbacks[i].pc == Out && |s.g.mask| == 3 == |s.g.chainers|
    requires s.callbacks[i].kind >= 3 || s.g.active == 0x7fff_ffff
    ensures Reaches(s, i, s)
  {
    hide Reaches, ChainMoves, GateMoves, LeaveMoves;
    Start(s, i);
    assert With(s, i, Out) == s;
    var admitted := s.(admissions := s.admissions + 1);
    CallbackNext(s, s, i, Out, admitted, Admitted);
    CallbackNext(s, admitted, i, Admitted, admitted, Refused);
    CallbackNext(s, admitted, i, Refused, s, Out);
  }

  lemma Leaves(s0: State, s: State, i: nat, entry: Entry)
    requires i < |s.callbacks| && Shaped(s) && s.g.active > 0 && Reaches(s0, i, With(s, i, Leaving(entry)))
    requires entry.Primary? ==> s.g.owner == s.callbacks[i].kind + 1
    ensures var g := s.g.(active := s.g.active - 1);
      Reaches(s0, i, With(s.(g := if entry.Primary? then g.(owner := 0, primary := -1) else g), i, Out))
  {
    hide Reaches, EnterMoves, ChainMoves, GateMoves;
    var given := if entry.Primary? then s.(g := s.g.(owner := 0, primary := -1)) else s;
    CallbackNext(s0, s, i, Leaving(entry), given, Uncounting);
    CallbackNext(s0, given, i, Uncounting, given.(g := given.g.(active := s.g.active - 1)), Out);
  }

  /** The predecessor of the callback's type is running in it. */
  function Chaining(s: State, i: nat): State
    requires i < |s.callbacks| && s.callbacks[i].kind < |s.g.mask| == |s.g.chainers|
  {
    s.(g := s.g.(mask := s.g.mask[s.callbacks[i].kind := true], chainers := s.g.chainers[s.callbacks[i].kind := i]))
  }

  lemma Chains(s0: State, s: State, i: nat, entry: Entry)
    requires i < |s.callbacks| && Shaped(s) && s.callbacks[i].kind < 3 && !s.g.mask[s.callbacks[i].kind]
    requires Reaches(s0, i, With(s, i, Unclaimed(entry)))
    ensures Reaches(s0, i, With(Chaining(s, i), i, Chained(entry)))
  {
    hide Reaches, EnterMoves, GateMoves, LeaveMoves;
    CallbackNext(s0, s, i, Unclaimed(entry), Chaining(s, i), Chained(entry));
  }

  lemma Unchains(s0: State, s: State, i: nat, entry: Entry)
    requires i < |s.callbacks| && Shaped(s) && s.callbacks[i].kind < 3 && !s.g.mask[s.callbacks[i].kind] && s.g.chainers[s.callbacks[i].kind] == -1
    requires Reaches(s0, i, With(Chaining(s, i), i, Chained(entry)))
    ensures Reaches(s0, i, With(s, i, Leaving(entry)))
  {
    hide Reaches, EnterMoves, GateMoves, LeaveMoves;
    var kind := s.callbacks[i].kind;
    assert s.g.mask[kind := true][kind := false] == s.g.mask && s.g.chainers[kind := i][kind := -1] == s.g.chainers;
    CallbackNext(s0, Chaining(s, i), i, Chained(entry), s, Leaving(entry));
  }

  /** A callback that is not the first runs the predecessor of its type and goes, as does one that
      finds the guard closed; afterwards everything is as it was. */
  lemma NestedRunsPredecessor(s: State, i: nat)
    requires MayEnter(s, i) && (s.g.closed || s.g.owner != 0)
    requires !s.g.mask[s.callbacks[i].kind] && s.g.chainers[s.callbacks[i].kind] == -1
    ensures Reaches(s, i, With(Chaining(Inner(s), i), i, Chained(if s.g.closed then Closed else Nested)))
    ensures Reaches(s, i, s)
  {
    hide Reaches, EnterMoves, GateMoves, LeaveMoves;
    Enters(s, i);
    CallbackNext(s, Inner(s), i, Decided(Answer(s)), Inner(s), Unclaimed(Answer(s)));
    Chains(s, Inner(s), i, Answer(s));
    Unchains(s, Inner(s), i, Answer(s));
    Leaves(s, Inner(s), i, Answer(s));
    assert With(s, i, Out) == s;
  }

  /** The guard is open and nobody holds anything. */
  predicate AllFree(s: State) {
    !s.g.closed && s.g.owner == 0 && s.g.primary == -1 && s.locks == Locks(0, false, -1, -1)
  }

  function Owning(s: State, i: nat): State
    requires i < |s.callbacks|
  {
    Inner(s).(g := Inner(s).g.(owner := s.callbacks[i].kind + 1, primary := i))
  }

  function Gated(s: State, i: nat): State
    requires i < |s.callbacks|
  {
    Owning(s, i).(locks := s.locks.(gate := s.callbacks[i].thread + 1, gateHolder := i))
  }

  lemma TakesGate(s: State, i: nat)
    requires MayEnter(s, i) && !s.g.closed && s.g.owner == 0 && s.locks.gate == 0 && !s.locks.closing
    ensures Reaches(s, i, With(Gated(s, i), i, TryLock))
  {
    hide Reaches, EnterMoves, LeaveMoves;
    Enters(s, i);
    CallbackNext(s, Owning(s, i), i, Decided(Primary), Owning(s, i), TryGate);
    CallbackNext(s, Owning(s, i), i, TryGate, Gated(s, i), TryLock);
  }

  /** The first callback stops the target with the gate and the lock in its hands. */
  lemma FirstStops(s: State, i: nat)
    requires MayEnter(s, i) && AllFree(s)
    ensures Reaches(s, i, With(Gated(s, i).(locks := Locks(s.callbacks[i].thread + 1, false, i, i)), i, Stopped))
  {
    hide Reaches, EnterMoves, ChainMoves, LeaveMoves;
    TakesGate(s, i);
    CallbackNext(s, Gated(s, i), i, TryLock, Gated(s, i).(locks := Locks(s.callbacks[i].thread + 1, false, i, i)), Stopped);
  }

  /** And gives them back, having waited for packets without the lock if it likes. */
  lemma FirstReturns(s: State, i: nat)
    requires MayEnter(s, i) && AllFree(s)
    ensures Reaches(s, i, With(Gated(s, i), i, Waiting)) && Reaches(s, i, s)
  {
    hide Reaches, EnterMoves, ChainMoves, LeaveMoves;
    FirstStops(s, i);
    var held := Gated(s, i).(locks := Locks(s.callbacks[i].thread + 1, false, i, i));
    CallbackNext(s, held, i, Stopped, Gated(s, i), Waiting);
    CallbackNext(s, Gated(s, i), i, Waiting, held, Stopped);
    CallbackNext(s, held, i, Stopped, Gated(s, i), Unlocked);
    CallbackNext(s, Gated(s, i), i, Unlocked, Owning(s, i), Leaving(Primary));
    Leaves(s, Owning(s, i), i, Primary);
    assert With(s, i, Out) == s;
  }

  /** When somebody else has the lock, the first callback gives the gate back, runs the predecessor
      instead and goes. */
  lemma ContendedRunsPredecessor(s: State, i: nat)
    requires MayEnter(s, i) && !s.g.closed && s.g.owner == 0 && s.g.primary == -1 && s.locks.gate == 0 && !s.locks.closing
    requires s.locks.gateHolder == -1 && s.locks.lockHolder != -1
    requires !s.g.mask[s.callbacks[i].kind] && s.g.chainers[s.callbacks[i].kind] == -1
    ensures Reaches(s, i, With(Chaining(Owning(s, i), i), i, Chained(Primary)))
    ensures Reaches(s, i, s)
  {
    hide Reaches, EnterMoves, ChainMoves, LeaveMoves;
    TakesGate(s, i);
    CallbackNext(s, Gated(s, i), i, TryLock, Gated(s, i), Contended);
    CallbackNext(s, Gated(s, i), i, Contended, Owning(s, i), Unclaimed(Primary));
    Chains(s, Owning(s, i), i, Primary);
    Unchains(s, Owning(s, i), i, Primary);
    Leaves(s, Owning(s, i), i, Primary);
    assert With(s, i, Out) == s;
  }

  // ---- the teardown ----

  lemma TeardownNext(s0: State, s: State, s': State)
    requires Reaches(s0, -1, s) && Shaped(s) && TeardownMoves(s, s')
    ensures Reaches(s0, -1, s')
  {
    hide Reaches, TeardownMoves, OutsideMoves, CallbackMoves;
    Next(s0, -1, s, s');
  }

  /** A teardown of an idle guard closes it and sees it idle. */
  lemma TeardownCompletes(s: State)
    requires Shaped(s) && s.teardown == Idle && s.admissions == 0 && s.g.active == 0 && s.g.owner == 0 && true !in s.g.mask
    ensures Reaches(s, -1, s.(g := s.g.(closed := true), teardown := Quiet))
  {
    hide Reaches;
    var closed := s.(g := s.g.(closed := true));
    Start(s, -1);
    TeardownNext(s, s, closed.(teardown := Watching(0)));
    TeardownNext(s, closed.(teardown := Watching(0)), closed.(teardown := Watching(1)));
    TeardownNext(s, closed.(teardown := Watching(1)), closed.(teardown := Watching(2)));
    TeardownNext(s, closed.(teardown := Watching(2)), closed.(teardown := Watching(3)));
    TeardownNext(s, closed.(teardown := Watching(3)), closed.(teardown := Quiet));
  }

  /** What the teardown has seen, in the order it looked. */
  predicate Saw(what: nat, s: State) {
    if what == 0 then s.admissions == 0
    else if what == 1 then s.g.active == 0
    else if what == 2 then s.g.owner == 0
    else true !in s.g.mask
  }

  function Progress(t: Teardown): nat {
    match t
    case Idle => 0
    case Watching(loaded) => if loaded > 3 then 3 else loaded
    case Quiet => 4
  }

  /** A teardown that has come to an end once saw no admission, then nobody active, then no owner,
      then no predecessor running, each with the guard closed. */
  lemma {:induction false} IdleWasSeen(states: seq<State>, who: seq<int>, k: nat, what: nat) returns (at: nat)
    requires Run(states, who) && k < |states| && what < Progress(states[k].teardown)
    ensures at < k && states[at].g.closed && Saw(what, states[at]) && who[at] == -1 && states[at].teardown == Watching(what)
    decreases k
  {
    hide Inv, Step, Saw;
    assert k > 0;
    RunKeepsInv(states, who, k - 1);
    var s, s' := states[k - 1], states[k];
    assert Shaped(s) && Step(s, who[k - 1], s');
    if what < Progress(s.teardown) {
      at := IdleWasSeen(states, who, k - 1, what);
    } else {
      TeardownAdvances(s, who[k - 1], s');
      at := k - 1;
    }
  }

  lemma TeardownAdvances(s: State, who: int, s': State)
    requires Inv(s) && Step(s, who, s') && Progress(s'.teardown) > Progress(s.teardown)
    ensures who == -1 && s.teardown == Watching(Progress(s.teardown)) && Progress(s'.teardown) == Progress(s.teardown) + 1
    ensures s.g.closed && Saw(Progress(s.teardown), s)
  {
    hide Counted, Unbroken, ExceptionAdmission.Owned, ChainedOnce, Locked;
  }

  /** Threads outside take the lock when it is free and give it back, and close and reopen the gate. */
  lemma OutsidersComeAndGo(s: State)
    requires Shaped(s) && s.locks == Locks(0, false, -1, -1)
    ensures Reaches(s, -2, s.(locks := Locks(0, false, -1, -2))) && Reaches(s.(locks := Locks(0, false, -1, -2)), -2, s)
    ensures Reaches(s, -2, s.(locks := Locks(0, true, -1, -1))) && Reaches(s.(locks := Locks(0, true, -1, -1)), -2, s)
  {
    hide Reaches;
    var taken, shut := s.(locks := Locks(0, false, -1, -2)), s.(locks := Locks(0, true, -1, -1));
    Start(s, -2);
    Start(taken, -2);
    Start(shut, -2);
    Next(s, -2, s, taken);
    Next(taken, -2, taken, s);
    Next(s, -2, s, shut);
    Next(shut, -2, shut, s);
  }
}
