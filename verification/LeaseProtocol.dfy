/**
 * The stop session shared by controllers and the lease keeper: an owner word, the kernel token,
 * a 32-bit generation and the failed flag. Every atomic load, store and compare-exchange is one
 * step; any number of controllers and the keeper interleave freely, and the kernel may fail any
 * renew, begin or end call.
 *
 * Three fields are not in the program. `epoch` counts the stores to the token: it names the
 * session without the 32-bit generation's wrap-around. `entry` is the session as the operation in
 * progress found it, and `answers` what the kernel has answered it. With them every operation is
 * held to what it would do if nothing ran beside it.
 */
module LeaseProtocol {

  const GENERATIONS: nat := 0x1_0000_0000

  datatype Owner = Nobody | Controller | Keeper

  /** The session words. */
  datatype Session = Session(token: nat, generation: nat, failed: bool, epoch: nat)

  /** What the kernel answered, and about which token. A begin that grants zero is refused. */
  datatype Answer = Renewed(token: nat, ok: bool) | Granted(grant: nat) | Ended(token: nat, ok: bool) | Listed(ok: bool)

  /** What the last operation of a controller returned. */
  datatype Returned = Nothing | Began(ok: bool) | Refreshed(ok: bool) | Recovered(ok: bool) | Finished(result: int) | Abandoned

  /** uvdb_kernel_begin_stop, after its claim. */
  datatype BeginPc = BeginLoad | BeginActive | BeginCall | BeginClear(grant: nat) | BeginPublish(grant: nat) | BeginAdvance(grant: nat)

  /** uvdb_refresh_thread_inventory. */
  datatype RefreshPc = RefreshFailed | RefreshToken | RefreshCall | RefreshSet | RefreshList

  /** uvdb_kernel_recover_stop. */
  datatype RecoverPc =
    | RecoverLoad | RecoverRenew | RecoverClear | RecoverBegin
    | RecoverFresh(grant: nat) | RecoverPublish(grant: nat) | RecoverAdvance(grant: nat) | RecoverSet

  /** uvdb_kernel_end_stop. */
  datatype EndPc = EndLoad | EndFailed | EndCall | EndRetire | EndAdvance | EndClear

  /** uvdb_kernel_abandon_stop. */
  datatype AbandonPc = AbandonRetire | AbandonAdvance | AbandonSet

  /** Where one controller is: inside exactly when it is not `Out`. A claim is held across any
      number of operations. Recovery runs on its own or at the end of a failed end. */
  datatype Pc =
    | Out
    | Beginning(begin: BeginPc)
    | Inside(last: Returned)
    | Refreshing(refresh: RefreshPc)
    | Recovering(ending: bool, recover: RecoverPc)
    | Ending(end: EndPc)
    | Abandoning(abandon: AbandonPc)
    | Leave(last: Returned)

  /** Where the lease keeper is in uvdb_lease_renew_once. */
  datatype KeeperPc =
    | Away
    | LoadGeneration
    | LoadToken(generation: nat)
    | LoadFailed(generation: nat, token: nat)
    | Renew(generation: nat, token: nat)
    | CompareToken(generation: nat, token: nat)
    | CompareGeneration(generation: nat, token: nat)
    | StoreFailed(generation: nat, token: nat)
    | KeeperLeave

  datatype State = State(
    owner: Owner,
    now: Session,
    controllers: seq<Pc>,
    keeper: KeeperPc,
    claims: nat,
    releases: nat,
    entry: Session,
    answers: seq<Answer>
  )

  ghost predicate Init(s: State) {
    && s.owner == Nobody && !s.now.failed && s.now.token == 0 && s.now.generation < GENERATIONS
    && (forall i :: 0 <= i < |s.controllers| ==> s.controllers[i] == Out)
    && s.keeper == Away && s.claims == s.releases == 0 && s.entry == s.now
  }

  function Advance(generation: nat): nat {
    (generation + 1) % GENERATIONS
  }

  /** The two-word store sequence that starts or ends a session begins with the token. */
  function StoreToken(s: State, token: nat): State {
    s.(now := s.now.(token := token, epoch := s.now.epoch + 1))
  }

  function StoreFlag(s: State, failed: bool): State {
    s.(now := s.now.(failed := failed))
  }

  /** After the generation is advanced once, zero is skipped by advancing again. */
  function AfterAdvance(s: State, again: Pc, done: Pc): (State, Pc) {
    var g := Advance(s.now.generation);
    (s.(now := s.now.(generation := g)), if g == 0 then again else done)
  }

  /** The operation in progress starts here. */
  function Enter(s: State): State {
    s.(entry := s.now, answers := [])
  }

  function Answered(s: State, answer: Answer): State {
    s.(answers := s.answers + [answer])
  }

  /** One step of a controller: the shared state afterwards and where the controller goes. */
  ghost predicate ControllerMoves(s: State, pc: Pc, s': State, pc': Pc) {
    match pc
    case Out =>
      if s.owner == Nobody
      then s' == Enter(s).(owner := Controller, claims := s.claims + 1) && (pc' == Beginning(BeginLoad) || pc' == Inside(Nothing))
      else s' == s && pc' == Out
    case Inside(_) =>
      if pc'.Leave? then s' == s && pc'.last == Nothing
      else
        && s' == Enter(s)
        && (pc' == Refreshing(RefreshFailed) || pc' == Recovering(false, RecoverLoad) || pc' == Ending(EndLoad) || pc' == Abandoning(AbandonRetire))
    case Beginning(begin) => BeginMoves(s, begin, s', pc')
    case Refreshing(refresh) => RefreshMoves(s, refresh, s', pc')
    case Recovering(ending, recover) => RecoverMoves(s, ending, recover, s', pc')
    case Ending(end) => EndMoves(s, end, s', pc')
    case Abandoning(abandon) => AbandonMoves(s, abandon, s', pc')
    case Leave(_) => s' == s.(owner := Nobody, releases := s.releases + 1) && pc' == Out
  }

  ghost predicate BeginMoves(s: State, pc: BeginPc, s': State, pc': Pc) {
    match pc
    case BeginLoad => s' == s && pc' == Beginning(if s.now.token != 0 then BeginActive else BeginCall)
    case BeginActive => s' == s && pc' == Leave(Began(!s.now.failed))
    case BeginCall =>
      exists t: nat :: s' == Answered(s, Granted(t)) && pc' == if t == 0 then Leave(Began(false)) else Beginning(BeginClear(t))
    case BeginClear(t) => s' == StoreFlag(s, false) && pc' == Beginning(BeginPublish(t))
    case BeginPublish(t) => s' == StoreToken(s, t) && pc' == Beginning(BeginAdvance(t))
    // the result also depends on whether threads were suspended before
    case BeginAdvance(t) =>
      exists ok: bool :: (s', pc') == AfterAdvance(s, Beginning(BeginAdvance(t)), Leave(Began(ok)))
  }

  ghost predicate RefreshMoves(s: State, pc: RefreshPc, s': State, pc': Pc) {
    match pc
    case RefreshFailed => s' == s && pc' == if s.now.failed then Inside(Refreshed(false)) else Refreshing(RefreshToken)
    case RefreshToken => s' == s && pc' == Refreshing(if s.now.token == 0 then RefreshSet else RefreshCall)
    case RefreshCall =>
      exists ok: bool :: s' == Answered(s, Renewed(s.now.token, ok)) && pc' == Refreshing(if ok then RefreshList else RefreshSet)
    case RefreshSet => s' == StoreFlag(s, true) && pc' == Inside(Refreshed(false))
    case RefreshList => exists ok: bool :: s' == Answered(s, Listed(ok)) && pc' == Inside(Refreshed(ok))
  }

  ghost predicate RecoverMoves(s: State, ending: bool, pc: RecoverPc, s': State, pc': Pc) {
    match pc
    case RecoverLoad => s' == s && pc' == Recovering(ending, if s.now.token != 0 then RecoverRenew else RecoverBegin)
    case RecoverRenew =>
      exists ok: bool :: s' == Answered(s, Renewed(s.now.token, ok)) && pc' == Recovering(ending, if ok then RecoverClear else RecoverBegin)
    case RecoverClear => s' == StoreFlag(s, false) && pc' == RecoverReturn(ending, true)
    case RecoverBegin =>
      exists t: nat :: s' == Answered(s, Granted(t)) && pc' == Recovering(ending, if t == 0 then RecoverSet else RecoverFresh(t))
    case RecoverFresh(t) => s' == StoreFlag(s, false) && pc' == Recovering(ending, RecoverPublish(t))
    case RecoverPublish(t) => s' == StoreToken(s, t) && pc' == Recovering(ending, RecoverAdvance(t))
    case RecoverAdvance(t) =>
      (s', pc') == AfterAdvance(s, Recovering(ending, RecoverAdvance(t)), RecoverReturn(ending, true))
    case RecoverSet => s' == StoreFlag(s, true) && pc' == RecoverReturn(ending, false)
  }

  ghost predicate EndMoves(s: State, pc: EndPc, s': State, pc': Pc) {
    match pc
    case EndLoad => s' == s && pc' == Ending(if s.now.token == 0 then EndFailed else EndCall)
    case EndFailed => s' == s && pc' == Inside(Finished(if s.now.failed then -1 else 0))
    case EndCall =>
      exists ok: bool :: s' == Answered(s, Ended(s.now.token, ok)) && pc' == if ok then Ending(EndRetire) else Recovering(true, RecoverLoad)
    case EndRetire => s' == StoreToken(s, 0) && pc' == Ending(EndAdvance)
    case EndAdvance => (s', pc') == AfterAdvance(s, Ending(EndAdvance), Ending(EndClear))
    case EndClear => s' == StoreFlag(s, false) && pc' == Inside(Finished(0))
  }

  ghost predicate AbandonMoves(s: State, pc: AbandonPc, s': State, pc': Pc) {
    match pc
    case AbandonRetire => s' == StoreToken(s, 0) && pc' == Abandoning(AbandonAdvance)
    case AbandonAdvance => (s', pc') == AfterAdvance(s, Abandoning(AbandonAdvance), Abandoning(AbandonSet))
    case AbandonSet => s' == StoreFlag(s, true) && pc' == Inside(Abandoned)
  }

  /** Where recovery returns to. */
  function RecoverReturn(ending: bool, ok: bool): Pc {
    Inside(if !ending then Recovered(ok) else if ok then Finished(-1) else Finished(-2))
  }

  ghost predicate KeeperMoves(s: State, s': State) {
    match s.keeper
    case Away =>
      if s.owner == Nobody
      then s' == Enter(s).(owner := Keeper, keeper := LoadGeneration, claims := s.claims + 1)
      else s' == s
    case LoadGeneration => s' == s.(keeper := LoadToken(s.now.generation))
    case LoadToken(g) => s' == s.(keeper := if s.now.token == 0 then KeeperLeave else LoadFailed(g, s.now.token))
    case LoadFailed(g, t) => s' == s.(keeper := if s.now.failed then KeeperLeave else Renew(g, t))
    case Renew(g, t) =>
      exists ok: bool :: s' == Answered(s, Renewed(t, ok)).(keeper := if ok then KeeperLeave else CompareToken(g, t))
    case CompareToken(g, t) => s' == s.(keeper := if s.now.token != t then KeeperLeave else CompareGeneration(g, t))
    case CompareGeneration(g, t) => s' == s.(keeper := if s.now.generation != g then KeeperLeave else StoreFailed(g, t))
    case StoreFailed(g, t) => s' == StoreFlag(s, true).(keeper := KeeperLeave)
    case KeeperLeave => s' == s.(owner := Nobody, keeper := Away, releases := s.releases + 1)
  }

  /** Controller `i` moves, or (at -1) the keeper does. */
  ghost predicate Step(s: State, who: int, s': State) {
    if who == -1 then KeeperMoves(s, s')
    else
      && 0 <= who < |s.controllers| == |s'.controllers|
      && s'.controllers == s.controllers[who := s'.controllers[who]]
      && ControllerMoves(s, s.controllers[who], s'.(controllers := s.controllers), s'.controllers[who])
  }

  // ---- what each operation does when nothing runs beside it ----

  /** The next generation that is not zero. */
  function NextGeneration(g: nat): nat {
    if g + 1 < GENERATIONS then g + 1 else 1
  }

  /** A new session replaces the old one, with the failed flag clear. */
  function Published(s: Session, token: nat): Session {
    Session(token, NextGeneration(s.generation), false, s.epoch + 1)
  }

  function Retired(s: Session, failed: bool): Session {
    Session(0, NextGeneration(s.generation), failed, s.epoch + 1)
  }

  /** Begin: an active session is left alone; a fresh one is published. */
  ghost predicate BeginDoes(entry: Session, answers: seq<Answer>, now: Session, ok: bool) {
    if entry.token != 0 then answers == [] && now == entry && ok == !entry.failed
    else
      && |answers| == 1 && answers[0].Granted?
      && if answers[0].grant == 0 then now == entry && !ok else now == Published(entry, answers[0].grant)
  }

  /** Refresh: a failed or missing session is refused; a renewal that is refused is recorded. */
  ghost predicate RefreshDoes(entry: Session, answers: seq<Answer>, now: Session, ok: bool) {
    if entry.failed || entry.token == 0 then answers == [] && now == entry.(failed := true) && !ok
    else if answers == [Renewed(entry.token, false)] then now == entry.(failed := true) && !ok
    else answers == [Renewed(entry.token, true), Listed(ok)] && now == entry
  }

  /** Recover: renew the session, or else replace it; when neither works it is kept and marked. */
  ghost predicate RecoverDoes(entry: Session, answers: seq<Answer>, now: Session, ok: bool) {
    if entry.token != 0 && answers == [Renewed(entry.token, true)] then now == entry.(failed := false) && ok
    else exists t: nat ::
      && answers == (if entry.token != 0 then [Renewed(entry.token, false)] else []) + [Granted(t)]
      && if t != 0 then now == Published(entry, t) && ok else now == entry.(failed := true) && !ok
  }

  /** End: no session is a success unless marked; a session is retired once the kernel agrees, and
      otherwise recovered. */
  ghost predicate EndDoes(entry: Session, answers: seq<Answer>, now: Session, result: int) {
    if entry.token == 0 then answers == [] && now == entry && result == if entry.failed then -1 else 0
    else
      || (answers == [Ended(entry.token, true)] && now == Retired(entry, false) && result == 0)
      || (&& |answers| > 0 && answers[0] == Ended(entry.token, false)
          && (result == -1 || result == -2) && RecoverDoes(entry, answers[1..], now, result == -1))
  }

  ghost predicate Does(last: Returned, entry: Session, answers: seq<Answer>, now: Session) {
    match last
    case Nothing => true
    case Began(ok) => BeginDoes(entry, answers, now, ok)
    case Refreshed(ok) => RefreshDoes(entry, answers, now, ok)
    case Recovered(ok) => RecoverDoes(entry, answers, now, ok)
    case Finished(result) => EndDoes(entry, answers, now, result)
    case Abandoned => answers == [] && now == Retired(entry, true)
  }

  /** The keeper renews a session that is not marked; a renewal that is refused marks it. */
  ghost predicate KeeperDoes(entry: Session, answers: seq<Answer>, now: Session) {
    if entry.token == 0 || entry.failed then answers == [] && now == entry
    else
      || (answers == [Renewed(entry.token, true)] && now == entry)
      || (answers == [Renewed(entry.token, false)] && now == entry.(failed := true))
  }

  // ---- the invariant ----

  /** The generation is not advanced yet, or it wrapped to zero and is advanced once more. */
  predicate Advancing(g: nat, h: nat) {
    h == g || (h == 0 && g + 1 == GENERATIONS)
  }

  /** The new token is stored and its generation is on the way. */
  predicate Storing(entry: Session, now: Session, token: nat, failed: bool) {
    now == Session(token, now.generation, failed, entry.epoch + 1) && Advancing(entry.generation, now.generation)
  }

  /** How far an operation has come. */
  ghost predicate Midway(pc: Pc, entry: Session, answers: seq<Answer>, now: Session) {
    match pc
    case Out => true
    case Inside(last) => Does(last, entry, answers, now)
    case Beginning(begin) => BeginMidway(begin, entry, answers, now)
    case Refreshing(refresh) => RefreshMidway(refresh, entry, answers, now)
    case Recovering(ending, recover) => RecoverMidway(ending, recover, entry, answers, now)
    case Ending(end) => EndMidway(end, entry, answers, now)
    case Abandoning(abandon) => AbandonMidway(abandon, entry, answers, now)
    case Leave(last) => Does(last, entry, answers, now)
  }

  ghost predicate BeginMidway(pc: BeginPc, entry: Session, answers: seq<Answer>, now: Session) {
    match pc
    case BeginLoad => now == entry && answers == []
    case BeginActive => now == entry && answers == [] && entry.token != 0
    case BeginCall => now == entry && answers == [] && entry.token == 0
    case BeginClear(t) => now == entry && answers == [Granted(t)] && t != 0 && entry.token == 0
    case BeginPublish(t) => now == entry.(failed := false) && answers == [Granted(t)] && t != 0 && entry.token == 0
    case BeginAdvance(t) => Storing(entry, now, t, false) && answers == [Granted(t)] && t != 0 && entry.token == 0
  }

  ghost predicate RefreshMidway(pc: RefreshPc, entry: Session, answers: seq<Answer>, now: Session) {
    match pc
    case RefreshFailed => now == entry && answers == []
    case RefreshToken => now == entry && answers == [] && !entry.failed
    case RefreshCall => now == entry && answers == [] && !entry.failed && entry.token != 0
    case RefreshSet => now == entry && !entry.failed && answers == Refused(entry)
    case RefreshList => now == entry && answers == [Renewed(entry.token, true)] && !entry.failed && entry.token != 0
  }

  ghost predicate RecoverMidway(ending: bool, pc: RecoverPc, entry: Session, answers: seq<Answer>, now: Session) {
    && (ending ==> entry.token != 0)
    && match pc
       case RecoverLoad => now == entry && answers == Before(ending, entry)
       case RecoverRenew => now == entry && answers == Before(ending, entry) && entry.token != 0
       case RecoverClear => now == entry && answers == Before(ending, entry) + [Renewed(entry.token, true)] && entry.token != 0
       case RecoverBegin => now == entry && answers == Before(ending, entry) + Refused(entry)
       case RecoverFresh(t) => now == entry && answers == Before(ending, entry) + Refused(entry) + [Granted(t)] && t != 0
       case RecoverPublish(t) =>
         now == entry.(failed := false) && answers == Before(ending, entry) + Refused(entry) + [Granted(t)] && t != 0
       case RecoverAdvance(t) =>
         Storing(entry, now, t, false) && answers == Before(ending, entry) + Refused(entry) + [Granted(t)] && t != 0
       case RecoverSet => now == entry && answers == Before(ending, entry) + Refused(entry) + [Granted(0)]
  }

  ghost predicate EndMidway(pc: EndPc, entry: Session, answers: seq<Answer>, now: Session) {
    match pc
    case EndLoad => now == entry && answers == []
    case EndFailed => now == entry && answers == [] && entry.token == 0
    case EndCall => now == entry && answers == [] && entry.token != 0
    case EndRetire => now == entry && answers == [Ended(entry.token, true)] && entry.token != 0
    case EndAdvance => Storing(entry, now, 0, entry.failed) && answers == [Ended(entry.token, true)] && entry.token != 0
    case EndClear => now == Retired(entry, entry.failed) && answers == [Ended(entry.token, true)] && entry.token != 0
  }

  ghost predicate AbandonMidway(pc: AbandonPc, entry: Session, answers: seq<Answer>, now: Session) {
    match pc
    case AbandonRetire => now == entry && answers == []
    case AbandonAdvance => Storing(entry, now, 0, entry.failed) && answers == []
    case AbandonSet => now == Retired(entry, entry.failed) && answers == []
  }

  /** The answers an operation had when recovery started. */
  function Before(ending: bool, entry: Session): seq<Answer> {
    if ending then [Ended(entry.token, false)] else []
  }

  /** The refusal that makes recovery begin a new session. */
  function Refused(entry: Session): seq<Answer> {
    if entry.token != 0 then [Renewed(entry.token, false)] else []
  }

  /** What the keeper loaded is still what is stored: nobody else may change it meanwhile. */
  ghost predicate KeeperView(s: State) {
    match s.keeper
    case Away => true
    case LoadGeneration => s.now == s.entry && s.answers == []
    case LoadToken(g) => s.now == s.entry && s.answers == [] && g == s.now.generation
    case LoadFailed(g, t) => s.now == s.entry && s.answers == [] && g == s.now.generation && t == s.now.token != 0
    case Renew(g, t) =>
      s.now == s.entry && s.answers == [] && g == s.now.generation && t == s.now.token != 0 && !s.now.failed
    case CompareToken(g, t) => KeeperRefused(s, g, t)
    case CompareGeneration(g, t) => KeeperRefused(s, g, t)
    case StoreFailed(g, t) => KeeperRefused(s, g, t)
    case KeeperLeave => KeeperDoes(s.entry, s.answers, s.now)
  }

  ghost predicate KeeperRefused(s: State, g: nat, t: nat) {
    s.now == s.entry && s.answers == [Renewed(t, false)] && g == s.now.generation && t == s.now.token != 0 && !s.now.failed
  }

  /** The owner word stands for the one thread inside, and claims outnumber releases by it. */
  ghost predicate Owning(s: State) {
    && (forall i :: 0 <= i < |s.controllers| && s.controllers[i] != Out ==> s.owner == Controller)
    && (forall i, j :: 0 <= i < j < |s.controllers| ==> s.controllers[i] == Out || s.controllers[j] == Out)
    && (s.owner == Controller ==> exists i :: 0 <= i < |s.controllers| && s.controllers[i] != Out)
    && (s.owner == Keeper <==> s.keeper != Away)
    && s.claims == s.releases + (if s.owner == Nobody then 0 else 1)
  }

  /** Every controller is where its operation would be if nothing ran beside it. */
  ghost predicate Undisturbed(s: State) {
    && InRange(s)
    && forall i :: 0 <= i < |s.controllers| ==> Midway(s.controllers[i], s.entry, s.answers, s.now)
  }

  ghost predicate Inv(s: State) {
    Owning(s) && Undisturbed(s) && KeeperView(s)
  }

  lemma InitInv(s: State)
    requires Init(s)
    ensures Inv(s)
  {
  }

  lemma ControllerKeepsOwning(s: State, who: nat, s': State)
    requires Owning(s) && Step(s, who, s')
    ensures Owning(s')
  {
    var pc, pc' := s.controllers[who], s'.controllers[who];
    assert pc != Out ==> s.owner == Controller;
    OwnerWord(s, pc, s'.(controllers := s.controllers), pc');
    if s'.owner == Controller {
      if pc' == Out {
        var i :| 0 <= i < |s.controllers| && s.controllers[i] != Out;
        assert s'.controllers[i] != Out;
      } else {
        assert s'.controllers[who] != Out;
      }
    }
  }

  /** A controller's move changes the owner word only when it comes in or goes out, and nothing at
      all when it stays out. */
  lemma OwnerWord(s: State, pc: Pc, s': State, pc': Pc)
    requires ControllerMoves(s, pc, s', pc')
    ensures pc == Out && pc' != Out ==> s.owner == Nobody && s'.owner == Controller && s'.claims == s.claims + 1 && s'.releases == s.releases
    ensures pc != Out && pc' == Out ==> s'.owner == Nobody && s'.claims == s.claims && s'.releases == s.releases + 1
    ensures (pc == Out <==> pc' == Out) ==> s'.owner == s.owner && s'.claims == s.claims && s'.releases == s.releases
    ensures pc == Out && pc' == Out ==> s' == s
    ensures s'.keeper == s.keeper
  {
    hide BeginMoves, RefreshMoves, RecoverMoves, EndMoves, AbandonMoves;
    if !pc.Out? && !pc.Inside? && !pc.Leave? {
      WorkKeepsOwner(s, pc, s', pc');
    }
  }

  lemma WorkKeepsOwner(s: State, pc: Pc, s': State, pc': Pc)
    requires ControllerMoves(s, pc, s', pc') && !pc.Out? && !pc.Inside? && !pc.Leave?
    ensures pc' != Out && s'.keeper == s.keeper && s'.owner == s.owner && s'.claims == s.claims && s'.releases == s.releases
    ensures s'.entry == s.entry
  {
    hide Advance;
  }

  lemma AdvanceCarriesOn(g: nat, h: nat)
    requires g < GENERATIONS && Advancing(g, h)
    ensures Advance(h) < GENERATIONS
    ensures if Advance(h) == 0 then Advancing(g, Advance(h)) else Advance(h) == NextGeneration(g)
  {
  }

  lemma NotAdvanced(g: nat)
    ensures Advancing(g, g)
  {
  }

  ghost predicate InRange(s: State) {
    s.now.generation < GENERATIONS && s.entry.generation < GENERATIONS
  }

  /** Every step of an operation takes it further along. */
  lemma BeginGoesOn(s: State, pc: BeginPc, s': State, pc': Pc)
    requires BeginMoves(s, pc, s', pc') && BeginMidway(pc, s.entry, s.answers, s.now) && InRange(s)
    ensures Midway(pc', s'.entry, s'.answers, s'.now) && InRange(s')
  {
    hide Advance, NextGeneration, Advancing, RecoverMidway, EndMidway, AbandonMidway, RefreshMidway;
    NotAdvanced(s.entry.generation);
    if pc.BeginAdvance? {
      AdvanceCarriesOn(s.entry.generation, s.now.generation);
    }
  }

  lemma RefreshGoesOn(s: State, pc: RefreshPc, s': State, pc': Pc)
    requires RefreshMoves(s, pc, s', pc') && RefreshMidway(pc, s.entry, s.answers, s.now) && InRange(s)
    ensures Midway(pc', s'.entry, s'.answers, s'.now) && InRange(s')
  {
    hide RecoverMidway, EndMidway, AbandonMidway, BeginMidway;
  }

  lemma EndGoesOn(s: State, pc: EndPc, s': State, pc': Pc)
    requires EndMoves(s, pc, s', pc') && EndMidway(pc, s.entry, s.answers, s.now) && InRange(s)
    ensures Midway(pc', s'.entry, s'.answers, s'.now) && InRange(s')
  {
    hide Advance, NextGeneration, Advancing, RecoverDoes, BeginMidway, AbandonMidway, RefreshMidway;
    NotAdvanced(s.entry.generation);
    if pc.EndAdvance? {
      AdvanceCarriesOn(s.entry.generation, s.now.generation);
    }
  }

  lemma AbandonGoesOn(s: State, pc: AbandonPc, s': State, pc': Pc)
    requires AbandonMoves(s, pc, s', pc') && AbandonMidway(pc, s.entry, s.answers, s.now) && InRange(s)
    ensures Midway(pc', s'.entry, s'.answers, s'.now) && InRange(s')
  {
    hide Advance, NextGeneration, Advancing, RecoverMidway, EndMidway, BeginMidway, RefreshMidway;
    NotAdvanced(s.entry.generation);
    if pc.AbandonAdvance? {
      AdvanceCarriesOn(s.entry.generation, s.now.generation);
    }
  }

  lemma RecoverGoesOn(s: State, ending: bool, pc: RecoverPc, s': State, pc': Pc)
    requires RecoverMoves(s, ending, pc, s', pc') && RecoverMidway(ending, pc, s.entry, s.answers, s.now) && InRange(s)
    ensures Midway(pc', s'.entry, s'.answers, s'.now) && InRange(s')
  {
    hide Advance, NextGeneration, Advancing, EndMidway, BeginMidway, AbandonMidway, RefreshMidway, Does, Before, Refused;
    NotAdvanced(s.entry.generation);
    if pc.RecoverAdvance? {
      AdvanceCarriesOn(s.entry.generation, s.now.generation);
      if pc'.Inside? {
        RecoverGranted(ending, s.entry, s.answers, pc.grant, s'.now);
      }
    } else if pc.RecoverSet? {
      RecoverGranted(ending, s.entry, s.answers, 0, s'.now);
    } else if pc.RecoverClear? {
      RecoverRenewed(ending, s.entry, s.answers, s'.now);
    } else if pc.RecoverLoad? || pc.RecoverRenew? {
      RecoverRefused(ending, s.entry);
    }
  }

  lemma RecoverRefused(ending: bool, entry: Session)
    ensures entry.token == 0 ==> Before(ending, entry) + Refused(entry) == Before(ending, entry)
    ensures entry.token != 0 ==> Refused(entry) == [Renewed(entry.token, false)]
  {
  }

  lemma RecoverGranted(ending: bool, entry: Session, answers: seq<Answer>, t: nat, now: Session)
    requires answers == Before(ending, entry) + Refused(entry) + [Granted(t)] && (ending ==> entry.token != 0)
    requires now == if t != 0 then Published(entry, t) else entry.(failed := true)
    ensures RecoverReturn(ending, t != 0).Inside? && Does(RecoverReturn(ending, t != 0).last, entry, answers, now)
  {
    var own := Refused(entry) + [Granted(t)];
    assert answers[|Before(ending, entry)|..] == own;
    assert own[|own| - 1] == Granted(t);
    assert RecoverDoes(entry, own, now, t != 0);
  }

  lemma RecoverRenewed(ending: bool, entry: Session, answers: seq<Answer>, now: Session)
    requires answers == Before(ending, entry) + [Renewed(entry.token, true)] && entry.token != 0
    requires now == entry.(failed := false)
    ensures RecoverReturn(ending, true).Inside? && Does(RecoverReturn(ending, true).last, entry, answers, now)
  {
    assert answers[|Before(ending, entry)|..] == [Renewed(entry.token, true)];
  }

  lemma OwnStepGoesOn(s: State, pc: Pc, s': State, pc': Pc)
    requires ControllerMoves(s, pc, s', pc') && Midway(pc, s.entry, s.answers, s.now) && InRange(s)
    ensures Midway(pc', s'.entry, s'.answers, s'.now) && InRange(s')
  {
    match pc
    case Out =>
    case Inside(_) =>
    case Leave(_) =>
    case Beginning(begin) => BeginGoesOn(s, begin, s', pc');
    case Refreshing(refresh) => RefreshGoesOn(s, refresh, s', pc');
    case Recovering(ending, recover) => RecoverGoesOn(s, ending, recover, s', pc');
    case Ending(end) => EndGoesOn(s, end, s', pc');
    case Abandoning(abandon) => AbandonGoesOn(s, abandon, s', pc');
  }

  lemma ControllerKeepsMidway(s: State, who: nat, s': State)
    requires Inv(s) && Step(s, who, s')
    ensures Undisturbed(s') && KeeperView(s')
  {
    var pc, pc', t := s.controllers[who], s'.controllers[who], s'.(controllers := s.controllers);
    assert Midway(pc, s.entry, s.answers, s.now);
    hide ControllerMoves, Midway, KeeperDoes;
    OwnerWord(s, pc, t, pc');
    OwnStepGoesOn(s, pc, t, pc');
    forall i | 0 <= i < |s'.controllers| && i != who ensures Midway(s'.controllers[i], s'.entry, s'.answers, s'.now) {
      assert s'.controllers[i] == s.controllers[i];
      if pc == Out && pc' == Out {
        assert Midway(s.controllers[i], s.entry, s.answers, s.now);
      } else {
        assert s.controllers[i] == Out;
        OutIsAnywhere(s'.entry, s'.answers, s'.now);
      }
    }
  }

  lemma OutIsAnywhere(entry: Session, answers: seq<Answer>, now: Session)
    ensures Midway(Out, entry, answers, now)
  {
  }

  lemma ControllerKeepsInv(s: State, who: nat, s': State)
    requires Inv(s) && Step(s, who, s')
    ensures Inv(s')
  {
    hide Owning, Undisturbed, KeeperView, Step;
    ControllerKeepsOwning(s, who, s');
    ControllerKeepsMidway(s, who, s');
  }

  lemma KeeperKeepsOwning(s: State, s': State)
    requires Owning(s) && KeeperMoves(s, s')
    ensures Owning(s') && s'.controllers == s.controllers
    ensures s' == s || forall i :: 0 <= i < |s.controllers| ==> s.controllers[i] == Out
  {
    hide Advance, KeeperDoes;
    if s'.owner == Controller {
      var i :| 0 <= i < |s.controllers| && s.controllers[i] != Out;
      assert s'.controllers[i] != Out;
    }
  }

  lemma KeeperKeepsView(s: State, s': State)
    requires KeeperView(s) && KeeperMoves(s, s') && InRange(s)
    ensures KeeperView(s') && InRange(s')
  {
  }

  lemma KeeperKeepsInv(s: State, s': State)
    requires Inv(s) && Step(s, -1, s')
    ensures Inv(s')
  {
    hide Midway, Owning, KeeperView, KeeperMoves;
    KeeperKeepsOwning(s, s');
    KeeperKeepsView(s, s');
    forall i | 0 <= i < |s'.controllers| ensures Midway(s'.controllers[i], s'.entry, s'.answers, s'.now) {
      if s' != s {
        OutIsAnywhere(s'.entry, s'.answers, s'.now);
      }
    }
  }

  lemma StepKeepsInv(s: State, who: int, s': State)
    requires Inv(s) && Step(s, who, s')
    ensures Inv(s')
  {
    if who == -1 {
      KeeperKeepsInv(s, s');
    } else {
      ControllerKeepsInv(s, who, s');
    }
  }

  // ---- what holds of every step of every run ----

  /** Token, generation and epoch change only in the hands of the controller that owns them. */
  ghost predicate OnlyOwnerChangesSession(s: State, who: int, s': State) {
    s'.now != s.now.(failed := s'.now.failed) ==>
      && 0 <= who < |s.controllers| && s.controllers[who] != Out
      && s.owner == s'.owner == Controller
  }

  /** When the keeper records a failure, it is the refused renewal of the session in place. */
  ghost predicate FailureHitsRenewedSession(s: State, who: int, s': State) {
    who == -1 && s'.now != s.now ==>
      && s.keeper.StoreFailed? && s.owner == Keeper && s.now == s.entry && s'.now == s.now.(failed := true)
      && s.answers == [Renewed(s.now.token, false)]
  }

  /** The keeper's two comparisons never come out different. */
  ghost predicate ComparisonsAgree(s: State, who: int, s': State) {
    who == -1 ==>
      && (s.keeper.CompareToken? ==> s'.keeper.CompareGeneration?)
      && (s.keeper.CompareGeneration? ==> s'.keeper.StoreFailed?)
  }

  /** A new session appears with the failed flag already clear. */
  ghost predicate PublishedClean(s: State, s': State) {
    s'.now.epoch != s.now.epoch && s'.now.token != 0 ==> !s.now.failed && !s'.now.failed
  }

  /** Ownership is taken only from nobody, and given back only by whoever holds it. */
  ghost predicate OwnershipHandedOver(s: State, who: int, s': State) {
    s'.owner != s.owner ==>
      if s.owner == Nobody then s'.claims == s.claims + 1 && s'.releases == s.releases
      else
        && s'.owner == Nobody && s'.releases == s.releases + 1 && s'.claims == s.claims
        && (s.owner == Keeper <==> who == -1)
        && (who != -1 ==> 0 <= who < |s.controllers| && s.controllers[who].Leave?)
  }

  /** The keeper leaves only when it has done what it would have done alone. */
  ghost predicate KeeperFinishes(s: State, s': State) {
    s.owner == Keeper && s'.owner != Keeper ==> KeeperDoes(s.entry, s.answers, s'.now)
  }

  /** `entry` is the session as the owner, or the owner's next operation, found it. */
  ghost predicate EntryIsStart(s: State, who: int, s': State) {
    && (s'.entry != s.entry ==> s'.entry == s.now)
    && (s.owner == Nobody && s'.owner != Nobody ==> s'.entry == s.now && s'.answers == [])
    && (s.owner == Keeper ==> s'.entry == s.entry)
  }

  ghost predicate StepSafe(s: State, who: int, s': State) {
    && OnlyOwnerChangesSession(s, who, s')
    && FailureHitsRenewedSession(s, who, s')
    && ComparisonsAgree(s, who, s')
    && PublishedClean(s, s')
    && OwnershipHandedOver(s, who, s')
    && KeeperFinishes(s, s')
    && EntryIsStart(s, who, s')
  }

  lemma StepIsSafe(s: State, who: int, s': State)
    requires Inv(s) && Step(s, who, s')
    ensures StepSafe(s, who, s')
  {
    if who == -1 {
      assert KeeperView(s);
    } else {
      var pc := s.controllers[who];
      assert pc != Out ==> s.owner == Controller;
      assert Midway(pc, s.entry, s.answers, s.now);
      ControllerIsSafe(s, who, s');
    }
  }

  lemma ControllerIsSafe(s: State, who: nat, s': State)
    requires Step(s, who, s') && (s.controllers[who] != Out ==> s.owner == Controller)
    requires Midway(s.controllers[who], s.entry, s.answers, s.now)
    ensures StepSafe(s, who, s')
  {
    hide Advance, NextGeneration, Does, Before, Refused;
  }

  ghost predicate Run(states: seq<State>, who: seq<int>) {
    && |states| == |who| + 1
    && Init(states[0])
    && forall k :: 0 <= k < |who| ==> Step(states[k], who[k], states[k + 1])
  }

  lemma {:induction false} RunKeepsInv(states: seq<State>, who: seq<int>, k: nat)
    requires Run(states, who) && k < |states|
    ensures Inv(states[k])
  {
    if k == 0 {
      InitInv(states[0]);
    } else {
      var j := k - 1;
      RunKeepsInv(states, who, j);
      assert Step(states[j], who[j], states[j + 1]);
      StepKeepsInv(states[j], who[j], states[j + 1]);
    }
  }

  /** In every interleaving, every step is safe. */
  lemma RunIsSafe(states: seq<State>, who: seq<int>)
    requires Run(states, who)
    ensures forall k :: 0 <= k < |who| ==> StepSafe(states[k], who[k], states[k + 1])
    ensures forall k :: 0 <= k < |states| ==> Inv(states[k])
  {
    hide Inv, Step, StepSafe;
    forall k | 0 <= k < |states| ensures Inv(states[k]) {
      RunKeepsInv(states, who, k);
    }
    forall k | 0 <= k < |who| ensures StepSafe(states[k], who[k], states[k + 1]) {
      StepIsSafe(states[k], who[k], states[k + 1]);
    }
  }

  /** In every interleaving, whenever an operation has returned, the session is what the operation
      alone would have made of the session it found, given what the kernel answered. */
  lemma OperationsAreAtomic(states: seq<State>, who: seq<int>, k: nat, i: nat)
    requires Run(states, who) && k < |states| && i < |states[k].controllers|
    requires states[k].controllers[i].Inside? || states[k].controllers[i].Leave?
    ensures Does(states[k].controllers[i].last, states[k].entry, states[k].answers, states[k].now)
  {
    RunKeepsInv(states, who, k);
    assert Midway(states[k].controllers[i], states[k].entry, states[k].answers, states[k].now);
  }

  /** In every interleaving, a visit of the keeper ends with a refused renewal recorded against the
      session it found, an accepted one leaving everything alone, and a session that is missing or
      already marked not renewed at all. */
  lemma KeeperVisit(states: seq<State>, who: seq<int>, i: nat, j: nat)
    requires Run(states, who) && i < j < |who|
    requires states[i].owner == Nobody && states[j + 1].owner != Keeper
    requires forall k :: i < k <= j ==> states[k].owner == Keeper
    ensures KeeperDoes(states[i].now, states[j].answers, states[j + 1].now)
  {
    RunIsSafe(states, who);
    assert StepSafe(states[i], who[i], states[i + 1]) && StepSafe(states[j], who[j], states[j + 1]);
    EntryDuringVisit(states, who, i, j);
  }

  lemma {:induction false} EntryDuringVisit(states: seq<State>, who: seq<int>, i: nat, j: nat)
    requires Run(states, who) && i < j < |states|
    requires states[i].owner == Nobody
    requires forall k :: i < k <= j ==> states[k].owner == Keeper
    ensures states[j].entry == states[i].now
  {
    RunIsSafe(states, who);
    if j == i + 1 {
      assert StepSafe(states[i], who[i], states[i + 1]);
    } else {
      EntryDuringVisit(states, who, i, j - 1);
      assert StepSafe(states[j - 1], who[j - 1], states[j]);
    }
  }

  /** Advancing skips zero in at most two additions, so the loop of a publish ends. */
  lemma AdvanceTwice(generation: nat)
    requires generation < GENERATIONS
    ensures Advance(generation) != 0 || Advance(Advance(generation)) != 0
  {
  }
}
