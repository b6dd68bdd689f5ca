/**
 * Stepping through Thumb IT blocks (DDI 0406C, section A2.5.2): the state that guards up to four
 * instructions, and the two walks that find where the processor next executes something.
 */
module ItBlocks {
  import opened ArmBits

  /** uvdb_thumb_itstate_advance. */
  function Advance(it: bv32): bv32 {
    if it > 0xff || it & 7 == 0 then 0 else (it & 0xe0) | ((it << 1) & 0x1f)
  }

  /** uvdb_thumb_itstate_from_cpsr. */
  function FromStatus(cpsr: bv32): bv32 {
    ((cpsr >> 8) & 0xfc) | ((cpsr >> 25) & 3)
  }

  /** How the architecture stores the state in the status register. */
  function IntoStatus(cpsr: bv32, it: bv32): bv32 {
    (cpsr & 0xf9ff_03ff) | ((it & 0xfc) << 8) | ((it & 3) << 25)
  }

  lemma StatusRoundTrip(cpsr: bv32, it: bv32)
    requires it <= 0xff
    ensures FromStatus(IntoStatus(cpsr, it)) == it && FromStatus(cpsr) <= 0xff
  {
  }

  /** How many instructions the state still guards. */
  function Left(it: bv32): (n: nat)
    ensures n <= 4 && (n == 0 <==> it == 0)
  {
    if it == 0 then 0
    else if it > 0xff || it & 7 == 0 then 1
    else if it & 1 != 0 then 4
    else if it & 2 != 0 then 3
    else 2
  }

  lemma AdvanceCounts(it: bv32)
    requires it != 0
    ensures Left(Advance(it)) == Left(it) - 1
  {
  }

  function After(it: bv32, k: nat): bv32 {
    if k == 0 then it else Advance(After(it, k - 1))
  }

  /** From any state at most four steps lead to zero, and no fewer than the state says. */
  lemma {:induction false} ReachesZero(it: bv32, k: nat)
    ensures Left(After(it, k)) == if k <= Left(it) then Left(it) - k else 0
    ensures k >= 4 ==> After(it, k) == 0
  {
    if k > 0 {
      ReachesZero(it, k - 1);
      if After(it, k - 1) != 0 {
        AdvanceCounts(After(it, k - 1));
      }
    }
  }

  /** The condition the block gives its k-th instruction: the first as it is, a later one with the
      last bit replaced by a mask bit. */
  function SlotCondition(it: bv32, k: nat): bv32
    requires k < 4
  {
    if k == 0 then (it >> 4) & 0xf
    else ((it >> 4) & 0xe) | (if k == 1 then (it >> 3) & 1 else if k == 2 then (it >> 2) & 1 else (it >> 1) & 1)
  }

  /** Advancing serves the conditions of the block one after the other. */
  lemma SlotsInOrder(it: bv32, k: nat)
    requires 0 < it & 0xf && it <= 0xff && k < Left(it)
    ensures After(it, k) >> 4 == SlotCondition(it, k)
  {
    hide Advance;
    var a1 := Advance(it);
    var a2 := Advance(a1);
    assert After(it, 1) == a1;
    assert After(it, 2) == a2;
    assert After(it, 3) == Advance(a2);
    FirstShift(it);
    if k >= 2 {
      SecondShift(it);
    }
    if k == 3 {
      ThirdShift(it);
    }
  }

  lemma FirstShift(it: bv32)
    requires it <= 0xff
    ensures it & 7 != 0 ==> Advance(it) >> 4 == ((it >> 4) & 0xe) | ((it >> 3) & 1)
    ensures it >> 4 == (it >> 4) & 0xf
  {
  }

  lemma SecondShift(it: bv32)
    requires it <= 0xff && it & 3 != 0
    ensures Advance(Advance(it)) >> 4 == ((it >> 4) & 0xe) | ((it >> 2) & 1)
  {
  }

  lemma ThirdShift(it: bv32)
    requires it <= 0xff && it & 1 != 0
    ensures Advance(Advance(Advance(it))) >> 4 == ((it >> 4) & 0xe) | ((it >> 1) & 1)
  {
  }

  // ---- the processor, as long as it skips ----

  datatype Fetched = Unreadable | Half(value: bv16)

  type Memory = bv32 -> Fetched

  datatype Slot = Slot(address: bv32, it: bv32)

  /** The address after a 16-bit or 32-bit instruction, by its first halfword. */
  function Past(address: bv32, half: bv16): bv32 {
    address + (if Wide(half) then 4 else 2)
  }

  /** Halfwords from 0xe800 on announce a 32-bit instruction. */
  lemma PastWidth(address: bv32, half: bv16)
    ensures Past(address, half) == if half >= 0xe800 then address + 4 else address + 2
  {
    WideHalfwords(half);
  }

  predicate Skips(s: Slot, cpsr: bv32) {
    s.it != 0 && !ConditionPassed(s.it >> 4, cpsr)
  }

  /** The state is at an instruction with this condition. */
  predicate AtCondition(it: bv32, condition: bv32) {
    it != 0 && it >> 4 == condition
  }

  lemma SlotsServed(it: bv32, k: nat)
    requires 0 < it & 0xf && it <= 0xff && k < Left(it)
    ensures AtCondition(After(it, k), SlotCondition(it, k))
  {
    hide Advance, SlotCondition, After;
    ReachesZero(it, k);
    SlotsInOrder(it, k);
  }

  lemma SkipsAt(it: bv32, condition: bv32, address: bv32, cpsr: bv32)
    requires AtCondition(it, condition)
    ensures Skips(Slot(address, it), cpsr) <==> !ConditionPassed(condition, cpsr)
  {
    hide ConditionPassed;
  }

  /** The processor skips the k-th instruction of a block exactly when its own condition fails. */
  lemma SkipsByCondition(it: bv32, k: nat, address: bv32, cpsr: bv32)
    requires 0 < it & 0xf && it <= 0xff && k < Left(it)
    ensures Skips(Slot(address, After(it, k)), cpsr) <==> !ConditionPassed(SlotCondition(it, k), cpsr)
  {
    hide ConditionPassed, SlotCondition, After, Skips, AtCondition;
    SlotsServed(it, k);
    SkipsAt(After(it, k), SlotCondition(it, k), address, cpsr);
  }

  /** A condition-failed instruction changes nothing but the position, so neither do the flags. */
  function Next(s: Slot, memory: Memory): Slot
    requires memory(s.address).Half?
  {
    Slot(Past(s.address, memory(s.address).value), Advance(s.it))
  }

  /** The first slot the processor does not skip, or the first it cannot be followed through. */
  function FirstExecuted(s: Slot, cpsr: bv32, memory: Memory): (end: Slot)
    ensures Skips(end, cpsr) ==> memory(end.address).Unreadable?
    decreases Left(s.it)
  {
    if Skips(s, cpsr) && memory(s.address).Half? then
      AdvanceCounts(s.it);
      FirstExecuted(Next(s, memory), cpsr, memory)
    else s
  }

  datatype Trap = NoTrap | At(address: bv32)

  /** The trap belongs on the first slot whose condition passes, else right after the block. */
  function TrapFor(s: Slot, cpsr: bv32, memory: Memory): Trap {
    var end := FirstExecuted(s, cpsr, memory);
    if Skips(end, cpsr) then NoTrap else At(end.address)
  }

  lemma TrapMoves(s: Slot, cpsr: bv32, memory: Memory)
    ensures !Skips(s, cpsr) ==> TrapFor(s, cpsr, memory) == At(s.address)
    ensures Skips(s, cpsr) && memory(s.address).Unreadable? ==> TrapFor(s, cpsr, memory) == NoTrap
    ensures Skips(s, cpsr) && memory(s.address).Half? ==> TrapFor(s, cpsr, memory) == TrapFor(Next(s, memory), cpsr, memory)
  {
    hide ConditionPassed, Advance, Past, Left;
  }

  /** breakpoint_insert_after_thumb_it: from a condition-failed instruction of a block. */
  method AfterSkipped(pc: bv32, size: bv32, current: bv32, cpsr: bv32, memory: Memory) returns (trap: Trap)
    ensures trap == TrapFor(Slot(pc + size, Advance(current)), cpsr, memory)
  {
    hide ConditionPassed, Advance, Past, Left, TrapFor, FirstExecuted;
    var start := Slot(pc + size, Advance(current));
    var s := start;
    while s.it != 0
      invariant TrapFor(s, cpsr, memory) == TrapFor(start, cpsr, memory)
      decreases Left(s.it)
    {
      TrapMoves(s, cpsr, memory);
      if !Skips(s, cpsr) {
        return At(s.address);
      }
      if memory(s.address).Unreadable? {
        return NoTrap;
      }
      AdvanceCounts(s.it);
      s := Next(s, memory);
    }
    TrapMoves(s, cpsr, memory);
    return At(s.address);
  }

  /** The walk from the IT instruction itself. Its four rounds are enough for any block. */
  method AfterIt(pc: bv32, instruction: bv32, cpsr: bv32, memory: Memory) returns (trap: Trap)
    requires instruction & 0xff00 == 0xbf00 && instruction & 0xf != 0 && instruction & 0xf0 != 0xf0
    ensures trap == TrapFor(Slot(pc + 2, instruction & 0xff), cpsr, memory)
  {
    hide ConditionPassed, Advance, Past, Left, TrapFor, FirstExecuted;
    var start := Slot(pc + 2, instruction & 0xff);
    MaskNonzero(instruction);
    var s := start;
    var slot := 0;
    while slot < 4
      invariant 0 <= slot <= 4 && s.it != 0 && Left(s.it) <= 4 - slot
      invariant TrapFor(s, cpsr, memory) == TrapFor(start, cpsr, memory)
    {
      TrapMoves(s, cpsr, memory);
      if !Skips(s, cpsr) {
        return At(s.address);
      }
      if memory(s.address).Unreadable? {
        return NoTrap;
      }
      AdvanceCounts(s.it);
      s := Next(s, memory);
      if s.it == 0 {
        break;
      }
      slot := slot + 1;
    }
    assert s.it == 0;
    TrapMoves(s, cpsr, memory);
    return At(s.address);
  }

  lemma MaskNonzero(instruction: bv32)
    requires instruction & 0xf != 0
    ensures instruction & 0xff != 0
  {
  }

  /** The processor skips every slot of the path but the last. */
  ghost predicate Skipping(path: seq<Slot>, cpsr: bv32, memory: Memory) {
    forall i :: 0 <= i < |path| - 1 ==> Skips(path[i], cpsr) && memory(path[i].address).Half? && path[i + 1] == Next(path[i], memory)
  }

  lemma Counts(s: Slot, cpsr: bv32, memory: Memory)
    requires Skips(s, cpsr) && memory(s.address).Half?
    ensures Left(Next(s, memory).it) == Left(s.it) - 1
  {
    AdvanceCounts(s.it);
  }

  /** The trap is where a path of at most four skipped instructions ends: on the first slot whose
      condition passes, or after the block. Without one, the path ran into unreadable memory. */
  lemma {:induction false} TrapEndsPath(s: Slot, cpsr: bv32, memory: Memory) returns (path: seq<Slot>)
    ensures 1 <= |path| <= Left(s.it) + 1 <= 5 && path[0] == s && Skipping(path, cpsr, memory)
    ensures var end := path[|path| - 1];
      match TrapFor(s, cpsr, memory)
      case At(address) => end.address == address && !Skips(end, cpsr)
      case NoTrap => Skips(end, cpsr) && memory(end.address).Unreadable?
    decreases Left(s.it)
  {
    hide ConditionPassed, Advance, Past, Left, Skips;
    if Skips(s, cpsr) && memory(s.address).Half? {
      Counts(s, cpsr, memory);
      var rest := TrapEndsPath(Next(s, memory), cpsr, memory);
      path := [s] + rest;
      assert forall i :: 1 <= i < |path| ==> path[i] == rest[i - 1];
    } else {
      path := [s];
    }
  }
}
