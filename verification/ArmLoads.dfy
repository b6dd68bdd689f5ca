/**
 * Loads of the program counter, held to the architecture's encodings (DDI 0406C, sections A8.8.62
 * to A8.8.66): every addressing form of A32 and Thumb, with the forms that are refused.
 */
module ArmLoads {
  import opened ArmBits
  import opened ArmStep
  import opened ArmAlu

  // ---- A32 ----

  /** LDR PC: `pre` adds the offset before the access, `add` adds it rather than subtracting,
      `writeback` stores the sum. `offset` is bit 25 and bits 11 to 0. */
  function EncodeArmLoad(condition: bv32, pre: bool, add: bool, writeback: bool, rn: bv32, offset: bv32): bv32
    requires condition < 0xf && rn < 16 && offset & 0xfdff_f000 == 0
  {
    (condition << 28) | 0x0410_f000 | (rn << 16) | offset |
    (if pre then 0x0100_0000 else 0) | (if add then 0x0080_0000 else 0) | (if writeback then 0x0020_0000 else 0)
  }

  predicate ArmLoadFields(w: bv32, condition: bv32, pre: bool, add: bool, writeback: bool, rn: bv32, offset: bv32) {
    && w >> 28 == condition && w & 0x0c10_f000 == 0x0410_f000 && w & 0x0040_0000 == 0 && (w >> 16) & 0xf == rn
    && Bit(w, 0x0100_0000) == pre && Bit(w, 0x0080_0000) == add && Bit(w, 0x0020_0000) == writeback
    && w & 0x0200_0fff == offset
  }

  lemma ArmLoadShape(condition: bv32, pre: bool, add: bool, writeback: bool, rn: bv32, offset: bv32)
    requires condition < 0xf && rn < 16 && offset & 0xfdff_f000 == 0
    ensures var w := EncodeArmLoad(condition, pre, add, writeback, rn, offset);
      w >> 28 == condition && w & 0x0c10_f000 == 0x0410_f000 && w & 0x0040_0000 == 0 && (w >> 16) & 0xf == rn
  {
  }

  lemma ArmLoadFlags(condition: bv32, pre: bool, add: bool, writeback: bool, rn: bv32, offset: bv32)
    requires condition < 0xf && rn < 16 && offset & 0xfdff_f000 == 0
    ensures var w := EncodeArmLoad(condition, pre, add, writeback, rn, offset);
      Bit(w, 0x0100_0000) == pre && Bit(w, 0x0080_0000) == add && Bit(w, 0x0020_0000) == writeback
  {
  }

  lemma ArmLoadOffset(condition: bv32, pre: bool, add: bool, writeback: bool, rn: bv32, offset: bv32)
    requires condition < 0xf && rn < 16 && offset & 0xfdff_f000 == 0
    ensures EncodeArmLoad(condition, pre, add, writeback, rn, offset) & 0x0200_0fff == offset
  {
  }

  lemma ArmLoadEncodes(condition: bv32, pre: bool, add: bool, writeback: bool, rn: bv32, offset: bv32)
    requires condition < 0xf && rn < 16 && offset & 0xfdff_f000 == 0
    ensures ArmLoadFields(EncodeArmLoad(condition, pre, add, writeback, rn, offset), condition, pre, add, writeback, rn, offset)
  {
    hide EncodeArmLoad, Bit;
    ArmLoadShape(condition, pre, add, writeback, rn, offset);
    ArmLoadFlags(condition, pre, add, writeback, rn, offset);
    ArmLoadOffset(condition, pre, add, writeback, rn, offset);
  }

  /** The form exists: a load relative to the program counter has no writeback, and a load that
      writes back without indexing first is another instruction. */
  predicate Indexes(pre: bool, writeback: bool, rn: bv32) {
    if rn == 15 then pre && !writeback else pre || !writeback
  }

  function Indexed(pre: bool, add: bool, base: bv32, offset: bv32): Load {
    From(if !pre then base else if add then Plus(base, offset) else Minus(base, offset))
  }

  lemma PlanOfImmediate(w: bv32, condition: bv32, pre: bool, add: bool, writeback: bool, rn: bv32, offset: bv32,
                        pc: bv32, cpsr: bv32, registers: Registers)
    requires condition < 0xf && offset < 0x1000 && ArmLoadFields(w, condition, pre, add, writeback, rn, offset) && Aligned(pc, false)
    ensures PlanArmLoad(w, pc, cpsr, registers) ==
      if !ConditionPassed(condition, cpsr) then NoLoad
      else if !Indexes(pre, writeback, rn) then RefusedLoad
      else Indexed(pre, add, ReadArm(registers, rn, pc), offset)
  {
    hide ConditionPassed, ShiftedRegister, ReadArm, Plus, Minus, Bit;
    ImmediateBits12(w, offset);
  }

  lemma ImmediateBits12(w: bv32, offset: bv32)
    requires w & 0x0200_0fff == offset && offset < 0x1000
    ensures w & 0xfff == offset && !Bit(w, 0x0200_0000)
  {
  }

  /** LDR PC from an immediate offset, in every indexing form. */
  lemma ArmImmediateLoad(condition: bv32, pre: bool, add: bool, writeback: bool, rn: bv32, offset: bv32,
                         pc: bv32, cpsr: bv32, registers: Registers)
    requires condition < 0xf && rn < 16 && offset < 0x1000 && Aligned(pc, false)
    ensures offset & 0xfdff_f000 == 0
    ensures PlanArmLoad(EncodeArmLoad(condition, pre, add, writeback, rn, offset), pc, cpsr, registers) ==
      if !ConditionPassed(condition, cpsr) then NoLoad
      else if !Indexes(pre, writeback, rn) then RefusedLoad
      else Indexed(pre, add, ReadArm(registers, rn, pc), offset)
  {
    hide ConditionPassed, PlanArmLoad, EncodeArmLoad, ArmLoadFields, ReadArm, Indexed, Indexes, Aligned;
    ArmLoadEncodes(condition, pre, add, writeback, rn, offset);
    PlanOfImmediate(EncodeArmLoad(condition, pre, add, writeback, rn, offset), condition, pre, add, writeback, rn, offset, pc, cpsr, registers);
  }

  lemma PlanOfRegister(w: bv32, condition: bv32, pre: bool, add: bool, writeback: bool, rn: bv32, offset: bv32, rm: bv32, value: bv32,
                       pc: bv32, cpsr: bv32, registers: Registers)
    requires condition < 0xf && ArmLoadFields(w, condition, pre, add, writeback, rn, offset) && Aligned(pc, false)
    requires Bit(w, 0x0200_0000) && w & 0xf == rm && ShiftedRegister(w, pc, cpsr, registers) == Operand(value)
    ensures PlanArmLoad(w, pc, cpsr, registers) ==
      if !ConditionPassed(condition, cpsr) then NoLoad
      else if !Indexes(pre, writeback, rn) || rn == 15 || rm == 15 then RefusedLoad
      else Indexed(pre, add, ReadArm(registers, rn, pc), value)
  {
    hide ConditionPassed, ShiftedRegister, ReadArm, Plus, Minus, Bit;
  }

  lemma RegisterBits(w: bv32, kind: bv32, n: bv32, rm: bv32)
    requires kind < 4 && n < 32 && rm < 16 && w & 0x0200_0fff == 0x0200_0000 | EncodeShift(kind, n, rm)
    ensures Bit(w, 0x0200_0000) && w & 0xf == rm && w & 0xfff == EncodeShift(kind, n, rm)
  {
  }

  lemma RegisterOffset(kind: bv32, n: bv32, rm: bv32)
    requires kind < 4 && n < 32 && rm < 16
    ensures (0x0200_0000 | EncodeShift(kind, n, rm)) & 0xfdff_f000 == 0
  {
  }

  /** LDR PC from a shifted register offset; `ShiftedBits` says what the offset is. */
  lemma ArmRegisterLoad(condition: bv32, pre: bool, add: bool, writeback: bool, rn: bv32, kind: bv32, n: bv32, rm: bv32,
                        pc: bv32, cpsr: bv32, registers: Registers)
    requires condition < 0xf && rn < 16 && kind < 4 && n < 32 && rm < 16 && Aligned(pc, false)
    ensures (0x0200_0000 | EncodeShift(kind, n, rm)) & 0xfdff_f000 == 0
    ensures var w := EncodeArmLoad(condition, pre, add, writeback, rn, 0x0200_0000 | EncodeShift(kind, n, rm));
      var offset := ShiftedRegister(w, pc, cpsr, registers);
      && w & 0xfff == EncodeShift(kind, n, rm) && offset.Operand?
      && PlanArmLoad(w, pc, cpsr, registers) ==
           if !ConditionPassed(condition, cpsr) then NoLoad
           else if !Indexes(pre, writeback, rn) || rn == 15 || rm == 15 then RefusedLoad
           else Indexed(pre, add, ReadArm(registers, rn, pc), offset.value)
  {
    hide ConditionPassed, PlanArmLoad, EncodeArmLoad, ReadArm, Indexed, Indexes, Aligned, ShiftedRegister, EncodeShift, ShiftBit, BitAt;
    RegisterOffset(kind, n, rm);
    var offset := 0x0200_0000 | EncodeShift(kind, n, rm);
    ArmLoadEncodes(condition, pre, add, writeback, rn, offset);
    var w := EncodeArmLoad(condition, pre, add, writeback, rn, offset);
    RegisterBits(w, kind, n, rm);
    ShiftedBits(kind, n, rm, w, pc, cpsr, registers, 0);
    PlanOfRegister(w, condition, pre, add, writeback, rn, offset, rm, ShiftedRegister(w, pc, cpsr, registers).value, pc, cpsr, registers);
  }

  // ---- Thumb ----

  /** The first halfword: LDR.W with base `rn`; `up` is bit 7. */
  function LoadFirst(rn: bv32, up: bool): (w: bv32)
    requires rn < 16
    ensures w <= 0xffff
  {
    0xf850 | rn | if up then 0x80 else 0
  }

  lemma FirstFields(rn: bv32, up: bool)
    requires rn < 16
    ensures var w := LoadFirst(rn, up); w & 0xff70 == 0xf850 && w & 0xf == rn && (w & 0x80 != 0) == up
  {
  }

  /** The word and base of a second halfword into R15. */
  lemma SecondFields(low: bv32)
    requires low < 0x1000
    ensures (0xf000 | low) & 0xf000 == 0xf000 && (0xf000 | low) & 0xfff == low && 0xf000 | low <= 0xffff
  {
  }

  lemma PlanOfLiteral(first: bv16, second: bv16, f: bv32, s: bv32, pc: bv32, registers: Registers)
    requires Widen(first) == f && Widen(second) == s && Aligned(pc, true)
    requires f & 0xff70 == 0xf850 && s & 0xf000 == 0xf000 && f & 0xf == 15
    ensures PlanThumb32Load(first, second, pc, registers) ==
      From(if f & 0x80 != 0 then Plus((pc + 4) & 0xffff_fffc, s & 0xfff) else Minus((pc + 4) & 0xffff_fffc, s & 0xfff))
  {
    hide Widen, Plus, Minus;
  }

  /** LDR.W PC from a literal: the aligned program counter plus or minus twelve bits. */
  lemma ThumbLiteralLoad(add: bool, offset: bv32, pc: bv32, registers: Registers)
    requires offset < 0x1000 && Aligned(pc, true)
    ensures 0xf000 | offset <= 0xffff
    ensures PlanThumb32Load(Thumb(LoadFirst(15, add)), Thumb(0xf000 | offset), pc, registers) ==
      From(if add then Plus((pc + 4) & 0xffff_fffc, offset) else Minus((pc + 4) & 0xffff_fffc, offset))
  {
    hide LoadFirst, Widen, Thumb, Plus, Minus, PlanThumb32Load, Aligned;
    FirstFields(15, add);
    SecondFields(offset);
    WidenThumb(LoadFirst(15, add));
    WidenThumb(0xf000 | offset);
    PlanOfLiteral(Thumb(LoadFirst(15, add)), Thumb(0xf000 | offset), LoadFirst(15, add), 0xf000 | offset, pc, registers);
  }

  lemma PlanOfPositive(first: bv16, second: bv16, f: bv32, s: bv32, pc: bv32, registers: Registers)
    requires Widen(first) == f && Widen(second) == s && Aligned(pc, true)
    requires f & 0xff70 == 0xf850 && s & 0xf000 == 0xf000 && f & 0xf != 15 && f & 0x80 != 0
    ensures PlanThumb32Load(first, second, pc, registers) == From(Plus(registers(f & 0xf), s & 0xfff))
  {
    hide Widen, Plus, Minus;
  }

  /** LDR.W PC from a register plus twelve bits. */
  lemma ThumbPositiveLoad(rn: bv32, offset: bv32, pc: bv32, registers: Registers)
    requires rn < 15 && offset < 0x1000 && Aligned(pc, true)
    ensures 0xf000 | offset <= 0xffff
    ensures PlanThumb32Load(Thumb(LoadFirst(rn, true)), Thumb(0xf000 | offset), pc, registers) == From(Plus(registers(rn), offset))
  {
    hide LoadFirst, Widen, Thumb, Plus, Minus, PlanThumb32Load, Aligned;
    FirstFields(rn, true);
    SecondFields(offset);
    WidenThumb(LoadFirst(rn, true));
    WidenThumb(0xf000 | offset);
    PlanOfPositive(Thumb(LoadFirst(rn, true)), Thumb(0xf000 | offset), LoadFirst(rn, true), 0xf000 | offset, pc, registers);
  }

  /** The second halfword of an indexed load: P, U and W are bits 10 to 8. */
  function IndexSecond(pre: bool, add: bool, writeback: bool, offset: bv32): (w: bv32)
    requires offset < 0x100
    ensures w <= 0xffff
  {
    0xf800 | offset | (if pre then 0x400 else 0) | (if add then 0x200 else 0) | (if writeback then 0x100 else 0)
  }

  lemma IndexFields(pre: bool, add: bool, writeback: bool, offset: bv32)
    requires offset < 0x100
    ensures var w := IndexSecond(pre, add, writeback, offset);
      && w & 0xf000 == 0xf000 && w & 0x800 != 0 && w & 0xff == offset
      && (w & 0x400 != 0) == pre && (w & 0x200 != 0) == add && (w & 0x100 != 0) == writeback
  {
  }

  lemma PlanOfIndexed(first: bv16, second: bv16, f: bv32, s: bv32, pc: bv32, registers: Registers)
    requires Widen(first) == f && Widen(second) == s && Aligned(pc, true)
    requires f & 0xff70 == 0xf850 && s & 0xf000 == 0xf000 && f & 0xf != 15 && f & 0x80 == 0 && s & 0x800 != 0
    ensures PlanThumb32Load(first, second, pc, registers) ==
      if s & 0x400 == 0 && s & 0x100 == 0 then RefusedLoad
      else Indexed(s & 0x400 != 0, s & 0x200 != 0, registers(f & 0xf), s & 0xff)
  {
    hide Widen, Plus, Minus;
  }

  /** LDR.W PC with an eight-bit index, before or after the access. */
  lemma ThumbIndexedLoad(pre: bool, add: bool, writeback: bool, rn: bv32, offset: bv32, pc: bv32, registers: Registers)
    requires rn < 15 && offset < 0x100 && Aligned(pc, true)
    ensures PlanThumb32Load(Thumb(LoadFirst(rn, false)), Thumb(IndexSecond(pre, add, writeback, offset)), pc, registers) ==
      if !pre && !writeback then RefusedLoad else Indexed(pre, add, registers(rn), offset)
  {
    hide LoadFirst, IndexSecond, Widen, Thumb, Indexed, PlanThumb32Load, Aligned;
    FirstFields(rn, false);
    IndexFields(pre, add, writeback, offset);
    var f, s := LoadFirst(rn, false), IndexSecond(pre, add, writeback, offset);
    WidenThumb(f);
    WidenThumb(s);
    PlanOfIndexed(Thumb(f), Thumb(s), f, s, pc, registers);
  }

  /** The second halfword of a register offset shifted left by zero to three. */
  function OffsetSecond(rm: bv32, n: bv32): (w: bv32)
    requires rm < 16 && n < 4
    ensures w <= 0xffff
  {
    0xf000 | (n << 4) | rm
  }

  lemma OffsetFields(rm: bv32, n: bv32)
    requires rm < 16 && n < 4
    ensures var w := OffsetSecond(rm, n);
      w & 0xf000 == 0xf000 && w & 0x800 == 0 && w & 0xfc0 == 0 && w & 0xf == rm && (w >> 4) & 3 == n
  {
  }

  lemma PlanOfOffset(first: bv16, second: bv16, f: bv32, s: bv32, pc: bv32, registers: Registers)
    requires Widen(first) == f && Widen(second) == s && Aligned(pc, true)
    requires f & 0xff70 == 0xf850 && s & 0xf000 == 0xf000 && f & 0xf != 15 && f & 0x80 == 0 && s & 0x800 == 0 && s & 0xfc0 == 0
    ensures PlanThumb32Load(first, second, pc, registers) ==
      if s & 0xf == 13 || s & 0xf == 15 then RefusedLoad
      else From(Plus(registers(f & 0xf), Left(registers(s & 0xf), (s >> 4) & 3)))
  {
    hide Widen, Plus, Minus, Left;
  }

  /** LDR.W PC from a register plus a shifted register; the stack pointer and the program counter
      are no offsets. */
  lemma ThumbOffsetLoad(rn: bv32, rm: bv32, n: bv32, pc: bv32, registers: Registers)
    requires rn < 15 && rm < 16 && n < 4 && Aligned(pc, true)
    ensures PlanThumb32Load(Thumb(LoadFirst(rn, false)), Thumb(OffsetSecond(rm, n)), pc, registers) ==
      if rm == 13 || rm == 15 then RefusedLoad else From(Plus(registers(rn), Left(registers(rm), n)))
  {
    hide LoadFirst, OffsetSecond, Widen, Thumb, Plus, Left, PlanThumb32Load, Aligned;
    FirstFields(rn, false);
    OffsetFields(rm, n);
    var f, s := LoadFirst(rn, false), OffsetSecond(rm, n);
    WidenThumb(f);
    WidenThumb(s);
    PlanOfOffset(Thumb(f), Thumb(s), f, s, pc, registers);
  }
}
