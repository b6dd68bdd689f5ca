/**
 * Where the next instruction is: planners that read a branch or load of the program counter off
 * the stopped instruction, and the architecture's encoders they invert.
 */
module ArmStep {
  import opened ArmBits

  /** A register file; only numbers below 15 are read, the program counter reads ahead of itself. */
  type Registers = bv32 -> bv32

  /** The planner's three answers: not a control transfer, refused, or the one next address. */
  datatype Plan = NotBranch | Refused | Target(address: bv32, thumb: bool)

  predicate Aligned(address: bv32, thumb: bool) {
    if thumb then address & 1 == 0 else address & 3 == 0
  }

  /** The address without the bits its instruction set ignores. */
  function Masked(address: bv32, thumb: bool): bv32 {
    if thumb then address & 0xffff_fffe else address & 0xffff_fffc
  }

  function SetTarget(address: bv32, thumb: bool, pc: bv32): (plan: Plan)
    ensures plan.Target? ==> Aligned(plan.address, plan.thumb) && plan.address != pc
  {
    MaskedIsAligned(address, thumb);
    if !thumb && !Aligned(address, false) then Refused
    else if Masked(address, thumb) == pc then Refused
    else Target(Masked(address, thumb), thumb)
  }

  lemma MaskedIsAligned(address: bv32, thumb: bool)
    ensures Aligned(Masked(address, thumb), thumb)
    ensures Aligned(address, thumb) ==> Masked(address, thumb) == address
  {
  }

  /** Sign extension from the bit `sign` stands for. */
  function SignExtend(value: bv32, sign: bv32): bv32 {
    (value ^ sign) - sign
  }

  /** A base and a decoded offset, modulo 2^32. */
  function Plus(base: bv32, offset: bv32): bv32 {
    base + offset
  }

  function Minus(base: bv32, offset: bv32): bv32 {
    base - offset
  }

  function Left(v: bv32, n: bv32): bv32
    requires n <= 32
  {
    v << n
  }

  function RotateRight(value: bv32, amount: bv32): bv32 {
    if amount & 31 == 0 then value else (value >> (amount & 31)) | (value << (32 - (amount & 31)))
  }

  function ShiftRightArithmetic(value: bv32, amount: bv32): bv32 {
    if amount == 0 || amount >= 32 then if value & 0x8000_0000 != 0 then 0xffff_ffff else 0
    else (value >> amount) | (if value & 0x8000_0000 != 0 then 0xffff_ffff << (32 - amount) else 0)
  }

  function ReadArm(registers: Registers, number: bv32, pc: bv32): bv32 {
    if number == 15 then pc + 8 else registers(number)
  }

  /** R15 reads as the address of the instruction plus eight, in Thumb state plus four. */
  lemma ReadsAhead(registers: Registers, number: bv32, pc: bv32)
    ensures ReadArm(registers, 15, pc) == pc + 8 && ReadThumb(registers, 15, pc) == pc + 4
    ensures number != 15 ==> ReadArm(registers, number, pc) == ReadThumb(registers, number, pc) == registers(number)
  {
  }

  lemma AddsAndSubtracts(base: bv32, offset: bv32)
    ensures Plus(base, offset) == base + offset && Minus(base, offset) == base - offset
  {
  }

  function Carry(cpsr: bv32): bv32 {
    (cpsr >> 29) & 1
  }

  /** A computed value, or none. */
  datatype Operand = NoOperand | Operand(value: bv32)

  /** A register operand shifted by an immediate; a register-controlled shift is refused. */
  function ShiftedRegister(w: bv32, pc: bv32, cpsr: bv32, registers: Registers): Operand {
    if w & 0x10 != 0 then NoOperand
    else
      var value := ReadArm(registers, w & 0xf, pc);
      var kind, amount := (w >> 5) & 3, (w >> 7) & 0x1f;
      Operand(
        if kind == 0 then value << amount
        else if kind == 1 then if amount == 0 then 0 else value >> amount
        else if kind == 2 then ShiftRightArithmetic(value, amount)
        else if amount == 0 then (Carry(cpsr) << 31) | (value >> 1)
        else RotateRight(value, amount))
  }

  function Operand2(w: bv32, pc: bv32, cpsr: bv32, registers: Registers): Operand {
    if w & 0x0200_0000 != 0 then Operand(RotateRight(w & 0xff, ((w >> 8) & 0xf) << 1))
    else ShiftedRegister(w, pc, cpsr, registers)
  }

  function Sum(opcode: bv32, rn: bv32, operand: bv32, carry: bv32): bv32 {
    if opcode == 2 then rn - operand
    else if opcode == 3 then operand - rn
    else if opcode == 4 then rn + operand
    else if opcode == 5 then rn + operand + carry
    else if opcode == 6 then rn - operand - (1 - carry)
    else operand - rn - (1 - carry)
  }

  /** The value a data-processing instruction computes; comparisons compute none. */
  function Alu(opcode: bv32, rn: bv32, operand: bv32, carry: bv32): Operand {
    if opcode == 0 then Operand(rn & operand)
    else if opcode == 1 then Operand(rn ^ operand)
    else if 2 <= opcode <= 7 then Operand(Sum(opcode, rn, operand, carry))
    else if opcode == 12 then Operand(rn | operand)
    else if opcode == 13 then Operand(operand)
    else if opcode == 14 then Operand(rn & !operand)
    else if opcode == 15 then Operand(!operand)
    else NoOperand
  }

  function PlanDataProcessing(w: bv32, pc: bv32, cpsr: bv32, registers: Registers): Plan {
    var condition, class_, opcode := w >> 28, (w >> 25) & 7, (w >> 21) & 0xf;
    if condition == 0xf || w & 0xf000 != 0xf000 || (class_ != 1 && (class_ != 0 || (w & 0x10 != 0 && w & 0x80 != 0))) then NotBranch
    else if !ConditionPassed(condition, cpsr) then SetTarget(pc + 4, false, pc)
    else if 8 <= opcode <= 11 || w & 0x0010_0000 != 0 then NotBranch
    else
      var operand := Operand2(w, pc, cpsr, registers);
      if operand.NoOperand? then Refused
      else
        var result := Alu(opcode, ReadArm(registers, (w >> 16) & 0xf, pc), operand.value, Carry(cpsr));
        if result.NoOperand? then NotBranch else SetTarget(result.value, result.value & 1 != 0, pc)
  }

  function BranchOffset(w: bv32): bv32 {
    SignExtend((w & 0x00ff_ffff) << 2, 0x0200_0000)
  }

  function ExchangeOffset(w: bv32): bv32 {
    SignExtend(((w & 0x00ff_ffff) << 2) | ((w >> 23) & 2), 0x0200_0000)
  }

  function NearOffset(w: bv32): bv32 {
    SignExtend((w & 0xff) << 1, 0x100)
  }

  function JumpOffset(w: bv32): bv32 {
    SignExtend((w & 0x7ff) << 1, 0x800)
  }

  function CompareOffset(w: bv32): bv32 {
    ((w & 0x0200) >> 3) + ((w & 0x00f8) >> 2)
  }

  /** uvdb_arm_plan_direct_step. */
  function PlanArm(w: bv32, pc: bv32, cpsr: bv32, registers: Registers): Plan {
    var condition, shape, rm := w >> 28, w & 0x0fff_fff0, w & 0xf;
    if pc & 3 != 0 then Refused
    else if w & 0xfe00_0000 == 0xfa00_0000 then
      SetTarget(Plus(pc + 8, ExchangeOffset(w)), true, pc)
    else if w & 0x0e00_0000 == 0x0a00_0000 then
      if condition == 0xf then NotBranch
      else if !ConditionPassed(condition, cpsr) then SetTarget(pc + 4, false, pc)
      else SetTarget(Plus(pc + 8, BranchOffset(w)), false, pc)
    else if shape == 0x01a0_f000 || shape == 0x012f_ff10 || shape == 0x012f_ff30 then
      if condition == 0xf then NotBranch
      else if !ConditionPassed(condition, cpsr) then SetTarget(pc + 4, false, pc)
      else if shape == 0x012f_ff30 && rm == 15 then Refused
      else
        var address := ReadArm(registers, rm, pc);
        SetTarget(address, address & 1 != 0, pc)
    else PlanDataProcessing(w, pc, cpsr, registers)
  }

  datatype Load = NoLoad | RefusedLoad | From(address: bv32)

  /** uvdb_arm_plan_load_pc_address: where the new program counter is read from. */
  function PlanArmLoad(w: bv32, pc: bv32, cpsr: bv32, registers: Registers): Load {
    var condition, rn := w >> 28, (w >> 16) & 0xf;
    var pre, add, writeback, byRegister := Bit(w, 0x0100_0000), Bit(w, 0x0080_0000), Bit(w, 0x0020_0000), Bit(w, 0x0200_0000);
    if pc & 3 != 0 then RefusedLoad
    else if condition == 0xf || w & 0x0c10_f000 != 0x0410_f000 || !ConditionPassed(condition, cpsr) then NoLoad
    else if w & 0x0040_0000 != 0 then RefusedLoad
    else if (rn == 15 && (byRegister || !pre || writeback)) || (!pre && writeback) then RefusedLoad
    else if byRegister && (w & 0xf == 15 || ShiftedRegister(w, pc, cpsr, registers).NoOperand?) then RefusedLoad
    else
      var base := ReadArm(registers, rn, pc);
      var offset := if byRegister then ShiftedRegister(w, pc, cpsr, registers).value else w & 0xfff;
      From(if !pre then base else if add then Plus(base, offset) else Minus(base, offset))
  }

  function Widen(w: bv16): bv32 {
    w as bv32
  }

  function ReadThumb(registers: Registers, number: bv32, pc: bv32): bv32 {
    if number == 15 then pc + 4 else registers(number)
  }

  /** uvdb_thumb16_plan_direct_step. */
  function PlanThumb16(h: bv16, pc: bv32, cpsr: bv32, registers: Registers): Plan {
    var w := Widen(h);
    var rm := (w >> 3) & 0xf;
    if pc & 1 != 0 then Refused
    else if w & 0xf000 == 0xd000 && w & 0x0f00 < 0x0e00 then
      SetTarget(if ConditionPassed((w >> 8) & 0xf, cpsr) then Plus(pc + 4, NearOffset(w)) else pc + 2, true, pc)
    else if w & 0xf800 == 0xe000 then
      SetTarget(Plus(pc + 4, JumpOffset(w)), true, pc)
    else if w & 0xf500 == 0xb100 then
      var zero := registers(w & 7) == 0;
      var take := if w & 0x0800 != 0 then !zero else zero;
      SetTarget(if take then Plus(pc + 4, CompareOffset(w)) else pc + 2, true, pc)
    else if w & 0xff07 == 0x4700 then
      if w & 0x80 != 0 && rm == 15 then Refused
      else
        var address := ReadThumb(registers, rm, pc);
        SetTarget(address, address & 1 != 0, pc)
    else if w & 0xff00 == 0x4700 then Refused
    else if w & 0xff87 == 0x4687 then SetTarget(ReadThumb(registers, rm, pc), true, pc)
    else if w & 0xff87 == 0x4487 then
      if rm == 15 then Refused else SetTarget(Plus((pc + 4) & 0xffff_fffc, registers(rm)), true, pc)
    else NotBranch
  }

  /** The 25-bit offset of B.W, BL and BLX; J1 and J2 carry complemented copies of its top bits. */
  function LongOffset(f: bv32, s: bv32): bv32 {
    var sign := (f >> 10) & 1;
    var i1 := ((s >> 13) & 1) ^ sign ^ 1;
    var i2 := ((s >> 11) & 1) ^ sign ^ 1;
    SignExtend((sign << 24) | (i1 << 23) | (i2 << 22) | ((f & 0x3ff) << 12) | ((s & 0x7ff) << 1), 0x0100_0000)
  }

  /** The 21-bit offset of a conditional B.W. */
  function ShortOffset(f: bv32, s: bv32): bv32 {
    SignExtend((((f >> 10) & 1) << 20) | (((s >> 11) & 1) << 19) | (((s >> 13) & 1) << 18) | ((f & 0x3f) << 12) | ((s & 0x7ff) << 1), 0x0010_0000)
  }

  /** uvdb_thumb32_plan_branch_step. */
  function PlanThumb32(first: bv16, second: bv16, pc: bv32, cpsr: bv32): Plan {
    var f, s := Widen(first), Widen(second);
    if pc & 1 != 0 then Refused
    else if f & 0xf800 != 0xf000 || s & 0x8000 == 0 then NotBranch
    else if s & 0x1000 != 0 || s & 0xd001 == 0xc000 then
      var toArm := s & 0x1000 == 0;
      SetTarget(Plus(if toArm then (pc + 4) & 0xffff_fffc else pc + 4, LongOffset(f, s)), !toArm, pc)
    else if s & 0xd000 == 0x8000 && f & 0x0380 != 0x0380 then
      SetTarget(if ConditionPassed((f >> 6) & 0xf, cpsr) then Plus(pc + 4, ShortOffset(f, s)) else pc + 4, true, pc)
    else NotBranch
  }

  /** uvdb_thumb32_plan_load_pc_address. */
  function PlanThumb32Load(first: bv16, second: bv16, pc: bv32, registers: Registers): Load {
    var f, s := Widen(first), Widen(second);
    var rn := f & 0xf;
    if pc & 1 != 0 then RefusedLoad
    else if f & 0xff70 != 0xf850 || s & 0xf000 != 0xf000 then NoLoad
    else if rn == 15 then
      var base := (pc + 4) & 0xffff_fffc;
      From(if f & 0x80 != 0 then Plus(base, s & 0xfff) else Minus(base, s & 0xfff))
    else
      var base := registers(rn);
      if f & 0x80 != 0 then From(Plus(base, s & 0xfff))
      else if s & 0x0800 != 0 then
        if s & 0x0400 == 0 && s & 0x0100 == 0 then RefusedLoad
        else From(if s & 0x0400 == 0 then base else if s & 0x0200 != 0 then Plus(base, s & 0xff) else Minus(base, s & 0xff))
      else if s & 0x0fc0 == 0 then
        if s & 0xf == 13 || s & 0xf == 15 then RefusedLoad else From(Plus(base, Left(registers(s & 0xf), (s >> 4) & 3)))
      else RefusedLoad
  }

  // ---- planned words are words that write the program counter ----

  /** A target a breakpoint can be put on: aligned, and not the stopped instruction itself. */
  predicate Usable(plan: Plan, pc: bv32) {
    plan.Target? ==> Aligned(plan.address, plan.thumb) && plan.address != pc
  }

  lemma ArmPlansWriters(w: bv32, pc: bv32, cpsr: bv32, registers: Registers)
    ensures PlanArm(w, pc, cpsr, registers).Target? ==> ArmWritesPc(w)
    ensures Usable(PlanArm(w, pc, cpsr, registers), pc)
  {
    hide Operand2, Alu, SignExtend, ConditionPassed;
  }

  lemma ArmLoadsWrite(w: bv32, pc: bv32, cpsr: bv32, registers: Registers)
    ensures PlanArmLoad(w, pc, cpsr, registers).From? ==> ArmWritesPc(w)
  {
    hide ShiftedRegister, ConditionPassed;
  }

  lemma Thumb16PlansWriters(h: bv16, pc: bv32, cpsr: bv32, registers: Registers)
    ensures PlanThumb16(h, pc, cpsr, registers).Target? ==> Thumb16WritesPc(h)
    ensures Usable(PlanThumb16(h, pc, cpsr, registers), pc)
  {
    hide SignExtend, ConditionPassed;
  }

  lemma Thumb32PlansWriters(first: bv16, second: bv16, pc: bv32, cpsr: bv32)
    ensures PlanThumb32(first, second, pc, cpsr).Target? ==> Thumb32WritesPc(first, second)
    ensures Usable(PlanThumb32(first, second, pc, cpsr), pc)
  {
    hide LongOffset, ShortOffset, ConditionPassed;
  }

  lemma Thumb32LoadsWrite(first: bv16, second: bv16, pc: bv32, registers: Registers)
    ensures PlanThumb32Load(first, second, pc, registers).From? ==> Thumb32WritesPc(first, second)
  {
  }

  // ---- the architecture's encoders (DDI 0406C, sections A8.8.18, A8.8.25 and A8.8.63) ----

  /** `offset` fits a signed field whose sign bit is `sign` and is a multiple of `unit`. */
  predicate Fits(offset: bv32, sign: bv32, unit: bv32) {
    offset + sign < sign + sign && offset & (unit - 1) == 0
  }

  function EncodeB(condition: bv32, link: bool, offset: bv32): bv32 {
    (condition << 28) | (if link then 0x0b00_0000 else 0x0a00_0000) | ((offset >> 2) & 0x00ff_ffff)
  }

  function EncodeBlx(offset: bv32): bv32 {
    0xfa00_0000 | ((offset & 2) << 23) | ((offset >> 2) & 0x00ff_ffff)
  }

  /** The planned target of a taken branch: refused exactly when it branches to itself. */
  function Taken(target: bv32, thumb: bool, pc: bv32): Plan {
    if target == pc then Refused else Target(target, thumb)
  }

  /** An aligned target is kept as it is. */
  lemma SetAligned(address: bv32, thumb: bool, pc: bv32)
    requires Aligned(address, thumb)
    ensures SetTarget(address, thumb, pc) == Taken(address, thumb, pc)
  {
    hide Masked, Aligned;
    MaskedIsAligned(address, thumb);
  }

  lemma EvenSum(base: bv32, offset: bv32, thumb: bool)
    requires Aligned(base, thumb) && Aligned(offset, thumb)
    ensures Aligned(Plus(base, offset), thumb)
  {
  }

  /** The bases a branch counts from are aligned, and falling through is not staying. */
  lemma Bases(pc: bv32)
    ensures Aligned(pc, false) ==> Aligned(pc + 8, false) && Aligned(pc + 4, false) && Aligned(pc + 8, true)
    ensures Aligned(pc, true) ==> Aligned(pc + 4, true) && Aligned(pc + 2, true) && Aligned((pc + 4) & 0xffff_fffc, false)
    ensures pc + 4 != pc && pc + 2 != pc
  {
  }

  lemma FitsIsAligned(offset: bv32, sign: bv32)
    ensures Fits(offset, sign, 4) ==> Aligned(offset, false) && Aligned(offset, true)
    ensures Fits(offset, sign, 2) ==> Aligned(offset, true)
  {
  }

  /** Where a taken branch lands, and where an untaken one falls through to. */
  lemma Jumps(base: bv32, offset: bv32, thumb: bool, pc: bv32)
    requires Aligned(base, thumb) && Aligned(offset, thumb)
    ensures SetTarget(Plus(base, offset), thumb, pc) == Taken(Plus(base, offset), thumb, pc)
  {
    hide SetTarget, Taken, Aligned, Plus;
    EvenSum(base, offset, thumb);
    SetAligned(Plus(base, offset), thumb, pc);
  }

  lemma FallsThrough(next: bv32, thumb: bool, pc: bv32)
    requires Aligned(next, thumb) && next != pc
    ensures SetTarget(next, thumb, pc) == Target(next, thumb)
  {
    hide SetTarget;
    SetAligned(next, thumb, pc);
  }

  lemma SignExtendInverts(offset: bv32)
    ensures Fits(offset, 0x0200_0000, 4) ==> SignExtend(((offset >> 2) & 0x00ff_ffff) << 2, 0x0200_0000) == offset
    ensures Fits(offset, 0x0200_0000, 2) ==> SignExtend(offset & 0x03ff_fffe, 0x0200_0000) == offset
  {
  }

  lemma BFields(condition: bv32, link: bool, offset: bv32)
    requires condition < 0xf
    ensures var w := EncodeB(condition, link, offset);
      && w >> 28 == condition && w & 0x0e00_0000 == 0x0a00_0000 && w & 0xfe00_0000 != 0xfa00_0000
      && w & 0x00ff_ffff == (offset >> 2) & 0x00ff_ffff
  {
  }

  /** What the planner makes of any B or BL. */
  lemma PlanOfB(w: bv32, condition: bv32, pc: bv32, cpsr: bv32, registers: Registers)
    requires w >> 28 == condition < 0xf && w & 0x0e00_0000 == 0x0a00_0000 && w & 0xfe00_0000 != 0xfa00_0000 && Aligned(pc, false)
    ensures PlanArm(w, pc, cpsr, registers) == if ConditionPassed(condition, cpsr) then SetTarget(Plus(pc + 8, BranchOffset(w)), false, pc) else SetTarget(pc + 4, false, pc)
  {
    hide ConditionPassed, BranchOffset, ExchangeOffset, Plus, SetTarget, PlanDataProcessing, ReadArm;
  }

  lemma BOffset(condition: bv32, link: bool, offset: bv32)
    requires condition < 0xf && Fits(offset, 0x0200_0000, 4)
    ensures BranchOffset(EncodeB(condition, link, offset)) == offset
  {
    hide EncodeB, SignExtend, Fits;
    BFields(condition, link, offset);
    SignExtendInverts(offset);
  }

  lemma ArmBranchInverts(condition: bv32, link: bool, offset: bv32, pc: bv32, cpsr: bv32, registers: Registers)
    requires condition < 0xf && Fits(offset, 0x0200_0000, 4) && Aligned(pc, false)
    ensures PlanArm(EncodeB(condition, link, offset), pc, cpsr, registers) ==
      if ConditionPassed(condition, cpsr) then Taken(Plus(pc + 8, offset), false, pc) else Target(pc + 4, false)
  {
    hide ConditionPassed, EncodeB, BranchOffset, Plus, SetTarget, PlanArm, Fits, Aligned, Taken;
    BFields(condition, link, offset);
    BOffset(condition, link, offset);
    PlanOfB(EncodeB(condition, link, offset), condition, pc, cpsr, registers);
    Bases(pc);
    FitsIsAligned(offset, 0x0200_0000);
    Jumps(pc + 8, offset, false, pc);
    FallsThrough(pc + 4, false, pc);
  }

  lemma BlxFields(offset: bv32)
    ensures var w := EncodeBlx(offset);
      w & 0xfe00_0000 == 0xfa00_0000 && ((w & 0x00ff_ffff) << 2) | ((w >> 23) & 2) == offset & 0x03ff_fffe
  {
  }

  lemma PlanOfBlx(w: bv32, pc: bv32, cpsr: bv32, registers: Registers)
    requires w & 0xfe00_0000 == 0xfa00_0000 && Aligned(pc, false)
    ensures PlanArm(w, pc, cpsr, registers) == SetTarget(Plus(pc + 8, ExchangeOffset(w)), true, pc)
  {
    hide ConditionPassed, BranchOffset, ExchangeOffset, Plus, SetTarget, PlanDataProcessing, ReadArm;
  }

  lemma BlxOffset(offset: bv32)
    requires Fits(offset, 0x0200_0000, 2)
    ensures ExchangeOffset(EncodeBlx(offset)) == offset
  {
    hide EncodeBlx, SignExtend, Fits;
    BlxFields(offset);
    SignExtendInverts(offset);
  }

  lemma ArmExchangeInverts(offset: bv32, pc: bv32, cpsr: bv32, registers: Registers)
    requires Fits(offset, 0x0200_0000, 2) && Aligned(pc, false)
    ensures PlanArm(EncodeBlx(offset), pc, cpsr, registers) == Taken(Plus(pc + 8, offset), true, pc)
  {
    hide EncodeBlx, ExchangeOffset, Plus, SetTarget, PlanArm, Fits, Aligned, Taken;
    BlxFields(offset);
    BlxOffset(offset);
    PlanOfBlx(EncodeBlx(offset), pc, cpsr, registers);
    Bases(pc);
    FitsIsAligned(offset, 0x0200_0000);
    Jumps(pc + 8, offset, true, pc);
  }

  function Thumb(w: bv32): bv16
    requires w <= 0xffff
  {
    w as bv16
  }

  function EncodeThumbB(condition: bv32, offset: bv32): (w: bv32)
    ensures w <= 0xffff
  {
    0xd000 | ((condition & 0xf) << 8) | ((offset >> 1) & 0xff)
  }

  function EncodeThumbJump(offset: bv32): (w: bv32)
    ensures w <= 0xffff
  {
    0xe000 | ((offset >> 1) & 0x7ff)
  }

  lemma WidenThumb(w: bv32)
    requires w <= 0xffff
    ensures Widen(Thumb(w)) == w
  {
  }

  lemma ThumbBFields(condition: bv32, offset: bv32)
    requires condition < 0xe && Fits(offset, 0x100, 2)
    ensures var w := EncodeThumbB(condition, offset);
      w & 0xf000 == 0xd000 && w & 0x0f00 < 0x0e00 && (w >> 8) & 0xf == condition && NearOffset(w) == offset
  {
  }

  lemma PlanOfThumbB(h: bv16, w: bv32, pc: bv32, cpsr: bv32, registers: Registers)
    requires Widen(h) == w && w & 0xf000 == 0xd000 && w & 0x0f00 < 0x0e00 && Aligned(pc, true)
    ensures PlanThumb16(h, pc, cpsr, registers) == SetTarget(if ConditionPassed((w >> 8) & 0xf, cpsr) then Plus(pc + 4, NearOffset(w)) else pc + 2, true, pc)
  {
    hide ConditionPassed, Widen, NearOffset, JumpOffset, Plus, SetTarget, ReadThumb;
  }

  lemma ThumbBranchInverts(condition: bv32, offset: bv32, pc: bv32, cpsr: bv32, registers: Registers)
    requires condition < 0xe && Fits(offset, 0x100, 2) && Aligned(pc, true)
    ensures PlanThumb16(Thumb(EncodeThumbB(condition, offset)), pc, cpsr, registers) ==
      if ConditionPassed(condition, cpsr) then Taken(Plus(pc + 4, offset), true, pc) else Target(pc + 2, true)
  {
    hide ConditionPassed, EncodeThumbB, Widen, Thumb, NearOffset, Plus, SetTarget, PlanThumb16, Fits, Aligned, Taken;
    var w := EncodeThumbB(condition, offset);
    ThumbBFields(condition, offset);
    WidenThumb(w);
    PlanOfThumbB(Thumb(w), w, pc, cpsr, registers);
    Bases(pc);
    FitsIsAligned(offset, 0x100);
    Jumps(pc + 4, offset, true, pc);
    FallsThrough(pc + 2, true, pc);
  }

  lemma ThumbJumpFields(offset: bv32)
    requires Fits(offset, 0x800, 2)
    ensures var w := EncodeThumbJump(offset); w & 0xf800 == 0xe000 && JumpOffset(w) == offset
  {
  }

  lemma PlanOfThumbJump(h: bv16, w: bv32, pc: bv32, cpsr: bv32, registers: Registers)
    requires Widen(h) == w && w & 0xf800 == 0xe000 && Aligned(pc, true)
    ensures PlanThumb16(h, pc, cpsr, registers) == SetTarget(Plus(pc + 4, JumpOffset(w)), true, pc)
  {
    hide ConditionPassed, Widen, NearOffset, JumpOffset, Plus, SetTarget, ReadThumb;
  }

  lemma ThumbJumpInverts(offset: bv32, pc: bv32, cpsr: bv32, registers: Registers)
    requires Fits(offset, 0x800, 2) && Aligned(pc, true)
    ensures PlanThumb16(Thumb(EncodeThumbJump(offset)), pc, cpsr, registers) == Taken(Plus(pc + 4, offset), true, pc)
  {
    hide EncodeThumbJump, Widen, Thumb, JumpOffset, Plus, SetTarget, PlanThumb16, Fits, Aligned, Taken;
    var w := EncodeThumbJump(offset);
    ThumbJumpFields(offset);
    WidenThumb(w);
    PlanOfThumbJump(Thumb(w), w, pc, cpsr, registers);
    Bases(pc);
    FitsIsAligned(offset, 0x800);
    Jumps(pc + 4, offset, true, pc);
  }

  /** CBZ and CBNZ: the offset is unsigned, its top bit apart from the rest. */
  function EncodeCompare(nonzero: bool, rn: bv32, offset: bv32): (w: bv32)
    ensures w <= 0xffff
  {
    0xb100 | (if nonzero then 0x0800 else 0) | (((offset >> 6) & 1) << 9) | (((offset >> 1) & 0x1f) << 3) | (rn & 7)
  }

  lemma CompareFields(nonzero: bool, rn: bv32, offset: bv32)
    requires rn <= 7 && offset <= 126 && offset & 1 == 0
    ensures var w := EncodeCompare(nonzero, rn, offset);
      w & 0xf500 == 0xb100 && w & 7 == rn && (w & 0x0800 != 0) == nonzero && CompareOffset(w) == offset
  {
  }

  lemma PlanOfCompare(h: bv16, w: bv32, pc: bv32, cpsr: bv32, registers: Registers)
    requires Widen(h) == w && w & 0xf500 == 0xb100 && Aligned(pc, true)
    ensures PlanThumb16(h, pc, cpsr, registers) ==
      SetTarget(if (w & 0x0800 != 0) != (registers(w & 7) == 0) then Plus(pc + 4, CompareOffset(w)) else pc + 2, true, pc)
  {
    hide ConditionPassed, Widen, NearOffset, JumpOffset, CompareOffset, Plus, SetTarget, ReadThumb;
  }

  lemma CompareBranchInverts(nonzero: bool, rn: bv32, offset: bv32, pc: bv32, cpsr: bv32, registers: Registers)
    requires rn <= 7 && offset <= 126 && offset & 1 == 0 && Aligned(pc, true)
    ensures PlanThumb16(Thumb(EncodeCompare(nonzero, rn, offset)), pc, cpsr, registers) ==
      if nonzero != (registers(rn) == 0) then Taken(Plus(pc + 4, offset), true, pc) else Target(pc + 2, true)
  {
    hide EncodeCompare, Widen, Thumb, CompareOffset, Plus, SetTarget, PlanThumb16, Taken;
    var w := EncodeCompare(nonzero, rn, offset);
    CompareFields(nonzero, rn, offset);
    WidenThumb(w);
    PlanOfCompare(Thumb(w), w, pc, cpsr, registers);
    Bases(pc);
    Jumps(pc + 4, offset, true, pc);
    FallsThrough(pc + 2, true, pc);
  }

  /** B.W, BL and BLX: the upper halfword carries S and imm10, the lower one J1, J2 and imm11,
      where J1 is the complement of I1 exclusive-or S, and likewise J2. */
  function EncodeLongFirst(offset: bv32): (w: bv32)
    ensures w <= 0xffff
  {
    0xf000 | (((offset >> 24) & 1) << 10) | ((offset >> 12) & 0x3ff)
  }

  function EncodeLongSecond(form: bv32, offset: bv32): (w: bv32)
    requires LongForm(form)
    ensures w <= 0xffff
  {
    var s := (offset >> 24) & 1;
    var j1 := ((offset >> 23) & 1) ^ s ^ 1;
    var j2 := ((offset >> 22) & 1) ^ s ^ 1;
    form | (j1 << 13) | (j2 << 11) | ((offset >> 1) & 0x7ff)
  }

  /** The low halfwords of B.W, BL and BLX before their fields are filled in. */
  predicate LongForm(form: bv32) {
    form == 0x9000 || form == 0xd000 || form == 0xc000
  }

  lemma LongPieces(offset: bv32)
    requires Fits(offset, 0x0100_0000, 2)
    ensures SignExtend((((offset >> 24) & 1) << 24) | (((offset >> 23) & 1) << 23) | (((offset >> 22) & 1) << 22) |
                       (((offset >> 12) & 0x3ff) << 12) | (((offset >> 1) & 0x7ff) << 1), 0x0100_0000) == offset
  {
  }

  lemma LongFirstPieces(offset: bv32)
    ensures var f := EncodeLongFirst(offset); (f >> 10) & 1 == (offset >> 24) & 1 && f & 0x3ff == (offset >> 12) & 0x3ff
  {
  }

  lemma LongSecondPieces(form: bv32, offset: bv32)
    requires LongForm(form)
    ensures var s, sign := EncodeLongSecond(form, offset), (offset >> 24) & 1;
      && ((s >> 13) & 1) ^ sign ^ 1 == (offset >> 23) & 1
      && ((s >> 11) & 1) ^ sign ^ 1 == (offset >> 22) & 1
      && s & 0x7ff == (offset >> 1) & 0x7ff
  {
  }

  lemma LongOffsetInverts(form: bv32, offset: bv32)
    requires Fits(offset, 0x0100_0000, 2) && LongForm(form)
    ensures LongOffset(EncodeLongFirst(offset), EncodeLongSecond(form, offset)) == offset
  {
    hide EncodeLongFirst, EncodeLongSecond, SignExtend, Fits;
    LongPieces(offset);
    LongFirstPieces(offset);
    LongSecondPieces(form, offset);
  }

  lemma LongFields(form: bv32, offset: bv32)
    requires LongForm(form)
    ensures var f, s := EncodeLongFirst(offset), EncodeLongSecond(form, offset);
      && f & 0xf800 == 0xf000 && s & 0x8000 != 0 && (s & 0x1000 != 0) == (form != 0xc000)
      && (form == 0xc000 && offset & 2 == 0 ==> s & 0xd001 == 0xc000)
  {
  }

  lemma PlanOfLong(first: bv16, second: bv16, f: bv32, s: bv32, pc: bv32, cpsr: bv32)
    requires Widen(first) == f && Widen(second) == s && Aligned(pc, true) && f & 0xf800 == 0xf000 && s & 0x8000 != 0
    ensures s & 0x1000 != 0 ==> PlanThumb32(first, second, pc, cpsr) == SetTarget(Plus(pc + 4, LongOffset(f, s)), true, pc)
    ensures s & 0x1000 == 0 && s & 0xd001 == 0xc000 ==>
      PlanThumb32(first, second, pc, cpsr) == SetTarget(Plus((pc + 4) & 0xffff_fffc, LongOffset(f, s)), false, pc)
  {
    hide ConditionPassed, Widen, LongOffset, ShortOffset, Plus, SetTarget;
  }

  /** B.W is form 0x9000 and BL form 0xd000; both stay in Thumb state. */
  lemma ThumbLongInverts(link: bool, offset: bv32, pc: bv32, cpsr: bv32)
    requires Fits(offset, 0x0100_0000, 2) && Aligned(pc, true)
    ensures var form := if link then 0xd000 else 0x9000;
      PlanThumb32(Thumb(EncodeLongFirst(offset)), Thumb(EncodeLongSecond(form, offset)), pc, cpsr) == Taken(Plus(pc + 4, offset), true, pc)
  {
    hide LongOffset, EncodeLongFirst, EncodeLongSecond, Widen, Thumb, Plus, SetTarget, PlanThumb32, Fits, Aligned, Taken;
    var form: bv32 := if link then 0xd000 else 0x9000;
    var f, s := EncodeLongFirst(offset), EncodeLongSecond(form, offset);
    LongOffsetInverts(form, offset);
    LongFields(form, offset);
    WidenThumb(f);
    WidenThumb(s);
    PlanOfLong(Thumb(f), Thumb(s), f, s, pc, cpsr);
    Bases(pc);
    FitsIsAligned(offset, 0x0100_0000);
    Jumps(pc + 4, offset, true, pc);
  }

  /** BLX is form 0xc000: it goes to ARM state, from the word-aligned address. */
  lemma ThumbExchangeInverts(offset: bv32, pc: bv32, cpsr: bv32)
    requires Fits(offset, 0x0100_0000, 4) && Aligned(pc, true)
    ensures PlanThumb32(Thumb(EncodeLongFirst(offset)), Thumb(EncodeLongSecond(0xc000, offset)), pc, cpsr) ==
      Taken(Plus((pc + 4) & 0xffff_fffc, offset), false, pc)
  {
    hide LongOffset, EncodeLongFirst, EncodeLongSecond, Widen, Thumb, Plus, SetTarget, PlanThumb32, Fits, Aligned, Taken;
    var f, s := EncodeLongFirst(offset), EncodeLongSecond(0xc000, offset);
    FitsEven(offset);
    LongOffsetInverts(0xc000, offset);
    LongFields(0xc000, offset);
    WidenThumb(f);
    WidenThumb(s);
    PlanOfLong(Thumb(f), Thumb(s), f, s, pc, cpsr);
    Bases(pc);
    FitsIsAligned(offset, 0x0100_0000);
    Jumps((pc + 4) & 0xffff_fffc, offset, false, pc);
  }

  lemma FitsEven(offset: bv32)
    requires Fits(offset, 0x0100_0000, 4)
    ensures Fits(offset, 0x0100_0000, 2) && offset & 2 == 0
  {
  }

  /** Conditional B.W: S, J2 and J1 are the top bits as they are. */
  function EncodeShortFirst(condition: bv32, offset: bv32): (w: bv32)
    ensures w <= 0xffff
  {
    0xf000 | (((offset >> 20) & 1) << 10) | ((condition & 0xf) << 6) | ((offset >> 12) & 0x3f)
  }

  function EncodeShortSecond(offset: bv32): (w: bv32)
    ensures w <= 0xffff
  {
    0x8000 | (((offset >> 18) & 1) << 13) | (((offset >> 19) & 1) << 11) | ((offset >> 1) & 0x7ff)
  }

  lemma ShortFields(condition: bv32, offset: bv32)
    requires condition < 0xe
    ensures var f, s := EncodeShortFirst(condition, offset), EncodeShortSecond(offset);
      && f & 0xf800 == 0xf000 && (f >> 6) & 0xf == condition && f & 0x0380 != 0x0380
      && s & 0x8000 != 0 && s & 0xd000 == 0x8000 && s & 0x1000 == 0 && s & 0xd001 != 0xc000
  {
  }

  /** Reassembling the five fields of an offset. */
  lemma ShortPieces(offset: bv32)
    requires Fits(offset, 0x0010_0000, 2)
    ensures SignExtend((((offset >> 20) & 1) << 20) | (((offset >> 19) & 1) << 19) | (((offset >> 18) & 1) << 18) |
                       (((offset >> 12) & 0x3f) << 12) | (((offset >> 1) & 0x7ff) << 1), 0x0010_0000) == offset
  {
  }

  lemma ShortFirstPieces(condition: bv32, offset: bv32)
    requires condition < 0xe
    ensures var f := EncodeShortFirst(condition, offset); (f >> 10) & 1 == (offset >> 20) & 1 && f & 0x3f == (offset >> 12) & 0x3f
  {
  }

  lemma ShortSecondPieces(offset: bv32)
    ensures var s := EncodeShortSecond(offset);
      (s >> 11) & 1 == (offset >> 19) & 1 && (s >> 13) & 1 == (offset >> 18) & 1 && s & 0x7ff == (offset >> 1) & 0x7ff
  {
  }

  lemma ShortOffsetInverts(condition: bv32, offset: bv32)
    requires condition < 0xe && Fits(offset, 0x0010_0000, 2)
    ensures ShortOffset(EncodeShortFirst(condition, offset), EncodeShortSecond(offset)) == offset
  {
    hide EncodeShortFirst, EncodeShortSecond, SignExtend, Fits;
    ShortPieces(offset);
    ShortFirstPieces(condition, offset);
    ShortSecondPieces(offset);
  }

  lemma PlanOfShort(first: bv16, second: bv16, f: bv32, s: bv32, pc: bv32, cpsr: bv32)
    requires Widen(first) == f && Widen(second) == s && Aligned(pc, true) && f & 0xf800 == 0xf000 && s & 0x8000 != 0
    requires s & 0x1000 == 0 && s & 0xd001 != 0xc000 && s & 0xd000 == 0x8000 && f & 0x0380 != 0x0380
    ensures PlanThumb32(first, second, pc, cpsr) == SetTarget(if ConditionPassed((f >> 6) & 0xf, cpsr) then Plus(pc + 4, ShortOffset(f, s)) else pc + 4, true, pc)
  {
    hide ConditionPassed, Widen, LongOffset, ShortOffset, Plus, SetTarget;
  }

  lemma ThumbShortInverts(condition: bv32, offset: bv32, pc: bv32, cpsr: bv32)
    requires condition < 0xe && Fits(offset, 0x0010_0000, 2) && Aligned(pc, true)
    ensures PlanThumb32(Thumb(EncodeShortFirst(condition, offset)), Thumb(EncodeShortSecond(offset)), pc, cpsr) ==
      if ConditionPassed(condition, cpsr) then Taken(Plus(pc + 4, offset), true, pc) else Target(pc + 4, true)
  {
    hide ConditionPassed, ShortOffset, EncodeShortFirst, EncodeShortSecond, Widen, Thumb, Plus, SetTarget, PlanThumb32, Fits, Aligned, Taken;
    var f, s := EncodeShortFirst(condition, offset), EncodeShortSecond(offset);
    ShortOffsetInverts(condition, offset);
    ShortFields(condition, offset);
    WidenThumb(f);
    WidenThumb(s);
    PlanOfShort(Thumb(f), Thumb(s), f, s, pc, cpsr);
    Bases(pc);
    FitsIsAligned(offset, 0x0010_0000);
    Jumps(pc + 4, offset, true, pc);
    FallsThrough(pc + 4, true, pc);
  }

  // ---- register branches (DDI 0406C: BX, BLX register, and the Thumb register forms of MOV and ADD) ----

  /** The architecture's BXWritePC: bit 0 selects Thumb, and an ARM target must be word-aligned.
      A branch to itself is refused as everywhere. */
  function BxWritePc(address: bv32, pc: bv32): Plan {
    if address & 1 != 0 then Taken(address & 0xffff_fffe, true, pc)
    else if address & 2 == 0 then Taken(address, false, pc)
    else Refused
  }

  /** The architecture's BranchWritePC in Thumb state. */
  function BranchWritePc(address: bv32, pc: bv32): Plan {
    Taken(address & 0xffff_fffe, true, pc)
  }

  lemma SetTargetExchanges(address: bv32, pc: bv32)
    ensures SetTarget(address, address & 1 != 0, pc) == BxWritePc(address, pc)
  {
    hide Taken;
    if address & 1 != 0 {
      assert Masked(address, true) == address & 0xffff_fffe;
      assert SetTarget(address, true, pc) == Taken(address & 0xffff_fffe, true, pc) by { SetIsTaken(address, pc); }
    } else if address & 2 == 0 {
      TwoBits(address);
      SetAligned(address, false, pc);
    } else {
      TwoBits(address);
    }
  }

  lemma SetIsTaken(address: bv32, pc: bv32)
    ensures SetTarget(address, true, pc) == Taken(address & 0xffff_fffe, true, pc)
  {
  }

  lemma TwoBits(address: bv32)
    ensures address & 1 == 0 && address & 2 == 0 <==> address & 3 == 0
  {
  }

  function EncodeThumbBx(link: bool, rm: bv32): (w: bv32)
    ensures w <= 0xffff
  {
    0x4700 | (if link then 0x80 else 0) | ((rm & 0xf) << 3)
  }

  lemma ThumbBxFields(link: bool, rm: bv32)
    requires rm <= 15
    ensures var w := EncodeThumbBx(link, rm); w & 0xff07 == 0x4700 && (w >> 3) & 0xf == rm && (w & 0x80 != 0) == link
  {
  }

  lemma PlanOfThumbBx(h: bv16, w: bv32, pc: bv32, cpsr: bv32, registers: Registers)
    requires Widen(h) == w && w & 0xff07 == 0x4700 && Aligned(pc, true)
    ensures var address := ReadThumb(registers, (w >> 3) & 0xf, pc);
      PlanThumb16(h, pc, cpsr, registers) == if w & 0x80 != 0 && (w >> 3) & 0xf == 15 then Refused else SetTarget(address, address & 1 != 0, pc)
  {
    hide ConditionPassed, Widen, NearOffset, JumpOffset, CompareOffset, Plus, SetTarget, ReadThumb;
  }

  /** BX and BLX to a register: BXWritePC of its value. BLX PC is unpredictable and refused. */
  lemma ThumbRegisterInverts(link: bool, rm: bv32, pc: bv32, cpsr: bv32, registers: Registers)
    requires rm <= 15 && Aligned(pc, true)
    ensures PlanThumb16(Thumb(EncodeThumbBx(link, rm)), pc, cpsr, registers) ==
      if link && rm == 15 then Refused else BxWritePc(ReadThumb(registers, rm, pc), pc)
  {
    hide EncodeThumbBx, Widen, Thumb, SetTarget, PlanThumb16, BxWritePc, ReadThumb, Aligned;
    var w := EncodeThumbBx(link, rm);
    ThumbBxFields(link, rm);
    WidenThumb(w);
    PlanOfThumbBx(Thumb(w), w, pc, cpsr, registers);
    SetTargetExchanges(ReadThumb(registers, rm, pc), pc);
  }

  function EncodeThumbHigh(add: bool, rm: bv32): (w: bv32)
    ensures w <= 0xffff
  {
    (if add then 0x4487 else 0x4687) | ((rm & 0xf) << 3)
  }

  lemma ThumbHighFields(add: bool, rm: bv32)
    requires rm <= 15
    ensures var w := EncodeThumbHigh(add, rm); w & 0xff87 == (if add then 0x4487 else 0x4687) && (w >> 3) & 0xf == rm
  {
  }

  /** The base the planner adds to: the word-aligned one. */
  function AddBase(pc: bv32): bv32 {
    (pc + 4) & 0xffff_fffc
  }

  lemma PlanOfThumbHigh(h: bv16, w: bv32, pc: bv32, cpsr: bv32, registers: Registers)
    requires Widen(h) == w && Aligned(pc, true)
    ensures w & 0xff87 == 0x4687 ==> PlanThumb16(h, pc, cpsr, registers) == SetTarget(ReadThumb(registers, (w >> 3) & 0xf, pc), true, pc)
    ensures w & 0xff87 == 0x4487 && (w >> 3) & 0xf == 15 ==> PlanThumb16(h, pc, cpsr, registers) == Refused
    ensures w & 0xff87 == 0x4487 && (w >> 3) & 0xf != 15 ==>
      PlanThumb16(h, pc, cpsr, registers) == SetTarget(Plus(AddBase(pc), registers((w >> 3) & 0xf)), true, pc)
  {
    hide ConditionPassed, Widen, NearOffset, JumpOffset, CompareOffset, Plus, SetTarget, ReadThumb;
  }

  /** MOV PC: BranchWritePC of the register. */
  lemma ThumbMoveInverts(rm: bv32, pc: bv32, cpsr: bv32, registers: Registers)
    requires rm <= 15 && Aligned(pc, true)
    ensures PlanThumb16(Thumb(EncodeThumbHigh(false, rm)), pc, cpsr, registers) == BranchWritePc(ReadThumb(registers, rm, pc), pc)
  {
    hide EncodeThumbHigh, Widen, Thumb, SetTarget, PlanThumb16, ReadThumb, Aligned, Taken;
    var w := EncodeThumbHigh(false, rm);
    ThumbHighFields(false, rm);
    WidenThumb(w);
    PlanOfThumbHigh(Thumb(w), w, pc, cpsr, registers);
    SetIsTaken(ReadThumb(registers, rm, pc), pc);
  }

  /** ADD PC in the architecture: R15 reads as the instruction address plus four, not aligned. Two
      program counters are unpredictable. */
  function ArchitectureAdd(rm: bv32, pc: bv32, registers: Registers): Plan {
    if rm == 15 then Refused else BranchWritePc(Plus(pc + 4, registers(rm)), pc)
  }

  lemma AlignedBase(pc: bv32)
    requires Aligned(pc, true)
    ensures AddBase(pc) == pc + 4 <==> pc & 3 == 0
  {
  }

  lemma TwoApart(low: bv32, high: bv32, value: bv32)
    requires high == low + 2
    ensures Plus(low, value) & 0xffff_fffe != Plus(high, value) & 0xffff_fffe
  {
  }

  /** The planner agrees with the architecture on ADD PC exactly at word-aligned instructions, or
      when it refuses; elsewhere its target is two bytes short. */
  lemma ThumbAddInverts(rm: bv32, pc: bv32, cpsr: bv32, registers: Registers)
    requires rm <= 15 && Aligned(pc, true)
    ensures PlanThumb16(Thumb(EncodeThumbHigh(true, rm)), pc, cpsr, registers) == ArchitectureAdd(rm, pc, registers) <==> pc & 3 == 0 || rm == 15
  {
    hide EncodeThumbHigh, Widen, Thumb, SetTarget, PlanThumb16, ReadThumb, Aligned, AddBase, Plus;
    var w := EncodeThumbHigh(true, rm);
    ThumbHighFields(true, rm);
    WidenThumb(w);
    PlanOfThumbHigh(Thumb(w), w, pc, cpsr, registers);
    if rm != 15 {
      AddTargets(pc, registers(rm));
    }
  }

  lemma AddTargets(pc: bv32, value: bv32)
    requires Aligned(pc, true)
    ensures SetTarget(Plus(AddBase(pc), value), true, pc) == BranchWritePc(Plus(pc + 4, value), pc) <==> pc & 3 == 0
  {
    hide SetTarget, AddBase, Plus, Aligned, BranchWritePc;
    if pc & 3 == 0 {
      AddAgrees(pc, value);
    } else {
      HalfwordBase(pc);
      AddDiffers(AddBase(pc), pc + 4, value, pc);
    }
  }

  lemma AddAgrees(pc: bv32, value: bv32)
    requires Aligned(pc, true) && pc & 3 == 0
    ensures SetTarget(Plus(AddBase(pc), value), true, pc) == BranchWritePc(Plus(pc + 4, value), pc)
  {
    hide SetTarget, AddBase, Plus, Aligned;
    AlignedBase(pc);
    SetIsTaken(Plus(AddBase(pc), value), pc);
  }

  lemma AddDiffers(low: bv32, high: bv32, value: bv32, pc: bv32)
    requires high == low + 2
    ensures SetTarget(Plus(low, value), true, pc) != BranchWritePc(Plus(high, value), pc)
  {
    hide SetTarget, Plus, Taken, BranchWritePc;
    TwoApart(low, high, value);
    MaskedDiffer(Plus(low, value), Plus(high, value), pc);
  }

  lemma MaskedDiffer(x: bv32, y: bv32, pc: bv32)
    requires x & 0xffff_fffe != y & 0xffff_fffe
    ensures SetTarget(x, true, pc) != BranchWritePc(y, pc)
  {
    hide SetTarget;
    SetIsTaken(x, pc);
  }

  lemma HalfwordBase(pc: bv32)
    requires Aligned(pc, true) && pc & 3 != 0
    ensures pc + 4 == AddBase(pc) + 2
  {
  }

  /** An instance: at 0x1002 with a zero register the planner goes to 0x1004, the processor to 0x1006. */
  lemma AddPcInstance(cpsr: bv32, registers: Registers)
    requires registers(0) == 0
    ensures PlanThumb16(0x4487, 0x1002, cpsr, registers) == Target(0x1004, true)
    ensures ArchitectureAdd(0, 0x1002, registers) == Target(0x1006, true)
  {
  }

  function EncodeArmBx(condition: bv32, link: bool, rm: bv32): bv32 {
    (condition << 28) | (if link then 0x012f_ff30 else 0x012f_ff10) | (rm & 0xf)
  }

  lemma ArmBxFields(condition: bv32, link: bool, rm: bv32)
    requires condition < 0xf && rm <= 15
    ensures var w := EncodeArmBx(condition, link, rm);
      && w >> 28 == condition && w & 0x0fff_fff0 == (if link then 0x012f_ff30 else 0x012f_ff10) && w & 0xf == rm
      && w & 0xfe00_0000 != 0xfa00_0000 && w & 0x0e00_0000 != 0x0a00_0000
  {
  }

  lemma PlanOfArmBx(w: bv32, condition: bv32, rm: bv32, link: bool, pc: bv32, cpsr: bv32, registers: Registers)
    requires w >> 28 == condition < 0xf && w & 0xf == rm && w & 0x0fff_fff0 == (if link then 0x012f_ff30 else 0x012f_ff10)
    requires w & 0xfe00_0000 != 0xfa00_0000 && w & 0x0e00_0000 != 0x0a00_0000 && Aligned(pc, false)
    ensures var address := ReadArm(registers, rm, pc);
      PlanArm(w, pc, cpsr, registers) ==
        if !ConditionPassed(condition, cpsr) then SetTarget(pc + 4, false, pc)
        else if link && rm == 15 then Refused
        else SetTarget(address, address & 1 != 0, pc)
  {
    hide ConditionPassed, BranchOffset, ExchangeOffset, Plus, SetTarget, PlanDataProcessing, ReadArm;
  }

  /** A32 BX and BLX to a register. */
  lemma ArmRegisterInverts(condition: bv32, link: bool, rm: bv32, pc: bv32, cpsr: bv32, registers: Registers)
    requires condition < 0xf && rm <= 15 && Aligned(pc, false)
    ensures PlanArm(EncodeArmBx(condition, link, rm), pc, cpsr, registers) ==
      if !ConditionPassed(condition, cpsr) then Target(pc + 4, false)
      else if link && rm == 15 then Refused
      else BxWritePc(ReadArm(registers, rm, pc), pc)
  {
    hide ConditionPassed, EncodeArmBx, SetTarget, PlanArm, BxWritePc, ReadArm, Aligned;
    ArmBxFields(condition, link, rm);
    PlanOfArmBx(EncodeArmBx(condition, link, rm), condition, rm, link, pc, cpsr, registers);
    SetTargetExchanges(ReadArm(registers, rm, pc), pc);
    Bases(pc);
    FallsThrough(pc + 4, false, pc);
  }
}
