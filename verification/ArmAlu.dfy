/**
 * Data processing into the program counter, held to the architecture (DDI 0406C): the bits of a
 * shifted operand, and arithmetic as addition with carry.
 */
module ArmAlu {
  import opened ArmBits
  import opened ArmStep

  function BitAt(v: bv32, i: bv32): bv32
    requires i < 32
  {
    (v >> i) & 1
  }

  function Right(v: bv32, n: bv32): bv32
    requires n <= 32
  {
    v >> n
  }

  function Or(x: bv32, y: bv32): bv32 { x | y }

  function Not(x: bv32): bv32 { !x }

  lemma LslRaw(v: bv32, n: bv32, i: bv32)
    requires n < 32 && i < 32
    ensures ((v << n) >> i) & 1 == if i >= n then (v >> (i - n)) & 1 else 0
  {
  }

  lemma LsrRaw(v: bv32, n: bv32, i: bv32)
    requires n < 32 && i < 32
    ensures ((v >> n) >> i) & 1 == if i + n < 32 then (v >> (i + n)) & 1 else 0
  {
  }

  lemma RightStep(v: bv32, n: bv32)
    requires 0 < n < 32
    ensures Right(v, n) == Right(Right(v, n - 1), 1)
  {
  }

  lemma RightNone(v: bv32)
    ensures Right(v, 0) == v
  {
  }

  lemma OrOnce(x: bv32, y: bv32)
    ensures Right(Or(x, y), 1) == Or(Right(x, 1), Right(y, 1))
  {
  }

  lemma {:induction false} OrShifts(x: bv32, y: bv32, i: bv32)
    requires i < 32
    ensures Right(Or(x, y), i) == Or(Right(x, i), Right(y, i))
    decreases i
  {
    hide Right, Or;
    if i == 0 {
      RightNone(x);
      RightNone(y);
      RightNone(Or(x, y));
    } else {
      OrShifts(x, y, i - 1);
      RightStep(x, i);
      RightStep(y, i);
      RightStep(Or(x, y), i);
      OrOnce(Right(x, i - 1), Right(y, i - 1));
    }
  }

  lemma OrMasks(x: bv32, y: bv32)
    ensures Or(x, y) & 1 == Or(x & 1, y & 1)
  {
  }

  lemma BitIs(v: bv32, i: bv32)
    requires i < 32
    ensures BitAt(v, i) == Right(v, i) & 1
  {
  }

  lemma LslBit(v: bv32, n: bv32, i: bv32)
    requires n < 32 && i < 32
    ensures BitAt(Left(v, n), i) == if i >= n then BitAt(v, i - n) else 0
  {
    LslRaw(v, n, i);
  }

  lemma LsrBit(v: bv32, n: bv32, i: bv32)
    requires n < 32 && i < 32
    ensures BitAt(Right(v, n), i) == if i + n < 32 then BitAt(v, i + n) else 0
  {
    LsrRaw(v, n, i);
  }

  lemma OrBit(x: bv32, y: bv32, i: bv32)
    requires i < 32
    ensures BitAt(Or(x, y), i) == Or(BitAt(x, i), BitAt(y, i))
  {
    hide BitAt, Or, Right;
    OrShifts(x, y, i);
    OrMasks(Right(x, i), Right(y, i));
    BitIs(Or(x, y), i);
    BitIs(x, i);
    BitIs(y, i);
  }

  lemma OrZero(x: bv32)
    ensures Or(x, 0) == x && Or(0, x) == x
  {
  }

  lemma NotBit(x: bv32, i: bv32)
    requires i < 32
    ensures BitAt(Not(x), i) == 1 - BitAt(x, i)
  {
  }

  lemma RorParts(v: bv32, n: bv32)
    requires 0 < n < 32
    ensures RotateRight(v, n) == Or(Right(v, n), Left(v, 32 - n))
  {
  }

  lemma RorNone(v: bv32)
    ensures RotateRight(v, 0) == v
  {
  }

  lemma RorBit(v: bv32, n: bv32, i: bv32)
    requires n < 32 && i < 32
    ensures BitAt(RotateRight(v, n), i) == BitAt(v, if i + n < 32 then i + n else i + n - 32)
  {
    hide BitAt, RotateRight, Or, Right, Left;
    if n == 0 {
      RorNone(v);
    } else {
      RorParts(v, n);
      OrBit(Right(v, n), Left(v, 32 - n), i);
      LsrBit(v, n, i);
      LslBit(v, 32 - n, i);
      OrZero(BitAt(Right(v, n), i));
      OrZero(BitAt(Left(v, 32 - n), i));
    }
  }

  lemma AsrPositive(v: bv32, n: bv32)
    requires 0 < n < 32 && v & 0x8000_0000 == 0
    ensures ShiftRightArithmetic(v, n) == Right(v, n)
  {
  }

  lemma AsrNegative(v: bv32, n: bv32)
    requires 0 < n < 32 && v & 0x8000_0000 != 0
    ensures ShiftRightArithmetic(v, n) == Not(Right(Not(v), n))
  {
  }

  lemma TopBit(v: bv32)
    ensures BitAt(v, 31) == if v & 0x8000_0000 != 0 then 1 else 0
  {
  }

  lemma AsrBit(v: bv32, n: bv32, i: bv32)
    requires 0 < n < 32 && i < 32
    ensures BitAt(ShiftRightArithmetic(v, n), i) == BitAt(v, if i + n < 32 then i + n else 31)
  {
    hide BitAt, ShiftRightArithmetic, Right, Not;
    TopBit(v);
    if v & 0x8000_0000 == 0 {
      AsrPositive(v, n);
      LsrBit(v, n, i);
    } else {
      AsrNegative(v, n);
      LsrBit(Not(v), n, i);
      NotBit(Right(Not(v), n), i);
      if i + n < 32 {
        NotBit(v, i + n);
      }
    }
  }

  // ---- shifted operands (section A8.4) ----

  /** Bit `i` of `v` shifted by an immediate: 0 is LSL, 1 LSR, 2 ASR and 3 ROR. LSR and ASR by zero
      mean by 32; ROR by zero shifts by one, with the carry coming in at the top. */
  function ShiftBit(kind: bv32, v: bv32, n: bv32, carry: bv32, i: bv32): bv32
    requires kind < 4 && n < 32 && i < 32
  {
    if kind == 0 then if i >= n then BitAt(v, i - n) else 0
    else if kind == 1 then if n != 0 && i + n < 32 then BitAt(v, i + n) else 0
    else if kind == 2 then BitAt(v, if n != 0 && i + n < 32 then i + n else 31)
    else if n != 0 then BitAt(v, if i + n < 32 then i + n else i + n - 32)
    else if i == 31 then carry
    else BitAt(v, i + 1)
  }

  /** A register shifted by an immediate, as bits 11 to 0 encode it. */
  function EncodeShift(kind: bv32, n: bv32, rm: bv32): bv32
    requires kind < 4 && n < 32 && rm < 16
  {
    (n << 7) | (kind << 5) | rm
  }

  lemma ShiftFields(kind: bv32, n: bv32, rm: bv32, w: bv32)
    requires kind < 4 && n < 32 && rm < 16 && w & 0xfff == EncodeShift(kind, n, rm)
    ensures w & 0x10 == 0 && w & 0xf == rm && (w >> 5) & 3 == kind && (w >> 7) & 0x1f == n
  {
  }

  function ShiftValue(kind: bv32, v: bv32, n: bv32, carry: bv32): bv32
    requires kind < 4 && n < 32 && carry < 2
  {
    if kind == 0 then Left(v, n)
    else if kind == 1 then if n == 0 then 0 else Right(v, n)
    else if kind == 2 then ShiftRightArithmetic(v, n)
    else if n == 0 then Or(Left(carry, 31), Right(v, 1))
    else RotateRight(v, n)
  }

  lemma CarryIsBit(cpsr: bv32)
    ensures Carry(cpsr) == if cpsr & 0x2000_0000 != 0 then 1 else 0
  {
  }

  lemma ShiftedLeft(n: bv32, rm: bv32, w: bv32, pc: bv32, cpsr: bv32, registers: Registers)
    requires n < 32 && w & 0x10 == 0 && w & 0xf == rm && (w >> 5) & 3 == 0 && (w >> 7) & 0x1f == n && Carry(cpsr) < 2
    ensures ShiftedRegister(w, pc, cpsr, registers) == Operand(ShiftValue(0, ReadArm(registers, rm, pc), n, Carry(cpsr)))
  {
    hide ReadArm, ShiftRightArithmetic, RotateRight, Carry, Or, Right;
  }

  lemma ShiftedRight(n: bv32, rm: bv32, w: bv32, pc: bv32, cpsr: bv32, registers: Registers)
    requires n < 32 && w & 0x10 == 0 && w & 0xf == rm && (w >> 5) & 3 == 1 && (w >> 7) & 0x1f == n && Carry(cpsr) < 2
    ensures ShiftedRegister(w, pc, cpsr, registers) == Operand(ShiftValue(1, ReadArm(registers, rm, pc), n, Carry(cpsr)))
  {
    hide ReadArm, ShiftRightArithmetic, RotateRight, Carry, Or, Left;
  }

  lemma ShiftedOther(kind: bv32, n: bv32, rm: bv32, w: bv32, pc: bv32, cpsr: bv32, registers: Registers)
    requires 2 <= kind < 4 && n < 32 && w & 0x10 == 0 && w & 0xf == rm && (w >> 5) & 3 == kind && (w >> 7) & 0x1f == n && Carry(cpsr) < 2
    ensures ShiftedRegister(w, pc, cpsr, registers) == Operand(ShiftValue(kind, ReadArm(registers, rm, pc), n, Carry(cpsr)))
  {
    hide ReadArm, ShiftRightArithmetic, RotateRight, Carry;
  }

  lemma AsrAll(v: bv32, i: bv32)
    requires i < 32
    ensures BitAt(ShiftRightArithmetic(v, 0), i) == BitAt(v, 31)
  {
  }

  lemma RrxTop(carry: bv32, i: bv32)
    requires carry < 2 && i < 32
    ensures BitAt(Left(carry, 31), i) == if i == 31 then carry else 0
  {
  }

  lemma ZeroBit(i: bv32)
    requires i < 32
    ensures BitAt(0, i) == 0
  {
  }

  lemma ShiftValueBits(kind: bv32, v: bv32, n: bv32, carry: bv32, i: bv32)
    requires kind < 4 && n < 32 && carry < 2 && i < 32
    ensures BitAt(ShiftValue(kind, v, n, carry), i) == ShiftBit(kind, v, n, carry, i)
  {
    hide BitAt, Left, Right, Or, RotateRight, ShiftRightArithmetic;
    ZeroBit(i);
    if kind == 0 {
      LslBit(v, n, i);
    } else if kind == 1 {
      LsrBit(v, n, i);
    } else if kind == 2 {
      if n == 0 {
        AsrAll(v, i);
      } else {
        AsrBit(v, n, i);
      }
    } else if n == 0 {
      OrBit(Left(carry, 31), Right(v, 1), i);
      RrxTop(carry, i);
      LsrBit(v, 1, i);
      OrZero(carry);
      OrZero(BitAt(Right(v, 1), i));
    } else {
      RorBit(v, n, i);
    }
  }

  /** Every bit of a register operand is the one the architecture's shift puts there. */
  lemma ShiftedBits(kind: bv32, n: bv32, rm: bv32, w: bv32, pc: bv32, cpsr: bv32, registers: Registers, i: bv32)
    requires kind < 4 && n < 32 && rm < 16 && i < 32 && w & 0xfff == EncodeShift(kind, n, rm)
    ensures var r := ShiftedRegister(w, pc, cpsr, registers);
      r.Operand? && BitAt(r.value, i) ==
        ShiftBit(kind, ReadArm(registers, rm, pc), n, if cpsr & 0x2000_0000 != 0 then 1 else 0, i)
  {
    hide BitAt, ShiftedRegister, ShiftBit, ShiftValue, EncodeShift, ReadArm, Carry;
    ShiftFields(kind, n, rm, w);
    CarryIsBit(cpsr);
    if kind == 0 {
      ShiftedLeft(n, rm, w, pc, cpsr, registers);
    } else if kind == 1 {
      ShiftedRight(n, rm, w, pc, cpsr, registers);
    } else {
      ShiftedOther(kind, n, rm, w, pc, cpsr, registers);
    }
    ShiftValueBits(kind, ReadArm(registers, rm, pc), n, Carry(cpsr), i);
  }

  /** An immediate operand is its eight bits rotated right by twice the four-bit rotation. */
  lemma ImmediateBits(rotation: bv32, value: bv32, w: bv32, pc: bv32, cpsr: bv32, registers: Registers, i: bv32)
    requires rotation < 16 && value < 256 && i < 32 && w & 0x0200_0fff == 0x0200_0000 | (rotation << 8) | value
    ensures var r := Operand2(w, pc, cpsr, registers);
      r.Operand? && BitAt(r.value, i) == BitAt(value, if i + 2 * rotation < 32 then i + 2 * rotation else i + 2 * rotation - 32)
  {
    hide BitAt, ShiftedRegister, RotateRight;
    ImmediateFields(rotation, value, w);
    RorBit(value, 2 * rotation, i);
  }

  lemma ImmediateFields(rotation: bv32, value: bv32, w: bv32)
    requires rotation < 16 && value < 256 && w & 0x0200_0fff == 0x0200_0000 | (rotation << 8) | value
    ensures w & 0x0200_0000 != 0 && w & 0xff == value && ((w >> 8) & 0xf) << 1 == 2 * rotation && 2 * rotation < 32
  {
  }

  // ---- arithmetic (section A2.2.1) ----

  datatype Op = AndOp | EorOp | SubOp | RsbOp | AddOp | AdcOp | SbcOp | RscOp | OrrOp | MovOp | BicOp | MvnOp

  function OpCode(op: Op): bv32 {
    match op
    case AndOp => 0 case EorOp => 1 case SubOp => 2 case RsbOp => 3 case AddOp => 4 case AdcOp => 5
    case SbcOp => 6 case RscOp => 7 case OrrOp => 12 case MovOp => 13 case BicOp => 14 case MvnOp => 15
  }

  function AddWithCarry(x: bv32, y: bv32, carry: bv32): bv32 {
    x + y + carry
  }

  /** Subtraction is the addition of the complement. */
  function AddComplement(x: bv32, y: bv32, carry: bv32): bv32 {
    x + (0xffff_ffff - y) + carry
  }

  lemma ComplementIsNot(y: bv32)
    ensures 0xffff_ffff - y == !y
  {
  }

  /** The architecture's arithmetic: a plain difference has carry one, the others the flag. */
  function Compute(op: Op, rn: bv32, operand: bv32, carry: bv32): bv32 {
    match op
    case AndOp => rn & operand
    case EorOp => rn ^ operand
    case SubOp => AddComplement(rn, operand, 1)
    case RsbOp => AddComplement(operand, rn, 1)
    case AddOp => rn + operand
    case AdcOp => AddWithCarry(rn, operand, carry)
    case SbcOp => AddComplement(rn, operand, carry)
    case RscOp => AddComplement(operand, rn, carry)
    case OrrOp => rn | operand
    case MovOp => operand
    case BicOp => rn & !operand
    case MvnOp => !operand
  }

  lemma AluAnd(x: bv32, y: bv32, carry: bv32)
    ensures Alu(0, x, y, carry) == Operand(x & y)
  {
  }

  lemma AluEor(x: bv32, y: bv32, carry: bv32)
    ensures Alu(1, x, y, carry) == Operand(x ^ y)
  {
  }

  lemma SumSub(x: bv32, y: bv32, carry: bv32)
    ensures Sum(2, x, y, carry) == AddComplement(x, y, 1)
  {
  }

  lemma SumRsb(x: bv32, y: bv32, carry: bv32)
    ensures Sum(3, x, y, carry) == AddComplement(y, x, 1)
  {
  }

  lemma SumAdd(x: bv32, y: bv32, carry: bv32)
    ensures Sum(4, x, y, carry) == x + y
  {
  }

  lemma SumAdc(x: bv32, y: bv32, carry: bv32)
    ensures Sum(5, x, y, carry) == AddWithCarry(x, y, carry)
  {
  }

  lemma SumSbc(x: bv32, y: bv32, carry: bv32)
    ensures Sum(6, x, y, carry) == AddComplement(x, y, carry)
  {
  }

  lemma SumRsc(x: bv32, y: bv32, carry: bv32)
    ensures Sum(7, x, y, carry) == AddComplement(y, x, carry)
  {
  }

  lemma AluOrr(x: bv32, y: bv32, carry: bv32)
    ensures Alu(12, x, y, carry) == Operand(x | y)
  {
  }

  lemma AluMov(x: bv32, y: bv32, carry: bv32)
    ensures Alu(13, x, y, carry) == Operand(y)
  {
  }

  lemma AluBic(x: bv32, y: bv32, carry: bv32)
    ensures Alu(14, x, y, carry) == Operand(x & !y)
  {
  }

  lemma AluMvn(x: bv32, y: bv32, carry: bv32)
    ensures Alu(15, x, y, carry) == Operand(!y)
  {
  }

  lemma AluSums(opcode: bv32, x: bv32, y: bv32, carry: bv32)
    requires 2 <= opcode <= 7
    ensures Alu(opcode, x, y, carry) == Operand(Sum(opcode, x, y, carry))
  {
    hide Sum;
  }

  /** The planner's arithmetic is the architecture's. */
  lemma AluComputes(op: Op, rn: bv32, operand: bv32, carry: bv32)
    ensures Alu(OpCode(op), rn, operand, carry) == Operand(Compute(op, rn, operand, carry))
  {
    hide Alu, Sum, AddWithCarry, AddComplement;
    if 2 <= OpCode(op) <= 7 {
      AluSums(OpCode(op), rn, operand, carry);
    }
    match op
    case AndOp => AluAnd(rn, operand, carry);
    case EorOp => AluEor(rn, operand, carry);
    case SubOp => SumSub(rn, operand, carry);
    case RsbOp => SumRsb(rn, operand, carry);
    case AddOp => SumAdd(rn, operand, carry);
    case AdcOp => SumAdc(rn, operand, carry);
    case SbcOp => SumSbc(rn, operand, carry);
    case RscOp => SumRsc(rn, operand, carry);
    case OrrOp => AluOrr(rn, operand, carry);
    case MovOp => AluMov(rn, operand, carry);
    case BicOp => AluBic(rn, operand, carry);
    case MvnOp => AluMvn(rn, operand, carry);
  }

  // ---- the instructions (section A5.2) ----

  /** An immediate operand, or a register shifted by an immediate. */
  predicate PlainShifter(shifter: bv32) {
    shifter & 0xfdff_f000 == 0 && (shifter & 0x0200_0000 != 0 || shifter & 0x10 == 0)
  }

  /** Data processing into R15, flags left alone; `shifter` is the immediate bit and bits 11 to 0. */
  function EncodeData(condition: bv32, opcode: bv32, rn: bv32, shifter: bv32): bv32
    requires condition < 0xf && opcode < 16 && rn < 16 && PlainShifter(shifter)
  {
    (condition << 28) | (opcode << 21) | (rn << 16) | 0xf000 | shifter
  }

  lemma DataFields(condition: bv32, opcode: bv32, rn: bv32, shifter: bv32)
    requires condition < 0xf && opcode < 16 && rn < 16 && PlainShifter(shifter)
    ensures var w := EncodeData(condition, opcode, rn, shifter);
      && w >> 28 == condition && (w >> 21) & 0xf == opcode && (w >> 16) & 0xf == rn
      && w & 0xf000 == 0xf000 && w & 0x0010_0000 == 0 && w & 0x0200_0fff == shifter
  {
  }

  lemma DataClass(condition: bv32, opcode: bv32, rn: bv32, shifter: bv32)
    requires condition < 0xf && opcode < 16 && rn < 16 && PlainShifter(shifter)
    ensures var w := EncodeData(condition, opcode, rn, shifter);
      && w & 0xfe00_0000 != 0xfa00_0000 && w & 0x0e00_0000 != 0x0a00_0000
      && ((w >> 25) & 7 == 1 || ((w >> 25) & 7 == 0 && w & 0x10 == 0))
  {
  }

  lemma OpCodes(op: Op)
    ensures OpCode(op) < 16 && !(8 <= OpCode(op) <= 11)
  {
  }

  lemma PlainMove(condition: bv32, opcode: bv32, rn: bv32, shifter: bv32)
    requires condition < 0xf && opcode < 16 && rn < 16 && PlainShifter(shifter)
    requires EncodeData(condition, opcode, rn, shifter) & 0x0fff_fff0 == 0x01a0_f000
    ensures opcode == 13 && shifter < 16
  {
  }

  lemma PlanOfData(w: bv32, condition: bv32, opcode: bv32, rn: bv32, pc: bv32, cpsr: bv32, registers: Registers)
    requires w >> 28 == condition && condition < 0xf && (w >> 21) & 0xf == opcode && (w >> 16) & 0xf == rn && !(8 <= opcode <= 11)
    requires w & 0xf000 == 0xf000 && w & 0x0010_0000 == 0 && ((w >> 25) & 7 == 1 || ((w >> 25) & 7 == 0 && w & 0x10 == 0))
    requires Operand2(w, pc, cpsr, registers).Operand?
    ensures PlanDataProcessing(w, pc, cpsr, registers) ==
      if !ConditionPassed(condition, cpsr) then SetTarget(pc + 4, false, pc)
      else
        var result := Alu(opcode, ReadArm(registers, rn, pc), Operand2(w, pc, cpsr, registers).value, Carry(cpsr));
        if result.NoOperand? then NotBranch else SetTarget(result.value, result.value & 1 != 0, pc)
  {
    hide ConditionPassed, Operand2, Alu, ReadArm, Carry, SetTarget;
  }

  /** No branch, and not the plain MOV. */
  predicate DataWord(w: bv32) {
    && w & 0xfe00_0000 != 0xfa00_0000 && w & 0x0e00_0000 != 0x0a00_0000
    && w & 0x0fff_fff0 != 0x012f_ff10 && w & 0x0fff_fff0 != 0x012f_ff30 && w & 0x0fff_fff0 != 0x01a0_f000
  }

  lemma IsDataWord(condition: bv32, opcode: bv32, rn: bv32, shifter: bv32)
    requires condition < 0xf && opcode < 16 && rn < 16 && PlainShifter(shifter) && !(8 <= opcode <= 11)
    requires EncodeData(condition, opcode, rn, shifter) & 0x0fff_fff0 != 0x01a0_f000
    ensures DataWord(EncodeData(condition, opcode, rn, shifter))
  {
  }

  lemma PlanIsData(w: bv32, pc: bv32, cpsr: bv32, registers: Registers)
    requires Aligned(pc, false) && DataWord(w)
    ensures PlanArm(w, pc, cpsr, registers) == PlanDataProcessing(w, pc, cpsr, registers)
  {
    hide ConditionPassed, PlanDataProcessing, BranchOffset, ExchangeOffset, Plus, SetTarget, ReadArm;
  }

  lemma PlanOfMove(w: bv32, pc: bv32, cpsr: bv32, registers: Registers)
    requires Aligned(pc, false) && w & 0x0fff_fff0 == 0x01a0_f000 && w >> 28 < 0xf
    ensures PlanArm(w, pc, cpsr, registers) ==
      if !ConditionPassed(w >> 28, cpsr) then SetTarget(pc + 4, false, pc)
      else SetTarget(ReadArm(registers, w & 0xf, pc), ReadArm(registers, w & 0xf, pc) & 1 != 0, pc)
  {
    hide ConditionPassed, PlanDataProcessing, BranchOffset, ExchangeOffset, Plus, SetTarget, ReadArm;
    MoveClass(w);
  }

  lemma MoveClass(w: bv32)
    requires w & 0x0fff_fff0 == 0x01a0_f000
    ensures w & 0xfe00_0000 != 0xfa00_0000 && w & 0x0e00_0000 != 0x0a00_0000 && w & 0x0200_0000 == 0
  {
  }

  lemma OperandDefined(w: bv32, pc: bv32, cpsr: bv32, registers: Registers)
    requires PlainShifter(w & 0x0200_0fff)
    ensures Operand2(w, pc, cpsr, registers).Operand?
  {
    hide RotateRight, ShiftRightArithmetic, ReadArm, Carry;
    ShifterBits(w);
  }

  lemma ShifterBits(w: bv32)
    requires PlainShifter(w & 0x0200_0fff)
    ensures w & 0x0200_0000 != 0 || w & 0x10 == 0
  {
  }

  /** An unshifted register is its own operand. */
  lemma PlainOperand(w: bv32, pc: bv32, cpsr: bv32, registers: Registers)
    requires w & 0x0200_0fff < 16
    ensures Operand2(w, pc, cpsr, registers) == Operand(ReadArm(registers, w & 0xf, pc))
  {
    hide RotateRight, ShiftRightArithmetic, ReadArm, Carry;
    PlainFields(w);
  }

  lemma PlainFields(w: bv32)
    requires w & 0x0200_0fff < 16
    ensures w & 0x0200_0000 == 0 && w & 0x10 == 0 && (w >> 5) & 3 == 0 && (w >> 7) & 0x1f == 0
  {
  }

  /** Where the planner sends a data-processing word, in its own terms. */
  predicate PlansAlu(w: bv32, condition: bv32, opcode: bv32, rn: bv32, pc: bv32, cpsr: bv32, registers: Registers) {
    && Operand2(w, pc, cpsr, registers).Operand?
    && PlanArm(w, pc, cpsr, registers) ==
         if !ConditionPassed(condition, cpsr) then SetTarget(pc + 4, false, pc)
         else
           var result := Alu(opcode, ReadArm(registers, rn, pc), Operand2(w, pc, cpsr, registers).value, Carry(cpsr));
           if result.NoOperand? then NotBranch else SetTarget(result.value, result.value & 1 != 0, pc)
  }

  lemma MovePlans(w: bv32, rn: bv32, pc: bv32, cpsr: bv32, registers: Registers)
    requires Aligned(pc, false) && w & 0x0fff_fff0 == 0x01a0_f000 && w >> 28 < 0xf && w & 0x0200_0fff < 16
    ensures PlansAlu(w, w >> 28, 13, rn, pc, cpsr, registers)
  {
    hide ConditionPassed, Operand2, Alu, ReadArm, Carry, SetTarget, PlanArm, Aligned;
    PlanOfMove(w, pc, cpsr, registers);
    PlainOperand(w, pc, cpsr, registers);
    AluMov(ReadArm(registers, rn, pc), ReadArm(registers, w & 0xf, pc), Carry(cpsr));
  }

  lemma OtherOperand(condition: bv32, opcode: bv32, rn: bv32, shifter: bv32, pc: bv32, cpsr: bv32, registers: Registers)
    requires condition < 0xf && opcode < 16 && rn < 16 && PlainShifter(shifter)
    ensures Operand2(EncodeData(condition, opcode, rn, shifter), pc, cpsr, registers).Operand?
  {
    hide EncodeData, Operand2, PlainShifter;
    DataFields(condition, opcode, rn, shifter);
    OperandDefined(EncodeData(condition, opcode, rn, shifter), pc, cpsr, registers);
  }

  lemma OtherPlans(condition: bv32, opcode: bv32, rn: bv32, shifter: bv32, pc: bv32, cpsr: bv32, registers: Registers)
    requires condition < 0xf && opcode < 16 && !(8 <= opcode <= 11) && rn < 16 && PlainShifter(shifter) && Aligned(pc, false)
    requires EncodeData(condition, opcode, rn, shifter) & 0x0fff_fff0 != 0x01a0_f000
    ensures PlansAlu(EncodeData(condition, opcode, rn, shifter), condition, opcode, rn, pc, cpsr, registers)
  {
    hide ConditionPassed, EncodeData, Operand2, Alu, ReadArm, Carry, SetTarget, PlanArm, PlanDataProcessing, PlainShifter, Aligned, DataWord;
    IsDataWord(condition, opcode, rn, shifter);
    PlanIsData(EncodeData(condition, opcode, rn, shifter), pc, cpsr, registers);
    OtherOperand(condition, opcode, rn, shifter, pc, cpsr, registers);
    DataFields(condition, opcode, rn, shifter);
    DataClass(condition, opcode, rn, shifter);
    PlanOfData(EncodeData(condition, opcode, rn, shifter), condition, opcode, rn, pc, cpsr, registers);
  }

  lemma DataPlan(condition: bv32, opcode: bv32, rn: bv32, shifter: bv32, pc: bv32, cpsr: bv32, registers: Registers)
    requires condition < 0xf && opcode < 16 && !(8 <= opcode <= 11) && rn < 16 && PlainShifter(shifter) && Aligned(pc, false)
    ensures PlansAlu(EncodeData(condition, opcode, rn, shifter), condition, opcode, rn, pc, cpsr, registers)
  {
    hide EncodeData, PlansAlu, PlainShifter, Aligned;
    var w := EncodeData(condition, opcode, rn, shifter);
    if w & 0x0fff_fff0 == 0x01a0_f000 {
      DataFields(condition, opcode, rn, shifter);
      PlainMove(condition, opcode, rn, shifter);
      MovePlans(w, rn, pc, cpsr, registers);
    } else {
      OtherPlans(condition, opcode, rn, shifter, pc, cpsr, registers);
    }
  }

  /** Every data-processing instruction into R15 that leaves the flags alone goes where the
      architecture's result says, by BXWritePC. */
  lemma DataInverts(condition: bv32, op: Op, rn: bv32, shifter: bv32, pc: bv32, cpsr: bv32, registers: Registers)
    requires condition < 0xf && rn < 16 && PlainShifter(shifter) && Aligned(pc, false)
    ensures OpCode(op) < 16
    ensures var w := EncodeData(condition, OpCode(op), rn, shifter);
      var operand := Operand2(w, pc, cpsr, registers);
      && operand.Operand?
      && PlanArm(w, pc, cpsr, registers) ==
           if !ConditionPassed(condition, cpsr) then Target(pc + 4, false)
           else BxWritePc(Compute(op, ReadArm(registers, rn, pc), operand.value, Carry(cpsr)), pc)
  {
    hide ConditionPassed, EncodeData, Operand2, Alu, ReadArm, Carry, SetTarget, PlanArm, BxWritePc, Compute, PlainShifter, Aligned, OpCode;
    OpCodes(op);
    DataPlan(condition, OpCode(op), rn, shifter, pc, cpsr, registers);
    var operand := Operand2(EncodeData(condition, OpCode(op), rn, shifter), pc, cpsr, registers).value;
    AluComputes(op, ReadArm(registers, rn, pc), operand, Carry(cpsr));
    SetTargetExchanges(Compute(op, ReadArm(registers, rn, pc), operand, Carry(cpsr)), pc);
    Bases(pc);
    FallsThrough(pc + 4, false, pc);
  }
}
