/**
 * Stepping over a load-exclusive/store-exclusive sequence (DDI 0406C, section A3.4): a trap inside
 * the sequence would clear the monitor, so a bounded scan looks for the first address after it.
 */
module ExclusiveStep {
  import opened ArmBits
  import opened Bytes

  const MAX_INSTRUCTIONS: nat := 64
  const MAX_BYTES: nat := 256
  const ADDRESSES: nat := 0x1_0000_0000

  datatype Family = NoFamily | Word | Single | Half | Double
  datatype Kind = Other | Load | Store | Clear

  /** A decoded instruction. `plain` falls through without waiting or guarding what follows. */
  datatype Insn = Insn(size: nat, kind: Kind, family: Family, base: bv32, condition: bv32, valid: bool, plain: bool, writesPc: bool)

  // ---- decoding ----

  function ArmFamily(shape: bv32): Family {
    if shape & 0x0060_0000 == 0 then Word else if shape & 0x0060_0000 == 0x0040_0000 then Single
    else if shape & 0x0060_0000 == 0x0060_0000 then Half else Double
  }

  predicate IsArmLoad(w: bv32) {
    w & 0x0f90_0fff == 0x0190_0f9f
  }

  predicate IsArmStore(w: bv32) {
    w & 0x0f90_0ff0 == 0x0180_0f90
  }

  function DecodeArm(w: bv32): Insn {
    var condition, rn, rt, data := w >> 28, (w >> 16) & 0xf, (w >> 12) & 0xf, w & 0xf;
    var writes := ArmWritesPc(w);
    if w == 0xf57f_f01f then Insn(4, Clear, NoFamily, 0, condition, true, false, writes)
    else if IsArmLoad(w) then
      var family := ArmFamily(w);
      var valid := condition != 0xf && rn != 15 && rt != 15 && (family != Double || (rt & 1 == 0 && rt != 14));
      Insn(4, Load, family, rn, condition, valid, false, writes)
    else if IsArmStore(w) then
      var family := ArmFamily(w);
      var valid := condition != 0xf && rn != 15 && rt != 15 && data != 15 && rt != rn && rt != data;
      var pair := data & 1 == 0 && data != 14 && rt != data + 1;
      Insn(4, Store, family, rn, condition, valid && (family != Double || pair), false, writes)
    else Insn(4, Other, NoFamily, 0, condition, false, !writes && !ArmMayBlock(w), writes)
  }

  /** The four load shapes and the four store shapes, spelled out one by one. */
  lemma ArmShapes(w: bv32)
    ensures IsArmLoad(w) <==> w & 0x0ff0_0fff == 0x0190_0f9f || w & 0x0ff0_0fff == 0x01d0_0f9f || w & 0x0ff0_0fff == 0x01f0_0f9f || w & 0x0ff0_0fff == 0x01b0_0f9f
    ensures IsArmStore(w) <==> w & 0x0ff0_0ff0 == 0x0180_0f90 || w & 0x0ff0_0ff0 == 0x01c0_0f90 || w & 0x0ff0_0ff0 == 0x01e0_0f90 || w & 0x0ff0_0ff0 == 0x01a0_0f90
  {
  }

  /** A load or store of the monitor, decoded: it falls through and is no plain instruction. */
  predicate Exclusive(i: Insn, kind: Kind, family: Family, base: bv32, condition: bv32, valid: bool) {
    i == Insn(4, kind, family, base, condition, valid, false, false)
  }

  lemma ArmLoadWord(condition: bv32, rn: bv32, rt: bv32)
    requires condition < 16 && rn < 16 && rt < 16
    ensures Exclusive(DecodeArm((condition << 28) | (rn << 16) | (rt << 12) | 0x0190_0f9f), Load, Word, rn, condition,
                      condition != 15 && rn != 15 && rt != 15)
  {
  }

  lemma ArmLoadByte(condition: bv32, rn: bv32, rt: bv32)
    requires condition < 16 && rn < 16 && rt < 16
    ensures Exclusive(DecodeArm((condition << 28) | (rn << 16) | (rt << 12) | 0x01d0_0f9f), Load, Single, rn, condition,
                      condition != 15 && rn != 15 && rt != 15)
  {
  }

  lemma ArmLoadHalf(condition: bv32, rn: bv32, rt: bv32)
    requires condition < 16 && rn < 16 && rt < 16
    ensures Exclusive(DecodeArm((condition << 28) | (rn << 16) | (rt << 12) | 0x01f0_0f9f), Load, Half, rn, condition,
                      condition != 15 && rn != 15 && rt != 15)
  {
  }

  lemma ArmLoadDouble(condition: bv32, rn: bv32, rt: bv32)
    requires condition < 16 && rn < 16 && rt < 16
    ensures Exclusive(DecodeArm((condition << 28) | (rn << 16) | (rt << 12) | 0x01b0_0f9f), Load, Double, rn, condition,
                      condition != 15 && rn != 15 && rt != 15 && rt & 1 == 0 && rt != 14)
  {
  }

  /** LDREX, LDREXB, LDREXH and LDREXD (DDI 0406C, sections A8.8.75 to A8.8.78). The program counter
      is no operand, and a pair starts at an even register below the link register. */
  lemma ArmLoadsDecode(condition: bv32, rn: bv32, rt: bv32)
    requires condition < 16 && rn < 16 && rt < 16
    ensures var fields := (condition << 28) | (rn << 16) | (rt << 12);
      var valid := condition != 15 && rn != 15 && rt != 15;
      && Exclusive(DecodeArm(fields | 0x0190_0f9f), Load, Word, rn, condition, valid)
      && Exclusive(DecodeArm(fields | 0x01d0_0f9f), Load, Single, rn, condition, valid)
      && Exclusive(DecodeArm(fields | 0x01f0_0f9f), Load, Half, rn, condition, valid)
      && Exclusive(DecodeArm(fields | 0x01b0_0f9f), Load, Double, rn, condition, valid && rt & 1 == 0 && rt != 14)
  {
    hide DecodeArm, Exclusive;
    ArmLoadWord(condition, rn, rt);
    ArmLoadByte(condition, rn, rt);
    ArmLoadHalf(condition, rn, rt);
    ArmLoadDouble(condition, rn, rt);
  }

  /** The parts of a store of the monitor. */
  predicate StoreWord(w: bv32, condition: bv32, rn: bv32, rd: bv32, rt: bv32, shape: bv32) {
    && w >> 28 == condition && (w >> 16) & 0xf == rn && (w >> 12) & 0xf == rd && w & 0xf == rt && w & 0x0ff0_0ff0 == shape
  }

  lemma ArmStoreParts(condition: bv32, rn: bv32, rd: bv32, rt: bv32, shape: bv32)
    requires condition < 16 && rn < 16 && rd < 16 && rt < 16 && shape & 0xf00f_f00f == 0
    ensures StoreWord((condition << 28) | (rn << 16) | (rd << 12) | rt | shape, condition, rn, rd, rt, shape & 0x0ff0_0ff0)
  {
  }

  lemma StoreFallsThrough(w: bv32)
    requires w & 0x0f90_0ff0 == 0x0180_0f90
    ensures !ArmWritesPc(w) && w != 0xf57f_f01f && !IsArmLoad(w) && IsArmStore(w)
  {
  }

  lemma StoreFamily(w: bv32)
    requires w & 0x0f90_0ff0 == 0x0180_0f90
    ensures ArmFamily(w) == if w & 0x0ff0_0ff0 == 0x0180_0f90 then Word else if w & 0x0ff0_0ff0 == 0x01c0_0f90 then Single
      else if w & 0x0ff0_0ff0 == 0x01e0_0f90 then Half else Double
  {
  }

  lemma StoreShape(w: bv32)
    requires w & 0x0ff0_0ff0 == 0x0180_0f90 || w & 0x0ff0_0ff0 == 0x01c0_0f90 || w & 0x0ff0_0ff0 == 0x01e0_0f90 || w & 0x0ff0_0ff0 == 0x01a0_0f90
    ensures w & 0x0f90_0ff0 == 0x0180_0f90
  {
  }

  lemma ArmStoreDecodes(w: bv32, condition: bv32, rn: bv32, rd: bv32, rt: bv32, shape: bv32, family: Family)
    requires StoreWord(w, condition, rn, rd, rt, shape)
    requires (shape == 0x0180_0f90 && family == Word) || (shape == 0x01c0_0f90 && family == Single) ||
             (shape == 0x01e0_0f90 && family == Half) || (shape == 0x01a0_0f90 && family == Double)
    ensures Exclusive(DecodeArm(w), Store, family, rn, condition,
                      condition != 15 && rn != 15 && rd != 15 && rt != 15 && rd != rn && rd != rt &&
                      (family == Double ==> rt & 1 == 0 && rt != 14 && rd != rt + 1))
  {
    hide ArmWritesPc, ArmFamily, IsArmLoad, IsArmStore;
    StoreShape(w);
    StoreFallsThrough(w);
    StoreFamily(w);
  }

  lemma ArmStoreWord(condition: bv32, rn: bv32, rd: bv32, rt: bv32)
    requires condition < 16 && rn < 16 && rd < 16 && rt < 16
    ensures Exclusive(DecodeArm((condition << 28) | (rn << 16) | (rd << 12) | rt | 0x0180_0f90), Store, Word, rn, condition,
                      condition != 15 && rn != 15 && rd != 15 && rt != 15 && rd != rn && rd != rt)
  {
    hide DecodeArm, StoreWord;
    ArmStoreParts(condition, rn, rd, rt, 0x0180_0f90);
    ArmStoreDecodes((condition << 28) | (rn << 16) | (rd << 12) | rt | 0x0180_0f90, condition, rn, rd, rt, 0x0180_0f90, Word);
  }

  lemma ArmStoreByte(condition: bv32, rn: bv32, rd: bv32, rt: bv32)
    requires condition < 16 && rn < 16 && rd < 16 && rt < 16
    ensures Exclusive(DecodeArm((condition << 28) | (rn << 16) | (rd << 12) | rt | 0x01c0_0f90), Store, Single, rn, condition,
                      condition != 15 && rn != 15 && rd != 15 && rt != 15 && rd != rn && rd != rt)
  {
    hide DecodeArm, StoreWord;
    ArmStoreParts(condition, rn, rd, rt, 0x01c0_0f90);
    ArmStoreDecodes((condition << 28) | (rn << 16) | (rd << 12) | rt | 0x01c0_0f90, condition, rn, rd, rt, 0x01c0_0f90, Single);
  }

  lemma ArmStoreHalf(condition: bv32, rn: bv32, rd: bv32, rt: bv32)
    requires condition < 16 && rn < 16 && rd < 16 && rt < 16
    ensures Exclusive(DecodeArm((condition << 28) | (rn << 16) | (rd << 12) | rt | 0x01e0_0f90), Store, Half, rn, condition,
                      condition != 15 && rn != 15 && rd != 15 && rt != 15 && rd != rn && rd != rt)
  {
    hide DecodeArm, StoreWord;
    ArmStoreParts(condition, rn, rd, rt, 0x01e0_0f90);
    ArmStoreDecodes((condition << 28) | (rn << 16) | (rd << 12) | rt | 0x01e0_0f90, condition, rn, rd, rt, 0x01e0_0f90, Half);
  }

  lemma ArmStoreDouble(condition: bv32, rn: bv32, rd: bv32, rt: bv32)
    requires condition < 16 && rn < 16 && rd < 16 && rt < 16
    ensures Exclusive(DecodeArm((condition << 28) | (rn << 16) | (rd << 12) | rt | 0x01a0_0f90), Store, Double, rn, condition,
                      condition != 15 && rn != 15 && rd != 15 && rt != 15 && rd != rn && rd != rt && rt & 1 == 0 && rt != 14 && rd != rt + 1)
  {
    hide DecodeArm, StoreWord;
    ArmStoreParts(condition, rn, rd, rt, 0x01a0_0f90);
    ArmStoreDecodes((condition << 28) | (rn << 16) | (rd << 12) | rt | 0x01a0_0f90, condition, rn, rd, rt, 0x01a0_0f90, Double);
  }

  /** STREX, STREXB, STREXH and STREXD (sections A8.8.212 to A8.8.215). The status register is
      neither the base nor part of the data. */
  lemma ArmStoresDecode(condition: bv32, rn: bv32, rd: bv32, rt: bv32)
    requires condition < 16 && rn < 16 && rd < 16 && rt < 16
    ensures var fields := (condition << 28) | (rn << 16) | (rd << 12) | rt;
      var valid := condition != 15 && rn != 15 && rd != 15 && rt != 15 && rd != rn && rd != rt;
      && Exclusive(DecodeArm(fields | 0x0180_0f90), Store, Word, rn, condition, valid)
      && Exclusive(DecodeArm(fields | 0x01c0_0f90), Store, Single, rn, condition, valid)
      && Exclusive(DecodeArm(fields | 0x01e0_0f90), Store, Half, rn, condition, valid)
      && Exclusive(DecodeArm(fields | 0x01a0_0f90), Store, Double, rn, condition, valid && rt & 1 == 0 && rt != 14 && rd != rt + 1)
  {
    hide DecodeArm, Exclusive;
    ArmStoreWord(condition, rn, rd, rt);
    ArmStoreByte(condition, rn, rd, rt);
    ArmStoreHalf(condition, rn, rd, rt);
    ArmStoreDouble(condition, rn, rd, rt);
  }

  function Widen(h: bv16): bv32 {
    h as bv32
  }

  predicate IsIt(first: bv16) {
    first & 0xff00 == 0xbf00 && first & 0xf != 0
  }

  function Thumb16(first: bv16): Insn {
    var writes := Thumb16WritesPc(first);
    Insn(2, Other, NoFamily, 0, 0xe, false, !IsIt(first) && !writes && !ThumbMayBlock(first, 0), writes)
  }

  /** The family of the byte, halfword and doubleword forms, by the low bits of the second half. */
  function NarrowFamily(second: bv16, load: bool): Family {
    if second & 0x0ff0 == 0x0f40 && (!load || second & 0xf == 0xf) then Single
    else if second & 0x0ff0 == 0x0f50 && (!load || second & 0xf == 0xf) then Half
    else if second & 0x00f0 == 0x0070 && (!load || second & 0xf == 0xf) then Double
    else NoFamily
  }

  function Thumb32(first: bv16, second: bv16): Insn {
    var rn, rt, high, low := first & 0xf, second >> 12, (second >> 8) & 0xf, second & 0xf;
    var base, writes := Widen(first & 0xf), Thumb32WritesPc(first, second);
    var other := Insn(4, Other, NoFamily, 0, 0xe, false, !IsIt(first) && !writes && !ThumbMayBlock(first, second), writes);
    var transfer := rn != 15 && rt != 13 && rt != 15;
    if first == 0xf3bf && second == 0x8f2f then Insn(4, Clear, NoFamily, 0, 0xe, true, false, writes)
    else if first & 0xfff0 == 0xe850 && second & 0x0f00 == 0x0f00 then Insn(4, Load, Word, base, 0xe, transfer, false, writes)
    else if first & 0xfff0 == 0xe8d0 then
      var family := NarrowFamily(second, true);
      if family == NoFamily then other
      else Insn(4, Load, family, base, 0xe, transfer && (family != Double || (high != 13 && high != 15 && rt != high)), false, writes)
    else if first & 0xfff0 == 0xe840 then
      Insn(4, Store, Word, base, 0xe, transfer && high != 13 && high != 15 && high != rn && high != rt, false, writes)
    else if first & 0xfff0 == 0xe8c0 then
      var family := NarrowFamily(second, false);
      if family == NoFamily then other
      else
        var valid := transfer && low != 13 && low != 15 && low != rn && low != rt;
        Insn(4, Store, family, base, 0xe, valid && (family != Double || (high != 13 && high != 15 && rt != high && low != high)), false, writes)
    else other
  }

  /** The Thumb loads: a word form with an offset, and byte, halfword and doubleword forms. */
  lemma ThumbLoadsDecode(rn: bv16, rt: bv16, rt2: bv16, offset: bv16)
    requires rn < 16 && rt < 16 && rt2 < 16 && offset < 256
    ensures var valid := rn != 15 && rt != 13 && rt != 15;
      && Exclusive(Thumb32(0xe850 | rn, (rt << 12) | 0x0f00 | offset), Load, Word, Widen(rn), 0xe, valid)
      && Exclusive(Thumb32(0xe8d0 | rn, (rt << 12) | 0x0f4f), Load, Single, Widen(rn), 0xe, valid)
      && Exclusive(Thumb32(0xe8d0 | rn, (rt << 12) | 0x0f5f), Load, Half, Widen(rn), 0xe, valid)
      && Exclusive(Thumb32(0xe8d0 | rn, (rt << 12) | (rt2 << 8) | 0x007f), Load, Double, Widen(rn), 0xe,
                   valid && rt2 != 13 && rt2 != 15 && rt != rt2)
  {
    hide Widen;
  }

  lemma ThumbStoreWord(rn: bv16, rt: bv16, rd: bv16, offset: bv16)
    requires rn < 16 && rt < 16 && rd < 16 && offset < 256
    ensures Exclusive(Thumb32(0xe840 | rn, (rt << 12) | (rd << 8) | offset), Store, Word, Widen(rn), 0xe,
                      rn != 15 && rt != 13 && rt != 15 && rd != 13 && rd != 15 && rd != rn && rd != rt)
  {
    hide Widen, ThumbMayBlock, IsIt;
  }

  lemma ThumbStoreByte(rn: bv16, rt: bv16, rd: bv16)
    requires rn < 16 && rt < 16 && rd < 16
    ensures Exclusive(Thumb32(0xe8c0 | rn, (rt << 12) | 0x0f40 | rd), Store, Single, Widen(rn), 0xe,
                      rn != 15 && rt != 13 && rt != 15 && rd != 13 && rd != 15 && rd != rn && rd != rt)
  {
    hide Widen, ThumbMayBlock, IsIt;
  }

  lemma ThumbStoreHalf(rn: bv16, rt: bv16, rd: bv16)
    requires rn < 16 && rt < 16 && rd < 16
    ensures Exclusive(Thumb32(0xe8c0 | rn, (rt << 12) | 0x0f50 | rd), Store, Half, Widen(rn), 0xe,
                      rn != 15 && rt != 13 && rt != 15 && rd != 13 && rd != 15 && rd != rn && rd != rt)
  {
    hide Widen, ThumbMayBlock, IsIt;
  }

  lemma ThumbStoreDouble(rn: bv16, rt: bv16, rd: bv16, rt2: bv16)
    requires rn < 16 && rt < 16 && rd < 16 && rt2 < 16
    ensures Exclusive(Thumb32(0xe8c0 | rn, (rt << 12) | (rt2 << 8) | 0x0070 | rd), Store, Double, Widen(rn), 0xe,
                      rn != 15 && rt != 13 && rt != 15 && rd != 13 && rd != 15 && rd != rn && rd != rt && rt2 != 13 && rt2 != 15 && rt != rt2 && rd != rt2)
  {
    hide Widen, ThumbMayBlock, IsIt;
  }

  lemma ThumbStoresDecode(rn: bv16, rt: bv16, rt2: bv16, rd: bv16, offset: bv16)
    requires rn < 16 && rt < 16 && rt2 < 16 && rd < 16 && offset < 256
    ensures var valid := rn != 15 && rt != 13 && rt != 15 && rd != 13 && rd != 15 && rd != rn && rd != rt;
      && Exclusive(Thumb32(0xe840 | rn, (rt << 12) | (rd << 8) | offset), Store, Word, Widen(rn), 0xe, valid)
      && Exclusive(Thumb32(0xe8c0 | rn, (rt << 12) | 0x0f40 | rd), Store, Single, Widen(rn), 0xe, valid)
      && Exclusive(Thumb32(0xe8c0 | rn, (rt << 12) | 0x0f50 | rd), Store, Half, Widen(rn), 0xe, valid)
      && Exclusive(Thumb32(0xe8c0 | rn, (rt << 12) | (rt2 << 8) | 0x0070 | rd), Store, Double, Widen(rn), 0xe,
                   valid && rt2 != 13 && rt2 != 15 && rt != rt2 && rd != rt2)
  {
    hide Widen, Thumb32, Exclusive;
    ThumbStoreWord(rn, rt, rd, offset);
    ThumbStoreByte(rn, rt, rd);
    ThumbStoreHalf(rn, rt, rd);
    ThumbStoreDouble(rn, rt, rd, rt2);
  }

  /** No other words are loads or stores of the monitor, or clear it. */
  lemma ThumbKinds(first: bv16, second: bv16)
    ensures Thumb32(first, second).kind == Load <==>
      || (first & 0xfff0 == 0xe850 && second & 0x0f00 == 0x0f00)
      || (first & 0xfff0 == 0xe8d0 && (second & 0x0fff == 0x0f4f || second & 0x0fff == 0x0f5f || second & 0x00ff == 0x007f))
    ensures Thumb32(first, second).kind == Store <==>
      || first & 0xfff0 == 0xe840
      || (first & 0xfff0 == 0xe8c0 && (second & 0x0ff0 == 0x0f40 || second & 0x0ff0 == 0x0f50 || second & 0x00f0 == 0x0070))
    ensures Thumb32(first, second).kind == Clear <==> first == 0xf3bf && second == 0x8f2f
  {
    hide Widen, Thumb32WritesPc, ThumbMayBlock, IsIt;
  }

  /** Nothing the scan accepts transfers control. */
  lemma ArmFallsThrough(w: bv32)
    ensures var i := DecodeArm(w); i.plain || i.kind == Clear || (i.kind in {Load, Store} && i.valid) ==> !i.writesPc
  {
  }

  lemma Thumb32Shapes(first: bv16, second: bv16)
    ensures first & 0xfff0 == 0xe850 || first & 0xfff0 == 0xe840 || first & 0xfff0 == 0xe8c0 ==> !Thumb32WritesPc(first, second)
    ensures first & 0xfff0 == 0xe8d0 && second & 0x40 != 0 ==> !Thumb32WritesPc(first, second)
    ensures first == 0xf3bf && second == 0x8f2f ==> !Thumb32WritesPc(first, second)
  {
  }

  lemma NarrowShape(second: bv16, load: bool)
    ensures NarrowFamily(second, load) != NoFamily ==> second & 0x40 != 0
  {
  }

  lemma Thumb32FallsThrough(first: bv16, second: bv16)
    ensures var i := Thumb32(first, second); i.plain || i.kind == Clear || (i.kind in {Load, Store} && i.valid) ==> !i.writesPc
  {
    hide Thumb32WritesPc, ThumbMayBlock, IsIt, NarrowFamily, Widen;
    Thumb32Shapes(first, second);
    NarrowShape(second, true);
    NarrowShape(second, false);
  }

  // ---- fetching ----

  /** The bytes the debugger can read. */
  type Memory = map<nat, bv8>

  datatype Fetched = Nothing | Got(insn: Insn)

  predicate Readable(memory: Memory, address: nat, size: nat) {
    forall a :: address <= a < address + size ==> a in memory
  }

  function HalfAt(memory: Memory, address: nat): bv16
    requires Readable(memory, address, 2)
  {
    (memory[address] as bv16) | ((memory[address + 1] as bv16) << 8)
  }

  function WordAt(memory: Memory, address: nat): bv32
    requires Readable(memory, address, 4)
  {
    (memory[address] as bv32) | ((memory[address + 1] as bv32) << 8) |
    ((memory[address + 2] as bv32) << 16) | ((memory[address + 3] as bv32) << 24)
  }

  /** Instructions are stored little-endian. */
  lemma HalfIsLittleEndian(memory: Memory, address: nat, h: bv16)
    requires Readable(memory, address, 2)
    requires memory[address] as bv16 == h & 0xff && memory[address + 1] as bv16 == h >> 8
    ensures HalfAt(memory, address) == h
  {
    HalfOfBytes(h);
  }

  lemma WordIsLittleEndian(memory: Memory, address: nat, w: bv32)
    requires Readable(memory, address, 4)
    requires memory[address] as bv32 == w & 0xff && memory[address + 1] as bv32 == (w >> 8) & 0xff
    requires memory[address + 2] as bv32 == (w >> 16) & 0xff && memory[address + 3] as bv32 == w >> 24
    ensures WordAt(memory, address) == w
  {
    WordOfBytes(w);
  }

  lemma HalfOfBytes(h: bv16)
    ensures (h & 0xff) | ((h >> 8) << 8) == h
  {
  }

  lemma WordOfBytes(w: bv32)
    ensures (w & 0xff) | (((w >> 8) & 0xff) << 8) | (((w >> 16) & 0xff) << 16) | ((w >> 24) << 24) == w
  {
  }

  function Fetch(memory: Memory, thumb: bool, address: nat): (f: Fetched)
    ensures f.Got? ==> f.insn.size in {2, 4} && Readable(memory, address, f.insn.size)
  {
    if !thumb then
      if Readable(memory, address, 4) then Got(DecodeArm(WordAt(memory, address))) else Nothing
    else if !Readable(memory, address, 2) then Nothing
    else if !Wide(HalfAt(memory, address)) then Got(Thumb16(HalfAt(memory, address)))
    else if address + 2 < ADDRESSES && Readable(memory, address + 2, 2) then
      Got(Thumb32(HalfAt(memory, address), HalfAt(memory, address + 2)))
    else Nothing
  }

  lemma FetchedFallsThrough(memory: Memory, thumb: bool, address: nat)
    ensures var f := Fetch(memory, thumb, address);
      f.Got? && (f.insn.plain || f.insn.kind == Clear || (f.insn.kind in {Load, Store} && f.insn.valid)) ==> !f.insn.writesPc
  {
    hide DecodeArm, Thumb16, Thumb32, Wide, HalfAt, WordAt;
    if !thumb {
      if Readable(memory, address, 4) {
        ArmFallsThrough(WordAt(memory, address));
      }
    } else if Readable(memory, address, 2) {
      Thumb16Kind(HalfAt(memory, address));
      if Readable(memory, address + 2, 2) {
        Thumb32FallsThrough(HalfAt(memory, address), HalfAt(memory, address + 2));
      }
    }
  }

  lemma Thumb16Kind(first: bv16)
    ensures var i := Thumb16(first); i.kind == Other && (i.plain ==> !i.writesPc)
  {
  }

  // ---- what a sequence is ----

  datatype Place = Lost | At(address: nat)

  /** The address after `k` instructions that fall through, without wrapping around. */
  function Position(memory: Memory, thumb: bool, pc: nat, k: nat): Place {
    if k == 0 then At(pc)
    else
      var before := Position(memory, thumb, pc, k - 1);
      if before.Lost? then Lost
      else
        var f := Fetch(memory, thumb, before.address);
        if f.Got? && before.address + f.insn.size <= 0xffff_ffff then At(before.address + f.insn.size) else Lost
  }

  /** The instruction that is executed `k` instructions in. */
  function InsnAt(memory: Memory, thumb: bool, pc: nat, k: nat): Fetched {
    var place := Position(memory, thumb, pc, k);
    if place.Lost? then Nothing else Fetch(memory, thumb, place.address)
  }

  predicate Opens(f: Fetched, cpsr: bv32) {
    f.Got? && f.insn.kind == Load && f.insn.valid && ConditionPassed(f.insn.condition, cpsr)
  }

  predicate Inside(f: Fetched) {
    f.Got? && f.insn.kind == Other && f.insn.plain
  }

  /** A store of the same kind to the same base register that is always executed, or a clear. */
  predicate Closes(f: Fetched, family: Family, base: bv32) {
    f.Got? && (f.insn.kind == Clear ||
      (f.insn.kind == Store && f.insn.valid && f.insn.condition == 0xe && f.insn.family == family && f.insn.base == base))
  }

  /** `n` instructions from `pc` are an exclusive sequence and end inside the address space. */
  predicate Sequence(memory: Memory, thumb: bool, pc: nat, cpsr: bv32, n: nat) {
    && n >= 2 && Position(memory, thumb, pc, n).At?
    && Opens(InsnAt(memory, thumb, pc, 0), cpsr)
    && (forall k {:trigger InsnAt(memory, thumb, pc, k)} :: 0 < k < n - 1 ==> Inside(InsnAt(memory, thumb, pc, k)))
    && Closes(InsnAt(memory, thumb, pc, n - 1), InsnAt(memory, thumb, pc, 0).insn.family, InsnAt(memory, thumb, pc, 0).insn.base)
  }

  lemma {:induction false} PositionsGrow(memory: Memory, thumb: bool, pc: nat, j: nat, k: nat)
    requires j < k && Position(memory, thumb, pc, k).At?
    ensures Position(memory, thumb, pc, j).At?
    ensures Position(memory, thumb, pc, j).address < Position(memory, thumb, pc, k).address
  {
    hide Fetch;
    if j < k - 1 {
      PositionsGrow(memory, thumb, pc, j, k - 1);
    }
  }

  // ---- the scan ----

  datatype Limits = Limits(instructions: nat, bytes: nat)

  datatype Target = Target(address: nat, breakpointSize: nat, instructions: nat, bytes: nat)

  datatype Read = Read(address: nat, size: nat)

  predicate LimitsValid(limits: Limits) {
    0 < limits.instructions <= MAX_INSTRUCTIONS && 0 < limits.bytes <= MAX_BYTES
  }

  predicate Within(spans: seq<Read>, low: nat, high: nat) {
    forall i :: 0 <= i < |spans| ==> low <= spans[i].address && spans[i].address + spans[i].size <= high
  }

  /** The reads follow each other from one address to another, without a gap or a repetition. */
  predicate Tiles(spans: seq<Read>, low: nat, high: nat) {
    if |spans| == 0 then low == high
    else
      var last := spans[|spans| - 1];
      last.address + last.size == high && Tiles(spans[..|spans| - 1], low, last.address)
  }

  lemma {:induction false} TilesJoin(a: seq<Read>, b: seq<Read>, low: nat, middle: nat, high: nat)
    requires Tiles(a, low, middle) && Tiles(b, middle, high)
    ensures Tiles(a + b, low, high)
  {
    if |b| == 0 {
      assert a + b == a;
    } else {
      var last := b[|b| - 1];
      TilesJoin(a, b[..|b| - 1], low, middle, last.address);
      assert (a + b)[..|a + b| - 1] == a + b[..|b| - 1];
    }
  }

  lemma NoTiles(low: nat)
    ensures Tiles([], low, low)
  {
  }

  lemma TileOne(r: Read)
    ensures Tiles([r], r.address, r.address + r.size)
  {
    assert [r][..0] == [];
  }

  /** A sequence within both limits. */
  predicate Bounded(memory: Memory, thumb: bool, pc: nat, cpsr: bv32, limits: Limits, n: nat) {
    && Sequence(memory, thumb, pc, cpsr, n) && n <= limits.instructions
    && Position(memory, thumb, pc, n).address - pc <= limits.bytes
  }

  /** One instruction is read a word or a halfword at a time, never past the byte limit. */
  method ReadInstruction(memory: Memory, thumb: bool, address: nat, left: nat) returns (f: Fetched, spans: seq<Read>)
    ensures f == if Fetch(memory, thumb, address).Got? && Fetch(memory, thumb, address).insn.size <= left
                 then Fetch(memory, thumb, address) else Nothing
    ensures Within(spans, address, address + left)
    ensures f.Got? ==> Within(spans, address, address + f.insn.size) && Tiles(spans, address, address + f.insn.size)
  {
    hide DecodeArm, Thumb16, Thumb32, Tiles;
    SizesKnown(memory, thumb, address);
    spans := [];
    if !thumb {
      if left < 4 {
        return Nothing, spans;
      }
      spans := [Read(address, 4)];
      TileOne(spans[0]);
      if !Readable(memory, address, 4) {
        return Nothing, spans;
      }
      return Got(DecodeArm(WordAt(memory, address))), spans;
    }
    if left < 2 {
      return Nothing, spans;
    }
    spans := [Read(address, 2)];
    TileOne(spans[0]);
    if !Readable(memory, address, 2) {
      return Nothing, spans;
    }
    var first := HalfAt(memory, address);
    if !Wide(first) {
      return Got(Thumb16(first)), spans;
    }
    if left < 4 || address + 2 >= ADDRESSES {
      return Nothing, spans;
    }
    TileOne(Read(address + 2, 2));
    TilesJoin(spans, [Read(address + 2, 2)], address, address + 2, address + 4);
    spans := spans + [Read(address + 2, 2)];
    if !Readable(memory, address + 2, 2) {
      return Nothing, spans;
    }
    return Got(Thumb32(first, HalfAt(memory, address + 2))), spans;
  }

  lemma SizesKnown(memory: Memory, thumb: bool, address: nat)
    ensures var f := Fetch(memory, thumb, address);
      f.Got? ==> f.insn.size == if !thumb || Wide(HalfAt(memory, address)) then 4 else 2
  {
  }

  /** The scan stands at instruction `k`, everything before it accepted. */
  ghost predicate Standing(memory: Memory, thumb: bool, start: nat, cpsr: bv32, k: nat, pc: nat) {
    && Position(memory, thumb, start, k) == At(pc) && pc >= start
    && (k > 0 ==> Opens(InsnAt(memory, thumb, start, 0), cpsr))
    && forall j {:trigger InsnAt(memory, thumb, start, j)} :: 0 < j < k ==> Inside(InsnAt(memory, thumb, start, j))
  }

  /** A scan that can neither go on nor finish rules every bounded sequence out. */
  lemma Stuck(memory: Memory, thumb: bool, start: nat, cpsr: bv32, limits: Limits, k: nat, pc: nat)
    requires Standing(memory, thumb, start, cpsr, k, pc)
    requires
      var f, first := Fetch(memory, thumb, pc), InsnAt(memory, thumb, start, 0);
      || k >= limits.instructions
      || f.Nothing? || pc - start + f.insn.size > limits.bytes || pc + f.insn.size >= ADDRESSES
      || (if k == 0 then !Opens(f, cpsr) else first.Got? && !Inside(f) && !Closes(f, first.insn.family, first.insn.base))
    ensures forall n: nat :: !Bounded(memory, thumb, start, cpsr, limits, n)
  {
    hide Fetch, ConditionPassed;
    var f := Fetch(memory, thumb, pc);
    assert InsnAt(memory, thumb, start, k) == f;
    assert Position(memory, thumb, start, k + 1) == if f.Got? && pc + f.insn.size < ADDRESSES then At(pc + f.insn.size) else Lost;
    forall n: nat ensures !Bounded(memory, thumb, start, cpsr, limits, n) {
      if 2 <= n <= k {
        assert Inside(InsnAt(memory, thumb, start, n - 1));
      } else if n > k + 1 && Position(memory, thumb, start, n).At? {
        PositionsGrow(memory, thumb, start, k + 1, n);
      }
    }
  }

  lemma Moves(memory: Memory, thumb: bool, start: nat, cpsr: bv32, k: nat, pc: nat)
    requires Standing(memory, thumb, start, cpsr, k, pc)
    requires var f := Fetch(memory, thumb, pc); f.Got? && pc + f.insn.size < ADDRESSES && (if k == 0 then Opens(f, cpsr) else Inside(f))
    ensures Standing(memory, thumb, start, cpsr, k + 1, pc + Fetch(memory, thumb, pc).insn.size)
  {
    hide Fetch, ConditionPassed;
  }

  lemma Ends(memory: Memory, thumb: bool, start: nat, cpsr: bv32, limits: Limits, k: nat, pc: nat)
    requires Standing(memory, thumb, start, cpsr, k, pc) && 0 < k < limits.instructions
    requires var f := Fetch(memory, thumb, pc);
      && f.Got? && pc + f.insn.size < ADDRESSES && pc - start + f.insn.size <= limits.bytes
      && Closes(f, InsnAt(memory, thumb, start, 0).insn.family, InsnAt(memory, thumb, start, 0).insn.base)
    ensures Bounded(memory, thumb, start, cpsr, limits, k + 1)
    ensures Position(memory, thumb, start, k + 1) == At(pc + Fetch(memory, thumb, pc).insn.size)
  {
    hide Fetch, ConditionPassed;
  }

  /** A target that is the address right after a bounded sequence. */
  ghost predicate Found(memory: Memory, thumb: bool, start: nat, cpsr: bv32, limits: Limits, t: Target) {
    && Bounded(memory, thumb, start, cpsr, limits, t.instructions)
    && Position(memory, thumb, start, t.instructions) == At(t.address)
    && t.address == start + t.bytes && t.breakpointSize == if thumb then 2 else 4
  }

  lemma Begins(memory: Memory, thumb: bool, start: nat, cpsr: bv32)
    ensures Standing(memory, thumb, start, cpsr, 0, start)
    ensures InsnAt(memory, thumb, start, 0) == Fetch(memory, thumb, start)
  {
  }

  /** The two scan loops, which differ only in how an instruction is read and in the width of the
      breakpoint. */
  method ScanLoop(memory: Memory, thumb: bool, start: nat, cpsr: bv32, limits: Limits) returns (r: Option<Target>, spans: seq<Read>)
    requires LimitsValid(limits)
    ensures r.None? ==> forall n: nat :: !Bounded(memory, thumb, start, cpsr, limits, n)
    ensures r.Some? ==> Found(memory, thumb, start, cpsr, limits, r.value)
    ensures Within(spans, start, start + (if r.Some? then r.value.bytes else limits.bytes))
    ensures r.Some? ==> Tiles(spans, start, r.value.address)
  {
    hide Fetch, ConditionPassed, Bounded, Sequence, Standing, Position, InsnAt, Tiles;
    var family, base: bv32 := NoFamily, 0;
    var instructions: nat, bytes: nat, pc: nat := 0, 0, start;
    spans := [];
    ghost var first := InsnAt(memory, thumb, start, 0);
    Begins(memory, thumb, start, cpsr);
    assert Tiles(spans, start, pc) by { NoTiles(start); }
    while instructions < limits.instructions
      invariant Standing(memory, thumb, start, cpsr, instructions, pc) && pc == start + bytes && bytes <= limits.bytes
      invariant Within(spans, start, pc) && Tiles(spans, start, pc) && instructions <= limits.instructions
      invariant instructions == 0 ==> first == Fetch(memory, thumb, pc)
      invariant instructions > 0 ==> first.Got? && first.insn.family == family && first.insn.base == base
    {
      var f, more := ReadInstruction(memory, thumb, pc, limits.bytes - bytes);
      if f.Got? {
        TilesJoin(spans, more, start, pc, pc + f.insn.size);
      }
      spans := spans + more;
      if f.Nothing? {
        Stuck(memory, thumb, start, cpsr, limits, instructions, pc);
        return None, spans;
      }
      var insn := f.insn;
      if instructions == 0 {
        if insn.kind != Load || !insn.valid || !ConditionPassed(insn.condition, cpsr) {
          Stuck(memory, thumb, start, cpsr, limits, instructions, pc);
          return None, spans;
        }
        family, base := insn.family, insn.base;
      } else if insn.kind == Load || (insn.kind == Other && !insn.plain) {
        Stuck(memory, thumb, start, cpsr, limits, instructions, pc);
        return None, spans;
      } else if insn.kind == Store || insn.kind == Clear {
        if (insn.kind == Store && (!insn.valid || insn.condition != 0xe || insn.family != family || insn.base != base)) || pc + insn.size >= ADDRESSES {
          Stuck(memory, thumb, start, cpsr, limits, instructions, pc);
          return None, spans;
        }
        Ends(memory, thumb, start, cpsr, limits, instructions, pc);
        return Some(Target(pc + insn.size, if thumb then 2 else 4, instructions + 1, bytes + insn.size)), spans;
      }
      if pc + insn.size >= ADDRESSES {
        Stuck(memory, thumb, start, cpsr, limits, instructions, pc);
        return None, spans;
      }
      Moves(memory, thumb, start, cpsr, instructions, pc);
      instructions, bytes, pc := instructions + 1, bytes + insn.size, pc + insn.size;
    }
    Stuck(memory, thumb, start, cpsr, limits, instructions, pc);
    return None, spans;
  }

  /** uvdb_exclusive_step_scan: a target exactly for a bounded sequence from a supported state. */
  predicate Supported(pc: nat, cpsr: bv32) {
    var thumb := Bit(cpsr, 0x20);
    !Bit(cpsr, 0x0100_0200) && (if thumb then pc % 2 == 0 && ((cpsr >> 8) & 0xfc) | ((cpsr >> 25) & 3) == 0 else pc % 4 == 0)
  }

  method Scan(memory: Memory, pc: nat, cpsr: bv32, limits: Limits) returns (r: Option<Target>, spans: seq<Read>)
    ensures r.Some? <==> LimitsValid(limits) && Supported(pc, cpsr) && exists n: nat :: Bounded(memory, Bit(cpsr, 0x20), pc, cpsr, limits, n)
    ensures r.Some? ==> Found(memory, Bit(cpsr, 0x20), pc, cpsr, limits, r.value)
    ensures Within(spans, pc, pc + (if r.Some? then r.value.bytes else limits.bytes))
    ensures r.Some? ==> Tiles(spans, pc, r.value.address)
  {
    hide Bounded, Supported, Position, Tiles;
    if !LimitsValid(limits) || !Supported(pc, cpsr) {
      return None, [];
    }
    r, spans := ScanLoop(memory, Bit(cpsr, 0x20), pc, cpsr, limits);
  }

  // ---- a processor in the sequence ----

  /** A run of a processor on which an instruction that does not write the program counter falls
      through. Nothing is said about any other instruction. */
  ghost predicate Runs(memory: Memory, thumb: bool, path: seq<nat>) {
    forall i :: 0 <= i < |path| - 1 ==>
      var f := Fetch(memory, thumb, path[i]);
      f.Got? && !f.insn.writesPc && path[i] + f.insn.size < ADDRESSES ==> path[i + 1] == path[i] + f.insn.size
  }

  lemma {:induction false} RunFollows(memory: Memory, thumb: bool, pc: nat, cpsr: bv32, n: nat, path: seq<nat>, k: nat)
    requires Sequence(memory, thumb, pc, cpsr, n) && Runs(memory, thumb, path) && |path| > n && path[0] == pc && k <= n
    ensures Position(memory, thumb, pc, k) == At(path[k])
  {
    hide Fetch, ConditionPassed;
    if k > 0 {
      RunFollows(memory, thumb, pc, cpsr, n, path, k - 1);
      if k < n {
        PositionsGrow(memory, thumb, pc, k, n);
      }
      FetchedFallsThrough(memory, thumb, path[k - 1]);
      assert InsnAt(memory, thumb, pc, k - 1) == Fetch(memory, thumb, path[k - 1]);
    }
  }

  /** Such a processor first reaches the target after exactly the scanned number of steps. */
  lemma TargetIsReached(memory: Memory, thumb: bool, pc: nat, cpsr: bv32, limits: Limits, t: Target, path: seq<nat>)
    requires Found(memory, thumb, pc, cpsr, limits, t) && Runs(memory, thumb, path) && |path| > t.instructions && path[0] == pc
    ensures path[t.instructions] == t.address
    ensures forall k :: 0 <= k < t.instructions ==> path[k] < t.address
  {
    hide Fetch, ConditionPassed, Position;
    RunFollows(memory, thumb, pc, cpsr, t.instructions, path, t.instructions);
    forall k | 0 <= k < t.instructions ensures path[k] < t.address {
      RunFollows(memory, thumb, pc, cpsr, t.instructions, path, k);
      PositionsGrow(memory, thumb, pc, k, t.instructions);
    }
  }

  /** There is only one bounded sequence to find. */
  lemma SequenceIsUnique(memory: Memory, thumb: bool, pc: nat, cpsr: bv32, m: nat, n: nat)
    requires Sequence(memory, thumb, pc, cpsr, m) && Sequence(memory, thumb, pc, cpsr, n)
    ensures m == n
  {
    hide Fetch, ConditionPassed, Position;
  }
}
