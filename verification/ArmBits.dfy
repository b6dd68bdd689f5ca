/**
 * Words of the A32 and Thumb instruction sets: condition codes, which words may write the program
 * counter, and the IT state. Everything is a fixed-width bit vector, so it holds for every word.
 */
module ArmBits {

  // ---- conditions (DDI 0406C, section A8.3) ----

  predicate Bit(word: bv32, mask: bv32) {
    word & mask != 0
  }

  predicate FlagN(cpsr: bv32) { Bit(cpsr, 0x8000_0000) }
  predicate FlagZ(cpsr: bv32) { Bit(cpsr, 0x4000_0000) }
  predicate FlagC(cpsr: bv32) { Bit(cpsr, 0x2000_0000) }
  predicate FlagV(cpsr: bv32) { Bit(cpsr, 0x1000_0000) }

  predicate ConditionPassed(condition: bv32, cpsr: bv32) {
    if condition >= 0xf then false
    else
      var half := condition >> 1;
      var passed :=
        if half == 0 then FlagZ(cpsr)
        else if half == 1 then FlagC(cpsr)
        else if half == 2 then FlagN(cpsr)
        else if half == 3 then FlagV(cpsr)
        else if half == 4 then FlagC(cpsr) && !FlagZ(cpsr)
        else if half == 5 then FlagN(cpsr) == FlagV(cpsr)
        else if half == 6 then !FlagZ(cpsr) && FlagN(cpsr) == FlagV(cpsr)
        else condition == 0xe;
      if condition & 1 != 0 then !passed else passed
  }

  /** Codes that differ in their last bit are opposites; 14 always passes and 15 never does. */
  lemma ConditionsPair(condition: bv32, cpsr: bv32)
    ensures condition < 0xe ==> (ConditionPassed(condition, cpsr) <==> !ConditionPassed(condition ^ 1, cpsr))
    ensures ConditionPassed(0xe, cpsr)
    ensures condition >= 0xf ==> !ConditionPassed(condition, cpsr)
  {
  }

  /** The table of section A8.3, in bits of the status register: N, Z, C and V are bits 31 to 28. */
  lemma ConditionTable(cpsr: bv32)
    ensures ConditionPassed(0, cpsr) <==> cpsr & 0x4000_0000 == 0x4000_0000
    ensures ConditionPassed(2, cpsr) <==> cpsr & 0x2000_0000 == 0x2000_0000
    ensures ConditionPassed(4, cpsr) <==> cpsr & 0x8000_0000 == 0x8000_0000
    ensures ConditionPassed(6, cpsr) <==> cpsr & 0x1000_0000 == 0x1000_0000
    ensures ConditionPassed(8, cpsr) <==> cpsr & 0x6000_0000 == 0x2000_0000
    ensures ConditionPassed(10, cpsr) <==> cpsr >> 31 == (cpsr >> 28) & 1
    ensures ConditionPassed(12, cpsr) <==> cpsr & 0x4000_0000 == 0 && cpsr >> 31 == (cpsr >> 28) & 1
  {
  }

  // ---- what the conditions mean after a comparison ----

  const WORD: int := 0x1_0000_0000
  const HALF: int := 0x8000_0000

  /** A word read as a two's complement number. */
  function Signed(x: nat): int
    requires x < WORD
  {
    if x < HALF then x else x - WORD
  }

  /** The difference of two words, as a word. */
  function Difference(x: nat, y: nat): (r: nat)
    requires x < WORD && y < WORD
    ensures r < WORD
  {
    if x >= y then x - y else x - y + WORD
  }

  /** The flags after comparing x with y: the sign of the difference, whether it is zero, that
      nothing was borrowed, and that it overflows as a signed number. */
  predicate Compared(x: nat, y: nat, cpsr: bv32)
    requires x < WORD && y < WORD
  {
    && (cpsr & 0x8000_0000 != 0 <==> Difference(x, y) >= HALF)
    && (cpsr & 0x4000_0000 != 0 <==> Difference(x, y) == 0)
    && (cpsr & 0x2000_0000 != 0 <==> x >= y)
    && (cpsr & 0x1000_0000 != 0 <==> Signed(x) - Signed(y) != Signed(Difference(x, y)))
  }

  lemma StatusBits(cpsr: bv32)
    ensures cpsr & 0x4000_0000 != 0 <==> cpsr & 0x4000_0000 == 0x4000_0000
    ensures cpsr & 0x2000_0000 != 0 <==> cpsr & 0x2000_0000 == 0x2000_0000
    ensures cpsr & 0x6000_0000 == 0x2000_0000 <==> cpsr & 0x2000_0000 != 0 && cpsr & 0x4000_0000 == 0
    ensures cpsr >> 31 == (cpsr >> 28) & 1 <==> (cpsr & 0x8000_0000 != 0 <==> cpsr & 0x1000_0000 != 0)
  {
  }

  /** After a comparison the codes are the relations they are named after: equal, unsigned at
      least and above, signed at least and above. The odd codes are their opposites. */
  lemma ConditionsCompare(x: nat, y: nat, cpsr: bv32)
    requires x < WORD && y < WORD && Compared(x, y, cpsr)
    ensures ConditionPassed(0, cpsr) <==> x == y
    ensures ConditionPassed(2, cpsr) <==> x >= y
    ensures ConditionPassed(8, cpsr) <==> x > y
    ensures ConditionPassed(10, cpsr) <==> Signed(x) >= Signed(y)
    ensures ConditionPassed(12, cpsr) <==> Signed(x) > Signed(y)
  {
    hide ConditionPassed;
    ConditionTable(cpsr);
    StatusBits(cpsr);
  }

  // ---- which words may write the program counter ----

  predicate ArmWritesPc(w: bv32) {
    var conditional := w >> 28 != 0xf;
    // exception returns
    || w & 0xfe50_ffff == 0xf810_0a00
    || (conditional && w & 0x0fff_ffff == 0x0160_006e)
    // branches
    || w & 0xfe00_0000 == 0xfa00_0000
    || (conditional && w & 0x0e00_0000 == 0x0a00_0000)
    || (conditional && (w & 0x0fff_fff0 == 0x012f_ff10 || w & 0x0fff_fff0 == 0x012f_ff20 || w & 0x0fff_fff0 == 0x012f_ff30))
    // loads
    || (conditional && w & 0x0e10_0000 == 0x0810_0000 && w & 0x8000 != 0)
    || (conditional && w & 0x0c10_f000 == 0x0410_f000)
    // data processing
    || (conditional && w & 0xf000 == 0xf000 &&
        ((w >> 25) & 7 == 1 || ((w >> 25) & 7 == 0 && (w & 0x10 == 0 || w & 0x80 == 0))))
  }

  predicate ArmMayBlock(w: bv32) {
    || (w >> 28 != 0xf && w & 0x0f00_0000 == 0x0f00_0000)
    || w & 0x0fff_ffff == 0x0320_f002
    || w & 0x0fff_ffff == 0x0320_f003
  }

  predicate Thumb16WritesPc(w: bv16) {
    || (w & 0xf000 == 0xd000 && w & 0x0f00 < 0x0e00)
    || w & 0xf800 == 0xe000
    || w & 0xff07 == 0x4700
    || w & 0xff00 == 0xbd00
    || w & 0xf500 == 0xb100
    || ((w & 0xff00 == 0x4400 || w & 0xff00 == 0x4600) && (w & 7) | ((w >> 4) & 8) == 15)
  }

  predicate Thumb32WritesPc(first: bv16, second: bv16) {
    || (first & 0xf800 == 0xf000 && second & 0x8000 != 0 &&
        (second & 0x1000 != 0 || second & 0xd001 == 0xc000 || (second & 0xd000 == 0x8000 && first & 0x0380 != 0x0380)))
    || (first & 0xfff0 == 0xe8d0 && second & 0xffe0 == 0xf000)
    || (first & 0xfe50 == 0xe810 && ((first & 0x80 != 0) == (first & 0x100 != 0) || second & 0x8000 != 0))
    || (first & 0xff70 == 0xf850 && second & 0xf000 == 0xf000)
    || (first & 0xffef == 0xea4f && second & 0xfff0 == 0x0f00)
    || (first & 0xfff0 == 0xf3c0 && second == 0x8f00)
    || (first == 0xf3de && second & 0xff00 == 0x8f00)
  }

  predicate ThumbMayBlock(first: bv16, second: bv16) {
    || first & 0xff00 == 0xdf00
    || first == 0xbf20
    || first == 0xbf30
    || (first == 0xf3af && (second == 0x8002 || second == 0x8003))
  }

  /** The first halfword announces a 32-bit instruction. */
  predicate Wide(first: bv16) {
    first >> 11 == 0x1d || first >> 11 == 0x1e || first >> 11 == 0x1f
  }

  lemma WideHalfwords(first: bv16)
    ensures Wide(first) <==> first >= 0xe800
  {
  }
}
