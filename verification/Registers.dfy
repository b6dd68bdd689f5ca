/**
 * Register packets and console frames: what the printers write is what the parsers read back,
 * and the answer about one register is the slice of the whole packet that belongs to it.
 */
module Registers {
  import opened Bytes
  import Hex

  const CORE: nat := 16
  const DOUBLES: nat := 32
  const FPA_FIRST: nat := 16
  const FPS: nat := 24
  const CPSR: nat := 25
  const D_FIRST: nat := 26
  const FPSCR: nat := 58
  const LETTER_G: Byte := 0x47

  type Word = w: nat | w < 0x1_0000_0000
  type Double = d: nat | d < 0x1_0000_0000_0000_0000

  datatype Core = Core(r: seq<Word>, cpsr: Word)
  datatype Vfp = Vfp(d: seq<Double>, fpscr: Word)

  ghost predicate Whole(core: Core, vfp: Option<Vfp>) {
    |core.r| == CORE && (vfp.Some? ==> |vfp.value.d| == DOUBLES)
  }

  // ---- one value as text ----

  /** The little-endian bytes of a value. */
  function LittleEndian(value: nat, size: nat): (bytes: seq<Byte>)
    ensures |bytes| == size
  {
    if size == 0 then [] else [value % 256] + LittleEndian(value / 256, size - 1)
  }

  function ValueOf(bytes: seq<Byte>): nat {
    if |bytes| == 0 then 0 else bytes[0] + 256 * ValueOf(bytes[1..])
  }

  function Power256(n: nat): (p: nat)
    ensures p > 0
  {
    if n == 0 then 1 else 256 * Power256(n - 1)
  }

  lemma {:induction false} ValueOfLittleEndian(value: nat, size: nat)
    requires value < Power256(size)
    ensures ValueOf(LittleEndian(value, size)) == value
  {
    if size > 0 {
      ValueOfLittleEndian(value / 256, size - 1);
      assert LittleEndian(value, size)[1..] == LittleEndian(value / 256, size - 1);
    }
  }

  function ValueText(value: nat, size: nat): (text: seq<Byte>)
    ensures |text| == 2 * size && Hex.AllHex(text)
  {
    Hex.Encode(LittleEndian(value, size))
  }

  function ReadValue(text: seq<Byte>): nat
    requires Hex.AllHex(text) && |text| % 2 == 0
  {
    ValueOf(Hex.Decode(text))
  }

  lemma ReadValueText(value: nat, size: nat)
    requires value < Power256(size)
    ensures ReadValue(ValueText(value, size)) == value
  {
    Hex.DecodeEncode(LittleEndian(value, size));
    ValueOfLittleEndian(value, size);
  }

  lemma WordSize()
    ensures Power256(4) == 0x1_0000_0000 && Power256(8) == 0x1_0000_0000_0000_0000
  {
    assert Power256(2) == 0x1_0000;
    assert Power256(6) == 0x1_0000 * Power256(4);
  }

  lemma ReadWordText(value: Word)
    ensures ReadValue(ValueText(value, 4)) == value
  {
    WordSize();
    ReadValueText(value, 4);
  }

  /** The marker for a register without a value. */
  function Absent(size: nat): (text: seq<Byte>)
    ensures |text| == 2 * size && forall i :: 0 <= i < |text| ==> text[i] == 0x78
  {
    if size == 0 then [] else Absent(size - 1) + [0x78, 0x78]
  }

  // ---- one register ----

  predicate Described(number: nat, explicit: bool) {
    number < CORE || number == CPSR || (if explicit then D_FIRST <= number <= FPSCR else FPA_FIRST <= number <= FPS)
  }

  function SizeOf(number: nat): nat {
    if D_FIRST <= number < FPSCR then 8 else if FPA_FIRST <= number < FPS then 12 else 4
  }

  /** uvdb_rsp_encode_single_register. */
  function SingleText(core: Core, vfp: Option<Vfp>, explicit: bool, number: nat): (text: seq<Byte>)
    requires |core.r| == CORE && (vfp.Some? ==> |vfp.value.d| == DOUBLES) && Described(number, explicit)
    ensures |text| == 2 * SizeOf(number)
  {
    if number < CORE then ValueText(core.r[number], 4)
    else if number == CPSR then ValueText(core.cpsr, 4)
    else if !explicit || vfp.None? then Absent(SizeOf(number))
    else if number == FPSCR then ValueText(vfp.value.fpscr, 4)
    else ValueText(vfp.value.d[number - D_FIRST], 8)
  }

  // ---- the whole packet ----

  function PacketSize(explicit: bool): nat {
    if explicit then 2 * (17 * 4 + 32 * 8 + 4) else 2 * (16 * 4 + 100 + 4)
  }

  /** Where the text of a register starts in the whole packet: the explicit layout leaves the
      undescribed registers 16 to 24 out and puts the status register next to the core. */
  function Start(number: nat, explicit: bool): nat
    requires Described(number, explicit)
  {
    if number < CORE then 8 * number
    else if explicit then
      if number == CPSR then 128 else if number == FPSCR then 648 else 136 + 16 * (number - D_FIRST)
    else
      if number == CPSR then 328 else 128 + 24 * (number - FPA_FIRST)
  }

  /** The slices follow each other without overlapping and stay inside the packet. */
  lemma StartsTile(number: nat, other: nat, explicit: bool)
    requires Described(number, explicit) && Described(other, explicit) && number < other
    ensures Start(number, explicit) + 2 * SizeOf(number) <= Start(other, explicit)
    ensures Start(other, explicit) + 2 * SizeOf(other) <= PacketSize(explicit)
  {
  }

  /** They leave no gap: every character of the packet belongs to a described register. */
  lemma StartsFill(position: nat, explicit: bool) returns (number: nat)
    requires position < PacketSize(explicit)
    ensures Described(number, explicit) && Start(number, explicit) <= position < Start(number, explicit) + 2 * SizeOf(number)
  {
    if position < 128 {
      number := position / 8;
    } else if explicit {
      number := if position < 136 then CPSR else if position < 648 then D_FIRST + (position - 136) / 16 else FPSCR;
    } else {
      number := if position < 320 then FPA_FIRST + (position - 128) / 24 else if position < 328 then FPS else CPSR;
    }
  }

  ghost predicate Holds(text: seq<Byte>, core: Core, vfp: Option<Vfp>, explicit: bool, number: nat)
    requires Whole(core, vfp) && Described(number, explicit)
  {
    var start := Start(number, explicit);
    start + 2 * SizeOf(number) <= |text| && text[start..start + 2 * SizeOf(number)] == SingleText(core, vfp, explicit, number)
  }

  /** The registers below `next` are in place. */
  ghost predicate Filled(text: seq<Byte>, core: Core, vfp: Option<Vfp>, explicit: bool, low: nat, next: nat)
    requires Whole(core, vfp)
  {
    forall n {:trigger Holds(text, core, vfp, explicit, n)} :: low <= n < next && Described(n, explicit) ==> Holds(text, core, vfp, explicit, n)
  }

  lemma Grows(text: seq<Byte>, more: seq<Byte>, core: Core, vfp: Option<Vfp>, explicit: bool, low: nat, next: nat)
    requires Whole(core, vfp) && Filled(text, core, vfp, explicit, low, next)
    ensures Filled(text + more, core, vfp, explicit, low, next)
  {
    hide SingleText, Start, SizeOf;
    forall n | low <= n < next && Described(n, explicit) ensures Holds(text + more, core, vfp, explicit, n) {
      assert Holds(text, core, vfp, explicit, n);
      var start := Start(n, explicit);
      assert (text + more)[start..start + 2 * SizeOf(n)] == text[start..start + 2 * SizeOf(n)];
    }
  }

  lemma Appends(text: seq<Byte>, core: Core, vfp: Option<Vfp>, explicit: bool, number: nat)
    requires Whole(core, vfp) && Described(number, explicit) && |text| == Start(number, explicit)
    ensures Holds(text + SingleText(core, vfp, explicit, number), core, vfp, explicit, number)
  {
    hide SingleText, Start, SizeOf, Described;
    var more := SingleText(core, vfp, explicit, number);
    assert (text + more)[|text|..|text| + |more|] == more;
  }

  lemma Extends(text: seq<Byte>, core: Core, vfp: Option<Vfp>, explicit: bool, number: nat)
    requires Whole(core, vfp) && Described(number, explicit) && |text| == Start(number, explicit)
    requires Filled(text, core, vfp, explicit, 0, number)
    ensures Filled(text + SingleText(core, vfp, explicit, number), core, vfp, explicit, 0, number + 1)
  {
    Grows(text, SingleText(core, vfp, explicit, number), core, vfp, explicit, 0, number);
    Appends(text, core, vfp, explicit, number);
  }

  /** No register between `next` and `number` is described, so none is missing. */
  lemma Skips(text: seq<Byte>, core: Core, vfp: Option<Vfp>, explicit: bool, next: nat, number: nat)
    requires Whole(core, vfp) && Filled(text, core, vfp, explicit, 0, next)
    requires forall n :: next <= n < number ==> !Described(n, explicit)
    ensures Filled(text, core, vfp, explicit, 0, number)
  {
  }

  lemma {:induction false} AbsentParts(size: nat, from: nat, part: nat)
    requires from + part <= size
    ensures Absent(size)[2 * from..2 * (from + part)] == Absent(part)
  {
    var slice := Absent(size)[2 * from..2 * (from + part)];
    forall i | 0 <= i < 2 * part ensures slice[i] == Absent(part)[i] {
      assert slice[i] == Absent(size)[2 * from + i];
    }
  }

  lemma TailSlice(text: seq<Byte>, tail: seq<Byte>, low: nat, high: nat)
    requires low <= high <= |tail|
    ensures (text + tail)[|text| + low..|text| + high] == tail[low..high]
  {
    var slice := (text + tail)[|text| + low..|text| + high];
    forall i | 0 <= i < high - low ensures slice[i] == tail[low..high][i] {
      assert slice[i] == (text + tail)[|text| + low + i];
    }
  }

  /** A run of absent bytes holds every absent register inside it. */
  lemma AbsentHolds(text: seq<Byte>, size: nat, core: Core, vfp: Option<Vfp>, explicit: bool, number: nat)
    requires Whole(core, vfp) && Described(number, explicit) && number >= CORE && number != CPSR && (!explicit || vfp.None?)
    requires |text| % 2 == 0 && |text| <= Start(number, explicit) && Start(number, explicit) + 2 * SizeOf(number) <= |text| + 2 * size
    ensures Holds(text + Absent(size), core, vfp, explicit, number)
  {
    var start := Start(number, explicit);
    var from := (start - |text|) / 2;
    AbsentParts(size, from, SizeOf(number));
    assert start == |text| + 2 * from;
    TailSlice(text, Absent(size), 2 * from, 2 * (from + SizeOf(number)));
  }

  lemma AbsentExtends(text: seq<Byte>, size: nat, core: Core, vfp: Option<Vfp>, explicit: bool, first: nat, end: nat)
    requires Whole(core, vfp) && |text| % 2 == 0 && (!explicit || vfp.None?) && Filled(text, core, vfp, explicit, 0, first)
    requires forall n :: first <= n < end && Described(n, explicit) ==>
      n >= CORE && n != CPSR && |text| <= Start(n, explicit) && Start(n, explicit) + 2 * SizeOf(n) <= |text| + 2 * size
    ensures Filled(text + Absent(size), core, vfp, explicit, 0, end)
  {
    Grows(text, Absent(size), core, vfp, explicit, 0, first);
    forall n | first <= n < end && Described(n, explicit) ensures Holds(text + Absent(size), core, vfp, explicit, n) {
      AbsentHolds(text, size, core, vfp, explicit, n);
    }
  }

  method EncodeCore(core: Core, ghost vfp: Option<Vfp>, ghost explicit: bool) returns (text: seq<Byte>)
    requires Whole(core, vfp)
    ensures |text| == 128 && Filled(text, core, vfp, explicit, 0, CORE)
  {
    hide Filled, ValueText;
    text := [];
    Nothing(core, vfp, explicit);
    for i := 0 to CORE
      invariant |text| == 8 * i && Filled(text, core, vfp, explicit, 0, i)
    {
      Extends(text, core, vfp, explicit, i);
      text := text + ValueText(core.r[i], 4);
    }
  }

  lemma Nothing(core: Core, vfp: Option<Vfp>, explicit: bool)
    requires Whole(core, vfp)
    ensures Filled([], core, vfp, explicit, 0, 0)
  {
  }

  method EncodeVfp(head: seq<Byte>, core: Core, vfp: Option<Vfp>) returns (text: seq<Byte>)
    requires Whole(core, vfp) && |head| == 136 && Filled(head, core, vfp, true, 0, D_FIRST)
    ensures |text| == PacketSize(true) && Filled(text, core, vfp, true, 0, FPSCR + 1)
  {
    hide Filled, ValueText;
    if vfp.None? {
      AbsentExtends(head, 260, core, vfp, true, D_FIRST, FPSCR + 1);
      return head + Absent(260);
    }
    text := head;
    for i := 0 to DOUBLES
      invariant |text| == 136 + 16 * i && Filled(text, core, vfp, true, 0, D_FIRST + i)
    {
      Extends(text, core, vfp, true, D_FIRST + i);
      text := text + ValueText(vfp.value.d[i], 8);
    }
    Extends(text, core, vfp, true, FPSCR);
    text := text + ValueText(vfp.value.fpscr, 4);
  }

  /** uvdb_rsp_encode_register_packet: in both layouts every single-register answer is the slice
      of the packet at that register's place. */
  method EncodePacket(core: Core, vfp: Option<Vfp>, explicit: bool) returns (text: seq<Byte>)
    requires Whole(core, vfp)
    ensures |text| == PacketSize(explicit) && Sliced(text, core, vfp, explicit)
  {
    hide Filled, ValueText, Sliced;
    text := EncodeCore(core, vfp, explicit);
    var status := ValueText(core.cpsr, 4);
    if explicit {
      Skips(text, core, vfp, explicit, CORE, CPSR);
      Extends(text, core, vfp, explicit, CPSR);
      text := EncodeVfp(text + status, core, vfp);
      FilledIsSliced(text, core, vfp, explicit, FPSCR + 1);
    } else {
      AbsentExtends(text, 100, core, vfp, explicit, CORE, CPSR);
      text := text + Absent(100);
      Extends(text, core, vfp, explicit, CPSR);
      text := text + status;
      FilledIsSliced(text, core, vfp, explicit, CPSR + 1);
    }
  }

  /** Every single-register answer is the slice of the packet at its place. */
  ghost predicate Sliced(text: seq<Byte>, core: Core, vfp: Option<Vfp>, explicit: bool)
    requires Whole(core, vfp) && |text| == PacketSize(explicit)
  {
    forall n {:trigger Holds(text, core, vfp, explicit, n)} :: Described(n, explicit) ==> Holds(text, core, vfp, explicit, n)
  }

  lemma FilledIsSliced(text: seq<Byte>, core: Core, vfp: Option<Vfp>, explicit: bool, end: nat)
    requires Whole(core, vfp) && |text| == PacketSize(explicit) && Filled(text, core, vfp, explicit, 0, end)
    requires end == if explicit then FPSCR + 1 else CPSR + 1
    ensures Sliced(text, core, vfp, explicit)
  {
    hide Holds, Start, SizeOf, SingleText;
    forall n: nat | Described(n, explicit) ensures Holds(text, core, vfp, explicit, n) {
      assert 0 <= n < end;
    }
  }

  lemma ReadDoubleText(value: Double)
    ensures ReadValue(ValueText(value, 8)) == value
  {
    WordSize();
    ReadValueText(value, 8);
  }

  ghost predicate Reads(text: seq<Byte>, start: nat, size: nat, value: nat) {
    && start + 2 * size <= |text| && Hex.AllHex(text[start..start + 2 * size])
    && ReadValue(text[start..start + 2 * size]) == value
  }

  /** The explicit layout read back: sixteen words, the status word, thirty-two doubles and the
      floating-point status, each little-endian at its place; without floating point the rest is
      `x`. */
  lemma ExplicitReadsBack(core: Core, vfp: Option<Vfp>, text: seq<Byte>, i: nat)
    requires Whole(core, vfp) && |text| == PacketSize(true) && Sliced(text, core, vfp, true)
    ensures |text| == 656
    ensures i < 16 ==> Reads(text, 8 * i, 4, core.r[i])
    ensures Reads(text, 128, 4, core.cpsr)
    ensures vfp.Some? && i < 32 ==> Reads(text, 136 + 16 * i, 8, vfp.value.d[i])
    ensures vfp.Some? ==> Reads(text, 648, 4, vfp.value.fpscr)
    ensures vfp.None? && 136 <= i < 656 ==> text[i] == 0x78
  {
    hide ValueText, ReadValue, Hex.AllHex, Absent;
    if i < 16 {
      assert Holds(text, core, vfp, true, i);
      ReadWordText(core.r[i]);
    }
    assert Holds(text, core, vfp, true, CPSR);
    ReadWordText(core.cpsr);
    if vfp.Some? {
      if i < 32 {
        assert Holds(text, core, vfp, true, D_FIRST + i);
        ReadDoubleText(vfp.value.d[i]);
      }
      assert Holds(text, core, vfp, true, FPSCR);
      ReadWordText(vfp.value.fpscr);
    } else if 136 <= i < 656 {
      var number := if i < 648 then D_FIRST + (i - 136) / 16 else FPSCR;
      assert Holds(text, core, vfp, true, number);
      AbsentAt(text, Start(number, true), SizeOf(number), i);
    }
  }

  lemma AbsentAt(text: seq<Byte>, start: nat, size: nat, i: nat)
    requires start <= i < start + 2 * size <= |text| && text[start..start + 2 * size] == Absent(size)
    ensures text[i] == 0x78
  {
    assert text[i] == text[start..start + 2 * size][i - start];
  }

  // ---- reading a packet back ----

  datatype Parsed = Registers(core: Core) | Invalid | Unsupported

  predicate AbsentOrHex(first: Byte, second: Byte) {
    || (first in [0x78, 0x58] && second in [0x78, 0x58])
    || (Hex.Value(first).Some? && Hex.Value(second).Some?)
  }

  /** A complete legacy `G` packet: sixteen values, a hundred bytes that may be absent, a status. */
  predicate WellFormed(packet: seq<Byte>) {
    && |packet| == 337 && packet[0] == 0x47
    && Hex.AllHex(packet[1..129]) && Hex.AllHex(packet[329..337])
    && forall i :: 0 <= i < 100 ==> AbsentOrHex(packet[129 + 2 * i], packet[130 + 2 * i])
  }

  method IsHex(text: seq<Byte>) returns (hex: bool)
    ensures hex <==> Hex.AllHex(text)
  {
    for i := 0 to |text|
      invariant forall k :: 0 <= k < i ==> Hex.Value(text[k]).Some?
    {
      if Hex.Value(text[i]).None? {
        return false;
      }
    }
    return true;
  }

  /** read_u32_le_hex. */
  method ReadWord(text: seq<Byte>) returns (value: Word)
    requires |text| == 8 && Hex.AllHex(text)
    ensures value == ReadValue(text)
  {
    var b0: nat, b1: nat := Hex.Pair(text[0], text[1]), Hex.Pair(text[2], text[3]);
    var b2: nat, b3: nat := Hex.Pair(text[4], text[5]), Hex.Pair(text[6], text[7]);
    assert Hex.Decode(text) == [b0, b1, b2, b3];
    FourBytes(b0, b1, b2, b3);
    value := b0 + 0x100 * b1 + 0x1_0000 * b2 + 0x100_0000 * b3;
  }

  lemma FourBytes(b0: Byte, b1: Byte, b2: Byte, b3: Byte)
    ensures ValueOf([b0, b1, b2, b3]) == b0 as int + 0x100 * b1 as int + 0x1_0000 * b2 as int + 0x100_0000 * b3 as int
  {
    assert [b0, b1, b2, b3][1..] == [b1, b2, b3] && [b1, b2, b3][1..] == [b2, b3] && [b2, b3][1..] == [b3];
    assert ValueOf([b3]) == b3;
    assert ValueOf([b2, b3]) == b2 as int + 0x100 * b3 as int;
    assert ValueOf([b1, b2, b3]) == b1 as int + 0x100 * ValueOf([b2, b3]);
  }

  method ParseCorePacket(packet: seq<Byte>, explicit: bool) returns (r: Parsed)
    ensures r.Registers? <==> WellFormed(packet) && !explicit
    ensures r.Unsupported? <==> |packet| == 337 && packet[0] == 0x47 && explicit
    ensures r.Registers? ==> |r.core.r| == CORE && r.core.cpsr == ReadValue(packet[329..337])
    ensures r.Registers? ==> forall i :: 0 <= i < CORE ==> Hex.AllHex(packet[1 + 8 * i..9 + 8 * i]) && r.core.r[i] == ReadValue(packet[1 + 8 * i..9 + 8 * i])
  {
    if |packet| != 337 || packet[0] != LETTER_G {
      return Invalid;
    }
    if explicit {
      return Unsupported;
    }
    var head := IsHex(packet[1..129]);
    if !head {
      return Invalid;
    }
    for i := 0 to 100
      invariant forall k :: 0 <= k < i ==> AbsentOrHex(packet[129 + 2 * k], packet[130 + 2 * k])
    {
      if !AbsentOrHex(packet[129 + 2 * i], packet[130 + 2 * i]) {
        return Invalid;
      }
    }
    var tail := IsHex(packet[329..337]);
    if !tail {
      return Invalid;
    }
    var values: seq<Word> := [];
    for i := 0 to CORE
      invariant |values| == i
      invariant forall k :: 0 <= k < i ==> Hex.AllHex(packet[1 + 8 * k..9 + 8 * k]) && values[k] == ReadValue(packet[1 + 8 * k..9 + 8 * k])
    {
      SliceOfSlice(packet, 1, 129, 8 * i, 8 * i + 8);
      HexSlice(packet[1..129], 8 * i, 8 * i + 8);
      var value := ReadWord(packet[1 + 8 * i..9 + 8 * i]);
      values := values + [value];
    }
    var status := ReadWord(packet[329..337]);
    return Registers(Core(values, status));
  }

  lemma HexSlice(text: seq<Byte>, i: nat, j: nat)
    requires Hex.AllHex(text) && i <= j <= |text|
    ensures Hex.AllHex(text[i..j])
  {
  }

  /** Writing back what was read changes nothing: `G` and the legacy packet parse to the same
      registers. */
  method RoundTrip(core: Core, vfp: Option<Vfp>) returns (text: seq<Byte>, r: Parsed)
    requires Whole(core, vfp)
    ensures |text| == 336 && r == Registers(core)
  {
    hide Hex.Value, ValueText, WellFormed, Sliced, ReadValue, Start, SingleText;
    text := EncodePacket(core, vfp, false);
    var packet := [LETTER_G] + text;
    PacketParts(core, vfp, text);
    r := ParseCorePacket(packet, false);
    forall i | 0 <= i < CORE ensures r.core.r[i] == core.r[i] {
      ReadWordText(core.r[i]);
    }
    ReadWordText(core.cpsr);
    assert r.core.r == core.r;
  }

  lemma PacketParts(core: Core, vfp: Option<Vfp>, text: seq<Byte>)
    requires Whole(core, vfp) && |text| == 336 && Sliced(text, core, vfp, false)
    ensures var packet := [LETTER_G] + text;
      && WellFormed(packet)
      && (forall i :: 0 <= i < CORE ==> packet[1 + 8 * i..9 + 8 * i] == ValueText(core.r[i], 4))
      && packet[329..337] == ValueText(core.cpsr, 4)
  {
    hide Holds, Sliced, ValueText, Hex.Value, AbsentOrHex;
    var packet := [LETTER_G] + text;
    forall i | 0 <= i < CORE ensures packet[1 + 8 * i..9 + 8 * i] == ValueText(core.r[i], 4) {
      CorePart(core, vfp, text, i);
    }
    CorePart(core, vfp, text, CPSR);
    forall k | 0 <= k < 128 ensures Hex.Value(packet[1..129][k]).Some? {
      var i := k / 8;
      assert packet[1 + 8 * i..9 + 8 * i] == ValueText(core.r[i], 4);
      assert packet[1..129][k] == ValueText(core.r[i], 4)[k - 8 * i];
    }
    forall i | 0 <= i < 100 ensures AbsentOrHex(packet[129 + 2 * i], packet[130 + 2 * i]) {
      GapPart(core, vfp, text, i);
    }
  }

  lemma CorePart(core: Core, vfp: Option<Vfp>, text: seq<Byte>, number: nat)
    requires Whole(core, vfp) && |text| == 336 && Sliced(text, core, vfp, false) && (number < CORE || number == CPSR)
    ensures var start := Start(number, false); ([LETTER_G] + text)[start + 1..start + 9] == SingleText(core, vfp, false, number)
  {
    hide SingleText;
    var start := Start(number, false);
    assert Holds(text, core, vfp, false, number);
    assert ([LETTER_G] + text)[start + 1..start + 9] == text[start..start + 8];
  }

  lemma GapPart(core: Core, vfp: Option<Vfp>, text: seq<Byte>, i: nat)
    requires Whole(core, vfp) && |text| == 336 && Sliced(text, core, vfp, false) && i < 100
    ensures var packet := [LETTER_G] + text; AbsentOrHex(packet[129 + 2 * i], packet[130 + 2 * i])
  {
    var n := FPA_FIRST + i / 12;
    var start := Start(n, false);
    assert Holds(text, core, vfp, false, n);
    var slice := text[start..start + 2 * SizeOf(n)];
    assert slice == Absent(SizeOf(n));
    assert text[128 + 2 * i] == slice[128 + 2 * i - start] && text[129 + 2 * i] == slice[129 + 2 * i - start];
  }
}

/** Console output on the wire. */
module ConsoleFrames {
  import opened Bytes
  import opened RspFrame
  import Hex

  const LETTER_O: Byte := 0x4f

  lemma Nibbles(total: nat)
    ensures total % 256 == 16 * (total / 16 % 16) + total % 16
  {
  }

  lemma DigitReads(value: nat)
    requires value < 16
    ensures Hex.Value(Hex.Digit(value)) == Some(value)
  {
  }

  /** uvdb_rsp_encode_console_payload. */
  method EncodePayload(data: seq<Byte>) returns (payload: seq<Byte>)
    ensures payload == [0x4f] + Hex.Encode(data)
  {
    payload := [LETTER_O];
    for i := 0 to |data|
      invariant payload == [0x4f] + Hex.Encode(data[..i])
    {
      assert data[..i + 1][..i] == data[..i];
      payload := payload + [Hex.Digit(data[i] / 16), Hex.Digit(data[i] % 16)];
    }
    assert data[..|data|] == data;
  }

  lemma DigitsCheck(payload: seq<Byte>, total: nat)
    requires total == Total(payload)
    ensures Checks(payload, Hex.Digit(total / 16 % 16), Hex.Digit(total % 16))
  {
    hide Total, Sum, Hex.Value, Hex.Digit;
    SumIsTotal(payload);
    Nibbles(total);
    DigitReads(total / 16 % 16);
    DigitReads(total % 16);
  }

  lemma PayloadIsPlain(data: seq<Byte>)
    ensures Plain([0x4f] + Hex.Encode(data))
  {
    var payload := [0x4f] + Hex.Encode(data);
    forall i | 0 <= i < |payload| ensures payload[i] != DOLLAR && payload[i] != HASH && payload[i] != BRACE {
      if i > 0 {
        assert payload[i] == Hex.Encode(data)[i - 1];
      }
    }
  }

  /** transport_frame_record: the debugger's scanner reads the frame as one packet, and its hex
      digits decode to the record. */
  method FrameRecord(data: seq<Byte>) returns (frame: seq<Byte>, high: Byte, low: Byte)
    ensures var payload := [0x4f] + Hex.Encode(data);
      && frame == Framed(payload, high, low) && Checks(payload, high, low) && Plain(payload)
      && forall limit :: limit > 2 * |data| ==> Run(limit, Hunt, frame) == Trace(Hunt, [Packet(payload)])
    ensures |frame| == 2 * |data| + 5
    ensures Hex.AllHex(frame[2..2 * |data| + 2]) && Hex.Decode(frame[2..2 * |data| + 2]) == data
  {
    hide Run, Sum, Checks, Plain;
    var payload := EncodePayload(data);
    var checksum: nat := 0;
    for i := 0 to |payload|
      invariant checksum == Total(payload[..i])
    {
      assert payload[..i + 1][..i] == payload[..i];
      checksum := checksum + payload[i];
    }
    assert payload[..|payload|] == payload;
    high, low := Hex.Digit(checksum / 16 % 16), Hex.Digit(checksum % 16);
    frame := [DOLLAR] + payload + [HASH, high, low];
    assert frame[2..|payload| + 1] == Hex.Encode(data);
    Hex.DecodeEncode(data);
    DigitsCheck(payload, checksum);
    PayloadIsPlain(data);
    forall limit | limit > 2 * |data| ensures Run(limit, Hunt, frame) == Trace(Hunt, [Packet(payload)]) {
      FrameIsPacket(limit, payload, high, low);
    }
  }

  /** Inside a plain frame the scanner is never back at hunting. */
  lemma FramePrefixes(limit: nat, payload: seq<Byte>, high: Byte, low: Byte, n: nat)
    requires Plain(payload) && |payload| <= limit && 0 < n < |payload| + 4
    ensures !Run(limit, Hunt, Framed(payload, high, low)[..n]).state.Hunt?
  {
    hide Run, Sum;
    var input, marker := Framed(payload, high, low), |payload| + 1;
    if n <= marker {
      PlainBody(limit, payload, high, low, n - 1);
    } else {
      PlainBody(limit, payload, high, low, |payload|);
      BodyEnds(limit, input, marker);
      if n == marker + 2 {
        assert input[..n] == input[..marker + 1] + [input[marker + 1]];
        RunNext(limit, Hunt, input[..marker + 1], input[marker + 1]);
      }
    }
  }

  /** The frame scan of a plain frame can only find it complete. */
  lemma FrameScans(limit: nat, payload: seq<Byte>, high: Byte, low: Byte, r: Scan)
    requires Plain(payload) && |payload| <= limit && Checks(payload, high, low)
    requires Agrees(limit, Framed(payload, high, low), r)
    ensures r == Complete(|payload|)
  {
    hide Run, Sum;
    var input := Framed(payload, high, low);
    FrameIsPacket(limit, payload, high, low);
    assert input[..|input|] == input;
    match r
    case Incomplete =>
    case Complete(size) =>
      if size + 4 < |input| {
        FramePrefixes(limit, payload, high, low, size + 4);
      }
    case Discard(n, nack) =>
      if n < |input| {
        FramePrefixes(limit, payload, high, low, n);
        NoMarkerInside(payload, high, low, n);
      }
  }

  lemma NoMarkerInside(payload: seq<Byte>, high: Byte, low: Byte, n: nat)
    requires Plain(payload) && 0 < n < |payload| + 4 && Hex.Value(high).Some? && Hex.Value(low).Some?
    ensures Framed(payload, high, low)[n] != DOLLAR
  {
    if n <= |payload| {
      assert Framed(payload, high, low)[n] == payload[n - 1];
    }
  }

  /** Printing, scanning and decoding a record gives the record back. */
  method ReadBack(data: seq<Byte>, limit: nat) returns (r: Option<seq<Byte>>)
    requires limit > 2 * |data|
    ensures r == Some(data)
  {
    hide Run, Sum, Checks, Plain, Agrees;
    var frame, high, low := FrameRecord(data);
    var scan := ScanFrame(frame, limit);
    FrameScans(limit, [LETTER_O] + Hex.Encode(data), high, low, scan);
    r := Hex.DecodeBytes(frame[2..scan.size + 1], (scan.size - 1) / 2);
  }
}
