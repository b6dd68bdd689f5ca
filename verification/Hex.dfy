/** Hexadecimal digits and byte spans as the remote protocol writes them. Text is ASCII codes. */
module Hex {
  import opened Bytes

  function Digit(value: nat): (d: Byte)
    requires value < 16
  {
    if value < 10 then 48 + value else 87 + value
  }

  /** The value of a digit of either case, or nothing. */
  function Value(d: Byte): (r: Option<nat>)
    ensures r.Some? ==> r.value < 16
  {
    if 48 <= d <= 57 then Some(d - 48)
    else if 97 <= d <= 102 then Some(d - 87)
    else if 65 <= d <= 70 then Some(d - 55)
    else None
  }

  /** The digits in ASCII: `0` to `9`, then `a` to `f` or `A` to `F`, and nothing else. */
  lemma DigitCodes(d: Byte, value: nat)
    requires value < 16
    ensures Value(d) == Some(value) <==>
      if value < 10 then d == 0x30 + value else d == 0x61 + value - 10 || d == 0x41 + value - 10
    ensures Digit(value) == if value < 10 then 0x30 + value else 0x61 + value - 10
  {
  }

  predicate AllHex(text: seq<Byte>) {
    forall i :: 0 <= i < |text| ==> Value(text[i]).Some?
  }

  function Pair(high: Byte, low: Byte): (b: Byte)
    requires Value(high).Some? && Value(low).Some?
  {
    16 * Value(high).value + Value(low).value
  }

  function Encode(data: seq<Byte>): (text: seq<Byte>)
    ensures |text| == 2 * |data|
    ensures AllHex(text)
    ensures forall i :: 0 <= i < |data| ==> Pair(text[2 * i], text[2 * i + 1]) == data[i]
  {
    if |data| == 0 then []
    else
      var n := |data| - 1;
      var front := Encode(data[..n]);
      var text := front + [Digit(data[n] / 16), Digit(data[n] % 16)];
      assert forall i :: 0 <= i < n ==> text[2 * i] == front[2 * i] && text[2 * i + 1] == front[2 * i + 1];
      text
  }

  /** Decoding of an even number of digits, byte by byte. */
  function Decode(text: seq<Byte>): (data: seq<Byte>)
    requires AllHex(text) && |text| % 2 == 0
    ensures |data| == |text| / 2
  {
    seq(|text| / 2, i requires 0 <= i < |text| / 2 => Pair(text[2 * i], text[2 * i + 1]))
  }

  /** Decoding undoes encoding. */
  lemma DecodeEncode(data: seq<Byte>)
    ensures Decode(Encode(data)) == data
  {
    var text := Encode(data);
    forall i | 0 <= i < |data| ensures Decode(text)[i] == data[i] {
      assert Decode(text)[i] == Pair(text[2 * i], text[2 * i + 1]);
    }
  }

  /** The strict decoder: nothing is produced unless the text is exactly `size` digit pairs. */
  method DecodeBytes(text: seq<Byte>, size: nat) returns (r: Option<seq<Byte>>)
    ensures r.Some? <==> |text| == 2 * size && AllHex(text)
    ensures r.Some? ==> r.value == Decode(text)
  {
    if |text| != 2 * size {
      return None;
    }
    for i := 0 to |text|
      invariant AllHex(text[..i])
    {
      if Value(text[i]).None? {
        assert !AllHex(text);
        return None;
      }
      assert text[..i + 1] == text[..i] + [text[i]];
    }
    assert text[..|text|] == text;
    var data: seq<Byte> := [];
    for i := 0 to size
      invariant |data| == i
      invariant forall j :: 0 <= j < i ==> data[j] == Pair(text[2 * j], text[2 * j + 1])
    {
      data := data + [Pair(text[2 * i], text[2 * i + 1])];
    }
    return Some(data);
  }
}
