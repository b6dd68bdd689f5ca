/** Bytes, byte ranges and the memory splice shared by every module. */
module Bytes {

  type Byte = b: nat | b < 256

  datatype Option<+T> = None | Some(value: T)

  /** The half-open ranges [first, first + firstSize) and [second, second + secondSize)
      share an address. Written as the source writes it, with no sum that could wrap. */
  predicate Overlap(first: nat, firstSize: nat, second: nat, secondSize: nat) {
    if firstSize == 0 || secondSize == 0 then false
    else if first <= second then second - first < firstSize
    else first - second < secondSize
  }

  /** `memory` with `data` written at `address`. */
  function Splice(memory: seq<Byte>, address: nat, data: seq<Byte>): (r: seq<Byte>)
    requires address + |data| <= |memory|
    ensures |r| == |memory|
    ensures r[address..address + |data|] == data
    ensures forall a :: 0 <= a < |memory| && !(address <= a < address + |data|) ==> r[a] == memory[a]
    ensures forall a :: address <= a < address + |data| ==> r[a] == data[a - address]
  {
    memory[..address] + data + memory[address + |data|..]
  }

  lemma SliceOfSlice<T>(s: seq<T>, low: nat, high: nat, i: nat, j: nat)
    requires low <= high <= |s| && i <= j <= high - low
    ensures s[low..high][i..j] == s[low + i..low + j]
  {
    var slice, part := s[low..high][i..j], s[low + i..low + j];
    assert |slice| == |part|;
    forall k | 0 <= k < |slice| ensures slice[k] == part[k] {
      assert slice[k] == s[low..high][i + k] == s[low + i + k];
    }
  }

  /** `after` differs from `before` at most inside the given range. */
  ghost predicate SameOutside(before: seq<Byte>, after: seq<Byte>, address: nat, size: nat) {
    && |before| == |after|
    && forall a :: 0 <= a < |before| && !(address <= a < address + size) ==> after[a] == before[a]
  }
}
