/**
 * The code-patch layer of the debugger: breakpoint patch slots, the memory transaction, the
 * breakpoint table and the live memory write that lifts and re-arms breakpoints around itself.
 *
 * Target memory is reached only through `Read`, `Write` and `Sync`. They are adversarial: a
 * write may leave anything in its own range and report any count, a sync may fail, and only a
 * read that reports the full size is truthful. `obeyed` remembers whether the target has done all
 * that was asked of it so far: what must succeed then is stated beside what holds regardless.
 * Every write has to present a published recovery
 * record for each byte it may scramble, so the image is recoverable at every I/O point, not
 * only between calls.
 */
module CodePatch {
  import opened Bytes
  import opened PatchState
  import Hex

  const OK: int := 0
  const INVALID_ARGUMENT: int := -1
  const SLOT_IN_USE: int := -2
  const ORIGINAL_READ: int := -3
  const PATCH_WRITE: int := -4
  const PATCH_SYNC: int := -5
  const PATCH_READBACK: int := -6
  const PATCH_MISMATCH: int := -7
  const RESTORE_PENDING: int := -8

  const TX_OK: int := 0
  const TX_INVALID: int := -1
  const TX_READ_FAILED: int := -2
  const TX_RESTORED: int := -3
  const TX_RESTORE_PENDING: int := -4
  const TX_STATE_ERROR: int := -5

  const VERIFY_CHUNK: nat := 64

  /** Larger transactions would overflow the size of their storage, twice that and rounded up. */
  const STORAGE_MAX: nat := (0xffff_ffff - 4095) / 2

  const CLEAR: Breakpoint := Breakpoint(Empty, false)

  /** The permanently undefined instruction planted as a trap. */
  function Trap(size: nat): (t: seq<Byte>)
    requires size == 2 || size == 4
    ensures |t| == size
  {
    if size == 2 then [0x00, 0xde] else [0xf0, 0x00, 0xf0, 0xe7]
  }

  function Even(address: nat): nat {
    address - address % 2
  }

  /** What the table adds to the slots: instruction-aligned traps, and no stale mark. */
  ghost predicate TableOk(slots: seq<Breakpoint>) {
    forall i :: 0 <= i < |slots| ==>
      if slots[i].slot.Empty? then slots[i] == CLEAR
      else EntryShape(EntryOf(slots[i])) && slots[i].slot.patch == Trap(|slots[i].slot.original|)
  }

  predicate EntryShape(e: Entry) {
    RangeValid(e.address, e.size) && e.address % 2 == 0 && (e.size == 2 || (e.size == 4 && e.address % 4 == 0))
  }

  ghost predicate RearmOk(rearm: seq<Entry>) {
    && |rearm| <= SLOTS
    && (forall k :: 0 <= k < |rearm| ==> EntryShape(rearm[k]))
    && (forall k, l :: 0 <= k < l < |rearm| ==> rearm[k].address != rearm[l].address)
  }

  /** Slots at addresses outside the re-arm list are the same before and after. */
  ghost predicate OthersKept(before: seq<Breakpoint>, after: seq<Breakpoint>, rearm: seq<Entry>) {
    && |before| == |after|
    && forall i :: 0 <= i < |before| ==>
         || after[i] == before[i]
         || (&& (!before[i].slot.Empty? ==> Listed(rearm, before[i].slot.address))
             && (!after[i].slot.Empty? ==> Listed(rearm, after[i].slot.address)))
  }

  /** The breakpoints the client is owed: those outside the re-arm list, and the list itself. */
  ghost function Owed(slots: seq<Breakpoint>, rearm: seq<Entry>): set<Entry> {
    (set e | e in Entries(slots) && !Listed(rearm, e.address)) + (set k | 0 <= k < |rearm| :: rearm[k])
  }

  /** Every recorded breakpoint that is not about to be re-armed is really in place. */
  ghost predicate Settled(slots: seq<Breakpoint>, rearm: seq<Entry>) {
    forall i :: 0 <= i < |slots| && !slots[i].slot.Empty? && !Listed(rearm, slots[i].slot.address) ==>
      slots[i].slot.Installed?
  }

  lemma OwedKept(before: seq<Breakpoint>, after: seq<Breakpoint>, rearm: seq<Entry>)
    requires OthersKept(before, after, rearm)
    ensures Owed(after, rearm) == Owed(before, rearm)
    ensures Settled(before, rearm) ==> Settled(after, rearm)
  {
    forall e: Entry | !Listed(rearm, e.address) ensures e in Entries(before) <==> e in Entries(after) {
      if e in Entries(before) {
        var i :| 0 <= i < |before| && !before[i].slot.Empty? && EntryOf(before[i]) == e;
        assert after[i] == before[i];
      }
      if e in Entries(after) {
        var i :| 0 <= i < |after| && !after[i].slot.Empty? && EntryOf(after[i]) == e;
        assert after[i] == before[i];
      }
    }
  }

  /** Once every listed breakpoint is back under its own entry, the recorded set is the owed set. */
  lemma OwedReached(slots: seq<Breakpoint>, rearm: seq<Entry>)
    requires SlotsOk(slots) && RearmOk(rearm)
    requires forall k :: 0 <= k < |rearm| ==> InPlace(slots, rearm[k])
    ensures Entries(slots) == Owed(slots, rearm)
    ensures Settled(slots, rearm) ==> Settled(slots, [])
  {
    forall e | e in Entries(slots) && Listed(rearm, e.address)
      ensures e in (set k | 0 <= k < |rearm| :: rearm[k])
    {
      var i :| 0 <= i < |slots| && !slots[i].slot.Empty? && EntryOf(slots[i]) == e;
      var k :| 0 <= k < |rearm| && rearm[k].address == e.address;
      assert InPlace(slots, rearm[k]);
      var j :| 0 <= j < |slots| && slots[j].slot.Installed? && EntryOf(slots[j]) == rearm[k];
      OneSlotPerAddress(slots, i, j);
    }
    forall k | 0 <= k < |rearm| ensures rearm[k] in Entries(slots) {
      assert InPlace(slots, rearm[k]);
      var j :| 0 <= j < |slots| && slots[j].slot.Installed? && EntryOf(slots[j]) == rearm[k];
    }
    if Settled(slots, rearm) {
      forall i | 0 <= i < |slots| && !slots[i].slot.Empty? ensures slots[i].slot.Installed? {
        if Listed(rearm, slots[i].slot.address) {
          var k :| 0 <= k < |rearm| && rearm[k].address == slots[i].slot.address;
          assert InPlace(slots, rearm[k]);
          var j :| 0 <= j < |slots| && slots[j].slot.Installed? && EntryOf(slots[j]) == rearm[k];
          OneSlotPerAddress(slots, i, j);
        }
      }
    }
  }

  /** A breakpoint recorded at a listed address has the listed size. */
  ghost predicate SizesMatch(slots: seq<Breakpoint>, rearm: seq<Entry>) {
    forall i, k :: 0 <= i < |slots| && !slots[i].slot.Empty? && 0 <= k < |rearm| && rearm[k].address == slots[i].slot.address ==>
      |slots[i].slot.original| == rearm[k].size
  }

  // ---- room to put the listed breakpoints back ----

  /** The addresses where a breakpoint is recorded or listed. */
  ghost function Places(slots: seq<Breakpoint>, rearm: seq<Entry>): set<nat> {
    (set i | 0 <= i < |slots| && !slots[i].slot.Empty? :: slots[i].slot.address) + (set k | 0 <= k < |rearm| :: rearm[k].address)
  }

  /** Listed breakpoints overlap neither each other nor a recorded one, and there is a slot for each. */
  ghost predicate Room(slots: seq<Breakpoint>, rearm: seq<Entry>) {
    && (forall k, l :: 0 <= k < |rearm| && 0 <= l < |rearm| && k != l ==>
          !Overlap(rearm[k].address, rearm[k].size, rearm[l].address, rearm[l].size))
    && (forall i, k :: 0 <= i < |slots| && 0 <= k < |rearm| && !slots[i].slot.Empty? && !Listed(rearm, slots[i].slot.address) ==>
          !slots[i].slot.Overlaps(rearm[k].address, rearm[k].size))
    && |Places(slots, rearm)| <= SLOTS
  }

  /** No listed breakpoint is recorded in an uncertain state. */
  ghost predicate ListedCertain(slots: seq<Breakpoint>, rearm: seq<Entry>) {
    forall i :: 0 <= i < |slots| && !slots[i].slot.Empty? && Listed(rearm, slots[i].slot.address) ==> slots[i].slot.Installed?
  }

  lemma RoomKept(before: seq<Breakpoint>, after: seq<Breakpoint>, rearm: seq<Entry>)
    requires OthersKept(before, after, rearm) && Room(before, rearm)
    ensures Room(after, rearm)
  {
    forall a | a in Places(after, rearm) ensures a in Places(before, rearm) {
      if i :| 0 <= i < |after| && !after[i].slot.Empty? && after[i].slot.address == a {
        assert after[i] == before[i] || Listed(rearm, a);
      }
    }
    forall a | a in Places(before, rearm) ensures a in Places(after, rearm) {
      if i :| 0 <= i < |before| && !before[i].slot.Empty? && before[i].slot.address == a {
        assert after[i] == before[i] || Listed(rearm, a);
      }
    }
    assert Places(after, rearm) == Places(before, rearm);
    forall i, k | 0 <= i < |after| && 0 <= k < |rearm| && !after[i].slot.Empty? && !Listed(rearm, after[i].slot.address)
      ensures !after[i].slot.Overlaps(rearm[k].address, rearm[k].size)
    {
      assert after[i] == before[i];
    }
  }

  ghost function LiveAddresses(slots: seq<Breakpoint>, n: nat): set<nat>
    requires n <= |slots|
  {
    set i | 0 <= i < n && !slots[i].slot.Empty? :: slots[i].slot.address
  }

  /** At most one address a slot, and exactly one when every slot is live. */
  lemma {:induction false} CountLive(slots: seq<Breakpoint>, n: nat)
    requires SlotsOk(slots) && n <= |slots|
    ensures |LiveAddresses(slots, n)| <= n
    ensures (forall i :: 0 <= i < n ==> !slots[i].slot.Empty?) ==> |LiveAddresses(slots, n)| == n
  {
    if n > 0 {
      var m := n - 1;
      CountLive(slots, m);
      if slots[m].slot.Empty? {
        assert LiveAddresses(slots, n) == LiveAddresses(slots, m);
      } else {
        assert LiveAddresses(slots, n) == LiveAddresses(slots, m) + {slots[m].slot.address};
        if slots[m].slot.address in LiveAddresses(slots, m) {
          var i :| 0 <= i < m && !slots[i].slot.Empty? && slots[i].slot.address == slots[m].slot.address;
          OneSlotPerAddress(slots, i, m);
        }
      }
    }
  }

  /** A listed breakpoint that is not recorded finds an empty slot. */
  lemma FreeSlot(slots: seq<Breakpoint>, rearm: seq<Entry>, k: nat)
    requires SlotsOk(slots) && Room(slots, rearm) && k < |rearm|
    requires forall i :: 0 <= i < |slots| && !slots[i].slot.Empty? ==> slots[i].slot.address != rearm[k].address
    ensures exists i :: 0 <= i < |slots| && slots[i].slot.Empty?
  {
    if forall i :: 0 <= i < |slots| ==> !slots[i].slot.Empty? {
      CountLive(slots, |slots|);
      var live := LiveAddresses(slots, |slots|);
      assert rearm[k].address in Places(slots, rearm) && rearm[k].address !in live;
      Subset(live + {rearm[k].address}, Places(slots, rearm));
    }
  }

  lemma {:induction false} Subset<T>(small: set<T>, large: set<T>)
    requires small <= large
    ensures |small| <= |large|
  {
    if small != {} {
      var x :| x in small;
      Subset(small - {x}, large - {x});
    }
  }

  /** Breakpoints listed from the table always have room. */
  lemma RoomFromTable(slots: seq<Breakpoint>, rearm: seq<Entry>)
    requires SlotsOk(slots) && RearmOk(rearm) && forall k :: 0 <= k < |rearm| ==> RecordedIn(slots, rearm[k])
    ensures Room(slots, rearm)
  {
    CountLive(slots, |slots|);
    forall k | 0 <= k < |rearm| ensures rearm[k].address in LiveAddresses(slots, |slots|) {
      assert RecordedIn(slots, rearm[k]);
    }
    assert Places(slots, rearm) == LiveAddresses(slots, |slots|);
    forall k, l | 0 <= k < |rearm| && 0 <= l < |rearm| && k != l
      ensures !Overlap(rearm[k].address, rearm[k].size, rearm[l].address, rearm[l].size)
    {
      assert RecordedIn(slots, rearm[k]) && RecordedIn(slots, rearm[l]);
      var i :| 0 <= i < |slots| && !slots[i].slot.Empty? && rearm[k] == EntryOf(slots[i]);
      var j :| 0 <= j < |slots| && !slots[j].slot.Empty? && rearm[l] == EntryOf(slots[j]);
      assert i != j && !slots[j].slot.Overlaps(slots[i].slot.address, |slots[i].slot.original|);
    }
    forall i, k | 0 <= i < |slots| && 0 <= k < |rearm| && !slots[i].slot.Empty? && !Listed(rearm, slots[i].slot.address)
      ensures !slots[i].slot.Overlaps(rearm[k].address, rearm[k].size)
    {
      assert RecordedIn(slots, rearm[k]);
      var j :| 0 <= j < |slots| && !slots[j].slot.Empty? && rearm[k] == EntryOf(slots[j]);
      assert i != j && !slots[i].slot.Overlaps(slots[j].slot.address, |slots[j].slot.original|);
    }
  }

  ghost predicate InstalledAt(slots: seq<Breakpoint>, address: nat, size: nat) {
    exists i :: 0 <= i < |slots| && slots[i].slot.Installed? && slots[i].slot.address == address && |slots[i].slot.original| == size
  }

  /** The table after an attempt to insert `e`: at most that entry is new, in a slot that was
      empty; on success the trap is in place, and a plain refusal changes nothing. */
  ghost predicate Inserted(before: seq<Breakpoint>, after: seq<Breakpoint>, e: Entry, result: int) {
    && |before| == |after|
    && (forall i :: 0 <= i < |before| ==>
          || after[i] == before[i]
          || (&& before[i].slot.Empty? && !after[i].slot.Empty? && EntryOf(after[i]) == e
              && (after[i].slot.Pending? ==> result == RESTORE_PENDING)))
    && (Entries(after) == Entries(before) || Entries(after) == Entries(before) + {e})
    && (result == OK ==> InstalledAt(after, e.address, e.size))
    && (result != OK && result != RESTORE_PENDING ==> after == before)
  }

  /** What the table accepts from a client, when the target obeys. */
  ghost predicate Insertable(slots: seq<Breakpoint>, target: nat, size: nat) {
    && (size == 2 || (size == 4 && target % 4 == 0))
    && if Recorded(slots, target)
       then forall i :: 0 <= i < |slots| && !slots[i].slot.Empty? && slots[i].slot.address == target ==>
         |slots[i].slot.original| == size && slots[i].slot.Installed?
       else
         && RangeValid(target, size)
         && (forall i :: 0 <= i < |slots| ==> !slots[i].slot.Overlaps(target, size))
         && exists i :: 0 <= i < |slots| && slots[i].slot.Empty?
  }

  /** No slot is in an uncertain state. */
  predicate CertainSlots(slots: seq<Breakpoint>) {
    forall i :: 0 <= i < |slots| ==> !slots[i].slot.Pending?
  }

  ghost predicate Recorded(slots: seq<Breakpoint>, address: nat) {
    exists i :: 0 <= i < |slots| && !slots[i].slot.Empty? && slots[i].slot.address == address
  }

  /** A slot after an attempt to empty it. */
  ghost predicate Swept(before: Breakpoint, after: Breakpoint) {
    || after == CLEAR
    || (!before.slot.Empty? && after.slot.Pending? && EntryOf(after) == EntryOf(before))
  }

  ghost predicate RecordedIn(slots: seq<Breakpoint>, e: Entry) {
    exists j :: 0 <= j < |slots| && !slots[j].slot.Empty? && e == EntryOf(slots[j])
  }

  ghost predicate InPlace(slots: seq<Breakpoint>, e: Entry) {
    exists i :: 0 <= i < |slots| && slots[i].slot.Installed? && EntryOf(slots[i]) == e
  }

  /** Breakpoints that do not touch the span are the same, in the same slots. */
  ghost predicate Spared(before: seq<Breakpoint>, after: seq<Breakpoint>, address: nat, size: nat) {
    && |before| == |after|
    && forall i :: 0 <= i < |before| && !before[i].slot.Empty? && !before[i].slot.Overlaps(address, size) ==> after[i] == before[i]
  }

  ghost predicate AllOver(rearm: seq<Entry>, address: nat, size: nat) {
    forall k :: 0 <= k < |rearm| ==> Overlap(address, size, rearm[k].address, rearm[k].size)
  }

  /** Only breakpoints over the span are listed, so only they are disturbed. */
  lemma ListedSpares(before: seq<Breakpoint>, after: seq<Breakpoint>, rearm: seq<Entry>, address: nat, size: nat)
    requires OthersKept(before, after, rearm) && SizesMatch(before, rearm) && AllOver(rearm, address, size)
    ensures Spared(before, after, address, size)
  {
    forall i | 0 <= i < |before| && !before[i].slot.Empty? && !before[i].slot.Overlaps(address, size)
      ensures !Listed(rearm, before[i].slot.address)
    {
      forall k | 0 <= k < |rearm| ensures rearm[k].address != before[i].slot.address {
        assert Overlap(address, size, rearm[k].address, rearm[k].size);
      }
    }
  }

  lemma NothingSpared(slots: seq<Breakpoint>, address: nat, size: nat)
    ensures Spared(slots, slots, address, size)
  {
  }

  lemma SparedTwice(first: seq<Breakpoint>, second: seq<Breakpoint>, third: seq<Breakpoint>, address: nat, size: nat)
    requires Spared(first, second, address, size) && Spared(second, third, address, size)
    ensures Spared(first, third, address, size)
  {
  }

  /** How lifting the breakpoints out of a write's way went. */
  datatype Lift =
    | AllLifted
    | PutBack     // one would not come out, and all are back
    | StillOut    // one would not come out, and not all are back

  /** The image once the text's bytes are written. */
  ghost predicate Written(before: seq<Byte>, address: nat, data: seq<Byte>, size: nat, after: seq<Byte>) {
    && |data| == 2 * size && Hex.AllHex(data) && (size != 0 ==> address + size <= |before|)
    && after == if size == 0 then before else Splice(before, address, Hex.Decode(data))
  }

  /** A live write that an obedient target carries out. */
  predicate Writable(address: nat, data: seq<Byte>, size: nat) {
    size == 0 || (size <= STORAGE_MAX && address + size <= 0x1_0000_0000 && Hex.AllHex(data))
  }

  datatype Command =
    | InsertTrap(address: nat, size: nat, temporary: bool)
    | RemoveTrap(address: nat)
    | RemoveSteps
    | RemoveEvery
    | RetrySlots
    | RetryWrite
    | WriteMemory(address: nat, data: seq<Byte>, size: nat)

  /** What an obedient target makes of a command, with no write pending. */
  predicate Obedient(command: Command, result: int) {
    match command
    case InsertTrap(_, _, _) => true
    case WriteMemory(address, data, size) => result == if Writable(address, data, size) then 0 else -1
    case _ => result == 0
  }

  ghost function ImageStep(image: seq<Byte>, command: Command, result: int): (r: seq<Byte>)
    requires |image| == ADDRESS_SPACE
    ensures |r| == ADDRESS_SPACE
  {
    match command
    case WriteMemory(address, data, size) =>
      if result == 0 && 0 < size <= ADDRESS_SPACE - address && |data| == 2 * size && Hex.AllHex(data)
      then Splice(image, address, Hex.Decode(data)) else image
    case _ => image
  }

  /** The image a session leaves: only writes that reported success show. */
  ghost function ImageAfter(image: seq<Byte>, commands: seq<Command>, results: seq<int>): (r: seq<Byte>)
    requires |image| == ADDRESS_SPACE && |commands| == |results|
    ensures |r| == ADDRESS_SPACE
  {
    if |commands| == 0 then image
    else
      var n := |commands| - 1;
      ImageStep(ImageAfter(image, commands[..n], results[..n]), commands[n], results[n])
  }

  // ---- what one slot operation does, given what the target does ----

  /** The target's side of a write, a sync and a read-back: what the write left and reported. */
  datatype Answer = Answer(written: nat, left: seq<Byte>, sync: int, count: nat)

  const GOOD: int := 0

  /** A target that does as it is told. */
  function Obeys(data: seq<Byte>): Answer {
    Answer(|data|, data, GOOD, |data|)
  }

  datatype SlotRun = SlotRun(memory: seq<Byte>, slot: Slot, result: int)

  function Left(memory: seq<Byte>, address: nat, size: nat, io: Answer): (r: seq<Byte>)
    requires address + size <= |memory|
    ensures |r| == |memory|
  {
    if |io.left| == size then Splice(memory, address, io.left) else memory
  }

  function RestoreRun(memory: seq<Byte>, s: Slot, io: Answer): SlotRun
    requires s.Empty? || s.address + |s.original| <= |memory|
  {
    if s.Empty? then SlotRun(memory, Empty, OK)
    else
      var size, after := |s.original|, Left(memory, s.address, |s.original|, io);
      if io.written == size && io.sync == 0 && io.count == size && after[s.address..s.address + size] == s.original
      then SlotRun(after, Empty, OK)
      else SlotRun(after, Pending(s.address, s.original, s.patch), RESTORE_PENDING)
  }

  function PlantResult(after: seq<Byte>, address: nat, patch: seq<Byte>, io: Answer): int
    requires address + |patch| <= |after|
  {
    if io.written != |patch| then -4
    else if io.sync != 0 then -5
    else if io.count != |patch| then -6
    else if after[address..address + |patch|] != patch then -7
    else OK
  }

  function InstallRun(memory: seq<Byte>, address: nat, patch: seq<Byte>, read: nat, io: Answer, undo: Answer): SlotRun
    requires RangeValid(address, |patch|) && |memory| == ADDRESS_SPACE
  {
    var size := |patch|;
    if read != size then SlotRun(memory, Empty, ORIGINAL_READ)
    else
      var original, after := memory[address..address + size], Left(memory, address, size, io);
      var failure := PlantResult(after, address, patch, io);
      if failure == OK then SlotRun(after, Installed(address, original, patch), OK)
      else
        var undone := RestoreRun(after, Pending(address, original, patch), undo);
        if undone.result == OK then SlotRun(undone.memory, Empty, failure) else undone
  }

  ghost predicate Restores(memory: seq<Byte>, s: Slot, run: SlotRun)
    requires s.Empty? || s.address + |s.original| <= |memory|
  {
    exists io: Answer :: RestoreRun(memory, s, io) == run
  }

  ghost predicate Installs(memory: seq<Byte>, address: nat, patch: seq<Byte>, run: SlotRun)
    requires RangeValid(address, |patch|) && |memory| == ADDRESS_SPACE
  {
    exists read: nat, io: Answer, undo: Answer :: InstallRun(memory, address, patch, read, io, undo) == run
  }

  /** The invariant of the table, on values. */
  ghost predicate TableState(memory: seq<Byte>, slots: seq<Breakpoint>, tx: Transaction, rearm: seq<Entry>, code: seq<Byte>) {
    && SlotsOk(slots) && TransactionOk(tx)
    && Recovers(memory, slots, code) && TrapsHold(memory, slots)
    && TableOk(slots) && RearmOk(rearm)
  }

  class Debugger {
    var memory: seq<Byte>
    var slots: seq<Breakpoint>
    var tx: Transaction
    var rearm: seq<Entry>
    var capacity: nat
    /** The code beneath the breakpoints: what writing every slot back would leave. */
    ghost var code: seq<Byte>
    /** Every read, write, sync and allocation so far was carried out in full. */
    ghost var obeyed: bool

    /** The records' invariant: they recover the code and every claimed trap is in place. */
    ghost predicate Sound()
      reads this`memory, this`slots, this`tx, this`code
    {
      && SlotsOk(slots) && TransactionOk(tx)
      && Recovers(memory, slots, code) && TrapsHold(memory, slots)
    }

    /** No slot stands in the way of undoing a pending write. */
    predicate Lifted()
      reads this`slots, this`tx, this`rearm
    {
      SpanLifted(slots, tx, rearm)
    }

    /** The invariant between calls into the breakpoint table. */
    ghost predicate TableSound()
      reads this`memory, this`slots, this`tx, this`rearm, this`capacity, this`code
    {
      Sound() && TableOk(slots) && RearmOk(rearm) && capacity <= STORAGE_MAX
    }

    /** The same, when a pending write can be undone. */
    ghost predicate TableValid()
      reads this`memory, this`slots, this`tx, this`rearm, this`capacity, this`code
    {
      TableSound() && Lifted()
    }

    /** What the program's memory is, once every recorded obligation is honoured. */
    ghost function Image(): (r: seq<Byte>)
      requires Sound()
      ensures |r| == ADDRESS_SPACE
      reads this`memory, this`slots, this`tx, this`code
    {
      ImageOf(code, tx)
    }

    /** A new patch may go here without covering the span of a pending transaction, unless it
        is one that transaction lifted. */
    ghost predicate MayPatch(address: nat, size: nat)
      reads this`tx, this`rearm
    {
      tx.Overlaps(address, size) ==> tx.Applied? && Listed(rearm, address)
    }

    constructor (initial: seq<Byte>)
      requires |initial| == ADDRESS_SPACE
      ensures TableValid() && memory == initial && Image() == initial && Entries(slots) == {} && !HasPendingWrite()
      ensures forall i :: 0 <= i < SLOTS ==> slots[i] == CLEAR
      ensures obeyed
    {
      memory, code, obeyed := initial, initial, true;
      slots := seq(SLOTS, _ => CLEAR);
      tx, rearm, capacity := Idle, [], 0;
    }

    // ---- target I/O ----

    method Read(address: nat, size: nat) returns (count: nat, data: seq<Byte>)
      requires address + size <= |memory|
      modifies this`obeyed
      ensures count == size ==> data == memory[address..address + size]
      ensures obeyed <==> old(obeyed) && count == size
    {
      count := *;
      data := memory[address..address + size];
      if count != size {
        data := *;
      }
      obeyed := obeyed && count == size;
    }

    method Write(address: nat, data: seq<Byte>) returns (count: nat)
      requires |memory| == ADDRESS_SPACE && address + |data| <= ADDRESS_SPACE
      requires Obligated(slots, tx, address, |data|)
      modifies this`memory, this`obeyed
      ensures SameOutside(old(memory), memory, address, |data|)
      ensures obeyed <==> old(obeyed) && count == |data| && Holds(memory, address, data)
    {
      count := *;
      var left: seq<Byte> := *;
      if |left| == |data| {
        memory := Splice(memory, address, left);
      }
      obeyed := obeyed && count == |data| && Holds(memory, address, data);
    }

    method Sync(address: nat, size: nat) returns (status: int)
      modifies this`obeyed
      ensures obeyed <==> old(obeyed) && status == 0
    {
      status := *;
      obeyed := obeyed && status == 0;
    }

    // ---- one patch slot ----

    /** Write the recorded original back, synchronise and read it back; only when all three are
        exact is the record dropped. */
    method RestoreSlot(i: nat) returns (result: int)
      requires Sound() && i < SLOTS
      modifies this`obeyed, this`memory, this`slots
      ensures Sound() && code == old(code)
      ensures obeyed ==> old(obeyed) && result == OK
      ensures forall j :: 0 <= j < SLOTS && j != i ==> slots[j] == old(slots[j])
      ensures old(slots[i].slot).Empty? ==> result == OK && slots == old(slots) && memory == old(memory)
      ensures !old(slots[i].slot).Empty? ==>
        var s := old(slots[i].slot);
        && SameOutside(old(memory), memory, s.address, |s.original|)
        && (result == OK || result == RESTORE_PENDING)
        && slots[i] == Breakpoint(if result == OK then Empty else Pending(s.address, s.original, s.patch), old(slots[i].temporary))
        && (result == OK ==> Holds(memory, s.address, s.original))
        && Restores(old(memory), s, SlotRun(memory, slots[i].slot, result))
    {
      var s := slots[i].slot;
      if s.Empty? {
        return OK;
      }
      assert SlotOk(slots[i]) && |memory| == ADDRESS_SPACE;
      hide Recovers, Restores, SameOutside;
      var pending := Breakpoint(Pending(s.address, s.original, s.patch), slots[i].temporary);
      RelabelSlot(memory, slots, code, i, pending);
      slots := slots[i := pending];
      SlotObligated(i);
      ghost var m0 := memory;
      var written := Write(s.address, s.original);
      ScrambleSlot(m0, memory, slots, code, i);
      var sync := Sync(s.address, |s.original|);
      var count, readback := Read(s.address, |s.original|);
      RestoresBy(m0, s, written, sync, count, memory);
      if written != |s.original| || sync != 0 || count != |s.original| || readback != s.original {
        return RESTORE_PENDING;
      }
      var clear := Breakpoint(Empty, slots[i].temporary);
      RetireSlot(memory, slots, code, i, clear);
      slots := slots[i := clear];
      return OK;
    }

    static lemma RestoresBy(memory: seq<Byte>, s: Slot, written: nat, sync: int, count: nat, after: seq<Byte>)
      requires !s.Empty? && s.address + |s.original| <= |memory| && SameOutside(memory, after, s.address, |s.original|)
      ensures |after| == |memory| && Restores(memory, s,
        if written == |s.original| && sync == 0 && count == |s.original| && after[s.address..s.address + |s.original|] == s.original
        then SlotRun(after, Empty, OK) else SlotRun(after, Pending(s.address, s.original, s.patch), RESTORE_PENDING))
    {
      var io := Answer(written, after[s.address..s.address + |s.original|], sync, count);
      assert Left(memory, s.address, |s.original|, io) == after;
      var run := RestoreRun(memory, s, io);
    }

    /** Capture the original, publish the record, then plant the patch and check it; any doubt
        triggers one rollback. */
    method InstallSlot(i: nat, address: nat, patch: seq<Byte>) returns (result: int)
      requires Sound() && i < SLOTS
      requires forall j :: 0 <= j < SLOTS && j != i ==> !slots[j].slot.Overlaps(address, |patch|)
      modifies this`obeyed, this`memory, this`slots
      ensures Sound() && code == old(code)
      ensures obeyed ==> old(obeyed) && (RangeValid(address, |patch|) && old(slots[i].slot).Empty? ==> result == OK)
      ensures forall j :: 0 <= j < SLOTS && j != i ==> slots[j] == old(slots[j])
      ensures !RangeValid(address, |patch|) ==> result == INVALID_ARGUMENT
      ensures |patch| > 4 ==> result == INVALID_ARGUMENT
      ensures RangeValid(address, |patch|) && !old(slots[i].slot).Empty? ==> result == -2
      ensures slots[i].temporary == old(slots[i].temporary)
      ensures
        || (&& result == OK && RangeValid(address, |patch|) && old(slots[i].slot).Empty?
            && slots[i].slot == Installed(address, old(memory)[address..address + |patch|], patch)
            && memory == Splice(old(memory), address, patch))
        || (&& result == RESTORE_PENDING && RangeValid(address, |patch|) && old(slots[i].slot).Empty?
            && slots[i].slot == Pending(address, old(memory)[address..address + |patch|], patch)
            && SameOutside(old(memory), memory, address, |patch|))
        || (&& result < 0 && result != RESTORE_PENDING && slots == old(slots) && memory == old(memory))
      ensures RangeValid(address, |patch|) && old(slots[i].slot).Empty? ==>
        Installs(old(memory), address, patch, SlotRun(memory, slots[i].slot, result))
    {
      assert |memory| == ADDRESS_SPACE;
      hide Recovers, TrapsHold, InstallRun, RestoreRun, PlantResult, Left, Restores, Installs;
      var size := |patch|;
      if !RangeValid(address, size) {
        return INVALID_ARGUMENT;
      }
      if !slots[i].slot.Empty? {
        return SLOT_IN_USE;
      }
      ghost var m0 := memory;
      var count, original := Read(address, size);
      if count != size {
        InstallNotRead(m0, address, patch, count);
        return ORIGINAL_READ;
      }
      Publish(i, address, original, patch);
      result := PlantOrUndo(i);
    }

    /** Plant a published patch; any doubt puts the original back. */
    method PlantOrUndo(i: nat) returns (result: int)
      requires Sound() && i < SLOTS && slots[i].slot.Pending? && Holds(memory, slots[i].slot.address, slots[i].slot.original)
      modifies this`obeyed, this`memory, this`slots
      ensures Sound() && |slots| == |old(slots)| && slots == old(slots)[i := slots[i]]
      ensures obeyed ==> old(obeyed) && result == OK
      ensures slots[i].temporary == old(slots[i].temporary)
      ensures var s := old(slots[i].slot);
        || (result == OK && slots[i].slot == Installed(s.address, s.original, s.patch) && memory == Splice(old(memory), s.address, s.patch))
        || (result == RESTORE_PENDING && slots[i].slot == s && SameOutside(old(memory), memory, s.address, |s.patch|))
        || (result < 0 && result != RESTORE_PENDING && slots[i].slot.Empty? && memory == old(memory))
      ensures var s := old(slots[i].slot);
        RangeValid(s.address, |s.patch|) && |old(memory)| == ADDRESS_SPACE && |s.patch| == |s.original| &&
        Installs(old(memory), s.address, s.patch, SlotRun(memory, slots[i].slot, result))
    {
      ghost var m0 := memory;
      ghost var s := slots[i].slot;
      assert SlotOk(slots[i]) && |m0| == ADDRESS_SPACE;
      hide Recovers, TrapsHold, InstallRun, RestoreRun, PlantResult, Left, Restores, Installs, Holds, SameOutside;
      var failure, io := Plant(i);
      ghost var m1 := memory;
      if failure == OK {
        PatchedIsSplice(m0, m1, s.address, s.patch);
        ConfirmPatch(i);
        InstallPlanted(m0, s.address, s.original, s.patch, io, m1);
        return OK;
      }
      assert s == Pending(s.address, s.original, s.patch);
      var rollback := RestoreSlot(i);
      assert slots == old(slots)[i := slots[i]];
      OutsideTwice(m0, m1, memory, s.address, |s.patch|);
      InstallUndone(m0, s.address, s.original, s.patch, io, m1, failure, SlotRun(memory, slots[i].slot, rollback));
      if rollback != OK {
        return RESTORE_PENDING;
      }
      RestoredIsSame(m0, memory, s.address, s.original);
      return failure;
    }

    static lemma PatchedIsSplice(before: seq<Byte>, after: seq<Byte>, address: nat, patch: seq<Byte>)
      requires SameOutside(before, after, address, |patch|) && Holds(after, address, patch)
      ensures address + |patch| <= |before| && after == Splice(before, address, patch)
    {
    }

    static lemma RestoredIsSame(before: seq<Byte>, after: seq<Byte>, address: nat, original: seq<Byte>)
      requires SameOutside(before, after, address, |original|) && Holds(after, address, original) && Holds(before, address, original)
      ensures after == before
    {
      forall a | 0 <= a < |before| ensures after[a] == before[a] {
        if address <= a < address + |original| {
          assert after[a] == after[address..address + |original|][a - address];
          assert before[a] == before[address..address + |original|][a - address];
        }
      }
    }

    static lemma OutsideTwice(first: seq<Byte>, second: seq<Byte>, third: seq<Byte>, address: nat, size: nat)
      requires SameOutside(first, second, address, size) && SameOutside(second, third, address, size)
      ensures SameOutside(first, third, address, size)
    {
    }

    static lemma InstallNotRead(memory: seq<Byte>, address: nat, patch: seq<Byte>, read: nat)
      requires RangeValid(address, |patch|) && |memory| == ADDRESS_SPACE && read != |patch|
      ensures Installs(memory, address, patch, SlotRun(memory, Empty, ORIGINAL_READ))
    {
      assert InstallRun(memory, address, patch, read, Obeys([]), Obeys([])) == SlotRun(memory, Empty, ORIGINAL_READ);
    }

    static lemma InstallPlanted(memory: seq<Byte>, address: nat, original: seq<Byte>, patch: seq<Byte>, io: Answer, after: seq<Byte>)
      requires RangeValid(address, |patch|) && |memory| == ADDRESS_SPACE && |original| == |patch| && Holds(memory, address, original)
      requires after == Left(memory, address, |patch|, io) && PlantResult(after, address, patch, io) == OK
      ensures Installs(memory, address, patch, SlotRun(after, Installed(address, original, patch), OK))
    {
      assert InstallRun(memory, address, patch, |patch|, io, io) == SlotRun(after, Installed(address, original, patch), OK);
    }

    static lemma InstallUndone(memory: seq<Byte>, address: nat, original: seq<Byte>, patch: seq<Byte>, io: Answer, after: seq<Byte>, failure: int, run: SlotRun)
      requires RangeValid(address, |patch|) && |memory| == ADDRESS_SPACE && |original| == |patch| && Holds(memory, address, original)
      requires after == Left(memory, address, |patch|, io) && failure == PlantResult(after, address, patch, io) != OK
      requires Restores(after, Pending(address, original, patch), run)
      ensures Installs(memory, address, patch, if run.result == OK then SlotRun(run.memory, Empty, failure) else run)
    {
      var undo: Answer :| RestoreRun(after, Pending(address, original, patch), undo) == run;
      var whole := InstallRun(memory, address, patch, |patch|, io, undo);
      assert whole == if run.result == OK then SlotRun(run.memory, Empty, failure) else run;
    }

    /** Record the original bytes in an empty slot, before anything is written. */
    method Publish(i: nat, address: nat, original: seq<Byte>, patch: seq<Byte>)
      requires Sound() && i < SLOTS && slots[i].slot.Empty?
      requires RangeValid(address, |patch|) && |original| == |patch| && Holds(memory, address, original)
      requires forall j :: 0 <= j < SLOTS ==> !slots[j].slot.Overlaps(address, |patch|)
      modifies this`slots
      ensures Sound()
      ensures slots == old(slots)[i := Breakpoint(Pending(address, original, patch), old(slots[i].temporary))]
    {
      var pending := Breakpoint(Pending(address, original, patch), slots[i].temporary);
      PublishSlot(memory, slots, code, i, pending);
      slots := slots[i := pending];
    }

    /** Write the patch of a published slot and check that it took. */
    method Plant(i: nat) returns (failure: int, ghost io: Answer)
      requires Sound() && i < SLOTS && slots[i].slot.Pending?
      modifies this`obeyed, this`memory
      ensures Sound() && SameOutside(old(memory), memory, slots[i].slot.address, |slots[i].slot.patch|)
      ensures obeyed ==> old(obeyed) && failure == OK
      ensures failure == OK ==> Holds(memory, slots[i].slot.address, slots[i].slot.patch)
      ensures failure != OK ==> PATCH_MISMATCH <= failure <= PATCH_WRITE
      ensures var s := slots[i].slot;
        s.address + |s.patch| <= |old(memory)| && memory == Left(old(memory), s.address, |s.patch|, io) && failure == PlantResult(memory, s.address, s.patch, io)
    {
      var s := slots[i].slot;
      var size := |s.patch|;
      assert SlotOk(slots[i]);
      SlotObligated(i);
      var written := Write(s.address, s.patch);
      ScrambleSlot(old(memory), memory, slots, code, i);
      io := Answer(written, memory[s.address..s.address + size], 0, 0);
      assert memory == Left(old(memory), s.address, size, io);
      if written != size {
        return PATCH_WRITE, io;
      }
      var sync := Sync(s.address, size);
      io := io.(sync := sync);
      if sync != 0 {
        return PATCH_SYNC, io;
      }
      var count, readback := Read(s.address, size);
      io := io.(count := count);
      if count != size {
        return PATCH_READBACK, io;
      }
      if readback != s.patch {
        return PATCH_MISMATCH, io;
      }
      return OK, io;
    }

    /** A patch read back exactly is in place. */
    method ConfirmPatch(i: nat)
      requires Sound() && i < SLOTS && slots[i].slot.Pending?
      requires Holds(memory, slots[i].slot.address, slots[i].slot.patch)
      modifies this`slots
      ensures Sound()
      ensures var s := old(slots[i].slot);
        slots == old(slots)[i := Breakpoint(Installed(s.address, s.original, s.patch), old(slots[i].temporary))]
    {
      var s := slots[i].slot;
      var installed := Breakpoint(Installed(s.address, s.original, s.patch), slots[i].temporary);
      RelabelSlot(memory, slots, code, i, installed);
      slots := slots[i := installed];
    }

    /** Slots that only go, or stay where they are, do not get in the way of anything. */
    lemma KeepLifted(before: seq<Breakpoint>, after: seq<Breakpoint>)
      requires |before| == |after|
      requires forall j :: 0 <= j < |after| && !after[j].slot.Empty? ==>
        && !before[j].slot.Empty? && after[j].slot.address == before[j].slot.address
        && |after[j].slot.original| == |before[j].slot.original|
      ensures SpanLifted(before, tx, rearm) ==> SpanLifted(after, tx, rearm)
    {
    }

    lemma SlotObligated(i: nat)
      requires Sound() && i < SLOTS && slots[i].slot.Pending?
      ensures Obligated(slots, tx, slots[i].slot.address, |slots[i].slot.original|)
    {
      var s := slots[i].slot;
      forall a, j | s.address <= a < s.address + |s.original| && 0 <= j < SLOTS && slots[j].slot.Installed?
        ensures !slots[j].slot.Covers(a)
      {
        assert !slots[j].slot.Overlaps(s.address, |s.original|);
      }
      forall a | s.address <= a < s.address + |s.original| ensures !Bare(slots, a) {
        assert slots[i].slot.Covers(a);
      }
    }

    predicate HasPendingWrite()
      reads this`tx, this`rearm
    {
      |rearm| != 0 || !tx.Idle?
    }

    // ---- the memory transaction ----

    /** One read of the comparison, into its 64-byte buffer. */
    method ReadChunk(address: nat, size: nat) returns (count: nat, data: seq<Byte>)
      requires address + size <= |memory| && size <= 64
      modifies this`obeyed
      ensures count == size ==> data == memory[address..address + size]
      ensures obeyed <==> old(obeyed) && count == size
    {
      count, data := Read(address, size);
    }

    /** Compare a span with the expected bytes, one bounded chunk at a time. */
    method VerifyBytes(address: nat, expected: seq<Byte>) returns (ok: bool)
      requires address + |expected| <= |memory|
      modifies this`obeyed
      ensures ok ==> Holds(memory, address, expected)
      ensures obeyed ==> old(obeyed) && (ok <==> Holds(memory, address, expected))
    {
      var offset := 0;
      while offset < |expected|
        invariant offset <= |expected|
        invariant obeyed ==> old(obeyed)
        invariant Holds(memory, address, expected[..offset])
      {
        var chunk := |expected| - offset;
        if chunk > VERIFY_CHUNK {
          chunk := VERIFY_CHUNK;
        }
        var count, observed := ReadChunk(address + offset, chunk);
        if count != chunk || observed != expected[offset..offset + chunk] {
          SliceOfSlice(memory, address, address + |expected|, offset, offset + chunk);
          return false;
        }
        var next := offset + chunk;
        assert memory[address..address + next] == memory[address..address + offset] + memory[address + offset..address + next];
        assert expected[..next] == expected[..offset] + expected[offset..next];
        offset := next;
      }
      assert expected[..offset] == expected;
      return true;
    }

    /** Snapshot the span and publish the obligation before anything may change. */
    method PrepareTransaction(address: nat, size: nat) returns (result: int)
      requires Sound() && forall i :: 0 <= i < SLOTS ==> !slots[i].slot.Overlaps(address, size)
      modifies this`obeyed, this`tx
      ensures Sound() && Image() == old(Image())
      ensures obeyed ==> old(obeyed)
      ensures obeyed ==> (result == TX_OK <==> old(tx).Idle? && size <= capacity && (size == 0 || address + size <= ADDRESS_SPACE))
      ensures result == TX_OK || result == TX_INVALID || result == TX_READ_FAILED
      ensures result != TX_OK || size == 0 ==> tx == old(tx)
      ensures result == TX_OK && size != 0 ==>
        && old(tx).Idle? && size <= capacity && address + size <= ADDRESS_SPACE
        && tx == Prepared(address, code[address..address + size])
    {
      if !tx.Idle? || size > capacity || (size != 0 && address + size > ADDRESS_SPACE) {
        return TX_INVALID;
      }
      if size == 0 {
        return TX_OK;
      }
      var count, original := Read(address, size);
      if count != size {
        return TX_READ_FAILED;
      }
      BareSpan(memory, slots, code, address, size);
      tx := Prepared(address, original);
      assert Splice(code, address, original) == code;
      return TX_OK;
    }

    /** The later of two writes to one span decides. */
    static lemma SpliceOver(bytes: seq<Byte>, address: nat, first: seq<Byte>, second: seq<Byte>)
      requires |first| == |second| && address + |first| <= |bytes|
      ensures Splice(Splice(bytes, address, first), address, second) == Splice(bytes, address, second)
    {
    }

    /** A write over the span of the pending transaction, with no slot in the way: the code
        beneath may change there, the image does not. */
    method WriteSpan(data: seq<Byte>) returns (count: nat)
      requires Sound() && !tx.Idle? && |data| == |tx.original|
      requires forall i :: 0 <= i < SLOTS ==> !slots[i].slot.Overlaps(tx.address, |tx.original|)
      modifies this`obeyed, this`memory, this`code
      ensures Sound() && Image() == old(Image())
      ensures code == Splice(old(code), tx.address, memory[tx.address..tx.address + |tx.original|])
      ensures obeyed ==> old(obeyed) && count == |data| && Holds(memory, tx.address, data)
    {
      SpanObligated();
      assert |memory| == |code| == ADDRESS_SPACE;
      hide Recovers, TrapsHold, Obligated;
      ghost var before := memory;
      count := Write(tx.address, data);
      ScrambleSpan(before, memory, slots, code, tx.address, |data|);
      ghost var left := memory[tx.address..tx.address + |data|];
      SpliceOver(code, tx.address, left, tx.original);
      code := Splice(code, tx.address, left);
    }

    lemma SpanObligated()
      requires Sound() && !tx.Idle?
      requires forall i :: 0 <= i < SLOTS ==> !slots[i].slot.Overlaps(tx.address, |tx.original|)
      ensures Obligated(slots, tx, tx.address, |tx.original|)
    {
      forall a, j | tx.address <= a < tx.address + |tx.original| && 0 <= j < SLOTS && slots[j].slot.Installed?
        ensures !slots[j].slot.Covers(a)
      {
        assert !slots[j].slot.Overlaps(tx.address, |tx.original|);
      }
    }

    /** Put the original span back; the obligation ends only when write, sync and readback agree. */
    method RestoreTransaction() returns (result: int)
      requires Sound()
      requires forall i :: 0 <= i < SLOTS && !tx.Idle? ==> !slots[i].slot.Overlaps(tx.address, |tx.original|)
      modifies this`obeyed, this`memory, this`code, this`tx
      ensures Sound() && Image() == old(Image())
      ensures obeyed ==> old(obeyed) && (!old(tx).Idle? ==> result == TX_RESTORED)
      ensures old(tx).Idle? ==> result == TX_STATE_ERROR && memory == old(memory) && code == old(code)
      ensures !old(tx).Idle? ==> result == TX_RESTORED || result == TX_RESTORE_PENDING
      ensures result == TX_RESTORED ==> tx.Idle?
      ensures result != TX_RESTORED ==> tx == old(tx)
    {
      if tx.Idle? {
        return TX_STATE_ERROR;
      }
      var written := WriteSpan(tx.original);
      var sync := Sync(tx.address, |tx.original|);
      var same := VerifyBytes(tx.address, tx.original);
      if written == |tx.original| && sync >= 0 && same {
        assert Splice(code, tx.address, tx.original) == code;
        tx := Idle;
        return TX_RESTORED;
      }
      return TX_RESTORE_PENDING;
    }

    /** Write and verify the new bytes over a prepared span, or roll back. */
    method ApplyTransaction(input: seq<Byte>) returns (result: int)
      requires Sound()
      requires forall i :: 0 <= i < SLOTS && !tx.Idle? ==> !slots[i].slot.Overlaps(tx.address, |tx.original|)
      modifies this`obeyed, this`memory, this`code, this`tx
      ensures Sound() && Image() == old(Image())
      ensures (!old(tx).Prepared? || |input| != |old(tx).original|) <==> result == TX_INVALID
      ensures obeyed ==> old(obeyed) && (result == TX_OK || result == TX_INVALID)
      ensures result == TX_INVALID ==> tx == old(tx) && memory == old(memory) && code == old(code)
      ensures result == TX_OK || result == TX_INVALID || result == TX_RESTORED || result == TX_RESTORE_PENDING
      ensures result == TX_OK ==>
        tx == Applied(old(tx).address, old(tx).original) && code == Splice(old(Image()), tx.address, input)
      ensures result == TX_RESTORED ==> tx.Idle?
      ensures result == TX_RESTORE_PENDING ==> tx == old(tx)
    {
      if !tx.Prepared? || |input| != |tx.original| {
        return TX_INVALID;
      }
      ghost var before := code;
      var written := WriteSpan(input);
      var sync := Sync(tx.address, |input|);
      var same := VerifyBytes(tx.address, input);
      if written != |input| || sync < 0 || !same {
        result := RestoreTransaction();
        return;
      }
      assert code == Splice(Splice(before, tx.address, tx.original), tx.address, input);
      tx := Applied(tx.address, tx.original);
      return TX_OK;
    }

    /** Accept the applied bytes: from here on they are the image. */
    method CommitTransaction() returns (result: int)
      requires Sound()
      modifies this`tx
      ensures Sound()
      ensures result == (if old(tx).Applied? then TX_OK else TX_STATE_ERROR)
      ensures result == TX_OK ==> tx.Idle? && Image() == code
      ensures result != TX_OK ==> tx == old(tx)
    {
      if !tx.Applied? {
        return TX_STATE_ERROR;
      }
      tx := Idle;
      return TX_OK;
    }

    // ---- the breakpoint table ----

    /** The slot recording `address`, with the Thumb bit cleared. */
    method Find(address: nat) returns (found: Option<nat>)
      requires Sound()
      ensures found.Some? ==> found.value < SLOTS && !slots[found.value].slot.Empty? && slots[found.value].slot.address == Even(address)
      ensures found.None? ==> forall i :: 0 <= i < SLOTS && !slots[i].slot.Empty? ==> slots[i].slot.address != Even(address)
    {
      for i := 0 to SLOTS
        invariant forall j :: 0 <= j < i && !slots[j].slot.Empty? ==> slots[j].slot.address != Even(address)
      {
        if !slots[i].slot.Empty? && slots[i].slot.address == Even(address) {
          return Some(i);
        }
      }
      return None;
    }

    /** Plant a trap, unless one of the same size is already there. */
    method Insert(address: nat, size: nat, temporary: bool) returns (result: int)
      requires TableSound()
      modifies this`obeyed, this`memory, this`slots
      ensures TableSound() && code == old(code)
      ensures old(Lifted()) && old(MayPatch(Even(address), size)) ==> Lifted()
      ensures result == OK ==> size == 2 || size == 4
      ensures Inserted(old(slots), slots, Entry(Even(address), size, temporary), result)
      ensures result < 0 && result != RESTORE_PENDING ==> slots == old(slots) && memory == old(memory)
      ensures result <= OK
      ensures result == OK ==> Holds(memory, Even(address), if size == 2 then [0x00, 0xde] else [0xf0, 0x00, 0xf0, 0xe7])
      ensures obeyed ==> old(obeyed) && (result == OK <==> old(Insertable(slots, Even(address), size)))
      ensures obeyed && result == RESTORE_PENDING ==> !CertainSlots(old(slots))
    {
      hide Recovers, TrapsHold, Entries, Insertable, Holds, Inserted, SpanLifted, TableOk, SlotsOk, RearmOk, CertainSlots;
      var target := Even(address);
      TableSize(slots);
      NothingInserted(slots, Entry(target, size, temporary));
      if size != 2 && size != 4 {
        NotInsertable(slots, target, size);
        return -1;
      }
      if size == 4 && target % 4 != 0 {
        NotInsertable(slots, target, size);
        return -1;
      }
      var existing := Find(target);
      if existing.Some? {
        InsertExisting(memory, slots, existing.value, size, temporary);
        if |slots[existing.value].slot.original| != size {
          return -1;
        }
        return if slots[existing.value].slot.Installed? then OK else RESTORE_PENDING;
      }
      var conflict := Conflicts(target, size);
      var free := FreeIndex();
      InsertNew(slots, target, size);
      if conflict {
        return -1;
      }
      if free == SLOTS {
        return -1;
      }
      result := InsertAt(free, target, size, temporary);
      FillInserted(old(slots), slots, free, Entry(target, size, temporary), result, tx, rearm);
    }

    static lemma TableSize(slots: seq<Breakpoint>)
      requires SlotsOk(slots)
      ensures |slots| == SLOTS
    {
    }

    static lemma NothingInserted(slots: seq<Breakpoint>, e: Entry)
      ensures forall result :: result != OK ==> Inserted(slots, slots, e, result)
    {
    }

    /** One more slot is in use, for the entry asked for. */
    static lemma FillInserted(before: seq<Breakpoint>, after: seq<Breakpoint>, free: nat, e: Entry, result: int, tx: Transaction, rearm: seq<Entry>)
      requires free < |before| && before[free].slot.Empty? && |after| == |before| && after == before[free := after[free]]
      requires after[free].slot.Empty? ==> after == before && result != OK
      requires !after[free].slot.Empty? ==> EntryOf(after[free]) == e && result == if after[free].slot.Installed? then OK else RESTORE_PENDING
      ensures Inserted(before, after, e, result)
      ensures SpanLifted(before, tx, rearm) && (tx.Overlaps(e.address, e.size) ==> tx.Applied? && Listed(rearm, e.address)) ==>
        SpanLifted(after, tx, rearm)
    {
      if !after[free].slot.Empty? {
        EntriesFill(before, free, after[free]);
        forall i | SpanLifted(before, tx, rearm) && !tx.Idle? && 0 <= i < |after| && i != free && after[i].slot.Overlaps(tx.address, |tx.original|)
          ensures tx.Applied? && Listed(rearm, after[i].slot.address)
        {
          assert after[i] == before[i];
        }
      }
    }

    /** Plant a trap that nothing is in the way of, in a slot that is free. */
    method InsertAt(free: nat, target: nat, size: nat, temporary: bool) returns (result: int)
      requires TableSound() && free < SLOTS && slots[free].slot.Empty?
      requires target % 2 == 0 && (size == 2 || (size == 4 && target % 4 == 0))
      requires forall i :: 0 <= i < SLOTS ==> !slots[i].slot.Overlaps(target, size)
      modifies this`obeyed, this`memory, this`slots
      ensures TableSound() && code == old(code) && slots == old(slots)[free := slots[free]]
      ensures slots[free].slot.Empty? ==> slots == old(slots) && memory == old(memory) && result < 0 && result != RESTORE_PENDING
      ensures !slots[free].slot.Empty? ==> EntryOf(slots[free]) == Entry(target, size, temporary)
      ensures slots[free].slot.Pending? ==> result == RESTORE_PENDING
      ensures slots[free].slot.Installed? ==>
        result == OK && Holds(memory, target, if size == 2 then [0x00, 0xde] else [0xf0, 0x00, 0xf0, 0xe7])
      ensures obeyed ==> old(obeyed)
      ensures obeyed ==> result == if RangeValid(target, size) then OK else INVALID_ARGUMENT
    {
      hide Recovers, TrapsHold, Entries, Installs, Restores, Holds;
      slots := slots[free := Breakpoint(Empty, temporary)];
      MarkEmpty(old(slots), free, temporary);
      result := InstallSlot(free, target, Trap(size));
      if slots[free].slot.Empty? {
        MarkEmpty(slots, free, false);
        slots := slots[free := CLEAR];
        assert slots == old(slots);
      } else {
        assert slots == old(slots)[free := slots[free]];
        TrapThere(memory, slots, free);
      }
    }

    method Conflicts(target: nat, size: nat) returns (conflict: bool)
      requires |slots| == SLOTS
      ensures conflict <==> exists i :: 0 <= i < SLOTS && slots[i].slot.Overlaps(target, size)
    {
      for i := 0 to SLOTS
        invariant forall j :: 0 <= j < i ==> !slots[j].slot.Overlaps(target, size)
      {
        if slots[i].slot.Overlaps(target, size) {
          return true;
        }
      }
      return false;
    }

    /** The first empty slot, or `SLOTS`. */
    method FreeIndex() returns (free: nat)
      requires |slots| == SLOTS
      ensures free <= SLOTS && (free < SLOTS ==> slots[free].slot.Empty?)
      ensures free == SLOTS <==> forall i :: 0 <= i < SLOTS ==> !slots[i].slot.Empty?
    {
      free := 0;
      while free < SLOTS && !slots[free].slot.Empty?
        invariant free <= SLOTS && forall i :: 0 <= i < free ==> !slots[i].slot.Empty?
      {
        free := free + 1;
      }
    }

    static lemma NotInsertable(slots: seq<Breakpoint>, target: nat, size: nat)
      requires size != 2 && (size != 4 || target % 4 != 0)
      ensures !Insertable(slots, target, size)
    {
    }

    static lemma InsertExisting(memory: seq<Byte>, slots: seq<Breakpoint>, i: nat, size: nat, temporary: bool)
      requires SlotsOk(slots) && TableOk(slots) && TrapsHold(memory, slots) && i < SLOTS && !slots[i].slot.Empty?
      requires size == 2 || (size == 4 && slots[i].slot.address % 4 == 0)
      ensures var s := slots[i].slot;
        && (Insertable(slots, s.address, size) <==> |s.original| == size && s.Installed?)
        && (s.Pending? ==> !CertainSlots(slots))
        && (|s.original| == size ==>
              Inserted(slots, slots, Entry(s.address, size, temporary), if s.Installed? then OK else RESTORE_PENDING))
        && (s.Installed? ==> Holds(memory, s.address, if |s.original| == 2 then [0x00, 0xde] else [0xf0, 0x00, 0xf0, 0xe7]))
    {
      assert Recorded(slots, slots[i].slot.address);
      forall j | 0 <= j < SLOTS && !slots[j].slot.Empty? && slots[j].slot.address == slots[i].slot.address ensures j == i {
        OneSlotPerAddress(slots, i, j);
      }
      TrapThere(memory, slots, i);
    }

    static lemma InsertNew(slots: seq<Breakpoint>, target: nat, size: nat)
      requires SlotsOk(slots) && (size == 2 || (size == 4 && target % 4 == 0)) && !Recorded(slots, target)
      ensures Insertable(slots, target, size) <==>
        && RangeValid(target, size)
        && (forall i :: 0 <= i < SLOTS ==> !slots[i].slot.Overlaps(target, size))
        && exists i :: 0 <= i < SLOTS && slots[i].slot.Empty?
    {
    }

    static lemma TrapThere(memory: seq<Byte>, slots: seq<Breakpoint>, i: nat)
      requires TrapsHold(memory, slots) && i < |slots| && !slots[i].slot.Empty?
      requires EntryShape(EntryOf(slots[i])) && slots[i].slot.patch == Trap(|slots[i].slot.original|)
      ensures slots[i].slot.Installed? ==>
        Holds(memory, slots[i].slot.address, if |slots[i].slot.original| == 2 then [0x00, 0xde] else [0xf0, 0x00, 0xf0, 0xe7])
    {
    }

    /** An empty slot's mark plays no part in the records. */
    lemma MarkEmpty(before: seq<Breakpoint>, i: nat, temporary: bool)
      requires SlotsOk(before) && Recovers(memory, before, code) && TrapsHold(memory, before)
      requires i < SLOTS && before[i].slot.Empty?
      ensures var after := before[i := Breakpoint(Empty, temporary)];
        SlotsOk(after) && Recovers(memory, after, code) && TrapsHold(memory, after)
    {
      var after := before[i := Breakpoint(Empty, temporary)];
      forall j | 0 <= j < |after| ensures SlotOk(after[j]) && after[j].slot == before[j].slot {
        assert SlotOk(before[j]);
      }
      forall a | 0 <= a < |code| && Bare(after, a) ensures Bare(before, a) {
        forall j | 0 <= j < |before| ensures !before[j].slot.Covers(a) {
          assert !after[j].slot.Covers(a);
        }
      }
    }

    /** Take a trap out; the record goes only when the original is verified to be back. */
    method Remove(address: nat) returns (result: int)
      requires TableSound()
      modifies this`obeyed, this`memory, this`slots
      ensures TableSound() && code == old(code)
      ensures old(Lifted()) ==> Lifted()
      ensures obeyed ==> old(obeyed) && result == OK
      ensures result == OK || result == RESTORE_PENDING
      ensures forall i :: 0 <= i < SLOTS ==>
        if old(slots[i].slot).Empty? || old(slots[i].slot).address != Even(address) then slots[i] == old(slots[i])
        else if result == OK then slots[i] == CLEAR
        else slots[i].slot.Pending? && EntryOf(slots[i]) == EntryOf(old(slots[i]))
      ensures Entries(slots) == if result == OK then Without(old(Entries(slots)), Even(address)) else old(Entries(slots))
    {
      hide Recovers, TrapsHold, SpanLifted, Restores, Holds;
      var found := Find(address);
      if found.None? {
        assert Entries(slots) == Without(Entries(slots), Even(address));
        return OK;
      }
      var i := found.value;
      forall j | 0 <= j < SLOTS && !slots[j].slot.Empty? && slots[j].slot.address == Even(address) ensures j == i {
        OneSlotPerAddress(slots, i, j);
      }
      result := RestoreSlot(i);
      if result == OK {
        MarkEmpty(slots, i, false);
        slots := slots[i := CLEAR];
        EntriesEmpty(old(slots), i, CLEAR);
        assert slots == old(slots)[i := CLEAR];
      } else {
        EntriesRelabel(old(slots), i, slots[i]);
        assert slots == old(slots)[i := slots[i]];
      }
      KeepLifted(old(slots), slots);
    }

    /** Remove every breakpoint; success means target memory is the code again. */
    method RemoveAll() returns (result: int)
      requires TableSound()
      modifies this`obeyed, this`memory, this`slots
      ensures TableSound() && code == old(code)
      ensures old(Lifted()) ==> Lifted()
      ensures obeyed ==> old(obeyed) && result == 0
      ensures result == 0 || result == -1
      ensures result == 0 <==> forall i :: 0 <= i < SLOTS ==> slots[i] == CLEAR
      ensures result == 0 ==> memory == code && Entries(slots) == {}
      ensures forall i :: 0 <= i < SLOTS ==> Swept(old(slots[i]), slots[i])
    {
      result := 0;
      for i := 0 to SLOTS
        invariant TableSound() && code == old(code)
        invariant old(Lifted()) ==> Lifted()
        invariant obeyed ==> old(obeyed) && result == 0
        invariant result == 0 || result == -1
        invariant forall j :: 0 <= j < i ==> Swept(old(slots[j]), slots[j])
        invariant forall j :: i <= j < SLOTS ==> slots[j] == old(slots[j])
        invariant result == 0 <==> forall j :: 0 <= j < i ==> slots[j] == CLEAR
      {
        if !slots[i].slot.Empty? {
          var status := RemoveAt(i);
          if status < 0 {
            result := -1;
          }
        }
      }
      if result == 0 {
        EmptySlotsRecover(memory, slots, code);
      }
    }

    /** Remove the breakpoints planted for a step and no others. */
    method RemoveTemporary() returns (result: int)
      requires TableSound()
      modifies this`obeyed, this`memory, this`slots
      ensures TableSound() && code == old(code)
      ensures old(Lifted()) ==> Lifted()
      ensures obeyed ==> old(obeyed) && result == 0
      ensures result == 0 || result == -1
      ensures result == 0 <==> forall i :: 0 <= i < SLOTS ==> !slots[i].temporary
      ensures forall i :: 0 <= i < SLOTS ==>
        if old(slots[i]).temporary then slots[i] == CLEAR || Swept(old(slots[i]), slots[i]) else slots[i] == old(slots[i])
    {
      result := 0;
      for i := 0 to SLOTS
        invariant TableSound() && code == old(code)
        invariant old(Lifted()) ==> Lifted()
        invariant obeyed ==> old(obeyed) && result == 0
        invariant result == 0 || result == -1
        invariant forall j :: 0 <= j < i ==>
          if old(slots[j]).temporary then slots[j] == CLEAR || Swept(old(slots[j]), slots[j]) else slots[j] == old(slots[j])
        invariant forall j :: i <= j < SLOTS ==> slots[j] == old(slots[j])
        invariant result == 0 <==> forall j :: 0 <= j < i ==> !slots[j].temporary
      {
        if !slots[i].slot.Empty? && slots[i].temporary {
          var status := RemoveAt(i);
          if status < 0 {
            result := -1;
          }
        }
      }
    }

    /** Retry every restore that is still owed, before the target may run again. */
    method RestorePendingSlots() returns (result: int)
      requires TableSound()
      modifies this`obeyed, this`memory, this`slots
      ensures TableSound() && code == old(code)
      ensures old(Lifted()) ==> Lifted()
      ensures obeyed ==> old(obeyed) && result == 0
      ensures result == 0 || result == -1
      ensures result == 0 <==> forall i :: 0 <= i < SLOTS ==> !slots[i].slot.Pending?
      ensures forall i :: 0 <= i < SLOTS ==>
        if old(slots[i]).slot.Pending? then Swept(old(slots[i]), slots[i]) else slots[i] == old(slots[i])
    {
      result := 0;
      for i := 0 to SLOTS
        invariant TableSound() && code == old(code)
        invariant old(Lifted()) ==> Lifted()
        invariant obeyed ==> old(obeyed) && result == 0
        invariant result == 0 || result == -1
        invariant forall j :: 0 <= j < i ==>
          if old(slots[j]).slot.Pending? then Swept(old(slots[j]), slots[j]) else slots[j] == old(slots[j])
        invariant forall j :: i <= j < SLOTS ==> slots[j] == old(slots[j])
        invariant result == 0 <==> forall j :: 0 <= j < i ==> !slots[j].slot.Pending?
      {
        if slots[i].slot.Pending? {
          var status := RemoveAt(i);
          if status < 0 {
            result := -1;
          }
        }
      }
    }

    /** `Remove` by the address a slot itself records reaches exactly that slot. */
    method RemoveAt(i: nat) returns (result: int)
      requires TableSound() && i < SLOTS && !slots[i].slot.Empty?
      modifies this`obeyed, this`memory, this`slots
      ensures TableSound() && code == old(code)
      ensures old(Lifted()) ==> Lifted()
      ensures forall j :: 0 <= j < SLOTS && j != i ==> slots[j] == old(slots[j])
      ensures obeyed ==> old(obeyed) && result == OK
      ensures result == OK || result == RESTORE_PENDING
      ensures if result == OK then slots[i] == CLEAR else slots[i].slot.Pending? && EntryOf(slots[i]) == EntryOf(old(slots[i]))
    {
      OnlySlotAt(slots, i);
      EvenPlace(slots, i);
      hide Recovers, TrapsHold, SpanLifted, Entries, Without, SlotsOk, TableOk, RearmOk, Even;
      result := Remove(slots[i].slot.address);
    }

    static lemma EvenPlace(slots: seq<Breakpoint>, i: nat)
      requires TableOk(slots) && i < |slots| && !slots[i].slot.Empty?
      ensures Even(slots[i].slot.address) == slots[i].slot.address
    {
      assert EntryShape(EntryOf(slots[i]));
    }

    static lemma OnlySlotAt(slots: seq<Breakpoint>, i: nat)
      requires SlotsOk(slots) && i < SLOTS && !slots[i].slot.Empty?
      ensures |slots| == SLOTS
      ensures forall j :: 0 <= j < SLOTS && !slots[j].slot.Empty? && slots[j].slot.address == slots[i].slot.address ==> j == i
    {
      forall j | 0 <= j < SLOTS && !slots[j].slot.Empty? && slots[j].slot.address == slots[i].slot.address ensures j == i {
        OneSlotPerAddress(slots, i, j);
      }
    }

    /** How many slots still carry a restoration obligation. */
    method ActiveCount() returns (count: nat)
      requires Sound()
      ensures count <= SLOTS
      ensures count == 0 <==> forall i :: 0 <= i < SLOTS ==> slots[i].slot.Empty?
    {
      count := 0;
      for i := 0 to SLOTS
        invariant count <= i
        invariant count == 0 <==> forall j :: 0 <= j < i ==> slots[j].slot.Empty?
      {
        if !slots[i].slot.Empty? {
          count := count + 1;
        }
      }
    }

    // ---- the live write ----

    /** Reserve transaction storage. The allocator may refuse. */
    method ReserveStorage(size: nat) returns (ok: bool)
      requires TableSound()
      modifies this`obeyed, this`capacity
      ensures TableSound()
      ensures ok && size != 0 ==> !HasPendingWrite() && capacity >= size
      ensures HasPendingWrite() && size != 0 ==> !ok
      ensures !ok || size == 0 ==> capacity == old(capacity)
      ensures obeyed ==> old(obeyed) && (!HasPendingWrite() ==> (ok <==> size <= STORAGE_MAX))
    {
      if size == 0 {
        return true;
      }
      if HasPendingWrite() {
        return false;
      }
      if capacity >= size {
        return true;
      }
      if size > STORAGE_MAX {
        return false;
      }
      ok := *;
      if ok {
        capacity := size;
      }
      obeyed := obeyed && ok;
    }

    /** Lift every listed breakpoint that is still recorded. */
    method LiftListed() returns (result: int)
      requires TableValid()
      modifies this`obeyed, this`memory, this`slots
      ensures TableValid() && code == old(code)
      ensures OthersKept(old(slots), slots, rearm)
      ensures obeyed ==> old(obeyed) && result == 0
      ensures result == 0 || result == -1
      ensures result == 0 ==> forall i :: 0 <= i < SLOTS && !slots[i].slot.Empty? ==> !Listed(rearm, slots[i].slot.address)
      ensures result == -1 ==> |rearm| > 0
    {
      assert OthersKept(slots, slots, rearm);
      hide Recovers, TrapsHold, Entries, TableOk, SpanLifted, OthersKept;
      result := 0;
      for k := 0 to |rearm|
        invariant TableValid() && code == old(code)
        invariant OthersKept(old(slots), slots, rearm)
        invariant obeyed ==> old(obeyed) && result == 0
        invariant result == 0 || (result == -1 && k > 0)
        invariant result == 0 ==> forall i :: 0 <= i < SLOTS && !slots[i].slot.Empty? ==> !Listed(rearm[..k], slots[i].slot.address)
      {
        ghost var before := slots;
        var status := LiftOne(k);
        if status < 0 {
          result := -1;
        }
        KeptTwice(old(slots), before, slots, rearm);
        if result == 0 {
          LiftedNext(before, slots, k);
        }
      }
      assert rearm[..|rearm|] == rearm;
    }

    method LiftOne(k: nat) returns (result: int)
      requires TableValid() && k < |rearm|
      modifies this`obeyed, this`memory, this`slots
      ensures TableValid() && code == old(code)
      ensures OthersKept(old(slots), slots, rearm)
      ensures obeyed ==> old(obeyed) && result == OK
      ensures result == OK || result == RESTORE_PENDING
      ensures result == OK ==> forall i :: 0 <= i < SLOTS && !slots[i].slot.Empty? ==>
        slots[i] == old(slots[i]) && slots[i].slot.address != rearm[k].address
    {
      hide Recovers, TrapsHold, Entries, SpanLifted;
      assert EntryShape(rearm[k]) && Listed(rearm, rearm[k].address);
      var found := Find(rearm[k].address);
      result := OK;
      if found.Some? {
        result := Remove(slots[found.value].slot.address);
      }
    }

    lemma LiftedNext(before: seq<Breakpoint>, after: seq<Breakpoint>, k: nat)
      requires |before| == |after| == SLOTS && k < |rearm|
      requires forall i :: 0 <= i < SLOTS && !before[i].slot.Empty? ==> !Listed(rearm[..k], before[i].slot.address)
      requires forall i :: 0 <= i < SLOTS && !after[i].slot.Empty? ==> after[i] == before[i] && after[i].slot.address != rearm[k].address
      ensures forall i :: 0 <= i < SLOTS && !after[i].slot.Empty? ==> !Listed(rearm[..k + 1], after[i].slot.address)
    {
      forall i | 0 <= i < SLOTS && !after[i].slot.Empty? ensures !Listed(rearm[..k + 1], after[i].slot.address) {
        assert after[i] == before[i];
        assert !Listed(rearm[..k], before[i].slot.address);
        assert rearm[..k + 1] == rearm[..k] + [rearm[k]];
      }
    }

    lemma KeptTwice(first: seq<Breakpoint>, second: seq<Breakpoint>, third: seq<Breakpoint>, rearm: seq<Entry>)
      requires OthersKept(first, second, rearm) && OthersKept(second, third, rearm)
      ensures OthersKept(first, third, rearm)
    {
    }

    /** The trap is still recorded: it only needs its mark back, provided it is in place. */
    method Remark(k: nat, i: nat) returns (result: int)
      requires TableValid() && k < |rearm| && SizesMatch(slots, rearm)
      requires i < SLOTS && !slots[i].slot.Empty? && slots[i].slot.address == rearm[k].address
      modifies this`slots
      ensures TableValid()
      ensures OthersKept(old(slots), slots, rearm) && SizesMatch(slots, rearm)
      ensures result == 0 || result == -1
      ensures forall l :: 0 <= l < |rearm| && l != k && old(InPlace(slots, rearm[l])) ==> InPlace(slots, rearm[l])
      ensures result == 0 ==> InPlace(slots, rearm[k])
      ensures old(ListedCertain(slots, rearm)) ==> result == 0 && ListedCertain(slots, rearm)
    {
      hide Recovers, SpanLifted;
      assert Listed(rearm, rearm[k].address);
      if !slots[i].slot.Installed? {
        return -1;
      }
      var marked := Breakpoint(slots[i].slot, rearm[k].temporary);
      RelabelSlot(memory, slots, code, i, marked);
      KeepLifted(slots, slots[i := marked]);
      slots := slots[i := marked];
      forall l | 0 <= l < |rearm| && l != k && old(InPlace(slots, rearm[l])) ensures InPlace(slots, rearm[l]) {
        var j :| 0 <= j < SLOTS && old(slots[j]).slot.Installed? && EntryOf(old(slots[j])) == rearm[l];
        assert j != i;
        assert slots[j] == old(slots[j]);
      }
      assert EntryOf(slots[i]) == rearm[k];
      return 0;
    }

    /** The trap is not recorded: plant it anew. */
    method Replant(k: nat) returns (result: int)
      requires TableValid() && !tx.Prepared? && k < |rearm| && SizesMatch(slots, rearm)
      requires !Recorded(slots, rearm[k].address)
      modifies this`obeyed, this`memory, this`slots
      ensures TableValid() && code == old(code)
      ensures OthersKept(old(slots), slots, rearm) && SizesMatch(slots, rearm)
      ensures result == 0 || result == -1
      ensures forall l :: 0 <= l < |rearm| && l != k && old(InPlace(slots, rearm[l])) ==> InPlace(slots, rearm[l])
      ensures result == 0 ==> InPlace(slots, rearm[k])
      ensures obeyed ==> old(obeyed)
      ensures obeyed && old(Room(slots, rearm) && ListedCertain(slots, rearm)) ==> result == 0 && ListedCertain(slots, rearm)
    {
      hide Recovers, TrapsHold, SpanLifted, Room, Entries, Insertable, Holds, TableOk, Inserted, OthersKept, SizesMatch, InPlace, ListedCertain, Recorded;
      var entry := rearm[k];
      assert EntryShape(entry) && Listed(rearm, entry.address);
      if Room(slots, rearm) {
        RoomForOne(slots, rearm, k);
      }
      var status := Insert(entry.address, entry.size, entry.temporary);
      Replanted(old(slots), slots, rearm, k, status);
      return if status < 0 then -1 else 0;
    }

    static lemma Replanted(before: seq<Breakpoint>, after: seq<Breakpoint>, rearm: seq<Entry>, k: nat, status: int)
      requires k < |rearm| && RearmOk(rearm) && SizesMatch(before, rearm) && !Recorded(before, rearm[k].address)
      requires Inserted(before, after, rearm[k], status)
      ensures OthersKept(before, after, rearm) && SizesMatch(after, rearm)
      ensures forall l :: 0 <= l < |rearm| && InPlace(before, rearm[l]) ==> InPlace(after, rearm[l])
      ensures status == OK ==> InPlace(after, rearm[k])
      ensures status == OK && ListedCertain(before, rearm) ==> ListedCertain(after, rearm)
    {
      hide Entries;
      assert Listed(rearm, rearm[k].address);
      forall l | 0 <= l < |rearm| && InPlace(before, rearm[l]) ensures InPlace(after, rearm[l]) {
        var j :| 0 <= j < |before| && before[j].slot.Installed? && EntryOf(before[j]) == rearm[l];
        assert after[j] == before[j];
      }
      if status == OK {
        var j :| 0 <= j < |after| && after[j].slot.Installed? && after[j].slot.address == rearm[k].address;
        assert before[j].slot.Empty?;
        assert EntryOf(after[j]) == rearm[k];
      }
    }

    static lemma RoomForOne(slots: seq<Breakpoint>, rearm: seq<Entry>, k: nat)
      requires SlotsOk(slots) && RearmOk(rearm) && Room(slots, rearm) && SizesMatch(slots, rearm) && k < |rearm|
      requires !Recorded(slots, rearm[k].address)
      ensures Insertable(slots, rearm[k].address, rearm[k].size)
    {
      assert EntryShape(rearm[k]);
      FreeSlot(slots, rearm, k);
      forall i | 0 <= i < SLOTS ensures !slots[i].slot.Overlaps(rearm[k].address, rearm[k].size) {
        if !slots[i].slot.Empty? && Listed(rearm, slots[i].slot.address) {
          var l :| 0 <= l < |rearm| && rearm[l].address == slots[i].slot.address;
          assert l != k && |slots[i].slot.original| == rearm[l].size;
          assert !Overlap(rearm[k].address, rearm[k].size, rearm[l].address, rearm[l].size);
        }
      }
    }

    method RearmOne(k: nat) returns (result: int)
      requires TableValid() && !tx.Prepared? && k < |rearm|
      requires SizesMatch(slots, rearm)
      modifies this`obeyed, this`memory, this`slots
      ensures TableValid() && code == old(code)
      ensures OthersKept(old(slots), slots, rearm) && SizesMatch(slots, rearm)
      ensures result == 0 || result == -1
      ensures forall l :: 0 <= l < |rearm| && l != k && old(InPlace(slots, rearm[l])) ==> InPlace(slots, rearm[l])
      ensures result == 0 ==> InPlace(slots, rearm[k])
      ensures obeyed ==> old(obeyed)
      ensures obeyed && old(Room(slots, rearm) && ListedCertain(slots, rearm)) ==> result == 0 && ListedCertain(slots, rearm)
    {
      hide Recovers, TrapsHold, SpanLifted, Room, Entries, TableOk, SizesMatch, InPlace, ListedCertain, OthersKept;
      assert EntryShape(rearm[k]);
      var found := Find(rearm[k].address);
      if found.Some? {
        result := Remark(k, found.value);
      } else {
        result := Replant(k);
      }
    }

    /** Put every listed breakpoint back, stopping at the first that will not go in. */
    method RearmListed() returns (result: int)
      requires TableValid() && !tx.Prepared?
      requires SizesMatch(slots, rearm)
      modifies this`obeyed, this`memory, this`slots
      ensures TableValid() && code == old(code)
      ensures OthersKept(old(slots), slots, rearm)
      ensures result == 0 || result == -1
      ensures result == 0 ==> forall k :: 0 <= k < |rearm| ==> InPlace(slots, rearm[k])
      ensures result == -1 ==> |rearm| > 0
      ensures obeyed ==> old(obeyed) && (old(Room(slots, rearm) && ListedCertain(slots, rearm)) ==> result == 0)
    {
      assert OthersKept(slots, slots, rearm);
      hide Recovers, TrapsHold, Entries, Room, TableOk, OthersKept, ListedCertain, SizesMatch, InPlace, SpanLifted;
      for k := 0 to |rearm|
        invariant TableValid() && code == old(code)
        invariant OthersKept(old(slots), slots, rearm)
        invariant forall l :: 0 <= l < k ==> InPlace(slots, rearm[l])
        invariant SizesMatch(slots, rearm)
        invariant obeyed ==> old(obeyed) && (old(Room(slots, rearm) && ListedCertain(slots, rearm)) ==> ListedCertain(slots, rearm))
      {
        if old(Room(slots, rearm)) {
          RoomKept(old(slots), slots, rearm);
        }
        ghost var before := slots;
        result := RearmOne(k);
        KeptTwice(old(slots), before, slots, rearm);
        if result < 0 {
          return;
        }
      }
      result := 0;
    }

    /** Retry a failed live write's cleanup: lift the re-armed traps, put the original span back,
        re-arm. In that order, because a re-armed slot may hold bytes of the span. */
    method RestorePendingWrite() returns (result: int)
      requires TableValid()
      modifies this`obeyed, this`memory, this`slots, this`code, this`tx, this`rearm
      ensures TableValid() && Image() == old(Image())
      ensures result == 0 || result == -1
      ensures !old(HasPendingWrite()) ==> result == 0 && slots == old(slots) && memory == old(memory)
      ensures Owed(slots, rearm) == old(Owed(slots, rearm))
      ensures old(Settled(slots, rearm)) ==> Settled(slots, rearm)
      ensures result == 0 <==> !HasPendingWrite()
      ensures result == 0 ==> Entries(slots) == old(Owed(slots, rearm))
      ensures result == -1 ==> rearm == old(rearm) && (tx == old(tx) || tx.Idle?)
      ensures OthersKept(old(slots), slots, old(rearm))
      ensures old(Room(slots, rearm)) ==> Room(slots, rearm)
      ensures obeyed ==> old(obeyed) && (old(Room(slots, rearm)) ==> result == 0)
    {
      hide Recovers, TrapsHold, Entries, Owed, Settled, Room, TableOk, OthersKept, ListedCertain, SizesMatch;
      if !HasPendingWrite() {
        assert rearm == [];
        NothingOwed(slots);
        NothingMoved(slots, rearm);
        return 0;
      }
      var lifted := LiftListed();
      OwedKept(old(slots), slots, rearm);
      if old(Room(slots, rearm)) {
        RoomKept(old(slots), slots, rearm);
      }
      if lifted < 0 {
        return -1;
      }
      NoneListed(slots, rearm);
      ghost var between := slots;
      if !tx.Idle? {
        var status := RestoreTransaction();
        if status != TX_RESTORED {
          return -1;
        }
      }
      result := FinishRearm();
      KeptTwice(old(slots), between, slots, old(rearm));
    }

    static lemma NothingMoved(slots: seq<Breakpoint>, rearm: seq<Entry>)
      ensures OthersKept(slots, slots, rearm)
    {
    }

    static lemma NoneListed(slots: seq<Breakpoint>, rearm: seq<Entry>)
      requires forall i :: 0 <= i < |slots| && !slots[i].slot.Empty? ==> !Listed(rearm, slots[i].slot.address)
      ensures SizesMatch(slots, rearm) && ListedCertain(slots, rearm)
    {
    }

    /** Any number of retries that fail, then one that succeeds, reach what was owed at first. */
    method RetryPendingWrite(attempts: nat) returns (result: int)
      requires TableValid()
      modifies this`obeyed, this`memory, this`slots, this`code, this`tx, this`rearm
      ensures TableValid() && Image() == old(Image())
      ensures Owed(slots, rearm) == old(Owed(slots, rearm))
      ensures old(Settled(slots, rearm)) ==> Settled(slots, rearm)
      ensures result == 0 ==> !HasPendingWrite() && Entries(slots) == old(Owed(slots, rearm))
      ensures result == 0 && old(Settled(slots, rearm)) ==> forall e :: e in old(Owed(slots, rearm)) ==> InPlace(slots, e)
    {
      result := -1;
      for i := 0 to attempts
        invariant TableValid() && Image() == old(Image()) && Owed(slots, rearm) == old(Owed(slots, rearm))
        invariant old(Settled(slots, rearm)) ==> Settled(slots, rearm)
        invariant result == -1
      {
        result := RestorePendingWrite();
        if result == 0 {
          if old(Settled(slots, rearm)) {
            SettledInPlace(slots);
          }
          return;
        }
      }
    }

    static lemma SettledInPlace(slots: seq<Breakpoint>)
      requires Settled(slots, [])
      ensures forall e :: e in Entries(slots) ==> InPlace(slots, e)
    {
      forall e | e in Entries(slots) ensures InPlace(slots, e) {
        var i :| 0 <= i < |slots| && !slots[i].slot.Empty? && EntryOf(slots[i]) == e;
        assert slots[i].slot.Installed?;
      }
    }

    /** Re-arm once no transaction is pending, and forget the list only when it is honoured. */
    method FinishRearm() returns (result: int)
      requires TableValid() && tx.Idle? && SizesMatch(slots, rearm)
      modifies this`obeyed, this`memory, this`slots, this`rearm
      ensures TableValid() && code == old(code)
      ensures result == 0 || result == -1
      ensures Owed(slots, rearm) == old(Owed(slots, rearm))
      ensures old(Settled(slots, rearm)) ==> Settled(slots, rearm)
      ensures result == 0 ==> !HasPendingWrite() && Entries(slots) == old(Owed(slots, rearm))
      ensures result == -1 ==> rearm == old(rearm) && HasPendingWrite()
      ensures OthersKept(old(slots), slots, old(rearm))
      ensures old(Room(slots, rearm)) ==> Room(slots, rearm)
      ensures obeyed ==> old(obeyed) && (old(Room(slots, rearm) && ListedCertain(slots, rearm)) ==> result == 0)
    {
      hide Recovers, TrapsHold, Entries, Owed, Settled, Room, TableOk, OthersKept, ListedCertain, SizesMatch, InPlace;
      result := RearmListed();
      OwedKept(old(slots), slots, rearm);
      if old(Room(slots, rearm)) {
        RoomKept(old(slots), slots, rearm);
      }
      if result == 0 {
        OwedReached(slots, rearm);
        rearm := [];
        NothingOwed(slots);
        RoomFromTable(slots, []);
      }
    }

    static lemma NothingOwed(slots: seq<Breakpoint>)
      ensures Owed(slots, []) == Entries(slots)
    {
    }

    /** List every breakpoint over the span about to be written. */
    method ListOverlapping(address: nat, size: nat)
      requires TableSound() && !HasPendingWrite()
      modifies this`rearm
      ensures TableValid() && SizesMatch(slots, rearm)
      ensures Owed(slots, rearm) == Entries(slots) && Room(slots, rearm) && AllOver(rearm, address, size)
      ensures forall i :: 0 <= i < SLOTS && slots[i].slot.Overlaps(address, size) ==> Listed(rearm, slots[i].slot.address)
    {
      rearm := CollectOverlapping(slots, address, size);
      OwedWhenListed();
      RoomFromTable(slots, rearm);
    }

    static method CollectOverlapping(slots: seq<Breakpoint>, address: nat, size: nat) returns (list: seq<Entry>)
      requires SlotsOk(slots) && TableOk(slots)
      ensures RearmOk(list)
      ensures forall k :: 0 <= k < |list| ==> RecordedIn(slots, list[k])
      ensures forall i :: 0 <= i < SLOTS && slots[i].slot.Overlaps(address, size) ==> Listed(list, slots[i].slot.address)
      ensures AllOver(list, address, size)
    {
      hide Trap;
      list := [];
      ghost var from: seq<nat> := [];
      for i := 0 to SLOTS
        invariant |list| == |from| <= i
        invariant forall k :: 0 <= k < |list| ==> from[k] < i && slots[from[k]].slot.Overlaps(address, size) && list[k] == EntryOf(slots[from[k]])
        invariant forall k, l :: 0 <= k < l < |list| ==> from[k] < from[l]
        invariant forall j :: 0 <= j < i && slots[j].slot.Overlaps(address, size) ==> j in from
      {
        if slots[i].slot.Overlaps(address, size) {
          list, from := list + [EntryOf(slots[i])], from + [i];
        }
      }
      forall k, l | 0 <= k < l < |list| ensures list[k].address != list[l].address {
        assert SlotOk(slots[from[k]]) && SlotOk(slots[from[l]]);
        assert !slots[from[l]].slot.Overlaps(slots[from[k]].slot.address, |slots[from[k]].slot.original|);
      }
      forall j | 0 <= j < SLOTS && slots[j].slot.Overlaps(address, size) ensures Listed(list, slots[j].slot.address) {
        var k :| 0 <= k < |from| && from[k] == j;
        assert list[k].address == slots[j].slot.address;
      }
    }

    /** Listing breakpoints that are recorded changes nothing the client is owed. */
    lemma OwedWhenListed()
      requires SlotsOk(slots)
      requires forall k :: 0 <= k < |rearm| ==> RecordedIn(slots, rearm[k])
      ensures Owed(slots, rearm) == Entries(slots) && SizesMatch(slots, rearm)
    {
      forall i, k | 0 <= i < SLOTS && !slots[i].slot.Empty? && 0 <= k < |rearm| && rearm[k].address == slots[i].slot.address
        ensures EntryOf(slots[i]) == rearm[k]
      {
        assert RecordedIn(slots, rearm[k]);
        var j :| 0 <= j < SLOTS && !slots[j].slot.Empty? && rearm[k] == EntryOf(slots[j]);
        OneSlotPerAddress(slots, i, j);
      }
      forall e | e in Entries(slots) && Listed(rearm, e.address) ensures e in (set k | 0 <= k < |rearm| :: rearm[k]) {
        var i :| 0 <= i < |slots| && !slots[i].slot.Empty? && EntryOf(slots[i]) == e;
        var k :| 0 <= k < |rearm| && rearm[k].address == e.address;
      }
    }

    /** Lift the breakpoints over the span; when one will not come out, try to put all back. The
        answer is -1 even when that succeeds. */
    method CaptureBreakpoints(address: nat, size: nat) returns (result: int, ghost lift: Lift)
      requires TableSound() && !HasPendingWrite()
      modifies this`obeyed, this`memory, this`slots, this`code, this`tx, this`rearm
      ensures TableValid() && Image() == old(Image()) && tx.Idle?
      ensures result == if lift.AllLifted? then 0 else -1
      ensures Owed(slots, rearm) == old(Entries(slots))
      ensures old(Settled(slots, [])) ==> Settled(slots, rearm)
      ensures lift.AllLifted? ==> SizesMatch(slots, rearm) && ListedCertain(slots, rearm)
      ensures Room(slots, rearm)
      ensures obeyed ==> old(obeyed) && lift.AllLifted?
      ensures lift.AllLifted? ==> forall i :: 0 <= i < SLOTS ==> !slots[i].slot.Overlaps(address, size)
      ensures lift.PutBack? ==> !HasPendingWrite() && Entries(slots) == old(Entries(slots))
      ensures Spared(old(slots), slots, address, size) && AllOver(rearm, address, size)
      ensures lift.StillOut? ==> HasPendingWrite()
    {
      hide Recovers, TrapsHold, Entries, Owed, Room, TableOk, Spared;
      ListOverlapping(address, size);
      lift := AllLifted;
      result := LiftListed();
      OwedKept(old(slots), slots, rearm);
      RoomKept(old(slots), slots, rearm);
      ghost var list, between := rearm, slots;
      if result < 0 {
        var restored := RestorePendingWrite();
        KeptTwice(old(slots), between, slots, list);
        ListedSpares(old(slots), slots, list, address, size);
        return -1, if restored == 0 then PutBack else StillOut;
      }
      ListedSpares(old(slots), slots, list, address, size);
    }

    /**
     * A live memory write beneath the breakpoints, all or nothing for every pattern of I/O failure:
     *   0   the image is the old one with exactly the new bytes, the breakpoints are the same;
     *   -1  image and breakpoints are the old ones (or an earlier write is still pending);
     *   -2  image and breakpoints owed are still the old ones. Either cleanup is outstanding, and
     *       `RestorePendingWrite` reaches them as soon as it succeeds, or, exactly when lifting
     *       the breakpoints failed and putting them back succeeded, it is finished already.
     */
    method WriteLive(address: nat, data: seq<Byte>, size: nat) returns (result: int, ghost lift: Lift)
      requires TableSound() && |data| == 2 * size
      modifies this`obeyed, this`memory, this`slots, this`code, this`tx, this`rearm, this`capacity
      ensures TableSound()
      ensures old(Lifted()) || !old(HasPendingWrite()) ==> Lifted()
      ensures -2 <= result <= 0
      ensures result < 0 ==> Image() == old(Image())
      ensures old(HasPendingWrite()) ==>
        result == -1 && slots == old(slots) && memory == old(memory) && tx == old(tx) && rearm == old(rearm)
      ensures !old(HasPendingWrite()) ==>
        && Owed(slots, rearm) == old(Entries(slots))
        && (old(Settled(slots, [])) ==> Settled(slots, rearm))
        && (!HasPendingWrite() ==> Entries(slots) == old(Entries(slots)))
        && (result != -2 ==> !HasPendingWrite())
        && (result == -2 && !HasPendingWrite() <==> lift.PutBack?)
        && Room(slots, rearm)
        && Spared(old(slots), slots, address, size)
      ensures obeyed ==> old(obeyed)
      ensures obeyed && !old(HasPendingWrite()) ==> result == if Writable(address, data, size) then 0 else -1
      ensures result == 0 ==> Written(old(Image()), address, data, size, Image())
    {
      hide Recovers, TrapsHold, Entries, Owed, Settled, Room, TableOk, OthersKept, Spared, AllOver, ListedCertain, SizesMatch;
      NothingSpared(slots, address, size);
      lift := AllLifted;
      if HasPendingWrite() {
        return -1, lift;
      }
      NothingOwed(slots);
      RoomFromTable(slots, []);
      var reserved := ReserveStorage(size);
      if !reserved {
        return -1, lift;
      }
      if size == 0 {
        return 0, lift;
      }
      var captured;
      captured, lift := CaptureBreakpoints(address, size);
      if captured < 0 {
        return -2, lift;
      }
      ghost var list, between := rearm, slots;
      result := WriteLifted(address, data, size);
      ListedSpares(between, slots, list, address, size);
      SparedTwice(old(slots), between, slots, address, size);
    }

    /** A live write with its breakpoints out of the way. */
    method WriteLifted(address: nat, data: seq<Byte>, size: nat) returns (result: int)
      requires TableValid() && tx.Idle? && |data| == 2 * size && 0 < size <= capacity
      requires SizesMatch(slots, rearm) && ListedCertain(slots, rearm) && Room(slots, rearm)
      requires forall i :: 0 <= i < SLOTS ==> !slots[i].slot.Overlaps(address, size)
      modifies this`obeyed, this`memory, this`slots, this`code, this`tx, this`rearm
      ensures TableValid()
      ensures OthersKept(old(slots), slots, old(rearm))
      ensures -2 <= result <= 0
      ensures Owed(slots, rearm) == old(Owed(slots, rearm))
      ensures old(Settled(slots, rearm)) ==> Settled(slots, rearm)
      ensures result == -2 <==> HasPendingWrite()
      ensures result != -2 ==> Entries(slots) == old(Owed(slots, rearm))
      ensures result < 0 ==> Image() == old(Image())
      ensures result == 0 ==> Written(old(Image()), address, data, size, Image())
      ensures Room(slots, rearm)
      ensures obeyed ==> old(obeyed) && result == if address + size <= ADDRESS_SPACE && Hex.AllHex(data) then 0 else -1
    {
      assert |memory| == |code| == ADDRESS_SPACE;
      hide Recovers, TrapsHold, Entries, Owed, Settled, Room, TableOk, ListedCertain, SizesMatch, OthersKept, Written, Hex.AllHex, Splice;
      var prepared := PrepareTransaction(address, size);
      if prepared != TX_OK {
        var rearmed := FinishRearm();
        return if HasPendingWrite() then -2 else -1;
      }
      assert |tx.original| == size;
      result := WritePrepared(data, size);
    }

    method WritePrepared(data: seq<Byte>, size: nat) returns (result: int)
      requires TableValid() && tx.Prepared? && |tx.original| == size && |data| == 2 * size
      requires SizesMatch(slots, rearm) && ListedCertain(slots, rearm) && Room(slots, rearm)
      modifies this`obeyed, this`memory, this`slots, this`code, this`tx, this`rearm
      ensures TableValid()
      ensures OthersKept(old(slots), slots, old(rearm))
      ensures -2 <= result <= 0
      ensures Owed(slots, rearm) == old(Owed(slots, rearm))
      ensures old(Settled(slots, rearm)) ==> Settled(slots, rearm)
      ensures result == -2 <==> HasPendingWrite()
      ensures result != -2 ==> Entries(slots) == old(Owed(slots, rearm))
      ensures result < 0 ==> Image() == old(Image())
      ensures result == 0 ==> Written(old(Image()), old(tx.address), data, size, Image())
      ensures Room(slots, rearm)
      ensures obeyed ==> old(obeyed) && result == if Hex.AllHex(data) then 0 else -1
    {
      hide Recovers, TrapsHold, Entries, Owed, Settled, Room, TableOk, OthersKept, ListedCertain, SizesMatch;
      hide Written, Hex.AllHex, Hex.Decode;
      ghost var before := Image();
      var decoded := Hex.DecodeBytes(data, size);
      if decoded.None? {
        var restored := RestorePendingWrite();
        return if restored < 0 then -2 else -1;
      }
      result := ApplyAndRearm(decoded.value);
      if result == 0 {
        WrittenBy(before, old(tx.address), data, size, decoded.value, Image());
      }
    }

    static lemma WrittenBy(before: seq<Byte>, address: nat, data: seq<Byte>, size: nat, bytes: seq<Byte>, after: seq<Byte>)
      requires 0 < size && |data| == 2 * size && Hex.AllHex(data) && bytes == Hex.Decode(data)
      requires address + size <= |before| && after == Splice(before, address, bytes)
      ensures Written(before, address, data, size, after)
    {
    }

    /** The second half of a live write, once the span is prepared and the new bytes are known. */
    method ApplyAndRearm(input: seq<Byte>) returns (result: int)
      requires TableValid() && tx.Prepared? && |input| == |tx.original| && SizesMatch(slots, rearm)
      modifies this`obeyed, this`memory, this`slots, this`code, this`tx, this`rearm
      ensures TableValid()
      ensures OthersKept(old(slots), slots, old(rearm))
      ensures -2 <= result <= 0
      ensures Owed(slots, rearm) == old(Owed(slots, rearm))
      ensures old(Settled(slots, rearm)) ==> Settled(slots, rearm)
      ensures result == -2 <==> HasPendingWrite()
      ensures result != -2 ==> Entries(slots) == old(Owed(slots, rearm))
      ensures result < 0 ==> Image() == old(Image())
      ensures result == 0 ==> Image() == Splice(old(Image()), old(tx).address, input)
      ensures old(Room(slots, rearm)) ==> Room(slots, rearm)
      ensures obeyed ==> old(obeyed) && (old(Room(slots, rearm) && ListedCertain(slots, rearm)) ==> result == 0)
    {
      hide Recovers, TrapsHold, Entries, Owed, Settled, Room, TableOk, OthersKept, ListedCertain, SizesMatch, InPlace;
      var applied := ApplyTransaction(input);
      if applied != TX_OK {
        NothingMoved(slots, rearm);
        if !tx.Idle? {
          return -2;
        }
        var rearmed := FinishRearm();
        return if rearmed < 0 then -2 else -1;
      }
      var rearmed := RearmListed();
      OwedKept(old(slots), slots, rearm);
      if old(Room(slots, rearm)) {
        RoomKept(old(slots), slots, rearm);
      }
      if rearmed < 0 {
        ghost var between := slots;
        var restored := RestorePendingWrite();
        KeptTwice(old(slots), between, slots, old(rearm));
        return if restored < 0 then -2 else -1;
      }
      var committed := CommitTransaction();
      // The source also handles a refused commit; it cannot be refused here.
      assert committed == TX_OK;
      OwedReached(slots, rearm);
      rearm := [];
      NothingOwed(slots);
      RoomFromTable(slots, []);
      return 0;
    }

    // ---- whole sessions ----

    method ServeOne(command: Command) returns (status: int)
      requires TableSound() && (command.RetryWrite? ==> Lifted())
      requires command.WriteMemory? ==> |command.data| == 2 * command.size
      modifies this
      ensures TableSound() && Image() == ImageStep(old(Image()), command, status)
      ensures command.RemoveEvery? && status == 0 && !HasPendingWrite() ==> memory == Image()
      ensures obeyed ==> old(obeyed)
      ensures obeyed && !old(HasPendingWrite()) ==> !HasPendingWrite() && Obedient(command, status)
    {
      hide Recovers, TrapsHold, Entries, Owed, Settled, Room, TableOk, RearmOk, SlotsOk, SpanLifted, Insertable, Holds, Writable;
      match command {
        case InsertTrap(address, size, temporary) =>
          status := Insert(address, size, temporary);
        case RemoveTrap(address) =>
          status := Remove(address);
        case RemoveSteps =>
          status := RemoveTemporary();
        case RetrySlots =>
          status := RestorePendingSlots();
        case RetryWrite =>
          status := RestorePendingWrite();
        case RemoveEvery =>
          status := RemoveAll();
        case WriteMemory(address, data, size) =>
          ghost var lift;
          status, lift := WriteLive(address, data, size);
      }
    }

    /** Serve any sequence of commands against adversarial memory. The records keep their meaning
        throughout and the image changes only by the writes that reported success; with a target
        that obeys, those are exactly the well-formed ones, and every removal succeeds. The run ends
        only at a retry of a pending write that a later breakpoint stands in the way of;
        `InsertOverPendingSpan` says when that retry would still recover the image. */
    method Serve(commands: seq<Command>) returns (results: seq<int>)
      requires TableSound()
      requires forall c :: 0 <= c < |commands| && commands[c].WriteMemory? ==> |commands[c].data| == 2 * commands[c].size
      modifies this
      ensures TableSound() && |results| <= |commands|
      ensures Image() == ImageAfter(old(Image()), commands[..|results|], results)
      ensures |results| < |commands| ==> commands[|results|].RetryWrite? && !Lifted()
      ensures |results| > 0 && commands[|results| - 1].RemoveEvery? && results[|results| - 1] == 0 && !HasPendingWrite() ==>
        memory == Image()
      ensures obeyed && !old(HasPendingWrite()) ==>
        old(obeyed) && |results| == |commands| && forall c :: 0 <= c < |results| ==> Obedient(commands[c], results[c])
    {
      hide Sound, TableOk, RearmOk, Obedient, ImageStep, Image;
      results := [];
      for c := 0 to |commands|
        invariant TableSound() && |results| == c
        invariant Image() == ImageAfter(old(Image()), commands[..c], results)
        invariant c > 0 && commands[c - 1].RemoveEvery? && results[c - 1] == 0 && !HasPendingWrite() ==> memory == Image()
        invariant obeyed && !old(HasPendingWrite()) ==>
          old(obeyed) && !HasPendingWrite() && forall k :: 0 <= k < c ==> Obedient(commands[k], results[k])
      {
        if commands[c].RetryWrite? && !Lifted() {
          return;
        }
        var status := ServeOne(commands[c]);
        assert commands[..c + 1][..c] == commands[..c] && (results + [status])[..c] == results;
        results := results + [status];
      }
      assert commands[..|commands|] == commands;
    }
  }

  // ---- instances ----

  /** A table with one breakpoint over the code bytes 1, 2 at 0x1000. */
  ghost predicate OneTrap(memory: seq<Byte>, slots: seq<Breakpoint>, code: seq<Byte>) {
    && TableState(memory, slots, Idle, [], code)
    && slots[0] == Breakpoint(Installed(0x1000, [1, 2], [0x00, 0xde]), false)
    && forall i :: 1 <= i < |slots| ==> slots[i] == CLEAR
  }

  lemma OneTrapTable() returns (memory: seq<Byte>, slots: seq<Breakpoint>, code: seq<Byte>)
    ensures OneTrap(memory, slots, code) && memory == Splice(code, 0x1000, [0x00, 0xde])
  {
    code := seq(ADDRESS_SPACE, a => if a == 0x1000 then 1 else 2);
    memory := Splice(code, 0x1000, [0x00, 0xde]);
    var trap := Breakpoint(Installed(0x1000, [1, 2], [0x00, 0xde]), false);
    slots := seq(SLOTS, _ => CLEAR)[0 := trap];
    assert code[0x1000..0x1002] == [1, 2];
    assert forall a :: slots[0].slot.Covers(a) <==> 0x1000 <= a < 0x1002;
    forall a | 0 <= a < |code| && Bare(slots, a) ensures code[a] == memory[a] {
      assert !slots[0].slot.Covers(a);
    }
  }

  /**
   * A live write over that breakpoint can answer -2 with its cleanup finished. The three slot
   * operations it makes: the lift finds a target that writes nothing; the retry lifts; the
   * re-arm plants. Afterwards table and memory are what they were.
   */
  lemma PutBackInstance() returns (memory: seq<Byte>, slots: seq<Breakpoint>, code: seq<Byte>)
    ensures OneTrap(memory, slots, code)
    ensures var trap := slots[0].slot;
      && Restores(memory, trap, SlotRun(memory, Pending(trap.address, trap.original, trap.patch), RESTORE_PENDING))
      && Restores(memory, Pending(trap.address, trap.original, trap.patch), SlotRun(code, Empty, OK))
      && Installs(code, trap.address, trap.patch, SlotRun(memory, trap, OK))
  {
    memory, slots, code := OneTrapTable();
    var trap := slots[0].slot;
    var pending := Pending(trap.address, trap.original, trap.patch);
    assert RestoreRun(memory, trap, Answer(0, [], 0, 0)) == SlotRun(memory, pending, RESTORE_PENDING);
    assert code[0x1000..0x1002] == [1, 2];
    assert Splice(memory, 0x1000, [1, 2]) == code;
    assert RestoreRun(memory, pending, Obeys([1, 2])) == SlotRun(code, Empty, OK);
    assert InstallRun(code, 0x1000, trap.patch, 2, Obeys(trap.patch), Obeys([])) == SlotRun(memory, trap, OK);
  }

  /** A breakpoint whose removal failed: the table is sound and one slot is uncertain. */
  lemma UncertainInstance() returns (memory: seq<Byte>, slots: seq<Breakpoint>, code: seq<Byte>)
    ensures TableState(memory, slots, Idle, [], code) && SpanLifted(slots, Idle, []) && slots[0].slot.Pending?
    ensures exists before: seq<Breakpoint> ::
      OneTrap(memory, before, code) && Restores(memory, before[0].slot, SlotRun(memory, slots[0].slot, RESTORE_PENDING))
  {
    var before;
    memory, before, code := PutBackInstance();
    var trap := before[0].slot;
    var pending := Breakpoint(Pending(trap.address, trap.original, trap.patch), false);
    RelabelSlot(memory, before, code, 0, pending);
    slots := before[0 := pending];
  }

  /** A write left half-done: the table is sound, nothing stands in its way, and it is pending. */
  lemma PendingWriteInstance() returns (memory: seq<Byte>, slots: seq<Breakpoint>, tx: Transaction, code: seq<Byte>)
    ensures TableState(memory, slots, tx, [], code) && SpanLifted(slots, tx, []) && tx == Prepared(0x1000, [1, 2])
    ensures memory == code && memory[0x1000..0x1002] == [9, 9] && forall i :: 0 <= i < |slots| ==> slots[i] == CLEAR
  {
    memory := seq(ADDRESS_SPACE, _ => 9);
    slots, tx, code := seq(SLOTS, _ => CLEAR), Prepared(0x1000, [1, 2]), memory;
  }

  /** A trap planted there is accepted and keeps the records sound. */
  lemma PlantedOverPendingWrite(memory: seq<Byte>, slots: seq<Breakpoint>, code: seq<Byte>, tx: Transaction)
    returns (planted: seq<Byte>, b: Breakpoint)
    requires TableState(memory, slots, tx, [], code) && tx == Prepared(0x1000, [1, 2])
    requires forall i :: 0 <= i < |slots| ==> slots[i] == CLEAR
    ensures b == Breakpoint(Installed(0x1000, memory[0x1000..0x1002], Trap(2)), false) && planted == Splice(memory, 0x1000, Trap(2))
    ensures Installs(memory, 0x1000, Trap(2), SlotRun(planted, b.slot, OK))
    ensures TableState(planted, slots[0 := b], tx, [], code) && !SpanLifted(slots[0 := b], tx, [])
  {
    planted := Splice(memory, 0x1000, Trap(2));
    var original := memory[0x1000..0x1002];
    b := Breakpoint(Installed(0x1000, original, Trap(2)), false);
    assert InstallRun(memory, 0x1000, Trap(2), 2, Obeys(Trap(2)), Obeys([])) == SlotRun(planted, b.slot, OK);
    var pending := Breakpoint(Pending(0x1000, original, Trap(2)), false);
    PublishSlot(memory, slots, code, 0, pending);
    ScrambleSlot(memory, planted, slots[0 := pending], code, 0);
    RelabelSlot(planted, slots[0 := pending], code, 0, b);
    assert slots[0 := pending][0 := b] == slots[0 := b];
    assert slots[0 := b][0].slot.Overlaps(tx.address, 2);
  }

  /** But the write can no longer be undone safely: putting its bytes back leaves slots that do not
      recover the image. */
  lemma InsertOverPendingSpanLosesCode()
    returns (memory: seq<Byte>, slots: seq<Breakpoint>, tx: Transaction, code: seq<Byte>, planted: seq<Byte>, b: Breakpoint)
    ensures TableState(memory, slots, tx, [], code) && SpanLifted(slots, tx, []) && tx.Prepared?
    ensures slots[0] == CLEAR && Installs(memory, 0x1000, Trap(2), SlotRun(planted, b.slot, OK))
    ensures TableState(planted, slots[0 := b], tx, [], code) && !SpanLifted(slots[0 := b], tx, [])
    ensures !Recovers(Splice(planted, tx.address, tx.original), slots[0 := b], ImageOf(code, tx))
  {
    hide Installs, SpanLifted, TrapsHold, TableOk, RearmOk;
    memory, slots, tx, code := PendingWriteInstance();
    planted, b := PlantedOverPendingWrite(memory, slots, code, tx);
    assert SlotOk(slots[0 := b][0]) && Holds(memory, 0x1000, b.slot.original);
    hide Recovers;
    InsertOverPendingSpan(memory, slots, code, tx, 0, b);
    assert Splice(planted, 0x1000, tx.original) == Splice(memory, 0x1000, tx.original);
    assert tx.Covers(0x1000) && b.slot.Covers(0x1000);
    assert memory[0x1000] == memory[0x1000..0x1002][0] != tx.original[0];
  }
}
