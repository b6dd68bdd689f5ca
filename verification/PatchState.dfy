/**
 * The recovery records of the code-patch layer: breakpoint patch slots, the memory
 * transaction and the breakpoints lifted out of the way of a live write.
 *
 * `Recovers` says what the slots are for: whatever a failed write left in target memory,
 * the recorded originals together with the untouched bytes still determine the program code.
 * A pending transaction adds one more layer on top (`ImageOf`).
 */
module PatchState {
  import opened Bytes

  const SLOTS: nat := 32
  const ADDRESS_SPACE: nat := 0x1_0000_0000
  const PATCH_MAX: nat := 4

  datatype Slot =
    | Empty
    | Pending(address: nat, original: seq<Byte>, patch: seq<Byte>)
    | Installed(address: nat, original: seq<Byte>, patch: seq<Byte>)
  {
    predicate Covers(a: int) {
      !Empty? && address <= a < address + |original|
    }

    predicate Overlaps(first: nat, size: nat) {
      !Empty? && Overlap(first, size, address, |original|)
    }
  }

  datatype Breakpoint = Breakpoint(slot: Slot, temporary: bool)

  datatype Transaction =
    | Idle
    | Prepared(address: nat, original: seq<Byte>)
    | Applied(address: nat, original: seq<Byte>)
  {
    predicate Covers(a: int) {
      !Idle? && address <= a < address + |original|
    }

    predicate Overlaps(first: nat, size: nat) {
      !Idle? && Overlap(first, size, address, |original|)
    }
  }

  /** A breakpoint as the client sees it; also the record used to re-arm it. */
  datatype Entry = Entry(address: nat, size: nat, temporary: bool)

  function EntryOf(b: Breakpoint): Entry
    requires !b.slot.Empty?
  {
    Entry(b.slot.address, |b.slot.original|, b.temporary)
  }

  /** The recorded breakpoints, whatever slot each one sits in. */
  ghost function Entries(slots: seq<Breakpoint>): set<Entry> {
    set i | 0 <= i < |slots| && !slots[i].slot.Empty? :: EntryOf(slots[i])
  }

  predicate RangeValid(address: nat, size: nat) {
    address != 0 && 0 < size <= PATCH_MAX && address + size <= ADDRESS_SPACE
  }

  ghost predicate SlotOk(b: Breakpoint) {
    !b.slot.Empty? ==>
      && |b.slot.patch| == |b.slot.original|
      && RangeValid(b.slot.address, |b.slot.original|)
  }

  /** Live slots never overlap. */
  ghost predicate Disjoint(slots: seq<Breakpoint>) {
    forall i, j :: 0 <= i < |slots| && 0 <= j < |slots| && i != j && !slots[i].slot.Empty? ==>
      !slots[j].slot.Overlaps(slots[i].slot.address, |slots[i].slot.original|)
  }

  ghost predicate SlotsOk(slots: seq<Breakpoint>) {
    && |slots| == SLOTS
    && (forall i :: 0 <= i < |slots| ==> SlotOk(slots[i]))
    && Disjoint(slots)
  }

  ghost predicate TransactionOk(tx: Transaction) {
    !tx.Idle? ==> 0 < |tx.original| && tx.address + |tx.original| <= ADDRESS_SPACE
  }

  /** An INSTALLED slot's range holds exactly its trap bytes. */
  ghost predicate TrapsHold(memory: seq<Byte>, slots: seq<Breakpoint>) {
    forall i :: 0 <= i < |slots| && slots[i].slot.Installed? ==> Holds(memory, slots[i].slot.address, slots[i].slot.patch)
  }

  ghost predicate Holds(memory: seq<Byte>, address: nat, data: seq<Byte>) {
    address + |data| <= |memory| && memory[address..address + |data|] == data
  }

  /** No slot holds a patch over address `a`. */
  ghost predicate Bare(slots: seq<Breakpoint>, a: int) {
    forall i :: 0 <= i < |slots| ==> !slots[i].slot.Covers(a)
  }

  /** The code beneath the breakpoints, byte by byte: a slot knows its range and every other
      byte is the target's own. */
  ghost predicate Recovers(memory: seq<Byte>, slots: seq<Breakpoint>, code: seq<Byte>) {
    && |memory| == |code| == ADDRESS_SPACE
    && (forall a, i :: 0 <= a < |code| && 0 <= i < |slots| && slots[i].slot.Covers(a) ==>
          code[a] == slots[i].slot.original[a - slots[i].slot.address])
    && (forall a :: 0 <= a < |code| && Bare(slots, a) ==> code[a] == memory[a])
  }

  /** The program image: the code beneath the breakpoints, with a pending transaction undone. */
  ghost function ImageOf(code: seq<Byte>, tx: Transaction): (r: seq<Byte>)
    requires |code| == ADDRESS_SPACE && TransactionOk(tx)
    ensures |r| == |code|
  {
    if tx.Idle? then code else Splice(code, tx.address, tx.original)
  }

  predicate Listed(rearm: seq<Entry>, address: nat) {
    exists k :: 0 <= k < |rearm| && rearm[k].address == address
  }

  /** While a transaction is pending, every slot over its span is one a restore will lift first:
      none at all before the write is applied, only re-armed ones afterwards. */
  predicate SpanLifted(slots: seq<Breakpoint>, tx: Transaction, rearm: seq<Entry>) {
    !tx.Idle? ==> forall i :: 0 <= i < |slots| && slots[i].slot.Overlaps(tx.address, |tx.original|) ==>
      tx.Applied? && Listed(rearm, slots[i].slot.address)
  }

  /** Every byte of the range may be scrambled without losing the image: a published record
      covers it, and no trap that is claimed to be in place sits there. */
  ghost predicate Obligated(slots: seq<Breakpoint>, tx: Transaction, address: nat, size: nat) {
    forall a :: address <= a < address + size ==>
      && (tx.Covers(a) || !Bare(slots, a))
      && forall i :: 0 <= i < |slots| && slots[i].slot.Installed? ==> !slots[i].slot.Covers(a)
  }

  // ---- the same code, as the result of actually writing the slots back ----

  ghost function Undo(memory: seq<Byte>, slots: seq<Breakpoint>): (r: seq<Byte>)
    requires |memory| == ADDRESS_SPACE
    requires forall i :: 0 <= i < |slots| ==> SlotOk(slots[i])
    ensures |r| == |memory|
  {
    if |slots| == 0 then memory
    else
      var below := Undo(memory, slots[..|slots| - 1]);
      var top := slots[|slots| - 1];
      assert SlotOk(top);
      if top.slot.Empty? then below else Splice(below, top.slot.address, top.slot.original)
  }

  lemma {:induction false} UndoAt(memory: seq<Byte>, slots: seq<Breakpoint>, a: nat)
    requires |memory| == ADDRESS_SPACE && a < |memory|
    requires forall i :: 0 <= i < |slots| ==> SlotOk(slots[i])
    requires Disjoint(slots)
    ensures Bare(slots, a) ==> Undo(memory, slots)[a] == memory[a]
    ensures forall i :: 0 <= i < |slots| && slots[i].slot.Covers(a) ==>
      Undo(memory, slots)[a] == slots[i].slot.original[a - slots[i].slot.address]
  {
    if |slots| > 0 {
      var n := |slots| - 1;
      var below := slots[..n];
      assert forall i :: 0 <= i < n ==> below[i] == slots[i];
      UndoAt(memory, below, a);
      assert Bare(slots, a) ==> Bare(below, a);
      assert SlotOk(slots[n]);
      if slots[n].slot.Covers(a) {
        forall i | 0 <= i < n ensures !slots[i].slot.Covers(a) {
          assert !slots[i].slot.Empty? ==> !slots[n].slot.Overlaps(slots[i].slot.address, |slots[i].slot.original|);
        }
      }
    }
  }

  /** `Recovers` names exactly the code that writing every slot's original back would produce. */
  lemma RecoversIsUndo(memory: seq<Byte>, slots: seq<Breakpoint>, code: seq<Byte>)
    requires |memory| == ADDRESS_SPACE && SlotsOk(slots)
    ensures Recovers(memory, slots, code) <==> code == Undo(memory, slots)
  {
    var undone := Undo(memory, slots);
    forall a | 0 <= a < |memory|
      ensures Bare(slots, a) ==> undone[a] == memory[a]
      ensures forall i :: 0 <= i < |slots| && slots[i].slot.Covers(a) ==>
        undone[a] == slots[i].slot.original[a - slots[i].slot.address]
    {
      UndoAt(memory, slots, a);
    }
    if Recovers(memory, slots, code) {
      forall a | 0 <= a < |code| ensures undone[a] == code[a] {
        if !Bare(slots, a) {
          var i :| 0 <= i < |slots| && slots[i].slot.Covers(a);
        }
      }
    }
  }

  /** With no slot in use the code is the memory itself. */
  lemma EmptySlotsRecover(memory: seq<Byte>, slots: seq<Breakpoint>, code: seq<Byte>)
    requires Recovers(memory, slots, code)
    requires forall i :: 0 <= i < |slots| ==> slots[i].slot.Empty?
    ensures memory == code
  {
    forall a | 0 <= a < |code| ensures code[a] == memory[a] {
      assert Bare(slots, a);
    }
  }

  // ---- how each change of one slot affects the invariants ----

  /** A write confined to one slot's range leaves the code beneath unchanged. */
  lemma ScrambleSlot(before: seq<Byte>, after: seq<Byte>, slots: seq<Breakpoint>, code: seq<Byte>, i: nat)
    requires SlotsOk(slots) && Recovers(before, slots, code) && TrapsHold(before, slots)
    requires i < |slots| && slots[i].slot.Pending?
    requires SameOutside(before, after, slots[i].slot.address, |slots[i].slot.original|)
    ensures Recovers(after, slots, code) && TrapsHold(after, slots)
  {
    forall a | 0 <= a < |code| && Bare(slots, a) ensures code[a] == after[a] {
      assert !slots[i].slot.Covers(a);
    }
    forall j | 0 <= j < |slots| && slots[j].slot.Installed?
      ensures Holds(after, slots[j].slot.address, slots[j].slot.patch)
    {
      assert SlotOk(slots[j]);
      assert !slots[i].slot.Overlaps(slots[j].slot.address, |slots[j].slot.original|);
      assert Holds(before, slots[j].slot.address, slots[j].slot.patch);
      var first, last := slots[j].slot.address, slots[j].slot.address + |slots[j].slot.patch|;
      assert forall a :: first <= a < last ==> after[a] == before[a];
      assert after[first..last] == before[first..last];
    }
  }

  /** Publishing a record of bytes that are in place keeps the code, before anything is written. */
  lemma PublishSlot(memory: seq<Byte>, slots: seq<Breakpoint>, code: seq<Byte>, i: nat, b: Breakpoint)
    requires SlotsOk(slots) && Recovers(memory, slots, code) && TrapsHold(memory, slots)
    requires i < |slots| && slots[i].slot.Empty?
    requires b.slot.Pending? && SlotOk(b) && Holds(memory, b.slot.address, b.slot.original)
    requires forall j :: 0 <= j < |slots| ==> !slots[j].slot.Overlaps(b.slot.address, |b.slot.original|)
    ensures SlotsOk(slots[i := b]) && Recovers(memory, slots[i := b], code) && TrapsHold(memory, slots[i := b])
  {
    var slots' := slots[i := b];
    forall a | 0 <= a < |code| && Bare(slots', a) ensures Bare(slots, a) {
      forall j | 0 <= j < |slots| ensures !slots[j].slot.Covers(a) {
        assert !slots'[j].slot.Covers(a);
      }
    }
    forall a | 0 <= a < |code| && b.slot.Covers(a) ensures code[a] == b.slot.original[a - b.slot.address] {
      forall j | 0 <= j < |slots| ensures !slots[j].slot.Covers(a) {
        assert !slots[j].slot.Overlaps(b.slot.address, |b.slot.original|);
      }
      assert Bare(slots, a);
      assert memory[b.slot.address..b.slot.address + |b.slot.original|][a - b.slot.address] == memory[a];
    }
    forall j | 0 <= j < |slots'| ensures SlotOk(slots'[j]) {
      assert SlotOk(slots[j]);
    }
  }

  /** Dropping a record is safe once its original bytes are back in place. */
  lemma RetireSlot(memory: seq<Byte>, slots: seq<Breakpoint>, code: seq<Byte>, i: nat, b: Breakpoint)
    requires SlotsOk(slots) && Recovers(memory, slots, code) && TrapsHold(memory, slots)
    requires i < |slots| && !slots[i].slot.Empty? && b.slot.Empty?
    requires Holds(memory, slots[i].slot.address, slots[i].slot.original)
    ensures SlotsOk(slots[i := b]) && Recovers(memory, slots[i := b], code) && TrapsHold(memory, slots[i := b])
  {
    var slots' := slots[i := b];
    var s := slots[i].slot;
    forall a | 0 <= a < |code| && Bare(slots', a) ensures code[a] == memory[a] {
      if s.Covers(a) {
        assert memory[s.address..s.address + |s.original|][a - s.address] == memory[a];
      } else {
        forall j | 0 <= j < |slots| ensures !slots[j].slot.Covers(a) {
          assert !slots'[j].slot.Covers(a);
        }
        assert Bare(slots, a);
      }
    }
    forall j | 0 <= j < |slots'| ensures SlotOk(slots'[j]) {
      assert SlotOk(slots[j]);
    }
  }

  /** Changing a record's state, but not its range or bytes, keeps the code. */
  lemma RelabelSlot(memory: seq<Byte>, slots: seq<Breakpoint>, code: seq<Byte>, i: nat, b: Breakpoint)
    requires SlotsOk(slots) && Recovers(memory, slots, code) && TrapsHold(memory, slots)
    requires i < |slots| && !slots[i].slot.Empty? && !b.slot.Empty?
    requires b.slot.address == slots[i].slot.address && b.slot.original == slots[i].slot.original
    requires b.slot.patch == slots[i].slot.patch
    requires b.slot.Installed? ==> Holds(memory, b.slot.address, b.slot.patch)
    ensures SlotsOk(slots[i := b]) && Recovers(memory, slots[i := b], code) && TrapsHold(memory, slots[i := b])
  {
    var slots' := slots[i := b];
    forall a | 0 <= a < |code| && Bare(slots', a) ensures Bare(slots, a) {
      forall j | 0 <= j < |slots| ensures !slots[j].slot.Covers(a) {
        assert !slots'[j].slot.Covers(a);
      }
    }
    forall j | 0 <= j < |slots'| ensures SlotOk(slots'[j]) {
      assert SlotOk(slots[j]);
    }
  }

  /** A write confined to a span with no slot over it changes the code there and nowhere else. */
  lemma ScrambleSpan(before: seq<Byte>, after: seq<Byte>, slots: seq<Breakpoint>, code: seq<Byte>, address: nat, size: nat)
    requires SlotsOk(slots) && Recovers(before, slots, code) && TrapsHold(before, slots)
    requires address + size <= ADDRESS_SPACE && SameOutside(before, after, address, size)
    requires forall i :: 0 <= i < |slots| ==> !slots[i].slot.Overlaps(address, size)
    ensures Recovers(after, slots, Splice(code, address, after[address..address + size]))
    ensures TrapsHold(after, slots)
  {
    var code' := Splice(code, address, after[address..address + size]);
    forall a, i | 0 <= a < |code'| && 0 <= i < |slots| && slots[i].slot.Covers(a)
      ensures code'[a] == slots[i].slot.original[a - slots[i].slot.address]
    {
      assert !slots[i].slot.Overlaps(address, size);
    }
    forall j | 0 <= j < |slots| && slots[j].slot.Installed?
      ensures Holds(after, slots[j].slot.address, slots[j].slot.patch)
    {
      assert SlotOk(slots[j]);
      assert !slots[j].slot.Overlaps(address, size);
      assert Holds(before, slots[j].slot.address, slots[j].slot.patch);
      var first, last := slots[j].slot.address, slots[j].slot.address + |slots[j].slot.patch|;
      assert forall a :: first <= a < last ==> after[a] == before[a];
      assert after[first..last] == before[first..last];
    }
  }

  /** Bytes read from a span with no slot over it are the code's own bytes. */
  lemma BareSpan(memory: seq<Byte>, slots: seq<Breakpoint>, code: seq<Byte>, address: nat, size: nat)
    requires SlotsOk(slots) && Recovers(memory, slots, code) && address + size <= ADDRESS_SPACE
    requires forall i :: 0 <= i < |slots| ==> !slots[i].slot.Overlaps(address, size)
    ensures memory[address..address + size] == code[address..address + size]
  {
    forall a | address <= a < address + size ensures memory[a] == code[a] {
      forall i | 0 <= i < |slots| ensures !slots[i].slot.Covers(a) {
        assert !slots[i].slot.Overlaps(address, size);
      }
      assert Bare(slots, a);
    }
  }

  // ---- the breakpoint set ----

  /** At most one slot records a given address. */
  lemma OneSlotPerAddress(slots: seq<Breakpoint>, i: nat, j: nat)
    requires SlotsOk(slots) && i < |slots| && j < |slots|
    requires !slots[i].slot.Empty? && !slots[j].slot.Empty? && slots[i].slot.address == slots[j].slot.address
    ensures i == j
  {
    assert SlotOk(slots[i]) && SlotOk(slots[j]);
  }

  /** The set without whatever is recorded at `address`. */
  ghost function Without(entries: set<Entry>, address: nat): set<Entry> {
    set e | e in entries && e.address != address
  }

  /** Filling an empty slot adds exactly one entry. */
  lemma EntriesFill(slots: seq<Breakpoint>, i: nat, b: Breakpoint)
    requires i < |slots| && slots[i].slot.Empty? && !b.slot.Empty?
    ensures Entries(slots[i := b]) == Entries(slots) + {EntryOf(b)}
  {
    var slots' := slots[i := b];
    forall e | e in Entries(slots) ensures e in Entries(slots') {
      var j :| 0 <= j < |slots| && !slots[j].slot.Empty? && EntryOf(slots[j]) == e;
      assert slots'[j] == slots[j];
    }
    assert slots'[i] == b;
  }

  /** Emptying a slot removes exactly its entry. */
  lemma EntriesEmpty(slots: seq<Breakpoint>, i: nat, b: Breakpoint)
    requires SlotsOk(slots) && i < |slots| && !slots[i].slot.Empty? && b.slot.Empty?
    ensures Entries(slots[i := b]) == Without(Entries(slots), slots[i].slot.address)
  {
    var slots' := slots[i := b];
    var address := slots[i].slot.address;
    forall e | e in Entries(slots) && e.address != address ensures e in Entries(slots') {
      var j :| 0 <= j < |slots| && !slots[j].slot.Empty? && EntryOf(slots[j]) == e;
      assert slots'[j] == slots[j];
    }
    forall e | e in Entries(slots') ensures e in Entries(slots) && e.address != address {
      var j :| 0 <= j < |slots'| && !slots'[j].slot.Empty? && EntryOf(slots'[j]) == e;
      assert slots'[j] == slots[j];
      assert SlotOk(slots[i]) && SlotOk(slots[j]);
    }
  }

  /** Relabelling a slot without touching its range or its temporary mark keeps the set. */
  lemma EntriesRelabel(slots: seq<Breakpoint>, i: nat, b: Breakpoint)
    requires i < |slots| && !slots[i].slot.Empty? && !b.slot.Empty?
    requires EntryOf(b) == EntryOf(slots[i])
    ensures Entries(slots[i := b]) == Entries(slots)
  {
    var slots' := slots[i := b];
    forall e | e in Entries(slots) ensures e in Entries(slots') {
      var j :| 0 <= j < |slots| && !slots[j].slot.Empty? && EntryOf(slots[j]) == e;
      assert !slots'[j].slot.Empty? && EntryOf(slots'[j]) == e;
    }
    forall e | e in Entries(slots') ensures e in Entries(slots) {
      var j :| 0 <= j < |slots'| && !slots'[j].slot.Empty? && EntryOf(slots'[j]) == e;
      assert !slots[j].slot.Empty? && EntryOf(slots[j]) == e;
    }
  }

  // ---- why no breakpoint may be inserted over a pending span ----

  /**
   * A breakpoint is inserted over the span of a pending transaction and stays there while the
   * transaction is restored. Afterwards the slots lead back to the image exactly when the bytes
   * the breakpoint recorded were already the original ones.
   */
  lemma InsertOverPendingSpan(memory: seq<Byte>, slots: seq<Breakpoint>, code: seq<Byte>, tx: Transaction, i: nat, b: Breakpoint)
    requires SlotsOk(slots) && Recovers(memory, slots, code) && TransactionOk(tx) && !tx.Idle?
    requires i < |slots| && slots[i].slot.Empty? && !b.slot.Empty? && SlotOk(b)
    requires Holds(memory, b.slot.address, b.slot.original)
    requires forall j :: 0 <= j < |slots| ==>
      !slots[j].slot.Overlaps(b.slot.address, |b.slot.original|) && !slots[j].slot.Overlaps(tx.address, |tx.original|)
    ensures Recovers(Splice(memory, tx.address, tx.original), slots[i := b], ImageOf(code, tx)) <==>
      forall a :: 0 <= a < ADDRESS_SPACE && tx.Covers(a) && b.slot.Covers(a) ==> memory[a] == tx.original[a - tx.address]
  {
    var after, slots', image := Splice(memory, tx.address, tx.original), slots[i := b], ImageOf(code, tx);
    forall a | 0 <= a < ADDRESS_SPACE ensures ByteRecovers(after, slots', image, a) <==>
      (tx.Covers(a) && b.slot.Covers(a) ==> memory[a] == tx.original[a - tx.address])
    {
      if tx.Covers(a) || b.slot.Covers(a) {
        forall j | 0 <= j < |slots| ensures !slots[j].slot.Covers(a) {
          assert !slots[j].slot.Overlaps(b.slot.address, |b.slot.original|) && !slots[j].slot.Overlaps(tx.address, |tx.original|);
        }
        assert Bare(slots, a);
      }
      assert b.slot.Covers(a) ==> memory[b.slot.address..b.slot.address + |b.slot.original|][a - b.slot.address] == memory[a];
      assert ByteRecovers(memory, slots, code, a);
      InsertOverPendingByte(slots, i, b, a, memory, code, after, image);
    }
    RecoversByBytes(after, slots', image);
  }

  /** `Recovers` for one address. */
  ghost predicate ByteRecovers(memory: seq<Byte>, slots: seq<Breakpoint>, code: seq<Byte>, a: nat)
    requires a < |memory| == |code|
  {
    && (forall i :: 0 <= i < |slots| && slots[i].slot.Covers(a) ==> code[a] == slots[i].slot.original[a - slots[i].slot.address])
    && (Bare(slots, a) ==> code[a] == memory[a])
  }

  lemma RecoversByBytes(memory: seq<Byte>, slots: seq<Breakpoint>, code: seq<Byte>)
    requires |memory| == |code| == ADDRESS_SPACE
    ensures Recovers(memory, slots, code) <==> forall a :: 0 <= a < ADDRESS_SPACE ==> ByteRecovers(memory, slots, code, a)
  {
    if forall a :: 0 <= a < ADDRESS_SPACE ==> ByteRecovers(memory, slots, code, a) {
      forall a, i | 0 <= a < |code| && 0 <= i < |slots| && slots[i].slot.Covers(a)
        ensures code[a] == slots[i].slot.original[a - slots[i].slot.address]
      {
        assert ByteRecovers(memory, slots, code, a);
      }
      forall a | 0 <= a < |code| && Bare(slots, a) ensures code[a] == memory[a] {
        assert ByteRecovers(memory, slots, code, a);
      }
    }
  }

  /** `InsertOverPendingSpan` for one address, given as the bytes there. */
  lemma InsertOverPendingByte(slots: seq<Breakpoint>, i: nat, b: Breakpoint, a: nat, before: seq<Byte>, code: seq<Byte>, after: seq<Byte>, image: seq<Byte>)
    requires a < |before| == |code| == |after| == |image|
    requires i < |slots| && slots[i].slot.Empty? && !b.slot.Empty?
    requires ByteRecovers(before, slots, code, a)
    requires b.slot.Covers(a) ==> Bare(slots, a) && b.slot.original[a - b.slot.address] == before[a]
    requires (after[a] == before[a] && image[a] == code[a]) || (Bare(slots, a) && image[a] == after[a])
    ensures ByteRecovers(after, slots[i := b], image, a) <==> (b.slot.Covers(a) ==> image[a] == before[a])
  {
    var slots' := slots[i := b];
    assert slots'[i] == b;
    assert forall j :: 0 <= j < |slots| && j != i ==> slots'[j] == slots[j];
    if b.slot.Covers(a) {
      assert slots'[i].slot.Covers(a);
    } else {
      assert forall j :: 0 <= j < |slots| ==> slots'[j].slot.Covers(a) == slots[j].slot.Covers(a);
      assert Bare(slots', a) == Bare(slots, a);
    }
  }
}
