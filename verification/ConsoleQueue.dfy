/**
 * The console capture queue: a 64-slot ring of records of at most 128 bytes, each tagged with the
 * session generation that produced it. `Ring` is the storage the queue lock protects; its methods
 * are proved against operations on the sequence of queued records.
 */
module ConsoleQueue {
  import opened Bytes

  const QUEUE_SLOTS: nat := 64
  const RECORD_MAX: nat := 128
  const SEQUENCES: nat := 0x1_0000_0000_0000_0000

  datatype Record = Record(generation: nat, sequence: nat, data: seq<Byte>)

  predicate RecordOk(r: Record) {
    0 < |r.data| <= RECORD_MAX && 0 < r.sequence < SEQUENCES
  }

  ghost predicate RecordsOk(records: seq<Record>) {
    forall k :: 0 <= k < |records| ==> RecordOk(records[k])
  }

  /** How many records a call of this size stands for in the statistics. */
  function RecordCount(size: nat): nat {
    size / RECORD_MAX + (if size % RECORD_MAX != 0 then 1 else 0)
  }

  /** The payload of a sequence of records. */
  function Payload(records: seq<Record>): (data: seq<Byte>) {
    if |records| == 0 then [] else Payload(records[..|records| - 1]) + records[|records| - 1].data
  }

  function TotalBytes(records: seq<Record>): nat {
    if |records| == 0 then 0 else TotalBytes(records[..|records| - 1]) + |records[|records| - 1].data|
  }

  lemma {:induction false} TotalBytesConcat(a: seq<Record>, b: seq<Record>)
    ensures TotalBytes(a + b) == TotalBytes(a) + TotalBytes(b)
  {
    if |b| == 0 {
      assert a + b == a;
    } else {
      TotalBytesConcat(a, b[..|b| - 1]);
      assert (a + b)[..|a + b| - 1] == a + b[..|b| - 1];
    }
  }

  lemma {:induction false} PayloadSize(records: seq<Record>)
    ensures |Payload(records)| == TotalBytes(records)
  {
    if |records| > 0 {
      PayloadSize(records[..|records| - 1]);
    }
  }

  lemma {:induction false} PayloadConcat(a: seq<Record>, b: seq<Record>)
    ensures Payload(a + b) == Payload(a) + Payload(b)
  {
    if |b| == 0 {
      assert a + b == a;
    } else {
      var n := |b| - 1;
      PayloadConcat(a, b[..n]);
      assert (a + b)[..|a + b| - 1] == a + b[..n];
      assert Payload(a + b) == (Payload(a) + Payload(b[..n])) + b[n].data;
    }
  }

  lemma TotalBytesHead(records: seq<Record>)
    requires |records| > 0
    ensures TotalBytes(records) == |records[0].data| + TotalBytes(records[1..])
  {
    assert records == [records[0]] + records[1..];
    TotalBytesConcat([records[0]], records[1..]);
    assert TotalBytes([records[0]]) == |records[0].data|;
  }

  /** The 64-bit sequence counter skips zero when it wraps. */
  function NextSequence(sequence: nat): (n: nat)
    requires sequence < SEQUENCES
    ensures 0 < n < SEQUENCES
  {
    if sequence + 1 == SEQUENCES then 1 else sequence + 1
  }

  /** What a capture queues when `room` slots are free: whole chunks, in order, until data or
      room runs out. */
  function Chop(generation: nat, sequence: nat, data: seq<Byte>, room: nat): (records: seq<Record>)
    requires sequence < SEQUENCES
    ensures |records| <= room
    ensures forall k :: 0 <= k < |records| ==> RecordOk(records[k]) && records[k].generation == generation
    decreases room
  {
    if |data| == 0 || room == 0 then []
    else
      var next := NextSequence(sequence);
      var chunk := if |data| > RECORD_MAX then RECORD_MAX else |data|;
      [Record(generation, next, data[..chunk])] + Chop(generation, next, data[chunk..], room - 1)
  }

  /** The bytes a capture leaves over. */
  function Rest(data: seq<Byte>, room: nat): (rest: seq<Byte>)
    ensures |rest| <= |data|
    decreases room
  {
    if |data| == 0 || room == 0 then data
    else Rest(data[if |data| > RECORD_MAX then RECORD_MAX else |data|..], room - 1)
  }

  lemma RecordCountChunk(size: nat)
    requires size >= RECORD_MAX
    ensures RecordCount(size) == 1 + RecordCount(size - RECORD_MAX)
  {
  }

  lemma {:induction false} ChopCount(generation: nat, sequence: nat, data: seq<Byte>, room: nat)
    requires sequence < SEQUENCES
    ensures |Chop(generation, sequence, data, room)| + RecordCount(|Rest(data, room)|) == RecordCount(|data|)
    decreases room
  {
    if |data| > RECORD_MAX && room > 0 {
      ChopCount(generation, NextSequence(sequence), data[RECORD_MAX..], room - 1);
      RecordCountChunk(|data|);
    } else if |data| > 0 && room > 0 {
      ChopCount(generation, NextSequence(sequence), data[|data|..], room - 1);
    }
  }

  lemma PayloadCons(first: Record, later: seq<Record>)
    ensures Payload([first] + later) == first.data + Payload(later)
  {
    PayloadConcat([first], later);
    assert [first][..0] == [];
    assert Payload([first]) == first.data;
  }

  lemma {:induction false} ChopPayload(generation: nat, sequence: nat, data: seq<Byte>, room: nat)
    requires sequence < SEQUENCES
    ensures Payload(Chop(generation, sequence, data, room)) + Rest(data, room) == data
    decreases room
  {
    if |data| > 0 && room > 0 {
      var next := NextSequence(sequence);
      var chunk := if |data| > RECORD_MAX then RECORD_MAX else |data|;
      var later := Chop(generation, next, data[chunk..], room - 1);
      ChopPayload(generation, next, data[chunk..], room - 1);
      PayloadCons(Record(generation, next, data[..chunk]), later);
      assert data == data[..chunk] + (Payload(later) + Rest(data[chunk..], room - 1));
    }
  }

  /** Nothing is lost or invented by splitting: queued payload followed by the rest is the data,
      and the record counts add up although the call is only partly accepted. */
  lemma ChopAccounts(generation: nat, sequence: nat, data: seq<Byte>, room: nat)
    requires sequence < SEQUENCES
    ensures Payload(Chop(generation, sequence, data, room)) + Rest(data, room) == data
    ensures TotalBytes(Chop(generation, sequence, data, room)) + |Rest(data, room)| == |data|
    ensures |Chop(generation, sequence, data, room)| + RecordCount(|Rest(data, room)|) == RecordCount(|data|)
  {
    ChopPayload(generation, sequence, data, room);
    ChopCount(generation, sequence, data, room);
    PayloadSize(Chop(generation, sequence, data, room));
    assert |Payload(Chop(generation, sequence, data, room)) + Rest(data, room)| == |data|;
  }

  lemma {:induction false} ChopSequence(generation: nat, sequence: nat, data: seq<Byte>, room: nat, k: nat)
    requires sequence < SEQUENCES && k < |Chop(generation, sequence, data, room)|
    ensures Chop(generation, sequence, data, room)[k].sequence ==
      (if k == 0 then NextSequence(sequence) else NextSequence(Chop(generation, sequence, data, room)[k - 1].sequence))
    decreases room
  {
    if k > 1 {
      var chunk := if |data| > RECORD_MAX then RECORD_MAX else |data|;
      ChopSequence(generation, NextSequence(sequence), data[chunk..], room - 1, k - 1);
    } else if k == 1 {
      var chunk := if |data| > RECORD_MAX then RECORD_MAX else |data|;
      ChopSequence(generation, NextSequence(sequence), data[chunk..], room - 1, 0);
    }
  }

  /** Records of other generations at the front go; the purge stops at the first match. */
  function PurgeOthers(records: seq<Record>, generation: nat): (kept: seq<Record>)
    ensures |kept| <= |records|
    ensures kept == records[|records| - |kept|..]
    ensures forall k :: 0 <= k < |records| - |kept| ==> records[k].generation != generation
    ensures |kept| > 0 ==> kept[0].generation == generation
  {
    if |records| == 0 || records[0].generation == generation then records
    else PurgeOthers(records[1..], generation)
  }

  lemma {:induction false} PurgeStops(records: seq<Record>, generation: nat, n: nat)
    requires n <= |records| && forall k :: 0 <= k < n ==> records[k].generation != generation
    requires n < |records| ==> records[n].generation == generation
    ensures PurgeOthers(records, generation) == records[n..]
  {
    if n > 0 {
      PurgeStops(records[1..], generation, n - 1);
      assert records[1..][n - 1..] == records[n..];
    }
  }

  /** Oldest generation first. */
  ghost predicate Ordered(records: seq<Record>) {
    forall i, j :: 0 <= i < j < |records| ==> records[i].generation <= records[j].generation
  }

  /** In an ordered queue with nothing newer than `generation`, purging from the head alone
      leaves no other generation anywhere. */
  lemma PurgeIsComplete(records: seq<Record>, generation: nat)
    requires Ordered(records) && forall k :: 0 <= k < |records| ==> records[k].generation <= generation
    ensures forall k :: 0 <= k < |PurgeOthers(records, generation)| ==>
      PurgeOthers(records, generation)[k].generation == generation
  {
    var kept := PurgeOthers(records, generation);
    var n := |records| - |kept|;
    forall k | 0 <= k < |kept| ensures kept[k].generation == generation {
      assert kept[k] == records[n + k] && kept[0] == records[n];
      if k > 0 {
        assert records[n].generation <= records[n + k].generation;
      }
    }
  }

  /** (head + k) modulo the ring size. */
  function SlotAt(head: nat, k: nat): (slot: nat)
    requires head < QUEUE_SLOTS && k <= QUEUE_SLOTS
    ensures slot < QUEUE_SLOTS
  {
    if head + k < QUEUE_SLOTS then head + k else head + k - QUEUE_SLOTS
  }

  lemma SlotAtIsModulo(head: nat, k: nat)
    requires head < QUEUE_SLOTS && k <= QUEUE_SLOTS
    ensures SlotAt(head, k) == (head + k) % QUEUE_SLOTS
  {
  }

  /** Reading the ring from `head` gives `contents`, oldest first. */
  ghost predicate Holds(slots: seq<Record>, head: nat, contents: seq<Record>) {
    && |slots| == QUEUE_SLOTS && head < QUEUE_SLOTS && |contents| <= QUEUE_SLOTS
    && forall k :: 0 <= k < |contents| ==> contents[k] == slots[SlotAt(head, k)]
  }

  /** Indices, count and byte total agree with the records held. */
  ghost predicate RingOk(slots: seq<Record>, head: nat, tail: nat, count: nat, bytes: nat, contents: seq<Record>) {
    && Holds(slots, head, contents)
    && count == |contents| && tail == SlotAt(head, count)
    && bytes == TotalBytes(contents) && RecordsOk(contents)
  }

  lemma RingPush(slots: seq<Record>, head: nat, tail: nat, count: nat, bytes: nat, contents: seq<Record>, r: Record)
    requires RingOk(slots, head, tail, count, bytes, contents) && count < QUEUE_SLOTS && RecordOk(r)
    ensures RingOk(slots[tail := r], head, SlotAt(tail, 1), count + 1, bytes + |r.data|, contents + [r])
  {
    PushKeeps(contents, r);
    var slots', contents' := slots[tail := r], contents + [r];
    forall k | 0 <= k < |contents'| ensures contents'[k] == slots'[SlotAt(head, k)] {
    }
  }

  lemma RingDrop(slots: seq<Record>, head: nat, tail: nat, count: nat, bytes: nat, contents: seq<Record>)
    requires RingOk(slots, head, tail, count, bytes, contents) && count > 0
    ensures bytes >= |slots[head].data| && contents[0] == slots[head]
    ensures RingOk(slots, SlotAt(head, 1), tail, count - 1, bytes - |slots[head].data|, contents[1..])
  {
    TotalBytesHead(contents);
    forall k | 0 <= k < |contents[1..]| ensures contents[1..][k] == slots[SlotAt(SlotAt(head, 1), k)] {
      assert contents[k + 1] == slots[SlotAt(head, k + 1)];
    }
  }

  lemma PushKeeps(records: seq<Record>, r: Record)
    requires RecordOk(r) && RecordsOk(records)
    ensures TotalBytes(records + [r]) == TotalBytes(records) + |r.data| && RecordsOk(records + [r])
  {
    assert (records + [r])[..|records|] == records;
  }

  /** Queueing one more chunk moves it from the front of what is still to be queued. */
  lemma ChopStep(before: seq<Record>, generation: nat, sequence: nat, data: seq<Byte>, room: nat)
    requires sequence < SEQUENCES && |data| > 0 && room > 0
    ensures var chunk := if |data| > RECORD_MAX then RECORD_MAX else |data|;
      var next := NextSequence(sequence);
      && before + Chop(generation, sequence, data, room) ==
           before + [Record(generation, next, data[..chunk])] + Chop(generation, next, data[chunk..], room - 1)
      && Rest(data, room) == Rest(data[chunk..], room - 1)
  {
  }

  /** `after` is `before` with as many whole chunks of `data` as there is room for. */
  ghost predicate Filled(before: seq<Record>, after: seq<Record>, generation: nat, sequence: nat, data: seq<Byte>, accepted: nat) {
    && |before| <= QUEUE_SLOTS && sequence < SEQUENCES
    && after == before + Chop(generation, sequence, data, QUEUE_SLOTS - |before|)
    && accepted + |Rest(data, QUEUE_SLOTS - |before|)| == |data|
  }

  class Ring {
    var queue: array<Record>
    var head: nat
    var tail: nat
    var count: nat
    var bytes: nat
    var sequence: nat
    /** The queued records, oldest first. */
    ghost var contents: seq<Record>

    ghost predicate Valid()
      reads this, queue
    {
      && sequence < SEQUENCES
      && RingOk(queue[..], head, tail, count, bytes, contents)
    }

    constructor ()
      ensures Valid() && fresh(queue) && contents == [] && sequence == 0
    {
      queue := new Record[QUEUE_SLOTS](_ => Record(0, 0, []));
      head, tail, count, bytes, sequence, contents := 0, 0, 0, 0, 0, [];
    }

    /** Drop the oldest record. */
    method DropHead() returns (dropped: Record)
      requires Valid() && count > 0
      modifies this`head, this`count, this`bytes, this`contents
      ensures Valid() && contents == old(contents)[1..] && dropped == old(contents)[0]
    {
      dropped := queue[head];
      RingDrop(queue[..], head, tail, count, bytes, contents);
      bytes := bytes - |dropped.data|;
      head := SlotAt(head, 1);
      count := count - 1;
      contents := contents[1..];
    }

    /** Drop everything and restart the ring at slot zero. */
    method Purge() returns (lostRecords: nat, lostBytes: nat)
      requires Valid()
      modifies this`head, this`tail, this`count, this`bytes, this`contents
      ensures Valid() && contents == [] && head == tail == 0
      ensures lostRecords == |old(contents)| && lostBytes == TotalBytes(old(contents))
    {
      ghost var all := contents;
      lostRecords, lostBytes := 0, 0;
      assert all[0..] == all;
      while count > 0
        invariant Valid() && lostRecords + count == |all|
        invariant contents == all[lostRecords..] && lostBytes + TotalBytes(contents) == TotalBytes(all)
      {
        TotalBytesHead(contents);
        var record := DropHead();
        lostRecords, lostBytes := lostRecords + 1, lostBytes + |record.data|;
      }
      head, tail := 0, 0;
    }

    /** Drop records of other generations from the head. */
    method PurgeOtherGenerations(generation: nat) returns (lostRecords: nat, lostBytes: nat)
      requires Valid()
      modifies this`head, this`count, this`bytes, this`contents
      ensures Valid() && contents == PurgeOthers(old(contents), generation)
      ensures lostRecords + |contents| == |old(contents)|
      ensures lostBytes + TotalBytes(contents) == TotalBytes(old(contents))
    {
      ghost var all := contents;
      lostRecords, lostBytes := 0, 0;
      assert all[0..] == all;
      while count > 0 && queue[head].generation != generation
        invariant Valid() && lostRecords + count == |all|
        invariant contents == all[lostRecords..] && lostBytes + TotalBytes(contents) == TotalBytes(all)
        invariant forall k :: 0 <= k < lostRecords ==> all[k].generation != generation
        decreases count
      {
        TotalBytesHead(contents);
        var record := DropHead();
        lostRecords, lostBytes := lostRecords + 1, lostBytes + |record.data|;
      }
      PurgeStops(all, generation, lostRecords);
    }

    /** Put one chunk at the tail. */
    method Push(generation: nat, chunk: seq<Byte>)
      requires Valid() && count < QUEUE_SLOTS && 0 < |chunk| <= RECORD_MAX
      modifies this`tail, this`count, this`bytes, this`sequence, this`contents, queue
      ensures Valid() && sequence == NextSequence(old(sequence))
      ensures contents == old(contents) + [Record(generation, sequence, chunk)]
    {
      sequence := NextSequence(sequence);
      var record := Record(generation, sequence, chunk);
      RingPush(queue[..], head, tail, count, bytes, contents, record);
      ghost var slots := queue[..];
      queue[tail] := record;
      assert queue[..] == slots[tail := record];
      tail := SlotAt(tail, 1);
      count := count + 1;
      bytes := bytes + |chunk|;
      contents := contents + [record];
    }

    /** Queue whole chunks until the data or the room runs out. */
    method Fill(generation: nat, data: seq<Byte>) returns (accepted: nat)
      requires Valid()
      modifies this`tail, this`count, this`bytes, this`sequence, this`contents, queue
      ensures Valid() && Filled(old(contents), contents, generation, old(sequence), data, accepted)
    {
      ghost var goal := contents + Chop(generation, sequence, data, QUEUE_SLOTS - count);
      ghost var left := Rest(data, QUEUE_SLOTS - count);
      var cursor := data;
      while |cursor| > 0 && count < QUEUE_SLOTS
        invariant Valid() && |cursor| <= |data|
        invariant contents + Chop(generation, sequence, cursor, QUEUE_SLOTS - |contents|) == goal
        invariant Rest(cursor, QUEUE_SLOTS - |contents|) == left
        decreases |cursor|
      {
        var chunk := |cursor|;
        if chunk > RECORD_MAX {
          chunk := RECORD_MAX;
        }
        ChopStep(contents, generation, sequence, cursor, QUEUE_SLOTS - |contents|);
        Push(generation, cursor[..chunk]);
        cursor := cursor[chunk..];
      }
      accepted := |data| - |cursor|;
    }

    /** Capture under the lock: purge what another session left, then queue what fits. */
    method Capture(generation: nat, data: seq<Byte>) returns (accepted: nat, ghost kept: seq<Record>)
      requires Valid()
      modifies this`head, this`tail, this`count, this`bytes, this`sequence, this`contents, queue
      ensures Valid() && kept == PurgeOthers(old(contents), generation)
      ensures Filled(kept, contents, generation, old(sequence), data, accepted)
    {
      var lostRecords, lostBytes := PurgeOtherGenerations(generation);
      kept := contents;
      accepted := Fill(generation, data);
    }

    /** The record at the head once other generations are gone, without removing it. */
    method Peek(generation: nat) returns (found: Option<Record>)
      requires Valid()
      modifies this`head, this`count, this`bytes, this`contents
      ensures Valid() && contents == PurgeOthers(old(contents), generation)
      ensures found == if |contents| == 0 then None else Some(contents[0])
    {
      var lostRecords, lostBytes := PurgeOtherGenerations(generation);
      if count == 0 {
        return None;
      }
      return Some(queue[head]);
    }

    /** Remove the head if it is the record named by `number`. */
    method Commit(generation: nat, number: nat) returns (committed: bool)
      requires Valid()
      modifies this`head, this`count, this`bytes, this`contents
      ensures Valid()
      ensures var kept := PurgeOthers(old(contents), generation);
        && (committed <==> |kept| > 0 && kept[0].sequence == number)
        && contents == if committed then kept[1..] else kept
    {
      var lostRecords, lostBytes := PurgeOtherGenerations(generation);
      if count == 0 {
        return false;
      }
      if queue[head].sequence != number {
        return false;
      }
      var sent := DropHead();
      return true;
    }
  }
}
