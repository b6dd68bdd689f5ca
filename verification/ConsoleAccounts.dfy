/**
 * Loss accounting: every byte and every record offered to the console is queued, sent, counted
 * in one of the four drop counters, or still in the hands of a call in progress.
 */
module ConsoleAccounts {
  import opened Bytes
  import opened ConsoleQueue
  import opened ConsoleProtocol
  import ConsoleSafety

  const COUNTER: nat := 0x1_0000_0000

  function HeldBytes(p: Producer): nat {
    match p
    case Idle => 0
    case Loaded(_, data) => |data|
    case Locked(_, data) => |data|
    case Append(_, data) => |data|
    case UnlockStale(size) => size
    case Unlock(size) => size
    case LossRecords(_, size) => size
    case LossBytes(_, size) => size
  }

  function HeldRecords(p: Producer): nat {
    if p.LossBytes? then 0 else RecordCount(HeldBytes(p))
  }

  function SumBytes(ps: seq<Producer>): nat {
    if |ps| == 0 then 0 else SumBytes(ps[..|ps| - 1]) + HeldBytes(ps[|ps| - 1])
  }

  function SumRecords(ps: seq<Producer>): nat {
    if |ps| == 0 then 0 else SumRecords(ps[..|ps| - 1]) + HeldRecords(ps[|ps| - 1])
  }

  function OwnerBytes(o: Owner): nat {
    if Popped(o) then o.size else 0
  }

  function OwnerRecords(o: Owner): nat {
    if o.CommitUnlock? || o.SentRecords? then 1 else 0
  }

  function LostBytes(l: Losses): nat {
    l.disconnected.bytes + l.contention.bytes + l.full.bytes + l.stale.bytes
  }

  function LostRecords(l: Losses): nat {
    l.disconnected.records + l.contention.records + l.full.records + l.stale.records
  }

  /** The bytes waiting in the queue. */
  function QueuedBytes(accepted: seq<Record>, removed: nat): nat {
    if removed <= |accepted| then TotalBytes(accepted[removed..]) else 0
  }

  lemma QueuedDrop(accepted: seq<Record>, removed: nat, end: nat)
    requires removed <= end <= |accepted|
    ensures QueuedBytes(accepted, removed) == TotalBytes(accepted[removed..end]) + QueuedBytes(accepted, end)
  {
    assert accepted[removed..] == accepted[removed..end] + accepted[end..];
    TotalBytesConcat(accepted[removed..end], accepted[end..]);
  }

  lemma QueuedAppend(accepted: seq<Record>, removed: nat, records: seq<Record>)
    requires removed <= |accepted|
    ensures QueuedBytes(accepted + records, removed) == QueuedBytes(accepted, removed) + TotalBytes(records)
  {
    TotalBytesConcat(accepted[removed..], records);
    assert (accepted + records)[removed..] == accepted[removed..] + records;
  }

  lemma QueuedHead(accepted: seq<Record>, removed: nat)
    requires removed < |accepted|
    ensures QueuedBytes(accepted, removed) == |accepted[removed].data| + QueuedBytes(accepted, removed + 1)
  {
    TotalBytesHead(accepted[removed..]);
    assert accepted[removed..][1..] == accepted[removed + 1..];
  }

  ghost predicate Accounts(s: State) {
    && s.q.removed <= |s.q.accepted|
    && s.books.offered.bytes == QueuedBytes(s.q.accepted, s.q.removed) + s.books.sent.bytes + LostBytes(s.books.lost) + SumBytes(s.producers) + OwnerBytes(s.owner)
    && s.books.offered.records == |s.q.accepted| - s.q.removed + s.books.sent.records + LostRecords(s.books.lost) + SumRecords(s.producers) + OwnerRecords(s.owner)
  }

  lemma {:induction false} SumUpdate(ps: seq<Producer>, i: nat, p: Producer)
    requires i < |ps|
    ensures SumBytes(ps[i := p]) + HeldBytes(ps[i]) == SumBytes(ps) + HeldBytes(p)
    ensures SumRecords(ps[i := p]) + HeldRecords(ps[i]) == SumRecords(ps) + HeldRecords(p)
  {
    var n := |ps| - 1;
    if i == n {
      assert ps[i := p][..n] == ps[..n];
    } else {
      SumUpdate(ps[..n], i, p);
      assert ps[i := p][..n] == ps[..n][i := p];
    }
  }

  lemma {:induction false} SumIdle(ps: seq<Producer>)
    requires forall i :: 0 <= i < |ps| ==> ps[i] == Idle
    ensures SumBytes(ps) == 0 && SumRecords(ps) == 0
  {
    if |ps| > 0 {
      SumIdle(ps[..|ps| - 1]);
    }
  }

  /** The two balance equations, with everything but the producers on the left. */
  function FreeBytes(s: State): int {
    s.books.offered.bytes - QueuedBytes(s.q.accepted, s.q.removed) - s.books.sent.bytes - LostBytes(s.books.lost) - OwnerBytes(s.owner)
  }

  function FreeRecords(s: State): int {
    s.books.offered.records - (|s.q.accepted| - s.q.removed) - s.books.sent.records - LostRecords(s.books.lost) - OwnerRecords(s.owner)
  }

  /** Dropping records as stale moves them from the queue to the stale counter. */
  lemma DropBalances(s: State, n: nat)
    requires Shaped(s) && s.q.removed + n <= |s.q.accepted|
    ensures FreeBytes(DropStale(s, n)) == FreeBytes(s) && FreeRecords(DropStale(s, n)) == FreeRecords(s)
  {
    QueuedDrop(s.q.accepted, s.q.removed, s.q.removed + n);
  }

  /** Queueing records takes them out of what is free. */
  lemma AppendBalances(s: State, records: seq<Record>)
    requires s.q.removed <= |s.q.accepted|
    ensures FreeBytes(AppendTo(s, records)) == FreeBytes(s) - TotalBytes(records)
    ensures FreeRecords(AppendTo(s, records)) == FreeRecords(s) - |records|
  {
    QueuedAppend(s.q.accepted, s.q.removed, records);
  }

  /** A capture splits its data between the queue and what it still holds. */
  lemma CaptureBalances(s: State, g: nat, data: seq<Byte>)
    requires Shaped(s)
    ensures var s', rest := Captured(s, g, data), Rest(data, Room(PurgeTo(s, g)));
      && s'.q.removed <= |s'.q.accepted|
      && FreeBytes(s') - FreeBytes(s) == |rest| - |data|
      && FreeRecords(s') - FreeRecords(s) == RecordCount(|rest|) - RecordCount(|data|)
  {
    DropBalances(s, PurgeEnd(s.q.accepted, s.q.removed, g) - s.q.removed);
    var purged := PurgeTo(s, g);
    var room := Room(purged);
    ChopAccounts(g, s.q.sequence, data, room);
    AppendBalances(purged, Chop(g, s.q.sequence, data, room));
  }

  /** A step of one capturing thread shifts what it holds by exactly what it books. */
  lemma ProducerShifts(s: State, who: nat, p: Producer, s': State, p': Producer)
    requires Shaped(s) && ProducerMoves(s, who, p, s', p') && !p.Append?
    ensures s'.q.removed == s.q.removed && s'.q.accepted == s.q.accepted
    ensures FreeBytes(s') - FreeBytes(s) == HeldBytes(p') - HeldBytes(p)
    ensures FreeRecords(s') - FreeRecords(s) == HeldRecords(p') - HeldRecords(p)
  {
    hide TotalBytes, QueuedBytes, RecordsOk;
    match p
    case Idle =>
    case Loaded(_, _) =>
    case Locked(_, _) =>
    case UnlockStale(_) =>
    case Unlock(_) =>
    case LossRecords(_, _) =>
    case LossBytes(_, _) =>
  }

  lemma CaptureShifts(s: State, session: Session, data: seq<Byte>, s': State, p': Producer)
    requires Shaped(s)
    requires s' == Captured(s, session.generation, data) && p' == Unlock(|Rest(data, Room(PurgeTo(s, session.generation)))|)
    ensures s'.q.removed <= |s'.q.accepted|
    ensures FreeBytes(s') - FreeBytes(s) == HeldBytes(p') - |data|
    ensures FreeRecords(s') - FreeRecords(s) == HeldRecords(p') - RecordCount(|data|)
  {
    CaptureBalances(s, session.generation, data);
  }

  lemma ProducerBalances(s: State, who: nat, s': State)
    requires Shaped(s) && Accounts(s) && Step(s, who, s')
    ensures Accounts(s')
  {
    hide TotalBytes, QueuedBytes, RecordsOk, SumBytes, SumRecords;
    var p, p' := s.producers[who], s'.producers[who];
    var middle := s'.(producers := s.producers);
    SumUpdate(s.producers, who, p');
    if p.Append? {
      CaptureShifts(s, p.session, p.data, middle, p');
    } else {
      ProducerShifts(s, who, p, middle, p');
    }
    assert FreeBytes(s') == FreeBytes(middle) && FreeRecords(s') == FreeRecords(middle);
    assert SumBytes(s'.producers) + HeldBytes(p) == SumBytes(s.producers) + HeldBytes(p');
  }

  lemma StartBalances(s: State, s': State)
    requires Accounts(s) && s.owner.Resting? && OwnerStarts(s, s')
    ensures Accounts(s')
  {
  }

  lemma OpenBalances(s: State, s': State)
    requires Shaped(s) && Accounts(s) && InOpen(s.owner) && OpenMoves(s, s')
    ensures Accounts(s')
  {
    hide TotalBytes, QueuedBytes, SumBytes, SumRecords, RecordCount, RecordsOk;
    DropBalances(s, |s.q.accepted| - s.q.removed);
    assert s'.producers == s.producers;
    assert FreeBytes(s') == FreeBytes(s) && FreeRecords(s') == FreeRecords(s);
  }

  lemma CloseBalances(s: State, s': State)
    requires Shaped(s) && Accounts(s) && InClose(s.owner) && CloseMoves(s, s')
    ensures Accounts(s')
  {
    hide TotalBytes, QueuedBytes, SumBytes, SumRecords, RecordCount, RecordsOk;
    DropBalances(s, |s.q.accepted| - s.q.removed);
    assert s'.producers == s.producers;
    assert FreeBytes(s') == FreeBytes(s) && FreeRecords(s') == FreeRecords(s);
  }

  /** A purge by the owner moves records to the stale counter; the head it then sees is counted
      once, whether it stays or is taken. */
  lemma HeadBalances(s: State, g: nat)
    requires Shaped(s)
    ensures var purged := PurgeTo(s, g);
      && purged.q.removed <= |purged.q.accepted|
      && FreeBytes(purged) == FreeBytes(s) && FreeRecords(purged) == FreeRecords(s)
      && (purged.q.removed < |purged.q.accepted| ==>
            QueuedBytes(purged.q.accepted, purged.q.removed) ==
              |purged.q.accepted[purged.q.removed].data| + QueuedBytes(purged.q.accepted, purged.q.removed + 1))
  {
    var purged := PurgeTo(s, g);
    DropBalances(s, PurgeEnd(s.q.accepted, s.q.removed, g) - s.q.removed);
    if purged.q.removed < |purged.q.accepted| {
      QueuedHead(purged.q.accepted, purged.q.removed);
    }
  }

  lemma PeekBalances(s: State, s': State)
    requires Shaped(s) && Accounts(s) && InPeek(s.owner) && PeekMoves(s, s')
    ensures Accounts(s')
  {
    hide TotalBytes, QueuedBytes, SumBytes, SumRecords, RecordCount, RecordsOk;
    HeadBalances(s, s.transport.generation);
    assert s'.producers == s.producers;
    assert FreeBytes(s') == FreeBytes(s) && FreeRecords(s') == FreeRecords(s);
  }

  lemma CommitBalances(s: State, s': State)
    requires Shaped(s) && Accounts(s) && InCommit(s.owner) && CommitMoves(s, s')
    ensures Accounts(s')
  {
    hide TotalBytes, QueuedBytes, SumBytes, SumRecords, RecordCount, RecordsOk;
    HeadBalances(s, s.transport.generation);
    assert s'.producers == s.producers;
    assert FreeBytes(s') == FreeBytes(s) && FreeRecords(s') == FreeRecords(s);
  }

  lemma StepBalances(s: State, who: int, s': State)
    requires Shaped(s) && Accounts(s) && Step(s, who, s')
    ensures Accounts(s')
  {
    if who >= 0 {
      ProducerBalances(s, who, s');
    } else if who == -1 {
      if InPeek(s.owner) {
        PeekBalances(s, s');
      } else if InCommit(s.owner) {
        CommitBalances(s, s');
      } else if InOpen(s.owner) {
        OpenBalances(s, s');
      } else if InClose(s.owner) {
        CloseBalances(s, s');
      } else {
        StartBalances(s, s');
      }
    }
  }

  lemma InitBalances(s: State)
    requires Init(s)
    ensures Accounts(s)
  {
    SumIdle(s.producers);
  }

  lemma {:induction false} RunBalances(states: seq<State>, who: seq<int>, k: nat)
    requires ConsoleSafety.Run(states, who) && k < |states|
    ensures Accounts(states[k])
  {
    if k == 0 {
      InitBalances(states[0]);
    } else {
      var j := k - 1;
      RunBalances(states, who, j);
      var s, s' := states[j], states[j + 1];
      assert Shaped(s) && Step(s, who[j], s');
      StepBalances(s, who[j], s');
    }
  }

  /** What a 32-bit counter reads after counting to `n`. */
  function Reads(n: nat): nat {
    n % COUNTER
  }

  lemma SixCounters(a: nat, b: nat, c: nat, d: nat, e: nat, f: nat)
    ensures Reads(a + b + c + d + e + f) == (Reads(a) + Reads(b) + Reads(c) + Reads(d) + Reads(e) + Reads(f)) % COUNTER
  {
    var ra, rb, rc, rd, re := a / COUNTER, b / COUNTER, c / COUNTER, d / COUNTER, e / COUNTER;
    var rf := f / COUNTER;
    var rest := Reads(a) + Reads(b) + Reads(c) + Reads(d) + Reads(e) + Reads(f);
    assert a + b + c + d + e + f == rest + COUNTER * (ra + rb + rc + rd + re + rf);
    Multiples(rest, ra + rb + rc + rd + re + rf);
  }

  lemma {:induction false} Multiples(n: nat, times: nat)
    ensures Reads(n + COUNTER * times) == Reads(n)
  {
    if times > 0 {
      Multiples(n, times - 1);
      assert n + COUNTER * times == (n + COUNTER * (times - 1)) + COUNTER;
    }
  }

  /** Whenever no call is in progress, the counters account for everything offered, modulo 2^32. */
  lemma QuiescentCountersBalance(states: seq<State>, who: seq<int>, k: nat)
    requires ConsoleSafety.Run(states, who) && k < |states|
    requires states[k].owner == Resting && forall i :: 0 <= i < |states[k].producers| ==> states[k].producers[i] == Idle
    ensures var s := states[k]; var l := s.books.lost;
      && s.q.removed <= |s.q.accepted|
      && Reads(s.books.offered.bytes) == (Reads(QueuedBytes(s.q.accepted, s.q.removed)) + Reads(s.books.sent.bytes) +
           Reads(l.disconnected.bytes) + Reads(l.contention.bytes) + Reads(l.full.bytes) + Reads(l.stale.bytes)) % COUNTER
      && Reads(s.books.offered.records) == (Reads(|s.q.accepted| - s.q.removed) + Reads(s.books.sent.records) +
           Reads(l.disconnected.records) + Reads(l.contention.records) + Reads(l.full.records) + Reads(l.stale.records)) % COUNTER
  {
    RunBalances(states, who, k);
    var s := states[k];
    var l := s.books.lost;
    SumIdle(s.producers);
    SixCounters(QueuedBytes(s.q.accepted, s.q.removed), s.books.sent.bytes, l.disconnected.bytes, l.contention.bytes, l.full.bytes, l.stale.bytes);
    SixCounters(|s.q.accepted| - s.q.removed, s.books.sent.records, l.disconnected.records, l.contention.records, l.full.records, l.stale.records);
  }
}
