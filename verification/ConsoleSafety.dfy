/**
 * What every interleaving of the console protocol keeps: the locks exclude each other, the queue
 * is ordered by generation, and what the debugger has received of a session is a gap-free prefix
 * of what the session accepted.
 */
module ConsoleSafety {
  import opened Bytes
  import opened ConsoleQueue
  import opened ConsoleProtocol

  // ---- the records of one generation ----

  function Of(records: seq<Record>, generation: nat): (r: seq<Record>) {
    if |records| == 0 then []
    else
      var n := |records| - 1;
      if records[n].generation == generation then Of(records[..n], generation) + [records[n]] else Of(records[..n], generation)
  }

  lemma OfAdd(records: seq<Record>, r: Record, generation: nat)
    ensures Of(records + [r], generation) ==
      if r.generation == generation then Of(records, generation) + [r] else Of(records, generation)
  {
    assert (records + [r])[..|records|] == records;
  }

  lemma {:induction false} OfConcat(a: seq<Record>, b: seq<Record>, generation: nat)
    ensures Of(a + b, generation) == Of(a, generation) + Of(b, generation)
  {
    if |b| == 0 {
      assert a + b == a;
    } else {
      var n := |b| - 1;
      OfConcat(a, b[..n], generation);
      assert a + b == (a + b[..n]) + [b[n]];
      OfAdd(a + b[..n], b[n], generation);
      assert b == b[..n] + [b[n]];
    }
  }

  lemma {:induction false} OfNone(records: seq<Record>, generation: nat)
    requires forall k :: 0 <= k < |records| ==> records[k].generation != generation
    ensures Of(records, generation) == []
  {
    if |records| > 0 {
      OfNone(records[..|records| - 1], generation);
    }
  }

  lemma OfTake(records: seq<Record>, n: nat, generation: nat)
    requires n <= |records|
    ensures Of(records[..n], generation) <= Of(records, generation)
  {
    OfConcat(records[..n], records[n..], generation);
    assert records[..n] + records[n..] == records;
  }

  // ---- the invariant ----

  predicate InLock(p: Producer) {
    p.Locked? || p.Append? || p.UnlockStale? || p.Unlock?
  }

  predicate OwnerInLock(o: Owner) {
    || o.OpenPurge? || o.OpenUnlock? || o.ClosePurge? || o.CloseUnlock?
    || o.PeekCheck? || o.PeekPurge? || o.PeekStale? || o.PeekUnlock?
    || o.CommitCheck? || o.CommitPop? || o.CommitFail? || o.CommitUnlock?
  }

  ghost predicate Locking(s: State) {
    && (forall i :: 0 <= i < |s.producers| ==> (InLock(s.producers[i]) <==> s.holder == ByProducer(i)))
    && (OwnerInLock(s.owner) <==> s.holder == ByOwner)
    && (s.holder.ByProducer? ==> s.holder.producer < |s.producers|)
  }

  /** Records were accepted oldest generation first, none newer than the session, and a capture
      that passed its check can only add records at least as new as all of them. */
  ghost predicate Aged(s: State) {
    && Ordered(s.q.accepted)
    && (forall k :: 0 <= k < |s.q.accepted| ==> s.q.accepted[k].generation <= s.session.generation)
    && (forall i :: 0 <= i < |s.producers| ==> ProducerAged(s, s.producers[i]))
  }

  ghost predicate ProducerAged(s: State, p: Producer) {
    && (p.Loaded? || p.Locked? || p.Append? ==> p.session.open && p.session.generation <= s.session.generation && |p.data| > 0)
    && (p.Append? ==> forall k :: 0 <= k < |s.q.accepted| ==> s.q.accepted[k].generation <= p.session.generation)
  }

  /** Where the owner stands with respect to the session word and its own fields. */
  ghost predicate Attached(s: State) {
    var o, t := s.owner, s.transport;
    && (t.generation != 0 ==> t.generation == s.session.generation)
    && (t.uncommitted != 0 ==> t.generation != 0 && !t.failed)
    && (InOpen(o) ==> t.generation == 0 && !t.failed)
    && (InClose(o) ==> t == FRESH)
    && (o.OpenGate? ==> o.prior.generation == s.session.generation)
    && (o.OpenTryQueue? || o.OpenPurge? || o.OpenUnlock? || o.OpenPublish? ==> o.previous == s.session.generation && !s.session.open)
    && (o.OpenReturn? ==> o.started == s.session.generation != 0)
    && (o.CloseGate? ==> o.closing == s.session.generation)
    && (InPeek(o) ==> t.generation != 0 && !t.failed && t.uncommitted == 0)
    && (InCommit(o) ==> t.generation != 0 && !t.failed && t.uncommitted != 0)
  }

  /** The session whose records the transport is delivering, if any. */
  ghost function Live(s: State): nat {
    if s.owner.OpenReturn? then s.owner.started else s.transport.generation
  }

  /** A frame has been written whose record is still at the head. */
  ghost predicate Unpopped(s: State) {
    s.transport.uncommitted != 0 && !Popped(s.owner)
  }

  /** The record `r` is at the head and belongs to the live session. */
  ghost predicate HeadIs(s: State, r: Record) {
    s.q.removed < |s.q.accepted| && s.q.accepted[s.q.removed] == r && r.generation == Live(s)
  }

  ghost predicate Delivering(s: State)
    requires Shaped(s)
  {
    && (forall k :: 0 <= k < |s.written| ==> s.written[k].generation <= s.session.generation)
    && (forall g :: Of(s.written, g) <= Of(s.q.accepted, g))
    && (Live(s) != 0 && !s.transport.failed ==>
          if Unpopped(s) then
            && s.q.removed < |s.q.accepted| && HeadIs(s, s.q.accepted[s.q.removed])
            && s.q.accepted[s.q.removed].sequence == s.transport.uncommitted
            && Of(s.written, Live(s)) == Of(s.q.accepted[..s.q.removed + 1], Live(s))
          else Of(s.written, Live(s)) == Of(s.q.accepted[..s.q.removed], Live(s)))
    && (s.owner.PeekUnlock? && s.owner.found.Some? ==> HeadIs(s, s.owner.found.value))
    && (s.owner.WriteFrame? ==> HeadIs(s, s.owner.record))
  }

  ghost predicate Inv(s: State) {
    Shaped(s) && Locking(s) && Aged(s) && Attached(s) && Delivering(s)
  }

  lemma InitInv(s: State)
    requires Init(s)
    ensures Inv(s)
  {
  }

  // ---- purging ----

  /** What is delivered of the live session does not depend on older records leaving the queue. */
  lemma DropKeepsDelivering(s: State, n: nat)
    requires Shaped(s) && Attached(s) && Delivering(s) && s.q.removed + n <= |s.q.accepted|
    requires Live(s) != 0 && !s.transport.failed ==>
      forall k :: s.q.removed <= k < s.q.removed + n ==> s.q.accepted[k].generation != Live(s)
    ensures Delivering(DropStale(s, n)) && Shaped(DropStale(s, n))
  {
    hide Of, TotalBytes;
    var s' := DropStale(s, n);
    var g := Live(s);
    if g != 0 && !s.transport.failed {
      if !Unpopped(s) {
        assert s.q.accepted[..s.q.removed + n] == s.q.accepted[..s.q.removed] + s.q.accepted[s.q.removed..s.q.removed + n];
        OfConcat(s.q.accepted[..s.q.removed], s.q.accepted[s.q.removed..s.q.removed + n], g);
        OfNone(s.q.accepted[s.q.removed..s.q.removed + n], g);
      }
    }
  }

  /** Delivery survives any step that leaves the records, the written frames and the owner's
      position in the pump alone. */
  lemma SameDelivering(s: State, s': State)
    requires Shaped(s) && Shaped(s') && Delivering(s)
    requires s'.q.accepted == s.q.accepted && s'.q.removed == s.q.removed && s'.written == s.written
    requires s.session.generation <= s'.session.generation
    requires Live(s') != 0 && !s'.transport.failed ==>
      && Live(s') == Live(s) && !s.transport.failed
      && Unpopped(s') == Unpopped(s) && (Unpopped(s') ==> s'.transport.uncommitted == s.transport.uncommitted)
    requires s'.owner.PeekUnlock? && s'.owner.found.Some? ==> HeadIs(s', s'.owner.found.value)
    requires s'.owner.WriteFrame? ==> HeadIs(s', s'.owner.record)
    ensures Delivering(s')
  {
  }

  // ---- every step keeps the locks ----

  /** What a capturing thread's step may touch. */
  lemma ProducerFrame(s: State, who: nat, s': State)
    requires Shaped(s) && Step(s, who, s')
    ensures s'.owner == s.owner && s'.transport == s.transport && s'.session == s.session && s'.written == s.written
    ensures !s.producers[who].Append? ==> s'.q.accepted == s.q.accepted && s'.q.removed == s.q.removed && s'.q.sequence == s.q.sequence
    ensures (InLock(s.producers[who]) <==> InLock(s'.producers[who])) ==> s'.holder == s.holder
    ensures InLock(s.producers[who]) && !InLock(s'.producers[who]) ==> s'.holder == Free
    ensures !InLock(s.producers[who]) && InLock(s'.producers[who]) ==> s.holder == Free && s'.holder == ByProducer(who)
  {
    match s.producers[who]
    case Idle =>
    case Loaded(_, _) =>
    case Locked(_, _) =>
    case Append(_, _) =>
    case UnlockStale(_) =>
    case Unlock(_) =>
    case LossRecords(_, _) =>
    case LossBytes(_, _) =>
  }

  lemma ProducerKeepsLocking(s: State, who: nat, s': State)
    requires Shaped(s) && Locking(s) && Step(s, who, s')
    ensures Locking(s')
  {
    ProducerFrame(s, who, s');
    assert forall j :: 0 <= j < |s.producers| && j != who ==> s'.producers[j] == s.producers[j];
  }

  /** What the owner's step may touch. */
  ghost predicate OwnerFramed(s: State, s': State) {
    && s'.producers == s.producers && s'.q.accepted == s.q.accepted && s'.q.sequence == s.q.sequence
    && s.session.generation <= s'.session.generation
    && ((OwnerInLock(s.owner) <==> OwnerInLock(s'.owner)) ==> s'.holder == s.holder)
    && (OwnerInLock(s.owner) && !OwnerInLock(s'.owner) ==> s'.holder == Free)
    && (!OwnerInLock(s.owner) && OwnerInLock(s'.owner) ==> s.holder == Free && s'.holder == ByOwner)
  }

  lemma OpenKeepsAttached(s: State, s': State)
    requires Shaped(s) && Attached(s) && InOpen(s.owner) && OpenMoves(s, s')
    ensures Attached(s') && OwnerFramed(s, s')
  {
    hide TotalBytes, RecordsOk;
  }

  lemma CloseKeepsAttached(s: State, s': State)
    requires Shaped(s) && Attached(s) && InClose(s.owner) && CloseMoves(s, s')
    ensures Attached(s') && OwnerFramed(s, s')
  {
    hide TotalBytes, RecordsOk;
  }

  lemma PeekKeepsAttached(s: State, s': State)
    requires Shaped(s) && Attached(s) && InPeek(s.owner) && PeekMoves(s, s')
    requires s.owner.WriteFrame? ==> s.owner.record.sequence > 0
    ensures Attached(s') && OwnerFramed(s, s')
  {
    hide TotalBytes, RecordsOk;
  }

  lemma CommitKeepsAttached(s: State, s': State)
    requires Shaped(s) && Attached(s) && InCommit(s.owner) && CommitMoves(s, s')
    ensures Attached(s') && OwnerFramed(s, s')
  {
    hide TotalBytes, RecordsOk;
  }

  lemma OwnerKeepsAttached(s: State, s': State)
    requires Shaped(s) && Attached(s) && Delivering(s) && Step(s, -1, s')
    ensures Attached(s') && OwnerFramed(s, s')
  {
    if InOpen(s.owner) {
      OpenKeepsAttached(s, s');
    } else if InClose(s.owner) {
      CloseKeepsAttached(s, s');
    } else if InPeek(s.owner) {
      assert s.owner.WriteFrame? ==> RecordOk(s.q.accepted[s.q.removed]);
      PeekKeepsAttached(s, s');
    } else if !s.owner.Resting? {
      CommitKeepsAttached(s, s');
    }
  }

  lemma StepKeepsLocking(s: State, who: int, s': State)
    requires Inv(s) && Step(s, who, s')
    ensures Locking(s') && Attached(s')
  {
    if who >= 0 {
      ProducerKeepsLocking(s, who, s');
      ProducerFrame(s, who, s');
    } else if who == -1 {
      OwnerKeepsAttached(s, s');
    }
  }

  // ---- every step keeps the order of generations ----

  lemma ExtendOrdered(accepted: seq<Record>, records: seq<Record>, g: nat)
    requires Ordered(accepted) && forall k :: 0 <= k < |accepted| ==> accepted[k].generation <= g
    requires forall k :: 0 <= k < |records| ==> records[k].generation == g
    ensures Ordered(accepted + records) && forall k :: 0 <= k < |accepted + records| ==> (accepted + records)[k].generation <= g
  {
  }

  lemma AppendKeepsAged(s: State, who: nat, s': State)
    requires Inv(s) && Step(s, who, s') && s.producers[who].Append?
    ensures Aged(s')
  {
    var p := s.producers[who];
    var g := p.session.generation;
    assert ProducerAged(s, p);
    ProducerFrame(s, who, s');
    var records := Chop(g, s.q.sequence, p.data, Room(PurgeTo(s, g)));
    ExtendOrdered(s.q.accepted, records, g);
    assert s'.q.accepted == s.q.accepted + records;
    forall i | 0 <= i < |s'.producers| && i != who ensures ProducerAged(s', s'.producers[i]) {
      assert ProducerAged(s, s.producers[i]) && s'.producers[i] == s.producers[i] && !InLock(s.producers[i]);
    }
  }

  lemma OthersKeepAged(s: State, who: int, s': State)
    requires Aged(s) && s'.q.accepted == s.q.accepted && s.session.generation <= s'.session.generation
    requires |s'.producers| == |s.producers|
    requires forall i :: 0 <= i < |s.producers| && i != who ==> s'.producers[i] == s.producers[i]
    requires 0 <= who < |s.producers| ==> ProducerAged(s', s'.producers[who])
    ensures Aged(s')
  {
    forall i | 0 <= i < |s'.producers| && i != who ensures ProducerAged(s', s'.producers[i]) {
      assert ProducerAged(s, s.producers[i]);
    }
  }

  lemma StepKeepsAged(s: State, who: int, s': State)
    requires Inv(s) && Step(s, who, s')
    ensures Aged(s')
  {
    if who >= 0 {
      assert ProducerAged(s, s.producers[who]);
      if s.producers[who].Append? {
        AppendKeepsAged(s, who, s');
      } else {
        ProducerFrame(s, who, s');
        OthersKeepAged(s, who, s');
      }
    } else {
      if who == -1 {
        OwnerKeepsAttached(s, s');
      }
      OthersKeepAged(s, who, s');
    }
  }

  // ---- every step keeps delivery in order ----

  lemma AppendKeepsShape(s: State, g: nat, data: seq<Byte>)
    requires Shaped(s)
    ensures Shaped(AppendTo(s, Chop(g, s.q.sequence, data, Room(s))))
  {
  }

  lemma AppendKeepsDelivering(s: State, records: seq<Record>)
    requires Shaped(s) && Shaped(AppendTo(s, records)) && Delivering(s)
    ensures Delivering(AppendTo(s, records))
  {
    var s' := AppendTo(s, records);
    forall g ensures Of(s'.written, g) <= Of(s'.q.accepted, g) {
      OfConcat(s.q.accepted, records, g);
    }
    assert s'.q.accepted[..s.q.removed] == s.q.accepted[..s.q.removed];
    if s.q.removed < |s.q.accepted| {
      assert s'.q.accepted[..s.q.removed + 1] == s.q.accepted[..s.q.removed + 1];
    }
  }

  /** A capture's purge takes nothing from the live session: what it may remove is older. */
  lemma CapturedDelivers(s: State, p: Producer)
    requires Shaped(s) && Attached(s) && Delivering(s) && ProducerAged(s, p) && p.Append?
    ensures var after := Captured(s, p.session.generation, p.data);
      Shaped(after) && Delivering(after)
  {
    var g := p.session.generation;
    var purged := PurgeTo(s, g);
    DropKeepsDelivering(s, PurgeEnd(s.q.accepted, s.q.removed, g) - s.q.removed);
    AppendKeepsShape(purged, g, p.data);
    AppendKeepsDelivering(purged, Chop(g, s.q.sequence, p.data, Room(purged)));
  }

  lemma CaptureDelivers(s: State, p: Producer, s': State)
    requires Shaped(s) && Attached(s) && Delivering(s) && ProducerAged(s, p) && p.Append?
    requires s' == Captured(s, p.session.generation, p.data).(producers := s'.producers)
    ensures Shaped(s') && Delivering(s')
  {
    CapturedDelivers(s, p);
    SameDelivering(Captured(s, p.session.generation, p.data), s');
  }

  lemma ProducerDelivers(s: State, who: nat, s': State)
    requires Inv(s) && Step(s, who, s')
    ensures Shaped(s') && Delivering(s')
  {
    if s.producers[who].Append? {
      assert ProducerAged(s, s.producers[who]);
      CaptureDelivers(s, s.producers[who], s');
    } else {
      ProducerFrame(s, who, s');
      SameDelivering(s, s');
    }
  }

  /** Publishing a new generation: no record of it was ever accepted or written. */
  lemma OpenDelivers(s: State, s': State)
    requires Shaped(s) && Aged(s) && Attached(s) && Delivering(s) && InOpen(s.owner) && OpenMoves(s, s')
    ensures Shaped(s') && Delivering(s')
  {
    hide Of, TotalBytes;
    if s.owner.OpenPurge? {
      DropKeepsDelivering(s, |s.q.accepted| - s.q.removed);
    } else if s.owner.OpenPublish? {
      var g := s.owner.previous + 1;
      OfNone(s.written, g);
      OfNone(s.q.accepted[..s.q.removed], g);
    }
  }

  lemma CloseDelivers(s: State, s': State)
    requires Shaped(s) && Aged(s) && Attached(s) && Delivering(s) && InClose(s.owner) && CloseMoves(s, s')
    ensures Shaped(s') && Delivering(s')
  {
    hide Of, TotalBytes;
    if s.owner.ClosePurge? {
      DropKeepsDelivering(s, |s.q.accepted| - s.q.removed);
    }
  }

  lemma StartDelivers(s: State, s': State)
    requires Inv(s) && Step(s, -1, s') && s.owner.Resting?
    ensures Shaped(s') && Delivering(s')
  {
    hide Of, TotalBytes;
  }

  lemma PeekDelivers(s: State, s': State)
    requires Shaped(s) && Attached(s) && Delivering(s) && InPeek(s.owner) && !s.owner.WriteFrame? && !s.owner.PeekPurge? && PeekMoves(s, s')
    ensures Shaped(s') && Delivering(s')
  {
    SameDelivering(s, s');
  }

  lemma PeekPurgeDelivers(s: State, s': State)
    requires Shaped(s) && Attached(s) && Delivering(s) && s.owner.PeekPurge? && PeekMoves(s, s')
    ensures Shaped(s') && Delivering(s')
  {
    DropKeepsDelivering(s, PurgeEnd(s.q.accepted, s.q.removed, s.transport.generation) - s.q.removed);
    SameDelivering(PurgeTo(s, s.transport.generation), s');
  }

  /** The frame about to be written is the next record of its session. */
  lemma WriteExtendsPrefix(s: State, r: Record, g: nat)
    requires Shaped(s) && Attached(s) && Delivering(s) && s.owner == WriteFrame(r)
    ensures Of(s.written + [r], g) <= Of(s.q.accepted, g)
    ensures g == Live(s) ==> Of(s.written + [r], g) == Of(s.q.accepted[..s.q.removed + 1], g)
  {
    assert s.q.accepted[..s.q.removed + 1] == s.q.accepted[..s.q.removed] + [r];
    OfAdd(s.written, r, g);
    OfAdd(s.q.accepted[..s.q.removed], r, g);
    OfTake(s.q.accepted, s.q.removed + 1, g);
  }

  lemma WriteDelivers(s: State, s': State)
    requires Shaped(s) && Aged(s) && Attached(s) && Delivering(s) && s.owner.WriteFrame? && PeekMoves(s, s')
    ensures Shaped(s') && Delivering(s')
  {
    var r := s.owner.record;
    assert RecordOk(s.q.accepted[s.q.removed]);
    if s'.written != s.written {
      forall g ensures Of(s'.written, g) <= Of(s'.q.accepted, g) {
        WriteExtendsPrefix(s, r, g);
      }
      WriteExtendsPrefix(s, r, Live(s));
    }
  }

  lemma CommitDelivers(s: State, s': State)
    requires Shaped(s) && Attached(s) && Delivering(s) && InCommit(s.owner) && !s.owner.CommitPop? && CommitMoves(s, s')
    ensures Shaped(s') && Delivering(s')
  {
    SameDelivering(s, s');
  }

  /** The commit finds exactly the record whose frame was written. */
  lemma CommitPopDelivers(s: State, s': State)
    requires Shaped(s) && Attached(s) && Delivering(s) && s.owner.CommitPop? && CommitMoves(s, s')
    ensures Shaped(s') && Delivering(s')
    ensures s'.owner.CommitUnlock? && s'.q.removed == s.q.removed + 1
  {
    assert PurgeEnd(s.q.accepted, s.q.removed, s.transport.generation) == s.q.removed;
  }

  lemma OwnerDelivers(s: State, s': State)
    requires Inv(s) && Step(s, -1, s')
    ensures Shaped(s') && Delivering(s')
  {
    if InOpen(s.owner) {
      OpenDelivers(s, s');
    } else if InClose(s.owner) {
      CloseDelivers(s, s');
    } else if s.owner.WriteFrame? {
      WriteDelivers(s, s');
    } else if s.owner.PeekPurge? {
      PeekPurgeDelivers(s, s');
    } else if InPeek(s.owner) {
      PeekDelivers(s, s');
    } else if s.owner.Resting? {
      StartDelivers(s, s');
    } else if s.owner.CommitPop? {
      CommitPopDelivers(s, s');
    } else {
      CommitDelivers(s, s');
    }
  }

  lemma StepKeepsInv(s: State, who: int, s': State)
    requires Inv(s) && Step(s, who, s')
    ensures Inv(s')
  {
    StepKeepsLocking(s, who, s');
    StepKeepsAged(s, who, s');
    if who == -1 {
      OwnerDelivers(s, s');
    } else if who == -2 {
      SameDelivering(s, s');
    } else {
      ProducerDelivers(s, who, s');
    }
  }

  // ---- whole runs ----

  ghost predicate Run(states: seq<State>, who: seq<int>) {
    && |states| == |who| + 1
    && Init(states[0])
    && forall k :: 0 <= k < |who| ==> Shaped(states[k]) && Step(states[k], who[k], states[k + 1])
  }

  lemma {:induction false} RunKeepsInv(states: seq<State>, who: seq<int>, k: nat)
    requires Run(states, who) && k < |states|
    ensures Inv(states[k])
  {
    if k == 0 {
      InitInv(states[0]);
    } else {
      var j := k - 1;
      RunKeepsInv(states, who, j);
      var s, s' := states[j], states[j + 1];
      assert Shaped(s) && Step(s, who[j], s');
      StepKeepsInv(s, who[j], s');
    }
  }

  lemma PayloadPrefix(a: seq<Record>, b: seq<Record>)
    requires a <= b
    ensures Payload(a) <= Payload(b)
  {
    PayloadConcat(a, b[|a|..]);
    assert b == a + b[|a|..];
  }

  /** Whatever happened, what the debugger received of a session is, byte for byte and without gap
      or repeat, a prefix of what the session accepted. */
  lemma DeliveredIsPrefix(states: seq<State>, who: seq<int>, k: nat, generation: nat)
    requires Run(states, who) && k < |states|
    ensures Of(states[k].written, generation) <= Of(states[k].q.accepted, generation)
    ensures Payload(Of(states[k].written, generation)) <= Payload(Of(states[k].q.accepted, generation))
  {
    RunKeepsInv(states, who, k);
    PayloadPrefix(Of(states[k].written, generation), Of(states[k].q.accepted, generation));
  }

  /** In every reachable state, purging from the head alone leaves only the purging session's
      records: for a capture that passed its check, and for the owner's peek and commit. */
  lemma PurgeLeavesOneGeneration(states: seq<State>, who: seq<int>, k: nat, g: nat, n: nat)
    requires Run(states, who) && k < |states|
    requires var s := states[k];
      || (n < |s.producers| && s.producers[n].Append? && g == s.producers[n].session.generation)
      || ((s.owner.PeekPurge? || s.owner.CommitPop?) && g == s.transport.generation)
    ensures var s := states[k];
      s.q.removed <= |s.q.accepted| &&
      forall j :: PurgeEnd(s.q.accepted, s.q.removed, g) <= j < |s.q.accepted| ==> s.q.accepted[j].generation == g
  {
    RunKeepsInv(states, who, k);
    var s := states[k];
    if n < |s.producers| {
      assert ProducerAged(s, s.producers[n]);
    }
    var end := PurgeEnd(s.q.accepted, s.q.removed, g);
    forall j | end <= j < |s.q.accepted| ensures s.q.accepted[j].generation == g {
      assert s.q.accepted[end].generation <= s.q.accepted[j].generation <= g;
    }
  }

  /** A commit that reaches the queue always finds the record whose frame was written. */
  lemma CommitFindsItsRecord(states: seq<State>, who: seq<int>, k: nat)
    requires Run(states, who) && k < |who| && who[k] == -1 && states[k].owner.CommitPop?
    ensures states[k + 1].owner.CommitUnlock? && states[k + 1].q.removed == states[k].q.removed + 1
  {
    RunKeepsInv(states, who, k);
    CommitPopDelivers(states[k], states[k + 1]);
  }
}
