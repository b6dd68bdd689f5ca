/**
 * What the console achieves when a thread is left alone: output captured in an open session is
 * queued, a pump delivers what is queued, and opening and closing do what they say. The schedules
 * are explicit: every step is one of the protocol, taken by the thread named.
 */
module ConsoleProgress {
  import opened Bytes
  import opened ConsoleQueue
  import opened ConsoleProtocol
  import ConsoleSafety

  ghost predicate InSteps(s: State, who: int, n: nat, s': State)
    decreases n
  {
    if n == 0 then s' == s
    else Shaped(s) && exists middle :: Step(s, who, middle) && InSteps(middle, who, n - 1, s')
  }

  /** The thread `who` may take `s` to `s'` while all others rest. */
  ghost predicate Reaches(s: State, who: int, s': State) {
    exists n: nat :: InSteps(s, who, n, s')
  }

  lemma Start(s: State, who: int)
    ensures Reaches(s, who, s)
  {
    assert InSteps(s, who, 0, s);
  }

  lemma {:induction false} OneMore(s: State, who: int, n: nat, middle: State, s': State)
    requires InSteps(s, who, n, middle) && Shaped(middle) && Step(middle, who, s')
    ensures InSteps(s, who, n + 1, s')
    decreases n
  {
    hide Step, Shaped;
    if n == 0 {
      assert InSteps(s', who, 0, s');
    } else {
      var next :| Step(s, who, next) && InSteps(next, who, n - 1, middle);
      OneMore(next, who, n - 1, middle, s');
    }
  }

  lemma Next(s: State, who: int, middle: State, s': State)
    requires Reaches(s, who, middle) && Shaped(middle) && Step(middle, who, s')
    ensures Reaches(s, who, s')
  {
    hide Step, InSteps, Shaped;
    var n: nat :| InSteps(s, who, n, middle);
    OneMore(s, who, n, middle, s');
  }

  lemma {:induction false} Joined(s: State, who: int, n: nat, middle: State, m: nat, s': State)
    requires InSteps(s, who, n, middle) && InSteps(middle, who, m, s')
    ensures InSteps(s, who, n + m, s')
    decreases n
  {
    hide Step, Shaped;
    if n > 0 {
      var next :| Step(s, who, next) && InSteps(next, who, n - 1, middle);
      Joined(next, who, n - 1, middle, m, s');
    }
  }

  lemma Then(s: State, who: int, middle: State, s': State)
    requires Reaches(s, who, middle) && Reaches(middle, who, s')
    ensures Reaches(s, who, s')
  {
    hide InSteps;
    var n: nat :| InSteps(s, who, n, middle);
    var m: nat :| InSteps(middle, who, m, s');
    Joined(s, who, n, middle, m, s');
  }

  // ---- capturing ----

  function WithProducer(s: State, i: nat, p: Producer): State
    requires i < |s.producers|
  {
    s.(producers := s.producers[i := p])
  }

  lemma SameShape(s: State, s': State)
    requires Shaped(s) && s'.q == s.q
    ensures Shaped(s')
  {
  }

  /** One more step of producer `i`, from `p` to `p'`. */
  lemma ProducerNext(s0: State, s: State, i: nat, p: Producer, t: State, p': Producer)
    requires i < |s.producers| && t.producers == s.producers && Reaches(s0, i, WithProducer(s, i, p)) && Shaped(WithProducer(s, i, p))
    requires ProducerMoves(WithProducer(s, i, p), i, p, WithProducer(t, i, p), p')
    ensures Reaches(s0, i, WithProducer(t, i, p'))
  {
    hide ProducerMoves, Reaches, Shaped, OwnerMoves;
    var a, b := WithProducer(s, i, p), WithProducer(t, i, p');
    assert b.producers == a.producers[i := b.producers[i]];
    assert b.(producers := a.producers) == WithProducer(t, i, p);
    Next(s0, i, a, b);
  }

  function Offered(s: State, size: nat): State {
    s.(books := s.books.(offered := Count(s.books.offered.records + RecordCount(size), s.books.offered.bytes + size)))
  }

  ghost function Lost(s: State, loss: Loss, size: nat): State {
    s.(books := s.books.(lost := Book(s.books.lost, loss, RecordCount(size), size)))
  }

  /** What the four counters of loss count. */
  lemma BookCounts(l: Losses, records: nat, bytes: nat)
    ensures Book(l, Disconnected, records, bytes) == l.(disconnected := Count(l.disconnected.records + records, l.disconnected.bytes + bytes))
    ensures Book(l, Contention, records, bytes) == l.(contention := Count(l.contention.records + records, l.contention.bytes + bytes))
    ensures Book(l, Full, records, bytes) == l.(full := Count(l.full.records + records, l.full.bytes + bytes))
    ensures Book(l, Stale, records, bytes) == l.(stale := Count(l.stale.records + records, l.stale.bytes + bytes))
  {
  }

  lemma ProducerLoses(s0: State, s: State, i: nat, loss: Loss, size: nat)
    requires i < |s.producers| && Shaped(s) && Reaches(s0, i, WithProducer(s, i, LossRecords(loss, size)))
    ensures Reaches(s0, i, WithProducer(Lost(s, loss, size), i, Idle))
  {
    hide Reaches, RecordCount, Shaped;
    var half := s.(books := s.books.(lost := Book(s.books.lost, loss, RecordCount(size), 0)));
    SameShape(s, WithProducer(s, i, LossRecords(loss, size)));
    SameShape(s, WithProducer(half, i, LossBytes(loss, size)));
    ProducerNext(s0, s, i, LossRecords(loss, size), half, LossBytes(loss, size));
    assert Book(Book(s.books.lost, loss, RecordCount(size), 0), loss, 0, size) == Book(s.books.lost, loss, RecordCount(size), size);
    ProducerNext(s0, half, i, LossBytes(loss, size), Lost(s, loss, size), Idle);
  }

  /** Without a session, output is counted as offered and as lost. */
  lemma DisconnectedLoses(s: State, i: nat, size: nat)
    requires Shaped(s) && i < |s.producers| && s.producers[i] == Idle && !s.session.open && size > 0
    ensures Reaches(s, i, Lost(Offered(s, size), Disconnected, size))
  {
    hide Reaches, Shaped, RecordCount;
    Start(s, i);
    assert WithProducer(s, i, Idle) == s;
    ProducerNext(s, s, i, Idle, Offered(s, size), LossRecords(Disconnected, size));
    SameShape(s, Offered(s, size));
    ProducerLoses(s, Offered(s, size), i, Disconnected, size);
    assert WithProducer(Lost(Offered(s, size), Disconnected, size), i, Idle) == Lost(Offered(s, size), Disconnected, size);
  }

  /** While another thread has the queue, output is counted as offered and as lost. */
  lemma ContentionLoses(s: State, i: nat, data: seq<Byte>)
    requires Shaped(s) && i < |s.producers| && s.producers[i] == Idle && s.session.open && |data| > 0
    ensures Reaches(s, i, Lost(Offered(s, |data|), Contention, |data|))
  {
    hide Reaches, Shaped, RecordCount;
    Start(s, i);
    assert WithProducer(s, i, Idle) == s;
    var offered := Offered(s, |data|);
    ProducerNext(s, s, i, Idle, offered, Loaded(s.session, data));
    SameShape(s, offered);
    SameShape(s, WithProducer(offered, i, Loaded(s.session, data)));
    ProducerNext(s, offered, i, Loaded(s.session, data), offered, LossRecords(Contention, |data|));
    ProducerLoses(s, offered, i, Contention, |data|);
    assert WithProducer(Lost(offered, Contention, |data|), i, Idle) == Lost(offered, Contention, |data|);
  }

  /** What capturing `data` alone makes of the state. */
  ghost function Taken(s: State, data: seq<Byte>): State
    requires Shaped(s)
  {
    SameShape(s, Offered(s, |data|));
    var queued := Captured(Offered(s, |data|), s.session.generation, data);
    var rest := |Rest(data, Room(PurgeTo(Offered(s, |data|), s.session.generation)))|;
    if rest == 0 then queued else Lost(queued, Full, rest)
  }

  lemma ProducerLocks(s: State, i: nat, data: seq<Byte>)
    requires Shaped(s) && i < |s.producers| && s.producers[i] == Idle && s.session.open && |data| > 0 && s.holder == Free
    ensures Reaches(s, i, WithProducer(Offered(s, |data|).(holder := ByProducer(i)), i, Append(s.session, data)))
  {
    hide Reaches, Shaped, RecordCount;
    Start(s, i);
    assert WithProducer(s, i, Idle) == s;
    var offered := Offered(s, |data|);
    var locked := offered.(holder := ByProducer(i));
    ProducerNext(s, s, i, Idle, offered, Loaded(s.session, data));
    SameShape(s, WithProducer(offered, i, Loaded(s.session, data)));
    ProducerNext(s, offered, i, Loaded(s.session, data), locked, Locked(s.session, data));
    SameShape(s, WithProducer(locked, i, Locked(s.session, data)));
    ProducerNext(s, locked, i, Locked(s.session, data), locked, Append(s.session, data));
  }

  lemma PurgeFramed(s: State, generation: nat, t: State)
    requires Shaped(s) && t == s.(holder := t.holder, producers := t.producers)
    ensures Shaped(t) && PurgeTo(t, generation) == PurgeTo(s, generation).(holder := t.holder, producers := t.producers)
    ensures PurgeTo(s, generation).q == PurgeTo(t, generation).q
  {
  }

  lemma CaptureFramed(s: State, generation: nat, data: seq<Byte>, t: State)
    requires Shaped(s) && t == s.(holder := t.holder, producers := t.producers)
    ensures Shaped(t) && Captured(t, generation, data) == Captured(s, generation, data).(holder := t.holder, producers := t.producers)
  {
    hide PurgeTo, Chop;
    PurgeFramed(s, generation, t);
  }

  lemma CapturedShape(s: State, generation: nat, data: seq<Byte>)
    requires Shaped(s)
    ensures Shaped(PurgeTo(s, generation)) && Shaped(Captured(s, generation, data))
    ensures Captured(s, generation, data).producers == s.producers && Captured(s, generation, data).holder == s.holder
  {
    hide Chop;
    ConsoleSafety.AppendKeepsShape(PurgeTo(s, generation), generation, data);
  }

  /** Output in an open session with the queue free is queued as far as there is room, and the rest
      counted as lost. */
  lemma OutputIsCaptured(s: State, i: nat, data: seq<Byte>)
    requires Shaped(s) && i < |s.producers| && s.producers[i] == Idle && s.session.open && |data| > 0 && s.holder == Free
    ensures Reaches(s, i, Taken(s, data))
  {
    hide Reaches, Shaped, RecordCount, Captured, PurgeTo, Rest, Chop;
    ProducerLocks(s, i, data);
    var offered := Offered(s, |data|);
    SameShape(s, offered);
    var locked := offered.(holder := ByProducer(i));
    var g := s.session.generation;
    var before := WithProducer(locked, i, Append(s.session, data));
    CaptureFramed(offered, g, data, before);
    PurgeFramed(offered, g, before);
    CapturedShape(offered, g, data);
    CapturedShape(before, g, data);
    var queued := Captured(offered, g, data);
    var held := queued.(holder := ByProducer(i));
    var rest := |Rest(data, Room(PurgeTo(offered, g)))|;
    assert Room(PurgeTo(before, g)) == Room(PurgeTo(offered, g));
    ProducerNext(s, locked, i, Append(s.session, data), held, Unlock(rest));
    SameShape(queued, WithProducer(held, i, Unlock(rest)));
    ProducerNext(s, held, i, Unlock(rest), queued, if rest == 0 then Idle else LossRecords(Full, rest));
    if rest != 0 {
      ProducerLoses(s, queued, i, Full, rest);
    }
    assert WithProducer(Taken(s, data), i, Idle) == Taken(s, data);
  }

  // ---- the transport owner ----

  lemma OwnerNext(s0: State, s: State, s': State)
    requires Reaches(s0, -1, s) && Shaped(s) && OwnerMoves(s, s')
    ensures Reaches(s0, -1, s')
  {
    hide Reaches, Shaped, OwnerMoves, ProducerMoves;
    Next(s0, -1, s, s');
  }

  /** Nothing is purged when the queue is empty or starts with this generation. */
  lemma NothingPurged(s: State, generation: nat)
    requires Shaped(s) && (s.q.removed < |s.q.accepted| ==> s.q.accepted[s.q.removed].generation == generation)
    ensures PurgeTo(s, generation) == s
  {
    assert s.q.accepted[s.q.removed..s.q.removed] == [];
  }

  /** A pump that may send: a current session in no-ack mode with nothing waiting to be committed. */
  predicate MayPump(s: State) {
    && s.owner == Resting && s.holder == Free && s.session == Session(s.transport.generation, true) && s.transport.generation != 0
    && s.transport.noAck && !s.transport.failed && s.transport.uncommitted == 0 && s.q.removed < |s.q.accepted|
  }

  function Head(s: State): Record
    requires s.q.removed < |s.q.accepted|
  {
    s.q.accepted[s.q.removed]
  }

  /** The state after the head has been delivered. */
  function Delivered(s: State): State
    requires s.q.removed < |s.q.accepted|
  {
    s.(q := s.q.(removed := s.q.removed + 1), written := s.written + [Head(s)],
       books := s.books.(sent := Count(s.books.sent.records + 1, s.books.sent.bytes + |Head(s).data|)))
  }

  lemma PumpPeeks(s: State)
    requires Shaped(s) && MayPump(s) && Head(s).generation == s.transport.generation
    ensures Reaches(s, -1, s.(owner := WriteFrame(Head(s))))
  {
    hide Reaches, Shaped, PurgeTo;
    Start(s, -1);
    var locked := s.(holder := ByOwner);
    SameShape(s, s.(owner := PeekLoad));
    SameShape(s, s.(owner := PeekTry));
    SameShape(s, locked.(owner := PeekCheck));
    SameShape(s, locked.(owner := PeekPurge));
    NothingPurged(locked.(owner := PeekPurge), s.transport.generation);
    SameShape(s, locked.(owner := PeekUnlock(Some(Head(s)))));
    OwnerNext(s, s, s.(owner := PeekLoad));
    OwnerNext(s, s.(owner := PeekLoad), s.(owner := PeekTry));
    OwnerNext(s, s.(owner := PeekTry), locked.(owner := PeekCheck));
    OwnerNext(s, locked.(owner := PeekCheck), locked.(owner := PeekPurge));
    OwnerNext(s, locked.(owner := PeekPurge), locked.(owner := PeekUnlock(Some(Head(s)))));
    OwnerNext(s, locked.(owner := PeekUnlock(Some(Head(s)))), s.(owner := WriteFrame(Head(s))));
  }

  lemma PumpWrites(s: State)
    requires Shaped(s) && MayPump(s) && Head(s).generation == s.transport.generation
    ensures Reaches(s, -1, s.(written := s.written + [Head(s)], transport := s.transport.(uncommitted := Head(s).sequence), owner := CommitLoad))
  {
    hide Reaches, Shaped;
    PumpPeeks(s);
    SameShape(s, s.(owner := WriteFrame(Head(s))));
    OwnerNext(s, s.(owner := WriteFrame(Head(s))),
      s.(written := s.written + [Head(s)], transport := s.transport.(uncommitted := Head(s).sequence), owner := CommitLoad));
  }

  lemma PumpPops(s0: State, s: State)
    requires Shaped(s) && s.owner == CommitLoad && s.holder == Free && s.session == Session(s.transport.generation, true)
    requires s.q.removed < |s.q.accepted| && Head(s).generation == s.transport.generation && Head(s).sequence == s.transport.uncommitted
    requires Reaches(s0, -1, s)
    ensures Reaches(s0, -1, s.(q := s.q.(removed := s.q.removed + 1), holder := ByOwner, owner := CommitUnlock(|Head(s).data|)))
  {
    hide Reaches, Shaped, PurgeTo;
    var locked := s.(holder := ByOwner);
    SameShape(s, s.(owner := CommitTry));
    SameShape(s, locked.(owner := CommitCheck));
    SameShape(s, locked.(owner := CommitPop));
    NothingPurged(locked.(owner := CommitPop), s.transport.generation);
    OwnerNext(s0, s, s.(owner := CommitTry));
    OwnerNext(s0, s.(owner := CommitTry), locked.(owner := CommitCheck));
    OwnerNext(s0, locked.(owner := CommitCheck), locked.(owner := CommitPop));
    OwnerNext(s0, locked.(owner := CommitPop), s.(q := s.q.(removed := s.q.removed + 1), holder := ByOwner, owner := CommitUnlock(|Head(s).data|)));
  }

  lemma PumpCounts(s0: State, s: State, size: nat)
    requires Shaped(s) && s.owner == CommitUnlock(size) && Reaches(s0, -1, s)
    ensures Reaches(s0, -1, s.(holder := Free, transport := s.transport.(uncommitted := 0), owner := Resting,
      books := s.books.(sent := Count(s.books.sent.records + 1, s.books.sent.bytes + size))))
  {
    hide Reaches, Shaped;
    var free := s.(holder := Free);
    var half := free.(books := s.books.(sent := Plus(s.books.sent, 1, 0)));
    SameShape(s, free.(owner := SentRecords(size)));
    SameShape(s, half.(owner := SentBytes(size)));
    OwnerNext(s0, s, free.(owner := SentRecords(size)));
    OwnerNext(s0, free.(owner := SentRecords(size)), half.(owner := SentBytes(size)));
    OwnerNext(s0, half.(owner := SentBytes(size)),
      free.(transport := s.transport.(uncommitted := 0), owner := Resting,
            books := s.books.(sent := Count(s.books.sent.records + 1, s.books.sent.bytes + size))));
  }

  lemma PoppedShape(s: State, s': State)
    requires Shaped(s) && s.q.removed < |s.q.accepted| && s'.q == s.q.(removed := s.q.removed + 1)
    ensures Shaped(s')
  {
  }

  /** A pump that is left alone delivers the oldest record, commits it and counts it. */
  lemma PumpDelivers(s: State)
    requires Shaped(s) && MayPump(s) && Head(s).generation == s.transport.generation
    ensures Reaches(s, -1, Delivered(s))
  {
    hide Reaches, Shaped;
    PumpWrites(s);
    var written := s.(written := s.written + [Head(s)], transport := s.transport.(uncommitted := Head(s).sequence), owner := CommitLoad);
    SameShape(s, written);
    PumpPops(s, written);
    var popped := written.(q := s.q.(removed := s.q.removed + 1), holder := ByOwner, owner := CommitUnlock(|Head(s).data|));
    PoppedShape(s, popped);
    PumpCounts(s, popped, |Head(s).data|);
  }

  /** The state after everything queued has been delivered. */
  function AllDelivered(s: State): State
    requires s.q.removed <= |s.q.accepted|
  {
    var queued := s.q.accepted[s.q.removed..];
    s.(q := s.q.(removed := |s.q.accepted|), written := s.written + queued,
       books := s.books.(sent := Count(s.books.sent.records + |queued|, s.books.sent.bytes + TotalBytes(queued))))
  }

  lemma HeadFirst(s: State)
    requires s.q.removed < |s.q.accepted|
    ensures AllDelivered(Delivered(s)) == AllDelivered(s)
  {
    var queued, rest := s.q.accepted[s.q.removed..], s.q.accepted[s.q.removed + 1..];
    assert queued == [Head(s)] + rest;
    TotalBytesConcat([Head(s)], rest);
    assert TotalBytes([Head(s)]) == |Head(s).data| by {
      assert [Head(s)][..0] == [];
    }
    assert s.written + [Head(s)] + rest == s.written + queued;
  }

  /** A pump that is left alone in a current session delivers everything queued, in order. */
  lemma {:induction false} PumpDeliversAll(s: State)
    requires Shaped(s) && (s.q.removed < |s.q.accepted| ==> MayPump(s))
    requires forall k :: s.q.removed <= k < |s.q.accepted| ==> s.q.accepted[k].generation == s.transport.generation
    ensures Reaches(s, -1, AllDelivered(s))
    decreases |s.q.accepted| - s.q.removed
  {
    hide Reaches;
    if s.q.removed == |s.q.accepted| {
      Start(s, -1);
      assert AllDelivered(s) == s;
    } else {
      PumpDelivers(s);
      PoppedShape(s, Delivered(s));
      PumpDeliversAll(Delivered(s));
      HeadFirst(s);
      Then(s, -1, Delivered(s), AllDelivered(s));
    }
  }

  /** At most sixty-four records wait, each of one to 128 bytes; longer output is cut at 128. */
  lemma QueueBounds(s: State, generation: nat, sequence: nat, data: seq<Byte>, room: nat)
    requires Shaped(s) && sequence < SEQUENCES && room > 0
    ensures |s.q.accepted| - s.q.removed <= 64
    ensures forall k :: 0 <= k < |s.q.accepted| ==> 1 <= |s.q.accepted[k].data| <= 128
    ensures |data| > 0 ==> |Chop(generation, sequence, data, room)| > 0
    ensures |data| > 0 ==> Chop(generation, sequence, data, room)[0].data == data[..if |data| > 128 then 128 else |data|]
  {
    forall k | 0 <= k < |s.q.accepted| ensures 1 <= |s.q.accepted[k].data| <= 128 {
      assert RecordOk(s.q.accepted[k]);
    }
  }

  /** Sequence numbers count up to the largest 64-bit number and then start again at one. */
  lemma SequenceWraps(sequence: nat)
    requires sequence < 0x1_0000_0000_0000_0000
    ensures sequence < SEQUENCES && NextSequence(sequence) == if sequence == 0xffff_ffff_ffff_ffff then 1 else sequence + 1
  {
  }

  /** Opening: the queue is emptied into the stale count and the next generation is current. */
  lemma OpenSucceeds(s: State)
    requires Shaped(s) && s.owner == Resting && s.holder == Free && !s.transport.failed && s.transport.generation == 0
    requires s.session.generation + 1 < 0x8000_0000
    ensures var g := s.session.generation + 1;
      Reaches(s, -1, PurgeAll(s).(session := Session(g, true), transport := s.transport.(generation := g, noAck := true)))
  {
    hide Reaches, Shaped, PurgeAll;
    Start(s, -1);
    var g := s.session.generation;
    var ack := s.(transport := s.transport.(noAck := true));
    var shut := ack.(session := Session(g, false));
    SameShape(s, ack.(owner := OpenLoad));
    SameShape(s, ack.(owner := OpenGate(s.session)));
    SameShape(s, shut.(owner := OpenTryQueue(g)));
    SameShape(s, shut.(holder := ByOwner, owner := OpenPurge(g)));
    OwnerNext(s, s, ack.(owner := OpenLoad));
    OwnerNext(s, ack.(owner := OpenLoad), ack.(owner := OpenGate(s.session)));
    OwnerNext(s, ack.(owner := OpenGate(s.session)), shut.(owner := OpenTryQueue(g)));
    OwnerNext(s, shut.(owner := OpenTryQueue(g)), shut.(holder := ByOwner, owner := OpenPurge(g)));
    OpenPublishes(s, shut.(holder := ByOwner, owner := OpenPurge(g)), g);
    PurgeAllFramed(s, shut.(holder := ByOwner, owner := OpenPurge(g)));
    PurgeAllShape(s);
  }

  lemma OpenPublishes(s0: State, s: State, g: nat)
    requires Shaped(s) && Reaches(s0, -1, s) && s.owner == OpenPurge(g) && g + 1 < 0x8000_0000
    ensures Reaches(s0, -1, PurgeAll(s).(holder := Free, session := Session(g + 1, true),
      transport := s.transport.(generation := g + 1), owner := Resting))
  {
    hide Reaches, Shaped;
    var purged := PurgeAll(s);
    PurgeAllShape(s);
    OwnerNext(s0, s, purged.(owner := OpenUnlock(g)));
    SameShape(purged, purged.(owner := OpenUnlock(g)));
    var free := purged.(holder := Free);
    OwnerNext(s0, purged.(owner := OpenUnlock(g)), free.(owner := OpenPublish(g)));
    SameShape(purged, free.(owner := OpenPublish(g)));
    var open := free.(session := Session(g + 1, true));
    OwnerNext(s0, free.(owner := OpenPublish(g)), open.(owner := OpenReturn(g + 1)));
    SameShape(purged, open.(owner := OpenReturn(g + 1)));
    OwnerNext(s0, open.(owner := OpenReturn(g + 1)), open.(transport := s.transport.(generation := g + 1), owner := Resting));
  }

  lemma PurgeAllShape(s: State)
    requires Shaped(s)
    ensures Shaped(PurgeAll(s)) && PurgeAll(s).q == s.q.(removed := |s.q.accepted|)
    ensures PurgeAll(s).transport == s.transport && PurgeAll(s).session == s.session
    ensures PurgeAll(s).holder == s.holder && PurgeAll(s).owner == s.owner
  {
  }

  lemma PurgeAllFramed(s: State, t: State)
    requires Shaped(s) && Shaped(t) && t.q == s.q && t.books == s.books && t.producers == s.producers && t.written == s.written
    ensures PurgeAll(t) == PurgeAll(s).(session := t.session, holder := t.holder, owner := t.owner, transport := t.transport)
  {
  }

  /** Closing: no further output is taken, and what is queued goes into the stale count. */
  lemma CloseSucceeds(s: State)
    requires Shaped(s) && s.owner == Resting && s.holder == Free && s.transport.generation == s.session.generation != 0
    ensures Reaches(s, -1, PurgeAll(s).(session := Session(s.session.generation, false), transport := Transport(0, 0, false, false)))
  {
    hide Reaches, Shaped, PurgeAll;
    Start(s, -1);
    var g := s.session.generation;
    var ended := s.(transport := FRESH);
    var shut := ended.(session := Session(g, false));
    var locked := shut.(holder := ByOwner, owner := ClosePurge);
    SameShape(s, ended.(owner := CloseGate(g)));
    SameShape(s, shut.(owner := CloseTry));
    SameShape(s, locked);
    OwnerNext(s, s, ended.(owner := CloseGate(g)));
    OwnerNext(s, ended.(owner := CloseGate(g)), shut.(owner := CloseTry));
    OwnerNext(s, shut.(owner := CloseTry), locked);
    PurgeAllShape(locked);
    OwnerNext(s, locked, PurgeAll(locked).(owner := CloseUnlock));
    SameShape(PurgeAll(locked), PurgeAll(locked).(owner := CloseUnlock));
    OwnerNext(s, PurgeAll(locked).(owner := CloseUnlock), PurgeAll(locked).(holder := Free, owner := Resting));
    PurgeAllFramed(s, locked);
    PurgeAllShape(s);
  }

  /** A frame that is written in part, or not at all, leaves the record queued: a partial write
      marks the transport. */
  lemma PartialWriteFails(s: State)
    requires Shaped(s) && MayPump(s) && Head(s).generation == s.transport.generation
    ensures Reaches(s, -1, s.(transport := s.transport.(failed := true))) && Reaches(s, -1, s)
  {
    hide Reaches, Shaped;
    PumpPeeks(s);
    SameShape(s, s.(owner := WriteFrame(Head(s))));
    OwnerNext(s, s.(owner := WriteFrame(Head(s))), s.(transport := s.transport.(failed := true)));
    OwnerNext(s, s.(owner := WriteFrame(Head(s))), s);
  }

  /** A marked transport starts nothing but the end of its connection. */
  lemma MarkedStaysQuiet(s: State, s': State)
    requires Shaped(s) && s.owner == Resting && s.transport.failed && Step(s, -1, s')
    ensures s' == s.(transport := Transport(0, 0, false, false), owner := if s.transport.generation == 0 then Resting else CloseGate(s.transport.generation))
  {
  }

  /** A session that is no longer current stops the pump and marks the transport. */
  lemma StaleSessionFails(s: State)
    requires Shaped(s) && s.owner == Resting && s.transport.noAck && !s.transport.failed && s.transport.generation != 0
    requires s.session != Session(s.transport.generation, true)
    ensures Reaches(s, -1, s.(transport := s.transport.(uncommitted := 0, failed := true)))
  {
    hide Reaches, Shaped;
    Start(s, -1);
    var load := if s.transport.uncommitted != 0 then CommitLoad else PeekLoad;
    SameShape(s, s.(owner := load));
    OwnerNext(s, s, s.(owner := load));
    OwnerNext(s, s.(owner := load), s.(transport := s.transport.(uncommitted := 0, failed := true)));
  }
}
