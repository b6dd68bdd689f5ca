/**
 * The console session as a protocol: any number of capturing threads, one transport owner that
 * opens and closes sessions and pumps records to the debugger, and an emergency gate any thread
 * may pull. Each atomic access is one step; the work done while holding the queue lock is one
 * step, because the session word is the only thing others can change meanwhile. A try-lock may
 * fail at any time, as the source's weak compare-exchange may.
 *
 * Records only ever leave at the head, so the queue is what is left of the list of all accepted
 * records: `accepted[removed..]`. `written` lists the records whose frames were fully written.
 */
module ConsoleProtocol {
  import opened Bytes
  import opened ConsoleQueue

  const GENERATION_LIMIT: nat := 0x8000_0000

  datatype Session = Session(generation: nat, open: bool)

  datatype Loss = Disconnected | Contention | Full | Stale

  datatype Count = Count(records: nat, bytes: nat)

  /** The four drop counters, each of records and of bytes. */
  datatype Losses = Losses(disconnected: Count, contention: Count, full: Count, stale: Count)

  datatype Holder = Free | ByProducer(producer: nat) | ByOwner

  datatype Producer =
    | Idle
    | Loaded(session: Session, data: seq<Byte>)
    | Locked(session: Session, data: seq<Byte>)
    | Append(session: Session, data: seq<Byte>)
    | UnlockStale(size: nat)
    | Unlock(size: nat)
    | LossRecords(loss: Loss, size: nat)
    | LossBytes(loss: Loss, size: nat)

  datatype Owner =
    | Resting
    | OpenLoad | OpenGate(prior: Session) | OpenTryQueue(previous: nat) | OpenPurge(previous: nat)
    | OpenUnlock(previous: nat) | OpenPublish(previous: nat) | OpenReturn(started: nat)
    | CloseGate(closing: nat) | CloseTry | ClosePurge | CloseUnlock
    | PeekLoad | PeekTry | PeekCheck | PeekPurge | PeekStale | PeekUnlock(found: Option<Record>)
    | WriteFrame(record: Record)
    | CommitLoad | CommitTry | CommitCheck | CommitPop | CommitFail
    | CommitUnlock(size: nat) | SentRecords(size: nat) | SentBytes(size: nat)

  datatype Transport = Transport(generation: nat, uncommitted: nat, noAck: bool, failed: bool)

  /** The queue: every record ever accepted, how many have left, and the last sequence number. */
  datatype Records = Records(accepted: seq<Record>, removed: nat, sequence: nat)

  datatype Books = Books(offered: Count, sent: Count, lost: Losses)

  datatype State = State(
    q: Records,
    session: Session,
    holder: Holder,
    producers: seq<Producer>,
    owner: Owner,
    transport: Transport,
    written: seq<Record>,
    books: Books
  )

  const FRESH: Transport := Transport(0, 0, false, false)

  ghost predicate Init(s: State) {
    && s.q == Records([], 0, 0) && s.session == Session(0, false)
    && s.holder == Free && s.owner == Resting && s.transport == FRESH && s.written == []
    && (forall i :: 0 <= i < |s.producers| ==> s.producers[i] == Idle)
    && s.books.offered == s.books.sent == Count(0, 0)
    && s.books.lost == Losses(Count(0, 0), Count(0, 0), Count(0, 0), Count(0, 0))
  }

  function Plus(c: Count, records: nat, bytes: nat): Count {
    Count(c.records + records, c.bytes + bytes)
  }

  function Book(l: Losses, loss: Loss, records: nat, bytes: nat): Losses {
    match loss
    case Disconnected => l.(disconnected := Plus(l.disconnected, records, bytes))
    case Contention => l.(contention := Plus(l.contention, records, bytes))
    case Full => l.(full := Plus(l.full, records, bytes))
    case Stale => l.(stale := Plus(l.stale, records, bytes))
  }

  ghost predicate Shaped(s: State) {
    && s.q.removed <= |s.q.accepted| && s.q.sequence < SEQUENCES
    && |s.q.accepted| - s.q.removed <= QUEUE_SLOTS
    && RecordsOk(s.q.accepted)
  }

  /** Take `n` records off the head and book them as stale. */
  ghost function DropStale(s: State, n: nat): State
    requires Shaped(s) && s.q.removed + n <= |s.q.accepted|
  {
    var gone := s.q.accepted[s.q.removed..s.q.removed + n];
    s.(q := s.q.(removed := s.q.removed + n), books := s.books.(lost := Book(s.books.lost, Stale, n, TotalBytes(gone))))
  }

  /** Where a purge of other generations stops: the first queued record of `generation`. */
  ghost function PurgeEnd(accepted: seq<Record>, removed: nat, generation: nat): (end: nat)
    requires removed <= |accepted|
    ensures removed <= end <= |accepted|
    ensures forall k :: removed <= k < end ==> accepted[k].generation != generation
    ensures end < |accepted| ==> accepted[end].generation == generation
    decreases |accepted| - removed
  {
    if removed == |accepted| || accepted[removed].generation == generation then removed
    else PurgeEnd(accepted, removed + 1, generation)
  }

  /** It is the purge the ring performs. */
  lemma PurgeEndIsPurge(accepted: seq<Record>, removed: nat, generation: nat)
    requires removed <= |accepted|
    ensures accepted[PurgeEnd(accepted, removed, generation)..] == PurgeOthers(accepted[removed..], generation)
  {
    var end := PurgeEnd(accepted, removed, generation);
    PurgeStops(accepted[removed..], generation, end - removed);
    assert accepted[removed..][end - removed..] == accepted[end..];
  }

  ghost function PurgeTo(s: State, generation: nat): State
    requires Shaped(s)
  {
    DropStale(s, PurgeEnd(s.q.accepted, s.q.removed, generation) - s.q.removed)
  }

  ghost function PurgeAll(s: State): State
    requires Shaped(s)
  {
    DropStale(s, |s.q.accepted| - s.q.removed)
  }

  ghost function AppendTo(s: State, records: seq<Record>): State {
    s.(q := Records(s.q.accepted + records, s.q.removed, if |records| == 0 then s.q.sequence else records[|records| - 1].sequence))
  }

  /** A capture under the lock: purge, then queue what fits. */
  ghost function Captured(s: State, generation: nat, data: seq<Byte>): State
    requires Shaped(s)
  {
    var purged := PurgeTo(s, generation);
    AppendTo(purged, Chop(generation, s.q.sequence, data, Room(purged)))
  }

  ghost function Room(s: State): (n: nat)
    requires Shaped(s)
  {
    QUEUE_SLOTS - (|s.q.accepted| - s.q.removed)
  }

  // ---- the steps ----

  ghost predicate ProducerMoves(s: State, i: nat, p: Producer, s': State, p': Producer)
    requires Shaped(s)
  {
    match p
    case Idle =>
      || (p'.Loaded? && |p'.data| > 0 && s.session.open && p'.session == s.session &&
          s' == s.(books := s.books.(offered := Plus(s.books.offered, RecordCount(|p'.data|), |p'.data|))))
      || (p'.LossRecords? && p'.loss == Disconnected && p'.size > 0 && !s.session.open &&
          s' == s.(books := s.books.(offered := Plus(s.books.offered, RecordCount(p'.size), p'.size))))
    case Loaded(session, data) =>
      || (s.holder == Free && s' == s.(holder := ByProducer(i)) && p' == Locked(session, data))
      || (s' == s && p' == LossRecords(Contention, |data|))
    case Locked(session, data) =>
      s' == s && p' == (if s.session == session then Append(session, data) else UnlockStale(|data|))
    case Append(session, data) =>
      && s' == Captured(s, session.generation, data)
      && p' == Unlock(|Rest(data, Room(PurgeTo(s, session.generation)))|)
    case UnlockStale(size) => s' == s.(holder := Free) && p' == LossRecords(Stale, size)
    case Unlock(size) => s' == s.(holder := Free) && p' == (if size == 0 then Idle else LossRecords(Full, size))
    case LossRecords(loss, size) =>
      s' == s.(books := s.books.(lost := Book(s.books.lost, loss, RecordCount(size), 0))) && p' == LossBytes(loss, size)
    case LossBytes(loss, size) =>
      s' == s.(books := s.books.(lost := Book(s.books.lost, loss, 0, size))) && p' == Idle
  }

  predicate InOpen(o: Owner) {
    o.OpenLoad? || o.OpenGate? || o.OpenTryQueue? || o.OpenPurge? || o.OpenUnlock? || o.OpenPublish? || o.OpenReturn?
  }

  predicate InClose(o: Owner) {
    o.CloseGate? || o.CloseTry? || o.ClosePurge? || o.CloseUnlock?
  }

  predicate InPeek(o: Owner) {
    o.PeekLoad? || o.PeekTry? || o.PeekCheck? || o.PeekPurge? || o.PeekStale? || o.PeekUnlock? || o.WriteFrame?
  }

  predicate InCommit(o: Owner) {
    o.CommitLoad? || o.CommitTry? || o.CommitCheck? || o.CommitPop? || o.CommitFail? || Popped(o)
  }

  predicate Popped(o: Owner) {
    o.CommitUnlock? || o.SentRecords? || o.SentBytes?
  }

  /** What the transport owner may start when it is not inside a call. */
  ghost predicate OwnerStarts(s: State, s': State) {
    var t := s.transport;
    // end or begin a connection
    || s' == s.(transport := FRESH, owner := if t.generation == 0 then Resting else CloseGate(t.generation))
    // enable no-ack mode, or pump: ensure a session first
    || (!t.failed && s' == s.(transport := t.(noAck := true), owner := if t.generation == 0 then OpenLoad else Resting))
    || (!t.failed && t.noAck && t.generation == 0 && s' == s.(owner := OpenLoad))
    // pump: finish an earlier commit, or send the next record
    || (!t.failed && t.noAck && t.generation != 0 && s' == s.(owner := if t.uncommitted != 0 then CommitLoad else PeekLoad))
  }

  ghost function SessionError(s: State): State {
    s.(transport := s.transport.(uncommitted := 0, failed := true), owner := Resting)
  }

  ghost predicate Current(s: State) {
    s.session == Session(s.transport.generation, true)
  }

  /** uvdb_console_session_open. */
  ghost predicate OpenMoves(s: State, s': State)
    requires Shaped(s) && InOpen(s.owner)
  {
    match s.owner
    case OpenLoad => s' == s.(owner := Resting) || s' == s.(owner := OpenGate(s.session))
    case OpenGate(prior) => s' == s.(session := Session(prior.generation, false), owner := OpenTryQueue(prior.generation))
    case OpenTryQueue(g) =>
      || (s.holder == Free && s' == s.(holder := ByOwner, owner := OpenPurge(g)))
      || s' == s.(owner := OpenPublish(g))
    case OpenPurge(g) => s' == PurgeAll(s).(owner := OpenUnlock(g))
    case OpenUnlock(g) => s' == s.(holder := Free, owner := OpenPublish(g))
    // Fewer than 2^31 sessions are opened, so a generation is never reused.
    case OpenPublish(g) => g + 1 < GENERATION_LIMIT && s' == s.(session := Session(g + 1, true), owner := OpenReturn(g + 1))
    case OpenReturn(g) => s' == s.(transport := s.transport.(generation := g), owner := Resting)
  }

  /** uvdb_console_session_close. */
  ghost predicate CloseMoves(s: State, s': State)
    requires Shaped(s) && InClose(s.owner)
  {
    match s.owner
    case CloseGate(g) =>
      s' == if s.session.generation == g then s.(session := Session(g, false), owner := CloseTry) else s.(owner := Resting)
    case CloseTry =>
      || (s.holder == Free && s' == s.(holder := ByOwner, owner := ClosePurge))
      || s' == s.(owner := Resting)
    case ClosePurge => s' == PurgeAll(s).(owner := CloseUnlock)
    case CloseUnlock => s' == s.(holder := Free, owner := Resting)
  }

  /** uvdb_console_peek, then the one write attempt of the pump. */
  ghost predicate PeekMoves(s: State, s': State)
    requires Shaped(s) && InPeek(s.owner)
  {
    match s.owner
    case PeekLoad => s' == if Current(s) then s.(owner := PeekTry) else SessionError(s)
    case PeekTry =>
      || (s.holder == Free && s' == s.(holder := ByOwner, owner := PeekCheck))
      || s' == s.(owner := Resting)
    case PeekCheck => s' == s.(owner := if Current(s) then PeekPurge else PeekStale)
    case PeekStale => s' == SessionError(s).(holder := Free)
    case PeekPurge =>
      var purged := PurgeTo(s, s.transport.generation);
      s' == purged.(owner := PeekUnlock(if purged.q.removed == |purged.q.accepted| then None else Some(purged.q.accepted[purged.q.removed])))
    case PeekUnlock(found) => s' == s.(holder := Free, owner := if found.None? then Resting else WriteFrame(found.value))
    case WriteFrame(record) =>
      || s' == s.(owner := Resting)                                                     // would block
      || s' == s.(transport := s.transport.(failed := true), owner := Resting)          // partial or failed
      || s' == s.(written := s.written + [record], transport := s.transport.(uncommitted := record.sequence), owner := CommitLoad)
  }

  /** uvdb_console_commit_sent and its statistics. */
  ghost predicate CommitMoves(s: State, s': State)
    requires Shaped(s) && InCommit(s.owner)
  {
    match s.owner
    case CommitLoad => s' == if Current(s) then s.(owner := CommitTry) else SessionError(s)
    case CommitTry =>
      || (s.holder == Free && s' == s.(holder := ByOwner, owner := CommitCheck))
      || s' == s.(owner := Resting)
    case CommitCheck => s' == s.(owner := if Current(s) then CommitPop else CommitFail)
    case CommitFail => s' == SessionError(s).(holder := Free)
    case CommitPop =>
      var purged := PurgeTo(s, s.transport.generation);
      s' == if purged.q.removed < |purged.q.accepted| && purged.q.accepted[purged.q.removed].sequence == s.transport.uncommitted
            then purged.(q := purged.q.(removed := purged.q.removed + 1), owner := CommitUnlock(|purged.q.accepted[purged.q.removed].data|))
            else purged.(owner := CommitFail)
    case CommitUnlock(size) => s' == s.(holder := Free, owner := SentRecords(size))
    case SentRecords(size) => s' == s.(books := s.books.(sent := Plus(s.books.sent, 1, 0)), owner := SentBytes(size))
    case SentBytes(size) =>
      s' == s.(books := s.books.(sent := Plus(s.books.sent, 0, size)), transport := s.transport.(uncommitted := 0), owner := Resting)
  }

  ghost predicate OwnerMoves(s: State, s': State)
    requires Shaped(s)
  {
    if s.owner.Resting? then OwnerStarts(s, s')
    else if InOpen(s.owner) then OpenMoves(s, s')
    else if InClose(s.owner) then CloseMoves(s, s')
    else if InPeek(s.owner) then PeekMoves(s, s')
    else CommitMoves(s, s')
  }

  /** A capturing thread moves, the transport owner (-1) does, or the emergency gate closes (-2). */
  ghost predicate Step(s: State, who: int, s': State)
    requires Shaped(s)
  {
    if who == -2 then s' == s.(session := s.session.(open := false))
    else if who == -1 then OwnerMoves(s, s')
    else
      && 0 <= who < |s.producers| == |s'.producers|
      && s'.producers == s.producers[who := s'.producers[who]]
      && ProducerMoves(s, who, s.producers[who], s'.(producers := s.producers), s'.producers[who])
  }
}
