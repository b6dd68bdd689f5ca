/**
 * The receive loop over its growing buffer: packets and refusals depend on the byte stream alone,
 * however the network cuts it into reads. The packet handed out is a borrow into the buffer, and
 * a resume command or File-I/O reply is overwritten in place by a status query.
 */
module RspReceive {
  import opened Bytes
  import opened RspFrame

  const MINIMUM: nat := 4096
  const PLUS: Byte := 0x2b
  const MINUS: Byte := 0x2d

  /** `?#3f`, the status query a resume leaves behind. */
  const STATUS: seq<Byte> := [0x3f, 0x23, 0x33, 0x66]

  /** The raw acknowledgements the events call for. */
  function Acks(events: seq<Event>, noAck: bool): seq<Byte> {
    if noAck || |events| == 0 then []
    else Acks(events[..|events| - 1], noAck) + [if events[|events| - 1].Nack? then MINUS else PLUS]
  }

  /** One `+` for every packet and one `-` for every refusal, in order; none in quiet mode. */
  lemma {:induction false} AcksAre(events: seq<Event>, noAck: bool)
    ensures noAck ==> Acks(events, noAck) == []
    ensures !noAck ==> |Acks(events, noAck)| == |events|
    ensures !noAck ==> forall i :: 0 <= i < |events| ==> Acks(events, noAck)[i] == if events[i].Packet? then 0x2b else 0x2d
  {
    if |events| > 0 {
      AcksAre(events[..|events| - 1], noAck);
    }
  }

  lemma {:induction false} AcksConcat(a: seq<Event>, b: seq<Event>, noAck: bool)
    ensures Acks(a + b, noAck) == Acks(a, noAck) + Acks(b, noAck)
    decreases |b|
  {
    if |b| == 0 {
      assert a + b == a;
    } else {
      AcksConcat(a, b[..|b| - 1], noAck);
      assert (a + b)[..|a + b| - 1] == a + b[..|b| - 1];
    }
  }

  /** The frame with its `#` overwritten by the terminator of the borrowed payload. */
  function Terminated(frame: seq<Byte>): (r: seq<Byte>)
    requires |frame| >= 4
    ensures |r| == |frame|
  {
    frame[|frame| - 3 := 0]
  }

  /** What a frame of `size` payload bytes becomes: a status query, then what is left of it. */
  function Overwritten(frame: seq<Byte>, zeroRest: bool): (r: seq<Byte>)
    requires |frame| >= 5
    ensures |r| == |frame|
  {
    [DOLLAR] + STATUS + (if zeroRest then seq(|frame| - 5, _ => 0) else Terminated(frame)[5..])
  }

  lemma StatusFrame(limit: nat)
    requires limit >= 1
    ensures Run(limit, Hunt, [DOLLAR] + STATUS) == Trace(Hunt, [Packet([0x3f])])
  {
    assert Sum([]) == 0 && [0x3f][..0] == [];
    assert Sum([0x3f]) == 0x3f;
    FrameIsPacket(limit, [0x3f], 0x33, 0x66);
    assert [DOLLAR] + STATUS == Framed([0x3f], 0x33, 0x66);
  }

  /** Overwriting a borrowed frame in place leaves exactly one status query; what is left of the
      old frame is silent, and whatever follows it means what it meant. */
  lemma OverwriteIsStatusQuery(limit: nat, frame: seq<Byte>, zeroRest: bool, rest: seq<Byte>)
    requires limit >= 1 && |frame| >= 5
    requires frame[|frame| - 2] != DOLLAR && frame[|frame| - 1] != DOLLAR
    requires zeroRest || forall i :: 5 <= i < |frame| - 3 ==> frame[i] != DOLLAR
    ensures Run(limit, Hunt, Overwritten(frame, zeroRest) + rest) == Then(Trace(Hunt, [Packet([0x3f])]), Run(limit, Hunt, rest))
  {
    hide Run, Sum;
    var query := [DOLLAR] + STATUS;
    var noise := Overwritten(frame, zeroRest)[5..];
    assert Overwritten(frame, zeroRest) + rest == (query + noise) + rest;
    StatusFrame(limit);
    assert DOLLAR !in noise;
    Noise(limit, noise);
    RunConcat(limit, Hunt, query, noise);
    RunConcat(limit, Hunt, query + noise, rest);
  }

  datatype Received = Handed(size: nat) | Closed | Fault

  /** The packets among the events. */
  function Packets(events: seq<Event>): seq<seq<Byte>> {
    if |events| == 0 then []
    else Packets(events[..|events| - 1]) + (match events[|events| - 1] case Packet(p) => [p] case Nack => [])
  }

  lemma {:induction false} PacketsConcat(a: seq<Event>, b: seq<Event>)
    ensures Packets(a + b) == Packets(a) + Packets(b)
    decreases |b|
  {
    if |b| == 0 {
      assert a + b == a;
    } else {
      PacketsConcat(a, b[..|b| - 1]);
      assert (a + b)[..|a + b| - 1] == a + b[..|b| - 1];
    }
  }

  /** The first `taken` bytes of the stream have produced `events`, and scanning starts afresh. */
  ghost predicate Point(limit: nat, stream: seq<Byte>, taken: nat, events: seq<Event>) {
    taken <= |stream| && At(limit, stream[..taken], events, stream[taken..])
  }

  lemma PointAdvances(limit: nat, stream: seq<Byte>, taken: nat, arrived: nat, events: seq<Event>, n: nat, more: seq<Event>)
    requires taken <= arrived <= |stream| && Point(limit, stream, taken, events) && 0 < n <= arrived - taken
    requires At(limit, stream[taken..arrived][..n], more, stream[taken..arrived][n..])
    ensures Point(limit, stream, taken + n, events + more)
  {
    var buffer, rest := stream[taken..arrived], stream[taken..];
    assert buffer[..n] == rest[..n] && rest[n..] == buffer[n..] + stream[arrived..];
    AtExtends(limit, buffer[..n], more, buffer[n..], stream[arrived..]);
    AtAdvances(limit, stream[..taken], events, rest, n, more);
    assert stream[..taken] + rest[..n] == stream[..taken + n] && rest[n..] == stream[taken + n..];
  }

  lemma PointCompletes(limit: nat, stream: seq<Byte>, taken: nat, arrived: nat, events: seq<Event>, size: nat)
    requires taken <= arrived <= |stream| && Point(limit, stream, taken, events)
    requires Agrees(limit, stream[taken..arrived], Complete(size))
    ensures taken + size + 4 <= arrived
    ensures Point(limit, stream, taken + size + 4, events + [Packet(stream[taken + 1..taken + size + 1])])
    ensures size <= limit && stream[taken] == DOLLAR && stream[taken + size + 2] != DOLLAR && stream[taken + size + 3] != DOLLAR
  {
    hide Run, Sum;
    var buffer := stream[taken..arrived];
    SliceOfSlice(stream, taken, arrived, 1, size + 1);
    PointAdvances(limit, stream, taken, arrived, events, size + 4, [Packet(stream[taken + 1..taken + size + 1])]);
  }

  lemma PointInserts(limit: nat, stream: seq<Byte>, taken: nat, events: seq<Event>, more: seq<Byte>)
    requires Point(limit, stream, taken, events) && |more| > 0 && more[0] == DOLLAR
    ensures Point(limit, stream[..taken] + more + stream[taken..], taken, events)
    ensures Run(limit, Hunt, stream[..taken] + more + stream[taken..]) ==
      Then(Trace(Hunt, events), Run(limit, Hunt, more + stream[taken..]))
  {
    var longer := stream[..taken] + more + stream[taken..];
    assert longer[..taken] == stream[..taken] && longer[taken..] == more + stream[taken..];
    AtResumes(limit, stream[..taken], events, longer[taken..]);
    assert longer == longer[..taken] + longer[taken..];
  }

  lemma PointPending(limit: nat, stream: seq<Byte>, taken: nat, events: seq<Event>)
    requires Point(limit, stream, taken, events) && Agrees(limit, stream[taken..], Incomplete)
    ensures Run(limit, Hunt, stream).events == events
  {
    AtResumes(limit, stream[..taken], events, stream[taken..]);
    assert stream[..taken] + stream[taken..] == stream;
    assert events + [] == events;
  }

  lemma SpliceIn(stream: seq<Byte>, end: nat, arrived: nat, head: seq<Byte>, bytes: seq<Byte>)
    requires end <= arrived <= |stream| && |head| <= |bytes|
    requires bytes[..|head|] == head && bytes[|head|..] == stream[end..arrived]
    ensures var longer := stream[..end] + head + stream[end..];
      arrived + |head| <= |longer| && longer[end..arrived + |head|] == bytes && longer[..end] == stream[..end] && longer[end..] == head + stream[end..]
  {
    assert bytes == head + stream[end..arrived];
  }

  /** The in-place overwrite; for a File-I/O reply a loop blanks what is left of the frame. */
  method Overwrite(buffer: seq<Byte>, size: nat, zeroRest: bool) returns (bytes: seq<Byte>)
    requires size >= 1 && |buffer| >= size + 4 && buffer[0] == DOLLAR
    ensures Overlaid(buffer, size, zeroRest, bytes)
  {
    bytes := buffer[..1] + STATUS + buffer[5..];
    if zeroRest {
      for i := 1 to size
        invariant |bytes| == |buffer| && bytes[..5] == [DOLLAR] + STATUS && bytes[size + 4..] == buffer[size + 4..]
        invariant forall j :: 5 <= j < i + 4 ==> bytes[j] == 0
      {
        bytes := bytes[i + 4 := 0];
      }
    }
  }

  ghost predicate Overlaid(buffer: seq<Byte>, size: nat, zeroRest: bool, bytes: seq<Byte>)
    requires size >= 1 && |buffer| >= size + 4
  {
    && |bytes| == |buffer| && bytes[..5] == [DOLLAR] + STATUS && bytes[size + 4..] == buffer[size + 4..]
    && forall j :: 5 <= j < size + 4 ==> bytes[j] == if zeroRest then 0 else buffer[j]
  }

  lemma OverlaidIsOverwritten(frame: seq<Byte>, buffer: seq<Byte>, size: nat, zeroRest: bool, bytes: seq<Byte>)
    requires size >= 1 && |buffer| >= size + 4 == |frame| && buffer[..size + 4] == Terminated(frame)
    requires Overlaid(buffer, size, zeroRest, bytes)
    ensures bytes[..size + 4] == Overwritten(frame, zeroRest)
  {
    var over := Overwritten(frame, zeroRest);
    forall k | 0 <= k < size + 4 ensures bytes[k] == over[k] {
      if k < 5 {
        assert bytes[k] == bytes[..5][k];
      } else if !zeroRest {
        assert over[k] == Terminated(frame)[5..][k - 5] == Terminated(frame)[k] == buffer[..size + 4][k];
      }
    }
  }

  /** With the loan overwritten, the buffer is that of a stream with a status query inserted. */
  lemma StatusInserted(limit: nat, stream: seq<Byte>, taken: nat, arrived: nat, size: nat, events: seq<Event>, zeroRest: bool, bytes: seq<Byte>)
    requires 1 <= size <= limit && taken + size + 4 <= arrived <= |stream|
    requires Point(limit, stream, taken + size + 4, events)
    requires stream[taken + size + 2] != DOLLAR && stream[taken + size + 3] != DOLLAR
    requires zeroRest || forall i :: taken + 5 <= i < taken + size + 1 ==> stream[i] != DOLLAR
    requires Overlaid(stream[taken..arrived][size + 1 := 0], size, zeroRest, bytes)
    ensures var end := taken + size + 4; var longer := stream[..end] + bytes[..size + 4] + stream[end..];
      && arrived + size + 4 <= |longer| && longer[end..arrived + size + 4] == bytes
      && Point(limit, longer, end, events)
      && Run(limit, Hunt, longer) == Then(Trace(Hunt, events), Then(Trace(Hunt, [Packet([0x3f])]), Run(limit, Hunt, stream[end..])))
  {
    hide Run, Sum;
    var end, buffer := taken + size + 4, stream[taken..arrived][size + 1 := 0];
    var frame, head := stream[taken..end], bytes[..size + 4];
    OverlaidIsOverwritten(frame, buffer, size, zeroRest, bytes);
    OverwriteIsStatusQuery(limit, frame, zeroRest, stream[end..]);
    PointInserts(limit, stream, end, events, head);
    assert buffer[size + 4..] == stream[end..arrived];
    SpliceIn(stream, end, arrived, head, bytes);
  }

  /** The books after one turn of the loop that added `more`. */
  ghost predicate Booked(events: seq<Event>, sent: seq<Byte>, news: seq<Event>, noAck: bool, events': seq<Event>, sent': seq<Byte>) {
    events' == events + news && sent' == sent + Acks(news, noAck)
  }

  /** The same when a flush failed: some of the last acknowledgements were not sent. */
  ghost predicate CutShort(events: seq<Event>, sent: seq<Byte>, news: seq<Event>, noAck: bool, events': seq<Event>, sent': seq<Byte>) {
    events' == events + news && sent <= sent' <= sent + Acks(news, noAck)
  }

  lemma PacketBooked(events: seq<Event>, sent: seq<Byte>, payload: seq<Byte>, noAck: bool)
    ensures Booked(events, sent, [Packet(payload)], noAck, events + [Packet(payload)], if noAck then sent else sent + [PLUS])
  {
    assert [Packet(payload)][..0] == [];
    assert Acks([Packet(payload)], noAck) == if noAck then [] else [PLUS];
  }

  lemma RefusalBooked(events: seq<Event>, sent: seq<Byte>, nack: bool, noAck: bool)
    ensures Booked(events, sent, Refusal(nack), noAck, events + Refusal(nack), if nack && !noAck then sent + [MINUS] else sent)
  {
    assert [Nack][..0] == [];
    assert Acks(Refusal(nack), noAck) == if nack && !noAck then [MINUS] else [];
  }

  lemma NothingBooked(events: seq<Event>, sent: seq<Byte>, noAck: bool)
    ensures Booked(events, sent, [], noAck, events, sent) && Packets([]) == []
  {
  }

  lemma NothingSent(events: seq<Event>, sent: seq<Byte>, news: seq<Event>, noAck: bool)
    ensures CutShort(events, sent, news, noAck, events + news, sent)
  {
  }

  lemma RefusalHasNoPacket(nack: bool)
    ensures Packets(Refusal(nack)) == []
  {
    assert Packets([Nack]) == Packets([Nack][..0]) + [];
  }

  lemma OnePacket(payload: seq<Byte>)
    ensures Packets([Packet(payload)]) == [payload]
  {
    assert Packets([Packet(payload)]) == Packets([Packet(payload)][..0]) + [payload];
  }

  lemma Books(events: seq<Event>, sent: seq<Byte>, news: seq<Event>, noAck: bool, events': seq<Event>, sent': seq<Byte>,
              more: seq<Event>, events'': seq<Event>, sent'': seq<Byte>) returns (all: seq<Event>)
    requires Booked(events, sent, news, noAck, events', sent') && Booked(events', sent', more, noAck, events'', sent'')
    requires Packets(news) == []
    ensures Booked(events, sent, all, noAck, events'', sent'')
    ensures Packets(all) == Packets(more)
  {
    all := news + more;
    AcksConcat(news, more, noAck);
    PacketsConcat(news, more);
    assert events + all == events' + more;
    assert sent + (Acks(news, noAck) + Acks(more, noAck)) == sent' + Acks(more, noAck);
  }

  lemma CutBooks(events: seq<Event>, sent: seq<Byte>, news: seq<Event>, noAck: bool, events': seq<Event>, sent': seq<Byte>,
                 more: seq<Event>, events'': seq<Event>, sent'': seq<Byte>) returns (all: seq<Event>)
    requires Booked(events, sent, news, noAck, events', sent') && CutShort(events', sent', more, noAck, events'', sent'')
    requires Packets(news) == []
    ensures CutShort(events, sent, all, noAck, events'', sent'')
    ensures Packets(all) == Packets(more)
  {
    all := news + more;
    AcksConcat(news, more, noAck);
    PacketsConcat(news, more);
    assert events + all == events' + more;
    assert sent + (Acks(news, noAck) + Acks(more, noAck)) == sent' + Acks(more, noAck);
  }

  class Receiver {
    const maximum: nat
    var buffer: seq<Byte>
    var capacity: nat
    /** A packet is on loan to the dispatcher: the first `size` payload bytes of the buffer. */
    var active: bool
    var size: nat
    var noAck: bool
    /** The acknowledgements that a flush has sent. */
    var sent: seq<Byte>
    /** Everything the peer sends; the first `arrived` bytes of it have been delivered. */
    var stream: seq<Byte>
    var arrived: nat
    /** How many bytes of the stream have left the buffer. */
    var taken: nat
    ghost var events: seq<Event>

    ghost function Limit(): nat
      requires maximum >= MINIMUM
    {
      maximum - 4
    }

    ghost predicate Sized()
      reads this
    {
      maximum >= MINIMUM && |buffer| <= capacity <= maximum && taken <= arrived <= |stream|
    }

    /** The buffer holds what has arrived and is not taken, in a loan up to the terminator that
        replaces the end marker. */
    ghost predicate Valid()
      reads this
    {
      && Sized()
      && (if active then
            && size <= Limit() && taken + size + 4 <= arrived
            && buffer == stream[taken..arrived][size + 1 := 0]
            && stream[taken] == DOLLAR && stream[taken + size + 2] != DOLLAR && stream[taken + size + 3] != DOLLAR
            && Point(Limit(), stream, taken + size + 4, events)
          else
            && buffer == stream[taken..arrived]
            && Point(Limit(), stream, taken, events))
    }

    constructor (max: nat, bytes: seq<Byte>, quiet: bool)
      requires max >= MINIMUM
      ensures Valid() && !active && maximum == max && noAck == quiet && sent == [] && events == [] && stream == bytes
    {
      maximum, buffer, capacity, active, size, noAck, sent, stream, arrived := max, [], 0, false, 0, quiet, [], bytes, 0;
      taken, events := 0, [];
    }

    /** Grow the buffer if it is full. Growth is refused only at the maximum. */
    method GetSpace() returns (space: nat, refused: bool)
      requires Sized()
      modifies this`capacity
      ensures Sized() && space <= capacity - |buffer|
      ensures refused <==> |buffer| == maximum
      ensures refused ==> space == 0
    {
      if |buffer| == capacity {
        var doubled := capacity * 2;
        if doubled == 0 {
          doubled := MINIMUM;
        }
        if doubled > maximum {
          doubled := maximum;
        }
        if doubled <= capacity {
          return 0, true;
        }
        var granted: bool := *;
        if !granted {
          return 0, false;
        }
        capacity := doubled;
      }
      return capacity - |buffer|, false;
    }

    /** One read: the network delivers any non-empty piece that fits, or fails, or the peer is done. */
    method Poll() returns (r: Received)
      requires Valid() && !active && |buffer| < maximum
      modifies this`capacity, this`buffer, this`arrived
      ensures Valid()
      ensures if r.Handed? then arrived > old(arrived) else buffer == old(buffer) && arrived == old(arrived)
      ensures r.Closed? ==> arrived == |stream|
    {
      var space, refused := GetSpace();
      // the buffer always has room for more of a frame that may still complete
      assert !refused;
      if space == 0 {
        return Fault;
      }
      var fault: bool := *;
      if fault {
        return Fault;
      }
      if arrived == |stream| {
        return Closed;
      }
      var n: int := *;
      if n < 1 || n > space || n > |stream| - arrived {
        n := 1;
      }
      assert stream[taken..arrived] + stream[arrived..arrived + n] == stream[taken..arrived + n];
      buffer, arrived := buffer + stream[arrived..arrived + n], arrived + n;
      return Handed(n);
    }

    /** Drop a malformed frame or noise, and refuse the former. */
    method DropFrame(n: nat, nack: bool) returns (fault: bool)
      requires Valid() && !active && Agrees(Limit(), buffer, Discard(n, nack))
      modifies this`buffer, this`sent, this`taken, this`events
      ensures Valid() && taken == old(taken) + n
      ensures if fault then CutShort(old(events), old(sent), Refusal(nack), noAck, events, sent)
              else Booked(old(events), old(sent), Refusal(nack), noAck, events, sent)
    {
      hide Run, Packets, Acks, Point, Booked, CutShort;
      PointAdvances(Limit(), stream, taken, arrived, events, n, Refusal(nack));
      RefusalBooked(events, sent, nack, noAck);
      NothingSent(events, sent, Refusal(nack), noAck);
      assert stream[taken..arrived][n..] == stream[taken + n..arrived];
      taken, events, buffer := taken + n, events + Refusal(nack), buffer[n..];
      fault := false;
      if nack && !noAck {
        fault := *;
        if !fault {
          sent := sent + [MINUS];
        }
      }
    }

    /** Acknowledge the frame at the head of the buffer and lend it to the dispatcher. A failed
        flush leaves it where it is. */
    method Lend(length: nat) returns (fault: bool)
      requires Valid() && !active && Agrees(Limit(), buffer, Complete(length))
      modifies this`buffer, this`sent, this`events, this`active, this`size
      ensures Valid() && active == !fault
      ensures fault ==> events == old(events) && sent == old(sent)
      ensures !fault ==> size == length
      ensures !fault ==> Booked(old(events), old(sent), [Packet(stream[taken + 1..taken + size + 1])], noAck, events, sent)
    {
      hide Run, Packets, Acks, Sum, Point, Checks;
      PointCompletes(Limit(), stream, taken, arrived, events, length);
      PacketBooked(events, sent, stream[taken + 1..taken + length + 1], noAck);
      fault := false;
      if !noAck {
        fault := *;
        if fault {
          return;
        }
        sent := sent + [PLUS];
      }
      events := events + [Packet(stream[taken + 1..taken + length + 1])];
      buffer, active, size := buffer[length + 1 := 0], true, length;
    }

    /** One turn of the receive loop: nothing to return yet, or the answer. */
    method Turn() returns (r: Option<Received>, ghost more: seq<Event>)
      requires Valid() && !active
      modifies this`buffer, this`sent, this`events, this`active, this`size, this`capacity, this`arrived, this`taken
      ensures Valid()
      ensures if r.Some? && r.value.Handed? then active && size == r.value.size else !active
      ensures r.None? ==> arrived > old(arrived) || (arrived == old(arrived) && taken > old(taken))
      ensures taken >= old(taken) && arrived >= old(arrived)
      ensures if r == Some(Fault) then CutShort(old(events), old(sent), more, noAck, events, sent)
              else Booked(old(events), old(sent), more, noAck, events, sent)
      ensures Packets(more) == if active then [stream[taken + 1..taken + size + 1]] else []
      ensures r == Some(Closed) ==> events == Run(Limit(), Hunt, stream).events
    {
      hide Run, Packets, Acks, Point, Booked, CutShort;
      NothingBooked(events, sent, noAck);
      NothingSent(events, sent, [], noAck);
      assert events + [] == events;
      var scan := ScanFrame(buffer, maximum - 4);
      match scan {
        case Complete(length) =>
          var fault := Lend(length);
          if fault {
            return Some(Fault), [];
          }
          more := [Packet(stream[taken + 1..taken + size + 1])];
          OnePacket(stream[taken + 1..taken + size + 1]);
          r := Some(Handed(length));
        case Discard(n, nack) =>
          more := Refusal(nack);
          RefusalHasNoPacket(nack);
          var fault := DropFrame(n, nack);
          r := if fault then Some(Fault) else None;
        case Incomplete =>
          more := [];
          var polled := Poll();
          r := if polled.Handed? then None else Some(polled);
          if polled.Closed? {
            assert stream[taken..] == buffer;
            PointPending(Limit(), stream, taken, events);
          }
      }
    }

    /** recv_packet. Whatever the reads were, the packet handed out is the next one of the stream,
        after the refusals it calls for. */
    method ReceivePacket() returns (r: Received, ghost news: seq<Event>)
      requires Valid() && !active
      modifies this`buffer, this`sent, this`events, this`active, this`size, this`capacity, this`arrived, this`taken
      ensures Valid() && taken >= old(taken)
      ensures if r.Handed? then active && size == r.size && taken + size + 4 <= |stream| else !active && Point(Limit(), stream, taken, events)
      ensures if r.Fault? then CutShort(old(events), old(sent), news, noAck, events, sent)
              else Booked(old(events), old(sent), news, noAck, events, sent)
      ensures Packets(news) == if r.Handed? then [stream[taken + 1..taken + size + 1]] else []
      ensures r.Closed? ==> events == Run(Limit(), Hunt, stream).events
    {
      hide Run, Packets, Acks, Point, Booked, CutShort;
      news := [];
      NothingBooked(events, sent, noAck);
      while true
        invariant Valid() && !active && taken >= old(taken)
        invariant Booked(old(events), old(sent), news, noAck, events, sent)
        invariant Packets(news) == []
        decreases |stream| - arrived, |stream| - taken
      {
        ghost var events', sent' := events, sent;
        var done, more := Turn();
        if done == Some(Fault) {
          news := CutBooks(old(events), old(sent), news, noAck, events', sent', more, events, sent);
          return Fault, news;
        }
        news := Books(old(events), old(sent), news, noAck, events', sent', more, events, sent);
        if done.Some? {
          return done.value, news;
        }
      }
      assert false;
    }

    /** uvdb_finish_resume_packet, or with `zeroRest` its File-I/O form: the packet on loan becomes
        a status query in place. To everything that reads on, it is as if the peer had sent that
        query next, and then the rest of its stream unchanged. */
    method ReplaceWithStatus(zeroRest: bool)
      requires Valid() && active && size >= 1
      requires zeroRest || forall i :: taken + 5 <= i < taken + size + 1 ==> stream[i] != DOLLAR
      modifies this`buffer, this`active, this`taken, this`stream, this`arrived
      ensures Valid() && !active && |buffer| == |old(buffer)|
      ensures taken == old(taken) + size + 4 <= |old(stream)|
      ensures Run(Limit(), Hunt, stream) ==
        Then(Trace(Hunt, events), Then(Trace(Hunt, [Packet([0x3f])]), Run(Limit(), Hunt, old(stream)[taken..])))
    {
      hide Run, Packets, Acks, Sum, At, Point, Overlaid;
      var end := taken + size + 4;
      var bytes := Overwrite(buffer, size, zeroRest);
      StatusInserted(Limit(), stream, taken, arrived, size, events, zeroRest, bytes);
      buffer, stream := bytes, stream[..end] + bytes[..size + 4] + stream[end..];
      taken, arrived, active := end, arrived + size + 4, false;
    }

    /** discard_packet: the dispatcher is done with the packet. */
    method DiscardPacket()
      requires Valid() && active
      modifies this`buffer, this`active, this`taken
      ensures Valid() && !active && taken == old(taken) + size + 4
    {
      assert stream[taken..arrived][size + 1 := 0][size + 4..] == stream[taken + size + 4..arrived];
      buffer, active, taken := buffer[size + 4..], false, taken + size + 4;
    }
  }

  /** What has been handed out is the beginning of what the whole stream means. */
  lemma PointIsPrefix(limit: nat, stream: seq<Byte>, taken: nat, events: seq<Event>)
    requires Point(limit, stream, taken, events)
    ensures Packets(events) <= Packets(Run(limit, Hunt, stream).events)
    ensures forall noAck :: Acks(events, noAck) <= Acks(Run(limit, Hunt, stream).events, noAck)
  {
    var rest := Run(limit, Hunt, stream[taken..]).events;
    AtResumes(limit, stream[..taken], events, stream[taken..]);
    assert stream[..taken] + stream[taken..] == stream;
    PacketsConcat(events, rest);
    forall noAck ensures Acks(events, noAck) <= Acks(events + rest, noAck) {
      AcksConcat(events, rest, noAck);
    }
  }

  lemma CutAdd(events: seq<Event>, sent: seq<Byte>, news: seq<Event>, noAck: bool, events': seq<Event>, sent': seq<Byte>)
    requires CutShort(events, sent, news, noAck, events', sent') && sent == Acks(events, noAck)
    ensures sent' <= Acks(events', noAck) && Packets(events') == Packets(events) + Packets(news)
  {
    AcksConcat(events, news, noAck);
    PacketsConcat(events, news);
  }

  lemma BooksAdd(events: seq<Event>, sent: seq<Byte>, news: seq<Event>, noAck: bool, events': seq<Event>, sent': seq<Byte>)
    requires Booked(events, sent, news, noAck, events', sent') && sent == Acks(events, noAck)
    ensures sent' == Acks(events', noAck) && Packets(events') == Packets(events) + Packets(news)
  {
    AcksConcat(events, news, noAck);
    PacketsConcat(events, news);
  }

  /** A whole connection. However the stream is cut into reads, the packets handed out and the
      acknowledgements sent are those of the per-byte scanner; a fault only cuts them short. */
  method ReceiveAll(max: nat, bytes: seq<Byte>, quiet: bool) returns (packets: seq<seq<Byte>>, acks: seq<Byte>, complete: bool)
    requires max >= MINIMUM
    ensures packets <= Packets(Run(max - 4, Hunt, bytes).events)
    ensures acks <= Acks(Run(max - 4, Hunt, bytes).events, quiet)
    ensures complete ==> packets == Packets(Run(max - 4, Hunt, bytes).events) && acks == Acks(Run(max - 4, Hunt, bytes).events, quiet)
  {
    hide Run, Packets, Acks, Point, Booked, CutShort, Receiver.Valid;
    var receiver := new Receiver(max, bytes, quiet);
    packets := [];
    NothingBooked([], [], quiet);
    assert Acks([], quiet) == [] && Packets([]) == [] by { EmptyBooks(quiet); }
    while true
      invariant receiver.Valid() && !receiver.active && receiver.maximum == max && receiver.noAck == quiet && receiver.stream == bytes
      invariant packets == Packets(receiver.events) && receiver.sent == Acks(receiver.events, quiet)
      decreases |bytes| - receiver.taken
    {
      ghost var events, sent := receiver.events, receiver.sent;
      var r, news := receiver.ReceivePacket();
      if r.Fault? {
        CutAdd(events, sent, news, quiet, receiver.events, receiver.sent);
      } else {
        BooksAdd(events, sent, news, quiet, receiver.events, receiver.sent);
      }
      if !r.Handed? {
        PointIsPrefix(max - 4, bytes, receiver.taken, receiver.events);
        assert packets + [] == packets;
        return packets, receiver.sent, r.Closed?;
      }
      packets := packets + [receiver.stream[receiver.taken + 1..receiver.taken + receiver.size + 1]];
      receiver.DiscardPacket();
    }
    assert false;
  }

  lemma EmptyBooks(noAck: bool)
    ensures Acks([], noAck) == [] && Packets([]) == []
  {
  }
}
