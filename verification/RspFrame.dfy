/**
 * Remote protocol framing: the per-byte scanner that defines what a byte stream means, and the
 * frame scan of the receive loop. Characters are ASCII codes.
 */
module RspFrame {
  import opened Bytes
  import Hex

  const DOLLAR: Byte := 0x24
  const HASH: Byte := 0x23
  const BRACE: Byte := 0x7d

  datatype Event = Packet(payload: seq<Byte>) | Nack

  /** What a receiver that looks at one byte at a time remembers. */
  datatype Scanner =
    | Hunt
    | Body(payload: seq<Byte>, escaped: bool)
    | First(payload: seq<Byte>)
    | Second(payload: seq<Byte>, high: Byte)

  datatype Trace = Trace(state: Scanner, events: seq<Event>)

  function Sum(payload: seq<Byte>): (sum: Byte) {
    if |payload| == 0 then 0 else (Sum(payload[..|payload| - 1]) + payload[|payload| - 1]) % 256
  }

  predicate Checks(payload: seq<Byte>, high: Byte, low: Byte) {
    Hex.Value(high).Some? && Hex.Value(low).Some? && Hex.Pair(high, low) == Sum(payload)
  }

  function Feed(limit: nat, s: Scanner, b: Byte): Trace {
    match s
    case Hunt => Trace(if b == DOLLAR then Body([], false) else Hunt, [])
    case Body(payload, escaped) =>
      if !escaped && b == HASH then Trace(First(payload), [])
      else if !escaped && b == DOLLAR then Trace(Body([], false), [Nack])
      else if |payload| >= limit then Trace(Hunt, [Nack])
      else Trace(Body(payload + [b], !escaped && b == BRACE), [])
    case First(payload) => Trace(Second(payload, b), [])
    case Second(payload, high) => Trace(Hunt, [if Checks(payload, high, b) then Packet(payload) else Nack])
  }

  /** The meaning of a byte stream: the packets and refusals it holds, in order. */
  function Run(limit: nat, from: Scanner, bytes: seq<Byte>): Trace
    decreases |bytes|
  {
    if |bytes| == 0 then Trace(from, [])
    else
      var before := Run(limit, from, bytes[..|bytes| - 1]);
      var last := Feed(limit, before.state, bytes[|bytes| - 1]);
      Trace(last.state, before.events + last.events)
  }

  function Then(first: Trace, second: Trace): Trace {
    Trace(second.state, first.events + second.events)
  }

  lemma RunNext(limit: nat, from: Scanner, bytes: seq<Byte>, b: Byte)
    ensures Run(limit, from, bytes + [b]) == Then(Run(limit, from, bytes), Feed(limit, Run(limit, from, bytes).state, b))
  {
    assert (bytes + [b])[..|bytes|] == bytes;
  }

  /** Reading two pieces one after the other is reading them joined. */
  lemma {:induction false} RunConcat(limit: nat, from: Scanner, a: seq<Byte>, b: seq<Byte>)
    ensures Run(limit, from, a + b) == Then(Run(limit, from, a), Run(limit, Run(limit, from, a).state, b))
    decreases |b|
  {
    if |b| == 0 {
      assert a + b == a;
    } else {
      var n := |b| - 1;
      RunConcat(limit, from, a, b[..n]);
      assert a + b == (a + b[..n]) + [b[n]] && b == b[..n] + [b[n]];
      RunNext(limit, from, a + b[..n], b[n]);
      RunNext(limit, Run(limit, from, a).state, b[..n], b[n]);
    }
  }

  /** Noise is skipped in silence. */
  lemma {:induction false} Noise(limit: nat, bytes: seq<Byte>)
    requires DOLLAR !in bytes
    ensures Run(limit, Hunt, bytes) == Trace(Hunt, [])
  {
    if |bytes| > 0 {
      assert bytes[|bytes| - 1] in bytes;
      Noise(limit, bytes[..|bytes| - 1]);
    }
  }

  lemma RunOne(limit: nat, from: Scanner, b: Byte)
    ensures Run(limit, from, [b]) == Feed(limit, from, b)
  {
    assert [b] == [] + [b];
    RunNext(limit, from, [], b);
  }

  /** `taken` has produced exactly `events`, and what is still buffered starts afresh. A start
      marker that cuts a frame short is reported with the frame and yet still buffered. */
  ghost predicate At(limit: nat, taken: seq<Byte>, events: seq<Event>, buffer: seq<Byte>) {
    || Run(limit, Hunt, taken) == Trace(Hunt, events)
    || (|buffer| > 0 && buffer[0] == DOLLAR && Run(limit, Hunt, taken + [DOLLAR]) == Trace(Body([], false), events))
  }

  lemma RunMarked(limit: nat, marked: seq<Byte>, events: seq<Event>, rest: seq<Byte>)
    requires Run(limit, Hunt, marked) == Trace(Body([], false), events)
    ensures Run(limit, Hunt, marked + rest) == Then(Trace(Hunt, events), Run(limit, Hunt, [DOLLAR] + rest))
  {
    RunConcat(limit, Hunt, marked, rest);
    RunConcat(limit, Hunt, [DOLLAR], rest);
    RunOne(limit, Hunt, DOLLAR);
  }

  /** From such a point the stream means what was produced so far, then what the buffer means. */
  lemma AtResumes(limit: nat, taken: seq<Byte>, events: seq<Event>, buffer: seq<Byte>)
    requires At(limit, taken, events, buffer)
    ensures Run(limit, Hunt, taken + buffer) == Then(Trace(Hunt, events), Run(limit, Hunt, buffer))
  {
    if Run(limit, Hunt, taken) == Trace(Hunt, events) {
      RunConcat(limit, Hunt, taken, buffer);
    } else {
      var rest := buffer[1..];
      assert taken + buffer == (taken + [DOLLAR]) + rest && buffer == [DOLLAR] + rest;
      RunMarked(limit, taken + [DOLLAR], events, rest);
    }
  }

  lemma AtAdvances(limit: nat, taken: seq<Byte>, events: seq<Event>, buffer: seq<Byte>, n: nat, more: seq<Event>)
    requires 0 < n <= |buffer|
    requires At(limit, taken, events, buffer) && At(limit, buffer[..n], more, buffer[n..])
    ensures At(limit, taken + buffer[..n], events + more, buffer[n..])
  {
    AtResumes(limit, taken, events, buffer[..n]);
    if Run(limit, Hunt, buffer[..n]) != Trace(Hunt, more) {
      AtResumes(limit, taken, events, buffer[..n] + [DOLLAR]);
      assert taken + (buffer[..n] + [DOLLAR]) == taken + buffer[..n] + [DOLLAR];
    }
  }

  lemma AtExtends(limit: nat, taken: seq<Byte>, events: seq<Event>, buffer: seq<Byte>, more: seq<Byte>)
    requires At(limit, taken, events, buffer)
    ensures At(limit, taken, events, buffer + more)
  {
  }

  datatype Scan = Discard(consumed: nat, nack: bool) | Incomplete | Complete(size: nat)

  function Refusal(nack: bool): seq<Event> {
    if nack then [Nack] else []
  }

  /** uvdb_rsp_scan_frame says of a buffer what the per-byte scanner says of it. */
  ghost predicate Agrees(limit: nat, input: seq<Byte>, r: Scan) {
    match r
    case Discard(n, nack) => 0 < n <= |input| && At(limit, input[..n], Refusal(nack), input[n..])
    case Incomplete => Run(limit, Hunt, input).events == [] && |input| <= limit + 3 && (|input| > 0 ==> input[0] == DOLLAR)
    case Complete(size) =>
      && size <= limit && size + 4 <= |input| && input[0] == DOLLAR
      && Checks(input[1..size + 1], input[size + 2], input[size + 3])
      && Run(limit, Hunt, input[..size + 4]) == Trace(Hunt, [Packet(input[1..size + 1])])
  }

  lemma NoiseDiscarded(limit: nat, input: seq<Byte>, start: nat)
    requires 0 < start <= |input| && DOLLAR !in input[..start]
    ensures Agrees(limit, input, Discard(start, false))
  {
    Noise(limit, input[..start]);
  }

  method Checksum(input: seq<Byte>, marker: nat) returns (checksum: Byte)
    requires 1 <= marker <= |input|
    ensures checksum == Sum(input[1..marker])
  {
    checksum := 0;
    for i := 1 to marker
      invariant checksum == Sum(input[1..i])
    {
      assert input[1..i + 1][..i - 1] == input[1..i];
      checksum := (checksum + input[i]) % 256;
    }
  }

  /** The scan has read a start marker and `marker - 1` payload bytes. */
  ghost predicate InBody(limit: nat, input: seq<Byte>, marker: nat, escaped: bool) {
    1 <= marker <= |input| && marker - 1 <= limit && input[0] == DOLLAR
    && Run(limit, Hunt, input[..marker]) == Trace(Body(input[1..marker], escaped), [])
  }

  lemma BodyStarts(limit: nat, input: seq<Byte>)
    requires |input| > 0 && input[0] == DOLLAR
    ensures InBody(limit, input, 1, false)
  {
    assert input[..1] == [DOLLAR] && input[1..1] == [];
    RunOne(limit, Hunt, DOLLAR);
  }

  lemma BodyNext(limit: nat, input: seq<Byte>, marker: nat, escaped: bool)
    requires InBody(limit, input, marker, escaped) && marker < |input|
    ensures Run(limit, Hunt, input[..marker + 1]) == Feed(limit, Body(input[1..marker], escaped), input[marker])
  {
    assert input[..marker + 1] == input[..marker] + [input[marker]];
    RunNext(limit, Hunt, input[..marker], input[marker]);
  }

  lemma BodyGrows(limit: nat, input: seq<Byte>, marker: nat, escaped: bool)
    requires InBody(limit, input, marker, escaped) && marker < |input| && marker - 1 < limit
    requires escaped || (input[marker] != HASH && input[marker] != DOLLAR)
    ensures InBody(limit, input, marker + 1, !escaped && input[marker] == BRACE)
  {
    BodyNext(limit, input, marker, escaped);
    assert input[1..marker + 1] == input[1..marker] + [input[marker]];
  }

  lemma BodyOverflows(limit: nat, input: seq<Byte>, marker: nat, escaped: bool)
    requires InBody(limit, input, marker, escaped) && marker < |input| && marker - 1 >= limit
    requires escaped || (input[marker] != HASH && input[marker] != DOLLAR)
    ensures Agrees(limit, input, Discard(marker + 1, true))
  {
    BodyNext(limit, input, marker, escaped);
  }

  lemma BodySuperseded(limit: nat, input: seq<Byte>, marker: nat)
    requires InBody(limit, input, marker, false) && marker < |input| && input[marker] == DOLLAR
    ensures Agrees(limit, input, Discard(marker, true))
  {
    BodyNext(limit, input, marker, false);
    assert input[..marker + 1] == input[..marker] + [DOLLAR];
  }

  lemma BodyEnds(limit: nat, input: seq<Byte>, marker: nat)
    requires InBody(limit, input, marker, false) && marker < |input| && input[marker] == HASH
    ensures Run(limit, Hunt, input[..marker + 1]) == Trace(First(input[1..marker]), [])
    ensures |input| - marker < 3 ==> Run(limit, Hunt, input).events == []
  {
    BodyNext(limit, input, marker, false);
    if |input| == marker + 1 {
      assert input[..marker + 1] == input;
    } else if |input| == marker + 2 {
      assert input == input[..marker + 1] + [input[marker + 1]];
      RunNext(limit, Hunt, input[..marker + 1], input[marker + 1]);
    }
  }

  lemma BodyChecked(limit: nat, input: seq<Byte>, marker: nat)
    requires 1 <= marker && marker + 3 <= |input|
    requires Run(limit, Hunt, input[..marker + 1]) == Trace(First(input[1..marker]), [])
    ensures Run(limit, Hunt, input[..marker + 3]) == Feed(limit, Second(input[1..marker], input[marker + 1]), input[marker + 2])
  {
    assert input[..marker + 2] == input[..marker + 1] + [input[marker + 1]];
    RunNext(limit, Hunt, input[..marker + 1], input[marker + 1]);
    assert input[..marker + 3] == input[..marker + 2] + [input[marker + 2]];
    RunNext(limit, Hunt, input[..marker + 2], input[marker + 2]);
  }

  lemma BodyPending(limit: nat, input: seq<Byte>, escaped: bool)
    requires InBody(limit, input, |input|, escaped)
    ensures Agrees(limit, input, Incomplete)
  {
    assert input[..|input|] == input;
  }

  /** What the bytes from the end marker on amount to. */
  lemma BodyVerdict(limit: nat, input: seq<Byte>, marker: nat)
    requires InBody(limit, input, marker, false) && marker < |input| && input[marker] == HASH
    ensures Agrees(limit, input,
      if |input| - marker < 3 then Incomplete
      else if Checks(input[1..marker], input[marker + 1], input[marker + 2]) then Complete(marker - 1)
      else Discard(marker + 3, true))
  {
    BodyEnds(limit, input, marker);
    if |input| - marker >= 3 {
      BodyChecked(limit, input, marker);
    }
  }

  /** No byte of the payload has a meaning of its own in a frame. */
  predicate Plain(payload: seq<Byte>) {
    DOLLAR !in payload && HASH !in payload && BRACE !in payload
  }

  function Framed(payload: seq<Byte>, high: Byte, low: Byte): seq<Byte> {
    [DOLLAR] + payload + [HASH, high, low]
  }

  lemma {:induction false} PlainBody(limit: nat, payload: seq<Byte>, high: Byte, low: Byte, n: nat)
    requires Plain(payload) && |payload| <= limit && n <= |payload|
    ensures InBody(limit, Framed(payload, high, low), n + 1, false)
  {
    var input := Framed(payload, high, low);
    if n == 0 {
      BodyStarts(limit, input);
    } else {
      PlainBody(limit, payload, high, low, n - 1);
      assert input[n] == payload[n - 1] && payload[n - 1] in payload;
      BodyGrows(limit, input, n, false);
    }
  }

  /** A frame around a plain payload is read back as that payload. */
  lemma FrameIsPacket(limit: nat, payload: seq<Byte>, high: Byte, low: Byte)
    requires Plain(payload) && |payload| <= limit && Checks(payload, high, low)
    ensures Run(limit, Hunt, Framed(payload, high, low)) == Trace(Hunt, [Packet(payload)])
  {
    var input := Framed(payload, high, low);
    var marker := |payload| + 1;
    PlainBody(limit, payload, high, low, |payload|);
    BodyEnds(limit, input, marker);
    BodyChecked(limit, input, marker);
    assert input[1..marker] == payload && input[..marker + 3] == input;
  }

  // ---- what a client sends ----

  /** The byte with bit 5 turned over, as an escape carries it. */
  function Flipped(b: Byte): Byte {
    if b / 32 % 2 == 0 then b + 32 else b - 32
  }

  /** The payload as sent: marked bytes are escaped by `}`. */
  function Escaped(data: seq<Byte>, marks: seq<bool>): (text: seq<Byte>)
    requires |data| == |marks|
  {
    if |data| == 0 then []
    else
      var n := |data| - 1;
      Escaped(data[..n], marks[..n]) + if marks[n] then [0x7d, Flipped(data[n])] else [data[n]]
  }

  /** A client must escape `#`, `$` and `}`, and may escape anything. */
  predicate Marked(data: seq<Byte>, marks: seq<bool>) {
    |data| == |marks| && forall i :: 0 <= i < |data| && data[i] in [0x23, 0x24, 0x7d] ==> marks[i]
  }

  lemma {:induction false} EscapedBody(limit: nat, data: seq<Byte>, marks: seq<bool>)
    requires Marked(data, marks) && |Escaped(data, marks)| <= limit
    ensures Run(limit, Hunt, [0x24] + Escaped(data, marks)) == Trace(Body(Escaped(data, marks), false), [])
  {
    if |data| == 0 {
      assert [0x24] + Escaped(data, marks) == [0x24];
      RunOne(limit, Hunt, 0x24);
    } else {
      var n := |data| - 1;
      var before, text := Escaped(data[..n], marks[..n]), Escaped(data, marks);
      EscapedBody(limit, data[..n], marks[..n]);
      if marks[n] {
        RunNext(limit, Hunt, [0x24] + before, 0x7d);
        RunNext(limit, Hunt, [0x24] + before + [0x7d], Flipped(data[n]));
        assert [0x24] + text == [0x24] + before + [0x7d] + [Flipped(data[n])];
        assert before + [0x7d] + [Flipped(data[n])] == text;
      } else {
        RunNext(limit, Hunt, [0x24] + before, data[n]);
        assert [0x24] + text == [0x24] + before + [data[n]];
      }
    }
  }

  /** Whatever a client escapes, the frame it sends is read as one packet: `$`, the escaped data,
      `#` and the two digits of the checksum. */
  lemma EscapedIsPacket(limit: nat, data: seq<Byte>, marks: seq<bool>, high: Byte, low: Byte)
    requires Marked(data, marks) && |Escaped(data, marks)| <= limit && Checks(Escaped(data, marks), high, low)
    ensures Run(limit, Hunt, [0x24] + Escaped(data, marks) + [0x23, high, low]) == Trace(Hunt, [Packet(Escaped(data, marks))])
  {
    hide Checks;
    var text := Escaped(data, marks);
    var body := [0x24] + text;
    EscapedBody(limit, data, marks);
    RunNext(limit, Hunt, body, 0x23);
    RunNext(limit, Hunt, body + [0x23], high);
    RunNext(limit, Hunt, body + [0x23] + [high], low);
    assert body + [0x23, high, low] == body + [0x23] + [high] + [low];
  }

  /** The checksum is the sum of the payload modulo 256, in two hexadecimal digits. */
  lemma ChecksumIsSum(payload: seq<Byte>, high: Byte, low: Byte)
    ensures Checks(payload, high, low) <==>
      Hex.Value(high).Some? && Hex.Value(low).Some? && 16 * Hex.Value(high).value + Hex.Value(low).value == Total(payload) % 256
  {
    SumIsTotal(payload);
  }

  function Total(bytes: seq<Byte>): nat {
    if |bytes| == 0 then 0 else Total(bytes[..|bytes| - 1]) + bytes[|bytes| - 1]
  }

  lemma {:induction false} SumIsTotal(bytes: seq<Byte>)
    ensures Sum(bytes) == Total(bytes) % 256
  {
    if |bytes| > 0 {
      var n := |bytes| - 1;
      SumIsTotal(bytes[..n]);
      SumStep(Total(bytes[..n]), bytes[n]);
    }
  }

  lemma SumStep(total: nat, b: nat)
    ensures (total % 256 + b) % 256 == (total + b) % 256
  {
  }

  predicate WithinLimit(limit: nat, s: Scanner) {
    !s.Hunt? ==> |s.payload| <= limit
  }

  /** A scanner that starts by hunting never holds more payload than the limit. */
  lemma {:induction false} PayloadWithinLimit(limit: nat, bytes: seq<Byte>)
    ensures WithinLimit(limit, Run(limit, Hunt, bytes).state)
  {
    if |bytes| > 0 {
      PayloadWithinLimit(limit, bytes[..|bytes| - 1]);
    }
  }

  /** So where the scan loop stops, at the end of the input or at an end marker, the two tests of
      the limit that follow it never fire. */
  lemma LateLimitTestsNeverFire(limit: nat, input: seq<Byte>, marker: nat, escaped: bool)
    requires 1 <= marker <= |input| && Run(limit, Hunt, input[..marker]) == Trace(Body(input[1..marker], escaped), [])
    ensures !(marker == |input| && |input| - 1 > limit) && !(marker - 1 > limit)
  {
    PayloadWithinLimit(limit, input[..marker]);
  }

  method ScanFrame(input: seq<Byte>, limit: nat) returns (r: Scan)
    ensures Agrees(limit, input, r)
  {
    if |input| == 0 {
      return Incomplete;
    }
    var start := 0;
    while start < |input| && input[start] != DOLLAR
      invariant start <= |input| && DOLLAR !in input[..start]
    {
      start := start + 1;
    }
    if start > 0 {
      NoiseDiscarded(limit, input, start);
      return Discard(start, false);
    }
    var marker, escaped := 1, false;
    BodyStarts(limit, input);
    while marker < |input|
      invariant InBody(limit, input, marker, escaped)
    {
      if escaped {
        if marker - 1 >= limit {
          BodyOverflows(limit, input, marker, escaped);
          return Discard(marker + 1, true);
        }
        BodyGrows(limit, input, marker, escaped);
        escaped := false;
        marker := marker + 1;
        continue;
      }
      if input[marker] == HASH {
        break;
      }
      if input[marker] == BRACE {
        if marker - 1 >= limit {
          BodyOverflows(limit, input, marker, escaped);
          return Discard(marker + 1, true);
        }
        BodyGrows(limit, input, marker, escaped);
        escaped := true;
        marker := marker + 1;
        continue;
      }
      if input[marker] == DOLLAR {
        BodySuperseded(limit, input, marker);
        return Discard(marker, true);
      }
      if marker - 1 >= limit {
        BodyOverflows(limit, input, marker, escaped);
        return Discard(marker + 1, true);
      }
      BodyGrows(limit, input, marker, escaped);
      marker := marker + 1;
    }
    // The source tests the limit twice more: see LateLimitTestsNeverFire.
    LateLimitTestsNeverFire(limit, input, marker, escaped);
    if marker == |input| {
      BodyPending(limit, input, escaped);
      return Incomplete;
    }
    BodyVerdict(limit, input, marker);
    if |input| - marker < 3 {
      return Incomplete;
    }
    var high, low := Hex.Value(input[marker + 1]), Hex.Value(input[marker + 2]);
    if high.None? || low.None? {
      return Discard(marker + 3, true);
    }
    var checksum := Checksum(input, marker);
    if checksum != 16 * high.value + low.value {
      return Discard(marker + 3, true);
    }
    return Complete(marker - 1);
  }
}
