/** Thread inventories and the reduction of a `vCont` action list to one resume plan. */
module VCont {
  import opened Bytes
  import Hex

  const CAPACITY: nat := 64
  const MAX_ACTIONS: nat := CAPACITY + 1
  const ALL: int := -1
  const ANY: int := 0
  const INT32_MAX: nat := 0x7fff_ffff

  const SEMICOLON: Byte := 0x3b
  const COLON: Byte := 0x3a
  const LETTER_C: Byte := 0x63
  const LETTER_S: Byte := 0x73

  /** `vCont;` */
  const PREFIX: seq<Byte> := [0x76, 0x43, 0x6f, 0x6e, 0x74, 0x3b]

  datatype Kind = Continue | Step
  datatype Action = Action(kind: Kind, thread: int, named: bool)
  datatype Plan = Plan(kind: Kind, stepThread: int)

  predicate ValidInventory(ids: seq<int>) {
    && |ids| <= CAPACITY
    && (forall i :: 0 <= i < |ids| ==> ids[i] > 0)
    && (forall i, j :: 0 <= j < i < |ids| ==> ids[j] != ids[i])
  }

  method InventoryValid(ids: seq<int>) returns (valid: bool)
    ensures valid <==> ValidInventory(ids)
  {
    if |ids| > CAPACITY {
      return false;
    }
    for i := 0 to |ids|
      invariant forall k :: 0 <= k < i ==> ids[k] > 0
      invariant forall k, j :: 0 <= j < k < i ==> ids[j] != ids[k]
    {
      if ids[i] <= 0 {
        return false;
      }
      for j := 0 to i
        invariant forall k :: 0 <= k < j ==> ids[k] != ids[i]
      {
        if ids[j] == ids[i] {
          return false;
        }
      }
    }
    return true;
  }

  /** The number a string of digits stands for. */
  function Number(text: seq<Byte>): nat
    requires Hex.AllHex(text)
  {
    if |text| == 0 then 0 else 16 * Number(text[..|text| - 1]) + Hex.Value(text[|text| - 1]).value
  }

  function Power16(n: nat): nat {
    if n == 0 then 1 else 16 * Power16(n - 1)
  }

  lemma {:induction false} NumberBound(text: seq<Byte>)
    requires Hex.AllHex(text)
    ensures Number(text) < Power16(|text|)
  {
    if |text| > 0 {
      NumberBound(text[..|text| - 1]);
    }
  }

  lemma {:induction false} Power16Grows(m: nat, n: nat)
    requires m <= n
    ensures Power16(m) <= Power16(n)
  {
    if m < n {
      Power16Grows(m, n - 1);
    }
  }

  lemma EightDigits()
    ensures Power16(8) == 0x1_0000_0000
  {
    assert Power16(4) == 0x1_0000;
  }

  predicate IsNumber(text: seq<Byte>) {
    1 <= |text| <= 8 && Hex.AllHex(text)
  }

  /** The overflow test before a digit is added never fires: seven digits leave room for one. */
  lemma OverflowTestNeverFires(text: seq<Byte>, digit: nat)
    requires |text| < 8 && Hex.AllHex(text) && digit < 16
    ensures !(Number(text) > (0xffff_ffff - digit) / 16) && Number(text) * 16 + digit < 0x1_0000_0000
  {
    NumberBound(text);
    Power16Grows(|text|, 7);
    EightDigits();
    assert Power16(8) == 16 * Power16(7);
  }

  /** At most eight digits, so the accumulated value never overflows. */
  method ParseHex(text: seq<Byte>) returns (r: Option<nat>)
    ensures r.Some? <==> IsNumber(text)
    ensures r.Some? ==> r.value == Number(text) < 0x1_0000_0000
  {
    if |text| == 0 || |text| > 8 {
      return None;
    }
    var parsed := 0;
    for i := 0 to |text|
      invariant Hex.AllHex(text[..i]) && parsed == Number(text[..i]) < 0x1_0000_0000
    {
      var digit := Hex.Value(text[i]);
      if digit.None? {
        assert !Hex.AllHex(text);
        return None;
      }
      assert text[..i + 1][..i] == text[..i];
      OverflowTestNeverFires(text[..i], digit.value);
      parsed := parsed * 16 + digit.value;
    }
    assert text[..|text|] == text;
    return Some(parsed);
  }

  /** A thread selector: `-1` for all, or a number that fits a thread identifier. */
  function ThreadOf(text: seq<Byte>): Option<int> {
    if text == [0x2d, 0x31] then Some(ALL)
    else if IsNumber(text) && Number(text) <= INT32_MAX then Some(Number(text))
    else None
  }

  method ParseThread(text: seq<Byte>) returns (r: Option<int>)
    ensures r == ThreadOf(text)
    ensures r.Some? <==> text == [0x2d, 0x31] || (IsNumber(text) && Number(text) <= 0x7fff_ffff)
  {
    if |text| == 0 {
      return None;
    }
    if |text| == 2 && text[0] == 0x2d && text[1] == 0x31 {
      return Some(ALL);
    }
    var value := ParseHex(text);
    if value.None? || value.value > INT32_MAX {
      return None;
    }
    return Some(value.value);
  }

  /** The meaning of one action: a letter, alone or with a thread. */
  function ActionOf(text: seq<Byte>): Option<Action> {
    if |text| == 0 || (text[0] != LETTER_C && text[0] != LETTER_S) then None
    else
      var kind := if text[0] == LETTER_C then Continue else Step;
      if |text| == 1 then Some(Action(kind, ALL, false))
      else if |text| < 3 || text[1] != COLON || ThreadOf(text[2..]).None? then None
      else Some(Action(kind, ThreadOf(text[2..]).value, true))
  }

  method ParseAction(text: seq<Byte>) returns (r: Option<Action>)
    ensures r == ActionOf(text)
  {
    if |text| == 0 {
      return None;
    }
    var kind;
    if text[0] == LETTER_C {
      kind := Continue;
    } else if text[0] == LETTER_S {
      kind := Step;
    } else {
      return None;
    }
    if |text| == 1 {
      return Some(Action(kind, ALL, false));
    }
    if |text| < 3 || text[1] != COLON {
      return None;
    }
    var thread := ParseThread(text[2..]);
    if thread.None? {
      return None;
    }
    return Some(Action(kind, thread.value, true));
  }

  // ---- the action list as text ----

  /** The texts between semicolons. */
  function Join(parts: seq<seq<Byte>>): seq<Byte> {
    if |parts| == 0 then []
    else if |parts| == 1 then parts[0]
    else parts[0] + [SEMICOLON] + Join(parts[1..])
  }

  predicate ActionOk(text: seq<Byte>, ids: seq<int>) {
    && ActionOf(text).Some?
    && (ActionOf(text).value.named && ActionOf(text).value.thread > 0 ==> ActionOf(text).value.thread in ids)
  }

  /** `actions` is the list the packet spells out, every named thread known. */
  ghost predicate Spells(packet: seq<Byte>, ids: seq<int>, actions: seq<Action>) {
    exists parts: seq<seq<Byte>> :: SpelledBy(packet, ids, actions, parts)
  }

  ghost predicate SpelledBy(packet: seq<Byte>, ids: seq<int>, actions: seq<Action>, parts: seq<seq<Byte>>) {
    && 1 <= |parts| <= MAX_ACTIONS && packet == PREFIX + Join(parts) && |actions| == |parts|
    && forall i :: 0 <= i < |parts| ==> ActionOk(parts[i], ids) && ActionOf(parts[i]) == Some(actions[i])
  }

  // ---- which action a thread follows ----

  predicate Matches(a: Action, thread: int, anyThread: int) {
    if !a.named || a.thread == ALL then true
    else if a.thread == ANY then thread == anyThread
    else a.thread == thread
  }

  /** The action at `i` is the leftmost one that applies to the thread. */
  predicate Follows(actions: seq<Action>, thread: int, anyThread: int, i: nat) {
    && i < |actions| && Matches(actions[i], thread, anyThread)
    && forall k :: 0 <= k < i ==> !Matches(actions[k], thread, anyThread)
  }

  predicate Covered(actions: seq<Action>, thread: int, anyThread: int) {
    exists i :: 0 <= i < |actions| && Matches(actions[i], thread, anyThread)
  }

  predicate Steps(actions: seq<Action>, thread: int, anyThread: int) {
    exists i :: 0 <= i < |actions| && Follows(actions, thread, anyThread, i) && actions[i].kind.Step?
  }

  /** Every thread has an action, and at most one thread steps. */
  predicate Reducible(actions: seq<Action>, ids: seq<int>)
    requires |ids| > 0
  {
    && (forall t :: 0 <= t < |ids| ==> Covered(actions, ids[t], ids[0]))
    && (forall t, u :: 0 <= t < u < |ids| ==> !Steps(actions, ids[t], ids[0]) || !Steps(actions, ids[u], ids[0]))
  }

  /** The plan steps precisely the thread whose leftmost action is a step. */
  predicate PlanFor(actions: seq<Action>, ids: seq<int>, plan: Plan)
    requires |ids| > 0
  {
    && (plan.kind.Step? ==> plan.stepThread in ids && Steps(actions, plan.stepThread, ids[0]))
    && (forall t :: 0 <= t < |ids| && Steps(actions, ids[t], ids[0]) ==> plan == Plan(Step, ids[t]))
    && (plan.kind.Continue? ==> plan.stepThread == ALL)
  }

  method LeftmostMatch(actions: seq<Action>, thread: int, anyThread: int) returns (matched: bool, steps: bool)
    ensures matched <==> Covered(actions, thread, anyThread)
    ensures steps <==> Steps(actions, thread, anyThread)
  {
    for i := 0 to |actions|
      invariant forall k :: 0 <= k < i ==> !Matches(actions[k], thread, anyThread)
    {
      if Matches(actions[i], thread, anyThread) {
        assert Follows(actions, thread, anyThread, i);
        return true, actions[i].kind.Step?;
      }
    }
    return false, false;
  }

  method Reduce(actions: seq<Action>, ids: seq<int>) returns (r: Option<Plan>)
    requires |ids| > 0 && ValidInventory(ids)
    ensures r.Some? <==> Reducible(actions, ids)
    ensures r.Some? ==> PlanFor(actions, ids, r.value)
  {
    var stepCount, stepThread := 0, ALL;
    ghost var stepper := 0;
    for t := 0 to |ids|
      invariant 0 <= stepCount <= 1 && (stepCount == 0 ==> stepThread == ALL)
      invariant stepCount == 1 ==> 0 <= stepper < t && ids[stepper] == stepThread && Steps(actions, stepThread, ids[0])
      invariant forall u :: 0 <= u < t ==> Covered(actions, ids[u], ids[0])
      invariant forall u :: 0 <= u < t && Steps(actions, ids[u], ids[0]) ==> stepCount == 1 && u == stepper
    {
      var matched, steps := LeftmostMatch(actions, ids[t], ids[0]);
      if steps {
        if stepCount == 1 {
          assert Steps(actions, ids[stepper], ids[0]) && Steps(actions, ids[t], ids[0]);
          return None;
        }
        stepCount, stepThread, stepper := stepCount + 1, ids[t], t;
      }
      if !matched {
        return None;
      }
    }
    return Some(Plan(if stepCount > 0 then Step else Continue, stepThread));
  }

  // ---- reading the action list ----

  /** Where the first action of the text ends. */
  function Cut(text: seq<Byte>): (n: nat)
    ensures n <= |text| && forall k :: 0 <= k < n ==> text[k] != SEMICOLON
    ensures n < |text| ==> text[n] == SEMICOLON
  {
    if |text| == 0 || text[0] == SEMICOLON then 0
    else
      var n := 1 + Cut(text[1..]);
      assert forall k :: 1 <= k < |text| ==> text[k] == text[1..][k - 1];
      n
  }

  lemma CutIs(text: seq<Byte>, n: nat)
    requires n <= |text| && (forall k :: 0 <= k < n ==> text[k] != SEMICOLON) && (n < |text| ==> text[n] == SEMICOLON)
    ensures Cut(text) == n
  {
    var cut := Cut(text);
    assert cut >= n && n >= cut;
  }

  function Parts(text: seq<Byte>): (parts: seq<seq<Byte>>)
    ensures |parts| >= 1
    decreases |text|
  {
    var n := Cut(text);
    if n == |text| then [text] else [text[..n]] + Parts(text[n + 1..])
  }

  lemma {:induction false} JoinParts(text: seq<Byte>)
    ensures Join(Parts(text)) == text
    decreases |text|
  {
    var n := Cut(text);
    if n < |text| {
      JoinParts(text[n + 1..]);
      assert Parts(text)[1..] == Parts(text[n + 1..]);
      assert text == text[..n] + [SEMICOLON] + text[n + 1..];
    }
  }

  lemma {:induction false} PartsJoin(parts: seq<seq<Byte>>)
    requires |parts| >= 1 && forall i :: 0 <= i < |parts| ==> SEMICOLON !in parts[i]
    ensures Parts(Join(parts)) == parts
  {
    var text := Join(parts);
    if |parts| == 1 {
      CutIs(text, |text|);
      assert parts == [text];
    } else {
      var n := |parts[0]|;
      assert text[..n] == parts[0] && text[n + 1..] == Join(parts[1..]);
      CutIs(text, n);
      PartsJoin(parts[1..]);
      assert parts == [parts[0]] + parts[1..];
    }
  }

  /** Nothing an action may contain separates actions or starts a frame. */
  lemma ActionCharacters(text: seq<Byte>)
    requires ActionOf(text).Some?
    ensures forall i :: 0 <= i < |text| ==> text[i] != SEMICOLON && text[i] != 0x24
  {
    if |text| > 1 {
      var thread := text[2..];
      forall i | 0 <= i < |text| ensures text[i] != SEMICOLON && text[i] != 0x24 {
        if i >= 2 {
          assert text[i] == thread[i - 2];
        }
      }
    }
  }

  /** A packet spells an action list exactly when its parts do, so it spells at most one. */
  lemma SpellsParts(packet: seq<Byte>, ids: seq<int>, actions: seq<Action>, parts: seq<seq<Byte>>)
    requires SpelledBy(packet, ids, actions, parts)
    ensures |packet| > |PREFIX| && packet[..|PREFIX|] == PREFIX && Parts(packet[|PREFIX|..]) == parts
  {
    forall i | 0 <= i < |parts| ensures SEMICOLON !in parts[i] {
      ActionCharacters(parts[i]);
    }
    PartsJoin(parts);
    assert packet[|PREFIX|..] == Join(parts);
    assert |parts[0]| > 0;
  }

  lemma SpellsOnce(packet: seq<Byte>, ids: seq<int>, first: seq<Action>, second: seq<Action>)
    requires Spells(packet, ids, first) && Spells(packet, ids, second)
    ensures first == second
  {
    var parts: seq<seq<Byte>> :| SpelledBy(packet, ids, first, parts);
    var others: seq<seq<Byte>> :| SpelledBy(packet, ids, second, others);
    SpellsParts(packet, ids, first, parts);
    SpellsParts(packet, ids, second, others);
    forall i | 0 <= i < |first| ensures first[i] == second[i] {
      assert ActionOf(parts[i]) == Some(first[i]) && ActionOf(others[i]) == Some(second[i]);
    }
  }

  /** The parts have been read into `actions`. */
  ghost predicate Reading(parts: seq<seq<Byte>>, ids: seq<int>, actions: seq<Action>) {
    |actions| == |parts| <= MAX_ACTIONS
    && forall i :: 0 <= i < |actions| ==> ActionOk(parts[i], ids) && ActionOf(parts[i]) == Some(actions[i])
  }

  method ActionEnd(packet: seq<Byte>, cursor: nat) returns (end: nat)
    requires cursor <= |packet|
    ensures cursor <= end <= |packet|
    ensures Parts(packet[cursor..]) == [packet[cursor..end]] + (if end == |packet| then [] else Parts(packet[end + 1..]))
  {
    hide Parts, Cut;
    end := cursor;
    while end < |packet| && packet[end] != SEMICOLON
      invariant cursor <= end <= |packet| && forall k :: cursor <= k < end ==> packet[k] != SEMICOLON
    {
      end := end + 1;
    }
    PartStarts(packet, cursor, end);
  }

  /** The packet names the command. */
  predicate Headed(packet: seq<Byte>) {
    |packet| > |PREFIX| && packet[..|PREFIX|] == PREFIX
  }

  /** `actions` have been read off the packet, and `rest` is still to come. */
  ghost predicate Reached(packet: seq<Byte>, ids: seq<int>, actions: seq<Action>, done: seq<seq<Byte>>, rest: seq<seq<Byte>>) {
    Headed(packet) && Reading(done, ids, actions) && Parts(packet[|PREFIX|..]) == done + rest
  }

  lemma ReachesNext(packet: seq<Byte>, ids: seq<int>, actions: seq<Action>, done: seq<seq<Byte>>, text: seq<Byte>, rest: seq<seq<Byte>>, action: Action)
    requires Reached(packet, ids, actions, done, [text] + rest) && |actions| < MAX_ACTIONS
    requires ActionOk(text, ids) && ActionOf(text) == Some(action)
    ensures Reached(packet, ids, actions + [action], done + [text], rest)
  {
    assert done + ([text] + rest) == (done + [text]) + rest;
  }

  lemma Refused(packet: seq<Byte>, ids: seq<int>, actions: seq<Action>, done: seq<seq<Byte>>, text: seq<Byte>, rest: seq<seq<Byte>>)
    requires Reached(packet, ids, actions, done, [text] + rest)
    requires |actions| >= MAX_ACTIONS || text == [] || !ActionOk(text, ids)
    ensures forall others :: !Spells(packet, ids, others)
  {
    assert Parts(packet[|PREFIX|..])[|done|] == text;
    PartRefused(packet, ids, |done|);
  }

  method ParseActions(packet: seq<Byte>, ids: seq<int>) returns (r: Option<seq<Action>>)
    ensures r.Some? ==> Spells(packet, ids, r.value)
    ensures r.None? ==> forall actions :: !Spells(packet, ids, actions)
  {
    hide Parts, Cut, Join, Spells, SpelledBy, ActionOf, Reading, Reached;
    if !Headed(packet) {
      NotSpelled(packet, ids);
      return None;
    }
    ghost var done, rest := [], Parts(packet[|PREFIX|..]);
    var actions: seq<Action> := [];
    var cursor := |PREFIX|;
    ReadingStarts(packet, ids);
    while cursor < |packet|
      invariant cursor < |packet| && rest == Parts(packet[cursor..])
      invariant Reached(packet, ids, actions, done, rest)
    {
      var end := ActionEnd(packet, cursor);
      var text := packet[cursor..end];
      rest := if end == |packet| then [] else Parts(packet[end + 1..]);
      if end == cursor || |actions| >= MAX_ACTIONS {
        Refused(packet, ids, actions, done, text, rest);
        return None;
      }
      var action := ParseAction(text);
      if action.None? || (action.value.named && action.value.thread > 0 && action.value.thread !in ids) {
        Refused(packet, ids, actions, done, text, rest);
        return None;
      }
      ReachesNext(packet, ids, actions, done, text, rest, action.value);
      actions, done := actions + [action.value], done + [text];
      if end == |packet| {
        break;
      }
      cursor := end + 1;
      if cursor == |packet| {
        LastPartEmpty(packet);
        Refused(packet, ids, actions, done, [], []);
        return None;
      }
    }
    AllRead(packet, ids, actions, done);
    return Some(actions);
  }

  lemma ReadingStarts(packet: seq<Byte>, ids: seq<int>)
    requires Headed(packet)
    ensures Reached(packet, ids, [], [], Parts(packet[|PREFIX|..]))
  {
  }

  lemma AllRead(packet: seq<Byte>, ids: seq<int>, actions: seq<Action>, done: seq<seq<Byte>>)
    requires Reached(packet, ids, actions, done, [])
    ensures Spells(packet, ids, actions)
  {
    var text := packet[|PREFIX|..];
    JoinParts(text);
    assert packet == PREFIX + text && done + [] == done;
    assert SpelledBy(packet, ids, actions, Parts(text));
  }

  lemma NotSpelled(packet: seq<Byte>, ids: seq<int>)
    requires !Headed(packet)
    ensures forall actions :: !Spells(packet, ids, actions)
  {
    forall actions ensures !Spells(packet, ids, actions) {
      if Spells(packet, ids, actions) {
        var parts: seq<seq<Byte>> :| SpelledBy(packet, ids, actions, parts);
        SpellsParts(packet, ids, actions, parts);
      }
    }
  }

  lemma PartStarts(packet: seq<Byte>, cursor: nat, end: nat)
    requires cursor <= end <= |packet| && (forall k :: cursor <= k < end ==> packet[k] != SEMICOLON) && (end < |packet| ==> packet[end] == SEMICOLON)
    ensures Parts(packet[cursor..]) == [packet[cursor..end]] + (if end == |packet| then [] else Parts(packet[end + 1..]))
  {
    var rest := packet[cursor..];
    assert rest[..end - cursor] == packet[cursor..end];
    CutIs(rest, end - cursor);
    if end == |packet| {
      assert rest == packet[cursor..end];
    } else {
      assert rest[end - cursor + 1..] == packet[end + 1..];
    }
  }

  lemma LastPartEmpty(packet: seq<Byte>)
    ensures Parts(packet[|packet|..]) == [[]]
  {
    assert packet[|packet|..] == [];
  }

  lemma PartRefused(packet: seq<Byte>, ids: seq<int>, n: nat)
    requires |packet| > |PREFIX| && n < |Parts(packet[|PREFIX|..])|
    requires n >= MAX_ACTIONS || Parts(packet[|PREFIX|..])[n] == [] || !ActionOk(Parts(packet[|PREFIX|..])[n], ids)
    ensures forall actions :: !Spells(packet, ids, actions)
  {
    forall actions ensures !Spells(packet, ids, actions) {
      if Spells(packet, ids, actions) {
        var parts: seq<seq<Byte>> :| SpelledBy(packet, ids, actions, parts);
        SpellsParts(packet, ids, actions, parts);
      }
    }
  }

  /** A `vCont` packet is accepted exactly when it spells a reducible action list over a proper
      inventory, and then the plan steps precisely the thread that list steps. */
  method ParseVCont(packet: seq<Byte>, ids: seq<int>) returns (r: Option<Plan>)
    ensures r.Some? <==> |ids| > 0 && ValidInventory(ids) && exists actions :: Spells(packet, ids, actions) && Reducible(actions, ids)
    ensures r.Some? ==> forall actions :: Spells(packet, ids, actions) ==> PlanFor(actions, ids, r.value)
  {
    var valid := InventoryValid(ids);
    if !valid || |ids| == 0 {
      return None;
    }
    var actions := ParseActions(packet, ids);
    if actions.None? {
      return None;
    }
    forall others | Spells(packet, ids, others) ensures others == actions.value {
      SpellsOnce(packet, ids, others, actions.value);
    }
    r := Reduce(actions.value, ids);
  }

  // ---- printing action lists ----

  /** The hexadecimal digits of a number, in ASCII, without leading zeros. */
  function PrintNumber(n: nat): (text: seq<Byte>)
    ensures |text| >= 1
  {
    var digit: Byte := if n % 16 < 10 then 0x30 + n % 16 else 0x61 + n % 16 - 10;
    if n < 16 then [digit] else PrintNumber(n / 16) + [digit]
  }

  /** An action a client can ask for: a bare one is for all threads. */
  predicate Printable(a: Action) {
    -1 <= a.thread <= 0x7fff_ffff && (!a.named ==> a.thread == -1)
  }

  /** `c` or `s`, and after a colon `-1` or the number of the thread. */
  function PrintAction(a: Action): seq<Byte>
    requires Printable(a)
  {
    var letter: Byte := match a.kind case Continue => 0x63 case Step => 0x73;
    if !a.named then [letter]
    else [letter, 0x3a] + if a.thread == -1 then [0x2d, 0x31] else PrintNumber(a.thread)
  }

  function PrintActions(actions: seq<Action>): seq<Byte>
    requires |actions| > 0 && forall i :: 0 <= i < |actions| ==> Printable(actions[i])
  {
    if |actions| == 1 then PrintAction(actions[0])
    else PrintAction(actions[0]) + [0x3b] + PrintActions(actions[1..])
  }

  /** The packet `vCont;` and the actions between semicolons, in ASCII. */
  function PrintPacket(actions: seq<Action>): seq<Byte>
    requires |actions| > 0 && forall i :: 0 <= i < |actions| ==> Printable(actions[i])
  {
    [0x76, 0x43, 0x6f, 0x6e, 0x74, 0x3b] + PrintActions(actions)
  }

  lemma {:induction false} PrintedNumber(n: nat, digits: nat)
    requires digits > 0 && n < Power16(digits)
    ensures |PrintNumber(n)| <= digits && Hex.AllHex(PrintNumber(n)) && Number(PrintNumber(n)) == n
  {
    var text := PrintNumber(n);
    if n < 16 {
      assert text[..0] == [];
    } else {
      assert digits > 1;
      PrintedNumber(n / 16, digits - 1);
      assert text[..|text| - 1] == PrintNumber(n / 16);
    }
  }

  /** A printed action is read back. */
  lemma PrintedAction(a: Action)
    requires Printable(a)
    ensures ActionOf(PrintAction(a)) == Some(a)
  {
    var text := PrintAction(a);
    if a.named {
      if a.thread == -1 {
        assert text[2..] == [0x2d, 0x31];
      } else {
        EightDigits();
        PrintedNumber(a.thread, 8);
        assert text[2..] == PrintNumber(a.thread);
        assert text[2..] != [0x2d, 0x31] by {
          assert Hex.Value(0x2d).None?;
        }
      }
    }
  }

  function PrintedParts(actions: seq<Action>): seq<seq<Byte>>
    requires forall i :: 0 <= i < |actions| ==> Printable(actions[i])
  {
    seq(|actions|, i requires 0 <= i < |actions| => PrintAction(actions[i]))
  }

  lemma {:induction false} PrintedJoin(actions: seq<Action>)
    requires |actions| > 0 && forall i :: 0 <= i < |actions| ==> Printable(actions[i])
    ensures Join(PrintedParts(actions)) == PrintActions(actions)
  {
    var parts := PrintedParts(actions);
    if |actions| > 1 {
      PrintedJoin(actions[1..]);
      assert parts[1..] == PrintedParts(actions[1..]);
    }
  }

  /** Every list of actions a client can ask for is what its printed packet spells, and the only
      thing it spells. */
  lemma PrintSpells(actions: seq<Action>, ids: seq<int>)
    requires 1 <= |actions| <= 65 && forall i :: 0 <= i < |actions| ==> Printable(actions[i])
    requires forall i :: 0 <= i < |actions| && actions[i].named && actions[i].thread > 0 ==> actions[i].thread in ids
    ensures Spells(PrintPacket(actions), ids, actions)
    ensures forall others :: Spells(PrintPacket(actions), ids, others) ==> others == actions
  {
    var parts := PrintedParts(actions);
    forall i | 0 <= i < |parts| ensures ActionOk(parts[i], ids) && ActionOf(parts[i]) == Some(actions[i]) {
      PrintedAction(actions[i]);
    }
    PrintedJoin(actions);
    assert SpelledBy(PrintPacket(actions), ids, actions, parts);
    forall others | Spells(PrintPacket(actions), ids, others) ensures others == actions {
      SpellsOnce(PrintPacket(actions), ids, others, actions);
    }
  }

  /** Parsing what a client prints plans what the client asked for. */
  method ParsePrinted(actions: seq<Action>, ids: seq<int>) returns (r: Option<Plan>)
    requires 1 <= |actions| <= 65 && forall i :: 0 <= i < |actions| ==> Printable(actions[i])
    requires forall i :: 0 <= i < |actions| && actions[i].named && actions[i].thread > 0 ==> actions[i].thread in ids
    ensures r.Some? <==> |ids| > 0 && ValidInventory(ids) && Reducible(actions, ids)
    ensures r.Some? ==> PlanFor(actions, ids, r.value)
  {
    hide Spells, PrintPacket, PlanFor, Reducible;
    PrintSpells(actions, ids);
    r := ParseVCont(PrintPacket(actions), ids);
  }

  // ---- the requests clients make ----

  /** Step one thread and let the others go on: `vCont;s:t;c`. */
  lemma StepOneThread(ids: seq<int>, thread: int, plan: Plan)
    requires |ids| > 0 && ValidInventory(ids) && thread in ids
    ensures var actions := [Action(Step, thread, true), Action(Continue, -1, false)];
      Reducible(actions, ids) && (PlanFor(actions, ids, plan) <==> plan == Plan(Step, thread))
  {
    var actions := [Action(Step, thread, true), Action(Continue, -1, false)];
    forall t | 0 <= t < |ids| ensures Covered(actions, ids[t], ids[0]) && (Steps(actions, ids[t], ids[0]) <==> ids[t] == thread) {
      assert Matches(actions[1], ids[t], ids[0]);
      if ids[t] == thread {
        assert Follows(actions, ids[t], ids[0], 0);
      }
    }
    var t :| 0 <= t < |ids| && ids[t] == thread;
  }

  /** `vCont;s:0;c` steps the first thread of the inventory. */
  lemma StepAnyThread(ids: seq<int>, plan: Plan)
    requires |ids| > 0 && ValidInventory(ids)
    ensures var actions := [Action(Step, 0, true), Action(Continue, -1, false)];
      Reducible(actions, ids) && (PlanFor(actions, ids, plan) <==> plan == Plan(Step, ids[0]))
  {
    var actions := [Action(Step, 0, true), Action(Continue, -1, false)];
    forall t | 0 <= t < |ids| ensures Covered(actions, ids[t], ids[0]) && (Steps(actions, ids[t], ids[0]) <==> t == 0) {
      assert Matches(actions[1], ids[t], ids[0]);
      if t == 0 {
        assert Follows(actions, ids[t], ids[0], 0);
      }
    }
  }

  /** `vCont;c` lets every thread go on; `vCont;s` is accepted for a single thread only. An earlier
      action for all threads hides every later one. */
  lemma PlainRequests(ids: seq<int>, plan: Plan, later: seq<Action>)
    requires |ids| > 0 && ValidInventory(ids)
    ensures var actions := [Action(Continue, -1, false)] + later;
      Reducible(actions, ids) && (PlanFor(actions, ids, plan) <==> plan == Plan(Continue, -1))
    ensures var actions := [Action(Step, -1, true)] + later;
      (Reducible(actions, ids) <==> |ids| == 1) && (|ids| == 1 ==> (PlanFor(actions, ids, plan) <==> plan == Plan(Step, ids[0])))
  {
    var plain, steps := [Action(Continue, -1, false)] + later, [Action(Step, -1, true)] + later;
    forall t | 0 <= t < |ids|
      ensures Covered(plain, ids[t], ids[0]) && !Steps(plain, ids[t], ids[0])
      ensures Covered(steps, ids[t], ids[0]) && Steps(steps, ids[t], ids[0])
    {
      assert Matches(plain[0], ids[t], ids[0]) && Matches(steps[0], ids[t], ids[0]);
      assert Follows(steps, ids[t], ids[0], 0);
    }
    if |ids| > 1 {
      assert Steps(steps, ids[0], ids[0]) && Steps(steps, ids[1], ids[0]);
    }
  }
}

/** The packets that resume the target hold nothing that could start a frame. */
module ResumePackets {
  import opened Bytes
  import opened RspFrame
  import Hex
  import RspReceive
  import VCont

  /** What the dispatcher accepts as a resume: `c` or `s`, alone or with an address, or `vCont`. */
  ghost predicate Resumes(payload: seq<Byte>, ids: seq<int>) {
    || (|payload| > 0 && payload[0] in [VCont.LETTER_C, VCont.LETTER_S] && (|payload| == 1 || VCont.IsNumber(payload[1..])))
    || exists actions :: VCont.Spells(payload, ids, actions)
  }

  lemma {:induction false} JoinCharacters(parts: seq<seq<Byte>>)
    requires forall i :: 0 <= i < |parts| ==> VCont.ActionOf(parts[i]).Some?
    ensures DOLLAR !in VCont.Join(parts)
  {
    if |parts| > 0 {
      VCont.ActionCharacters(parts[0]);
      if |parts| > 1 {
        JoinCharacters(parts[1..]);
      }
    }
  }

  lemma ResumeCharacters(payload: seq<Byte>, ids: seq<int>)
    requires Resumes(payload, ids)
    ensures |payload| >= 1 && DOLLAR !in payload
  {
    if actions :| VCont.Spells(payload, ids, actions) {
      var parts: seq<seq<Byte>> :| VCont.SpelledBy(payload, ids, actions, parts);
      JoinCharacters(parts);
    } else {
      forall i | 0 <= i < |payload| ensures payload[i] != DOLLAR {
        if i > 0 {
          assert payload[i] == payload[1..][i - 1];
        }
      }
    }
  }

  /** Overwriting an accepted resume in place leaves one status query and nothing else. */
  lemma ResumeLeavesStatusQuery(limit: nat, payload: seq<Byte>, ids: seq<int>, high: Byte, low: Byte, rest: seq<Byte>)
    requires Resumes(payload, ids) && |payload| <= limit && Checks(payload, high, low)
    ensures Run(limit, Hunt, RspReceive.Overwritten(Framed(payload, high, low), false) + rest) ==
      Then(Trace(Hunt, [Packet([0x3f])]), Run(limit, Hunt, rest))
  {
    hide Run, Sum;
    ResumeCharacters(payload, ids);
    var frame := Framed(payload, high, low);
    forall i | 5 <= i < |frame| - 3 ensures frame[i] != DOLLAR {
      assert frame[i] == payload[i - 1];
    }
    RspReceive.OverwriteIsStatusQuery(limit, frame, false, rest);
  }

  /** So does overwriting any File-I/O reply, whatever it carries. */
  lemma FileReplyLeavesStatusQuery(limit: nat, payload: seq<Byte>, high: Byte, low: Byte, rest: seq<Byte>)
    requires 1 <= |payload| <= limit && Checks(payload, high, low)
    ensures Run(limit, Hunt, RspReceive.Overwritten(Framed(payload, high, low), true) + rest) ==
      Then(Trace(Hunt, [Packet([0x3f])]), Run(limit, Hunt, rest))
  {
    hide Run, Sum;
    RspReceive.OverwriteIsStatusQuery(limit, Framed(payload, high, low), true, rest);
  }
}
