/**
 * Releasing the all-stop. While the kernel holds every thread stopped, the debugger may have
 * patched executable memory; a release that is not a resume (detach, lost client, server stop,
 * shutdown) must put the program back first, and keep the stop when it cannot.
 *
 * Kernel calls may fail in any way. `ends` records, for every EndStop call ever made, what was
 * still owed at that moment. `served` remembers whether every kernel call and transmission so far
 * succeeded: what must happen then is stated beside what holds regardless.
 */
module StopCleanup {
  import opened Bytes
  import opened PatchState
  import opened CodePatch
  import Hex

  /** Why a resume happens: a plan (`c`, `s`, `vCont`) or the answer to a File-I/O request (`F`). */
  datatype Cause = Plan | Reply

  datatype EndCall =
    | Release(clear: bool)                                // nothing left to restore
    | Resume(cause: Cause, certain: bool, written: bool)  // no slot uncertain; no memory write pending

  predicate NothingPending(tx: Transaction, rearm: seq<Entry>) {
    tx.Idle? && |rearm| == 0
  }

  /** What a File-I/O reply logs: it settles nothing before the target goes on. */
  function ReplyEntry(slots: seq<Breakpoint>, tx: Transaction, rearm: seq<Entry>): EndCall {
    Resume(Reply, CertainSlots(slots), NothingPending(tx, rearm))
  }

  /** What a plan logs: it settles the slots, and does not look at a pending write. */
  function PlanEntry(tx: Transaction, rearm: seq<Entry>): EndCall {
    Resume(Plan, true, NothingPending(tx, rearm))
  }

  predicate SafeEnd(e: EndCall) {
    if e.Release? then e.clear else e.cause.Plan? ==> e.certain
  }

  predicate FullEnd(e: EndCall) {
    e.Resume? ==> e.certain && e.written
  }

  /** `after` adds only safe calls to `before`. */
  ghost predicate SafelyExtends(before: seq<EndCall>, after: seq<EndCall>) {
    before <= after && forall k :: |before| <= k < |after| ==> SafeEnd(after[k])
  }

  /** Every resume it adds leaves nothing in doubt. */
  ghost predicate FullyExtends(before: seq<EndCall>, after: seq<EndCall>) {
    before <= after && forall k :: |before| <= k < |after| ==> FullEnd(after[k])
  }

  /** It adds no resume at all. */
  ghost predicate OnlyReleases(before: seq<EndCall>, after: seq<EndCall>) {
    before <= after && forall k :: |before| <= k < |after| ==> after[k].Release?
  }

  lemma ExtendsTwice(first: seq<EndCall>, second: seq<EndCall>, third: seq<EndCall>)
    ensures SafelyExtends(first, second) && SafelyExtends(second, third) ==> SafelyExtends(first, third)
    ensures FullyExtends(first, second) && FullyExtends(second, third) ==> FullyExtends(first, third)
    ensures FullyExtends(first, second) && OnlyReleases(second, third) ==> FullyExtends(first, third)
  {
    if first <= second && second <= third {
      assert forall k :: 0 <= k < |second| ==> third[k] == second[k];
    }
  }

  lemma ExtendsItself(calls: seq<EndCall>)
    ensures SafelyExtends(calls, calls) && FullyExtends(calls, calls)
  {
  }

  /** Every resume it adds is this one. */
  ghost predicate ResumesAs(before: seq<EndCall>, after: seq<EndCall>, e: EndCall) {
    before <= after && forall k :: |before| <= k < |after| ==> after[k].Release? || after[k] == e
  }

  /** A plan to resume. `valid` says that validation and step planning accept it; a step plants
      one temporary trap of the given size. */
  datatype Step = Nowhere | At(address: nat, size: nat)

  datatype Packet =
    | Query                                                  // any request that only refreshes the inventory
    | Write(address: nat, data: seq<Byte>, size: nat)        // M
    | Insert(address: nat, size: nat)                        // Z0
    | Remove(address: nat)                                   // z0
    | Detach                                                 // D
    | Go(valid: bool, step: Step, holdPeers: bool)           // c, s, vCont
    | FileReply(wellFormed: bool, interrupted: bool)         // F: the target goes on, unless interrupted

  /** The only packets that may end a session in which nothing fails. */
  predicate MayEnd(packet: Packet) {
    packet.Detach? || packet.Go? || packet.FileReply?
  }

  /** The image after a packet: only an `M` that was answered OK shows. */
  ghost function ImageServed(image: seq<Byte>, packet: Packet, done: bool): (r: seq<Byte>)
    requires |image| == ADDRESS_SPACE
    ensures |r| == ADDRESS_SPACE
  {
    match packet
    case Write(address, data, size) => ImageStep(image, WriteMemory(address, data, size), if done then 0 else -1)
    case _ => image
  }

  ghost function ImageThrough(image: seq<Byte>, packets: seq<Packet>, done: seq<bool>): (r: seq<Byte>)
    requires |image| == ADDRESS_SPACE && |packets| == |done|
    ensures |r| == ADDRESS_SPACE
  {
    if |packets| == 0 then image
    else
      var n := |packets| - 1;
      ImageServed(ImageThrough(image, packets[..n], done[..n]), packets[n], done[n])
  }

  lemma ThroughNext(image: seq<Byte>, packets: seq<Packet>, done: seq<bool>, answer: bool)
    requires |image| == ADDRESS_SPACE && |done| < |packets|
    ensures |packets[..|done| + 1]| == |done + [answer]|
    ensures ImageThrough(image, packets[..|done| + 1], done + [answer]) ==
      ImageServed(ImageThrough(image, packets[..|done|], done), packets[|done|], answer)
  {
    hide ImageServed;
    assert packets[..|done| + 1][..|done|] == packets[..|done|] && (done + [answer])[..|done|] == done;
  }

  lemma ThroughNone(image: seq<Byte>, packets: seq<Packet>)
    requires |image| == ADDRESS_SPACE
    ensures ImageThrough(image, packets[..0], []) == image
  {
  }

  /** The table with every uncertain breakpoint taken out. */
  ghost function SettledTable(slots: seq<Breakpoint>): seq<Breakpoint> {
    seq(|slots|, i requires 0 <= i < |slots| => if slots[i].slot.Pending? then CLEAR else slots[i])
  }

  /** The table once a plan has been prepared: breakpoints in place are kept, and the only new
      entry is the step trap. */
  ghost predicate StepPlanted(before: seq<Breakpoint>, after: seq<Breakpoint>, step: Step) {
    && |before| == |after|
    && (forall i :: 0 <= i < |before| && before[i].slot.Installed? ==> after[i] == before[i])
    && (forall i :: 0 <= i < |after| && !after[i].slot.Empty? && !before[i].slot.Installed? ==>
          || (before[i].slot.Pending? && EntryOf(after[i]) == EntryOf(before[i]))
          || (step.At? && EntryOf(after[i]) == Entry(Even(step.address), step.size, true)))
  }

  class StopSession {
    const patches: Debugger
    var token: nat
    var failed: bool
    var owned: bool
    ghost var ends: seq<EndCall>
    ghost var served: bool
    /** The kernel accepted the latest renewal. */
    ghost var renewed: bool

    /** A stop session that a packet can be served in. */
    ghost predicate Current()
      reads this`token, this`failed
    {
      token != 0 && !failed
    }

    ghost predicate Valid()
      reads patches
    {
      patches.TableValid()
    }

    /** Nothing is left to restore. */
    ghost predicate Clear()
      reads patches`slots, patches`tx, patches`rearm
    {
      !patches.HasPendingWrite() && forall i :: 0 <= i < |patches.slots| ==> patches.slots[i].slot.Empty?
    }

    ghost predicate Certain()
      reads patches`slots
    {
      CertainSlots(patches.slots)
    }

    /** A pending write can be undone: its breakpoints have somewhere to go back to. */
    ghost predicate Restorable()
      reads patches`slots, patches`rearm
    {
      Room(patches.slots, patches.rearm)
    }

    /** Kernel, connection and target have done all that was asked of them. */
    ghost predicate Smooth()
      reads this`served, patches`obeyed
    {
      served && patches.obeyed
    }

    /** Nothing is in doubt: every slot is certain and no memory write is pending. */
    ghost predicate Ready()
      reads patches`slots, patches`tx, patches`rearm
    {
      Certain() && !patches.HasPendingWrite()
    }

    constructor (memory: seq<Byte>)
      requires |memory| == ADDRESS_SPACE
      ensures Valid() && fresh(patches) && Clear() && !owned && ends == [] && Smooth()
    {
      patches := new Debugger(memory);
      token, failed, owned, ends, served, renewed := 0, false, false, [], true, true;
    }

    /** With nothing owed, the target runs its own program. */
    lemma ClearRunsImage()
      requires Valid() && Clear()
      ensures patches.memory == patches.Image()
    {
      EmptySlotsRecover(patches.memory, patches.slots, patches.code);
    }

    // ---- controller ownership: a claim made while owning would spin forever ----

    method Claim()
      requires !owned
      modifies this`owned
      ensures owned
    {
      owned := true;
    }

    method ReleaseOwner()
      requires owned
      modifies this`owned
      ensures !owned
    {
      owned := false;
    }

    // ---- kernel calls ----

    method KernelRenew() returns (status: int)
      modifies this`served, this`renewed
      ensures served <==> old(served) && status >= 0
      ensures renewed <==> status >= 0
    {
      status := *;
      served, renewed := served && status >= 0, status >= 0;
    }

    method KernelBegin() returns (status: int, granted: nat)
      modifies this`served
      ensures served <==> old(served) && status >= 0 && granted != 0
    {
      status := *;
      granted := *;
      served := served && status >= 0 && granted != 0;
    }

    method KernelEnd(ghost call: EndCall) returns (status: int)
      modifies this`ends, this`served
      ensures ends == old(ends) + [call]
      ensures served <==> old(served) && status >= 0
    {
      status := *;
      ends := ends + [call];
      served := served && status >= 0;
    }

    /** Sending an answer, borrowing the packet, copying the thread inventory. */
    method Attempt() returns (ok: bool)
      modifies this`served
      ensures served <==> old(served) && ok
    {
      ok := *;
      served := served && ok;
    }

    /** Prove the session current, or begin a new one; the failed flag says how it went. */
    method RecoverStop() returns (ok: bool)
      requires owned
      modifies this`token, this`failed, this`served, this`renewed
      ensures ok ==> Current()
      ensures !ok ==> failed && token == old(token)
      ensures served ==> old(served) && ok
      ensures old(token) != 0 && renewed ==> ok && token == old(token)
    {
      if token != 0 {
        var renewed := KernelRenew();
        if renewed >= 0 {
          failed := false;
          return true;
        }
      }
      var status, granted := KernelBegin();
      if status >= 0 && granted != 0 {
        failed := false;
        token := granted;
        return true;
      }
      failed := true;
      return false;
    }

    /** End the stop, or come back with it recovered. One EndStop call at most. */
    method EndStop(ghost call: EndCall) returns (result: int)
      requires owned
      modifies this`token, this`failed, this`ends, this`served, this`renewed
      ensures ends == if old(token) == 0 then old(ends) else old(ends) + [call]
      ensures result == 0 ==> token == 0 && !failed
      ensures result == -2 ==> failed && token == old(token) != 0
      ensures result == -1 && old(token) != 0 ==> Current()
      ensures old(token) == 0 ==> token == 0 && failed == old(failed) && result == if failed then -1 else 0
      ensures -2 <= result <= 0
      ensures served ==> old(served) && (old(token) != 0 ==> result == 0)
    {
      if token == 0 {
        return if failed then -1 else 0;
      }
      var status := KernelEnd(call);
      if status >= 0 {
        token, failed := 0, false;
        return 0;
      }
      var recovered := RecoverStop();
      return if recovered then -1 else -2;
    }

    method AbandonStop()
      requires owned
      modifies this`token, this`failed
      ensures token == 0 && failed
    {
      token, failed := 0, true;
    }

    method RefreshInventory() returns (ok: bool)
      requires owned
      modifies this`failed, this`served, this`renewed
      ensures ok ==> Current()
      ensures old(failed) || token == 0 ==> !ok && failed
      ensures old(Current()) ==> failed == !renewed
      ensures served ==> old(served) && (ok <==> old(Current()))
    {
      if failed {
        return false;
      }
      if token == 0 {
        failed := true;
        return false;
      }
      var renewed := KernelRenew();
      if renewed < 0 {
        failed := true;
        return false;
      }
      ok := Attempt();
    }

    /** Put a pending write back. Target memory is touched only while the stop is coherent. */
    method RestoreWrite() returns (ok: bool)
      requires Valid() && (Current() || !patches.HasPendingWrite())
      modifies patches
      ensures Valid() && patches.Image() == old(patches.Image())
      ensures ok <==> !patches.HasPendingWrite()
      ensures !old(patches.HasPendingWrite()) ==> ok && patches.slots == old(patches.slots)
      ensures patches.obeyed ==> old(patches.obeyed) && (old(Restorable()) ==> ok)
    {
      var written := patches.RestorePendingWrite();
      return written >= 0;
    }

    /** Take every breakpoint out, again only while the stop is coherent. */
    method RemoveEvery() returns (ok: bool)
      requires Valid() && !patches.HasPendingWrite()
      requires Current() || forall i :: 0 <= i < |patches.slots| ==> patches.slots[i].slot.Empty?
      modifies patches
      ensures Valid() && patches.Image() == old(patches.Image())
      ensures ok <==> Clear()
      ensures patches.obeyed ==> old(patches.obeyed) && ok
      ensures old(Clear()) ==> ok
    {
      var removed := patches.RemoveAll();
      return removed >= 0;
    }

    /** Finish every obligation; only then is it safe to let the target go. */
    method RestoreEverything() returns (ok: bool)
      requires Valid() && Current()
      modifies patches
      ensures Valid() && patches.Image() == old(patches.Image())
      ensures ok ==> Clear()
      ensures patches.obeyed ==> old(patches.obeyed) && (old(Restorable()) ==> ok)
    {
      ok := RestoreWrite();
      if ok {
        ok := RemoveEvery();
      }
    }

    // ---- cleanup paths ----

    /** The client is lost. Restore under a coherent stop and release, or keep the stop. The
        ownership held on entry is given back on every path. */
    method FailStoppedClientOwned() returns (running: bool)
      requires Valid() && owned
      modifies this, patches
      ensures Valid() && !owned && patches.Image() == old(patches.Image())
      ensures SafelyExtends(old(ends), ends)
      ensures OnlyReleases(old(ends), ends)
      ensures running ==> Clear()
      ensures !running ==> token != 0 || failed || !Clear()
      ensures running ==> token == 0
      ensures (served ==> old(served)) && (patches.obeyed ==> old(patches.obeyed))
      ensures Smooth() && old(Restorable()) ==> running && !failed
    {
      var active := patches.ActiveCount();
      var restoreRequired := active != 0 || patches.HasPendingWrite();
      var coherent := true;
      if token == 0 || failed {
        coherent := RecoverStop();
      }
      if !coherent && restoreRequired {
        ReleaseOwner();
        return false;
      }
      if coherent {
        var restored := RestoreEverything();
        if !restored {
          ReleaseOwner();
          return false;
        }
      }
      ghost var first := ReleaseStop();
      ReleaseOwner();
      return true;
    }

    /** Release with nothing owed: one retry while the stop is still coherent, then give it up. */
    method ReleaseStop() returns (ghost first: int)
      requires Valid() && owned && Clear()
      modifies this`token, this`failed, this`ends, this`served, this`renewed, patches
      ensures Valid() && Clear() && patches.Image() == old(patches.Image())
      ensures SafelyExtends(old(ends), ends)
      ensures OnlyReleases(old(ends), ends)
      ensures token == 0
      ensures (served ==> old(served)) && (patches.obeyed ==> old(patches.obeyed))
      ensures served && (old(token) != 0 || !old(failed)) ==> !failed
      ensures old(token) != 0 ==> |ends| == |old(ends)| + if first == -1 then 2 else 1
    {
      var result := EndStop(Release(Clear()));
      first := result;
      if result < 0 && token != 0 && !failed {
        // The source repeats the removal; with every slot empty it has nothing left to do.
        var again := RemoveEvery();
        assert again;
        result := EndStop(Release(Clear()));
      }
      if result < 0 && token != 0 {
        AbandonStop();
      }
    }

    method FailStoppedClient() returns (running: bool)
      requires Valid() && !owned
      modifies this, patches
      ensures Valid() && !owned && patches.Image() == old(patches.Image())
      ensures SafelyExtends(old(ends), ends)
      ensures OnlyReleases(old(ends), ends)
      ensures running ==> Clear() && token == 0
      ensures (served ==> old(served)) && (patches.obeyed ==> old(patches.obeyed))
      ensures Smooth() && old(Restorable()) ==> running && !failed
    {
      Claim();
      running := FailStoppedClientOwned();
    }

    /** Claim the session for one operation, proving it current first. */
    method BeginOperation() returns (ok: bool)
      requires Valid() && !owned
      modifies this, patches
      ensures Valid() && patches.Image() == old(patches.Image())
      ensures SafelyExtends(old(ends), ends)
      ensures OnlyReleases(old(ends), ends)
      ensures owned == ok
      ensures ok ==> Current() && token == old(token) && ends == old(ends)
      ensures (served ==> old(served)) && (patches.obeyed ==> old(patches.obeyed))
      ensures served && old(Current()) ==> ok
      ensures ok ==> patches.memory == old(patches.memory) && patches.obeyed == old(patches.obeyed)
      ensures ok ==> patches.slots == old(patches.slots) && patches.tx == old(patches.tx) && patches.rearm == old(patches.rearm)
    {
      Claim();
      ok := RefreshInventory();
      if !ok {
        var ignored := FailStoppedClientOwned();
      }
    }

    /** `D`: restore, then release; a failed release goes through the lost-client path. */
    method DetachClient() returns (detached: bool)
      requires Valid() && !owned
      modifies this, patches
      ensures Valid() && !owned && patches.Image() == old(patches.Image())
      ensures SafelyExtends(old(ends), ends)
      ensures OnlyReleases(old(ends), ends)
      ensures detached ==> token == 0 && !failed && Clear() && |ends| > |old(ends)|
      ensures (served ==> old(served)) && (patches.obeyed ==> old(patches.obeyed))
      ensures Smooth() && old(Current() && Restorable()) ==> detached
    {
      var ok := BeginOperation();
      if !ok {
        return false;
      }
      var restored := RestoreEverything();
      if !restored {
        var ignored := FailStoppedClientOwned();
        return false;
      }
      var result := EndStop(Release(Clear()));
      if result < 0 {
        var ignored := FailStoppedClientOwned();
        return false;
      }
      ReleaseOwner();
      return true;
    }

    /** The end of `uvdb_stop_server`, after the server thread has been joined. */
    method StopServerCleanup() returns (ok: bool)
      requires Valid() && !owned
      modifies this, patches
      ensures Valid() && !owned && patches.Image() == old(patches.Image())
      ensures SafelyExtends(old(ends), ends)
      ensures OnlyReleases(old(ends), ends)
      ensures ok ==> Clear() && token == 0 && !failed
      ensures (served ==> old(served)) && (patches.obeyed ==> old(patches.obeyed))
      ensures Smooth() && old(Restorable()) ==> ok
    {
      var active := patches.ActiveCount();
      ok := true;
      if patches.HasPendingWrite() || active != 0 || token != 0 || failed {
        Claim();
        ok := RecoverStop();
        if ok {
          ok := RestoreEverything();
        }
        if ok {
          var result := EndStop(Release(Clear()));
          ok := result >= 0;
        }
        ReleaseOwner();
      }
    }

    /** End the stop with nothing owed, trying once more when it came back coherent. */
    method EndTwice() returns (ok: bool)
      requires owned && Clear()
      modifies this`token, this`failed, this`ends, this`served, this`renewed
      ensures SafelyExtends(old(ends), ends) && OnlyReleases(old(ends), ends)
      ensures ok ==> token == 0 && !failed
      ensures !ok && Current() ==> |ends| == |old(ends)| + 2
      ensures (served ==> old(served)) && (served && old(token) != 0 ==> ok)
    {
      var result := EndStop(Release(Clear()));
      if result < 0 && token != 0 && !failed {
        result := EndStop(Release(Clear()));
      }
      return result >= 0;
    }

    /** The restore part of `uvdb_shutdown`; false leaves everything in place for a retry. */
    method ShutdownCleanup() returns (ok: bool, ghost coherent: bool)
      requires Valid() && !owned
      modifies this, patches
      ensures Valid() && !owned && patches.Image() == old(patches.Image())
      ensures SafelyExtends(old(ends), ends)
      ensures OnlyReleases(old(ends), ends)
      ensures ok ==> Clear() && token == 0
      ensures !coherent && (old(token) != 0 || !old(Clear())) ==> !ok && ends == old(ends) && patches.memory == old(patches.memory)
      ensures (served ==> old(served)) && (patches.obeyed ==> old(patches.obeyed))
      ensures Smooth() && old(Restorable()) ==> ok
    {
      hide Recovers, TrapsHold, SpanLifted, Entries, Owed, Settled, Room, TableOk, RearmOk, OthersKept;
      var active := patches.ActiveCount();
      var pending := patches.HasPendingWrite();
      var stopped := false;
      var owns := false;
      if active != 0 || pending || token != 0 {
        Claim();
        owns := true;
        stopped := RecoverStop();
      }
      coherent := stopped;
      ok := !((active != 0 || pending || token != 0) && !stopped);
      if ok && ((active == 0 && !pending) || stopped) {
        ok := RestoreWrite();
      }
      if ok && (active == 0 || stopped) {
        ok := RemoveEvery();
      }
      if ok && token != 0 {
        ok := EndTwice();
      }
      if owns {
        ReleaseOwner();
      }
    }

    // ---- the stopped-side command loop ----

    /** `M`: an unfinished rollback ends the session through the lost-client path. */
    method WritePacket(address: nat, data: seq<Byte>, size: nat) returns (alive: bool, done: bool)
      requires Valid() && !owned && |data| == 2 * size
      modifies this, patches
      ensures Valid() && !owned && SafelyExtends(old(ends), ends) && OnlyReleases(old(ends), ends)
      ensures alive && !old(patches.HasPendingWrite()) ==> !patches.HasPendingWrite()
      ensures alive && old(Ready()) ==> Ready()
      ensures alive ==> Current()
      ensures done ==> alive && Written(old(patches.Image()), address, data, size, patches.Image())
      ensures !done ==> patches.Image() == old(patches.Image())
      ensures (served ==> old(served)) && (patches.obeyed ==> old(patches.obeyed))
      ensures Smooth() && old(Current() && Ready()) ==> alive && (done <==> Writable(address, data, size))
    {
      hide Written, Writable, Recovers, TrapsHold, TableOk, RearmOk, SlotsOk, Entries, Owed, Spared, Room;
      done := false;
      alive := BeginOperation();
      if !alive {
        return;
      }
      var result, lift := patches.WriteLive(address, data, size);
      if result == -2 {
        var ignored := FailStoppedClientOwned();
        return false, false;
      }
      ReleaseOwner();
      done := result >= 0;
    }

    /** `Z0`: an uncertain patch ends the session the same way. */
    method InsertPacket(address: nat, size: nat) returns (alive: bool, done: bool)
      requires Valid() && !owned
      requires patches.MayPatch(Even(address), size)
      modifies this, patches
      ensures Valid() && !owned && SafelyExtends(old(ends), ends) && OnlyReleases(old(ends), ends)
      ensures patches.Image() == old(patches.Image())
      ensures alive && !old(patches.HasPendingWrite()) ==> !patches.HasPendingWrite()
      ensures alive && old(Ready()) ==> Ready()
      ensures alive ==> Current()
      ensures alive ==> Inserted(old(patches.slots), patches.slots, Entry(Even(address), size, false), if done then OK else -1)
      ensures done ==> alive
      ensures (served ==> old(served)) && (patches.obeyed ==> old(patches.obeyed))
      ensures Smooth() && old(Current() && Ready()) ==> alive && (done <==> old(Insertable(patches.slots, Even(address), size)))
    {
      hide Insertable;
      done := false;
      alive := BeginOperation();
      if !alive {
        return;
      }
      var result := patches.Insert(address, size, false);
      if result == RESTORE_PENDING {
        var ignored := FailStoppedClientOwned();
        return false, false;
      }
      ReleaseOwner();
      done := result >= 0;
    }

    /** `z0`. */
    method RemovePacket(address: nat) returns (alive: bool)
      requires Valid() && !owned
      modifies this, patches
      ensures Valid() && !owned && SafelyExtends(old(ends), ends) && OnlyReleases(old(ends), ends)
      ensures patches.Image() == old(patches.Image())
      ensures alive && !old(patches.HasPendingWrite()) ==> !patches.HasPendingWrite()
      ensures alive && old(Ready()) ==> Ready()
      ensures alive ==> Current()
      ensures alive ==> Entries(patches.slots) == Without(old(Entries(patches.slots)), Even(address))
      ensures (served ==> old(served)) && (patches.obeyed ==> old(patches.obeyed))
      ensures Smooth() && old(Current()) ==> alive
    {
      hide Entries, Without;
      alive := BeginOperation();
      if !alive {
        return;
      }
      var result := patches.Remove(address);
      if result == RESTORE_PENDING {
        var ignored := FailStoppedClientOwned();
        return false;
      }
      ReleaseOwner();
    }

    /** Prepare a resume: settle every uncertain slot, plant the step trap, and end the stop
        unless the peers stay held. -1 is a refused plan, -2 leaves something uncertain. The trap
        is in place before any thread can run. */
    method ApplyResume(valid: bool, step: Step, holdPeers: bool) returns (result: int)
      requires Valid() && owned
      requires step.At? ==> patches.MayPatch(Even(step.address), step.size)
      modifies this`token, this`failed, this`ends, this`served, this`renewed, patches
      ensures Valid() && patches.Image() == old(patches.Image())
      ensures SafelyExtends(old(ends), ends)
      ensures ResumesAs(old(ends), ends, old(PlanEntry(patches.tx, patches.rearm)))
      ensures result == 0 && !holdPeers && old(token) != 0 ==>
        ends == old(ends) + [old(PlanEntry(patches.tx, patches.rearm))] && token == 0 && !failed
      ensures holdPeers || !valid ==> ends == old(ends) && token == old(token) && failed == old(failed)
      ensures -2 <= result <= 0
      ensures result == 0 ==> valid && Certain()
      ensures result == 0 && step.At? ==> InstalledAt(patches.slots, Even(step.address), step.size)
      ensures StepPlanted(old(patches.slots), patches.slots, step)
      ensures result == -1 ==> ends == old(ends) && token == old(token) && failed == old(failed) && Certain()
      ensures result == -1 ==> patches.slots == SettledTable(old(patches.slots))
      ensures patches.tx == old(patches.tx) && patches.rearm == old(patches.rearm)
      ensures (served ==> old(served)) && (patches.obeyed ==> old(patches.obeyed))
      ensures Smooth() && old(Current()) ==>
        (result == 0 <==> valid && (step.At? ==> Insertable(SettledTable(old(patches.slots)), Even(step.address), step.size)))
      ensures Smooth() && old(Current()) ==> result != -2
    {
      hide Insertable, Entries;
      var settled := patches.RestorePendingSlots();
      if settled < 0 {
        return -2;
      }
      assert patches.slots == SettledTable(old(patches.slots));
      if !valid {
        return -1;
      }
      if step.At? {
        var planted := patches.Insert(step.address, step.size, true);
        if planted == RESTORE_PENDING {
          return -2;
        }
        if planted < 0 {
          return -1;
        }
      }
      if holdPeers {
        return 0;
      }
      var ended := EndStop(Resume(Plan, Certain(), !patches.HasPendingWrite()));
      return if ended < 0 then -2 else 0;
    }

    /** `c`, `s` and `vCont`. The resume may be made before the packet turns out not to finish, and
        then the client is lost. */
    method ResumePacket(valid: bool, step: Step, holdPeers: bool) returns (alive: bool, running: bool)
      requires Valid() && !owned
      requires step.At? ==> patches.MayPatch(Even(step.address), step.size)
      modifies this, patches
      ensures Valid() && !owned && SafelyExtends(old(ends), ends)
      ensures patches.Image() == old(patches.Image())
      ensures running ==> !alive && valid && Certain()
      ensures alive && !old(patches.HasPendingWrite()) ==> !patches.HasPendingWrite()
      ensures alive ==> Current()
      ensures ResumesAs(old(ends), ends, old(PlanEntry(patches.tx, patches.rearm)))
      ensures running && holdPeers ==> ends == old(ends) && Current()
      ensures running && !holdPeers ==>
        ends == old(ends) + [old(PlanEntry(patches.tx, patches.rearm))] && token == 0 && !failed
      ensures running && step.At? ==> InstalledAt(patches.slots, Even(step.address), step.size)
      ensures running || alive ==> StepPlanted(old(patches.slots), patches.slots, step)
      ensures running && !old(patches.HasPendingWrite()) ==> Ready()
      ensures alive && old(Ready()) ==> Ready()
      ensures (served ==> old(served)) && (patches.obeyed ==> old(patches.obeyed))
      ensures Smooth() && old(Current()) ==>
        (running <==> valid && (step.At? ==> Insertable(SettledTable(old(patches.slots)), Even(step.address), step.size)))
      ensures Smooth() && old(Current()) ==> running || alive
    {
      hide Insertable, StepPlanted, InstalledAt;
      running := false;
      alive := BeginOperation();
      if !alive {
        return;
      }
      var result := ApplyResume(valid, step, holdPeers);
      if result == -1 {
        ReleaseOwner();
        return true, false;
      }
      if result < 0 {
        var ignored := FailStoppedClientOwned();
        return false, false;
      }
      ReleaseOwner();
      var finished := Attempt();
      if !finished {
        var ignored := FailStoppedClient();
        return false, false;
      }
      return false, true;
    }

    /** `F`: unless the reply reports an interrupt, the stop ends with whatever is owed left as it
        is. The log entry is therefore exactly what held before the packet. */
    method FileReplyPacket(wellFormed: bool, interrupted: bool) returns (alive: bool, running: bool)
      requires Valid() && !owned
      modifies this, patches
      ensures Valid() && !owned && SafelyExtends(old(ends), ends)
      ensures patches.Image() == old(patches.Image())
      ensures running ==> !alive && wellFormed && !interrupted && token == 0 && !failed
      ensures ResumesAs(old(ends), ends, old(ReplyEntry(patches.slots, patches.tx, patches.rearm)))
      ensures running ==> ends == old(ends) + [old(ReplyEntry(patches.slots, patches.tx, patches.rearm))]
      ensures running || alive ==> patches.slots == old(patches.slots) && patches.memory == old(patches.memory)
      ensures alive && !old(patches.HasPendingWrite()) ==> !patches.HasPendingWrite()
      ensures alive && old(Ready()) ==> Ready()
      ensures alive && old(Current()) ==> Current()
      ensures (served ==> old(served)) && (patches.obeyed ==> old(patches.obeyed))
      ensures Smooth() && old(Current()) ==> (running <==> wellFormed && !interrupted) && (alive <==> !running)
    {
      alive, running := true, false;
      if !wellFormed {
        return;
      }
      alive := BeginOperation();
      if !alive {
        return;
      }
      if interrupted {
        ReleaseOwner();
        var sent := Attempt();
        if !sent {
          var ignored := FailStoppedClient();
          alive := false;
        }
        return;
      }
      alive := false;
      var borrowed := Attempt();
      if !borrowed {
        var ignored := FailStoppedClientOwned();
        return;
      }
      var ended := EndStop(Resume(Reply, Certain(), !patches.HasPendingWrite()));
      if ended < 0 {
        var ignored := FailStoppedClientOwned();
        return;
      }
      ReleaseOwner();
      running := true;
    }

    /** The packet would plant a trap over the span of a write that is still pending. */
    predicate Strands(packet: Packet)
      reads patches`tx
    {
      || (packet.Insert? && patches.tx.Overlaps(Even(packet.address), packet.size))
      || (packet.Go? && packet.step.At? && patches.tx.Overlaps(Even(packet.step.address), packet.step.size))
    }

    method ServePacket(packet: Packet) returns (alive: bool, done: bool)
      requires Valid() && !owned && !Strands(packet)
      requires packet.Write? ==> |packet.data| == 2 * packet.size
      modifies this, patches
      ensures Valid() && !owned && SafelyExtends(old(ends), ends)
      ensures old(Ready()) ==> FullyExtends(old(ends), ends)
      ensures alive && old(Ready()) ==> Ready()
      ensures alive && !old(patches.HasPendingWrite()) ==> !patches.HasPendingWrite()
      ensures patches.Image() == if alive then ImageServed(old(patches.Image()), packet, done) else old(patches.Image())
      ensures (served ==> old(served)) && (patches.obeyed ==> old(patches.obeyed))
      ensures alive && old(Current()) ==> Current()
      ensures Smooth() && old(Current() && Ready()) ==> alive || MayEnd(packet)
      ensures packet.Go? || packet.FileReply? ==> !done
      ensures Smooth() && old(Current() && Ready()) && packet.Write? ==> (done <==> Writable(packet.address, packet.data, packet.size))
    {
      hide Written, Writable, Insertable, Inserted, StepPlanted, InstalledAt, Room;
      done := true;
      var running;
      match packet {
        case Query =>
          alive := BeginOperation();
          if alive {
            ReleaseOwner();
          }
        case Write(address, data, size) =>
          alive, done := WritePacket(address, data, size);
          WrittenIsServed(old(patches.Image()), packet, patches.Image(), done);
        case Insert(address, size) =>
          alive, done := InsertPacket(address, size);
        case Remove(address) =>
          alive := RemovePacket(address);
        case Detach =>
          var ignored := DetachClient();
          alive := false;
        case Go(valid, step, holdPeers) =>
          alive, running := ResumePacket(valid, step, holdPeers);
          done := false;
        case FileReply(wellFormed, interrupted) =>
          alive, running := FileReplyPacket(wellFormed, interrupted);
          done := false;
      }
    }

    static lemma WrittenIsServed(before: seq<Byte>, packet: Packet, after: seq<Byte>, done: bool)
      requires |before| == ADDRESS_SPACE && packet.Write?
      requires if done then Written(before, packet.address, packet.data, packet.size, after) else after == before
      ensures after == ImageServed(before, packet, done)
    {
    }

    /** Serve packets until the target runs, the client is lost or the packets end. Whatever the
        kernel and the target memory do, ownership is given back, and no release ever happens
        over a patch that is still owed its original; the image changes only by the writes that
        were answered OK. From a session that starts with nothing in doubt, no resume happens over
        an uncertain slot or a pending write either; and as long as nothing fails, every packet up
        to one that may end the session is served, every well-formed write carried out.
        A packet that would plant a trap over the span of a write left pending is outside the
        layer's assumptions and ends the run; a session that starts with no write pending never
        gets there, because a write that cannot be undone ends it first. */
    method ServeStopped(packets: seq<Packet>) returns (stranded: bool, done: seq<bool>)
      requires Valid() && !owned
      requires forall p :: 0 <= p < |packets| && packets[p].Write? ==> |packets[p].data| == 2 * packets[p].size
      modifies this, patches
      ensures Valid() && !owned && SafelyExtends(old(ends), ends)
      ensures old(Ready()) ==> FullyExtends(old(ends), ends)
      ensures !old(patches.HasPendingWrite()) ==> !stranded
      ensures |done| <= |packets| && patches.Image() == ImageThrough(old(patches.Image()), packets[..|done|], done)
      ensures (served ==> old(served)) && (patches.obeyed ==> old(patches.obeyed))
      ensures Smooth() && old(Current() && Ready()) && |done| < |packets| ==> MayEnd(packets[|done|])
      ensures Smooth() && old(Current() && Ready()) ==>
        forall p :: 0 <= p < |done| && packets[p].Write? ==> done[p] == Writable(packets[p].address, packets[p].data, packets[p].size)
    {
      hide Writable, ImageServed, ImageThrough, MayEnd, Room, SafelyExtends, FullyExtends, OnlyReleases, Recovers, TrapsHold, TableOk, RearmOk, SlotsOk, CertainSlots;
      ExtendsItself(ends);
      stranded, done := false, [];
      ThroughNone(patches.Image(), packets);
      for p := 0 to |packets|
        invariant Valid() && !owned && SafelyExtends(old(ends), ends)
        invariant old(Ready()) ==> Ready() && FullyExtends(old(ends), ends)
        invariant !stranded && (!old(patches.HasPendingWrite()) ==> !patches.HasPendingWrite())
        invariant |done| == p && patches.Image() == ImageThrough(old(patches.Image()), packets[..p], done)
        invariant (served ==> old(served)) && (patches.obeyed ==> old(patches.obeyed))
        invariant old(Current()) ==> Current()
        invariant Smooth() && old(Current() && Ready()) ==>
          forall k :: 0 <= k < p && packets[k].Write? ==> done[k] == Writable(packets[k].address, packets[k].data, packets[k].size)
      {
        ghost var before := ends;
        var received := Attempt();
        if failed || !received {
          var ignored := FailStoppedClient();
          ExtendsTwice(old(ends), before, ends);
          return;
        }
        if Strands(packets[p]) {
          return true, done;
        }
        var alive, answer := ServePacket(packets[p]);
        ExtendsTwice(old(ends), before, ends);
        if !alive {
          return;
        }
        ThroughNext(old(patches.Image()), packets, done, answer);
        done := done + [answer];
      }
      assert packets[..|packets|] == packets;
    }
  }

  /** From a breakpoint whose removal failed, a File-I/O reply resumes over an uncertain slot. */
  lemma ReplyOverUncertainSlot() returns (memory: seq<Byte>, slots: seq<Breakpoint>, code: seq<Byte>)
    ensures TableState(memory, slots, Idle, [], code) && SpanLifted(slots, Idle, [])
    ensures ReplyEntry(slots, Idle, []) == Resume(Reply, false, true) && !FullEnd(ReplyEntry(slots, Idle, []))
  {
    memory, slots, code := UncertainInstance();
    assert !CertainSlots(slots);
  }

  /** From a write left half-done, a plan resumes over the pending write, and so does a reply. */
  lemma PlanOverPendingWrite() returns (memory: seq<Byte>, slots: seq<Breakpoint>, tx: Transaction, code: seq<Byte>)
    ensures TableState(memory, slots, tx, [], code) && SpanLifted(slots, tx, []) && CertainSlots(slots)
    ensures PlanEntry(tx, []) == Resume(Plan, true, false) && ReplyEntry(slots, tx, []) == Resume(Reply, true, false)
  {
    memory, slots, tx, code := PendingWriteInstance();
  }

  /** Exactly when the two resumes leave nothing in doubt. */
  lemma ResumeIsFull(slots: seq<Breakpoint>, tx: Transaction, rearm: seq<Entry>)
    ensures FullEnd(ReplyEntry(slots, tx, rearm)) <==> CertainSlots(slots) && NothingPending(tx, rearm)
    ensures FullEnd(PlanEntry(tx, rearm)) <==> NothingPending(tx, rearm)
  {
  }
}
