/** The roots stack and the root processor as objects with fields, memory and files apart. Every
    method is the code between two awaits; each is proved to take the step of RootWalk. */
module RootsProcessor {
  import opened Wrappers
  import Trust
  import opened RootWalk

  class RootsStack {
    var storage: Stack
    var lastProcessed: Option<RootSlot>
    var storageFile: Stack
    var infoFile: Option<RootSlot>

    // initOrReadServiceData
    constructor (storageFile: Stack, infoFile: Option<RootSlot>)
      ensures storage == this.storageFile == storageFile && lastProcessed == this.infoFile == infoFile
    {
      this.storageFile, this.infoFile := storageFile, infoFile;
      storage, lastProcessed := storageFile, infoFile;
    }

    method SortedSlots() returns (slots: seq<nat>)
      ensures forall i, j :: 0 <= i < j < |slots| ==> slots[i] < slots[j]
      ensures forall k :: k in slots <==> k in storage
    {
      slots := [];
      var rest := storage.Keys;
      while rest != {}
        invariant forall k :: k in storage <==> k in slots || k in rest
        invariant forall i, j :: 0 <= i < j < |slots| ==> slots[i] < slots[j]
        invariant forall i, k :: 0 <= i < |slots| && k in rest ==> slots[i] < k
        decreases |rest|
      {
        ghost var least := Least(rest);
        var k :| k in rest && forall j :: j in rest ==> k <= j;
        slots, rest := slots + [k], rest - {k};
      }
    }

    method GetNextEligible(w: Trust.Windows, index: nat) returns (next: Option<RootSlot>)
      ensures next == NextEligible(w, storage, index)
    {
      var slots := SortedSlots();
      for i := 0 to |slots|
        invariant forall j :: 0 <= j < i ==> !Trust.TrustedForAnyDuty(w, index, slots[j])
      {
        var k := slots[i];
        if Trust.TrustedForAnyDuty(w, index, k) {
          next := Some(RootSlot(storage[k], k));
          ghost var eligible := set j | j in storage && Trust.TrustedForAnyDuty(w, index, j);
          assert k in eligible;
          assert forall j :: j in eligible ==> j in slots && k <= j;
          return;
        }
      }
      next := None;
      assert forall k :: k in storage ==> k in slots;
    }

    // True if the caller has a write to wait for.
    method Push(rs: RootSlot) returns (write: bool)
      modifies `storage
      ensures write == (rs.slotNumber !in old(storage))
      ensures storage == if write then old(storage)[rs.slotNumber := rs.blockRoot] else old(storage)
    {
      if rs.slotNumber in storage {
        return false;
      }
      storage := storage[rs.slotNumber := rs.blockRoot];
      return true;
    }

    method Purge(rs: RootSlot) returns (write: bool)
      modifies `storage
      ensures write == (rs.slotNumber in old(storage))
      ensures storage == old(storage) - {rs.slotNumber}
    {
      if rs.slotNumber !in storage {
        assert storage == storage - {rs.slotNumber};
        return false;
      }
      storage := storage - {rs.slotNumber};
      return true;
    }

    method SetLastProcessed(rs: RootSlot)
      modifies `lastProcessed
      ensures lastProcessed == Some(rs)
    {
      lastProcessed := Some(rs);
    }

    method WriteStorage()
      modifies `storageFile
      ensures storageFile == storage
    {
      storageFile := storage;
    }

    method WriteInfo()
      modifies `infoFile
      ensures infoFile == lastProcessed
    {
      infoFile := lastProcessed;
    }

    method Reload()
      modifies `storage, `lastProcessed
      ensures storage == storageFile && lastProcessed == infoFile
    {
      storage, lastProcessed := storageFile, infoFile;
    }
  }

  // `index` is what the keys indexer's storageStateSlot is when the code runs.
  class RootsProcessor {
    const config: Config
    const rootsStack: RootsStack
    var phase: Phase
    ghost var sys: Sys

    ghost predicate Valid()
      reads this, rootsStack
    {
      && sys.stack == rootsStack.storage && sys.stackFile == rootsStack.storageFile
      && sys.cursor == rootsStack.lastProcessed && sys.cursorFile == rootsStack.infoFile
      && sys.phase == phase
    }

    constructor (config: Config, rootsStack: RootsStack, ghost s: Sys)
      requires s.stack == s.stackFile == rootsStack.storage == rootsStack.storageFile
      requires s.cursor == s.cursorFile == rootsStack.lastProcessed == rootsStack.infoFile
      requires s.phase.Idle?
      ensures Valid() && sys == s && this.config == config && this.rootsStack == rootsStack
    {
      this.config, this.rootsStack := config, rootsStack;
      phase, sys := Idle, s;
    }

    // The daemon's turn with a fresh finalized header, and getNext up to its request.
    method Turn(head: nat, index: nat)
      requires Valid() && Enabled(config, sys, Tick(head)) && index == sys.index
      modifies this
      ensures Valid() && sys == Apply(config, old(sys), Tick(head))
    {
      sys := Apply(config, sys, Tick(head));
      if !phase.Idle? {
        return;
      }
      var last := rootsStack.lastProcessed;
      if last.None? {
        phase := AwaitBlock(if config.startRoot.Some? then config.startRoot.value else head);
        return;
      }
      var stacked := rootsStack.GetNextEligible(config.windows, index);
      if stacked.Some? {
        if !HeldBack(config, head, stacked.value.slotNumber) {
          phase := AwaitBlock(stacked.value.blockRoot);
        }
      } else if last.value.blockRoot != head {
        phase := AwaitChild(last.value, head);
      }
    }

    // processNext once the block has arrived.
    method OnBlockInfo(index: nat)
      requires Valid() && Enabled(config, sys, BlockArrived) && index == sys.index
      modifies this, rootsStack`storage
      ensures Valid() && sys == Apply(config, old(sys), BlockArrived)
    {
      sys := Apply(config, sys, BlockArrived);
      var rs := RootSlot(phase.root, config.slots[phase.root]);
      var write := rootsStack.Push(rs);
      phase := if write then AwaitPushWrite(rs) else AwaitDuty(rs, [index]);
    }

    method OnStackWritten(index: nat)
      requires Valid() && Enabled(config, sys, StackWritten) && index == sys.index
      modifies this, rootsStack`storageFile, rootsStack`lastProcessed
      ensures Valid() && sys == Apply(config, old(sys), StackWritten)
    {
      sys := Apply(config, sys, StackWritten);
      rootsStack.WriteStorage();
      if phase.AwaitPushWrite? {
        phase := AwaitDuty(phase.rs, [index]);
      } else {
        rootsStack.SetLastProcessed(phase.rs);
        phase := AwaitCursorWrite(phase.rs);
      }
    }

    method OnDutyDone(index: nat)
      requires Valid() && Enabled(config, sys, DutyDone) && index == sys.index
      modifies this, rootsStack`storage, rootsStack`lastProcessed
      ensures Valid() && sys == Apply(config, old(sys), DutyDone)
    {
      sys := Apply(config, sys, DutyDone);
      var rs, keyReads := phase.rs, phase.keyReads;
      if |keyReads| == 1 {
        phase := AwaitDuty(rs, keyReads + [index]);
        return;
      }
      if |keyReads| == 2 && IsFirstBlockInEpoch(config, rootsStack.lastProcessed, rs.blockRoot) {
        phase := AwaitDuty(rs, keyReads + [index]);
        return;
      }
      var write := false;
      if Trust.TrustedForEveryDuty(config.windows, index, rs.slotNumber) {
        write := rootsStack.Purge(rs);
      }
      if write {
        phase := AwaitPurgeWrite(rs);
      } else {
        rootsStack.SetLastProcessed(rs);
        phase := AwaitCursorWrite(rs);
      }
    }

    method OnCursorWritten()
      requires Valid() && Enabled(config, sys, CursorWritten)
      modifies this, rootsStack`infoFile
      ensures Valid() && sys == Apply(config, old(sys), CursorWritten)
    {
      sys := Apply(config, sys, CursorWritten);
      rootsStack.WriteInfo();
      phase := Idle;
    }

    method OnChildHeaders(finalizedChild: Option<RootSlot>)
      requires Valid() && Enabled(config, sys, ChildArrived)
      requires var child := sys.phase.last.blockRoot + 1;
        finalizedChild == if child <= sys.finalized then Some(RootSlot(child, config.slots[child])) else None
      modifies this
      ensures Valid() && sys == Apply(config, old(sys), ChildArrived)
    {
      sys := Apply(config, sys, ChildArrived);
      if finalizedChild.Some? && !HeldBack(config, phase.head, finalizedChild.value.slotNumber) {
        phase := AwaitBlock(finalizedChild.value.blockRoot);
      } else {
        phase := Idle;
      }
    }

    // The pending await rejects, and a pending write has had no effect: the error is logged and the
    // daemon loop goes on.
    method OnFailure()
      requires Valid() && (Enabled(config, sys, Fail) || Enabled(config, sys, PushWriteFails))
      modifies this
      ensures Valid()
      ensures sys == Apply(config, old(sys), if old(phase).AwaitPushWrite? then PushWriteFails else Fail)
    {
      sys := Apply(config, sys, if phase.AwaitPushWrite? then PushWriteFails else Fail);
      phase := Idle;
    }

    // The pending write is done but its promise rejects.
    method OnRejectedLate()
      requires Valid() && Enabled(config, sys, WriteRejectedLate)
      modifies this, rootsStack`storageFile, rootsStack`infoFile
      ensures Valid() && sys == Apply(config, old(sys), WriteRejectedLate)
    {
      sys := Apply(config, sys, WriteRejectedLate);
      if phase.AwaitCursorWrite? {
        rootsStack.WriteInfo();
      } else {
        rootsStack.WriteStorage();
      }
      phase := Idle;
    }

    method Restart()
      requires Valid()
      modifies this, rootsStack`storage, rootsStack`lastProcessed
      ensures Valid() && sys == Apply(config, old(sys), Crash)
    {
      sys := Apply(config, sys, Crash);
      rootsStack.Reload();
      phase := Idle;
    }
  }
}
