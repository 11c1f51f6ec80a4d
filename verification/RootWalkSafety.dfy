/** When a finalized block is lost: what every step keeps, whatever fails and whenever the process dies,
    and the one step after which a block from the first recorded root up to the highest is neither done
    nor on the stack file. */
module RootWalkSafety {
  import opened Wrappers
  import Trust
  import opened RootWalk

  ghost predicate ValidRootSlot(c: Config, rs: RootSlot, top: nat) {
    1 <= rs.blockRoot <= top < |c.slots| && c.slots[rs.blockRoot] == rs.slotNumber
  }

  ghost predicate ValidStack(c: Config, m: Stack, top: nat) {
    forall k :: k in m ==> ValidRootSlot(c, RootSlot(m[k], k), top)
  }

  ghost predicate Stacked(c: Config, m: Stack, root: nat) {
    root < |c.slots| && c.slots[root] in m
  }

  ghost predicate DoneOrStacked(c: Config, done: set<nat>, file: Stack, root: nat) {
    root in done || Stacked(c, file, root)
  }

  // The block being processed, if the phase has one.
  function Current(p: Phase): Option<nat> {
    match p
    case Idle => None
    case AwaitChild(_, _) => None
    case AwaitBlock(root) => Some(root)
    case AwaitPushWrite(rs) => Some(rs.blockRoot)
    case AwaitDuty(rs, _) => Some(rs.blockRoot)
    case AwaitPurgeWrite(rs) => Some(rs.blockRoot)
    case AwaitCursorWrite(rs) => Some(rs.blockRoot)
  }

  ghost predicate PhaseShape(c: Config, s: Sys) {
    match s.phase
    case Idle => true
    case AwaitChild(last, head) => s.cursor == Some(last) && head <= s.finalized
    case AwaitBlock(root) => 1 <= root <= s.finalized
    case AwaitPushWrite(rs) => ValidRootSlot(c, rs, s.finalized) && rs.slotNumber in s.stack
    case AwaitDuty(rs, keyReads) => ValidRootSlot(c, rs, s.finalized) && rs.slotNumber in s.stack && keyReads != []
    case AwaitPurgeWrite(rs) => ValidRootSlot(c, rs, s.finalized) && rs.blockRoot in s.done
    case AwaitCursorWrite(rs) => ValidRootSlot(c, rs, s.finalized) && s.cursor == Some(rs)
  }

  ghost predicate Shape(c: Config, s: Sys) {
    && ValidConfig(c)
    && 1 <= s.finalized < |c.slots| && s.seen <= s.finalized && s.indexFile <= s.index
    && (c.startRoot.None? ==> 1 <= s.seen)
    && (c.startRoot.Some? ==> c.startRoot.value <= s.finalized)
    && ValidStack(c, s.stack, s.finalized) && ValidStack(c, s.stackFile, s.finalized)
    && (s.cursor.Some? ==> ValidRootSlot(c, s.cursor.value, s.finalized))
    && (s.cursorFile.Some? ==> ValidRootSlot(c, s.cursorFile.value, s.finalized))
    && PhaseShape(c, s)
  }

  // What is on disk alone is done.
  ghost predicate FilesAgree(s: Sys) {
    forall k :: k in s.stackFile && k !in s.stack ==> s.stackFile[k] in s.done
  }

  ghost predicate AllAtMost(m: Stack, bound: nat) {
    forall k :: k in m ==> m[k] <= bound
  }

  ghost predicate AllAre(m: Stack, root: nat) {
    forall k :: k in m ==> m[k] == root
  }

  // Before a first root is recorded the stack holds only earlier cold-start roots.
  ghost predicate Cold(c: Config, s: Sys) {
    s.first.None? ==>
      && s.cursorFile.None? && s.cursor.None?
      && (c.startRoot.Some? ==>
            && AllAre(s.stack, c.startRoot.value) && AllAre(s.stackFile, c.startRoot.value)
            && (Current(s.phase).Some? ==> Current(s.phase).value == c.startRoot.value))
      && (c.startRoot.None? ==>
            var bound := if Current(s.phase).Some? then Current(s.phase).value else s.seen;
            bound <= s.seen && AllAtMost(s.stack, bound) && AllAtMost(s.stackFile, bound))
  }

  // The high-water mark: replays move the cursor back, never past high; a stacked block is below
  // first or at most the successor of high.
  ghost predicate BelowMark(s: Sys, m: Stack) {
    s.first.Some? ==> forall k :: k in m ==> m[k] < s.first.value || m[k] <= s.high + 1
  }

  // What the walk has touched the API has reported as finalized.
  ghost predicate AllSeen(c: Config, s: Sys) {
    c.startRoot.None? ==>
      && AllAtMost(s.stack, s.seen) && AllAtMost(s.stackFile, s.seen)
      && (Current(s.phase).Some? ==> Current(s.phase).value <= s.seen)
  }

  // A cursor may still be missing on disk, or in memory after a restart; then the walk starts at
  // START_ROOT again, which is the first root.
  ghost predicate Warm(c: Config, s: Sys) {
    s.first.Some? ==>
      && s.first.value <= s.high <= s.finalized
      && (s.cursor.Some? ==> s.cursor.value.blockRoot <= s.high)
      && (s.cursorFile.Some? ==> s.cursorFile.value.blockRoot <= s.high && s.cursor.Some?)
      && (s.cursor.None? ==> c.startRoot.Some?)
      && (c.startRoot.Some? ==> c.startRoot.value == s.first.value)
      && BelowMark(s, s.stack) && BelowMark(s, s.stackFile)
      && (Current(s.phase).Some? ==> Current(s.phase).value <= s.high + 1)
  }

  // What every step keeps, whatever fails.
  ghost predicate Inv(c: Config, s: Sys) {
    Shape(c, s) && FilesAgree(s) && Cold(c, s) && AllSeen(c, s) && Warm(c, s)
  }

  lemma InitialInv(c: Config, s: Sys)
    requires Initial(c, s)
    ensures Inv(c, s)
  {
  }

  // Between roots: a newer head seen, and a legal choice of what comes next.
  ghost predicate LegalChoice(c: Config, s: Sys, seen: nat, p: Phase) {
    && s.seen <= seen <= s.finalized && PhaseShape(c, s.(phase := p))
    && (p.Idle? || p.AwaitChild? || p.AwaitBlock?)
    && (p.AwaitBlock? ==>
          && (s.first.Some? ==> p.root <= s.high + 1)
          && (c.startRoot.None? ==> p.root <= seen)
          && (s.first.None? ==> if c.startRoot.Some? then p.root == c.startRoot.value else s.seen <= p.root))
  }

  lemma ChoiceKeeps(c: Config, s: Sys, seen: nat, p: Phase)
    requires Inv(c, s) && (s.phase.Idle? || s.phase.AwaitChild?) && LegalChoice(c, s, seen, p)
    ensures Inv(c, s.(seen := seen, phase := p))
  {
    hide ValidStack, AllAre;
  }

  lemma SeenKeeps(c: Config, s: Sys, head: nat)
    requires Inv(c, s) && s.seen <= head <= s.finalized
    ensures Inv(c, s.(seen := head))
  {
    hide ValidStack, AllAre;
  }

  lemma StepTick(c: Config, s: Sys, head: nat)
    requires Inv(c, s) && Enabled(c, s, Tick(head))
    ensures Inv(c, Apply(c, s, Tick(head)))
  {
    if s.phase.Idle? {
      var next := NextEligible(c.windows, s.stack, s.index);
      if next.Some? {
        assert ValidRootSlot(c, next.value, s.finalized);
      }
      var p := ChooseNext(c, s.stack, s.cursor, s.index, head);
      assert LegalChoice(c, s, head, p);
      hide Inv, LegalChoice, ChooseNext;
      ChoiceKeeps(c, s, head, p);
    } else {
      SeenKeeps(c, s, head);
    }
  }

  lemma StepChild(c: Config, s: Sys)
    requires Inv(c, s) && Enabled(c, s, ChildArrived)
    ensures Inv(c, Apply(c, s, ChildArrived))
  {
    var s' := Apply(c, s, ChildArrived);
    assert LegalChoice(c, s, s'.seen, s'.phase);
    assert s' == s.(seen := s'.seen, phase := s'.phase);
    hide Inv, LegalChoice, Apply;
    ChoiceKeeps(c, s, s'.seen, s'.phase);
  }

  lemma StepBlockStacked(c: Config, s: Sys)
    requires Inv(c, s) && Enabled(c, s, BlockArrived) && c.slots[s.phase.root] in s.stack
    ensures Inv(c, Apply(c, s, BlockArrived))
  {
  }

  lemma StepBlockPushed(c: Config, s: Sys)
    requires Inv(c, s) && Enabled(c, s, BlockArrived) && c.slots[s.phase.root] !in s.stack
    ensures Inv(c, Apply(c, s, BlockArrived))
  {
    var rs := RootSlot(s.phase.root, c.slots[s.phase.root]);
    var s' := s.(stack := s.stack[rs.slotNumber := rs.blockRoot], phase := AwaitPushWrite(rs));
    assert Shape(c, s') by {
      hide FilesAgree, Cold, AllSeen, Warm;
    }
    hide Shape;
  }

  // The memory stack on disk, whatever follows.
  lemma StackOnDisk(c: Config, s: Sys)
    requires Inv(c, s) && (s.phase.AwaitPushWrite? || s.phase.AwaitPurgeWrite?)
    ensures Inv(c, s.(stackFile := s.stack))
  {
  }

  lemma PushWritten(c: Config, s: Sys)
    requires Inv(c, s) && s.phase.AwaitPushWrite? && s.stackFile == s.stack
    ensures Inv(c, s.(phase := AwaitDuty(s.phase.rs, [s.index])))
  {
    hide ValidStack;
  }

  lemma PurgeWritten(c: Config, s: Sys)
    requires Inv(c, s) && s.phase.AwaitPurgeWrite? && s.stackFile == s.stack
    ensures Inv(c, RecordCursor(s, s.phase.rs))
  {
    hide ValidStack;
  }

  lemma StepStackWritten(c: Config, s: Sys)
    requires Inv(c, s) && Enabled(c, s, StackWritten)
    ensures Inv(c, Apply(c, s, StackWritten))
  {
    StackOnDisk(c, s);
    hide Inv, RecordCursor;
    if s.phase.AwaitPurgeWrite? {
      PurgeWritten(c, s.(stackFile := s.stack));
    } else {
      PushWritten(c, s.(stackFile := s.stack));
    }
  }

  lemma UntrustedStaysStacked(c: Config, s: Sys)
    requires Inv(c, s) && s.phase.AwaitDuty?
    ensures Inv(c, RecordCursor(s, s.phase.rs))
  {
  }

  // The purged slot's file entry is the block just done.
  lemma PurgedIsDone(c: Config, s: Sys)
    requires Inv(c, s) && s.phase.AwaitDuty?
    ensures FilesAgree(s.(stack := s.stack - {s.phase.rs.slotNumber}, done := s.done + {s.phase.rs.blockRoot}))
  {
    var rs := s.phase.rs;
    if rs.slotNumber in s.stackFile {
      assert ValidRootSlot(c, RootSlot(s.stackFile[rs.slotNumber], rs.slotNumber), s.finalized);
      SameSlot(c, s.stackFile[rs.slotNumber], rs.blockRoot);
    }
  }

  lemma PurgeKeeps(c: Config, s: Sys, purges: seq<Purge>)
    requires Inv(c, s) && s.phase.AwaitDuty?
    ensures var rs := s.phase.rs;
      Inv(c, s.(stack := s.stack - {rs.slotNumber}, done := s.done + {rs.blockRoot}, purges := purges,
                phase := AwaitPurgeWrite(rs)))
  {
    PurgedIsDone(c, s);
  }

  lemma NextDutyKeeps(c: Config, s: Sys, keyReads: seq<nat>)
    requires Inv(c, s) && s.phase.AwaitDuty? && keyReads != []
    ensures Inv(c, s.(phase := AwaitDuty(s.phase.rs, keyReads)))
  {
  }

  lemma StepDuty(c: Config, s: Sys)
    requires Inv(c, s) && Enabled(c, s, DutyDone)
    ensures Inv(c, Apply(c, s, DutyDone))
  {
    var rs, keyReads := s.phase.rs, s.phase.keyReads;
    assert rs.slotNumber in s.stack;
    UntrustedStaysStacked(c, s);
    PurgeKeeps(c, s, s.purges + [Purge(rs, keyReads, s.index)]);
    NextDutyKeeps(c, s, keyReads + [s.index]);
    hide Inv, IsFirstBlockInEpoch, Trust.TrustedForEveryDuty;
  }

  lemma StepCursorWritten(c: Config, s: Sys)
    requires Inv(c, s) && Enabled(c, s, CursorWritten)
    ensures Inv(c, Apply(c, s, CursorWritten))
  {
  }

  lemma StepFail(c: Config, s: Sys, e: Event)
    requires Inv(c, s) && Enabled(c, s, e) && (e.Fail? || e.PushWriteFails?)
    ensures Inv(c, Apply(c, s, e))
  {
  }

  lemma StepRejectedLate(c: Config, s: Sys)
    requires Inv(c, s) && Enabled(c, s, WriteRejectedLate)
    ensures Inv(c, Apply(c, s, WriteRejectedLate))
  {
    if !s.phase.AwaitCursorWrite? {
      StackOnDisk(c, s);
    }
  }

  lemma StepCrash(c: Config, s: Sys)
    requires Inv(c, s)
    ensures Inv(c, Apply(c, s, Crash))
  {
  }

  lemma StepFinalize(c: Config, s: Sys, head: nat)
    requires Inv(c, s) && Enabled(c, s, Finalize(head))
    ensures Inv(c, Apply(c, s, Finalize(head)))
  {
    var s' := s.(finalized := head);
    assert Shape(c, s') by {
      hide FilesAgree, Cold, Warm;
    }
  }

  // The indexer's slots are no part of the invariant but for their order.
  lemma StepIndex(c: Config, s: Sys, e: Event)
    requires Inv(c, s) && Enabled(c, s, e) && (e.IndexCommit? || e.IndexSaved?)
    ensures Inv(c, Apply(c, s, e))
  {
    hide ValidStack, AllAre, AllAtMost, ValidRootSlot;
  }

  lemma InvStep(c: Config, s: Sys, e: Event)
    requires Inv(c, s) && Enabled(c, s, e)
    ensures Inv(c, Apply(c, s, e))
  {
    if e.BlockArrived? {
      if c.slots[s.phase.root] in s.stack {
        StepBlockStacked(c, s);
      } else {
        StepBlockPushed(c, s);
      }
    } else {
      hide Inv, Apply, Enabled;
      match e
      case Tick(head) => StepTick(c, s, head);
      case ChildArrived => StepChild(c, s);
      case StackWritten => StepStackWritten(c, s);
      case DutyDone => StepDuty(c, s);
      case CursorWritten => StepCursorWritten(c, s);
      case Fail => StepFail(c, s, e);
      case PushWriteFails => StepFail(c, s, e);
      case WriteRejectedLate => StepRejectedLate(c, s);
      case Crash => StepCrash(c, s);
      case Finalize(head) => StepFinalize(c, s, head);
      case IndexCommit(_) => StepIndex(c, s, e);
      case IndexSaved => StepIndex(c, s, e);
    }
  }

  lemma {:induction false} InvRun(c: Config, s: Sys, es: seq<Event>)
    requires Inv(c, s) && ValidRun(c, s, es)
    ensures Inv(c, After(c, s, es))
    decreases |es|
  {
    if es == [] {
    } else {
      InvStep(c, s, es[0]);
      InvRun(c, Apply(c, s, es[0]), es[1..]);
    }
  }

  // ---- Nothing is lost ----

  ghost predicate CoveredBy(c: Config, first: Option<nat>, high: nat, done: set<nat>, file: Stack) {
    first.Some? ==> forall r :: first.value <= r <= high ==> DoneOrStacked(c, done, file, r)
  }

  // The promise: nothing between the first and the highest recorded root is lost.
  ghost predicate Covered(c: Config, s: Sys) {
    CoveredBy(c, s.first, s.high, s.done, s.stackFile)
  }

  // Writing the memory stack drops only done blocks from the file.
  lemma WriteKeeps(c: Config, s: Sys, r: nat)
    requires Shape(c, s) && FilesAgree(s) && DoneOrStacked(c, s.done, s.stackFile, r)
    ensures DoneOrStacked(c, s.done, s.stack, r)
  {
    if r !in s.done {
      assert ValidRootSlot(c, RootSlot(s.stackFile[c.slots[r]], c.slots[r]), s.finalized);
      SameSlot(c, s.stackFile[c.slots[r]], r);
    }
  }

  // Recording a block that is done or stacked extends the cover by it.
  lemma RecordKeepsCovered(c: Config, s: Sys, rs: RootSlot)
    requires Covered(c, s) && DoneOrStacked(c, s.done, s.stackFile, rs.blockRoot)
    requires s.first.Some? ==> rs.blockRoot <= s.high + 1
    ensures Covered(c, RecordCursor(s, rs))
  {
    var s' := RecordCursor(s, rs);
    forall r | s'.first.value <= r <= s'.high
      ensures DoneOrStacked(c, s.done, s.stackFile, r)
    {
      assert s.first.Some? && r <= s.high ==> DoneOrStacked(c, s.done, s.stackFile, r);
    }
  }

  // The step that loses a block: an untrusted check records a block that is neither done nor on the
  // stack file.
  ghost predicate Loses(c: Config, s: Sys, e: Event)
    requires Enabled(c, s, e)
  {
    && e.DutyDone? && OnDuty(c, s).phase.AwaitCursorWrite?
    && !DoneOrStacked(c, s.done, s.stackFile, s.phase.rs.blockRoot)
    && (s.first.Some? ==> s.first.value <= s.phase.rs.blockRoot)
  }

  lemma StackOnDiskCovers(c: Config, s: Sys)
    requires Inv(c, s) && Covered(c, s)
    ensures Covered(c, s.(stackFile := s.stack))
  {
    if s.first.Some? {
      forall r | s.first.value <= r <= s.high
        ensures DoneOrStacked(c, s.done, s.stack, r)
      {
        assert DoneOrStacked(c, s.done, s.stackFile, r);
        WriteKeeps(c, s, r);
      }
    }
  }

  lemma DutyCovers(c: Config, s: Sys)
    requires Inv(c, s) && Covered(c, s) && Enabled(c, s, DutyDone)
    ensures Covered(c, Apply(c, s, DutyDone)) <==> !Loses(c, s, DutyDone)
  {
    var rs, t := s.phase.rs, Apply(c, s, DutyDone);
    hide FilesAgree, Cold, AllSeen, ValidStack;
    if t.phase.AwaitCursorWrite? {
      assert t == RecordCursor(s, rs);
      if DoneOrStacked(c, s.done, s.stackFile, rs.blockRoot) {
        RecordKeepsCovered(c, s, rs);
      } else if !Loses(c, s, DutyDone) {
        assert Covered(c, t);
      } else {
        assert t.first.value <= rs.blockRoot <= t.high;
      }
    } else {
      assert t.done >= s.done && t.stackFile == s.stackFile && t.first == s.first && t.high == s.high;
      assert forall r :: DoneOrStacked(c, s.done, s.stackFile, r) ==> DoneOrStacked(c, t.done, s.stackFile, r);
    }
  }

  // A step keeps the promise if and only if it does not lose.
  lemma CoveredIff(c: Config, s: Sys, e: Event)
    requires Inv(c, s) && Covered(c, s) && Enabled(c, s, e)
    ensures Covered(c, Apply(c, s, e)) <==> !Loses(c, s, e)
  {
    match e
    case DutyDone => DutyCovers(c, s);
    case StackWritten =>
      StackOnDiskCovers(c, s);
      if s.phase.AwaitPurgeWrite? {
        RecordKeepsCovered(c, s.(stackFile := s.stack), s.phase.rs);
      }
    case WriteRejectedLate => StackOnDiskCovers(c, s);
    case _ => hide Inv, CoveredBy;
  }

  ghost predicate CoveredThroughout(c: Config, s: Sys, es: seq<Event>)
    requires ValidRun(c, s, es)
    decreases |es|
  {
    Covered(c, s) && (es == [] || CoveredThroughout(c, Apply(c, s, es[0]), es[1..]))
  }

  ghost predicate LosesNowhere(c: Config, s: Sys, es: seq<Event>)
    requires ValidRun(c, s, es)
    decreases |es|
  {
    es == [] || (!Loses(c, s, es[0]) && LosesNowhere(c, Apply(c, s, es[0]), es[1..]))
  }

  lemma {:induction false} CoveredFrom(c: Config, s: Sys, es: seq<Event>)
    requires Inv(c, s) && Covered(c, s) && ValidRun(c, s, es)
    ensures CoveredThroughout(c, s, es) <==> LosesNowhere(c, s, es)
    decreases |es|
  {
    hide Inv, Covered, Loses, Apply;
    if es == [] {
    } else {
      InvStep(c, s, es[0]);
      CoveredIff(c, s, es[0]);
      if Covered(c, Apply(c, s, es[0])) {
        CoveredFrom(c, Apply(c, s, es[0]), es[1..]);
      }
    }
  }

  // Main result: in every run from a fresh installation, with any failures, no block is lost at any
  // time if and only if no step loses one.
  lemma NothingIsLostIff(c: Config, s: Sys, es: seq<Event>)
    requires Initial(c, s) && ValidRun(c, s, es)
    ensures CoveredThroughout(c, s, es) <==> LosesNowhere(c, s, es)
  {
    InitialInv(c, s);
    CoveredFrom(c, s, es);
  }

  lemma {:induction false} CoveredAtEnd(c: Config, s: Sys, es: seq<Event>)
    requires ValidRun(c, s, es) && CoveredThroughout(c, s, es)
    ensures Covered(c, After(c, s, es))
    decreases |es|
  {
    if es == [] {
    } else {
      CoveredAtEnd(c, Apply(c, s, es[0]), es[1..]);
    }
  }

  // ---- What loses ----

  // The slots whose push was rejected without effect, with no write of the stack and no restart since.
  ghost function RejectedNow(s: Sys, e: Event, rejected: set<nat>): set<nat> {
    match e
    case PushWriteFails => if s.phase.AwaitPushWrite? then rejected + {s.phase.rs.slotNumber} else rejected
    case StackWritten => {}
    case Crash => {}
    case WriteRejectedLate => if s.phase.AwaitCursorWrite? then rejected else {}
    case _ => rejected
  }

  ghost function RejectedAfter(c: Config, s: Sys, es: seq<Event>, rejected: set<nat>): set<nat>
    requires ValidRun(c, s, es)
    decreases |es|
  {
    if es == [] then rejected else RejectedAfter(c, Apply(c, s, es[0]), es[1..], RejectedNow(s, es[0], rejected))
  }

  // What is in memory alone was rejected, or is being written.
  ghost predicate InMemoryAlone(s: Sys, rejected: set<nat>) {
    forall k :: k in s.stack && k !in s.stackFile ==>
      k in rejected || (s.phase.AwaitPushWrite? && k == s.phase.rs.slotNumber)
  }

  lemma InMemoryAloneStep(c: Config, s: Sys, e: Event, rejected: set<nat>)
    requires Enabled(c, s, e) && InMemoryAlone(s, rejected)
    ensures InMemoryAlone(Apply(c, s, e), RejectedNow(s, e, rejected))
  {
  }

  lemma {:induction false} InMemoryAloneRun(c: Config, s: Sys, es: seq<Event>, rejected: set<nat>)
    requires InMemoryAlone(s, rejected) && ValidRun(c, s, es)
    ensures InMemoryAlone(After(c, s, es), RejectedAfter(c, s, es, rejected))
    decreases |es|
  {
    hide InMemoryAlone, Apply;
    if es == [] {
    } else {
      InMemoryAloneStep(c, s, es[0], rejected);
      InMemoryAloneRun(c, Apply(c, s, es[0]), es[1..], RejectedNow(s, es[0], rejected));
    }
  }

  // In every run, a step that loses a block does so because of a rejected push of its slot, with no
  // write of the stack and no restart in between.
  lemma OnlyRejectedPushesLose(c: Config, s: Sys, es: seq<Event>, e: Event)
    requires Initial(c, s) && ValidRun(c, s, es) && Enabled(c, After(c, s, es), e) && Loses(c, After(c, s, es), e)
    ensures After(c, s, es).phase.rs.slotNumber in RejectedAfter(c, s, es, {})
  {
    InitialInv(c, s);
    InvRun(c, s, es);
    InMemoryAloneRun(c, s, es, {});
  }

  ghost predicate NoLostPush(es: seq<Event>) {
    forall i :: 0 <= i < |es| ==> !es[i].PushWriteFails?
  }

  lemma {:induction false} NoLostPushNoLoss(c: Config, s: Sys, es: seq<Event>)
    requires Inv(c, s) && InMemoryAlone(s, {}) && ValidRun(c, s, es) && NoLostPush(es)
    ensures LosesNowhere(c, s, es)
    decreases |es|
  {
    if es == [] {
    } else {
      assert !es[0].PushWriteFails?;
      assert !Loses(c, s, es[0]);
      InMemoryAloneStep(c, s, es[0], {});
      InvStep(c, s, es[0]);
      hide Inv, InMemoryAlone, Apply, Loses;
      NoLostPushNoLoss(c, Apply(c, s, es[0]), es[1..]);
    }
  }

  // In particular nothing is lost when the process never survives a push that was rejected without
  // effect.
  lemma NothingIsLost(c: Config, s: Sys, es: seq<Event>)
    requires Initial(c, s) && ValidRun(c, s, es) && NoLostPush(es)
    ensures Covered(c, After(c, s, es))
  {
    InitialInv(c, s);
    NoLostPushNoLoss(c, s, es);
    NothingIsLostIff(c, s, es);
    CoveredAtEnd(c, s, es);
  }

  const THREE_BLOCKS := Config([0, 10, 20], None, 0, 32, Trust.Windows(0, 0))

  // Block 1 of three is done; block 2 is outside both windows.
  function FirstDone(stack: Stack, seen: nat): Sys {
    var one := RootSlot(1, 10);
    Sys(stack, Some(one), map[], Some(one), 10, 10, Idle, 2, seen, {1}, [Purge(one, [10, 10], 10)], Some(1), 1)
  }

  lemma DutiesOfFirstBlock(c: Config, s: Sys, es: seq<Event>) returns (fs: seq<Event>, t: Sys)
    requires c == THREE_BLOCKS && ValidRun(c, s, es)
    requires After(c, s, es) == Sys(map[10 := 1], None, map[10 := 1], None, 10, 10,
                                    AwaitDuty(RootSlot(1, 10), [10]), 2, 1, {}, [], None, 0)
    ensures ValidRun(c, s, fs) && After(c, s, fs) == t == FirstDone(map[], 1)
  {
    var one := RootSlot(1, 10);
    fs, t := Extend(c, s, es, DutyDone);
    assert t.phase == AwaitDuty(one, [10, 10]);
    fs, t := Extend(c, s, fs, DutyDone);
    assert t.phase == AwaitPurgeWrite(one) && t.stack == map[];
    fs, t := Extend(c, s, fs, StackWritten);
    fs, t := Extend(c, s, fs, CursorWritten);
  }

  lemma FirstBlockDone() returns (c: Config, s: Sys, es: seq<Event>, t: Sys)
    ensures c == THREE_BLOCKS && Initial(c, s)
    ensures ValidRun(c, s, es) && After(c, s, es) == t == FirstDone(map[], 1)
  {
    c := THREE_BLOCKS;
    s := Sys(map[], None, map[], None, 10, 10, Idle, 2, 1, {}, [], None, 0);
    t := s;
    var one := RootSlot(1, 10);
    es := [];
    es, t := Extend(c, s, es, Tick(1));
    es, t := Extend(c, s, es, BlockArrived);
    es, t := Extend(c, s, es, StackWritten);
    assert t == Sys(map[10 := 1], None, map[10 := 1], None, 10, 10, AwaitDuty(one, [10]), 2, 1, {}, [], None, 0);
    es, t := DutiesOfFirstBlock(c, s, es);
  }

  lemma FailedPush(c: Config, s: Sys, es: seq<Event>) returns (fs: seq<Event>, t: Sys)
    requires c == THREE_BLOCKS && ValidRun(c, s, es) && After(c, s, es) == FirstDone(map[], 1)
    ensures ValidRun(c, s, fs) && After(c, s, fs) == t == FirstDone(map[20 := 2], 2)
    ensures NextEligible(c.windows, t.stack, t.index) == None
  {
    var u := After(c, s, es);
    assert NextEligible(c.windows, u.stack, u.index) == None;
    fs, t := Extend(c, s, es, Tick(2));
    fs, t := Extend(c, s, fs, ChildArrived);
    fs, t := Extend(c, s, fs, BlockArrived);
    assert t.stack == map[20 := 2];
    fs, t := Extend(c, s, fs, PushWriteFails);
  }

  // Such a loss can be reached: if the write of a push is rejected and the process goes on, the next
  // push of the same slot finds it in memory, writes nothing, and the cursor moves past a block
  // that is neither done nor on disk.
  lemma SurvivedPushFailureLosesABlock() returns (c: Config, s: Sys, es: seq<Event>)
    ensures Initial(c, s) && ValidRun(c, s, es) && !Covered(c, After(c, s, es))
  {
    var t;
    c, s, es, t := FirstBlockDone();
    es, t := FailedPush(c, s, es);
    es, t := Extend(c, s, es, Tick(2));
    es, t := Extend(c, s, es, ChildArrived);
    es, t := Extend(c, s, es, BlockArrived);
    var two := RootSlot(2, 20);
    assert t.phase == AwaitDuty(two, [10]);
    es, t := Extend(c, s, es, DutyDone);
    assert t.phase == AwaitDuty(two, [10, 10]);
    es, t := Extend(c, s, es, DutyDone);
    assert t.high == 2 && t.done == {1} && t.stackFile == map[];
    assert !DoneOrStacked(c, t.done, t.stackFile, 2);
  }
}
