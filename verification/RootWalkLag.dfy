/** The lag gate: after the cold start the walk stays a distance behind the finalized head. */
module RootWalkLag {
  import opened Wrappers
  import Trust
  import opened RootWalk
  import opened RootWalkSafety

  // A block is at most the first one, or at least `lag` slots behind the finalized head.
  ghost predicate Behind(c: Config, s: Sys, root: nat)
    requires s.first.Some? && s.finalized < |c.slots|
  {
    root <= s.first.value || (root < |c.slots| && c.slots[root] + c.lag <= c.slots[s.finalized])
  }

  ghost predicate StackBehind(c: Config, s: Sys, m: Stack)
    requires s.first.Some? && s.finalized < |c.slots|
  {
    forall k :: k in m ==> Behind(c, s, m[k])
  }

  // A block is far enough behind a head.
  ghost predicate LetThrough(c: Config, head: nat, slotNumber: nat)
    requires head < |c.slots|
  {
    c.lag == 0 || slotNumber + c.lag <= c.slots[head]
  }

  // What a turn takes: a stacked root that is eligible exactly if it is far enough behind the head, and
  // the child of the cursor only if there is none and the cursor is not at the head.
  lemma TurnTakes(c: Config, s: Sys, head: nat)
    requires Enabled(c, s, Tick(head)) && s.phase.Idle? && s.cursor.Some?
    ensures var next := Apply(c, s, Tick(head)).phase;
      match NextEligible(c.windows, s.stack, s.index)
      case Some(rs) => next == if LetThrough(c, head, rs.slotNumber) then AwaitBlock(rs.blockRoot) else Idle
      case None => next == if s.cursor.value.blockRoot == head then Idle else AwaitChild(s.cursor.value, head)
  {
  }

  // A child that is finalized is taken exactly if it is far enough behind the head of its turn.
  lemma ChildIsTaken(c: Config, s: Sys)
    requires Enabled(c, s, ChildArrived)
    ensures var child := s.phase.last.blockRoot + 1;
      Apply(c, s, ChildArrived).phase ==
        if child <= s.finalized && LetThrough(c, s.phase.head, c.slots[child]) then AwaitBlock(child) else Idle
  {
  }

  // Everything the walk has touched is behind: the block in processing, the stack and its file, the
  // finished blocks and the high-water mark.
  ghost predicate KeepsLag(c: Config, s: Sys)
    requires s.finalized < |c.slots|
  {
    s.first.Some? ==>
      && (Current(s.phase).Some? ==> Behind(c, s, Current(s.phase).value))
      && StackBehind(c, s, s.stack) && StackBehind(c, s, s.stackFile)
      && (forall r :: r in s.done ==> Behind(c, s, r))
      && Behind(c, s, s.high)
  }

  // Finished blocks were seen; before a first root is recorded they are at most the block that
  // becomes it.
  ghost predicate ColdDone(c: Config, s: Sys) {
    && (c.startRoot.None? ==> forall r :: r in s.done ==> r <= s.seen)
    && (s.first.None? ==>
          forall r :: r in s.done ==>
            if c.startRoot.Some? then r == c.startRoot.value
            else Current(s.phase).Some? ==> r <= Current(s.phase).value)
  }

  ghost predicate LagInv(c: Config, s: Sys) {
    Inv(c, s) && KeepsLag(c, s) && ColdDone(c, s)
  }

  lemma HeadsRise(c: Config, head: nat, later: nat)
    requires ValidConfig(c) && head <= later < |c.slots|
    ensures c.slots[head] <= c.slots[later]
  {
    assert head < later ==> Before(c.slots, head, later);
  }

  lemma FinalizeKeepsLag(c: Config, s: Sys, head: nat)
    requires LagInv(c, s) && Enabled(c, s, Finalize(head))
    ensures KeepsLag(c, s.(finalized := head))
  {
    HeadsRise(c, s.finalized, head);
    if s.first.Some? {
      assert forall r: nat :: Behind(c, s, r) ==> Behind(c, s.(finalized := head), r);
    }
  }

  // The gate on a stacked root.
  lemma ChosenIsBehind(c: Config, s: Sys, head: nat)
    requires LagInv(c, s) && c.lag > 0 && head <= s.finalized && s.phase.Idle? && s.first.Some?
    ensures var p := ChooseNext(c, s.stack, s.cursor, s.index, head);
      Current(p).Some? ==> Behind(c, s, Current(p).value)
  {
    hide FilesAgree, Cold, KeepsLag, ColdDone;
    HeadsRise(c, head, s.finalized);
    var next := NextEligible(c.windows, s.stack, s.index);
    assert next.Some? ==> ValidRootSlot(c, next.value, s.finalized);
  }

  lemma TickKeepsLag(c: Config, s: Sys, head: nat)
    requires LagInv(c, s) && Enabled(c, s, Tick(head)) && c.lag > 0
    ensures KeepsLag(c, Apply(c, s, Tick(head))) && ColdDone(c, Apply(c, s, Tick(head)))
  {
    if s.phase.Idle? && s.first.Some? {
      ChosenIsBehind(c, s, head);
    }
    hide FilesAgree, Warm, ValidStack;
  }

  // The gate on a child.
  lemma ChildIsBehind(c: Config, s: Sys)
    requires LagInv(c, s) && Enabled(c, s, ChildArrived) && c.lag > 0
    ensures var p := OnChild(c, s).phase;
      p.AwaitBlock? && s.first.Some? ==> Behind(c, s, p.root)
  {
    hide FilesAgree, Cold, AllSeen, Warm, KeepsLag, ColdDone;
    HeadsRise(c, s.phase.head, s.finalized);
  }

  lemma ChildKeepsLag(c: Config, s: Sys)
    requires LagInv(c, s) && Enabled(c, s, ChildArrived) && c.lag > 0
    ensures KeepsLag(c, Apply(c, s, ChildArrived)) && ColdDone(c, Apply(c, s, ChildArrived))
  {
    ChildIsBehind(c, s);
    hide FilesAgree, AllSeen, Warm, ValidStack;
  }

  lemma CursorKeepsLag(c: Config, s: Sys)
    requires LagInv(c, s) && Enabled(c, s, CursorWritten)
    ensures KeepsLag(c, Apply(c, s, CursorWritten)) && ColdDone(c, Apply(c, s, CursorWritten))
  {
  }

  lemma BlockKeepsLag(c: Config, s: Sys)
    requires LagInv(c, s) && Enabled(c, s, BlockArrived)
    ensures KeepsLag(c, Apply(c, s, BlockArrived)) && ColdDone(c, Apply(c, s, BlockArrived))
  {
    hide FilesAgree, Cold, Warm;
  }

  // Recording the block in processing.
  lemma RecordKeepsLag(c: Config, s: Sys, rs: RootSlot)
    requires s.finalized < |c.slots| && KeepsLag(c, s) && ColdDone(c, s) && Cold(c, s)
    requires Current(s.phase) == Some(rs.blockRoot)
    ensures KeepsLag(c, RecordCursor(s, rs)) && ColdDone(c, RecordCursor(s, rs))
  {
  }

  lemma WriteKeepsLag(c: Config, s: Sys)
    requires LagInv(c, s) && Enabled(c, s, StackWritten)
    ensures KeepsLag(c, Apply(c, s, StackWritten)) && ColdDone(c, Apply(c, s, StackWritten))
  {
    hide FilesAgree, ValidStack;
  }

  // Finishing the block in processing.
  lemma FinishKeepsLag(c: Config, s: Sys, rs: RootSlot, purges: seq<Purge>)
    requires LagInv(c, s) && Current(s.phase) == Some(rs.blockRoot)
    ensures var t := s.(done := s.done + {rs.blockRoot}, purges := purges);
      KeepsLag(c, t) && ColdDone(c, t) && Cold(c, t)
  {
    hide Shape, FilesAgree, Warm;
  }

  // Going on with the block in processing, with no new block on the stack.
  lemma SameBlockKeepsLag(c: Config, s: Sys, stack: Stack, phase: Phase)
    requires s.finalized < |c.slots| && KeepsLag(c, s) && ColdDone(c, s) && Current(phase) == Current(s.phase)
    requires forall k :: k in stack ==> k in s.stack && stack[k] == s.stack[k]
    ensures KeepsLag(c, s.(stack := stack, phase := phase)) && ColdDone(c, s.(stack := stack, phase := phase))
  {
  }

  lemma DutyKeepsLag(c: Config, s: Sys)
    requires LagInv(c, s) && Enabled(c, s, DutyDone)
    ensures KeepsLag(c, Apply(c, s, DutyDone)) && ColdDone(c, Apply(c, s, DutyDone))
  {
    var rs, purges := s.phase.rs, s.purges + [Purge(s.phase.rs, s.phase.keyReads, s.index)];
    var t, finished := Apply(c, s, DutyDone), s.(done := s.done + {rs.blockRoot}, purges := purges);
    FinishKeepsLag(c, s, rs, purges);
    hide KeepsLag, ColdDone, Shape, FilesAgree, Cold, Warm, AllSeen, IsFirstBlockInEpoch, Trust.TrustedForEveryDuty;
    if t.phase.AwaitDuty? {
      SameBlockKeepsLag(c, s, s.stack, t.phase);
    } else if t.phase.AwaitPurgeWrite? {
      SameBlockKeepsLag(c, finished, s.stack - {rs.slotNumber}, t.phase);
    } else {
      RecordKeepsLag(c, s, rs);
      RecordKeepsLag(c, finished, rs);
    }
  }

  lemma RestKeepsLag(c: Config, s: Sys, e: Event)
    requires LagInv(c, s) && Enabled(c, s, e)
    requires e.Fail? || e.PushWriteFails? || e.WriteRejectedLate? || e.Crash? || e.IndexCommit? || e.IndexSaved?
    ensures KeepsLag(c, Apply(c, s, e)) && ColdDone(c, Apply(c, s, e))
  {
    hide FilesAgree, Warm, ValidStack;
  }

  lemma LagStep(c: Config, s: Sys, e: Event)
    requires LagInv(c, s) && Enabled(c, s, e) && c.lag > 0
    ensures LagInv(c, Apply(c, s, e))
  {
    InvStep(c, s, e);
    hide Inv, KeepsLag;
    match e
    case Finalize(head) => FinalizeKeepsLag(c, s, head);
    case Tick(head) => TickKeepsLag(c, s, head);
    case ChildArrived => ChildKeepsLag(c, s);
    case CursorWritten => CursorKeepsLag(c, s);
    case BlockArrived => BlockKeepsLag(c, s);
    case StackWritten => WriteKeepsLag(c, s);
    case DutyDone => DutyKeepsLag(c, s);
    case _ => RestKeepsLag(c, s, e);
  }

  lemma {:induction false} LagRun(c: Config, s: Sys, es: seq<Event>)
    requires LagInv(c, s) && ValidRun(c, s, es) && c.lag > 0
    ensures LagInv(c, After(c, s, es))
    decreases |es|
  {
    hide LagInv;
    if es == [] {
    } else {
      LagStep(c, s, es[0]);
      LagRun(c, Apply(c, s, es[0]), es[1..]);
    }
  }

  // In every run, whatever fails, no block after the first one is taken into processing, stacked,
  // finished or recorded before it is `lag` slots behind the finalized head.
  lemma WalkKeepsItsDistance(c: Config, s: Sys, es: seq<Event>)
    requires Initial(c, s) && ValidRun(c, s, es) && c.lag > 0
    ensures After(c, s, es).finalized < |c.slots| && KeepsLag(c, After(c, s, es))
  {
    InitialInv(c, s);
    LagRun(c, s, es);
  }
}
