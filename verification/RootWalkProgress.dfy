/** Runs without failures, root by root: what processing one root does, and when it is replayed for
    ever. */
module RootWalkProgress {
  import opened Wrappers
  import Trust
  import opened RootWalk
  import opened RootWalkSafety

  // What the daemon does next when nothing fails and the finalized head stays.
  function Forced(s: Sys): Event {
    match s.phase
    case Idle => Tick(s.finalized)
    case AwaitChild(_, _) => ChildArrived
    case AwaitBlock(_) => BlockArrived
    case AwaitPushWrite(_) => StackWritten
    case AwaitDuty(_, _) => DutyDone
    case AwaitPurgeWrite(_) => StackWritten
    case AwaitCursorWrite(_) => CursorWritten
  }

  ghost function Advance(c: Config, s: Sys): Sys {
    if Enabled(c, s, Forced(s)) then Apply(c, s, Forced(s)) else s
  }

  ghost function Walk(c: Config, s: Sys, n: nat): Sys
    decreases n
  {
    if n == 0 then s else Walk(c, Advance(c, s), n - 1)
  }

  // The indexer has data, so that turns are taken.
  ghost predicate Ready(c: Config, s: Sys) {
    Inv(c, s) && s.index > 0
  }

  lemma AdvanceInv(c: Config, s: Sys)
    requires Ready(c, s)
    ensures Enabled(c, s, Forced(s)) && Ready(c, Advance(c, s))
  {
    InvStep(c, s, Forced(s));
  }

  ghost predicate NoCrash(es: seq<Event>) {
    forall i :: 0 <= i < |es| ==> !es[i].Crash?
  }

  // The failure-free walk is a run of the transition system.
  lemma {:induction false} WalkIsARun(c: Config, s: Sys, n: nat) returns (es: seq<Event>)
    requires Ready(c, s)
    ensures NoCrash(es) && ValidRun(c, s, es) && After(c, s, es) == Walk(c, s, n) && Ready(c, Walk(c, s, n))
    decreases n
  {
    if n == 0 {
      es := [];
    } else {
      AdvanceInv(c, s);
      var rest := WalkIsARun(c, Advance(c, s), n - 1);
      es := [Forced(s)] + rest;
      assert es[1..] == rest;
    }
  }

  lemma {:induction false} WalkSum(c: Config, s: Sys, n: nat, m: nat)
    ensures Walk(c, s, n + m) == Walk(c, Walk(c, s, n), m)
    decreases n
  {
    hide Advance;
    if n == 0 {
    } else {
      WalkSum(c, Advance(c, s), n - 1, m);
    }
  }

  // Processing rs took the state from s to t: the cursor is rs, and rs is off the stack and done
  // exactly when the indexer is trusted for every duty.
  ghost predicate Processed(c: Config, s: Sys, rs: RootSlot, t: Sys) {
    && t.phase.Idle? && t.index == s.index && t.finalized == s.finalized && t.seen == s.seen
    && t.cursor == t.cursorFile == Some(rs) && t.first.Some?
    && if Trust.TrustedForEveryDuty(c.windows, s.index, rs.slotNumber) then
         t.stack == s.stack - {rs.slotNumber} && t.done == s.done + {rs.blockRoot}
       else
         t.stack == s.stack[rs.slotNumber := rs.blockRoot] && t.done == s.done
  }

  ghost predicate OnStack(c: Config, s: Sys, rs: RootSlot) {
    && c.slotsPerEpoch > 0
    && 1 <= rs.blockRoot < |c.slots| && c.slots[rs.blockRoot] == rs.slotNumber
    && rs.slotNumber in s.stack && s.stack[rs.slotNumber] == rs.blockRoot
  }

  lemma FinishDuties(c: Config, s: Sys) returns (n: nat)
    requires s.phase.AwaitDuty? && OnStack(c, s, s.phase.rs)
    ensures Processed(c, s, s.phase.rs, Walk(c, s, n))
    decreases 3 - |s.phase.keyReads|
  {
    var s1 := Advance(c, s);
    if s1.phase.AwaitDuty? {
      var m := FinishDuties(c, s1);
      n := m + 1;
    } else {
      var s2 := Advance(c, s1);
      if s1.phase.AwaitPurgeWrite? {
        var s3 := Advance(c, s2);
        n := 3;
        assert Walk(c, s, 3) == Walk(c, s1, 2) == Walk(c, s2, 1) == Walk(c, s3, 0);
      } else {
        n := 2;
        assert Walk(c, s, 2) == Walk(c, s1, 1) == Walk(c, s2, 0);
        assert s.stack == s.stack[s.phase.rs.slotNumber := s.phase.rs.blockRoot];
      }
    }
  }

  lemma ProcessStacked(c: Config, s: Sys) returns (n: nat)
    requires Ready(c, s) && s.phase.AwaitBlock? && c.slots[s.phase.root] in s.stack
    ensures Processed(c, s, RootSlot(s.phase.root, c.slots[s.phase.root]), Walk(c, s, n))
  {
    var rs := RootSlot(s.phase.root, c.slots[s.phase.root]);
    assert ValidRootSlot(c, RootSlot(s.stack[rs.slotNumber], rs.slotNumber), s.finalized);
    SameSlot(c, s.stack[rs.slotNumber], rs.blockRoot);
    hide FilesAgree, Cold, AllSeen, Warm, ValidStack;
    var m := FinishDuties(c, Advance(c, s));
    n := m + 1;
  }

  lemma ProcessPushed(c: Config, s: Sys) returns (n: nat)
    requires Ready(c, s) && s.phase.AwaitBlock? && c.slots[s.phase.root] !in s.stack
    ensures Processed(c, s, RootSlot(s.phase.root, c.slots[s.phase.root]), Walk(c, s, n))
  {
    var rs := RootSlot(s.phase.root, c.slots[s.phase.root]);
    hide FilesAgree, Cold, AllSeen, Warm, ValidStack;
    var s1 := Advance(c, s);
    var s2 := Advance(c, s1);
    assert s2 == s.(stack := s.stack[rs.slotNumber := rs.blockRoot], stackFile := s2.stackFile,
                    phase := AwaitDuty(rs, [s.index]));
    var m := FinishDuties(c, s2);
    hide Advance;
    n := m + 2;
    assert Walk(c, s, n) == Walk(c, s1, m + 1) == Walk(c, s2, m);
    assert s.stack - {rs.slotNumber} == s.stack[rs.slotNumber := rs.blockRoot] - {rs.slotNumber};
  }

  lemma ProcessRoot(c: Config, s: Sys) returns (n: nat)
    requires Ready(c, s) && s.phase.AwaitBlock?
    ensures Processed(c, s, RootSlot(s.phase.root, c.slots[s.phase.root]), Walk(c, s, n))
  {
    if c.slots[s.phase.root] in s.stack {
      n := ProcessStacked(c, s);
    } else {
      n := ProcessPushed(c, s);
    }
  }

  // The next root taken from the stack, start to end.
  lemma ReplayRoot(c: Config, s: Sys, rs: RootSlot) returns (n: nat)
    requires Ready(c, s) && s.phase.Idle? && s.cursor.Some?
    requires NextEligible(c.windows, s.stack, s.index) == Some(rs) && !HeldBack(c, s.finalized, rs.slotNumber)
    ensures n > 0 && Processed(c, s.(seen := s.finalized), rs, Walk(c, s, n)) && Ready(c, Walk(c, s, n))
  {
    var s1 := Advance(c, s);
    AdvanceInv(c, s);
    assert ValidRootSlot(c, rs, s.finalized);
    assert s1 == s.(seen := s.finalized, phase := AwaitBlock(rs.blockRoot));
    var m := ProcessRoot(c, s1);
    n := m + 1;
    var _ := WalkIsARun(c, s, n);
  }

  // The child of the last processed root, start to end.
  lemma ProcessChild(c: Config, s: Sys) returns (n: nat)
    requires Ready(c, s) && s.phase.Idle? && s.cursor.Some? && s.cursor.value.blockRoot < s.finalized
    requires NextEligible(c.windows, s.stack, s.index) == None
    requires !HeldBack(c, s.finalized, c.slots[s.cursor.value.blockRoot + 1])
    ensures var child := s.cursor.value.blockRoot + 1;
      n > 0 && Processed(c, s.(seen := s.finalized), RootSlot(child, c.slots[child]), Walk(c, s, n))
    ensures Ready(c, Walk(c, s, n))
  {
    var s1 := Advance(c, s);
    AdvanceInv(c, s);
    var child := s.cursor.value.blockRoot + 1;
    assert s1 == s.(seen := s.finalized, phase := AwaitChild(s.cursor.value, s.finalized));
    var s2 := Advance(c, s1);
    AdvanceInv(c, s1);
    assert s2 == s1.(phase := AwaitBlock(child));
    var m := ProcessRoot(c, s2);
    n := m + 2;
    assert Walk(c, s, n) == Walk(c, s1, m + 1) == Walk(c, s2, m);
    var _ := WalkIsARun(c, s, n);
  }

  ghost predicate Rested(s: Sys, t: Sys) {
    t.phase.Idle? && t.cursor.Some? && t.index == s.index && t.finalized == s.finalized
  }

  lemma FinishWrites(c: Config, s: Sys) returns (n: nat)
    requires s.phase.AwaitPurgeWrite? || (s.phase.AwaitCursorWrite? && s.cursor.Some?)
    ensures Rested(s, Walk(c, s, n))
  {
    var s1 := Advance(c, s);
    if s.phase.AwaitCursorWrite? {
      n := 1;
      assert Walk(c, s, 1) == Walk(c, s1, 0);
    } else {
      n := 2;
      assert Walk(c, s, 2) == Walk(c, s1, 1) == Walk(c, Advance(c, s1), 0);
    }
  }

  lemma CurrentIsStacked(c: Config, s: Sys)
    requires Ready(c, s) && (s.phase.AwaitPushWrite? || s.phase.AwaitDuty?)
    ensures OnStack(c, s, s.phase.rs)
  {
    var rs := s.phase.rs;
    assert ValidRootSlot(c, RootSlot(s.stack[rs.slotNumber], rs.slotNumber), s.finalized);
    SameSlot(c, s.stack[rs.slotNumber], rs.blockRoot);
  }

  lemma FinishRoot(c: Config, s: Sys) returns (n: nat)
    requires Ready(c, s) && Current(s.phase).Some?
    ensures Rested(s, Walk(c, s, n))
  {
    if s.phase.AwaitBlock? {
      n := ProcessRoot(c, s);
    } else if s.phase.AwaitPurgeWrite? || s.phase.AwaitCursorWrite? {
      n := FinishWrites(c, s);
    } else {
      CurrentIsStacked(c, s);
      if s.phase.AwaitDuty? {
        n := FinishDuties(c, s);
      } else {
        var m := FinishDuties(c, Advance(c, s));
        n := m + 1;
      }
    }
  }

  lemma TurnEnds(c: Config, s: Sys)
    requires Shape(c, s) && Cold(c, s) && Warm(c, s)
    requires s.index > 0 && (s.phase.AwaitChild? || (s.phase.Idle? && s.cursor.None?))
    ensures var t := Advance(c, s);
      (t.phase.AwaitBlock? && t.index == s.index && t.finalized == s.finalized) || Rested(s, t)
  {
  }

  // The pending turn or root ends with a cursor on disk.
  lemma ReachIdle(c: Config, s: Sys) returns (n: nat)
    requires Ready(c, s)
    ensures Rested(s, Walk(c, s, n)) && Ready(c, Walk(c, s, n))
  {
    if Current(s.phase).Some? {
      n := FinishRoot(c, s);
    } else if s.phase.Idle? && s.cursor.Some? {
      n := 0;
    } else {
      var s1 := Advance(c, s);
      AdvanceInv(c, s);
      TurnEnds(c, s);
      n := 1;
      assert Walk(c, s, 1) == Walk(c, s1, 0);
      if !Rested(s, s1) {
        var m := FinishRoot(c, s1);
        n := m + 1;
      }
    }
    var _ := WalkIsARun(c, s, n);
  }

  // Eligible for some duty but never purged: the two windows differ and the block is between them.
  lemma ReplayedButNeverPurged(w: Trust.Windows, index: nat, slot: nat)
    ensures Trust.TrustedForAnyDuty(w, index, slot) && !Trust.TrustedForEveryDuty(w, index, slot) <==>
      && slot > index
      && (w.slashing < slot - index <= w.withdrawal || w.withdrawal < slot - index <= w.slashing)
  {
  }

  // A replay takes the block off the stack exactly when the indexer is trusted for every duty.
  lemma ReplayPurgesIffTrusted(c: Config, s: Sys, rs: RootSlot) returns (n: nat)
    requires Ready(c, s) && s.phase.Idle? && s.cursor.Some?
    requires NextEligible(c.windows, s.stack, s.index) == Some(rs) && !HeldBack(c, s.finalized, rs.slotNumber)
    ensures var t := Walk(c, s, n);
      && n > 0 && t.phase.Idle? && t.cursor == Some(rs)
      && (rs.slotNumber !in t.stack <==> Trust.TrustedForEveryDuty(c.windows, s.index, rs.slotNumber))
      && (rs.slotNumber in t.stack ==> t.stack == s.stack && t.done == s.done)
  {
    n := ReplayRoot(c, s, rs);
  }

  ghost predicate StuckOn(c: Config, s: Sys, rs: RootSlot) {
    && Ready(c, s) && s.phase.Idle? && s.cursor.Some?
    && NextEligible(c.windows, s.stack, s.index) == Some(rs) && !HeldBack(c, s.finalized, rs.slotNumber)
    && !Trust.TrustedForEveryDuty(c.windows, s.index, rs.slotNumber)
  }

  lemma ReplayStaysStuck(c: Config, s: Sys, rs: RootSlot) returns (n: nat)
    requires StuckOn(c, s, rs)
    ensures var t := Walk(c, s, n);
      n > 0 && StuckOn(c, t, rs) && t.cursor == Some(rs) && t.stack == s.stack && t.done == s.done
  {
    n := ReplayRoot(c, s, rs);
    hide Ready, Walk, NextEligible, HeldBack, Trust.TrustedForEveryDuty;
    assert s.stack[rs.slotNumber := rs.blockRoot] == s.stack;
  }

  // Otherwise the walk replays the same block for ever: after any number of replays nothing has
  // changed but the cursor, so no newer block is reached until the indexer is updated.
  lemma {:induction false} StuckOnOneBlock(c: Config, s: Sys, rs: RootSlot, replays: nat) returns (n: nat)
    requires StuckOn(c, s, rs)
    ensures var t := Walk(c, s, n);
      && n >= replays && StuckOn(c, t, rs) && t.stack == s.stack && t.done == s.done
      && (if replays == 0 then n == 0 else t.cursor == Some(rs))
    decreases replays
  {
    hide Ready, NextEligible, HeldBack, Trust.TrustedForEveryDuty, Advance;
    if replays == 0 {
      n := 0;
    } else {
      var m := ReplayStaysStuck(c, s, rs);
      var rest := StuckOnOneBlock(c, Walk(c, s, m), rs, replays - 1);
      n := m + rest;
      WalkSum(c, s, m, rest);
    }
  }
}
