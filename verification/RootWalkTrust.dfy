/** What the trust checks guarantee over whole runs, and where they do not. */
module RootWalkTrust {
  import opened Wrappers
  import opened Trust
  import opened RootWalk

  // Trust is downward closed in the block's slot and upward closed in the indexer's slot.
  lemma TrustIsMonotone(w: Windows, index: nat, later: nat, slot: nat, lower: nat)
    requires index <= later && lower <= slot
    ensures TrustedForAnyDuty(w, index, slot) ==> TrustedForAnyDuty(w, later, lower)
    ensures TrustedForEveryDuty(w, index, slot) ==> TrustedForEveryDuty(w, later, lower)
  {
  }

  // A block is trusted for some duty up to the wider of the two windows past the indexer's slot, and for
  // every duty up to the narrower one.
  lemma TrustedUpTo(w: Windows, index: nat, slot: nat)
    ensures var (narrow, wide) :=
        if w.slashing < w.withdrawal then (w.slashing, w.withdrawal) else (w.withdrawal, w.slashing);
      && (TrustedForAnyDuty(w, index, slot) <==> slot <= index + wide)
      && (TrustedForEveryDuty(w, index, slot) <==> slot <= index + narrow)
  {
  }

  // The scan over the sorted stack finds the lowest slot or nothing.
  lemma NextEligibleIsMinimum(w: Windows, stack: Stack, index: nat)
    ensures stack == map[] ==> NextEligible(w, stack, index) == None
    ensures stack != map[] ==>
      var k := Least(stack.Keys);
      NextEligible(w, stack, index) == if TrustedForAnyDuty(w, index, k) then Some(RootSlot(stack[k], k)) else None
  {
    if stack != map[] {
      var k := Least(stack.Keys);
      var eligible := set j | j in stack && TrustedForAnyDuty(w, index, j);
      forall j | j in eligible
        ensures k in eligible
      {
        TrustIsMonotone(w, index, index, j, k);
      }
    }
  }

  ghost predicate AllReads(p: Purge, w: Windows) {
    forall i :: 0 <= i < |p.keyReads| ==> TrustedForEveryDuty(w, p.keyReads[i], p.rs.slotNumber)
  }

  ghost predicate RisingTo(keyReads: seq<nat>, top: nat) {
    && keyReads != []
    && (forall i :: 0 <= i < |keyReads| ==> keyReads[0] <= keyReads[i] <= top)
  }

  ghost predicate PurgesChecked(c: Config, s: Sys) {
    && (s.phase.AwaitDuty? ==> RisingTo(s.phase.keyReads, s.index))
    && forall i :: 0 <= i < |s.purges| ==>
         && RisingTo(s.purges[i].keyReads, s.purges[i].checkedAt)
         && TrustedForEveryDuty(c.windows, s.purges[i].checkedAt, s.purges[i].rs.slotNumber)
  }

  lemma PurgesCheckedStep(c: Config, s: Sys, e: Event)
    requires PurgesChecked(c, s) && Enabled(c, s, e)
    ensures PurgesChecked(c, Apply(c, s, e))
  {
  }

  lemma {:induction false} PurgesCheckedRun(c: Config, s: Sys, es: seq<Event>)
    requires PurgesChecked(c, s) && ValidRun(c, s, es)
    ensures PurgesChecked(c, After(c, s, es))
    decreases |es|
  {
    if es == [] {
    } else {
      PurgesCheckedStep(c, s, es[0]);
      PurgesCheckedRun(c, Apply(c, s, es[0]), es[1..]);
    }
  }

  // Exactly when a purge is sound: every duty of a purged block read keys within both windows if
  // and only if the first duty did.
  lemma PurgeSoundIffFirstReadTrusted(c: Config, s: Sys, es: seq<Event>, i: nat)
    requires Initial(c, s) && ValidRun(c, s, es) && i < |After(c, s, es).purges|
    ensures var p := After(c, s, es).purges[i];
      && p.keyReads != []
      && (AllReads(p, c.windows) <==> TrustedForEveryDuty(c.windows, p.keyReads[0], p.rs.slotNumber))
  {
    PurgesCheckedRun(c, s, es);
    var p := After(c, s, es).purges[i];
    forall j | 0 <= j < |p.keyReads|
      ensures TrustedForEveryDuty(c.windows, p.keyReads[0], p.rs.slotNumber) ==>
        TrustedForEveryDuty(c.windows, p.keyReads[j], p.rs.slotNumber)
    {
      TrustIsMonotone(c.windows, p.keyReads[0], p.keyReads[j], p.rs.slotNumber, p.rs.slotNumber);
    }
  }

  // No indexer update is committed between a root's first key read and its trust check.
  ghost predicate Quiet(c: Config, s: Sys, es: seq<Event>)
    requires ValidRun(c, s, es)
    decreases |es|
  {
    es == [] || ((es[0].IndexCommit? ==> !s.phase.AwaitDuty?) && Quiet(c, Apply(c, s, es[0]), es[1..]))
  }

  ghost predicate ReadsAreCurrent(s: Sys) {
    && (s.phase.AwaitDuty? ==> forall i :: 0 <= i < |s.phase.keyReads| ==> s.phase.keyReads[i] == s.index)
    && forall i :: 0 <= i < |s.purges| ==>
         forall j :: 0 <= j < |s.purges[i].keyReads| ==> s.purges[i].keyReads[j] == s.purges[i].checkedAt
  }

  lemma {:induction false} ReadsAreCurrentRun(c: Config, s: Sys, es: seq<Event>)
    requires ReadsAreCurrent(s) && ValidRun(c, s, es) && Quiet(c, s, es)
    ensures ReadsAreCurrent(After(c, s, es))
    decreases |es|
  {
    if es == [] {
    } else {
      ReadsAreCurrentRun(c, Apply(c, s, es[0]), es[1..]);
    }
  }

  lemma QuietPurgesAreSound(c: Config, s: Sys, es: seq<Event>, i: nat)
    requires Initial(c, s) && ValidRun(c, s, es) && Quiet(c, s, es) && i < |After(c, s, es).purges|
    ensures AllReads(After(c, s, es).purges[i], c.windows)
  {
    PurgesCheckedRun(c, s, es);
    ReadsAreCurrentRun(c, s, es);
  }

  // A chain with one block to process, outside both windows of the first block's slot.
  function FarBlock(w: Windows): Config {
    Config([1, 2 + w.slashing + w.withdrawal], None, 0, 1, w)
  }

  // The block's slot was read once with the old index; then an update has been committed.
  function Committed(w: Windows, keyReads: seq<nat>): Sys {
    var far := 2 + w.slashing + w.withdrawal;
    Sys(map[far := 1], None, map[far := 1], None, far, 1, AwaitDuty(RootSlot(1, far), keyReads), 1, 1, {}, [], None, 0)
  }

  lemma FinishTheDuties(w: Windows, s: Sys, es: seq<Event>) returns (fs: seq<Event>, t: Sys)
    requires ValidRun(FarBlock(w), s, es) && After(FarBlock(w), s, es) == Committed(w, [1])
    ensures var far := 2 + w.slashing + w.withdrawal;
      && ValidRun(FarBlock(w), s, fs) && After(FarBlock(w), s, fs) == t
      && t.purges == [Purge(RootSlot(1, far), [1, far, far], far)]
  {
    var c, far := FarBlock(w), 2 + w.slashing + w.withdrawal;
    fs, t := Extend(c, s, es, DutyDone);
    assert t.phase.keyReads == [1, far] && t == Committed(w, [1, far]);
    assert SlotToEpoch(c, 1) == 1 && SlotToEpoch(c, far) == far;
    assert IsFirstBlockInEpoch(c, t.cursor, 1);
    fs, t := Extend(c, s, fs, DutyDone);
    assert t.phase.keyReads == [1, far, far] && t == Committed(w, [1, far, far]);
    fs, t := Extend(c, s, fs, DutyDone);
  }

  // With a commit in between a block is purged although its duties began on outdated keys: whatever
  // the windows are, some chain and run show it.
  lemma CommitBeforeCheckHidesOldReads(w: Windows)
    returns (c: Config, s: Sys, es: seq<Event>)
    ensures c.windows == w && s.indexFile > 0 && Initial(c, s) && ValidRun(c, s, es)
    ensures |After(c, s, es).purges| == 1 && !AllReads(After(c, s, es).purges[0], w)
  {
    var far := 2 + w.slashing + w.withdrawal;
    c := FarBlock(w);
    s := Sys(map[], None, map[], None, 1, 1, Idle, 1, 1, {}, [], None, 0);
    var t := s;
    es := [];
    es, t := Extend(c, s, es, Tick(1));
    es, t := Extend(c, s, es, BlockArrived);
    es, t := Extend(c, s, es, StackWritten);
    es, t := Extend(c, s, es, IndexCommit(far));
    assert t == Committed(w, [1]);
    es, t := FinishTheDuties(w, s, es);
    assert !TrustedForEveryDuty(w, t.purges[0].keyReads[0], far);
  }
}
