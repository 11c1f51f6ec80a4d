/** The walk over finalized blocks as a transition system: the memory and the files of the roots
    stack, the phase of the one root in processing, the keys indexer's state slot, and the
    finalized chain. An event is the code between two awaits, or something the outside does. */
module RootWalk {
  import opened Wrappers
  import Trust

  // A block is named by its position in the finalized chain. Block 0 has no parent in the chain
  // and is never processed.
  datatype RootSlot = RootSlot(blockRoot: nat, slotNumber: nat)

  datatype Config = Config(
    slots: seq<nat>,          // the slot of every block of the finalized chain
    startRoot: Option<nat>,   // START_ROOT
    lag: nat,                 // ROOTS_PROCESSING_LAG_SLOTS
    slotsPerEpoch: nat,
    windows: Trust.Windows)

  type Stack = map<nat, nat>  // slot -> block

  datatype Phase =
    | Idle
    | AwaitChild(last: RootSlot, head: nat)
    | AwaitBlock(root: nat)
    | AwaitPushWrite(rs: RootSlot)
    | AwaitDuty(rs: RootSlot, keyReads: seq<nat>) // the indexer's state slot at each duty's key read
    | AwaitPurgeWrite(rs: RootSlot)
    | AwaitCursorWrite(rs: RootSlot)

  // A purge decision: the key reads of the root's duties, and the state slot the check saw.
  datatype Purge = Purge(rs: RootSlot, keyReads: seq<nat>, checkedAt: nat)

  datatype Sys = Sys(
    stack: Stack,
    cursor: Option<RootSlot>,
    stackFile: Stack,
    cursorFile: Option<RootSlot>,
    index: nat,               // storageStateSlot in memory and in its file
    indexFile: nat,
    phase: Phase,
    finalized: nat,           // head of the finalized chain
    seen: nat,                // newest block the API has reported as finalized
    // history
    done: set<nat>,           // duties finished and the trust check passed
    purges: seq<Purge>,
    first: Option<nat>,       // first block recorded as last processed since the last cold start
    high: nat)                // highest block recorded as last processed since then

  datatype Event =
    | Finalize(head: nat)
    | Tick(head: nat)         // one turn of the daemon loop with this finalized header
    | ChildArrived
    | BlockArrived
    | StackWritten
    | DutyDone
    | CursorWritten
    | IndexCommit(stateSlot: nat)
    | IndexSaved
    | Fail                    // the pending await rejects, the process goes on
    | WriteRejectedLate       // the pending write is done but rejects, the process goes on
    | Crash                   // the process dies and starts again from its files
    | PushWriteFails          // the write in push rejects, the process goes on

  ghost predicate Before(slots: seq<nat>, i: nat, j: nat)
    requires i < |slots| && j < |slots|
  {
    slots[i] < slots[j]
  }

  ghost predicate Increasing(slots: seq<nat>) {
    forall i: nat, j: nat :: i < j < |slots| ==> Before(slots, i, j)
  }

  ghost predicate ValidConfig(c: Config) {
    Increasing(c.slots) && c.slotsPerEpoch > 0 && (c.startRoot.Some? ==> 1 <= c.startRoot.value)
  }

  // Two blocks never share a slot.
  lemma SameSlot(c: Config, i: nat, j: nat)
    requires ValidConfig(c) && i < |c.slots| && j < |c.slots| && c.slots[i] == c.slots[j]
    ensures i == j
  {
    assert i < j ==> Before(c.slots, i, j);
    assert j < i ==> Before(c.slots, j, i);
  }

  // The lowest stacked slot that is trusted for some duty.
  ghost function NextEligible(w: Trust.Windows, stack: Stack, index: nat): (r: Option<RootSlot>)
    ensures r.Some? ==>
      && r.value.slotNumber in stack && r.value.blockRoot == stack[r.value.slotNumber]
      && Trust.TrustedForAnyDuty(w, index, r.value.slotNumber)
    ensures forall k :: k in stack && Trust.TrustedForAnyDuty(w, index, k) ==> r.Some? && r.value.slotNumber <= k
  {
    var eligible := set k | k in stack && Trust.TrustedForAnyDuty(w, index, k);
    assert forall k :: k in stack && Trust.TrustedForAnyDuty(w, index, k) ==> k in eligible;
    if eligible == {} then None else var k := Least(eligible); Some(RootSlot(stack[k], k))
  }

  predicate HeldBack(c: Config, head: nat, slotNumber: nat)
    requires head < |c.slots|
  {
    c.lag > 0 && c.lag > c.slots[head] - slotNumber
  }

  function SlotToEpoch(c: Config, slot: nat): nat
    requires c.slotsPerEpoch > 0
  {
    slot / c.slotsPerEpoch
  }

  // The slot of a block's parent: the cursor's slot when the parent is the last processed root,
  // the fetched header's slot otherwise.
  function ParentSlot(c: Config, cursor: Option<RootSlot>, root: nat): nat
    requires 1 <= root < |c.slots|
  {
    if cursor.Some? && cursor.value.blockRoot == root - 1 then cursor.value.slotNumber else c.slots[root - 1]
  }

  predicate IsFirstBlockInEpoch(c: Config, cursor: Option<RootSlot>, root: nat)
    requires 1 <= root < |c.slots| && c.slotsPerEpoch > 0
  {
    SlotToEpoch(c, ParentSlot(c, cursor, root)) < SlotToEpoch(c, c.slots[root])
  }

  // No turn is taken before the keys indexer has its first data.
  ghost predicate Enabled(c: Config, s: Sys, e: Event) {
    match e
    case Finalize(head) => s.finalized <= head < |c.slots|
    case Tick(head) => s.seen <= head <= s.finalized < |c.slots| && !s.phase.AwaitChild? && s.index > 0
    case ChildArrived => s.phase.AwaitChild? && s.finalized < |c.slots| && s.phase.head < |c.slots|
    case BlockArrived => s.phase.AwaitBlock? && s.phase.root <= s.finalized < |c.slots|
    case StackWritten => s.phase.AwaitPushWrite? || s.phase.AwaitPurgeWrite?
    case DutyDone => s.phase.AwaitDuty? && 1 <= s.phase.rs.blockRoot < |c.slots| && c.slotsPerEpoch > 0
    case CursorWritten => s.phase.AwaitCursorWrite?
    case IndexCommit(slot) => s.finalized < |c.slots| && s.index <= slot <= c.slots[s.finalized]
    case IndexSaved => true
    case Fail =>
      || s.phase.AwaitChild? || s.phase.AwaitBlock? || s.phase.AwaitDuty?
      || s.phase.AwaitPurgeWrite? || s.phase.AwaitCursorWrite?
    case WriteRejectedLate => s.phase.AwaitPushWrite? || s.phase.AwaitPurgeWrite? || s.phase.AwaitCursorWrite?
    case Crash => true
    case PushWriteFails => s.phase.AwaitPushWrite?
  }

  // The turn of the loop while no root is in processing: choose the next root.
  ghost function ChooseNext(c: Config, stack: Stack, cursor: Option<RootSlot>, index: nat, head: nat): Phase
    requires head < |c.slots|
  {
    if cursor.None? then
      AwaitBlock(if c.startRoot.Some? then c.startRoot.value else head)
    else
      match NextEligible(c.windows, stack, index)
      case Some(rs) => if HeldBack(c, head, rs.slotNumber) then Idle else AwaitBlock(rs.blockRoot)
      case None => if cursor.value.blockRoot == head then Idle else AwaitChild(cursor.value, head)
  }

  ghost function OnChild(c: Config, s: Sys): Sys
    requires Enabled(c, s, ChildArrived)
  {
    var child := s.phase.last.blockRoot + 1;
    if child > s.finalized then s.(phase := Idle)
    else
      var s' := s.(seen := if child > s.seen then child else s.seen);
      if HeldBack(c, s.phase.head, c.slots[child]) then s'.(phase := Idle) else s'.(phase := AwaitBlock(child))
  }

  // push: a slot already in memory is neither replaced nor written again.
  ghost function OnBlock(c: Config, s: Sys): Sys
    requires Enabled(c, s, BlockArrived)
  {
    var rs := RootSlot(s.phase.root, c.slots[s.phase.root]);
    if rs.slotNumber in s.stack then s.(phase := AwaitDuty(rs, [s.index]))
    else s.(stack := s.stack[rs.slotNumber := rs.blockRoot], phase := AwaitPushWrite(rs))
  }

  // setLastProcessed up to its write.
  ghost function RecordCursor(s: Sys, rs: RootSlot): Sys {
    s.(cursor := Some(rs),
       first := if s.first.Some? then s.first else Some(rs.blockRoot),
       high := if s.first.Some? && rs.blockRoot < s.high then s.high else rs.blockRoot,
       phase := AwaitCursorWrite(rs))
  }

  ghost function OnStackWritten(s: Sys): Sys
    requires s.phase.AwaitPushWrite? || s.phase.AwaitPurgeWrite?
  {
    var s' := s.(stackFile := s.stack);
    if s.phase.AwaitPushWrite? then s'.(phase := AwaitDuty(s.phase.rs, [s.index])) else RecordCursor(s', s.phase.rs)
  }

  // The slashing and withdrawal duties always read keys; the balance duty reads them only on the
  // first block of an epoch. After the last duty: the trust check, purge, and the cursor.
  ghost function OnDuty(c: Config, s: Sys): Sys
    requires Enabled(c, s, DutyDone)
  {
    var rs, keyReads := s.phase.rs, s.phase.keyReads;
    if |keyReads| == 1 || (|keyReads| == 2 && IsFirstBlockInEpoch(c, s.cursor, rs.blockRoot)) then
      s.(phase := AwaitDuty(rs, keyReads + [s.index]))
    else if Trust.TrustedForEveryDuty(c.windows, s.index, rs.slotNumber) then
      var s' := s.(done := s.done + {rs.blockRoot}, purges := s.purges + [Purge(rs, keyReads, s.index)]);
      if rs.slotNumber in s.stack then
        s'.(stack := s.stack - {rs.slotNumber}, phase := AwaitPurgeWrite(rs))
      else
        RecordCursor(s', rs)
    else
      RecordCursor(s, rs)
  }

  // The process starts again from its files. Without a cursor and a START_ROOT it makes a new cold
  // start, from the head.
  ghost function Reload(c: Config, s: Sys): Sys {
    s.(stack := s.stackFile, cursor := s.cursorFile, index := s.indexFile, phase := Idle,
       first := if s.cursorFile.None? && c.startRoot.None? then None else s.first)
  }

  ghost function Apply(c: Config, s: Sys, e: Event): Sys
    requires Enabled(c, s, e)
  {
    match e
    case Finalize(head) => s.(finalized := head)
    case Tick(head) =>
      var s' := s.(seen := head);
      if s.phase.Idle? then s'.(phase := ChooseNext(c, s.stack, s.cursor, s.index, head)) else s'
    case ChildArrived => OnChild(c, s)
    case BlockArrived => OnBlock(c, s)
    case StackWritten => OnStackWritten(s)
    case DutyDone => OnDuty(c, s)
    case CursorWritten => s.(cursorFile := s.cursor, phase := Idle)
    case IndexCommit(slot) => s.(index := slot)
    case IndexSaved => s.(indexFile := s.index)
    case Fail => s.(phase := Idle)
    case WriteRejectedLate =>
      if s.phase.AwaitCursorWrite? then s.(cursorFile := s.cursor, phase := Idle)
      else s.(stackFile := s.stack, phase := Idle)
    case Crash => Reload(c, s)
    case PushWriteFails => s.(phase := Idle)
  }

  ghost predicate ValidRun(c: Config, s: Sys, es: seq<Event>)
    decreases |es|
  {
    es == [] || (Enabled(c, s, es[0]) && ValidRun(c, Apply(c, s, es[0]), es[1..]))
  }

  ghost function After(c: Config, s: Sys, es: seq<Event>): Sys
    requires ValidRun(c, s, es)
    decreases |es|
  {
    if es == [] then s else After(c, Apply(c, s, es[0]), es[1..])
  }

  lemma {:induction false} AfterConcat(c: Config, s: Sys, es: seq<Event>, fs: seq<Event>)
    requires ValidRun(c, s, es) && ValidRun(c, After(c, s, es), fs)
    ensures ValidRun(c, s, es + fs) && After(c, s, es + fs) == After(c, After(c, s, es), fs)
    decreases |es|
  {
    if es == [] {
      assert es + fs == fs;
    } else {
      assert (es + fs)[0] == es[0] && (es + fs)[1..] == es[1..] + fs;
      AfterConcat(c, Apply(c, s, es[0]), es[1..], fs);
    }
  }

  // One more event at the end of a run.
  lemma Extend(c: Config, s: Sys, es: seq<Event>, e: Event) returns (fs: seq<Event>, t: Sys)
    requires ValidRun(c, s, es) && Enabled(c, After(c, s, es), e)
    ensures fs == es + [e] && t == Apply(c, After(c, s, es), e)
    ensures ValidRun(c, s, fs) && After(c, s, fs) == t
  {
    fs, t := es + [e], Apply(c, After(c, s, es), e);
    var last := [e];
    assert last[1..] == [];
    assert ValidRun(c, t, last[1..]);
    AfterConcat(c, s, es, last);
  }

  // A fresh installation: no files, nothing processed.
  ghost predicate Initial(c: Config, s: Sys) {
    && ValidConfig(c)
    && 1 <= s.finalized < |c.slots| && s.seen <= s.finalized
    && (c.startRoot.Some? ==> c.startRoot.value <= s.finalized)
    && (c.startRoot.None? ==> 1 <= s.seen)
    && s.stack == s.stackFile == map[]
    && s.cursor.None? && s.cursorFile.None?
    && s.indexFile <= s.index
    && s.phase.Idle?
    && s.done == {} && s.purges == [] && s.first.None?
  }
}
