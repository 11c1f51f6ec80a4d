/** Where a walk starts, and what a restart finds. */
module RootWalkStarts {
  import opened Wrappers
  import opened RootWalk
  import opened RootWalkSafety

  // ---- The first root ----

  // The finalized heads the turns of a run were given.
  ghost function HeadsNow(e: Event, heads: set<nat>): set<nat> {
    if e.Tick? then heads + {e.head} else heads
  }

  ghost function Heads(es: seq<Event>, heads: set<nat>): set<nat> {
    if es == [] then heads else Heads(es[1..], HeadsNow(es[0], heads))
  }

  // Without START_ROOT the first root was the head of some turn, as is the one that is to become it.
  ghost predicate StartsAtHead(c: Config, s: Sys, heads: set<nat>) {
    c.startRoot.None? ==>
      && (s.first.Some? ==> s.first.value in heads)
      && (s.first.None? && Current(s.phase).Some? ==> Current(s.phase).value in heads)
  }

  lemma StartsStep(c: Config, s: Sys, e: Event, heads: set<nat>)
    requires Inv(c, s) && StartsAtHead(c, s, heads) && Enabled(c, s, e)
    ensures StartsAtHead(c, Apply(c, s, e), HeadsNow(e, heads))
  {
    hide FilesAgree, Warm, AllSeen, ValidStack, NextEligible, HeldBack, IsFirstBlockInEpoch;
  }

  lemma {:induction false} StartsRun(c: Config, s: Sys, es: seq<Event>, heads: set<nat>)
    requires Inv(c, s) && StartsAtHead(c, s, heads) && ValidRun(c, s, es)
    ensures Inv(c, After(c, s, es)) && StartsAtHead(c, After(c, s, es), Heads(es, heads))
    decreases |es|
  {
    hide Inv, StartsAtHead, HeadsNow, Apply;
    if es == [] {
    } else {
      InvStep(c, s, es[0]);
      StartsStep(c, s, es[0], heads);
      StartsRun(c, Apply(c, s, es[0]), es[1..], HeadsNow(es[0], heads));
    }
  }

  // In every run the walk starts at START_ROOT if there is one, and else at the finalized head of one
  // of its turns.
  lemma FirstRootIs(c: Config, s: Sys, es: seq<Event>)
    requires Initial(c, s) && ValidRun(c, s, es) && After(c, s, es).first.Some?
    ensures var first := After(c, s, es).first.value;
      if c.startRoot.Some? then first == c.startRoot.value else first in Heads(es, {})
  {
    InitialInv(c, s);
    StartsRun(c, s, es, {});
  }

  // ---- What a restart finds ----

  // What memory held at the latest write of the stack, of the cursor and of the index.
  datatype Written = Written(stack: Stack, cursor: Option<RootSlot>, index: nat)

  ghost function WrittenNow(s: Sys, e: Event, w: Written): Written {
    match e
    case StackWritten => w.(stack := s.stack)
    case CursorWritten => w.(cursor := s.cursor)
    case WriteRejectedLate =>
      if s.phase.AwaitCursorWrite? then w.(cursor := s.cursor) else w.(stack := s.stack)
    case IndexSaved => w.(index := s.index)
    case _ => w
  }

  ghost function WrittenAfter(c: Config, s: Sys, es: seq<Event>, w: Written): Written
    requires ValidRun(c, s, es)
    decreases |es|
  {
    if es == [] then w else WrittenAfter(c, Apply(c, s, es[0]), es[1..], WrittenNow(s, es[0], w))
  }

  ghost function OnDisk(s: Sys): Written {
    Written(s.stackFile, s.cursorFile, s.indexFile)
  }

  lemma WriteStep(c: Config, s: Sys, e: Event)
    requires Enabled(c, s, e)
    ensures OnDisk(Apply(c, s, e)) == WrittenNow(s, e, OnDisk(s))
  {
    hide NextEligible, HeldBack, IsFirstBlockInEpoch;
  }

  lemma {:induction false} WriteRun(c: Config, s: Sys, es: seq<Event>)
    requires ValidRun(c, s, es)
    ensures OnDisk(After(c, s, es)) == WrittenAfter(c, s, es, OnDisk(s))
    decreases |es|
  {
    hide OnDisk, WrittenNow, Apply;
    if es == [] {
    } else {
      WriteStep(c, s, es[0]);
      WriteRun(c, Apply(c, s, es[0]), es[1..]);
    }
  }

  // After a crash at any time of any run, memory is what it was at the latest write of each part, no
  // root is in processing, and the walk starts anew exactly if there is neither a cursor nor a
  // START_ROOT.
  lemma CrashRestoresWritten(c: Config, s: Sys, es: seq<Event>)
    requires Initial(c, s) && ValidRun(c, s, es)
    ensures var u, t := After(c, s, es), Apply(c, After(c, s, es), Crash);
      && Written(t.stack, t.cursor, t.index) == WrittenAfter(c, s, es, Written(map[], None, s.indexFile))
      && t.phase.Idle? && t.done == u.done
      && t.first == (if t.cursor.None? && c.startRoot.None? then None else u.first)
  {
    WriteRun(c, s, es);
  }
}
