/** The first block of an epoch, found through the last processed root or the parent's header, and
    the duties that depend on it. */
module RootWalkEpochs {
  import Division
  import opened Wrappers
  import opened RootWalk
  import opened RootWalkSafety

  // On every reachable state the cursor shortcut gives the answer of the fetched parent.
  lemma ShortcutAgrees(c: Config, s: Sys, es: seq<Event>, root: nat)
    requires Initial(c, s) && ValidRun(c, s, es)
    requires 1 <= root < |c.slots|
    ensures IsFirstBlockInEpoch(c, After(c, s, es).cursor, root) <==> IsFirstBlockInEpoch(c, None, root)
  {
    InitialInv(c, s);
    InvRun(c, s, es);
  }

  lemma Products(i: nat, j: nat, n: nat)
    requires i <= j
    ensures i * n <= j * n
  {
  }

  // No multiple of n lies strictly above a number of the same block of n and at most at another.
  lemma StartsBetween(p: nat, q: nat, e: nat, n: nat)
    requires q <= p
    ensures !(p * n < e * n < (q + 1) * n)
  {
    if e <= p {
      Products(e, p, n);
    } else {
      Products(q + 1, e, n);
    }
  }

  // Epoch e starts after the block's parent and not after the block.
  ghost predicate StartsWith(c: Config, root: nat, e: nat)
    requires 1 <= root < |c.slots|
  {
    c.slots[root - 1] < e * c.slotsPerEpoch <= c.slots[root]
  }

  lemma EpochBounds(c: Config, slot: nat)
    requires c.slotsPerEpoch > 0
    ensures var e := SlotToEpoch(c, slot); e * c.slotsPerEpoch <= slot < (e + 1) * c.slotsPerEpoch
  {
    var e := SlotToEpoch(c, slot);
    assert slot == c.slotsPerEpoch * e + slot % c.slotsPerEpoch;
    assert e * c.slotsPerEpoch == c.slotsPerEpoch * e;
    assert (e + 1) * c.slotsPerEpoch == e * c.slotsPerEpoch + c.slotsPerEpoch;
  }

  // In every run a block is the first of its epoch exactly if some epoch starts after its parent and not
  // after the block.
  lemma FirstBlockIff(c: Config, s: Sys, es: seq<Event>, root: nat)
    requires Initial(c, s) && ValidRun(c, s, es) && 1 <= root < |c.slots|
    ensures IsFirstBlockInEpoch(c, After(c, s, es).cursor, root) <==> exists e: nat :: StartsWith(c, root, e)
  {
    ShortcutAgrees(c, s, es, root);
    var before, here := c.slots[root - 1], c.slots[root];
    EpochBounds(c, before);
    EpochBounds(c, here);
    var p, q := SlotToEpoch(c, before), SlotToEpoch(c, here);
    if p < q {
      Products(p + 1, q, c.slotsPerEpoch);
      assert StartsWith(c, root, q);
    }
    forall e: nat | StartsWith(c, root, e)
      ensures p < q
    {
      if q <= p {
        StartsBetween(p, q, e, c.slotsPerEpoch);
      }
    }
  }

  // The number of duties that read keys for a block: slashings, withdrawals, and balances on the
  // first block of an epoch.
  function Duties(c: Config, root: nat): nat
    requires 1 <= root < |c.slots| && c.slotsPerEpoch > 0
  {
    if IsFirstBlockInEpoch(c, None, root) then 3 else 2
  }

  ghost predicate FullyRun(c: Config, p: Purge) {
    1 <= p.rs.blockRoot < |c.slots| && c.slotsPerEpoch > 0 && |p.keyReads| == Duties(c, p.rs.blockRoot)
  }

  ghost predicate Purged(purges: seq<Purge>, root: nat) {
    exists i :: 0 <= i < |purges| && purges[i].rs.blockRoot == root
  }

  // Finished blocks are those with a purge decision taken after the last of their duties.
  ghost predicate DutiesAreRun(c: Config, purges: seq<Purge>, done: set<nat>) {
    && (forall i :: 0 <= i < |purges| ==> FullyRun(c, purges[i]))
    && (forall r :: r in done ==> Purged(purges, r))
  }

  ghost predicate DutiesInv(c: Config, s: Sys) {
    && Inv(c, s) && c.slotsPerEpoch > 0 && DutiesAreRun(c, s.purges, s.done)
    && (s.phase.AwaitDuty? ==>
          1 <= s.phase.rs.blockRoot < |c.slots| && |s.phase.keyReads| <= Duties(c, s.phase.rs.blockRoot))
  }

  lemma DutyStep(c: Config, s: Sys)
    requires DutiesInv(c, s) && Enabled(c, s, DutyDone)
    ensures DutiesAreRun(c, Apply(c, s, DutyDone).purges, Apply(c, s, DutyDone).done)
    ensures var p := Apply(c, s, DutyDone).phase;
      p.AwaitDuty? ==> p.rs == s.phase.rs && |p.keyReads| <= Duties(c, p.rs.blockRoot)
  {
    var rs, t := s.phase.rs, Apply(c, s, DutyDone);
    assert IsFirstBlockInEpoch(c, s.cursor, rs.blockRoot) <==> IsFirstBlockInEpoch(c, None, rs.blockRoot);
    hide Shape, FilesAgree, Cold, Warm, IsFirstBlockInEpoch;
    if t.purges != s.purges {
      assert t.purges == s.purges + [Purge(rs, s.phase.keyReads, s.index)];
      forall r | r in t.done
        ensures Purged(t.purges, r)
      {
        if r in s.done {
          var i :| 0 <= i < |s.purges| && s.purges[i].rs.blockRoot == r;
          assert t.purges[i] == s.purges[i];
        } else {
          assert t.purges[|s.purges|].rs.blockRoot == r;
        }
      }
    }
  }

  lemma OtherEventsRunNoDuty(c: Config, s: Sys, e: Event)
    requires Enabled(c, s, e) && !e.DutyDone?
    ensures var t := Apply(c, s, e);
      && t.purges == s.purges && t.done == s.done
      && (t.phase.AwaitDuty? ==> t.phase == s.phase || |t.phase.keyReads| == 1)
  {
  }

  lemma DutiesStep(c: Config, s: Sys, e: Event)
    requires DutiesInv(c, s) && Enabled(c, s, e)
    ensures DutiesInv(c, Apply(c, s, e))
  {
    InvStep(c, s, e);
    assert ValidConfig(c);
    assert Apply(c, s, e).phase.AwaitDuty? ==> 1 <= Apply(c, s, e).phase.rs.blockRoot < |c.slots|;
    hide Inv, DutiesAreRun, Apply, Enabled, IsFirstBlockInEpoch;
    if e.DutyDone? {
      DutyStep(c, s);
    } else {
      OtherEventsRunNoDuty(c, s, e);
    }
  }

  lemma {:induction false} DutiesRun(c: Config, s: Sys, es: seq<Event>)
    requires DutiesInv(c, s) && ValidRun(c, s, es)
    ensures DutiesInv(c, After(c, s, es))
    decreases |es|
  {
    hide DutiesInv;
    if es == [] {
    } else {
      DutiesStep(c, s, es[0]);
      DutiesRun(c, Apply(c, s, es[0]), es[1..]);
    }
  }

  // In every run each finished block had all its duties before its trust check: slashings and
  // withdrawals, and balances exactly if its parent is in an earlier epoch.
  lemma DoneMeansEveryDuty(c: Config, s: Sys, es: seq<Event>)
    requires Initial(c, s) && ValidRun(c, s, es)
    ensures DutiesAreRun(c, After(c, s, es).purges, After(c, s, es).done)
  {
    InitialInv(c, s);
    DutiesRun(c, s, es);
  }

  ghost predicate FirstOf(c: Config, epoch: nat, f: nat)
    requires c.slotsPerEpoch > 0
  {
    1 <= f < |c.slots| && SlotToEpoch(c, c.slots[f]) == epoch && IsFirstBlockInEpoch(c, None, f)
  }

  lemma EpochsRise(c: Config, i: nat, j: nat)
    requires ValidConfig(c) && i <= j < |c.slots|
    ensures SlotToEpoch(c, c.slots[i]) <= SlotToEpoch(c, c.slots[j])
  {
    assert i < j ==> Before(c.slots, i, j);
    Division.DivMonotone(c.slots[i], c.slots[j], c.slotsPerEpoch);
  }

  // Every epoch after the chain's first that has a block has exactly one first block; the chain's
  // first epoch has none.
  lemma {:induction false} OneFirstBlockPerEpoch(c: Config, i: nat) returns (f: nat)
    requires ValidConfig(c) && i < |c.slots| && SlotToEpoch(c, c.slots[0]) < SlotToEpoch(c, c.slots[i])
    ensures f <= i && FirstOf(c, SlotToEpoch(c, c.slots[i]), f)
    ensures forall g: nat :: FirstOf(c, SlotToEpoch(c, c.slots[i]), g) ==> g == f
    ensures forall g: nat :: !FirstOf(c, SlotToEpoch(c, c.slots[0]), g)
    decreases i
  {
    var epoch := SlotToEpoch(c, c.slots[i]);
    EpochsRise(c, i - 1, i);
    if SlotToEpoch(c, c.slots[i - 1]) == epoch {
      f := OneFirstBlockPerEpoch(c, i - 1);
    } else {
      f := i;
      forall g: nat | FirstOf(c, epoch, g)
        ensures g == i
      {
        if g < i {
          EpochsRise(c, g, i - 1);
        } else if i < g {
          EpochsRise(c, i, g - 1);
        }
      }
      forall g: nat | 1 <= g < |c.slots|
        ensures !FirstOf(c, SlotToEpoch(c, c.slots[0]), g)
      {
        EpochsRise(c, 0, g - 1);
      }
    }
  }
}
