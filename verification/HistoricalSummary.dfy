/** From a slot to the historical summary that commits to its block root, against the beacon
    chain's own slot processing: phase0/beacon-chain.md, section "Beacon chain state transition
    function", and capella/beacon-chain.md, section "Historical summaries updates". */
module HistoricalSummary {
  import opened Division
  import opened Wrappers
  import opened MerkleTree
  import opened Proofs

  datatype Spec = Spec(slotsPerEpoch: nat, slotsPerHistoricalRoot: nat, capellaForkEpoch: nat)

  ghost predicate ValidSpec(c: Spec) {
    c.slotsPerEpoch > 0 && c.slotsPerHistoricalRoot > 0 && c.slotsPerHistoricalRoot % c.slotsPerEpoch == 0
  }

  function EpochToSlot(c: Spec, epoch: nat): nat {
    epoch * c.slotsPerEpoch
  }

  function CapellaForkSlot(c: Spec): nat {
    EpochToSlot(c, c.capellaForkEpoch)
  }

  predicate Aligned(c: Spec)
    requires c.slotsPerHistoricalRoot > 0
  {
    CapellaForkSlot(c) % c.slotsPerHistoricalRoot == 0
  }

  datatype SummaryInfo = SummaryInfo(summaryIndex: nat, summarySlot: nat, rootIndex: nat)

  function GetHistoricalSummaryInfo(c: Spec, targetSlot: nat): Option<SummaryInfo>
    requires c.slotsPerHistoricalRoot > 0
  {
    var capella, n := CapellaForkSlot(c), c.slotsPerHistoricalRoot;
    if targetSlot < capella then None
    else
      var summaryIndex := (targetSlot - capella) / n;
      Some(SummaryInfo(summaryIndex, capella + (summaryIndex + 1) * n, targetSlot % n))
  }

  datatype Resolution =
    | Available(info: SummaryInfo)
    | BeforeCapella
    | NotHistoricalYet(summarySlot: nat)

  function Resolve(c: Spec, finalizedSlot: nat, targetSlot: nat): Resolution
    requires c.slotsPerHistoricalRoot > 0
  {
    match GetHistoricalSummaryInfo(c, targetSlot)
    case None => BeforeCapella
    case Some(info) => if info.summarySlot > finalizedSlot then NotHistoricalYet(info.summarySlot) else Available(info)
  }

  // ---- The chain ----

  datatype State = State(slot: nat, blockRoots: seq<Digest>, summaries: seq<Digest>)

  // The tree of a ring of block roots.
  function RingTree(ring: seq<Digest>, depth: nat): Node
    requires |ring| <= Pow2(depth)
  {
    VectorTree(Leaves(ring), depth)
  }

  ghost predicate Fits(c: Spec, depth: nat) {
    ValidSpec(c) && c.slotsPerHistoricalRoot <= Pow2(depth)
  }

  // process_slot, then process_epoch before an epoch's first slot; `root` is the latest block root.
  ghost function NextSlot(c: Spec, depth: nat, s: State, root: Digest): State
    requires Fits(c, depth) && |s.blockRoots| == c.slotsPerHistoricalRoot
  {
    var n := c.slotsPerHistoricalRoot;
    var ring := s.blockRoots[s.slot % n := root];
    var next := s.slot + 1;
    var endOfPeriod := next % c.slotsPerEpoch == 0 && (next / c.slotsPerEpoch) % (n / c.slotsPerEpoch) == 0;
    var appended := endOfPeriod && s.slot / c.slotsPerEpoch >= c.capellaForkEpoch;
    State(next, ring, if appended then s.summaries + [Root(RingTree(ring, depth))] else s.summaries)
  }

  // The state at a slot; roots[t] is the root of the latest block at slot t.
  ghost function StateAt(c: Spec, depth: nat, roots: seq<Digest>, slot: nat): (s: State)
    requires Fits(c, depth) && slot <= |roots|
    ensures |s.blockRoots| == c.slotsPerHistoricalRoot && s.slot == slot
  {
    if slot == 0 then State(0, seq(c.slotsPerHistoricalRoot, _ => ZERO), [])
    else NextSlot(c, depth, StateAt(c, depth, roots, slot - 1), roots[slot - 1])
  }

  // The ring holds the roots of the last period.
  lemma {:induction false} RingHolds(c: Spec, depth: nat, roots: seq<Digest>, slot: nat, t: nat)
    requires Fits(c, depth) && t < slot <= |roots| && slot - t <= c.slotsPerHistoricalRoot
    ensures StateAt(c, depth, roots, slot).blockRoots[t % c.slotsPerHistoricalRoot] == roots[t]
    decreases slot
  {
    if t < slot - 1 {
      RingHolds(c, depth, roots, slot - 1, t);
      DifferentRemainders(t, slot - 1, c.slotsPerHistoricalRoot);
    }
  }

  // An epoch boundary ends a period exactly at the multiples of the ring's length.
  lemma PeriodEnds(c: Spec, next: nat)
    requires ValidSpec(c)
    ensures next % c.slotsPerEpoch == 0 && (next / c.slotsPerEpoch) % (c.slotsPerHistoricalRoot / c.slotsPerEpoch) == 0
      <==> next % c.slotsPerHistoricalRoot == 0
  {
    var e, n := c.slotsPerEpoch, c.slotsPerHistoricalRoot;
    assert n == e * (n / e);
    MulSign(e, n / e);
    MultipleOfProduct(next, e, n / e);
  }

  // ---- The summaries ----

  // The number of summaries in the state at a slot when Capella starts on a period boundary.
  function SummaryCount(c: Spec, slot: nat): nat
    requires c.slotsPerHistoricalRoot > 0
  {
    if slot < CapellaForkSlot(c) then 0 else (slot - CapellaForkSlot(c)) / c.slotsPerHistoricalRoot
  }

  function SummarySlot(c: Spec, i: nat): nat {
    CapellaForkSlot(c) + (i + 1) * c.slotsPerHistoricalRoot
  }

  // A period ends at next, from Capella on, exactly when next is the next summary's slot.
  lemma AppendsAt(c: Spec, next: nat)
    requires ValidSpec(c) && Aligned(c) && next >= 1
    ensures next - 1 >= CapellaForkSlot(c) && next % c.slotsPerHistoricalRoot == 0 <==>
      next == SummarySlot(c, SummaryCount(c, next - 1))
    ensures SummaryCount(c, next) ==
      SummaryCount(c, next - 1) + if next == SummarySlot(c, SummaryCount(c, next - 1)) then 1 else 0
  {
    var n, capella := c.slotsPerHistoricalRoot, CapellaForkSlot(c);
    var k := capella / n;
    assert capella == n * k;
    if next - 1 >= capella {
      var x := next - 1 - capella;
      var q, r := x / n, x % n;
      assert x == n * q + r;
      assert SummarySlot(c, q) == capella + n * q + n;
      if r == n - 1 {
        DivUnique(x + 1, n, q + 1, 0);
        DivUnique(next, n, k + q + 1, 0);
      } else {
        DivUnique(x + 1, n, q, r + 1);
        DivUnique(next, n, k + q, r + 1);
      }
    } else {
      assert SummarySlot(c, 0) == capella + n;
      if next == capella {
        DivUnique(0, n, 0, 0);
      }
    }
  }

  lemma CapellaEpochReached(c: Spec, slot: nat)
    requires c.slotsPerEpoch > 0
    ensures slot / c.slotsPerEpoch >= c.capellaForkEpoch <==> slot >= CapellaForkSlot(c)
  {
    var e, q := c.slotsPerEpoch, slot / c.slotsPerEpoch;
    assert slot == e * q + slot % e;
    MulSign(e, q - c.capellaForkEpoch);
    assert e * (q - c.capellaForkEpoch) == e * q - e * c.capellaForkEpoch;
  }

  ghost predicate IsSummary(c: Spec, depth: nat, roots: seq<Digest>, slot: nat, i: nat)
    requires Fits(c, depth) && slot <= |roots|
  {
    var summaries := StateAt(c, depth, roots, slot).summaries;
    && i < |summaries| && SummarySlot(c, i) <= slot
    && summaries[i] == Root(RingTree(StateAt(c, depth, roots, SummarySlot(c, i)).blockRoots, depth))
  }

  // With Capella on a period boundary, summary i is the root of the ring of the state at its slot.
  lemma {:induction false} SummariesAre(c: Spec, depth: nat, roots: seq<Digest>, slot: nat)
    requires Fits(c, depth) && Aligned(c) && slot <= |roots|
    ensures |StateAt(c, depth, roots, slot).summaries| == SummaryCount(c, slot)
    ensures forall i: nat :: i < SummaryCount(c, slot) ==> IsSummary(c, depth, roots, slot, i)
  {
    if slot == 0 {
      DivUnique(0, c.slotsPerHistoricalRoot, 0, 0);
    } else {
      SummariesAre(c, depth, roots, slot - 1);
      PeriodEnds(c, slot);
      CapellaEpochReached(c, slot - 1);
      AppendsAt(c, slot);
      forall i: nat | i < SummaryCount(c, slot)
        ensures IsSummary(c, depth, roots, slot, i)
      {
        assert i < SummaryCount(c, slot - 1) ==> IsSummary(c, depth, roots, slot - 1, i);
      }
    }
  }

  // What the daemon needs of an available summary: the state it fetches holds the block's root at
  // the root index, and the finalized state has the entry that commits to that ring.
  ghost predicate Resolves(c: Spec, depth: nat, roots: seq<Digest>, finalizedSlot: nat, info: SummaryInfo, t: nat)
    requires Fits(c, depth)
  {
    && info.summarySlot <= finalizedSlot <= |roots| && t < |roots|
    && var ring := StateAt(c, depth, roots, info.summarySlot).blockRoots;
       var summaries := StateAt(c, depth, roots, finalizedSlot).summaries;
       && info.rootIndex < |ring| && ring[info.rootIndex] == roots[t]
       && info.summaryIndex < |summaries| && summaries[info.summaryIndex] == Root(RingTree(ring, depth))
  }

  ghost predicate AlwaysResolves(c: Spec, depth: nat)
    requires Fits(c, depth)
  {
    forall roots: seq<Digest>, finalizedSlot: nat, t: nat, info: SummaryInfo ::
      finalizedSlot <= |roots| && Resolve(c, finalizedSlot, t) == Available(info) ==>
        Resolves(c, depth, roots, finalizedSlot, info, t)
  }

  lemma InfoBounds(c: Spec, t: nat)
    requires c.slotsPerHistoricalRoot > 0 && t >= CapellaForkSlot(c)
    ensures var info := GetHistoricalSummaryInfo(c, t).value;
      && info.summarySlot == SummarySlot(c, info.summaryIndex)
      && t < info.summarySlot <= t + c.slotsPerHistoricalRoot
      && info.summarySlot - t == c.slotsPerHistoricalRoot - (t - CapellaForkSlot(c)) % c.slotsPerHistoricalRoot
  {
    var n, x := c.slotsPerHistoricalRoot, t - CapellaForkSlot(c);
    assert x == n * (x / n) + x % n;
    assert (x / n + 1) * n == n * (x / n) + n;
  }

  // Available exactly when the finalized state already has the entry.
  lemma AvailableIffEntryExists(c: Spec, depth: nat, roots: seq<Digest>, finalizedSlot: nat, t: nat)
    requires Fits(c, depth) && Aligned(c) && finalizedSlot <= |roots| && t >= CapellaForkSlot(c)
    ensures Resolve(c, finalizedSlot, t).Available? <==>
      GetHistoricalSummaryInfo(c, t).value.summaryIndex < |StateAt(c, depth, roots, finalizedSlot).summaries|
  {
    SummariesAre(c, depth, roots, finalizedSlot);
    InfoBounds(c, t);
    var i := GetHistoricalSummaryInfo(c, t).value.summaryIndex;
    if finalizedSlot >= CapellaForkSlot(c) {
      QuotientAbove(finalizedSlot - CapellaForkSlot(c), c.slotsPerHistoricalRoot, i);
    }
  }

  lemma AlignedResolves(c: Spec, depth: nat, roots: seq<Digest>, finalizedSlot: nat, t: nat, info: SummaryInfo)
    requires Fits(c, depth) && Aligned(c) && finalizedSlot <= |roots|
    requires Resolve(c, finalizedSlot, t) == Available(info)
    ensures Resolves(c, depth, roots, finalizedSlot, info, t)
  {
    InfoBounds(c, t);
    AvailableIffEntryExists(c, depth, roots, finalizedSlot, t);
    RingHolds(c, depth, roots, info.summarySlot, t);
    SummariesAre(c, depth, roots, finalizedSlot);
    assert IsSummary(c, depth, roots, finalizedSlot, info.summaryIndex);
  }

  // ---- Capella off a period boundary ----

  // Within a period's length after Capella there is one period boundary.
  lemma OneBoundary(n: nat, k: nat, capella: nat, slot: nat)
    requires n * k < capella < n * (k + 1) && capella < slot <= capella + n
    ensures slot % n == 0 <==> slot == n * (k + 1)
  {
    assert n * (k + 1) == n * k + n;
    if slot < n * (k + 1) {
      DivUnique(slot, n, k, slot - n * k);
    } else {
      DivUnique(slot, n, k + 1, slot - n * (k + 1));
    }
  }

  // The first summary is appended at the first period boundary after Capella.
  lemma {:induction false} FirstSummary(c: Spec, depth: nat, roots: seq<Digest>, slot: nat, k: nat)
    requires Fits(c, depth) && slot <= |roots| && slot <= CapellaForkSlot(c) + c.slotsPerHistoricalRoot
    requires c.slotsPerHistoricalRoot * k < CapellaForkSlot(c) < c.slotsPerHistoricalRoot * (k + 1) <= |roots|
    ensures var q := c.slotsPerHistoricalRoot * (k + 1);
      StateAt(c, depth, roots, slot).summaries ==
        if slot < q then [] else [Root(RingTree(StateAt(c, depth, roots, q).blockRoots, depth))]
    decreases slot
  {
    if slot == 0 {
    } else {
      FirstSummary(c, depth, roots, slot - 1, k);
      PeriodEnds(c, slot);
      CapellaEpochReached(c, slot - 1);
      if slot - 1 >= CapellaForkSlot(c) {
        OneBoundary(c.slotsPerHistoricalRoot, k, CapellaForkSlot(c), slot);
      }
    }
  }

  lemma RingsDiffer(c: Spec, depth: nat, roots: seq<Digest>, k: nat, f: nat)
    requires Fits(c, depth) && c.slotsPerHistoricalRoot * (k + 1) < f <= |roots|
    requires f <= c.slotsPerHistoricalRoot * (k + 2)
    requires forall i, j :: 0 <= i < j < |roots| ==> roots[i] != roots[j]
    ensures var q := c.slotsPerHistoricalRoot * (k + 1);
      StateAt(c, depth, roots, q).blockRoots != StateAt(c, depth, roots, f).blockRoots
  {
    var n := c.slotsPerHistoricalRoot;
    var p, q := n * k, n * (k + 1);
    assert q == p + n && n * (k + 2) == q + n;
    DivUnique(p, n, k, 0);
    DivUnique(q, n, k + 1, 0);
    RingHolds(c, depth, roots, q, p);
    RingHolds(c, depth, roots, f, q);
    assert roots[p] != roots[q];
  }

  function Numbered(n: nat): (roots: seq<Digest>)
    ensures |roots| == n && forall i :: 0 <= i < n ==> roots[i] == Bytes(i)
  {
    seq(n, i requires 0 <= i => Bytes(i))
  }

  lemma FirstBlockResolution(c: Spec)
    requires ValidSpec(c)
    ensures var n, t := c.slotsPerHistoricalRoot, CapellaForkSlot(c);
      Resolve(c, t + n, t) == Available(SummaryInfo(0, t + n, t % n))
  {
    DivUnique(0, c.slotsPerHistoricalRoot, 0, 0);
  }

  lemma OffBoundary(n: nat, t: nat) returns (k: nat)
    requires n > 0 && t % n != 0
    ensures n * k < t < n * (k + 1) < t + n <= n * (k + 2)
  {
    k := t / n;
    assert t == n * k + t % n && n * (k + 1) == n * k + n && n * (k + 2) == n * k + n + n;
  }

  // Off the boundary the very first block of Capella already resolves to the wrong ring.
  lemma UnalignedFails(c: Spec, depth: nat)
    requires Fits(c, depth) && !Aligned(c)
    ensures !AlwaysResolves(c, depth)
  {
    hide StateAt, VectorTree, Leaves, Resolve, NextSlot;
    var n, t := c.slotsPerHistoricalRoot, CapellaForkSlot(c);
    var k := OffBoundary(n, t);
    var f := t + n;
    var roots, info := Numbered(f), SummaryInfo(0, f, t % n);
    FirstBlockResolution(c);
    FirstSummary(c, depth, roots, f, k);
    RingsDiffer(c, depth, roots, k, f);
    var early, late := StateAt(c, depth, roots, n * (k + 1)).blockRoots, StateAt(c, depth, roots, f).blockRoots;
    if Resolves(c, depth, roots, f, info, t) {
      LeavesInjective(early, late, depth);
      assert false;
    }
  }

  // Main result: the arithmetic is right for every chain exactly when Capella starts a period.
  lemma ResolvesIffAligned(c: Spec, depth: nat)
    requires Fits(c, depth)
    ensures AlwaysResolves(c, depth) <==> Aligned(c)
  {
    if Aligned(c) {
      forall roots: seq<Digest>, finalizedSlot: nat, t: nat, info: SummaryInfo |
        finalizedSlot <= |roots| && Resolve(c, finalizedSlot, t) == Available(info)
        ensures Resolves(c, depth, roots, finalizedSlot, info, t)
      {
        AlignedResolves(c, depth, roots, finalizedSlot, t, info);
      }
    } else {
      UnalignedFails(c, depth);
    }
  }

  // ---- The historical proof, end to end ----

  // The list below the field's index has an entry for each summary, whose left child is the summary.
  ghost predicate HoldsEntries(tree: Node, field: nat, listDepth: nat, entries: seq<Node>, summaries: seq<Digest>) {
    && field >= 1 && HasNode(tree, field) && |entries| == |summaries| <= Pow2(listDepth)
    && NodeAt(tree, field) == ListTree(entries, listDepth)
    && forall i :: 0 <= i < |entries| ==> entries[i].Branch? && Root(entries[i].left) == summaries[i]
  }

  ghost predicate HoldsSummaries(tree: Node, field: nat, listDepth: nat, summaries: seq<Digest>) {
    exists entries :: HoldsEntries(tree, field, listDepth, entries, summaries)
  }

  // Whenever the summary of a block at slot t is available, the historical proof built from the
  // finalized state and the state at the summary slot proves the block's root against the
  // finalized state root.
  method ProveHistoricalBlock(c: Spec, depth: nat, finalizedState: Node, field: nat, listDepth: nat,
                              ghost roots: seq<Digest>, finalizedSlot: nat, t: nat, ring: seq<Digest>)
    returns (proof: Option<SingleProof>)
    requires Fits(c, depth) && Aligned(c) && finalizedSlot <= |roots|
    requires HoldsSummaries(finalizedState, field, listDepth, StateAt(c, depth, roots, finalizedSlot).summaries)
    requires Resolve(c, finalizedSlot, t).Available? ==>
      ring == StateAt(c, depth, roots, Resolve(c, finalizedSlot, t).info.summarySlot).blockRoots
    ensures proof.Some? <==> Resolve(c, finalizedSlot, t).Available?
    ensures proof.Some? ==> t < |roots| && proof.value.leaf == roots[t]
    ensures proof.Some? ==> Accepts(Root(finalizedState), proof.value.gindex, proof.value.witnesses, roots[t])
  {
    var resolution := Resolve(c, finalizedSlot, t);
    if !resolution.Available? {
      return None;
    }
    var info := resolution.info;
    AlignedResolves(c, depth, roots, finalizedSlot, t, info);
    VectorItemIs(Leaves(ring), depth, info.rootIndex);
    ghost var summaries := StateAt(c, depth, roots, finalizedSlot).summaries;
    ghost var entries: seq<Node> :| HoldsEntries(finalizedState, field, listDepth, entries, summaries);
    assert entries[info.summaryIndex].Branch?;
    BlockSummaryRootIs(finalizedState, field, entries, listDepth, info.summaryIndex);
    var p := GenerateHistoricalStateProof(
      finalizedState, BlockSummaryRoot(field, listDepth, info.summaryIndex), RingTree(ring, depth), depth,
      info.rootIndex);
    return Some(p);
  }

  // ---- Historical blocks ----

  const FINALIZATION_BUFFER_EPOCHS := 2

  predicate IsHistoricalBlock(c: Spec, blockSlot: nat, finalizedSlot: nat) {
    finalizedSlot - blockSlot >= c.slotsPerHistoricalRoot - EpochToSlot(c, FINALIZATION_BUFFER_EPOCHS)
  }

  // The slot before `slot` that has the same place in the ring as t.
  lemma LatestInPlace(t: nat, slot: nat, n: nat) returns (u: nat)
    requires n > 0 && t + n < slot
    ensures t < u < slot <= u + n && u % n == t % n
  {
    var x := slot - 1 - t;
    u := slot - 1 - x % n;
    assert x == n * (x / n) + x % n;
    MulSign(n, x / n);
    var k := x / n;
    assert u == t + n * k;
    assert t == n * (t / n) + t % n && n * (t / n + k) == n * (t / n) + n * k;
    DivUnique(u, n, t / n + k, t % n);
  }

  // The block's root is still in the ring of the state at a slot.
  ghost predicate InRing(c: Spec, depth: nat, roots: seq<Digest>, slot: nat, t: nat)
    requires Fits(c, depth) && slot <= |roots| && t < |roots|
  {
    StateAt(c, depth, roots, slot).blockRoots[t % c.slotsPerHistoricalRoot] == roots[t]
  }

  // A block is classified as historical exactly if its root leaves the ring before the slot after the
  // two epochs that follow the head.
  lemma HistoricalIffLeavesRing(c: Spec, depth: nat, roots: seq<Digest>, t: nat, head: nat)
    requires Fits(c, depth) && t <= head && head + 2 * c.slotsPerEpoch + 1 <= |roots|
    requires forall i, j :: 0 <= i < j < |roots| ==> roots[i] != roots[j]
    ensures IsHistoricalBlock(c, t, head) <==>
      exists slot: nat :: t < slot <= head + 2 * c.slotsPerEpoch + 1 && !InRing(c, depth, roots, slot, t)
  {
    var n, last := c.slotsPerHistoricalRoot, head + 2 * c.slotsPerEpoch + 1;
    hide StateAt, NextSlot;
    if last - t > n {
      var u := LatestInPlace(t, last, n);
      RingHolds(c, depth, roots, last, u);
      assert roots[t] != roots[u];
      assert !InRing(c, depth, roots, last, t);
    } else {
      forall slot: nat | t < slot <= last
        ensures InRing(c, depth, roots, slot, t)
      {
        RingHolds(c, depth, roots, slot, t);
      }
    }
  }

  // What is resolved by itself: nothing before Capella, and a block after it with the end of its period,
  // counted from Capella, as the slot of its summary.
  lemma ResolutionIs(c: Spec, finalizedSlot: nat, t: nat)
    requires c.slotsPerHistoricalRoot > 0
    ensures Resolve(c, finalizedSlot, t).BeforeCapella? <==> t < c.capellaForkEpoch * c.slotsPerEpoch
    ensures Resolve(c, finalizedSlot, t).NotHistoricalYet? ==>
      var slot := Resolve(c, finalizedSlot, t).summarySlot;
      && finalizedSlot < slot && t < slot <= t + c.slotsPerHistoricalRoot
      && (slot - c.capellaForkEpoch * c.slotsPerEpoch) % c.slotsPerHistoricalRoot == 0
  {
    if t >= CapellaForkSlot(c) {
      InfoBounds(c, t);
      var n, k := c.slotsPerHistoricalRoot, (t - CapellaForkSlot(c)) / c.slotsPerHistoricalRoot + 1;
      assert k * n == n * k;
      DivUnique(k * n, n, k, 0);
    }
  }

  // A block classified as historical against one head and resolved against a later one: it is not
  // historical yet exactly while its summary slot is ahead. That takes a block in the first two
  // epochs of its period, leaves at most two epochs of slots to wait, and is over once the later
  // head is a full period past the block.
  lemma NotHistoricalYetIsShort(c: Spec, t: nat, head: nat, later: nat)
    requires ValidSpec(c) && t >= CapellaForkSlot(c) && head <= later && IsHistoricalBlock(c, t, head)
    ensures var offset := (t - CapellaForkSlot(c)) % c.slotsPerHistoricalRoot;
      && (Resolve(c, later, t).NotHistoricalYet? <==> later - t < c.slotsPerHistoricalRoot - offset)
      && (Resolve(c, later, t).NotHistoricalYet? ==>
            && offset < 2 * c.slotsPerEpoch
            && 0 < Resolve(c, later, t).summarySlot - later <= 2 * c.slotsPerEpoch - offset
            && later - t < c.slotsPerHistoricalRoot)
  {
    InfoBounds(c, t);
  }
}
