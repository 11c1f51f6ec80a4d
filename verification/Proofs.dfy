/** Building and checking Merkle proofs. */
module Proofs {
  import opened MerkleTree

  datatype Verdict = Accepted | ExtraItem | MissingItems | Invalid

  // The digest a branch folds a value up to; the last bit of g says on which side the value is.
  function Fold(g: int, proof: seq<Digest>, value: Digest): Digest
    decreases |proof|
  {
    if proof == [] then value
    else Fold(g / 2, proof[1..], if g % 2 == 0 then Hash(value, proof[0]) else Hash(proof[0], value))
  }

  // Every item beyond the depth of g is an extra one; a negative index never runs out.
  function Judge(root: Digest, g: int, proof: seq<Digest>, value: Digest): Verdict {
    if g < 0 then MissingItems
    else if g == 0 then if proof == [] then MissingItems else ExtraItem
    else if |proof| > Depth(g) then ExtraItem
    else if |proof| < Depth(g) then MissingItems
    else if Fold(g, proof, value) == root then Accepted
    else Invalid
  }

  // gI >>= 1n, n times.
  function Shifted(g: int, n: nat): int
    decreases n
  {
    if n == 0 then g else Shifted(g / 2, n - 1)
  }

  lemma {:induction false} FoldSnoc(g: int, proof: seq<Digest>, value: Digest, w: Digest)
    ensures Fold(g, proof + [w], value) ==
      var top := Fold(g, proof, value);
      if Shifted(g, |proof|) % 2 == 0 then Hash(top, w) else Hash(w, top)
    decreases |proof|
  {
    if proof == [] {
      assert (proof + [w])[1..] == [];
    } else {
      assert (proof + [w])[1..] == proof[1..] + [w];
      FoldSnoc(g / 2, proof[1..], if g % 2 == 0 then Hash(value, proof[0]) else Hash(proof[0], value), w);
    }
  }

  lemma {:induction false} ShiftedNext(g: int, n: nat)
    ensures Shifted(g, n + 1) == Shifted(g, n) / 2
    decreases n
  {
    if n == 0 {
    } else {
      ShiftedNext(g / 2, n - 1);
    }
  }

  // The index runs out exactly at its depth.
  lemma {:induction false} ShiftedByDepth(g: int, n: nat)
    ensures g < 0 ==> Shifted(g, n) < 0
    ensures g >= 0 ==> Shifted(g, n) >= 0
    ensures g >= 1 ==> (Shifted(g, n) == 1 <==> n == Depth(g)) && (Shifted(g, n) == 0 <==> n > Depth(g))
    ensures g == 0 ==> Shifted(g, n) == 0
    decreases n
  {
    if n == 0 {
    } else {
      ShiftedByDepth(g / 2, n - 1);
    }
  }

  method VerifyProof(root: Digest, gIndex: int, proof: seq<Digest>, value: Digest) returns (verdict: Verdict)
    ensures verdict == Judge(root, gIndex, proof, value)
  {
    var buf, gI := value, gIndex;
    for i := 0 to |proof|
      invariant gI == Shifted(gIndex, i) && (i > 0 ==> gI != 0)
      invariant buf == Fold(gIndex, proof[..i], value)
    {
      var p := proof[i];
      FoldSnoc(gIndex, proof[..i], value, p);
      assert proof[..i + 1] == proof[..i] + [p];
      ShiftedNext(gIndex, i);
      buf := if gI % 2 == 0 then Hash(buf, p) else Hash(p, buf);
      gI := gI / 2;
      if gI == 0 {
        ShiftedByDepth(gIndex, i + 1);
        return ExtraItem;
      }
    }
    ShiftedByDepth(gIndex, |proof|);
    assert proof[..|proof|] == proof;
    if gI != 1 {
      return MissingItems;
    }
    return if root != buf then Invalid else Accepted;
  }

  lemma {:induction false} DepthIff(g: nat, n: nat)
    requires g >= 1
    ensures Depth(g) == n <==> Pow2(n) <= g < 2 * Pow2(n)
    ensures Depth(g) < n <==> g < Pow2(n)
    decreases g
  {
    if g == 1 {
    } else if n == 0 {
    } else {
      DepthIff(g / 2, n - 1);
    }
  }

  // A branch of n items has extra ones if the index is below 2^n, and is missing some if it is at least
  // 2^(n + 1) or not positive; in between it is accepted exactly if it folds up to the root.
  lemma VerdictsAre(root: Digest, g: int, proof: seq<Digest>, value: Digest)
    ensures var verdict, pow := Judge(root, g, proof, value), Pow2(|proof|);
      && (verdict == ExtraItem <==> proof != [] && 0 <= g < pow)
      && (verdict == MissingItems <==> g < 0 || (g == 0 && proof == []) || g >= 2 * pow)
      && (verdict == Accepted <==> pow <= g < 2 * pow && Fold(g, proof, value) == root)
      && (verdict == Invalid <==> pow <= g < 2 * pow && Fold(g, proof, value) != root)
  {
    if g >= 1 {
      DepthIff(g, |proof|);
    }
  }

  predicate Accepts(root: Digest, g: int, proof: seq<Digest>, value: Digest) {
    Judge(root, g, proof, value) == Accepted
  }

  // ---- Branches and trees ----

  // The top step of a fold: the rest of the branch proves the child the path enters.
  lemma {:induction false} FoldTop(g: nat, proof: seq<Digest>, value: Digest)
    requires g >= 2 && |proof| == Depth(g)
    ensures var below, w := Fold(Below(g), proof[..|proof| - 1], value), proof[|proof| - 1];
      Fold(g, proof, value) == if GoesRight(g) then Hash(w, below) else Hash(below, w)
    decreases g
  {
    if g >= 4 {
      var v := if g % 2 == 0 then Hash(value, proof[0]) else Hash(proof[0], value);
      FoldTop(g / 2, proof[1..], v);
      assert proof[1..][..|proof| - 2] == proof[..|proof| - 1][1..];
    } else {
      assert Depth(g) == 1 && proof[1..] == [];
    }
  }

  // Completeness: the branch extracted from a tree is accepted.
  lemma {:induction false} ExtractedBranchAccepted(n: Node, g: nat)
    requires g >= 1 && HasNode(n, g)
    ensures |Witnesses(n, g)| == Depth(g)
    ensures Accepts(Root(n), g, Witnesses(n, g), Root(NodeAt(n, g)))
  {
    if g <= 1 {
    } else {
      var child := if GoesRight(g) then n.right else n.left;
      BelowDepth(g);
      ExtractedBranchAccepted(child, Below(g));
      var w := Witnesses(n, g);
      FoldTop(g, w, Root(NodeAt(n, g)));
      assert w[..|w| - 1] == Witnesses(child, Below(g));
    }
  }

  // Soundness: an accepted branch is the branch of some tree with that root.
  lemma {:induction false} AcceptedBranchHasTree(root: Digest, g: nat, proof: seq<Digest>, value: Digest)
    returns (n: Node)
    requires Accepts(root, g, proof, value)
    ensures Root(n) == root && HasNode(n, g) && NodeAt(n, g) == Leaf(value) && Witnesses(n, g) == proof
    decreases g
  {
    if g == 1 {
      n := Leaf(value);
    } else {
      FoldTop(g, proof, value);
      BelowDepth(g);
      var rest, w := proof[..|proof| - 1], proof[|proof| - 1];
      var child := AcceptedBranchHasTree(Fold(Below(g), rest, value), Below(g), rest, value);
      n := if GoesRight(g) then Branch(Leaf(w), child) else Branch(child, Leaf(w));
      assert proof == rest + [w];
    }
  }

  ghost predicate IsBranchOf(n: Node, root: Digest, g: nat, proof: seq<Digest>, value: Digest)
    requires g >= 1
  {
    Root(n) == root && HasNode(n, g) && Root(NodeAt(n, g)) == value && Witnesses(n, g) == proof
  }

  lemma AcceptedIffBranchOfATree(root: Digest, g: nat, proof: seq<Digest>, value: Digest)
    requires g >= 1
    ensures Accepts(root, g, proof, value) <==> exists n :: IsBranchOf(n, root, g, proof, value)
  {
    if Accepts(root, g, proof, value) {
      var n := AcceptedBranchHasTree(root, g, proof, value);
      assert IsBranchOf(n, root, g, proof, value);
    }
    forall n | IsBranchOf(n, root, g, proof, value)
      ensures Accepts(root, g, proof, value)
    {
      ExtractedBranchAccepted(n, g);
    }
  }

  // At most one branch and one value per root and index.
  lemma {:induction false} OneValuePerIndex(root: Digest, g: nat, p: seq<Digest>, v: Digest, q: seq<Digest>, u: Digest)
    requires Accepts(root, g, p, v) && Accepts(root, g, q, u)
    ensures v == u && p == q
    decreases g
  {
    if g <= 1 {
    } else {
      FoldTop(g, p, v);
      FoldTop(g, q, u);
      BelowDepth(g);
      var p', q' := p[..|p| - 1], q[..|q| - 1];
      OneValuePerIndex(Fold(Below(g), p', v), Below(g), p', v, q', u);
      assert p == p' + [p[|p| - 1]] && q == q' + [q[|q| - 1]];
    }
  }

  // ---- Concatenated proofs ----

  lemma {:induction false} FoldAppend(g: int, p: seq<Digest>, q: seq<Digest>, value: Digest)
    ensures Fold(g, p + q, value) == Fold(Shifted(g, |p|), q, Fold(g, p, value))
    decreases |p|
  {
    if p == [] {
      assert p + q == q;
    } else {
      assert (p + q)[1..] == p[1..] + q;
      FoldAppend(g / 2, p[1..], q, if g % 2 == 0 then Hash(value, p[0]) else Hash(p[0], value));
    }
  }

  // Folding along the lower part of a concatenated index does not see the upper part.
  lemma {:induction false} FoldLower(g1: nat, g2: nat, p: seq<Digest>, value: Digest)
    requires g1 >= 1 && g2 >= 1 && |p| == Depth(g2)
    ensures Fold(Concat(g1, g2), p, value) == Fold(g2, p, value) && Shifted(Concat(g1, g2), |p|) == g1
    decreases g2
  {
    if g2 <= 1 {
    } else {
      var g := Concat(g1, g2);
      assert g / 2 == Concat(g1, g2 / 2) && g % 2 == g2 % 2;
      FoldLower(g1, g2 / 2, p[1..], if g % 2 == 0 then Hash(value, p[0]) else Hash(p[0], value));
    }
  }

  // A proof at a concatenated index is a proof of a middle node and a proof below it.
  lemma ConcatenatedProof(root: Digest, g1: nat, g2: nat, p1: seq<Digest>, p2: seq<Digest>, value: Digest)
    requires g1 >= 1 && g2 >= 1 && |p2| == Depth(g2)
    ensures Accepts(root, Concat(g1, g2), p2 + p1, value) <==>
      exists middle :: Accepts(middle, g2, p2, value) && Accepts(root, g1, p1, middle)
  {
    ConcatIsSpecified(g1, g2);
    FoldAppend(Concat(g1, g2), p2, p1, value);
    FoldLower(g1, g2, p2, value);
    var middle := Fold(g2, p2, value);
    assert Accepts(middle, g2, p2, value);
    assert forall m :: Accepts(m, g2, p2, value) ==> m == middle;
  }

  // ---- Proofs through a patched tree ----

  datatype SingleProof = SingleProof(gindex: nat, leaf: Digest, witnesses: seq<Digest>)

  function CreateProof(n: Node, g: nat): SingleProof
    requires g >= 1 && HasNode(n, g)
  {
    SingleProof(g, Root(NodeAt(n, g)), Witnesses(n, g))
  }

  // The library's tree: setNode replaces the root node.
  class Tree {
    var rootNode: Node

    constructor (node: Node)
      ensures rootNode == node
    {
      rootNode := node;
    }

    method SetNode(g: nat, sub: Node)
      requires g >= 1 && HasNode(rootNode, g)
      modifies this
      ensures rootNode == MerkleTree.SetNode(old(rootNode), g, sub)
    {
      rootNode := MerkleTree.SetNode(rootNode, g, sub);
    }
  }

  lemma PatchedProofPasses(state: Node, g1: nat, patch: Node, g2: nat)
    requires g1 >= 1 && HasNode(state, g1) && g2 >= 1 && HasNode(patch, g2)
    ensures Accepts(Root(state), Concat(g1, g2), Witnesses(patch, g2) + Witnesses(state, g1), Root(NodeAt(patch, g2)))
      <==> Root(patch) == Root(NodeAt(state, g1))
  {
    ExtractedBranchAccepted(patch, g2);
    ExtractedBranchAccepted(state, g1);
    var p1, p2, value := Witnesses(state, g1), Witnesses(patch, g2), Root(NodeAt(patch, g2));
    ConcatenatedProof(Root(state), g1, g2, p1, p2, value);
    forall m | Accepts(m, g2, p2, value) && Accepts(Root(state), g1, p1, m)
      ensures m == Root(patch) == Root(NodeAt(state, g1))
    {
      OneValuePerIndex(Root(state), g1, p1, m, p1, Root(NodeAt(state, g1)));
    }
  }

  // The proof of node g2 of another object, built in a copy of the state tree whose node g1 is
  // replaced by that object. Checked against the untouched state root it passes exactly when the
  // object's root is the replaced node's root.
  method ProvePatched(state: Node, g1: nat, patch: Node, g2: nat) returns (proof: SingleProof)
    requires g1 >= 1 && HasNode(state, g1) && g2 >= 1 && HasNode(patch, g2)
    ensures proof.gindex == Concat(g1, g2) && proof.leaf == Root(NodeAt(patch, g2))
    ensures Accepts(Root(state), proof.gindex, proof.witnesses, proof.leaf) <==> Root(patch) == Root(NodeAt(state, g1))
  {
    var patchedTree := new Tree(state);
    patchedTree.SetNode(g1, patch);
    SetNodeKeeps(state, g1, patch);
    NodeAtConcat(patchedTree.rootNode, g1, g2);
    proof := CreateProof(patchedTree.rootNode, Concat(g1, g2));
    PatchedProofPasses(state, g1, patch, g2);
  }

  const WITHDRAWALS_DEPTH := 4 // MAX_WITHDRAWALS_PER_PAYLOAD is 16

  // `withdrawalsRoot` is the index of latestExecutionPayloadHeader.withdrawalsRoot in the state, and
  // `withdrawals` the list of a payload.
  method GenerateWithdrawalProof(state: Node, withdrawalsRoot: nat, ghost items: seq<Node>, withdrawals: Node,
                                 offset: nat)
    returns (proof: SingleProof)
    requires withdrawalsRoot >= 1 && HasNode(state, withdrawalsRoot)
    requires offset < |items| <= Pow2(WITHDRAWALS_DEPTH) && withdrawals == ListTree(items, WITHDRAWALS_DEPTH)
    ensures proof.gindex == Concat(withdrawalsRoot, 32 + offset) && proof.leaf == Root(items[offset])
    ensures Accepts(Root(state), proof.gindex, proof.witnesses, proof.leaf)
      <==> Root(withdrawals) == Root(NodeAt(state, withdrawalsRoot))
  {
    ListItemIs(items, WITHDRAWALS_DEPTH, offset);
    assert Pow2(WITHDRAWALS_DEPTH + 1) == 32;
    proof := ProvePatched(state, withdrawalsRoot, withdrawals, ListItem(WITHDRAWALS_DEPTH, offset));
  }

  // The index of historicalSummaries[i].blockSummaryRoot, below the field's own index.
  function BlockSummaryRoot(historicalSummaries: nat, depth: nat, i: nat): (g: nat)
    requires historicalSummaries >= 1 && i < Pow2(depth)
    ensures g >= 1
  {
    Concat(Concat(historicalSummaries, ListItem(depth, i)), 2)
  }

  // It is the left child of entry i of the list below the field's index.
  lemma BlockSummaryRootIs(state: Node, historicalSummaries: nat, entries: seq<Node>, depth: nat, i: nat)
    requires historicalSummaries >= 1 && HasNode(state, historicalSummaries)
    requires i < |entries| <= Pow2(depth) && NodeAt(state, historicalSummaries) == ListTree(entries, depth)
    requires entries[i].Branch?
    ensures HasNode(state, BlockSummaryRoot(historicalSummaries, depth, i))
    ensures NodeAt(state, BlockSummaryRoot(historicalSummaries, depth, i)) == entries[i].left
  {
    ListItemIs(entries, depth, i);
    NodeAtConcat(state, historicalSummaries, ListItem(depth, i));
    NodeAtConcat(state, Concat(historicalSummaries, ListItem(depth, i)), 2);
    hide ListItem, ListTree, Concat;
  }

  method GenerateHistoricalStateProof(finalizedState: Node, blockSummaryRoot: nat, blockRoots: Node, ringDepth: nat,
                                      rootIndex: nat)
    returns (proof: SingleProof)
    requires blockSummaryRoot >= 1 && HasNode(finalizedState, blockSummaryRoot)
    requires rootIndex < Pow2(ringDepth) && HasNode(blockRoots, VectorItem(ringDepth, rootIndex))
    ensures proof.gindex == Concat(blockSummaryRoot, VectorItem(ringDepth, rootIndex))
    ensures proof.leaf == Root(NodeAt(blockRoots, VectorItem(ringDepth, rootIndex)))
    ensures Accepts(Root(finalizedState), proof.gindex, proof.witnesses, proof.leaf)
      <==> Root(blockRoots) == Root(NodeAt(finalizedState, blockSummaryRoot))
  {
    proof := ProvePatched(finalizedState, blockSummaryRoot, blockRoots, VectorItem(ringDepth, rootIndex));
  }
}
