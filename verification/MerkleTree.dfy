/** Binary Merkle trees, generalized indices, and single proofs, after the Ethereum
    consensus-specs, ssz/merkle-proofs.md, sections "Generalized Merkle tree index" and "Helpers
    for generalized indices". Hashes are free terms: two equal hashes have equal preimages. */
module MerkleTree {

  datatype Digest = Bytes(value: nat) | Hash(left: Digest, right: Digest)

  datatype Node = Leaf(digest: Digest) | Branch(left: Node, right: Node)

  function Root(n: Node): Digest {
    match n
    case Leaf(d) => d
    case Branch(l, r) => Hash(Root(l), Root(r))
  }

  // floor(log2 g): the depth of the node at generalized index g.
  function Depth(g: nat): (d: nat)
    requires g >= 1
  {
    if g == 1 then 0 else Depth(g / 2) + 1
  }

  function Pow2(n: nat): (p: nat)
    ensures p >= 1
  {
    if n == 0 then 1 else 2 * Pow2(n - 1)
  }

  // The index relative to the child of the root that the path enters, and whether it goes right:
  // the leading bit after the top one.
  function Below(g: nat): (r: nat)
    requires g >= 2
    ensures 1 <= r < g
  {
    if g < 4 then 1 else 2 * Below(g / 2) + g % 2
  }

  predicate GoesRight(g: nat)
    requires g >= 2
  {
    if g < 4 then g == 3 else GoesRight(g / 2)
  }

  // Whether the tree reaches down to generalized index g.
  predicate HasNode(n: Node, g: nat)
    requires g >= 1
  {
    g == 1 || (n.Branch? && HasNode(if GoesRight(g) then n.right else n.left, Below(g)))
  }

  function NodeAt(n: Node, g: nat): Node
    requires g >= 1 && HasNode(n, g)
  {
    if g == 1 then n else NodeAt(if GoesRight(g) then n.right else n.left, Below(g))
  }

  function SetNode(n: Node, g: nat, sub: Node): Node
    requires g >= 1 && HasNode(n, g)
  {
    if g == 1 then sub
    else if GoesRight(g) then Branch(n.left, SetNode(n.right, Below(g), sub))
    else Branch(SetNode(n.left, Below(g), sub), n.right)
  }

  // The witnesses of a single proof, the sibling of the proved node first.
  function Witnesses(n: Node, g: nat): seq<Digest>
    requires g >= 1 && HasNode(n, g)
  {
    if g == 1 then []
    else if GoesRight(g) then Witnesses(n.right, Below(g)) + [Root(n.left)]
    else Witnesses(n.left, Below(g)) + [Root(n.right)]
  }

  // The index of the node at g2 below the node at g1.
  function Concat(g1: nat, g2: nat): (g: nat)
    requires g1 >= 1 && g2 >= 1
    ensures g >= 1
  {
    if g2 == 1 then g1 else 2 * Concat(g1, g2 / 2) + g2 % 2
  }

  lemma Twice(a: nat, b: nat)
    ensures a * (2 * b) == 2 * (a * b)
  {
  }

  // Concatenation as the specification writes it.
  lemma {:induction false} ConcatIsSpecified(g1: nat, g2: nat)
    requires g1 >= 1 && g2 >= 1
    ensures Pow2(Depth(g2)) <= g2
    ensures Concat(g1, g2) == g1 * Pow2(Depth(g2)) + (g2 - Pow2(Depth(g2)))
    ensures Depth(Concat(g1, g2)) == Depth(g1) + Depth(g2)
  {
    if g2 <= 1 {
    } else {
      ConcatIsSpecified(g1, g2 / 2);
      assert Concat(g1, g2) / 2 == Concat(g1, g2 / 2);
      Twice(g1, Pow2(Depth(g2 / 2)));
    }
  }

  lemma {:induction false} BelowDepth(g: nat)
    requires g >= 2
    ensures Depth(Below(g)) == Depth(g) - 1
  {
    if g < 4 {
    } else {
      BelowDepth(g / 2);
      assert Below(g) / 2 == Below(g / 2);
    }
  }

  // A concatenated path enters the same child as its first part.
  lemma {:induction false} ConcatBelow(g1: nat, g2: nat)
    requires g1 >= 2 && g2 >= 1
    ensures Concat(g1, g2) >= 2
    ensures GoesRight(Concat(g1, g2)) == GoesRight(g1)
    ensures Below(Concat(g1, g2)) == Concat(Below(g1), g2)
  {
    if g2 <= 1 {
    } else {
      ConcatBelow(g1, g2 / 2);
      var c := Concat(g1, g2 / 2);
      assert Concat(g1, g2) / 2 == c && Concat(g1, g2) % 2 == g2 % 2;
    }
  }

  lemma {:induction false} ConcatOne(g: nat)
    requires g >= 1
    ensures Concat(1, g) == g
  {
    if g <= 1 {
    } else {
      ConcatOne(g / 2);
    }
  }

  // Walking a concatenated path is walking its two parts.
  lemma {:induction false} NodeAtConcat(n: Node, g1: nat, g2: nat)
    requires g1 >= 1 && g2 >= 1
    ensures HasNode(n, Concat(g1, g2)) <==> HasNode(n, g1) && HasNode(NodeAt(n, g1), g2)
    ensures HasNode(n, Concat(g1, g2)) ==>
      && NodeAt(n, Concat(g1, g2)) == NodeAt(NodeAt(n, g1), g2)
      && Witnesses(n, Concat(g1, g2)) == Witnesses(NodeAt(n, g1), g2) + Witnesses(n, g1)
    decreases g1
  {
    if g1 == 1 {
      ConcatOne(g2);
    } else {
      ConcatBelow(g1, g2);
      if n.Branch? {
        NodeAtConcat(if GoesRight(g1) then n.right else n.left, Below(g1), g2);
      }
    }
  }

  // Replacing a node: it is there afterwards, the path's siblings are unchanged, and the root
  // stays the same exactly when the replaced node's root does.
  lemma {:induction false} SetNodeKeeps(n: Node, g: nat, sub: Node)
    requires g >= 1 && HasNode(n, g)
    ensures var p := SetNode(n, g, sub);
      && HasNode(p, g) && NodeAt(p, g) == sub && Witnesses(p, g) == Witnesses(n, g)
      && (Root(p) == Root(n) <==> Root(sub) == Root(NodeAt(n, g)))
  {
    if g <= 1 {
    } else {
      SetNodeKeeps(if GoesRight(g) then n.right else n.left, Below(g), sub);
    }
  }

  // ---- Vectors and lists ----

  const ZERO := Bytes(0)

  // The items below a vector's root, its missing ones zero.
  function VectorTree(items: seq<Node>, depth: nat): Node
    requires |items| <= Pow2(depth)
    decreases depth
  {
    if depth == 0 then if items == [] then Leaf(ZERO) else items[0]
    else
      var half := Pow2(depth - 1);
      if |items| <= half then Branch(VectorTree(items, depth - 1), VectorTree([], depth - 1))
      else Branch(VectorTree(items[..half], depth - 1), VectorTree(items[half..], depth - 1))
  }

  // A list of at most 2^depth items: the items below its left child, its length on the right.
  function ListTree(items: seq<Node>, depth: nat): Node
    requires |items| <= Pow2(depth)
  {
    Branch(VectorTree(items, depth), Leaf(Bytes(|items|)))
  }

  function VectorItem(depth: nat, i: nat): (g: nat)
    requires i < Pow2(depth)
    ensures g >= 1
  {
    Pow2(depth) + i
  }

  function ListItem(depth: nat, i: nat): (g: nat)
    requires i < Pow2(depth)
    ensures g >= 1
  {
    Pow2(depth + 1) + i
  }

  lemma {:induction false} VectorItemBelow(depth: nat, i: nat)
    requires depth >= 1 && i < Pow2(depth)
    ensures var g, half := VectorItem(depth, i), Pow2(depth - 1);
      && g >= 2 && GoesRight(g) == (i >= half)
      && Below(g) == VectorItem(depth - 1, if i >= half then i - half else i)
  {
    if depth < 2 {
    } else {
      VectorItemBelow(depth - 1, i / 2);
      assert VectorItem(depth, i) / 2 == VectorItem(depth - 1, i / 2);
    }
  }

  function ItemOrZero(items: seq<Node>, i: nat): Node {
    if i < |items| then items[i] else Leaf(ZERO)
  }

  // The node at an item's index is the item.
  lemma {:induction false} VectorItemIs(items: seq<Node>, depth: nat, i: nat)
    requires i < Pow2(depth) && |items| <= Pow2(depth)
    ensures HasNode(VectorTree(items, depth), VectorItem(depth, i))
    ensures NodeAt(VectorTree(items, depth), VectorItem(depth, i)) == ItemOrZero(items, i)
    decreases depth
  {
    if depth == 0 {
    } else {
      var half := Pow2(depth - 1);
      VectorItemBelow(depth, i);
      var j := if i < half then i else i - half;
      var part :=
        if i < half then if |items| <= half then items else items[..half]
        else if |items| <= half then [] else items[half..];
      VectorItemIs(part, depth - 1, j);
    }
  }

  lemma ListItemIs(items: seq<Node>, depth: nat, i: nat)
    requires i < Pow2(depth) && |items| <= Pow2(depth)
    ensures HasNode(ListTree(items, depth), ListItem(depth, i))
    ensures NodeAt(ListTree(items, depth), ListItem(depth, i)) == ItemOrZero(items, i)
  {
    VectorItemBelow(depth + 1, i);
    VectorItemIs(items, depth, i);
  }

  ghost predicate SameRoots(a: seq<Node>, b: seq<Node>) {
    |a| == |b| && forall i :: 0 <= i < |a| ==> Root(a[i]) == Root(b[i])
  }

  lemma HalvesSame(a: seq<Node>, b: seq<Node>, half: nat)
    requires half <= |a| == |b| && SameRoots(a[..half], b[..half]) && SameRoots(a[half..], b[half..])
    ensures SameRoots(a, b)
  {
    hide Root;
    forall i | 0 <= i < |a|
      ensures Root(a[i]) == Root(b[i])
    {
      if i < half {
        assert a[..half][i] == a[i] && b[..half][i] == b[i];
      } else {
        assert a[half..][i - half] == a[i] && b[half..][i - half] == b[i];
      }
    }
  }

  lemma RootOfBranch(n: Node)
    requires n.Branch?
    ensures Root(n) == Hash(Root(n.left), Root(n.right))
  {
  }

  // The root of a vector determines the roots of its items.
  lemma {:induction false} VectorTreeInjective(a: seq<Node>, b: seq<Node>, depth: nat)
    requires |a| == |b| <= Pow2(depth) && Root(VectorTree(a, depth)) == Root(VectorTree(b, depth))
    ensures SameRoots(a, b)
    decreases depth
  {
    if depth == 0 {
    } else {
      var half := Pow2(depth - 1);
      RootOfBranch(VectorTree(a, depth));
      RootOfBranch(VectorTree(b, depth));
      hide Root, SameRoots;
      if |a| <= half {
        VectorTreeInjective(a, b, depth - 1);
      } else {
        VectorTreeInjective(a[..half], b[..half], depth - 1);
        VectorTreeInjective(a[half..], b[half..], depth - 1);
        HalvesSame(a, b, half);
      }
    }
  }

  function Leaves(s: seq<Digest>): (leaves: seq<Node>)
    ensures |leaves| == |s| && forall i :: 0 <= i < |s| ==> leaves[i] == Leaf(s[i])
  {
    seq(|s|, i requires 0 <= i < |s| => Leaf(s[i]))
  }

  lemma LeavesInjective(a: seq<Digest>, b: seq<Digest>, depth: nat)
    requires |a| == |b| <= Pow2(depth) && Root(VectorTree(Leaves(a), depth)) == Root(VectorTree(Leaves(b), depth))
    ensures a == b
  {
    VectorTreeInjective(Leaves(a), Leaves(b), depth);
    forall i | 0 <= i < |a|
      ensures a[i] == b[i]
    {
      assert Root(Leaves(a)[i]) == Root(Leaves(b)[i]);
    }
  }
}
