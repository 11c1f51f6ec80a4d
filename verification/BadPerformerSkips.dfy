/** When skipping a strikes tree as already processed changes nothing. */
module BadPerformerSkips {
  import opened Wrappers
  import opened BadPerformers

  // The leaf's operator is on a curve beyond the number of curves.
  ghost predicate Uncovered(tree: Tree, r: Reads, i: nat)
    requires i < |tree.leaves|
  {
    r.bondCurve(tree.leaves[i].operatorId) >= |r.strikeParams|
  }

  ghost predicate CurvesCovered(tree: Tree, r: Reads) {
    forall i: nat :: i < |tree.leaves| ==> !Uncovered(tree, r, i)
  }

  lemma {:induction false} SameJudgements(p: Params, q: Params, leaves: seq<Leaf>, keyInfo: KeyLookup, cli: bool)
    requires forall i :: 0 <= i < |leaves| ==> Judge(p, leaves[i], keyInfo, cli) == Judge(q, leaves[i], keyInfo, cli)
    ensures Evaluate(p, leaves, keyInfo, cli) == Evaluate(q, leaves, keyInfo, cli)
  {
    hide Judge;
    if leaves == [] {
    } else {
      SameJudgements(p, q, leaves[..|leaves| - 1], keyInfo, cli);
    }
  }

  lemma CoveredJudgedAlike(s: Service, tree: Tree, r: Reads, i: nat, keyInfo: KeyLookup, cli: bool)
    requires NothingNew(s, tree, Fresh(tree, r)) && i < |tree.leaves| && !Uncovered(tree, r, i)
    ensures Judge(Fresh(tree, r), tree.leaves[i], keyInfo, cli) == Judge(s.params, tree.leaves[i], keyInfo, cli)
  {
    var p, o := Fresh(tree, r), tree.leaves[i].operatorId;
    assert o in Operators(tree) && o in p.curveIds && p.curveIds[o] in p.thresholds;
  }

  // Skipping a tree changes nothing: the parameters just read give the same keys as the stored ones.
  lemma SkipIsHarmless(s: Service, tree: Tree, r: Reads, keyInfo: KeyLookup, cli: bool)
    requires NothingNew(s, tree, Fresh(tree, r)) && CurvesCovered(tree, r)
    ensures Evaluate(Fresh(tree, r), tree.leaves, keyInfo, cli) == Evaluate(s.params, tree.leaves, keyInfo, cli)
  {
    forall i | 0 <= i < |tree.leaves|
      ensures Judge(Fresh(tree, r), tree.leaves[i], keyInfo, cli) == Judge(s.params, tree.leaves[i], keyInfo, cli)
    {
      assert !Uncovered(tree, r, i);
      CoveredJudgedAlike(s, tree, r, i, keyInfo, cli);
    }
    SameJudgements(Fresh(tree, r), s.params, tree.leaves, keyInfo, cli);
  }

  ghost predicate FirstUncovered(tree: Tree, r: Reads, i: nat) {
    i < |tree.leaves| && Uncovered(tree, r, i) && forall j: nat :: j < i ==> !Uncovered(tree, r, j)
  }

  ghost predicate SkipChangesNothing(s: Service, tree: Tree, r: Reads) {
    forall keyInfo: KeyLookup, cli: bool ::
      Evaluate(Fresh(tree, r), tree.leaves, keyInfo, cli) == Evaluate(s.params, tree.leaves, keyInfo, cli)
  }

  // At the first uncovered leaf the parameters just read have no threshold.
  lemma FreshFailsThere(s: Service, tree: Tree, r: Reads, i: nat, keyInfo: KeyLookup, cli: bool)
    requires NothingNew(s, tree, Fresh(tree, r)) && FirstUncovered(tree, r, i)
    ensures var c, leaf := r.bondCurve(tree.leaves[i].operatorId), tree.leaves[i];
      && Judge(Fresh(tree, r), leaf, keyInfo, cli) == Failed(NoThreshold(c))
      && (c !in s.params.thresholds ==> Judge(s.params, leaf, keyInfo, cli) == Failed(NoThreshold(c)))
    ensures Evaluate(Fresh(tree, r), tree.leaves[..i], keyInfo, cli) ==
      Evaluate(s.params, tree.leaves[..i], keyInfo, cli)
  {
    var o := tree.leaves[i].operatorId;
    assert o in Operators(tree) && o in Fresh(tree, r).curveIds;
    forall j | 0 <= j < i
      ensures Judge(Fresh(tree, r), tree.leaves[j], keyInfo, cli) == Judge(s.params, tree.leaves[j], keyInfo, cli)
    {
      CoveredJudgedAlike(s, tree, r, j, keyInfo, cli);
    }
    SameJudgements(Fresh(tree, r), s.params, tree.leaves[..i], keyInfo, cli);
  }

  // The result at a leaf that fails is the error before it, if there is one, or its own.
  lemma EvaluateAtFailure(p: Params, leaves: seq<Leaf>, i: nat, keyInfo: KeyLookup, cli: bool, e: Error)
    requires i < |leaves| && Judge(p, leaves[i], keyInfo, cli) == Failed(e)
    ensures Evaluate(p, leaves, keyInfo, cli) ==
      var before := Evaluate(p, leaves[..i], keyInfo, cli);
      if before.Err? then before else Err(e)
  {
    hide Judge;
    assert leaves[..i + 1][..i] == leaves[..i] && leaves[..i + 1][i] == leaves[i];
    FirstErrorStays(p, leaves, keyInfo, cli, i + 1);
  }

  lemma {:induction false} ErrorIsReal(p: Params, leaves: seq<Leaf>, keyInfo: KeyLookup, cli: bool, curveId: nat)
    requires Evaluate(p, leaves, keyInfo, cli) == Err(NoThreshold(curveId))
    ensures curveId !in p.thresholds
  {
    if Evaluate(p, leaves[..|leaves| - 1], keyInfo, cli).Err? {
      ErrorIsReal(p, leaves[..|leaves| - 1], keyInfo, cli, curveId);
    }
  }

  lemma StoredThresholdTells(s: Service, tree: Tree, r: Reads, i: nat)
    requires NothingNew(s, tree, Fresh(tree, r)) && FirstUncovered(tree, r, i)
    requires r.bondCurve(tree.leaves[i].operatorId) in s.params.thresholds
    ensures !SkipChangesNothing(s, tree, r)
  {
    var p, c, nobody := Fresh(tree, r), r.bondCurve(tree.leaves[i].operatorId), (k: string) => None;
    FreshFailsThere(s, tree, r, i, nobody, true);
    EvaluateAtFailure(p, tree.leaves, i, nobody, true, NoThreshold(c));
    EvaluateFailsIff(p, tree.leaves[..i], nobody, true);
    forall leaf | leaf in tree.leaves[..i]
      ensures !Broken(p, leaf, nobody, true)
    {
      var j :| 0 <= j < i && tree.leaves[j] == leaf;
      assert !Uncovered(tree, r, j) && leaf.operatorId in Operators(tree);
    }
    if Evaluate(s.params, tree.leaves, nobody, true) == Err(NoThreshold(c)) {
      ErrorIsReal(s.params, tree.leaves, nobody, true, c);
      assert false;
    }
  }

  // Without the assumption on curve ids: skipping changes nothing exactly if the first leaf whose
  // curve has no parameters any more, if there is one, had none when they were stored either.
  lemma SkipIsHarmlessIff(s: Service, tree: Tree, r: Reads)
    requires NothingNew(s, tree, Fresh(tree, r))
    ensures SkipChangesNothing(s, tree, r) <==>
      forall i: nat :: FirstUncovered(tree, r, i) ==> r.bondCurve(tree.leaves[i].operatorId) !in s.params.thresholds
  {
    var uncovered := set i: nat | i < |tree.leaves| && Uncovered(tree, r, i);
    assert forall i: nat :: i < |tree.leaves| ==> (i in uncovered <==> Uncovered(tree, r, i));
    if uncovered == {} {
      assert forall i: nat :: i < |tree.leaves| ==> !Uncovered(tree, r, i);
      forall keyInfo: KeyLookup, cli: bool
        ensures Evaluate(Fresh(tree, r), tree.leaves, keyInfo, cli) == Evaluate(s.params, tree.leaves, keyInfo, cli)
      {
        SkipIsHarmless(s, tree, r, keyInfo, cli);
      }
    } else {
      var i := Least(uncovered);
      assert FirstUncovered(tree, r, i);
      forall j: nat | FirstUncovered(tree, r, j)
        ensures j == i
      {
        assert j in uncovered;
      }
      var c := r.bondCurve(tree.leaves[i].operatorId);
      if c in s.params.thresholds {
        StoredThresholdTells(s, tree, r, i);
      } else {
        forall keyInfo: KeyLookup, cli: bool
          ensures Evaluate(Fresh(tree, r), tree.leaves, keyInfo, cli) == Evaluate(s.params, tree.leaves, keyInfo, cli)
        {
          FreshFailsThere(s, tree, r, i, keyInfo, cli);
          EvaluateAtFailure(Fresh(tree, r), tree.leaves, i, keyInfo, cli, NoThreshold(c));
          EvaluateAtFailure(s.params, tree.leaves, i, keyInfo, cli, NoThreshold(c));
        }
      }
    }
  }
}
