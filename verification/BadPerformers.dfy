/** Bad-performer rounds: which keys of a strikes tree are reported, and what a round leaves behind. */
module BadPerformers {
  import opened Wrappers
  import Sorting
  import Division

  datatype Leaf = Leaf(operatorId: nat, pubKey: string, strikes: seq<int>)

  datatype Tree = Tree(root: string, leaves: seq<Leaf>)

  datatype FullKeyInfo = FullKeyInfo(operatorId: nat, keyIndex: nat, pubKey: string, validatorIndex: nat)

  datatype BadKey = BadKey(info: FullKeyInfo, leafIndex: nat, strikes: seq<int>)

  datatype Params = Params(thresholds: map<nat, int>, curveIds: map<nat, nat>)

  datatype Error =
    | NoCurveId(operatorId: nat)
    | NoThreshold(curveId: nat)
    | UnknownKey(pubKey: string)
    | WrongOperator(pubKey: string)
    | NoTree
    | Faulted

  type KeyLookup = string -> Option<FullKeyInfo>

  // ---- The keys above their thresholds ----

  datatype Finding = Below | Bad(info: FullKeyInfo) | Failed(error: Error)

  function Sum(strikes: seq<int>): int {
    if strikes == [] then 0 else Sum(strikes[..|strikes| - 1]) + strikes[|strikes| - 1]
  }

  // Each strike counts once, whatever their order.
  lemma {:induction false} SumOfBoth(a: seq<int>, b: seq<int>)
    ensures Sum(a + b) == Sum(a) + Sum(b)
    decreases |b|
  {
    if b == [] {
      assert a + b == a;
    } else {
      assert (a + b)[..|a + b| - 1] == a + b[..|b| - 1];
      SumOfBoth(a, b[..|b| - 1]);
    }
  }

  lemma SumOfOne(strike: int)
    ensures Sum([]) == 0 && Sum([strike]) == strike
  {
    assert [strike][..0] == [];
  }

  lemma SumWithout(strikes: seq<int>, i: nat)
    requires i < |strikes|
    ensures Sum(strikes) == strikes[i] + Sum(strikes[..i] + strikes[i + 1..])
  {
    assert strikes == strikes[..i] + ([strikes[i]] + strikes[i + 1..]);
    SumOfBoth(strikes[..i], [strikes[i]] + strikes[i + 1..]);
    SumOfBoth([strikes[i]], strikes[i + 1..]);
    SumOfBoth(strikes[..i], strikes[i + 1..]);
    SumOfOne(strikes[i]);
  }

  lemma RestOf(strikes: seq<int>, i: nat)
    requires i < |strikes|
    ensures multiset(strikes[..i] + strikes[i + 1..]) == multiset(strikes) - multiset{strikes[i]}
  {
    assert strikes == strikes[..i] + ([strikes[i]] + strikes[i + 1..]);
  }

  lemma {:induction false} SumIgnoresOrder(a: seq<int>, b: seq<int>)
    requires multiset(a) == multiset(b)
    ensures Sum(a) == Sum(b)
    decreases |a|
  {
    assert |a| == |multiset(a)| && |b| == |multiset(b)|;
    if a == [] {
    } else {
      var last := a[|a| - 1];
      assert last in multiset(b);
      var i :| 0 <= i < |b| && b[i] == last;
      Sorting.DropLast(a);
      RestOf(b, i);
      SumIgnoresOrder(a[..|a| - 1], b[..i] + b[i + 1..]);
      SumWithout(b, i);
    }
  }

  function Judge(p: Params, leaf: Leaf, keyInfo: KeyLookup, cli: bool): Finding {
    if leaf.operatorId !in p.curveIds then Failed(NoCurveId(leaf.operatorId))
    else if p.curveIds[leaf.operatorId] !in p.thresholds then Failed(NoThreshold(p.curveIds[leaf.operatorId]))
    else if Sum(leaf.strikes) < p.thresholds[p.curveIds[leaf.operatorId]] then Below
    else
      match keyInfo(leaf.pubKey)
      case None => if cli then Below else Failed(UnknownKey(leaf.pubKey))
      case Some(info) => if info.operatorId != leaf.operatorId then Failed(WrongOperator(leaf.pubKey)) else Bad(info)
  }

  // The leaf's operator has a curve and the curve a threshold.
  ghost predicate Configured(p: Params, leaf: Leaf) {
    leaf.operatorId in p.curveIds && p.curveIds[leaf.operatorId] in p.thresholds
  }

  ghost predicate OverThreshold(p: Params, leaf: Leaf) {
    Configured(p, leaf) && Sum(leaf.strikes) >= p.thresholds[p.curveIds[leaf.operatorId]]
  }

  // The leaf's key is to be reported, and what is known of it.
  ghost predicate IsBad(p: Params, leaf: Leaf, keyInfo: KeyLookup, info: FullKeyInfo) {
    OverThreshold(p, leaf) && keyInfo(leaf.pubKey) == Some(info) && info.operatorId == leaf.operatorId
  }

  // The leaf makes the evaluation fail.
  ghost predicate Broken(p: Params, leaf: Leaf, keyInfo: KeyLookup, cli: bool) {
    || !Configured(p, leaf)
    || (OverThreshold(p, leaf) && keyInfo(leaf.pubKey).None? && !cli)
    || (OverThreshold(p, leaf) && keyInfo(leaf.pubKey).Some? &&
        keyInfo(leaf.pubKey).value.operatorId != leaf.operatorId)
  }

  lemma JudgeIs(p: Params, leaf: Leaf, keyInfo: KeyLookup, cli: bool)
    ensures Judge(p, leaf, keyInfo, cli).Failed? <==> Broken(p, leaf, keyInfo, cli)
    ensures forall info :: Judge(p, leaf, keyInfo, cli) == Bad(info) <==> IsBad(p, leaf, keyInfo, info)
  {
  }

  // The error of a leaf that has one tells which of its reads is missing or wrong.
  lemma ErrorIs(p: Params, leaf: Leaf, keyInfo: KeyLookup, cli: bool)
    requires Broken(p, leaf, keyInfo, cli)
    ensures Judge(p, leaf, keyInfo, cli).Failed?
    ensures match Judge(p, leaf, keyInfo, cli).error
      case NoCurveId(o) => o == leaf.operatorId && o !in p.curveIds
      case NoThreshold(c) => leaf.operatorId in p.curveIds && p.curveIds[leaf.operatorId] == c && c !in p.thresholds
      case UnknownKey(k) => k == leaf.pubKey && keyInfo(k).None? && !cli
      case WrongOperator(k) => k == leaf.pubKey && keyInfo(k).Some? && keyInfo(k).value.operatorId != leaf.operatorId
      case _ => false
  {
  }

  // The bad keys of the leaves, in their order, or the error of the first leaf that has one.
  function Evaluate(p: Params, leaves: seq<Leaf>, keyInfo: KeyLookup, cli: bool): Result<seq<BadKey>, Error> {
    if leaves == [] then Ok([])
    else
      var i := |leaves| - 1;
      var before := Evaluate(p, leaves[..i], keyInfo, cli);
      if before.Err? then before
      else
        match Judge(p, leaves[i], keyInfo, cli)
        case Below => before
        case Bad(info) => Ok(before.value + [BadKey(info, i, leaves[i].strikes)])
        case Failed(e) => Err(e)
  }

  ghost predicate FromItsLeaf(p: Params, leaves: seq<Leaf>, keyInfo: KeyLookup, k: BadKey) {
    && k.leafIndex < |leaves| && k.strikes == leaves[k.leafIndex].strikes
    && IsBad(p, leaves[k.leafIndex], keyInfo, k.info)
  }

  ghost predicate InLeafOrder(keys: seq<BadKey>) {
    forall i, j :: 0 <= i < j < |keys| ==> keys[i].leafIndex < keys[j].leafIndex
  }

  ghost predicate HasLeaf(keys: seq<BadKey>, i: nat) {
    exists k :: k in keys && k.leafIndex == i
  }

  // The keys of exactly the bad leaves, in leaf order.
  ghost predicate IsEvaluation(p: Params, leaves: seq<Leaf>, keyInfo: KeyLookup, keys: seq<BadKey>) {
    && InLeafOrder(keys)
    && (forall k :: k in keys ==> FromItsLeaf(p, leaves, keyInfo, k))
    && (forall i: nat, info :: i < |leaves| && IsBad(p, leaves[i], keyInfo, info) ==> HasLeaf(keys, i))
  }

  lemma OneMoreBad(p: Params, leaves: seq<Leaf>, leaf: Leaf, keyInfo: KeyLookup, keys: seq<BadKey>, info: FullKeyInfo)
    requires IsEvaluation(p, leaves, keyInfo, keys) && IsBad(p, leaf, keyInfo, info)
    ensures IsEvaluation(p, leaves + [leaf], keyInfo, keys + [BadKey(info, |leaves|, leaf.strikes)])
  {
    hide IsBad;
    var key := BadKey(info, |leaves|, leaf.strikes);
    assert forall j :: 0 <= j < |keys| ==> keys[j] in keys;
    assert FromItsLeaf(p, leaves + [leaf], keyInfo, key);
    assert forall k :: FromItsLeaf(p, leaves, keyInfo, k) ==> FromItsLeaf(p, leaves + [leaf], keyInfo, k);
    forall i: nat, known | i < |leaves + [leaf]| && IsBad(p, (leaves + [leaf])[i], keyInfo, known)
      ensures HasLeaf(keys + [key], i)
    {
      if i < |leaves| {
        assert HasLeaf(keys, i);
        var k :| k in keys && k.leafIndex == i;
        assert k in keys + [key];
      } else {
        assert key in keys + [key];
      }
    }
  }

  lemma OneMoreBelow(p: Params, leaves: seq<Leaf>, leaf: Leaf, keyInfo: KeyLookup, keys: seq<BadKey>)
    requires IsEvaluation(p, leaves, keyInfo, keys) && forall info :: !IsBad(p, leaf, keyInfo, info)
    ensures IsEvaluation(p, leaves + [leaf], keyInfo, keys)
  {
    hide IsBad;
    assert forall k :: FromItsLeaf(p, leaves, keyInfo, k) ==> FromItsLeaf(p, leaves + [leaf], keyInfo, k);
  }

  lemma {:induction false} EvaluateFailsIff(p: Params, leaves: seq<Leaf>, keyInfo: KeyLookup, cli: bool)
    ensures Evaluate(p, leaves, keyInfo, cli).Err? <==> exists leaf :: leaf in leaves && Broken(p, leaf, keyInfo, cli)
  {
    if leaves == [] {
    } else {
      var init, last := leaves[..|leaves| - 1], leaves[|leaves| - 1];
      EvaluateFailsIff(p, init, keyInfo, cli);
      JudgeIs(p, last, keyInfo, cli);
      hide Judge, Broken;
      assert forall leaf :: leaf in leaves <==> leaf in init || leaf == last;
    }
  }

  // The evaluation fails exactly if some leaf is broken. Otherwise it gives, in leaf order, one key
  // for each bad leaf, with that leaf's strikes and key info, and no other.
  lemma {:induction false} EvaluateIs(p: Params, leaves: seq<Leaf>, keyInfo: KeyLookup, cli: bool)
    ensures Evaluate(p, leaves, keyInfo, cli).Err? <==> exists leaf :: leaf in leaves && Broken(p, leaf, keyInfo, cli)
    ensures Evaluate(p, leaves, keyInfo, cli).Ok? ==>
      IsEvaluation(p, leaves, keyInfo, Evaluate(p, leaves, keyInfo, cli).value)
  {
    EvaluateFailsIff(p, leaves, keyInfo, cli);
    hide Judge, Broken, IsBad;
    if leaves == [] {
      assert IsEvaluation(p, leaves, keyInfo, []);
    } else {
      hide IsEvaluation;
      var init, leaf := leaves[..|leaves| - 1], leaves[|leaves| - 1];
      assert leaves == init + [leaf];
      EvaluateIs(p, init, keyInfo, cli);
      JudgeIs(p, leaf, keyInfo, cli);
      var before, finding := Evaluate(p, init, keyInfo, cli), Judge(p, leaf, keyInfo, cli);
      if before.Ok? && finding.Bad? {
        OneMoreBad(p, init, leaf, keyInfo, before.value, finding.info);
      } else if before.Ok? && finding.Below? {
        OneMoreBelow(p, init, leaf, keyInfo, before.value);
      }
    }
  }

  // Evaluation stops at the first broken leaf.
  lemma {:induction false} FirstErrorStays(p: Params, leaves: seq<Leaf>, keyInfo: KeyLookup, cli: bool, n: nat)
    requires n <= |leaves| && Evaluate(p, leaves[..n], keyInfo, cli).Err?
    ensures Evaluate(p, leaves, keyInfo, cli) == Evaluate(p, leaves[..n], keyInfo, cli)
  {
    if n < |leaves| {
      var i := |leaves| - 1;
      assert leaves[..i][..n] == leaves[..n];
      FirstErrorStays(p, leaves[..i], keyInfo, cli, n);
    } else {
      assert leaves[..n] == leaves;
    }
  }

  // ---- Batches ----

  function Chunks<T>(s: seq<T>, size: nat): seq<seq<T>>
    requires size > 0
  {
    if |s| == 0 then []
    else if |s| <= size then [s]
    else [s[..size]] + Chunks(s[size..], size)
  }

  function Concat<T>(chunks: seq<seq<T>>): seq<T> {
    if chunks == [] then [] else chunks[0] + Concat(chunks[1..])
  }

  ghost predicate WellFilled<T>(chunks: seq<seq<T>>, size: nat) {
    forall i :: 0 <= i < |chunks| ==>
      0 < |chunks[i]| <= size && (i < |chunks| - 1 ==> |chunks[i]| == size)
  }

  // A list of n keys falls into exactly ceil(n / size) non-empty batches, each but the last full,
  // which put together give the list.
  lemma {:induction false} ChunksPartition<T>(s: seq<T>, size: nat)
    requires size > 0
    ensures Concat(Chunks(s, size)) == s && WellFilled(Chunks(s, size), size)
    ensures |Chunks(s, size)| == (|s| + size - 1) / size
    decreases |s|
  {
    if |s| > size {
      ChunksPartition(s[size..], size);
      Division.CeilStep(|s|, size);
      assert s == s[..size] + s[size..];
    } else {
      Division.CeilSmall(|s|, size);
      assert Concat([s]) == s + [];
    }
  }

  // ---- One round ----

  // The part of the service that survives a round.
  datatype Service = Service(tree: Option<Tree>, params: Params, lastProcessed: Option<string>)

  // Where a round goes wrong, if anywhere. A batch that is reported as failed may still have landed.
  datatype Fault = Nowhere | Fetching | Checking | Sending(batch: nat, landed: bool)

  // What a round reads: the exit limit at its start and before sending, the tree with the contract's
  // root, the strike parameters of each curve, the curve of each operator, the keys known to the
  // indexer and the public keys already reported.
  datatype Reads = Reads(
    limitAtStart: nat, tree: Option<Tree>, strikeParams: seq<int>, bondCurve: nat -> nat, keyInfo: KeyLookup,
    proved: set<string>, withdrawn: set<string>, limit: nat, fault: Fault)

  datatype Config = Config(batchSize: nat, cli: bool)

  function Operators(tree: Tree): set<nat> {
    set i | 0 <= i < |tree.leaves| :: tree.leaves[i].operatorId
  }

  function Fresh(tree: Tree, r: Reads): Params {
    Params(
      map c: nat | c < |r.strikeParams| :: r.strikeParams[c],
      map o | o in Operators(tree) :: r.bondCurve(o))
  }

  // Under the parameters a round reads: the strikes of leaf i add up to the threshold of the curve its
  // operator is on, and its key is known under that operator.
  ghost predicate BadLeaf(tree: Tree, r: Reads, i: nat, info: FullKeyInfo)
    requires i < |tree.leaves|
  {
    var leaf := tree.leaves[i];
    && r.bondCurve(leaf.operatorId) < |r.strikeParams|
    && r.strikeParams[r.bondCurve(leaf.operatorId)] <= Sum(leaf.strikes)
    && r.keyInfo(leaf.pubKey) == Some(info) && info.operatorId == leaf.operatorId
  }

  lemma BadUnderFresh(tree: Tree, r: Reads, i: nat, info: FullKeyInfo)
    requires i < |tree.leaves|
    ensures IsBad(Fresh(tree, r), tree.leaves[i], r.keyInfo, info) <==> BadLeaf(tree, r, i, info)
    ensures Configured(Fresh(tree, r), tree.leaves[i]) <==>
      r.bondCurve(tree.leaves[i].operatorId) < |r.strikeParams|
  {
    assert tree.leaves[i].operatorId in Operators(tree);
  }

  // An evaluation with the parameters just read gives one key for exactly each bad leaf.
  lemma FreshEvaluationIs(tree: Tree, r: Reads, cli: bool, i: nat)
    requires Evaluate(Fresh(tree, r), tree.leaves, r.keyInfo, cli).Ok? && i < |tree.leaves|
    ensures var keys := Evaluate(Fresh(tree, r), tree.leaves, r.keyInfo, cli).value;
      && (HasLeaf(keys, i) <==> exists info :: BadLeaf(tree, r, i, info))
      && forall k :: k in keys && k.leafIndex == i ==>
           BadLeaf(tree, r, i, k.info) && k.strikes == tree.leaves[i].strikes
  {
    var p := Fresh(tree, r);
    EvaluateIs(p, tree.leaves, r.keyInfo, cli);
    var keys := Evaluate(p, tree.leaves, r.keyInfo, cli).value;
    hide Evaluate, Fresh, IsBad, BadLeaf;
    forall info
      ensures IsBad(p, tree.leaves[i], r.keyInfo, info) <==> BadLeaf(tree, r, i, info)
    {
      BadUnderFresh(tree, r, i, info);
    }
    assert forall k :: k in keys && k.leafIndex == i ==> FromItsLeaf(p, tree.leaves, r.keyInfo, k);
  }

  // A tree already loaded is used again.
  function Loaded(s: Service, tree: Tree): Tree {
    if s.tree.Some? && s.tree.value.root == tree.root then s.tree.value else tree
  }

  predicate Agrees<T(==)>(read: map<nat, T>, stored: map<nat, T>) {
    forall k :: k in read ==> k in stored && stored[k] == read[k]
  }

  // The skip test.
  predicate NothingNew(s: Service, tree: Tree, p: Params) {
    && s.lastProcessed == Some(tree.root)
    && Agrees(p.thresholds, s.params.thresholds)
    && Agrees(p.curveIds, s.params.curveIds)
  }

  function Without(keys: seq<BadKey>, reported: set<string>): seq<BadKey> {
    if keys == [] then []
    else
      var rest := Without(keys[..|keys| - 1], reported);
      if keys[|keys| - 1].info.pubKey in reported then rest else rest + [keys[|keys| - 1]]
  }

  function LeafIndexDescending(): BadKey -> int {
    (k: BadKey) => -(k.leafIndex as int)
  }

  function MarkCurrent(s: Service): Service {
    if s.tree.Some? then s.(lastProcessed := Some(s.tree.value.root)) else s
  }

  function Batches(c: Config, keys: seq<BadKey>): seq<seq<BadKey>>
    requires c.batchSize > 0
  {
    Chunks(Sorting.Sort(keys, LeafIndexDescending()), c.batchSize)
  }

  function AllowedNow(keys: seq<BadKey>, limit: nat): seq<BadKey> {
    if limit >= |keys| then keys else keys[..limit]
  }

  // The state after a round, and the batches that landed.
  datatype Outcome = Outcome(service: Service, landed: seq<seq<BadKey>>, result: Result<nat, Error>)

  predicate Fails(fault: Fault, batches: nat) {
    fault.Sending? && fault.batch < batches
  }

  function Landed(fault: Fault, batches: seq<seq<BadKey>>): seq<seq<BadKey>> {
    if Fails(fault, |batches|) then batches[..if fault.landed then fault.batch + 1 else fault.batch] else batches
  }

  function Send(c: Config, s: Service, keys: seq<BadKey>, limit: nat, fault: Fault): Outcome
    requires c.batchSize > 0
  {
    if keys == [] then Outcome(MarkCurrent(s), [], Ok(0))
    else if s.tree.None? then Outcome(s, [], Err(NoTree))
    else
      var toSend := AllowedNow(keys, limit);
      var batches := Batches(c, toSend);
      if toSend == [] then Outcome(s, [], Ok(0))
      else if Fails(fault, |batches|) then Outcome(s, Landed(fault, batches), Err(Faulted))
      else
        Outcome(if limit >= |keys| then MarkCurrent(s) else s, batches, Ok(|toSend|))
  }

  // The service when it has a tree to process, and nothing otherwise.
  function Prepare(s: Service, r: Reads): Option<Service> {
    if r.tree.None? then None
    else
      var tree := Loaded(s, r.tree.value);
      var p := Fresh(tree, r);
      if NothingNew(s, tree, p) then None else Some(s.(tree := Some(tree), params := p))
  }

  // What has been read is what is stored.
  ghost predicate StoredAlready(s: Service, tree: Tree, r: Reads) {
    && (forall c: nat :: c < |r.strikeParams| ==>
          c in s.params.thresholds && s.params.thresholds[c] == r.strikeParams[c])
    && (forall leaf :: leaf in tree.leaves ==>
          leaf.operatorId in s.params.curveIds && s.params.curveIds[leaf.operatorId] == r.bondCurve(leaf.operatorId))
  }

  // A tree is skipped if and only if it is marked and its parameters are stored already; otherwise the
  // service holds it, which is the loaded one if that has its root, under the parameters just read.
  lemma SkippedIff(s: Service, r: Reads)
    ensures Prepare(s, r).None? <==>
      r.tree.None? || (s.lastProcessed == Some(r.tree.value.root) && StoredAlready(s, Loaded(s, r.tree.value), r))
    ensures Prepare(s, r).Some? ==>
      var t := Prepare(s, r).value;
      && t.lastProcessed == s.lastProcessed && t.tree.Some? && t.params == Fresh(t.tree.value, r)
      && t.tree.value.root == r.tree.value.root
      && t.tree == (if s.tree.Some? && s.tree.value.root == r.tree.value.root then s.tree else r.tree)
  {
    if r.tree.Some? {
      var tree := Loaded(s, r.tree.value);
      var p := Fresh(tree, r);
      assert forall o :: o in Operators(tree) <==> exists leaf :: leaf in tree.leaves && leaf.operatorId == o;
      assert forall c: nat :: c in p.thresholds <==> c < |r.strikeParams|;
    }
  }

  // The keys of the current tree still to report.
  function Collect(c: Config, s: Service, r: Reads): Result<seq<BadKey>, Error>
    requires s.tree.Some?
  {
    var bad := Evaluate(s.params, s.tree.value.leaves, r.keyInfo, c.cli);
    if bad.Err? || bad.value == [] then bad
    else if r.fault.Checking? then Err(Faulted)
    else Ok(Without(Without(bad.value, r.proved), r.withdrawn))
  }

  function Round(c: Config, s: Service, r: Reads): Outcome
    requires c.batchSize > 0
  {
    if r.limitAtStart == 0 then Outcome(s, [], Ok(0))
    else if r.fault.Fetching? then Outcome(s, [], Err(Faulted))
    else if Prepare(s, r).None? then Send(c, s, [], r.limit, r.fault)
    else
      var prepared := Prepare(s, r).value;
      match Collect(c, prepared, r)
      case Err(e) => Outcome(prepared, [], Err(e))
      case Ok(keys) => Send(c, prepared, keys, r.limit, r.fault)
  }
}
