/** The bad-performers service as an object with fields, each method proved against the functions of
    BadPerformers, and the payloads it sends. */
module BadPerformersService {
  import opened Wrappers
  import opened Sorting
  import opened BadPerformers
  import BadPerformerRounds

  datatype KeyStrikes = KeyStrikes(nodeOperatorId: nat, keyIndex: nat, data: seq<int>)

  // The key is the one at its leaf of the tree, as the key index knows it.
  ghost predicate OnTree(tree: Tree, keyInfo: KeyLookup, k: BadKey) {
    && k.leafIndex < |tree.leaves| && k.info.pubKey == tree.leaves[k.leafIndex].pubKey
    && keyInfo(k.info.pubKey) == Some(k.info)
  }

  ghost predicate AllOnTree(tree: Tree, keyInfo: KeyLookup, keys: seq<BadKey>) {
    forall i :: 0 <= i < |keys| ==> OnTree(tree, keyInfo, keys[i])
  }

  function LeavesOf(tree: Tree, indices: seq<nat>): (r: seq<Leaf>)
    requires forall i :: 0 <= i < |indices| ==> indices[i] < |tree.leaves|
    ensures |r| == |indices|
  {
    seq(|indices|, i requires 0 <= i < |indices| => tree.leaves[indices[i]])
  }

  function LeafIndices(keys: seq<BadKey>): (r: seq<nat>)
    ensures |r| == |keys| && forall i :: 0 <= i < |keys| ==> r[i] == keys[i].leafIndex
  {
    seq(|keys|, i requires 0 <= i < |keys| => keys[i].leafIndex)
  }

  ghost predicate Entries(keyInfo: KeyLookup, payload: seq<KeyStrikes>, leaves: seq<Leaf>) {
    && |payload| == |leaves|
    && forall i :: 0 <= i < |leaves| ==>
         && keyInfo(leaves[i].pubKey).Some?
         && payload[i] == KeyStrikes(leaves[i].operatorId, keyInfo(leaves[i].pubKey).value.keyIndex, leaves[i].strikes)
  }

  // A payload reports a batch: its entries are those of the batch's leaves, in some order, each
  // with the key index of its own key.
  ghost predicate Reports(tree: Tree, keyInfo: KeyLookup, payload: seq<KeyStrikes>, batch: seq<BadKey>)
    requires AllOnTree(tree, keyInfo, batch)
  {
    exists leaves ::
      multiset(leaves) == multiset(LeavesOf(tree, LeafIndices(batch))) && Entries(keyInfo, payload, leaves)
  }

  function FindKey(batch: seq<BadKey>, pubKey: string): (r: Option<BadKey>)
    ensures r.Some? ==> r.value in batch && r.value.info.pubKey == pubKey
    ensures r.None? ==> forall k :: k in batch ==> k.info.pubKey != pubKey
  {
    if batch == [] then None
    else if batch[0].info.pubKey == pubKey then Some(batch[0])
    else FindKey(batch[1..], pubKey)
  }

  function BuildKeyStrikesPayload(leaves: seq<Leaf>, batch: seq<BadKey>): Result<seq<KeyStrikes>, Error> {
    if leaves == [] then Ok([])
    else
      var leaf := leaves[0];
      var key := FindKey(batch, leaf.pubKey);
      var rest := BuildKeyStrikesPayload(leaves[1..], batch);
      if key.None? then Err(UnknownKey(leaf.pubKey))
      else if rest.Err? then rest
      else Ok([KeyStrikes(leaf.operatorId, key.value.info.keyIndex, leaf.strikes)] + rest.value)
  }

  // For the leaves of a batch, in whatever order, the payload is built and pairs each leaf with its
  // own key.
  lemma {:induction false} PayloadPairs(tree: Tree, keyInfo: KeyLookup, leaves: seq<Leaf>, batch: seq<BadKey>)
    requires AllOnTree(tree, keyInfo, batch)
    requires forall i :: 0 <= i < |batch| ==> batch[i].leafIndex < |tree.leaves|
    requires forall leaf :: leaf in leaves ==> leaf in LeavesOf(tree, LeafIndices(batch))
    ensures BuildKeyStrikesPayload(leaves, batch).Ok?
    ensures Entries(keyInfo, BuildKeyStrikesPayload(leaves, batch).value, leaves)
  {
    if leaves == [] {
    } else {
      var leaf, key := leaves[0], FindKey(batch, leaves[0].pubKey);
      assert key.Some? by {
        assert leaf in leaves;
        var asked := LeavesOf(tree, LeafIndices(batch));
        var i :| 0 <= i < |asked| && asked[i] == leaf;
        assert batch[i] in batch && OnTree(tree, keyInfo, batch[i]);
      }
      assert OnTree(tree, keyInfo, key.value);
      PayloadPairs(tree, keyInfo, leaves[1..], batch);
    }
  }

  // The leaves of a multi-proof are those asked for; their order is the library's.
  method GetMultiProof(tree: Tree, indices: seq<nat>) returns (leaves: seq<Leaf>)
    requires forall i :: 0 <= i < |indices| ==> indices[i] < |tree.leaves|
    ensures multiset(leaves) == multiset(LeavesOf(tree, indices))
  {
    leaves := LeavesOf(tree, indices);
  }

  // Payloads report the batches they were built for.
  ghost predicate AllReport(tree: Tree, keyInfo: KeyLookup, payloads: seq<seq<KeyStrikes>>, batches: seq<seq<BadKey>>) {
    && |payloads| == |batches|
    && forall j :: 0 <= j < |batches| ==>
         AllOnTree(tree, keyInfo, batches[j]) && Reports(tree, keyInfo, payloads[j], batches[j])
  }

  function Upto(i: nat, size: nat, length: nat): (end: nat)
    ensures i <= length ==> i <= end <= length
  {
    if i + size <= length then i + size else length
  }

  // A log of payloads grew by one payload for each of the batches.
  ghost predicate Logged(tree: Tree, keyInfo: KeyLookup, before: seq<seq<KeyStrikes>>, after: seq<seq<KeyStrikes>>,
                         batches: seq<seq<BadKey>>)
  {
    |before| <= |after| && after[..|before|] == before && AllReport(tree, keyInfo, after[|before|..], batches)
  }

  lemma NoneLogged(tree: Tree, keyInfo: KeyLookup, log: seq<seq<KeyStrikes>>)
    ensures Logged(tree, keyInfo, log, log, [])
  {
  }

  // The batches that start at i or later.
  ghost function Rest(s: seq<BadKey>, size: nat, i: nat): seq<seq<BadKey>>
    requires size > 0
  {
    Chunks(if i < |s| then s[i..] else [], size)
  }

  lemma NextChunk(s: seq<BadKey>, size: nat, i: nat)
    requires size > 0
    ensures Rest(s, size, i) == if i < |s| then [s[i..Upto(i, size, |s|)]] + Rest(s, size, i + size) else []
  {
    if i + size < |s| {
      assert s[i..][size..] == s[i + size..];
      assert |s[i..]| > size && s[i..][..size] == s[i..i + size];
    } else if i < |s| {
      assert s[i..Upto(i, size, |s|)] == s[i..] && 0 < |s[i..]| <= size;
      assert Rest(s, size, i) == [s[i..]];
      assert Rest(s, size, i + size) == [];
    }
  }

  // Sending has come to place i of the sorted keys, with the batches before it done.
  ghost predicate SentUpto(c: Config, keys: seq<BadKey>, sorted: seq<BadKey>, fault: Fault, done: seq<seq<BadKey>>,
                           i: nat)
  {
    && c.batchSize > 0 && sorted == Sort(keys, LeafIndexDescending())
    && Batches(c, keys) == done + Rest(sorted, c.batchSize, i)
    && (fault.Sending? ==> |done| <= fault.batch)
  }

  lemma SentNothing(c: Config, keys: seq<BadKey>, fault: Fault)
    requires c.batchSize > 0
    ensures SentUpto(c, keys, Sort(keys, LeafIndexDescending()), fault, [], 0)
  {
    var sorted := Sort(keys, LeafIndexDescending());
    assert sorted[0..] == sorted;
  }

  lemma LandedUpto(fault: Fault, before: seq<seq<BadKey>>, batch: seq<BadKey>, rest: seq<seq<BadKey>>)
    requires fault.Sending? && fault.batch == |before|
    ensures var batches := before + ([batch] + rest);
      Fails(fault, |batches|) && Landed(fault, batches) == if fault.landed then before + [batch] else before
  {
    var batches := before + ([batch] + rest);
    assert batches[..|before|] == before && batches[..|before| + 1] == before + [batch];
  }

  lemma Together<T>(a: seq<T>, b: seq<T>, c: seq<T>)
    ensures a + (b + c) == (a + b) + c
  {
  }

  lemma SentOneMore(c: Config, keys: seq<BadKey>, sorted: seq<BadKey>, fault: Fault, done: seq<seq<BadKey>>, i: nat)
    requires SentUpto(c, keys, sorted, fault, done, i) && i < |sorted|
    ensures var more := done + [sorted[i..Upto(i, c.batchSize, |sorted|)]];
      if fault.Sending? && fault.batch == |done| then
        && Fails(fault, |Batches(c, keys)|)
        && Landed(fault, Batches(c, keys)) == if fault.landed then more else done
      else SentUpto(c, keys, sorted, fault, more, i + c.batchSize)
  {
    NextChunk(sorted, c.batchSize, i);
    var batch, rest := sorted[i..Upto(i, c.batchSize, |sorted|)], Rest(sorted, c.batchSize, i + c.batchSize);
    hide Sort, Batches, Rest, Fails, Landed;
    if fault.Sending? && fault.batch == |done| {
      LandedUpto(fault, done, batch, rest);
    } else {
      Together(done, [batch], rest);
    }
  }

  lemma SentAll(c: Config, keys: seq<BadKey>, sorted: seq<BadKey>, fault: Fault, done: seq<seq<BadKey>>, i: nat)
    requires SentUpto(c, keys, sorted, fault, done, i) && i >= |sorted|
    ensures !Fails(fault, |Batches(c, keys)|) && Landed(fault, Batches(c, keys)) == done
  {
    NextChunk(sorted, c.batchSize, i);
  }

  lemma AllOnTreePart(tree: Tree, keyInfo: KeyLookup, keys: seq<BadKey>, i: nat, j: nat)
    requires AllOnTree(tree, keyInfo, keys) && i <= j <= |keys|
    ensures AllOnTree(tree, keyInfo, keys[i..j])
  {
  }

  lemma AllOnTreeSorted(tree: Tree, keyInfo: KeyLookup, keys: seq<BadKey>)
    requires AllOnTree(tree, keyInfo, keys)
    ensures AllOnTree(tree, keyInfo, Sort(keys, LeafIndexDescending()))
  {
    SortIs(keys, LeafIndexDescending());
    var sorted := Sort(keys, LeafIndexDescending());
    assert forall i :: 0 <= i < |sorted| ==> sorted[i] in multiset(keys);
  }

  lemma CollectedOnTree(c: Config, s: Service, r: Reads)
    requires BadPerformerRounds.ByPubKey(r.keyInfo) && Prepare(s, r).Some? && Collect(c, Prepare(s, r).value, r).Ok?
    ensures AllOnTree(Prepare(s, r).value.tree.value, r.keyInfo, Collect(c, Prepare(s, r).value, r).value)
  {
    BadPerformerRounds.CollectIs(c, s, r);
    hide Collect, Fresh, NothingNew;
    var tree, keys := Prepare(s, r).value.tree.value, Collect(c, Prepare(s, r).value, r).value;
    forall i | 0 <= i < |keys|
      ensures OnTree(tree, r.keyInfo, keys[i])
    {
      assert keys[i] in keys && BadPerformerRounds.Considers(s, r, keys[i]);
    }
  }

  lemma LoggedMore(tree: Tree, keyInfo: KeyLookup, before: seq<seq<KeyStrikes>>, after: seq<seq<KeyStrikes>>,
                   batches: seq<seq<BadKey>>, payload: seq<KeyStrikes>, batch: seq<BadKey>)
    requires Logged(tree, keyInfo, before, after, batches)
    requires AllOnTree(tree, keyInfo, batch) && Reports(tree, keyInfo, payload, batch)
    ensures Logged(tree, keyInfo, before, after + [payload], batches + [batch])
  {
    assert (after + [payload])[|before|..] == after[|before|..] + [payload];
  }

  method BatchPayload(tree: Tree, batch: seq<BadKey>, ghost keyInfo: KeyLookup) returns (payload: seq<KeyStrikes>)
    requires AllOnTree(tree, keyInfo, batch)
    ensures Reports(tree, keyInfo, payload, batch)
  {
    assert forall i :: 0 <= i < |batch| ==> OnTree(tree, keyInfo, batch[i]);
    var leaves := GetMultiProof(tree, LeafIndices(batch));
    assert forall leaf :: leaf in leaves ==> leaf in multiset(LeavesOf(tree, LeafIndices(batch)));
    PayloadPairs(tree, keyInfo, leaves, batch);
    payload := BuildKeyStrikesPayload(leaves, batch).value;
  }

  method StrikesSum(strikes: seq<int>) returns (sum: int)
    ensures sum == Sum(strikes)
  {
    sum := 0;
    for i := 0 to |strikes|
      invariant sum == Sum(strikes[..i])
    {
      assert strikes[..i + 1][..i] == strikes[..i];
      sum := sum + strikes[i];
    }
    assert strikes[..|strikes|] == strikes;
  }

  class BadPerformersService {
    const config: Config
    var currentTree: Option<Tree>
    var thresholds: map<nat, int>
    var curveIds: map<nat, nat>
    var lastProcessed: Option<string>
    ghost var sent: seq<seq<KeyStrikes>>   // the payloads that landed, in order

    ghost function Model(): Service
      reads this
    {
      Service(currentTree, Params(thresholds, curveIds), lastProcessed)
    }

    constructor (config: Config)
      ensures this.config == config && sent == []
      ensures Model() == Service(None, Params(map[], map[]), None)
    {
      this.config := config;
      currentTree, thresholds, curveIds, lastProcessed, sent := None, map[], map[], None, [];
    }

    // True if there is a tree to process.
    method PrepareStrikesTreeForProcessing(r: Reads) returns (any: bool)
      modifies this
      ensures sent == old(sent)
      ensures any == Prepare(old(Model()), r).Some?
      ensures Model() == if any then Prepare(old(Model()), r).value else old(Model())
    {
      if r.tree.None? {
        return false;
      }
      var tree := Loaded(Service(currentTree, Params(thresholds, curveIds), lastProcessed), r.tree.value);
      var p := Fresh(tree, r);
      if lastProcessed == Some(tree.root) && Agrees(p.thresholds, thresholds) && Agrees(p.curveIds, curveIds) {
        return false;
      }
      currentTree, thresholds, curveIds := Some(tree), p.thresholds, p.curveIds;
      return true;
    }

    method GetBadPerformersKeys(keyInfo: KeyLookup) returns (r: Result<seq<BadKey>, Error>)
      requires currentTree.Some?
      ensures r == Evaluate(Model().params, currentTree.value.leaves, keyInfo, config.cli)
    {
      ghost var p := Params(thresholds, curveIds);
      var leaves := currentTree.value.leaves;
      var keys: seq<BadKey> := [];
      for i := 0 to |leaves|
        invariant Evaluate(p, leaves[..i], keyInfo, config.cli) == Ok(keys)
      {
        var leaf := leaves[i];
        assert leaves[..i + 1][..i] == leaves[..i];
        if Judge(p, leaf, keyInfo, config.cli).Failed? {
          FirstErrorStays(p, leaves, keyInfo, config.cli, i + 1);
        }
        var strikesSum := StrikesSum(leaf.strikes);
        if leaf.operatorId !in curveIds {
          return Err(NoCurveId(leaf.operatorId));
        }
        if curveIds[leaf.operatorId] !in thresholds {
          return Err(NoThreshold(curveIds[leaf.operatorId]));
        }
        if strikesSum < thresholds[curveIds[leaf.operatorId]] {
          continue;
        }
        var fullKeyInfo := keyInfo(leaf.pubKey);
        if fullKeyInfo.None? {
          if config.cli {
            continue;
          }
          return Err(UnknownKey(leaf.pubKey));
        }
        if fullKeyInfo.value.operatorId != leaf.operatorId {
          return Err(WrongOperator(leaf.pubKey));
        }
        keys := keys + [BadKey(fullKeyInfo.value, i, leaf.strikes)];
      }
      assert leaves[..|leaves|] == leaves;
      return Ok(keys);
    }

    method GetUnprovenNonWithdrawnBadPerformers(r: Reads) returns (keys: Result<seq<BadKey>, Error>)
      modifies this
      ensures sent == old(sent)
      ensures var prepared := Prepare(old(Model()), r);
        && Model() == (if prepared.Some? then prepared.value else old(Model()))
        && keys == if prepared.Some? then Collect(config, prepared.value, r) else Ok([])
    {
      var any := PrepareStrikesTreeForProcessing(r);
      if !any {
        return Ok([]);
      }
      var bad := GetBadPerformersKeys(r.keyInfo);
      if bad.Err? || bad.value == [] {
        return bad;
      }
      if r.fault.Checking? {
        return Err(Faulted);
      }
      var unproven := Without(bad.value, r.proved);
      return Ok(Without(unproven, r.withdrawn));
    }

    // Sends the batches up to a fault; `sent` grows by a payload for each batch that landed.
    method ProcessBadPerformerBatches(badPerformers: seq<BadKey>, fault: Fault, ghost keyInfo: KeyLookup)
      returns (ok: bool)
      requires config.batchSize > 0 && currentTree.Some? && AllOnTree(currentTree.value, keyInfo, badPerformers)
      modifies `sent
      ensures ok == !Fails(fault, |Batches(config, badPerformers)|)
      ensures Logged(currentTree.value, keyInfo, old(sent), sent, Landed(fault, Batches(config, badPerformers)))
    {
      hide *;
      var tree, size := currentTree.value, config.batchSize;
      var sorted := Sort(badPerformers, LeafIndexDescending());
      AllOnTreeSorted(tree, keyInfo, badPerformers);
      SentNothing(config, badPerformers, fault);
      ghost var done: seq<seq<BadKey>> := [];
      NoneLogged(tree, keyInfo, sent);
      var i, number := 0, 0;
      while i < |sorted|
        invariant number == |done| && SentUpto(config, badPerformers, sorted, fault, done, i)
        invariant Logged(tree, keyInfo, old(sent), sent, done)
        decreases |sorted| - i
      {
        var batch := sorted[i..Upto(i, size, |sorted|)];
        SentOneMore(config, badPerformers, sorted, fault, done, i);
        AllOnTreePart(tree, keyInfo, sorted, i, Upto(i, size, |sorted|));
        var payload := BatchPayload(tree, batch, keyInfo);
        LoggedMore(tree, keyInfo, old(sent), sent, done, payload, batch);
        if fault.Sending? && fault.batch == number {
          if fault.landed {
            sent := sent + [payload];
          }
          return false;
        }
        sent, done := sent + [payload], done + [batch];
        i, number := i + size, number + 1;
      }
      SentAll(config, badPerformers, sorted, fault, done, i);
      return true;
    }

    method SendBadPerformanceProofs(badPerformers: seq<BadKey>, exitLimit: nat, fault: Fault, ghost keyInfo: KeyLookup)
      returns (r: Result<nat, Error>)
      requires config.batchSize > 0
      requires currentTree.Some? ==> AllOnTree(currentTree.value, keyInfo, badPerformers)
      modifies this
      ensures currentTree == old(currentTree)
      ensures var o := Send(config, old(Model()), badPerformers, exitLimit, fault);
        && Model() == o.service && r == o.result
        && (if currentTree.None? then sent == old(sent)
            else Logged(currentTree.value, keyInfo, old(sent), sent, o.landed))
    {
      if currentTree.Some? {
        NoneLogged(currentTree.value, keyInfo, sent);
      }
      if |badPerformers| == 0 {
        if currentTree.Some? {
          lastProcessed := Some(currentTree.value.root);
        }
        return Ok(0);
      }
      if currentTree.None? {
        return Err(NoTree);
      }
      var sendAll := exitLimit >= |badPerformers|;
      var toSend := if sendAll then badPerformers else badPerformers[..exitLimit];
      if |toSend| == 0 {
        return Ok(0);
      }
      var ok := ProcessBadPerformerBatches(toSend, fault, keyInfo);
      if !ok {
        return Err(Faulted);
      }
      if sendAll {
        lastProcessed := Some(currentTree.value.root);
      }
      return Ok(|toSend|);
    }

    // A whole round.
    method HandleBadPerformers(r: Reads) returns (result: Result<nat, Error>)
      requires config.batchSize > 0 && BadPerformerRounds.ByPubKey(r.keyInfo)
      modifies this
      ensures var o := Round(config, old(Model()), r);
        && Model() == o.service && result == o.result
        && (if currentTree.None? then sent == old(sent)
            else Logged(currentTree.value, r.keyInfo, old(sent), sent, o.landed))
    {
      if currentTree.Some? {
        NoneLogged(currentTree.value, r.keyInfo, sent);
      }
      if r.limitAtStart == 0 {
        return Ok(0);
      }
      if r.fault.Fetching? {
        return Err(Faulted);
      }
      ghost var before := Model();
      var keys := GetUnprovenNonWithdrawnBadPerformers(r);
      if keys.Err? {
        return Err(keys.error);
      }
      if Prepare(before, r).Some? {
        CollectedOnTree(config, before, r);
      }
      result := SendBadPerformanceProofs(keys.value, r.limit, r.fault, r.keyInfo);
    }
  }
}
