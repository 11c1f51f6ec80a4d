/** Many rounds of bad-performer reports. */
module BadPerformerRounds {
  import opened Wrappers
  import Sequences
  import opened Sorting
  import opened BadPerformers

  function PubKeyOf(): BadKey -> string {
    (k: BadKey) => k.info.pubKey
  }

  function PubKeys(keys: seq<BadKey>): (r: seq<string>)
    ensures |r| == |keys|
  {
    seq(|keys|, i requires 0 <= i < |keys| => keys[i].info.pubKey)
  }

  // The public keys a round reported on chain.
  function Reported(o: Outcome): seq<string> {
    PubKeys(Concat(o.landed))
  }

  ghost predicate DistinctKeys(tree: Tree) {
    forall i, j :: 0 <= i < j < |tree.leaves| ==> tree.leaves[i].pubKey != tree.leaves[j].pubKey
  }

  // The key index looks a key up by its public key.
  ghost predicate ByPubKey(keyInfo: KeyLookup) {
    forall p :: keyInfo(p).Some? ==> keyInfo(p).value.pubKey == p
  }

  // ---- What one round sends ----

  lemma {:induction false} ConcatAppend<T>(a: seq<seq<T>>, b: seq<seq<T>>)
    ensures Concat(a + b) == Concat(a) + Concat(b)
  {
    if a == [] {
      assert a + b == b;
    } else {
      assert (a + b)[1..] == a[1..] + b;
      ConcatAppend(a[1..], b);
    }
  }

  lemma ConcatPrefix<T>(chunks: seq<seq<T>>, n: nat)
    requires n <= |chunks|
    ensures |Concat(chunks[..n])| <= |Concat(chunks)|
    ensures Concat(chunks[..n]) == Concat(chunks)[..|Concat(chunks[..n])|]
  {
    ConcatAppend(chunks[..n], chunks[n..]);
    assert chunks == chunks[..n] + chunks[n..];
  }

  lemma LeavesDescend(keys: seq<BadKey>)
    requires Ascending(keys, LeafIndexDescending())
    ensures forall i, j :: 0 <= i < j < |keys| ==> keys[i].leafIndex >= keys[j].leafIndex
  {
    forall i, j | 0 <= i < j < |keys|
      ensures keys[i].leafIndex >= keys[j].leafIndex
    {
      assert LeafIndexDescending()(keys[i]) <= LeafIndexDescending()(keys[j]);
    }
  }

  // The batches are a permutation of the send list in descending leaf order, cut into
  // ceil(n / batch size) non-empty pieces.
  lemma BatchesPartition(c: Config, keys: seq<BadKey>)
    requires c.batchSize > 0
    ensures var all := Concat(Batches(c, keys));
      && |all| == |keys| && multiset(all) == multiset(keys)
      && (forall i, j :: 0 <= i < j < |all| ==> all[i].leafIndex >= all[j].leafIndex)
      && (DistinctBy(keys, PubKeyOf()) ==> DistinctBy(all, PubKeyOf()))
    ensures WellFilled(Batches(c, keys), c.batchSize)
    ensures |Batches(c, keys)| == (|keys| + c.batchSize - 1) / c.batchSize
  {
    hide Sort, Chunks, Concat, WellFilled, Ascending;
    var sorted := Sort(keys, LeafIndexDescending());
    ChunksPartition(sorted, c.batchSize);
    SortIs(keys, LeafIndexDescending());
    LeavesDescend(sorted);
    if DistinctBy(keys, PubKeyOf()) {
      SortDistinct(keys, LeafIndexDescending(), PubKeyOf());
    }
  }

  lemma {:induction false} WithoutElems(keys: seq<BadKey>, reported: set<string>)
    ensures forall k :: k in Without(keys, reported) <==> k in keys && k.info.pubKey !in reported
  {
    if keys == [] {
    } else {
      var init, last := keys[..|keys| - 1], keys[|keys| - 1];
      WithoutElems(init, reported);
      assert keys == init + [last];
    }
  }

  lemma {:induction false} WithoutDistinct(keys: seq<BadKey>, reported: set<string>)
    requires DistinctBy(keys, PubKeyOf())
    ensures DistinctBy(Without(keys, reported), PubKeyOf())
  {
    if keys == [] {
    } else {
      var init, last := keys[..|keys| - 1], keys[|keys| - 1];
      WithoutDistinct(init, reported);
      WithoutElems(init, reported);
      var rest := Without(init, reported);
      forall i | 0 <= i < |rest|
        ensures PubKeyOf()(rest[i]) != PubKeyOf()(last)
      {
        assert rest[i] in init;
        var j :| 0 <= j < |init| && init[j] == rest[i];
        assert PubKeyOf()(keys[j]) != PubKeyOf()(last);
      }
    }
  }

  lemma WithoutIs(keys: seq<BadKey>, reported: set<string>)
    ensures forall k :: k in Without(keys, reported) <==> k in keys && k.info.pubKey !in reported
    ensures DistinctBy(keys, PubKeyOf()) ==> DistinctBy(Without(keys, reported), PubKeyOf())
  {
    WithoutElems(keys, reported);
    if DistinctBy(keys, PubKeyOf()) {
      WithoutDistinct(keys, reported);
    }
  }

  // Distinct leaves give keys with distinct public keys.
  lemma EvaluatedDistinct(p: Params, tree: Tree, keyInfo: KeyLookup, cli: bool)
    requires DistinctKeys(tree) && ByPubKey(keyInfo) && Evaluate(p, tree.leaves, keyInfo, cli).Ok?
    ensures DistinctBy(Evaluate(p, tree.leaves, keyInfo, cli).value, PubKeyOf())
  {
    EvaluateIs(p, tree.leaves, keyInfo, cli);
    var keys := Evaluate(p, tree.leaves, keyInfo, cli).value;
    forall i, j | 0 <= i < j < |keys|
      ensures PubKeyOf()(keys[i]) != PubKeyOf()(keys[j])
    {
      assert keys[i] in keys && keys[j] in keys;
      assert FromItsLeaf(p, tree.leaves, keyInfo, keys[i]);
      assert FromItsLeaf(p, tree.leaves, keyInfo, keys[j]);
    }
  }

  // A key of a bad leaf of the round's tree that is neither proved nor withdrawn.
  ghost predicate IsDue(s: Service, r: Reads, k: BadKey)
    requires r.tree.Some?
  {
    var tree := Loaded(s, r.tree.value);
    && k.leafIndex < |tree.leaves| && k.strikes == tree.leaves[k.leafIndex].strikes
    && BadLeaf(tree, r, k.leafIndex, k.info)
    && k.info.pubKey !in r.proved && k.info.pubKey !in r.withdrawn
  }

  // The same by the parameters the round stores.
  ghost predicate Considers(s: Service, r: Reads, k: BadKey)
    requires r.tree.Some?
  {
    var tree := Loaded(s, r.tree.value);
    && FromItsLeaf(Fresh(tree, r), tree.leaves, r.keyInfo, k)
    && k.info.pubKey !in r.proved && k.info.pubKey !in r.withdrawn
  }

  lemma CollectIs(c: Config, s: Service, r: Reads)
    requires Prepare(s, r).Some? && Collect(c, Prepare(s, r).value, r).Ok?
    ensures var keys := Collect(c, Prepare(s, r).value, r).value;
      && (forall k :: k in keys ==> Considers(s, r, k))
      && (ByPubKey(r.keyInfo) && DistinctKeys(Loaded(s, r.tree.value)) ==> DistinctBy(keys, PubKeyOf()))
  {
    hide Evaluate, Judge, Without, Fresh, NothingNew;
    var prepared := Prepare(s, r).value;
    var leaves := prepared.tree.value.leaves;
    EvaluateIs(prepared.params, leaves, r.keyInfo, c.cli);
    var bad := Evaluate(prepared.params, leaves, r.keyInfo, c.cli).value;
    if ByPubKey(r.keyInfo) && DistinctKeys(prepared.tree.value) {
      EvaluatedDistinct(prepared.params, prepared.tree.value, r.keyInfo, c.cli);
    }
    if bad != [] {
      WithoutIs(bad, r.proved);
      WithoutIs(Without(bad, r.proved), r.withdrawn);
    }
  }

  lemma ConsidersIsDue(s: Service, r: Reads)
    ensures r.tree.Some? ==> forall k :: Considers(s, r, k) ==> IsDue(s, r, k)
  {
    if r.tree.Some? {
      var tree := Loaded(s, r.tree.value);
      hide IsBad, BadLeaf, Fresh, Loaded;
      forall k | Considers(s, r, k)
        ensures IsDue(s, r, k)
      {
        BadUnderFresh(tree, r, k.leafIndex, k.info);
      }
    }
  }

  // What lands of a send list: at most the limit, no key twice, and nothing that is not on the list.
  lemma SendIs(c: Config, s: Service, keys: seq<BadKey>, limit: nat, fault: Fault)
    requires c.batchSize > 0
    ensures var sent := Concat(Send(c, s, keys, limit, fault).landed);
      && |sent| <= limit
      && (forall k :: k in sent ==> k in keys && k in AllowedNow(keys, limit))
      && (DistinctBy(keys, PubKeyOf()) ==> DistinctBy(sent, PubKeyOf()))
  {
    hide Batches;
    var toSend := AllowedNow(keys, limit);
    BatchesPartition(c, toSend);
    var all := Concat(Batches(c, toSend));
    forall n: nat | n <= |Batches(c, toSend)|
      ensures |Concat(Batches(c, toSend)[..n])| <= |all|
      ensures Concat(Batches(c, toSend)[..n]) == all[..|Concat(Batches(c, toSend)[..n])|]
    {
      ConcatPrefix(Batches(c, toSend), n);
    }
    forall k | k in all
      ensures k in keys && k in toSend
    {
      assert k in multiset(toSend);
    }
  }

  // A round reports at most its exit limit, no key twice, and only keys that are above their
  // operator's threshold now and were neither proved nor withdrawn when it looked.
  lemma RoundSends(c: Config, s: Service, r: Reads)
    requires c.batchSize > 0
    ensures var sent := Concat(Round(c, s, r).landed);
      && |sent| <= r.limit
      && (forall k :: k in sent ==> r.tree.Some? && IsDue(s, r, k))
      && (r.tree.Some? && ByPubKey(r.keyInfo) && DistinctKeys(Loaded(s, r.tree.value)) ==> DistinctBy(sent, PubKeyOf()))
  {
    ConsidersIsDue(s, r);
    hide Send, Considers, IsDue, Collect, Loaded;
    assert |Concat(Outcome(s, [], Ok(0)).landed)| == 0;
    SendIs(c, s, [], r.limit, r.fault);
    if Prepare(s, r).Some? {
      var prepared := Prepare(s, r).value;
      if Collect(c, prepared, r).Ok? {
        CollectIs(c, s, r);
        SendIs(c, prepared, Collect(c, prepared, r).value, r.limit, r.fault);
      }
    }
  }

  // A read, the evaluation, a contract or a batch goes wrong.
  ghost predicate GoesWrong(c: Config, s: Service, r: Reads)
    requires c.batchSize > 0
  {
    r.limitAtStart > 0 &&
    (r.fault.Fetching? ||
     (Prepare(s, r).Some? &&
      var keys := Collect(c, Prepare(s, r).value, r);
      keys.Err? || Fails(r.fault, |Batches(c, AllowedNow(keys.value, r.limit))|)))
  }

  // The result of a round is the number of keys it reported, and an error exactly if it goes wrong.
  lemma RoundResult(c: Config, s: Service, r: Reads)
    requires c.batchSize > 0
    ensures Round(c, s, r).result.Err? <==> GoesWrong(c, s, r)
    ensures Round(c, s, r).result.Ok? ==> Round(c, s, r).result.value == |Concat(Round(c, s, r).landed)|
  {
    hide Evaluate, Fresh, NothingNew, Batches, Without;
    if Prepare(s, r).Some? && Collect(c, Prepare(s, r).value, r).Ok? {
      var toSend := AllowedNow(Collect(c, Prepare(s, r).value, r).value, r.limit);
      BatchesPartition(c, toSend);
      hide Collect, Prepare;
    }
  }

  // ---- No key is reported twice ----

  // Reads reflect what was reported before; trees have one leaf per key.
  ghost predicate Readable(s: Service, r: Reads, sent: seq<string>) {
    && (forall p :: p in sent ==> p in r.proved)
    && ByPubKey(r.keyInfo)
    && (r.tree.Some? ==> DistinctKeys(Loaded(s, r.tree.value)))
  }

  ghost predicate ReadableRun(c: Config, s: Service, rs: seq<Reads>, sent: seq<string>)
    requires c.batchSize > 0
    decreases |rs|
  {
    rs == [] ||
    (Readable(s, rs[0], sent) &&
     ReadableRun(c, Round(c, s, rs[0]).service, rs[1..], sent + Reported(Round(c, s, rs[0]))))
  }

  // All the keys reported over a run, in order.
  ghost function EverReported(c: Config, s: Service, rs: seq<Reads>): seq<string>
    requires c.batchSize > 0
    decreases |rs|
  {
    if rs == [] then []
    else Reported(Round(c, s, rs[0])) + EverReported(c, Round(c, s, rs[0]).service, rs[1..])
  }

  lemma RoundRepeatsNothing(c: Config, s: Service, r: Reads, sent: seq<string>)
    requires c.batchSize > 0 && Readable(s, r, sent) && Sequences.Distinct(sent)
    ensures Sequences.Distinct(sent + Reported(Round(c, s, r)))
  {
    hide Round, FromItsLeaf;
    RoundSends(c, s, r);
    var keys := Concat(Round(c, s, r).landed);
    assert forall i :: 0 <= i < |keys| ==> keys[i] in keys && PubKeys(keys)[i] == PubKeyOf()(keys[i]);
  }

  // Main result: over any number of rounds, with any trees, parameters, limits and failures, no
  // public key is reported twice.
  lemma {:induction false} NoKeySentTwice(c: Config, s: Service, rs: seq<Reads>, sent: seq<string>)
    requires c.batchSize > 0 && Sequences.Distinct(sent) && ReadableRun(c, s, rs, sent)
    ensures Sequences.Distinct(sent + EverReported(c, s, rs))
    decreases |rs|
  {
    hide Round, Readable, Reported;
    if rs == [] {
      assert sent + [] == sent;
    } else {
      var o := Round(c, s, rs[0]);
      RoundRepeatsNothing(c, s, rs[0], sent);
      NoKeySentTwice(c, o.service, rs[1..], sent + Reported(o));
      assert sent + Reported(o) + EverReported(c, o.service, rs[1..]) == sent + EverReported(c, s, rs);
    }
  }
}
