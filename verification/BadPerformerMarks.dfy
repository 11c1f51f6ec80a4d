/** When a strikes tree is marked processed, what the mark means, and when it is wrong. */
module BadPerformerMarks {
  import opened Wrappers
  import Sequences
  import opened Sorting
  import opened BadPerformers
  import opened BadPerformerRounds
  import BadPerformerSkips

  // ---- The mark after one round ----

  // A round gets through: it has a tree to evaluate, its keys can be evaluated and looked up, those
  // left to report fit the limit, and no batch of them fails.
  ghost predicate Completes(c: Config, s: Service, r: Reads)
    requires c.batchSize > 0
  {
    && Prepare(s, r).Some?
    && var keys := Collect(c, Prepare(s, r).value, r);
       keys.Ok? && |keys.value| <= r.limit && (keys.value == [] || !Fails(r.fault, |Batches(c, keys.value)|))
  }

  ghost predicate Starts(r: Reads) {
    r.limitAtStart > 0 && !r.fault.Fetching?
  }

  ghost function BadKeys(c: Config, s: Service, keyInfo: KeyLookup): Result<seq<BadKey>, Error>
    requires s.tree.Some?
  {
    Evaluate(s.params, s.tree.value.leaves, keyInfo, c.cli)
  }

  lemma LandedReported(c: Config, keys: seq<BadKey>)
    requires c.batchSize > 0
    ensures forall k :: k in keys ==> k.info.pubKey in PubKeys(Concat(Batches(c, keys)))
  {
    BatchesPartition(c, keys);
    hide Batches, Concat, WellFilled;
    var all := Concat(Batches(c, keys));
    forall k | k in keys
      ensures k.info.pubKey in PubKeys(all)
    {
      assert k in multiset(all);
      var i :| 0 <= i < |all| && all[i] == k;
      assert PubKeys(all)[i] == k.info.pubKey;
    }
  }

  lemma CompletedSendsAll(c: Config, s: Service, keys: seq<BadKey>, limit: nat, fault: Fault)
    requires c.batchSize > 0 && s.tree.Some? && |keys| <= limit
    requires keys == [] || !Fails(fault, |Batches(c, keys)|)
    ensures forall k :: k in keys ==> k.info.pubKey in Sequences.Elems(Reported(Send(c, s, keys, limit, fault)))
  {
    hide Batches, Concat, PubKeys;
    LandedReported(c, keys);
  }

  // A round that evaluates a tree leaves it marked exactly if it got through, or if the tree was
  // marked before; and if it got through, every bad key of the tree under the parameters just
  // stored was sent in it or had been reported before.
  lemma MarkedIffCompleted(c: Config, s: Service, r: Reads)
    requires c.batchSize > 0 && Starts(r) && Prepare(s, r).Some?
    ensures var t := Round(c, s, r).service;
      && t.tree == Some(Loaded(s, r.tree.value)) && t.params == Fresh(t.tree.value, r)
      && (t.lastProcessed == Some(r.tree.value.root) <==>
          Completes(c, s, r) || s.lastProcessed == Some(r.tree.value.root))
      && (Completes(c, s, r) ==>
            && BadKeys(c, t, r.keyInfo).Ok?
            && forall k :: k in BadKeys(c, t, r.keyInfo).value ==>
                 k.info.pubKey in Sequences.Elems(Reported(Round(c, s, r))) + r.proved + r.withdrawn)
  {
    hide Evaluate, NothingNew, Fresh, Batches;
    if Completes(c, s, r) {
      var prepared := Prepare(s, r).value;
      var bad, keys := BadKeys(c, prepared, r.keyInfo).value, Collect(c, prepared, r).value;
      assert Round(c, s, r) == Send(c, prepared, keys, r.limit, r.fault);
      if bad != [] {
        WithoutIs(bad, r.proved);
        WithoutIs(Without(bad, r.proved), r.withdrawn);
      }
      CompletedSendsAll(c, prepared, keys, r.limit, r.fault);
    }
  }

  // ---- What the mark means over a run ----

  ghost function ServiceAfter(c: Config, s: Service, rs: seq<Reads>): Service
    requires c.batchSize > 0
    decreases |rs|
  {
    if rs == [] then s else ServiceAfter(c, Round(c, s, rs[0]).service, rs[1..])
  }

  // Whether the stored tree was completed under the stored parameters, by the latest round that
  // evaluated it.
  ghost function CompletedNow(c: Config, s: Service, r: Reads, completed: bool): bool
    requires c.batchSize > 0
  {
    if Starts(r) && Prepare(s, r).Some? then Completes(c, s, r) else completed
  }

  ghost function CompletedAfter(c: Config, s: Service, rs: seq<Reads>, completed: bool): bool
    requires c.batchSize > 0
    decreases |rs|
  {
    if rs == [] then completed
    else CompletedAfter(c, Round(c, s, rs[0]).service, rs[1..], CompletedNow(c, s, rs[0], completed))
  }

  // Reads that bring the stored tree once more, and no threshold or curve id that is not stored.
  ghost predicate Again(s: Service, again: Reads) {
    && s.tree.Some? && again.tree.Some? && again.tree.value.root == s.tree.value.root
    && Agrees(Fresh(s.tree.value, again).thresholds, s.params.thresholds)
    && Agrees(Fresh(s.tree.value, again).curveIds, s.params.curveIds)
  }

  // The promise: with nothing new the stored tree is skipped if it was completed, and evaluated again
  // if it was not.
  ghost predicate RightlySkipped(s: Service, completed: bool) {
    forall again :: Again(s, again) ==> (Prepare(s, again).None? <==> completed)
  }

  ghost predicate Stored(s: Service) {
    s.tree.Some? ==> exists again :: Again(s, again)
  }

  lemma SkippedIffMarked(s: Service, again: Reads)
    requires Again(s, again)
    ensures Prepare(s, again).None? <==> s.lastProcessed == Some(s.tree.value.root)
  {
  }

  lemma RightlySkippedIff(s: Service, completed: bool)
    requires Stored(s)
    ensures RightlySkipped(s, completed) <==>
      (s.tree.Some? ==> (s.lastProcessed == Some(s.tree.value.root) <==> completed))
  {
    if s.tree.Some? {
      var again :| Again(s, again);
      SkippedIffMarked(s, again);
      forall r | Again(s, r)
        ensures Prepare(s, r).None? <==> s.lastProcessed == Some(s.tree.value.root)
      {
        SkippedIffMarked(s, r);
      }
    }
  }

  // A round breaks the promise in two ways: with nothing to evaluate it marks the stored tree, which
  // was not marked; or it evaluates a marked tree again, under new parameters, and does not get
  // through.
  ghost predicate Loses(c: Config, s: Service, r: Reads)
    requires c.batchSize > 0
  {
    && Starts(r)
    && if Prepare(s, r).None? then s.tree.Some? && s.lastProcessed != Some(s.tree.value.root)
       else s.lastProcessed == Some(r.tree.value.root) && !Completes(c, s, r)
  }

  // A round that has nothing to evaluate leaves the stored tree marked, whatever became of it.
  lemma QuietRoundMarks(c: Config, s: Service, r: Reads, again: Reads)
    requires c.batchSize > 0 && Starts(r) && Prepare(s, r).None? && Again(s, again)
    ensures Round(c, s, r).landed == [] && Prepare(Round(c, s, r).service, again).None?
  {
  }

  lemma RoundStores(c: Config, s: Service, r: Reads)
    requires c.batchSize > 0 && Stored(s)
    ensures Stored(Round(c, s, r).service)
  {
    hide Evaluate, NothingNew, Batches, Collect, Fresh;
    var t := Round(c, s, r).service;
    if Starts(r) && Prepare(s, r).Some? {
      MarkedIffCompleted(c, s, r);
      assert Again(t, r);
    } else if s.tree.Some? {
      var again :| Again(s, again);
      assert Again(t, again);
    }
  }

  // A round keeps the promise if and only if it does not lose.
  lemma KeepsPromiseIff(c: Config, s: Service, r: Reads, completed: bool)
    requires c.batchSize > 0 && Stored(s) && RightlySkipped(s, completed)
    ensures RightlySkipped(Round(c, s, r).service, CompletedNow(c, s, r, completed)) <==> !Loses(c, s, r)
  {
    RightlySkippedIff(s, completed);
    RoundStores(c, s, r);
    RightlySkippedIff(Round(c, s, r).service, CompletedNow(c, s, r, completed));
    hide Evaluate, NothingNew, Fresh, Batches, Collect, RightlySkipped, Stored;
    if Starts(r) && Prepare(s, r).Some? {
      MarkedIffCompleted(c, s, r);
    }
  }

  ghost predicate LosesNowhere(c: Config, s: Service, rs: seq<Reads>)
    requires c.batchSize > 0
    decreases |rs|
  {
    rs == [] || (!Loses(c, s, rs[0]) && LosesNowhere(c, Round(c, s, rs[0]).service, rs[1..]))
  }

  // The promise holds before every round and after the last.
  ghost predicate PromiseKept(c: Config, s: Service, rs: seq<Reads>, completed: bool)
    requires c.batchSize > 0
    decreases |rs|
  {
    && RightlySkipped(s, completed)
    && (rs == [] || PromiseKept(c, Round(c, s, rs[0]).service, rs[1..], CompletedNow(c, s, rs[0], completed)))
  }

  lemma {:induction false} PromiseKeptFrom(c: Config, s: Service, rs: seq<Reads>, completed: bool)
    requires c.batchSize > 0 && Stored(s) && RightlySkipped(s, completed)
    ensures PromiseKept(c, s, rs, completed) <==> LosesNowhere(c, s, rs)
    decreases |rs|
  {
    hide Round, Loses, RightlySkipped, Stored, CompletedNow;
    if rs == [] {
    } else {
      var t, now := Round(c, s, rs[0]).service, CompletedNow(c, s, rs[0], completed);
      KeepsPromiseIff(c, s, rs[0], completed);
      RoundStores(c, s, rs[0]);
      if RightlySkipped(t, now) {
        PromiseKeptFrom(c, t, rs[1..], now);
      }
    }
  }

  const INITIAL := Service(None, Params(map[], map[]), None)

  // Main result: over any run of a service started fresh, trees are skipped exactly when they were
  // completed, and unfinished ones are evaluated again, if and only if no round loses.
  lemma PromiseKeptIff(c: Config, rs: seq<Reads>)
    requires c.batchSize > 0
    ensures PromiseKept(c, INITIAL, rs, false) <==> LosesNowhere(c, INITIAL, rs)
  {
    PromiseKeptFrom(c, INITIAL, rs, false);
  }

  // ---- A completed tree is reported ----

  ghost function NowReported(c: Config, s: Service, r: Reads, reported: set<string>): set<string>
    requires c.batchSize > 0
  {
    reported + Sequences.Elems(Reported(Round(c, s, r))) + r.proved + r.withdrawn
  }

  ghost function ReportedAfter(c: Config, s: Service, rs: seq<Reads>, reported: set<string>): set<string>
    requires c.batchSize > 0
    decreases |rs|
  {
    if rs == [] then reported
    else ReportedAfter(c, Round(c, s, rs[0]).service, rs[1..], NowReported(c, s, rs[0], reported))
  }

  // The keys the indexer knows stay the same.
  ghost predicate SameKeys(keyInfo: KeyLookup, rs: seq<Reads>) {
    forall i :: 0 <= i < |rs| ==> rs[i].keyInfo == keyInfo
  }

  ghost predicate AllReported(c: Config, s: Service, keyInfo: KeyLookup, reported: set<string>) {
    && s.tree.Some? && BadKeys(c, s, keyInfo).Ok?
    && forall k :: k in BadKeys(c, s, keyInfo).value ==> k.info.pubKey in reported
  }

  lemma CompletedStep(c: Config, s: Service, r: Reads, completed: bool, reported: set<string>)
    requires c.batchSize > 0 && (completed ==> AllReported(c, s, r.keyInfo, reported))
    ensures CompletedNow(c, s, r, completed) ==>
      AllReported(c, Round(c, s, r).service, r.keyInfo, NowReported(c, s, r, reported))
  {
    hide Evaluate, NothingNew, Fresh, Batches, Collect;
    if Starts(r) && Prepare(s, r).Some? {
      MarkedIffCompleted(c, s, r);
    }
  }

  // In every run, whatever it loses, all the bad keys of a completed tree are known to be reported.
  lemma {:induction false} CompletedIsReported(c: Config, s: Service, keyInfo: KeyLookup, rs: seq<Reads>,
                                               completed: bool, reported: set<string>)
    requires c.batchSize > 0 && SameKeys(keyInfo, rs) && (completed ==> AllReported(c, s, keyInfo, reported))
    ensures CompletedAfter(c, s, rs, completed) ==>
      AllReported(c, ServiceAfter(c, s, rs), keyInfo, ReportedAfter(c, s, rs, reported))
    decreases |rs|
  {
    hide AllReported, Round, NowReported, CompletedNow;
    if rs == [] {
    } else {
      assert rs[0].keyInfo == keyInfo;
      CompletedStep(c, s, rs[0], completed, reported);
      CompletedIsReported(c, Round(c, s, rs[0]).service, keyInfo, rs[1..], CompletedNow(c, s, rs[0], completed),
                          NowReported(c, s, rs[0], reported));
    }
  }

  lemma {:induction false} PromiseAtEnd(c: Config, s: Service, rs: seq<Reads>, completed: bool)
    requires c.batchSize > 0 && PromiseKept(c, s, rs, completed)
    ensures RightlySkipped(ServiceAfter(c, s, rs), CompletedAfter(c, s, rs, completed))
    decreases |rs|
  {
    hide Round, RightlySkipped, CompletedNow;
    if rs == [] {
    } else {
      PromiseAtEnd(c, Round(c, s, rs[0]).service, rs[1..], CompletedNow(c, s, rs[0], completed));
    }
  }

  // As long as no round loses, a tree that is skipped with nothing new has all its bad keys reported,
  // under the stored parameters and under those just read.
  lemma SkippedTreeIsReported(c: Config, keyInfo: KeyLookup, rs: seq<Reads>, r: Reads)
    requires c.batchSize > 0 && SameKeys(keyInfo, rs) && LosesNowhere(c, INITIAL, rs)
    requires Again(ServiceAfter(c, INITIAL, rs), r) && Prepare(ServiceAfter(c, INITIAL, rs), r).None?
    ensures AllReported(c, ServiceAfter(c, INITIAL, rs), keyInfo, ReportedAfter(c, INITIAL, rs, {}))
    ensures var s := ServiceAfter(c, INITIAL, rs);
      BadPerformerSkips.CurvesCovered(s.tree.value, r) ==>
        Evaluate(Fresh(s.tree.value, r), s.tree.value.leaves, keyInfo, c.cli) == BadKeys(c, s, keyInfo)
  {
    var s := ServiceAfter(c, INITIAL, rs);
    if BadPerformerSkips.CurvesCovered(s.tree.value, r) {
      BadPerformerSkips.SkipIsHarmless(s, s.tree.value, r, keyInfo, c.cli);
    }
    PromiseKeptIff(c, rs);
    PromiseAtEnd(c, INITIAL, rs, false);
    CompletedIsReported(c, INITIAL, keyInfo, rs, false, {});
  }

  ghost predicate Unreported(c: Config, s: Service, r: Reads, k: BadKey)
    requires c.batchSize > 0
  {
    && k.info.pubKey !in PubKeys(Concat(Round(c, s, r).landed))
    && k.info.pubKey !in r.proved && k.info.pubKey !in r.withdrawn
  }

  // The first key beyond the limit is not among those sent.
  lemma LeftOver(keys: seq<BadKey>, limit: nat, sent: seq<BadKey>)
    requires DistinctBy(keys, PubKeyOf()) && limit < |keys| && forall k :: k in sent ==> k in AllowedNow(keys, limit)
    ensures keys[limit].info.pubKey !in PubKeys(sent)
  {
    forall i | 0 <= i < |sent|
      ensures PubKeys(sent)[i] != keys[limit].info.pubKey
    {
      assert sent[i] in sent && sent[i] in keys[..limit];
      var j :| 0 <= j < limit && keys[j] == sent[i];
      assert PubKeyOf()(keys[j]) != PubKeyOf()(keys[limit]);
    }
  }

  lemma ConcatOneMore<T>(chunks: seq<seq<T>>, n: nat)
    requires n < |chunks|
    ensures Concat(chunks[..n + 1]) == Concat(chunks[..n]) + chunks[n]
  {
    ConcatAppend(chunks[..n], [chunks[n]]);
    assert [chunks[n]][1..] == [] && Concat([chunks[n]]) == chunks[n] + Concat([]);
    assert chunks[..n + 1] == chunks[..n] + [chunks[n]];
  }

  // The first key of the first batch that is missing is not among those landed.
  lemma MissingBatch(c: Config, keys: seq<BadKey>, n: nat)
    requires c.batchSize > 0 && DistinctBy(keys, PubKeyOf()) && n < |Batches(c, keys)|
    ensures exists k :: k in keys && k.info.pubKey !in PubKeys(Concat(Batches(c, keys)[..n]))
  {
    var batches := Batches(c, keys);
    var all, landed := Concat(batches), Concat(batches[..n]);
    BatchesPartition(c, keys);
    ConcatPrefix(batches, n);
    ConcatPrefix(batches, n + 1);
    ConcatOneMore(batches, n);
    assert |batches[n]| > 0;
    hide Batches, Concat, WellFilled, PubKeys;
    LeftOver(all, |landed|, landed);
    assert all[|landed|] in multiset(all);
    assert all[|landed|] in keys;
  }

  // All of the keys land: they fit the limit, and no batch fails but the last one after it has landed.
  ghost predicate AllLand(c: Config, keys: seq<BadKey>, limit: nat, fault: Fault)
    requires c.batchSize > 0
  {
    || keys == []
    || (&& |keys| <= limit
        && (Fails(fault, |Batches(c, keys)|) ==> fault.landed && fault.batch + 1 == |Batches(c, keys)|))
  }

  ghost predicate Missing(keys: seq<BadKey>, landed: seq<seq<BadKey>>) {
    exists k :: k in keys && k.info.pubKey !in PubKeys(Concat(landed))
  }

  lemma OverTheLimit(c: Config, s: Service, keys: seq<BadKey>, limit: nat, fault: Fault)
    requires c.batchSize > 0 && DistinctBy(keys, PubKeyOf()) && limit < |keys|
    ensures Missing(keys, Send(c, s, keys, limit, fault).landed)
  {
    SendIs(c, s, keys, limit, fault);
    hide Send, Concat, PubKeys;
    LeftOver(keys, limit, Concat(Send(c, s, keys, limit, fault).landed));
    assert keys[limit] in keys;
  }

  lemma MissingIff(c: Config, s: Service, keys: seq<BadKey>, limit: nat, fault: Fault)
    requires c.batchSize > 0 && s.tree.Some? && DistinctBy(keys, PubKeyOf())
    ensures Missing(keys, Send(c, s, keys, limit, fault).landed) <==> !AllLand(c, keys, limit, fault)
  {
    if keys == [] {
    } else if limit < |keys| {
      OverTheLimit(c, s, keys, limit, fault);
    } else {
      var batches := Batches(c, keys);
      var landed := Send(c, s, keys, limit, fault).landed;
      hide Batches, Concat, PubKeys;
      LandedReported(c, keys);
      if Fails(fault, |batches|) {
        var n := if fault.landed then fault.batch + 1 else fault.batch;
        assert landed == batches[..n];
        if n < |batches| {
          MissingBatch(c, keys, n);
        } else {
          assert batches[..n] == batches;
        }
      }
    }
  }

  // The bad keys that are not reported when a round begins.
  ghost function Due(c: Config, s: Service, r: Reads): seq<BadKey>
    requires Prepare(s, r).Some? && BadKeys(c, Prepare(s, r).value, r.keyInfo).Ok?
  {
    Without(Without(BadKeys(c, Prepare(s, r).value, r.keyInfo).value, r.proved), r.withdrawn)
  }

  lemma DueIs(c: Config, s: Service, r: Reads)
    requires c.batchSize > 0 && ByPubKey(r.keyInfo) && Prepare(s, r).Some?
    requires DistinctKeys(Loaded(s, r.tree.value)) && BadKeys(c, Prepare(s, r).value, r.keyInfo).Ok?
    ensures DistinctBy(Due(c, s, r), PubKeyOf())
    ensures forall k :: k in Due(c, s, r) <==>
      && k in BadKeys(c, Prepare(s, r).value, r.keyInfo).value
      && k.info.pubKey !in r.proved && k.info.pubKey !in r.withdrawn
  {
    var prepared := Prepare(s, r).value;
    var bad := BadKeys(c, prepared, r.keyInfo).value;
    EvaluatedDistinct(prepared.params, prepared.tree.value, r.keyInfo, c.cli);
    WithoutIs(bad, r.proved);
    WithoutIs(Without(bad, r.proved), r.withdrawn);
  }

  // What a round lands is what it sends of those keys, unless the contracts cannot be asked.
  lemma RoundLands(c: Config, s: Service, r: Reads)
    requires c.batchSize > 0 && Starts(r) && Prepare(s, r).Some?
    requires BadKeys(c, Prepare(s, r).value, r.keyInfo).Ok?
    ensures var bad := BadKeys(c, Prepare(s, r).value, r.keyInfo).value;
      Round(c, s, r).landed ==
        if bad != [] && r.fault.Checking? then []
        else Send(c, Prepare(s, r).value, Due(c, s, r), r.limit, r.fault).landed
  {
    hide Evaluate, Send, Fresh, NothingNew;
    if BadKeys(c, Prepare(s, r).value, r.keyInfo).value == [] {
      assert Without(Without([], r.proved), r.withdrawn) == [];
    }
  }

  lemma NothingLands(keys: seq<BadKey>)
    ensures Missing(keys, []) <==> keys != []
  {
    if keys != [] {
      assert keys[0] in keys && Concat<BadKey>([]) == [];
    }
  }

  lemma MissingAreUnreported(c: Config, s: Service, r: Reads)
    requires c.batchSize > 0 && ByPubKey(r.keyInfo) && Prepare(s, r).Some?
    requires DistinctKeys(Loaded(s, r.tree.value)) && BadKeys(c, Prepare(s, r).value, r.keyInfo).Ok?
    ensures Missing(Due(c, s, r), Round(c, s, r).landed) <==>
      exists k :: k in BadKeys(c, Prepare(s, r).value, r.keyInfo).value && Unreported(c, s, r, k)
  {
    DueIs(c, s, r);
    hide Due, Round, Prepare, BadKeys, PubKeys, Concat;
    if Missing(Due(c, s, r), Round(c, s, r).landed) {
      var k :| k in Due(c, s, r) && k.info.pubKey !in PubKeys(Concat(Round(c, s, r).landed));
      assert Unreported(c, s, r, k);
    }
    forall k | k in BadKeys(c, Prepare(s, r).value, r.keyInfo).value && Unreported(c, s, r, k)
      ensures Missing(Due(c, s, r), Round(c, s, r).landed)
    {
      assert k in Due(c, s, r);
    }
  }

  // A round that evaluates a tree leaves a bad key that nobody has reported if and only if not all the
  // keys due land: the contracts cannot be asked about them, or the limit is too low, or a batch
  // fails, other than the last after it has landed.
  lemma LeavesUnreportedIff(c: Config, s: Service, r: Reads)
    requires c.batchSize > 0 && Starts(r) && Prepare(s, r).Some? && ByPubKey(r.keyInfo)
    requires DistinctKeys(Loaded(s, r.tree.value)) && BadKeys(c, Prepare(s, r).value, r.keyInfo).Ok?
    ensures (exists k :: k in BadKeys(c, Prepare(s, r).value, r.keyInfo).value && Unreported(c, s, r, k)) <==>
      Due(c, s, r) != [] && (r.fault.Checking? || !AllLand(c, Due(c, s, r), r.limit, r.fault))
  {
    DueIs(c, s, r);
    RoundLands(c, s, r);
    MissingAreUnreported(c, s, r);
    NothingLands(Due(c, s, r));
    var due := Due(c, s, r);
    if due != [] {
      assert due[0] in due && due[0] in BadKeys(c, Prepare(s, r).value, r.keyInfo).value;
    }
    MissingIff(c, Prepare(s, r).value, due, r.limit, r.fault);
    hide Due, Round, Send, BadKeys, AllLand, Missing, Unreported, Fresh, NothingNew;
  }

  // And after a round that loses, the tree is skipped from then on, while it leaves a bad key that
  // nobody has reported exactly in those cases.
  lemma LosingRoundForgetsIff(c: Config, s: Service, r: Reads, again: Reads)
    requires c.batchSize > 0 && Prepare(s, r).Some? && Loses(c, s, r) && ByPubKey(r.keyInfo)
    requires DistinctKeys(Loaded(s, r.tree.value)) && BadKeys(c, Prepare(s, r).value, r.keyInfo).Ok?
    requires Again(Round(c, s, r).service, again)
    ensures Prepare(Round(c, s, r).service, again).None?
    ensures BadKeys(c, Round(c, s, r).service, r.keyInfo) == BadKeys(c, Prepare(s, r).value, r.keyInfo)
    ensures (exists k :: k in BadKeys(c, Prepare(s, r).value, r.keyInfo).value && Unreported(c, s, r, k)) <==>
      Due(c, s, r) != [] && (r.fault.Checking? || !AllLand(c, Due(c, s, r), r.limit, r.fault))
  {
    MarkedIffCompleted(c, s, r);
    SkippedIffMarked(Round(c, s, r).service, again);
    LeavesUnreportedIff(c, s, r);
    hide Evaluate, NothingNew, Fresh, Round, Due, AllLand, Unreported, Completes;
  }

  // ---- Whether an unfinished tree is tried again ----

  ghost predicate SameParameters(r: Reads, again: Reads) {
    r.tree == again.tree && r.strikeParams == again.strikeParams && r.bondCurve == again.bondCurve
  }

  // "A partial send is retried next round" holds exactly if the tree was not already marked when
  // the unfinished round began.
  lemma DeferredIsRetriedIff(c: Config, s: Service, r: Reads, again: Reads)
    requires c.batchSize > 0 && Starts(r) && Prepare(s, r).Some? && !Completes(c, s, r)
    requires SameParameters(r, again)
    ensures Prepare(Round(c, s, r).service, again).Some? <==> s.lastProcessed != Some(r.tree.value.root)
  {
    MarkedIffCompleted(c, s, r);
    hide Round, Completes, Collect;
    var t := Round(c, s, r).service;
    assert Loaded(t, again.tree.value) == t.tree.value;
    assert Fresh(t.tree.value, again) == t.params;
  }

  // The reads have to reflect the reports: an unfinished round that is followed by one with the same
  // reads reports the same keys once more. Proofs are looked up as of the finalized block, so this is
  // what happens until the first round's reports are finalized.
  lemma StaleReadsReportAgain(c: Config, s: Service, r: Reads)
    requires c.batchSize > 0 && Starts(r) && r.fault.Nowhere? && Prepare(s, r).Some?
    requires s.lastProcessed != Some(r.tree.value.root)
    requires Collect(c, Prepare(s, r).value, r).Ok? && 0 < r.limit < |Collect(c, Prepare(s, r).value, r).value|
    ensures var first := Round(c, s, r);
      && |Reported(first)| == r.limit
      && Round(c, first.service, r).landed == first.landed
  {
    hide Evaluate, Fresh, Batches, Without, Agrees;
    var prepared := Prepare(s, r).value;
    var keys := Collect(c, prepared, r).value;
    BatchesPartition(c, AllowedNow(keys, r.limit));
    assert Round(c, s, r).service == prepared;
    assert Prepare(prepared, r) == Some(prepared);
  }

  const ONE_LEAF := Tree("r", [Leaf(0, "k", [3])])

  const KEY := FullKeyInfo(0, 0, "k", 0)

  // One operator on curve 0, with one key.
  function ReadsWith(tree: Option<Tree>, threshold: int, limit: nat): Reads {
    Reads(1, tree, [threshold], (o: nat) => 0, (p: string) => if p == "k" then Some(KEY) else None, {}, {}, limit,
          Nowhere)
  }

  lemma OneLeafBad(p: Params, threshold: int, cli: bool)
    requires p == Params(map[0 := threshold], map[0 := 0])
    ensures Evaluate(p, ONE_LEAF.leaves, ReadsWith(None, 0, 0).keyInfo, cli) ==
      Ok(if threshold <= 3 then [BadKey(KEY, 0, [3])] else [])
  {
    assert [3][..0] == [] && Sum([3]) == Sum([]) + 3;
    var keyInfo, leaf := ReadsWith(None, 0, 0).keyInfo, ONE_LEAF.leaves[0];
    assert Judge(p, leaf, keyInfo, cli) == if threshold <= 3 then Bad(KEY) else Below;
    assert ONE_LEAF.leaves[..0] == [] && Evaluate(p, [], keyInfo, cli) == Ok([]);
    var keys := [] + [BadKey(KEY, 0, leaf.strikes)];
    assert threshold <= 3 ==> Evaluate(p, ONE_LEAF.leaves, keyInfo, cli) == Ok(keys);
    assert keys == [BadKey(KEY, 0, [3])];
    assert threshold > 3 ==> Evaluate(p, ONE_LEAF.leaves, keyInfo, cli) == Ok([]);
  }

  lemma OneLeafSettings(limit: nat, threshold: int)
    ensures Fresh(ONE_LEAF, ReadsWith(Some(ONE_LEAF), threshold, limit)) == Params(map[0 := threshold], map[0 := 0])
  {
    var p := Fresh(ONE_LEAF, ReadsWith(Some(ONE_LEAF), threshold, limit));
    assert ONE_LEAF.leaves[0].operatorId in Operators(ONE_LEAF);
    assert forall o :: o in Operators(ONE_LEAF) <==> o == 0;
    assert p.curveIds == map[0 := 0] && p.thresholds == map[0 := threshold];
  }

  // A round that finds the key bad while no exit is allowed any more.
  lemma NothingAllowed(c: Config, s: Service, threshold: int)
    requires c.batchSize > 0 && threshold <= 3 && Loaded(s, ONE_LEAF) == ONE_LEAF
    requires s.lastProcessed != Some("r") || s.params == Params(map[0 := 4], map[0 := 0])
    ensures Round(c, s, ReadsWith(Some(ONE_LEAF), threshold, 0)) ==
      Outcome(Service(Some(ONE_LEAF), Params(map[0 := threshold], map[0 := 0]), s.lastProcessed), [], Ok(0))
  {
    var r := ReadsWith(Some(ONE_LEAF), threshold, 0);
    var p := Params(map[0 := threshold], map[0 := 0]);
    var prepared, key := Service(Some(ONE_LEAF), p, s.lastProcessed), BadKey(KEY, 0, [3]);
    assert Prepare(s, r) == Some(prepared) by {
      hide Evaluate, Fresh;
      OneLeafSettings(0, threshold);
      assert 0 in p.thresholds && p.thresholds[0] < 4;
      assert !NothingNew(s, ONE_LEAF, p);
    }
    assert Collect(c, prepared, r) == Ok([key]) by {
      OneLeafBad(p, threshold, c.cli);
      hide Evaluate, Fresh;
      assert [key][..0] == [] && Without([], {}) == [];
      assert Without([key], {}) == [] + [key] == [key];
    }
    assert Send(c, prepared, [key], 0, Nowhere) == Outcome(prepared, [], Ok(0)) by {
      hide Batches;
    }
    hide Prepare, Collect, Send;
  }

  lemma TwoRounds(c: Config, s: Service, r0: Reads, r1: Reads)
    requires c.batchSize > 0
    requires Round(c, s, r0).landed == [] && Round(c, Round(c, s, r0).service, r1).landed == []
    requires r0.proved == r0.withdrawn == r1.proved == r1.withdrawn == {}
    ensures ServiceAfter(c, s, [r0, r1]) == Round(c, Round(c, s, r0).service, r1).service
    ensures ReportedAfter(c, s, [r0, r1], {}) == {}
  {
    hide Round;
    assert [r0, r1][1..] == [r1] && [r1][1..] == [];
    assert NowReported(c, s, r0, {}) == {};
    assert NowReported(c, Round(c, s, r0).service, r1, {}) == {};
    var t := Round(c, s, r0).service;
    assert ServiceAfter(c, t, [r1]) == ServiceAfter(c, Round(c, t, r1).service, []);
    assert ReportedAfter(c, t, [r1], {}) == ReportedAfter(c, Round(c, t, r1).service, [], {});
  }

  // The tree is processed with a threshold no key reaches; the threshold is lowered in a round that
  // has no exits left when it sends; from then on the tree is skipped and the key is never sent.
  lemma LoweredThresholdForgotten(c: Config)
    requires c.batchSize > 0
    ensures var before, lowered := ReadsWith(Some(ONE_LEAF), 4, 1), ReadsWith(Some(ONE_LEAF), 3, 0);
      var again := ReadsWith(Some(ONE_LEAF), 3, 1);
      var s := ServiceAfter(c, INITIAL, [before, lowered]);
      && s.tree == Some(ONE_LEAF) && BadKeys(c, s, again.keyInfo) == Ok([BadKey(KEY, 0, [3])])
      && ReportedAfter(c, INITIAL, [before, lowered], {}) == {}
      && Prepare(s, again).None?
  {
    var r0, r1 := ReadsWith(Some(ONE_LEAF), 4, 1), ReadsWith(Some(ONE_LEAF), 3, 0);
    var again := ReadsWith(Some(ONE_LEAF), 3, 1);
    OneLeafSettings(1, 4);
    OneLeafSettings(1, 3);
    OneLeafBad(Fresh(ONE_LEAF, r0), 4, c.cli);
    OneLeafBad(Fresh(ONE_LEAF, again), 3, c.cli);
    hide Evaluate, Fresh, Batches;
    var s0 := Service(Some(ONE_LEAF), Params(map[0 := 4], map[0 := 0]), Some("r"));
    assert Round(c, INITIAL, r0) == Outcome(s0, [], Ok(0));
    NothingAllowed(c, s0, 3);
    hide Round;
    TwoRounds(c, INITIAL, r0, r1);
  }

  // A round that finds no tree marks the unfinished one: it is skipped when it is back.
  lemma MissingTreeMarksUnfinished(c: Config)
    requires c.batchSize > 0
    ensures var first, none := ReadsWith(Some(ONE_LEAF), 3, 0), ReadsWith(None, 3, 1);
      var again := ReadsWith(Some(ONE_LEAF), 3, 1);
      var s := ServiceAfter(c, INITIAL, [first, none]);
      && s.tree == Some(ONE_LEAF) && BadKeys(c, s, again.keyInfo) == Ok([BadKey(KEY, 0, [3])])
      && ReportedAfter(c, INITIAL, [first, none], {}) == {}
      && Prepare(s, again).None?
  {
    var r0, r1, again := ReadsWith(Some(ONE_LEAF), 3, 0), ReadsWith(None, 3, 1), ReadsWith(Some(ONE_LEAF), 3, 1);
    OneLeafSettings(1, 3);
    OneLeafBad(Fresh(ONE_LEAF, again), 3, c.cli);
    NothingAllowed(c, INITIAL, 3);
    hide Evaluate, Fresh, Batches;
    var s0 := Round(c, INITIAL, r0).service;
    assert Round(c, s0, r1) == Outcome(s0.(lastProcessed := Some("r")), [], Ok(0));
    hide Round;
    TwoRounds(c, INITIAL, r0, r1);
  }
}
