/** How rounds drain one strikes tree under exit limits. */
module BadPerformerDrain {
  import opened Wrappers
  import opened Sequences
  import opened Sorting
  import opened BadPerformers
  import opened BadPerformerRounds
  import BadPerformerMarks

  // Fixed surroundings: one tree, its parameters, the known keys and what was reported at the start.
  datatype Env = Env(tree: Tree, strikeParams: seq<int>, bondCurve: nat -> nat, keyInfo: KeyLookup,
                     proved: set<string>, withdrawn: set<string>)

  // What a failure-free round reads once the keys of `sent` have been reported.
  ghost function SteadyReads(e: Env, sent: set<string>, limit: nat): Reads {
    Reads(limit, Some(e.tree), e.strikeParams, e.bondCurve, e.keyInfo, e.proved + sent, e.withdrawn, limit, Nowhere)
  }

  // Rounds with the given exit limits, one after the other: the service and the keys reported.
  ghost function Drain(c: Config, s: Service, e: Env, limits: seq<nat>): (Service, seq<string>)
    requires c.batchSize > 0
  {
    if limits == [] then (s, [])
    else
      var (t, sent) := Drain(c, s, e, limits[..|limits| - 1]);
      var o := Round(c, t, SteadyReads(e, Elems(sent), limits[|limits| - 1]));
      (o.service, sent + Reported(o))
  }

  function Total(limits: seq<nat>): nat {
    if limits == [] then 0 else Total(limits[..|limits| - 1]) + limits[|limits| - 1]
  }

  // The keys of the tree to report when draining starts.
  ghost function ToDrain(c: Config, e: Env): Result<seq<BadKey>, Error> {
    var bad := Evaluate(Fresh(e.tree, SteadyReads(e, {}, 0)), e.tree.leaves, e.keyInfo, c.cli);
    if bad.Err? then bad else Ok(Without(Without(bad.value, e.proved), e.withdrawn))
  }

  lemma {:induction false} WithoutBoth(keys: seq<BadKey>, a: set<string>, b: set<string>)
    ensures Without(Without(keys, a), b) == Without(keys, a + b)
  {
    if keys == [] {
    } else {
      var init, last := keys[..|keys| - 1], keys[|keys| - 1];
      WithoutBoth(init, a, b);
      if last.info.pubKey !in a {
        assert (Without(init, a) + [last])[..|Without(init, a)|] == Without(init, a);
      }
    }
  }

  lemma ReportedIff(keys: seq<BadKey>, n: nat, i: nat)
    requires DistinctBy(keys, PubKeyOf()) && n <= |keys| && i < |keys|
    ensures keys[i].info.pubKey in Elems(PubKeys(keys[..n])) <==> i < n
  {
    var gone := PubKeys(keys[..n]);
    if i < n {
      assert gone[i] == keys[i].info.pubKey;
    } else {
      assert forall j :: 0 <= j < n ==> PubKeyOf()(keys[j]) != PubKeyOf()(keys[i]) && gone[j] == keys[j].info.pubKey;
    }
  }

  lemma WithoutOneMore(keys: seq<BadKey>, m: nat, reported: set<string>)
    requires 0 < m <= |keys|
    ensures var rest := Without(keys[..m - 1], reported);
      Without(keys[..m], reported) == if keys[m - 1].info.pubKey in reported then rest else rest + [keys[m - 1]]
  {
    assert keys[..m][..m - 1] == keys[..m - 1] && keys[..m][m - 1] == keys[m - 1];
  }

  lemma SliceMore(keys: seq<BadKey>, n: nat, m: nat)
    requires n < m <= |keys|
    ensures keys[n..m] == keys[n..m - 1] + [keys[m - 1]]
  {
  }

  lemma WithoutStep(keys: seq<BadKey>, n: nat, m: nat, gone: set<string>)
    requires n <= |keys| && 0 < m <= |keys| && (keys[m - 1].info.pubKey in gone <==> m - 1 < n)
    requires Without(keys[..m - 1], gone) == if m - 1 <= n then [] else keys[n..m - 1]
    ensures Without(keys[..m], gone) == if m <= n then [] else keys[n..m]
  {
    WithoutOneMore(keys, m, gone);
    if m > n {
      SliceMore(keys, n, m);
    }
    hide *;
  }

  lemma {:induction false} WithoutRest(keys: seq<BadKey>, n: nat, m: nat)
    requires DistinctBy(keys, PubKeyOf()) && n <= |keys| && m <= |keys|
    ensures Without(keys[..m], Elems(PubKeys(keys[..n]))) == if m <= n then [] else keys[n..m]
  {
    if m == 0 {
    } else {
      WithoutRest(keys, n, m - 1);
      ReportedIff(keys, n, m - 1);
      hide *;
      WithoutStep(keys, n, m, Elems(PubKeys(keys[..n])));
    }
  }

  lemma {:induction false} WithoutPrefix(keys: seq<BadKey>, n: nat)
    requires DistinctBy(keys, PubKeyOf()) && n <= |keys|
    ensures Without(keys, Elems(PubKeys(keys[..n]))) == keys[n..]
  {
    WithoutRest(keys, n, |keys|);
    assert keys[..|keys|] == keys;
  }

  // With the first n keys reported, the rest is what a round collects.
  lemma RestIsCollected(c: Config, s: Service, e: Env, n: nat, sent: set<string>, limit: nat)
    requires ToDrain(c, e).Ok? && DistinctBy(ToDrain(c, e).value, PubKeyOf()) && n <= |ToDrain(c, e).value|
    requires sent == Elems(PubKeys(ToDrain(c, e).value[..n]))
    requires s.tree == Some(e.tree) && s.params == Fresh(e.tree, SteadyReads(e, {}, 0))
    ensures Collect(c, s, SteadyReads(e, sent, limit)) == Ok(ToDrain(c, e).value[n..])
  {
    hide Evaluate, Fresh;
    var bad, keys := BadPerformerMarks.BadKeys(c, s, e.keyInfo).value, ToDrain(c, e).value;
    WithoutBoth(bad, e.proved, e.withdrawn);
    WithoutBoth(bad, e.proved + sent, e.withdrawn);
    WithoutBoth(bad, e.proved + e.withdrawn, sent);
    assert e.proved + sent + e.withdrawn == e.proved + e.withdrawn + sent;
    WithoutPrefix(keys, n);
  }

  lemma PubKeysOf(a: seq<BadKey>)
    ensures forall p :: p in Elems(PubKeys(a)) <==> exists k :: k in a && k.info.pubKey == p
  {
    forall p
      ensures p in Elems(PubKeys(a)) <==> exists k :: k in a && k.info.pubKey == p
    {
      if p in PubKeys(a) {
        var i :| 0 <= i < |a| && PubKeys(a)[i] == p;
        assert a[i] in a;
      }
      if k :| k in a && k.info.pubKey == p {
        var i :| 0 <= i < |a| && a[i] == k;
        assert PubKeys(a)[i] == p;
      }
    }
  }

  lemma SamePubKeys(a: seq<BadKey>, b: seq<BadKey>)
    requires multiset(a) == multiset(b)
    ensures Elems(PubKeys(a)) == Elems(PubKeys(b))
  {
    assert forall k :: k in a <==> k in multiset(a);
    assert forall k :: k in b <==> k in multiset(b);
    PubKeysOf(a);
    PubKeysOf(b);
  }

  lemma SendsPrefix(c: Config, s: Service, keys: seq<BadKey>, limit: nat)
    requires c.batchSize > 0 && s.tree.Some? && limit > 0
    ensures var o, n := Send(c, s, keys, limit, Nowhere), if limit < |keys| then limit else |keys|;
      && Elems(Reported(o)) == Elems(PubKeys(keys[..n])) && |Reported(o)| == n
      && o.service == if limit >= |keys| then MarkCurrent(s) else s
  {
    hide Batches;
    var toSend := AllowedNow(keys, limit);
    assert toSend == keys[..if limit < |keys| then limit else |keys|];
    if keys != [] {
      BatchesPartition(c, toSend);
      SamePubKeys(Concat(Batches(c, toSend)), toSend);
    }
  }

  ghost function Settings(e: Env): Params {
    Fresh(e.tree, SteadyReads(e, {}, 0))
  }

  ghost function Capped(n: nat, cap: nat): nat {
    if n < cap then n else cap
  }

  // An unmarked tree is evaluated and the keys left are sent.
  lemma EntersSend(c: Config, t: Service, e: Env, n: nat, sent: set<string>, limit: nat)
    requires c.batchSize > 0 && ToDrain(c, e).Ok? && DistinctBy(ToDrain(c, e).value, PubKeyOf())
    requires n <= |ToDrain(c, e).value| && sent == Elems(PubKeys(ToDrain(c, e).value[..n]))
    requires t.lastProcessed != Some(e.tree.root) && Loaded(t, e.tree) == e.tree && limit > 0
    ensures Round(c, t, SteadyReads(e, sent, limit)) ==
      Send(c, t.(tree := Some(e.tree), params := Settings(e)), ToDrain(c, e).value[n..], limit, Nowhere)
  {
    RestIsCollected(c, t.(tree := Some(e.tree), params := Settings(e)), e, n, sent, limit);
    hide Evaluate, Send, ToDrain, Collect, Elems, DistinctBy;
    assert Fresh(e.tree, SteadyReads(e, sent, limit)) == Settings(e);
  }

  lemma PubKeysSplit(keys: seq<BadKey>, n: nat, k: nat)
    requires n + k <= |keys|
    ensures PubKeys(keys[..n + k]) == PubKeys(keys[..n]) + PubKeys(keys[n..][..k])
  {
  }

  // A round after the first n keys have been reported and before the tree is marked.
  lemma UnmarkedRound(c: Config, t: Service, e: Env, n: nat, sent: seq<string>, limit: nat)
    requires c.batchSize > 0 && ToDrain(c, e).Ok? && DistinctBy(ToDrain(c, e).value, PubKeyOf())
    requires n <= |ToDrain(c, e).value| && Elems(sent) == Elems(PubKeys(ToDrain(c, e).value[..n]))
    requires t.lastProcessed != Some(e.tree.root) && Loaded(t, e.tree) == e.tree && limit > 0
    ensures var o, keys := Round(c, t, SteadyReads(e, Elems(sent), limit)), ToDrain(c, e).value;
      var k := Capped(limit, |keys| - n);
      && |Reported(o)| == k && Elems(sent + Reported(o)) == Elems(PubKeys(keys[..n + k]))
      && o.service.tree == Some(e.tree) && o.service.params == Settings(e)
      && (o.service.lastProcessed == Some(e.tree.root) <==> limit >= |keys| - n)
  {
    hide Round, Send, Settings, ToDrain, Elems, PubKeys, Reported, DistinctBy;
    var keys, prepared := ToDrain(c, e).value, t.(tree := Some(e.tree), params := Settings(e));
    var k := Capped(limit, |keys| - n);
    EntersSend(c, t, e, n, Elems(sent), limit);
    SendsPrefix(c, prepared, keys[n..], limit);
    PubKeysSplit(keys, n, k);
    ElemsAppend(sent, Reported(Round(c, t, SteadyReads(e, Elems(sent), limit))));
    ElemsAppend(PubKeys(keys[..n]), PubKeys(keys[n..][..k]));
  }

  // Once the tree is marked a round does nothing.
  lemma MarkedRound(c: Config, t: Service, e: Env, sent: set<string>, limit: nat)
    requires c.batchSize > 0 && t.lastProcessed == Some(e.tree.root)
    requires t.tree == Some(e.tree) && t.params == Settings(e)
    ensures Round(c, t, SteadyReads(e, sent, limit)).service == t
    ensures Reported(Round(c, t, SteadyReads(e, sent, limit))) == []
  {
    assert Fresh(e.tree, SteadyReads(e, sent, limit)) == Settings(e);
  }

  // The state of draining once the limits so far add up to `total`.
  ghost predicate Drained(c: Config, s: Service, e: Env, total: nat, t: Service, sent: seq<string>)
    requires ToDrain(c, e).Ok?
  {
    var keys := ToDrain(c, e).value;
    && |sent| == Capped(total, |keys|) && Elems(sent) == Elems(PubKeys(keys[..Capped(total, |keys|)]))
    && (t.lastProcessed == Some(e.tree.root) <==> 0 < total && |keys| <= total)
    && (if total == 0 then t == s else t.tree == Some(e.tree) && t.params == Settings(e))
  }

  lemma NoLimitNoRound(c: Config, s: Service, r: Reads)
    requires c.batchSize > 0 && r.limitAtStart == 0
    ensures Round(c, s, r).service == s && Reported(Round(c, s, r)) == []
  {
  }

  lemma DrainStep(c: Config, s: Service, e: Env, total: nat, t: Service, sent: seq<string>, limit: nat)
    requires c.batchSize > 0 && ToDrain(c, e).Ok? && DistinctBy(ToDrain(c, e).value, PubKeyOf())
    requires s.lastProcessed != Some(e.tree.root) && Loaded(s, e.tree) == e.tree
    requires Drained(c, s, e, total, t, sent)
    ensures var o := Round(c, t, SteadyReads(e, Elems(sent), limit));
      Drained(c, s, e, total + limit, o.service, sent + Reported(o))
  {
    hide Round, ToDrain, Settings, Elems, PubKeys, Reported, DistinctBy;
    var keys := ToDrain(c, e).value;
    var r := SteadyReads(e, Elems(sent), limit);
    if limit == 0 {
      NoLimitNoRound(c, t, r);
      assert sent + [] == sent;
    } else if t.lastProcessed == Some(e.tree.root) {
      MarkedRound(c, t, e, Elems(sent), limit);
      assert sent + [] == sent;
    } else {
      UnmarkedRound(c, t, e, Capped(total, |keys|), sent, limit);
    }
  }

  lemma {:induction false} DrainSteps(c: Config, s: Service, e: Env, limits: seq<nat>)
    requires c.batchSize > 0 && ToDrain(c, e).Ok? && DistinctBy(ToDrain(c, e).value, PubKeyOf())
    requires s.lastProcessed != Some(e.tree.root) && Loaded(s, e.tree) == e.tree
    ensures var (t, sent) := Drain(c, s, e, limits); Drained(c, s, e, Total(limits), t, sent)
  {
    if limits == [] {
      assert PubKeys(ToDrain(c, e).value[..0]) == [];
    } else {
      var init := limits[..|limits| - 1];
      DrainSteps(c, s, e, init);
      var (t, sent) := Drain(c, s, e, init);
      hide ToDrain, Drained, Round, DistinctBy, Reported;
      DrainStep(c, s, e, Total(init), t, sent, limits[|limits| - 1]);
    }
  }

  // Main result: on one new tree with fixed parameters, rounds report the bad keys from the first
  // leaf on, each once, as fast as the exit limits allow, and the root is marked processed from the
  // very round on in which the limits together reach the number of keys.
  lemma TreeIsDrained(c: Config, s: Service, e: Env, limits: seq<nat>)
    requires c.batchSize > 0 && ToDrain(c, e).Ok? && DistinctKeys(e.tree) && ByPubKey(e.keyInfo)
    requires s.lastProcessed != Some(e.tree.root) && Loaded(s, e.tree) == e.tree
    ensures var (t, sent) := Drain(c, s, e, limits); Drained(c, s, e, Total(limits), t, sent)
  {
    var bad := Evaluate(Settings(e), e.tree.leaves, e.keyInfo, c.cli).value;
    EvaluatedDistinct(Settings(e), e.tree, e.keyInfo, c.cli);
    WithoutIs(bad, e.proved);
    WithoutIs(Without(bad, e.proved), e.withdrawn);
    DrainSteps(c, s, e, limits);
  }
}
