/** Which keys have a balance worth proving, and how their confirmed balances are read. */
module Balances {

  const WEI_PER_GWEI := 1_000_000_000

  const FAR_FUTURE_EPOCH := 0xFFFF_FFFF_FFFF_FFFF

  datatype Config = Config(minActivationBalance: nat, maxEffectiveBalance: nat, topUpStep: nat, minDelta: nat)

  datatype KeyInfo = KeyInfo(operatorId: nat, keyIndex: nat, pubKey: string)

  datatype State = State(balances: seq<nat>, exitEpochs: seq<nat>)

  // The staking module: how many keys an operator has and the balance confirmed for each, in wei.
  datatype Module = Module(keysCount: nat -> nat, confirmed: (nat, nat) -> nat)

  datatype Range = Range(start: nat, balances: seq<nat>)

  // ---- The test for one key ----

  function ConfirmedBalance(c: Config, keyAddedBalanceWei: nat): nat {
    c.minActivationBalance + keyAddedBalanceWei / WEI_PER_GWEI
  }

  function ReportableMax(c: Config): int {
    c.maxEffectiveBalance - c.topUpStep
  }

  predicate IsProvableBalance(c: Config, keyAddedBalanceWei: nat, balance: nat, exitEpoch: nat) {
    var confirmed := ConfirmedBalance(c, keyAddedBalanceWei);
    if ReportableMax(c) <= confirmed then false
    else if balance <= confirmed then false
    else
      var delta := balance - confirmed;
      delta > c.minDelta || exitEpoch != FAR_FUTURE_EPOCH || balance >= ReportableMax(c)
  }

  // The test in wei: the confirmed deposits leave room below the reportable maximum and are less than
  // the balance is worth, by more than the minimum delta unless the validator is exiting or has reached
  // that maximum.
  lemma ProvableInWei(c: Config, wei: nat, balance: nat, exitEpoch: nat)
    ensures IsProvableBalance(c, wei, balance, exitEpoch) <==>
      && wei < (c.maxEffectiveBalance - c.topUpStep - c.minActivationBalance) * 1_000_000_000
      && wei < (balance - c.minActivationBalance) * 1_000_000_000
      && (|| wei < (balance - c.minActivationBalance - c.minDelta) * 1_000_000_000
          || exitEpoch != 18_446_744_073_709_551_615
          || balance >= c.maxEffectiveBalance - c.topUpStep)
  {
  }

  // The least balance that is reported: any growth of an exiting validator; of an active one growth
  // past the minimum delta, or to the reportable maximum if that comes first.
  function Trigger(c: Config, confirmed: nat, exitEpoch: nat): int {
    if exitEpoch != FAR_FUTURE_EPOCH then confirmed + 1
    else if confirmed + c.minDelta + 1 < ReportableMax(c) then confirmed + c.minDelta + 1
    else ReportableMax(c)
  }

  // Provable is the same as having reached the trigger, while the confirmed balance leaves room.
  lemma ProvableIffTriggered(c: Config, wei: nat, balance: nat, exitEpoch: nat)
    ensures IsProvableBalance(c, wei, balance, exitEpoch) <==>
      ConfirmedBalance(c, wei) < ReportableMax(c) && Trigger(c, ConfirmedBalance(c, wei), exitEpoch) <= balance
  {
    var confirmed := ConfirmedBalance(c, wei);
    assert confirmed < ReportableMax(c) ==> Trigger(c, confirmed, exitEpoch) > confirmed;
  }

  // Growing balances stay provable, and once a balance at least as large is confirmed it is not
  // provable again.
  lemma ProvableIsSettledByConfirming(c: Config, wei: nat, balance: nat, exitEpoch: nat, more: nat)
    requires IsProvableBalance(c, wei, balance, exitEpoch)
    ensures IsProvableBalance(c, wei, balance + more, exitEpoch)
    ensures forall wei2: nat :: ConfirmedBalance(c, wei2) >= balance ==> !IsProvableBalance(c, wei2, balance, exitEpoch)
  {
  }

  // The pre-filter drops no provable key.
  lemma PreFilterIsSafe(c: Config, wei: nat, balance: nat, exitEpoch: nat)
    requires balance <= c.minActivationBalance
    ensures !IsProvableBalance(c, wei, balance, exitEpoch)
  {
  }

  // ---- Confirmed balances, one range per operator ----

  // Every key is one the module has.
  ghost predicate Known(m: Module, k: KeyInfo) {
    k.keyIndex < m.keysCount(k.operatorId)
  }

  method GetKeyConfirmedBalances(m: Module, operatorId: nat, start: nat, count: nat) returns (balances: seq<nat>)
    requires start + count <= m.keysCount(operatorId)
    ensures |balances| == count && forall i :: 0 <= i < count ==> balances[i] == m.confirmed(operatorId, start + i)
  {
    balances := seq(count, i requires 0 <= i < count => m.confirmed(operatorId, start + i));
  }

  function KeyIndexes(keyInfos: seq<KeyInfo>, operatorId: nat): (r: seq<nat>)
    ensures forall x :: x in r <==> exists k :: k in keyInfos && k.operatorId == operatorId && k.keyIndex == x
  {
    if keyInfos == [] then []
    else
      var rest := KeyIndexes(keyInfos[1..], operatorId);
      assert forall k :: k in keyInfos <==> k == keyInfos[0] || k in keyInfos[1..];
      if keyInfos[0].operatorId == operatorId then [keyInfos[0].keyIndex] + rest else rest
  }

  function Min(s: seq<nat>): (m: nat)
    requires s != []
    ensures m in s && forall x :: x in s ==> m <= x
  {
    if |s| == 1 then s[0]
    else
      var rest := Min(s[1..]);
      assert forall x :: x in s <==> x == s[0] || x in s[1..];
      if s[0] < rest then s[0] else rest
  }

  function Max(s: seq<nat>): (m: nat)
    requires s != []
    ensures m in s && forall x :: x in s ==> x <= m
  {
    if |s| == 1 then s[0]
    else
      var rest := Max(s[1..]);
      assert forall x :: x in s <==> x == s[0] || x in s[1..];
      if s[0] > rest then s[0] else rest
  }

  // A range that holds the confirmed balances of the operator's keys in a list, and no key the
  // module does not have.
  ghost predicate Covers(m: Module, keyInfos: seq<KeyInfo>, operatorId: nat, range: Range) {
    && range.start + |range.balances| <= m.keysCount(operatorId)
    && (forall i :: 0 <= i < |range.balances| ==> range.balances[i] == m.confirmed(operatorId, range.start + i))
    && (forall k :: k in keyInfos && k.operatorId == operatorId ==>
          range.start <= k.keyIndex < range.start + |range.balances|)
  }

  method ReadRange(m: Module, keyInfos: seq<KeyInfo>, operatorId: nat) returns (range: Range)
    requires forall k :: k in keyInfos ==> Known(m, k)
    requires exists k :: k in keyInfos && k.operatorId == operatorId
    ensures Covers(m, keyInfos, operatorId, range)
  {
    var keyIndexes := KeyIndexes(keyInfos, operatorId);
    assert keyIndexes != [] by {
      var k :| k in keyInfos && k.operatorId == operatorId;
      assert k.keyIndex in keyIndexes;
    }
    var start := Min(keyIndexes);
    var count := Max(keyIndexes) - start + 1;
    var balances := GetKeyConfirmedBalances(m, operatorId, start, count);
    range := Range(start, balances);
    assert forall k :: k in keyInfos && k.operatorId == operatorId ==> k.keyIndex in keyIndexes;
  }

  // Each key's own confirmed balance, in the order of the keys.
  method GetKeyAddedBalances(m: Module, keyInfos: seq<KeyInfo>) returns (added: seq<nat>)
    requires forall k :: k in keyInfos ==> Known(m, k)
    ensures |added| == |keyInfos|
    ensures forall i :: 0 <= i < |keyInfos| ==> added[i] == m.confirmed(keyInfos[i].operatorId, keyInfos[i].keyIndex)
  {
    var operatorIds := set k | k in keyInfos :: k.operatorId;
    var rangeByOperator: map<nat, Range> := map[];
    var rest := operatorIds;
    while rest != {}
      invariant rest <= operatorIds
      invariant forall o :: o in operatorIds <==> o in rest || o in rangeByOperator
      invariant forall o :: o in rangeByOperator ==> Covers(m, keyInfos, o, rangeByOperator[o])
      decreases |rest|
    {
      var operatorId :| operatorId in rest;
      var range := ReadRange(m, keyInfos, operatorId);
      rangeByOperator, rest := rangeByOperator[operatorId := range], rest - {operatorId};
    }
    added := [];
    for i := 0 to |keyInfos|
      invariant |added| == i
      invariant forall j :: 0 <= j < i ==> added[j] == m.confirmed(keyInfos[j].operatorId, keyInfos[j].keyIndex)
    {
      var k := keyInfos[i];
      assert k in keyInfos && k.operatorId in operatorIds;
      var range := rangeByOperator[k.operatorId];
      added := added + [range.balances[k.keyIndex - range.start]];
    }
  }

  // ---- The keys to prove ----

  // Judged one at a time: a key whose validator is in the state, with a provable balance.
  ghost predicate Provable(c: Config, m: Module, state: State, v: nat, k: KeyInfo)
    requires |state.exitEpochs| == |state.balances|
  {
    && v < |state.balances|
    && IsProvableBalance(c, m.confirmed(k.operatorId, k.keyIndex), state.balances[v], state.exitEpochs[v])
  }

  // The entries are the keys above the activation balance.
  ghost predicate AreCandidates(c: Config, state: State, keys: map<nat, KeyInfo>, entries: seq<(nat, KeyInfo)>) {
    forall e :: e in entries <==>
      e.0 in keys && keys[e.0] == e.1 && e.0 < |state.balances| && state.balances[e.0] > c.minActivationBalance
  }

  // The entries with a balance above the activation balance, in some order.
  method Candidates(c: Config, state: State, keys: map<nat, KeyInfo>) returns (entries: seq<(nat, KeyInfo)>)
    ensures AreCandidates(c, state, keys, entries)
  {
    entries := [];
    var rest := keys.Keys;
    while rest != {}
      invariant rest <= keys.Keys
      invariant forall e :: e in entries <==>
        && e.0 in keys && e.0 !in rest && keys[e.0] == e.1
        && e.0 < |state.balances| && state.balances[e.0] > c.minActivationBalance
      decreases |rest|
    {
      var v :| v in rest;
      if v < |state.balances| && state.balances[v] > c.minActivationBalance {
        entries := entries + [(v, keys[v])];
      }
      rest := rest - {v};
    }
  }

  ghost predicate Passes(c: Config, state: State, entries: seq<(nat, KeyInfo)>, added: seq<nat>, v: nat, j: nat)
    requires |state.exitEpochs| == |state.balances| && |added| == |entries| && j < |entries|
  {
    && entries[j].0 == v && v < |state.balances|
    && IsProvableBalance(c, added[j], state.balances[v], state.exitEpochs[v])
  }

  // The entries that pass, in their order.
  method Passing(c: Config, state: State, entries: seq<(nat, KeyInfo)>, added: seq<nat>)
    returns (provable: map<nat, KeyInfo>)
    requires |state.exitEpochs| == |state.balances| && |added| == |entries|
    requires forall i :: 0 <= i < |entries| ==> entries[i].0 < |state.balances|
    requires forall i, j :: 0 <= i < |entries| && 0 <= j < |entries| && entries[i].0 == entries[j].0 ==>
      entries[i] == entries[j]
    ensures forall v :: v in provable <==> exists j :: 0 <= j < |entries| && Passes(c, state, entries, added, v, j)
    ensures forall v :: v in provable ==> (v, provable[v]) in entries
  {
    provable := map[];
    for i := 0 to |entries|
      invariant forall v :: v in provable <==> exists j :: 0 <= j < i && Passes(c, state, entries, added, v, j)
      invariant forall v :: v in provable ==> (v, provable[v]) in entries
    {
      var (v, keyInfo) := entries[i];
      assert entries[i] in entries;
      if IsProvableBalance(c, added[i], state.balances[v], state.exitEpochs[v]) {
        assert Passes(c, state, entries, added, v, i);
        provable := provable[v := keyInfo];
      }
    }
  }

  ghost predicate AddedOf(m: Module, entries: seq<(nat, KeyInfo)>, added: seq<nat>) {
    && |added| == |entries|
    && forall j :: 0 <= j < |entries| ==> added[j] == m.confirmed(entries[j].1.operatorId, entries[j].1.keyIndex)
  }

  // A key passes the filter and the batched reads exactly if it is provable on its own.
  lemma PassesIffProvable(c: Config, m: Module, state: State, keys: map<nat, KeyInfo>, entries: seq<(nat, KeyInfo)>,
                          added: seq<nat>, v: nat)
    requires |state.exitEpochs| == |state.balances|
    requires AreCandidates(c, state, keys, entries) && AddedOf(m, entries, added)
    ensures (exists j :: 0 <= j < |entries| && Passes(c, state, entries, added, v, j)) <==>
      v in keys && Provable(c, m, state, v, keys[v])
  {
    hide IsProvableBalance;
    if j :| 0 <= j < |entries| && Passes(c, state, entries, added, v, j) {
      assert entries[j] in entries;
    }
    if v in keys && Provable(c, m, state, v, keys[v]) {
      if state.balances[v] <= c.minActivationBalance {
        PreFilterIsSafe(c, m.confirmed(keys[v].operatorId, keys[v].keyIndex), state.balances[v], state.exitEpochs[v]);
      }
      assert (v, keys[v]) in entries;
      var j :| 0 <= j < |entries| && entries[j] == (v, keys[v]);
      assert Passes(c, state, entries, added, v, j);
    }
  }

  // Main result: the keys selected with the pre-filter and the batched reads are exactly those
  // provable when judged one at a time.
  method GetUnprovenBalanceChangeProofs(c: Config, m: Module, state: State, keys: map<nat, KeyInfo>)
    returns (provable: map<nat, KeyInfo>)
    requires |state.exitEpochs| == |state.balances|
    requires forall v :: v in keys ==> Known(m, keys[v])
    ensures forall v :: v in provable <==> v in keys && Provable(c, m, state, v, keys[v])
    ensures forall v :: v in provable ==> provable[v] == keys[v]
  {
    if |keys| == 0 {
      return map[];
    }
    var entries := Candidates(c, state, keys);
    var keyInfos := seq(|entries|, i requires 0 <= i < |entries| => entries[i].1);
    assert forall i :: 0 <= i < |entries| ==> entries[i] in entries && keyInfos[i] == entries[i].1;
    var added := GetKeyAddedBalances(m, keyInfos);
    assert AddedOf(m, entries, added);
    hide IsProvableBalance, Provable, Passes, AddedOf;
    provable := Passing(c, state, entries, added);
    forall v
      ensures v in provable <==> v in keys && Provable(c, m, state, v, keys[v])
    {
      PassesIffProvable(c, m, state, keys, entries, added, v);
    }
  }
}
