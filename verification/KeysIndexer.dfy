/** The incremental index of module keys by validator, with its storage and info files. */
module KeysIndexer {
  import opened Wrappers

  datatype KeyInfo = KeyInfo(operatorId: nat, keyIndex: nat, pubKey: string)

  // A key as the keys API reports it.
  datatype ModuleKey = ModuleKey(key: string, operatorIndex: nat, index: nat, used: bool)

  type Storage = map<nat, KeyInfo>

  // How far a run of the indexer gets: rejected before it touches its data, or stopped at one of
  // its two writes, or saved.
  datatype Stage = Rejected | StorageWriteFails | InfoWriteFails | Saved

  function ToKeyInfo(k: ModuleKey): KeyInfo {
    KeyInfo(k.operatorIndex, k.index, k.key)
  }

  // The last entry of an answer for a key; with usedOnly the last one that is used.
  function Find(answer: seq<ModuleKey>, key: string, usedOnly: bool): (r: Option<KeyInfo>)
    ensures r.Some? ==> r.value.pubKey == key
    decreases |answer|
  {
    if answer == [] then None
    else
      var k := answer[|answer| - 1];
      if k.key == key && (k.used || !usedOnly) then Some(ToKeyInfo(k)) else Find(answer[..|answer| - 1], key, usedOnly)
  }

  // An entry for the key; with usedOnly a used one.
  ghost predicate Qualifies(k: ModuleKey, key: string, usedOnly: bool) {
    k.key == key && (usedOnly ==> k.used)
  }

  // The info of entry i, the last of the answer that qualifies.
  ghost predicate FromLast(answer: seq<ModuleKey>, key: string, usedOnly: bool, info: KeyInfo, i: nat) {
    && i < |answer| && Qualifies(answer[i], key, usedOnly)
    && (forall j :: i < j < |answer| ==> !Qualifies(answer[j], key, usedOnly))
    && info.operatorId == answer[i].operatorIndex && info.keyIndex == answer[i].index && info.pubKey == key
  }

  // What is found is the operator and the index of the last entry that qualifies, and nothing exactly
  // if none does.
  lemma {:induction false} FindIs(answer: seq<ModuleKey>, key: string, usedOnly: bool)
    ensures Find(answer, key, usedOnly).None? <==>
      forall i :: 0 <= i < |answer| ==> !Qualifies(answer[i], key, usedOnly)
    ensures forall info :: Find(answer, key, usedOnly) == Some(info) <==>
      exists i: nat :: FromLast(answer, key, usedOnly, info, i)
    decreases |answer|
  {
    if answer == [] {
    } else {
      var n := |answer| - 1;
      var init := answer[..n];
      FindIs(init, key, usedOnly);
      if Qualifies(answer[n], key, usedOnly) {
        assert FromLast(answer, key, usedOnly, ToKeyInfo(answer[n]), n);
      } else {
        forall info, i: nat
          ensures FromLast(answer, key, usedOnly, info, i) <==> FromLast(init, key, usedOnly, info, i)
        {
          assert forall j :: 0 <= j < n ==> init[j] == answer[j];
        }
      }
    }
  }

  function Lookup(m: Storage, v: nat): Option<KeyInfo> {
    if v in m then Some(m[v]) else None
  }

  // The entry an answer gives to validator v, where `keys` are the keys of the validators from
  // `base` on.
  function EntryOf(keys: seq<string>, answer: seq<ModuleKey>, base: nat, usedOnly: bool, v: nat): Option<KeyInfo> {
    if base <= v < base + |keys| then Find(answer, keys[v - base], usedOnly) else None
  }

  // `after` is `before` with the entries of an answer put in.
  ghost predicate Extended(before: Storage, keys: seq<string>, answer: seq<ModuleKey>, base: nat, usedOnly: bool,
                           after: Storage)
  {
    forall v: nat :: Lookup(after, v) ==
      if EntryOf(keys, answer, base, usedOnly, v).Some? then EntryOf(keys, answer, base, usedOnly, v)
      else Lookup(before, v)
  }

  datatype Sys = Sys(
    storage: Storage, slot: nat, count: nat,
    storageFile: Storage, slotFile: nat, countFile: nat,
    known: nat)   // validators in the newest state any run has read

  datatype Event =
    | Run(total: nat, slot: nat, answer: seq<ModuleKey>, stage: Stage, after: Storage)
    | Crash

  // The steps of the class's BaseRun and Reload.
  function Apply(s: Sys, e: Event): Sys {
    match e
    case Run(total, slot, _, stage, after) =>
      var t := s.(known := total);
      if stage.Rejected? then t
      else
        var u := t.(storage := after, slot := slot, count := total);
        if stage.StorageWriteFails? then u
        else if stage.InfoWriteFails? then u.(storageFile := after)
        else u.(storageFile := after, slotFile := slot, countFile := total)
    case Crash => s.(storage := s.storageFile, slot := s.slotFile, count := s.countFile)
  }

  class KeysIndexer {
    var storage: Storage
    var storageStateSlot: nat
    var lastValidatorsCount: nat
    var storageFile: Storage
    var slotFile: nat
    var countFile: nat

    ghost function Model(known: nat): Sys
      reads this
    {
      Sys(storage, storageStateSlot, lastValidatorsCount, storageFile, slotFile, countFile, known)
    }

    constructor (storageFile: Storage, slotFile: nat, countFile: nat)
      ensures storage == this.storageFile == storageFile
      ensures storageStateSlot == this.slotFile == slotFile && lastValidatorsCount == this.countFile == countFile
    {
      this.storageFile, this.slotFile, this.countFile := storageFile, slotFile, countFile;
      storage, storageStateSlot, lastValidatorsCount := storageFile, slotFile, countFile;
    }

    method InitStorage(validators: seq<string>, moduleKeys: seq<ModuleKey>) returns (total: nat)
      modifies `storage
      ensures total == |validators| && Extended(old(storage), validators, moduleKeys, 0, false, storage)
    {
      var keysMap: map<string, KeyInfo> := map[];
      for j := 0 to |moduleKeys|
        invariant forall k :: (if k in keysMap then Some(keysMap[k]) else None) == Find(moduleKeys[..j], k, false)
      {
        assert moduleKeys[..j + 1][..j] == moduleKeys[..j];
        keysMap := keysMap[moduleKeys[j].key := ToKeyInfo(moduleKeys[j])];
      }
      assert moduleKeys[..|moduleKeys|] == moduleKeys;
      total := |validators|;
      for i := 0 to total
        invariant Extended(old(storage), validators[..i], moduleKeys, 0, false, storage)
      {
        ghost var previous, keys := storage, validators[..i + 1];
        if validators[i] in keysMap {
          storage := storage[i := keysMap[validators[i]]];
        }
        forall v: nat
          ensures Lookup(storage, v) ==
            if EntryOf(keys, moduleKeys, 0, false, v).Some? then EntryOf(keys, moduleKeys, 0, false, v)
            else Lookup(old(storage), v)
        {
          assert v != i ==> Lookup(storage, v) == Lookup(previous, v);
          assert v != i ==> EntryOf(keys, moduleKeys, 0, false, v) == EntryOf(validators[..i], moduleKeys, 0, false, v);
        }
      }
      assert validators[..total] == validators;
    }

    method UpdateStorage(validators: seq<string>, found: seq<ModuleKey>) returns (total: nat)
      requires lastValidatorsCount <= |validators|
      modifies `storage
      ensures total == |validators|
      ensures Extended(old(storage), validators[lastValidatorsCount..], found, lastValidatorsCount, true, storage)
    {
      total := |validators|;
      var base, newValKeys := lastValidatorsCount, validators[lastValidatorsCount..];
      if |newValKeys| == 0 {
        return;
      }
      var newEntries: Storage := map[];
      for j := 0 to |found|
        invariant forall v: nat :: Lookup(newEntries, v) == EntryOf(newValKeys, found[..j], base, true, v)
      {
        assert found[..j + 1][..j] == found[..j];
        for i := 0 to |newValKeys|
          invariant forall v: nat :: v < base + i ==>
            Lookup(newEntries, v) == EntryOf(newValKeys, found[..j + 1], base, true, v)
          invariant forall v: nat :: base + i <= v ==>
            Lookup(newEntries, v) == EntryOf(newValKeys, found[..j], base, true, v)
        {
          ghost var previous := newEntries;
          if newValKeys[i] == found[j].key && found[j].used {
            newEntries := newEntries[i + base := ToKeyInfo(found[j])];
          }
          assert forall v: nat :: v != base + i ==> Lookup(newEntries, v) == Lookup(previous, v);
          assert Lookup(previous, base + i) == EntryOf(newValKeys, found[..j], base, true, base + i);
        }
      }
      assert found[..|found|] == found;
      storage := storage + newEntries;
    }

    // One run: `answer` is the API's reply, `stage` how far the run gets.
    method BaseRun(validators: seq<string>, answer: seq<ModuleKey>, slot: nat, stage: Stage)
      requires storageStateSlot > 0 ==> lastValidatorsCount <= |validators|
      modifies this
      ensures !stage.Rejected? ==>
        var base := if old(storageStateSlot) == 0 then 0 else old(lastValidatorsCount);
        Extended(old(storage), validators[base..], answer, base, old(storageStateSlot) > 0, storage)
      ensures forall known: nat ::
        Model(|validators|) == Apply(old(Model(known)), Run(|validators|, slot, answer, stage, storage))
    {
      if stage.Rejected? {
        return;
      }
      var total;
      if storageStateSlot == 0 {
        total := InitStorage(validators, answer);
        assert validators[0..] == validators;
      } else {
        total := UpdateStorage(validators, answer);
      }
      storageStateSlot, lastValidatorsCount := slot, total;
      if stage.StorageWriteFails? {
        return;
      }
      storageFile := storage;
      if stage.InfoWriteFails? {
        return;
      }
      slotFile, countFile := storageStateSlot, lastValidatorsCount;
    }

    method Reload()
      modifies this
      ensures forall known: nat :: Model(known) == Apply(old(Model(known)), Crash)
    {
      storage, storageStateSlot, lastValidatorsCount := storageFile, slotFile, countFile;
    }
  }

  // ---- Runs ----

  // The validator registry as it will ever be; a state has a prefix of it. `entries` are the module's
  // keys as the API lists them, with several entries for a key perhaps: what it answers for a key in
  // the registry never changes.
  datatype World = World(registry: seq<string>, entries: seq<ModuleKey>)

  function Owner(w: World, k: string, usedOnly: bool): Option<KeyInfo> {
    Find(w.entries, k, usedOnly)
  }

  // The module's keys among the first n validators, by validator index; those from `full` on as an
  // update finds them, the others as an init does.
  ghost function Join(w: World, full: nat, n: nat): Storage
    requires n <= |w.registry|
  {
    map i: nat | i < n && Owner(w, w.registry[i], i >= full).Some? :: Owner(w, w.registry[i], i >= full).value
  }

  // An answer has the last entry and the last used one of every key it was asked for.
  ghost predicate Faithful(w: World, answer: seq<ModuleKey>, keys: seq<string>) {
    forall k, usedOnly :: k in keys ==> Find(answer, k, usedOnly) == Owner(w, k, usedOnly)
  }

  function Base(s: Sys): nat {
    if s.slot == 0 then 0 else s.count
  }

  // A run reads a state with at least the validators any earlier one had. `after` is the storage it
  // builds.
  ghost predicate Enabled(w: World, s: Sys, e: Event) {
    e.Run? ==>
      && s.known <= e.total <= |w.registry| && e.slot > 0 && Base(s) <= e.total
      && Faithful(w, e.answer, w.registry[Base(s)..e.total])
      && Extended(s.storage, w.registry[..e.total][Base(s)..], e.answer, Base(s), s.slot > 0, e.after)
  }

  ghost predicate ValidRun(w: World, s: Sys, es: seq<Event>)
    decreases |es|
  {
    es == [] || (Enabled(w, s, es[0]) && ValidRun(w, Apply(s, es[0]), es[1..]))
  }

  ghost function After(w: World, s: Sys, es: seq<Event>): Sys
    requires ValidRun(w, s, es)
    decreases |es|
  {
    if es == [] then s else After(w, Apply(s, es[0]), es[1..])
  }

  const FRESH := Sys(map[], 0, 0, map[], 0, 0, 0)

  ghost predicate IsJoin(w: World, m: Storage, count: nat, known: nat, full: nat, n: nat) {
    full <= n <= |w.registry| && count <= n <= known && m == Join(w, full, n)
  }

  // A storage holds the join up to some validator, at least the recorded count: the storage file
  // may be ahead of the info file.
  ghost predicate JoinFrom(w: World, m: Storage, count: nat, known: nat) {
    exists full: nat, n: nat :: IsJoin(w, m, count, known, full, n)
  }

  // The storage in memory is joined up to n, the file up to m; the entries of an init reach no
  // further than a count recorded with a slot.
  ghost predicate Joined(w: World, s: Sys, full: nat, n: nat, fullFile: nat, m: nat) {
    && s.known <= |w.registry|
    && IsJoin(w, s.storage, s.count, s.known, full, n)
    && IsJoin(w, s.storageFile, s.countFile, s.known, fullFile, m)
    && (s.slot > 0 ==> full <= s.count)
    && (s.slotFile > 0 ==> s.slot > 0 && full <= s.countFile && fullFile <= s.countFile)
  }

  ghost predicate Inv(w: World, s: Sys) {
    exists full: nat, n: nat, fullFile: nat, m: nat :: Joined(w, s, full, n, fullFile, m)
  }

  // A key with a used entry has an entry.
  lemma {:induction false} UsedIsAny(answer: seq<ModuleKey>, key: string)
    ensures Find(answer, key, true).Some? ==> Find(answer, key, false).Some?
    decreases |answer|
  {
    if answer == [] {
    } else {
      UsedIsAny(answer[..|answer| - 1], key);
    }
  }

  lemma SameStorage(a: Storage, b: Storage)
    requires forall v: nat :: Lookup(a, v) == Lookup(b, v)
    ensures a == b
  {
    assert forall v: nat :: v in a <==> Lookup(a, v).Some?;
    assert forall v: nat :: v in b <==> Lookup(b, v).Some?;
    assert forall v: nat :: v in a ==> Some(a[v]) == Lookup(a, v);
  }

  // Adding a faithful answer for the validators from `base` on to the join of at least `base`
  // validators gives the join of all of them: an answer to an init with the last entries, an answer
  // to an update with the last used ones.
  lemma ExtendedJoin(w: World, full: nat, n: nat, base: nat, total: nat, usedOnly: bool, answer: seq<ModuleKey>,
                     after: Storage)
    requires base <= n <= total <= |w.registry| && full <= n && (if usedOnly then full <= base else base == 0)
    requires Faithful(w, answer, w.registry[base..total])
    requires Extended(Join(w, full, n), w.registry[..total][base..], answer, base, usedOnly, after)
    ensures after == Join(w, if usedOnly then full else total, total)
  {
    var keys := w.registry[base..total];
    assert w.registry[..total][base..] == keys;
    var joined := Join(w, if usedOnly then full else total, total);
    forall v: nat
      ensures Lookup(after, v) == Lookup(joined, v)
    {
      if base <= v < total {
        assert keys[v - base] == w.registry[v] && w.registry[v] in keys;
        UsedIsAny(w.entries, w.registry[v]);
      }
    }
    SameStorage(after, joined);
  }

  // The storage a run builds is a join of all it read.
  lemma RunJoins(w: World, s: Sys, e: Event, full: nat, n: nat, fullFile: nat, m: nat)
    requires Joined(w, s, full, n, fullFile, m) && Enabled(w, s, e) && e.Run?
    ensures e.after == Join(w, if s.slot > 0 then full else e.total, e.total)
  {
    ExtendedJoin(w, full, n, Base(s), e.total, s.slot > 0, e.answer, e.after);
  }

  lemma RunKeeps(w: World, s: Sys, e: Event, full: nat, n: nat, fullFile: nat, m: nat)
    requires Joined(w, s, full, n, fullFile, m) && Enabled(w, s, e) && e.Run?
    ensures Inv(w, Apply(s, e))
  {
    RunJoins(w, s, e, full, n, fullFile, m);
    var f := if s.slot > 0 then full else e.total;
    hide Join, Extended, Faithful;
    var t := Apply(s, e);
    match e.stage
    case Rejected => assert Joined(w, t, full, n, fullFile, m);
    case StorageWriteFails => assert Joined(w, t, f, e.total, fullFile, m);
    case InfoWriteFails => assert Joined(w, t, f, e.total, f, e.total);
    case Saved => assert Joined(w, t, f, e.total, f, e.total);
  }

  lemma InvStep(w: World, s: Sys, e: Event)
    requires Inv(w, s) && Enabled(w, s, e)
    ensures Inv(w, Apply(s, e))
  {
    var full: nat, n: nat, fullFile: nat, m: nat :| Joined(w, s, full, n, fullFile, m);
    hide Join, Extended, Faithful;
    match e
    case Run(_, _, _, _, _) => RunKeeps(w, s, e, full, n, fullFile, m);
    case Crash => assert Joined(w, Apply(s, e), fullFile, m, fullFile, m);
  }

  lemma BuiltByRun(w: World, s: Sys, e: Event) returns (full: nat)
    requires Inv(w, s) && Enabled(w, s, e) && e.Run? && !e.stage.Rejected?
    ensures Apply(s, e).storage == Join(w, full, e.total)
  {
    var f: nat, n: nat, fullFile: nat, m: nat :| Joined(w, s, f, n, fullFile, m);
    RunJoins(w, s, e, f, n, fullFile, m);
    hide Join, Extended, Faithful;
    full := if s.slot > 0 then f else e.total;
  }

  lemma {:induction false} InvRun(w: World, s: Sys, es: seq<Event>)
    requires Inv(w, s) && ValidRun(w, s, es)
    ensures Inv(w, After(w, s, es))
    decreases |es|
  {
    hide Inv;
    if es == [] {
    } else {
      InvStep(w, s, es[0]);
      InvRun(w, Apply(s, es[0]), es[1..]);
    }
  }

  lemma FreshInv(w: World)
    ensures Inv(w, FRESH)
  {
    assert FRESH.storage == Join(w, 0, 0);
    assert Joined(w, FRESH, 0, 0, 0, 0);
  }

  // At any time, after any failures and crashes, the index is a join with a prefix of the registry,
  // complete up to the recorded validator count in the used keys and right in every entry.
  lemma IndexIsAlwaysAJoin(w: World, es: seq<Event>)
    requires ValidRun(w, FRESH, es)
    ensures var s := After(w, FRESH, es);
      JoinFrom(w, s.storage, s.count, s.known) && JoinFrom(w, s.storageFile, s.countFile, s.known)
  {
    FreshInv(w);
    InvRun(w, FRESH, es);
    var s := After(w, FRESH, es);
    var full: nat, n: nat, fullFile: nat, m: nat :| Joined(w, s, full, n, fullFile, m);
    assert IsJoin(w, s.storage, s.count, s.known, full, n);
    assert IsJoin(w, s.storageFile, s.countFile, s.known, fullFile, m);
  }

  // Entry i of the module's list is one for validator v's key, and the info is its operator and index.
  ghost predicate FromEntry(w: World, v: nat, usedOnly: bool, info: KeyInfo, i: nat) {
    && v < |w.registry| && i < |w.entries| && w.entries[i].key == w.registry[v] && (usedOnly ==> w.entries[i].used)
    && info == KeyInfo(w.entries[i].operatorIndex, w.entries[i].index, w.registry[v])
  }

  ghost predicate Right(w: World, v: nat, usedOnly: bool, info: KeyInfo) {
    exists i: nat :: FromEntry(w, v, usedOnly, info, i)
  }

  // The module's list has an entry for the key; with usedOnly a used one.
  ghost predicate Listed(w: World, key: string, usedOnly: bool) {
    exists i :: 0 <= i < |w.entries| && Qualifies(w.entries[i], key, usedOnly)
  }

  lemma OwnerIsRight(w: World, v: nat, usedOnly: bool)
    requires v < |w.registry|
    ensures var owner := Owner(w, w.registry[v], usedOnly);
      && (owner.Some? <==> Listed(w, w.registry[v], usedOnly))
      && (owner.Some? ==> Right(w, v, usedOnly, owner.value))
  {
    FindIs(w.entries, w.registry[v], usedOnly);
    var owner := Owner(w, w.registry[v], usedOnly);
    if owner.Some? {
      var i: nat :| FromLast(w.entries, w.registry[v], usedOnly, owner.value, i);
      assert FromEntry(w, v, usedOnly, owner.value, i);
    }
  }

  // What is left of a run when the process dies after it: all of it once it is saved; the storage without
  // the slot and the count if the second write failed; and nothing if the first one did.
  lemma CrashAfterRun(w: World, s: Sys, e: Event)
    requires Enabled(w, s, e) && e.Run?
    ensures var t := Apply(Apply(s, e), Crash);
      match e.stage
      case Saved => t.storage == e.after && t.slot == e.slot && t.count == e.total
      case InfoWriteFails => t.storage == e.after && t.slot == s.slotFile && t.count == s.countFile
      case _ => t.storage == s.storageFile && t.slot == s.slotFile && t.count == s.countFile
  {
  }

  // What a run changes: it puts in an entry for exactly the validators from its base on whose key is
  // listed, each from an entry of the list for that key; an update takes used entries only.
  lemma RunPutsIn(w: World, s: Sys, e: Event, v: nat)
    requires Enabled(w, s, e) && e.Run?
    ensures Base(s) <= v < e.total && Listed(w, w.registry[v], s.slot > 0) ==>
      v in e.after && Right(w, v, s.slot > 0, e.after[v])
    ensures !(Base(s) <= v < e.total && Listed(w, w.registry[v], s.slot > 0)) ==>
      Lookup(e.after, v) == Lookup(s.storage, v)
  {
    assert Lookup(e.after, v).Some? <==> v in e.after;
    if Base(s) <= v < e.total {
      var keys := w.registry[Base(s)..e.total];
      assert w.registry[..e.total][Base(s)..] == keys;
      assert keys[v - Base(s)] == w.registry[v] && w.registry[v] in keys;
      assert EntryOf(keys, e.answer, Base(s), s.slot > 0, v) == Owner(w, w.registry[v], s.slot > 0);
      OwnerIsRight(w, v, s.slot > 0);
      hide Find, Listed, Right;
    }
  }

  // Every entry is that of a validator seen, from an entry of the module's list for its key, and no
  // validator up to the recorded count whose key has a used entry is missing.
  ghost predicate RightIndex(w: World, m: Storage, count: nat, known: nat) {
    && known <= |w.registry| && count <= known
    && (forall v :: v in m ==> v < known && Right(w, v, false, m[v]))
    && (forall v: nat :: v < count && Listed(w, w.registry[v], true) ==> v in m)
  }

  lemma RightIsAny(w: World, v: nat, usedOnly: bool, info: KeyInfo)
    requires Right(w, v, usedOnly, info)
    ensures Right(w, v, false, info)
  {
    var i: nat :| FromEntry(w, v, usedOnly, info, i);
    assert FromEntry(w, v, false, info, i);
  }

  lemma JoinIsRight(w: World, m: Storage, count: nat, known: nat)
    requires JoinFrom(w, m, count, known) && known <= |w.registry|
    ensures RightIndex(w, m, count, known)
  {
    var full: nat, n: nat :| IsJoin(w, m, count, known, full, n);
    forall v: nat | v in m
      ensures v < known && Right(w, v, false, m[v])
    {
      OwnerIsRight(w, v, v >= full);
      RightIsAny(w, v, v >= full, m[v]);
    }
    forall v: nat | v < count && Listed(w, w.registry[v], true)
      ensures v in m
    {
      OwnerIsRight(w, v, true);
      UsedIsAny(w.entries, w.registry[v]);
    }
  }

  // Main result: at any time, after any failures and crashes, the index in memory and the one on disk
  // have only right entries and miss none that has to be there.
  lemma IndexIsAlwaysRight(w: World, es: seq<Event>)
    requires ValidRun(w, FRESH, es)
    ensures var s := After(w, FRESH, es);
      RightIndex(w, s.storage, s.count, s.known) && RightIndex(w, s.storageFile, s.countFile, s.known)
  {
    IndexIsAlwaysAJoin(w, es);
    FreshInv(w);
    InvRun(w, FRESH, es);
    var s := After(w, FRESH, es);
    hide RightIndex, JoinFrom;
    JoinIsRight(w, s.storage, s.count, s.known);
    JoinIsRight(w, s.storageFile, s.countFile, s.known);
  }

  // ---- Against a rebuild ----

  // Two runs on the same state that reach their data: one after a history, one from nothing.
  ghost predicate RunAndRebuild(w: World, es: seq<Event>, e: Event, rebuild: Event) {
    && ValidRun(w, FRESH, es) && Enabled(w, After(w, FRESH, es), e) && e.Run? && !e.stage.Rejected?
    && Enabled(w, FRESH, rebuild) && rebuild.Run? && !rebuild.stage.Rejected? && rebuild.total == e.total
  }

  ghost predicate SameAsRebuild(w: World, es: seq<Event>, e: Event, rebuild: Event)
    requires RunAndRebuild(w, es, e, rebuild)
  {
    Apply(After(w, FRESH, es), e).storage == Apply(FRESH, rebuild).storage
  }

  ghost predicate AlwaysSame(w: World) {
    forall es, e, rebuild :: RunAndRebuild(w, es, e, rebuild) ==> SameAsRebuild(w, es, e, rebuild)
  }

  // For every key of the registry the last entry and the last used one are the same.
  ghost predicate SearchesAgree(w: World) {
    forall v: nat :: v < |w.registry| ==> Owner(w, w.registry[v], false) == Owner(w, w.registry[v], true)
  }

  lemma AgreedJoin(w: World, f: nat, g: nat, n: nat)
    requires SearchesAgree(w) && n <= |w.registry|
    ensures Join(w, f, n) == Join(w, g, n)
  {
    forall v: nat
      ensures Lookup(Join(w, f, n), v) == Lookup(Join(w, g, n), v)
    {
      assert v < n ==> Owner(w, w.registry[v], false) == Owner(w, w.registry[v], true);
    }
    SameStorage(Join(w, f, n), Join(w, g, n));
  }

  // After any history, a run that reaches its data leaves the same index as one rebuild from nothing
  // on the same state; and if it is saved a crash does not change it.
  lemma IncrementalEqualsRebuild(w: World, es: seq<Event>, e: Event, rebuild: Event)
    requires SearchesAgree(w) && RunAndRebuild(w, es, e, rebuild)
    ensures SameAsRebuild(w, es, e, rebuild)
    ensures e.stage.Saved? ==>
      Apply(Apply(After(w, FRESH, es), e), Crash) == Apply(After(w, FRESH, es), e)
  {
    FreshInv(w);
    InvRun(w, FRESH, es);
    var f := BuiltByRun(w, After(w, FRESH, es), e);
    var g := BuiltByRun(w, FRESH, rebuild);
    AgreedJoin(w, f, g, e.total);
  }

  // ---- Where the searches differ ----

  // A saved run that reads the first `total` validators and gets all the module's entries.
  ghost function SavedRun(w: World, full: nat, total: nat): Event
    requires total <= |w.registry|
  {
    Run(total, 1, w.entries, Saved, Join(w, full, total))
  }

  lemma InitExtends(w: World, total: nat)
    requires total <= |w.registry|
    ensures Enabled(w, FRESH, SavedRun(w, total, total))
  {
    var keys := w.registry[..total];
    assert w.registry[0..total] == keys && keys[0..] == keys;
    forall v: nat
      ensures Lookup(Join(w, total, total), v) ==
        if EntryOf(keys, w.entries, 0, false, v).Some? then EntryOf(keys, w.entries, 0, false, v) else None
    {
    }
  }

  lemma UpdateExtends(w: World, v: nat)
    requires v < |w.registry|
    ensures Enabled(w, Apply(FRESH, SavedRun(w, v, v)), SavedRun(w, v, v + 1))
  {
    var keys := w.registry[..v + 1][v..];
    assert keys == [w.registry[v]];
    forall i: nat
      ensures Lookup(Join(w, v, v + 1), i) ==
        if EntryOf(keys, w.entries, v, true, i).Some? then EntryOf(keys, w.entries, v, true, i)
        else Lookup(Join(w, v, v), i)
    {
    }
  }

  // A key for which the searches differ, coming into the registry after the first run, is not indexed
  // as a rebuild indexes it: not at all, or for another operator.
  lemma DifferingKeyIsMissed(w: World, v: nat)
    requires v < |w.registry| && Owner(w, w.registry[v], false) != Owner(w, w.registry[v], true)
    ensures !AlwaysSame(w)
  {
    var first, e, rebuild := SavedRun(w, v, v), SavedRun(w, v, v + 1), SavedRun(w, v + 1, v + 1);
    InitExtends(w, v);
    UpdateExtends(w, v);
    InitExtends(w, v + 1);
    assert Lookup(e.after, v) != Lookup(rebuild.after, v);
    hide Extended, Faithful, Join;
    var es, s := [first], Apply(FRESH, first);
    assert es[1..] == [] && ValidRun(w, s, es[1..]);
    assert After(w, FRESH, es) == After(w, s, es[1..]) == s;
    assert RunAndRebuild(w, es, e, rebuild);
    assert !SameAsRebuild(w, es, e, rebuild);
  }

  // Main result: every run leaves the index a rebuild would give if and only if the last entry and the
  // last used one are the same for every key of the registry.
  lemma AlwaysSameIff(w: World)
    ensures AlwaysSame(w) <==> SearchesAgree(w)
  {
    if SearchesAgree(w) {
      forall es, e, rebuild | RunAndRebuild(w, es, e, rebuild)
        ensures SameAsRebuild(w, es, e, rebuild)
      {
        IncrementalEqualsRebuild(w, es, e, rebuild);
      }
    } else {
      var v: nat :| v < |w.registry| && Owner(w, w.registry[v], false) != Owner(w, w.registry[v], true);
      DifferingKeyIsMissed(w, v);
    }
  }
}
