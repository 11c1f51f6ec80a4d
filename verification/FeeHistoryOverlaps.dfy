/** Updates of the gas fee cache that overlap: what they leave intact, when one acts as if it were
    alone, and when a block is put in twice or the last block goes back. */
module FeeHistoryOverlaps {
  import Division
  import opened Sorting
  import opened FeeHistory
  import opened FeeHistoryRuns

  // An update whose requests are under way: the last block it found, the latest block, and the
  // number of entries it fetches.
  datatype Fetching = Fetching(base: nat, latest: nat, total: nat)

  type Fetch = f: Fetching | f.base + f.total <= f.latest witness Fetching(0, 0, 0)

  // `seen` is the newest block any update has read, `ended` the updates that were put in.
  datatype Shared = Shared(blocks: Blocks, fetching: seq<Fetch>, seen: nat, ended: seq<Fetch>)

  const START := Shared(NONE, [], 0, [])

  datatype Move =
    | Begin(latest: nat)
    | End(i: nat)
    | Abort(i: nat)
    | Sorted

  ghost predicate Enabled(s: Shared, m: Move) {
    match m
    case End(i) => i < |s.fetching|
    case Abort(i) => i < |s.fetching|
    case _ => true
  }

  function FetchedBy(c: Settings, f: Fetch): seq<nat>
    requires c.maxBlockCount > 0
  {
    Fetched(f.latest, f.total, c.maxBlockCount)
  }

  ghost function PutIn(c: Settings, b: Blocks, f: Fetch): Blocks
    requires c.maxBlockCount > 0
  {
    Blocks(Slide(b.cache, FetchedBy(c, f)), f.latest)
  }

  ghost function Settle(s: Shared, i: nat): Shared
    requires i < |s.fetching|
  {
    s.(fetching := s.fetching[..i] + s.fetching[i + 1..])
  }

  ghost function Begun(c: Settings, b: Blocks, latest: nat): Fetch
    requires latest >= b.lastBlock
  {
    Fetching(b.lastBlock, latest, Smaller(latest - b.lastBlock, CacheSize(c)))
  }

  ghost function Apply(c: Settings, chain: Chain, s: Shared, m: Move): Shared
    requires c.maxBlockCount > 0 && Enabled(s, m)
  {
    match m
    case Begin(latest) =>
      var s' := s.(seen := if latest > s.seen then latest else s.seen);
      if latest - s.blocks.lastBlock < BLOCKS_PER_HOUR then s'
      else s'.(fetching := s.fetching + [Begun(c, s.blocks, latest)])
    case End(i) =>
      var f := s.fetching[i];
      Settle(s, i).(blocks := PutIn(c, s.blocks, f), ended := s.ended + [f])
    case Abort(i) => Settle(s, i)
    case Sorted => s.(blocks := s.blocks.(cache := Sort(s.blocks.cache, FeeOf(chain))))
  }

  ghost predicate ValidRun(c: Settings, chain: Chain, s: Shared, ms: seq<Move>)
    requires c.maxBlockCount > 0
    decreases |ms|
  {
    ms == [] || (Enabled(s, ms[0]) && ValidRun(c, chain, Apply(c, chain, s, ms[0]), ms[1..]))
  }

  ghost function After(c: Settings, chain: Chain, s: Shared, ms: seq<Move>): Shared
    requires c.maxBlockCount > 0 && ValidRun(c, chain, s, ms)
    decreases |ms|
  {
    if ms == [] then s else After(c, chain, Apply(c, chain, s, ms[0]), ms[1..])
  }

  // ---- What holds in every interleaving ----

  ghost predicate SoundFetch(c: Settings, f: Fetch, seen: nat) {
    f.base + BLOCKS_PER_HOUR <= f.latest <= seen && f.total == Smaller(f.latest - f.base, CacheSize(c))
  }

  ghost predicate AllSound(c: Settings, fs: seq<Fetch>, seen: nat) {
    forall i :: 0 <= i < |fs| ==> SoundFetch(c, fs[i], seen)
  }

  ghost predicate Sound(c: Settings, s: Shared) {
    && |s.blocks.cache| <= CacheSize(c) && s.blocks.lastBlock <= s.seen
    && (forall i :: 0 <= i < |s.blocks.cache| ==> s.blocks.cache[i] <= s.seen)
    && AllSound(c, s.fetching, s.seen) && AllSound(c, s.ended, s.seen)
  }

  lemma SortedIsSound(c: Settings, chain: Chain, s: Shared)
    requires c.maxBlockCount > 0 && Sound(c, s)
    ensures Sound(c, Apply(c, chain, s, Sorted))
  {
    SortIs(s.blocks.cache, FeeOf(chain));
    hide Sort, AllSound;
    var sorted := Sort(s.blocks.cache, FeeOf(chain));
    assert forall i :: 0 <= i < |sorted| ==> sorted[i] in multiset(s.blocks.cache);
  }

  lemma EndIsSound(c: Settings, chain: Chain, s: Shared, i: nat)
    requires c.maxBlockCount > 0 && Sound(c, s) && i < |s.fetching|
    ensures Sound(c, Apply(c, chain, s, End(i))) && |s.blocks.cache| <= |Apply(c, chain, s, End(i)).blocks.cache|
  {
    var f := s.fetching[i];
    assert SoundFetch(c, f, s.seen);
    FetchedInOrder(f.latest, f.total, c.maxBlockCount);
    hide Fetched, Ordered, SoundFetch;
  }

  lemma SoundStep(c: Settings, chain: Chain, s: Shared, m: Move)
    requires c.maxBlockCount > 0 && Sound(c, s) && Enabled(s, m)
    ensures Sound(c, Apply(c, chain, s, m)) && |s.blocks.cache| <= |Apply(c, chain, s, m).blocks.cache|
  {
    match m
    case Begin(_) =>
    case End(i) => EndIsSound(c, chain, s, i);
    case Abort(_) =>
    case Sorted => SortedIsSound(c, chain, s);
  }

  // Main result: however updates, failures of their requests and queries interleave, the cache holds
  // only fees of blocks seen, is never larger than its limit, and never shrinks.
  lemma {:induction false} CacheIsBounded(c: Settings, chain: Chain, s: Shared, ms: seq<Move>)
    requires c.maxBlockCount > 0 && Sound(c, s) && ValidRun(c, chain, s, ms)
    ensures Sound(c, After(c, chain, s, ms))
    ensures |s.blocks.cache| <= |After(c, chain, s, ms).blocks.cache| <= c.days * 7200
    decreases |ms|
  {
    assert |s.blocks.cache| <= c.days * 7200;
    hide Apply, Enabled, Sound;
    if ms == [] {
    } else {
      SoundStep(c, chain, s, ms[0]);
      CacheIsBounded(c, chain, Apply(c, chain, s, ms[0]), ms[1..]);
    }
  }

  // ---- When the end of an update is that of an update alone ----

  // As many entries are due as the update fetched.
  ghost predicate StillDue(c: Settings, lastBlock: nat, f: Fetch) {
    f.latest - lastBlock >= BLOCKS_PER_HOUR && f.total == Smaller(f.latest - lastBlock, CacheSize(c))
  }

  // Whatever the cache holds, putting the update in is one undivided update to its latest block.
  ghost predicate ActsAlone(c: Settings, chain: Chain, lastBlock: nat, f: Fetch)
    requires c.maxBlockCount > 0
  {
    forall cache ::
      PutIn(c, Blocks(cache, lastBlock), f) == BlockStep(c, chain, Blocks(cache, lastBlock), Update(f.latest))
  }

  // Exactly if the same number of entries is still due, which is so if the last block is still the one
  // the update found; or, with a cache of no size, if there is nothing to do.
  lemma ActsAloneIff(c: Settings, chain: Chain, lastBlock: nat, f: Fetch, seen: nat)
    requires c.maxBlockCount > 0 && SoundFetch(c, f, seen)
    ensures ActsAlone(c, chain, lastBlock, f) <==>
      StillDue(c, lastBlock, f) || (f.total == 0 && lastBlock == f.latest)
    ensures lastBlock == f.base ==> StillDue(c, lastBlock, f)
  {
    hide Fetched;
    if ActsAlone(c, chain, lastBlock, f) {
      var empty := Blocks([], lastBlock);
      assert PutIn(c, empty, f) == BlockStep(c, chain, empty, Update(f.latest));
      assert |PutIn(c, empty, f).cache| == f.total;
    }
  }

  // An update that nothing comes between is one step of the sequential runs.
  lemma UndisturbedUpdate(c: Settings, chain: Chain, s: Shared, latest: nat)
    requires c.maxBlockCount > 0 && latest - s.blocks.lastBlock >= BLOCKS_PER_HOUR
    ensures var begun := Apply(c, chain, s, Begin(latest));
      && Enabled(begun, End(|s.fetching|))
      && var ended := Apply(c, chain, begun, End(|s.fetching|));
         ended.blocks == BlockStep(c, chain, s.blocks, Update(latest)) && ended.fetching == s.fetching
  {
    hide Fetched;
  }

  // ---- When a block is put in twice ----

  lemma {:induction false} RangeHolds(oldest: nat, count: nat, block: nat)
    ensures block in Range(oldest, count) <==> oldest <= block < oldest + count
    decreases count
  {
    if count == 0 {
    } else {
      RangeHolds(oldest, count - 1, block);
    }
  }

  lemma {:induction false} AnswersIff(rs: seq<Request>, block: nat)
    requires forall r :: r in rs ==> r.oldest <= r.newest
    ensures block in Answers(rs) <==> Covered(rs, block)
  {
    if rs == [] {
    } else {
      AnswersIff(rs[1..], block);
      RangeHolds(rs[0].oldest, rs[0].newest - rs[0].oldest + 1, block);
      CoveredMore(rs[0], rs[1..], block);
      assert [rs[0]] + rs[1..] == rs;
    }
  }

  // The oldest block an update fetches.
  ghost function Oldest(c: Settings, f: Fetch): int
    requires c.maxBlockCount > 0
  {
    f.latest - f.total + |Requests(f.latest, f.total, c.maxBlockCount)|
  }

  lemma FetchedIff(c: Settings, f: Fetch, block: nat)
    requires c.maxBlockCount > 0 && f.total > 0
    ensures block in FetchedBy(c, f) <==> Oldest(c, f) <= block <= f.latest
    ensures f.base < Oldest(c, f) <= f.latest
  {
    FetchedIsAnswers(f.latest, f.total, c.maxBlockCount);
    AnswersIff(Requests(f.latest, f.total, c.maxBlockCount), block);
    RequestsHaveNoGap(f.latest, f.total, c.maxBlockCount, block);
    RequestsAreFew(f.latest, f.total, c.maxBlockCount);
    assert |Requests(f.latest, f.total, c.maxBlockCount)| > 0;
  }

  // The ranges of two updates meet.
  ghost predicate Meet(c: Settings, f: Fetch, g: Fetch)
    requires c.maxBlockCount > 0
  {
    f.total > 0 && g.total > 0 && Oldest(c, f) <= g.latest && Oldest(c, g) <= f.latest
  }

  ghost predicate Common(c: Settings, f: Fetch, g: Fetch, block: nat)
    requires c.maxBlockCount > 0
  {
    block in FetchedBy(c, f) && block in FetchedBy(c, g)
  }

  lemma MeetIff(c: Settings, f: Fetch, g: Fetch)
    requires c.maxBlockCount > 0
    ensures Meet(c, f, g) <==> exists block: nat :: Common(c, f, g, block)
  {
    if Meet(c, f, g) {
      var block := if f.latest < g.latest then f.latest else g.latest;
      FetchedIff(c, f, block);
      FetchedIff(c, g, block);
      assert Common(c, f, g, block);
    }
    forall block: nat | Common(c, f, g, block)
      ensures Meet(c, f, g)
    {
      FetchedIff(c, f, block);
      FetchedIff(c, g, block);
    }
  }

  // No block has been put in by two updates.
  ghost predicate PutInOnce(c: Settings, ended: seq<Fetch>)
    requires c.maxBlockCount > 0
  {
    forall j, k, block: nat :: 0 <= j < k < |ended| ==> !Common(c, ended[j], ended[k], block)
  }

  ghost predicate MeetsEnded(c: Settings, s: Shared, f: Fetch)
    requires c.maxBlockCount > 0
  {
    exists j :: 0 <= j < |s.ended| && Meet(c, s.ended[j], f)
  }

  // The end of an update puts a block in again if and only if its range meets that of an update that
  // has ended.
  lemma PutsInAgainIff(c: Settings, ended: seq<Fetch>, f: Fetch)
    requires c.maxBlockCount > 0 && PutInOnce(c, ended)
    ensures PutInOnce(c, ended + [f]) <==> forall j :: 0 <= j < |ended| ==> !Meet(c, ended[j], f)
  {
    var more := ended + [f];
    forall j | 0 <= j < |ended|
      ensures Meet(c, ended[j], f) <==> exists block: nat :: Common(c, ended[j], f, block)
    {
      MeetIff(c, ended[j], f);
    }
    if j :| 0 <= j < |ended| && Meet(c, ended[j], f) {
      var block: nat :| Common(c, ended[j], f, block);
      assert more[j] == ended[j] && more[|ended|] == f;
      assert Common(c, more[j], more[|ended|], block);
    }
    hide Common, Meet;
  }

  // At every time of a run no block has been put in twice.
  ghost predicate OnceThroughout(c: Settings, chain: Chain, s: Shared, ms: seq<Move>)
    requires c.maxBlockCount > 0 && ValidRun(c, chain, s, ms)
    decreases |ms|
  {
    PutInOnce(c, s.ended) && (ms == [] || OnceThroughout(c, chain, Apply(c, chain, s, ms[0]), ms[1..]))
  }

  ghost predicate NoneMeets(c: Settings, chain: Chain, s: Shared, ms: seq<Move>)
    requires c.maxBlockCount > 0 && ValidRun(c, chain, s, ms)
    decreases |ms|
  {
    ms == [] ||
    ((ms[0].End? ==> !MeetsEnded(c, s, s.fetching[ms[0].i])) && NoneMeets(c, chain, Apply(c, chain, s, ms[0]), ms[1..]))
  }

  lemma OnceStep(c: Settings, chain: Chain, s: Shared, m: Move)
    requires c.maxBlockCount > 0 && Enabled(s, m) && PutInOnce(c, s.ended)
    ensures PutInOnce(c, Apply(c, chain, s, m).ended) <==> (m.End? ==> !MeetsEnded(c, s, s.fetching[m.i]))
  {
    if m.End? {
      PutsInAgainIff(c, s.ended, s.fetching[m.i]);
    }
    hide PutInOnce, Meet;
  }

  lemma EnabledFirst(c: Settings, chain: Chain, s: Shared, ms: seq<Move>)
    requires c.maxBlockCount > 0 && ValidRun(c, chain, s, ms) && ms != []
    ensures Enabled(s, ms[0])
  {
  }

  lemma {:induction false} OnceFrom(c: Settings, chain: Chain, s: Shared, ms: seq<Move>)
    requires c.maxBlockCount > 0 && ValidRun(c, chain, s, ms) && PutInOnce(c, s.ended)
    ensures OnceThroughout(c, chain, s, ms) <==> NoneMeets(c, chain, s, ms)
    decreases |ms|
  {
    hide PutInOnce, MeetsEnded, Apply;
    if ms == [] {
    } else {
      EnabledFirst(c, chain, s, ms);
      OnceStep(c, chain, s, ms[0]);
      if PutInOnce(c, Apply(c, chain, s, ms[0]).ended) {
        OnceFrom(c, chain, Apply(c, chain, s, ms[0]), ms[1..]);
      }
    }
  }

  // Main result: over every run from an empty cache no block is ever put in twice if and only if no
  // update ends whose range meets that of one that ended before.
  lemma OnceThroughoutIff(c: Settings, chain: Chain, ms: seq<Move>)
    requires c.maxBlockCount > 0 && ValidRun(c, chain, START, ms)
    ensures OnceThroughout(c, chain, START, ms) <==> NoneMeets(c, chain, START, ms)
  {
    OnceFrom(c, chain, START, ms);
  }

  // ---- Undisturbed runs ----

  // No update ends in between another one's beginning and its end: the last block is the one it found.
  ghost predicate Undisturbed(c: Settings, chain: Chain, s: Shared, ms: seq<Move>)
    requires c.maxBlockCount > 0 && ValidRun(c, chain, s, ms)
    decreases |ms|
  {
    ms == [] ||
    ((ms[0].End? ==> s.fetching[ms[0].i].base == s.blocks.lastBlock)
     && Undisturbed(c, chain, Apply(c, chain, s, ms[0]), ms[1..]))
  }

  // One request, within the cache's limit, is enough for all the blocks since the last one.
  ghost predicate Short(c: Settings, f: Fetch) {
    f.latest - f.base <= Smaller(c.maxBlockCount, CacheSize(c))
  }

  ghost predicate AllShort(c: Settings, chain: Chain, s: Shared, ms: seq<Move>)
    requires c.maxBlockCount > 0 && ValidRun(c, chain, s, ms)
    decreases |ms|
  {
    ms == [] ||
    ((ms[0].End? ==> Short(c, s.fetching[ms[0].i])) && AllShort(c, chain, Apply(c, chain, s, ms[0]), ms[1..]))
  }

  ghost predicate FoundBefore(s: Shared, base: nat) {
    base == s.blocks.lastBlock || exists j :: 0 <= j < |s.ended| && s.ended[j].base == base
  }

  // Every update under way found the present last block, or one that an update since then moved on.
  ghost predicate Traced(c: Settings, s: Shared) {
    && Sound(c, s)
    && (forall j :: 0 <= j < |s.ended| ==> s.ended[j].latest <= s.blocks.lastBlock && Short(c, s.ended[j]))
    && (forall i :: 0 <= i < |s.fetching| ==> FoundBefore(s, s.fetching[i].base))
  }

  lemma FoundStill(c: Settings, chain: Chain, s: Shared, i: nat, base: nat)
    requires c.maxBlockCount > 0 && i < |s.fetching| && FoundBefore(s, base)
    requires s.fetching[i].base == s.blocks.lastBlock
    ensures FoundBefore(Apply(c, chain, s, End(i)), base)
  {
    hide PutIn;
    var t := Apply(c, chain, s, End(i));
    assert t.ended[|s.ended|].base == s.blocks.lastBlock;
    if base != s.blocks.lastBlock {
      var j :| 0 <= j < |s.ended| && s.ended[j].base == base;
      assert t.ended[j].base == base;
    }
  }

  lemma TracedStep(c: Settings, chain: Chain, s: Shared, m: Move)
    requires c.maxBlockCount > 0 && Enabled(s, m) && Traced(c, s)
    requires m.End? ==> s.fetching[m.i].base == s.blocks.lastBlock && Short(c, s.fetching[m.i])
    ensures Traced(c, Apply(c, chain, s, m))
  {
    SoundStep(c, chain, s, m);
    hide Sound, Sort, Fetched, Slide, Short;
    var t := Apply(c, chain, s, m);
    if m.End? {
      forall k | 0 <= k < |t.fetching|
        ensures FoundBefore(t, t.fetching[k].base)
      {
        FoundStill(c, chain, s, m.i, t.fetching[k].base);
      }
    } else {
      forall k | 0 <= k < |t.fetching|
        ensures FoundBefore(t, t.fetching[k].base)
      {
        assert FoundBefore(s, t.fetching[k].base);
      }
    }
  }

  lemma ShortOldest(c: Settings, f: Fetch, seen: nat)
    requires c.maxBlockCount > 0 && SoundFetch(c, f, seen) && Short(c, f)
    ensures f.total > 0 && Oldest(c, f) == f.base + 1
  {
    RequestsOverlapInOneBlock(f.latest, f.total, c.maxBlockCount);
    Division.CeilSmall(f.total, c.maxBlockCount);
  }

  // Two short updates that found the same last block both fetch the one after it.
  lemma SameBaseMeet(c: Settings, f: Fetch, g: Fetch, seen: nat)
    requires c.maxBlockCount > 0 && SoundFetch(c, f, seen) && SoundFetch(c, g, seen)
    requires Short(c, f) && Short(c, g) && f.base == g.base
    ensures Meet(c, f, g)
  {
    ShortOldest(c, f, seen);
    ShortOldest(c, g, seen);
  }

  lemma LaterBaseMeetsNot(c: Settings, g: Fetch, f: Fetch)
    requires c.maxBlockCount > 0 && g.latest <= f.base
    ensures !Meet(c, g, f)
  {
    if f.total > 0 {
      FetchedIff(c, f, 0);
    }
  }

  lemma MeetsIffDisturbed(c: Settings, s: Shared, i: nat)
    requires c.maxBlockCount > 0 && Traced(c, s) && i < |s.fetching| && Short(c, s.fetching[i])
    ensures MeetsEnded(c, s, s.fetching[i]) <==> s.fetching[i].base != s.blocks.lastBlock
  {
    var f := s.fetching[i];
    if f.base == s.blocks.lastBlock {
      forall j | 0 <= j < |s.ended|
        ensures !Meet(c, s.ended[j], f)
      {
        LaterBaseMeetsNot(c, s.ended[j], f);
      }
    } else {
      assert FoundBefore(s, f.base);
      var j :| 0 <= j < |s.ended| && s.ended[j].base == f.base;
      SameBaseMeet(c, s.ended[j], f, s.seen);
    }
  }

  lemma {:induction false} NoneMeetsFrom(c: Settings, chain: Chain, s: Shared, ms: seq<Move>)
    requires c.maxBlockCount > 0 && ValidRun(c, chain, s, ms) && AllShort(c, chain, s, ms) && Traced(c, s)
    ensures NoneMeets(c, chain, s, ms) <==> Undisturbed(c, chain, s, ms)
    decreases |ms|
  {
    hide Apply, Traced, MeetsEnded, Short;
    if ms == [] {
    } else {
      EnabledFirst(c, chain, s, ms);
      if ms[0].End? {
        assert Short(c, s.fetching[ms[0].i]);
        MeetsIffDisturbed(c, s, ms[0].i);
      }
      if ms[0].End? ==> s.fetching[ms[0].i].base == s.blocks.lastBlock {
        TracedStep(c, chain, s, ms[0]);
        NoneMeetsFrom(c, chain, Apply(c, chain, s, ms[0]), ms[1..]);
      }
    }
  }

  // Main result: as long as one request is enough for an update, no block is ever put in twice if and
  // only if no update ends in between another one's beginning and its end.
  lemma OnceIffUndisturbed(c: Settings, chain: Chain, ms: seq<Move>)
    requires c.maxBlockCount > 0 && ValidRun(c, chain, START, ms) && AllShort(c, chain, START, ms)
    ensures OnceThroughout(c, chain, START, ms) <==> Undisturbed(c, chain, START, ms)
  {
    OnceThroughoutIff(c, chain, ms);
    NoneMeetsFrom(c, chain, START, ms);
  }

  // ---- When the last block goes back ----

  // The last block is the newest one that an update put in.
  ghost predicate Newest(s: Shared) {
    && (forall j :: 0 <= j < |s.ended| ==> s.ended[j].latest <= s.blocks.lastBlock)
    && (s.ended == [] ==> s.blocks.lastBlock == 0)
    && (s.ended != [] ==> exists j :: 0 <= j < |s.ended| && s.ended[j].latest == s.blocks.lastBlock)
  }

  ghost predicate NewestThroughout(c: Settings, chain: Chain, s: Shared, ms: seq<Move>)
    requires c.maxBlockCount > 0 && ValidRun(c, chain, s, ms)
    decreases |ms|
  {
    Newest(s) && (ms == [] || NewestThroughout(c, chain, Apply(c, chain, s, ms[0]), ms[1..]))
  }

  ghost predicate NoneEndsLate(c: Settings, chain: Chain, s: Shared, ms: seq<Move>)
    requires c.maxBlockCount > 0 && ValidRun(c, chain, s, ms)
    decreases |ms|
  {
    ms == [] ||
    ((ms[0].End? ==> s.blocks.lastBlock <= s.fetching[ms[0].i].latest)
     && NoneEndsLate(c, chain, Apply(c, chain, s, ms[0]), ms[1..]))
  }

  lemma NewestStep(c: Settings, chain: Chain, s: Shared, m: Move)
    requires c.maxBlockCount > 0 && Enabled(s, m) && Newest(s)
    ensures Newest(Apply(c, chain, s, m)) <==> (m.End? ==> s.blocks.lastBlock <= s.fetching[m.i].latest)
  {
    hide Sort, Fetched, Slide;
    if m.End? {
      var t, f := Apply(c, chain, s, m), s.fetching[m.i];
      assert t.ended[|s.ended|] == f;
      if s.ended != [] {
        var j :| 0 <= j < |s.ended| && s.ended[j].latest == s.blocks.lastBlock;
        assert t.ended[j].latest == s.blocks.lastBlock;
      }
    }
  }

  // The last block is at every time the newest one put in if and only if no update ends after one that
  // reached further.
  lemma {:induction false} NewestFrom(c: Settings, chain: Chain, s: Shared, ms: seq<Move>)
    requires c.maxBlockCount > 0 && ValidRun(c, chain, s, ms) && Newest(s)
    ensures NewestThroughout(c, chain, s, ms) <==> NoneEndsLate(c, chain, s, ms)
    decreases |ms|
  {
    hide Apply, Newest;
    if ms == [] {
    } else {
      EnabledFirst(c, chain, s, ms);
      NewestStep(c, chain, s, ms[0]);
      if Newest(Apply(c, chain, s, ms[0])) {
        NewestFrom(c, chain, Apply(c, chain, s, ms[0]), ms[1..]);
      }
    }
  }

  lemma NewestThroughoutIff(c: Settings, chain: Chain, ms: seq<Move>)
    requires c.maxBlockCount > 0 && ValidRun(c, chain, START, ms)
    ensures NewestThroughout(c, chain, START, ms) <==> NoneEndsLate(c, chain, START, ms)
  {
    NewestFrom(c, chain, START, ms);
  }

  // ---- Runs that are sequential ----

  // As many entries are due at the end of each update as it fetched.
  ghost predicate AlwaysStillDue(c: Settings, chain: Chain, s: Shared, ms: seq<Move>)
    requires c.maxBlockCount > 0 && ValidRun(c, chain, s, ms)
    decreases |ms|
  {
    ms == [] ||
    ((ms[0].End? ==> StillDue(c, s.blocks.lastBlock, s.fetching[ms[0].i]))
     && AlwaysStillDue(c, chain, Apply(c, chain, s, ms[0]), ms[1..]))
  }

  // Each update takes place at its end.
  ghost function InOrder(c: Settings, chain: Chain, s: Shared, ms: seq<Move>): seq<Event>
    requires c.maxBlockCount > 0 && ValidRun(c, chain, s, ms)
    decreases |ms|
  {
    if ms == [] then []
    else
      var rest := InOrder(c, chain, Apply(c, chain, s, ms[0]), ms[1..]);
      match ms[0]
      case End(i) => [Update(s.fetching[i].latest)] + rest
      case Sorted => [Query] + rest
      case _ => rest
  }

  lemma RunNone(c: Settings, chain: Chain, b: Blocks)
    requires c.maxBlockCount > 0
    ensures BlockRun(c, chain, b, []) == b
  {
  }

  lemma RunMore(c: Settings, chain: Chain, b: Blocks, e: Event, es: seq<Event>)
    requires c.maxBlockCount > 0
    ensures BlockRun(c, chain, b, [e] + es) == BlockRun(c, chain, BlockStep(c, chain, b, e), es)
  {
    assert ([e] + es)[1..] == es;
  }

  lemma EndIsUpdate(c: Settings, chain: Chain, s: Shared, i: nat)
    requires c.maxBlockCount > 0 && i < |s.fetching| && StillDue(c, s.blocks.lastBlock, s.fetching[i])
    ensures Apply(c, chain, s, End(i)).blocks == BlockStep(c, chain, s.blocks, Update(s.fetching[i].latest))
  {
    hide Fetched;
  }

  // Then the cache is that of a run of updates one after another.
  lemma {:induction false} SequentialIfStillDue(c: Settings, chain: Chain, s: Shared, ms: seq<Move>)
    requires c.maxBlockCount > 0 && ValidRun(c, chain, s, ms) && AlwaysStillDue(c, chain, s, ms)
    ensures After(c, chain, s, ms).blocks == BlockRun(c, chain, s.blocks, InOrder(c, chain, s, ms))
    decreases |ms|
  {
    hide BlockRun, BlockStep, StillDue;
    if ms == [] {
      assert InOrder(c, chain, s, ms) == [];
      RunNone(c, chain, s.blocks);
    } else {
      var t := Apply(c, chain, s, ms[0]);
      var rest := InOrder(c, chain, t, ms[1..]);
      SequentialIfStillDue(c, chain, t, ms[1..]);
      match ms[0]
      case End(i) =>
        EndIsUpdate(c, chain, s, i);
        RunMore(c, chain, s.blocks, Update(s.fetching[i].latest), rest);
      case Sorted =>
        QueryIs(c, chain, s.blocks);
        RunMore(c, chain, s.blocks, Query, rest);
      case _ =>
    }
  }

  lemma {:induction false} UndisturbedStillDue(c: Settings, chain: Chain, s: Shared, ms: seq<Move>)
    requires c.maxBlockCount > 0 && ValidRun(c, chain, s, ms) && Sound(c, s) && Undisturbed(c, chain, s, ms)
    ensures AlwaysStillDue(c, chain, s, ms)
    decreases |ms|
  {
    hide Apply, StillDue;
    if ms == [] {
    } else {
      EnabledFirst(c, chain, s, ms);
      SoundStep(c, chain, s, ms[0]);
      if ms[0].End? {
        ActsAloneIff(c, chain, s.blocks.lastBlock, s.fetching[ms[0].i], s.seen);
      }
      UndisturbedStillDue(c, chain, Apply(c, chain, s, ms[0]), ms[1..]);
    }
  }

  // An undisturbed run leaves the cache of its updates and queries one after another.
  lemma UndisturbedIsSequential(c: Settings, chain: Chain, ms: seq<Move>)
    requires c.maxBlockCount > 0 && ValidRun(c, chain, START, ms) && Undisturbed(c, chain, START, ms)
    ensures After(c, chain, START, ms).blocks == BlockRun(c, chain, NONE, InOrder(c, chain, START, ms))
  {
    UndisturbedStillDue(c, chain, START, ms);
    SequentialIfStillDue(c, chain, START, ms);
  }

  // ---- Which entries the end of an update drops ----

  // A percentile and then the end of an update, at any time of any run: what is left of the old
  // entries is exactly the newest ones if and only if the oldest are the cheapest and equally cheap
  // ones on both sides of the cut are in the order of their age.
  lemma EndDropsOldestIff(c: Settings, chain: Chain, s: Shared, i: nat)
    requires c.maxBlockCount > 0 && i < |s.fetching|
    ensures var sorted := Apply(c, chain, s, Sorted);
      var n, t := Smaller(s.fetching[i].total, |s.blocks.cache|), Apply(c, chain, sorted, End(i)).blocks.cache;
      && |sorted.blocks.cache| == |s.blocks.cache| && |s.blocks.cache| - n <= |t|
      && (multiset(t[..|s.blocks.cache| - n]) == multiset(ByAge(s.blocks)[n..]) <==>
          FirstAreCheaper(chain, ByAge(s.blocks), n) && TiesAtCut(chain, sorted.blocks.cache, n))
  {
    var f, sorted := s.fetching[i], Sort(s.blocks.cache, FeeOf(chain));
    var n := Smaller(f.total, |s.blocks.cache|);
    CutsOldestIff(chain, s.blocks, n);
    SlideIs(sorted, FetchedBy(c, f));
    LeftAre(sorted, FetchedBy(c, f), n);
    hide Sort, Fetched, Slide, ByAge, FirstAreCheaper, TiesAtCut;
  }
}
