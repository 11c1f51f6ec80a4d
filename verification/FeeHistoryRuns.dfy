/** The gas fee cache over updates one after another. Its entries are followed by their block numbers:
    which blocks an update drops. */
module FeeHistoryRuns {
  import opened Sorting
  import opened FeeHistory

  // ---- The cache by block numbers ----

  // The cache with the block of each entry in place of its fee.
  datatype Blocks = Blocks(cache: seq<nat>, lastBlock: nat)

  const NONE := Blocks([], 0)

  function FeeOf(chain: Chain): nat -> int {
    (block: nat) => chain.baseFee(block)
  }

  ghost function BlockStep(c: Settings, chain: Chain, b: Blocks, e: Event): Blocks
    requires c.maxBlockCount > 0
  {
    match e
    case Query => b.(cache := Sort(b.cache, FeeOf(chain)))
    case Update(latest) =>
      if latest - b.lastBlock < BLOCKS_PER_HOUR then b
      else Blocks(Slide(b.cache, Fetched(latest, Smaller(latest - b.lastBlock, CacheSize(c)), c.maxBlockCount)), latest)
  }

  ghost function Run(c: Settings, chain: Chain, h: History, es: seq<Event>): History
    requires c.maxBlockCount > 0
    decreases |es|
  {
    if es == [] then h else Run(c, chain, Step(c, chain, h, es[0]), es[1..])
  }

  ghost function BlockRun(c: Settings, chain: Chain, b: Blocks, es: seq<Event>): Blocks
    requires c.maxBlockCount > 0
    decreases |es|
  {
    if es == [] then b else BlockRun(c, chain, BlockStep(c, chain, b, es[0]), es[1..])
  }

  ghost function ToFees(chain: Chain, b: Blocks): History {
    History(FeesOf(chain, b.cache), b.lastBlock)
  }

  lemma {:induction false} FeesAt(chain: Chain, blocks: seq<nat>, i: nat)
    requires i < |blocks|
    ensures FeesOf(chain, blocks)[i] == chain.baseFee(blocks[i])
    decreases |blocks|
  {
    if i == |blocks| - 1 {
    } else {
      FeesAt(chain, blocks[..|blocks| - 1], i);
    }
  }

  lemma {:induction false} InsertFees(chain: Chain, s: seq<nat>, x: nat)
    ensures Insert(FeesOf(chain, s), chain.baseFee(x), Amount()) == FeesOf(chain, Insert(s, x, FeeOf(chain)))
    decreases |s|
  {
    if s == [] {
    } else {
      var init, last := s[..|s| - 1], s[|s| - 1];
      assert FeesOf(chain, s)[..|s| - 1] == FeesOf(chain, init);
      if FeeOf(chain)(last) <= FeeOf(chain)(x) {
        assert (s + [x])[..|s|] == s;
      } else {
        InsertFees(chain, init, x);
        assert (Insert(init, x, FeeOf(chain)) + [last])[..|s|] == Insert(init, x, FeeOf(chain));
      }
    }
  }

  lemma {:induction false} SortFeesOf(chain: Chain, s: seq<nat>)
    ensures SortFees(FeesOf(chain, s)) == FeesOf(chain, Sort(s, FeeOf(chain)))
    decreases |s|
  {
    if s == [] {
    } else {
      var init := s[..|s| - 1];
      assert FeesOf(chain, s)[..|s| - 1] == FeesOf(chain, init);
      SortFeesOf(chain, init);
      InsertFees(chain, Sort(init, FeeOf(chain)), s[|s| - 1]);
    }
  }

  lemma FeesOfRest(chain: Chain, s: seq<nat>, n: nat)
    requires n <= |s|
    ensures FeesOf(chain, s[n..]) == FeesOf(chain, s)[n..]
  {
    assert s == s[..n] + s[n..];
    FeesOfBoth(chain, s[..n], s[n..]);
  }

  lemma FeesOfNone(chain: Chain)
    ensures FeesOf(chain, []) == []
  {
  }

  lemma StepByBlocks(c: Settings, chain: Chain, b: Blocks, e: Event)
    requires c.maxBlockCount > 0
    ensures Step(c, chain, ToFees(chain, b), e) == ToFees(chain, BlockStep(c, chain, b, e))
  {
    hide FeesOf, Fetched, Sort;
    if e.Query? {
      SortFeesOf(chain, b.cache);
    } else if e.latest - b.lastBlock >= BLOCKS_PER_HOUR {
      var more := Fetched(e.latest, Smaller(e.latest - b.lastBlock, CacheSize(c)), c.maxBlockCount);
      var kept := if |b.cache| > |more| then b.cache[|more|..] else [];
      FeesOfBoth(chain, kept, more);
      FeesOfNone(chain);
      if |b.cache| > |more| {
        FeesOfRest(chain, b.cache, |more|);
      }
    }
  }

  // The cache holds the fees of the blocks followed.
  lemma {:induction false} RunByBlocks(c: Settings, chain: Chain, b: Blocks, es: seq<Event>)
    requires c.maxBlockCount > 0
    ensures Run(c, chain, ToFees(chain, b), es) == ToFees(chain, BlockRun(c, chain, b, es))
    decreases |es|
  {
    hide Step, BlockStep, ToFees;
    if es == [] {
    } else {
      StepByBlocks(c, chain, b, es[0]);
      RunByBlocks(c, chain, BlockStep(c, chain, b, es[0]), es[1..]);
    }
  }

  // ---- The order of the cache ----

  // Cheaper blocks first, of equally cheap ones the older first.
  function CheaperOrOlder(chain: Chain): (nat, nat) -> bool {
    (a: nat, b: nat) => chain.baseFee(a) < chain.baseFee(b) || (chain.baseFee(a) == chain.baseFee(b) && a <= b)
  }

  function Older(): (nat, nat) -> bool {
    (a: nat, b: nat) => a <= b
  }

  function Number(): nat -> int {
    (block: nat) => block
  }

  // Equally cheap blocks are in their own order.
  ghost predicate TiesByAge(chain: Chain, s: seq<nat>) {
    forall i, j :: 0 <= i < j < |s| && chain.baseFee(s[i]) == chain.baseFee(s[j]) ==> s[i] <= s[j]
  }

  ghost predicate BlockInv(chain: Chain, b: Blocks) {
    TiesByAge(chain, b.cache) && forall i :: 0 <= i < |b.cache| ==> b.cache[i] <= b.lastBlock
  }

  ghost predicate Within(s: seq<nat>, low: int, high: int) {
    forall i :: 0 <= i < |s| ==> low <= s[i] <= high
  }

  lemma JoinOrdered(a: seq<nat>, b: seq<nat>, low: int, middle: int, high: int)
    requires Ordered(a, Older()) && Ordered(b, Older()) && low <= middle <= high
    requires Within(a, low, middle) && Within(b, middle, high)
    ensures Ordered(a + b, Older()) && Within(a + b, low, high)
  {
  }

  lemma {:induction false} RangeInOrder(oldest: nat, count: nat)
    ensures Ordered(Range(oldest, count), Older()) && Within(Range(oldest, count), oldest, oldest + count - 1)
    decreases count
  {
    if count == 0 {
    } else {
      RangeInOrder(oldest, count - 1);
    }
  }

  // What is fetched is in block order, from blocks after the last update on.
  lemma {:induction false} FetchedInOrder(latest: nat, total: nat, max: nat)
    requires total <= latest && max > 0
    ensures Ordered(Fetched(latest, total, max), Older())
    ensures Within(Fetched(latest, total, max), latest - total + 1, latest)
    decreases total
  {
    if total == 0 {
    } else {
      var count := Smaller(total, max);
      var oldest := latest - (count - 1);
      var before, range := Fetched(oldest, total - count, max), Range(oldest, count);
      assert Fetched(latest, total, max) == before + range;
      FetchedInOrder(oldest, total - count, max);
      RangeInOrder(oldest, count);
      assert Within(before, latest - total + 1, oldest);
      hide Fetched, Range, Ordered, Older, Within;
      JoinOrdered(before, range, latest - total + 1, oldest, latest);
    }
  }

  lemma {:induction false} InsertInOrder(chain: Chain, s: seq<nat>, x: nat)
    requires Ordered(s, CheaperOrOlder(chain))
    requires forall y :: y in s && chain.baseFee(y) == chain.baseFee(x) ==> y <= x
    ensures Ordered(Insert(s, x, FeeOf(chain)), CheaperOrOlder(chain))
    decreases |s|
  {
    if s == [] {
    } else {
      var init, last := s[..|s| - 1], s[|s| - 1];
      if FeeOf(chain)(last) <= FeeOf(chain)(x) {
        forall i | 0 <= i < |s|
          ensures CheaperOrOlder(chain)(s[i], x)
        {
          assert s[i] in s && (i < |s| - 1 ==> CheaperOrOlder(chain)(s[i], last));
        }
      } else {
        InsertInOrder(chain, init, x);
        InsertElems(init, x, FeeOf(chain));
        var r := Insert(init, x, FeeOf(chain));
        forall i | 0 <= i < |r|
          ensures CheaperOrOlder(chain)(r[i], last)
        {
          assert r[i] in r;
        }
      }
    }
  }

  // Sorting by fee leaves equally cheap blocks in their order.
  lemma {:induction false} SortInOrder(chain: Chain, s: seq<nat>)
    requires TiesByAge(chain, s)
    ensures Ordered(Sort(s, FeeOf(chain)), CheaperOrOlder(chain))
    decreases |s|
  {
    if s == [] {
    } else {
      var init, last := s[..|s| - 1], s[|s| - 1];
      SortInOrder(chain, init);
      SortIs(init, FeeOf(chain));
      forall y | y in Sort(init, FeeOf(chain)) && chain.baseFee(y) == chain.baseFee(last)
        ensures y <= last
      {
        assert y in multiset(init);
        var i :| 0 <= i < |init| && init[i] == y;
        assert s[i] == y;
      }
      InsertInOrder(chain, Sort(init, FeeOf(chain)), last);
    }
  }

  lemma OrderedTies(chain: Chain, s: seq<nat>)
    requires Ordered(s, CheaperOrOlder(chain)) || Ordered(s, Older())
    ensures TiesByAge(chain, s)
  {
    forall i, j | 0 <= i < j < |s| && chain.baseFee(s[i]) == chain.baseFee(s[j])
      ensures s[i] <= s[j]
    {
      assert Ordered(s, Older()) ==> Older()(s[i], s[j]);
      assert Ordered(s, CheaperOrOlder(chain)) ==> CheaperOrOlder(chain)(s[i], s[j]);
    }
  }

  lemma JoinTies(chain: Chain, a: seq<nat>, b: seq<nat>, last: int, latest: int)
    requires TiesByAge(chain, a) && TiesByAge(chain, b) && last <= latest
    requires Within(a, 0, last) && Within(b, last, latest)
    ensures TiesByAge(chain, a + b) && Within(a + b, 0, latest)
  {
  }

  lemma SortedCache(chain: Chain, b: Blocks)
    requires BlockInv(chain, b)
    ensures var sorted := Sort(b.cache, FeeOf(chain));
      && |sorted| == |b.cache| && multiset(sorted) == multiset(b.cache) && Ordered(sorted, CheaperOrOlder(chain))
      && forall i :: 0 <= i < |sorted| ==> sorted[i] <= b.lastBlock
  {
    SortInOrder(chain, b.cache);
    SortIs(b.cache, FeeOf(chain));
    hide Sort, Ordered, TiesByAge;
    var sorted := Sort(b.cache, FeeOf(chain));
    forall i | 0 <= i < |sorted|
      ensures sorted[i] <= b.lastBlock
    {
      assert sorted[i] in multiset(b.cache);
    }
  }

  lemma QueryKeepsInv(chain: Chain, b: Blocks)
    requires BlockInv(chain, b)
    ensures BlockInv(chain, b.(cache := Sort(b.cache, FeeOf(chain))))
  {
    SortedCache(chain, b);
    OrderedTies(chain, Sort(b.cache, FeeOf(chain)));
    hide Sort, Ordered, TiesByAge;
  }

  lemma UpdateKeepsInv(chain: Chain, b: Blocks, latest: nat, total: nat, max: nat)
    requires BlockInv(chain, b) && total <= latest - b.lastBlock && max > 0
    ensures BlockInv(chain, Blocks(Slide(b.cache, Fetched(latest, total, max)), latest))
  {
    var more := Fetched(latest, total, max);
    FetchedInOrder(latest, total, max);
    OrderedTies(chain, more);
    hide Fetched, Ordered;
    assert Within(more, b.lastBlock, latest);
    var kept := if |b.cache| > |more| then b.cache[|more|..] else [];
    assert TiesByAge(chain, kept) && Within(kept, 0, b.lastBlock);
    hide TiesByAge;
    JoinTies(chain, kept, more, b.lastBlock, latest);
  }

  lemma BlockInvStep(c: Settings, chain: Chain, b: Blocks, e: Event)
    requires c.maxBlockCount > 0 && BlockInv(chain, b)
    ensures BlockInv(chain, BlockStep(c, chain, b, e))
  {
    hide BlockInv;
    match e
    case Query => QueryKeepsInv(chain, b);
    case Update(latest) =>
      if latest - b.lastBlock >= BLOCKS_PER_HOUR {
        UpdateKeepsInv(chain, b, latest, Smaller(latest - b.lastBlock, CacheSize(c)), c.maxBlockCount);
      }
  }

  lemma {:induction false} BlockInvRun(c: Settings, chain: Chain, b: Blocks, es: seq<Event>)
    requires c.maxBlockCount > 0 && BlockInv(chain, b)
    ensures BlockInv(chain, BlockRun(c, chain, b, es))
    decreases |es|
  {
    hide BlockInv, BlockStep;
    if es == [] {
    } else {
      BlockInvStep(c, chain, b, es[0]);
      BlockInvRun(c, chain, BlockStep(c, chain, b, es[0]), es[1..]);
    }
  }

  // ---- Which blocks an update drops ----

  // Each of the first n fees is at most each of the others.
  ghost predicate FirstAreCheaper(chain: Chain, s: seq<nat>, n: nat)
    requires n <= |s|
  {
    forall i, j :: 0 <= i < n <= j < |s| ==> chain.baseFee(s[i]) <= chain.baseFee(s[j])
  }

  lemma SameOther(a: multiset<nat>, b: multiset<nat>, c: multiset<nat>, d: multiset<nat>)
    requires a + b == c + d && a == c
    ensures b == d
  {
    assert b == (a + b) - a && d == (c + d) - c;
  }

  lemma SameRest(a: seq<nat>, b: seq<nat>, n: nat)
    requires n <= |a| == |b| && multiset(a) == multiset(b)
    ensures multiset(a[..n]) == multiset(b[..n]) <==> multiset(a[n..]) == multiset(b[n..])
  {
    var first, rest, first', rest' := multiset(a[..n]), multiset(a[n..]), multiset(b[..n]), multiset(b[n..]);
    assert first + rest == first' + rest' by {
      assert a == a[..n] + a[n..] && b == b[..n] + b[n..];
    }
    if first == first' {
      SameOther(first, rest, first', rest');
    }
    if rest == rest' {
      assert rest + first == first + rest && rest' + first' == first' + rest';
      SameOther(rest, first, rest', first');
    }
  }

  lemma CheaperIfDropped(chain: Chain, sorted: seq<nat>, byAge: seq<nat>, n: nat)
    requires n <= |sorted| == |byAge| && multiset(sorted) == multiset(byAge)
    requires Ascending(sorted, FeeOf(chain)) && multiset(sorted[..n]) == multiset(byAge[..n])
    ensures FirstAreCheaper(chain, byAge, n)
  {
    SameRest(sorted, byAge, n);
    forall i, j | 0 <= i < n <= j < |byAge|
      ensures chain.baseFee(byAge[i]) <= chain.baseFee(byAge[j])
    {
      assert byAge[i] in byAge[..n] && byAge[j] in byAge[n..];
      assert byAge[i] in multiset(sorted[..n]) && byAge[j] in multiset(sorted[n..]);
      var k :| 0 <= k < n && sorted[k] == byAge[i];
      var l :| n <= l < |sorted| && sorted[l] == byAge[j];
      assert FeeOf(chain)(sorted[k]) <= FeeOf(chain)(sorted[l]);
    }
  }

  // Of equally cheap entries none before position n is newer than one from there on.
  ghost predicate TiesAtCut(chain: Chain, s: seq<nat>, n: nat)
    requires n <= |s|
  {
    forall i, j :: 0 <= i < n <= j < |s| && chain.baseFee(s[i]) == chain.baseFee(s[j]) ==> s[i] <= s[j]
  }

  lemma OlderIfDropped(chain: Chain, sorted: seq<nat>, byAge: seq<nat>, n: nat)
    requires n <= |sorted| == |byAge| && multiset(sorted) == multiset(byAge)
    requires Ordered(byAge, Older()) && multiset(sorted[..n]) == multiset(byAge[..n])
    ensures TiesAtCut(chain, sorted, n)
  {
    SameRest(sorted, byAge, n);
    forall i, j | 0 <= i < n <= j < |sorted|
      ensures sorted[i] <= sorted[j]
    {
      assert sorted[i] in sorted[..n] && sorted[j] in sorted[n..];
      assert sorted[i] in multiset(byAge[..n]) && sorted[j] in multiset(byAge[n..]);
      var k :| 0 <= k < n && byAge[k] == sorted[i];
      var l :| n <= l < |byAge| && byAge[l] == sorted[j];
      assert Older()(byAge[k], byAge[l]);
    }
  }

  lemma ConcatOrdered(a: seq<nat>, b: seq<nat>, le: (nat, nat) -> bool)
    requires Ordered(a, le) && Ordered(b, le) && forall x, y :: x in a && y in b ==> le(x, y)
    ensures Ordered(a + b, le)
  {
    assert forall i :: 0 <= i < |a| ==> a[i] in a;
    assert forall i :: 0 <= i < |b| ==> b[i] in b;
  }

  // Parts of a sequence of blocks in their order, each sorted by fee.
  lemma PartInOrder(chain: Chain, part: seq<nat>)
    requires Ordered(part, Older())
    ensures Ordered(Sort(part, FeeOf(chain)), CheaperOrOlder(chain))
    ensures multiset(Sort(part, FeeOf(chain))) == multiset(part)
  {
    OrderedTies(chain, part);
    SortInOrder(chain, part);
    SortIs(part, FeeOf(chain));
  }

  lemma CheaperAcross(chain: Chain, byAge: seq<nat>, n: nat, x: nat, y: nat)
    requires n <= |byAge| && Ordered(byAge, Older()) && FirstAreCheaper(chain, byAge, n)
    requires x in multiset(byAge[..n]) && y in multiset(byAge[n..])
    ensures CheaperOrOlder(chain)(x, y)
  {
    var i :| 0 <= i < n && byAge[i] == x;
    var j :| n <= j < |byAge| && byAge[j] == y;
    assert Older()(byAge[i], byAge[j]);
  }

  lemma SortedAre(chain: Chain, first: seq<nat>, others: seq<nat>, sorted: seq<nat>, byAge: seq<nat>, n: nat)
    requires n <= |byAge| && multiset(sorted) == multiset(byAge) && |first| == n
    requires multiset(first) == multiset(byAge[..n]) && multiset(others) == multiset(byAge[n..])
    requires Ordered(sorted, CheaperOrOlder(chain)) && Ordered(first + others, CheaperOrOlder(chain))
    ensures n <= |sorted| && multiset(sorted[..n]) == multiset(byAge[..n])
  {
    assert byAge == byAge[..n] + byAge[n..];
    OrderedUnique(first + others, sorted, CheaperOrOlder(chain));
    assert sorted[..n] == first;
  }

  lemma DroppedIfCheaper(chain: Chain, sorted: seq<nat>, byAge: seq<nat>, n: nat)
    requires n <= |byAge| && multiset(sorted) == multiset(byAge)
    requires Ordered(sorted, CheaperOrOlder(chain)) && Ordered(byAge, Older())
    requires FirstAreCheaper(chain, byAge, n)
    ensures n <= |sorted| && multiset(sorted[..n]) == multiset(byAge[..n])
  {
    var first, others := Sort(byAge[..n], FeeOf(chain)), Sort(byAge[n..], FeeOf(chain));
    PartInOrder(chain, byAge[..n]);
    PartInOrder(chain, byAge[n..]);
    hide Sort, FirstAreCheaper, CheaperOrOlder;
    forall x, y | x in first && y in others
      ensures CheaperOrOlder(chain)(x, y)
    {
      assert x in multiset(first) && y in multiset(others);
      CheaperAcross(chain, byAge, n, x, y);
    }
    ConcatOrdered(first, others, CheaperOrOlder(chain));
    SortedAre(chain, first, others, sorted, byAge, n);
  }

  // The cached blocks, oldest first.
  ghost function ByAge(b: Blocks): (blocks: seq<nat>)
    ensures |blocks| == |b.cache|
  {
    Sort(b.cache, Number())
  }

  lemma ByAgeIs(b: Blocks)
    ensures |ByAge(b)| == |b.cache| && multiset(ByAge(b)) == multiset(b.cache) && Ordered(ByAge(b), Older())
  {
    SortIs(b.cache, Number());
    forall i, j | 0 <= i < j < |b.cache|
      ensures Older()(ByAge(b)[i], ByAge(b)[j])
    {
      assert Number()(ByAge(b)[i]) <= Number()(ByAge(b)[j]);
    }
  }

  lemma AcrossCut(chain: Chain, sorted: seq<nat>, n: nat, x: nat, y: nat)
    requires n <= |sorted| && Ascending(sorted, FeeOf(chain)) && TiesAtCut(chain, sorted, n)
    requires x in multiset(sorted[..n]) && y in multiset(sorted[n..])
    ensures CheaperOrOlder(chain)(x, y)
  {
    var i :| 0 <= i < n && sorted[i] == x;
    var j :| n <= j < |sorted| && sorted[j] == y;
    assert FeeOf(chain)(sorted[i]) <= FeeOf(chain)(sorted[j]);
  }

  // A part of the cache in the order of fee and age.
  ghost function SideInOrder(chain: Chain, part: seq<nat>): seq<nat> {
    Sort(ByAge(Blocks(part, 0)), FeeOf(chain))
  }

  lemma SideIs(chain: Chain, part: seq<nat>)
    ensures var s := SideInOrder(chain, part);
      |s| == |part| && multiset(s) == multiset(part) && Ordered(s, CheaperOrOlder(chain))
  {
    ByAgeIs(Blocks(part, 0));
    PartInOrder(chain, ByAge(Blocks(part, 0)));
  }

  lemma BothSides(first: seq<nat>, others: seq<nat>, sorted: seq<nat>, n: nat)
    requires n <= |sorted| && |first| == n && |others| == |sorted| - n
    requires multiset(first) == multiset(sorted[..n]) && multiset(others) == multiset(sorted[n..])
    ensures |first + others| == |sorted| && multiset(first + others) == multiset(sorted)
    ensures (first + others)[..n] == first
  {
    assert sorted == sorted[..n] + sorted[n..];
  }

  // Both sides of the cut, each put in the order of fee and age.
  lemma SidesInOrder(chain: Chain, sorted: seq<nat>, n: nat) returns (all: seq<nat>)
    requires n <= |sorted| && Ascending(sorted, FeeOf(chain)) && TiesAtCut(chain, sorted, n)
    ensures |all| == |sorted| && multiset(all) == multiset(sorted) && Ordered(all, CheaperOrOlder(chain))
    ensures multiset(all[..n]) == multiset(sorted[..n])
  {
    var first, others := SideInOrder(chain, sorted[..n]), SideInOrder(chain, sorted[n..]);
    SideIs(chain, sorted[..n]);
    SideIs(chain, sorted[n..]);
    all := first + others;
    hide *;
    forall x, y | x in first && y in others
      ensures CheaperOrOlder(chain)(x, y)
    {
      assert x in multiset(first) && y in multiset(others);
      AcrossCut(chain, sorted, n, x, y);
    }
    ConcatOrdered(first, others, CheaperOrOlder(chain));
    BothSides(first, others, sorted, n);
  }

  // Whatever the cache holds and in whatever order: after a query, cutting the first n entries leaves
  // exactly the newest ones if and only if the n oldest blocks are the cheapest, and entries of the same
  // fee on both sides of the cut are in the order of their age.
  lemma CutsOldestIff(chain: Chain, b: Blocks, n: nat)
    requires n <= |b.cache|
    ensures var sorted := Sort(b.cache, FeeOf(chain));
      multiset(sorted[n..]) == multiset(ByAge(b)[n..]) <==>
      FirstAreCheaper(chain, ByAge(b), n) && TiesAtCut(chain, sorted, n)
  {
    var sorted, byAge := Sort(b.cache, FeeOf(chain)), ByAge(b);
    SortIs(b.cache, FeeOf(chain));
    ByAgeIs(b);
    hide Sort, ByAge, Older, FeeOf, CheaperOrOlder, Ascending, Ordered, TiesAtCut, FirstAreCheaper;
    SameRest(sorted, byAge, n);
    if multiset(sorted[..n]) == multiset(byAge[..n]) {
      CheaperIfDropped(chain, sorted, byAge, n);
      OlderIfDropped(chain, sorted, byAge, n);
    }
    if FirstAreCheaper(chain, byAge, n) && TiesAtCut(chain, sorted, n) {
      var all := SidesInOrder(chain, sorted, n);
      DroppedIfCheaper(chain, all, byAge, n);
    }
  }

  // The number of entries an update drops.
  ghost function Dropped(c: Settings, b: Blocks, latest: nat): (n: nat)
    requires latest >= b.lastBlock
    ensures n <= |b.cache|
  {
    Smaller(Smaller(latest - b.lastBlock, CacheSize(c)), |b.cache|)
  }

  lemma SlideIs(cache: seq<nat>, more: seq<nat>)
    ensures Slide(cache, more) == cache[Smaller(|more|, |cache|)..] + more
  {
  }

  lemma QueryIs(c: Settings, chain: Chain, b: Blocks)
    requires c.maxBlockCount > 0
    ensures BlockStep(c, chain, b, Query) == b.(cache := Sort(b.cache, FeeOf(chain)))
  {
  }

  lemma UpdateIs(c: Settings, chain: Chain, b: Blocks, latest: nat)
    requires c.maxBlockCount > 0 && latest - b.lastBlock >= BLOCKS_PER_HOUR
    ensures BlockStep(c, chain, b, Update(latest)).cache ==
      b.cache[Dropped(c, b, latest)..] + Fetched(latest, Smaller(latest - b.lastBlock, CacheSize(c)), c.maxBlockCount)
  {
    hide Slide, Fetched;
    SlideIs(b.cache, Fetched(latest, Smaller(latest - b.lastBlock, CacheSize(c)), c.maxBlockCount));
  }

  lemma SameDropped(c: Settings, b: Blocks, latest: nat, sorted: seq<nat>)
    requires |sorted| == |b.cache| && latest >= b.lastBlock
    ensures Dropped(c, b.(cache := sorted), latest) == Dropped(c, b, latest)
  {
  }

  // A query and then an update.
  lemma QueryThenUpdate(c: Settings, chain: Chain, b: Blocks, latest: nat)
    requires c.maxBlockCount > 0 && BlockInv(chain, b) && latest - b.lastBlock >= BLOCKS_PER_HOUR
    ensures var q, n := BlockStep(c, chain, b, Query), Dropped(c, b, latest);
      && |q.cache| == |b.cache| && multiset(q.cache) == multiset(ByAge(b))
      && Ordered(q.cache, CheaperOrOlder(chain)) && Ordered(ByAge(b), Older())
      && BlockStep(c, chain, q, Update(latest)).cache ==
         q.cache[n..] + Fetched(latest, Smaller(latest - b.lastBlock, CacheSize(c)), c.maxBlockCount)
  {
    assert latest >= b.lastBlock;
    hide *;
    SortedCache(chain, b);
    ByAgeIs(b);
    QueryIs(c, chain, b);
    var q := BlockStep(c, chain, b, Query);
    UpdateIs(c, chain, q, latest);
    SameDropped(c, b, latest, q.cache);
  }

  // After a query and an update the old entries that are left are exactly the newest ones.
  ghost predicate DropsOldest(c: Settings, chain: Chain, b: Blocks, latest: nat)
    requires c.maxBlockCount > 0 && latest >= b.lastBlock
  {
    var n, q := Dropped(c, b, latest), BlockStep(c, chain, b, Query);
    var t := BlockStep(c, chain, q, Update(latest)).cache;
    |b.cache| - n <= |t| && multiset(t[..|b.cache| - n]) == multiset(ByAge(b)[n..])
  }

  lemma LeftAre(sorted: seq<nat>, more: seq<nat>, n: nat)
    requires n <= |sorted|
    ensures (sorted[n..] + more)[..|sorted| - n] == sorted[n..]
  {
  }

  lemma OrderedAtCut(chain: Chain, s: seq<nat>, n: nat)
    requires n <= |s| && Ordered(s, CheaperOrOlder(chain))
    ensures TiesAtCut(chain, s, n)
  {
    forall i, j | 0 <= i < n <= j < |s| && chain.baseFee(s[i]) == chain.baseFee(s[j])
      ensures s[i] <= s[j]
    {
      assert CheaperOrOlder(chain)(s[i], s[j]);
    }
  }

  lemma DropsOldestFrom(c: Settings, chain: Chain, b: Blocks, latest: nat)
    requires c.maxBlockCount > 0 && BlockInv(chain, b) && latest - b.lastBlock >= BLOCKS_PER_HOUR
    ensures DropsOldest(c, chain, b, latest) <==> FirstAreCheaper(chain, ByAge(b), Dropped(c, b, latest))
  {
    QueryThenUpdate(c, chain, b, latest);
    QueryIs(c, chain, b);
    var sorted, n := BlockStep(c, chain, b, Query).cache, Dropped(c, b, latest);
    LeftAre(sorted, Fetched(latest, Smaller(latest - b.lastBlock, CacheSize(c)), c.maxBlockCount), n);
    hide Fetched, BlockStep, ByAge, Dropped, BlockInv, Ordered, FirstAreCheaper, TiesAtCut, Sort, CheaperOrOlder;
    CutsOldestIff(chain, b, n);
    OrderedAtCut(chain, sorted, n);
  }

  // Main result: at any time in any run from an empty cache, an update after a query drops exactly
  // its n oldest entries if and only if each of their fees is at most each other cached fee.
  lemma DropsOldestIff(c: Settings, chain: Chain, es: seq<Event>, latest: nat)
    requires c.maxBlockCount > 0
    requires latest - BlockRun(c, chain, NONE, es).lastBlock >= BLOCKS_PER_HOUR
    ensures var b := BlockRun(c, chain, NONE, es);
      DropsOldest(c, chain, b, latest) <==> FirstAreCheaper(chain, ByAge(b), Dropped(c, b, latest))
  {
    BlockInvRun(c, chain, NONE, es);
    DropsOldestFrom(c, chain, BlockRun(c, chain, NONE, es), latest);
  }

  ghost predicate Falling(chain: Chain, latest: nat) {
    forall x: nat, y: nat :: x < y <= latest ==> chain.baseFee(x) > chain.baseFee(y)
  }

  lemma OlderAcross(chain: Chain, sorted: seq<nat>, n: nat, x: nat, y: nat, latest: nat)
    requires n <= |sorted| && Ordered(sorted, CheaperOrOlder(chain))
    requires forall i :: 0 <= i < |sorted| ==> sorted[i] <= latest
    requires Falling(chain, latest)
    requires x in multiset(sorted[n..]) && y in multiset(sorted[..n])
    ensures Older()(x, y)
  {
    var i :| n <= i < |sorted| && sorted[i] == x;
    var j :| 0 <= j < n && sorted[j] == y;
    assert CheaperOrOlder(chain)(sorted[j], sorted[i]);
  }

  lemma OlderFirst(sorted: seq<nat>, n: nat, older: seq<nat>, newer: seq<nat>, byAge: seq<nat>)
    requires n <= |sorted| == |byAge| && multiset(sorted) == multiset(byAge) && |older| == |sorted| - n
    requires multiset(older) == multiset(sorted[n..]) && multiset(newer) == multiset(sorted[..n])
    requires Ordered(older + newer, Older()) && Ordered(byAge, Older())
    ensures multiset(sorted[n..]) == multiset(byAge[..|byAge| - n])
  {
    assert sorted == sorted[..n] + sorted[n..];
    OrderedUnique(older + newer, byAge, Older());
    assert byAge[..|byAge| - n] == older;
  }

  lemma NewerAreCheaper(chain: Chain, sorted: seq<nat>, byAge: seq<nat>, n: nat, latest: nat)
    requires n <= |sorted| == |byAge| && multiset(sorted) == multiset(byAge)
    requires Ordered(sorted, CheaperOrOlder(chain)) && Ordered(byAge, Older())
    requires forall i :: 0 <= i < |sorted| ==> sorted[i] <= latest
    requires Falling(chain, latest)
    ensures multiset(sorted[n..]) == multiset(byAge[..|byAge| - n])
  {
    var newer, older := Blocks(sorted[..n], 0), Blocks(sorted[n..], 0);
    ByAgeIs(newer);
    ByAgeIs(older);
    hide ByAge, Older;
    forall x, y | x in ByAge(older) && y in ByAge(newer)
      ensures Older()(x, y)
    {
      assert x in multiset(sorted[n..]) && y in multiset(sorted[..n]);
      OlderAcross(chain, sorted, n, x, y, latest);
    }
    ConcatOrdered(ByAge(older), ByAge(newer), Older());
    OlderFirst(sorted, n, ByAge(older), ByAge(newer), byAge);
  }

  // The extreme case: while fees fall from block to block, the oldest entries are what is kept.
  lemma FallingFeesKeepTheOldest(c: Settings, chain: Chain, es: seq<Event>, latest: nat)
    requires c.maxBlockCount > 0
    requires latest - BlockRun(c, chain, NONE, es).lastBlock >= BLOCKS_PER_HOUR
    requires Falling(chain, latest)
    ensures var b := BlockRun(c, chain, NONE, es);
      var q, n := BlockStep(c, chain, b, Query), Dropped(c, b, latest);
      n <= |q.cache| == |ByAge(b)| && multiset(q.cache[n..]) == multiset(ByAge(b)[..|q.cache| - n])
  {
    var b := BlockRun(c, chain, NONE, es);
    BlockInvRun(c, chain, NONE, es);
    hide *;
    SortedCache(chain, b);
    QueryIs(c, chain, b);
    QueryThenUpdate(c, chain, b, latest);
    var q, n := BlockStep(c, chain, b, Query), Dropped(c, b, latest);
    NewerAreCheaper(chain, q.cache, ByAge(b), n, latest);
  }
}
