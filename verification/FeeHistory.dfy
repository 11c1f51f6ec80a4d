/** The gas fee history: fetching it in overlapping ranges, the cache, and the percentile test. */
module FeeHistory {
  import opened Wrappers
  import Division
  import opened Sorting

  const BLOCKS_PER_HOUR := 300

  const BLOCKS_PER_DAY := 7200

  // The base fee of each block.
  datatype Chain = Chain(baseFee: nat -> nat)

  datatype Request = Request(oldest: nat, newest: nat)

  datatype Settings = Settings(days: nat, maxBlockCount: nat)

  function CacheSize(c: Settings): nat {
    c.days * BLOCKS_PER_DAY
  }

  function Smaller(a: nat, b: nat): nat {
    if a < b then a else b
  }

  // ---- The ranges requested ----

  // The requests for `total` entries up to block `latest`, newest first, each of at most `max` blocks.
  function Requests(latest: nat, total: nat, max: nat): seq<Request>
    requires total <= latest && max > 0
    decreases total
  {
    if total == 0 then []
    else
      var count := Smaller(total, max);
      var oldest := latest - (count - 1);
      [Request(oldest, latest)] + Requests(oldest, total - count, max)
  }

  function Range(oldest: nat, count: nat): (blocks: seq<nat>)
    ensures |blocks| == count
  {
    if count == 0 then [] else Range(oldest, count - 1) + [oldest + count - 1]
  }

  function FeesOf(chain: Chain, blocks: seq<nat>): (fees: seq<nat>)
    ensures |fees| == |blocks|
  {
    if blocks == [] then []
    else FeesOf(chain, blocks[..|blocks| - 1]) + [chain.baseFee(blocks[|blocks| - 1])]
  }

  // The blocks whose fees are fetched, oldest first.
  function Fetched(latest: nat, total: nat, max: nat): (blocks: seq<nat>)
    requires total <= latest && max > 0
    ensures |blocks| == total
    decreases total
  {
    if total == 0 then []
    else
      var count := Smaller(total, max);
      var oldest := latest - (count - 1);
      Fetched(oldest, total - count, max) + Range(oldest, count)
  }

  // Ranges of at most `max` blocks, newest first, of which neighbours share exactly one block.
  ghost predicate Chained(rs: seq<Request>, max: nat) {
    && (forall j :: 0 <= j < |rs| ==> rs[j].oldest <= rs[j].newest < rs[j].oldest + max)
    && (forall j :: 0 <= j < |rs| - 1 ==> rs[j + 1].newest == rs[j].oldest)
  }

  lemma ChainedMore(r: Request, rs: seq<Request>, max: nat)
    requires Chained(rs, max) && r.oldest <= r.newest < r.oldest + max && (rs != [] ==> rs[0].newest == r.oldest)
    ensures Chained([r] + rs, max)
  {
    var all := [r] + rs;
    forall j | 0 <= j < |all| - 1
      ensures all[j + 1].newest == all[j].oldest
    {
      if j > 0 {
        assert all[j] == rs[j - 1] && all[j + 1] == rs[j];
      }
    }
  }

  // There are ceil(total / max) ranges and the first ends at the latest block. As many blocks, less
  // one, are fetched twice, so that the oldest block requested is that much later.
  lemma {:induction false} RequestsOverlapInOneBlock(latest: nat, total: nat, max: nat)
    requires 0 < total <= latest && max > 0
    ensures var rs := Requests(latest, total, max);
      && |rs| == (total + max - 1) / max && |rs| > 0
      && rs[0].newest == latest && rs[|rs| - 1].oldest == latest - total + |rs| && Chained(rs, max)
    decreases total
  {
    if total > max {
      var oldest := latest - (max - 1);
      RequestsOverlapInOneBlock(oldest, total - max, max);
      Division.CeilStep(total, max);
      ChainedMore(Request(oldest, latest), Requests(oldest, total - max, max), max);
    } else {
      Division.CeilSmall(total, max);
      assert Requests(latest, total, max) == [Request(latest - (total - 1), latest)];
    }
  }

  // The blocks of a list of requests, put together oldest first.
  ghost function Answers(rs: seq<Request>): seq<nat>
    requires forall r :: r in rs ==> r.oldest <= r.newest
  {
    if rs == [] then [] else Answers(rs[1..]) + Range(rs[0].oldest, rs[0].newest - rs[0].oldest + 1)
  }

  lemma AnswersMore(r: Request, rs: seq<Request>)
    requires r.oldest <= r.newest && forall q :: q in rs ==> q.oldest <= q.newest
    ensures forall q :: q in [r] + rs ==> q.oldest <= q.newest
    ensures Answers([r] + rs) == Answers(rs) + Range(r.oldest, r.newest - r.oldest + 1)
  {
    assert ([r] + rs)[1..] == rs;
  }

  // What is fetched is the answers to the requests.
  lemma {:induction false} FetchedIsAnswers(latest: nat, total: nat, max: nat)
    requires total <= latest && max > 0
    ensures forall r :: r in Requests(latest, total, max) ==> r.oldest <= r.newest
    ensures Fetched(latest, total, max) == Answers(Requests(latest, total, max))
    decreases total
  {
    if total == 0 {
    } else {
      var count := Smaller(total, max);
      var oldest := latest - (count - 1);
      FetchedIsAnswers(oldest, total - count, max);
      AnswersMore(Request(oldest, latest), Requests(oldest, total - count, max));
      hide Answers, Range;
    }
  }

  ghost predicate Covered(rs: seq<Request>, block: nat) {
    exists j :: 0 <= j < |rs| && rs[j].oldest <= block <= rs[j].newest
  }

  lemma CoveredMore(r: Request, rs: seq<Request>, block: nat)
    ensures Covered([r] + rs, block) <==> r.oldest <= block <= r.newest || Covered(rs, block)
  {
    var all := [r] + rs;
    if Covered(rs, block) {
      var j :| 0 <= j < |rs| && rs[j].oldest <= block <= rs[j].newest;
      assert all[j + 1] == rs[j];
    }
    if r.oldest <= block <= r.newest {
      assert all[0] == r;
    }
  }

  lemma {:induction false} RequestsAreFew(latest: nat, total: nat, max: nat)
    requires total <= latest && max > 0
    ensures |Requests(latest, total, max)| <= total
    decreases total
  {
    if total == 0 {
    } else {
      var count := Smaller(total, max);
      RequestsAreFew(latest - (count - 1), total - count, max);
    }
  }

  // Together the ranges have no gap: they hold exactly the blocks from the oldest one requested on.
  lemma {:induction false} RequestsHaveNoGap(latest: nat, total: nat, max: nat, block: nat)
    requires 0 < total <= latest && max > 0
    ensures var rs := Requests(latest, total, max);
      Covered(rs, block) <==> latest - total + |rs| <= block <= latest
    decreases total
  {
    assert !Covered([], block);
    hide Covered;
    var count := Smaller(total, max);
    var oldest := latest - (count - 1);
    CoveredMore(Request(oldest, latest), Requests(oldest, total - count, max), block);
    if total <= max {
    } else {
      RequestsHaveNoGap(oldest, total - max, max, block);
      RequestsAreFew(oldest, total - max, max);
    }
  }

  // The requests of an update at block `latest`, if it fetches at all.
  ghost function UpdateRequests(c: Settings, lastBlock: nat, latest: nat): seq<Request>
    requires c.maxBlockCount > 0
  {
    if latest - lastBlock < BLOCKS_PER_HOUR then []
    else Requests(latest, Smaller(latest - lastBlock, CacheSize(c)), c.maxBlockCount)
  }

  ghost predicate CatchesUp(c: Settings, lastBlock: nat, latest: nat)
    requires c.maxBlockCount > 0
  {
    var rs := UpdateRequests(c, lastBlock, latest);
    forall block: nat :: lastBlock < block <= latest ==> Covered(rs, block)
  }

  // All the blocks since the last update are fetched exactly if the update is due and one request,
  // within the cache's limit, is enough for them: each further request costs one block at the old end.
  lemma CatchesUpIff(c: Settings, lastBlock: nat, latest: nat)
    requires c.maxBlockCount > 0 && lastBlock < latest
    ensures CatchesUp(c, lastBlock, latest) <==>
      300 <= latest - lastBlock <= Smaller(c.maxBlockCount, c.days * 7200)
  {
    var total, max := Smaller(latest - lastBlock, CacheSize(c)), c.maxBlockCount;
    var rs := UpdateRequests(c, lastBlock, latest);
    if rs == [] {
      assert !Covered(rs, latest);
    } else {
      RequestsOverlapInOneBlock(latest, total, max);
      forall block: nat
        ensures Covered(rs, block) <==> latest - total + |rs| <= block <= latest
      {
        RequestsHaveNoGap(latest, total, max, block);
      }
      if total > max {
        Division.CeilStep(total, max);
        assert |rs| >= 2 && !Covered(rs, lastBlock + 1);
      } else {
        Division.CeilSmall(total, max);
        assert Covered(rs, lastBlock + 1) <==> total == latest - lastBlock;
      }
    }
  }

  // ---- The percentile ----

  // The value at a hundredth of `scaled`; between two entries, the half of their sum.
  function ValueAt(sorted: seq<nat>, scaled: nat): nat
    requires sorted != [] && scaled <= 100 * (|sorted| - 1)
  {
    if scaled % 100 == 0 then sorted[scaled / 100]
    else (sorted[scaled / 100] + sorted[scaled / 100 + 1]) / 2
  }

  lemma Scale(p: nat, n: nat)
    requires p <= 100
    ensures 0 <= p * n <= 100 * n
  {
    assert p * n + (100 - p) * n == 100 * n;
    assert (100 - p) * n >= 0 && p * n >= 0;
  }

  function Amount(): nat -> int {
    (fee: nat) => fee
  }

  function SortFees(fees: seq<nat>): (r: seq<nat>)
    ensures |r| == |fees|
  {
    Sort(fees, Amount())
  }

  function Percentile(fees: seq<nat>, p: nat): nat
    requires fees != [] && p <= 100
  {
    Scale(p, |fees| - 1);
    ValueAt(SortFees(fees), p * (|fees| - 1))
  }

  lemma SortedAt(fees: seq<nat>, i: nat, j: nat)
    requires Ascending(fees, Amount()) && i <= j < |fees|
    ensures fees[i] <= fees[j]
  {
    assert i < j ==> Amount()(fees[i]) <= Amount()(fees[j]);
  }

  // The order of the history does not matter.
  lemma PercentileIgnoresOrder(a: seq<nat>, b: seq<nat>, p: nat)
    requires a != [] && b != [] && p <= 100 && multiset(a) == multiset(b)
    ensures Percentile(a, p) == Percentile(b, p)
  {
    SortIs(a, Amount());
    SortIs(b, Amount());
    OrderedUnique(SortFees(a), SortFees(b), (x: nat, y: nat) => Amount()(x) <= Amount()(y));
  }

  lemma ValueIsBounded(sorted: seq<nat>, scaled: nat)
    requires Ascending(sorted, Amount()) && sorted != [] && scaled <= 100 * (|sorted| - 1)
    ensures sorted[scaled / 100] <= ValueAt(sorted, scaled) <= sorted[(scaled + 99) / 100]
  {
    SortedAt(sorted, scaled / 100, (scaled + 99) / 100);
  }

  lemma ValueIsMonotone(sorted: seq<nat>, a: nat, b: nat)
    requires Ascending(sorted, Amount()) && sorted != [] && a <= b <= 100 * (|sorted| - 1)
    ensures ValueAt(sorted, a) <= ValueAt(sorted, b)
  {
    if a / 100 < b / 100 {
      ValueIsBounded(sorted, a);
      ValueIsBounded(sorted, b);
      SortedAt(sorted, (a + 99) / 100, b / 100);
    } else if b % 100 > 0 {
      SortedAt(sorted, b / 100, b / 100 + 1);
    }
  }

  // The percentile is the half, rounded down, of the sum of the sorted neighbours of its index.
  lemma PercentileIsBounded(fees: seq<nat>, p: nat)
    requires fees != [] && p <= 100
    ensures var sorted, scaled := SortFees(fees), p * (|fees| - 1);
      && 0 <= scaled <= 100 * (|fees| - 1)
      && sorted[scaled / 100] <= Percentile(fees, p) <= sorted[(scaled + 99) / 100]
      && var sum := sorted[scaled / 100] + sorted[(scaled + 99) / 100]; sum - 1 <= 2 * Percentile(fees, p) <= sum
  {
    SortIs(fees, Amount());
    Scale(p, |fees| - 1);
    ValueIsBounded(SortFees(fees), p * (|fees| - 1));
  }

  // At 0 and 100 it is the least and the greatest entry.
  lemma PercentileEnds(fees: seq<nat>)
    requires fees != []
    ensures Percentile(fees, 0) in fees && forall x :: x in fees ==> Percentile(fees, 0) <= x
    ensures Percentile(fees, 100) in fees && forall x :: x in fees ==> x <= Percentile(fees, 100)
  {
    SortIs(fees, Amount());
    var sorted := SortFees(fees);
    assert Percentile(fees, 0) == sorted[0] && Percentile(fees, 100) == sorted[|sorted| - 1];
    assert sorted[0] in multiset(fees) && sorted[|sorted| - 1] in multiset(fees);
    forall x | x in fees
      ensures sorted[0] <= x <= sorted[|sorted| - 1]
    {
      assert x in multiset(sorted);
      var i :| 0 <= i < |sorted| && sorted[i] == x;
      SortedAt(sorted, 0, i);
      SortedAt(sorted, i, |sorted| - 1);
    }
  }

  lemma PercentileIsMonotone(fees: seq<nat>, p: nat, q: nat)
    requires fees != [] && p <= q <= 100
    ensures Percentile(fees, p) <= Percentile(fees, q)
  {
    var n := |fees| - 1;
    SortIs(fees, Amount());
    Scale(p, n);
    Scale(q, n);
    assert q * n == p * n + (q - p) * n && (q - p) * n >= 0;
    ValueIsMonotone(SortFees(fees), p * n, q * n);
  }

  // ---- The cache ----

  datatype History = History(cache: seq<nat>, lastBlock: nat)

  datatype Event = Update(latest: nat) | Query

  function Slide<T>(cache: seq<T>, more: seq<T>): seq<T> {
    (if |cache| > |more| then cache[|more|..] else []) + more
  }

  // An update fetches only after an hour; a query leaves the cache sorted.
  function Step(c: Settings, chain: Chain, h: History, e: Event): History
    requires c.maxBlockCount > 0
  {
    match e
    case Query => h.(cache := SortFees(h.cache))
    case Update(latest) =>
      if latest - h.lastBlock < BLOCKS_PER_HOUR then h
      else
        var total := Smaller(latest - h.lastBlock, CacheSize(c));
        History(Slide(h.cache, FeesOf(chain, Fetched(latest, total, c.maxBlockCount))), latest)
  }

  // Whether the base fee is acceptable after an update: not above the cap, nor above the percentile of
  // the history. With no history the check fails.
  function FeeCheck(c: Settings, chain: Chain, h: History, latest: nat, currentFee: Option<nat>, cap: Option<nat>,
                    p: nat): Option<bool>
    requires c.maxBlockCount > 0 && p <= 100
  {
    var updated := Step(c, chain, h, Update(latest));
    var current := if currentFee.Some? then currentFee.value else 0;
    if updated.cache == [] then None
    else Some((cap.Some? ==> current <= cap.value) && current <= Percentile(updated.cache, p))
  }

  // ---- The cache as an object ----

  lemma {:induction false} FeesOfBoth(chain: Chain, a: seq<nat>, b: seq<nat>)
    ensures FeesOf(chain, a + b) == FeesOf(chain, a) + FeesOf(chain, b)
    decreases |b|
  {
    if b == [] {
      assert a + b == a;
    } else {
      assert (a + b)[..|a + b| - 1] == a + b[..|b| - 1];
      FeesOfBoth(chain, a, b[..|b| - 1]);
    }
  }

  lemma Together(a: seq<nat>, b: seq<nat>, c: seq<nat>)
    ensures (a + b) + c == a + (b + c)
  {
  }

  // Fetching has come down to block `latest`, with `total` entries to go.
  ghost predicate FetchedDownTo(chain: Chain, all: seq<nat>, latest: nat, total: nat, max: nat, fees: seq<nat>) {
    total <= latest && max > 0 && all == FeesOf(chain, Fetched(latest, total, max)) + fees
  }

  lemma FetchedMore(chain: Chain, all: seq<nat>, latest: nat, total: nat, max: nat, fees: seq<nat>)
    requires FetchedDownTo(chain, all, latest, total, max, fees) && total > 0
    ensures var count := Smaller(total, max);
      var oldest := latest - (count - 1);
      0 <= oldest && FetchedDownTo(chain, all, oldest, total - count, max, FeesOf(chain, Range(oldest, count)) + fees)
  {
    var count := Smaller(total, max);
    var oldest := latest - (count - 1);
    var before, range := Fetched(oldest, total - count, max), Range(oldest, count);
    assert Fetched(latest, total, max) == before + range;
    hide *;
    FeesOfBoth(chain, before, range);
    Together(FeesOf(chain, before), FeesOf(chain, range), fees);
  }

  lemma FetchedStart(chain: Chain, latest: nat, total: nat, max: nat)
    requires total <= latest && max > 0
    ensures FetchedDownTo(chain, FeesOf(chain, Fetched(latest, total, max)), latest, total, max, [])
  {
  }

  lemma FetchedNone(chain: Chain, all: seq<nat>, latest: nat, max: nat, fees: seq<nat>)
    requires FetchedDownTo(chain, all, latest, 0, max, fees)
    ensures fees == all
  {
  }

  // An answer has one entry more, for the block after the newest one.
  lemma WithoutNextBlock(chain: Chain, oldest: nat, count: nat)
    ensures FeesOf(chain, Range(oldest, count + 1))[..count] == FeesOf(chain, Range(oldest, count))
  {
    assert Range(oldest, count + 1)[..count] == Range(oldest, count);
  }

  class GasFeeHistory {
    const settings: Settings
    var gasFeeHistoryCache: seq<nat>
    var lastFeeHistoryBlockNumber: nat

    ghost function Model(): History
      reads this
    {
      History(gasFeeHistoryCache, lastFeeHistoryBlockNumber)
    }

    constructor (settings: Settings)
      ensures this.settings == settings && Model() == History([], 0)
    {
      this.settings := settings;
      gasFeeHistoryCache, lastFeeHistoryBlockNumber := [], 0;
    }

    // The provider's answer has one entry more, for the block after the newest one.
    method GetFeeHistory(chain: Chain, blockCount: nat, newestBlock: nat) returns (baseFeePerGas: seq<nat>)
      requires 0 < blockCount <= settings.maxBlockCount && blockCount <= newestBlock + 1
      ensures baseFeePerGas == FeesOf(chain, Range(newestBlock - (blockCount - 1), blockCount + 1))
    {
      baseFeePerGas := FeesOf(chain, Range(newestBlock - (blockCount - 1), blockCount + 1));
    }

    // The fees of a range, without the one of the block after it.
    method GetFees(chain: Chain, blockCount: nat, newestBlock: nat) returns (fees: seq<nat>)
      requires 0 < blockCount <= settings.maxBlockCount && blockCount <= newestBlock + 1
      ensures fees == FeesOf(chain, Range(newestBlock - (blockCount - 1), blockCount))
    {
      var baseFeePerGas := GetFeeHistory(chain, blockCount, newestBlock);
      WithoutNextBlock(chain, newestBlock - (blockCount - 1), blockCount);
      fees := baseFeePerGas[..|baseFeePerGas| - 1];
    }

    // The loop of requests, newest first.
    method FetchFees(chain: Chain, latestBlockNumber: nat, totalBlockCount: nat) returns (newGasFees: seq<nat>)
      requires settings.maxBlockCount > 0 && totalBlockCount <= latestBlockNumber
      ensures newGasFees == FeesOf(chain, Fetched(latestBlockNumber, totalBlockCount, settings.maxBlockCount))
    {
      newGasFees := [];
      var blockCountPerRequest := settings.maxBlockCount;
      var latestBlockToRequest, total := latestBlockNumber, totalBlockCount;
      ghost var all := FeesOf(chain, Fetched(latestBlockNumber, total, settings.maxBlockCount));
      FetchedStart(chain, latestBlockNumber, total, settings.maxBlockCount);
      hide *;
      while total > 0
        invariant 0 <= total <= latestBlockToRequest
        invariant total > 0 ==> blockCountPerRequest == settings.maxBlockCount
        invariant FetchedDownTo(chain, all, latestBlockToRequest, total, settings.maxBlockCount, newGasFees)
      {
        if total < settings.maxBlockCount {
          blockCountPerRequest := total;
        }
        var fees := GetFees(chain, blockCountPerRequest, latestBlockToRequest);
        FetchedMore(chain, all, latestBlockToRequest, total, settings.maxBlockCount, newGasFees);
        newGasFees := fees + newGasFees;
        latestBlockToRequest := latestBlockToRequest - (blockCountPerRequest - 1);
        total := total - blockCountPerRequest;
      }
      FetchedNone(chain, all, latestBlockToRequest, settings.maxBlockCount, newGasFees);
    }

    method UpdateGasFeeHistoryCache(chain: Chain, latestBlockNumber: nat)
      requires settings.maxBlockCount > 0
      modifies this
      ensures Model() == Step(settings, chain, old(Model()), Update(latestBlockNumber))
    {
      var delay: int := latestBlockNumber - lastFeeHistoryBlockNumber;
      if delay < BLOCKS_PER_HOUR {
        return;
      }
      var newGasFees := FetchFees(chain, latestBlockNumber, Smaller(delay, CacheSize(settings)));
      gasFeeHistoryCache :=
        (if |gasFeeHistoryCache| > |newGasFees| then gasFeeHistoryCache[|newGasFees|..] else []) + newGasFees;
      lastFeeHistoryBlockNumber := latestBlockNumber;
    }

    // Sorts the cache in place.
    method RecommendedFee(p: nat) returns (fee: nat)
      requires gasFeeHistoryCache != [] && p <= 100
      modifies `gasFeeHistoryCache
      ensures fee == Percentile(old(gasFeeHistoryCache), p)
      ensures gasFeeHistoryCache == SortFees(old(gasFeeHistoryCache))
    {
      gasFeeHistoryCache := SortFees(gasFeeHistoryCache);
      Scale(p, |gasFeeHistoryCache| - 1);
      var scaled := p * (|gasFeeHistoryCache| - 1);
      var lower := scaled / 100;
      if scaled % 100 == 0 {
        return gasFeeHistoryCache[lower];
      }
      return (gasFeeHistoryCache[lower] + gasFeeHistoryCache[lower + 1]) / 2;
    }

    // `cap` is the absolute cap on the base fee, if there is one; the result is None if the check
    // throws.
    method IsFeePerGasAcceptable(chain: Chain, latestBlockNumber: nat, currentFee: Option<nat>, cap: Option<nat>,
                                 p: nat)
      returns (acceptable: Option<bool>)
      requires settings.maxBlockCount > 0 && p <= 100
      modifies this
      ensures acceptable == FeeCheck(settings, chain, old(Model()), latestBlockNumber, currentFee, cap, p)
      ensures Model() == Step(settings, chain, Step(settings, chain, old(Model()), Update(latestBlockNumber)), Query)
    {
      UpdateGasFeeHistoryCache(chain, latestBlockNumber);
      if gasFeeHistoryCache == [] {
        assert SortFees([]) == [];
        return None;
      }
      var recommended := RecommendedFee(p);
      var current := if currentFee.Some? then currentFee.value else 0;
      if cap.Some? && current > cap.value {
        return Some(false);
      }
      if current > recommended {
        return Some(false);
      }
      return Some(true);
    }
  }
}
