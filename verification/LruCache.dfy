/** The single-flight LRU cache: a Map in insertion order, and a table of fetches in flight. */
module LruCache {

  datatype Entry<V> = Entry(key: string, value: V)

  // A JavaScript Map: entries in insertion order.
  type Items<V> = seq<Entry<V>>

  datatype Options<!K, !V> = Options(
    capacity: nat,
    shouldCache: K -> bool,
    shouldCacheValue: V -> bool,
    keyToString: K -> string)

  function Keys<V>(items: Items<V>): (ks: seq<string>)
    ensures |ks| == |items|
    ensures forall i :: 0 <= i < |items| ==> ks[i] == items[i].key
  {
    seq(|items|, i requires 0 <= i < |items| => items[i].key)
  }

  predicate Has<V>(items: Items<V>, k: string) {
    exists i :: 0 <= i < |items| && items[i].key == k
  }

  function Get<V>(items: Items<V>, k: string): (v: V)
    requires Has(items, k)
    ensures Entry(k, v) in items
  {
    if items[0].key == k then items[0].value else Get(items[1..], k)
  }

  function Delete<V>(items: Items<V>, k: string): Items<V> {
    if items == [] then []
    else
      var init := Delete(items[..|items| - 1], k);
      if items[|items| - 1].key == k then init else init + [items[|items| - 1]]
  }

  // Map.set of a key that is present changes its value in place, else appends it.
  function Set<V>(items: Items<V>, k: string, v: V): Items<V> {
    if items == [] then [Entry(k, v)]
    else if items[0].key == k then [Entry(k, v)] + items[1..]
    else [items[0]] + Set(items[1..], k, v)
  }

  function Touch<V>(items: Items<V>, k: string): Items<V>
    requires Has(items, k)
  {
    Set(Delete(items, k), k, Get(items, k))
  }

  function Store<V>(items: Items<V>, k: string, v: V, capacity: nat): Items<V> {
    var stored := Set(items, k, v);
    if |stored| > capacity && stored != [] then stored[1..] else stored
  }

  // What getOrFetch does before its first await.
  datatype Answer<V> = Bypass | Hit(value: V) | Join(fetch: nat) | Start

  function OnRequest<K, V>(o: Options<K, V>, items: Items<V>, inFlight: map<string, nat>, key: K): Answer<V> {
    if !o.shouldCache(key) then Bypass
    else
      var k := o.keyToString(key);
      if Has(items, k) then Hit(Get(items, k))
      else if k in inFlight then Join(inFlight[k])
      else Start
  }

  class LruCache<K(==), V> {
    const options: Options<K, V>
    var items: Items<V>
    var inFlight: map<string, nat>   // cache key -> the fetch whose promise is shared

    constructor (options: Options<K, V>)
      ensures this.options == options && items == [] && inFlight == map[]
    {
      this.options, items, inFlight := options, [], map[];
    }

    // getOrFetch up to its first await; `fetch` names the promise if one is started.
    method Request(key: K, fetch: nat) returns (answer: Answer<V>)
      modifies this
      ensures answer == OnRequest(options, old(items), old(inFlight), key)
      ensures var k := options.keyToString(key);
        && items == (if answer.Hit? then Touch(old(items), k) else old(items))
        && inFlight == (if answer.Start? then old(inFlight)[k := fetch] else old(inFlight))
    {
      if !options.shouldCache(key) {
        return Bypass;
      }
      var k := options.keyToString(key);
      if Has(items, k) {
        var cached := Get(items, k);
        items := Delete(items, k);
        items := Set(items, k, cached);
        return Hit(cached);
      }
      if k in inFlight {
        return Join(inFlight[k]);
      }
      inFlight := inFlight[k := fetch];
      return Start;
    }

    // The async body once the fetcher has returned.
    method Complete(k: string, value: V)
      modifies this
      ensures items ==
        if options.shouldCacheValue(value) then Store(old(items), k, value, options.capacity) else old(items)
      ensures inFlight == old(inFlight) - {k}
    {
      if options.shouldCacheValue(value) {
        items := Set(items, k, value);
        if |items| > options.capacity {
          if items != [] {
            items := items[1..];
          }
        }
      }
      inFlight := inFlight - {k};
    }

    method Fail(k: string)
      modifies this
      ensures items == old(items) && inFlight == old(inFlight) - {k}
    {
      inFlight := inFlight - {k};
    }

    method Clear()
      modifies this
      ensures items == [] && inFlight == old(inFlight)
    {
      items := [];
    }
  }
}
