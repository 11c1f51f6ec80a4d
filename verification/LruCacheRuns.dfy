/** The cache under any interleaving of requests, completions, failures and clears. */
module LruCacheRuns {
  import Sequences
  import opened Recency
  import opened LruCache

  datatype Waiter<K> = Waiter(key: K, fetch: nat)

  datatype Reply<K, V> = Reply(key: K, value: V)

  // Requests, and the fetches they start, are numbered in order.
  datatype Sys<K, V> = Sys(
    items: Items<V>,
    inFlight: map<string, nat>,
    running: map<nat, K>,             // shared fetches and the key each was started for
    direct: map<nat, K>,              // fetches that bypass the cache
    waiting: map<nat, Waiter<K>>,     // callers awaiting a shared fetch
    replies: map<nat, Reply<K, V>>,
    touched: seq<string>,             // cache keys hit or stored since the last clear
    next: nat)

  datatype Event<K, V> =
    | Request(key: K)
    | Complete(fetch: nat, value: V)
    | Reject(fetch: nat)
    | CompleteDirect(request: nat, value: V)
    | RejectDirect(request: nat)
    | Clear

  ghost predicate Enabled<K, V>(s: Sys<K, V>, e: Event<K, V>) {
    match e
    case Request(_) => true
    case Complete(fetch, _) => fetch in s.running
    case Reject(fetch) => fetch in s.running
    case CompleteDirect(request, _) => request in s.direct
    case RejectDirect(request) => request in s.direct
    case Clear => true
  }

  ghost function OnStart<K, V>(o: Options<K, V>, s: Sys<K, V>, key: K): Sys<K, V> {
    var k := o.keyToString(key);
    match OnRequest(o, s.items, s.inFlight, key)
    case Bypass => s.(direct := s.direct[s.next := key], next := s.next + 1)
    case Hit(value) =>
      s.(items := Touch(s.items, k), replies := s.replies[s.next := Reply(key, value)],
         touched := s.touched + [k], next := s.next + 1)
    case Join(fetch) => s.(waiting := s.waiting[s.next := Waiter(key, fetch)], next := s.next + 1)
    case Start =>
      s.(inFlight := s.inFlight[k := s.next], running := s.running[s.next := key],
         waiting := s.waiting[s.next := Waiter(key, s.next)], next := s.next + 1)
  }

  ghost function Callers<K, V>(s: Sys<K, V>, fetch: nat): set<nat> {
    set w | w in s.waiting && s.waiting[w].fetch == fetch
  }

  // A settled fetch: its entry in flight is removed by cache key, and its callers leave.
  ghost function EndFetch<K, V>(o: Options<K, V>, s: Sys<K, V>, fetch: nat): Sys<K, V>
    requires fetch in s.running
  {
    s.(inFlight := s.inFlight - {o.keyToString(s.running[fetch])}, running := s.running - {fetch},
       waiting := s.waiting - Callers(s, fetch))
  }

  ghost function OnComplete<K, V>(o: Options<K, V>, s: Sys<K, V>, fetch: nat, value: V): Sys<K, V>
    requires fetch in s.running
  {
    var k, stored := o.keyToString(s.running[fetch]), o.shouldCacheValue(value);
    EndFetch(o, s, fetch).(
      items := if stored then Store(s.items, k, value, o.capacity) else s.items,
      replies := s.replies + map w | w in Callers(s, fetch) :: Reply(s.waiting[w].key, value),
      touched := if stored then s.touched + [k] else s.touched)
  }

  ghost function Apply<K, V>(o: Options<K, V>, s: Sys<K, V>, e: Event<K, V>): Sys<K, V>
    requires Enabled(s, e)
  {
    match e
    case Request(key) => OnStart(o, s, key)
    case Complete(fetch, value) => OnComplete(o, s, fetch, value)
    case Reject(fetch) => EndFetch(o, s, fetch)
    case CompleteDirect(r, value) => s.(direct := s.direct - {r}, replies := s.replies[r := Reply(s.direct[r], value)])
    case RejectDirect(r) => s.(direct := s.direct - {r})
    case Clear => s.(items := [], touched := [])
  }

  ghost predicate ValidRun<K, V>(o: Options<K, V>, s: Sys<K, V>, es: seq<Event<K, V>>)
    decreases |es|
  {
    es == [] || (Enabled(s, es[0]) && ValidRun(o, Apply(o, s, es[0]), es[1..]))
  }

  ghost function After<K, V>(o: Options<K, V>, s: Sys<K, V>, es: seq<Event<K, V>>): Sys<K, V>
    requires ValidRun(o, s, es)
    decreases |es|
  {
    if es == [] then s else After(o, Apply(o, s, es[0]), es[1..])
  }

  ghost function Empty<K, V>(): Sys<K, V> {
    Sys([], map[], map[], map[], map[], map[], [], 0)
  }

  // ---- The entries ----

  lemma HasKeys<V>(items: Items<V>, k: string)
    ensures Has(items, k) <==> k in Keys(items)
  {
  }

  lemma {:induction false} DeleteKeys<V>(items: Items<V>, k: string)
    ensures Keys(Delete(items, k)) == Without(Keys(items), k)
  {
    if items == [] {
    } else {
      var init := items[..|items| - 1];
      DeleteKeys(init, k);
      assert Keys(items)[..|items| - 1] == Keys(init);
    }
  }

  lemma {:induction false} DeleteKeeps<V>(items: Items<V>, k: string, e: Entry<V>)
    ensures e in Delete(items, k) <==> e in items && e.key != k
  {
    if items == [] {
    } else {
      DeleteKeeps(items[..|items| - 1], k, e);
      assert items == items[..|items| - 1] + [items[|items| - 1]];
    }
  }

  lemma {:induction false} SetAppends<V>(items: Items<V>, k: string, v: V)
    requires !Has(items, k)
    ensures Set(items, k, v) == items + [Entry(k, v)]
  {
    if items == [] {
    } else {
      assert items[0].key != k;
      assert forall i :: 0 <= i < |items[1..]| ==> items[1..][i] == items[i + 1];
      SetAppends(items[1..], k, v);
    }
  }

  lemma TouchMovesToEnd<V>(items: Items<V>, k: string)
    requires Has(items, k) && Sequences.Distinct(Keys(items))
    ensures Touch(items, k) == Delete(items, k) + [Entry(k, Get(items, k))]
    ensures Keys(Touch(items, k)) == Without(Keys(items), k) + [k]
  {
    DeleteKeys(items, k);
    WithoutElems(Keys(items), k);
    HasKeys(Delete(items, k), k);
    assert k !in Sequences.Elems(Without(Keys(items), k));
    SetAppends(Delete(items, k), k, Get(items, k));
  }

  lemma KeysMore<V>(items: Items<V>, e: Entry<V>)
    ensures Keys(items + [e]) == Keys(items) + [e.key]
  {
  }

  lemma KeysRest<V>(items: Items<V>)
    requires items != []
    ensures Keys(items[1..]) == Keys(items)[1..]
  {
  }

  lemma StoreIs<V>(items: Items<V>, k: string, v: V, capacity: nat)
    requires !Has(items, k) && |items| <= capacity
    ensures var stored := items + [Entry(k, v)];
      Store(items, k, v, capacity) == if |items| == capacity then stored[1..] else stored
  {
    SetAppends(items, k, v);
    hide Set, Has;
  }

  lemma StoreAppends<V>(items: Items<V>, k: string, v: V, capacity: nat)
    requires !Has(items, k) && |items| <= capacity
    ensures Keys(Store(items, k, v, capacity)) == Last(Keys(items) + [k], capacity)
    ensures forall e :: e in Store(items, k, v, capacity) ==> e in items || e == Entry(k, v)
    ensures |Store(items, k, v, capacity)| <= capacity
  {
    StoreIs(items, k, v, capacity);
    KeysMore(items, Entry(k, v));
    KeysRest(items + [Entry(k, v)]);
    hide Store, Has, Keys;
  }

  // ---- Contents and recency ----

  ghost predicate HoldsRecent<K, V>(o: Options<K, V>, s: Sys<K, V>) {
    Keys(s.items) == Recent(s.touched, o.capacity)
  }

  lemma RecentDistinct(h: seq<string>, capacity: nat)
    ensures Sequences.Distinct(Recent(h, capacity)) && |Recent(h, capacity)| <= capacity
  {
    ByLastTouchElems(h);
  }

  lemma TouchOne(h: seq<string>, k: string)
    ensures ByLastTouch(h + [k]) == Without(ByLastTouch(h), k) + [k]
  {
    assert (h + [k])[..|h + [k]| - 1] == h;
  }

  lemma HitHolds<K, V>(o: Options<K, V>, s: Sys<K, V>, k: string)
    requires HoldsRecent(o, s) && Has(s.items, k)
    ensures Keys(Touch(s.items, k)) == Recent(s.touched + [k], o.capacity)
  {
    RecentDistinct(s.touched, o.capacity);
    ByLastTouchElems(s.touched);
    HasKeys(s.items, k);
    TouchMovesToEnd(s.items, k);
    HitKeeps(ByLastTouch(s.touched), k, o.capacity);
    TouchOne(s.touched, k);
  }

  lemma StoreHolds<K, V>(o: Options<K, V>, s: Sys<K, V>, k: string, v: V)
    requires HoldsRecent(o, s) && !Has(s.items, k)
    ensures Keys(Store(s.items, k, v, o.capacity)) == Recent(s.touched + [k], o.capacity)
  {
    RecentDistinct(s.touched, o.capacity);
    ByLastTouchElems(s.touched);
    HasKeys(s.items, k);
    StoreAppends(s.items, k, v, o.capacity);
    StoreKeeps(ByLastTouch(s.touched), k, o.capacity);
    TouchOne(s.touched, k);
  }

  // ---- One fetch per key ----

  ghost predicate FlightOf<K, V>(o: Options<K, V>, inFlight: map<string, nat>, running: map<nat, K>, f: nat)
    requires f in running
  {
    var k := o.keyToString(running[f]);
    o.shouldCache(running[f]) && k in inFlight && inFlight[k] == f
  }

  ghost predicate InTable<K, V>(o: Options<K, V>, inFlight: map<string, nat>, running: map<nat, K>, k: string)
    requires k in inFlight
  {
    inFlight[k] in running && o.keyToString(running[inFlight[k]]) == k
  }

  ghost predicate WaitsRightly<K, V>(o: Options<K, V>, running: map<nat, K>, w: Waiter<K>) {
    w.fetch in running && o.shouldCache(w.key) && o.keyToString(running[w.fetch]) == o.keyToString(w.key)
  }

  // The table of flights and the running fetches name each other, and a caller waits only for a
  // running fetch of its own cache key.
  ghost predicate Flights<K, V>(o: Options<K, V>, s: Sys<K, V>) {
    && (forall f :: f in s.running ==> f < s.next && FlightOf(o, s.inFlight, s.running, f))
    && (forall k :: k in s.inFlight ==> InTable(o, s.inFlight, s.running, k))
    && (forall w :: w in s.waiting ==> w < s.next && WaitsRightly(o, s.running, s.waiting[w]))
  }

  // No key is both cached and in flight.
  ghost predicate Apart<V>(items: Items<V>, inFlight: map<string, nat>) {
    forall k :: k in inFlight ==> k !in Keys(items)
  }

  ghost predicate Inv<K, V>(o: Options<K, V>, s: Sys<K, V>) {
    HoldsRecent(o, s) && Flights(o, s) && Apart(s.items, s.inFlight)
  }

  lemma InvDistinct<K, V>(o: Options<K, V>, s: Sys<K, V>)
    requires HoldsRecent(o, s)
    ensures Sequences.Distinct(Keys(s.items)) && |s.items| <= o.capacity
  {
    RecentDistinct(s.touched, o.capacity);
  }

  lemma TouchApart<V>(items: Items<V>, inFlight: map<string, nat>, k: string)
    requires Apart(items, inFlight) && Has(items, k) && Sequences.Distinct(Keys(items))
    ensures Apart(Touch(items, k), inFlight)
  {
    TouchMovesToEnd(items, k);
    WithoutElems(Keys(items), k);
    HasKeys(items, k);
    forall j | j in inFlight
      ensures j !in Keys(Touch(items, k))
    {
      assert j !in Sequences.Elems(Keys(items));
      assert j !in Sequences.Elems(Without(Keys(items), k));
    }
  }

  lemma JoinFlights<K, V>(o: Options<K, V>, s: Sys<K, V>, key: K)
    requires Flights(o, s) && o.shouldCache(key) && o.keyToString(key) in s.inFlight
    ensures Flights(o, s.(waiting := s.waiting[s.next := Waiter(key, s.inFlight[o.keyToString(key)])],
                          next := s.next + 1))
  {
    assert InTable(o, s.inFlight, s.running, o.keyToString(key));
  }

  lemma NewFlight<K, V>(o: Options<K, V>, s: Sys<K, V>, key: K)
    requires Flights(o, s) && o.shouldCache(key) && o.keyToString(key) !in s.inFlight
    ensures Flights(o, s.(inFlight := s.inFlight[o.keyToString(key) := s.next], running := s.running[s.next := key],
                          waiting := s.waiting[s.next := Waiter(key, s.next)], next := s.next + 1))
  {
    var k := o.keyToString(key);
    var inFlight, running := s.inFlight[k := s.next], s.running[s.next := key];
    forall f | f in running
      ensures FlightOf(o, inFlight, running, f)
    {
      assert f in s.running ==> FlightOf(o, s.inFlight, s.running, f);
    }
    forall j | j in inFlight
      ensures InTable(o, inFlight, running, j)
    {
      assert j in s.inFlight ==> InTable(o, s.inFlight, s.running, j);
    }
    forall w | w in s.waiting
      ensures WaitsRightly(o, running, s.waiting[w])
    {
      assert WaitsRightly(o, s.running, s.waiting[w]);
    }
  }

  lemma StartFlights<K, V>(o: Options<K, V>, s: Sys<K, V>, key: K)
    requires Flights(o, s)
    ensures Flights(o, OnStart(o, s, key))
  {
    match OnRequest(o, s.items, s.inFlight, key)
    case Bypass =>
    case Hit(_) =>
    case Join(_) => JoinFlights(o, s, key);
    case Start => NewFlight(o, s, key);
  }

  lemma RequestInv<K, V>(o: Options<K, V>, s: Sys<K, V>, key: K)
    requires Inv(o, s)
    ensures Inv(o, OnStart(o, s, key))
  {
    StartFlights(o, s, key);
    hide Flights;
    var k := o.keyToString(key);
    if OnRequest(o, s.items, s.inFlight, key).Hit? {
      InvDistinct(o, s);
      HitHolds(o, s, k);
      TouchApart(s.items, s.inFlight, k);
    } else {
      HasKeys(s.items, k);
    }
  }

  lemma EndFetchFlights<K, V>(o: Options<K, V>, s: Sys<K, V>, fetch: nat)
    requires Flights(o, s) && fetch in s.running
    ensures Flights(o, EndFetch(o, s, fetch))
    ensures o.keyToString(s.running[fetch]) in s.inFlight
  {
    var s' := EndFetch(o, s, fetch);
    assert FlightOf(o, s.inFlight, s.running, fetch);
    forall f | f in s'.running
      ensures FlightOf(o, s'.inFlight, s'.running, f)
    {
      assert FlightOf(o, s.inFlight, s.running, f);
    }
    forall j | j in s'.inFlight
      ensures InTable(o, s'.inFlight, s'.running, j)
    {
      assert InTable(o, s.inFlight, s.running, j);
    }
    forall w | w in s'.waiting
      ensures WaitsRightly(o, s'.running, s'.waiting[w])
    {
      assert WaitsRightly(o, s.running, s.waiting[w]) && w !in Callers(s, fetch);
    }
  }

  lemma StoreApart<V>(items: Items<V>, inFlight: map<string, nat>, k: string, v: V, capacity: nat)
    requires Apart(items, inFlight) && k in inFlight && |items| <= capacity
    ensures Apart(Store(items, k, v, capacity), inFlight - {k})
    ensures !Has(items, k)
  {
    HasKeys(items, k);
    StoreAppends(items, k, v, capacity);
    assert forall j :: j in Last(Keys(items) + [k], capacity) ==> j in Keys(items) + [k];
  }

  lemma CompleteInv<K, V>(o: Options<K, V>, s: Sys<K, V>, fetch: nat, value: V)
    requires Inv(o, s) && fetch in s.running
    ensures Inv(o, OnComplete(o, s, fetch, value))
  {
    var k, s' := o.keyToString(s.running[fetch]), OnComplete(o, s, fetch, value);
    EndFetchFlights(o, s, fetch);
    assert Flights(o, s');
    hide Flights;
    if o.shouldCacheValue(value) {
      InvDistinct(o, s);
      StoreApart(s.items, s.inFlight, k, value, o.capacity);
      StoreHolds(o, s, k, value);
    }
  }

  lemma InvStep<K, V>(o: Options<K, V>, s: Sys<K, V>, e: Event<K, V>)
    requires Inv(o, s) && Enabled(s, e)
    ensures Inv(o, Apply(o, s, e))
  {
    match e
    case Request(key) => RequestInv(o, s, key);
    case Complete(fetch, value) => CompleteInv(o, s, fetch, value);
    case Reject(fetch) => EndFetchFlights(o, s, fetch);
    case CompleteDirect(_, _) =>
    case RejectDirect(_) =>
    case Clear =>
  }

  lemma {:induction false} InvRun<K, V>(o: Options<K, V>, s: Sys<K, V>, es: seq<Event<K, V>>)
    requires Inv(o, s) && ValidRun(o, s, es)
    ensures Inv(o, After(o, s, es))
    decreases |es|
  {
    if es == [] {
    } else {
      InvStep(o, s, es[0]);
      InvRun(o, Apply(o, s, es[0]), es[1..]);
    }
  }

  // In every interleaving: what is kept is exactly the last `capacity` distinct touched keys in
  // the order of their last touch, the size never exceeds the capacity, two running fetches are
  // for different cache keys, and no key is both cached and in flight.
  lemma CacheIsSound<K, V>(o: Options<K, V>, es: seq<Event<K, V>>)
    requires ValidRun(o, Empty(), es)
    ensures var s := After(o, Empty(), es);
      && Keys(s.items) == Recent(s.touched, o.capacity) && |s.items| <= o.capacity
      && (forall f, g :: f in s.running && g in s.running && f != g ==>
            o.keyToString(s.running[f]) != o.keyToString(s.running[g]))
      && (forall f :: f in s.running ==> !Has(s.items, o.keyToString(s.running[f])))
  {
    InvRun(o, Empty(), es);
    var s := After(o, Empty(), es);
    InvDistinct(o, s);
    forall f, g | f in s.running && g in s.running && f != g
      ensures o.keyToString(s.running[f]) != o.keyToString(s.running[g])
    {
      assert FlightOf(o, s.inFlight, s.running, f) && FlightOf(o, s.inFlight, s.running, g);
    }
    forall f | f in s.running
      ensures !Has(s.items, o.keyToString(s.running[f]))
    {
      assert FlightOf(o, s.inFlight, s.running, f);
      HasKeys(s.items, o.keyToString(s.running[f]));
    }
  }

  // ---- Every caller is answered ----

  ghost function AskedNow<K, V>(e: Event<K, V>): seq<K> {
    if e.Request? then [e.key] else []
  }

  // The keys asked for, by request.
  ghost function Asked<K, V>(es: seq<Event<K, V>>): seq<K> {
    if es == [] then [] else AskedNow(es[0]) + Asked(es[1..])
  }

  ghost function DroppedNow<K, V>(s: Sys<K, V>, e: Event<K, V>, dropped: set<nat>): set<nat> {
    match e
    case Reject(fetch) => dropped + Callers(s, fetch)
    case RejectDirect(request) => dropped + {request}
    case _ => dropped
  }

  // The requests whose fetch was rejected.
  ghost function Dropped<K, V>(o: Options<K, V>, s: Sys<K, V>, es: seq<Event<K, V>>, dropped: set<nat>): set<nat>
    requires ValidRun(o, s, es)
    decreases |es|
  {
    if es == [] then dropped else Dropped(o, Apply(o, s, es[0]), es[1..], DroppedNow(s, es[0], dropped))
  }

  // A request waits for a shared fetch or for its own, or has a reply to its key, or was rejected.
  ghost predicate InOnePlace<K, V>(s: Sys<K, V>, dropped: set<nat>, request: nat, key: K) {
    && (request in s.waiting || request in s.direct || request in s.replies || request in dropped)
    && (request in s.waiting ==> request !in s.direct && request !in s.replies && request !in dropped)
    && (request in s.direct ==> request !in s.replies && request !in dropped)
    && (request in s.replies ==> request !in dropped)
    && (request in s.waiting ==> s.waiting[request].key == key)
    && (request in s.direct ==> s.direct[request] == key)
    && (request in s.replies ==> s.replies[request].key == key)
  }

  ghost predicate Accounted<K, V>(s: Sys<K, V>, dropped: set<nat>, asked: seq<K>) {
    && |asked| == s.next
    && (forall r :: r in s.waiting || r in s.direct || r in s.replies || r in dropped ==> r < s.next)
    && (forall r: nat :: r < s.next ==> InOnePlace(s, dropped, r, asked[r]))
  }

  ghost predicate SameFor<T(!new)>(a: map<nat, T>, b: map<nat, T>, request: nat) {
    (request in a <==> request in b) && (request in a ==> a[request] == b[request])
  }

  lemma SameButNew<T(!new)>(m: map<nat, T>, n: nat, value: T, request: nat)
    requires request != n
    ensures SameFor(m[n := value], m, request)
  {
  }

  lemma SameSelf<T(!new)>(m: map<nat, T>, request: nat)
    ensures SameFor(m, m, request)
  {
  }

  // A new request leaves the others where they are.
  lemma StartPlaces<K(!new), V(!new)>(o: Options<K, V>, s: Sys<K, V>, key: K, request: nat)
    requires request != s.next
    ensures var t := OnStart(o, s, key);
      && SameFor(t.waiting, s.waiting, request) && SameFor(t.direct, s.direct, request)
      && SameFor(t.replies, s.replies, request)
  {
    SameSelf(s.waiting, request);
    SameSelf(s.direct, request);
    SameSelf(s.replies, request);
    hide OnRequest, Touch, SameFor;
    match OnRequest(o, s.items, s.inFlight, key)
    case Bypass => SameButNew(s.direct, s.next, key, request);
    case Hit(value) => SameButNew(s.replies, s.next, Reply(key, value), request);
    case Join(fetch) => SameButNew(s.waiting, s.next, Waiter(key, fetch), request);
    case Start => SameButNew(s.waiting, s.next, Waiter(key, s.next), request);
  }

  lemma NewPlace<K(!new), V(!new)>(o: Options<K, V>, s: Sys<K, V>, key: K, dropped: set<nat>)
    requires s.next !in s.waiting && s.next !in s.direct && s.next !in s.replies && s.next !in dropped
    ensures InOnePlace(OnStart(o, s, key), dropped, s.next, key) && OnStart(o, s, key).next == s.next + 1
  {
    hide OnRequest, Touch;
  }

  lemma AccountedRequest<K(!new), V(!new)>(o: Options<K, V>, s: Sys<K, V>, key: K, dropped: set<nat>, asked: seq<K>)
    requires Accounted(s, dropped, asked)
    ensures Accounted(OnStart(o, s, key), dropped, asked + [key])
  {
    var t, more := OnStart(o, s, key), asked + [key];
    NewPlace(o, s, key, dropped);
    hide OnStart;
    forall r: nat
      ensures r < t.next ==> InOnePlace(t, dropped, r, more[r])
      ensures r in t.waiting || r in t.direct || r in t.replies || r in dropped ==> r < t.next
    {
      if r != s.next {
        StartPlaces(o, s, key, r);
        assert r < s.next ==> InOnePlace(s, dropped, r, asked[r]);
      }
    }
  }

  lemma AccountedSettled<K(!new), V(!new)>(o: Options<K, V>, s: Sys<K, V>, e: Event<K, V>, dropped: set<nat>,
                                           asked: seq<K>)
    requires Accounted(s, dropped, asked) && Enabled(s, e) && !e.Request?
    ensures Accounted(Apply(o, s, e), DroppedNow(s, e, dropped), asked)
  {
    hide Store;
    var t := Apply(o, s, e);
    forall r: nat | r < t.next
      ensures InOnePlace(t, DroppedNow(s, e, dropped), r, asked[r])
    {
      assert InOnePlace(s, dropped, r, asked[r]);
    }
  }

  lemma AccountedStep<K(!new), V(!new)>(o: Options<K, V>, s: Sys<K, V>, e: Event<K, V>, dropped: set<nat>,
                                        asked: seq<K>)
    requires Accounted(s, dropped, asked) && Enabled(s, e)
    ensures Accounted(Apply(o, s, e), DroppedNow(s, e, dropped), asked + AskedNow(e))
  {
    if e.Request? {
      AccountedRequest(o, s, e.key, dropped, asked);
    } else {
      AccountedSettled(o, s, e, dropped, asked);
      assert asked + [] == asked;
    }
  }

  lemma Together<T>(a: seq<T>, b: seq<T>, c: seq<T>)
    ensures (a + b) + c == a + (b + c)
  {
  }

  lemma {:induction false} AccountedRun<K(!new), V(!new)>(o: Options<K, V>, s: Sys<K, V>, es: seq<Event<K, V>>,
                                                          dropped: set<nat>, asked: seq<K>)
    requires Accounted(s, dropped, asked) && ValidRun(o, s, es)
    ensures Accounted(After(o, s, es), Dropped(o, s, es, dropped), asked + Asked(es))
    decreases |es|
  {
    hide Accounted, Apply, DroppedNow;
    if es == [] {
      assert asked + [] == asked;
    } else {
      AccountedStep(o, s, es[0], dropped, asked);
      AccountedRun(o, Apply(o, s, es[0]), es[1..], DroppedNow(s, es[0], dropped), asked + AskedNow(es[0]));
      Together(asked, AskedNow(es[0]), Asked(es[1..]));
    }
  }

  // In every interleaving each request is in exactly one place: it has a reply to its own key, its fetch
  // was rejected, its own fetch is under way, or it waits for a shared fetch that is running.
  lemma EveryCallerIsAnswered<K(!new), V(!new)>(o: Options<K, V>, es: seq<Event<K, V>>, r: nat)
    requires ValidRun(o, Empty(), es) && r < |Asked(es)|
    ensures var s := After(o, Empty(), es);
      && InOnePlace(s, Dropped(o, Empty(), es, {}), r, Asked(es)[r])
      && (r in s.waiting ==> s.waiting[r].fetch in s.running)
  {
    AccountedRun(o, Empty(), es, {}, []);
    assert [] + Asked(es) == Asked(es);
    InvRun(o, Empty(), es);
    var s := After(o, Empty(), es);
    hide ValidRun, After;
    assert r in s.waiting ==> WaitsRightly(o, s.running, s.waiting[r]);
  }

  // ---- What is stored ----

  ghost predicate AllCacheable<K, V>(o: Options<K, V>, items: Items<V>) {
    forall e :: e in items ==> o.shouldCacheValue(e.value)
  }

  lemma CacheableStep<K, V>(o: Options<K, V>, s: Sys<K, V>, e: Event<K, V>)
    requires Inv(o, s) && AllCacheable(o, s.items) && Enabled(s, e)
    ensures AllCacheable(o, Apply(o, s, e).items)
  {
    InvDistinct(o, s);
    match e
    case Request(key) =>
      var k := o.keyToString(key);
      if OnRequest(o, s.items, s.inFlight, key).Hit? {
        TouchMovesToEnd(s.items, k);
        forall x | x in Touch(s.items, k)
          ensures o.shouldCacheValue(x.value)
        {
          DeleteKeeps(s.items, k, x);
        }
      }
    case Complete(fetch, value) =>
      var k := o.keyToString(s.running[fetch]);
      EndFetchFlights(o, s, fetch);
      StoreApart(s.items, s.inFlight, k, value, o.capacity);
      StoreAppends(s.items, k, value, o.capacity);
    case _ =>
  }

  lemma {:induction false} CacheableRun<K, V>(o: Options<K, V>, s: Sys<K, V>, es: seq<Event<K, V>>)
    requires Inv(o, s) && AllCacheable(o, s.items) && ValidRun(o, s, es)
    ensures AllCacheable(o, After(o, s, es).items)
    decreases |es|
  {
    hide Inv, AllCacheable, Apply;
    if es == [] {
    } else {
      InvStep(o, s, es[0]);
      CacheableStep(o, s, es[0]);
      CacheableRun(o, Apply(o, s, es[0]), es[1..]);
    }
  }

  lemma LastHasEnd(ks: seq<string>, k: string, n: nat)
    requires k !in ks
    ensures k in Last(ks + [k], n) <==> n > 0
  {
    if n > 0 {
      assert Last(ks + [k], n)[|Last(ks + [k], n)| - 1] == k;
    }
  }

  // The values of the fetches completed in a run.
  ghost predicate Completed<K, V>(es: seq<Event<K, V>>, value: V) {
    exists i :: 0 <= i < |es| && es[i].Complete? && es[i].value == value
  }

  ghost predicate FromCompleted<K, V>(items: Items<V>, values: iset<V>) {
    forall e :: e in items ==> e.value in values
  }

  lemma FromCompletedStep<K, V>(o: Options<K, V>, s: Sys<K, V>, e: Event<K, V>, values: iset<V>)
    requires Inv(o, s) && FromCompleted<K, V>(s.items, values) && Enabled(s, e)
    requires e.Complete? ==> e.value in values
    ensures FromCompleted<K, V>(Apply(o, s, e).items, values)
  {
    InvDistinct(o, s);
    match e
    case Request(key) =>
      var k := o.keyToString(key);
      if OnRequest(o, s.items, s.inFlight, key).Hit? {
        TouchMovesToEnd(s.items, k);
        forall x | x in Touch(s.items, k)
          ensures x.value in values
        {
          DeleteKeeps(s.items, k, x);
        }
      }
    case Complete(fetch, value) =>
      var k := o.keyToString(s.running[fetch]);
      EndFetchFlights(o, s, fetch);
      StoreApart(s.items, s.inFlight, k, value, o.capacity);
      StoreAppends(s.items, k, value, o.capacity);
    case _ =>
  }

  lemma {:induction false} FromCompletedRun<K, V>(o: Options<K, V>, s: Sys<K, V>, es: seq<Event<K, V>>, values: iset<V>)
    requires Inv(o, s) && FromCompleted<K, V>(s.items, values) && ValidRun(o, s, es)
    requires forall i :: 0 <= i < |es| && es[i].Complete? ==> es[i].value in values
    ensures FromCompleted<K, V>(After(o, s, es).items, values)
    decreases |es|
  {
    hide Inv, FromCompleted, Apply;
    if es == [] {
    } else {
      InvStep(o, s, es[0]);
      FromCompletedStep(o, s, es[0], values);
      FromCompletedRun(o, Apply(o, s, es[0]), es[1..], values);
    }
  }

  // Nothing survives a clear: whatever is cached later comes from a fetch that completed after it.
  lemma ClearForgets<K, V(!new)>(o: Options<K, V>, es: seq<Event<K, V>>, fs: seq<Event<K, V>>, e: Entry<V>)
    requires ValidRun(o, Empty(), es) && ValidRun(o, Apply(o, After(o, Empty(), es), Clear), fs)
    requires e in After(o, Apply(o, After(o, Empty(), es), Clear), fs).items
    ensures Completed(fs, e.value)
  {
    InvRun(o, Empty(), es);
    var s := After(o, Empty(), es);
    InvStep(o, s, Clear);
    var values := iset v: V | Completed(fs, v);
    FromCompletedRun(o, Apply(o, s, Clear), fs, values);
  }

  // A fetched value is kept under its cache key exactly if it may be stored and there is room for one;
  // at no time does the cache hold a value that may not.
  lemma KeptIffCacheable<K, V>(o: Options<K, V>, es: seq<Event<K, V>>, fetch: nat, value: V)
    requires ValidRun(o, Empty(), es) && fetch in After(o, Empty(), es).running
    ensures var s := After(o, Empty(), es);
      var k := o.keyToString(s.running[fetch]);
      Has(OnComplete(o, s, fetch, value).items, k) <==> o.shouldCacheValue(value) && o.capacity > 0
    ensures AllCacheable(o, After(o, Empty(), es).items)
  {
    InvRun(o, Empty(), es);
    CacheableRun(o, Empty(), es);
    var s := After(o, Empty(), es);
    hide ValidRun, After;
    var k := o.keyToString(s.running[fetch]);
    InvDistinct(o, s);
    EndFetchFlights(o, s, fetch);
    StoreApart(s.items, s.inFlight, k, value, o.capacity);
    StoreAppends(s.items, k, value, o.capacity);
    HasKeys(Store(s.items, k, value, o.capacity), k);
    HasKeys(s.items, k);
    LastHasEnd(Keys(s.items), k, o.capacity);
  }

  // ---- Values ----

  ghost predicate ReturnsFetched<K, V>(s: Sys<K, V>, fetched: K -> V, e: Event<K, V>)
    requires Enabled(s, e)
  {
    match e
    case Complete(fetch, value) => value == fetched(s.running[fetch])
    case CompleteDirect(r, value) => value == fetched(s.direct[r])
    case _ => true
  }

  // The fetcher of a key always returns the same value.
  ghost predicate Deterministic<K, V>(o: Options<K, V>, s: Sys<K, V>, fetched: K -> V, es: seq<Event<K, V>>)
    requires ValidRun(o, s, es)
    decreases |es|
  {
    es == [] || (ReturnsFetched(s, fetched, es[0]) && Deterministic(o, Apply(o, s, es[0]), fetched, es[1..]))
  }

  // Cacheable keys with one cache key are fetched alike.
  ghost predicate Respects<K(!new), V>(o: Options<K, V>, fetched: K -> V) {
    forall a, b :: o.shouldCache(a) && o.shouldCache(b) && o.keyToString(a) == o.keyToString(b) ==>
      fetched(a) == fetched(b)
  }

  ghost predicate Cached<K(!new), V>(o: Options<K, V>, fetched: K -> V, e: Entry<V>) {
    forall key {:trigger fetched(key)} :: o.shouldCache(key) && o.keyToString(key) == e.key ==> e.value == fetched(key)
  }

  ghost predicate Right<K(!new), V>(o: Options<K, V>, fetched: K -> V, s: Sys<K, V>) {
    && (forall e :: e in s.items ==> Cached(o, fetched, e))
    && (forall r :: r in s.replies ==> s.replies[r].value == fetched(s.replies[r].key))
  }

  lemma RightRequest<K(!new), V>(o: Options<K, V>, s: Sys<K, V>, fetched: K -> V, key: K)
    requires Inv(o, s) && Right(o, fetched, s)
    ensures Right(o, fetched, OnStart(o, s, key))
  {
    var k := o.keyToString(key);
    hide Flights, Apart;
    if OnRequest(o, s.items, s.inFlight, key).Hit? {
      InvDistinct(o, s);
      TouchMovesToEnd(s.items, k);
      var e := Entry(k, Get(s.items, k));
      assert Cached(o, fetched, e);
      assert e.value == fetched(key);
      forall x | x in Touch(s.items, k)
        ensures Cached(o, fetched, x)
      {
        DeleteKeeps(s.items, k, x);
      }
    }
  }

  lemma RightComplete<K(!new), V>(o: Options<K, V>, s: Sys<K, V>, fetched: K -> V, fetch: nat, value: V)
    requires Respects(o, fetched) && Inv(o, s) && Right(o, fetched, s)
    requires fetch in s.running && value == fetched(s.running[fetch])
    ensures Right(o, fetched, OnComplete(o, s, fetch, value))
  {
    var key := s.running[fetch];
    var k := o.keyToString(key);
    assert FlightOf(o, s.inFlight, s.running, fetch);
    assert Cached(o, fetched, Entry(k, value));
    forall w | w in Callers(s, fetch)
      ensures value == fetched(s.waiting[w].key)
    {
      assert WaitsRightly(o, s.running, s.waiting[w]);
    }
    InvDistinct(o, s);
    StoreApart(s.items, s.inFlight, k, value, o.capacity);
    StoreAppends(s.items, k, value, o.capacity);
  }

  lemma RightStep<K(!new), V>(o: Options<K, V>, s: Sys<K, V>, fetched: K -> V, e: Event<K, V>)
    requires Respects(o, fetched) && Inv(o, s) && Right(o, fetched, s)
    requires Enabled(s, e) && ReturnsFetched(s, fetched, e)
    ensures Right(o, fetched, Apply(o, s, e))
  {
    match e
    case Request(key) => RightRequest(o, s, fetched, key);
    case Complete(fetch, value) => RightComplete(o, s, fetched, fetch, value);
    case Reject(fetch) =>
    case CompleteDirect(r, value) =>
    case RejectDirect(r) =>
    case Clear =>
  }

  lemma {:induction false} RightRun<K(!new), V>(o: Options<K, V>, s: Sys<K, V>, fetched: K -> V, es: seq<Event<K, V>>)
    requires Respects(o, fetched) && Inv(o, s) && Right(o, fetched, s)
    requires ValidRun(o, s, es) && Deterministic(o, s, fetched, es)
    ensures Right(o, fetched, After(o, s, es))
    decreases |es|
  {
    if es == [] {
    } else {
      RightStep(o, s, fetched, es[0]);
      InvStep(o, s, es[0]);
      RightRun(o, Apply(o, s, es[0]), fetched, es[1..]);
    }
  }

  ghost predicate AnswersRightly<K, V>(o: Options<K, V>, fetched: K -> V, es: seq<Event<K, V>>) {
    ValidRun(o, Empty(), es) && Deterministic(o, Empty(), fetched, es) ==>
      forall r :: r in After(o, Empty(), es).replies ==>
        After(o, Empty(), es).replies[r].value == fetched(After(o, Empty(), es).replies[r].key)
  }

  // Every caller in every interleaving gets what a direct fetch would return, if and only if keys
  // that share a cache key are fetched alike.
  lemma RepliesAreDirectFetches<K(!new), V>(o: Options<K, V>, fetched: K -> V, es: seq<Event<K, V>>)
    requires Respects(o, fetched)
    ensures AnswersRightly(o, fetched, es)
  {
    if ValidRun(o, Empty(), es) && Deterministic(o, Empty(), fetched, es) {
      RightRun(o, Empty(), fetched, es);
    }
  }

  lemma Cons<K, V>(o: Options<K, V>, s: Sys<K, V>, fetched: K -> V, e: Event<K, V>, es: seq<Event<K, V>>)
    requires Enabled(s, e) && ReturnsFetched(s, fetched, e)
    requires ValidRun(o, Apply(o, s, e), es) && Deterministic(o, Apply(o, s, e), fetched, es)
    ensures ValidRun(o, s, [e] + es) && Deterministic(o, s, fetched, [e] + es)
    ensures After(o, s, [e] + es) == After(o, Apply(o, s, e), es)
  {
    assert ([e] + es)[1..] == es;
  }

  lemma CollidingKeysAreMixedUp<K(!new), V>(o: Options<K, V>, fetched: K -> V) returns (es: seq<Event<K, V>>)
    requires !Respects(o, fetched)
    ensures !AnswersRightly(o, fetched, es)
  {
    var a, b :|
      o.shouldCache(a) && o.shouldCache(b) && o.keyToString(a) == o.keyToString(b) && fetched(a) != fetched(b);
    var s0: Sys<K, V> := Empty();
    var s1 := OnStart(o, s0, a);
    assert OnRequest(o, s0.items, s0.inFlight, a) == Start;
    var s2 := OnStart(o, s1, b);
    assert OnRequest(o, s1.items, s1.inFlight, b) == Join(0);
    assert s2.waiting == map[0 := Waiter(a, 0), 1 := Waiter(b, 0)] && s2.running == map[0 := a];
    var s3 := OnComplete(o, s2, 0, fetched(a));
    assert 1 in Callers(s2, 0);
    assert s3.replies[1] == Reply(b, fetched(a));
    es := [Complete(0, fetched(a))] + [];
    Cons(o, s2, fetched, Complete(0, fetched(a)), []);
    Cons(o, s1, fetched, Request(b), es);
    es := [Request(b)] + es;
    Cons(o, s0, fetched, Request(a), es);
    es := [Request(a)] + es;
  }

  // ---- Requests one after another ----

  // A request with the value its fetch returns, if one is needed.
  datatype Demand<K, V> = Demand(key: K, value: V)

  // One request, and the completion of the fetch it starts.
  ghost function GetOne<K, V>(o: Options<K, V>, s: Sys<K, V>, get: Demand<K, V>): Sys<K, V> {
    var asked := OnStart(o, s, get.key);
    if s.next in asked.running then OnComplete(o, asked, s.next, get.value) else asked
  }

  ghost function GetEach<K, V>(o: Options<K, V>, s: Sys<K, V>, gets: seq<Demand<K, V>>): Sys<K, V>
    decreases |gets|
  {
    if gets == [] then s else GetEach(o, GetOne(o, s, gets[0]), gets[1..])
  }

  // Requests one after another are a run of the system.
  lemma {:induction false} GetEachIsARun<K, V>(o: Options<K, V>, s: Sys<K, V>, gets: seq<Demand<K, V>>)
    returns (es: seq<Event<K, V>>)
    ensures ValidRun(o, s, es) && After(o, s, es) == GetEach(o, s, gets)
    decreases |gets|
  {
    if gets == [] {
      es := [];
    } else {
      var get, asked := gets[0], OnStart(o, s, gets[0].key);
      hide OnStart, OnComplete;
      var rest := GetEachIsARun(o, GetOne(o, s, get), gets[1..]);
      if s.next in asked.running {
        var completed := [Complete(s.next, get.value)] + rest;
        assert completed[1..] == rest && ValidRun(o, asked, completed);
        es := [Request(get.key)] + completed;
        assert es[1..] == completed;
      } else {
        es := [Request(get.key)] + rest;
        assert es[1..] == rest;
      }
    }
  }

  ghost predicate Cacheable<K, V>(o: Options<K, V>, gets: seq<Demand<K, V>>) {
    forall i :: 0 <= i < |gets| ==> o.shouldCache(gets[i].key) && o.shouldCacheValue(gets[i].value)
  }

  ghost function CacheKeys<K, V>(o: Options<K, V>, gets: seq<Demand<K, V>>): seq<string> {
    if gets == [] then [] else [o.keyToString(gets[0].key)] + CacheKeys(o, gets[1..])
  }

  // No fetch is under way.
  ghost predicate Still<K, V>(o: Options<K, V>, s: Sys<K, V>) {
    Inv(o, s) && s.inFlight == map[] && s.running == map[]
  }

  // A request of a cacheable key is a hit, or starts a fetch when none is under way.
  lemma StillAsked<K, V>(o: Options<K, V>, s: Sys<K, V>, key: K)
    requires Still(o, s) && o.shouldCache(key)
    ensures var asked, k := OnStart(o, s, key), o.keyToString(key);
      if s.next in asked.running then
        && asked.inFlight == map[k := s.next] && asked.running == map[s.next := key] && asked.touched == s.touched
      else
        asked.inFlight == map[] && asked.running == map[] && asked.touched == s.touched + [k]
  {
    hide Inv, Touch;
  }

  lemma GetOneTouches<K, V>(o: Options<K, V>, s: Sys<K, V>, get: Demand<K, V>)
    requires Still(o, s) && o.shouldCache(get.key) && o.shouldCacheValue(get.value)
    ensures Still(o, GetOne(o, s, get)) && GetOne(o, s, get).touched == s.touched + [o.keyToString(get.key)]
  {
    var asked := OnStart(o, s, get.key);
    RequestInv(o, s, get.key);
    StillAsked(o, s, get.key);
    if s.next in asked.running {
      CompleteInv(o, asked, s.next, get.value);
    }
    hide Inv, OnStart, Store, Callers;
  }

  lemma {:induction false} GetEachTouches<K, V>(o: Options<K, V>, s: Sys<K, V>, gets: seq<Demand<K, V>>)
    requires Still(o, s) && Cacheable(o, gets)
    ensures Still(o, GetEach(o, s, gets)) && GetEach(o, s, gets).touched == s.touched + CacheKeys(o, gets)
    decreases |gets|
  {
    hide Still, GetOne;
    if gets == [] {
    } else {
      GetOneTouches(o, s, gets[0]);
      GetEachTouches(o, GetOne(o, s, gets[0]), gets[1..]);
    }
  }

  lemma GetEachIsRecent<K, V>(o: Options<K, V>, gets: seq<Demand<K, V>>)
    requires Cacheable(o, gets)
    ensures Keys(GetEach(o, Empty(), gets).items) == Recent(CacheKeys(o, gets), o.capacity)
  {
    GetEachTouches(o, Empty(), gets);
    assert [] + CacheKeys(o, gets) == CacheKeys(o, gets);
    hide GetEach, Recent, CacheKeys;
  }

  lemma {:induction false} SameCacheKeys<K, V>(small: Options<K, V>, large: Options<K, V>, gets: seq<Demand<K, V>>)
    requires small.keyToString == large.keyToString
    ensures CacheKeys(small, gets) == CacheKeys(large, gets)
  {
    if gets == [] {
    } else {
      SameCacheKeys(small, large, gets[1..]);
    }
  }

  // The stack property: on requests one after another, what a smaller cache holds, a larger one holds
  // too.
  lemma LargerCacheHoldsMore<K, V>(small: Options<K, V>, large: Options<K, V>, gets: seq<Demand<K, V>>, k: string)
    requires small.capacity <= large.capacity && small == large.(capacity := small.capacity) && Cacheable(small, gets)
    requires Has(GetEach(small, Empty(), gets).items, k)
    ensures Has(GetEach(large, Empty(), gets).items, k)
  {
    assert Cacheable(large, gets);
    SameCacheKeys(small, large, gets);
    GetEachIsRecent(small, gets);
    GetEachIsRecent(large, gets);
    SmallerIsIncluded(CacheKeys(small, gets), small.capacity, large.capacity);
    hide GetEach, Recent, CacheKeys;
    HasKeys(GetEach(small, Empty(), gets).items, k);
    HasKeys(GetEach(large, Empty(), gets).items, k);
  }
}
