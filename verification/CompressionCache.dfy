/** The compression cache: a dictionary plus an access-order list with time-to-live expiry.
    `Recency` is the reference model, a plain list of slots from least to most recently used. */
module RecencyList {
  import opened Base

  datatype Slot<K, V> = Slot(key: K, at: real, value: V)

  function Keys<K, V>(s: seq<Slot<K, V>>): (r: seq<K>)
    ensures |r| == |s| && forall i :: 0 <= i < |s| ==> r[i] == s[i].key
  {
    seq(|s|, i requires 0 <= i < |s| => s[i].key)
  }

  ghost predicate Distinct<T>(s: seq<T>) {
    forall i, j :: 0 <= i < j < |s| ==> s[i] != s[j]
  }

  /** Python's `list.remove`: drop the first occurrence. */
  function Remove<T(==)>(s: seq<T>, x: T): seq<T> {
    if s == [] then [] else if s[0] == x then s[1..] else [s[0]] + Remove(s[1..], x)
  }

  function IndexOf<T(==)>(s: seq<T>, x: T): (i: nat)
    requires x in s
    ensures i < |s| && s[i] == x && x !in s[..i]
  {
    if s[0] == x then 0 else 1 + IndexOf(s[1..], x)
  }

  lemma {:induction false} RemoveAt<T>(s: seq<T>, x: T)
    requires x in s
    ensures Remove(s, x) == s[..IndexOf(s, x)] + s[IndexOf(s, x) + 1..]
  {
    if s[0] != x { RemoveAt(s[1..], x); }
  }

  lemma {:induction false} RemoveAbsent<T>(s: seq<T>, x: T)
    requires x !in s
    ensures Remove(s, x) == s
  {
    if s != [] { RemoveAbsent(s[1..], x); }
  }

  lemma {:induction false} RemoveAppend<T>(a: seq<T>, b: seq<T>, x: T)
    ensures Remove(a + b, x) == if x in a then Remove(a, x) + b else a + Remove(b, x)
  {
    if a == [] {
      assert a + b == b;
    } else {
      assert (a + b)[1..] == a[1..] + b;
      if a[0] != x { RemoveAppend(a[1..], b, x); }
    }
  }

  lemma {:induction false} RemoveDistinct<T>(s: seq<T>, x: T)
    requires Distinct(s)
    ensures Distinct(Remove(s, x))
    ensures forall y :: y in Remove(s, x) <==> y in s && y != x
    ensures |Remove(s, x)| == if x in s then |s| - 1 else |s|
  {
    if s != [] {
      assert s == [s[0]] + s[1..];
      DistinctTail(s);
      RemoveDistinct(s[1..], x);
      if s[0] != x { DistinctCons(s[0], Remove(s[1..], x)); }
    }
  }

  lemma DistinctTail<T>(s: seq<T>)
    requires s != [] && Distinct(s)
    ensures Distinct(s[1..]) && s[0] !in s[1..]
  {
    forall k | 0 <= k < |s[1..]| ensures s[1..][k] != s[0] { assert s[1..][k] == s[k + 1]; }
  }

  lemma DistinctCons<T>(x: T, s: seq<T>)
    requires Distinct(s) && x !in s
    ensures Distinct([x] + s)
  {
    var t := [x] + s;
    forall i, j | 0 <= i < j < |t| ensures t[i] != t[j] {
      if i > 0 { assert t[i] == s[i - 1]; }
      assert t[j] == s[j - 1];
    }
  }

  // ----- the reference operations -----

  function Find<K(==), V>(s: seq<Slot<K, V>>, k: K): Option<Slot<K, V>> {
    if s == [] then None else if s[0].key == k then Some(s[0]) else Find(s[1..], k)
  }

  function Without<K(==), V>(s: seq<Slot<K, V>>, k: K): seq<Slot<K, V>> {
    if s == [] then [] else if s[0].key == k then s[1..] else [s[0]] + Without(s[1..], k)
  }

  /** A lookup: an expired slot is dropped, a live one moves to the most-recent end. */
  function Lookup<K(==), V>(s: seq<Slot<K, V>>, k: K, now: real, ttl: nat): (seq<Slot<K, V>>, Option<V>) {
    match Find(s, k)
    case None => (s, None)
    case Some(slot) =>
      if now - slot.at >= ttl as real then (Without(s, k), None)
      else (Without(s, k) + [slot], Some(slot.value))
  }

  /** A store: the new slot goes to the most-recent end; a new key at capacity drops the first slot. */
  function Store<K(==), V>(s: seq<Slot<K, V>>, k: K, now: real, v: V, max: nat): seq<Slot<K, V>> {
    MakeRoom(s, k, max) + [Slot(k, now, v)]
  }

  function MakeRoom<K(==), V>(s: seq<Slot<K, V>>, k: K, max: nat): seq<Slot<K, V>> {
    if k in Keys(s) then Without(s, k) else if |s| >= max && s != [] then s[1..] else s
  }

  lemma {:induction false} FindKeys<K, V>(s: seq<Slot<K, V>>, k: K)
    ensures Find(s, k).Some? <==> k in Keys(s)
    ensures Find(s, k).Some? ==> Find(s, k).value in s && Find(s, k).value.key == k
    ensures Keys(Without(s, k)) == Remove(Keys(s), k)
  {
    if s != [] {
      assert Keys(s) == [s[0].key] + Keys(s[1..]);
      FindKeys(s[1..], k);
    }
  }

  lemma {:induction false} FindOther<K, V>(s: seq<Slot<K, V>>, k: K, j: K)
    requires j != k
    ensures Find(Without(s, k), j) == Find(s, j)
  {
    if s != [] && s[0].key != k && s[0].key != j { FindOther(s[1..], k, j); }
  }

  lemma {:induction false} FindAppend<K, V>(a: seq<Slot<K, V>>, b: seq<Slot<K, V>>, k: K)
    ensures Find(a + b, k) == if k in Keys(a) then Find(a, k) else Find(b, k)
  {
    if a == [] {
      assert a + b == b;
    } else {
      assert Keys(a) == [a[0].key] + Keys(a[1..]);
      assert (a + b)[1..] == a[1..] + b;
      FindAppend(a[1..], b, k);
    }
  }

  lemma {:induction false} WithoutAt<K, V>(s: seq<Slot<K, V>>, i: nat)
    requires Distinct(Keys(s)) && i < |s|
    ensures Find(s, s[i].key) == Some(s[i]) && Without(s, s[i].key) == s[..i] + s[i + 1..]
  {
    if i > 0 {
      assert Keys(s)[0] != Keys(s)[i];
      assert Keys(s)[1..] == Keys(s[1..]);
      assert s[1..][i - 1] == s[i];
      DistinctTail(Keys(s));
      WithoutAt(s[1..], i - 1);
    }
  }

  /** A lookup by position: a live slot moves to the end, an expired one is taken out, all others stay
      in order; a slot lives for less than `ttl` after its store. */
  lemma LookupAt<K, V>(s: seq<Slot<K, V>>, i: nat, now: real, ttl: nat)
    requires Distinct(Keys(s)) && i < |s|
    ensures Lookup(s, s[i].key, now, ttl) ==
      if now < s[i].at + ttl as real then (s[..i] + s[i + 1..] + [s[i]], Some(s[i].value)) else (s[..i] + s[i + 1..], None)
  {
    WithoutAt(s, i);
  }

  /** A store by position: it replaces the slot of its key, or, with a new key and no room, the first. */
  lemma StoreAt<K, V>(s: seq<Slot<K, V>>, i: nat, k: K, now: real, v: V, max: nat)
    requires Distinct(Keys(s)) && i < |s| <= max && max >= 1
    ensures Store(s, s[i].key, now, v, max) == s[..i] + s[i + 1..] + [Slot(s[i].key, now, v)]
    ensures (forall j :: 0 <= j < |s| ==> s[j].key != k) ==>
      && Store(s, k, now, v, max) == (if |s| == max then s[1..] else s) + [Slot(k, now, v)]
      && Lookup(s, k, now, max) == (s, None)
  {
    WithoutAt(s, i);
    FindKeys(s, k);
    assert Keys(s)[i] == s[i].key;
  }

  lemma KeysAppend<K, V>(a: seq<Slot<K, V>>, b: seq<Slot<K, V>>)
    ensures Keys(a + b) == Keys(a) + Keys(b)
  {}

  lemma {:induction false} WithoutMembers<K, V>(s: seq<Slot<K, V>>, k: K, x: Slot<K, V>)
    requires x in Without(s, k)
    ensures x in s
    ensures Distinct(Keys(s)) ==> x.key != k
  {
    if s != [] {
      if s[0].key == k {
        assert Distinct(Keys(s)) ==> forall i :: 1 <= i < |s| ==> Keys(s)[0] != Keys(s)[i];
      } else if x != s[0] {
        assert Distinct(Keys(s)) ==> Distinct(Keys(s[1..])) by {
          assert Keys(s)[1..] == Keys(s[1..]);
        }
        WithoutMembers(s[1..], k, x);
      }
    }
  }
}

module CompressionCache {
  import opened Base
  import opened RecencyList
  import H = CacheHistory

  datatype Stats = Stats(size: nat, maxSize: nat, ttlSeconds: nat, hits: nat, misses: nat, evictions: nat)

  class CompressionCache<M, K(==,!new), V> {
    const hashMessages: M -> K
    const maxSize: nat
    const ttlSeconds: nat
    var cache: map<K, (real, V)>
    var accessOrder: seq<K>
    var hits: nat
    var misses: nat
    var evictions: nat

    ghost predicate Valid()
      reads this
    {
      && maxSize >= 1
      && Matches(accessOrder, cache)
      && |accessOrder| <= maxSize
    }

    /** The cache as one list of slots, least recently used first. */
    ghost function Recency(): seq<Slot<K, V>>
      reads this
      requires Valid()
    {
      Slots(accessOrder, cache)
    }

    /** The state the histories in `CacheHistory` are about. */
    ghost function View(): H.State<K, V>
      reads this
      requires Valid()
    {
      H.State(Recency(), hits, misses, evictions)
    }

    constructor (hashMessages: M -> K, maxSize: nat, ttlSeconds: nat)
      requires maxSize >= 1
      ensures Valid() && View() == H.Run([], ttlSeconds, maxSize)
      ensures this.hashMessages == hashMessages && this.maxSize == maxSize && this.ttlSeconds == ttlSeconds
    {
      this.hashMessages, this.maxSize, this.ttlSeconds := hashMessages, maxSize, ttlSeconds;
      cache, accessOrder := map[], [];
      hits, misses, evictions := 0, 0, 0;
    }

    method Get(messages: M, now: real) returns (result: Option<V>)
      requires Valid()
      modifies this
      ensures Valid()
      ensures View() == H.Step(old(View()), H.Get(hashMessages(messages), now), ttlSeconds, maxSize)
      ensures result == Lookup(old(Recency()), hashMessages(messages), now, ttlSeconds).1
    {
      var key := hashMessages(messages);
      LookupSlots(accessOrder, cache, key, now, ttlSeconds);
      if key !in cache {
        misses := misses + 1;
        return None;
      }
      var (timestamp, value) := cache[key];
      if now - timestamp >= ttlSeconds as real {
        cache := cache - {key};
        accessOrder := Remove(accessOrder, key);
        misses := misses + 1;
        evictions := evictions + 1;
        return None;
      }
      accessOrder := Remove(accessOrder, key);
      accessOrder := accessOrder + [key];
      hits := hits + 1;
      return Some(value);
    }

    method Put(messages: M, value: V, now: real)
      requires Valid()
      modifies this
      ensures Valid()
      ensures View() == H.Step(old(View()), H.Put(hashMessages(messages), now, value), ttlSeconds, maxSize)
    {
      var key := hashMessages(messages);
      CacheSize(accessOrder, cache);
      StoreSlots(accessOrder, cache, key, now, value, maxSize);
      if key in cache {
        accessOrder := Remove(accessOrder, key);
      } else if |cache| >= maxSize {
        EvictOne();
      }
      cache := cache[key := (now, value)];
      accessOrder := accessOrder + [key];
    }

    method EvictOne()
      requires Valid()
      modifies this
      ensures Valid()
      ensures hits == old(hits) && misses == old(misses)
      ensures old(accessOrder) == [] ==>
        accessOrder == [] && cache == old(cache) && evictions == old(evictions)
      ensures old(accessOrder) != [] ==>
        && accessOrder == old(accessOrder)[1..]
        && cache == old(cache) - {old(accessOrder)[0]}
        && evictions == old(evictions) + 1
    {
      if accessOrder != [] {
        var oldestKey := accessOrder[0];
        accessOrder := accessOrder[1..];
        cache := cache - {oldestKey};
        evictions := evictions + 1;
        assert forall k :: k in old(accessOrder) <==> k == oldestKey || k in accessOrder;
      }
    }

    method GetStats() returns (s: Stats)
      requires Valid()
      ensures s == Stats(|Recency()|, maxSize, ttlSeconds, hits, misses, evictions)
    {
      CacheSize(accessOrder, cache);
      s := Stats(|cache|, maxSize, ttlSeconds, hits, misses, evictions);
    }

    method Clear()
      requires Valid()
      modifies this
      ensures Valid() && View() == H.Run([], ttlSeconds, maxSize)
    {
      cache, accessOrder := map[], [];
      hits, misses, evictions := 0, 0, 0;
    }

    /** The use `compress_messages` makes of the cache: look up, and on a miss compute and store.
        `computed` is the result the chosen strategy would produce. */
    method Serve(messages: M, computed: V, getTime: real, putTime: real) returns (result: V, cacheHit: bool)
      requires Valid()
      modifies this
      ensures Valid()
      ensures var r := Request(hashMessages(messages), getTime, putTime, computed);
        && Recency() == Served(old(Recency()), r, ttlSeconds, maxSize)
        && cacheHit == Hits(old(Recency()), r, ttlSeconds)
        && result == (if cacheHit then Find(old(Recency()), r.key).value.value else computed)
      ensures hits == old(hits) + (if cacheHit then 1 else 0)
    {
      FindKeys(Recency(), hashMessages(messages));
      var cached := Get(messages, getTime);
      match cached {
        case Some(value) => return value, true;
        case None =>
          Put(messages, computed, putTime);
          return computed, false;
      }
    }
  }

  datatype Request<K, V> = Request(key: K, getTime: real, putTime: real, value: V)

  predicate Hits<K(==), V>(s: seq<Slot<K, V>>, r: Request<K, V>, ttl: nat) {
    Lookup(s, r.key, r.getTime, ttl).1.Some?
  }

  function Served<K(==), V>(s: seq<Slot<K, V>>, r: Request<K, V>, ttl: nat, max: nat): seq<Slot<K, V>> {
    var looked := Lookup(s, r.key, r.getTime, ttl);
    if looked.1.Some? then looked.0 else Store(looked.0, r.key, r.putTime, r.value, max)
  }

  // ----- the dictionary and the order list as one list of slots -----

  ghost function Slots<K, V>(order: seq<K>, cache: map<K, (real, V)>): (s: seq<Slot<K, V>>)
    requires forall k :: k in order ==> k in cache
    ensures |s| == |order|
    ensures Keys(s) == order
  {
    seq(|order|, i requires 0 <= i < |order| => Slot(order[i], cache[order[i]].0, cache[order[i]].1))
  }

  lemma {:induction false} SlotsFind<K, V>(order: seq<K>, cache: map<K, (real, V)>, k: K)
    requires forall x :: x in order ==> x in cache
    ensures Find(Slots(order, cache), k) == if k in order then Some(Slot(k, cache[k].0, cache[k].1)) else None
  {
    if order != [] {
      assert Slots(order, cache)[1..] == Slots(order[1..], cache);
      SlotsFind(order[1..], cache, k);
    }
  }

  lemma {:induction false} SlotsRemove<K, V>(order: seq<K>, cache: map<K, (real, V)>, cache': map<K, (real, V)>, k: K)
    requires Distinct(order)
    requires forall x :: x in order ==> x in cache
    requires forall x :: x in order && x != k ==> x in cache' && cache'[x] == cache[x]
    ensures forall x :: x in Remove(order, k) ==> x in cache'
    ensures Slots(Remove(order, k), cache') == Without(Slots(order, cache), k)
  {
    RemoveDistinct(order, k);
    if order == [] {
    } else if order[0] == k {
      assert order[1..] == Remove(order, k);
      SlotsAgree(order[1..], cache, cache');
      assert Slots(order, cache)[1..] == Slots(order[1..], cache);
    } else {
      assert Slots(order, cache)[1..] == Slots(order[1..], cache);
      SlotsRemove(order[1..], cache, cache', k);
      var rest := Remove(order[1..], k);
      assert Remove(order, k) == [order[0]] + rest;
      assert forall x :: x in rest ==> x in Remove(order, k);
      SlotsCons(order[0], rest, cache');
    }
  }

  lemma SlotsCons<K, V>(k: K, order: seq<K>, cache: map<K, (real, V)>)
    requires k in cache && forall x :: x in order ==> x in cache
    ensures Slots([k] + order, cache) == [Slot(k, cache[k].0, cache[k].1)] + Slots(order, cache)
  {}

  lemma SlotsSnoc<K, V>(order: seq<K>, k: K, cache: map<K, (real, V)>)
    requires k in cache && forall x :: x in order ==> x in cache
    ensures Slots(order + [k], cache) == Slots(order, cache) + [Slot(k, cache[k].0, cache[k].1)]
  {}

  lemma SlotsAgree<K, V>(order: seq<K>, cache: map<K, (real, V)>, cache': map<K, (real, V)>)
    requires forall x :: x in order ==> x in cache && x in cache' && cache'[x] == cache[x]
    ensures Slots(order, cache) == Slots(order, cache')
  {}

  ghost predicate Matches<K(!new), V>(order: seq<K>, cache: map<K, (real, V)>) {
    Distinct(order) && forall k :: k in order <==> k in cache
  }

  /** What a lookup leaves of the two structures, and its result. */
  ghost function AfterGet<K, V>(order: seq<K>, cache: map<K, (real, V)>, key: K, now: real, ttl: nat)
    : (seq<K>, map<K, (real, V)>, Option<V>)
  {
    if key !in cache then (order, cache, None)
    else if now - cache[key].0 >= ttl as real then (Remove(order, key), cache - {key}, None)
    else (Remove(order, key) + [key], cache, Some(cache[key].1))
  }

  lemma LookupSlots<K(!new), V>(order: seq<K>, cache: map<K, (real, V)>, key: K, now: real, ttl: nat)
    requires Matches(order, cache)
    ensures var after := AfterGet(order, cache, key, now, ttl);
      && Matches(after.0, after.1)
      && |after.0| == |order| - (if key in cache && now - cache[key].0 >= ttl as real then 1 else 0)
      && Lookup(Slots(order, cache), key, now, ttl) == (Slots(after.0, after.1), after.2)
  {
    SlotsFind(order, cache, key);
    if key in cache {
      RemoveDistinct(order, key);
      SlotsRemove(order, cache, cache - {key}, key);
      SlotsRemove(order, cache, cache, key);
      SlotsSnoc(Remove(order, key), key, cache);
    }
  }

  ghost function OrderAfterPut<K>(order: seq<K>, key: K, max: nat): seq<K> {
    (if key in order then Remove(order, key) else if |order| >= max && order != [] then order[1..] else order) + [key]
  }

  /** What a store leaves of the two structures. */
  ghost function AfterPut<K, V>(order: seq<K>, cache: map<K, (real, V)>, key: K, now: real, value: V, max: nat)
    : (seq<K>, map<K, (real, V)>)
  {
    if key in cache then (Remove(order, key) + [key], cache[key := (now, value)])
    else if |cache| >= max && order != [] then (order[1..] + [key], (cache - {order[0]})[key := (now, value)])
    else (order + [key], cache[key := (now, value)])
  }

  lemma StoreSlots<K(!new), V>(order: seq<K>, cache: map<K, (real, V)>, key: K, now: real, value: V, max: nat)
    requires Matches(order, cache) && max >= 1 && |order| <= max
    ensures var after := AfterPut(order, cache, key, now, value, max);
      && Matches(after.0, after.1) && |after.0| <= max
      && Slots(after.0, after.1) == Store(Slots(order, cache), key, now, value, max)
  {
    CacheSize(order, cache);
    if key in cache {
      StoreKnown(order, cache, key, now, value);
    } else if |order| >= max {
      StoreEvicting(order, cache, key, now, value);
    } else {
      StoreLast(order, cache, cache, key, now, value);
    }
  }

  lemma StoreKnown<K(!new), V>(order: seq<K>, cache: map<K, (real, V)>, key: K, now: real, value: V)
    requires Matches(order, cache) && key in cache
    ensures Matches(Remove(order, key) + [key], cache[key := (now, value)])
    ensures |Remove(order, key)| == |order| - 1
    ensures Slots(Remove(order, key) + [key], cache[key := (now, value)])
         == Without(Slots(order, cache), key) + [Slot(key, now, value)]
  {
    RemoveDistinct(order, key);
    SlotsRemove(order, cache, cache, key);
    StoreLast(Remove(order, key), cache, cache, key, now, value);
  }

  lemma StoreEvicting<K(!new), V>(order: seq<K>, cache: map<K, (real, V)>, key: K, now: real, value: V)
    requires Matches(order, cache) && key !in cache && order != []
    ensures Matches(order[1..] + [key], (cache - {order[0]})[key := (now, value)])
    ensures Slots(order[1..] + [key], (cache - {order[0]})[key := (now, value)])
         == Slots(order, cache)[1..] + [Slot(key, now, value)]
  {
    SlotsTail(order, cache);
    StoreLast(order[1..], cache, cache - {order[0]}, key, now, value);
  }

  lemma SlotsTail<K(!new), V>(order: seq<K>, cache: map<K, (real, V)>)
    requires Matches(order, cache) && order != []
    ensures Distinct(order[1..]) && order[0] !in order[1..]
    ensures forall x :: x in order <==> x == order[0] || x in order[1..]
    ensures forall x :: x in order[1..] ==> x in cache
    ensures Slots(order, cache)[1..] == Slots(order[1..], cache)
  {
    DistinctTail(order);
    assert order == [order[0]] + order[1..];
  }

  lemma StoreLast<K(!new), V>(kept: seq<K>, cache: map<K, (real, V)>, rest: map<K, (real, V)>, key: K, now: real, value: V)
    requires Distinct(kept) && key !in kept
    requires forall x :: x in kept ==> x in cache && x in rest && rest[x] == cache[x]
    requires forall x :: x in rest ==> x in kept || x == key
    ensures Matches(kept + [key], rest[key := (now, value)])
    ensures Slots(kept + [key], rest[key := (now, value)]) == Slots(kept, cache) + [Slot(key, now, value)]
  {
    SlotsAgree(kept, cache, rest[key := (now, value)]);
    SlotsSnoc(kept, key, rest[key := (now, value)]);
  }

  lemma CacheSize<K(!new), V>(order: seq<K>, cache: map<K, (real, V)>)
    requires Matches(order, cache)
    ensures |cache| == |order|
  {
    assert cache.Keys == set k | k in order;
    DistinctSize(order);
  }

  lemma {:induction false} DistinctSize<T>(s: seq<T>)
    requires Distinct(s)
    ensures |set x | x in s| == |s|
  {
    if s != [] {
      DistinctSize(s[1..]);
      assert (set x | x in s) == {s[0]} + set x | x in s[1..];
    }
  }
}
