/** What capacity does to the compression cache over a whole request sequence.  Each request is a
    lookup followed, on a miss, by a store, which is how `compress_messages` uses the cache. */
module CacheCapacity {
  import opened Base
  import opened RecencyList
  import opened CompressionCache

  function LastN<T>(s: seq<T>, n: nat): seq<T> {
    if |s| <= n then s else s[|s| - n..]
  }

  /** The distinct keys requested so far, in order of their last request. */
  function Recent<K(==), V>(rs: seq<Request<K, V>>): seq<K> {
    if rs == [] then []
    else var k := rs[|rs| - 1].key; Remove(Recent(rs[..|rs| - 1]), k) + [k]
  }

  /** The recency list and the number of hits after serving the requests from an empty cache. */
  function Replay<K(==), V>(rs: seq<Request<K, V>>, ttl: nat, max: nat): (seq<Slot<K, V>>, nat) {
    if rs == [] then ([], 0)
    else
      var (s, hits) := Replay(rs[..|rs| - 1], ttl, max);
      var r := rs[|rs| - 1];
      (Served(s, r, ttl, max), hits + if Hits(s, r, ttl) then 1 else 0)
  }

  /** The monotonic clock never runs backwards, within a request or from one to the next. */
  ghost predicate Clock<K, V>(rs: seq<Request<K, V>>) {
    && (forall i :: 0 <= i < |rs| ==> rs[i].getTime <= rs[i].putTime)
    && (forall i, j :: 0 <= i < j < |rs| ==> rs[i].putTime <= rs[j].getTime)
  }

  lemma ServedKeys<K, V>(s: seq<Slot<K, V>>, r: Request<K, V>, ttl: nat, max: nat)
    requires Distinct(Keys(s)) && |s| <= max && max >= 1
    ensures Keys(Served(s, r, ttl, max)) == OrderAfterPut(Keys(s), r.key, max)
    ensures Distinct(Keys(Served(s, r, ttl, max))) && |Served(s, r, ttl, max)| <= max
  {
    var k := r.key;
    FindKeys(s, k);
    RemoveDistinct(Keys(s), k);
    var looked := Lookup(s, k, r.getTime, ttl);
    if k in Keys(s) {
      var without := Without(s, k);
      assert Keys(without) == Remove(Keys(s), k);
      assert k !in Keys(without);
      if looked.1.Some? {
        KeysAppend(without, [Find(s, k).value]);
      } else {
        KeysAppend(without, [Slot(k, r.putTime, r.value)]);
      }
    } else if |s| >= max {
      assert Keys(s[1..]) == Keys(s)[1..];
      KeysAppend(s[1..], [Slot(k, r.putTime, r.value)]);
    } else {
      KeysAppend(s, [Slot(k, r.putTime, r.value)]);
    }
    assert Keys([Slot(k, r.putTime, r.value)]) == [k];
  }

  lemma RecentDistinct<K, V>(rs: seq<Request<K, V>>)
    ensures Distinct(Recent(rs))
  {
    if rs != [] {
      RecentDistinct(rs[..|rs| - 1]);
      RemoveDistinct(Recent(rs[..|rs| - 1]), rs[|rs| - 1].key);
    }
  }

  /** Position of the last request for `k`, or -1. */
  function LastRequest<K(==), V>(rs: seq<Request<K, V>>, k: K): (p: int)
    ensures -1 <= p < |rs|
    ensures p >= 0 ==> rs[p].key == k
    ensures forall i :: p < i < |rs| ==> rs[i].key != k
  {
    if rs == [] then -1 else if rs[|rs| - 1].key == k then |rs| - 1 else LastRequest(rs[..|rs| - 1], k)
  }

  lemma RemoveKeepsOrder<T>(s: seq<T>, x: T, i: nat, j: nat) returns (i': nat, j': nat)
    requires i < j < |Remove(s, x)|
    ensures i' < j' < |s| && s[i'] == Remove(s, x)[i] && s[j'] == Remove(s, x)[j]
  {
    if x in s {
      RemoveAt(s, x);
      var n := IndexOf(s, x);
      i', j' := if i < n then i else i + 1, if j < n then j else j + 1;
    } else {
      RemoveAbsent(s, x);
      i', j' := i, j;
    }
  }

  /** The keys requested so far, each once, in the order of their last requests. */
  lemma {:induction false} RecentExactly<K, V>(rs: seq<Request<K, V>>)
    ensures forall k :: k in Recent(rs) <==> LastRequest(rs, k) >= 0
    ensures forall i, j :: 0 <= i < j < |Recent(rs)| ==> LastRequest(rs, Recent(rs)[i]) < LastRequest(rs, Recent(rs)[j])
  {
    if rs != [] {
      var init, k := rs[..|rs| - 1], rs[|rs| - 1].key;
      var before, others := Recent(init), Remove(Recent(init), k);
      RecentExactly(init);
      RecentDistinct(init);
      RemoveDistinct(before, k);
      forall i, j | 0 <= i < j < |Recent(rs)| ensures LastRequest(rs, Recent(rs)[i]) < LastRequest(rs, Recent(rs)[j]) {
        assert others[i] in others;
        if j < |others| {
          assert others[j] in others;
          var i', j' := RemoveKeepsOrder(before, k, i, j);
        }
      }
    }
  }

  lemma LastNSplit<T>(gone: seq<T>, kept: seq<T>, n: nat)
    requires |kept| == n || (gone == [] && |kept| <= n)
    ensures LastN(gone + kept, n) == kept
  {}

  lemma LastNStep<K>(recent: seq<K>, k: K, max: nat)
    requires Distinct(recent) && max >= 1
    ensures LastN(Remove(recent, k) + [k], max) == OrderAfterPut(LastN(recent, max), k, max)
  {
    var kept := LastN(recent, max);
    var gone := recent[..|recent| - |kept|];
    assert recent == gone + kept;
    if k in kept {
      assert k !in gone by {
        var i :| 0 <= i < |kept| && kept[i] == k;
        assert recent[|gone| + i] == k;
      }
      LastNTouchKept(gone, kept, k, max);
    } else {
      LastNTouchGone(gone, kept, k, max);
    }
  }

  lemma LastNTouchKept<K>(gone: seq<K>, kept: seq<K>, k: K, max: nat)
    requires k in kept && k !in gone
    requires |kept| == max || (gone == [] && |kept| <= max)
    ensures LastN(Remove(gone + kept, k) + [k], max) == Remove(kept, k) + [k]
  {
    RemoveAppend(gone, kept, k);
    RemoveAt(kept, k);
    assert Remove(gone + kept, k) + [k] == gone + (Remove(kept, k) + [k]);
    LastNSplit(gone, Remove(kept, k) + [k], max);
  }

  lemma LastNTouchGone<K>(gone: seq<K>, kept: seq<K>, k: K, max: nat)
    requires k !in kept && max >= 1
    requires |kept| == max || (gone == [] && |kept| <= max)
    ensures LastN(Remove(gone + kept, k) + [k], max) == OrderAfterPut(kept, k, max)
  {
    RemoveAppend(gone, kept, k);
    RemoveAbsent(kept, k);
    var gone' := Remove(gone, k);
    if k !in gone { RemoveAbsent(gone, k); }
    assert Remove(gone + kept, k) == gone' + kept;
    if |kept| == max {
      LastNShift(gone', kept, k, max);
    } else {
      assert gone' + kept + [k] == [] + (kept + [k]);
      LastNSplit([], kept + [k], max);
    }
  }

  lemma LastNShift<K>(gone: seq<K>, kept: seq<K>, k: K, max: nat)
    requires |kept| == max >= 1
    ensures LastN(gone + kept + [k], max) == kept[1..] + [k]
  {
    assert gone + kept + [k] == (gone + [kept[0]]) + (kept[1..] + [k]);
    LastNSplit(gone + [kept[0]], kept[1..] + [k], max);
  }

  /** A cache of capacity `max` always holds exactly the `max` most recently requested keys, in
      request order, whatever has expired in between. */
  lemma {:induction false} HoldsMostRecent<K, V>(rs: seq<Request<K, V>>, ttl: nat, max: nat)
    requires max >= 1
    ensures Keys(Replay(rs, ttl, max).0) == LastN(Recent(rs), max)
    ensures Distinct(Recent(rs)) && Distinct(Keys(Replay(rs, ttl, max).0))
    ensures |Replay(rs, ttl, max).0| <= max
  {
    RecentDistinct(rs);
    if rs != [] {
      var init := rs[..|rs| - 1];
      HoldsMostRecent(init, ttl, max);
      LastNStep(Recent(init), rs[|rs| - 1].key, max);
      ServedKeys(Replay(init, ttl, max).0, rs[|rs| - 1], ttl, max);
    }
  }

  /** Inclusion: the keys of the smaller cache are the tail of the keys of the larger one. */
  lemma Inclusion<K, V>(rs: seq<Request<K, V>>, ttl: nat, small: nat, large: nat)
    requires 1 <= small <= large
    ensures Keys(Replay(rs, ttl, small).0) == LastN(Keys(Replay(rs, ttl, large).0), small)
  {
    HoldsMostRecent(rs, ttl, small);
    HoldsMostRecent(rs, ttl, large);
    LastNTwice(Recent(rs), small, large);
  }

  lemma LastNTwice<T>(s: seq<T>, small: nat, large: nat)
    requires small <= large
    ensures LastN(LastN(s, large), small) == LastN(s, small)
  {}

  // ----- hits -----

  lemma ServedFind<K, V>(s: seq<Slot<K, V>>, r: Request<K, V>, ttl: nat, max: nat, j: K)
    requires Distinct(Keys(s)) && |s| <= max && max >= 1
    ensures var s' := Served(s, r, ttl, max);
      && (j != r.key && j in Keys(s') ==> Find(s', j) == Find(s, j))
      && (j == r.key && Hits(s, r, ttl) ==> Find(s', j) == Find(s, j) && j in Keys(s))
      && (j == r.key && !Hits(s, r, ttl) ==> Find(s', j) == Some(Slot(j, r.putTime, r.value)))
  {
    FindKeys(s, r.key);
    var room, slot := ServedShape(s, r, ttl, max);
    FindAfterAppend(s, room, slot, j);
  }

  /** A request ends with the slot of its key at the most-recent end. */
  lemma ServedShape<K, V>(s: seq<Slot<K, V>>, r: Request<K, V>, ttl: nat, max: nat)
    returns (room: seq<Slot<K, V>>, slot: Slot<K, V>)
    requires Distinct(Keys(s)) && |s| <= max && max >= 1
    ensures Served(s, r, ttl, max) == room + [slot] && slot.key == r.key
    ensures if Hits(s, r, ttl) then Find(s, r.key) == Some(slot) else slot == Slot(r.key, r.putTime, r.value)
    ensures room == Without(s, slot.key) || (slot.key !in Keys(s) && (room == s || (s != [] && room == s[1..])))
  {
    var k := r.key;
    FindKeys(s, k);
    if Hits(s, r, ttl) {
      room, slot := Without(s, k), Find(s, k).value;
    } else {
      slot := Slot(k, r.putTime, r.value);
      if k in Keys(s) {
        RemoveDistinct(Keys(s), k);
        room := Without(s, k);
      } else {
        room := MakeRoom(s, k, max);
      }
    }
  }

  /** Appending a slot for a key that has been removed, or was never there. */
  lemma FindAfterAppend<K, V>(s: seq<Slot<K, V>>, room: seq<Slot<K, V>>, slot: Slot<K, V>, j: K)
    requires Distinct(Keys(s))
    requires room == Without(s, slot.key) || (slot.key !in Keys(s) && (room == s || (s != [] && room == s[1..])))
    ensures j != slot.key && j in Keys(room + [slot]) ==> Find(room + [slot], j) == Find(s, j)
    ensures j == slot.key ==> Find(room + [slot], j) == Some(slot)
  {
    FindAppend(room, [slot], j);
    FindKeys(s, slot.key);
    FindKeys(room, j);
    KeysAppend(room, [slot]);
    if room == Without(s, slot.key) {
      RemoveDistinct(Keys(s), slot.key);
      if j != slot.key { FindOther(s, slot.key, j); }
    } else if room == s {
    } else {
      assert Keys(s)[1..] == Keys(room);
      assert Keys(s)[0] !in Keys(s)[1..];
    }
  }

  function StampOf<K(==), V>(s: seq<Slot<K, V>>, k: K): real {
    if Find(s, k).Some? then Find(s, k).value.at else 0.0
  }

  /** Keys both caches hold, where the smaller cache has the more recently computed entry. */
  ghost function Fresher<K(!new), V>(small: seq<Slot<K, V>>, large: seq<Slot<K, V>>): set<K> {
    set k | k in Keys(small) && StampOf(small, k) > StampOf(large, k)
  }

  ghost predicate StampedBy<K, V>(s: seq<Slot<K, V>>, now: real) {
    forall i :: 0 <= i < |s| ==> s[i].at <= now
  }

  lemma ServedStamps<K, V>(s: seq<Slot<K, V>>, r: Request<K, V>, ttl: nat, max: nat)
    requires StampedBy(s, r.getTime) && r.getTime <= r.putTime
    ensures StampedBy(Served(s, r, ttl, max), r.putTime)
  {
    FindKeys(s, r.key);
    forall x | x in Without(s, r.key) ensures x.at <= r.getTime {
      WithoutMembers(s, r.key, x);
    }
    var without := Without(s, r.key);
    assert forall i :: 0 <= i < |without| ==> without[i] in without;
    forall x | x in Without(without, r.key) ensures x.at <= r.getTime {
      WithoutMembers(without, r.key, x);
    }
    assert forall x :: x in s ==> x.at <= r.getTime;
    var s' := Served(s, r, ttl, max);
    forall x | x in s' ensures x.at <= r.putTime {}
  }

  ghost predicate Nested<K, V>(small: seq<Slot<K, V>>, large: seq<Slot<K, V>>, m: nat) {
    && Distinct(Keys(small)) && Distinct(Keys(large))
    && Keys(small) == LastN(Keys(large), m)
    && |small| <= m
  }

  /** One request served by two nested caches: the hits of the larger one keep up with the hits of
      the smaller one plus the number of entries the smaller one holds fresher. */
  lemma StepPotential<K(!new), V>(small: seq<Slot<K, V>>, large: seq<Slot<K, V>>, r: Request<K, V>, ttl: nat, m: nat, n: nat)
    requires 1 <= m <= n && Nested(small, large, m) && |large| <= n
    requires StampedBy(small, r.getTime) && StampedBy(large, r.getTime) && r.getTime <= r.putTime
    requires forall k :: k in Keys(Served(small, r, ttl, m)) ==> k in Keys(Served(large, r, ttl, n))
    ensures var small', large' := Served(small, r, ttl, m), Served(large, r, ttl, n);
      (if Hits(small, r, ttl) then 1 else 0) + |Fresher(small', large')|
        <= (if Hits(large, r, ttl) then 1 else 0) + |Fresher(small, large)|
  {
    var small', large' := Served(small, r, ttl, m), Served(large, r, ttl, n);
    var F, F' := Fresher(small, large), Fresher(small', large');
    ServedKeys(small, r, ttl, m);
    RemoveDistinct(Keys(small), r.key);
    forall k | k in F' && k != r.key ensures k in F {
      ServedFind(small, r, ttl, m, k);
      ServedFind(large, r, ttl, n, k);
      FindKeys(small', k);
      FindKeys(small, k);
    }
    PotentialOfKey(small, large, r, ttl, m, n);
    if Hits(large, r, ttl) && !Hits(small, r, ttl) {
      SubsetSize(F', F + {r.key});
    } else if Hits(small, r, ttl) && !Hits(large, r, ttl) {
      SubsetSize(F', F - {r.key});
    } else {
      SubsetSize(F', F);
    }
  }

  /** What the request does to the requested key itself. */
  lemma PotentialOfKey<K(!new), V>(small: seq<Slot<K, V>>, large: seq<Slot<K, V>>, r: Request<K, V>, ttl: nat, m: nat, n: nat)
    requires 1 <= m <= n && Nested(small, large, m) && |large| <= n
    requires StampedBy(small, r.getTime) && StampedBy(large, r.getTime) && r.getTime <= r.putTime
    ensures var F, F' := Fresher(small, large), Fresher(Served(small, r, ttl, m), Served(large, r, ttl, n));
      && (Hits(small, r, ttl) && !Hits(large, r, ttl) ==> r.key in F && r.key !in F')
      && (Hits(small, r, ttl) == Hits(large, r, ttl) && r.key in F' ==> r.key in F)
  {
    FindKeys(small, r.key);
    FindKeys(large, r.key);
    ServedFind(small, r, ttl, m, r.key);
    ServedFind(large, r, ttl, n, r.key);
  }

  lemma {:induction false} HitPotential<K(!new), V>(rs: seq<Request<K, V>>, ttl: nat, small: nat, large: nat)
    requires 1 <= small <= large && Clock(rs)
    ensures Replay(rs, ttl, small).1 + |Fresher(Replay(rs, ttl, small).0, Replay(rs, ttl, large).0)|
         <= Replay(rs, ttl, large).1
    ensures forall t :: (forall i :: 0 <= i < |rs| ==> rs[i].putTime <= t) ==>
      StampedBy(Replay(rs, ttl, small).0, t) && StampedBy(Replay(rs, ttl, large).0, t)
  {
    if rs != [] {
      var init, r := rs[..|rs| - 1], rs[|rs| - 1];
      HitPotential(init, ttl, small, large);
      var s, l := Replay(init, ttl, small).0, Replay(init, ttl, large).0;
      assert StampedBy(s, r.getTime) && StampedBy(l, r.getTime);
      NestedReplays(init, ttl, small, large);
      NestedReplays(rs, ttl, small, large);
      StepPotential(s, l, r, ttl, small, large);
      ServedStamps(s, r, ttl, small);
      ServedStamps(l, r, ttl, large);
    }
  }

  lemma NestedReplays<K, V>(rs: seq<Request<K, V>>, ttl: nat, small: nat, large: nat)
    requires 1 <= small <= large
    ensures Nested(Replay(rs, ttl, small).0, Replay(rs, ttl, large).0, small)
    ensures |Replay(rs, ttl, large).0| <= large
    ensures forall k :: k in Keys(Replay(rs, ttl, small).0) ==> k in Keys(Replay(rs, ttl, large).0)
  {
    HoldsMostRecent(rs, ttl, small);
    HoldsMostRecent(rs, ttl, large);
    Inclusion(rs, ttl, small, large);
  }

  /** A larger cache never has fewer hits in total, even though entries expire. */
  lemma HitsMonotone<K(!new), V>(rs: seq<Request<K, V>>, ttl: nat, small: nat, large: nat)
    requires 1 <= small <= large && Clock(rs)
    ensures Replay(rs, ttl, small).1 <= Replay(rs, ttl, large).1
  {
    HitPotential(rs, ttl, small, large);
  }

  // ----- single hits -----

  /** Every slot was put there by some request. */
  lemma {:induction false} StampsArePuts<K, V>(rs: seq<Request<K, V>>, ttl: nat, max: nat, x: Slot<K, V>)
    requires max >= 1 && x in Replay(rs, ttl, max).0
    ensures exists i :: 0 <= i < |rs| && rs[i].putTime == x.at
  {
    if rs != [] {
      var init, r := rs[..|rs| - 1], rs[|rs| - 1];
      var s := Replay(init, ttl, max).0;
      HoldsMostRecent(init, ttl, max);
      ServedMembers(s, r, ttl, max, x);
      if x in s {
        StampsArePuts(init, ttl, max, x);
        var i :| 0 <= i < |init| && init[i].putTime == x.at;
        assert rs[i].putTime == x.at;
      }
    }
  }

  lemma ServedMembers<K, V>(s: seq<Slot<K, V>>, r: Request<K, V>, ttl: nat, max: nat, x: Slot<K, V>)
    requires Distinct(Keys(s)) && |s| <= max && max >= 1 && x in Served(s, r, ttl, max)
    ensures x in s || x == Slot(r.key, r.putTime, r.value)
  {
    var room, slot := ServedShape(s, r, ttl, max);
    FindKeys(s, r.key);
    if x != slot {
      assert x in room;
      if room == Without(s, slot.key) { WithoutMembers(s, slot.key, x); }
    }
  }

  /** If the smaller cache hits then so does the larger one. */
  ghost predicate HitKept<K, V>(rs: seq<Request<K, V>>, r: Request<K, V>, ttl: nat, small: nat, large: nat) {
    Hits(Replay(rs, ttl, small).0, r, ttl) ==> Hits(Replay(rs, ttl, large).0, r, ttl)
  }

  /** At the last request no earlier one is longer ago than `d`. */
  ghost predicate Within<K, V>(rs: seq<Request<K, V>>, r: Request<K, V>, d: real) {
    forall i :: 0 <= i < |rs| ==> r.getTime - rs[i].putTime <= d
  }

  /** While no entry can have expired, no hit is lost by a larger capacity. */
  lemma HitKeptWhileFresh<K, V>(rs: seq<Request<K, V>>, r: Request<K, V>, ttl: nat, small: nat, large: nat)
    requires 1 <= small <= large
    requires forall i :: 0 <= i < |rs| ==> r.getTime - rs[i].putTime < ttl as real
    ensures HitKept(rs, r, ttl, small, large)
  {
    var s, l := Replay(rs, ttl, small).0, Replay(rs, ttl, large).0;
    FindKeys(s, r.key);
    FindKeys(l, r.key);
    NestedReplays(rs, ttl, small, large);
    if Find(l, r.key).Some? { StampsArePuts(rs, ttl, large, Find(l, r.key).value); }
  }

  /** Keys 0 to n - 1, each requested once at time 0. */
  function Fill(n: nat): seq<Request<int, int>> {
    if n == 0 then [] else Fill(n - 1) + [Request(n - 1, 0.0, 0.0, 0)]
  }

  lemma {:induction false} FillIs(n: nat)
    ensures |Fill(n)| == n && forall i :: 0 <= i < n ==> Fill(n)[i] == Request(i, 0.0, 0.0, 0)
  {
    if n > 0 { FillIs(n - 1); }
  }

  lemma RecentSnoc<K, V>(rs: seq<Request<K, V>>, r: Request<K, V>)
    ensures Recent(rs + [r]) == Remove(Recent(rs), r.key) + [r.key]
  {
    assert (rs + [r])[..|rs|] == rs;
  }

  lemma UpToSnoc(n: nat)
    ensures UpTo(n + 1) == UpTo(n) + [n] && n !in UpTo(n)
  {}

  lemma {:induction false} RecentOfFill(n: nat)
    ensures Recent(Fill(n)) == UpTo(n)
  {
    if n > 0 {
      RecentOfFill(n - 1);
      RecentSnoc(Fill(n - 1), Request(n - 1, 0.0, 0.0, 0));
      UpToSnoc(n - 1);
      RemoveAbsent(UpTo(n - 1), n - 1);
    }
  }

  lemma LastNOfUpTo(n: nat, max: nat)
    requires 1 <= max
    ensures max <= n ==> 0 !in LastN(UpTo(n + 1), max)
    ensures max > n ==> LastN(UpTo(n + 1), max) == UpTo(n + 1) && 0 in UpTo(n + 1)
  {
    if max > n { assert UpTo(n + 1)[0] == 0; }
  }

  /** Keys 0 to n have been requested, each once and at time 0. */
  ghost predicate Filled(fill: seq<Request<int, int>>, n: nat) {
    Recent(fill) == UpTo(n + 1) && forall i :: 0 <= i < |fill| ==> fill[i].putTime == 0.0
  }

  /** A cache of at most n slots has evicted key 0. */
  lemma EvictedAfterFill(fill: seq<Request<int, int>>, n: nat, ttl: nat, max: nat)
    requires Filled(fill, n) && 1 <= max <= n
    ensures Find(Replay(fill, ttl, max).0, 0).None?
  {
    HoldsMostRecent(fill, ttl, max);
    LastNOfUpTo(n, max);
    FindKeys(Replay(fill, ttl, max).0, 0);
  }

  /** A larger one still holds it, as of time 0. */
  lemma HeldAfterFill(fill: seq<Request<int, int>>, n: nat, ttl: nat, max: nat)
    requires Filled(fill, n) && max > n
    ensures Find(Replay(fill, ttl, max).0, 0).Some?
    ensures Find(Replay(fill, ttl, max).0, 0).value.at == 0.0
  {
    HoldsMostRecent(fill, ttl, max);
    LastNOfUpTo(n, max);
    FindKeys(Replay(fill, ttl, max).0, 0);
    StampsArePuts(fill, ttl, max, Find(Replay(fill, ttl, max).0, 0).value);
  }

  /** Having evicted key 0, a cache computes it afresh and hits. */
  lemma FreshHit(s: seq<Slot<int, int>>, q: Request<int, int>, r: Request<int, int>, ttl: nat, max: nat)
    requires Distinct(Keys(s)) && |s| <= max && max >= 1
    requires Find(s, q.key).None? && q.key == r.key && r.getTime - q.putTime < ttl as real
    ensures Hits(Served(s, q, ttl, max), r, ttl)
  {
    FindKeys(s, q.key);
    ServedFind(s, q, ttl, max, q.key);
  }

  /** Holding it still, a cache hits now and misses once the entry has expired. */
  lemma StaleMiss(s: seq<Slot<int, int>>, q: Request<int, int>, r: Request<int, int>, ttl: nat, max: nat)
    requires Distinct(Keys(s)) && |s| <= max && max >= 1
    requires Find(s, q.key).Some? && q.key == r.key
    requires q.getTime - Find(s, q.key).value.at < ttl as real <= r.getTime - Find(s, q.key).value.at
    ensures !Hits(Served(s, q, ttl, max), r, ttl)
  {
    KeptStamp(s, q, ttl, max);
  }

  lemma FillTimes(n: nat, q: Request<int, int>, r: Request<int, int>)
    requires 0.0 <= q.getTime == q.putTime <= r.getTime == r.putTime
    ensures Clock(Fill(n) + [q] + [r]) && Within(Fill(n) + [q], r, r.getTime)
  {
    FillIs(n);
    var all := Fill(n) + [q] + [r];
    forall i | 0 <= i < |all| ensures all[i].getTime == all[i].putTime {
      if i < n { assert all[i] == Fill(n)[i]; }
    }
    forall i, j | 0 <= i < j < |all| ensures all[i].putTime <= all[j].getTime {
      if i < n { assert all[i] == Fill(n)[i]; }
      if j < n { assert all[j] == Fill(n)[j]; }
    }
  }

  /** At the moment an entry can have expired, for any two capacities, a hit can be lost. */
  lemma HitLostAtExpiry(ttl: nat, small: nat, large: nat) returns (rs: seq<Request<int, int>>, r: Request<int, int>)
    requires 1 <= small < large && ttl >= 1
    ensures Clock(rs + [r]) && Within(rs, r, ttl as real)
    ensures !HitKept(rs, r, ttl, small, large)
  {
    var half := ttl as real / 2.0;
    var fill, q := Fill(small + 1), Request(0, half, half, 0);
    rs, r := fill + [q], Request(0, ttl as real, ttl as real, 0);
    FillTimes(small + 1, q, r);
    RecentOfFill(small + 1);
    FillIs(small + 1);
    HitLostAfter(fill, q, r, ttl, small, large);
  }

  lemma HitLostAfter(fill: seq<Request<int, int>>, q: Request<int, int>, r: Request<int, int>, ttl: nat, small: nat, large: nat)
    requires 1 <= small < large && Filled(fill, small) && q.key == r.key == 0
    requires q.getTime < ttl as real <= r.getTime && r.getTime - q.putTime < ttl as real
    ensures !HitKept(fill + [q], r, ttl, small, large)
  {
    HitAgain(fill, q, r, ttl, small);
    MissAtLast(fill, q, r, ttl, small, large);
  }

  lemma HitAgain(fill: seq<Request<int, int>>, q: Request<int, int>, r: Request<int, int>, ttl: nat, small: nat)
    requires 1 <= small && Filled(fill, small) && q.key == r.key == 0 && r.getTime - q.putTime < ttl as real
    ensures Hits(Replay(fill + [q], ttl, small).0, r, ttl)
  {
    EvictedAfterFill(fill, small, ttl, small);
    HoldsMostRecent(fill, ttl, small);
    FreshHit(Replay(fill, ttl, small).0, q, r, ttl, small);
    ReplayStep(fill, q, ttl, small);
  }

  lemma MissAtLast(fill: seq<Request<int, int>>, q: Request<int, int>, r: Request<int, int>, ttl: nat, small: nat, large: nat)
    requires 1 <= small < large && Filled(fill, small) && q.key == r.key == 0
    requires q.getTime < ttl as real <= r.getTime
    ensures !Hits(Replay(fill + [q], ttl, large).0, r, ttl)
  {
    HeldAfterFill(fill, small, ttl, large);
    HoldsMostRecent(fill, ttl, large);
    StaleMiss(Replay(fill, ttl, large).0, q, r, ttl, large);
    ReplayStep(fill, q, ttl, large);
  }

  /** A hit leaves the stamp of its entry alone. */
  lemma KeptStamp(s: seq<Slot<int, int>>, q: Request<int, int>, ttl: nat, max: nat)
    requires Distinct(Keys(s)) && |s| <= max && max >= 1
    requires Find(s, q.key).Some? && q.getTime - Find(s, q.key).value.at < ttl as real
    ensures Find(Served(s, q, ttl, max), q.key) == Find(s, q.key)
  {
    ServedFind(s, q, ttl, max, q.key);
  }

  /** Exactly when a larger cache keeps every single hit of a smaller one: for any two capacities, on all
      request sequences that span at most `d` seconds, if and only if `d` is below the time to live. */
  lemma SingleHitsKeptExactly(ttl: nat, small: nat, large: nat, d: real)
    requires 1 <= small < large && ttl >= 1
    ensures (forall rs: seq<Request<int, int>>, r: Request<int, int> ::
               Clock(rs + [r]) && Within(rs, r, d) ==> HitKept(rs, r, ttl, small, large))
       <==> d < ttl as real
  {
    if d < ttl as real {
      forall rs: seq<Request<int, int>>, r: Request<int, int> | Clock(rs + [r]) && Within(rs, r, d)
        ensures HitKept(rs, r, ttl, small, large)
      {
        HitKeptWhileFresh(rs, r, ttl, small, large);
      }
    } else {
      var rs, r := HitLostAtExpiry(ttl, small, large);
      assert Within(rs, r, d);
    }
  }

  /** Hit by hit it is not so: a larger cache can miss, on an expired entry, where a smaller one hits. */
  lemma SingleHitCanBeLost()
    ensures exists rs: seq<Request<int, int>>, r: Request<int, int> ::
      && Clock(rs + [r])
      && Hits(Replay(rs, 10, 1).0, r, 10)
      && !Hits(Replay(rs, 10, 2).0, r, 10)
  {
    var a, b, c := Request(1, 0.0, 0.0, 7), Request(2, 1.0, 1.0, 7), Request(1, 9.0, 9.0, 7);
    var r := Request(1, 10.0, 10.0, 7);
    var rs := [a] + [b] + [c];
    SmallAfterThree(a, b, c);
    LargeAfterThree(a, b, c);
    assert Clock(rs + [r]);
    assert Hits(Replay(rs, 10, 1).0, r, 10);
    var large := Replay(rs, 10, 2).0;
    assert large[1..] == [Slot(1, 0.0, 7)];
    assert Find(large, 1) == Some(Slot(1, 0.0, 7));
    assert !Hits(large, r, 10);
  }

  lemma SmallAfterThree(a: Request<int, int>, b: Request<int, int>, c: Request<int, int>)
    requires a == Request(1, 0.0, 0.0, 7) && b == Request(2, 1.0, 1.0, 7) && c == Request(1, 9.0, 9.0, 7)
    ensures Replay([a] + [b] + [c], 10, 1).0 == [Slot(1, 9.0, 7)]
  {
    var a1, b2 := Slot(1, 0.0, 7), Slot(2, 1.0, 7);
    ReplayStep([], a, 10, 1);
    assert [] + [a] == [a] && Replay([a], 10, 1).0 == [a1];
    ReplayStep([a], b, 10, 1);
    ServedMiss([a1], b);
    ReplayStep([a] + [b], c, 10, 1);
    ServedMiss([b2], c);
  }

  /** A miss in a full cache of one slot. */
  lemma ServedMiss(s: seq<Slot<int, int>>, r: Request<int, int>)
    requires |s| == 1 && s[0].key != r.key
    ensures Served(s, r, 10, 1) == [Slot(r.key, r.putTime, r.value)]
  {
    assert Keys(s) == [s[0].key] && s[1..] == [];
    assert Find(s, r.key) == None;
  }

  lemma LargeAfterThree(a: Request<int, int>, b: Request<int, int>, c: Request<int, int>)
    requires a == Request(1, 0.0, 0.0, 7) && b == Request(2, 1.0, 1.0, 7) && c == Request(1, 9.0, 9.0, 7)
    ensures Replay([a] + [b] + [c], 10, 2).0 == [Slot(2, 1.0, 7), Slot(1, 0.0, 7)]
  {
    var a1, b2 := Slot(1, 0.0, 7), Slot(2, 1.0, 7);
    ReplayStep([], a, 10, 2);
    assert [] + [a] == [a] && Replay([a], 10, 2).0 == [a1];
    ReplayStep([a], b, 10, 2);
    assert Keys([a1]) == [1] && [a1][1..] == [];
    assert Find([a1], 2) == None;
    assert Replay([a] + [b], 10, 2).0 == [a1, b2];
    ReplayStep([a] + [b], c, 10, 2);
    assert [a1, b2][1..] == [b2];
  }

  lemma ReplayStep<K, V>(rs: seq<Request<K, V>>, r: Request<K, V>, ttl: nat, max: nat)
    ensures Replay(rs + [r], ttl, max).0 == Served(Replay(rs, ttl, max).0, r, ttl, max)
  {
    assert (rs + [r])[..|rs|] == rs;
  }
}
