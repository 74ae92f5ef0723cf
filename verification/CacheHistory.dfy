/** The compression cache over an arbitrary history of lookups and stores since the last clear. */
module CacheHistory {
  import opened Base
  import opened RecencyList

  datatype Op<K, V> = Get(key: K, now: real) | Put(key: K, now: real, value: V)

  datatype State<K, V> = State(slots: seq<Slot<K, V>>, hits: nat, misses: nat, evictions: int)

  function Step<K(==), V>(st: State<K, V>, op: Op<K, V>, ttl: nat, max: nat): State<K, V> {
    match op
    case Get(k, now) =>
      var (slots, found) := Lookup(st.slots, k, now, ttl);
      State(slots,
            st.hits + if found.Some? then 1 else 0,
            st.misses + if found.None? then 1 else 0,
            st.evictions + |st.slots| - |slots|)
    case Put(k, now, v) =>
      State(Store(st.slots, k, now, v, max), st.hits, st.misses,
            st.evictions + if k !in Keys(st.slots) && |st.slots| >= max then 1 else 0)
  }

  function Run<K(==), V>(ops: seq<Op<K, V>>, ttl: nat, max: nat): State<K, V> {
    if ops == [] then State([], 0, 0, 0)
    else Step(Run(ops[..|ops| - 1], ttl, max), ops[|ops| - 1], ttl, max)
  }

  function Gets<K, V>(ops: seq<Op<K, V>>): nat {
    if ops == [] then 0 else Gets(ops[..|ops| - 1]) + if ops[|ops| - 1].Get? then 1 else 0
  }

  /** Stores of a key the cache did not hold at the time. */
  function FreshInserts<K(==), V>(ops: seq<Op<K, V>>, ttl: nat, max: nat): nat {
    if ops == [] then 0
    else
      var init, op := ops[..|ops| - 1], ops[|ops| - 1];
      FreshInserts(init, ttl, max) +
        if op.Put? && op.key !in Keys(Run(init, ttl, max).slots) then 1 else 0
  }

  /** Position of the latest store of `k`, or -1. */
  function LatestPut<K(==), V>(ops: seq<Op<K, V>>, k: K): (p: int)
    ensures -1 <= p < |ops|
    ensures p >= 0 ==> ops[p].Put? && ops[p].key == k
    ensures forall i :: p < i < |ops| && ops[i].Put? ==> ops[i].key != k
  {
    if ops == [] then -1
    else if ops[|ops| - 1].Put? && ops[|ops| - 1].key == k then |ops| - 1
    else LatestPut(ops[..|ops| - 1], k)
  }

  /** Position of the latest store or successful lookup of `k`, or -1. */
  function LastUse<K(==), V>(ops: seq<Op<K, V>>, k: K, ttl: nat, max: nat): (p: int)
    ensures -1 <= p < |ops|
  {
    if ops == [] then -1
    else
      var init, op := ops[..|ops| - 1], ops[|ops| - 1];
      if op.key == k && (op.Put? || Lookup(Run(init, ttl, max).slots, k, op.now, ttl).1.Some?) then |ops| - 1
      else LastUse(init, k, ttl, max)
  }

  /** How one operation reshapes the recency list. */
  ghost predicate Reshaped<K, V>(s: seq<Slot<K, V>>, op: Op<K, V>, ttl: nat, s': seq<Slot<K, V>>) {
    var found := Lookup(s, op.key, op.now, ttl).1;
    if op.Get? && Find(s, op.key).None? then s' == s
    else if op.Get? && found.None? then s' == Without(s, op.key)
    else
      s' != [] && var room, slot := s'[..|s'| - 1], s'[|s'| - 1];
        && slot.key == op.key
        && (op.Put? ==> slot == Slot(op.key, op.now, op.value))
        && (op.Get? ==> Find(s, op.key) == Some(slot))
        && (room == Without(s, op.key) || (op.key !in Keys(s) && (room == s || (s != [] && room == s[1..]))))
  }

  lemma StepReshapes<K, V>(st: State<K, V>, op: Op<K, V>, ttl: nat, max: nat)
    requires Distinct(Keys(st.slots)) && |st.slots| <= max && max >= 1
    ensures Reshaped(st.slots, op, ttl, Step(st, op, ttl, max).slots)
    ensures var s' := Step(st, op, ttl, max).slots;
      Distinct(Keys(s')) && |s'| <= max
  {
    var s, k := st.slots, op.key;
    var s' := Step(st, op, ttl, max).slots;
    FindKeys(s, k);
    RemoveDistinct(Keys(s), k);
    if op.Put? {
      var room, slot := s'[..|s'| - 1], Slot(k, op.now, op.value);
      assert s' == room + [slot];
      KeysAppend(room, [slot]);
      assert k !in Keys(room) by {
        if k !in Keys(s) && |s| >= max { assert Keys(room) == Keys(s)[1..]; }
      }
      assert Distinct(Keys(room)) by {
        if k !in Keys(s) && |s| >= max { assert Keys(room) == Keys(s)[1..]; }
      }
    } else if Find(s, k).Some? {
      KeysAppend(Without(s, k), [Find(s, k).value]);
    }
  }

  /** The counters account for every operation: each lookup is a hit or a miss, and each store of a
      new key is still present or has been evicted; the capacity is never exceeded. */
  lemma {:induction false} Bookkeeping<K, V>(ops: seq<Op<K, V>>, ttl: nat, max: nat)
    requires max >= 1
    ensures var st := Run(ops, ttl, max);
      && st.hits + st.misses == Gets(ops)
      && FreshInserts(ops, ttl, max) == |st.slots| + st.evictions
      && st.evictions >= 0
      && |st.slots| <= max
      && Distinct(Keys(st.slots))
  {
    if ops != [] {
      var init, op := ops[..|ops| - 1], ops[|ops| - 1];
      Bookkeeping(init, ttl, max);
      var st := Run(init, ttl, max);
      StepReshapes(st, op, ttl, max);
      FindKeys(st.slots, op.key);
      RemoveDistinct(Keys(st.slots), op.key);
    }
  }

  lemma ReshapedMembers<K, V>(s: seq<Slot<K, V>>, op: Op<K, V>, ttl: nat, s': seq<Slot<K, V>>, x: Slot<K, V>)
    requires Distinct(Keys(s)) && Reshaped(s, op, ttl, s') && x in s'
    ensures (x in s && (op.Put? ==> x.key != op.key)) || (op.Put? && x == Slot(op.key, op.now, op.value))
  {
    FindKeys(s, op.key);
    if x in Without(s, op.key) { WithoutMembers(s, op.key, x); }
    if x in s && x.key == op.key {
      var i :| 0 <= i < |s| && s[i] == x;
      assert Keys(s)[i] == op.key;
    }
  }

  /** Every slot holds what the latest store of its key put there. */
  lemma {:induction false} SlotsHoldLatestPut<K, V>(ops: seq<Op<K, V>>, ttl: nat, max: nat, x: Slot<K, V>)
    requires max >= 1 && x in Run(ops, ttl, max).slots
    ensures LatestPut(ops, x.key) >= 0
    ensures ops[LatestPut(ops, x.key)] == Put(x.key, x.at, x.value)
  {
    if ops != [] {
      var init, op := ops[..|ops| - 1], ops[|ops| - 1];
      var st := Run(init, ttl, max);
      Bookkeeping(init, ttl, max);
      StepReshapes(st, op, ttl, max);
      ReshapedMembers(st.slots, op, ttl, Run(ops, ttl, max).slots, x);
      if x in st.slots && (op.Put? ==> x.key != op.key) {
        SlotsHoldLatestPut(init, ttl, max, x);
        assert LatestPut(ops, x.key) == LatestPut(init, x.key);
      }
    }
  }

  /** A lookup returns the value of the latest store of the key, and only within its time to live. */
  lemma HitReturnsLatestPut<K, V>(ops: seq<Op<K, V>>, ttl: nat, max: nat, k: K, now: real)
    requires max >= 1 && Lookup(Run(ops, ttl, max).slots, k, now, ttl).1.Some?
    ensures var p := LatestPut(ops, k);
      && p >= 0
      && Lookup(Run(ops, ttl, max).slots, k, now, ttl).1 == Some(ops[p].value)
      && now - ops[p].now < ttl as real
  {
    var s := Run(ops, ttl, max).slots;
    FindKeys(s, k);
    SlotsHoldLatestPut(ops, ttl, max, Find(s, k).value);
  }

  /** The list is in order of last use. */
  ghost predicate InUseOrder<K, V>(s: seq<Slot<K, V>>, ops: seq<Op<K, V>>, ttl: nat, max: nat) {
    forall i, j :: 0 <= i < j < |s| ==> LastUse(ops, s[i].key, ttl, max) < LastUse(ops, s[j].key, ttl, max)
  }

  lemma {:induction false} WithoutInUseOrder<K, V>(s: seq<Slot<K, V>>, k: K, ops: seq<Op<K, V>>, ttl: nat, max: nat)
    requires Distinct(Keys(s)) && InUseOrder(s, ops, ttl, max)
    ensures InUseOrder(Without(s, k), ops, ttl, max)
    ensures forall i :: 0 <= i < |Without(s, k)| ==> Without(s, k)[i].key != k
  {
    if s != [] {
      assert Keys(s)[1..] == Keys(s[1..]);
      if s[0].key == k {
        assert forall i :: 0 < i < |s| ==> Keys(s)[0] != Keys(s)[i];
      } else {
        WithoutInUseOrder(s[1..], k, ops, ttl, max);
        var w := Without(s, k);
        forall j | 1 <= j < |w| ensures LastUse(ops, w[0].key, ttl, max) < LastUse(ops, w[j].key, ttl, max) {
          assert w[j] == Without(s[1..], k)[j - 1];
          WithoutMembers(s[1..], k, w[j]);
          var i :| 0 <= i < |s[1..]| && s[1..][i] == w[j];
          assert s[i + 1] == w[j];
        }
      }
    }
  }

  ghost predicate Touches<K, V>(init: seq<Op<K, V>>, op: Op<K, V>, ttl: nat, max: nat) {
    op.Put? || Lookup(Run(init, ttl, max).slots, op.key, op.now, ttl).1.Some?
  }

  lemma LastUseStep<K, V>(init: seq<Op<K, V>>, op: Op<K, V>, k: K, ttl: nat, max: nat)
    ensures LastUse(init + [op], k, ttl, max)
         == if op.key == k && Touches(init, op, ttl, max) then |init| else LastUse(init, k, ttl, max)
  {
    assert (init + [op])[..|init|] == init;
  }

  lemma UseOrderKept<K, V>(s: seq<Slot<K, V>>, init: seq<Op<K, V>>, op: Op<K, V>, ttl: nat, max: nat)
    requires InUseOrder(s, init, ttl, max)
    requires !Touches(init, op, ttl, max) || forall i :: 0 <= i < |s| ==> s[i].key != op.key
    ensures InUseOrder(s, init + [op], ttl, max)
  {
    forall i, j | 0 <= i < j < |s|
      ensures LastUse(init + [op], s[i].key, ttl, max) < LastUse(init + [op], s[j].key, ttl, max)
    {
      LastUseStep(init, op, s[i].key, ttl, max);
      LastUseStep(init, op, s[j].key, ttl, max);
    }
  }

  lemma UseOrderExtended<K, V>(room: seq<Slot<K, V>>, slot: Slot<K, V>, init: seq<Op<K, V>>, op: Op<K, V>, ttl: nat, max: nat)
    requires InUseOrder(room, init, ttl, max) && slot.key == op.key
    requires Touches(init, op, ttl, max) && forall i :: 0 <= i < |room| ==> room[i].key != op.key
    ensures InUseOrder(room + [slot], init + [op], ttl, max)
  {
    UseOrderKept(room, init, op, ttl, max);
    LastUseStep(init, op, slot.key, ttl, max);
    forall i | 0 <= i < |room|
      ensures LastUse(init + [op], room[i].key, ttl, max) < LastUse(init + [op], slot.key, ttl, max)
    {
      LastUseStep(init, op, room[i].key, ttl, max);
    }
  }

  lemma InUseOrderTail<K, V>(s: seq<Slot<K, V>>, k: K, ops: seq<Op<K, V>>, ttl: nat, max: nat)
    requires s != [] && k !in Keys(s) && InUseOrder(s, ops, ttl, max)
    ensures InUseOrder(s[1..], ops, ttl, max)
    ensures forall i :: 0 <= i < |s| - 1 ==> s[1..][i].key != k
  {
    forall i | 0 <= i < |s| - 1 ensures s[1..][i].key != k { assert Keys(s)[i + 1] == s[1..][i].key; }
  }

  lemma UseOrderStep<K, V>(s: seq<Slot<K, V>>, s': seq<Slot<K, V>>, init: seq<Op<K, V>>, op: Op<K, V>, ttl: nat, max: nat)
    requires s == Run(init, ttl, max).slots && Distinct(Keys(s)) && InUseOrder(s, init, ttl, max)
    requires Reshaped(s, op, ttl, s')
    ensures InUseOrder(s', init + [op], ttl, max)
  {
    FindKeys(s, op.key);
    WithoutInUseOrder(s, op.key, init, ttl, max);
    if op.key !in Keys(s) { OtherKeys(s, op.key); }
    if Touches(init, op, ttl, max) {
      UseOrderTouched(s, s', init, op, ttl, max);
    } else {
      UseOrderKept(s', init, op, ttl, max);
    }
  }

  lemma OtherKeys<K, V>(s: seq<Slot<K, V>>, k: K)
    requires k !in Keys(s)
    ensures forall i :: 0 <= i < |s| ==> s[i].key != k
  {
    forall i | 0 <= i < |s| ensures s[i].key != k { assert Keys(s)[i] == s[i].key; }
  }

  lemma UseOrderTouched<K, V>(s: seq<Slot<K, V>>, s': seq<Slot<K, V>>, init: seq<Op<K, V>>, op: Op<K, V>, ttl: nat, max: nat)
    requires s == Run(init, ttl, max).slots && Distinct(Keys(s)) && InUseOrder(s, init, ttl, max)
    requires Reshaped(s, op, ttl, s') && Touches(init, op, ttl, max)
    ensures InUseOrder(s', init + [op], ttl, max)
  {
    var room, slot := s'[..|s'| - 1], s'[|s'| - 1];
    assert s' == room + [slot];
    if room == Without(s, op.key) {
      WithoutInUseOrder(s, op.key, init, ttl, max);
    } else {
      OtherKeys(s, op.key);
      if room != s { InUseOrderTail(s, op.key, init, ttl, max); }
    }
    UseOrderExtended(room, slot, init, op, ttl, max);
  }

  lemma {:induction false} ListInUseOrder<K, V>(ops: seq<Op<K, V>>, ttl: nat, max: nat)
    requires max >= 1
    ensures InUseOrder(Run(ops, ttl, max).slots, ops, ttl, max)
  {
    if ops != [] {
      var init, op := ops[..|ops| - 1], ops[|ops| - 1];
      assert ops == init + [op];
      ListInUseOrder(init, ttl, max);
      Bookkeeping(init, ttl, max);
      StepReshapes(Run(init, ttl, max), op, ttl, max);
      UseOrderStep(Run(init, ttl, max).slots, Run(ops, ttl, max).slots, init, op, ttl, max);
    }
  }

  /** At capacity, storing a new key drops the slot whose key was used least recently. */
  lemma VictimIsLeastRecentlyUsed<K, V>(ops: seq<Op<K, V>>, ttl: nat, max: nat, k: K, now: real, v: V)
    requires max >= 1
    requires k !in Keys(Run(ops, ttl, max).slots) && |Run(ops, ttl, max).slots| == max
    ensures var s := Run(ops, ttl, max).slots;
      exists victim :: victim in s
        && Store(s, k, now, v, max) == Without(s, victim.key) + [Slot(k, now, v)]
        && forall x :: x in s && x != victim ==> LastUse(ops, victim.key, ttl, max) < LastUse(ops, x.key, ttl, max)
  {
    ListInUseOrder(ops, ttl, max);
    var s := Run(ops, ttl, max).slots;
    assert s[0] in s && Without(s, s[0].key) == s[1..];
  }
}
