/** The hash-linked ledger.  `h` stands for the SHA-256 of the canonical bytes of an event. */
module Ledger {
  import opened Base
  import opened Json

  type Event = map<string, Json>
  type Hash = Event -> string

  /** The event without its own hash: what is hashed. */
  function Material(e: Event): Event { e - {"event_hash"} }

  function EventHash(h: Hash, e: Event): Json { Str(h(Material(e))) }

  function Field(e: Event, name: string): Json { if name in e then e[name] else Null }

  /** Python's `value == i`: floats and booleans compare as numbers. */
  predicate EqualsInt(v: Json, i: int) {
    match v
    case Int(n) => n == i
    case Real(r) => r == i as real
    case Bool(b) => (if b then 1 else 0) == i
    case _ => false
  }

  function Previous(events: seq<Event>, i: nat): Json
    requires i <= |events|
  {
    if i == 0 then Str("GENESIS") else Field(events[i - 1], "event_hash")
  }

  predicate SequenceOk(events: seq<Event>, i: nat)
    requires i < |events|
  {
    EqualsInt(Field(events[i], "sequence"), i)
  }

  predicate LinkOk(events: seq<Event>, i: nat)
    requires i < |events|
  {
    Field(events[i], "previous_event_hash") == Previous(events, i)
  }

  predicate ContentOk(h: Hash, events: seq<Event>, i: nat)
    requires i < |events|
  {
    Field(events[i], "event_hash") == EventHash(h, events[i])
  }

  predicate Sound(h: Hash, events: seq<Event>, i: nat)
    requires i < |events|
  {
    SequenceOk(events, i) && LinkOk(events, i) && ContentOk(h, events, i)
  }

  ghost predicate Valid(h: Hash, events: seq<Event>) {
    forall i: nat :: i < |events| ==> Sound(h, events, i)
  }

  datatype Verdict = Verified | SequenceMismatch(at: nat) | PreviousMismatch(at: nat) | ContentMismatch(at: nat)

  /** Reports the first event that fails, and the first of its three checks that fails. */
  method VerifyChain(h: Hash, events: seq<Event>) returns (v: Verdict)
    ensures v.Verified? <==> Valid(h, events)
    ensures !v.Verified? ==> v.at < |events| && Valid(h, events[..v.at])
    ensures v.SequenceMismatch? ==> !SequenceOk(events, v.at)
    ensures v.PreviousMismatch? ==> SequenceOk(events, v.at) && !LinkOk(events, v.at)
    ensures v.ContentMismatch? ==> SequenceOk(events, v.at) && LinkOk(events, v.at) && !ContentOk(h, events, v.at)
  {
    var previous := Str("GENESIS");
    var i := 0;
    while i < |events|
      invariant i <= |events| && previous == Previous(events, i)
      invariant forall k: nat :: k < i ==> Sound(h, events, k)
    {
      var event := events[i];
      PrefixValid(h, events, i);
      assert Valid(h, events) ==> Sound(h, events, i);
      if !EqualsInt(Field(event, "sequence"), i) { return SequenceMismatch(i); }
      if Field(event, "previous_event_hash") != previous { return PreviousMismatch(i); }
      if Field(event, "event_hash") != EventHash(h, event) { return ContentMismatch(i); }
      previous := Field(event, "event_hash");
      i := i + 1;
    }
    return Verified;
  }

  /** A prefix whose events are sound in the whole is valid by itself. */
  lemma PrefixValid(h: Hash, events: seq<Event>, n: nat)
    requires n <= |events| && forall k: nat :: k < n ==> Sound(h, events, k)
    ensures Valid(h, events[..n])
  {
    forall i: nat | i < n ensures Sound(h, events[..n], i) {
      assert Sound(h, events, i);
      assert events[..n][i] == events[i];
      if i > 0 { assert events[..n][i - 1] == events[i - 1]; }
    }
  }

  /** The value is the number, as an integer, as a float, or as one of the booleans 0 and 1. */
  ghost predicate IsNumber(v: Json, i: int) {
    v == Int(i) || v == Real(i as real) || (v == Bool(false) && i == 0) || (v == Bool(true) && i == 1)
  }

  ghost predicate HasText(e: Event, name: string, text: string) { name in e && e[name] == Str(text) }

  /** Validity read from the records alone: every event holds its position, the hash of its own content,
      and the hash of the content before it, `GENESIS` for the first. */
  lemma ValidByName(h: Hash, events: seq<Event>)
    ensures Valid(h, events) <==> forall i: nat :: i < |events| ==> WellLinked(h, events, i)
  {
    if Valid(h, events) {
      forall i: nat | i < |events| ensures WellLinked(h, events, i) {
        assert Sound(h, events, i);
        if i > 0 { assert Sound(h, events, i - 1); }
      }
    }
    if forall i: nat :: i < |events| ==> WellLinked(h, events, i) {
      forall i: nat | i < |events| ensures Sound(h, events, i) {
        assert WellLinked(h, events, i);
        if i > 0 { assert WellLinked(h, events, i - 1); }
      }
    }
  }

  ghost predicate WellLinked(h: Hash, events: seq<Event>, i: nat)
    requires i < |events|
  {
    && "sequence" in events[i] && IsNumber(events[i]["sequence"], i)
    && HasText(events[i], "previous_event_hash", if i == 0 then "GENESIS" else h(events[i - 1] - {"event_hash"}))
    && HasText(events[i], "event_hash", h(events[i] - {"event_hash"}))
  }

  /** An appended event keeps all its fields but three: its position, the previous hash and its own. */
  lemma AppendedHolds(h: Hash, events: seq<Event>, event: Event)
    requires events != [] ==> "event_hash" in events[|events| - 1]
    ensures var e := Appended(h, events, event);
      && e.Keys == event.Keys + {"sequence", "previous_event_hash", "event_hash"}
      && (forall k :: k in event && k != "sequence" && k != "previous_event_hash" && k != "event_hash" ==> e[k] == event[k])
      && e["sequence"] == Int(|events|)
      && e["previous_event_hash"] == (if events == [] then Str("GENESIS") else events[|events| - 1]["event_hash"])
      && e["event_hash"] == Str(h(e - {"event_hash"}))
  {
    var linked := event["sequence" := Int(|events|)]["previous_event_hash" := Previous(events, |events|)];
    assert Appended(h, events, event) - {"event_hash"} == linked - {"event_hash"};
  }

  function Appended(h: Hash, events: seq<Event>, event: Event): Event {
    var linked := event["sequence" := Int(|events|)]["previous_event_hash" := Previous(events, |events|)];
    linked["event_hash" := EventHash(h, linked)]
  }

  class EventList {
    var events: seq<Event>

    constructor ()
      ensures events == []
    {
      events := [];
    }

    /** Raises (returns None, changing nothing) when the last event carries no hash. */
    method AppendEvent(h: Hash, event: Event) returns (appended: Option<Event>)
      modifies this
      ensures appended.None? <==> old(events) != [] && "event_hash" !in old(events)[|old(events)| - 1]
      ensures appended.None? ==> events == old(events)
      ensures appended.Some? ==>
        && appended.value == Appended(h, old(events), event)
        && events == old(events) + [appended.value]
        && (Valid(h, events) <==> Valid(h, old(events)))
    {
      var e := event["sequence" := Int(|events|)];
      if events == [] {
        e := e["previous_event_hash" := Str("GENESIS")];
      } else if "event_hash" in events[|events| - 1] {
        e := e["previous_event_hash" := events[|events| - 1]["event_hash"]];
      } else {
        return None;
      }
      e := e["event_hash" := EventHash(h, e)];
      AppendKeepsValid(h, events, event);
      events := events + [e];
      return Some(e);
    }
  }

  /** Appending extends a valid chain to a valid chain, and repairs no invalid one. */
  lemma AppendKeepsValid(h: Hash, events: seq<Event>, event: Event)
    ensures Valid(h, events + [Appended(h, events, event)]) <==> Valid(h, events)
  {
    var e := Appended(h, events, event);
    var longer := events + [e];
    assert longer[..|events|] == events;
    if Valid(h, longer) { PrefixValid(h, longer, |events|); }
    if Valid(h, events) {
      forall i: nat | i < |longer| ensures Sound(h, longer, i) {
        if i < |events| {
          assert Sound(h, events, i);
          assert longer[i] == events[i];
          if i > 0 { assert longer[i - 1] == events[i - 1]; }
        } else {
          assert Material(e) == event["sequence" := Int(|events|)]["previous_event_hash" := Previous(events, |events|)] - {"event_hash"};
          if i > 0 { assert longer[i - 1] == events[i - 1]; }
        }
      }
    }
  }

  /** Every ledger built by appending to the empty list verifies. */
  function Build(h: Hash, inputs: seq<Event>): seq<Event> {
    if inputs == [] then []
    else var events := Build(h, inputs[..|inputs| - 1]); events + [Appended(h, events, inputs[|inputs| - 1])]
  }

  lemma {:induction false} BuiltChainsVerify(h: Hash, inputs: seq<Event>)
    ensures Valid(h, Build(h, inputs)) && |Build(h, inputs)| == |inputs|
  {
    if inputs != [] {
      var init := inputs[..|inputs| - 1];
      BuiltChainsVerify(h, init);
      AppendKeepsValid(h, Build(h, init), inputs[|inputs| - 1]);
    }
  }

  // ----- tampering -----

  /** Two different hashed contents, one in each chain, with the same hash. */
  ghost predicate Collide(h: Hash, a: seq<Event>, b: seq<Event>) {
    exists i: nat, j: nat :: i < |a| && j < |b| && CollideAt(h, a[i], b[j])
  }

  predicate CollideAt(h: Hash, x: Event, y: Event) {
    Material(x) != Material(y) && h(Material(x)) == h(Material(y))
  }

  lemma SameHashSameEvent(h: Hash, a: seq<Event>, b: seq<Event>, i: nat, j: nat)
    requires Valid(h, a) && Valid(h, b) && i < |a| && j < |b|
    requires Field(a[i], "event_hash") == Field(b[j], "event_hash")
    requires !CollideAt(h, a[i], b[j])
    ensures a[i] == b[j] && i == j
  {
    var x, y := a[i], b[j];
    assert Sound(h, a, i) && Sound(h, b, j);
    assert Material(x) == Material(y);
    assert x == Material(x)["event_hash" := x["event_hash"]];
    assert y == Material(y)["event_hash" := y["event_hash"]];
  }

  /** Tamper evidence: two valid chains that end in the same hash are the same chain, event for event,
      whatever their lengths, unless they exhibit a hash collision. */
  lemma {:induction false} TamperEvident(h: Hash, a: seq<Event>, b: seq<Event>)
    requires Valid(h, a) && Valid(h, b) && a != [] && b != []
    requires Field(a[|a| - 1], "event_hash") == Field(b[|b| - 1], "event_hash")
    ensures a == b || Collide(h, a, b)
    decreases |a|
  {
    var i, j := |a| - 1, |b| - 1;
    if CollideAt(h, a[i], b[j]) {
      assert Collide(h, a, b);
    } else {
      SameHashSameEvent(h, a, b, i, j);
      if i > 0 {
        var a', b' := a[..i], b[..j];
        PrefixValid(h, a, i);
        PrefixValid(h, b, j);
        assert Sound(h, a, i) && Sound(h, b, j);
        TamperEvident(h, a', b');
        if Collide(h, a', b') {
          var k: nat, l: nat :| k < |a'| && l < |b'| && CollideAt(h, a'[k], b'[l]);
          assert CollideAt(h, a[k], b[l]);
        } else {
          assert a == a' + [a[i]] && b == b' + [b[j]];
        }
      }
    }
  }

  /** Without any assumption on the hash: a valid chain made only of events of another valid chain, in
      whatever order and number, is a prefix of it.  Deletion inside, repetition and reordering are all
      rejected; only truncation at the end is not. */
  lemma OnlyPrefixesSurvive(h: Hash, a: seq<Event>, b: seq<Event>)
    requires Valid(h, a) && Valid(h, b) && forall e :: e in b ==> e in a
    ensures |b| <= |a| && b == a[..|b|]
  {
    forall i: nat | i < |b| ensures i < |a| && b[i] == a[i] {
      assert b[i] in a;
      var k: nat :| k < |a| && a[k] == b[i];
      assert Sound(h, a, k) && Sound(h, b, i);
    }
    assert b == [] || b[|b| - 1] in b;
  }

  lemma EventsDiffer(h: Hash, a: seq<Event>, i: nat, j: nat)
    requires Valid(h, a) && i < j < |a|
    ensures a[i] != a[j]
  {
    assert Sound(h, a, i) && Sound(h, a, j);
  }

  lemma DeletionRejected(h: Hash, a: seq<Event>, i: nat)
    requires Valid(h, a) && i < |a| - 1
    ensures !Valid(h, a[..i] + a[i + 1..])
  {
    var b := a[..i] + a[i + 1..];
    EventsDiffer(h, a, i, i + 1);
    assert b[i] == a[i + 1];
    assert forall e :: e in b ==> e in a;
    if Valid(h, b) { OnlyPrefixesSurvive(h, a, b); }
  }

  lemma SwapRejected(h: Hash, a: seq<Event>, i: nat, j: nat)
    requires Valid(h, a) && i < j < |a|
    ensures !Valid(h, a[i := a[j]][j := a[i]])
  {
    var b := a[i := a[j]][j := a[i]];
    EventsDiffer(h, a, i, j);
    assert b[i] == a[j];
    assert forall e :: e in b ==> e in a;
    if Valid(h, b) { OnlyPrefixesSurvive(h, a, b); }
  }

  /** Changing the content of one event and leaving the rest alone is rejected, or is a collision. */
  lemma EditRejected(h: Hash, a: seq<Event>, i: nat, e: Event)
    requires Valid(h, a) && i < |a| - 1 && e != a[i]
    requires Valid(h, a[i := e])
    ensures Collide(h, a, a[i := e])
  {
    var b := a[i := e];
    assert b[|a| - 1] == a[|a| - 1];
    TamperEvident(h, a, b);
    assert b[i] != a[i];
  }
}
