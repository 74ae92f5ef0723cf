/** Pruning position by position, read from the messages and the limits alone. */
module PrunePositions {
  import opened Messages
  import opened Prune
  import opened PruneProperties

  /** No later message has the role. */
  predicate LastOfRole(ms: seq<Message>, i: nat)
    requires i < |ms|
  {
    forall j :: i < j < |ms| ==> ms[j].role != ms[i].role
  }

  /** The first pass keeps what is not blank, and the last system and the last user message. */
  predicate Stays(ms: seq<Message>, i: int) {
    && 0 <= i < |ms|
    && (!Blank(ms[i].content) || ((ms[i].role == "system" || ms[i].role == "user") && LastOfRole(ms, i)))
  }

  /** The message at `i` comes out as `out`: an earlier system message over 500 characters as its first
      500 and an ellipsis, a user message over 2000 as its first and last 800, any other as it is. */
  ghost predicate ComesOut(ms: seq<Message>, i: int, out: Message) {
    && 0 <= i < |ms|
    && out.role == ms[i].role && out.toolCallId == ms[i].toolCallId
    && var text := ms[i].content;
       if Blank(text) then out.content == text
       else if ms[i].role == "system" && !LastOfRole(ms, i) && |text| > 500 then out.content == text[..500] + "..."
       else if ms[i].role == "user" && |text| > 2000 then
         out.content == text[..800] + "\n...[content truncated]...\n" + text[|text| - 800..]
       else out.content == text
  }

  predicate IsTool(m: Message, id: string) { m.role == "tool" && m.toolCallId == id && id != "" }

  /** The message at `i` is a tool result and an earlier one that stays has its id, or `seen` has it. */
  predicate RepeatsEarlier(ms: seq<Message>, seen: set<string>, i: nat)
    requires i < |ms|
  {
    var id := ms[i].toolCallId;
    IsTool(ms[i], id) && (id in seen || exists j :: 0 <= j < i && Stays(ms, j) && IsTool(ms[j], id))
  }

  predicate Survives(ms: seq<Message>, seen: set<string>, i: int) {
    Stays(ms, i) && !RepeatsEarlier(ms, seen, i)
  }

  /** `at` lists the positions that survive, in order, and `out` what they come out as. */
  ghost predicate SurvivorsAre(ms: seq<Message>, seen: set<string>, at: seq<int>, out: seq<Message>) {
    && |at| == |out|
    && (forall k, l :: 0 <= k < l < |at| ==> at[k] < at[l])
    && (forall i :: i in at <==> Survives(ms, seen, i))
    && (forall k :: 0 <= k < |at| ==> ComesOut(ms, at[k], out[k]))
  }

  lemma LastOfRoleTail(ms: seq<Message>, i: nat)
    requires 1 <= i < |ms|
    ensures LastOfRole(ms, i) <==> LastOfRole(ms[1..], i - 1)
  {
    if LastOfRole(ms[1..], i - 1) {
      forall j | i < j < |ms| ensures ms[j].role != ms[i].role { assert ms[1..][j - 1] == ms[j]; }
    }
  }

  lemma LastOfRoleFirst(ms: seq<Message>)
    requires ms != []
    ensures LastOfRole(ms, 0) <==> !HasRole(ms[1..], ms[0].role)
  {
    if LastOfRole(ms, 0) {
      forall j | 0 <= j < |ms[1..]| ensures ms[1..][j].role != ms[0].role { assert ms[1..][j] == ms[j + 1]; }
    } else {
      var j :| 0 < j < |ms| && ms[j].role == ms[0].role;
      assert ms[1..][j - 1].role == ms[0].role;
    }
  }

  lemma StaysTail(ms: seq<Message>, i: int)
    requires 1 <= i
    ensures Stays(ms, i) <==> ms != [] && Stays(ms[1..], i - 1)
  {
    if i < |ms| { LastOfRoleTail(ms, i); }
  }

  lemma ComesOutTail(ms: seq<Message>, i: int, out: Message)
    requires ms != [] && 0 <= i && ComesOut(ms[1..], i, out)
    ensures ComesOut(ms, i + 1, out)
  {
    LastOfRoleTail(ms, i + 1);
  }

  /** The ids seen after the first message. */
  function SeenAfter(ms: seq<Message>, seen: set<string>): set<string>
    requires ms != []
  {
    if Stays(ms, 0) && IsTool(ms[0], ms[0].toolCallId) then seen + {ms[0].toolCallId} else seen
  }

  lemma SurvivesTail(ms: seq<Message>, seen: set<string>, i: int)
    requires ms != [] && 1 <= i
    ensures Survives(ms, seen, i) <==> Survives(ms[1..], SeenAfter(ms, seen), i - 1)
  {
    StaysTail(ms, i);
    if Stays(ms, i) {
      var id, rest := ms[i].toolCallId, ms[1..];
      if IsTool(ms[i], id) {
        if j :| 0 <= j < i && Stays(ms, j) && IsTool(ms[j], id) {
          if j > 0 {
            StaysTail(ms, j);
            assert Stays(rest, j - 1) && IsTool(rest[j - 1], id);
          }
        }
        if j :| 0 <= j < i - 1 && Stays(rest, j) && IsTool(rest[j], id) {
          StaysTail(ms, j + 1);
          assert Stays(ms, j + 1) && IsTool(ms[j + 1], id);
        }
      }
    }
  }

  /** What the first pass does to the first message. */
  lemma FirstStays(ms: seq<Message>)
    requires ms != []
    ensures var k := PruneOne(ms[0], !HasRole(ms[1..], ms[0].role));
      && (k.Keep? <==> Stays(ms, 0))
      && (k.Keep? ==> ComesOut(ms, 0, k.m))
  {
    LastOfRoleFirst(ms);
  }

  function Shifted(at: seq<int>): (r: seq<int>)
    ensures |r| == |at| && forall k :: 0 <= k < |at| ==> r[k] == at[k] + 1
  {
    seq(|at|, k requires 0 <= k < |at| => at[k] + 1)
  }

  lemma ShiftedMembers(at: seq<int>, i: int)
    ensures i in Shifted(at) <==> i - 1 in at
  {
    if i - 1 in at {
      var k :| 0 <= k < |at| && at[k] == i - 1;
      assert Shifted(at)[k] == i;
    }
  }

  /** The tail's survivors are those of the whole list after the first message. */
  lemma SurvivorsSkip(ms: seq<Message>, seen: set<string>, at: seq<int>, out: seq<Message>)
    requires ms != [] && !Survives(ms, seen, 0)
    requires SurvivorsAre(ms[1..], SeenAfter(ms, seen), at, out)
    ensures SurvivorsAre(ms, seen, Shifted(at), out)
  {
    forall i ensures i in Shifted(at) <==> Survives(ms, seen, i) {
      ShiftedMembers(at, i);
      if i >= 1 { SurvivesTail(ms, seen, i); }
    }
    forall k | 0 <= k < |at| ensures ComesOut(ms, Shifted(at)[k], out[k]) {
      assert at[k] in at;
      ComesOutTail(ms, at[k], out[k]);
    }
  }

  lemma SurvivorsKeep(ms: seq<Message>, seen: set<string>, at: seq<int>, out: seq<Message>, first: Message)
    requires ms != [] && Survives(ms, seen, 0) && ComesOut(ms, 0, first)
    requires SurvivorsAre(ms[1..], SeenAfter(ms, seen), at, out)
    ensures SurvivorsAre(ms, seen, [0] + Shifted(at), [first] + out)
  {
    var here := [0] + Shifted(at);
    forall k | 0 <= k < |at| ensures Shifted(at)[k] >= 1 { assert at[k] in at; }
    forall i ensures i in here <==> Survives(ms, seen, i) {
      assert i in here <==> i == 0 || i in Shifted(at);
      ShiftedMembers(at, i);
      if i >= 1 { SurvivesTail(ms, seen, i); }
    }
    forall k | 0 <= k < |here| ensures ComesOut(ms, here[k], ([first] + out)[k]) {
      if k > 0 {
        assert at[k - 1] in at;
        ComesOutTail(ms, at[k - 1], out[k - 1]);
      }
    }
  }

  lemma {:induction false} BothPasses(ms: seq<Message>, seen: set<string>) returns (at: seq<int>)
    ensures SurvivorsAre(ms, seen, at, UniqueTools(Thin(ms), seen))
  {
    if ms == [] {
      at := [];
    } else {
      var m, rest := ms[0], ms[1..];
      var k := PruneOne(m, !HasRole(rest, m.role));
      FirstStays(ms);
      var tail := BothPasses(rest, SeenAfter(ms, seen));
      if k.Dropped? {
        SurvivorsSkip(ms, seen, tail, UniqueTools(Thin(rest), seen));
        at := Shifted(tail);
      } else {
        assert ([k.m] + Thin(rest))[1..] == Thin(rest);
        if RepeatsTool(k.m, seen) {
          assert SeenAfter(ms, seen) == seen;
          SurvivorsSkip(ms, seen, tail, UniqueTools(Thin(rest), seen));
          at := Shifted(tail);
        } else {
          assert SeenAfter(ms, seen) == See(k.m, seen);
          SurvivorsKeep(ms, seen, tail, UniqueTools(Thin(rest), See(k.m, seen)), k.m);
          at := [0] + Shifted(tail);
        }
      }
    }
  }

  /** The pruned list position by position: when nothing stays the input comes back as it was; otherwise
      the positions that stay and do not repeat an earlier tool result come out in order, cut as stated. */
  lemma PrunedByPosition(ms: seq<Message>) returns (at: seq<int>)
    ensures (forall i :: !Stays(ms, i)) ==> Pruned(ms) == ms
    ensures (exists i :: Stays(ms, i)) ==> SurvivorsAre(ms, {}, at, Pruned(ms))
  {
    at := BothPasses(ms, {});
    if i :| Stays(ms, i) {
      FirstStaying(ms, i);
      assert at != [];
    }
    if at != [] { assert at[0] in at && Stays(ms, at[0]); }
  }

  lemma {:induction false} FirstStaying(ms: seq<Message>, i: nat)
    requires Stays(ms, i)
    ensures exists j :: Survives(ms, {}, j)
  {
    if !Survives(ms, {}, i) {
      var id := ms[i].toolCallId;
      var j :| 0 <= j < i && Stays(ms, j) && IsTool(ms[j], id);
      FirstStaying(ms, j);
    }
  }

  /** Blank text is what consists of white space; among the ASCII characters these are the blank, the
      controls 9 to 13 and the separators 28 to 31. */
  lemma BlankText(s: string, t: string, c: char)
    ensures Blank("") && Blank(" \t\n\r")
    ensures Blank(s + t) <==> Blank(s) && Blank(t)
    ensures c < 128 as char ==> (Blank([c]) <==> c == ' ' || c in "\t\n\r" || c as int == 11 || c as int == 12 || 28 <= c as int <= 31)
  {
    BlankAppend(s, t);
    if Blank([c]) { assert IsSpace([c][0]); }
  }

  lemma BlankAppend(s: string, t: string)
    ensures Blank(s + t) <==> Blank(s) && Blank(t)
  {
    if Blank(s + t) {
      forall i | 0 <= i < |s| ensures IsSpace(s[i]) { assert (s + t)[i] == s[i]; }
      forall i | 0 <= i < |t| ensures IsSpace(t[i]) { assert (s + t)[|s| + i] == t[i]; }
    }
  }
}
