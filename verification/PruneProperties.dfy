/** What pruning guarantees. */
module PruneProperties {
  import opened Messages
  import opened Prune
  import Dedup

  // ----- one message -----

  lemma CutUserLength(s: string)
    requires |s| > USER_MAX
    ensures |CutUser(s)| == 1627 && !Blank(CutUser(s))
  {
    assert |TRUNCATED| == 27;
    assert CutUser(s)[USER_KEEP_EACH + 1] == TRUNCATED[1] == '.';
  }

  lemma CutSystemFixed(s: string)
    requires |s| > SYSTEM_MAX
    ensures |CutSystem(s)| == 503 && !Blank(CutSystem(s)) && CutSystem(CutSystem(s)) == CutSystem(s)
  {
    assert CutSystem(s)[SYSTEM_MAX] == ELLIPSIS[0] == '.';
    assert CutSystem(s)[..SYSTEM_MAX] == s[..SYSTEM_MAX];
  }

  /** Pruning a kept message again, in the same standing, changes nothing; role and tool id stay. */
  lemma PruneOneFixed(m: Message, last: bool)
    requires PruneOne(m, last).Keep?
    ensures PruneOne(PruneOne(m, last).m, last) == PruneOne(m, last)
    ensures PruneOne(m, last).m.role == m.role && PruneOne(m, last).m.toolCallId == m.toolCallId
  {
    if !Blank(m.content) {
      if m.role == "system" && !last && |m.content| > SYSTEM_MAX {
        CutSystemFixed(m.content);
      } else if m.role == "user" && |m.content| > USER_MAX {
        CutUserLength(m.content);
      }
    }
  }

  /** Pruning one message never raises the estimate, even where 501 or 502 characters become 503. */
  lemma PruneOneTokens(m: Message, last: bool)
    requires PruneOne(m, last).Keep?
    ensures EstimateTokens(PruneOne(m, last).m.content) <= EstimateTokens(m.content)
  {
    if !Blank(m.content) {
      if m.role == "system" && !last && |m.content| > SYSTEM_MAX {
        CutSystemFixed(m.content);
      } else if m.role == "user" && |m.content| > USER_MAX {
        CutUserLength(m.content);
      }
    }
  }

  // ----- the estimate -----

  lemma {:induction false} ThinTokens(ms: seq<Message>)
    ensures CountTokens(Thin(ms)) <= CountTokens(ms)
  {
    if ms != [] {
      ThinTokens(ms[1..]);
      var k := PruneOne(ms[0], !HasRole(ms[1..], ms[0].role));
      if k.Keep? {
        PruneOneTokens(ms[0], !HasRole(ms[1..], ms[0].role));
        assert ([k.m] + Thin(ms[1..]))[1..] == Thin(ms[1..]);
      }
    }
  }

  lemma {:induction false} UniqueToolsTokens(ms: seq<Message>, seen: set<string>)
    ensures CountTokens(UniqueTools(ms, seen)) <= CountTokens(ms)
  {
    if ms != [] {
      UniqueToolsTokens(ms[1..], if RepeatsTool(ms[0], seen) then seen else See(ms[0], seen));
      var rest := UniqueTools(ms[1..], See(ms[0], seen));
      assert ([ms[0]] + rest)[1..] == rest;
    }
  }

  lemma PrunedTokens(ms: seq<Message>)
    ensures CountTokens(Pruned(ms)) <= CountTokens(ms)
  {
    ThinTokens(ms);
    UniqueToolsTokens(Thin(ms), {});
  }

  // ----- roles survive -----

  lemma HasRoleCons(m: Message, ms: seq<Message>, role: string)
    ensures HasRole([m] + ms, role) <==> m.role == role || HasRole(ms, role)
  {
    var c := [m] + ms;
    if HasRole(ms, role) {
      var i :| 0 <= i < |ms| && ms[i].role == role;
      assert c[i + 1].role == role;
    }
    if m.role == role { assert c[0].role == role; }
    if HasRole(c, role) && m.role != role {
      var i :| 0 <= i < |c| && c[i].role == role;
      assert ms[i - 1].role == role;
    }
  }

  lemma {:induction false} ThinKeepsRoles(ms: seq<Message>, role: string)
    requires Protected(role)
    ensures HasRole(Thin(ms), role) <==> HasRole(ms, role)
  {
    if ms != [] {
      ThinKeepsRoles(ms[1..], role);
      assert ms == [ms[0]] + ms[1..];
      HasRoleCons(ms[0], ms[1..], role);
      var last := !HasRole(ms[1..], ms[0].role);
      if PruneOne(ms[0], last).Keep? {
        PruneOneFixed(ms[0], last);
        HasRoleCons(PruneOne(ms[0], last).m, Thin(ms[1..]), role);
      }
    }
  }

  lemma {:induction false} UniqueToolsKeepsRoles(ms: seq<Message>, seen: set<string>, role: string)
    requires Protected(role)
    ensures HasRole(UniqueTools(ms, seen), role) <==> HasRole(ms, role)
  {
    if ms != [] {
      assert ms == [ms[0]] + ms[1..];
      HasRoleCons(ms[0], ms[1..], role);
      UniqueToolsKeepsRoles(ms[1..], if RepeatsTool(ms[0], seen) then seen else See(ms[0], seen), role);
      HasRoleCons(ms[0], UniqueTools(ms[1..], See(ms[0], seen)), role);
    }
  }

  // ----- a second pass changes nothing -----

  lemma StandingMatters(m: Message, a: bool, b: bool)
    requires Protected(m.role) ==> a == b
    ensures PruneOne(m, a) == PruneOne(m, b)
  {}

  lemma {:induction false} ThinFixed(ms: seq<Message>, seen: set<string>)
    ensures Thin(UniqueTools(Thin(ms), seen)) == UniqueTools(Thin(ms), seen)
  {
    if ms != [] {
      var m, rest := ms[0], ms[1..];
      var last := !HasRole(rest, m.role);
      var k := PruneOne(m, last);
      if k.Dropped? {
        ThinFixed(rest, seen);
      } else {
        PruneOneFixed(m, last);
        assert ([k.m] + Thin(rest))[1..] == Thin(rest);
        if RepeatsTool(k.m, seen) {
          ThinFixed(rest, seen);
        } else {
          var tail := UniqueTools(Thin(rest), See(k.m, seen));
          ThinFixed(rest, See(k.m, seen));
          assert ([k.m] + tail)[1..] == tail;
          if Protected(m.role) {
            ThinKeepsRoles(rest, m.role);
            UniqueToolsKeepsRoles(Thin(rest), See(k.m, seen), m.role);
          }
          StandingMatters(k.m, !HasRole(tail, m.role), last);
        }
      }
    }
  }

  lemma {:induction false} UniqueToolsFixed(ms: seq<Message>, seen: set<string>)
    ensures UniqueTools(UniqueTools(ms, seen), seen) == UniqueTools(ms, seen)
  {
    if ms != [] {
      if RepeatsTool(ms[0], seen) {
        UniqueToolsFixed(ms[1..], seen);
      } else {
        var tail := UniqueTools(ms[1..], See(ms[0], seen));
        UniqueToolsFixed(ms[1..], See(ms[0], seen));
        assert ([ms[0]] + tail)[1..] == tail;
      }
    }
  }

  lemma PruneIdempotent(ms: seq<Message>)
    ensures Pruned(Pruned(ms)) == Pruned(ms)
  {
    ThinFixed(ms, {});
    UniqueToolsFixed(Thin(ms), {});
  }

  // ----- what is kept -----

  /** The last message of a role. */
  function LastOf(ms: seq<Message>, role: string): Message
    requires HasRole(ms, role)
  {
    if HasRole(ms[1..], role) then LastOf(ms[1..], role) else
      ms[0]
  }

  lemma LastOfCons(m: Message, ms: seq<Message>, role: string)
    requires HasRole([m] + ms, role)
    ensures LastOf([m] + ms, role) == if HasRole(ms, role) then LastOf(ms, role) else m
  {
    assert ([m] + ms)[1..] == ms;
  }

  lemma {:induction false} ThinKeepsLast(ms: seq<Message>, role: string)
    requires Protected(role) && HasRole(ms, role)
    ensures HasRole(Thin(ms), role)
    ensures PruneOne(LastOf(ms, role), true) == Keep(LastOf(Thin(ms), role))
  {
    ThinKeepsRoles(ms, role);
    var m, rest := ms[0], ms[1..];
    assert ms == [m] + rest;
    HasRoleCons(m, rest, role);
    LastOfCons(m, rest, role);
    ThinKeepsRoles(rest, role);
    var k := PruneOne(m, !HasRole(rest, m.role));
    if k.Keep? {
      PruneOneFixed(m, !HasRole(rest, m.role));
      LastOfCons(k.m, Thin(rest), role);
    }
    if HasRole(rest, role) { ThinKeepsLast(rest, role); }
  }

  lemma {:induction false} UniqueToolsKeepsLast(ms: seq<Message>, seen: set<string>, role: string)
    requires Protected(role) && HasRole(ms, role)
    ensures HasRole(UniqueTools(ms, seen), role) && LastOf(UniqueTools(ms, seen), role) == LastOf(ms, role)
  {
    UniqueToolsKeepsRoles(ms, seen, role);
    var m, rest := ms[0], ms[1..];
    assert ms == [m] + rest;
    HasRoleCons(m, rest, role);
    LastOfCons(m, rest, role);
    var seen' := if RepeatsTool(m, seen) then seen else See(m, seen);
    UniqueToolsKeepsRoles(rest, seen', role);
    if HasRole(rest, role) { UniqueToolsKeepsLast(rest, seen', role); }
    if !RepeatsTool(m, seen) { LastOfCons(m, UniqueTools(rest, seen'), role); }
  }

  lemma NonEmptyWithRole(ms: seq<Message>, role: string)
    requires HasRole(ms, role)
    ensures ms != []
  {}

  /** The last system message survives word for word; the last user message survives too, shortened in
      the middle only if it is over the limit. */
  lemma LastMessagesSurvive(ms: seq<Message>)
    ensures HasRole(ms, "system") ==>
      HasRole(Pruned(ms), "system") && LastOf(Pruned(ms), "system") == LastOf(ms, "system")
    ensures HasRole(ms, "user") ==>
      && HasRole(Pruned(ms), "user")
      && var (was, now) := (LastOf(ms, "user"), LastOf(Pruned(ms), "user"));
         now == if |was.content| > USER_MAX && !Blank(was.content) then was.(content := CutUser(was.content)) else was
  {
    if HasRole(ms, "system") {
      SurvivesAs(ms, "system");
      LastHasRole(ms, "system");
    }
    if HasRole(ms, "user") {
      SurvivesAs(ms, "user");
      LastHasRole(ms, "user");
    }
  }

  lemma {:induction false} LastHasRole(ms: seq<Message>, role: string)
    requires HasRole(ms, role)
    ensures LastOf(ms, role).role == role
  {
    assert ms == [ms[0]] + ms[1..];
    HasRoleCons(ms[0], ms[1..], role);
    if HasRole(ms[1..], role) { LastHasRole(ms[1..], role); }
  }

  lemma SurvivesAs(ms: seq<Message>, role: string)
    requires Protected(role) && HasRole(ms, role)
    ensures HasRole(Pruned(ms), role) && PruneOne(LastOf(ms, role), true) == Keep(LastOf(Pruned(ms), role))
  {
    ThinKeepsLast(ms, role);
    UniqueToolsKeepsLast(Thin(ms), {}, role);
    NonEmptyWithRole(UniqueTools(Thin(ms), {}), role);
  }

  /** At most one message for every non-empty tool id. */
  predicate ToolIdsUnique(ms: seq<Message>) {
    forall i, j :: 0 <= i < j < |ms| && ms[i].role == "tool" && ms[j].role == "tool" && ms[i].toolCallId != ""
      ==> ms[i].toolCallId != ms[j].toolCallId
  }

  lemma {:induction false} UniqueToolsUnique(ms: seq<Message>, seen: set<string>)
    ensures ToolIdsUnique(UniqueTools(ms, seen))
    ensures forall i :: 0 <= i < |UniqueTools(ms, seen)| ==> !RepeatsTool(UniqueTools(ms, seen)[i], seen)
  {
    if ms != [] {
      if RepeatsTool(ms[0], seen) {
        UniqueToolsUnique(ms[1..], seen);
      } else {
        UniqueToolsUnique(ms[1..], See(ms[0], seen));
      }
    }
  }

  /** A message that pruning does not drop for itself. */
  predicate Counts(m: Message) { !Blank(m.content) || Protected(m.role) }

  lemma {:induction false} NothingLeftExactly(ms: seq<Message>)
    ensures Thin(ms) == [] <==> forall m :: m in ms ==> !Counts(m)
  {
    if ms != [] {
      var m, rest := ms[0], ms[1..];
      NothingLeftExactly(rest);
      assert forall x :: x in ms <==> x == m || x in rest;
      var k := PruneOne(m, !HasRole(rest, m.role));
      if k.Keep? {
        assert Thin(ms) == [k.m] + Thin(rest) && m in ms && Counts(m);
      } else if Protected(m.role) {
        var i :| 0 <= i < |rest| && rest[i].role == m.role;
        assert rest[i] in rest && Counts(rest[i]);
        assert Thin(ms) == Thin(rest);
      } else {
        assert Thin(ms) == Thin(rest) && !Counts(m);
      }
    }
  }

  /** Tool results are left unique exactly when they were, or some message is not both blank and of an
      unprotected role: only when every message is, is the input returned as it was. */
  lemma ToolResultsOnce(ms: seq<Message>)
    ensures ToolIdsUnique(Pruned(ms)) <==> ToolIdsUnique(ms) || exists m :: m in ms && Counts(m)
  {
    NothingLeftExactly(ms);
    UniqueToolsUnique(Thin(ms), {});
    if Thin(ms) != [] { assert UniqueTools(Thin(ms), {}) != []; }
  }

  /** So repeated tool ids can stay: here two blank results of one call. */
  lemma RepeatedToolResultsCanStay()
    ensures var m := Message("tool", "", "x"); !ToolIdsUnique(Pruned([m, m]))
  {
    var m := Message("tool", "", "x");
    var ms := [m, m];
    assert !ToolIdsUnique(ms) by { assert ms[0].toolCallId == ms[1].toolCallId; }
    ToolResultsOnce(ms);
    assert !ToolIdsUnique(Pruned(ms));
  }

  /** A message as it may come out: itself, or cut. */
  predicate CutOf(now: Message, was: Message) {
    now == was
    || (|was.content| > SYSTEM_MAX && now == was.(content := CutSystem(was.content)))
    || (|was.content| > USER_MAX && now == was.(content := CutUser(was.content)))
  }

  /** `out` lists some of the messages of `ms`, in order, possibly cut. */
  predicate Selection(out: seq<Message>, ms: seq<Message>)
    decreases |ms|
  {
    out == [] || (ms != [] && ((CutOf(out[0], ms[0]) && Selection(out[1..], ms[1..])) || Selection(out, ms[1..])))
  }

  lemma {:induction false} ThinSelects(ms: seq<Message>, seen: set<string>)
    ensures Selection(UniqueTools(Thin(ms), seen), ms)
  {
    if ms != [] {
      var k := PruneOne(ms[0], !HasRole(ms[1..], ms[0].role));
      if k.Dropped? {
        ThinSelects(ms[1..], seen);
      } else {
        assert ([k.m] + Thin(ms[1..]))[1..] == Thin(ms[1..]);
        if RepeatsTool(k.m, seen) {
          ThinSelects(ms[1..], seen);
        } else {
          var tail := UniqueTools(Thin(ms[1..]), See(k.m, seen));
          ThinSelects(ms[1..], See(k.m, seen));
          assert ([k.m] + tail)[1..] == tail;
        }
      }
    }
  }

  lemma {:induction false} SelfSelection(ms: seq<Message>)
    ensures Selection(ms, ms)
  {
    if ms != [] { SelfSelection(ms[1..]); }
  }

  /** Messages keep their order, and their text but for the two cuts. */
  lemma OrderPreserved(ms: seq<Message>)
    ensures Selection(Pruned(ms), ms)
  {
    ThinSelects(ms, {});
    SelfSelection(ms);
  }

  // ----- auto -----

  /** Dedup, then prune, and the cheaper of the two. */
  method AutoCompress(messages: seq<Message>) returns (result: seq<Message>)
    ensures CountTokens(result) == CountTokens(Pruned(Dedup.Compress(messages)))
    ensures CountTokens(result) <= CountTokens(Dedup.Compress(messages))
    ensures var deduped := Dedup.Compress(messages);
      result == if CountTokens(Pruned(deduped)) < CountTokens(deduped) then Pruned(deduped) else deduped
  {
    var deduped := Dedup.DedupCompress(messages);
    var dedupedTokens := CountMessageTokens(deduped);
    var pruned := PruneCompress(deduped);
    var prunedTokens := CountMessageTokens(pruned);
    PrunedTokens(deduped);
    result := if prunedTokens < dedupedTokens then pruned else deduped;
  }
}

/** The summarize strategy, for any summarizer. */
module Summarize {
  import opened Messages
  import opened Prune
  import opened PruneProperties

  /** Python's `int` of a float: truncation toward zero. */
  function Truncate(x: real): int { if x >= 0.0 then x.Floor else -((-x).Floor) }

  function Max(a: int, b: int): int { if a >= b then a else b }

  function Min(a: int, b: int): int { if a <= b then a else b }

  /** How many of the `n` most recent messages stay as they are. */
  function KeepLast(n: nat, targetRatio: real): (k: nat)
    ensures k >= 2 && (n >= 4 ==> k <= n - 2)
  {
    Max(2, Min(Max(1, Truncate(n as real * (1.0 - targetRatio))), n - 2))
  }

  /** With four messages or more the kept share is `n * (1 - targetRatio)`, rounded down, but at least 2
      and at most all but 2; with fewer it is 2. */
  lemma KeepLastExactly(n: nat, targetRatio: real)
    ensures var (k, share) := (KeepLast(n, targetRatio), n as real * (1.0 - targetRatio));
      && (n < 4 ==> k == 2)
      && (n >= 4 && share < 3.0 ==> k == 2)
      && (n >= 4 && share >= (n - 2) as real ==> k == n - 2)
      && (n >= 4 && 3.0 <= share < (n - 2) as real ==> k as real <= share < k as real + 1.0)
  {}

  function SummaryOf(older: seq<Message>, summarizer: seq<Message> -> string): Message {
    Message("system", "[Conversation summary]\n" + summarizer(older), "")
  }

  /** The older messages as one summary, and the `k` recent ones word for word. */
  function Summarized(messages: seq<Message>, k: nat, summarizer: seq<Message> -> string): seq<Message>
    requires k <= |messages|
  {
    [SummaryOf(messages[..|messages| - k], summarizer)] + messages[|messages| - k..]
  }

  /** The result by position: one summary message, then the recent messages unchanged. */
  lemma SummarizedAt(messages: seq<Message>, k: nat, summarizer: seq<Message> -> string)
    requires k <= |messages|
    ensures var s := Summarized(messages, k, summarizer);
      && |s| == k + 1
      && s[0] == Message("system", "[Conversation summary]\n" + summarizer(messages[..|messages| - k]), "")
      && forall i :: 1 <= i <= k ==> s[i] == messages[|messages| - k - 1 + i]
  {}

  /** There are older messages, and summarising them pays. */
  predicate Shortens(messages: seq<Message>, targetRatio: real, summarizer: seq<Message> -> string) {
    var k := KeepLast(|messages|, targetRatio);
    k < |messages| && CountTokens(Summarized(messages, k, summarizer)) < CountTokens(messages)
  }

  function SummarizeResult(messages: seq<Message>, targetRatio: real, summarizer: seq<Message> -> string): seq<Message> {
    if Shortens(messages, targetRatio, summarizer)
    then Summarized(messages, KeepLast(|messages|, targetRatio), summarizer) else messages
  }

  /** The messages are summarised exactly when there are older ones and the estimate strictly falls;
      otherwise nothing changes. */
  method SummarizeCompress(messages: seq<Message>, targetRatio: real, summarizer: seq<Message> -> string)
    returns (result: seq<Message>)
    ensures CountTokens(result) <= CountTokens(messages)
    ensures result == SummarizeResult(messages, targetRatio, summarizer)
  {
    if messages == [] { return []; }
    var totalTokens := CountMessageTokens(messages);
    var keepLast := KeepLast(|messages|, targetRatio);
    if keepLast >= |messages| { return messages; }
    var recent, older := messages[|messages| - keepLast..], messages[..|messages| - keepLast];
    var compressed := [Message("system", "[Conversation summary]\n" + summarizer(older), "")] + recent;
    var tokens := CountMessageTokens(compressed);
    if tokens >= totalTokens { return messages; }
    return compressed;
  }

  // ----- what becomes of the last system and the last user message -----

  /** The last message of the role is the one at `p`. */
  ghost predicate LastAt(ms: seq<Message>, role: string, p: int) {
    0 <= p < |ms| && ms[p].role == role && forall i :: p < i < |ms| ==> ms[i].role != role
  }

  lemma {:induction false} LastOfAt(ms: seq<Message>, role: string, p: int)
    requires LastAt(ms, role, p)
    ensures HasRole(ms, role) && LastOf(ms, role) == ms[p]
  {
    if p > 0 {
      assert ms[1..][p - 1] == ms[p];
      LastOfAt(ms[1..], role, p - 1);
    } else {
      assert !HasRole(ms[1..], role);
    }
  }

  /** In a summarised list. */
  lemma LastAfterSummary(messages: seq<Message>, k: nat, summarizer: seq<Message> -> string, role: string, p: int)
    requires 0 < k < |messages| && LastAt(messages, role, p)
    ensures var s := Summarized(messages, k, summarizer);
      if p >= |messages| - k then LastAt(s, role, p - (|messages| - k) + 1)
      else if role == "system" then LastAt(s, role, 0) else !HasRole(s, role)
  {
    var s, gone := Summarized(messages, k, summarizer), |messages| - k;
    forall i | 1 <= i < |s| ensures s[i] == messages[i - 1 + gone] {}
  }

  /** The last message of a role survives summarising exactly when nothing is summarised, or it is among
      the recent ones, or the summary is that very message. */
  lemma LastSurvivesExactly(messages: seq<Message>, targetRatio: real, summarizer: seq<Message> -> string, role: string, p: int)
    requires LastAt(messages, role, p)
    ensures var r, k := SummarizeResult(messages, targetRatio, summarizer), KeepLast(|messages|, targetRatio);
      HasRole(r, role) && LastOf(r, role) == messages[p] <==>
        || !Shortens(messages, targetRatio, summarizer)
        || p >= |messages| - k
        || (role == "system" && messages[p] == SummaryOf(messages[..|messages| - k], summarizer))
  {
    var r, k := SummarizeResult(messages, targetRatio, summarizer), KeepLast(|messages|, targetRatio);
    if !Shortens(messages, targetRatio, summarizer) {
      LastOfAt(messages, role, p);
    } else {
      LastAfterSummary(messages, k, summarizer, role, p);
      if p >= |messages| - k {
        LastOfAt(r, role, p - (|messages| - k) + 1);
      } else if role == "system" {
        LastOfAt(r, role, 0);
      }
    }
  }

  /** So the system message can be lost: here it opens a list of four, and an empty summary replaces it. */
  lemma SystemMessageCanBeLost(system: Message, user: Message)
    requires system == Message("system", seq(400, _ => 'a'), "") && user == Message("user", "", "")
    ensures var ms := [system, user, user, user];
      var r := SummarizeResult(ms, 0.5, _ => "");
      LastAt(ms, "system", 0) && HasRole(r, "system") && LastOf(r, "system") != system
  {
    var ms := [system, user, user, user];
    var none: seq<Message> -> string := _ => "";
    assert KeepLast(4, 0.5) == 2;
    var summary := SummaryOf(ms[..2], none);
    assert |summary.content| == 23;
    assert Summarized(ms, 2, none) == [summary, user, user];
    CountOfOneAndEmpty(summary, [user, user]);
    CountOfOneAndEmpty(system, [user, user, user]);
    assert ms == [system] + [user, user, user] && [summary, user, user] == [summary] + [user, user];
    assert Shortens(ms, 0.5, none);
    LastAfterSummary(ms, 2, none, "system", 0);
    LastOfAt(Summarized(ms, 2, none), "system", 0);
  }

  lemma {:induction false} CountOfOneAndEmpty(m: Message, rest: seq<Message>)
    requires forall x :: x in rest ==> x.content == ""
    ensures CountTokens([m] + rest) == EstimateTokens(m.content)
    decreases |rest|
  {
    assert ([m] + rest)[1..] == rest;
    if rest != [] {
      CountOfOneAndEmpty(rest[0], rest[1..]);
      assert rest == [rest[0]] + rest[1..];
    }
  }
}
