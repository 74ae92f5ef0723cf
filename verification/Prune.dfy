/** The prune strategy, and the strategies built on it. */
module Prune {
  import opened Messages

  const SYSTEM_MAX: nat := 500
  const USER_MAX: nat := 2000
  const USER_KEEP_EACH: nat := 800
  const ELLIPSIS: string := "..."
  const TRUNCATED: string := "\n...[content truncated]...\n"

  /** The characters Python's `str.strip` removes. */
  predicate IsSpace(c: char) {
    var n := c as int;
    || 0x09 <= n <= 0x0d || 0x1c <= n <= 0x20 || n == 0x85 || n == 0xa0 || n == 0x1680
    || 0x2000 <= n <= 0x200a || n == 0x2028 || n == 0x2029 || n == 0x202f || n == 0x205f || n == 0x3000
  }

  predicate Blank(s: string) { forall i :: 0 <= i < |s| ==> IsSpace(s[i]) }

  /** The roles whose last message is protected. */
  predicate Protected(role: string) { role == "system" || role == "user" }

  function CutSystem(s: string): string
    requires |s| > SYSTEM_MAX
  {
    s[..SYSTEM_MAX] + ELLIPSIS
  }

  function CutUser(s: string): string
    requires |s| > USER_MAX
  {
    s[..USER_KEEP_EACH] + TRUNCATED + s[|s| - USER_KEEP_EACH..]
  }

  datatype Kept = Dropped | Keep(m: Message)

  /** What becomes of one message; `last` says that no later message has its role. */
  function PruneOne(m: Message, last: bool): Kept {
    if Blank(m.content) then (if last && Protected(m.role) then Keep(m) else Dropped)
    else if m.role == "system" && !last && |m.content| > SYSTEM_MAX then Keep(m.(content := CutSystem(m.content)))
    else if m.role == "user" && |m.content| > USER_MAX then Keep(m.(content := CutUser(m.content)))
    else Keep(m)
  }

  predicate HasRole(ms: seq<Message>, role: string) {
    exists i :: 0 <= i < |ms| && ms[i].role == role
  }

  function Thin(ms: seq<Message>): seq<Message> {
    if ms == [] then []
    else
      var rest := Thin(ms[1..]);
      match PruneOne(ms[0], !HasRole(ms[1..], ms[0].role))
      case Dropped => rest
      case Keep(m) => [m] + rest
  }

  predicate RepeatsTool(m: Message, seen: set<string>) {
    m.role == "tool" && m.toolCallId != "" && m.toolCallId in seen
  }

  function See(m: Message, seen: set<string>): set<string> {
    if m.role == "tool" && m.toolCallId != "" then seen + {m.toolCallId} else seen
  }

  /** Without tool messages whose id has occurred before. */
  function UniqueTools(ms: seq<Message>, seen: set<string>): seq<Message> {
    if ms == [] then []
    else if RepeatsTool(ms[0], seen) then UniqueTools(ms[1..], seen)
    else [ms[0]] + UniqueTools(ms[1..], See(ms[0], seen))
  }

  function Pruned(ms: seq<Message>): seq<Message> {
    var d := UniqueTools(Thin(ms), {}); if d != [] then d else ms
  }

  // ----- the procedure -----

  /** Scans backwards for the last system and the last user message, -1 if there is none. */
  method LastIndices(messages: seq<Message>) returns (lastSystem: int, lastUser: int)
    ensures -1 <= lastSystem < |messages| && -1 <= lastUser < |messages|
    ensures forall i :: lastSystem < i < |messages| ==> messages[i].role != "system"
    ensures forall i :: lastUser < i < |messages| ==> messages[i].role != "user"
    ensures lastSystem >= 0 ==> messages[lastSystem].role == "system"
    ensures lastUser >= 0 ==> messages[lastUser].role == "user"
  {
    lastSystem, lastUser := -1, -1;
    var idx := |messages| - 1;
    while idx >= 0
      invariant -1 <= idx < |messages|
      invariant lastSystem == -1 || (idx < lastSystem < |messages| && messages[lastSystem].role == "system")
      invariant lastUser == -1 || (idx < lastUser < |messages| && messages[lastUser].role == "user")
      invariant forall i :: (if lastSystem >= 0 then lastSystem else idx) < i < |messages| ==> messages[i].role != "system"
      invariant forall i :: (if lastUser >= 0 then lastUser else idx) < i < |messages| ==> messages[i].role != "user"
    {
      var role := messages[idx].role;
      if role == "system" && lastSystem == -1 { lastSystem := idx; }
      if role == "user" && lastUser == -1 { lastUser := idx; }
      if lastSystem != -1 && lastUser != -1 { return; }
      idx := idx - 1;
    }
  }

  method PruneContents(messages: seq<Message>) returns (pruned: seq<Message>)
    ensures pruned == Thin(messages)
  {
    var lastSystem, lastUser := LastIndices(messages);
    pruned := [];
    var idx := 0;
    while idx < |messages|
      invariant idx <= |messages| && pruned + Thin(messages[idx..]) == Thin(messages)
    {
      var msg := messages[idx];
      ghost var last := !HasRole(messages[idx + 1..], msg.role);
      assert messages[idx..][1..] == messages[idx + 1..];
      assert Protected(msg.role) ==> (last <==> idx == lastSystem || idx == lastUser) by {
        LastFlag(messages, idx, "system", lastSystem);
        LastFlag(messages, idx, "user", lastUser);
      }
      var kept := OneMessage(msg, idx == lastSystem || idx == lastUser, last);
      match kept {
        case Dropped =>
        case Keep(m) =>
          assert pruned + ([m] + Thin(messages[idx + 1..])) == pruned + [m] + Thin(messages[idx + 1..]);
          pruned := pruned + [m];
      }
      idx := idx + 1;
    }
    assert messages[idx..] == [];
  }

  lemma LastFlag(ms: seq<Message>, idx: nat, role: string, last: int)
    requires idx < |ms| && -1 <= last < |ms|
    requires forall i :: last < i < |ms| ==> ms[i].role != role
    requires last >= 0 ==> ms[last].role == role
    ensures ms[idx].role == role ==> (!HasRole(ms[idx + 1..], role) <==> idx == last)
    ensures ms[idx].role != role ==> idx != last
  {
    if idx < last { assert ms[idx + 1..][last - idx - 1] == ms[last]; }
  }

  /** The body of the loop; `protect` is the index test, `last` what it means. */
  method OneMessage(msg: Message, protect: bool, ghost last: bool) returns (kept: Kept)
    requires Protected(msg.role) ==> (last <==> protect)
    requires !Protected(msg.role) ==> !protect
    ensures kept == PruneOne(msg, last)
  {
    var content := msg.content;
    if Blank(content) {
      if protect { return Keep(msg); }
      return Dropped;
    }
    if msg.role == "system" && !protect {
      if |content| > SYSTEM_MAX {
        return Keep(msg.(content := content[..SYSTEM_MAX] + ELLIPSIS));
      }
    }
    if msg.role == "user" && |content| > USER_MAX {
      return Keep(msg.(content := content[..USER_KEEP_EACH] + TRUNCATED + content[|content| - USER_KEEP_EACH..]));
    }
    return Keep(msg);
  }

  method PruneCompress(messages: seq<Message>) returns (result: seq<Message>)
    ensures result == Pruned(messages)
  {
    if messages == [] { return []; }
    var pruned := PruneContents(messages);
    var deduped: seq<Message> := [];
    var seenToolIds: set<string> := {};
    var idx := 0;
    while idx < |pruned|
      invariant idx <= |pruned| && deduped + UniqueTools(pruned[idx..], seenToolIds) == UniqueTools(pruned, {})
    {
      var msg := pruned[idx];
      assert pruned[idx..][1..] == pruned[idx + 1..];
      var repeated := false;
      ghost var before := seenToolIds;
      if msg.role == "tool" {
        repeated := msg.toolCallId != "" && msg.toolCallId in seenToolIds;
        if !repeated && msg.toolCallId != "" { seenToolIds := seenToolIds + {msg.toolCallId}; }
      }
      if !repeated {
        assert seenToolIds == See(msg, before);
        assert deduped + ([msg] + UniqueTools(pruned[idx + 1..], seenToolIds))
            == deduped + [msg] + UniqueTools(pruned[idx + 1..], seenToolIds);
        deduped := deduped + [msg];
      }
      idx := idx + 1;
    }
    assert pruned[idx..] == [];
    result := if deduped != [] then deduped else messages;
  }
}
