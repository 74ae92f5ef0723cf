/** Messages, the token estimate, and text normalisation. */
module Messages {
  datatype Message = Message(role: string, content: string, toolCallId: string)

  function EstimateTokens(text: string): nat {
    if text == "" then 0 else if |text| / 4 >= 1 then |text| / 4 else 1
  }

  function CountTokens(ms: seq<Message>): nat {
    if ms == [] then 0 else EstimateTokens(ms[0].content) + CountTokens(ms[1..])
  }

  /** One token for every four characters, rounded down, but at least one for any text. */
  lemma EstimateExactly(text: string)
    ensures EstimateTokens(text) == 0 <==> text == ""
    ensures |text| < 8 ==> EstimateTokens(text) <= 1
    ensures |text| >= 4 ==> 4 * EstimateTokens(text) <= |text| < 4 * EstimateTokens(text) + 4
  {}

  lemma {:induction false} CountAppend(a: seq<Message>, b: seq<Message>)
    ensures CountTokens(a + b) == CountTokens(a) + CountTokens(b)
    ensures |a| == 1 ==> CountTokens(a) == EstimateTokens(a[0].content)
  {
    if a == [] {
      assert a + b == b;
    } else {
      assert (a + b)[1..] == a[1..] + b;
      CountAppend(a[1..], b);
      if |a| == 1 { assert CountTokens(a[1..]) == 0; }
    }
  }

  method CountMessageTokens(ms: seq<Message>) returns (total: nat)
    ensures total == CountTokens(ms)
  {
    total := 0;
    var i := 0;
    while i < |ms|
      invariant i <= |ms| && total + CountTokens(ms[i..]) == CountTokens(ms)
    {
      total := total + EstimateTokens(ms[i].content);
      i := i + 1;
    }
  }

  // ----- collapsing runs of a character -----

  predicate EndsInTwo(t: string, c: char) { |t| >= 2 && t[|t| - 1] == c && t[|t| - 2] == c }

  /** Replaces every run of three or more `c` by two. */
  function Squeeze(s: string, c: char): string {
    if s == "" then ""
    else
      var t, x := Squeeze(s[..|s| - 1], c), s[|s| - 1];
      if x == c && EndsInTwo(t, c) then t else t + [x]
  }

  predicate NoTriple(s: string, c: char) {
    forall i :: 0 <= i < |s| - 2 ==> !(s[i] == c && s[i + 1] == c && s[i + 2] == c)
  }

  lemma {:induction false} SqueezeNoTriple(s: string, c: char)
    ensures NoTriple(Squeeze(s, c), c)
  {
    if s != "" { SqueezeNoTriple(s[..|s| - 1], c); }
  }

  lemma {:induction false} SqueezeFixed(s: string, c: char)
    requires NoTriple(s, c)
    ensures Squeeze(s, c) == s
  {
    if s != "" {
      SqueezeFixed(s[..|s| - 1], c);
      assert s == s[..|s| - 1] + [s[|s| - 1]];
      if |s| >= 3 { assert !(s[|s| - 3] == c && s[|s| - 3 + 1] == c && s[|s| - 3 + 2] == c); }
    }
  }

  /** A squeezed text that ends in another character ends where the text did. */
  lemma SqueezeEnd(s: string, c: char)
    requires Squeeze(s, c) != "" && Squeeze(s, c)[|Squeeze(s, c)| - 1] != c
    ensures s != "" && s[|s| - 1] == Squeeze(s, c)[|Squeeze(s, c)| - 1]
    ensures Squeeze(s, c) == Squeeze(s[..|s| - 1], c) + [s[|s| - 1]]
  {}

  /** Squeezing one character makes no triple of another. */
  lemma {:induction false} SqueezeKeepsNoTriple(s: string, c: char, d: char)
    requires c != d && NoTriple(s, d)
    ensures NoTriple(Squeeze(s, c), d)
  {
    if s != "" {
      var init := s[..|s| - 1];
      assert |s| >= 3 ==> !(s[|s| - 3] == d && s[|s| - 3 + 1] == d && s[|s| - 3 + 2] == d);
      SqueezeKeepsNoTriple(init, c, d);
      var t := Squeeze(init, c);
      if s[|s| - 1] == d && EndsInTwo(t, d) {
        SqueezeEnd(init, c);
        var init2 := init[..|init| - 1];
        assert t == Squeeze(init2, c) + [d];
        SqueezeEnd(init2, c);
      }
    }
  }

  /** The two substitutions: runs of newlines first, then runs of spaces. */
  function NormaliseText(s: string): string {
    Squeeze(Squeeze(s, '\n'), ' ')
  }

  // ----- what becomes of a run -----

  function Run(c: char, k: nat): (r: string)
    ensures |r| == k && forall i :: 0 <= i < k ==> r[i] == c
  {
    seq(k, _ => c)
  }

  function Least(a: nat, b: nat): nat { if a <= b then a else b }

  predicate EndsWith(s: string, c: char) { s != "" && s[|s| - 1] == c }

  predicate StartsWith(s: string, c: char) { s != "" && s[0] == c }

  lemma {:induction false} SqueezeEnds(s: string, c: char)
    ensures Squeeze(s, c) == "" <==> s == ""
    ensures s != "" ==> Squeeze(s, c)[0] == s[0] && Squeeze(s, c)[|Squeeze(s, c)| - 1] == s[|s| - 1]
  {
    if s != "" {
      SqueezeEnds(s[..|s| - 1], c);
      if |s| == 1 { assert Squeeze(s[..0], c) == ""; }
    }
  }

  /** Where the text is not cut inside a run of `c`, the parts can be squeezed by themselves. */
  lemma {:induction false} SqueezeAppend(a: string, b: string, c: char)
    requires !EndsWith(a, c) || !StartsWith(b, c)
    ensures Squeeze(a + b, c) == Squeeze(a, c) + Squeeze(b, c)
  {
    if b == "" {
      assert a + b == a;
    } else {
      var init, x := b[..|b| - 1], b[|b| - 1];
      assert (a + b)[..|a + b| - 1] == a + init;
      SqueezeAppend(a, init, c);
      SqueezeEnds(a, c);
      SqueezeEnds(init, c);
      EndsInTwoAppend(Squeeze(a, c), Squeeze(init, c), x, c);
    }
  }

  lemma EndsInTwoAppend(t: string, u: string, x: char, c: char)
    requires !EndsWith(t, c) || (if u == "" then x != c else u[0] != c)
    ensures x == c ==> (EndsInTwo(t + u, c) <==> EndsInTwo(u, c))
  {
    if |u| >= 2 { assert (t + u)[|t + u| - 2] == u[|u| - 2]; }
  }

  lemma {:induction false} SqueezeRunAlone(c: char, k: nat)
    ensures Squeeze(Run(c, k), c) == Run(c, Least(k, 2))
  {
    if k > 0 {
      assert Run(c, k)[..k - 1] == Run(c, k - 1);
      SqueezeRunAlone(c, k - 1);
    }
  }

  /** A maximal run of `k` characters `c` becomes one of at most two, and the text around it is squeezed
      by itself. */
  lemma SqueezeRun(a: string, c: char, k: nat, b: string)
    requires !EndsWith(a, c) && !StartsWith(b, c)
    ensures Squeeze(a + Run(c, k) + b, c) == Squeeze(a, c) + Run(c, Least(k, 2)) + Squeeze(b, c)
  {
    SqueezeAppend(a + Run(c, k), b, c);
    SqueezeAppend(a, Run(c, k), c);
    SqueezeRunAlone(c, k);
  }

  lemma SqueezeOther(a: string, x: char, k: nat, b: string, c: char)
    requires x != c && k >= 1
    ensures Squeeze(a + Run(x, k) + b, c) == Squeeze(a, c) + Run(x, k) + Squeeze(b, c)
  {
    SqueezeAppend(a + Run(x, k), b, c);
    SqueezeAppend(a, Run(x, k), c);
    SqueezeFixed(Run(x, k), c);
  }

  /** The longest prefix of one character. */
  function HeadRun(s: string): (n: nat)
    requires s != ""
    ensures 1 <= n <= |s| && s[..n] == Run(s[0], n) && !StartsWith(s[n..], s[0])
  {
    if |s| == 1 || s[1] != s[0] then 1
    else
      var n := HeadRun(s[1..]);
      assert s[..n + 1] == [s[0]] + s[1..][..n] && s[n + 1..] == s[1..][n..];
      n + 1
  }

  /** The text run by run: of a run of newlines or of spaces at most two stay, of another run all. */
  function Shorten(s: string): string {
    if s == "" then ""
    else
      var n := HeadRun(s);
      Run(s[0], if s[0] == '\n' || s[0] == ' ' then Least(n, 2) else n) + Shorten(s[n..])
  }

  lemma NormaliseHead(x: char, k: nat, b: string)
    requires k >= 1 && !StartsWith(b, x)
    ensures NormaliseText(Run(x, k) + b)
         == Run(x, if x == '\n' || x == ' ' then Least(k, 2) else k) + NormaliseText(b)
  {
    var a := "";
    assert a + Run(x, k) == Run(x, k);
    if x == '\n' {
      SqueezeRun(a, '\n', k, b);
      SqueezeOther(a, '\n', Least(k, 2), Squeeze(b, '\n'), ' ');
    } else {
      SqueezeOther(a, x, k, b, '\n');
      SqueezeEnds(b, '\n');
      if x == ' ' {
        SqueezeRun(a, ' ', k, Squeeze(b, '\n'));
      } else {
        SqueezeOther(a, x, k, Squeeze(b, '\n'), ' ');
      }
    }
  }

  /** The two substitutions shorten every run of newlines and of spaces to two, and nothing else. */
  lemma {:induction false} NormaliseShortens(s: string)
    ensures NormaliseText(s) == Shorten(s)
  {
    if s != "" {
      var n := HeadRun(s);
      assert s == Run(s[0], n) + s[n..];
      NormaliseHead(s[0], n, s[n..]);
      NormaliseShortens(s[n..]);
    }
  }

  predicate Normal(s: string) { NoTriple(s, '\n') && NoTriple(s, ' ') }

  lemma NormaliseIsNormal(s: string)
    ensures Normal(NormaliseText(s))
  {
    SqueezeNoTriple(s, '\n');
    SqueezeKeepsNoTriple(Squeeze(s, '\n'), ' ', '\n');
    SqueezeNoTriple(Squeeze(s, '\n'), ' ');
  }

  lemma NormaliseFixed(s: string)
    requires Normal(s)
    ensures NormaliseText(s) == s
  {
    SqueezeFixed(s, '\n');
    SqueezeFixed(s, ' ');
  }

  function Normalise(m: Message): Message { m.(content := NormaliseText(m.content)) }
}

/** The dedup strategy: drop repeats, merge runs of one role, normalise. */
module Dedup {
  import opened Sorting
  import opened Messages

  predicate Repeats(a: Message, b: Message) { a.role == b.role && a.content == b.content }

  function DropAfter(prev: Message, ms: seq<Message>): seq<Message>
    decreases |ms|
  {
    if ms == [] then []
    else if Repeats(prev, ms[0]) then DropAfter(prev, ms[1..])
    else [ms[0]] + DropAfter(ms[0], ms[1..])
  }

  /** Without the messages that repeat the one kept before them. */
  function DropRepeats(ms: seq<Message>): seq<Message> {
    if ms == [] then [] else [ms[0]] + DropAfter(ms[0], ms[1..])
  }

  /** How many messages from the start share the first one's role. */
  function RunLength(ms: seq<Message>): (n: nat)
    requires ms != []
    ensures 1 <= n <= |ms|
    ensures forall k :: 0 <= k < n ==> ms[k].role == ms[0].role
    ensures n < |ms| ==> ms[n].role != ms[0].role
  {
    if |ms| == 1 || ms[1].role != ms[0].role then 1 else 1 + RunLength(ms[1..])
  }

  /** The maximal runs of one role. */
  function Runs(ms: seq<Message>): (r: seq<seq<Message>>)
    ensures ms != [] ==> r != []
    ensures forall k :: 0 <= k < |r| ==> r[k] != []
  {
    if ms == [] then [] else [ms[..RunLength(ms)]] + Runs(ms[RunLength(ms)..])
  }

  function Contents(ms: seq<Message>): (r: seq<string>)
    ensures |r| == |ms|
  {
    seq(|ms|, i requires 0 <= i < |ms| => ms[i].content)
  }

  /** Python's `"\n\n".join`. */
  function Join(cs: seq<string>): string {
    if cs == [] then "" else if |cs| == 1 then cs[0] else Join(cs[..|cs| - 1]) + "\n\n" + cs[|cs| - 1]
  }

  function MergeRun(run: seq<Message>): Message {
    if run == [] then Message("", "", "")
    else if |run| == 1 then run[0] else Message(run[0].role, Join(Contents(run)), "")
  }

  function Merge(ms: seq<Message>): seq<Message> { Map(MergeRun, Runs(ms)) }

  function Compress(ms: seq<Message>): seq<Message> { Map(Normalise, Merge(DropRepeats(ms))) }

  method DropConsecutive(messages: seq<Message>) returns (deduped: seq<Message>)
    requires messages != []
    ensures deduped == DropRepeats(messages)
  {
    deduped := [messages[0]];
    var i := 1;
    while i < |messages|
      invariant 1 <= i <= |messages| && deduped != []
      invariant deduped + DropAfter(deduped[|deduped| - 1], messages[i..]) == DropRepeats(messages)
    {
      var msg, prev := messages[i], deduped[|deduped| - 1];
      assert messages[i..][1..] == messages[i + 1..];
      if msg.role == prev.role && msg.content == prev.content {
      } else {
        assert deduped + ([msg] + DropAfter(msg, messages[i + 1..])) == deduped + [msg] + DropAfter(msg, messages[i + 1..]);
        deduped := deduped + [msg];
      }
      i := i + 1;
    }
    assert messages[i..] == [];
  }

  /** The inner loop: collects the contents of the run that starts at `i`. */
  method CollectRun(deduped: seq<Message>, i: nat) returns (contents: seq<string>, j: nat)
    requires i < |deduped|
    ensures i < j <= |deduped| && j - i == RunLength(deduped[i..])
    ensures contents == Contents(deduped[i..j])
  {
    var msg := deduped[i];
    contents := [msg.content];
    j := i + 1;
    while j < |deduped| && deduped[j].role == msg.role
      invariant i < j <= |deduped|
      invariant forall k :: i <= k < j ==> deduped[k].role == msg.role
      invariant contents == Contents(deduped[i..j])
    {
      assert deduped[i..j + 1] == deduped[i..j] + [deduped[j]];
      contents := contents + [deduped[j].content];
      j := j + 1;
    }
    RunLengthIs(deduped[i..], j - i);
  }

  lemma MergeUnfolds(ms: seq<Message>, n: nat)
    requires ms != [] && n == RunLength(ms)
    ensures Merge(ms) == [MergeRun(ms[..n])] + Merge(ms[n..])
  {
    assert ms == ms[..n] + ms[n..];
    MergeRunFirst(ms, ms[..n], ms[n..]);
  }

  lemma MergeOneMore(ms: seq<Message>, i: nat, j: nat, merged: seq<Message>)
    requires i < j <= |ms| && j - i == RunLength(ms[i..])
    ensures merged + Merge(ms[i..]) == (merged + [MergeRun(ms[i..j])]) + Merge(ms[j..])
  {
    SliceOfSuffix(ms, i, j);
    MergeRunFirst(ms[i..], ms[i..j], ms[j..]);
    AppendOne(merged, MergeRun(ms[i..j]), Merge(ms[j..]));
  }

  lemma MergeRunFirst(ms: seq<Message>, run: seq<Message>, rest: seq<Message>)
    requires run != [] && ms == run + rest && RunLength(ms) == |run|
    ensures Merge(ms) == [MergeRun(run)] + Merge(rest)
  {
    RunsUnfold(ms, run, rest);
    MapCons(MergeRun, run, Runs(rest));
  }

  lemma SliceOfSuffix<T>(s: seq<T>, i: nat, j: nat)
    requires i <= j <= |s|
    ensures s[i..] == s[i..j] + s[j..]
  {}

  lemma AppendOne<T>(a: seq<T>, x: T, b: seq<T>)
    ensures a + ([x] + b) == (a + [x]) + b
  {}

  method MergeSameRole(deduped: seq<Message>) returns (merged: seq<Message>)
    ensures merged == Merge(deduped)
  {
    merged := [];
    var i := 0;
    assert deduped[0..] == deduped;
    while i < |deduped|
      invariant i <= |deduped| && merged + Merge(deduped[i..]) == Merge(deduped)
    {
      var msg := deduped[i];
      var contents, j := CollectRun(deduped, i);
      MergeOneMore(deduped, i, j, merged);
      if |contents| > 1 {
        merged := merged + [Message(msg.role, Join(contents), "")];
      } else {
        merged := merged + [msg];
      }
      i := j;
    }
    assert deduped[i..] == [] && Merge([]) == [];
  }

  lemma {:induction false} RunLengthIs(ms: seq<Message>, n: nat)
    requires 1 <= n <= |ms| && forall k :: 0 <= k < n ==> ms[k].role == ms[0].role
    requires n < |ms| ==> ms[n].role != ms[0].role
    ensures RunLength(ms) == n
  {
    if n > 1 { RunLengthIs(ms[1..], n - 1); }
  }

  method DedupCompress(messages: seq<Message>) returns (result: seq<Message>)
    ensures result == Compress(messages)
  {
    if messages == [] { return []; }
    var deduped := DropConsecutive(messages);
    var merged := MergeSameRole(deduped);
    result := merged;
    var i := 0;
    while i < |result|
      invariant i <= |result| && |result| == |merged|
      invariant forall k :: 0 <= k < i ==> result[k] == Normalise(merged[k])
      invariant forall k :: i <= k < |merged| ==> result[k] == merged[k]
    {
      result := result[i := result[i].(content := NormaliseText(result[i].content))];
      i := i + 1;
    }
    if result == [] { result := messages; }
  }

  // ----- what the runs are -----

  function Concat(rs: seq<seq<Message>>): seq<Message> {
    if rs == [] then [] else rs[0] + Concat(rs[1..])
  }

  predicate Uniform(run: seq<Message>) {
    run != [] && forall k :: 0 <= k < |run| ==> run[k].role == run[0].role
  }

  predicate Differ(a: seq<Message>, b: seq<Message>) { a != [] && b != [] && a[0].role != b[0].role }

  ghost predicate Separate(runs: seq<seq<Message>>) {
    && (forall k :: 0 <= k < |runs| ==> Uniform(runs[k]))
    && (forall k :: 0 <= k < |runs| - 1 ==> Differ(runs[k], runs[k + 1]))
  }

  /** One run in front of separate runs, the first of which is of another role. */
  lemma SeparateStep(run: seq<Message>, rest: seq<seq<Message>>)
    requires Uniform(run) && Separate(rest) && (rest != [] ==> Differ(run, rest[0]))
    ensures Separate([run] + rest) && Concat([run] + rest) == run + Concat(rest)
  {
    var all := [run] + rest;
    assert all[1..] == rest;
    forall k | 0 <= k < |all| ensures Uniform(all[k]) {
      if k > 0 { assert all[k] == rest[k - 1]; }
    }
    forall k | 0 <= k < |all| - 1 ensures Differ(all[k], all[k + 1]) {
      assert all[k + 1] == rest[k];
      if k > 0 { assert all[k] == rest[k - 1] && Differ(rest[k - 1], rest[k - 1 + 1]); }
    }
  }

  /** `runs` cuts `ms` into separate runs. */
  ghost predicate Cuts(runs: seq<seq<Message>>, ms: seq<Message>) {
    && Separate(runs) && Concat(runs) == ms
    && (runs == [] <==> ms == [])
    && (ms != [] ==> runs[0] != [] && runs[0][0] == ms[0])
  }

  lemma CutsStep(run: seq<Message>, rest: seq<Message>, tail: seq<seq<Message>>)
    requires Uniform(run) && (rest != [] ==> rest[0].role != run[0].role) && Cuts(tail, rest)
    ensures Cuts([run] + tail, run + rest)
  {
    SeparateStep(run, tail);
  }

  lemma FirstRun(ms: seq<Message>, n: nat)
    requires ms != [] && n == RunLength(ms)
    ensures Uniform(ms[..n]) && ms == ms[..n] + ms[n..]
    ensures ms[n..] != [] ==> ms[n..][0].role != ms[..n][0].role
  {}

  lemma {:induction false} RunsCut(ms: seq<Message>)
    ensures Cuts(Runs(ms), ms)
  {
    if ms != [] {
      var n := RunLength(ms);
      RunsCut(ms[n..]);
      FirstRun(ms, n);
      RunsUnfold(ms, ms[..n], ms[n..]);
      CutsStep(ms[..n], ms[n..], Runs(ms[n..]));
    }
  }

  /** The runs partition the messages, are each of one role, and neighbours differ in role. */
  lemma RunsPartition(ms: seq<Message>)
    ensures Concat(Runs(ms)) == ms
    ensures forall k :: 0 <= k < |Runs(ms)| ==> Uniform(Runs(ms)[k])
    ensures forall k :: 0 <= k < |Runs(ms)| - 1 ==> Runs(ms)[k][0].role != Runs(ms)[k + 1][0].role
    ensures ms != [] ==> Runs(ms)[0][0] == ms[0]
  {
    RunsCut(ms);
    var r: seq<seq<Message>> := Runs(ms);
    forall k | 0 <= k < |r| - 1 ensures r[k][0].role != r[k + 1][0].role { assert Differ(r[k], r[k + 1]); }
  }

  lemma {:induction false} DropAfterInside(prev: Message, run: seq<Message>, rest: seq<Message>)
    requires forall k :: 0 <= k < |run| ==> run[k].role == prev.role
    requires rest != [] ==> rest[0].role != prev.role
    ensures DropAfter(prev, run + rest) == DropAfter(prev, run) + DropRepeats(rest)
    ensures forall k :: 0 <= k < |DropAfter(prev, run)| ==> DropAfter(prev, run)[k].role == prev.role
    decreases |run|
  {
    if run == [] {
      assert run + rest == rest;
    } else {
      assert (run + rest)[1..] == run[1..] + rest;
      DropAfterInside(if Repeats(prev, run[0]) then prev else run[0], run[1..], rest);
    }
  }

  /** Dropping repeats first, as the code does, and grouping first come to the same. */
  lemma {:induction false} RunsOfDropped(ms: seq<Message>)
    ensures Runs(DropRepeats(ms)) == Map(DropRepeats, Runs(ms))
  {
    if ms == [] {
      assert Map(DropRepeats, Runs(ms)) == [];
    } else {
      var run, rest := ms[..RunLength(ms)], ms[RunLength(ms)..];
      RunsOfDropped(rest);
      DroppedSplits(ms, run, rest);
      RunsOfDroppedStep(ms, run, rest);
    }
  }

  lemma RunsOfDroppedStep(ms: seq<Message>, run: seq<Message>, rest: seq<Message>)
    requires run != [] && ms == run + rest && RunLength(ms) == |run|
    requires DropRepeats(run) != [] && DropRepeats(ms) == DropRepeats(run) + DropRepeats(rest)
    requires RunLength(DropRepeats(ms)) == |DropRepeats(run)|
    requires Runs(DropRepeats(rest)) == Map(DropRepeats, Runs(rest))
    ensures Runs(DropRepeats(ms)) == Map(DropRepeats, Runs(ms))
  {
    RunsUnfold(DropRepeats(ms), DropRepeats(run), DropRepeats(rest));
    RunsUnfold(ms, run, rest);
    MapCons(DropRepeats, run, Runs(rest));
  }

  lemma RunsUnfold(ms: seq<Message>, run: seq<Message>, rest: seq<Message>)
    requires run != [] && ms == run + rest && RunLength(ms) == |run|
    ensures Runs(ms) == [run] + Runs(rest)
  {
    assert ms[..|run|] == run && ms[|run|..] == rest;
  }

  lemma MapCons<A, B>(f: A -> B, x: A, s: seq<A>)
    ensures Map(f, [x] + s) == [f(x)] + Map(f, s)
  {}

  lemma DroppedSplits(ms: seq<Message>, run: seq<Message>, rest: seq<Message>)
    requires ms != [] && run == ms[..RunLength(ms)] && rest == ms[RunLength(ms)..]
    ensures ms == run + rest && RunLength(ms) == |run|
    ensures DropRepeats(run) != [] && DropRepeats(ms) == DropRepeats(run) + DropRepeats(rest)
    ensures RunLength(DropRepeats(ms)) == |DropRepeats(run)|
  {
    assert ms == run + rest;
    DroppedConcat(run, rest);
    DroppedRun(run, rest);
  }

  lemma DroppedConcat(run: seq<Message>, rest: seq<Message>)
    requires Uniform(run) && (rest != [] ==> rest[0].role != run[0].role)
    ensures DropRepeats(run + rest) == DropRepeats(run) + DropRepeats(rest)
  {
    assert (run + rest)[1..] == run[1..] + rest && (run + rest)[0] == run[0];
    DropAfterInside(run[0], run[1..], rest);
    assert [run[0]] + (DropAfter(run[0], run[1..]) + DropRepeats(rest)) == DropRepeats(run) + DropRepeats(rest);
  }

  lemma DroppedRun(run: seq<Message>, rest: seq<Message>)
    requires Uniform(run) && (rest != [] ==> rest[0].role != run[0].role)
    ensures RunLength(DropRepeats(run) + DropRepeats(rest)) == |DropRepeats(run)|
  {
    var d, e := DropRepeats(run), DropRepeats(rest);
    var de: seq<Message> := d + e;
    DropAfterInside(run[0], run[1..], []);
    forall k | 0 <= k < |d| ensures de[k].role == de[0].role {
      if k > 0 { assert d[k] == DropAfter(run[0], run[1..])[k - 1]; }
    }
    RunLengthIs(de, |d|);
  }

  /** The join puts a blank line between two neighbours and nothing anywhere else. */
  lemma {:induction false} JoinAppend(a: seq<string>, b: seq<string>, x: string)
    ensures Join([]) == "" && Join([x]) == x
    ensures a != [] && b != [] ==> Join(a + b) == Join(a) + "\n\n" + Join(b)
  {
    if a != [] && b != [] {
      assert (a + b)[..|a + b| - 1] == a + b[..|b| - 1];
      if |b| > 1 {
        JoinAppend(a, b[..|b| - 1], x);
      } else {
        assert a + b[..0] == a;
      }
    }
  }

  lemma {:induction false} DropAfterSnoc(prev: Message, ms: seq<Message>, m: Message)
    ensures var before := if ms == [] then prev else ms[|ms| - 1];
      DropAfter(prev, ms + [m])
      == DropAfter(prev, ms) + if m.role == before.role && m.content == before.content then [] else [m]
    decreases |ms|
  {
    if ms != [] {
      assert (ms + [m])[1..] == ms[1..] + [m];
      DropAfterSnoc(if Repeats(prev, ms[0]) then prev else ms[0], ms[1..], m);
    }
  }

  /** A message is dropped exactly when its role and its content are those of the one just before it. */
  lemma DropRepeatsSnoc(ms: seq<Message>, m: Message)
    ensures DropRepeats([]) == []
    ensures DropRepeats(ms + [m]) == DropRepeats(ms) +
      if ms != [] && m.role == ms[|ms| - 1].role && m.content == ms[|ms| - 1].content then [] else [m]
  {
    if ms != [] {
      assert (ms + [m])[1..] == ms[1..] + [m];
      DropAfterSnoc(ms[0], ms[1..], m);
    }
  }

  /** The result in closed form: one message for every maximal run of a role in the input, whose content
      is the join of the run's contents without consecutive duplicates, every run of newlines or spaces
      in it shortened to two. */
  lemma CompressByRuns(ms: seq<Message>)
    ensures |Compress(ms)| == |Runs(ms)|
    ensures forall k :: 0 <= k < |Runs(ms)| ==>
      var kept := DropRepeats(Runs(ms)[k]);
      && Compress(ms)[k].role == Runs(ms)[k][0].role
      && Compress(ms)[k].content == Shorten(Join(Contents(kept)))
      && Compress(ms)[k].toolCallId == (if |kept| == 1 then kept[0].toolCallId else "")
  {
    RunsOfDropped(ms);
    RunsPartition(ms);
    forall k | 0 <= k < |Runs(ms)|
      ensures var kept := DropRepeats(Runs(ms)[k]);
        && Compress(ms)[k].role == Runs(ms)[k][0].role
        && Compress(ms)[k].content == Shorten(Join(Contents(kept)))
        && Compress(ms)[k].toolCallId == (if |kept| == 1 then kept[0].toolCallId else "")
    {
      var kept := DropRepeats(Runs(ms)[k]);
      assert Uniform(Runs(ms)[k]);
      assert kept != [] && kept[0] == Runs(ms)[k][0];
      assert Compress(ms)[k] == Normalise(MergeRun(kept));
      NormaliseShortens(Join(Contents(kept)));
    }
  }

  // ----- a second pass changes nothing -----

  predicate Alternating(ms: seq<Message>) {
    forall k :: 0 <= k < |ms| - 1 ==> ms[k].role != ms[k + 1].role
  }

  /** The output never has two neighbours of one role, nor a run of three newlines or spaces. */
  lemma CompressIsTidy(ms: seq<Message>)
    ensures Alternating(Compress(ms))
    ensures forall k :: 0 <= k < |Compress(ms)| ==> Normal(Compress(ms)[k].content)
  {
    CompressByRuns(ms);
    RunsPartition(ms);
    forall k | 0 <= k < |Compress(ms)| ensures Normal(Compress(ms)[k].content) {
      NormaliseIsNormal(Join(Contents(DropRepeats(Runs(ms)[k]))));
      NormaliseShortens(Join(Contents(DropRepeats(Runs(ms)[k]))));
    }
  }

  lemma AlternatingTail(ms: seq<Message>)
    requires Alternating(ms) && ms != []
    ensures Alternating(ms[1..])
    ensures |ms| > 1 ==> ms[0].role != ms[1].role
  {
    forall k | 0 <= k < |ms[1..]| - 1 ensures ms[1..][k].role != ms[1..][k + 1].role {
      assert ms[k + 1].role != ms[k + 1 + 1].role;
    }
    if |ms| > 1 { assert ms[0].role != ms[0 + 1].role; }
  }

  lemma {:induction false} AlternatingKeepsAll(ms: seq<Message>)
    requires Alternating(ms)
    ensures DropRepeats(ms) == ms
  {
    if ms != [] {
      AlternatingTail(ms);
      AlternatingKeepsAll(ms[1..]);
      assert ms == [ms[0]] + ms[1..];
      if |ms| > 1 { assert DropAfter(ms[0], ms[1..]) == DropRepeats(ms[1..]); }
    }
  }

  lemma {:induction false} AlternatingMerges(ms: seq<Message>)
    requires Alternating(ms)
    ensures Merge(ms) == ms
  {
    if ms == [] {
      assert Merge(ms) == [];
    } else {
      AlternatingTail(ms);
      AlternatingMerges(ms[1..]);
      RunLengthIs(ms, 1);
      MergeUnfolds(ms, 1);
      assert ms[..1] == [ms[0]] && ms == [ms[0]] + ms[1..];
    }
  }

  lemma AlternatingFixed(ms: seq<Message>)
    requires Alternating(ms)
    ensures DropRepeats(ms) == ms && Merge(ms) == ms
  {
    AlternatingKeepsAll(ms);
    AlternatingMerges(ms);
  }

  lemma CompressIdempotent(ms: seq<Message>)
    ensures Compress(Compress(ms)) == Compress(ms)
  {
    var c := Compress(ms);
    CompressIsTidy(ms);
    AlternatingFixed(c);
    forall k | 0 <= k < |c| ensures Normalise(c[k]) == c[k] {
      NormaliseFixed(c[k].content);
    }
  }

  /** Exactly the tidy message lists are left as they are. */
  lemma FixedExactlyWhenTidy(ms: seq<Message>)
    ensures Compress(ms) == ms <==> Alternating(ms) && forall k :: 0 <= k < |ms| ==> Normal(ms[k].content)
  {
    if Compress(ms) == ms { CompressIsTidy(ms); }
    if Alternating(ms) && forall k :: 0 <= k < |ms| ==> Normal(ms[k].content) {
      AlternatingFixed(ms);
      forall k | 0 <= k < |ms| ensures Normalise(ms[k]) == ms[k] { NormaliseFixed(ms[k].content); }
    }
  }
}
