/** Keeping first occurrences, and the outcome resolution strategies of evaluator composition. */
module FirstOccurrence {
  /** Keep the first occurrence of every element, in order. */
  function Dedup<T(==)>(s: seq<T>): seq<T> {
    if s == [] then []
    else
      var kept, x := Dedup(s[..|s| - 1]), s[|s| - 1];
      if x in kept then kept else kept + [x]
  }

  function Minus<T(==)>(s: seq<T>, drop: seq<T>): seq<T> {
    if s == [] then []
    else
      var kept, x := Minus(s[..|s| - 1], drop), s[|s| - 1];
      if x in drop then kept else kept + [x]
  }

  lemma {:induction false} DedupMembers<T>(s: seq<T>)
    ensures forall x :: x in Dedup(s) <==> x in s
    ensures forall i, j :: 0 <= i < j < |Dedup(s)| ==> Dedup(s)[i] != Dedup(s)[j]
  {
    if s != [] { DedupMembers(s[..|s| - 1]); }
  }

  lemma {:induction false} MinusMembers<T>(s: seq<T>, drop: seq<T>)
    ensures forall x :: x in Minus(s, drop) <==> x in s && x !in drop
  {
    if s != [] { MinusMembers(s[..|s| - 1], drop); }
  }

  lemma {:induction false} DedupAppend<T>(a: seq<T>, b: seq<T>)
    ensures Dedup(a + b) == Dedup(a) + Minus(Dedup(b), a)
  {
    if b == [] {
      assert a + b == a;
    } else {
      var b', x := b[..|b| - 1], b[|b| - 1];
      assert (a + b)[..|a + b| - 1] == a + b';
      DedupAppend(a, b');
      DedupMembers(a);
      DedupMembers(b');
      MinusMembers(Dedup(b'), a);
      if x !in b' {
        assert Dedup(b)[..|Dedup(b)| - 1] == Dedup(b');
      }
    }
  }

  lemma {:induction false} MinusSame<T>(s: seq<T>, a: seq<T>, b: seq<T>)
    requires forall x :: x in a <==> x in b
    ensures Minus(s, a) == Minus(s, b)
  {
    if s != [] { MinusSame(s[..|s| - 1], a, b); }
  }

  /** Deduplicating the parts first changes nothing. */
  lemma DedupCongruent<T>(a: seq<T>, a': seq<T>, b: seq<T>, b': seq<T>)
    requires Dedup(a) == Dedup(a') && Dedup(b) == Dedup(b')
    ensures Dedup(a + b) == Dedup(a' + b')
  {
    DedupAppend(a, b);
    DedupAppend(a', b');
    DedupMembers(a);
    DedupMembers(a');
    MinusSame(Dedup(b), a, a');
  }

  lemma {:induction false} DedupDistinct<T>(s: seq<T>)
    requires forall i, j :: 0 <= i < j < |s| ==> s[i] != s[j]
    ensures Dedup(s) == s
  {
    if s != [] {
      DedupDistinct(s[..|s| - 1]);
      assert s[..|s| - 1] + [s[|s| - 1]] == s;
    }
  }

  lemma DedupIdempotent<T>(s: seq<T>)
    ensures Dedup(Dedup(s)) == Dedup(s)
  {
    DedupMembers(s);
    DedupDistinct(Dedup(s));
  }
}

module Outcomes {
  import opened FirstOccurrence

  /** Most severe first. */
  const STRICT_PRECEDENCE: seq<string> := ["block", "gather_evidence", "iterate", "clarify", "warn", "pass"]

  predicate Known(o: string) { o in STRICT_PRECEDENCE }

  /** Position in the precedence list; an unknown outcome ranks like `pass`. */
  function Rank(o: string): (r: nat)
    ensures r < 6
    ensures Known(o) ==> STRICT_PRECEDENCE[r] == o
    ensures !Known(o) ==> r == 5
  {
    if o == "block" then 0 else if o == "gather_evidence" then 1 else if o == "iterate" then 2
    else if o == "clarify" then 3 else if o == "warn" then 4 else 5
  }

  /** The rank of the most severe outcome, 5 (`pass`) when there is none. */
  function MinRank(os: seq<string>): (r: nat)
    ensures r < 6
    ensures forall o :: o in os ==> r <= Rank(o)
    ensures r == 5 || exists o :: o in os && Rank(o) == r
  {
    if os == [] then 5
    else
      var r := MinRank(os[..|os| - 1]);
      assert forall o :: o in os <==> o in os[..|os| - 1] || o == os[|os| - 1];
      if Rank(os[|os| - 1]) < r then Rank(os[|os| - 1]) else r
  }

  function MostSevere(os: seq<string>): string { STRICT_PRECEDENCE[MinRank(os)] }

  /** The rank of the least severe known outcome, 5 when there is none. */
  function MaxRank(os: seq<string>): (r: nat)
    ensures r < 6
    ensures forall o :: o in os && Known(o) ==> Rank(o) <= r
    ensures (exists o :: o in os && Known(o) && Rank(o) == r) || (r == 5 && forall o :: o in os ==> !Known(o))
  {
    if os == [] then 5
    else
      var init, o := os[..|os| - 1], os[|os| - 1];
      var r := MaxRank(init);
      assert forall x :: x in os <==> x in init || x == o;
      if Known(o) && (Rank(o) > r || forall x :: x in init ==> !Known(x)) then Rank(o) else r
  }

  function LeastSevere(os: seq<string>): string { STRICT_PRECEDENCE[MaxRank(os)] }

  function Count(os: seq<string>, o: string): nat { multiset(os)[o] }

  predicate MostCommon(os: seq<string>, o: string) {
    o in os && forall p :: p in os ==> Count(os, p) <= Count(os, o)
  }

  /** The outcomes tied for the highest count, in order of first occurrence. */
  function Tied(os: seq<string>, among: seq<string>): seq<string> {
    if among == [] then []
    else
      var t, o := Tied(os, among[..|among| - 1]), among[|among| - 1];
      if MostCommon(os, o) then t + [o] else t
  }

  function Majority(os: seq<string>): string {
    var tied := Tied(os, Dedup(os));
    if |tied| == 1 then tied[0] else MostSevere(tied)
  }

  function Resolve(os: seq<string>, strategy: string): string {
    if os == [] then "pass"
    else if strategy == "majority" then Majority(os)
    else if strategy == "optimistic" then LeastSevere(os)
    else MostSevere(os)
  }

  /** The first entry of the precedence list that occurs. */
  method ResolveStrict(outcomes: seq<string>) returns (o: string)
    ensures o == MostSevere(outcomes)
  {
    var i := 0;
    while i < |STRICT_PRECEDENCE|
      invariant i <= 6
      invariant forall k :: 0 <= k < i ==> STRICT_PRECEDENCE[k] !in outcomes
    {
      if STRICT_PRECEDENCE[i] in outcomes {
        assert Known(STRICT_PRECEDENCE[i]) && Rank(STRICT_PRECEDENCE[i]) == i;
        return STRICT_PRECEDENCE[i];
      }
      i := i + 1;
    }
    return "pass";
  }

  method ResolveOptimistic(outcomes: seq<string>) returns (o: string)
    ensures o == LeastSevere(outcomes)
  {
    var i := |STRICT_PRECEDENCE|;
    while i > 0
      invariant 0 <= i <= 6
      invariant forall k :: i <= k < 6 ==> STRICT_PRECEDENCE[k] !in outcomes
    {
      i := i - 1;
      if STRICT_PRECEDENCE[i] in outcomes {
        assert Known(STRICT_PRECEDENCE[i]) && Rank(STRICT_PRECEDENCE[i]) == i;
        return STRICT_PRECEDENCE[i];
      }
    }
    return "pass";
  }

  /** The dictionary of counts, with its keys in insertion order. */
  method CountOutcomes(outcomes: seq<string>) returns (counts: map<string, nat>, order: seq<string>)
    ensures order == Dedup(outcomes)
    ensures forall k :: k in counts <==> k in outcomes
    ensures forall k :: k in counts ==> counts[k] == Count(outcomes, k)
  {
    counts, order := map[], [];
    var i := 0;
    while i < |outcomes|
      invariant i <= |outcomes|
      invariant order == Dedup(outcomes[..i])
      invariant forall k :: k in counts <==> k in outcomes[..i]
      invariant forall k :: k in counts ==> counts[k] == Count(outcomes[..i], k)
    {
      var x := outcomes[i];
      DedupMembers(outcomes[..i]);
      assert outcomes[..i + 1] == outcomes[..i] + [x];
      if x !in counts { order := order + [x]; }
      counts := counts[x := (if x in counts then counts[x] else 0) + 1];
      i := i + 1;
    }
    assert outcomes[..i] == outcomes;
  }

  method MaxCount(counts: map<string, nat>, order: seq<string>) returns (m: nat)
    requires order != [] && forall k :: k in order ==> k in counts
    ensures forall k :: k in order ==> counts[k] <= m
    ensures exists k :: k in order && counts[k] == m
  {
    m := counts[order[0]];
    var i := 1;
    while i < |order|
      invariant 1 <= i <= |order|
      invariant forall k :: 0 <= k < i ==> counts[order[k]] <= m
      invariant exists k :: 0 <= k < i && counts[order[k]] == m
    {
      if counts[order[i]] > m { m := counts[order[i]]; }
      i := i + 1;
    }
  }

  method ResolveMajority(outcomes: seq<string>) returns (o: string)
    requires outcomes != []
    ensures o == Majority(outcomes)
  {
    var counts, order := CountOutcomes(outcomes);
    DedupMembers(outcomes);
    assert outcomes[0] in order;
    var maxCount := MaxCount(counts, order);
    forall p | p in outcomes ensures MostCommon(outcomes, p) <==> counts[p] == maxCount {
      assert p in order;
      var k :| k in order && counts[k] == maxCount;
      assert k in outcomes;
    }
    var tied := TiedAt(outcomes, order, counts, maxCount);
    if |tied| == 1 { return tied[0]; }
    o := ResolveStrict(tied);
  }

  method TiedAt(outcomes: seq<string>, order: seq<string>, counts: map<string, nat>, maxCount: nat) returns (tied: seq<string>)
    requires forall p :: p in order ==> p in counts && (MostCommon(outcomes, p) <==> counts[p] == maxCount)
    ensures tied == Tied(outcomes, order)
  {
    tied := [];
    ghost var done: seq<string> := [];
    var i := 0;
    while i < |order|
      invariant i <= |order| && done == order[..i] && tied == Tied(outcomes, done)
    {
      assert (done + [order[i]])[..|done|] == done;
      assert order[i] in order;
      if counts[order[i]] == maxCount { tied := tied + [order[i]]; }
      done := done + [order[i]];
      i := i + 1;
    }
    assert done == order;
  }

  method ResolveOutcome(outcomes: seq<string>, strategy: string) returns (o: string)
    ensures o == Resolve(outcomes, strategy)
  {
    if outcomes == [] { return "pass"; }
    if strategy == "majority" {
      o := ResolveMajority(outcomes);
    } else if strategy == "optimistic" {
      o := ResolveOptimistic(outcomes);
    } else {
      o := ResolveStrict(outcomes);
    }
  }

  // ----- what the strategies mean -----

  lemma {:induction false} TiedMembers(os: seq<string>, among: seq<string>)
    ensures forall o :: o in Tied(os, among) <==> o in among && MostCommon(os, o)
  {
    if among != [] { TiedMembers(os, among[..|among| - 1]); }
  }

  lemma MostCommonExists(os: seq<string>) returns (o: string)
    requires os != []
    ensures MostCommon(os, o)
  {
    o := os[0];
    var i := 1;
    while i < |os|
      invariant 1 <= i <= |os| && o in os
      invariant forall k :: 0 <= k < i ==> Count(os, os[k]) <= Count(os, o)
    {
      if Count(os, os[i]) > Count(os, o) { o := os[i]; }
      i := i + 1;
    }
  }

  lemma RankOfPosition(i: nat)
    requires i < 6
    ensures Known(STRICT_PRECEDENCE[i]) && Rank(STRICT_PRECEDENCE[i]) == i
  {
    if i == 0 {} else if i == 1 {} else if i == 2 {} else if i == 3 {} else if i == 4 {} else {}
  }

  lemma SameRank(o: string, p: string)
    requires Known(o) && Known(p) && Rank(o) == Rank(p)
    ensures o == p
  {}

  lemma MostSevereMember(os: seq<string>)
    requires os != [] && forall o :: o in os ==> Known(o)
    ensures MostSevere(os) in os && Rank(MostSevere(os)) == MinRank(os)
  {
    RankOfPosition(MinRank(os));
    var o := if MinRank(os) == 5 then os[0] else (var o :| o in os && Rank(o) == MinRank(os); o);
    assert o in os;
    SameRank(o, MostSevere(os));
  }

  lemma TiedAreMostCommon(os: seq<string>)
    ensures forall o :: o in Tied(os, Dedup(os)) <==> MostCommon(os, o)
  {
    DedupMembers(os);
    TiedMembers(os, Dedup(os));
  }

  lemma Singleton<T>(s: seq<T>, x: T)
    requires |s| == 1 && x in s
    ensures s[0] == x
  {}

  /** For outcomes of the contract, majority picks a most common one and, of those, the most severe. */
  lemma MajorityMeaning(os: seq<string>, o: string)
    requires forall x :: x in os ==> Known(x)
    requires MostCommon(os, o)
    ensures MostCommon(os, Majority(os)) && Rank(Majority(os)) <= Rank(o)
  {
    var tied := Tied(os, Dedup(os));
    TiedAreMostCommon(os);
    assert o in tied;
    if |tied| == 1 {
      Singleton(tied, o);
    } else {
      MostSevereMember(tied);
    }
  }

  lemma MajorityIs(os: seq<string>, o: string)
    requires forall x :: x in os ==> Known(x)
    requires MostCommon(os, o) && forall x :: MostCommon(os, x) ==> Rank(o) <= Rank(x)
    ensures Majority(os) == o
  {
    MajorityMeaning(os, o);
    SameRank(o, Majority(os));
  }

  lemma {:induction false} MinRankAppend(a: seq<string>, b: seq<string>)
    ensures MinRank(a + b) == if MinRank(a) <= MinRank(b) then MinRank(a) else MinRank(b)
  {
    if b == [] {
      assert a + b == a;
    } else {
      assert (a + b)[..|a + b| - 1] == a + b[..|b| - 1];
      MinRankAppend(a, b[..|b| - 1]);
    }
  }

  lemma MostSevereSingleton(o: string)
    ensures MinRank([o]) == Rank(o)
  {
    assert [o][..0] == [];
  }

  /** Resolving two groups separately and then together, as composition of composites does. */
  ghost predicate Associates(a: seq<string>, b: seq<string>, strategy: string) {
    Resolve([Resolve(a, strategy), Resolve(b, strategy)], strategy) == Resolve(a + b, strategy)
  }

  lemma StrictAssociates(a: seq<string>, b: seq<string>)
    ensures Associates(a, b, "strict")
  {
    var x, y := STRICT_PRECEDENCE[MinRank(a)], STRICT_PRECEDENCE[MinRank(b)];
    StrictIsMinRank(a);
    StrictIsMinRank(b);
    StrictIsMinRank(a + b);
    StrictIsMinRank([x, y]);
    assert MinRank([x, y]) == MinRank(a + b) by {
      RankOfPosition(MinRank(a));
      RankOfPosition(MinRank(b));
      MinRankAppend(a, b);
      assert [x, y] == [x] + [y];
      MinRankAppend([x], [y]);
      MostSevereSingleton(x);
      MostSevereSingleton(y);
    }
  }

  lemma StrictIsMinRank(os: seq<string>)
    ensures Resolve(os, "strict") == STRICT_PRECEDENCE[MinRank(os)]
  {}

  /** By name: the first of the six that occurs, from the most severe on; `pass` if none does. */
  lemma StrictByName(os: seq<string>)
    ensures Resolve(os, "strict") ==
      if "block" in os then "block" else if "gather_evidence" in os then "gather_evidence"
      else if "iterate" in os then "iterate" else if "clarify" in os then "clarify"
      else if "warn" in os then "warn" else "pass"
  {
    assert Rank("block") == 0 && Rank("gather_evidence") == 1 && Rank("iterate") == 2;
    assert Rank("clarify") == 3 && Rank("warn") == 4 && Rank("pass") == 5;
    if MinRank(os) < 5 {
      var o :| o in os && Rank(o) == MinRank(os);
      assert o == STRICT_PRECEDENCE[MinRank(os)];
    }
  }

  /** By name: from the mildest on. */
  lemma OptimisticByName(os: seq<string>)
    ensures Resolve(os, "optimistic") ==
      if "pass" in os then "pass" else if "warn" in os then "warn" else if "clarify" in os then "clarify"
      else if "iterate" in os then "iterate" else if "gather_evidence" in os then "gather_evidence"
      else if "block" in os then "block" else "pass"
  {
    OptimisticIsMaxRank(os);
    RanksByName();
    if !HasKnown(os) {
    } else {
      var o :| o in os && Known(o) && Rank(o) == MaxRank(os);
      assert o == STRICT_PRECEDENCE[MaxRank(os)];
    }
  }

  lemma RanksByName()
    ensures Rank("block") == 0 && Rank("gather_evidence") == 1 && Rank("iterate") == 2
    ensures Rank("clarify") == 3 && Rank("warn") == 4 && Rank("pass") == 5
    ensures STRICT_PRECEDENCE[0] == "block" && STRICT_PRECEDENCE[1] == "gather_evidence" && STRICT_PRECEDENCE[2] == "iterate"
    ensures STRICT_PRECEDENCE[3] == "clarify" && STRICT_PRECEDENCE[4] == "warn" && STRICT_PRECEDENCE[5] == "pass"
    ensures Known("block") && Known("gather_evidence") && Known("iterate") && Known("clarify") && Known("warn") && Known("pass")
  {
    forall i | 0 <= i < 6 ensures Known(STRICT_PRECEDENCE[i]) {}
  }

  predicate HasKnown(os: seq<string>) {
    exists o :: o in os && Known(o)
  }

  lemma MaxRankUnique(os: seq<string>, r: nat)
    requires exists o :: o in os && Known(o) && Rank(o) == r
    requires forall o :: o in os && Known(o) ==> Rank(o) <= r
    ensures MaxRank(os) == r
  {}

  lemma MaxRankAppend(a: seq<string>, b: seq<string>)
    requires HasKnown(a) || HasKnown(b)
    ensures MaxRank(a + b) ==
      if !HasKnown(b) then MaxRank(a) else if !HasKnown(a) then MaxRank(b)
      else if MaxRank(a) >= MaxRank(b) then MaxRank(a) else MaxRank(b)
  {
    assert forall o :: o in a + b <==> o in a || o in b;
    var r := if !HasKnown(b) then MaxRank(a) else if !HasKnown(a) then MaxRank(b)
             else if MaxRank(a) >= MaxRank(b) then MaxRank(a) else MaxRank(b);
    MaxRankUnique(a + b, r);
  }

  lemma MaxRankPair(x: string, y: string)
    requires Known(x) && Known(y)
    ensures MaxRank([x, y]) == if Rank(x) >= Rank(y) then Rank(x) else Rank(y)
  {
    assert x in [x, y] && y in [x, y];
    MaxRankUnique([x, y], if Rank(x) >= Rank(y) then Rank(x) else Rank(y));
  }

  /** The optimistic strategy associates exactly when both sides hold a known outcome, or neither does,
      or a `pass` is among them: otherwise the side without one resolves to `pass` and wins alone. */
  lemma OptimisticAssociatesIff(a: seq<string>, b: seq<string>)
    ensures Associates(a, b, "optimistic") <==>
      (HasKnown(a) <==> HasKnown(b)) || STRICT_PRECEDENCE[5] in a + b
  {
    var x, y := LeastSevere(a), LeastSevere(b);
    RankOfPosition(5);
    RankOfPosition(MaxRank(a));
    RankOfPosition(MaxRank(b));
    MaxRankPair(x, y);
    RankOfPosition(MaxRank([x, y]));
    RankOfPosition(MaxRank(a + b));
    assert forall o :: o in a + b <==> o in a || o in b;
    if HasKnown(a) || HasKnown(b) { MaxRankAppend(a, b); }
    assert Resolve(a + b, "optimistic") == STRICT_PRECEDENCE[MaxRank(a + b)];
    assert Associates(a, b, "optimistic") <==> MaxRank([x, y]) == MaxRank(a + b);
    PassRank(a + b);
  }

  /** It fails when one group is empty and the other blocks. */
  lemma OptimisticDoesNotAssociate()
    ensures !Associates(["block"], [], "optimistic")
  {
    var a: seq<string> := ["block"];
    OptimisticAssociatesIff(a, []);
    assert a + [] == a && a[0] in a && Known(a[0]);
    assert STRICT_PRECEDENCE[5] !in a;
  }

  // ----- any number of groups -----

  function Concat(groups: seq<seq<string>>): seq<string> {
    if groups == [] then [] else groups[0] + Concat(groups[1..])
  }

  function Resolutions(groups: seq<seq<string>>, strategy: string): (r: seq<string>)
    ensures |r| == |groups| && forall i :: 0 <= i < |groups| ==> r[i] == Resolve(groups[i], strategy)
  {
    if groups == [] then [] else [Resolve(groups[0], strategy)] + Resolutions(groups[1..], strategy)
  }

  lemma OptimisticIsMaxRank(os: seq<string>)
    ensures Resolve(os, "optimistic") == STRICT_PRECEDENCE[MaxRank(os)]
    ensures Known(Resolve(os, "optimistic")) && Rank(Resolve(os, "optimistic")) == MaxRank(os)
  {
    RankOfPosition(MaxRank(os));
    if os == [] { RankOfPosition(5); }
  }

  /** For any grouping, the optimistic strategy associates exactly when every group holds a known outcome,
      or no group does, or a `pass` is among them. */
  lemma OptimisticGroupsIff(groups: seq<seq<string>>)
    ensures Resolve(Resolutions(groups, "optimistic"), "optimistic") == Resolve(Concat(groups), "optimistic")
       <==> (forall i :: 0 <= i < |groups| ==> HasKnown(groups[i]))
            || !HasKnown(Concat(groups)) || STRICT_PRECEDENCE[5] in Concat(groups)
  {
    var xs, all := Resolutions(groups, "optimistic"), Concat(groups);
    OptimisticIsMaxRank(xs);
    OptimisticIsMaxRank(all);
    RankOfPosition(MaxRank(xs));
    RankOfPosition(MaxRank(all));
    PassRank(all);
    if groups == [] {
      assert xs == [] && all == [];
    } else if forall i :: 0 <= i < |groups| ==> HasKnown(groups[i]) {
      MaxRankOfGroups(groups);
    } else {
      var i :| 0 <= i < |groups| && !HasKnown(groups[i]);
      SomeGroupPasses(groups, i);
    }
  }

  lemma SomeGroupPasses(groups: seq<seq<string>>, i: nat)
    requires i < |groups| && !HasKnown(groups[i])
    ensures MaxRank(Resolutions(groups, "optimistic")) == 5
  {
    var xs := Resolutions(groups, "optimistic");
    OptimisticIsMaxRank(groups[i]);
    PassRank(groups[i]);
    assert xs[i] in xs && Known(xs[i]) && Rank(xs[i]) == 5;
    MaxRankUnique(xs, 5);
  }

  lemma KnownSingleton(o: string)
    requires Known(o)
    ensures HasKnown([o]) && MaxRank([o]) == Rank(o)
  {
    assert o in [o];
    MaxRankUnique([o], Rank(o));
  }

  lemma {:induction false} MaxRankOfGroups(groups: seq<seq<string>>)
    requires groups != [] && forall i :: 0 <= i < |groups| ==> HasKnown(groups[i])
    ensures HasKnown(Resolutions(groups, "optimistic")) && HasKnown(Concat(groups))
    ensures MaxRank(Resolutions(groups, "optimistic")) == MaxRank(Concat(groups))
  {
    var g, rest := groups[0], groups[1..];
    FirstGroup(groups, "optimistic");
    FirstInConcat(groups);
    OptimisticIsMaxRank(g);
    if rest == [] {
      SingleGroup(Resolve(g, "optimistic"), g);
    } else {
      MaxRankOfGroups(rest);
      OneMoreGroup(Resolve(g, "optimistic"), Resolutions(rest, "optimistic"), g, Concat(rest));
    }
  }

  lemma FirstGroup(groups: seq<seq<string>>, strategy: string)
    requires groups != []
    ensures Resolutions(groups, strategy) == [Resolve(groups[0], strategy)] + Resolutions(groups[1..], strategy)
    ensures groups[1..] == [] ==> Resolutions(groups, strategy) == [Resolve(groups[0], strategy)]
  {}

  lemma FirstInConcat(groups: seq<seq<string>>)
    requires groups != []
    ensures Concat(groups) == groups[0] + Concat(groups[1..])
    ensures groups[1..] == [] ==> Concat(groups) == groups[0]
  {}

  lemma SingleGroup(x: string, g: seq<string>)
    requires HasKnown(g) && Known(x) && Rank(x) == MaxRank(g)
    ensures HasKnown([x]) && MaxRank([x]) == MaxRank(g)
  {
    KnownSingleton(x);
  }

  lemma OneMoreGroup(x: string, xs: seq<string>, g: seq<string>, rest: seq<string>)
    requires HasKnown(g) && Known(x) && Rank(x) == MaxRank(g)
    requires HasKnown(xs) && HasKnown(rest) && MaxRank(xs) == MaxRank(rest)
    ensures HasKnown([x] + xs) && HasKnown(g + rest)
    ensures MaxRank([x] + xs) == MaxRank(g + rest)
  {
    KnownSingleton(x);
    HasKnownAppend([x], xs);
    HasKnownAppend(g, rest);
    MaxRankAppend([x], xs);
    MaxRankAppend(g, rest);
  }

  lemma HasKnownAppend(a: seq<string>, b: seq<string>)
    ensures HasKnown(a + b) <==> HasKnown(a) || HasKnown(b)
  {
    assert forall o :: o in a + b <==> o in a || o in b;
  }

  lemma PassRank(os: seq<string>)
    ensures MaxRank(os) == 5 <==> STRICT_PRECEDENCE[5] in os || !HasKnown(os)
  {
    RankOfPosition(5);
    if HasKnown(os) && MaxRank(os) == 5 {
      var o :| o in os && Known(o) && Rank(o) == 5;
      SameRank(o, STRICT_PRECEDENCE[5]);
    }
  }

  lemma MajorityOfTwo(os: seq<string>, p: string, w: string)
    requires Known(p) && Known(w) && Rank(w) < Rank(p)
    requires p in os && forall x :: x in os ==> x == p || x == w
    ensures Majority(os) == if Count(os, p) > Count(os, w) then p else w
  {
    var o := if Count(os, p) > Count(os, w) then p else w;
    assert Count(os, p) > 0;
    assert o in multiset(os);
    assert MostCommon(os, o);
    MajorityIs(os, o);
  }

  /** Of two outcomes, which always tie, majority takes the more severe. */
  lemma MajorityOfPair(x: string, y: string)
    requires Known(x) && Known(y)
    ensures Majority([x, y]) == if Rank(x) <= Rank(y) then x else y
  {
    if x == y {
      assert x in [x, y];
      MajorityIs([x, y], x);
    } else if Rank(x) < Rank(y) {
      assert y in [x, y] && Count([x, y], x) == 1 == Count([x, y], y);
      MajorityOfTwo([x, y], y, x);
    } else {
      SameRankApart(x, y);
      assert x in [x, y] && Count([x, y], x) == 1 == Count([x, y], y);
      MajorityOfTwo([x, y], x, y);
    }
  }

  lemma SameRankApart(x: string, y: string)
    requires Known(x) && Known(y) && x != y
    ensures Rank(x) != Rank(y)
  {
    if Rank(x) == Rank(y) { SameRank(x, y); }
  }

  lemma ResolvedByMajority(os: seq<string>)
    requires forall o :: o in os ==> Known(o)
    ensures Known(Resolve(os, "majority"))
    ensures os != [] ==> MostCommon(os, Resolve(os, "majority"))
  {
    RankOfPosition(5);
    if os != [] {
      var o := MostCommonExists(os);
      MajorityMeaning(os, o);
    }
  }

  /** The more severe of what the two groups resolve to. */
  function SevererResolution(a: seq<string>, b: seq<string>): string {
    var x, y := Resolve(a, "majority"), Resolve(b, "majority");
    if Rank(x) <= Rank(y) then x else y
  }

  /** No outcome occurs more often than `s`, and none as often that is more severe. */
  predicate Prevails(os: seq<string>, s: string) {
    forall o :: o in os ==> Count(os, o) < Count(os, s) || (Count(os, o) == Count(os, s) && Rank(s) <= Rank(o))
  }

  /** The majority strategy associates exactly when the more severe of the two groups' outcomes
      prevails over all results together. */
  lemma MajorityAssociatesIff(a: seq<string>, b: seq<string>)
    requires a + b != [] && forall o :: o in a + b ==> Known(o)
    ensures Associates(a, b, "majority") <==> Prevails(a + b, SevererResolution(a, b))
  {
    var x, y, s := Resolve(a, "majority"), Resolve(b, "majority"), SevererResolution(a, b);
    forall o | o in a || o in b ensures Known(o) { assert o in a + b; }
    ResolvedByMajority(a);
    ResolvedByMajority(b);
    MajorityOfPair(x, y);
    assert s in a + b by { SevererOccurs(a, b); }
    if Prevails(a + b, s) {
      assert MostCommon(a + b, s);
      MajorityIs(a + b, s);
    } else {
      var o :| o in a + b && !(Count(a + b, o) < Count(a + b, s) || (Count(a + b, o) == Count(a + b, s) && Rank(s) <= Rank(o)));
      MajorityPrevails(a + b);
      assert Majority(a + b) != s;
    }
  }

  /** Occurs, more often than any other or as often and more severe. */
  predicate Wins(os: seq<string>, s: string) { s in os && Prevails(os, s) }

  /** The winner of the group, if it has one, is not more severe. */
  ghost predicate NoSevererWinner(os: seq<string>, s: string) {
    os == [] || exists y :: Wins(os, y) && Rank(s) <= Rank(y)
  }

  lemma WinnerIsMajority(os: seq<string>, s: string)
    requires os != [] && forall o :: o in os ==> Known(o)
    ensures Wins(os, s) <==> s == Majority(os)
  {
    ResolvedByMajority(os);
    MajorityPrevails(os);
    if Wins(os, s) {
      assert MostCommon(os, s);
      MajorityIs(os, s);
    }
  }

  /** The same condition in counts and ranks alone: majority associates exactly when the winner of all
      results together wins in one group and the winner of the other is not more severe. */
  lemma MajorityAssociatesByCounts(a: seq<string>, b: seq<string>)
    requires a + b != [] && forall o :: o in a + b ==> Known(o)
    ensures Associates(a, b, "majority") <==>
      exists s :: Wins(a + b, s) && ((Wins(a, s) && NoSevererWinner(b, s)) || (Wins(b, s) && NoSevererWinner(a, s)))
  {
    var s := SevererResolution(a, b);
    forall o | o in a || o in b ensures Known(o) { assert o in a + b; }
    MajorityAssociatesIff(a, b);
    SevererOccurs(a, b);
    assert Associates(a, b, "majority") <==> Wins(a + b, s);
    RankOfPosition(5);
    forall t ensures (Wins(a, t) && NoSevererWinner(b, t)) || (Wins(b, t) && NoSevererWinner(a, t)) <==> t == s {
      WinnersDecide(a, b, t);
    }
  }

  lemma WinnersDecide(a: seq<string>, b: seq<string>, t: string)
    requires a + b != [] && forall o :: o in a || o in b ==> Known(o)
    ensures (Wins(a, t) && NoSevererWinner(b, t)) || (Wins(b, t) && NoSevererWinner(a, t)) <==> t == SevererResolution(a, b)
  {
    var x, y := Resolve(a, "majority"), Resolve(b, "majority");
    RankOfPosition(5);
    ResolvedByMajority(a);
    ResolvedByMajority(b);
    if a != [] { forall o ensures Wins(a, o) <==> o == x { WinnerIsMajority(a, o); } }
    if b != [] { forall o ensures Wins(b, o) <==> o == y { WinnerIsMajority(b, o); } }
    if Rank(x) == Rank(y) { SameRank(x, y); }
  }

  lemma SevererOccurs(a: seq<string>, b: seq<string>)
    requires a + b != [] && forall o :: o in a + b ==> Known(o)
    ensures SevererResolution(a, b) in a + b
  {
    forall o | o in a || o in b ensures Known(o) { assert o in a + b; }
    ResolvedByMajority(a);
    ResolvedByMajority(b);
    RankOfPosition(5);
    if a == [] && Rank(Resolve(b, "majority")) == 5 { SameRank(Resolve(b, "majority"), STRICT_PRECEDENCE[5]); }
  }

  lemma MajorityPrevails(os: seq<string>)
    requires os != [] && forall o :: o in os ==> Known(o)
    ensures Prevails(os, Majority(os))
  {
    ResolvedByMajority(os);
    forall o | o in os && Count(os, o) == Count(os, Majority(os)) ensures Rank(Majority(os)) <= Rank(o) {
      MajorityMeaning(os, o);
    }
  }

  /** It fails even for outcomes of the contract: a group counts only once, so three results lose
      against one that is more severe. */
  lemma MajorityDoesNotAssociate(p: string, w: string)
    requires Known(p) && Known(w) && Rank(w) < Rank(p)
    ensures !Associates([p, p, p], [w], "majority")
  {
    var a, b := [p, p, p], [w];
    assert p in a && p in a + b && p in [p, w];
    assert Count(a, p) == 3 && Count(a, w) == 0;
    assert a + b == [p, p, p, w];
    assert Count(a + b, p) == 3 && Count(a + b, w) == 1;
    assert Count([p, w], p) == 1 && Count([p, w], w) == 1;
    MajorityOfTwo(a, p, w);
    MajorityOfTwo(a + b, p, w);
    MajorityOfTwo([p, w], p, w);
    assert w in b;
    MajorityIs(b, w);
  }
}
