/** Composition of evaluator results. */
module Findings {
  import opened Sorting
  import opened FirstOccurrence
  import opened EvaluatorTypes
  import opened Json

  function SeverityRank(severity: string): nat {
    match severity
    case "critical" => 0
    case "high" => 1
    case "medium" => 2
    case "low" => 3
    case "info" => 4
    case _ => 99
  }

  predicate KeyLeq(a: Finding, b: Finding) {
    SeverityRank(a.severity) < SeverityRank(b.severity)
    || (SeverityRank(a.severity) == SeverityRank(b.severity) && StringLeq(a.id, b.id))
  }

  /** The first finding of every id. */
  function ById(fs: seq<Finding>): map<string, Finding> {
    if fs == [] then map[]
    else
      var m, f := ById(fs[..|fs| - 1]), fs[|fs| - 1];
      if f.id in m then m else m[f.id := f]
  }

  /** The findings in order, without those whose id has occurred before. */
  function FirstById(fs: seq<Finding>): seq<Finding> {
    if fs == [] then []
    else
      var init, f := fs[..|fs| - 1], fs[|fs| - 1];
      if f.id in ById(init) then FirstById(init) else FirstById(init) + [f]
  }

  /** Deduplicated by id, most severe first, then by id. */
  function Canonical(fs: seq<Finding>): seq<Finding> {
    Sort(FirstById(fs), KeyLeq)
  }

  ghost predicate DistinctIds(a: Finding, b: Finding) { a.id != b.id }

  lemma {:induction false} ByIdMembers(fs: seq<Finding>)
    ensures forall k :: k in ById(fs) ==> ById(fs)[k] in fs && ById(fs)[k].id == k
    ensures forall f :: f in fs ==> f.id in ById(fs)
  {
    if fs != [] {
      ByIdMembers(fs[..|fs| - 1]);
      assert forall f :: f in fs <==> f in fs[..|fs| - 1] || f == fs[|fs| - 1];
    }
  }

  lemma {:induction false} FirstByIdMembers(fs: seq<Finding>)
    ensures forall f :: f in FirstById(fs) <==> f.id in ById(fs) && ById(fs)[f.id] == f
    ensures Chain(FirstById(fs), DistinctIds)
  {
    if fs != [] {
      FirstByIdMembers(fs[..|fs| - 1]);
      ByIdMembers(fs[..|fs| - 1]);
    }
  }

  lemma {:induction false} ByIdAppend(a: seq<Finding>, b: seq<Finding>)
    ensures ById(a + b) == ById(b) + ById(a)
  {
    if b == [] {
      assert a + b == a;
    } else {
      assert (a + b)[..|a + b| - 1] == a + b[..|b| - 1];
      ByIdAppend(a, b[..|b| - 1]);
    }
  }

  lemma KeyOrder()
    ensures TotalPreorder(KeyLeq)
    ensures StrictOrder(Lex(KeyLeq, DistinctIds))
  {
    StringOrder();
  }

  /** The composed findings: exactly the first finding of every id, strictly ordered. */
  lemma CanonicalMembers(fs: seq<Finding>)
    ensures forall f :: f in Canonical(fs) <==> f.id in ById(fs) && ById(fs)[f.id] == f
    ensures Chain(Canonical(fs), Lex(KeyLeq, DistinctIds))
    ensures SortedBy(Canonical(fs), KeyLeq)
  {
    KeyOrder();
    FirstByIdMembers(fs);
    SortContents(FirstById(fs), KeyLeq);
    SortStable(FirstById(fs), KeyLeq, DistinctIds);
  }

  /** The composed findings depend only on which finding comes first for each id. */
  lemma CanonicalDetermined(fs: seq<Finding>, gs: seq<Finding>)
    requires ById(fs) == ById(gs)
    ensures Canonical(fs) == Canonical(gs)
  {
    KeyOrder();
    CanonicalMembers(fs);
    CanonicalMembers(gs);
    ChainUnique(Canonical(fs), Canonical(gs), Lex(KeyLeq, DistinctIds));
  }

  lemma ByIdCanonical(fs: seq<Finding>)
    ensures ById(Canonical(fs)) == ById(fs)
  {
    CanonicalMembers(fs);
    ByIdMembers(fs);
    ByIdMembers(Canonical(fs));
    var m, c := ById(fs), ById(Canonical(fs));
    forall k | k in m ensures k in c && c[k] == m[k] {
      assert m[k] in Canonical(fs);
    }
  }

  // ----- contradictions -----

  const POSITIVE_KINDS: set<string> := {"observed", "schema_violation"}
  const NEGATIVE_KINDS: set<string> := {"unsupported_claim", "contradiction", "missing_evidence", "unverified_assertion"}

  function SubjectsOf(fs: seq<Finding>): (r: seq<string>)
    ensures |r| == |fs|
  {
    seq(|fs|, i requires 0 <= i < |fs| => fs[i].subject)
  }

  function IdsOf(fs: seq<Finding>): (r: seq<Json>)
    ensures |r| == |fs|
  {
    seq(|fs|, i requires 0 <= i < |fs| => Str(fs[i].id))
  }

  /** The findings about one subject, in order. */
  function Group(fs: seq<Finding>, subject: string): seq<Finding> {
    if fs == [] then []
    else
      var g, f := Group(fs[..|fs| - 1], subject), fs[|fs| - 1];
      if f.subject == subject then g + [f] else g
  }

  predicate Conflicting(group: seq<Finding>) {
    && |group| >= 2
    && (exists f :: f in group && f.kind in POSITIVE_KINDS)
    && (exists f :: f in group && f.kind in NEGATIVE_KINDS)
  }

  function Report(subject: string, group: seq<Finding>): Json {
    Obj(map["subject" := Str(subject),
            "finding_ids" := Arr(IdsOf(group)),
            "description" := Str("Conflicting findings on subject '" + subject + "'")])
  }

  function Reports(fs: seq<Finding>, subjects: seq<string>): seq<Json> {
    if subjects == [] then []
    else
      var r, s := Reports(fs, subjects[..|subjects| - 1]), subjects[|subjects| - 1];
      if Conflicting(Group(fs, s)) then r + [Report(s, Group(fs, s))] else r
  }

  /** One report for every subject with conflicting findings, in order of first mention. */
  function Contradictions(fs: seq<Finding>): seq<Json> {
    Reports(fs, Dedup(SubjectsOf(fs)))
  }

  /** Groups the findings by subject in a dictionary kept in insertion order. */
  method GroupBySubject(findings: seq<Finding>) returns (bySubject: map<string, seq<Finding>>, order: seq<string>)
    ensures order == Dedup(SubjectsOf(findings))
    ensures forall s :: s in bySubject <==> s in order
    ensures forall s :: s in bySubject ==> bySubject[s] == Group(findings, s)
  {
    bySubject, order := map[], [];
    var i := 0;
    while i < |findings|
      invariant i <= |findings|
      invariant order == Dedup(SubjectsOf(findings[..i]))
      invariant forall s :: s in bySubject <==> s in order
      invariant forall s {:trigger Group(findings[..i], s)} :: Group(findings[..i], s) == if s in bySubject then bySubject[s] else []
    {
      var f := findings[i];
      assert findings[..i + 1][..i] == findings[..i];
      assert SubjectsOf(findings[..i + 1])[..i] == SubjectsOf(findings[..i]);
      assert Group(findings[..i], f.subject) == if f.subject in bySubject then bySubject[f.subject] else [];
      ghost var before := bySubject;
      if f.subject !in bySubject {
        bySubject := bySubject[f.subject := []];
        order := order + [f.subject];
      }
      bySubject := bySubject[f.subject := bySubject[f.subject] + [f]];
      forall s ensures Group(findings[..i + 1], s) == if s in bySubject then bySubject[s] else [] {
        assert Group(findings[..i], s) == if s in before then before[s] else [];
      }
      i := i + 1;
    }
    assert findings[..i] == findings;
    forall s | s in bySubject ensures bySubject[s] == Group(findings, s) {
      assert Group(findings[..i], s) == bySubject[s];
    }
  }

  method DetectContradictions(findings: seq<Finding>) returns (contradictions: seq<Json>)
    ensures contradictions == Contradictions(findings)
  {
    var bySubject, order := GroupBySubject(findings);
    contradictions := [];
    var i := 0;
    while i < |order|
      invariant i <= |order|
      invariant contradictions == Reports(findings, order[..i])
    {
      assert order[..i + 1][..i] == order[..i];
      var subject := order[i];
      assert subject in order;
      var group := bySubject[subject];
      if |group| >= 2 {
        var hasPositive := exists f: Finding :: f in group && f.kind in POSITIVE_KINDS;
        var hasNegative := exists f: Finding :: f in group && f.kind in NEGATIVE_KINDS;
        if hasPositive && hasNegative {
          contradictions := contradictions + [Report(subject, group)];
        }
      }
      i := i + 1;
    }
    assert order[..i] == order;
  }

  lemma {:induction false} GroupMembers(fs: seq<Finding>, subject: string)
    ensures forall f :: f in Group(fs, subject) <==> f in fs && f.subject == subject
  {
    if fs != [] {
      GroupMembers(fs[..|fs| - 1], subject);
      assert forall f :: f in fs <==> f in fs[..|fs| - 1] || f == fs[|fs| - 1];
    }
  }

  lemma {:induction false} ReportsMembers(fs: seq<Finding>, subjects: seq<string>, subject: string)
    ensures Report(subject, Group(fs, subject)) in Reports(fs, subjects)
       <==> subject in subjects && Conflicting(Group(fs, subject))
  {
    if subjects != [] {
      var init, s := subjects[..|subjects| - 1], subjects[|subjects| - 1];
      ReportsMembers(fs, init, subject);
      assert subject in subjects <==> subject in init || subject == s;
      assert Report(s, Group(fs, s)) == Report(subject, Group(fs, subject)) ==> s == subject by {
        assert Report(s, Group(fs, s)).fields["subject"] == Str(s);
        assert Report(subject, Group(fs, subject)).fields["subject"] == Str(subject);
      }
    }
  }

  predicate PositiveKind(kind: string) { kind == "observed" || kind == "schema_violation" }

  predicate NegativeKind(kind: string) {
    kind == "unsupported_claim" || kind == "contradiction" || kind == "missing_evidence" || kind == "unverified_assertion"
  }

  lemma KindsByName()
    ensures forall k :: k in POSITIVE_KINDS <==> PositiveKind(k)
    ensures forall k :: k in NEGATIVE_KINDS <==> NegativeKind(k)
    ensures forall k :: !(PositiveKind(k) && NegativeKind(k))
  {}

  /** A subject is reported, with the ids of all its findings, exactly when one of its findings is of a
      positive kind and another of a negative kind. */
  lemma ContradictionsExactly(fs: seq<Finding>, subject: string)
    ensures Report(subject, Group(fs, subject)) in Contradictions(fs)
       <==> (exists f, g :: f in fs && g in fs && f.subject == subject && g.subject == subject
                         && PositiveKind(f.kind) && NegativeKind(g.kind))
  {
    DedupMembers(SubjectsOf(fs));
    ReportsMembers(fs, Dedup(SubjectsOf(fs)), subject);
    ConflictingExactly(fs, subject);
  }

  lemma ConflictingExactly(fs: seq<Finding>, subject: string)
    ensures subject in SubjectsOf(fs) && Conflicting(Group(fs, subject))
       <==> (exists f, g :: f in fs && g in fs && f.subject == subject && g.subject == subject
                         && PositiveKind(f.kind) && NegativeKind(g.kind))
  {
    var group := Group(fs, subject);
    GroupMembers(fs, subject);
    KindsByName();
    if exists f, g :: f in fs && g in fs && f.subject == subject && g.subject == subject
                      && PositiveKind(f.kind) && NegativeKind(g.kind)
    {
      var f, g :| f in fs && g in fs && f.subject == subject && g.subject == subject
                  && PositiveKind(f.kind) && NegativeKind(g.kind);
      assert f in group && g in group && f != g;
      TwoMembers(group, f, g);
      var i :| 0 <= i < |fs| && fs[i] == f;
      assert SubjectsOf(fs)[i] == subject;
    }
  }

  /** What a report holds: the subject, and the ids of its findings in their order. */
  lemma ReportHolds(fs: seq<Finding>, subject: string)
    ensures var group := Group(fs, subject);
      var report := Report(subject, group);
      && report.Obj? && report.fields.Keys == {"subject", "finding_ids", "description"}
      && report.fields["subject"] == Str(subject)
      && report.fields["finding_ids"].Arr? && |report.fields["finding_ids"].items| == |group|
      && forall k :: 0 <= k < |group| ==> report.fields["finding_ids"].items[k] == Str(group[k].id)
  {}

  lemma {:induction false} GroupAppend(a: seq<Finding>, b: seq<Finding>, subject: string)
    ensures Group(a + b, subject) == Group(a, subject) + Group(b, subject)
  {
    if b == [] {
      assert a + b == a;
    } else {
      assert (a + b)[..|a + b| - 1] == a + b[..|b| - 1];
      GroupAppend(a, b[..|b| - 1], subject);
    }
  }

  const SEVERITIES: seq<string> := ["critical", "high", "medium", "low", "info"]

  lemma SeverityPosition(k: nat)
    requires k < 5
    ensures SeverityRank(SEVERITIES[k]) == k
  {
    if k == 0 {} else if k == 1 {} else if k == 2 {} else if k == 3 {} else {}
  }

  lemma SeverityUnlisted(s: string)
    ensures s in SEVERITIES <==> SeverityRank(s) < 5
    ensures s !in SEVERITIES ==> SeverityRank(s) == 99
  {
    if s in SEVERITIES {
      var k :| 0 <= k < 5 && SEVERITIES[k] == s;
      SeverityPosition(k);
    } else {
      assert s != SEVERITIES[0] && s != SEVERITIES[1] && s != SEVERITIES[2] && s != SEVERITIES[3] && s != SEVERITIES[4];
    }
  }

  /** The order of the composed findings by name: critical, high, medium, low, info, then all others;
      within one severity, and among the others, by id. */
  lemma SeverityOrder(fs: seq<Finding>, i: nat, j: nat)
    requires i < j < |Canonical(fs)|
    ensures var a, b := Canonical(fs)[i], Canonical(fs)[j];
      && (forall s, t :: 0 <= s < t < 5 ==> !(a.severity == SEVERITIES[t] && b.severity == SEVERITIES[s]))
      && (b.severity in SEVERITIES ==> a.severity in SEVERITIES)
      && (a.severity == b.severity || (a.severity !in SEVERITIES && b.severity !in SEVERITIES) ==>
            a.id != b.id && StringLeq(a.id, b.id))
  {
    var a, b := Canonical(fs)[i], Canonical(fs)[j];
    CanonicalMembers(fs);
    assert KeyLeq(a, b) && Lex(KeyLeq, DistinctIds)(a, b);
    SeverityUnlisted(a.severity);
    SeverityUnlisted(b.severity);
    forall s, t | 0 <= s < t < 5 ensures !(a.severity == SEVERITIES[t] && b.severity == SEVERITIES[s]) {
      SeverityPosition(s);
      SeverityPosition(t);
    }
  }

  lemma TwoMembers<T>(s: seq<T>, x: T, y: T)
    requires x in s && y in s && x != y
    ensures |s| >= 2
  {}
}

/** Merging model routing recommendations: the most conservative tier wins. */
module RoutingMerge {
  import opened Base
  import opened EvaluatorTypes

  function TierPrecedence(tier: string): nat {
    match tier
    case "premium" => 3
    case "standard" => 2
    case "budget" => 1
    case "portfolio" => 2
    case _ => 0
  }

  /** Python's `max` with a key: the first tier of highest precedence. */
  function BestTier(ms: seq<ModelRouting>): string
    requires ms != []
  {
    var t := ms[|ms| - 1].recommendedTier;
    if |ms| == 1 then t
    else
      var best := BestTier(ms[..|ms| - 1]);
      if TierPrecedence(t) > TierPrecedence(best) then t else best
  }

  function Triggers(ms: seq<ModelRouting>): seq<EscalationTrigger> {
    if ms == [] then [] else Triggers(ms[..|ms| - 1]) + ms[|ms| - 1].escalationTriggers
  }

  function Max(a: int, b: int): int { if a >= b then a else b }

  function MaxReal(a: real, b: real): real { if a >= b then a else b }

  /** The largest tokens and the largest cost any of the routings estimates for a tier. */
  function Estimate(ms: seq<ModelRouting>, tier: string): Option<TierEstimate> {
    if ms == [] then None
    else
      var e, b := Estimate(ms[..|ms| - 1], tier), ms[|ms| - 1].tierBreakdown;
      if tier !in b then e
      else if e.None? then Some(b[tier])
      else Some(TierEstimate(Max(e.value.tokens, b[tier].tokens), MaxReal(e.value.costUsd, b[tier].costUsd)))
  }

  function Breakdown(ms: seq<ModelRouting>): map<string, TierEstimate> {
    map k | k in TIER_KEYS && Estimate(ms, k).Some? :: Estimate(ms, k).value
  }

  /** The first routing that recommends the tier, or the first routing. */
  function Winner(ms: seq<ModelRouting>, tier: string): ModelRouting
    requires ms != []
  {
    if ms[0].recommendedTier == tier || forall m :: m in ms ==> m.recommendedTier != tier then ms[0]
    else Winner(ms[1..], tier)
  }

  function Merge(ms: seq<ModelRouting>): Option<ModelRouting> {
    if ms == [] then None
    else
      var best := BestTier(ms);
      var w := Winner(ms, best);
      Some(ModelRouting(best, w.reason, Triggers(ms), w.estimatedTokens, w.estimatedCostUsd, Breakdown(ms)))
  }

  /** Merging two merged recommendations. */
  function Join(a: Option<ModelRouting>, b: Option<ModelRouting>): Option<ModelRouting> {
    if a.None? then b else if b.None? then a else Merge([a.value, b.value])
  }

  lemma {:induction false} BestTierIsFirstMaximal(ms: seq<ModelRouting>)
    requires ms != []
    ensures forall m :: m in ms ==> TierPrecedence(m.recommendedTier) <= TierPrecedence(BestTier(ms))
    ensures exists m :: m in ms && m.recommendedTier == BestTier(ms)
  {
    var init, last := ms[..|ms| - 1], ms[|ms| - 1];
    assert forall m :: m in ms <==> m in init || m == last;
    if |ms| > 1 { BestTierIsFirstMaximal(init); }
  }

  /** The first recommendation of a tier. */
  ghost predicate FirstWith(ms: seq<ModelRouting>, tier: string, i: int) {
    0 <= i < |ms| && ms[i].recommendedTier == tier && forall j :: 0 <= j < i ==> ms[j].recommendedTier != tier
  }

  ghost predicate Recommended(ms: seq<ModelRouting>, tier: string) {
    exists m :: m in ms && m.recommendedTier == tier
  }

  /** The best tier is that of the first recommendation of the highest precedence. */
  lemma {:induction false} BestTierIsFirst(ms: seq<ModelRouting>) returns (i: nat)
    requires ms != []
    ensures i < |ms| && ms[i].recommendedTier == BestTier(ms)
    ensures forall j :: 0 <= j < |ms| ==> TierPrecedence(ms[j].recommendedTier) <= TierPrecedence(BestTier(ms))
    ensures forall j :: 0 <= j < i ==> TierPrecedence(ms[j].recommendedTier) < TierPrecedence(BestTier(ms))
  {
    if |ms| == 1 {
      i := 0;
    } else {
      var init := ms[..|ms| - 1];
      i := BestTierIsFirst(init);
      if TierPrecedence(ms[|ms| - 1].recommendedTier) > TierPrecedence(BestTier(init)) { i := |ms| - 1; }
    }
  }

  ghost predicate Middle(tier: string) { tier == "standard" || tier == "portfolio" }

  /** The four tiers in the order of precedence. */
  lemma TierLevels(tier: string)
    ensures TierPrecedence(tier) <= 3
    ensures TierPrecedence(tier) == 3 <==> tier == "premium"
    ensures TierPrecedence(tier) == 2 <==> Middle(tier)
    ensures TierPrecedence(tier) == 1 <==> tier == "budget"
  {}

  /** Some evaluator recommends a tier of the level. */
  ghost predicate AtLevel(ms: seq<ModelRouting>, level: nat) {
    exists j :: 0 <= j < |ms| && TierPrecedence(ms[j].recommendedTier) == level
  }

  lemma RecommendedLevels(ms: seq<ModelRouting>)
    ensures Recommended(ms, "premium") <==> AtLevel(ms, 3)
    ensures Recommended(ms, "standard") || Recommended(ms, "portfolio") <==> AtLevel(ms, 2)
    ensures Recommended(ms, "budget") <==> AtLevel(ms, 1)
  {
    RecommendedAt(ms, "premium");
    RecommendedAt(ms, "standard");
    RecommendedAt(ms, "portfolio");
    RecommendedAt(ms, "budget");
    TierLevels("premium");
    TierLevels("standard");
    TierLevels("portfolio");
    TierLevels("budget");
    forall j | 0 <= j < |ms| ensures var t := ms[j].recommendedTier;
      && (TierPrecedence(t) == 3 <==> t == "premium") && (TierPrecedence(t) == 2 <==> Middle(t))
      && (TierPrecedence(t) == 1 <==> t == "budget")
    {
      TierLevels(ms[j].recommendedTier);
    }
  }

  lemma RecommendedAt(ms: seq<ModelRouting>, tier: string)
    ensures Recommended(ms, tier) <==> exists j :: 0 <= j < |ms| && ms[j].recommendedTier == tier
  {
    if Recommended(ms, tier) {
      var m :| m in ms && m.recommendedTier == tier;
      var j :| 0 <= j < |ms| && ms[j] == m;
    }
    if j :| 0 <= j < |ms| && ms[j].recommendedTier == tier { assert ms[j] in ms; }
  }

  /** The merged tier by name: `premium` if any evaluator recommends it; otherwise the first of `standard`
      and `portfolio`; otherwise `budget` if anyone does. */
  lemma TierByName(ms: seq<ModelRouting>)
    requires ms != []
    ensures Recommended(ms, "premium") ==> BestTier(ms) == "premium"
    ensures (!Recommended(ms, "premium") && (Recommended(ms, "standard") || Recommended(ms, "portfolio"))) ==>
      exists i :: FirstMiddle(ms, i) && BestTier(ms) == ms[i].recommendedTier
    ensures (!Recommended(ms, "premium") && !Recommended(ms, "standard") && !Recommended(ms, "portfolio")
             && Recommended(ms, "budget")) ==> BestTier(ms) == "budget"
  {
    var i := BestTierIsFirst(ms);
    RecommendedLevels(ms);
    TierLevels(BestTier(ms));
    assert AtLevel(ms, TierPrecedence(BestTier(ms)));
    if TierPrecedence(BestTier(ms)) == 2 {
      forall j | 0 <= j < i ensures !Middle(ms[j].recommendedTier) { TierLevels(ms[j].recommendedTier); }
      assert FirstMiddle(ms, i);
    }
  }

  /** The first recommendation of `standard` or `portfolio`. */
  ghost predicate FirstMiddle(ms: seq<ModelRouting>, i: int) {
    0 <= i < |ms| && Middle(ms[i].recommendedTier) && forall j :: 0 <= j < i ==> !Middle(ms[j].recommendedTier)
  }

  /** Without any of the four tiers, the first recommendation decides. */
  lemma UnknownTiers(ms: seq<ModelRouting>)
    requires ms != [] && !Recommended(ms, "premium") && !Recommended(ms, "budget")
    requires !Recommended(ms, "standard") && !Recommended(ms, "portfolio")
    ensures BestTier(ms) == ms[0].recommendedTier
  {
    var i := BestTierIsFirst(ms);
    RecommendedLevels(ms);
    TierLevels(ms[0].recommendedTier);
    TierLevels(BestTier(ms));
    assert AtLevel(ms, TierPrecedence(BestTier(ms)));
  }

  /** Reason and estimates are those of the first evaluator that recommends the merged tier. */
  lemma {:induction false} WinnerIsFirst(ms: seq<ModelRouting>, tier: string) returns (i: nat)
    requires Recommended(ms, tier)
    ensures FirstWith(ms, tier, i) && Winner(ms, tier) == ms[i]
  {
    if ms[0].recommendedTier == tier {
      i := 0;
    } else {
      var m :| m in ms && m.recommendedTier == tier;
      assert m in ms[1..];
      var k := WinnerIsFirst(ms[1..], tier);
      i := k + 1;
      forall j | 0 <= j < i ensures ms[j].recommendedTier != tier {
        if j > 0 { assert ms[j] == ms[1..][j - 1]; }
      }
    }
  }

  /** Of each tier the largest tokens and the largest cost are kept, if anyone estimates it. */
  lemma {:induction false} EstimateIsLargest(ms: seq<ModelRouting>, tier: string)
    ensures Estimate(ms, tier).Some? <==> exists m :: m in ms && tier in m.tierBreakdown
    ensures Estimate(ms, tier).Some? ==>
      var e := Estimate(ms, tier).value;
      && (forall m :: m in ms && tier in m.tierBreakdown ==>
            m.tierBreakdown[tier].tokens <= e.tokens && m.tierBreakdown[tier].costUsd <= e.costUsd)
      && (exists m :: m in ms && tier in m.tierBreakdown && m.tierBreakdown[tier].tokens == e.tokens)
      && (exists m :: m in ms && tier in m.tierBreakdown && m.tierBreakdown[tier].costUsd == e.costUsd)
  {
    if ms != [] {
      var init, last := ms[..|ms| - 1], ms[|ms| - 1];
      assert forall m :: m in ms <==> m in init || m == last;
      EstimateIsLargest(init, tier);
    }
  }

  /** A merged recommendation in terms of the tier names and of the recommendations alone. */
  ghost predicate MergedByName(ms: seq<ModelRouting>, r: ModelRouting) {
    && (Recommended(ms, "premium") ==> r.recommendedTier == "premium")
    && ((!Recommended(ms, "premium") && (Recommended(ms, "standard") || Recommended(ms, "portfolio"))) ==>
          exists i :: FirstMiddle(ms, i) && r.recommendedTier == ms[i].recommendedTier)
    && ((!Recommended(ms, "premium") && !Recommended(ms, "standard") && !Recommended(ms, "portfolio")
         && Recommended(ms, "budget")) ==> r.recommendedTier == "budget")
    && (exists i :: FirstWith(ms, r.recommendedTier, i) && r.reason == ms[i].reason
                    && r.estimatedTokens == ms[i].estimatedTokens && r.estimatedCostUsd == ms[i].estimatedCostUsd)
    && r.tierBreakdown.Keys <= {"budget", "standard", "premium"}
    && (forall k :: k in TIER_KEYS ==> LargestOf(ms, k, r))
  }

  /** The merged estimate of a tier: the largest tokens and the largest cost, if anyone estimates it. */
  ghost predicate LargestOf(ms: seq<ModelRouting>, tier: string, r: ModelRouting) {
    && (tier in r.tierBreakdown <==> exists m :: m in ms && tier in m.tierBreakdown)
    && (tier in r.tierBreakdown ==>
          var e := r.tierBreakdown[tier];
          && (forall m :: m in ms && tier in m.tierBreakdown ==>
                m.tierBreakdown[tier].tokens <= e.tokens && m.tierBreakdown[tier].costUsd <= e.costUsd)
          && (exists m :: m in ms && tier in m.tierBreakdown && m.tierBreakdown[tier].tokens == e.tokens)
          && (exists m :: m in ms && tier in m.tierBreakdown && m.tierBreakdown[tier].costUsd == e.costUsd))
  }

  lemma MergeByName(ms: seq<ModelRouting>)
    requires ms != []
    ensures MergedByName(ms, Merge(ms).value)
  {
    var i := BestTierIsFirst(ms);
    assert ms[i] in ms;
    TierByName(ms);
    var w := WinnerIsFirst(ms, BestTier(ms));
    forall k | k in TIER_KEYS ensures LargestOf(ms, k, Merge(ms).value) {
      EstimateIsLargest(ms, k);
    }
  }

  lemma {:induction false} BestTierAppend(a: seq<ModelRouting>, b: seq<ModelRouting>)
    requires a != [] && b != []
    ensures BestTier(a + b) ==
      if TierPrecedence(BestTier(b)) > TierPrecedence(BestTier(a)) then BestTier(b) else BestTier(a)
  {
    assert (a + b)[..|a + b| - 1] == a + b[..|b| - 1];
    if |b| == 1 {
      assert a + b[..0] == a;
    } else {
      BestTierAppend(a, b[..|b| - 1]);
    }
  }

  lemma {:induction false} WinnerAppend(a: seq<ModelRouting>, b: seq<ModelRouting>, tier: string)
    requires a != [] && b != [] && exists m :: m in a + b && m.recommendedTier == tier
    ensures Winner(a + b, tier) ==
      if exists m :: m in a && m.recommendedTier == tier then Winner(a, tier) else Winner(b, tier)
  {
    assert forall m :: m in a + b <==> m in a || m in b;
    assert (a + b)[0] == a[0] && (a + b)[1..] == a[1..] + b;
    if a[0].recommendedTier != tier {
      if |a| == 1 {
        assert a[1..] + b == b;
      } else {
        assert forall m :: m in a <==> m == a[0] || m in a[1..];
        assert forall m :: m in a[1..] + b <==> m in a[1..] || m in b;
        WinnerAppend(a[1..], b, tier);
      }
    }
  }

  lemma {:induction false} TriggersAppend(a: seq<ModelRouting>, b: seq<ModelRouting>)
    ensures Triggers(a + b) == Triggers(a) + Triggers(b)
  {
    if b == [] {
      assert a + b == a;
    } else {
      assert (a + b)[..|a + b| - 1] == a + b[..|b| - 1];
      TriggersAppend(a, b[..|b| - 1]);
    }
  }

  function MaxEstimate(a: Option<TierEstimate>, b: Option<TierEstimate>): Option<TierEstimate> {
    if a.None? then b else if b.None? then a
    else Some(TierEstimate(Max(a.value.tokens, b.value.tokens), MaxReal(a.value.costUsd, b.value.costUsd)))
  }

  lemma {:induction false} EstimateAppend(a: seq<ModelRouting>, b: seq<ModelRouting>, tier: string)
    ensures Estimate(a + b, tier) == MaxEstimate(Estimate(a, tier), Estimate(b, tier))
  {
    if b == [] {
      assert a + b == a;
    } else {
      assert (a + b)[..|a + b| - 1] == a + b[..|b| - 1];
      EstimateAppend(a, b[..|b| - 1], tier);
    }
  }

  lemma EstimateSingle(m: ModelRouting, tier: string)
    ensures Estimate([m], tier) == if tier in m.tierBreakdown then Some(m.tierBreakdown[tier]) else None
  {
    assert [m][..0] == [];
  }

  lemma BreakdownAppend(a: seq<ModelRouting>, b: seq<ModelRouting>, x: ModelRouting, y: ModelRouting)
    requires x.tierBreakdown == Breakdown(a) && y.tierBreakdown == Breakdown(b)
    ensures Breakdown([x, y]) == Breakdown(a + b)
  {
    assert [x, y] == [x] + [y];
    forall k | k in TIER_KEYS ensures Estimate([x, y], k) == Estimate(a + b, k) {
      EstimateAppend([x], [y], k);
      EstimateAppend(a, b, k);
      EstimateSingle(x, k);
      EstimateSingle(y, k);
    }
  }

  lemma PairFacts(x: ModelRouting, y: ModelRouting)
    ensures BestTier([x, y]) == if TierPrecedence(y.recommendedTier) > TierPrecedence(x.recommendedTier)
                                then y.recommendedTier else x.recommendedTier
    ensures Winner([x, y], BestTier([x, y])) == if BestTier([x, y]) == x.recommendedTier then x else y
    ensures Triggers([x, y]) == x.escalationTriggers + y.escalationTriggers
  {
    assert [x, y] == [x] + [y] && [x][..0] == [] && [x, y][..1] == [x];
    assert x in [x, y] && y in [x, y];
    TriggersAppend([x], [y]);
    TriggersSingle(x);
    TriggersSingle(y);
    if BestTier([x, y]) != x.recommendedTier { assert [x, y][1..] == [y]; }
  }

  lemma TriggersSingle(m: ModelRouting)
    ensures Triggers([m]) == m.escalationTriggers
  {
    assert [m][..0] == [];
  }

  /** Merging is associative: a merge of all recommendations is the merge of the merges of the parts. */
  lemma MergeAppend(a: seq<ModelRouting>, b: seq<ModelRouting>)
    ensures Merge(a + b) == Join(Merge(a), Merge(b))
  {
    if a == [] {
      assert a + b == b;
    } else if b == [] {
      assert a + b == a;
    } else {
      var x, y := Merge(a).value, Merge(b).value;
      var best := BestTier(a + b);
      BestTierAppend(a, b);
      BestTierIsFirstMaximal(a);
      BestTierIsFirstMaximal(b);
      BestTierIsFirstMaximal(a + b);
      WinnerAppend(a, b, best);
      PairFacts(x, y);
      TriggersAppend(a, b);
      BreakdownAppend(a, b, x, y);
      assert best == BestTier([x, y]);
      if best != BestTier(a) {
        assert forall m :: m in a ==> m.recommendedTier != best;
      }
    }
  }

  /** Merging a merged recommendation alone gives it back. */
  lemma MergeSingleton(a: seq<ModelRouting>)
    requires a != []
    ensures Merge([Merge(a).value]) == Merge(a)
  {
    var x := Merge(a).value;
    TriggersSingle(x);
    forall k | k in TIER_KEYS ensures Estimate([x], k) == Estimate(a, k) {
      EstimateSingle(x, k);
    }
    assert Breakdown([x]) == Breakdown(a);
  }
}

module EvaluatorCompose {
  import opened Base
  import opened Json
  import opened Sorting
  import opened FirstOccurrence
  import opened EvaluatorTypes
  import opened Outcomes
  import opened Findings
  import opened RoutingMerge

  /** The parts of a composed result that are not computed from the inputs' contents: its display name,
      its summary text, and the time. */
  datatype Labels = Labels(name: string, summary: string, timestamp: string)

  function AllFindings(rs: seq<EvaluatorResult>): seq<Finding> {
    if rs == [] then [] else AllFindings(rs[..|rs| - 1]) + rs[|rs| - 1].findings
  }

  function AllArtifacts(rs: seq<EvaluatorResult>): seq<string> {
    if rs == [] then [] else AllArtifacts(rs[..|rs| - 1]) + rs[|rs| - 1].metadata.artifactsEvaluated
  }

  function OutcomesOf(rs: seq<EvaluatorResult>): seq<string> {
    if rs == [] then [] else OutcomesOf(rs[..|rs| - 1]) + [rs[|rs| - 1].outcome]
  }

  function EvaluatorIds(rs: seq<EvaluatorResult>): seq<string> {
    if rs == [] then [] else EvaluatorIds(rs[..|rs| - 1]) + [rs[|rs| - 1].evaluator.id]
  }

  function Routings(rs: seq<EvaluatorResult>): seq<ModelRouting> {
    if rs == [] then []
    else
      var ms, m := Routings(rs[..|rs| - 1]), rs[|rs| - 1].modelRouting;
      if m.Some? then ms + [m.value] else ms
  }

  function Duration(rs: seq<EvaluatorResult>): int {
    if rs == [] then 0 else Duration(rs[..|rs| - 1]) + rs[|rs| - 1].metadata.durationMs
  }

  predicate Deterministic(rs: seq<EvaluatorResult>) {
    forall r :: r in rs ==> r.metadata.deterministic
  }

  function Strings(ss: seq<string>): (r: seq<Json>)
    ensures |r| == |ss|
  {
    seq(|ss|, i requires 0 <= i < |ss| => Str(ss[i]))
  }

  function Compose(rs: seq<EvaluatorResult>, phase: string, strategy: string, labels: Labels): EvaluatorResult {
    if rs == [] then
      EvaluatorResult(
        EvaluatorInfo("composed", "1.0.0", "Composed Evaluator", ""),
        phase, "pass", [], "No evaluator results to compose.",
        Some(DeriveNextAction("pass", None)), None,
        EvaluatorMetadata(labels.timestamp, 0, [], None, true), map[])
    else
      var findings := Canonical(AllFindings(rs));
      var outcome := Resolve(OutcomesOf(rs), strategy);
      EvaluatorResult(
        EvaluatorInfo("composed", "1.0.0", labels.name, ""),
        phase, outcome, findings, labels.summary,
        Some(DeriveNextAction(outcome, None)), Merge(Routings(rs)),
        EvaluatorMetadata(labels.timestamp, Duration(rs), Dedup(AllArtifacts(rs)), None, Deterministic(rs)),
        map["contributor_ids" := Arr(Strings(Contributors(rs))),
            "contradictions" := Arr(Contradictions(findings))])
  }

  /** Adds the findings whose id has not been seen. */
  method AddFindings(seen: set<string>, sofar: seq<Finding>, fs: seq<Finding>, ghost before: seq<Finding>)
    returns (seenIds: set<string>, all: seq<Finding>)
    requires sofar == FirstById(before) && seen == ById(before).Keys
    ensures all == FirstById(before + fs) && seenIds == ById(before + fs).Keys
  {
    seenIds, all := seen, sofar;
    ghost var done := before;
    var j := 0;
    while j < |fs|
      invariant j <= |fs| && done + fs[j..] == before + fs
      invariant all == FirstById(done) && seenIds == ById(done).Keys
    {
      var f := fs[j];
      FirstByIdSnoc(done, f);
      ShiftOne(done, fs, j);
      if f.id !in seenIds {
        seenIds := seenIds + {f.id};
        all := all + [f];
      }
      done := done + [f];
      j := j + 1;
    }
    assert fs[j..] == [] && done == before + fs;
  }

  lemma ShiftOne<T>(done: seq<T>, s: seq<T>, j: nat)
    requires j < |s|
    ensures (done + [s[j]]) + s[j + 1..] == done + s[j..]
  {}

  lemma FirstByIdSnoc(fs: seq<Finding>, f: Finding)
    ensures FirstById(fs + [f]) == if f.id in ById(fs) then FirstById(fs) else FirstById(fs) + [f]
    ensures ById(fs + [f]).Keys == ById(fs).Keys + {f.id}
  {
    assert (fs + [f])[..|fs|] == fs;
  }

  /** Collects the first finding of every id over all results, in order. */
  method CollectFindings(results: seq<EvaluatorResult>) returns (all: seq<Finding>)
    ensures all == FirstById(AllFindings(results))
  {
    var seenIds: set<string> := {};
    all := [];
    var i := 0;
    while i < |results|
      invariant i <= |results|
      invariant all == FirstById(AllFindings(results[..i]))
      invariant seenIds == ById(AllFindings(results[..i])).Keys
    {
      seenIds, all := AddFindings(seenIds, all, results[i].findings, AllFindings(results[..i]));
      assert results[..i + 1][..i] == results[..i];
      i := i + 1;
    }
    assert results[..i] == results;
  }

  method AddArtifacts(sofar: seq<string>, arts: seq<string>, ghost before: seq<string>) returns (all: seq<string>)
    requires sofar == Dedup(before)
    ensures all == Dedup(before + arts)
  {
    all := sofar;
    ghost var done := before;
    var j := 0;
    while j < |arts|
      invariant j <= |arts| && done == before + arts[..j] && all == Dedup(done)
    {
      assert (done + [arts[j]])[..|done|] == done;
      if arts[j] !in all { all := all + [arts[j]]; }
      done := done + [arts[j]];
      j := j + 1;
    }
    assert done == before + arts;
  }

  method CollectArtifacts(results: seq<EvaluatorResult>) returns (all: seq<string>)
    ensures all == Dedup(AllArtifacts(results))
  {
    all := [];
    var i := 0;
    while i < |results|
      invariant i <= |results|
      invariant all == Dedup(AllArtifacts(results[..i]))
    {
      all := AddArtifacts(all, results[i].metadata.artifactsEvaluated, AllArtifacts(results[..i]));
      assert results[..i + 1][..i] == results[..i];
      i := i + 1;
    }
    assert results[..i] == results;
  }

  /** Gathers outcomes, evaluator ids, routings and the total duration. */
  method Tally(results: seq<EvaluatorResult>)
    returns (outcomes: seq<string>, ids: seq<string>, routings: seq<ModelRouting>, duration: int, deterministic: bool)
    ensures outcomes == OutcomesOf(results) && ids == EvaluatorIds(results) && routings == Routings(results)
    ensures duration == Duration(results) && deterministic == Deterministic(results)
  {
    outcomes, ids, routings, duration, deterministic := [], [], [], 0, true;
    var i := 0;
    while i < |results|
      invariant i <= |results|
      invariant outcomes == OutcomesOf(results[..i]) && ids == EvaluatorIds(results[..i])
      invariant routings == Routings(results[..i]) && duration == Duration(results[..i])
      invariant deterministic == Deterministic(results[..i])
    {
      var r := results[i];
      assert results[..i + 1][..i] == results[..i];
      assert forall x :: x in results[..i + 1] <==> x in results[..i] || x == r;
      outcomes, ids := outcomes + [r.outcome], ids + [r.evaluator.id];
      if r.modelRouting.Some? { routings := routings + [r.modelRouting.value]; }
      duration := duration + r.metadata.durationMs;
      deterministic := deterministic && r.metadata.deterministic;
      i := i + 1;
    }
    assert results[..i] == results;
  }

  method ComposeResults(results: seq<EvaluatorResult>, phase: string, strategy: string, labels: Labels)
    returns (r: EvaluatorResult)
    ensures r == Compose(results, phase, strategy, labels)
  {
    if results == [] {
      return EvaluatorResult(
        EvaluatorInfo("composed", "1.0.0", "Composed Evaluator", ""),
        phase, "pass", [], "No evaluator results to compose.",
        Some(DeriveNextAction("pass", None)), None,
        EvaluatorMetadata(labels.timestamp, 0, [], None, true), map[]);
    }
    var allFindings := CollectFindings(results);
    allFindings := Sort(allFindings, KeyLeq);
    var outcomes, ids, routings, duration, deterministic := Tally(results);
    var outcome := ResolveOutcome(outcomes, strategy);
    var contradictions := DetectContradictions(allFindings);
    var artifacts := CollectArtifacts(results);
    var contributorIds := Sort(Dedup(ids), StringLeq);
    r := EvaluatorResult(
      EvaluatorInfo("composed", "1.0.0", labels.name, ""),
      phase, outcome, allFindings, labels.summary,
      Some(DeriveNextAction(outcome, None)), Merge(routings),
      EvaluatorMetadata(labels.timestamp, duration, artifacts, None, deterministic),
      map["contributor_ids" := Arr(Strings(contributorIds)),
          "contradictions" := Arr(contradictions)]);
  }

  // ----- the algebra of strict composition -----

  /** What a composed result says, apart from labels and the list of contributors. */
  datatype Core = Core(
    outcome: string,
    findings: seq<Finding>,
    contradictions: Json,
    routing: Option<ModelRouting>,
    durationMs: int,
    artifacts: seq<string>,
    deterministic: bool)

  function CoreOf(r: EvaluatorResult): Core {
    Core(r.outcome, r.findings,
         if "contradictions" in r.state then r.state["contradictions"] else Arr([]),
         r.modelRouting, r.metadata.durationMs, r.metadata.artifactsEvaluated, r.metadata.deterministic)
  }

  /** The same in closed form, for the strict strategy; it covers the empty list too. */
  function StrictCore(rs: seq<EvaluatorResult>): Core {
    var findings := Canonical(AllFindings(rs));
    Core(MostSevere(OutcomesOf(rs)), findings, Arr(Contradictions(findings)), Merge(Routings(rs)),
         Duration(rs), Dedup(AllArtifacts(rs)), Deterministic(rs))
  }

  ghost predicate IsStrict(strategy: string) { strategy != "majority" && strategy != "optimistic" }

  /** The routing of a composed result, for any strategy: none without a recommendation, otherwise the
      most conservative tier by name, with the reason and estimates of the first who recommends it. */
  lemma ComposedRouting(rs: seq<EvaluatorResult>, phase: string, strategy: string, labels: Labels)
    ensures var c := Compose(rs, phase, strategy, labels);
      && (c.modelRouting.Some? <==> exists r :: r in rs && r.modelRouting.Some?)
      && (c.modelRouting.Some? ==> MergedByName(Routings(rs), c.modelRouting.value))
  {
    RoutingsMembers(rs);
    if Routings(rs) != [] {
      MergeByName(Routings(rs));
      assert Routings(rs)[0] in Routings(rs);
    }
  }

  lemma {:induction false} RoutingsMembers(rs: seq<EvaluatorResult>)
    ensures forall m :: m in Routings(rs) <==> exists r :: r in rs && r.modelRouting == Some(m)
  {
    if rs != [] {
      var init, last := rs[..|rs| - 1], rs[|rs| - 1];
      assert forall r :: r in rs <==> r in init || r == last;
      RoutingsMembers(init);
    }
  }

  /** The contributors are the ids of the evaluators, each once, sorted. */
  lemma ContributorsExactly(rs: seq<EvaluatorResult>, phase: string, strategy: string, labels: Labels)
    requires rs != []
    ensures var c := Compose(rs, phase, strategy, labels);
      "contributor_ids" in c.state && c.state["contributor_ids"] == Arr(Strings(Contributors(rs)))
    ensures SortedIds(set r | r in rs :: r.evaluator.id, Contributors(rs))
  {
    ContributorsSorted(rs);
  }

  function Contributors(rs: seq<EvaluatorResult>): seq<string> { Sort(Dedup(EvaluatorIds(rs)), StringLeq) }

  lemma ContributorsSorted(rs: seq<EvaluatorResult>)
    ensures SortedIds(set r | r in rs :: r.evaluator.id, Contributors(rs))
  {
    IdsMembers(rs);
    DedupSorted(EvaluatorIds(rs), set r | r in rs :: r.evaluator.id);
  }

  lemma DedupSorted(s: seq<string>, ids: set<string>)
    requires forall x :: x in s <==> x in ids
    ensures SortedIds(ids, Sort(Dedup(s), StringLeq))
  {
    var differ := (a: string, b: string) => a != b;
    var r := Sort(Dedup(s), StringLeq);
    DedupMembers(s);
    StringOrder();
    SortContents(Dedup(s), StringLeq);
    SortStable(Dedup(s), StringLeq, differ);
    forall i, j | 0 <= i < j < |r| ensures StringLt(r[i], r[j]) {
      assert Lex(StringLeq, differ)(r[i], r[j]);
    }
  }

  lemma {:induction false} IdsMembers(rs: seq<EvaluatorResult>)
    ensures forall x :: x in EvaluatorIds(rs) <==> exists r :: r in rs && r.evaluator.id == x
  {
    if rs != [] {
      var init, last := rs[..|rs| - 1], rs[|rs| - 1];
      assert forall r :: r in rs <==> r in init || r == last;
      IdsMembers(init);
    }
  }

  lemma ComposeIsStrictCore(rs: seq<EvaluatorResult>, phase: string, strategy: string, labels: Labels)
    requires IsStrict(strategy)
    ensures CoreOf(Compose(rs, phase, strategy, labels)) == StrictCore(rs)
  {
    if rs == [] {
      RankOfPosition(5);
    } else {
      assert OutcomesOf(rs) != [];
    }
  }

  function Flatten(groups: seq<seq<EvaluatorResult>>): seq<EvaluatorResult> {
    if groups == [] then [] else Flatten(groups[..|groups| - 1]) + groups[|groups| - 1]
  }

  /** Compose every group by itself. */
  function Composites(groups: seq<seq<EvaluatorResult>>, phase: string, strategy: string, labels: Labels): seq<EvaluatorResult> {
    if groups == [] then []
    else Composites(groups[..|groups| - 1], phase, strategy, labels) + [Compose(groups[|groups| - 1], phase, strategy, labels)]
  }

  lemma {:induction false} FindingsAppend(a: seq<EvaluatorResult>, b: seq<EvaluatorResult>)
    ensures AllFindings(a + b) == AllFindings(a) + AllFindings(b)
  {
    if b == [] {
      assert a + b == a;
    } else {
      var init, last := b[..|b| - 1], b[|b| - 1];
      FindingsAppend(a, init);
      assert a + b == (a + init) + [last] && b == init + [last];
      AllFindingsSnoc(a + init, last);
      AllFindingsSnoc(init, last);
      Reassociate(AllFindings(a), AllFindings(init), last.findings);
    }
  }

  lemma AllFindingsSnoc(rs: seq<EvaluatorResult>, r: EvaluatorResult)
    ensures AllFindings(rs + [r]) == AllFindings(rs) + r.findings
  {
    assert (rs + [r])[..|rs|] == rs;
  }

  lemma Reassociate<T>(x: seq<T>, y: seq<T>, z: seq<T>)
    ensures (x + y) + z == x + (y + z)
  {}

  lemma {:induction false} ArtifactsAppend(a: seq<EvaluatorResult>, b: seq<EvaluatorResult>)
    ensures AllArtifacts(a + b) == AllArtifacts(a) + AllArtifacts(b)
  {
    if b == [] {
      assert a + b == a;
    } else {
      var init, last := b[..|b| - 1], b[|b| - 1];
      ArtifactsAppend(a, init);
      assert a + b == (a + init) + [last] && b == init + [last];
      AllArtifactsSnoc(a + init, last);
      AllArtifactsSnoc(init, last);
      Reassociate(AllArtifacts(a), AllArtifacts(init), last.metadata.artifactsEvaluated);
    }
  }

  lemma AllArtifactsSnoc(rs: seq<EvaluatorResult>, r: EvaluatorResult)
    ensures AllArtifacts(rs + [r]) == AllArtifacts(rs) + r.metadata.artifactsEvaluated
  {
    assert (rs + [r])[..|rs|] == rs;
  }

  lemma {:induction false} RestAppend(a: seq<EvaluatorResult>, b: seq<EvaluatorResult>)
    ensures OutcomesOf(a + b) == OutcomesOf(a) + OutcomesOf(b)
    ensures Routings(a + b) == Routings(a) + Routings(b)
    ensures Duration(a + b) == Duration(a) + Duration(b)
  {
    if b == [] {
      assert a + b == a;
    } else {
      var init, last := b[..|b| - 1], b[|b| - 1];
      RestAppend(a, init);
      assert a + b == (a + init) + [last] && b == init + [last];
      Unfold(a + init, last);
      Unfold(init, last);
      Reassociate(OutcomesOf(a), OutcomesOf(init), [last.outcome]);
      Reassociate(Routings(a), Routings(init), if last.modelRouting.Some? then [last.modelRouting.value] else []);
    }
  }

  lemma Unfold(a: seq<EvaluatorResult>, r: EvaluatorResult)
    ensures AllFindings(a + [r]) == AllFindings(a) + r.findings
    ensures AllArtifacts(a + [r]) == AllArtifacts(a) + r.metadata.artifactsEvaluated
    ensures OutcomesOf(a + [r]) == OutcomesOf(a) + [r.outcome]
    ensures Routings(a + [r]) == Routings(a) + if r.modelRouting.Some? then [r.modelRouting.value] else []
    ensures Duration(a + [r]) == Duration(a) + r.metadata.durationMs
  {
    assert (a + [r])[..|a|] == a;
  }

  /** All that a strict composition depends on. */
  datatype Digest = Digest(
    byId: map<string, Finding>,
    artifacts: seq<string>,
    rank: nat,
    routing: Option<ModelRouting>,
    durationMs: int,
    deterministic: bool)

  function DigestOf(rs: seq<EvaluatorResult>): Digest {
    Digest(ById(AllFindings(rs)), Dedup(AllArtifacts(rs)), MinRank(OutcomesOf(rs)), Merge(Routings(rs)),
           Duration(rs), Deterministic(rs))
  }

  function Combine(x: Digest, y: Digest): Digest {
    Digest(y.byId + x.byId, Dedup(x.artifacts + y.artifacts), if x.rank <= y.rank then x.rank else y.rank,
           Join(x.routing, y.routing), x.durationMs + y.durationMs, x.deterministic && y.deterministic)
  }

  lemma SameDigestSameCore(a: seq<EvaluatorResult>, b: seq<EvaluatorResult>)
    requires DigestOf(a) == DigestOf(b)
    ensures StrictCore(a) == StrictCore(b)
  {
    CanonicalDetermined(AllFindings(a), AllFindings(b));
  }

  /** The digest of a concatenation is the combination of the digests. */
  lemma DigestAppend(a: seq<EvaluatorResult>, b: seq<EvaluatorResult>)
    ensures DigestOf(a + b) == Combine(DigestOf(a), DigestOf(b))
  {
    FindingsAppend(a, b);
    ArtifactsAppend(a, b);
    RestAppend(a, b);
    ByIdAppend(AllFindings(a), AllFindings(b));
    DedupIdempotent(AllArtifacts(a));
    DedupIdempotent(AllArtifacts(b));
    DedupCongruent(AllArtifacts(a), Dedup(AllArtifacts(a)), AllArtifacts(b), Dedup(AllArtifacts(b)));
    MinRankAppend(OutcomesOf(a), OutcomesOf(b));
    MergeAppend(Routings(a), Routings(b));
    DeterministicAppend(a, b);
  }

  lemma DeterministicAppend(a: seq<EvaluatorResult>, b: seq<EvaluatorResult>)
    ensures Deterministic(a + b) == (Deterministic(a) && Deterministic(b))
  {
    assert forall r :: r in a + b <==> r in a || r in b;
  }

  /** A composite stands for its group. */
  lemma CompositeDigest(g: seq<EvaluatorResult>, c: EvaluatorResult)
    requires CoreOf(c) == StrictCore(g)
    ensures DigestOf([c]) == DigestOf(g)
  {
    DigestSingle(c);
    ByIdCanonical(AllFindings(g));
    DedupIdempotent(AllArtifacts(g));
    RankOfPosition(MinRank(OutcomesOf(g)));
    if Routings(g) != [] { MergeSingleton(Routings(g)); }
  }

  lemma DigestSingle(c: EvaluatorResult)
    ensures DigestOf([c]) == Digest(ById(c.findings), Dedup(c.metadata.artifactsEvaluated), Rank(c.outcome),
                                    if c.modelRouting.Some? then Merge([c.modelRouting.value]) else None,
                                    c.metadata.durationMs, c.metadata.deterministic)
  {
    Unfold([], c);
    assert [] + [c] == [c] && [] + c.findings == c.findings;
    assert [] + c.metadata.artifactsEvaluated == c.metadata.artifactsEvaluated;
    MostSevereSingleton(c.outcome);
    assert forall r :: r in [c] <==> r == c;
  }

  lemma {:induction false} CompositesDigest(groups: seq<seq<EvaluatorResult>>, phase: string, strategy: string, labels: Labels)
    requires IsStrict(strategy)
    ensures DigestOf(Composites(groups, phase, strategy, labels)) == DigestOf(Flatten(groups))
  {
    if groups != [] {
      var init, g := groups[..|groups| - 1], groups[|groups| - 1];
      var c := Compose(g, phase, strategy, labels);
      CompositesDigest(init, phase, strategy, labels);
      ComposeIsStrictCore(g, phase, strategy, labels);
      CompositeDigest(g, c);
      DigestAppend(Composites(init, phase, strategy, labels), [c]);
      DigestAppend(Flatten(init), g);
    }
  }

  /** Strict composition is associative, for any grouping into any number of groups, empty ones
      included: composing the composites of the groups says what composing all results at once says. */
  lemma StrictAssociative(groups: seq<seq<EvaluatorResult>>, phase: string, strategy: string, inner: Labels, outer: Labels)
    requires IsStrict(strategy)
    ensures CoreOf(Compose(Composites(groups, phase, strategy, inner), phase, strategy, outer))
         == CoreOf(Compose(Flatten(groups), phase, strategy, outer))
  {
    CompositesDigest(groups, phase, strategy, inner);
    SameDigestSameCore(Composites(groups, phase, strategy, inner), Flatten(groups));
    ComposeIsStrictCore(Composites(groups, phase, strategy, inner), phase, strategy, outer);
    ComposeIsStrictCore(Flatten(groups), phase, strategy, outer);
  }

  /** The empty composition is an identity: placed before or after other results it changes nothing. */
  lemma EmptyIsIdentity(rs: seq<EvaluatorResult>, phase: string, strategy: string, labels: Labels)
    requires IsStrict(strategy)
    ensures var e := Compose([], phase, strategy, labels);
      && CoreOf(Compose([e] + rs, phase, strategy, labels)) == CoreOf(Compose(rs, phase, strategy, labels))
      && CoreOf(Compose(rs + [e], phase, strategy, labels)) == CoreOf(Compose(rs, phase, strategy, labels))
  {
    var e := Compose([], phase, strategy, labels);
    ComposeIsStrictCore([], phase, strategy, labels);
    CompositeDigest([], e);
    DigestAppend([e], rs);
    DigestAppend([], rs);
    DigestAppend(rs, [e]);
    DigestAppend(rs, []);
    assert [] + rs == rs && rs + [] == rs;
    SameDigestSameCore([e] + rs, rs);
    SameDigestSameCore(rs + [e], rs);
    ComposeIsStrictCore([e] + rs, phase, strategy, labels);
    ComposeIsStrictCore(rs + [e], phase, strategy, labels);
    ComposeIsStrictCore(rs, phase, strategy, labels);
  }

  // ----- outcome and findings agree -----

  /** Findings that share an id share a severity. */
  ghost predicate SeveritiesById(fs: seq<Finding>) {
    forall f, g :: f in fs && g in fs && f.id == g.id ==> f.severity == g.severity
  }

  lemma SameSeveritiesSameOutcome(fs: seq<Finding>, gs: seq<Finding>)
    requires Severities(fs) == Severities(gs)
    ensures DeriveOutcome(fs) == DeriveOutcome(gs)
  {}

  lemma CanonicalSeverities(fs: seq<Finding>)
    requires SeveritiesById(fs)
    ensures Severities(Canonical(fs)) == Severities(fs)
  {
    CanonicalMembers(fs);
    ByIdMembers(fs);
    forall s | s in Severities(fs) ensures s in Severities(Canonical(fs)) {
      var f :| f in fs && f.severity == s;
      assert ById(fs)[f.id] in Canonical(fs);
    }
  }

  /** The rank of the outcome derived from findings. */
  lemma DerivedRank(fs: seq<Finding>)
    ensures Known(DeriveOutcome(fs))
    ensures Rank(DeriveOutcome(fs)) ==
      if "critical" in Severities(fs) then 0 else if "high" in Severities(fs) then 2
      else if "medium" in Severities(fs) then 4 else 5
  {
    RankOfPosition(0);
    RankOfPosition(2);
    RankOfPosition(4);
    RankOfPosition(5);
  }

  lemma {:induction false} DerivedAppend(a: seq<Finding>, b: seq<Finding>)
    ensures var (x, y) := (Rank(DeriveOutcome(a)), Rank(DeriveOutcome(b)));
      Rank(DeriveOutcome(a + b)) == if x <= y then x else y
  {
    DerivedRank(a);
    DerivedRank(b);
    DerivedRank(a + b);
    assert forall f :: f in a + b <==> f in a || f in b;
    assert forall s :: s in Severities(a + b) <==> s in Severities(a) || s in Severities(b);
  }

  lemma {:induction false} DerivedOutcomes(rs: seq<EvaluatorResult>)
    requires forall r :: r in rs ==> r.outcome == DeriveOutcome(r.findings)
    ensures MinRank(OutcomesOf(rs)) == Rank(DeriveOutcome(AllFindings(rs)))
  {
    if rs == [] {
      DerivedRank([]);
    } else {
      var init, r := rs[..|rs| - 1], rs[|rs| - 1];
      assert r in rs && forall x :: x in init ==> x in rs;
      DerivedOutcomes(init);
      DerivedAppend(AllFindings(init), r.findings);
    }
  }

  /** If every outcome is derived from its findings, and equal ids mean equal severities, then the
      composed outcome is the one derived from the composed findings. */
  lemma ComposedOutcomeIsDerived(rs: seq<EvaluatorResult>, phase: string, strategy: string, labels: Labels)
    requires IsStrict(strategy)
    requires forall r :: r in rs ==> r.outcome == DeriveOutcome(r.findings)
    requires SeveritiesById(AllFindings(rs))
    ensures var c := Compose(rs, phase, strategy, labels);
      c.outcome == DeriveOutcome(c.findings)
  {
    ComposeIsStrictCore(rs, phase, strategy, labels);
    DerivedOutcomes(rs);
    DerivedRank(AllFindings(rs));
    RankOfPosition(MinRank(OutcomesOf(rs)));
    SameRank(MostSevere(OutcomesOf(rs)), DeriveOutcome(AllFindings(rs)));
    CanonicalSeverities(AllFindings(rs));
    SameSeveritiesSameOutcome(AllFindings(rs), Canonical(AllFindings(rs)));
  }

  /** Some finding that comes first for its id is severe enough for the outcome of all findings. */
  ghost predicate WorstComesFirst(fs: seq<Finding>) {
    DeriveOutcome(fs) == "pass"
    || exists f :: f in fs && f.id in ById(fs) && ById(fs)[f.id] == f && DeriveOutcome([f]) == DeriveOutcome(fs)
  }

  lemma SeverityOfOne(f: Finding)
    ensures Severities([f]) == {f.severity}
  {
    assert f in [f];
  }

  lemma OutcomeOfOne(f: Finding)
    ensures DeriveOutcome([f]) ==
      if f.severity == "critical" then "block" else if f.severity == "high" then "iterate"
      else if f.severity == "medium" then "warn" else "pass"
  {
    SeverityOfOne(f);
  }

  /** Some of the findings decide the outcome of all exactly when the deciding severity is among theirs. */
  lemma OutcomeOfSome(some: seq<Finding>, all: seq<Finding>)
    requires Severities(some) <= Severities(all)
    ensures DeriveOutcome(some) == DeriveOutcome(all) <==>
      DeriveOutcome(all) == "pass" || exists f :: f in some && DeriveOutcome([f]) == DeriveOutcome(all)
  {
    var o := DeriveOutcome(all);
    if o != "pass" {
      var s := if o == "block" then "critical" else if o == "iterate" then "high" else "medium";
      forall f ensures DeriveOutcome([f]) == o <==> f.severity == s { OutcomeOfOne(f); }
      assert DeriveOutcome(some) == o <==> s in Severities(some);
      if s in Severities(some) {
        var f :| f in some && f.severity == s;
        assert DeriveOutcome([f]) == o;
      }
    }
  }

  lemma CanonicalOutcome(fs: seq<Finding>)
    ensures DeriveOutcome(Canonical(fs)) == DeriveOutcome(fs) <==> WorstComesFirst(fs)
  {
    CanonicalMembers(fs);
    ByIdMembers(fs);
    forall s | s in Severities(Canonical(fs)) ensures s in Severities(fs) {
      var f :| f in Canonical(fs) && f.severity == s;
      assert f in fs;
    }
    OutcomeOfSome(Canonical(fs), fs);
    assert forall f :: f in Canonical(fs) <==> f in fs && f.id in ById(fs) && ById(fs)[f.id] == f;
  }

  /** The exact condition: the composed outcome is derived from the composed findings exactly when
      deduplication keeps a finding of the severity that decided it. */
  lemma ComposedOutcomeIsDerivedExactly(rs: seq<EvaluatorResult>, phase: string, strategy: string, labels: Labels)
    requires IsStrict(strategy)
    requires forall r :: r in rs ==> r.outcome == DeriveOutcome(r.findings)
    ensures var c := Compose(rs, phase, strategy, labels);
      c.outcome == DeriveOutcome(c.findings) <==> WorstComesFirst(AllFindings(rs))
  {
    ComposeIsStrictCore(rs, phase, strategy, labels);
    DerivedOutcomes(rs);
    DerivedRank(AllFindings(rs));
    RankOfPosition(MinRank(OutcomesOf(rs)));
    SameRank(MostSevere(OutcomesOf(rs)), DeriveOutcome(AllFindings(rs)));
    CanonicalOutcome(AllFindings(rs));
  }

  /** It can fail: of two findings with one id the milder comes first. */
  lemma WorstCanComeSecond(mild: Finding, severe: Finding)
    requires mild.id == severe.id && mild.severity == "low" && severe.severity == "critical"
    ensures !WorstComesFirst([mild, severe])
  {
    var fs := [mild, severe];
    assert fs[..1] == [mild] && [mild][..0] == [];
    assert ById([mild]) == map[mild.id := mild];
    assert ById(fs) == map[mild.id := mild];
    assert severe in fs && severe.severity in Severities(fs);
    SeverityOfOne(mild);
  }

  /** In general the composed outcome is never milder than its findings: deduplication may hide the
      severe one of two findings with the same id, but not what its evaluator concluded. */
  lemma ComposedOutcomeCoversFindings(rs: seq<EvaluatorResult>, phase: string, strategy: string, labels: Labels)
    requires IsStrict(strategy)
    requires forall r :: r in rs ==> r.outcome == DeriveOutcome(r.findings)
    ensures var c := Compose(rs, phase, strategy, labels);
      Rank(c.outcome) <= Rank(DeriveOutcome(c.findings))
  {
    var fs := AllFindings(rs);
    ComposeIsStrictCore(rs, phase, strategy, labels);
    DerivedOutcomes(rs);
    RankOfPosition(MinRank(OutcomesOf(rs)));
    DerivedRank(fs);
    DerivedRank(Canonical(fs));
    CanonicalMembers(fs);
    ByIdMembers(fs);
    assert forall f :: f in Canonical(fs) ==> f in fs;
    assert forall s :: s in Severities(Canonical(fs)) ==> s in Severities(fs);
  }
}
