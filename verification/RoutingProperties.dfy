/** What route selection guarantees, and how it responds to more candidates and looser limits. */
module RoutingProperties {
  import opened Base
  import opened Sorting
  import opened RoutingModel
  import opened Routing

  /** An admissible plan whose worker and verifier are among the candidates. */
  predicate AdmissibleFrom(ct: Contract, p: Policy, cs: seq<Candidate>, w: Candidate, v: Option<Candidate>)
    requires ct.riskClass in p.riskLcb
  {
    w in cs && (v.Some? ==> v.value in cs) && Admissible(ct, p, w, v)
  }

  // ----- the rules read from the fields alone -----

  /** Two characters are the same but for the case of an ASCII letter. */
  predicate SameLetter(a: char, b: char) {
    a == b || ('A' <= a <= 'Z' && b as int == a as int + 32) || ('A' <= b <= 'Z' && a as int == b as int + 32)
  }

  predicate SameText(a: string, b: string) {
    |a| == |b| && forall i :: 0 <= i < |a| ==> SameLetter(a[i], b[i])
  }

  lemma LowerEqual(a: string, b: string)
    ensures Lower(a) == Lower(b) <==> SameText(a, b)
  {
    if Lower(a) == Lower(b) {
      forall i | 0 <= i < |a| ensures SameLetter(a[i], b[i]) {
        assert Lower(a)[i] == LowerChar(a[i]) && Lower(b)[i] == LowerChar(b[i]);
      }
    }
  }

  /** Membership in a list, up to case. */
  ghost predicate Among(s: string, list: seq<string>) {
    exists i :: 0 <= i < |list| && SameText(list[i], s)
  }

  /** The text begins, up to case, with a listed prefix. */
  ghost predicate BeginsAmong(s: string, prefixes: seq<string>) {
    exists i :: 0 <= i < |prefixes| && |prefixes[i]| <= |s| && SameText(prefixes[i], s[..|prefixes[i]|])
  }

  lemma ListedExactly(s: string, list: seq<string>)
    ensures Listed(s, list) <==> Among(s, list)
  {
    forall i | 0 <= i < |list| ensures Lower(list[i]) == Lower(s) <==> SameText(list[i], s) {
      LowerEqual(list[i], s);
    }
  }

  lemma PrefixExactly(s: string, prefixes: seq<string>)
    ensures HasListedPrefix(s, prefixes) <==> BeginsAmong(s, prefixes)
  {
    forall i | 0 <= i < |prefixes|
      ensures Lower(prefixes[i]) <= Lower(s) <==> |prefixes[i]| <= |s| && SameText(prefixes[i], s[..|prefixes[i]|])
    {
      LowerPrefix(prefixes[i], s);
    }
  }

  lemma LowerPrefix(a: string, s: string)
    ensures Lower(a) <= Lower(s) <==> |a| <= |s| && SameText(a, s[..|a|])
  {
    if |a| <= |s| {
      LowerEqual(a, s[..|a|]);
      assert Lower(s[..|a|]) == Lower(s)[..|a|];
    }
  }

  /** A field that is absent reads as the empty text. */
  function TextOf(field: Option<string>): string {
    match field
    case Some(s) => s
    case None => ""
  }

  /** The gateway and model-identity rules; they bind model actions only. */
  ghost predicate ModelAllowed(c: Candidate, inf: Inference) {
    c.actionKind == "model" ==>
      && (inf.allowedGateways == [] || Among(TextOf(c.gateway), inf.allowedGateways))
      && (inf.explicitModelIdRequired ==> TextOf(c.modelId) != "")
      && !Among(c.providerFamily, inf.forbiddenFamilies)
      && !Among(TextOf(c.modelId), inf.forbiddenIds)
      && !(TextOf(c.modelId) != "" && BeginsAmong(TextOf(c.modelId), inf.forbiddenPrefixes))
  }

  lemma InferenceExactly(c: Candidate, inf: Inference)
    ensures InferenceAllowed(c, inf) <==> ModelAllowed(c, inf)
  {
    ListedExactly(TextOf(c.gateway), inf.allowedGateways);
    ListedExactly(c.providerFamily, inf.forbiddenFamilies);
    ListedExactly(TextOf(c.modelId), inf.forbiddenIds);
    PrefixExactly(TextOf(c.modelId), inf.forbiddenPrefixes);
  }

  /** What every action of a plan must meet. */
  ghost predicate ActionMeets(ct: Contract, p: Policy, c: Candidate)
    requires ct.riskClass in p.riskLcb
  {
    && ModelAllowed(c, p.inference)
    && c.available
    && ct.dataPolicy in c.dataPolicies
    && (ct.allowedFamilies != {} ==> c.providerFamily in ct.allowedFamilies)
    && c.providerFamily !in ct.deniedFamilies
    && c.acceptanceLcb >= p.riskLcb[ct.riskClass]
    && c.acceptanceLcb >= ct.requestedProbability
  }

  /** A worker, and a verifier of another family exactly where the risk class calls for one, that meet
      every rule; no computed bound occurs in it. */
  ghost predicate Meets(ct: Contract, p: Policy, w: Candidate, v: Option<Candidate>)
    requires ct.riskClass in p.riskLcb
  {
    && "execute" in w.roles
    && ActionMeets(ct, p, w)
    && (forall capability :: capability in ct.requiredCapabilities ==> capability in w.capabilities)
    && w.latencyMs <= ct.maxLatencyMs
    && PlanCost(p, w, v) <= ct.maxCost
    && match v
       case None => ct.riskClass !in p.independentFor
       case Some(verifier) =>
         && ct.riskClass in p.independentFor
         && "verify" in verifier.roles
         && ActionMeets(ct, p, verifier)
         && verifier.providerFamily != w.providerFamily
         && w.latencyMs + verifier.latencyMs <= ct.maxLatencyMs
  }

  lemma AdmissibleExactly(ct: Contract, p: Policy, w: Candidate, v: Option<Candidate>)
    requires ct.riskClass in p.riskLcb
    ensures Admissible(ct, p, w, v) <==> Meets(ct, p, w, v)
  {
    InferenceExactly(w, p.inference);
    if v.Some? { InferenceExactly(v.value, p.inference); }
  }

  /** A plan is made of its worker and verifier: the latencies add up, the bound is the smaller one. */
  ghost predicate MadeOf(plan: Plan, p: Policy, w: Candidate, v: Option<Candidate>) {
    && plan.actionId == w.id && plan.actionKind == w.actionKind && plan.providerFamily == w.providerFamily
    && plan.gateway == w.gateway && plan.modelId == w.modelId
    && plan.cost == PlanCost(p, w, v)
    && match v
       case None => plan.verifier == None && plan.latencyMs == w.latencyMs && plan.acceptanceLcb == w.acceptanceLcb
       case Some(u) =>
         && plan.verifier == Some(VerifierPart(u.id, u.providerFamily, u.gateway, u.modelId))
         && plan.latencyMs == w.latencyMs + u.latencyMs
         && plan.acceptanceLcb <= w.acceptanceLcb && plan.acceptanceLcb <= u.acceptanceLcb
         && (plan.acceptanceLcb == w.acceptanceLcb || plan.acceptanceLcb == u.acceptanceLcb)
  }

  lemma PlanMadeOf(p: Policy, w: Candidate, v: Option<Candidate>, plan: Plan)
    ensures plan == PlanOf(p, w, v) <==> MadeOf(plan, p, w, v)
  {}

  lemma {:induction false} SumCostsAppend(c: Candidate, a: seq<string>, b: seq<string>)
    ensures SumCosts(c, a + b) == SumCosts(c, a) + SumCosts(c, b)
  {
    if b == [] {
      assert a + b == a;
    } else {
      assert (a + b)[..|a + b| - 1] == a + b[..|b| - 1];
      SumCostsAppend(c, a, b[..|b| - 1]);
    }
  }

  /** The cost of one field: that of the worker and that of the verifier, 0 where there is none. */
  function FieldCost(f: string, w: Candidate, v: Option<Candidate>): int {
    (if f in w.costs then w.costs[f] else 0) + (if v.Some? && f in v.value.costs then v.value.costs[f] else 0)
  }

  /** A plan costs the sum over the policy's cost fields, wherever the list of fields is cut. */
  lemma PlanCostByField(p: Policy, a: seq<string>, f: string, b: seq<string>, w: Candidate, v: Option<Candidate>)
    ensures PlanCost(p.(costFields := []), w, v) == 0
    ensures PlanCost(p.(costFields := a + [f] + b), w, v)
         == PlanCost(p.(costFields := a), w, v) + FieldCost(f, w, v) + PlanCost(p.(costFields := b), w, v)
  {
    SumCostsAppend(w, a + [f], b);
    SumCostsAppend(w, a, [f]);
    SumCostsOne(w, f);
    if v.Some? {
      SumCostsAppend(v.value, a + [f], b);
      SumCostsAppend(v.value, a, [f]);
      SumCostsOne(v.value, f);
    }
  }

  lemma SumCostsOne(c: Candidate, f: string)
    ensures SumCosts(c, [f]) == if f in c.costs then c.costs[f] else 0
  {
    assert [f][..0] == [];
  }

  /** A worker and possibly a verifier of the list that meet every rule and make up the plan. */
  ghost predicate Backed(ct: Contract, p: Policy, cs: seq<Candidate>, plan: Plan, w: Candidate, v: Option<Candidate>)
    requires ct.riskClass in p.riskLcb
  {
    w in cs && (v.Some? ==> v.value in cs) && Meets(ct, p, w, v) && MadeOf(plan, p, w, v)
  }

  ghost predicate Offered(d: Decision, plan: Plan) { d.selected == Some(plan) || plan in d.fallbacks }

  /** A mandatory criterion of kind `missing`. */
  ghost predicate Unspecified(ct: Contract) {
    exists criterion :: criterion in ct.criteria && criterion.mandatory && criterion.kind == "missing"
  }

  lemma UnspecifiedExactly(ct: Contract)
    ensures MissingAcceptance(ct) <==> Unspecified(ct)
  {
    if Unspecified(ct) {
      var criterion :| criterion in ct.criteria && criterion.mandatory && criterion.kind == "missing";
      var i :| 0 <= i < |ct.criteria| && ct.criteria[i] == criterion;
    }
  }

  /** The plans offered are exactly those some worker, with a verifier where one is needed, makes up
      while meeting every rule, the risk floor and the requested probability each by itself. */
  lemma OfferedExactly(ct: Contract, cs: seq<Candidate>, p: Policy, d: Decision, plan: Plan)
    requires ct.riskClass in p.riskLcb
    requires MissingAcceptance(ct) ==> ct.riskClass in p.missingBehavior
    requires Decides(ct, cs, p, d)
    ensures Offered(d, plan) <==> !Unspecified(ct) && exists w, v :: Backed(ct, p, cs, plan, w, v)
  {
    UnspecifiedExactly(ct);
    if Offered(d, plan) {
      PlansMeetConstraints(ct, cs, p, d, plan);
      var w, v :| AdmissibleFrom(ct, p, cs, w, v) && plan == PlanOf(p, w, v);
      AdmissibleExactly(ct, p, w, v);
      assert Backed(ct, p, cs, plan, w, v);
    }
    if !Unspecified(ct) && exists w, v :: Backed(ct, p, cs, plan, w, v) {
      var w, v :| Backed(ct, p, cs, plan, w, v);
      AdmissibleExactly(ct, p, w, v);
      PlanMadeOf(p, w, v, plan);
      AdmissibleIsOffered(ct, cs, p, d, w, v);
    }
  }

  lemma AdmissibleIsOffered(ct: Contract, cs: seq<Candidate>, p: Policy, d: Decision, w: Candidate, v: Option<Candidate>)
    requires ct.riskClass in p.riskLcb && !MissingAcceptance(ct)
    requires Decides(ct, cs, p, d) && AdmissibleFrom(ct, p, cs, w, v)
    ensures Offered(d, PlanOf(p, w, v))
  {
    var ranked := RankedPlans(ct, p, cs);
    RankedExactly(ct, p, cs);
    var ch := Locate(ct, p, cs, w, v);
    assert ch in Ranked(ct, p, cs);
    var i :| 0 <= i < |ranked| && Ranked(ct, p, cs)[i] == ch;
    assert ranked[i] == PlanOf(p, w, v);
    if i > 0 { assert ranked[1..][i - 1] == ranked[i]; }
  }

  /** The bound a decision reports is the larger of the risk floor and the requested probability. */
  lemma RequiredBound(ct: Contract, cs: seq<Candidate>, p: Policy, d: Decision)
    requires ct.riskClass in p.riskLcb
    requires MissingAcceptance(ct) ==> ct.riskClass in p.missingBehavior
    requires Decides(ct, cs, p, d)
    ensures d.requiredLcb >= p.riskLcb[ct.riskClass] && d.requiredLcb >= ct.requestedProbability
    ensures d.requiredLcb == p.riskLcb[ct.riskClass] || d.requiredLcb == ct.requestedProbability
  {}

  /** The status, read from the fields alone. */
  lemma StatusExactly(ct: Contract, cs: seq<Candidate>, p: Policy, d: Decision)
    requires ct.riskClass in p.riskLcb
    requires MissingAcceptance(ct) ==> ct.riskClass in p.missingBehavior
    requires Decides(ct, cs, p, d)
    ensures Unspecified(ct) ==>
      d.status == if p.missingBehavior[ct.riskClass] == "rejected_until_specified" then Rejected else ClarificationRequired
    ensures !Unspecified(ct) ==>
      d.status == if SomeMeet(ct, p, cs) then RouteSelected else EscalationRequired
  {
    UnspecifiedExactly(ct);
    SelectsBest(ct, cs, p, d);
    if SomeMeet(ct, p, cs) {
      var w: Candidate, v: Option<Candidate> :| w in cs && (v.Some? ==> v.value in cs) && Meets(ct, p, w, v);
      AdmissibleExactly(ct, p, w, v);
      assert AdmissibleFrom(ct, p, cs, w, v);
    }
    if w, v :| AdmissibleFrom(ct, p, cs, w, v) {
      AdmissibleExactly(ct, p, w, v);
      assert SomeMeet(ct, p, cs);
    }
  }

  /** Some worker of the list, alone or with a verifier of the list, meets every rule. */
  ghost predicate SomeMeet(ct: Contract, p: Policy, cs: seq<Candidate>)
    requires ct.riskClass in p.riskLcb
  {
    exists w: Candidate, v: Option<Candidate> :: w in cs && (v.Some? ==> v.value in cs) && Meets(ct, p, w, v)
  }

  /** Cost decides first, then latency, then acceptance: no offered plan beats the selected one, and the
      fallbacks follow in the same order. */
  lemma OfferedInOrder(ct: Contract, cs: seq<Candidate>, p: Policy, d: Decision, i: nat, j: nat)
    requires ct.riskClass in p.riskLcb
    requires MissingAcceptance(ct) ==> ct.riskClass in p.missingBehavior
    requires Decides(ct, cs, p, d)
    requires d.selected.Some? && i < j <= |d.fallbacks|
    ensures var offered := [d.selected.value] + d.fallbacks;
      && offered[i].cost <= offered[j].cost
      && (offered[i].cost == offered[j].cost ==> offered[i].latencyMs <= offered[j].latencyMs)
      && ((offered[i].cost == offered[j].cost && offered[i].latencyMs == offered[j].latencyMs) ==>
            offered[i].acceptanceLcb >= offered[j].acceptanceLcb)
  {
    var offered := [d.selected.value] + d.fallbacks;
    RankedExactly(ct, p, cs);
    assert offered == RankedPlans(ct, p, cs);
    assert PlanLeq(offered[i], offered[j]);
  }

  // ----- the audit read from the fields alone -----

  /** The gateway and model-identity rules, one by one. */
  ghost predicate ModelBreaks(r: Reason, c: Candidate, inf: Inference) {
    c.actionKind == "model" &&
    match r
    case GatewayNotAllowed => inf.allowedGateways != [] && !Among(TextOf(c.gateway), inf.allowedGateways)
    case ModelIdRequired => inf.explicitModelIdRequired && TextOf(c.modelId) == ""
    case ModelFamilyDenied => Among(c.providerFamily, inf.forbiddenFamilies)
    case ModelIdDenied =>
      || Among(TextOf(c.modelId), inf.forbiddenIds)
      || (TextOf(c.modelId) != "" && BeginsAmong(TextOf(c.modelId), inf.forbiddenPrefixes))
    case _ => false
  }

  /** The bound named in a reason is the larger of the two, and the candidate is below it. */
  ghost predicate BelowBound(ct: Contract, p: Policy, c: Candidate, bound: real)
    requires ct.riskClass in p.riskLcb
  {
    && c.acceptanceLcb < bound && bound >= p.riskLcb[ct.riskClass] && bound >= ct.requestedProbability
    && (bound == p.riskLcb[ct.riskClass] || bound == ct.requestedProbability)
  }

  ghost predicate WorkerBreaks(r: Reason, ct: Contract, p: Policy, c: Candidate)
    requires ct.riskClass in p.riskLcb
  {
    || ModelBreaks(r, c, p.inference)
    || match r
       case Unavailable => !c.available
       case MissingCapabilities(names) =>
         names != [] && SortedIds(ct.requiredCapabilities - c.capabilities, names)
       case DataPolicyMismatch => ct.dataPolicy !in c.dataPolicies
       case ProviderNotAllowed => ct.allowedFamilies != {} && c.providerFamily !in ct.allowedFamilies
       case ProviderDenied => c.providerFamily in ct.deniedFamilies
       case AcceptanceBelow(bound) => BelowBound(ct, p, c, bound)
       case LatencyExceeded => c.latencyMs > ct.maxLatencyMs
       case _ => false
  }

  ghost predicate VerifierBreaks(r: Reason, ct: Contract, p: Policy, w: Candidate, v: Candidate)
    requires ct.riskClass in p.riskLcb
  {
    || ModelBreaks(r, v, p.inference)
    || match r
       case NotAVerifier => "verify" !in v.roles
       case Unavailable => !v.available
       case VerifierNotIndependent => v.providerFamily == w.providerFamily
       case DataPolicyMismatch => ct.dataPolicy !in v.dataPolicies
       case ProviderNotAllowed => ct.allowedFamilies != {} && v.providerFamily !in ct.allowedFamilies
       case ProviderDenied => v.providerFamily in ct.deniedFamilies
       case VerifierBelow(bound) => BelowBound(ct, p, v, bound)
       case _ => false
  }

  lemma ModelBreaksExactly(r: Reason, c: Candidate, inf: Inference)
    ensures InferenceApplies(r, c, inf) <==> ModelBreaks(r, c, inf)
  {
    ListedExactly(TextOf(c.gateway), inf.allowedGateways);
    ListedExactly(c.providerFamily, inf.forbiddenFamilies);
    ListedExactly(TextOf(c.modelId), inf.forbiddenIds);
    PrefixExactly(TextOf(c.modelId), inf.forbiddenPrefixes);
  }

  /** The reasons of `BaseReasons`, read from the fields. */
  lemma WorkerBreaksExactly(r: Reason, ct: Contract, p: Policy, c: Candidate)
    requires ct.riskClass in p.riskLcb
    ensures BaseApplies(r, ct, c, RequiredLcb(ct, p), p) <==> WorkerBreaks(r, ct, p, c)
  {
    ModelBreaksExactly(r, c, p.inference);
  }

  /** The reasons of `VerifierReasons`, read from the fields. */
  lemma VerifierBreaksExactly(r: Reason, ct: Contract, p: Policy, w: Candidate, v: Candidate)
    requires ct.riskClass in p.riskLcb
    ensures VerifierApplies(r, ct, w, v, RequiredLcb(ct, p), p) <==> VerifierBreaks(r, ct, p, w, v)
  {
    ModelBreaksExactly(r, v, p.inference);
  }

  /** The order of the reasons in a list is that of the rules in the code. */
  lemma ReasonsInCodeOrder(names: seq<string>, bound: real)
    ensures Position(GatewayNotAllowed) < Position(ModelIdRequired) < Position(ModelFamilyDenied) < Position(ModelIdDenied)
    ensures Position(ModelIdDenied) < Position(Unavailable) < Position(MissingCapabilities(names)) < Position(DataPolicyMismatch)
    ensures Position(DataPolicyMismatch) < Position(ProviderNotAllowed) < Position(ProviderDenied)
    ensures Position(ProviderDenied) < Position(AcceptanceBelow(bound)) < Position(LatencyExceeded)
    ensures Position(ModelIdDenied) < Position(NotAVerifier) < Position(Unavailable)
    ensures Position(Unavailable) < Position(VerifierNotIndependent) < Position(DataPolicyMismatch)
    ensures Position(ProviderDenied) < Position(VerifierBelow(bound))
  {}

  /** Some candidate can verify this worker, or none is called for. */
  ghost predicate CanBeVerified(ct: Contract, p: Policy, cs: seq<Candidate>, w: Candidate)
    requires ct.riskClass in p.riskLcb
  {
    ct.riskClass in p.independentFor ==>
      exists v :: v in cs && "verify" in v.roles && ActionMeets(ct, p, v) && v.providerFamily != w.providerFamily
  }

  /** The audit entry of a worker: admissible exactly when the worker makes up some plan; otherwise the
      rules it breaks, and if it breaks none, the lack of a verifier or else the limits of the plan. */
  lemma AuditByName(ct: Contract, p: Policy, cs: seq<Candidate>, w: nat, a: Audit)
    requires ct.riskClass in p.riskLcb && w < |cs| && Audited(ct, p, cs, w, a)
    ensures a.candidateId == cs[w].id
    ensures a.admissible <==> exists v: Option<Candidate> :: (v.Some? ==> v.value in cs) && Meets(ct, p, cs[w], v)
    ensures a.admissible ==> a.reasons == []
    ensures (exists r :: WorkerBreaks(r, ct, p, cs[w])) ==>
      Chain(a.reasons, Sooner) && forall r :: r in a.reasons <==> WorkerBreaks(r, ct, p, cs[w])
    ensures ((forall r :: !WorkerBreaks(r, ct, p, cs[w])) && !a.admissible) ==>
      a.reasons == [if CanBeVerified(ct, p, cs, cs[w]) then PlanExceedsLimits else NoIndependentVerifier]
  {
    forall r ensures BaseApplies(r, ct, cs[w], RequiredLcb(ct, p), p) <==> WorkerBreaks(r, ct, p, cs[w]) {
      WorkerBreaksExactly(r, ct, p, cs[w]);
    }
    EligibleUnlessBroken(ct, p, cs[w]);
    OptionsExactly(ct, p, cs, w);
    ChoiceOfWorker(ct, p, cs, w);
  }

  lemma EligibleUnlessBroken(ct: Contract, p: Policy, c: Candidate)
    requires ct.riskClass in p.riskLcb
    ensures WorkerEligible(ct, c, RequiredLcb(ct, p), p) <==> forall r :: !BaseApplies(r, ct, c, RequiredLcb(ct, p), p)
  {
    var lcb := RequiredLcb(ct, p);
    if forall r :: !BaseApplies(r, ct, c, lcb, p) { EligibleIff(ct, c, lcb, p, []); }
    if r :| BaseApplies(r, ct, c, lcb, p) {
      if r.MissingCapabilities? { NothingMissing(ct.requiredCapabilities, c.capabilities, r.names); }
    }
  }

  lemma OptionsExactly(ct: Contract, p: Policy, cs: seq<Candidate>, w: nat)
    requires ct.riskClass in p.riskLcb && w < |cs|
    ensures (exists v: Option<nat> :: IsOption(ct, p, cs, w, v)) <==> CanBeVerified(ct, p, cs, cs[w])
  {
    if v: Option<nat> :| IsOption(ct, p, cs, w, v) {
      if v.Some? { InferenceExactly(cs[v.value], p.inference); }
    }
    if ct.riskClass !in p.independentFor {
      assert IsOption(ct, p, cs, w, None);
    } else if CanBeVerified(ct, p, cs, cs[w]) {
      var v :| v in cs && "verify" in v.roles && ActionMeets(ct, p, v) && v.providerFamily != cs[w].providerFamily;
      var i: nat :| i < |cs| && cs[i] == v;
      InferenceExactly(v, p.inference);
      assert IsOption(ct, p, cs, w, Some(i));
    }
  }

  lemma ChoiceOfWorker(ct: Contract, p: Policy, cs: seq<Candidate>, w: nat)
    requires ct.riskClass in p.riskLcb && w < |cs|
    ensures (exists ch: Choice :: ch.w == w && AdmissibleChoice(ct, p, cs, ch)) <==>
            (exists v: Option<Candidate> :: (v.Some? ==> v.value in cs) && Meets(ct, p, cs[w], v))
  {
    if ch: Choice :| ch.w == w && AdmissibleChoice(ct, p, cs, ch) {
      AdmissibleExactly(ct, p, cs[w], At(cs, ch.v));
    }
    if v: Option<Candidate> :| (v.Some? ==> v.value in cs) && Meets(ct, p, cs[w], v) {
      AdmissibleExactly(ct, p, cs[w], v);
      var i: nat := 0;
      if v.Some? { i :| i < |cs| && cs[i] == v.value; }
      assert AdmissibleChoice(ct, p, cs, Choice(w, if v.Some? then Some(i) else None));
    }
  }

  /** Fail-closed: every plan ever offered, selected or fallback, meets every hard constraint. */
  lemma PlansMeetConstraints(ct: Contract, cs: seq<Candidate>, p: Policy, d: Decision, plan: Plan)
    requires ct.riskClass in p.riskLcb
    requires MissingAcceptance(ct) ==> ct.riskClass in p.missingBehavior
    requires Decides(ct, cs, p, d)
    requires d.selected == Some(plan) || plan in d.fallbacks
    ensures plan.cost <= ct.maxCost && plan.latencyMs <= ct.maxLatencyMs
    ensures plan.acceptanceLcb >= p.riskLcb[ct.riskClass] && plan.acceptanceLcb >= ct.requestedProbability
    ensures plan.verifier.Some? <==> NeedsVerifier(ct, p)
    ensures plan.verifier.Some? ==> plan.verifier.value.family != plan.providerFamily
    ensures exists w, v :: AdmissibleFrom(ct, p, cs, w, v) && plan == PlanOf(p, w, v)
  {
    var ranked := RankedPlans(ct, p, cs);
    RankedExactly(ct, p, cs);
    assert plan in ranked by {
      if plan in d.fallbacks { assert plan in ranked[1..]; } else { assert ranked[0] in ranked; }
    }
    var i :| 0 <= i < |ranked| && ranked[i] == plan;
    var ch := Ranked(ct, p, cs)[i];
    assert AdmissibleChoice(ct, p, cs, ch);
    var w, v := cs[ch.w], At(cs, ch.v);
    assert AdmissibleFrom(ct, p, cs, w, v) && plan == PlanOf(p, w, v);
  }

  /** Nothing admissible is passed over: a route is selected exactly when acceptance is specified and
      some admissible plan exists, and the selected plan ranks no lower than any admissible one. */
  lemma SelectsBest(ct: Contract, cs: seq<Candidate>, p: Policy, d: Decision)
    requires ct.riskClass in p.riskLcb
    requires MissingAcceptance(ct) ==> ct.riskClass in p.missingBehavior
    requires Decides(ct, cs, p, d)
    ensures d.status == RouteSelected <==>
      !MissingAcceptance(ct) && exists w, v :: AdmissibleFrom(ct, p, cs, w, v)
    ensures d.status == RouteSelected <==> d.selected.Some?
    ensures d.selected.Some? ==> forall w, v ::
      AdmissibleFrom(ct, p, cs, w, v) ==> PlanLeq(d.selected.value, PlanOf(p, w, v))
  {
    var ranked := Ranked(ct, p, cs);
    RankedExactly(ct, p, cs);
    forall w, v | AdmissibleFrom(ct, p, cs, w, v)
      ensures ranked != [] && PlanLeq(RankedPlans(ct, p, cs)[0], PlanOf(p, w, v))
    {
      var ch := Locate(ct, p, cs, w, v);
      assert ch in ranked;
      var i :| 0 <= i < |ranked| && ranked[i] == ch;
      assert i == 0 || ChoiceLeq(p, cs)(ranked[0], ranked[i]) by {
        if i > 0 { assert Lex(ChoiceLeq(p, cs), Before)(ranked[0], ranked[i]); }
      }
    }
    if ranked != [] {
      assert ranked[0] in ranked;
      var ch := ranked[0];
      var w, v := cs[ch.w], At(cs, ch.v);
      assert AdmissibleFrom(ct, p, cs, w, v);
    }
  }

  lemma Locate(ct: Contract, p: Policy, cs: seq<Candidate>, w: Candidate, v: Option<Candidate>) returns (ch: Choice)
    requires ct.riskClass in p.riskLcb
    requires AdmissibleFrom(ct, p, cs, w, v)
    ensures AdmissibleChoice(ct, p, cs, ch) && cs[ch.w] == w && At(cs, ch.v) == v
  {
    var i: nat :| i < |cs| && cs[i] == w;
    if v.Some? {
      var j: nat :| j < |cs| && cs[j] == v.value;
      ch := Choice(i, Some(j));
    } else {
      ch := Choice(i, None);
    }
  }

  /** As a multiset, the selected plan with the fallbacks is the plans of all admissible choices. */
  lemma OffersExactlyTheAdmissible(ct: Contract, cs: seq<Candidate>, p: Policy, d: Decision)
    requires ct.riskClass in p.riskLcb && !MissingAcceptance(ct)
    requires Decides(ct, cs, p, d)
    ensures var offered := (if d.selected.Some? then [d.selected.value] else []) + d.fallbacks;
      && multiset(offered) == multiset(PlansOf(p, cs, Choices(ct, p, cs)))
      && SortedBy(offered, PlanLeq)
  {
    var offered := (if d.selected.Some? then [d.selected.value] else []) + d.fallbacks;
    assert offered == RankedPlans(ct, p, cs);
    RankedExactly(ct, p, cs);
    SortedPlans(ct, p, cs);
    SortContents(PlansOf(p, cs, Choices(ct, p, cs)), PlanLeq);
  }

  // ----- loosening -----

  /** Under the second contract and policy every constraint is at most as strict as under the first. */
  ghost predicate Looser(ct: Contract, p: Policy, ct': Contract, p': Policy)
    requires ct.riskClass in p.riskLcb && ct'.riskClass in p'.riskLcb
  {
    && (NeedsVerifier(ct', p') <==> NeedsVerifier(ct, p))
    && p'.costFields == p.costFields
    && RequiredLcb(ct', p') <= RequiredLcb(ct, p)
    && ct'.requiredCapabilities <= ct.requiredCapabilities
    && ct'.dataPolicy == ct.dataPolicy
    && (forall f :: FamilyPermitted(ct, f) ==> FamilyPermitted(ct', f))
    && ct'.maxCost >= ct.maxCost && ct'.maxLatencyMs >= ct.maxLatencyMs
    && (forall c :: InferenceAllowed(c, p.inference) ==> InferenceAllowed(c, p'.inference))
  }

  lemma LooserKeepsAdmissible(ct: Contract, p: Policy, ct': Contract, p': Policy, w: Candidate, v: Option<Candidate>)
    requires ct.riskClass in p.riskLcb && ct'.riskClass in p'.riskLcb && Looser(ct, p, ct', p')
    requires Admissible(ct, p, w, v)
    ensures Admissible(ct', p', w, v) && PlanOf(p', w, v) == PlanOf(p, w, v)
  {
    assert FamilyPermitted(ct', w.providerFamily);
    if v.Some? { assert FamilyPermitted(ct', v.value.providerFamily); }
  }

  /** Monotonicity: with more candidates or looser constraints a route that was found is still found,
      and the selected plan never gets worse. */
  lemma SelectionMonotone(ct: Contract, cs: seq<Candidate>, p: Policy, d: Decision,
                          ct': Contract, cs': seq<Candidate>, p': Policy, d': Decision)
    requires ct.riskClass in p.riskLcb && ct'.riskClass in p'.riskLcb
    requires !MissingAcceptance(ct) && !MissingAcceptance(ct')
    requires Decides(ct, cs, p, d) && Decides(ct', cs', p', d')
    requires Looser(ct, p, ct', p') && forall c :: c in cs ==> c in cs'
    requires d.selected.Some?
    ensures d'.selected.Some? && PlanLeq(d'.selected.value, d.selected.value)
    ensures d'.selected.value.cost <= d.selected.value.cost
  {
    PlansMeetConstraints(ct, cs, p, d, d.selected.value);
    var w, v :| AdmissibleFrom(ct, p, cs, w, v)
                && d.selected.value == PlanOf(p, w, v);
    LooserKeepsAdmissible(ct, p, ct', p', w, v);
    SelectsBest(ct', cs', p', d');
    assert AdmissibleFrom(ct', p', cs', w, v);
  }

  /** Reordering or repeating candidates changes neither whether a route is found nor the cost, latency
      and acceptance of the selected plan. */
  lemma OrderIrrelevant(ct: Contract, p: Policy, cs: seq<Candidate>, cs': seq<Candidate>, d: Decision, d': Decision)
    requires ct.riskClass in p.riskLcb && !MissingAcceptance(ct)
    requires Decides(ct, cs, p, d) && Decides(ct, cs', p, d')
    requires forall c :: c in cs <==> c in cs'
    ensures d.selected.Some? <==> d'.selected.Some?
    ensures d.selected.Some? ==>
      && d'.selected.value.cost == d.selected.value.cost
      && d'.selected.value.latencyMs == d.selected.value.latencyMs
      && d'.selected.value.acceptanceLcb == d.selected.value.acceptanceLcb
  {
    if d.selected.Some? { SelectionMonotone(ct, cs, p, d, ct, cs', p, d'); }
    if d'.selected.Some? { SelectionMonotone(ct, cs', p, d', ct, cs, p, d); }
  }

  // ----- local models -----

  const LOCAL_ROUTING: LocalRouting :=
    LocalRouting("NOERELAY_LOCAL_MODEL_URL", "http://127.0.0.1:11434", true, false, true)

  function ExtendWithLocal(p: Policy): Policy {
    p.(inference := p.inference.(
         allowedGateways := p.inference.allowedGateways + ["local"],
         local := Some(LOCAL_ROUTING)))
  }

  /** The candidate calls a model through the local gateway. */
  predicate IsLocal(c: Candidate) {
    Lower(GetOr(c.gateway, "")) == Lower("local")
  }

  lemma ListedAppend(s: string, list: seq<string>, x: string)
    ensures Listed(s, list + [x]) <==> Listed(s, list) || Lower(x) == Lower(s)
  {
    var l := list + [x];
    if Listed(s, list) {
      var i :| 0 <= i < |list| && Lower(list[i]) == Lower(s);
      assert l[i] == list[i];
    }
    assert l[|list|] == x;
  }

  /** What the extension does to the inference rules, for either kind of allow-list. */
  lemma ExtensionRules(c: Candidate, p: Policy)
    ensures InferenceAllowed(c, ExtendWithLocal(p).inference) <==>
      if p.inference.allowedGateways == [] then InferenceAllowed(c, p.inference) && (c.actionKind == "model" ==> IsLocal(c))
      else
        !InferenceApplies(ModelIdRequired, c, p.inference) && !InferenceApplies(ModelFamilyDenied, c, p.inference)
        && !InferenceApplies(ModelIdDenied, c, p.inference)
        && (!InferenceApplies(GatewayNotAllowed, c, p.inference) || IsLocal(c))
  {
    var inf, inf' := p.inference, ExtendWithLocal(p).inference;
    ListedAppend(GetOr(c.gateway, ""), inf.allowedGateways, "local");
    assert InferenceApplies(ModelIdRequired, c, inf') == InferenceApplies(ModelIdRequired, c, inf);
    assert InferenceApplies(ModelFamilyDenied, c, inf') == InferenceApplies(ModelFamilyDenied, c, inf);
    assert InferenceApplies(ModelIdDenied, c, inf') == InferenceApplies(ModelIdDenied, c, inf);
  }

  /** Extending a policy that restricts gateways loosens it. */
  lemma ExtensionLoosens(ct: Contract, p: Policy)
    requires ct.riskClass in p.riskLcb
    requires p.inference.allowedGateways != []
    ensures Looser(ct, p, ct, ExtendWithLocal(p))
  {
    forall c | InferenceAllowed(c, p.inference) ensures InferenceAllowed(c, ExtendWithLocal(p).inference) {
      ExtensionRules(c, p);
    }
  }

  /** A plan the extension makes admissible uses a local worker or a local verifier. */
  lemma GainedPlansAreLocal(ct: Contract, p: Policy, w: Candidate, v: Option<Candidate>)
    requires ct.riskClass in p.riskLcb
    requires Admissible(ct, ExtendWithLocal(p), w, v) && !Admissible(ct, p, w, v)
    ensures p.inference.allowedGateways != []
    ensures (w.actionKind == "model" && IsLocal(w)) || (v.Some? && v.value.actionKind == "model" && IsLocal(v.value))
  {
    ExtensionRules(w, p);
    if v.Some? { ExtensionRules(v.value, p); }
  }

  /** The exception: an empty allow-list admits any gateway, and the extension then narrows it to the
      local one.  Exactly the plans whose model actions are all local survive. */
  lemma ExtensionOfEmptyAllowList(ct: Contract, p: Policy, w: Candidate, v: Option<Candidate>)
    requires ct.riskClass in p.riskLcb
    requires p.inference.allowedGateways == []
    ensures Admissible(ct, ExtendWithLocal(p), w, v) <==>
      && Admissible(ct, p, w, v)
      && (w.actionKind == "model" ==> IsLocal(w))
      && (v.Some? && v.value.actionKind == "model" ==> IsLocal(v.value))
  {
    ExtensionRules(w, p);
    if v.Some? { ExtensionRules(v.value, p); }
  }

  // ----- a plan lost by the extension -----

  function OpenPolicy(): Policy {
    Policy("1", map["low" := 0.5], map[], {}, [], Inference([], false, [], [], [], None))
  }

  function SmallTask(): Contract {
    Contract("t", "low", [], {}, "public", {}, {}, 0.0, 1000, 0)
  }

  /** A model reached through a gateway that is not local. */
  function RemoteModel(): Candidate {
    Candidate("m", "model", "f", {"execute"}, true, {}, {"public"}, Some("cloud"), Some("x"), 0.9, 100, map[])
  }

  lemma RemoteIsNotLocal()
    ensures !IsLocal(RemoteModel())
  {
    assert Lower("cloud")[0] == 'c' && Lower("local")[0] == 'l';
  }

  /** With an empty allow-list the remote model is admissible, and after the extension it is not. */
  lemma ExtensionCanLosePlans()
    ensures Admissible(SmallTask(), OpenPolicy(), RemoteModel(), None)
    ensures !Admissible(SmallTask(), ExtendWithLocal(OpenPolicy()), RemoteModel(), None)
  {
    RemoteIsNotLocal();
    ExtensionOfEmptyAllowList(SmallTask(), OpenPolicy(), RemoteModel(), None);
    assert SumCosts(RemoteModel(), []) == 0;
  }
}
