/** Route selection: the data of the routing kernel and what makes an action plan admissible.
    Costs are integers in units of 1e-8 USD, so rounding to eight places is the identity. */
module RoutingModel {
  import opened Base
  import opened Sorting

  datatype Candidate = Candidate(
    id: string,
    actionKind: string,
    providerFamily: string,
    roles: set<string>,
    available: bool,
    capabilities: set<string>,
    dataPolicies: set<string>,
    gateway: Option<string>,
    modelId: Option<string>,
    acceptanceLcb: real,
    latencyMs: int,
    costs: map<string, int>)

  datatype Criterion = Criterion(mandatory: bool, kind: string)

  datatype Contract = Contract(
    taskId: string,
    riskClass: string,
    criteria: seq<Criterion>,
    requiredCapabilities: set<string>,
    dataPolicy: string,
    allowedFamilies: set<string>,
    deniedFamilies: set<string>,
    requestedProbability: real,
    maxLatencyMs: int,
    maxCost: int)

  datatype LocalRouting = LocalRouting(
    baseUrlEnv: string,
    defaultBaseUrl: string,
    fallbacksManaged: bool,
    automaticSelection: bool,
    escalateToCloud: bool)

  datatype Inference = Inference(
    allowedGateways: seq<string>,
    explicitModelIdRequired: bool,
    forbiddenFamilies: seq<string>,
    forbiddenIds: seq<string>,
    forbiddenPrefixes: seq<string>,
    local: Option<LocalRouting>)

  datatype Policy = Policy(
    version: string,
    riskLcb: map<string, real>,
    missingBehavior: map<string, string>,
    independentFor: set<string>,
    costFields: seq<string>,
    inference: Inference)

  // ----- text -----

  function LowerChar(c: char): char {
    if 'A' <= c <= 'Z' then (c as int + 32) as char else c
  }

  function Lower(s: string): (r: string)
    ensures |r| == |s|
  {
    seq(|s|, i requires 0 <= i < |s| => LowerChar(s[i]))
  }

  /** Case-insensitive membership. */
  predicate Listed(s: string, list: seq<string>) {
    exists i :: 0 <= i < |list| && Lower(list[i]) == Lower(s)
  }

  predicate HasListedPrefix(s: string, prefixes: seq<string>) {
    exists i :: 0 <= i < |prefixes| && Lower(prefixes[i]) <= Lower(s)
  }

  // ----- constraints -----

  datatype Reason =
    | GatewayNotAllowed | ModelIdRequired | ModelFamilyDenied | ModelIdDenied
    | Unavailable | MissingCapabilities(names: seq<string>) | DataPolicyMismatch | ProviderNotAllowed | ProviderDenied
    | AcceptanceBelow(bound: real) | LatencyExceeded
    | NotAVerifier | VerifierNotIndependent | VerifierBelow(bound: real)
    | NoIndependentVerifier | PlanExceedsLimits | VerifierNotRanked

  function RequiredLcb(ct: Contract, p: Policy): real
    requires ct.riskClass in p.riskLcb
  {
    if p.riskLcb[ct.riskClass] >= ct.requestedProbability then p.riskLcb[ct.riskClass] else ct.requestedProbability
  }

  predicate MissingAcceptance(ct: Contract) {
    exists i :: 0 <= i < |ct.criteria| && ct.criteria[i].mandatory && ct.criteria[i].kind == "missing"
  }

  /** Gateway and model-identity constraints; they bind model actions only. */
  predicate InferenceApplies(r: Reason, c: Candidate, inf: Inference) {
    c.actionKind == "model" &&
    match r
    case GatewayNotAllowed => inf.allowedGateways != [] && !Listed(GetOr(c.gateway, ""), inf.allowedGateways)
    case ModelIdRequired => inf.explicitModelIdRequired && GetOr(c.modelId, "") == ""
    case ModelFamilyDenied => Listed(c.providerFamily, inf.forbiddenFamilies)
    case ModelIdDenied =>
      var id := GetOr(c.modelId, "");
      Listed(id, inf.forbiddenIds) || (id != "" && HasListedPrefix(id, inf.forbiddenPrefixes))
    case _ => false
  }

  ghost predicate BaseApplies(r: Reason, ct: Contract, c: Candidate, requiredLcb: real, p: Policy) {
    match r
    case GatewayNotAllowed => InferenceApplies(r, c, p.inference)
    case ModelIdRequired => InferenceApplies(r, c, p.inference)
    case ModelFamilyDenied => InferenceApplies(r, c, p.inference)
    case ModelIdDenied => InferenceApplies(r, c, p.inference)
    case Unavailable => !c.available
    case MissingCapabilities(names) => SortedIds(ct.requiredCapabilities - c.capabilities, names) && names != []
    case DataPolicyMismatch => ct.dataPolicy !in c.dataPolicies
    case ProviderNotAllowed => ct.allowedFamilies != {} && c.providerFamily !in ct.allowedFamilies
    case ProviderDenied => c.providerFamily in ct.deniedFamilies
    case AcceptanceBelow(bound) => c.acceptanceLcb < requiredLcb && bound == requiredLcb
    case LatencyExceeded => c.latencyMs > ct.maxLatencyMs
    case _ => false
  }

  predicate VerifierApplies(r: Reason, ct: Contract, worker: Candidate, v: Candidate, requiredLcb: real, p: Policy) {
    match r
    case GatewayNotAllowed => InferenceApplies(r, v, p.inference)
    case ModelIdRequired => InferenceApplies(r, v, p.inference)
    case ModelFamilyDenied => InferenceApplies(r, v, p.inference)
    case ModelIdDenied => InferenceApplies(r, v, p.inference)
    case NotAVerifier => "verify" !in v.roles
    case Unavailable => !v.available
    case VerifierNotIndependent => v.providerFamily == worker.providerFamily
    case DataPolicyMismatch => ct.dataPolicy !in v.dataPolicies
    case ProviderNotAllowed => ct.allowedFamilies != {} && v.providerFamily !in ct.allowedFamilies
    case ProviderDenied => v.providerFamily in ct.deniedFamilies
    case VerifierBelow(bound) => v.acceptanceLcb < requiredLcb && bound == requiredLcb
    case _ => false
  }

  /** No gateway or model-identity rule stands against the candidate. */
  predicate InferenceAllowed(c: Candidate, inf: Inference) {
    && !InferenceApplies(GatewayNotAllowed, c, inf)
    && !InferenceApplies(ModelIdRequired, c, inf)
    && !InferenceApplies(ModelFamilyDenied, c, inf)
    && !InferenceApplies(ModelIdDenied, c, inf)
  }

  predicate FamilyPermitted(ct: Contract, family: string) {
    (ct.allowedFamilies == {} || family in ct.allowedFamilies) && family !in ct.deniedFamilies
  }

  predicate WorkerEligible(ct: Contract, c: Candidate, requiredLcb: real, p: Policy) {
    && InferenceAllowed(c, p.inference)
    && c.available
    && ct.requiredCapabilities <= c.capabilities
    && ct.dataPolicy in c.dataPolicies
    && FamilyPermitted(ct, c.providerFamily)
    && c.acceptanceLcb >= requiredLcb
    && c.latencyMs <= ct.maxLatencyMs
  }

  predicate VerifierEligible(ct: Contract, worker: Candidate, v: Candidate, requiredLcb: real, p: Policy) {
    && InferenceAllowed(v, p.inference)
    && "verify" in v.roles
    && v.available
    && v.providerFamily != worker.providerFamily
    && ct.dataPolicy in v.dataPolicies
    && FamilyPermitted(ct, v.providerFamily)
    && v.acceptanceLcb >= requiredLcb
  }

  // ----- plans -----

  function SumCosts(c: Candidate, fields: seq<string>): int {
    if fields == [] then 0
    else SumCosts(c, fields[..|fields| - 1]) +
         var f := fields[|fields| - 1]; if f in c.costs then c.costs[f] else 0
  }

  function PlanCost(p: Policy, w: Candidate, v: Option<Candidate>): int {
    SumCosts(w, p.costFields) + if v.Some? then SumCosts(v.value, p.costFields) else 0
  }

  function PlanLatency(w: Candidate, v: Option<Candidate>): int {
    w.latencyMs + if v.Some? then v.value.latencyMs else 0
  }

  function PlanLcb(w: Candidate, v: Option<Candidate>): real {
    if v.Some? && v.value.acceptanceLcb < w.acceptanceLcb then v.value.acceptanceLcb else w.acceptanceLcb
  }

  datatype VerifierPart = VerifierPart(id: string, family: string, gateway: Option<string>, modelId: Option<string>)

  datatype Plan = Plan(
    actionId: string,
    actionKind: string,
    providerFamily: string,
    gateway: Option<string>,
    modelId: Option<string>,
    cost: int,
    acceptanceLcb: real,
    latencyMs: int,
    verifier: Option<VerifierPart>)

  function PlanOf(p: Policy, w: Candidate, v: Option<Candidate>): Plan {
    Plan(w.id, w.actionKind, w.providerFamily, w.gateway, w.modelId,
         PlanCost(p, w, v), PlanLcb(w, v), PlanLatency(w, v),
         if v.Some? then Some(VerifierPart(v.value.id, v.value.providerFamily, v.value.gateway, v.value.modelId)) else None)
  }

  predicate NeedsVerifier(ct: Contract, p: Policy) { ct.riskClass in p.independentFor }

  /** A worker, with an independent verifier exactly when the risk class calls for one, that meets
      every hard constraint. */
  predicate Admissible(ct: Contract, p: Policy, w: Candidate, v: Option<Candidate>)
    requires ct.riskClass in p.riskLcb
  {
    && "execute" in w.roles
    && WorkerEligible(ct, w, RequiredLcb(ct, p), p)
    && (v.Some? <==> NeedsVerifier(ct, p))
    && (v.Some? ==> VerifierEligible(ct, w, v.value, RequiredLcb(ct, p), p))
    && PlanCost(p, w, v) <= ct.maxCost
    && PlanLatency(w, v) <= ct.maxLatencyMs
  }

  /** The ranking: cheaper, then faster, then better accepted. */
  predicate PlanLeq(a: Plan, b: Plan) {
    a.cost < b.cost
    || (a.cost == b.cost && (a.latencyMs < b.latencyMs
                             || (a.latencyMs == b.latencyMs && a.acceptanceLcb >= b.acceptanceLcb)))
  }

  datatype Audit = Audit(candidateId: string, admissible: bool, reasons: seq<Reason>)

  datatype Status = EscalationRequired | Rejected | ClarificationRequired | RouteSelected

  datatype Decision = Decision(
    decisionId: string,
    taskId: string,
    status: Status,
    policyVersion: string,
    requiredLcb: real,
    selected: Option<Plan>,
    fallbacks: seq<Plan>,
    audit: seq<Audit>,
    explanation: string)

  const NO_ROUTE: string := "No admissible route exists; fail-closed escalation is required."
  const LEAST_COST: string := "Selected the least-cost plan after all hard constraints passed."

  function MissingExplanation(behavior: string): string {
    "Mandatory acceptance criteria are missing; policy requires " + behavior + "."
  }
}

/** The selection itself, and the proof that it is the ranked list of admissible plans. */
module Routing {
  import opened Base
  import opened Sorting
  import opened RoutingModel

  /** Positions in the candidate list: a worker and possibly a verifier. */
  datatype Choice = Choice(w: nat, v: Option<nat>)

  /** The order of the nested loops. */
  predicate Before(a: Choice, b: Choice) {
    a.w < b.w || (a.w == b.w && (if a.v.None? then b.v.Some? else b.v.Some? && a.v.value < b.v.value))
  }

  function At(cs: seq<Candidate>, i: Option<nat>): Option<Candidate>
    requires i.Some? ==> i.value < |cs|
  {
    if i.Some? then Some(cs[i.value]) else None
  }

  predicate InRange(cs: seq<Candidate>, ch: Choice) {
    ch.w < |cs| && (ch.v.Some? ==> ch.v.value < |cs|)
  }

  predicate AdmissibleChoice(ct: Contract, p: Policy, cs: seq<Candidate>, ch: Choice)
    requires ct.riskClass in p.riskLcb
  {
    InRange(cs, ch) && Admissible(ct, p, cs[ch.w], At(cs, ch.v))
  }

  /** The plan a choice stands for; a choice out of range stands for none and is never used. */
  function ChoicePlan(p: Policy, cs: seq<Candidate>, ch: Choice): Plan {
    if InRange(cs, ch) then PlanOf(p, cs[ch.w], At(cs, ch.v))
    else Plan("", "", "", None, None, 0, 0.0, 0, None)
  }

  function PlansOf(p: Policy, cs: seq<Candidate>, chs: seq<Choice>): (r: seq<Plan>)
    ensures |r| == |chs| && forall i :: 0 <= i < |chs| ==> r[i] == ChoicePlan(p, cs, chs[i])
  {
    Map((ch: Choice) => ChoicePlan(p, cs, ch), chs)
  }

  lemma PlansAppend(p: Policy, cs: seq<Candidate>, a: seq<Choice>, b: seq<Choice>)
    ensures PlansOf(p, cs, a + b) == PlansOf(p, cs, a) + PlansOf(p, cs, b)
  {}

  /** The worker at `i` alone, then with each of the first `n` candidates as its verifier. */
  function PairsOf(i: nat, n: nat): (r: seq<Choice>)
    ensures |r| == n + 1
  {
    seq(n + 1, k => if k <= 0 then Choice(i, None) else Choice(i, Some(k - 1)))
  }

  /** All pairs with a worker position below `m`, in loop order. */
  function Pairs(m: nat, n: nat): seq<Choice> {
    if m == 0 then [] else Pairs(m - 1, n) + PairsOf(m - 1, n)
  }

  function Keep<T>(s: seq<T>, ok: T -> bool): seq<T> {
    if s == [] then [] else (if ok(s[0]) then [s[0]] else []) + Keep(s[1..], ok)
  }

  /** All admissible choices, in loop order. */
  function Choices(ct: Contract, p: Policy, cs: seq<Candidate>): seq<Choice>
    requires ct.riskClass in p.riskLcb
  {
    Keep(Pairs(|cs|, |cs|), (ch: Choice) => ct.riskClass in p.riskLcb && AdmissibleChoice(ct, p, cs, ch))
  }

  /** The admissible choices of one worker, in loop order. */
  function WorkerChoices(ct: Contract, p: Policy, cs: seq<Candidate>, w: nat): seq<Choice>
    requires ct.riskClass in p.riskLcb
  {
    Keep(PairsOf(w, |cs|), (ch: Choice) => ct.riskClass in p.riskLcb && AdmissibleChoice(ct, p, cs, ch))
  }

  lemma PairsOfExactly(i: nat, n: nat)
    ensures Chain(PairsOf(i, n), Before)
    ensures forall ch: Choice :: ch in PairsOf(i, n) <==> ch.w == i && (ch.v.Some? ==> ch.v.value < n)
  {
    forall ch: Choice | ch.w == i && (ch.v.Some? ==> ch.v.value < n) ensures ch in PairsOf(i, n) {
      assert PairsOf(i, n)[if ch.v.None? then 0 else ch.v.value + 1] == ch;
    }
  }

  lemma {:induction false} PairsExactly(m: nat, n: nat)
    ensures Chain(Pairs(m, n), Before)
    ensures forall ch :: ch in Pairs(m, n) <==> ch.w < m && (ch.v.Some? ==> ch.v.value < n)
  {
    if m > 0 {
      PairsExactly(m - 1, n);
      PairsOfExactly(m - 1, n);
      ChainAppend(Pairs(m - 1, n), PairsOf(m - 1, n), Before);
    }
  }

  lemma {:induction false} KeepExactly<T(!new)>(s: seq<T>, ok: T -> bool, lt: (T, T) -> bool)
    requires Chain(s, lt)
    ensures Chain(Keep(s, ok), lt)
    ensures forall x :: x in Keep(s, ok) <==> x in s && ok(x)
  {
    if s != [] {
      KeepExactly(s[1..], ok, lt);
      assert s == [s[0]] + s[1..];
      forall x | x in s[1..] ensures lt(s[0], x) {
        var k :| 0 <= k < |s[1..]| && s[1..][k] == x;
        assert s[k + 1] == x;
      }
      ChainAppend(if ok(s[0]) then [s[0]] else [], Keep(s[1..], ok), lt);
    }
  }

  lemma WorkerChoicesExactly(ct: Contract, p: Policy, cs: seq<Candidate>, w: nat)
    requires ct.riskClass in p.riskLcb
    ensures Chain(WorkerChoices(ct, p, cs, w), Before)
    ensures forall ch :: ch in WorkerChoices(ct, p, cs, w) <==> ch.w == w && AdmissibleChoice(ct, p, cs, ch)
  {
    PairsOfExactly(w, |cs|);
    KeepExactly(PairsOf(w, |cs|), (ch: Choice) => ct.riskClass in p.riskLcb && AdmissibleChoice(ct, p, cs, ch), Before);
  }

  lemma ChoicesExactly(ct: Contract, p: Policy, cs: seq<Candidate>)
    requires ct.riskClass in p.riskLcb
    ensures Chain(Choices(ct, p, cs), Before)
    ensures forall ch :: ch in Choices(ct, p, cs) <==> AdmissibleChoice(ct, p, cs, ch)
  {
    PairsExactly(|cs|, |cs|);
    KeepExactly(Pairs(|cs|, |cs|), (ch: Choice) => ct.riskClass in p.riskLcb && AdmissibleChoice(ct, p, cs, ch), Before);
  }

  lemma ChainAppend<T>(a: seq<T>, b: seq<T>, lt: (T, T) -> bool)
    requires Chain(a, lt) && Chain(b, lt)
    requires forall x, y :: x in a && y in b ==> lt(x, y)
    ensures Chain(a + b, lt)
  {
    forall i, j | 0 <= i < j < |a + b| ensures lt((a + b)[i], (a + b)[j]) {
      if i < |a| <= j { assert a[i] in a && b[j - |a|] in b; }
    }
  }

  /** Ranking of choices by the plan they stand for. */
  function ChoiceLeq(p: Policy, cs: seq<Candidate>): (Choice, Choice) -> bool {
    (a: Choice, b: Choice) => PlanLeq(ChoicePlan(p, cs, a), ChoicePlan(p, cs, b))
  }

  /** The admissible choices, best first. */
  function Ranked(ct: Contract, p: Policy, cs: seq<Candidate>): seq<Choice>
    requires ct.riskClass in p.riskLcb
  {
    Sort(Choices(ct, p, cs), ChoiceLeq(p, cs))
  }

  function RankedPlans(ct: Contract, p: Policy, cs: seq<Candidate>): seq<Plan>
    requires ct.riskClass in p.riskLcb
  {
    PlansOf(p, cs, Ranked(ct, p, cs))
  }

  lemma ChoiceOrder(p: Policy, cs: seq<Candidate>)
    ensures TotalPreorder(ChoiceLeq(p, cs))
    ensures StrictOrder(Before)
    ensures StrictOrder(Lex(ChoiceLeq(p, cs), Before))
  {}

  /** The ranked list holds every admissible choice and nothing else, once each, in the order of
      cost, latency and falling acceptance, with ties in candidate order. */
  lemma RankedExactly(ct: Contract, p: Policy, cs: seq<Candidate>)
    requires ct.riskClass in p.riskLcb
    ensures forall ch :: ch in Ranked(ct, p, cs) <==> AdmissibleChoice(ct, p, cs, ch)
    ensures Chain(Ranked(ct, p, cs), Lex(ChoiceLeq(p, cs), Before))
    ensures SortedBy(RankedPlans(ct, p, cs), PlanLeq)
  {
    var choices := Choices(ct, p, cs);
    ChoicesExactly(ct, p, cs);
    ChoiceOrder(p, cs);
    SortContents(choices, ChoiceLeq(p, cs));
    SortStable(choices, ChoiceLeq(p, cs), Before);
    var r, plans := Ranked(ct, p, cs), RankedPlans(ct, p, cs);
    forall i, j | 0 <= i < j < |plans| ensures PlanLeq(plans[i], plans[j]) {
      assert ChoiceLeq(p, cs)(r[i], r[j]);
    }
  }

  /** Any list with those properties is the ranked list. */
  lemma RankedUnique(ct: Contract, p: Policy, cs: seq<Candidate>, other: seq<Choice>)
    requires ct.riskClass in p.riskLcb
    requires forall ch :: ch in other <==> AdmissibleChoice(ct, p, cs, ch)
    requires Chain(other, Lex(ChoiceLeq(p, cs), Before))
    ensures other == Ranked(ct, p, cs)
  {
    RankedExactly(ct, p, cs);
    ChoiceOrder(p, cs);
    ChainUnique(other, Ranked(ct, p, cs), Lex(ChoiceLeq(p, cs), Before));
  }

  // ----- the procedure -----

  /** The order in which the code reports reasons. */
  function Position(r: Reason): nat {
    match r
    case GatewayNotAllowed => 0
    case ModelIdRequired => 1
    case ModelFamilyDenied => 2
    case ModelIdDenied => 3
    case NotAVerifier => 4
    case Unavailable => 5
    case MissingCapabilities(_) => 6
    case VerifierNotIndependent => 7
    case DataPolicyMismatch => 8
    case ProviderNotAllowed => 9
    case ProviderDenied => 10
    case AcceptanceBelow(_) => 11
    case VerifierBelow(_) => 12
    case LatencyExceeded => 13
    case _ => 14
  }

  predicate Sooner(a: Reason, b: Reason) { Position(a) < Position(b) }

  /** The list of exactly the reasons that apply, each once, in the order of the code. */
  ghost predicate Lists(reasons: seq<Reason>, applies: Reason -> bool) {
    Chain(reasons, Sooner) && forall r :: r in reasons <==> applies(r)
  }

  /** There is only one such list. */
  lemma ListsUnique(a: seq<Reason>, b: seq<Reason>, applies: Reason -> bool)
    requires Lists(a, applies) && Lists(b, applies)
    ensures a == b
  {
    ChainUnique(a, b, Sooner);
  }

  method InferencePolicyReasons(c: Candidate, inf: Inference) returns (reasons: seq<Reason>)
    ensures Lists(reasons, r => InferenceApplies(r, c, inf))
  {
    reasons := [];
    if c.actionKind != "model" { return; }
    reasons := Report(reasons, GatewayNotAllowed,
                      inf.allowedGateways != [] && !Listed(GetOr(c.gateway, ""), inf.allowedGateways));
    reasons := Report(reasons, ModelIdRequired, inf.explicitModelIdRequired && GetOr(c.modelId, "") == "");
    reasons := Report(reasons, ModelFamilyDenied, Listed(c.providerFamily, inf.forbiddenFamilies));
    var id := GetOr(c.modelId, "");
    reasons := Report(reasons, ModelIdDenied,
                      Listed(id, inf.forbiddenIds) || (id != "" && HasListedPrefix(id, inf.forbiddenPrefixes)));
  }

  /** Appends a reason if it applies; all earlier ones come before it in the code. */
  method Report(sofar: seq<Reason>, r: Reason, applies: bool) returns (reasons: seq<Reason>)
    requires Chain(sofar, Sooner) && forall x :: x in sofar ==> Sooner(x, r)
    ensures Chain(reasons, Sooner)
    ensures forall x :: x in reasons <==> x in sofar || (applies && x == r)
  {
    reasons := sofar;
    if applies { reasons := reasons + [r]; }
  }

  /** The data policy and provider rules, the same for workers and verifiers. */
  method GovernanceReasons(sofar: seq<Reason>, ct: Contract, c: Candidate) returns (reasons: seq<Reason>)
    requires Chain(sofar, Sooner) && forall x :: x in sofar ==> Sooner(x, DataPolicyMismatch)
    ensures Chain(reasons, Sooner)
    ensures forall r :: r in reasons <==>
      || r in sofar
      || (r == DataPolicyMismatch && ct.dataPolicy !in c.dataPolicies)
      || (r == ProviderNotAllowed && ct.allowedFamilies != {} && c.providerFamily !in ct.allowedFamilies)
      || (r == ProviderDenied && c.providerFamily in ct.deniedFamilies)
  {
    reasons := Report(sofar, DataPolicyMismatch, ct.dataPolicy !in c.dataPolicies);
    reasons := Report(reasons, ProviderNotAllowed, ct.allowedFamilies != {} && c.providerFamily !in ct.allowedFamilies);
    reasons := Report(reasons, ProviderDenied, c.providerFamily in ct.deniedFamilies);
  }

  method BaseReasons(ct: Contract, c: Candidate, requiredLcb: real, p: Policy) returns (reasons: seq<Reason>)
    ensures Lists(reasons, r => BaseApplies(r, ct, c, requiredLcb, p))
    ensures reasons == [] <==> WorkerEligible(ct, c, requiredLcb, p)
  {
    reasons := InferencePolicyReasons(c, p.inference);
    reasons := Report(reasons, Unavailable, !c.available);
    var missing := SortSet(ct.requiredCapabilities - c.capabilities);
    OneListMissing(ct.requiredCapabilities - c.capabilities, missing);
    reasons := Report(reasons, MissingCapabilities(missing), missing != []);
    reasons := GovernanceReasons(reasons, ct, c);
    reasons := Report(reasons, AcceptanceBelow(requiredLcb), c.acceptanceLcb < requiredLcb);
    reasons := Report(reasons, LatencyExceeded, c.latencyMs > ct.maxLatencyMs);
    EligibleIff(ct, c, requiredLcb, p, reasons);
  }

  lemma OneListMissing(ids: set<string>, missing: seq<string>)
    requires SortedIds(ids, missing)
    ensures forall names :: SortedIds(ids, names) ==> names == missing
  {
    forall names | SortedIds(ids, names) ensures names == missing { SortedIdsUnique(ids, names, missing); }
  }

  lemma NothingMissing(required: set<string>, has: set<string>, missing: seq<string>)
    requires SortedIds(required - has, missing)
    ensures missing == [] <==> required <= has
  {
    if missing != [] {
      assert missing[0] in missing;
    } else {
      forall x | x in required ensures x in has { assert x in required - has ==> x in missing; }
    }
  }

  lemma EligibleIff(ct: Contract, c: Candidate, requiredLcb: real, p: Policy, reasons: seq<Reason>)
    requires forall r :: r in reasons <==> BaseApplies(r, ct, c, requiredLcb, p)
    ensures reasons == [] <==> WorkerEligible(ct, c, requiredLcb, p)
  {
    if reasons != [] {
      assert BaseApplies(reasons[0], ct, c, requiredLcb, p);
      if reasons[0].MissingCapabilities? { NothingMissing(ct.requiredCapabilities, c.capabilities, reasons[0].names); }
    } else {
      assert !BaseApplies(GatewayNotAllowed, ct, c, requiredLcb, p);
      assert !BaseApplies(ModelIdRequired, ct, c, requiredLcb, p);
      assert !BaseApplies(ModelFamilyDenied, ct, c, requiredLcb, p);
      assert !BaseApplies(ModelIdDenied, ct, c, requiredLcb, p);
      assert !BaseApplies(Unavailable, ct, c, requiredLcb, p);
      var missing := SortedIdsExist(ct.requiredCapabilities - c.capabilities);
      assert !BaseApplies(MissingCapabilities(missing), ct, c, requiredLcb, p);
      NothingMissing(ct.requiredCapabilities, c.capabilities, missing);
      assert !BaseApplies(DataPolicyMismatch, ct, c, requiredLcb, p);
      assert !BaseApplies(ProviderNotAllowed, ct, c, requiredLcb, p);
      assert !BaseApplies(ProviderDenied, ct, c, requiredLcb, p);
      assert !BaseApplies(AcceptanceBelow(requiredLcb), ct, c, requiredLcb, p);
      assert !BaseApplies(LatencyExceeded, ct, c, requiredLcb, p);
    }
  }

  method VerifierReasons(ct: Contract, worker: Candidate, v: Candidate, requiredLcb: real, p: Policy)
    returns (reasons: seq<Reason>)
    ensures Lists(reasons, r => VerifierApplies(r, ct, worker, v, requiredLcb, p))
    ensures reasons == [] <==> VerifierEligible(ct, worker, v, requiredLcb, p)
  {
    reasons := InferencePolicyReasons(v, p.inference);
    reasons := Report(reasons, NotAVerifier, "verify" !in v.roles);
    reasons := Report(reasons, Unavailable, !v.available);
    reasons := Report(reasons, VerifierNotIndependent, v.providerFamily == worker.providerFamily);
    reasons := GovernanceReasons(reasons, ct, v);
    reasons := Report(reasons, VerifierBelow(requiredLcb), v.acceptanceLcb < requiredLcb);
    VerifierEligibleIff(ct, worker, v, requiredLcb, p, reasons);
  }

  lemma VerifierEligibleIff(ct: Contract, worker: Candidate, v: Candidate, requiredLcb: real, p: Policy, reasons: seq<Reason>)
    requires forall r :: r in reasons <==> VerifierApplies(r, ct, worker, v, requiredLcb, p)
    ensures reasons == [] <==> VerifierEligible(ct, worker, v, requiredLcb, p)
  {
    if reasons != [] {
      assert VerifierApplies(reasons[0], ct, worker, v, requiredLcb, p);
    } else {
      assert !VerifierApplies(GatewayNotAllowed, ct, worker, v, requiredLcb, p);
      assert !VerifierApplies(ModelIdRequired, ct, worker, v, requiredLcb, p);
      assert !VerifierApplies(ModelFamilyDenied, ct, worker, v, requiredLcb, p);
      assert !VerifierApplies(ModelIdDenied, ct, worker, v, requiredLcb, p);
      assert !VerifierApplies(NotAVerifier, ct, worker, v, requiredLcb, p);
      assert !VerifierApplies(Unavailable, ct, worker, v, requiredLcb, p);
      assert !VerifierApplies(VerifierNotIndependent, ct, worker, v, requiredLcb, p);
      assert !VerifierApplies(DataPolicyMismatch, ct, worker, v, requiredLcb, p);
      assert !VerifierApplies(ProviderNotAllowed, ct, worker, v, requiredLcb, p);
      assert !VerifierApplies(ProviderDenied, ct, worker, v, requiredLcb, p);
      assert !VerifierApplies(VerifierBelow(requiredLcb), ct, worker, v, requiredLcb, p);
    }
  }

  predicate HasRole(cs: seq<Candidate>, i: nat, role: string) { i < |cs| && role in cs[i].roles }

  /** The positions of the candidates with a role, in order. */
  ghost predicate RolePositions(cs: seq<Candidate>, role: string, positions: seq<nat>) {
    && (forall i: nat :: i in positions <==> HasRole(cs, i, role))
    && (forall i, j :: 0 <= i < j < |positions| ==> positions[i] < positions[j])
  }

  method WithRole(cs: seq<Candidate>, role: string) returns (positions: seq<nat>)
    ensures RolePositions(cs, role, positions)
  {
    positions := [];
    for i := 0 to |cs|
      invariant forall k: nat :: k in positions <==> k < i && HasRole(cs, k, role)
      invariant forall k, j :: 0 <= k < j < |positions| ==> positions[k] < positions[j]
    {
      assert forall k :: 0 <= k < |positions| ==> positions[k] in positions;
      if role in cs[i].roles { positions := positions + [i]; }
    }
  }

  /** The verifier options of a worker: just "none" when no independent verifier is called for. */
  ghost predicate IsOption(ct: Contract, p: Policy, cs: seq<Candidate>, w: nat, v: Option<nat>)
    requires ct.riskClass in p.riskLcb && w < |cs|
  {
    if NeedsVerifier(ct, p) then
      v.Some? && v.value < |cs| && VerifierEligible(ct, cs[w], cs[v.value], RequiredLcb(ct, p), p)
    else v.None?
  }

  ghost predicate OptionBefore(a: Option<nat>, b: Option<nat>) {
    if a.None? then b.Some? else b.Some? && a.value < b.value
  }

  method VerifierOptions(ct: Contract, p: Policy, cs: seq<Candidate>, verifiers: seq<nat>, w: nat, requiredLcb: real)
    returns (options: seq<Option<nat>>)
    requires ct.riskClass in p.riskLcb && w < |cs| && requiredLcb == RequiredLcb(ct, p)
    requires RolePositions(cs, "verify", verifiers)
    ensures forall v :: v in options <==> IsOption(ct, p, cs, w, v)
    ensures Chain(options, OptionBefore)
  {
    options := [None];
    if NeedsVerifier(ct, p) {
      options := [];
      var n := 0;
      while n < |verifiers|
        invariant n <= |verifiers|
        invariant forall v :: v in options <==>
          IsOption(ct, p, cs, w, v) && v.value in verifiers[..n]
        invariant Chain(options, OptionBefore)
      {
        assert verifiers[n] in verifiers;
        assert forall i :: i in verifiers[..n + 1] <==> i in verifiers[..n] || i == verifiers[n];
        assert forall i :: i in verifiers[..n] ==> i < verifiers[n];
        var reasons := VerifierReasons(ct, cs[w], cs[verifiers[n]], requiredLcb, p);
        if reasons == [] { options := options + [Some(verifiers[n])]; }
        n := n + 1;
      }
      assert verifiers[..n] == verifiers;
    }
  }

  /** The admissible choices of the worker at `w` with the given verifier options, in loop order. */
  ghost predicate ChosenWith(ct: Contract, p: Policy, cs: seq<Candidate>, w: nat, options: seq<Option<nat>>, chosen: seq<Choice>)
    requires ct.riskClass in p.riskLcb
  {
    Chain(chosen, Before) && forall ch :: ch in chosen <==> ch.w == w && ch.v in options && AdmissibleChoice(ct, p, cs, ch)
  }

  lemma ChosenWithMore(ct: Contract, p: Policy, cs: seq<Candidate>, w: nat, options: seq<Option<nat>>, chosen: seq<Choice>,
                       v: Option<nat>, more: seq<Choice>)
    requires ct.riskClass in p.riskLcb
    requires ChosenWith(ct, p, cs, w, options, chosen) && forall u :: u in options ==> OptionBefore(u, v)
    requires more == if AdmissibleChoice(ct, p, cs, Choice(w, v)) then [Choice(w, v)] else []
    ensures ChosenWith(ct, p, cs, w, options + [v], chosen + more)
  {
    forall x, y | x in chosen && y in more ensures Before(x, y) { assert x.v in options; }
    ChainAppend(chosen, more, Before);
  }

  /** The plans of one worker: the inner loop. */
  method WorkerPlans(ct: Contract, p: Policy, cs: seq<Candidate>, w: nat, options: seq<Option<nat>>)
    returns (plans: seq<Plan>)
    requires ct.riskClass in p.riskLcb && w < |cs|
    requires "execute" in cs[w].roles && WorkerEligible(ct, cs[w], RequiredLcb(ct, p), p)
    requires forall v :: v in options <==> IsOption(ct, p, cs, w, v)
    requires Chain(options, OptionBefore)
    ensures plans == PlansOf(p, cs, WorkerChoices(ct, p, cs, w))
  {
    plans := [];
    ghost var chosen: seq<Choice> := [];
    ghost var done: seq<Option<nat>> := [];
    var n := 0;
    while n < |options|
      invariant n <= |options| && done == options[..n]
      invariant ChosenWith(ct, p, cs, w, done, chosen)
      invariant plans == PlansOf(p, cs, chosen)
    {
      assert options[n] in options;
      assert forall v :: v in done ==> OptionBefore(v, options[n]);
      ghost var here := if AdmissibleChoice(ct, p, cs, Choice(w, options[n])) then [Choice(w, options[n])] else [];
      ChosenWithMore(ct, p, cs, w, done, chosen, options[n], here);
      var worker, verifier := cs[w], At(cs, options[n]);
      var totalCost := SumCosts(worker, p.costFields);
      var latency := worker.latencyMs;
      var planLcb := worker.acceptanceLcb;
      if verifier.Some? {
        totalCost := totalCost + SumCosts(verifier.value, p.costFields);
        latency := latency + verifier.value.latencyMs;
        planLcb := if verifier.value.acceptanceLcb < planLcb then verifier.value.acceptanceLcb else planLcb;
      }
      if totalCost <= ct.maxCost && latency <= ct.maxLatencyMs {
        var part := None;
        if verifier.Some? {
          part := Some(VerifierPart(verifier.value.id, verifier.value.providerFamily,
                                    verifier.value.gateway, verifier.value.modelId));
        }
        plans := plans + [Plan(worker.id, worker.actionKind, worker.providerFamily, worker.gateway,
                               worker.modelId, totalCost, planLcb, latency, part)];
      }
      chosen := chosen + here;
      done := done + [options[n]];
      n := n + 1;
    }
    assert done == options;
    AllOptionsChosen(ct, p, cs, w, options, chosen);
  }

  lemma AllOptionsChosen(ct: Contract, p: Policy, cs: seq<Candidate>, w: nat, options: seq<Option<nat>>, chosen: seq<Choice>)
    requires ct.riskClass in p.riskLcb && w < |cs|
    requires forall v :: v in options <==> IsOption(ct, p, cs, w, v)
    requires ChosenWith(ct, p, cs, w, options, chosen)
    ensures chosen == WorkerChoices(ct, p, cs, w)
  {
    WorkerChoicesExactly(ct, p, cs, w);
    forall ch: Choice | ch.w == w && AdmissibleChoice(ct, p, cs, ch) ensures ch in chosen {
      assert IsOption(ct, p, cs, w, ch.v);
    }
    ChainUnique(chosen, WorkerChoices(ct, p, cs, w), Before);
  }

  /** What the audit must say of the worker at position `w`. */
  ghost predicate Audited(ct: Contract, p: Policy, cs: seq<Candidate>, w: nat, a: Audit)
    requires ct.riskClass in p.riskLcb && w < |cs|
  {
    && a.candidateId == cs[w].id
    && (a.admissible <==> exists ch: Choice :: ch.w == w && AdmissibleChoice(ct, p, cs, ch))
    && (a.admissible <==> a.reasons == [])
    && (!WorkerEligible(ct, cs[w], RequiredLcb(ct, p), p) ==>
          Lists(a.reasons, r => ct.riskClass in p.riskLcb && w < |cs| && BaseApplies(r, ct, cs[w], RequiredLcb(ct, p), p)))
    && (WorkerEligible(ct, cs[w], RequiredLcb(ct, p), p) && !a.admissible ==>
          a.reasons == [if exists v :: IsOption(ct, p, cs, w, v) then PlanExceedsLimits else NoIndependentVerifier])
  }

  /** A worker has a choice when some admissible choice names it, and then it is eligible and has an option. */
  lemma SomeWorkerChoice(ct: Contract, p: Policy, cs: seq<Candidate>, w: nat)
    requires ct.riskClass in p.riskLcb && w < |cs|
    ensures WorkerChoices(ct, p, cs, w) != [] <==> exists ch: Choice :: ch.w == w && AdmissibleChoice(ct, p, cs, ch)
    ensures WorkerChoices(ct, p, cs, w) != [] ==>
      WorkerEligible(ct, cs[w], RequiredLcb(ct, p), p) && exists v :: IsOption(ct, p, cs, w, v)
  {
    WorkerChoicesExactly(ct, p, cs, w);
    var chosen := WorkerChoices(ct, p, cs, w);
    if chosen != [] {
      assert chosen[0] in chosen;
      assert IsOption(ct, p, cs, w, chosen[0].v);
    }
  }

  /** One round of the outer loop. */
  method AssessWorker(ct: Contract, p: Policy, cs: seq<Candidate>, verifiers: seq<nat>, w: nat, requiredLcb: real)
    returns (plans: seq<Plan>, audit: Audit)
    requires ct.riskClass in p.riskLcb && w < |cs| && requiredLcb == RequiredLcb(ct, p)
    requires "execute" in cs[w].roles
    requires RolePositions(cs, "verify", verifiers)
    ensures plans == PlansOf(p, cs, WorkerChoices(ct, p, cs, w))
    ensures Audited(ct, p, cs, w, audit)
  {
    plans := [];
    SomeWorkerChoice(ct, p, cs, w);
    var reasons := BaseReasons(ct, cs[w], requiredLcb, p);
    audit := Audit(cs[w].id, false, reasons);
    if reasons != [] { return; }
    var options := VerifierOptions(ct, p, cs, verifiers, w, requiredLcb);
    if options == [] {
      audit := audit.(reasons := audit.reasons + [NoIndependentVerifier]);
      return;
    }
    assert options[0] in options;
    plans := WorkerPlans(ct, p, cs, w, options);
    audit := audit.(admissible := plans != []);
    if plans == [] { audit := audit.(reasons := audit.reasons + [PlanExceedsLimits]); }
  }

  /** The complete decision; `FullyAudited` says what its audit holds. */
  ghost predicate Decides(ct: Contract, cs: seq<Candidate>, p: Policy, d: Decision)
    requires ct.riskClass in p.riskLcb
    requires MissingAcceptance(ct) ==> ct.riskClass in p.missingBehavior
  {
    && d.decisionId == "route-" + ct.taskId && d.taskId == ct.taskId && d.policyVersion == p.version && d.requiredLcb == RequiredLcb(ct, p)
    && if MissingAcceptance(ct) then
         && d.status == (if p.missingBehavior[ct.riskClass] == "rejected_until_specified" then Rejected
                         else ClarificationRequired)
         && d.selected == None && d.fallbacks == [] && d.audit == []
         && d.explanation == MissingExplanation(p.missingBehavior[ct.riskClass])
       else
         var ranked := RankedPlans(ct, p, cs);
         if ranked == [] then
           d.status == EscalationRequired && d.selected == None && d.fallbacks == [] && d.explanation == NO_ROUTE
         else
           && d.status == RouteSelected && d.selected == Some(ranked[0]) && d.fallbacks == ranked[1..]
           && d.explanation == LEAST_COST
  }

  /** The audit has one entry for every worker, in order, then one for every verifier, in order. */
  ghost predicate FullyAudited(ct: Contract, cs: seq<Candidate>, p: Policy, workers: seq<nat>, verifiers: seq<nat>, audit: seq<Audit>)
    requires ct.riskClass in p.riskLcb
  {
    && (forall i :: 0 <= i < |workers| ==> workers[i] < |cs|)
    && (forall i :: 0 <= i < |verifiers| ==> verifiers[i] < |cs|)
    && |audit| == |workers| + |verifiers|
    && (forall i :: 0 <= i < |workers| ==> Audited(ct, p, cs, workers[i], audit[i]))
    && (forall i :: 0 <= i < |verifiers| ==>
          audit[|workers| + i] == Audit(cs[verifiers[i]].id, false, [VerifierNotRanked]))
  }

  method SelectRoute(ct: Contract, cs: seq<Candidate>, p: Policy)
    returns (d: Decision, ghost workers: seq<nat>, ghost verifiers: seq<nat>)
    requires ct.riskClass in p.riskLcb
    requires MissingAcceptance(ct) ==> ct.riskClass in p.missingBehavior
    ensures Decides(ct, cs, p, d)
    ensures RolePositions(cs, "execute", workers) && RolePositions(cs, "verify", verifiers)
    ensures !MissingAcceptance(ct) ==> FullyAudited(ct, cs, p, workers, verifiers, d.audit)
  {
    var requiredLcb := RequiredLcb(ct, p);
    d := Decision("route-" + ct.taskId, ct.taskId, EscalationRequired, p.version, requiredLcb, None, [], [], NO_ROUTE);
    var workerList := WithRole(cs, "execute");
    var verifierList := WithRole(cs, "verify");
    workers, verifiers := workerList, verifierList;
    if MissingAcceptance(ct) {
      var behavior := p.missingBehavior[ct.riskClass];
      d := d.(status := if behavior == "rejected_until_specified" then Rejected else ClarificationRequired,
              explanation := MissingExplanation(behavior));
      return;
    }
    var plans, audit := CollectPlans(ct, cs, p, workerList, verifierList, requiredLcb);
    d := d.(audit := audit);
    if plans == [] {
      SortContents(Choices(ct, p, cs), ChoiceLeq(p, cs));
      return;
    }
    SortedPlans(ct, p, cs);
    plans := Sort(plans, PlanLeq);
    d := d.(status := RouteSelected, selected := Some(plans[0]), fallbacks := plans[1..], explanation := LEAST_COST);
  }

  lemma SortedPlans(ct: Contract, p: Policy, cs: seq<Candidate>)
    requires ct.riskClass in p.riskLcb
    ensures Sort(PlansOf(p, cs, Choices(ct, p, cs)), PlanLeq)
         == RankedPlans(ct, p, cs)
    ensures |RankedPlans(ct, p, cs)| == |Choices(ct, p, cs)|
  {
    SortMap((ch: Choice) => ChoicePlan(p, cs, ch), Choices(ct, p, cs), PlanLeq, ChoiceLeq(p, cs));
    SortContents(Choices(ct, p, cs), ChoiceLeq(p, cs));
  }

  /** The outer loop over the workers, and the audit entries of the verifiers. */
  method CollectPlans(ct: Contract, cs: seq<Candidate>, p: Policy, workers: seq<nat>, verifiers: seq<nat>, requiredLcb: real)
    returns (plans: seq<Plan>, audit: seq<Audit>)
    requires ct.riskClass in p.riskLcb && requiredLcb == RequiredLcb(ct, p)
    requires RolePositions(cs, "execute", workers)
    requires RolePositions(cs, "verify", verifiers)
    ensures plans == PlansOf(p, cs, Choices(ct, p, cs))
    ensures FullyAudited(ct, cs, p, workers, verifiers, audit)
  {
    var workerAudit;
    plans, workerAudit := AssessWorkers(ct, cs, p, workers, verifiers, requiredLcb);
    var verifierAudit := AuditVerifiers(cs, verifiers);
    audit := workerAudit + verifierAudit;
    assert forall i :: 0 <= i < |workers| ==> audit[i] == workerAudit[i];
    assert forall i :: 0 <= i < |verifiers| ==> audit[|workers| + i] == verifierAudit[i];
  }

  /** The admissible choices of the given workers, in loop order. */
  ghost predicate ChosenFor(ct: Contract, p: Policy, cs: seq<Candidate>, workers: seq<nat>, chosen: seq<Choice>)
    requires ct.riskClass in p.riskLcb
  {
    Chain(chosen, Before) && forall ch :: ch in chosen <==> ch.w in workers && AdmissibleChoice(ct, p, cs, ch)
  }

  lemma ChosenForMore(ct: Contract, p: Policy, cs: seq<Candidate>, workers: seq<nat>, chosen: seq<Choice>, w: nat, more: seq<Choice>)
    requires ct.riskClass in p.riskLcb
    requires ChosenFor(ct, p, cs, workers, chosen) && forall i :: i in workers ==> i < w
    requires Chain(more, Before) && forall ch :: ch in more <==> ch.w == w && AdmissibleChoice(ct, p, cs, ch)
    ensures ChosenFor(ct, p, cs, workers + [w], chosen + more)
  {
    forall x, y | x in chosen && y in more ensures Before(x, y) { assert x.w in workers; }
    ChainAppend(chosen, more, Before);
  }

  ghost predicate WorkersAudited(ct: Contract, p: Policy, cs: seq<Candidate>, workers: seq<nat>, audit: seq<Audit>)
    requires ct.riskClass in p.riskLcb
  {
    |audit| == |workers| && forall i :: 0 <= i < |workers| ==> workers[i] < |cs| && Audited(ct, p, cs, workers[i], audit[i])
  }

  lemma WorkersAuditedMore(ct: Contract, p: Policy, cs: seq<Candidate>, workers: seq<nat>, audit: seq<Audit>, w: nat, entry: Audit)
    requires ct.riskClass in p.riskLcb && w < |cs|
    requires WorkersAudited(ct, p, cs, workers, audit) && Audited(ct, p, cs, w, entry)
    ensures WorkersAudited(ct, p, cs, workers + [w], audit + [entry])
  {}

  method AssessWorkers(ct: Contract, cs: seq<Candidate>, p: Policy, workers: seq<nat>, verifiers: seq<nat>, requiredLcb: real)
    returns (plans: seq<Plan>, audit: seq<Audit>)
    requires ct.riskClass in p.riskLcb && requiredLcb == RequiredLcb(ct, p)
    requires RolePositions(cs, "execute", workers)
    requires RolePositions(cs, "verify", verifiers)
    ensures plans == PlansOf(p, cs, Choices(ct, p, cs))
    ensures WorkersAudited(ct, p, cs, workers, audit)
  {
    plans, audit := [], [];
    ghost var chosen: seq<Choice> := [];
    var n := 0;
    while n < |workers|
      invariant n <= |workers|
      invariant ChosenFor(ct, p, cs, workers[..n], chosen)
      invariant plans == PlansOf(p, cs, chosen)
      invariant WorkersAudited(ct, p, cs, workers[..n], audit)
    {
      var w := workers[n];
      ghost var done := workers[..n];
      NextPosition(cs, "execute", workers, n);
      var more, entry := AssessWorker(ct, p, cs, verifiers, w, requiredLcb);
      ghost var chosenHere := WorkerChoices(ct, p, cs, w);
      WorkerChoicesExactly(ct, p, cs, w);
      ChosenForMore(ct, p, cs, done, chosen, w, chosenHere);
      WorkersAuditedMore(ct, p, cs, done, audit, w, entry);
      PlansAppend(p, cs, chosen, chosenHere);
      chosen := chosen + chosenHere;
      plans := plans + more;
      audit := audit + [entry];
      n := n + 1;
    }
    assert workers[..n] == workers;
    AllWorkersChosen(ct, p, cs, workers, chosen);
  }

  lemma NextPosition(cs: seq<Candidate>, role: string, positions: seq<nat>, n: nat)
    requires RolePositions(cs, role, positions) && n < |positions|
    ensures HasRole(cs, positions[n], role)
    ensures positions[..n + 1] == positions[..n] + [positions[n]]
    ensures forall i :: i in positions[..n] ==> i < positions[n]
  {
    assert positions[n] in positions;
  }

  lemma AllWorkersChosen(ct: Contract, p: Policy, cs: seq<Candidate>, workers: seq<nat>, chosen: seq<Choice>)
    requires ct.riskClass in p.riskLcb
    requires RolePositions(cs, "execute", workers) && ChosenFor(ct, p, cs, workers, chosen)
    ensures chosen == Choices(ct, p, cs)
  {
    forall ch | AdmissibleChoice(ct, p, cs, ch) ensures ch.w in workers {
      assert HasRole(cs, ch.w, "execute");
    }
    ChoicesExactly(ct, p, cs);
    ChainUnique(chosen, Choices(ct, p, cs), Before);
  }

  /** Verifiers are listed in the audit but never ranked. */
  method AuditVerifiers(cs: seq<Candidate>, verifiers: seq<nat>) returns (audit: seq<Audit>)
    requires RolePositions(cs, "verify", verifiers)
    ensures |audit| == |verifiers|
    ensures forall i :: 0 <= i < |verifiers| ==>
      verifiers[i] < |cs| && audit[i] == Audit(cs[verifiers[i]].id, false, [VerifierNotRanked])
  {
    audit := [];
    var n := 0;
    while n < |verifiers|
      invariant n <= |verifiers| && |audit| == n
      invariant forall i :: 0 <= i < n ==>
        verifiers[i] < |cs| && audit[i] == Audit(cs[verifiers[i]].id, false, [VerifierNotRanked])
    {
      assert verifiers[n] in verifiers;
      audit := audit + [Audit(cs[verifiers[n]].id, false, [VerifierNotRanked])];
      n := n + 1;
    }
  }
}
