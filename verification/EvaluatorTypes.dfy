/** The evaluator result record and the JSON values it is exchanged as. */
module Json {
  datatype Json =
    | Null
    | Bool(b: bool)
    | Int(i: int)
    | Real(r: real)
    | Str(s: string)
    | Arr(items: seq<Json>)
    | Obj(fields: map<string, Json>)
}

module EvaluatorTypes {
  import opened Base
  import opened Json

  datatype EvidenceRef = EvidenceRef(ref: string, kind: string, description: string)

  datatype Finding = Finding(
    id: string,
    severity: string,
    kind: string,
    subject: string,
    description: string,
    evidenceRefs: seq<EvidenceRef>,
    provenanceRefs: seq<string>,
    uncertainty: string,
    recommendedAction: string,
    rationale: string)

  datatype NextAction = NextAction(kind: string, targetPhase: Option<string>, message: string)

  datatype EvaluatorInfo = EvaluatorInfo(id: string, version: string, name: string, url: string)

  datatype EscalationTrigger = EscalationTrigger(condition: string, escalateTo: string)

  datatype TierEstimate = TierEstimate(tokens: int, costUsd: real)

  datatype ModelRouting = ModelRouting(
    recommendedTier: string,
    reason: string,
    escalationTriggers: seq<EscalationTrigger>,
    estimatedTokens: int,
    estimatedCostUsd: real,
    tierBreakdown: map<string, TierEstimate>)

  datatype EvaluatorMetadata = EvaluatorMetadata(
    timestamp: string,
    durationMs: int,
    artifactsEvaluated: seq<string>,
    model: Option<string>,
    deterministic: bool)

  datatype EvaluatorResult = EvaluatorResult(
    evaluator: EvaluatorInfo,
    phase: string,
    outcome: string,
    findings: seq<Finding>,
    summary: string,
    nextAction: Option<NextAction>,
    modelRouting: Option<ModelRouting>,
    metadata: EvaluatorMetadata,
    state: map<string, Json>)

  const TIER_KEYS: set<string> := {"budget", "standard", "premium"}

  const VALID_OUTCOMES: set<string> := {"pass", "warn", "iterate", "clarify", "gather_evidence", "block"}

  function Severities(findings: seq<Finding>): set<string> {
    set f | f in findings :: f.severity
  }

  /** The aggregate outcome of a list of findings. */
  function DeriveOutcome(findings: seq<Finding>): string {
    if "critical" in Severities(findings) then "block"
    else if "high" in Severities(findings) then "iterate"
    else if "medium" in Severities(findings) then "warn"
    else "pass"
  }

  ghost predicate SomeFinding(findings: seq<Finding>, severity: string) {
    exists f :: f in findings && f.severity == severity
  }

  /** The derived outcome by name: the worst severity that counts decides. */
  lemma DerivedByName(findings: seq<Finding>)
    ensures var o := DeriveOutcome(findings);
      && (o == "block" <==> SomeFinding(findings, "critical"))
      && (o == "iterate" <==> !SomeFinding(findings, "critical") && SomeFinding(findings, "high"))
      && (o == "warn" <==> !SomeFinding(findings, "critical") && !SomeFinding(findings, "high") && SomeFinding(findings, "medium"))
      && (o == "pass" <==> forall s :: SomeFinding(findings, s) ==> s != "critical" && s != "high" && s != "medium")
  {
    SeverityListed(findings, "critical");
    SeverityListed(findings, "high");
    SeverityListed(findings, "medium");
    assert "block"[0] == 'b' && "iterate"[0] == 'i' && "warn"[0] == 'w' && "pass"[0] == 'p';
  }

  lemma SeverityListed(findings: seq<Finding>, s: string)
    ensures s in Severities(findings) <==> SomeFinding(findings, s)
  {}

  /** A target phase is passed on only for `iterate`. */
  lemma TargetOnlyForIterate(outcome: string, target: Option<string>)
    ensures var n := DeriveNextAction(outcome, target);
      n.kind == outcome && (outcome == "iterate" ==> n.targetPhase == target) && (outcome != "iterate" ==> n.targetPhase == None)
  {}

  function DeriveNextAction(outcome: string, targetPhase: Option<string>): NextAction {
    NextAction(outcome, if outcome == "iterate" then targetPhase else None, ActionMessage(outcome))
  }

  function ActionMessage(outcome: string): string {
    match outcome
    case "pass" => "All checks passed. Proceed to next phase."
    case "warn" => "Issues found but not blocking. Continue with warnings recorded."
    case "iterate" => "Issues require revisiting a prior phase."
    case "clarify" => "Ambiguities need human resolution. Pause for human input."
    case "gather_evidence" => "Insufficient evidence to decide. Pause for evidence collection."
    case "block" => "Hard blocker. Cannot proceed."
    case _ => ""
  }
}
