/** Serialisation of evaluator results: every class writes itself to a dictionary, leaving out fields
    at their defaults, and the loader reads the dictionary back. */
module ContractJson {
  import opened Base
  import Json
  import opened EvaluatorTypes

  /** The field names of the serialised records. */
  datatype Key =
    | KRef | KKind | KDescription | KId | KSeverity | KSubject | KEvidenceRefs
    | KProvenanceRefs | KUncertainty | KRecommendedAction | KRationale | KTargetPhase | KMessage | KVersion
    | KName | KUrl | KCondition | KEscalateTo | KEstimatedTokens | KEstimatedCostUsd | KRecommendedTier
    | KReason | KEscalationTriggers | KTierBreakdown | KTimestamp | KDurationMs | KArtifactsEvaluated | KModel
    | KDeterministic | KSchemaVersion | KEvaluator | KPhase | KOutcome | KFindings | KSummary
    | KNextAction | KModelRouting | KMetadata | KState

  /** A serialised value.  A dictionary is written as `Obj` when its keys are field names, as `Table` when
      they are tier or other names, and as `Opaque` when it is the state, whose keys are never looked up.
      Field names are not found in the last two, nor tier names in the first. */
  datatype Value =
    | Null
    | Str(s: string)
    | Int(i: int)
    | Real(r: real)
    | Bool(b: bool)
    | Arr(items: seq<Value>)
    | Obj(fields: Dict)
    | Table(rows: map<string, Value>)
    | Opaque(state: map<string, Json.Json>)

  type Dict = map<Key, Value>

  function Get(d: Dict, key: Key): Option<Value> { if key in d then Some(d[key]) else None }

  /** Writes a field, or leaves it out when it is at its default. */
  function Put(d: Dict, present: bool, key: Key, value: Value): (r: Dict)
    ensures forall k :: Get(r, k) == if present && k == key then Some(value) else Get(d, k)
  {
    if present then d[key := value] else d
  }

  function PutSome(d: Dict, key: Key, value: Option<Value>): (r: Dict)
    ensures forall k :: Get(r, k) == if value.Some? && k == key then value else Get(d, k)
  {
    if value.Some? then d[key := value.value] else d
  }

  function StrList(ss: seq<string>): (r: seq<Value>)
    ensures |r| == |ss| && forall i :: 0 <= i < |ss| ==> r[i] == Str(ss[i])
  {
    seq(|ss|, i requires 0 <= i < |ss| => Str(ss[i]))
  }

  function EvidenceDict(e: EvidenceRef): Dict {
    var d := map[KRef := Str(e.ref), KKind := Str(e.kind)];
    Put(d, e.description != "", KDescription, Str(e.description))
  }

  function EvidenceList(es: seq<EvidenceRef>): (r: seq<Value>)
    ensures |r| == |es| && forall i :: 0 <= i < |es| ==> r[i] == Obj(EvidenceDict(es[i]))
  {
    seq(|es|, i requires 0 <= i < |es| => Obj(EvidenceDict(es[i])))
  }

  function FindingBase(f: Finding): Dict {
    map[KId := Str(f.id), KSeverity := Str(f.severity), KKind := Str(f.kind), KSubject := Str(f.subject)]
  }

  function FindingDict(f: Finding): Dict {
    var d := Put(FindingBase(f), f.description != "", KDescription, Str(f.description));
    var d := Put(d, f.evidenceRefs != [], KEvidenceRefs, Arr(EvidenceList(f.evidenceRefs)));
    var d := Put(d, f.provenanceRefs != [], KProvenanceRefs, Arr(StrList(f.provenanceRefs)));
    var d := Put(d, f.uncertainty != "none", KUncertainty, Str(f.uncertainty));
    var d := Put(d, f.recommendedAction != "none", KRecommendedAction, Str(f.recommendedAction));
    Put(d, f.rationale != "", KRationale, Str(f.rationale))
  }

  function FindingList(fs: seq<Finding>): (r: seq<Value>)
    ensures |r| == |fs| && forall i :: 0 <= i < |fs| ==> r[i] == Obj(FindingDict(fs[i]))
  {
    seq(|fs|, i requires 0 <= i < |fs| => Obj(FindingDict(fs[i])))
  }

  function NextActionDict(n: NextAction): Dict {
    var d := map[KKind := Str(n.kind)];
    var d := Put(d, GetOr(n.targetPhase, "") != "", KTargetPhase, Str(GetOr(n.targetPhase, "")));
    Put(d, n.message != "", KMessage, Str(n.message))
  }

  function InfoDict(e: EvaluatorInfo): Dict {
    var d := map[KId := Str(e.id), KVersion := Str(e.version)];
    var d := Put(d, e.name != "", KName, Str(e.name));
    Put(d, e.url != "", KUrl, Str(e.url))
  }

  function TriggerDict(t: EscalationTrigger): Dict {
    map[KCondition := Str(t.condition), KEscalateTo := Str(t.escalateTo)]
  }

  function TriggerList(ts: seq<EscalationTrigger>): (r: seq<Value>)
    ensures |r| == |ts| && forall i :: 0 <= i < |ts| ==> r[i] == Obj(TriggerDict(ts[i]))
  {
    seq(|ts|, i requires 0 <= i < |ts| => Obj(TriggerDict(ts[i])))
  }

  function EstimateDict(t: TierEstimate): Dict {
    map[KEstimatedTokens := Int(t.tokens), KEstimatedCostUsd := Real(t.costUsd)]
  }

  function BreakdownTable(b: map<string, TierEstimate>): map<string, Value> {
    map k | k in b :: Obj(EstimateDict(b[k]))
  }

  function RoutingBase(m: ModelRouting): Dict {
    var d := map[KRecommendedTier := Str(m.recommendedTier)];
    var d := Put(d, m.reason != "", KReason, Str(m.reason));
    Put(d, m.escalationTriggers != [], KEscalationTriggers, Arr(TriggerList(m.escalationTriggers)))
  }

  function RoutingDict(m: ModelRouting): Dict {
    var d := RoutingBase(m);
    var d := Put(d, m.estimatedTokens != 0, KEstimatedTokens, Int(m.estimatedTokens));
    var d := Put(d, m.estimatedCostUsd != 0.0, KEstimatedCostUsd, Real(m.estimatedCostUsd));
    Put(d, m.tierBreakdown != map[], KTierBreakdown, Table(BreakdownTable(m.tierBreakdown)))
  }

  function MetadataDict(m: EvaluatorMetadata): Dict {
    var d := map[];
    var d := Put(d, m.timestamp != "", KTimestamp, Str(m.timestamp));
    var d := Put(d, m.durationMs != 0, KDurationMs, Int(m.durationMs));
    var d := Put(d, m.artifactsEvaluated != [], KArtifactsEvaluated, Arr(StrList(m.artifactsEvaluated)));
    var d := Put(d, GetOr(m.model, "") != "", KModel, Str(GetOr(m.model, "")));
    Put(d, true, KDeterministic, Bool(m.deterministic))
  }

  /** The metadata are written only when they carry a time. */
  predicate Timed(m: EvaluatorMetadata) { m.timestamp != "" || m.durationMs != 0 }

  function ResultBase(r: EvaluatorResult): Dict {
    map[KSchemaVersion := Str("1.0"), KEvaluator := Obj(InfoDict(r.evaluator)), KPhase := Str(r.phase),
        KOutcome := Str(r.outcome), KFindings := Arr(FindingList(r.findings))]
  }

  predicate IsExtra(k: Key) { k == KSummary || k == KNextAction || k == KModelRouting || k == KMetadata || k == KState }

  function ResultExtras(base: Dict, r: EvaluatorResult): (x: Dict)
    ensures forall k :: !IsExtra(k) ==> Get(x, k) == Get(base, k)
  {
    var d := Put(base, r.summary != "", KSummary, Str(r.summary));
    var d := PutSome(d, KNextAction, if r.nextAction.Some? then Some(Obj(NextActionDict(r.nextAction.value))) else None);
    var d := PutSome(d, KModelRouting, if r.modelRouting.Some? then Some(Obj(RoutingDict(r.modelRouting.value))) else None);
    var d := Put(d, Timed(r.metadata), KMetadata, Obj(MetadataDict(r.metadata)));
    Put(d, r.state != map[], KState, Opaque(r.state))
  }

  function ResultDict(r: EvaluatorResult): Dict { ResultExtras(ResultBase(r), r) }

  // ----- what is written, field by field -----

  /** The field is written exactly when it is to be, with the value. */
  ghost predicate Written(d: Dict, key: Key, present: bool, value: Value) {
    (key in d <==> present) && (present ==> d[key] == value)
  }

  lemma EvidenceWritten(e: EvidenceRef)
    ensures var d := EvidenceDict(e);
      && d.Keys <= {KRef, KKind, KDescription}
      && Written(d, KRef, true, Str(e.ref)) && Written(d, KKind, true, Str(e.kind))
      && Written(d, KDescription, e.description != "", Str(e.description))
  {}

  /** Everything beyond the four required fields of a finding is written only when it is not the default. */
  lemma FindingWritten(f: Finding)
    ensures var d := FindingDict(f);
      && Written(d, KId, true, Str(f.id)) && Written(d, KSeverity, true, Str(f.severity))
      && Written(d, KKind, true, Str(f.kind)) && Written(d, KSubject, true, Str(f.subject))
      && Written(d, KDescription, f.description != "", Str(f.description))
      && Written(d, KEvidenceRefs, f.evidenceRefs != [], Arr(EvidenceList(f.evidenceRefs)))
      && Written(d, KProvenanceRefs, f.provenanceRefs != [], Arr(StrList(f.provenanceRefs)))
      && Written(d, KUncertainty, f.uncertainty != "none", Str(f.uncertainty))
      && Written(d, KRecommendedAction, f.recommendedAction != "none", Str(f.recommendedAction))
      && Written(d, KRationale, f.rationale != "", Str(f.rationale))
    ensures FindingDict(f).Keys <= {KId, KSeverity, KKind, KSubject, KDescription, KEvidenceRefs, KProvenanceRefs, KUncertainty,
                                    KRecommendedAction, KRationale}
  {
    FindingBaseWritten(f);
    FindingTextsWritten(f);
    FindingListsWritten(f);
    FindingDefaultsWritten(f);
    FindingNoOthers(f);
  }

  lemma WrittenAlways(d: Dict, base: Dict, key: Key, value: Value)
    requires Get(d, key) == Get(base, key) && key in base && base[key] == value
    ensures Written(d, key, true, value)
  {}

  lemma FindingBaseWritten(f: Finding)
    ensures Written(FindingDict(f), KId, true, Str(f.id)) && Written(FindingDict(f), KSeverity, true, Str(f.severity))
    ensures Written(FindingDict(f), KKind, true, Str(f.kind)) && Written(FindingDict(f), KSubject, true, Str(f.subject))
  {
    var d, base := FindingDict(f), FindingBase(f);
    FindingBaseKept(f, KId);
    FindingBaseKept(f, KSeverity);
    FindingBaseKept(f, KKind);
    FindingBaseKept(f, KSubject);
    WrittenAlways(d, base, KId, Str(f.id));
    WrittenAlways(d, base, KSeverity, Str(f.severity));
    WrittenAlways(d, base, KKind, Str(f.kind));
    WrittenAlways(d, base, KSubject, Str(f.subject));
  }

  lemma FindingNoOthers(f: Finding)
    ensures FindingDict(f).Keys <= {KId, KSeverity, KKind, KSubject, KDescription, KEvidenceRefs, KProvenanceRefs, KUncertainty,
                                    KRecommendedAction, KRationale}
  {
    forall key | key in FindingDict(f) && key !in {KDescription, KEvidenceRefs, KProvenanceRefs, KUncertainty, KRecommendedAction, KRationale}
      ensures key in FindingBase(f)
    {
      FindingBaseKept(f, key);
    }
  }

  lemma FindingTextsWritten(f: Finding)
    ensures Written(FindingDict(f), KDescription, f.description != "", Str(f.description))
    ensures Written(FindingDict(f), KRationale, f.rationale != "", Str(f.rationale))
  {}

  lemma FindingListsWritten(f: Finding)
    ensures Written(FindingDict(f), KEvidenceRefs, f.evidenceRefs != [], Arr(EvidenceList(f.evidenceRefs)))
    ensures Written(FindingDict(f), KProvenanceRefs, f.provenanceRefs != [], Arr(StrList(f.provenanceRefs)))
  {
    FindingLists(f);
  }

  lemma FindingDefaultsWritten(f: Finding)
    ensures Written(FindingDict(f), KUncertainty, f.uncertainty != "none", Str(f.uncertainty))
    ensures Written(FindingDict(f), KRecommendedAction, f.recommendedAction != "none", Str(f.recommendedAction))
  {}

  lemma NextActionWritten(n: NextAction, key: Key)
    ensures var d := NextActionDict(n);
      match key
      case KKind => Written(d, key, true, Str(n.kind))
      case KTargetPhase => Written(d, key, n.targetPhase.Some? && n.targetPhase.value != "", Str(GetOr(n.targetPhase, "")))
      case KMessage => Written(d, key, n.message != "", Str(n.message))
      case _ => key !in d
  {}

  lemma InfoWritten(e: EvaluatorInfo, key: Key)
    ensures var d := InfoDict(e);
      match key
      case KId => Written(d, key, true, Str(e.id))
      case KVersion => Written(d, key, true, Str(e.version))
      case KName => Written(d, key, e.name != "", Str(e.name))
      case KUrl => Written(d, key, e.url != "", Str(e.url))
      case _ => key !in d
  {}

  lemma RoutingWritten(m: ModelRouting)
    ensures var d := RoutingDict(m);
      && Written(d, KRecommendedTier, true, Str(m.recommendedTier))
      && Written(d, KReason, m.reason != "", Str(m.reason))
      && Written(d, KEscalationTriggers, m.escalationTriggers != [], Arr(TriggerList(m.escalationTriggers)))
      && Written(d, KEstimatedTokens, m.estimatedTokens != 0, Int(m.estimatedTokens))
      && Written(d, KEstimatedCostUsd, m.estimatedCostUsd != 0.0, Real(m.estimatedCostUsd))
      && Written(d, KTierBreakdown, m.tierBreakdown != map[], Table(BreakdownTable(m.tierBreakdown)))
    ensures RoutingDict(m).Keys <=
      {KRecommendedTier, KReason, KEscalationTriggers, KEstimatedTokens, KEstimatedCostUsd, KTierBreakdown}
  {
    RoutingBaseWritten(m);
    RoutingBaseKept(m, KRecommendedTier);
    RoutingBaseKept(m, KReason);
    RoutingBaseKept(m, KEscalationTriggers);
    RoutingNumbersWritten(m);
    RoutingBreakdown(m);
    forall key | key in RoutingDict(m) && key !in {KEstimatedTokens, KEstimatedCostUsd, KTierBreakdown} ensures key in RoutingBase(m) {
      RoutingBaseKept(m, key);
    }
  }

  lemma RoutingBaseWritten(m: ModelRouting)
    ensures Written(RoutingBase(m), KRecommendedTier, true, Str(m.recommendedTier))
    ensures Written(RoutingBase(m), KReason, m.reason != "", Str(m.reason))
    ensures Written(RoutingBase(m), KEscalationTriggers, m.escalationTriggers != [], Arr(TriggerList(m.escalationTriggers)))
    ensures RoutingBase(m).Keys <= {KRecommendedTier, KReason, KEscalationTriggers}
  {}

  lemma RoutingNumbersWritten(m: ModelRouting)
    ensures Written(RoutingDict(m), KEstimatedTokens, m.estimatedTokens != 0, Int(m.estimatedTokens))
    ensures Written(RoutingDict(m), KEstimatedCostUsd, m.estimatedCostUsd != 0.0, Real(m.estimatedCostUsd))
  {}

  lemma MetadataWritten(m: EvaluatorMetadata)
    ensures var d := MetadataDict(m);
      && Written(d, KTimestamp, m.timestamp != "", Str(m.timestamp))
      && Written(d, KDurationMs, m.durationMs != 0, Int(m.durationMs))
      && Written(d, KArtifactsEvaluated, m.artifactsEvaluated != [], Arr(StrList(m.artifactsEvaluated)))
      && Written(d, KModel, m.model.Some? && m.model.value != "", Str(GetOr(m.model, "")))
      && Written(d, KDeterministic, true, Bool(m.deterministic))
    ensures MetadataDict(m).Keys <= {KTimestamp, KDurationMs, KArtifactsEvaluated, KModel, KDeterministic}
  {
    MetadataFieldsWritten(m);
    MetadataRestWritten(m);
  }

  lemma MetadataFieldsWritten(m: EvaluatorMetadata)
    ensures Written(MetadataDict(m), KTimestamp, m.timestamp != "", Str(m.timestamp))
    ensures Written(MetadataDict(m), KDurationMs, m.durationMs != 0, Int(m.durationMs))
    ensures Written(MetadataDict(m), KArtifactsEvaluated, m.artifactsEvaluated != [], Arr(StrList(m.artifactsEvaluated)))
  {}

  lemma MetadataRestWritten(m: EvaluatorMetadata)
    ensures Written(MetadataDict(m), KModel, m.model.Some? && m.model.value != "", Str(GetOr(m.model, "")))
    ensures Written(MetadataDict(m), KDeterministic, true, Bool(m.deterministic))
    ensures MetadataDict(m).Keys <= {KTimestamp, KDurationMs, KArtifactsEvaluated, KModel, KDeterministic}
  {}

  /** The dictionary of a result: five fields always, the others when there is something to say; the
      metadata only when they carry a time. */
  lemma ResultWritten(r: EvaluatorResult)
    ensures var d := ResultDict(r);
      && Written(d, KSchemaVersion, true, Str("1.0")) && Written(d, KEvaluator, true, Obj(InfoDict(r.evaluator)))
      && Written(d, KPhase, true, Str(r.phase)) && Written(d, KOutcome, true, Str(r.outcome))
      && Written(d, KFindings, true, Arr(FindingList(r.findings)))
      && Written(d, KSummary, r.summary != "", Str(r.summary))
      && (KNextAction in d <==> r.nextAction.Some?)
      && (r.nextAction.Some? ==> d[KNextAction] == Obj(NextActionDict(r.nextAction.value)))
      && (KModelRouting in d <==> r.modelRouting.Some?)
      && (r.modelRouting.Some? ==> d[KModelRouting] == Obj(RoutingDict(r.modelRouting.value)))
      && Written(d, KMetadata, r.metadata.timestamp != "" || r.metadata.durationMs != 0, Obj(MetadataDict(r.metadata)))
      && Written(d, KState, r.state != map[], Opaque(r.state))
    ensures ResultDict(r).Keys <= {KSchemaVersion, KEvaluator, KPhase, KOutcome, KFindings, KSummary, KNextAction, KModelRouting,
                                   KMetadata, KState}
  {
    ResultRequired(r);
    ResultSummaryWritten(r);
    ResultActions(r);
    ResultMetadata(r);
    ResultStateWritten(r);
    forall key | key in ResultDict(r) && !IsExtra(key) ensures key in ResultBase(r) { ExtrasKeep(r, key); }
  }

  lemma ExtrasKeep(r: EvaluatorResult, key: Key)
    requires !IsExtra(key)
    ensures Get(ResultDict(r), key) == Get(ResultBase(r), key)
  {}

  lemma ResultSummaryWritten(r: EvaluatorResult)
    ensures Written(ResultDict(r), KSummary, r.summary != "", Str(r.summary))
  {}

  lemma ResultStateWritten(r: EvaluatorResult)
    ensures Written(ResultDict(r), KState, r.state != map[], Opaque(r.state))
  {}

  // ----- reading -----

  /** What becomes of a read: the loader raises; or it goes on with a value of another type than the
      field's, which Python does not check; or it has the value. */
  datatype Read<T> = Raised | Untyped | Got(value: T)

  /** The entries of a dictionary by field name, None for a value that is no dictionary. */
  function DictOf(v: Value): Option<Dict> {
    match v
    case Obj(fields) => Some(fields)
    case Table(_) => Some(map[])
    case Opaque(_) => Some(map[])
    case _ => None
  }

  predicate IsDict(v: Value) { DictOf(v).Some? }

  /** Python's truth value. */
  predicate Truthy(v: Value) {
    match v
    case Null => false
    case Str(s) => s != ""
    case Int(i) => i != 0
    case Real(r) => r != 0.0
    case Bool(b) => b
    case Arr(items) => items != []
    case Obj(fields) => fields != map[]
    case Table(rows) => rows != map[]
    case Opaque(state) => state != map[]
  }

  /** The values that count as false: null, false, zero, and whatever is empty. */
  lemma FalsyExactly(v: Value)
    ensures !Truthy(v) <==> v == Null || v == Bool(false) || v == Int(0) || v == Real(0.0) || v == Str("") || v == Arr([])
                            || v == Obj(map[]) || v == Table(map[]) || v == Opaque(map[])
  {}

  /** `d[key]` for a text. */
  function Need(d: Dict, key: Key): Read<string> {
    if key !in d then Raised else if d[key].Str? then Got(d[key].s) else Untyped
  }

  /** `d.get(key, default)` for a text. */
  function TextOr(d: Dict, key: Key, default: string): Read<string> {
    if key in d then Need(d, key) else Got(default)
  }

  /** `d.get(key)` for a text. */
  function TextOrNone(d: Dict, key: Key): Read<Option<string>> {
    if key !in d || d[key].Null? then Got(None) else if d[key].Str? then Got(Some(d[key].s)) else Untyped
  }

  function IntOr(d: Dict, key: Key, default: int): Read<int> {
    if key !in d then Got(default) else if d[key].Int? then Got(d[key].i) else Untyped
  }

  function RealOr(d: Dict, key: Key, default: real): Read<real> {
    if key !in d then Got(default)
    else if d[key].Real? then Got(d[key].r) else if d[key].Int? then Got(d[key].i as real) else Untyped
  }

  function BoolOr(d: Dict, key: Key, default: bool): Read<bool> {
    if key !in d then Got(default) else if d[key].Bool? then Got(d[key].b) else Untyped
  }

  /** A list that is taken as it is. */
  function StringsOr(d: Dict, key: Key): Read<seq<string>> {
    if key !in d then Got([])
    else if d[key].Arr? && (forall j :: j in d[key].items ==> j.Str?) then
      Got(seq(|d[key].items|, i requires 0 <= i < |d[key].items| && d[key].items[i].Str? => d[key].items[i].s))
    else Untyped
  }

  function StateAt(d: Dict): Read<map<string, Json.Json>> {
    if KState !in d then Got(map[]) else if d[KState].Opaque? then Got(d[KState].state) else Untyped
  }

  /** Reads every element, raising if one raises. */
  function ReadAll<T>(js: seq<Value>, read: Value -> Read<T>): Read<seq<T>> {
    if js == [] then Got([])
    else
      var init, last := ReadAll(js[..|js| - 1], read), read(js[|js| - 1]);
      if init.Raised? || last.Raised? then Raised
      else if init.Got? && last.Got? then Got(init.value + [last.value]) else Untyped
  }

  /** `for x in d.get(key, [])`.  Text and dictionaries can be iterated too: over characters and keys,
      on which every reader here raises, so only empty ones pass. */
  function ReadItems<T>(v: Option<Value>, read: Value -> Read<T>): Read<seq<T>> {
    if v.None? then Got([])
    else
      match v.value
      case Arr(items) => ReadAll(items, read)
      case Str(s) => if s == "" then Got([]) else Raised
      case Obj(fields) => if fields == map[] then Got([]) else Raised
      case Table(rows) => if rows == map[] then Got([]) else Raised
      case Opaque(state) => if state == map[] then Got([]) else Raised
      case _ => Raised
  }

  /** A record that is read only if there is one and it is truthy. */
  function ReadOptional<T>(v: Option<Value>, read: Value -> Read<T>): Read<Option<T>> {
    if v.None? || !Truthy(v.value) then Got(None)
    else
      match read(v.value)
      case Raised => Raised
      case Untyped => Untyped
      case Got(x) => Got(Some(x))
  }

  function ReadEvidence(j: Value): Read<EvidenceRef> {
    match DictOf(j)
    case None => Raised
    case Some(d) =>
      var ref, kind, description := Need(d, KRef), Need(d, KKind), TextOr(d, KDescription, "");
      if ref.Raised? || kind.Raised? then Raised
      else if ref.Got? && kind.Got? && description.Got? then Got(EvidenceRef(ref.value, kind.value, description.value))
      else Untyped
  }

  function ReadFinding(j: Value): Read<Finding> {
    match DictOf(j)
    case None => Raised
    case Some(d) =>
      var refs := ReadItems(Get(d, KEvidenceRefs), ReadEvidence);
      var id, severity, kind, subject := Need(d, KId), Need(d, KSeverity), Need(d, KKind), Need(d, KSubject);
      if refs.Raised? || id.Raised? || severity.Raised? || kind.Raised? || subject.Raised? then Raised
      else FindingOf(id, severity, kind, subject, TextOr(d, KDescription, ""), refs, StringsOr(d, KProvenanceRefs),
                     TextOr(d, KUncertainty, "none"), TextOr(d, KRecommendedAction, "none"), TextOr(d, KRationale, ""))
  }

  function FindingOf(id: Read<string>, severity: Read<string>, kind: Read<string>, subject: Read<string>, description: Read<string>,
                     refs: Read<seq<EvidenceRef>>, provenance: Read<seq<string>>, uncertainty: Read<string>,
                     action: Read<string>, rationale: Read<string>): (r: Read<Finding>)
    ensures !r.Raised?
  {
    if id.Got? && severity.Got? && kind.Got? && subject.Got? && description.Got? && refs.Got? && provenance.Got?
       && uncertainty.Got? && action.Got? && rationale.Got? then
      Got(Finding(id.value, severity.value, kind.value, subject.value, description.value, refs.value, provenance.value,
                  uncertainty.value, action.value, rationale.value))
    else Untyped
  }

  function ReadNextAction(j: Value): Read<NextAction> {
    match DictOf(j)
    case None => Raised
    case Some(d) =>
      var kind, target, message := Need(d, KKind), TextOrNone(d, KTargetPhase), TextOr(d, KMessage, "");
      if kind.Raised? then Raised
      else if kind.Got? && target.Got? && message.Got? then Got(NextAction(kind.value, target.value, message.value)) else Untyped
  }

  function ReadInfo(j: Value): Read<EvaluatorInfo> {
    match DictOf(j)
    case None => Raised
    case Some(d) =>
      var id, version, name, url := Need(d, KId), Need(d, KVersion), TextOr(d, KName, ""), TextOr(d, KUrl, "");
      if id.Raised? || version.Raised? then Raised
      else if id.Got? && version.Got? && name.Got? && url.Got? then
        Got(EvaluatorInfo(id.value, version.value, name.value, url.value))
      else Untyped
  }

  function ReadTrigger(j: Value): Read<EscalationTrigger> {
    match DictOf(j)
    case None => Raised
    case Some(d) =>
      var condition, to := Need(d, KCondition), Need(d, KEscalateTo);
      if condition.Raised? || to.Raised? then Raised
      else if condition.Got? && to.Got? then Got(EscalationTrigger(condition.value, to.value)) else Untyped
  }

  function ReadEstimate(j: Value): Read<TierEstimate> {
    match DictOf(j)
    case None => Raised
    case Some(d) =>
      var tokens, cost := IntOr(d, KEstimatedTokens, 0), RealOr(d, KEstimatedCostUsd, 0.0);
      if tokens.Got? && cost.Got? then Got(TierEstimate(tokens.value, cost.value)) else Untyped
  }

  /** Python's `t in s` for texts. */
  predicate Contains(s: string, t: string) {
    t <= s || (s != "" && Contains(s[1..], t))
  }

  /** Only the three tier keys are read.  A list or text passes the membership test and then cannot be
      indexed. */
  function ReadBreakdown(v: Option<Value>): Read<map<string, TierEstimate>> {
    if v.None? then Got(map[])
    else
      match v.value
      case Table(rows) => ReadRows(rows)
      case Arr(items) => if exists k :: k in TIER_KEYS && Str(k) in items then Raised else Got(map[])
      case Str(s) => if exists k :: k in TIER_KEYS && Contains(s, k) then Raised else Got(map[])
      case Obj(_) => Got(map[])
      case Opaque(_) => Got(map[])
      case _ => Raised
  }

  function ReadRows(rows: map<string, Value>): Read<map<string, TierEstimate>> {
    if exists k :: k in TIER_KEYS && k in rows && ReadEstimate(rows[k]).Raised? then Raised
    else if forall k :: k in TIER_KEYS && k in rows ==> ReadEstimate(rows[k]).Got? then
      Got(map k | k in TIER_KEYS && k in rows :: ReadEstimate(rows[k]).value)
    else Untyped
  }

  function ReadRouting(j: Value): Read<ModelRouting> {
    match DictOf(j)
    case None => Raised
    case Some(d) =>
      var triggers := ReadItems(Get(d, KEscalationTriggers), ReadTrigger);
      var breakdown := ReadBreakdown(Get(d, KTierBreakdown));
      var tier, reason := Need(d, KRecommendedTier), TextOr(d, KReason, "");
      var tokens, cost := IntOr(d, KEstimatedTokens, 0), RealOr(d, KEstimatedCostUsd, 0.0);
      if triggers.Raised? || breakdown.Raised? || tier.Raised? then Raised
      else RoutingOf(tier, reason, triggers, tokens, cost, breakdown)
  }

  function RoutingOf(tier: Read<string>, reason: Read<string>, triggers: Read<seq<EscalationTrigger>>, tokens: Read<int>,
                     cost: Read<real>, breakdown: Read<map<string, TierEstimate>>): (r: Read<ModelRouting>)
    ensures !r.Raised?
  {
    if triggers.Got? && breakdown.Got? && tier.Got? && reason.Got? && tokens.Got? && cost.Got? then
      Got(ModelRouting(tier.value, reason.value, triggers.value, tokens.value, cost.value, breakdown.value))
    else Untyped
  }

  function ReadMetadata(v: Option<Value>): Read<EvaluatorMetadata> {
    match DictOf(GetOr(v, Obj(map[])))
    case None => Raised
    case Some(d) =>
      var timestamp, duration, artifacts := TextOr(d, KTimestamp, ""), IntOr(d, KDurationMs, 0), StringsOr(d, KArtifactsEvaluated);
      var model, deterministic := TextOrNone(d, KModel), BoolOr(d, KDeterministic, true);
      if timestamp.Got? && duration.Got? && artifacts.Got? && model.Got? && deterministic.Got? then
        Got(EvaluatorMetadata(timestamp.value, duration.value, artifacts.value, model.value, deterministic.value))
      else Untyped
  }

  /** Builds the result from what has been read. */
  function Assemble(evaluator: Read<EvaluatorInfo>, findings: Read<seq<Finding>>, action: Read<Option<NextAction>>,
                    routing: Read<Option<ModelRouting>>, metadata: Read<EvaluatorMetadata>, phase: Read<string>,
                    outcome: Read<string>, summary: Read<string>, state: Read<map<string, Json.Json>>): Read<EvaluatorResult>
  {
    if evaluator.Raised? || findings.Raised? || action.Raised? || routing.Raised? || metadata.Raised?
       || phase.Raised? || outcome.Raised? || summary.Raised? || state.Raised? then Raised
    else if evaluator.Got? && findings.Got? && action.Got? && routing.Got? && metadata.Got?
            && phase.Got? && outcome.Got? && summary.Got? && state.Got? then
      Got(EvaluatorResult(evaluator.value, phase.value, outcome.value, findings.value, summary.value,
                          action.value, routing.value, metadata.value, state.value))
    else Untyped
  }

  function FromDict(d: Dict): Read<EvaluatorResult> {
    Assemble(if KEvaluator in d then ReadInfo(d[KEvaluator]) else Raised,
             ReadItems(Get(d, KFindings), ReadFinding),
             ReadOptional(Get(d, KNextAction), ReadNextAction),
             ReadOptional(Get(d, KModelRouting), ReadRouting),
             ReadMetadata(Get(d, KMetadata)),
             Need(d, KPhase), Need(d, KOutcome), TextOr(d, KSummary, ""), StateAt(d))
  }

  // ----- reading back what was written -----

  lemma EvidenceBack(e: EvidenceRef)
    ensures ReadEvidence(Obj(EvidenceDict(e))) == Got(e)
  {
    var d := EvidenceDict(e);
    assert Get(d, KRef) == Some(Str(e.ref)) && Get(d, KKind) == Some(Str(e.kind));
    assert TextOr(d, KDescription, "") == Got(e.description);
  }

  lemma {:induction false} ReadAllBack<T>(js: seq<Value>, read: Value -> Read<T>, xs: seq<T>)
    requires |js| == |xs| && forall i :: 0 <= i < |xs| ==> read(js[i]) == Got(xs[i])
    ensures ReadAll(js, read) == Got(xs)
  {
    if xs != [] {
      ReadAllBack(js[..|js| - 1], read, xs[..|xs| - 1]);
      assert xs == xs[..|xs| - 1] + [xs[|xs| - 1]];
    }
  }

  /** A field that holds a list of texts, or is left out when the list is empty. */
  lemma StringsBack(d: Dict, key: Key, ss: seq<string>)
    requires Get(d, key) == if ss != [] then Some(Arr(StrList(ss))) else None
    ensures StringsOr(d, key) == Got(ss)
  {
    if ss != [] {
      assert forall j :: j in StrList(ss) ==> j.Str?;
      assert StringsOr(d, key).value == ss;
    }
  }

  lemma EvidenceItemsBack(es: seq<EvidenceRef>)
    ensures ReadItems(if es != [] then Some(Arr(EvidenceList(es))) else None, ReadEvidence) == Got(es)
  {
    forall i | 0 <= i < |es| ensures ReadEvidence(EvidenceList(es)[i]) == Got(es[i]) { EvidenceBack(es[i]); }
    ReadAllBack(EvidenceList(es), ReadEvidence, es);
  }

  lemma FindingBaseKept(f: Finding, key: Key)
    requires key !in {KDescription, KEvidenceRefs, KProvenanceRefs, KUncertainty, KRecommendedAction, KRationale}
    ensures Get(FindingDict(f), key) == Get(FindingBase(f), key)
  {}

  lemma FindingRequired(f: Finding)
    ensures var d := FindingDict(f);
      && Need(d, KId) == Got(f.id) && Need(d, KSeverity) == Got(f.severity)
      && Need(d, KKind) == Got(f.kind) && Need(d, KSubject) == Got(f.subject)
  {
    FindingBaseKept(f, KId);
    FindingBaseKept(f, KSeverity);
    FindingBaseKept(f, KKind);
    FindingBaseKept(f, KSubject);
  }

  lemma FindingLists(f: Finding)
    ensures Get(FindingDict(f), KEvidenceRefs) == if f.evidenceRefs != [] then Some(Arr(EvidenceList(f.evidenceRefs))) else None
    ensures Get(FindingDict(f), KProvenanceRefs) == if f.provenanceRefs != [] then Some(Arr(StrList(f.provenanceRefs))) else None
  {}

  lemma FindingTexts(f: Finding)
    ensures TextOr(FindingDict(f), KDescription, "") == Got(f.description)
    ensures TextOr(FindingDict(f), KRationale, "") == Got(f.rationale)
  {}

  lemma FindingDefaults(f: Finding)
    ensures TextOr(FindingDict(f), KUncertainty, "none") == Got(f.uncertainty)
    ensures TextOr(FindingDict(f), KRecommendedAction, "none") == Got(f.recommendedAction)
  {}

  lemma FindingBack(f: Finding)
    ensures ReadFinding(Obj(FindingDict(f))) == Got(f)
  {
    FindingRequired(f);
    FindingLists(f);
    FindingTexts(f);
    FindingDefaults(f);
    EvidenceItemsBack(f.evidenceRefs);
    StringsBack(FindingDict(f), KProvenanceRefs, f.provenanceRefs);
    FindingParts(f, FindingDict(f));
  }

  lemma FindingParts(f: Finding, d: Dict)
    requires Need(d, KId) == Got(f.id) && Need(d, KSeverity) == Got(f.severity)
    requires Need(d, KKind) == Got(f.kind) && Need(d, KSubject) == Got(f.subject)
    requires TextOr(d, KDescription, "") == Got(f.description) && TextOr(d, KRationale, "") == Got(f.rationale)
    requires TextOr(d, KUncertainty, "none") == Got(f.uncertainty) && TextOr(d, KRecommendedAction, "none") == Got(f.recommendedAction)
    requires ReadItems(Get(d, KEvidenceRefs), ReadEvidence) == Got(f.evidenceRefs)
    requires StringsOr(d, KProvenanceRefs) == Got(f.provenanceRefs)
    ensures ReadFinding(Obj(d)) == Got(f)
  {}

  lemma FindingsBack(fs: seq<Finding>)
    ensures ReadAll(FindingList(fs), ReadFinding) == Got(fs)
  {
    forall i | 0 <= i < |fs| ensures ReadFinding(FindingList(fs)[i]) == Got(fs[i]) { FindingBack(fs[i]); }
    ReadAllBack(FindingList(fs), ReadFinding, fs);
  }

  /** A next action comes back unless its target phase is present but empty. */
  lemma NextActionBack(n: NextAction)
    ensures ReadNextAction(Obj(NextActionDict(n))).Got? && NextActionDict(n) != map[]
    ensures ReadNextAction(Obj(NextActionDict(n))) == Got(n) <==> n.targetPhase != Some("")
  {
    var d := NextActionDict(n);
    assert Get(d, KKind) == Some(Str(n.kind));
    assert TextOr(d, KMessage, "") == Got(n.message);
    assert TextOrNone(d, KTargetPhase) == Got(if GetOr(n.targetPhase, "") != "" then n.targetPhase else None);
  }

  lemma InfoBack(e: EvaluatorInfo)
    ensures ReadInfo(Obj(InfoDict(e))) == Got(e)
  {
    var d := InfoDict(e);
    assert Get(d, KId) == Some(Str(e.id)) && Get(d, KVersion) == Some(Str(e.version));
    assert TextOr(d, KName, "") == Got(e.name);
    assert TextOr(d, KUrl, "") == Got(e.url);
  }

  lemma TriggersBack(ts: seq<EscalationTrigger>)
    ensures ReadItems(if ts != [] then Some(Arr(TriggerList(ts))) else None, ReadTrigger) == Got(ts)
  {
    forall i | 0 <= i < |ts| ensures ReadTrigger(TriggerList(ts)[i]) == Got(ts[i]) { TriggerBack(ts[i]); }
    ReadAllBack(TriggerList(ts), ReadTrigger, ts);
  }

  lemma TriggerBack(t: EscalationTrigger)
    ensures ReadTrigger(Obj(TriggerDict(t))) == Got(t)
  {}

  lemma EstimateBack(t: TierEstimate)
    ensures ReadEstimate(Obj(EstimateDict(t))) == Got(t)
  {}

  /** A tier breakdown comes back exactly when all its keys are tier keys. */
  lemma BreakdownBack(b: map<string, TierEstimate>)
    ensures ReadRows(BreakdownTable(b)).Got?
    ensures ReadRows(BreakdownTable(b)) == Got(b) <==> b.Keys <= TIER_KEYS
  {
    forall k | k in b ensures ReadEstimate(BreakdownTable(b)[k]) == Got(b[k]) { EstimateBack(b[k]); }
    var r := ReadRows(BreakdownTable(b)).value;
    assert r.Keys == TIER_KEYS * b.Keys;
    if b.Keys <= TIER_KEYS { assert r.Keys == b.Keys && r == b; }
  }

  lemma RoutingFields(m: ModelRouting)
    ensures Need(RoutingDict(m), KRecommendedTier) == Got(m.recommendedTier)
    ensures TextOr(RoutingDict(m), KReason, "") == Got(m.reason)
    ensures Get(RoutingDict(m), KEscalationTriggers)
         == if m.escalationTriggers != [] then Some(Arr(TriggerList(m.escalationTriggers))) else None
  {
    RoutingBaseFields(m);
    RoutingBaseKept(m, KRecommendedTier);
    RoutingBaseKept(m, KReason);
    RoutingBaseKept(m, KEscalationTriggers);
  }

  lemma RoutingBaseFields(m: ModelRouting)
    ensures Need(RoutingBase(m), KRecommendedTier) == Got(m.recommendedTier)
    ensures TextOr(RoutingBase(m), KReason, "") == Got(m.reason)
    ensures Get(RoutingBase(m), KEscalationTriggers)
         == if m.escalationTriggers != [] then Some(Arr(TriggerList(m.escalationTriggers))) else None
  {}

  lemma RoutingBaseKept(m: ModelRouting, key: Key)
    requires key !in {KEstimatedTokens, KEstimatedCostUsd, KTierBreakdown}
    ensures Get(RoutingDict(m), key) == Get(RoutingBase(m), key)
  {}

  lemma RoutingNumbers(m: ModelRouting)
    ensures IntOr(RoutingDict(m), KEstimatedTokens, 0) == Got(m.estimatedTokens)
    ensures RealOr(RoutingDict(m), KEstimatedCostUsd, 0.0) == Got(m.estimatedCostUsd)
  {}

  lemma RoutingBreakdown(m: ModelRouting)
    ensures Get(RoutingDict(m), KTierBreakdown)
         == if m.tierBreakdown != map[] then Some(Table(BreakdownTable(m.tierBreakdown))) else None
  {}

  lemma TableBack(b: map<string, TierEstimate>)
    ensures var read := ReadBreakdown(if b != map[] then Some(Table(BreakdownTable(b))) else None);
      read.Got? && (read == Got(b) <==> b.Keys <= TIER_KEYS)
  {
    BreakdownBack(b);
    if b == map[] { assert b.Keys == {}; }
  }

  lemma RoutingBack(m: ModelRouting)
    ensures ReadRouting(Obj(RoutingDict(m))).Got? && RoutingDict(m) != map[]
    ensures ReadRouting(Obj(RoutingDict(m))) == Got(m) <==> m.tierBreakdown.Keys <= TIER_KEYS
  {
    RoutingFields(m);
    RoutingNumbers(m);
    RoutingBreakdown(m);
    TriggersBack(m.escalationTriggers);
    TableBack(m.tierBreakdown);
    assert KRecommendedTier in RoutingDict(m);
    RoutingParts(m, RoutingDict(m));
  }

  lemma RoutingParts(m: ModelRouting, d: Dict)
    requires Need(d, KRecommendedTier) == Got(m.recommendedTier) && TextOr(d, KReason, "") == Got(m.reason)
    requires ReadItems(Get(d, KEscalationTriggers), ReadTrigger) == Got(m.escalationTriggers)
    requires IntOr(d, KEstimatedTokens, 0) == Got(m.estimatedTokens) && RealOr(d, KEstimatedCostUsd, 0.0) == Got(m.estimatedCostUsd)
    requires ReadBreakdown(Get(d, KTierBreakdown)).Got?
    ensures ReadRouting(Obj(d)).Got?
    ensures ReadRouting(Obj(d)) == Got(m) <==> ReadBreakdown(Get(d, KTierBreakdown)) == Got(m.tierBreakdown)
  {}

  lemma MetadataFields(m: EvaluatorMetadata)
    ensures TextOr(MetadataDict(m), KTimestamp, "") == Got(m.timestamp)
    ensures IntOr(MetadataDict(m), KDurationMs, 0) == Got(m.durationMs)
    ensures Get(MetadataDict(m), KArtifactsEvaluated)
         == if m.artifactsEvaluated != [] then Some(Arr(StrList(m.artifactsEvaluated))) else None
  {}

  lemma MetadataRest(m: EvaluatorMetadata)
    ensures TextOrNone(MetadataDict(m), KModel) == Got(if GetOr(m.model, "") != "" then m.model else None)
    ensures BoolOr(MetadataDict(m), KDeterministic, true) == Got(m.deterministic)
  {}

  lemma MetadataBack(m: EvaluatorMetadata)
    ensures ReadMetadata(Some(Obj(MetadataDict(m)))).Got?
    ensures ReadMetadata(Some(Obj(MetadataDict(m)))) == Got(m) <==> m.model != Some("")
  {
    MetadataFields(m);
    MetadataRest(m);
    StringsBack(MetadataDict(m), KArtifactsEvaluated, m.artifactsEvaluated);
  }

  function MetadataValue(m: EvaluatorMetadata): Option<Value> {
    if Timed(m) then Some(Obj(MetadataDict(m))) else None
  }

  /** What the metadata come back as. */
  lemma MetadataOfResult(m: EvaluatorMetadata)
    ensures ReadMetadata(MetadataValue(m)).Got?
    ensures ReadMetadata(MetadataValue(m)) == Got(m) <==>
      if Timed(m) then m.model != Some("") else m.artifactsEvaluated == [] && m.model == None && m.deterministic
  {
    if Timed(m) {
      MetadataBack(m);
    } else {
      assert ReadMetadata(None) == Got(EvaluatorMetadata("", 0, [], None, true));
    }
  }

  lemma BaseFields(r: EvaluatorResult)
    ensures Get(ResultBase(r), KEvaluator) == Some(Obj(InfoDict(r.evaluator)))
    ensures Get(ResultBase(r), KFindings) == Some(Arr(FindingList(r.findings)))
    ensures Get(ResultBase(r), KPhase) == Some(Str(r.phase)) && Get(ResultBase(r), KOutcome) == Some(Str(r.outcome))
    ensures Get(ResultBase(r), KSchemaVersion) == Some(Str("1.0"))
  {}

  /** The required fields of a serialised result. */
  lemma ResultRequired(r: EvaluatorResult)
    ensures Get(ResultDict(r), KEvaluator) == Some(Obj(InfoDict(r.evaluator)))
    ensures Get(ResultDict(r), KFindings) == Some(Arr(FindingList(r.findings)))
    ensures Get(ResultDict(r), KPhase) == Some(Str(r.phase)) && Get(ResultDict(r), KOutcome) == Some(Str(r.outcome))
    ensures Get(ResultDict(r), KSchemaVersion) == Some(Str("1.0"))
  {
    BaseFields(r);
    var base := ResultBase(r);
    var x := ResultExtras(base, r);
    assert Get(x, KEvaluator) == Get(base, KEvaluator) && Get(x, KFindings) == Get(base, KFindings);
    assert Get(x, KPhase) == Get(base, KPhase) && Get(x, KOutcome) == Get(base, KOutcome);
    assert Get(x, KSchemaVersion) == Get(base, KSchemaVersion);
  }

  lemma ResultSummary(r: EvaluatorResult)
    ensures TextOr(ResultDict(r), KSummary, "") == Got(r.summary)
  {}

  function ActionValue(r: EvaluatorResult): Option<Value> {
    if r.nextAction.Some? then Some(Obj(NextActionDict(r.nextAction.value))) else None
  }

  function RoutingValue(r: EvaluatorResult): Option<Value> {
    if r.modelRouting.Some? then Some(Obj(RoutingDict(r.modelRouting.value))) else None
  }

  lemma ResultActions(r: EvaluatorResult)
    ensures Get(ResultDict(r), KNextAction) == ActionValue(r)
    ensures Get(ResultDict(r), KModelRouting) == RoutingValue(r)
  {}

  lemma ResultMetadata(r: EvaluatorResult)
    ensures Get(ResultDict(r), KMetadata) == MetadataValue(r.metadata)
  {}

  lemma ResultState(r: EvaluatorResult)
    ensures StateAt(ResultDict(r)) == Got(r.state)
  {}

  /** The results that survive serialisation. */
  predicate Storable(r: EvaluatorResult) {
    && (r.nextAction.Some? ==> r.nextAction.value.targetPhase != Some(""))
    && (r.modelRouting.Some? ==> r.modelRouting.value.tierBreakdown.Keys <= TIER_KEYS)
    && (if Timed(r.metadata) then r.metadata.model != Some("")
        else r.metadata.artifactsEvaluated == [] && r.metadata.model == None && r.metadata.deterministic)
  }

  /** The two optional records as they come back. */
  lemma OptionalsBack(r: EvaluatorResult)
    ensures ReadOptional(ActionValue(r), ReadNextAction).Got? && ReadOptional(RoutingValue(r), ReadRouting).Got?
    ensures ReadOptional(ActionValue(r), ReadNextAction) == Got(r.nextAction) <==>
      (r.nextAction.Some? ==> r.nextAction.value.targetPhase != Some(""))
    ensures ReadOptional(RoutingValue(r), ReadRouting) == Got(r.modelRouting) <==>
      (r.modelRouting.Some? ==> r.modelRouting.value.tierBreakdown.Keys <= TIER_KEYS)
  {
    if r.nextAction.Some? { NextActionBack(r.nextAction.value); }
    if r.modelRouting.Some? { RoutingBack(r.modelRouting.value); }
  }

  /** What is read from the serialised result, part by part. */
  lemma ResultParts(r: EvaluatorResult)
    ensures FromDict(ResultDict(r)) ==
      Assemble(Got(r.evaluator), Got(r.findings), ReadOptional(ActionValue(r), ReadNextAction),
               ReadOptional(RoutingValue(r), ReadRouting), ReadMetadata(MetadataValue(r.metadata)),
               Got(r.phase), Got(r.outcome), Got(r.summary), Got(r.state))
  {
    var d := ResultDict(r);
    ResultRequired(r);
    RequiredBack(r, d);
    ResultSummary(r);
    ResultActions(r);
    ResultMetadata(r);
    ResultState(r);
    assert ReadOptional(Get(d, KNextAction), ReadNextAction) == ReadOptional(ActionValue(r), ReadNextAction);
    assert ReadOptional(Get(d, KModelRouting), ReadRouting) == ReadOptional(RoutingValue(r), ReadRouting);
  }

  lemma RequiredBack(r: EvaluatorResult, d: Dict)
    requires Get(d, KEvaluator) == Some(Obj(InfoDict(r.evaluator))) && Get(d, KFindings) == Some(Arr(FindingList(r.findings)))
    requires Get(d, KPhase) == Some(Str(r.phase)) && Get(d, KOutcome) == Some(Str(r.outcome))
    ensures KEvaluator in d && ReadInfo(d[KEvaluator]) == Got(r.evaluator)
    ensures ReadItems(Get(d, KFindings), ReadFinding) == Got(r.findings)
    ensures Need(d, KPhase) == Got(r.phase) && Need(d, KOutcome) == Got(r.outcome)
  {
    assert ReadInfo(d[KEvaluator]) == Got(r.evaluator) by { InfoBack(r.evaluator); }
    assert ReadItems(Get(d, KFindings), ReadFinding) == Got(r.findings) by { FindingItemsBack(r.findings); }
  }

  lemma FindingItemsBack(fs: seq<Finding>)
    ensures ReadItems(Some(Arr(FindingList(fs))), ReadFinding) == Got(fs)
  {
    FindingsBack(fs);
    ItemsOfList(FindingList(fs), ReadFinding, fs);
  }

  lemma ItemsOfList<T>(items: seq<Value>, read: Value -> Read<T>, xs: seq<T>)
    requires ReadAll(items, read) == Got(xs)
    ensures ReadItems(Some(Arr(items)), read) == Got(xs)
  {}

  lemma AssembleBack(r: EvaluatorResult, action: Read<Option<NextAction>>, routing: Read<Option<ModelRouting>>,
                     metadata: Read<EvaluatorMetadata>)
    requires action.Got? && routing.Got? && metadata.Got?
    ensures var back := Assemble(Got(r.evaluator), Got(r.findings), action, routing, metadata, Got(r.phase), Got(r.outcome),
                                 Got(r.summary), Got(r.state));
      && back.Got?
      && (back == Got(r) <==> action == Got(r.nextAction) && routing == Got(r.modelRouting) && metadata == Got(r.metadata))
  {}

  /** Reading back a serialised result always succeeds, and gives the same result exactly when: a present
      target phase and model are not empty, the tier breakdown uses only the three tier keys, and metadata
      without a timestamp or duration say nothing else either. */
  lemma RoundTripExactly(r: EvaluatorResult)
    ensures FromDict(ResultDict(r)).Got?
    ensures FromDict(ResultDict(r)) == Got(r) <==> Storable(r)
  {
    ResultParts(r);
    OptionalsBack(r);
    MetadataOfResult(r.metadata);
    AssembleBack(r, ReadOptional(ActionValue(r), ReadNextAction), ReadOptional(RoutingValue(r), ReadRouting),
                 ReadMetadata(MetadataValue(r.metadata)));
  }

  /** A result whose model is the empty string comes back without a model. */
  lemma EmptyModelIsLost(r: EvaluatorResult)
    requires r.metadata == EvaluatorMetadata("2026-01-01T00:00:00Z", 0, [], Some(""), true)
    ensures FromDict(ResultDict(r)).Got? && FromDict(ResultDict(r)) != Got(r)
  {
    RoundTripExactly(r);
  }

  // ----- the procedure, step by step -----

  method ToDict(r: EvaluatorResult) returns (d: Dict)
    ensures d == ResultDict(r)
  {
    d := map[KSchemaVersion := Str("1.0"), KEvaluator := Obj(InfoDict(r.evaluator)), KPhase := Str(r.phase),
             KOutcome := Str(r.outcome), KFindings := Arr(FindingList(r.findings))];
    if r.summary != "" { d := d[KSummary := Str(r.summary)]; }
    if r.nextAction.Some? { d := d[KNextAction := Obj(NextActionDict(r.nextAction.value))]; }
    if r.modelRouting.Some? { d := d[KModelRouting := Obj(RoutingDict(r.modelRouting.value))]; }
    if r.metadata.timestamp != "" || r.metadata.durationMs != 0 { d := d[KMetadata := Obj(MetadataDict(r.metadata))]; }
    if r.state != map[] { d := d[KState := Opaque(r.state)]; }
  }

  // ----- validation -----

  datatype Error = MissingKey(key: Key) | EvaluatorNotObject | EvaluatorMissing(key: Key) | FindingsNotList | InvalidOutcome

  const REQUIRED: seq<Key> := [KSchemaVersion, KEvaluator, KPhase, KOutcome, KFindings]

  /** The structural rules. */
  predicate WellFormed(d: Dict) {
    && (forall k :: k in REQUIRED ==> k in d)
    && d[KEvaluator].Obj? && KId in d[KEvaluator].fields && KVersion in d[KEvaluator].fields
    && d[KFindings].Arr?
    && d[KOutcome].Str? && d[KOutcome].s in VALID_OUTCOMES
  }

  /** The membership test on the set of outcomes raises for lists and dictionaries. */
  predicate Hashable(v: Value) { !v.Arr? && !IsDict(v) }

  /** What each error message says. */
  predicate Applies(d: Dict, e: Error) {
    match e
    case MissingKey(key) => key in REQUIRED && key !in d
    case EvaluatorNotObject => KEvaluator in d && !IsDict(d[KEvaluator])
    case EvaluatorMissing(key) =>
      KEvaluator in d && IsDict(d[KEvaluator]) && (key == KId || key == KVersion) && key !in DictOf(d[KEvaluator]).value
    case FindingsNotList => KFindings in d && !d[KFindings].Arr?
    case InvalidOutcome => KOutcome in d && !(d[KOutcome].Str? && d[KOutcome].s in VALID_OUTCOMES)
  }

  method MissingKeys(d: Dict) returns (errors: seq<Error>)
    ensures forall e :: e in errors <==> e.MissingKey? && Applies(d, e)
  {
    errors := [];
    var i := 0;
    while i < |REQUIRED|
      invariant i <= |REQUIRED|
      invariant forall e :: e in errors <==> e.MissingKey? && e.key in REQUIRED[..i] && e.key !in d
    {
      assert REQUIRED[..i + 1] == REQUIRED[..i] + [REQUIRED[i]];
      if REQUIRED[i] !in d { errors := errors + [MissingKey(REQUIRED[i])]; }
      i := i + 1;
    }
    assert REQUIRED[..i] == REQUIRED;
  }

  method EvaluatorErrors(d: Dict) returns (errors: seq<Error>)
    ensures forall e :: e in errors <==> (e.EvaluatorNotObject? || e.EvaluatorMissing?) && Applies(d, e)
  {
    errors := [];
    if KEvaluator in d {
      if !IsDict(d[KEvaluator]) {
        errors := errors + [EvaluatorNotObject];
      } else {
        var fields := DictOf(d[KEvaluator]).value;
        if KId !in fields { errors := errors + [EvaluatorMissing(KId)]; }
        if KVersion !in fields { errors := errors + [EvaluatorMissing(KVersion)]; }
      }
    }
  }

  /** None stands for raising. */
  method ValidateResult(d: Dict) returns (r: Option<seq<Error>>)
    ensures r.None? <==> KOutcome in d && !Hashable(d[KOutcome])
    ensures r.Some? ==> forall e :: e in r.value <==> Applies(d, e)
    ensures r == Some([]) <==> WellFormed(d)
  {
    var missing := MissingKeys(d);
    var evaluator := EvaluatorErrors(d);
    var errors := missing + evaluator;
    if KFindings in d && !d[KFindings].Arr? { errors := errors + [FindingsNotList]; }
    if KOutcome in d {
      if !Hashable(d[KOutcome]) { return None; }
      if !(d[KOutcome].Str? && d[KOutcome].s in VALID_OUTCOMES) { errors := errors + [InvalidOutcome]; }
    }
    NoErrorsExactly(d, errors);
    return Some(errors);
  }

  lemma NoErrorsExactly(d: Dict, errors: seq<Error>)
    requires forall e :: e in errors <==> Applies(d, e)
    ensures errors == [] <==> WellFormed(d)
  {
    if errors == [] {
      forall k | k in REQUIRED ensures k in d { assert !Applies(d, MissingKey(k)); }
      assert KEvaluator == REQUIRED[1] && KFindings == REQUIRED[4] && KOutcome == REQUIRED[3];
      assert !Applies(d, EvaluatorNotObject) && !Applies(d, EvaluatorMissing(KId)) && !Applies(d, EvaluatorMissing(KVersion));
      assert !Applies(d, FindingsNotList) && !Applies(d, InvalidOutcome);
    } else {
      assert Applies(d, errors[0]);
    }
  }

  /** A serialised result passes validation exactly when its outcome is a legal one. */
  lemma SerialisedIsWellFormed(r: EvaluatorResult)
    ensures WellFormed(ResultDict(r)) <==> r.outcome in VALID_OUTCOMES
  {
    ResultRequired(r);
    assert Get(InfoDict(r.evaluator), KId).Some? && Get(InfoDict(r.evaluator), KVersion).Some?;
    WellFormedFrom(ResultDict(r), InfoDict(r.evaluator), FindingList(r.findings), r.outcome);
  }

  lemma WellFormedFrom(d: Dict, info: Dict, findings: seq<Value>, outcome: string)
    requires Get(d, KSchemaVersion).Some? && Get(d, KPhase).Some? && Get(d, KOutcome) == Some(Str(outcome))
    requires Get(d, KEvaluator) == Some(Obj(info)) && Get(d, KFindings) == Some(Arr(findings))
    requires KId in info && KVersion in info
    ensures WellFormed(d) <==> outcome in VALID_OUTCOMES
  {
    assert forall k :: k in REQUIRED ==> Get(d, k).Some?;
  }

  // ----- what can be read -----

  predicate Has(v: Value, key: Key) { v.Obj? && key in v.fields }

  /** Absent, a list whose elements are all fine, or empty. */
  predicate Iterable(v: Option<Value>, fine: Value -> bool) {
    v.None? || (if v.value.Arr? then forall x :: x in v.value.items ==> fine(x) else !Truthy(v.value) && (v.value.Str? || IsDict(v.value)))
  }

  predicate ReadableEvidence(j: Value) { Has(j, KRef) && Has(j, KKind) }

  predicate ReadableFinding(j: Value) {
    && Has(j, KId) && Has(j, KSeverity) && Has(j, KKind) && Has(j, KSubject)
    && Iterable(Get(j.fields, KEvidenceRefs), ReadableEvidence)
  }

  predicate ReadableTrigger(j: Value) { Has(j, KCondition) && Has(j, KEscalateTo) }

  /** Absent, a dictionary with a dictionary for each tier it names, or a list or text that names no tier. */
  predicate ReadableTiers(v: Option<Value>) {
    v.None? ||
    match v.value
    case Table(rows) => forall k :: k in TIER_KEYS && k in rows ==> IsDict(rows[k])
    case Arr(items) => forall k :: k in TIER_KEYS ==> Str(k) !in items
    case Str(s) => forall k :: k in TIER_KEYS ==> !Contains(s, k)
    case _ => IsDict(v.value)
  }

  predicate ReadableRouting(j: Value) {
    && Has(j, KRecommendedTier)
    && Iterable(Get(j.fields, KEscalationTriggers), ReadableTrigger)
    && ReadableTiers(Get(j.fields, KTierBreakdown))
  }

  predicate ReadableInfo(v: Option<Value>) { v.Some? && Has(v.value, KId) && Has(v.value, KVersion) }

  predicate ReadableAction(v: Option<Value>) { v.Some? && Truthy(v.value) ==> Has(v.value, KKind) }

  predicate ReadableRecommendation(v: Option<Value>) { v.Some? && Truthy(v.value) ==> ReadableRouting(v.value) }

  /** The keys the loader indexes without a default are there, level by level, and what it iterates or
      looks into can be iterated or looked into.  The types of texts and numbers do not matter. */
  predicate ReadableDict(d: Dict) {
    && KPhase in d && KOutcome in d
    && ReadableInfo(Get(d, KEvaluator))
    && Iterable(Get(d, KFindings), ReadableFinding)
    && ReadableAction(Get(d, KNextAction))
    && ReadableRecommendation(Get(d, KModelRouting))
    && (KMetadata in d ==> IsDict(d[KMetadata]))
  }

  lemma {:induction false} ReadAllExactly<T>(js: seq<Value>, read: Value -> Read<T>)
    ensures !ReadAll(js, read).Raised? <==> forall j :: j in js ==> !read(j).Raised?
  {
    if js != [] {
      var init, last := js[..|js| - 1], js[|js| - 1];
      ReadAllExactly(init, read);
      assert forall j :: j in js <==> j in init || j == last;
    }
  }

  /** Iteration raises exactly when the value cannot be iterated or an element makes it raise. */
  lemma ItemsExactly<T>(v: Option<Value>, read: Value -> Read<T>, fine: Value -> bool)
    requires v.Some? && v.value.Arr? ==> forall j :: j in v.value.items ==> (fine(j) <==> !read(j).Raised?)
    ensures !ReadItems(v, read).Raised? <==> Iterable(v, fine)
  {
    if v.Some? && v.value.Arr? { ReadAllExactly(v.value.items, read); }
  }

  lemma EvidenceReadable(j: Value)
    ensures !ReadEvidence(j).Raised? <==> ReadableEvidence(j)
  {}

  lemma FindingReadable(j: Value)
    ensures !ReadFinding(j).Raised? <==> ReadableFinding(j)
  {
    if j.Obj? {
      var refs := Get(j.fields, KEvidenceRefs);
      forall e ensures ReadableEvidence(e) <==> !ReadEvidence(e).Raised? { EvidenceReadable(e); }
      ItemsExactly(refs, ReadEvidence, ReadableEvidence);
    }
  }

  lemma TriggerReadable(j: Value)
    ensures !ReadTrigger(j).Raised? <==> ReadableTrigger(j)
  {}

  lemma TiersReadable(v: Option<Value>)
    ensures !ReadBreakdown(v).Raised? <==> ReadableTiers(v)
  {
    forall j ensures ReadEstimate(j).Raised? <==> !IsDict(j) { EstimateReadable(j); }
  }

  lemma EstimateReadable(j: Value)
    ensures ReadEstimate(j).Raised? <==> !IsDict(j)
  {}

  lemma RoutingReadable(j: Value)
    ensures !ReadRouting(j).Raised? <==> ReadableRouting(j)
  {
    if j.Obj? {
      var triggers := Get(j.fields, KEscalationTriggers);
      forall t ensures ReadableTrigger(t) <==> !ReadTrigger(t).Raised? { TriggerReadable(t); }
      ItemsExactly(triggers, ReadTrigger, ReadableTrigger);
      TiersReadable(Get(j.fields, KTierBreakdown));
    }
  }

  lemma FindingsReadable(v: Option<Value>)
    ensures !ReadItems(v, ReadFinding).Raised? <==> Iterable(v, ReadableFinding)
  {
    forall f ensures ReadableFinding(f) <==> !ReadFinding(f).Raised? { FindingReadable(f); }
    ItemsExactly(v, ReadFinding, ReadableFinding);
  }

  lemma InfoReadable(v: Value)
    ensures !ReadInfo(v).Raised? <==> ReadableInfo(Some(v))
  {}

  lemma ActionReadable(v: Option<Value>)
    ensures !ReadOptional(v, ReadNextAction).Raised? <==> ReadableAction(v)
  {}

  lemma RecommendationReadable(v: Option<Value>)
    ensures !ReadOptional(v, ReadRouting).Raised? <==> ReadableRecommendation(v)
  {
    if v.Some? { RoutingReadable(v.value); }
  }

  lemma MetadataReadable(v: Option<Value>)
    ensures !ReadMetadata(v).Raised? <==> (v.Some? ==> IsDict(v.value))
  {}

  /** The loader raises exactly on the dictionaries that are not readable in this sense. */
  lemma ReadableExactly(d: Dict)
    ensures !FromDict(d).Raised? <==> ReadableDict(d)
  {
    if KEvaluator in d { InfoReadable(d[KEvaluator]); }
    FindingsReadable(Get(d, KFindings));
    ActionReadable(Get(d, KNextAction));
    RecommendationReadable(Get(d, KModelRouting));
    MetadataReadable(Get(d, KMetadata));
  }

  /** What validation leaves unchecked: a well-formed dictionary is readable exactly when its findings,
      next action, routing and metadata are. */
  lemma WellFormedReadableExactly(d: Dict)
    requires WellFormed(d)
    ensures !FromDict(d).Raised? <==>
      && (forall f :: f in d[KFindings].items ==> ReadableFinding(f))
      && ReadableAction(Get(d, KNextAction))
      && ReadableRecommendation(Get(d, KModelRouting))
      && (KMetadata in d ==> IsDict(d[KMetadata]))
  {
    ReadableExactly(d);
    assert REQUIRED[2] == KPhase && REQUIRED[3] == KOutcome;
  }

  /** The smallest dictionary that passes validation, with the given findings and phase. */
  function Minimal(findings: seq<Value>, phase: Value): Dict {
    map[KSchemaVersion := Str("1.0"), KEvaluator := Obj(map[KId := Str("e"), KVersion := Str("1")]),
        KPhase := phase, KOutcome := Str("pass"), KFindings := Arr(findings)]
  }

  lemma MinimalIsWellFormed(findings: seq<Value>, phase: Value, key: Key, v: Value)
    requires key !in REQUIRED
    ensures WellFormed(Minimal(findings, phase)) && WellFormed(Minimal(findings, phase)[key := v])
  {
    assert "pass" in VALID_OUTCOMES;
    assert REQUIRED[1] == KEvaluator && REQUIRED[3] == KOutcome && REQUIRED[4] == KFindings;
  }

  /** So a well-formed dictionary can be unreadable: with a finding that lacks its keys, with text for
      metadata, with text for the next action, or with null for the evidence of a finding. */
  lemma WellFormedCanBeUnreadable()
    ensures var d := Minimal([Obj(map[])], Str("p")); WellFormed(d) && FromDict(d).Raised?
    ensures var d := Minimal([], Str("p"))[KMetadata := Str("x")]; WellFormed(d) && FromDict(d).Raised?
    ensures var d := Minimal([], Str("p"))[KNextAction := Str("retry")]; WellFormed(d) && FromDict(d).Raised?
    ensures var d := Minimal([NoEvidenceList()], Str("p")); WellFormed(d) && FromDict(d).Raised?
  {
    UnreadableFinding(Obj(map[]));
    UnreadableFinding(NoEvidenceList());
    UnreadableExtra(KMetadata, Str("x"));
    UnreadableExtra(KNextAction, Str("retry"));
  }

  lemma UnreadableExtra(key: Key, v: Value)
    requires (key == KMetadata && !IsDict(v)) || (key == KNextAction && v == Str("retry"))
    ensures var d := Minimal([], Str("p"))[key := v]; WellFormed(d) && FromDict(d).Raised?
  {
    MinimalIsWellFormed([], Str("p"), key, v);
    ReadableExactly(Minimal([], Str("p"))[key := v]);
  }

  lemma UnreadableFinding(f: Value)
    requires !ReadableFinding(f)
    ensures WellFormed(Minimal([f], Str("p"))) && FromDict(Minimal([f], Str("p"))).Raised?
  {
    var d := Minimal([f], Str("p"));
    MinimalIsWellFormed([f], Str("p"), KMetadata, Null);
    ReadableExactly(d);
    assert d[KFindings].items[0] == f;
  }

  /** A finding with null in place of its list of evidence. */
  function NoEvidenceList(): Value {
    Obj(map[KId := Str("f"), KSeverity := Str("low"), KKind := Str("k"), KSubject := Str("s"), KEvidenceRefs := Null])
  }

  /** Nor does reading check the types of texts: a number passes for the phase. */
  lemma ReadableCanBeUntyped()
    ensures var d := Minimal([], Int(5)); WellFormed(d) && FromDict(d).Untyped?
  {
    var d := Minimal([], Int(5));
    MinimalIsWellFormed([], Int(5), KMetadata, Null);
    ReadableExactly(d);
    assert Need(d, KPhase).Untyped?;
  }

  /** The convenience constructor, for a given time; its summary text is a parameter. */
  function MakeResult(id: string, version: string, phase: string, findings: seq<Finding>, name: string, deterministic: bool,
                      model: Option<string>, durationMs: int, timestamp: string, summary: string): EvaluatorResult
  {
    EvaluatorResult(EvaluatorInfo(id, version, if name != "" then name else id, ""), phase, DeriveOutcome(findings),
                    findings, summary, Some(DeriveNextAction(DeriveOutcome(findings), None)), None,
                    EvaluatorMetadata(timestamp, durationMs, [], model, deterministic), map[])
  }

  /** What it makes can be stored and read back, unless the model is present but empty. */
  lemma MadeResultsAreStorable(id: string, version: string, phase: string, findings: seq<Finding>, name: string, deterministic: bool,
                               model: Option<string>, durationMs: int, timestamp: string, summary: string)
    requires timestamp != ""
    ensures var r := MakeResult(id, version, phase, findings, name, deterministic, model, durationMs, timestamp, summary);
      && WellFormed(ResultDict(r))
      && (FromDict(ResultDict(r)) == Got(r) <==> model != Some(""))
  {
    var r := MakeResult(id, version, phase, findings, name, deterministic, model, durationMs, timestamp, summary);
    DerivedOutcomeLegal(findings);
    SerialisedIsWellFormed(r);
    RoundTripExactly(r);
    MadeStorable(r, findings);
  }

  lemma DerivedOutcomeLegal(findings: seq<Finding>)
    ensures DeriveOutcome(findings) in VALID_OUTCOMES
  {}

  lemma MadeStorable(r: EvaluatorResult, findings: seq<Finding>)
    requires r.nextAction == Some(DeriveNextAction(DeriveOutcome(findings), None)) && r.modelRouting == None
    requires r.metadata.timestamp != ""
    ensures Storable(r) <==> r.metadata.model != Some("")
  {}
}
