/** Four-valued adjudication of claims from evidence. */
module Adjudication {
  import opened Base

  datatype Status = Unknown | Supported | Refuted | Conflicted

  datatype Error = OutOfRange | EvidenceNotFound | NoPremise

  /** Fields a record may leave out are read with their defaults. */
  datatype Evidence = Evidence(kind: Option<string>, strength: Option<real>)

  type Store = map<string, Evidence>

  function Strength(e: Evidence): real { GetOr(e.strength, 0.5) }

  function Kind(e: Evidence): string { GetOr(e.kind, "direct_observation") }

  predicate Supports(e: Evidence) { Strength(e) > 0.5 }

  predicate Refutes(e: Evidence) { Strength(e) < 0.5 }

  predicate ModelAssertion(e: Evidence) { Kind(e) == "model_assertion" }

  predicate Known(store: Store, ids: seq<string>) { forall id :: id in ids ==> id in store }

  function AdjudicateFact(support: real, refutation: real, threshold: real): Result<Status, Error> {
    if !(0.0 <= support <= 1.0 && 0.0 <= refutation <= 1.0 && 0.0 <= threshold <= 1.0) then Err(OutOfRange)
    else
      var supported, refuted := support >= threshold, refutation >= threshold;
      Ok(if supported && refuted then Conflicted else if supported then Supported
         else if refuted then Refuted else Unknown)
  }

  function MaxReal(a: real, b: real): real { if a >= b then a else b }

  /** The strongest support among the cited evidence, 0 without any. */
  function Support(store: Store, ids: seq<string>): real
    requires Known(store, ids)
  {
    if ids == [] then 0.0
    else
      var init, id := ids[..|ids| - 1], ids[|ids| - 1];
      var r := Support(store, init);
      if Supports(store[id]) then MaxReal(r, Strength(store[id])) else r
  }

  /** The strongest refutation among the cited evidence, 0 without any. */
  function Refutation(store: Store, ids: seq<string>): real
    requires Known(store, ids)
  {
    if ids == [] then 0.0
    else
      var init, id := ids[..|ids| - 1], ids[|ids| - 1];
      var r := Refutation(store, init);
      if Refutes(store[id]) then MaxReal(r, 1.0 - Strength(store[id])) else r
  }

  lemma {:induction false} SupportIsStrongest(store: Store, ids: seq<string>)
    requires Known(store, ids)
    ensures forall id :: id in ids && Supports(store[id]) ==> Strength(store[id]) <= Support(store, ids)
    ensures Support(store, ids) == 0.0
         || exists id :: id in ids && Supports(store[id]) && Strength(store[id]) == Support(store, ids)
    ensures (exists id :: id in ids && Supports(store[id])) ==> Support(store, ids) > 0.5
  {
    if ids != [] {
      var init, id := ids[..|ids| - 1], ids[|ids| - 1];
      assert forall x :: x in ids <==> x in init || x == id;
      SupportIsStrongest(store, init);
    }
  }

  lemma {:induction false} RefutationIsStrongest(store: Store, ids: seq<string>)
    requires Known(store, ids)
    ensures forall id :: id in ids && Refutes(store[id]) ==> 1.0 - Strength(store[id]) <= Refutation(store, ids)
    ensures Refutation(store, ids) == 0.0
         || exists id :: id in ids && Refutes(store[id]) && 1.0 - Strength(store[id]) == Refutation(store, ids)
    ensures (exists id :: id in ids && Refutes(store[id])) ==> Refutation(store, ids) > 0.5
  {
    if ids != [] {
      var init, id := ids[..|ids| - 1], ids[|ids| - 1];
      assert forall x :: x in ids <==> x in init || x == id;
      RefutationIsStrongest(store, init);
    }
  }

  /** Some cited support is something other than a model assertion. */
  predicate Corroborated(store: Store, ids: seq<string>)
    requires Known(store, ids)
  {
    exists id :: id in ids && Supports(store[id]) && !ModelAssertion(store[id])
  }

  predicate AnySupport(store: Store, ids: seq<string>)
    requires Known(store, ids)
  {
    exists id :: id in ids && Supports(store[id])
  }

  datatype Assessment = Assessment(status: Status, confidence: real, refutation: real)

  /** The status of a claim backed by the evidence: adjudicated, then clamped when all its support
      is model assertions. */
  function Assess(store: Store, ids: seq<string>, threshold: real): Result<Assessment, Error> {
    if !Known(store, ids) then Err(EvidenceNotFound)
    else
      var support, refutation := Support(store, ids), Refutation(store, ids);
      match AdjudicateFact(support, refutation, threshold)
      case Err(e) => Err(e)
      case Ok(raw) =>
        var clamped := raw == Supported && AnySupport(store, ids) && !Corroborated(store, ids);
        Ok(Assessment(if clamped then Unknown else raw, support, refutation))
  }

  /** Order and repetition of the cited evidence do not matter. */
  lemma CitationOrderIrrelevant(store: Store, ids: seq<string>, ids': seq<string>, threshold: real)
    requires forall id :: id in ids <==> id in ids'
    ensures Assess(store, ids, threshold) == Assess(store, ids', threshold)
  {
    if Known(store, ids) {
      SupportMonotone(store, ids, ids');
      SupportMonotone(store, ids', ids);
      assert Support(store, ids) == Support(store, ids') && Refutation(store, ids) == Refutation(store, ids');
      assert AnySupport(store, ids) == AnySupport(store, ids') && Corroborated(store, ids) == Corroborated(store, ids');
    }
  }

  lemma SupportMonotone(store: Store, ids: seq<string>, ids': seq<string>)
    requires Known(store, ids') && forall id :: id in ids ==> id in ids'
    ensures Known(store, ids)
    ensures 0.0 <= Support(store, ids) <= Support(store, ids')
    ensures 0.0 <= Refutation(store, ids) <= Refutation(store, ids')
  {
    SupportIsStrongest(store, ids);
    RefutationIsStrongest(store, ids);
    SupportIsStrongest(store, ids');
    RefutationIsStrongest(store, ids');
    var s, r := Support(store, ids), Refutation(store, ids);
    if s != 0.0 {
      var id :| id in ids && Supports(store[id]) && Strength(store[id]) == s;
      assert id in ids';
    }
    if r != 0.0 {
      var id :| id in ids && Refutes(store[id]) && 1.0 - Strength(store[id]) == r;
      assert id in ids';
    }
    var s', r' := Support(store, ids'), Refutation(store, ids');
    if s' != 0.0 {
      var id :| id in ids' && Supports(store[id]) && Strength(store[id]) == s';
    }
    if r' != 0.0 {
      var id :| id in ids' && Refutes(store[id]) && 1.0 - Strength(store[id]) == r';
    }
  }

  /** The knowledge order: unknown below supported and refuted, both below conflicted. */
  predicate KnowsAtMost(a: Status, b: Status) {
    a == b || a == Unknown || b == Conflicted
  }

  /** Citing more evidence never loses knowledge, in spite of the clamp on model assertions. */
  lemma MoreEvidenceKnowsMore(store: Store, ids: seq<string>, ids': seq<string>, threshold: real)
    requires forall id :: id in ids ==> id in ids'
    requires Assess(store, ids', threshold).Ok?
    ensures Assess(store, ids, threshold).Ok?
    ensures KnowsAtMost(Assess(store, ids, threshold).value.status, Assess(store, ids', threshold).value.status)
  {
    SupportMonotone(store, ids, ids');
    SupportIsStrongest(store, ids);
    RefutationIsStrongest(store, ids);
    SupportIsStrongest(store, ids');
    RefutationIsStrongest(store, ids');
  }

  /** Exactly when each status is given, in terms of single pieces of evidence.  A claim is supported
      only with support from something other than a model; the support that reaches the threshold may
      however be a model assertion. */
  lemma StatusExactly(store: Store, ids: seq<string>, threshold: real)
    requires Assess(store, ids, threshold).Ok?
    ensures var status := Assess(store, ids, threshold).value.status;
      var reached := threshold == 0.0 || exists id :: id in ids && Supports(store[id]) && Strength(store[id]) >= threshold;
      var denied := threshold == 0.0 || exists id :: id in ids && Refutes(store[id]) && 1.0 - Strength(store[id]) >= threshold;
      && (status == Conflicted <==> reached && denied)
      && (status == Supported <==> reached && !denied && Corroborated(store, ids))
      && (status == Refuted <==> denied && !reached)
      && (status == Unknown <==> !denied && (!reached || !Corroborated(store, ids)))
  {
    SupportIsStrongest(store, ids);
    RefutationIsStrongest(store, ids);
    var s, r := Support(store, ids), Refutation(store, ids);
    if s >= threshold && threshold > 0.0 {
      var id :| id in ids && Supports(store[id]) && Strength(store[id]) == s;
    }
    if r >= threshold && threshold > 0.0 {
      var id :| id in ids && Refutes(store[id]) && 1.0 - Strength(store[id]) == r;
    }
  }

  /** An assessment is refused exactly when evidence is missing or something is out of range. */
  lemma RefusedExactly(store: Store, ids: seq<string>, threshold: real)
    ensures Assess(store, ids, threshold).Err? <==>
      || !Known(store, ids)
      || !(0.0 <= threshold <= 1.0)
      || exists id, s :: id in ids && store[id].strength == Some(s) && !(0.0 <= s <= 1.0)
  {
    if Known(store, ids) {
      var s, r := Support(store, ids), Refutation(store, ids);
      SupportMonotone(store, ids, ids);
      SupportIsStrongest(store, ids);
      RefutationIsStrongest(store, ids);
      if s > 1.0 {
        var id :| id in ids && Supports(store[id]) && Strength(store[id]) == s;
        assert store[id].strength == Some(s);
      }
      if r > 1.0 {
        var id :| id in ids && Refutes(store[id]) && 1.0 - Strength(store[id]) == r;
        assert store[id].strength == Some(1.0 - r);
      }
      if id, w :| id in ids && store[id].strength == Some(w) && !(0.0 <= w <= 1.0) {
        assert Strength(store[id]) == w;
      }
    }
  }

  // ----- the assessment read from the fields alone -----

  /** Evidence without a strength weighs one half. */
  ghost predicate Weighs(e: Evidence, s: real) { e.strength == Some(s) || (e.strength == None && s == 0.5) }

  ghost predicate Cited(store: Store, ids: seq<string>, id: string, s: real) {
    id in ids && id in store && Weighs(store[id], s)
  }

  /** Some cited evidence above one half that is not a model's assertion; left out, the kind is not one. */
  ghost predicate WitnessedOtherwise(store: Store, ids: seq<string>) {
    exists id, s :: Cited(store, ids, id, s) && s > 0.5 && store[id].kind != Some("model_assertion")
  }

  lemma ReadingsExactly(e: Evidence, s: real)
    ensures Weighs(e, s) <==> s == Strength(e)
    ensures ModelAssertion(e) <==> e.kind == Some("model_assertion")
    ensures Supports(e) <==> Strength(e) > 0.5
    ensures Refutes(e) <==> Strength(e) < 0.5
  {
    assert "direct_observation"[0] == 'd' && "model_assertion"[0] == 'm';
  }

  /** The confidence is the largest strength above one half and the refutation the largest complement of
      a strength below it, each 0 if there is none; the two against the threshold give the status, where
      support needs evidence other than model assertions. */
  lemma AssessExactly(store: Store, ids: seq<string>, threshold: real)
    requires Assess(store, ids, threshold).Ok?
    ensures var a := Assess(store, ids, threshold).value;
      && StrongestSupport(store, ids, a.confidence)
      && StrongestRefutation(store, ids, a.refutation)
      && (a.status == Conflicted <==> a.confidence >= threshold && a.refutation >= threshold)
      && (a.status == Refuted <==> a.confidence < threshold && a.refutation >= threshold)
      && (a.status == Supported <==> a.confidence >= threshold && a.refutation < threshold && WitnessedOtherwise(store, ids))
  {
    SupportReads(store, ids);
    RefutationReads(store, ids);
    CorroboratedReads(store, ids);
    SupportIsStrongest(store, ids);
    RefutationIsStrongest(store, ids);
  }

  ghost predicate StrongestSupport(store: Store, ids: seq<string>, confidence: real) {
    && (forall id, s :: Cited(store, ids, id, s) && s > 0.5 ==> s <= confidence)
    && (confidence == 0.0 || exists id :: Cited(store, ids, id, confidence) && confidence > 0.5)
  }

  ghost predicate StrongestRefutation(store: Store, ids: seq<string>, refutation: real) {
    && (forall id, s :: Cited(store, ids, id, s) && s < 0.5 ==> 1.0 - s <= refutation)
    && (refutation == 0.0 || exists id, s :: Cited(store, ids, id, s) && s < 0.5 && refutation == 1.0 - s)
  }

  lemma SupportReads(store: Store, ids: seq<string>)
    requires Known(store, ids)
    ensures StrongestSupport(store, ids, Support(store, ids))
  {
    SupportIsStrongest(store, ids);
    var c := Support(store, ids);
    if c != 0.0 {
      var id :| id in ids && Supports(store[id]) && Strength(store[id]) == c;
      ReadingsExactly(store[id], c);
      assert Cited(store, ids, id, c);
    }
    forall id, s | Cited(store, ids, id, s) && s > 0.5 ensures s <= c { ReadingsExactly(store[id], s); }
  }

  lemma RefutationReads(store: Store, ids: seq<string>)
    requires Known(store, ids)
    ensures StrongestRefutation(store, ids, Refutation(store, ids))
  {
    RefutationIsStrongest(store, ids);
    var r := Refutation(store, ids);
    if r != 0.0 {
      var id :| id in ids && Refutes(store[id]) && 1.0 - Strength(store[id]) == r;
      ReadingsExactly(store[id], 1.0 - r);
      assert Cited(store, ids, id, 1.0 - r);
    }
    forall id, s | Cited(store, ids, id, s) && s < 0.5 ensures 1.0 - s <= r { ReadingsExactly(store[id], s); }
  }

  lemma CorroboratedReads(store: Store, ids: seq<string>)
    requires Known(store, ids)
    ensures Corroborated(store, ids) <==> WitnessedOtherwise(store, ids)
  {
    if Corroborated(store, ids) {
      var id :| id in ids && Supports(store[id]) && !ModelAssertion(store[id]);
      ReadingsExactly(store[id], Strength(store[id]));
      assert Cited(store, ids, id, Strength(store[id]));
    }
    if id, s :| Cited(store, ids, id, s) && s > 0.5 && store[id].kind != Some("model_assertion") {
      ReadingsExactly(store[id], s);
    }
  }

  // ----- derived claims -----

  /** The weakest premise. */
  function Weakest(store: Store, ids: seq<string>): real
    requires Known(store, ids) && ids != []
  {
    var init, id := ids[..|ids| - 1], ids[|ids| - 1];
    if init == [] then Strength(store[id])
    else
      var r := Weakest(store, init);
      if Strength(store[id]) < r then Strength(store[id]) else r
  }

  lemma {:induction false} WeakestIsLeast(store: Store, ids: seq<string>)
    requires Known(store, ids) && ids != []
    ensures forall id :: id in ids ==> Weakest(store, ids) <= Strength(store[id])
    ensures exists id :: id in ids && Strength(store[id]) == Weakest(store, ids)
  {
    var init, id := ids[..|ids| - 1], ids[|ids| - 1];
    assert forall x :: x in ids <==> x in init || x == id;
    assert id in ids;
    if init != [] {
      WeakestIsLeast(store, init);
      var w :| w in init && Strength(store[w]) == Weakest(store, init);
      assert w in ids;
    }
  }

  function AssessDerived(store: Store, ids: seq<string>, threshold: real): Result<Assessment, Error> {
    if ids == [] then Err(NoPremise)
    else if !Known(store, ids) then Err(EvidenceNotFound)
    else if exists id :: id in ids && Refutes(store[id]) then Ok(Assessment(Refuted, 0.0, 1.0))
    else
      var weakest := Weakest(store, ids);
      Ok(Assessment(if weakest >= threshold then Supported else Unknown, weakest, 0.0))
  }

  /** Read from the fields: a premise below one half refutes the claim with full weight; otherwise the
      weakest premise is its confidence. */
  lemma DerivedExactly(store: Store, ids: seq<string>, threshold: real)
    requires AssessDerived(store, ids, threshold).Ok?
    ensures var a := AssessDerived(store, ids, threshold).value;
      var denied := exists id, s :: Cited(store, ids, id, s) && s < 0.5;
      if denied then a == Assessment(Refuted, 0.0, 1.0)
      else
        && (exists id :: Cited(store, ids, id, a.confidence))
        && (forall id, s :: Cited(store, ids, id, s) ==> a.confidence <= s)
        && a.refutation == 0.0 && a.status == (if a.confidence >= threshold then Supported else Unknown)
  {
    var a := AssessDerived(store, ids, threshold).value;
    if id :| id in ids && Refutes(store[id]) {
      ReadingsExactly(store[id], Strength(store[id]));
      assert Cited(store, ids, id, Strength(store[id]));
    } else {
      WeakestIsLeast(store, ids);
      var id :| id in ids && Strength(store[id]) == Weakest(store, ids);
      ReadingsExactly(store[id], a.confidence);
      assert Cited(store, ids, id, a.confidence);
      forall id, s | Cited(store, ids, id, s) ensures a.confidence <= s && s >= 0.5 { ReadingsExactly(store[id], s); }
    }
  }

  /** A derived claim is never more confident than any of its premises, exactly as long as no premise has
      a negative strength; it is refuted exactly when a premise is, and supported exactly when all
      reach the threshold unrefuted. */
  lemma DerivedBoundedByPremises(store: Store, ids: seq<string>, threshold: real)
    requires AssessDerived(store, ids, threshold).Ok?
    ensures var a := AssessDerived(store, ids, threshold).value;
      && ((forall id :: id in ids ==> a.confidence <= Strength(store[id])) <==>
            forall id :: id in ids ==> 0.0 <= Strength(store[id]))
      && (a.status == Refuted <==> exists id :: id in ids && Refutes(store[id]))
      && (a.status == Supported <==> forall id :: id in ids ==> !Refutes(store[id]) && Strength(store[id]) >= threshold)
      && a.status != Conflicted
  {
    WeakestIsLeast(store, ids);
    if forall id :: id in ids ==> !Refutes(store[id]) {
      var id :| id in ids && Strength(store[id]) == Weakest(store, ids);
    }
  }

  /** A premise of negative strength refutes the claim, and is below the confidence of 0 it then has. */
  lemma DerivedCanExceedPremise()
    ensures var store: Store := map["e" := Evidence(None, Some(-1.0))];
      AssessDerived(store, ["e"], 0.5) == Ok(Assessment(Refuted, 0.0, 1.0)) && Strength(store["e"]) < 0.0
  {
    var store: Store := map["e" := Evidence(None, Some(-1.0))];
    assert "e" in ["e"] && Refutes(store["e"]);
  }
}

/** The claim store with its transition log. */
module Epistemic {
  import opened Base
  import opened Adjudication

  datatype Claim = Claim(
    statement: string,
    status: Status,
    confidence: real,
    refutation: real,
    evidenceIds: seq<string>,
    derived: bool,
    premiseIds: seq<string>)

  datatype Transition = Transition(claimId: string, oldStatus: Status, newStatus: Status, evidenceIds: seq<string>)

  function StatusOf(claims: map<string, Claim>, id: string): Status {
    if id in claims then claims[id].status else Unknown
  }

  /** The log after setting a claim's status: a new entry only when it changes. */
  function Logged(log: seq<Transition>, claims: map<string, Claim>, id: string, status: Status, ids: seq<string>): seq<Transition> {
    if StatusOf(claims, id) != status then log + [Transition(id, StatusOf(claims, id), status, ids)] else log
  }

  function StatusResult(a: Result<Assessment, Error>): Result<Status, Error> {
    match a
    case Err(e) => Err(e)
    case Ok(value) => Ok(value.status)
  }

  class EpistemicState {
    var claims: map<string, Claim>
    var evidence: Store
    var log: seq<Transition>
    ghost var drained: seq<Transition>  // the batches handed out so far, one after the other

    ghost function View(): State
      reads this
    {
      State(claims, evidence, log, drained)
    }

    constructor ()
      ensures View() == Run([])
    {
      claims, evidence, log, drained := map[], map[], [], [];
    }

    method AddEvidence(id: string, e: Evidence) returns (r: string)
      modifies this`evidence
      ensures View() == Step(old(View()), Op.AddEvidence(id, e)) && r == id
    {
      evidence := evidence[id := e];
      return id;
    }

    /** A call that raises changes nothing. */
    method AddClaim(id: string, statement: string, ids: seq<string>, threshold: real) returns (r: Result<Status, Error>)
      modifies this`claims, this`log
      ensures r == StatusResult(Assess(evidence, ids, threshold))
      ensures View() == Step(old(View()), Op.AddClaim(id, statement, ids, threshold))
      ensures r.Err? ==> View() == old(View())
    {
      var n := 0;
      while n < |ids|
        invariant n <= |ids| && forall k :: 0 <= k < n ==> ids[k] in evidence
      {
        if ids[n] !in evidence { return Err(EvidenceNotFound); }
        n := n + 1;
      }
      assert Known(evidence, ids);
      var supportLcb, refutationLcb, supporting, onlyAssertions := Weigh(evidence, ids);
      var raw := AdjudicateFact(supportLcb, refutationLcb, threshold);
      if raw.Err? { return Err(raw.error); }
      var status := raw.value;
      if status == Supported && onlyAssertions && supporting { status := Unknown; }
      if StatusOf(claims, id) != status {
        log := log + [Transition(id, StatusOf(claims, id), status, ids)];
      }
      claims := claims[id := Claim(statement, status, supportLcb, refutationLcb, ids, false, [])];
      return Ok(status);
    }

    method AddDerivedClaim(id: string, statement: string, ids: seq<string>, threshold: real) returns (r: Result<Status, Error>)
      modifies this`claims, this`log
      ensures r == StatusResult(AssessDerived(evidence, ids, threshold))
      ensures View() == Step(old(View()), Op.AddDerived(id, statement, ids, threshold))
      ensures r.Err? ==> View() == old(View())
    {
      if |ids| < 1 { return Err(NoPremise); }
      var n := 0;
      while n < |ids|
        invariant n <= |ids| && forall k :: 0 <= k < n ==> ids[k] in evidence
      {
        if ids[n] !in evidence { return Err(EvidenceNotFound); }
        n := n + 1;
      }
      assert Known(evidence, ids);
      var anyRefuted, weakest := WeighPremises(evidence, ids);
      if anyRefuted {
        if StatusOf(claims, id) != Refuted {
          log := log + [Transition(id, StatusOf(claims, id), Refuted, ids)];
        }
        claims := claims[id := Claim(statement, Refuted, 0.0, 1.0, [], true, ids)];
        return Ok(Refuted);
      }
      var status := if weakest >= threshold then Supported else Unknown;
      if StatusOf(claims, id) != status {
        log := log + [Transition(id, StatusOf(claims, id), status, ids)];
      }
      claims := claims[id := Claim(statement, status, weakest, 0.0, [], true, ids)];
      return Ok(status);
    }

    /** Returns and clears the pending transitions. */
    method GetClaimTransitions() returns (ts: seq<Transition>)
      modifies this`log, this`drained
      ensures ts == old(log)
      ensures View() == Step(old(View()), Op.Drain)
    {
      ts := log;
      log, drained := [], drained + log;
    }

    method HasBlockingConflict(ids: seq<string>) returns (blocked: bool)
      ensures blocked <==> exists id :: id in ids && StatusOf(claims, id) == Conflicted
    {
      var n := 0;
      while n < |ids|
        invariant n <= |ids| && forall k :: 0 <= k < n ==> StatusOf(claims, ids[k]) != Conflicted
      {
        assert ids[n] in ids;
        if ids[n] in claims && claims[ids[n]].status == Conflicted { return true; }
        n := n + 1;
      }
      return false;
    }
  }

  /** One pass over the cited evidence: strongest support and refutation, whether anything supports,
      and whether everything that does is a model assertion. */
  method Weigh(store: Store, ids: seq<string>) returns (s: real, r: real, supporting: bool, onlyAssertions: bool)
    requires Known(store, ids)
    ensures s == Support(store, ids) && r == Refutation(store, ids)
    ensures supporting <==> AnySupport(store, ids)
    ensures onlyAssertions <==> !Corroborated(store, ids)
  {
    s, r, supporting, onlyAssertions := 0.0, 0.0, false, true;
    ghost var done: seq<string> := [];
    var n := 0;
    while n < |ids|
      invariant n <= |ids| && done == ids[..n]
      invariant Known(store, done)
      invariant (s, r, supporting, !onlyAssertions) == Tally(store, done)
    {
      var e := store[ids[n]];
      assert (done + [ids[n]])[..|done|] == done;
      done := done + [ids[n]];
      if Strength(e) > 0.5 {
        s := MaxReal(s, Strength(e));
        supporting := true;
        if Kind(e) != "model_assertion" { onlyAssertions := false; }
      } else if Strength(e) < 0.5 {
        r := MaxReal(r, 1.0 - Strength(e));
      }
      n := n + 1;
    }
    assert ids[..n] == ids;
    TallyIs(store, ids);
  }

  /** The four running values after the cited evidence. */
  ghost function Tally(store: Store, ids: seq<string>): (real, real, bool, bool)
    requires Known(store, ids)
  {
    if ids == [] then (0.0, 0.0, false, false)
    else
      var t, e := Tally(store, ids[..|ids| - 1]), store[ids[|ids| - 1]];
      (if Supports(e) then MaxReal(t.0, Strength(e)) else t.0,
       if Refutes(e) then MaxReal(t.1, 1.0 - Strength(e)) else t.1,
       t.2 || Supports(e),
       t.3 || (Supports(e) && !ModelAssertion(e)))
  }

  lemma {:induction false} TallyIs(store: Store, ids: seq<string>)
    requires Known(store, ids)
    ensures Tally(store, ids) == (Support(store, ids), Refutation(store, ids), AnySupport(store, ids), Corroborated(store, ids))
  {
    if ids != [] {
      var init, id := ids[..|ids| - 1], ids[|ids| - 1];
      assert ids == init + [id];
      TallyIs(store, init);
      WeighOne(store, init, id);
    }
  }

  lemma WeighOne(store: Store, ids: seq<string>, id: string)
    requires Known(store, ids) && id in store
    ensures Known(store, ids + [id])
    ensures Support(store, ids + [id]) ==
      if Supports(store[id]) then MaxReal(Support(store, ids), Strength(store[id])) else Support(store, ids)
    ensures Refutation(store, ids + [id]) ==
      if Refutes(store[id]) then MaxReal(Refutation(store, ids), 1.0 - Strength(store[id])) else Refutation(store, ids)
    ensures AnySupport(store, ids + [id]) <==> AnySupport(store, ids) || Supports(store[id])
    ensures Corroborated(store, ids + [id]) <==>
      Corroborated(store, ids) || (Supports(store[id]) && !ModelAssertion(store[id]))
  {
    assert (ids + [id])[..|ids|] == ids;
    assert forall x :: x in ids + [id] <==> x in ids || x == id;
  }

  method WeighPremises(store: Store, ids: seq<string>) returns (anyRefuted: bool, weakest: real)
    requires Known(store, ids) && ids != []
    ensures anyRefuted <==> exists id :: id in ids && Refutes(store[id])
    ensures weakest == Weakest(store, ids)
  {
    anyRefuted, weakest := Strength(store[ids[0]]) < 0.5, Strength(store[ids[0]]);
    assert ids[..1] == [ids[0]];
    var n := 1;
    while n < |ids|
      invariant 1 <= n <= |ids|
      invariant anyRefuted <==> exists id :: id in ids[..n] && Refutes(store[id])
      invariant weakest == Weakest(store, ids[..n])
    {
      var strength := Strength(store[ids[n]]);
      assert ids[..n + 1][..n] == ids[..n];
      assert forall id :: id in ids[..n + 1] <==> id in ids[..n] || id == ids[n];
      if strength < 0.5 { anyRefuted := true; }
      if strength < weakest { weakest := strength; }
      n := n + 1;
    }
    assert ids[..n] == ids;
  }

  // ----- whole runs -----

  datatype Op =
    | AddEvidence(id: string, e: Evidence)
    | AddClaim(id: string, statement: string, ids: seq<string>, threshold: real)
    | AddDerived(id: string, statement: string, ids: seq<string>, threshold: real)
    | Drain

  datatype State = State(claims: map<string, Claim>, evidence: Store, log: seq<Transition>, drained: seq<Transition>)

  /** The effect of each method of the class on its view. */
  function Step(st: State, op: Op): State {
    match op
    case AddEvidence(id, e) => st.(evidence := st.evidence[id := e])
    case AddClaim(id, statement, ids, threshold) =>
      (match Assess(st.evidence, ids, threshold)
       case Err(_) => st
       case Ok(a) => st.(claims := st.claims[id := Claim(statement, a.status, a.confidence, a.refutation, ids, false, [])],
                         log := Logged(st.log, st.claims, id, a.status, ids)))
    case AddDerived(id, statement, ids, threshold) =>
      (match AssessDerived(st.evidence, ids, threshold)
       case Err(_) => st
       case Ok(a) => st.(claims := st.claims[id := Claim(statement, a.status, a.confidence, a.refutation, [], true, ids)],
                         log := Logged(st.log, st.claims, id, a.status, ids)))
    case Drain => st.(log := [], drained := st.drained + st.log)
  }

  function Run(ops: seq<Op>): State {
    if ops == [] then State(map[], map[], [], []) else Step(Run(ops[..|ops| - 1]), ops[|ops| - 1])
  }

  /** The transitions of one claim lead, without gaps or self-loops, from one status to another. */
  ghost predicate Path(ts: seq<Transition>, id: string, from: Status, to: Status) {
    if ts == [] then from == to
    else
      var init, t := ts[..|ts| - 1], ts[|ts| - 1];
      if t.claimId == id then t.newStatus == to && t.oldStatus != t.newStatus && Path(init, id, from, t.oldStatus)
      else Path(init, id, from, to)
  }

  /** Over any run the drained batches and the pending log together tell, for every claim, an unbroken
      story from "unknown" to its present status. */
  lemma {:induction false} TransitionsTellTheStory(ops: seq<Op>, id: string)
    ensures Path(Run(ops).drained + Run(ops).log, id, Unknown, StatusOf(Run(ops).claims, id))
  {
    if ops != [] {
      var st, op := Run(ops[..|ops| - 1]), ops[|ops| - 1];
      TransitionsTellTheStory(ops[..|ops| - 1], id);
      match op
      case AddEvidence(_, _) =>
      case AddClaim(cid, _, ids, threshold) =>
        if Assess(st.evidence, ids, threshold).Ok? {
          SettingKeepsPath(st, cid, Step(st, op).claims[cid], ids, id);
        }
      case AddDerived(cid, _, ids, threshold) =>
        if AssessDerived(st.evidence, ids, threshold).Ok? {
          SettingKeepsPath(st, cid, Step(st, op).claims[cid], ids, id);
        }
      case Drain =>
        assert st.drained + st.log + [] == st.drained + st.log;
    }
  }

  /** The operation sets a claim of this id, from these ids of evidence, and does not raise. */
  ghost predicate Sets(st: State, op: Op, id: string, ids: seq<string>) {
    match op
    case AddClaim(cid, _, cited, threshold) => cid == id && cited == ids && Assess(st.evidence, cited, threshold).Ok?
    case AddDerived(cid, _, cited, threshold) => cid == id && cited == ids && AssessDerived(st.evidence, cited, threshold).Ok?
    case _ => false
  }

  /** The claim is what the operation makes of the evidence at the time. */
  ghost predicate MadeBy(c: Claim, st: State, op: Op) {
    match op
    case AddClaim(_, statement, ids, threshold) =>
      && c.statement == statement && c.evidenceIds == ids && c.premiseIds == [] && !c.derived
      && Assess(st.evidence, ids, threshold) == Ok(Assessment(c.status, c.confidence, c.refutation))
    case AddDerived(_, statement, ids, threshold) =>
      && c.statement == statement && c.evidenceIds == [] && c.premiseIds == ids && c.derived
      && AssessDerived(st.evidence, ids, threshold) == Ok(Assessment(c.status, c.confidence, c.refutation))
    case _ => false
  }

  ghost predicate SetsClaim(st: State, op: Op, id: string) {
    (op.AddClaim? || op.AddDerived?) && Sets(st, op, id, op.ids)
  }

  lemma ClaimAfterStep(st: State, op: Op, id: string)
    ensures SetsClaim(st, op, id) ==> id in Step(st, op).claims && MadeBy(Step(st, op).claims[id], st, op)
    ensures !SetsClaim(st, op, id) ==> (id in Step(st, op).claims <==> id in st.claims)
    ensures !SetsClaim(st, op, id) && id in st.claims ==> Step(st, op).claims[id] == st.claims[id]
  {}

  /** Over any run a stored claim is what the last operation that set it made of the evidence then there;
      evidence added later does not change it. */
  lemma {:induction false} ClaimsHaveCause(ops: seq<Op>, id: string) returns (p: nat)
    requires id in Run(ops).claims
    ensures p < |ops| && MadeBy(Run(ops).claims[id], Run(ops[..p]), ops[p])
    ensures forall q :: p < q < |ops| ==> !SetsClaim(Run(ops[..q]), ops[q], id)
  {
    var init, op := ops[..|ops| - 1], ops[|ops| - 1];
    ClaimAfterStep(Run(init), op, id);
    if SetsClaim(Run(init), op, id) {
      p := |ops| - 1;
    } else {
      p := ClaimsHaveCause(init, id);
      assert ops[..p] == init[..p];
      forall q | p < q < |ops| ensures !SetsClaim(Run(ops[..q]), ops[q], id) {
        if q < |init| { assert ops[..q] == init[..q]; }
      }
    }
  }

  /** Over any run every transition was logged by an operation that set its claim from the evidence it
      names and changed the status from the old one to the new. */
  lemma {:induction false} TransitionsHaveCause(ops: seq<Op>, t: Transition) returns (p: nat)
    requires t in Run(ops).drained + Run(ops).log
    ensures p < |ops| && Sets(Run(ops[..p]), ops[p], t.claimId, t.evidenceIds)
    ensures StatusOf(Run(ops[..p]).claims, t.claimId) == t.oldStatus
    ensures StatusOf(Run(ops[..p + 1]).claims, t.claimId) == t.newStatus
  {
    var init, op := ops[..|ops| - 1], ops[|ops| - 1];
    var st := Run(init);
    if t in st.drained + st.log {
      p := TransitionsHaveCause(init, t);
      assert ops[..p] == init[..p] && ops[..p + 1] == init[..p + 1];
    } else {
      p := |ops| - 1;
      assert ops[..p] == init && ops[..p + 1] == ops;
    }
  }

  lemma SettingKeepsPath(st: State, cid: string, c: Claim, ids: seq<string>, id: string)
    requires Path(st.drained + st.log, id, Unknown, StatusOf(st.claims, id))
    ensures Path(st.drained + Logged(st.log, st.claims, cid, c.status, ids), id, Unknown, StatusOf(st.claims[cid := c], id))
  {
    var told := st.drained + st.log;
    var log' := Logged(st.log, st.claims, cid, c.status, ids);
    if log' != st.log {
      assert (st.drained + log')[..|told|] == told;
    }
  }

  /** Draining and calls that raise lose nothing: what has been told stays told. */
  lemma {:induction false} StoryOnlyGrows(ops: seq<Op>, n: nat)
    requires n <= |ops|
    ensures Run(ops[..n]).drained + Run(ops[..n]).log <= Run(ops).drained + Run(ops).log
    decreases |ops|
  {
    if n < |ops| {
      var init := ops[..|ops| - 1];
      assert init[..n] == ops[..n];
      StoryOnlyGrows(init, n);
      StepTellsMore(Run(init), ops[|ops| - 1]);
    } else {
      assert ops[..n] == ops;
    }
  }

  lemma StepTellsMore(st: State, op: Op)
    ensures st.drained + st.log <= Step(st, op).drained + Step(st, op).log
  {
    var st' := Step(st, op);
    if op.Drain? {
      assert st'.drained + st'.log == st.drained + st.log;
    } else {
      assert st'.drained == st.drained && st.log <= st'.log;
    }
  }

  /** On such a path the last transition of a claim carries its present status. */
  lemma {:induction false} LastTransitionIsStatus(ts: seq<Transition>, id: string, from: Status, to: Status)
    requires Path(ts, id, from, to)
    requires exists i :: 0 <= i < |ts| && ts[i].claimId == id
    ensures exists i :: 0 <= i < |ts| && ts[i].claimId == id && ts[i].newStatus == to
                        && forall j :: i < j < |ts| ==> ts[j].claimId != id
  {
    var n := |ts| - 1;
    if ts[n].claimId != id {
      LastTransitionIsStatus(ts[..n], id, from, to);
      var i :| 0 <= i < |ts[..n]| && ts[..n][i].claimId == id && ts[..n][i].newStatus == to
               && forall j :: i < j < |ts[..n]| ==> ts[..n][j].claimId != id;
      assert ts[i] == ts[..n][i];
      forall j | i < j < |ts| ensures ts[j].claimId != id {
        if j < n { assert ts[..n][j] == ts[j]; }
      }
    }
  }
}
