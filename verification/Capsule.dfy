/** Context capsules: canonical state, compaction, and the kernel's independent validator. */
module CapsuleValidator {
  import opened Base
  import opened Sorting

  datatype Claim = Claim(
    id: string,
    kind: Option<string>,
    state: Option<string>,
    status: Option<string>,
    support: seq<string>,
    refutation: seq<string>)

  datatype Field = ActiveRequirements | ApprovedDecisions | UnresolvedClaims | FailedChecks | EvidenceHandles

  datatype Capsule = Capsule(
    taskId: string,
    sourceHash: string,
    ids: map<Field, seq<string>>,
    narrative: string,
    invariants: map<string, bool>)

  datatype Error = Missing(field: Field, ids: seq<string>) | NotAsserted(name: string)

  const INVARIANTS: seq<string> :=
    ["authoritative_state_preserved", "evidence_dereferenceable", "summary_is_not_evidence"]

  const FIELDS: seq<Field> := [ActiveRequirements, ApprovedDecisions, UnresolvedClaims, FailedChecks, EvidenceHandles]

  // The validator reads an absent kind or state as no kind and no state at all.

  predicate IsActiveRequirement(c: Claim) { c.kind == Some("requirement") && c.state == Some("active") }

  predicate IsApprovedDecision(c: Claim) { c.kind == Some("decision") && c.state == Some("approved") }

  predicate IsUnresolved(c: Claim) {
    || (c.kind == Some("fact") && (c.state == Some("unknown") || c.state == Some("conflicted")))
    || (c.kind == Some("assumption") && c.state == Some("open"))
  }

  function IdsWhere(claims: seq<Claim>, holds: Claim -> bool): set<string> {
    set c | c in claims && holds(c) :: c.id
  }

  /** The claims whose loss the validator would notice. */
  function Authoritative(claims: seq<Claim>): set<string> {
    IdsWhere(claims, IsActiveRequirement) + IdsWhere(claims, IsApprovedDecision) + IdsWhere(claims, IsUnresolved)
  }

  function RequiredEvidence(claims: seq<Claim>): set<string> {
    set c, e | c in claims && c.id in Authoritative(claims) && e in c.support + c.refutation :: e
  }

  function Required(f: Field, claims: seq<Claim>, failed: seq<string>): set<string> {
    match f
    case ActiveRequirements => IdsWhere(claims, IsActiveRequirement)
    case ApprovedDecisions => IdsWhere(claims, IsApprovedDecision)
    case UnresolvedClaims => IdsWhere(claims, IsUnresolved)
    case FailedChecks => set x | x in failed
    case EvidenceHandles => RequiredEvidence(claims)
  }

  function Present(cap: Capsule, f: Field): set<string> {
    if f in cap.ids then set x | x in cap.ids[f] else {}
  }

  predicate Asserted(cap: Capsule, name: string) { name in cap.invariants && cap.invariants[name] }

  /** Every required id is present in its field, and all three invariants are asserted. */
  ghost predicate Conforms(cap: Capsule, claims: seq<Claim>, failed: seq<string>) {
    && (forall f :: Required(f, claims, failed) <= Present(cap, f))
    && (forall name :: name in INVARIANTS ==> Asserted(cap, name))
  }

  ghost predicate Reported(errors: seq<Error>, f: Field) {
    exists ids :: Missing(f, ids) in errors
  }

  /** Reports every field with missing ids, and what is missing, and every invariant not asserted. */
  method ValidateContextCapsule(cap: Capsule, claims: seq<Claim>, failed: seq<string>) returns (errors: seq<Error>)
    ensures errors == [] <==> Conforms(cap, claims, failed)
    ensures forall f, ids :: Missing(f, ids) in errors ==>
      SortedIds(Required(f, claims, failed) - Present(cap, f), ids) && ids != []
    ensures forall f :: !(Required(f, claims, failed) <= Present(cap, f)) ==> Reported(errors, f)
    ensures forall name :: NotAsserted(name) in errors <==> name in INVARIANTS && !Asserted(cap, name)
  {
    errors := [];
    var i := 0;
    while i < |FIELDS|
      invariant i <= |FIELDS|
      invariant forall f, ids :: Missing(f, ids) in errors ==>
        SortedIds(Required(f, claims, failed) - Present(cap, f), ids) && ids != []
      invariant forall f :: f in FIELDS[..i] && !(Required(f, claims, failed) <= Present(cap, f)) ==> Reported(errors, f)
      invariant forall name :: NotAsserted(name) !in errors
      invariant errors == [] <==> forall f :: f in FIELDS[..i] ==> Required(f, claims, failed) <= Present(cap, f)
    {
      var field := FIELDS[i];
      assert forall f :: f in FIELDS[..i + 1] <==> f in FIELDS[..i] || f == field;
      var missing := SortSet(Required(field, claims, failed) - Present(cap, field));
      if missing != [] {
        assert missing[0] in missing;
        ghost var before := errors;
        errors := errors + [Missing(field, missing)];
        assert errors[|before|] == Missing(field, missing);
        assert Reported(errors, field);
        forall f | Reported(before, f) ensures Reported(errors, f) {
          var ids :| Missing(f, ids) in before;
          assert Missing(f, ids) in errors;
        }
      } else {
        forall x | x in Required(field, claims, failed) ensures x in Present(cap, field) {
          assert x in Present(cap, field) || x in Required(field, claims, failed) - Present(cap, field);
        }
        assert Required(field, claims, failed) <= Present(cap, field);
      }
      i := i + 1;
    }
    assert FIELDS[..i] == FIELDS;
    forall f: Field ensures f in FIELDS { FieldListed(f); }
    ghost var before := errors;
    i := 0;
    while i < |INVARIANTS|
      invariant i <= |INVARIANTS| && before <= errors
      invariant forall f, ids :: Missing(f, ids) in errors <==> Missing(f, ids) in before
      invariant forall f :: Reported(before, f) ==> Reported(errors, f)
      invariant forall name :: NotAsserted(name) in errors <==> name in INVARIANTS[..i] && !Asserted(cap, name)
      invariant errors == [] <==> before == [] && forall name :: name in INVARIANTS[..i] ==> Asserted(cap, name)
    {
      assert forall name :: name in INVARIANTS[..i + 1] <==> name in INVARIANTS[..i] || name == INVARIANTS[i];
      if !Asserted(cap, INVARIANTS[i]) {
        forall f | Reported(errors, f) ensures Reported(errors + [NotAsserted(INVARIANTS[i])], f) {
          var ids :| Missing(f, ids) in errors;
          assert Missing(f, ids) in errors + [NotAsserted(INVARIANTS[i])];
        }
        errors := errors + [NotAsserted(INVARIANTS[i])];
      }
      i := i + 1;
    }
    assert INVARIANTS[..i] == INVARIANTS;
  }

  lemma FieldListed(f: Field)
    ensures f in FIELDS
  {
    match f
    case ActiveRequirements => assert FIELDS[0] == f;
    case ApprovedDecisions => assert FIELDS[1] == f;
    case UnresolvedClaims => assert FIELDS[2] == f;
    case FailedChecks => assert FIELDS[3] == f;
    case EvidenceHandles => assert FIELDS[4] == f;
  }

  // ----- the demands read from the fields alone -----

  ghost predicate HasId(cap: Capsule, f: Field, id: string) { f in cap.ids && id in cap.ids[f] }

  /** An active requirement, an approved decision, an unknown or conflicted fact, or an open assumption. */
  ghost predicate Demanded(c: Claim) {
    || (c.kind == Some("requirement") && c.state == Some("active"))
    || (c.kind == Some("decision") && c.state == Some("approved"))
    || (c.kind == Some("fact") && (c.state == Some("unknown") || c.state == Some("conflicted")))
    || (c.kind == Some("assumption") && c.state == Some("open"))
  }

  /** The demands of one claim: its id in the field for its kind, and its evidence if a claim of its id
      is demanded. */
  ghost predicate Held(cap: Capsule, claims: seq<Claim>, c: Claim) {
    && (c.kind == Some("requirement") && c.state == Some("active") ==> HasId(cap, ActiveRequirements, c.id))
    && (c.kind == Some("decision") && c.state == Some("approved") ==> HasId(cap, ApprovedDecisions, c.id))
    && (c.kind == Some("fact") && (c.state == Some("unknown") || c.state == Some("conflicted")) ==>
          HasId(cap, UnresolvedClaims, c.id))
    && (c.kind == Some("assumption") && c.state == Some("open") ==> HasId(cap, UnresolvedClaims, c.id))
    && ((exists d :: d in claims && d.id == c.id && Demanded(d)) ==>
          forall e :: e in c.support || e in c.refutation ==> HasId(cap, EvidenceHandles, e))
  }

  ghost predicate Affirms(cap: Capsule, name: string) { name in cap.invariants && cap.invariants[name] }

  /** A capsule conforms exactly when every claim's demands are met, every failed check is listed and the
      three invariants are asserted. */
  lemma ConformsByName(cap: Capsule, claims: seq<Claim>, failed: seq<string>)
    ensures Conforms(cap, claims, failed) <==>
      && (forall c :: c in claims ==> Held(cap, claims, c))
      && (forall id :: id in failed ==> HasId(cap, FailedChecks, id))
      && Affirms(cap, "authoritative_state_preserved") && Affirms(cap, "evidence_dereferenceable")
      && Affirms(cap, "summary_is_not_evidence")
  {
    InvariantsByName(cap);
    FieldsByName(cap, claims, failed);
    ClaimIdsByName(cap, claims);
    EvidenceByName(cap, claims);
    forall c | c in claims ensures Held(cap, claims, c) <==> IdsHeld(cap, c) && EvidenceHeld(cap, claims, c) {
      HeldSplits(cap, claims, c);
    }
  }

  lemma FieldsByName(cap: Capsule, claims: seq<Claim>, failed: seq<string>)
    ensures (forall f :: Required(f, claims, failed) <= Present(cap, f)) <==>
      && IdsWhere(claims, IsActiveRequirement) <= Present(cap, ActiveRequirements)
      && IdsWhere(claims, IsApprovedDecision) <= Present(cap, ApprovedDecisions)
      && IdsWhere(claims, IsUnresolved) <= Present(cap, UnresolvedClaims)
      && (forall id :: id in failed ==> HasId(cap, FailedChecks, id))
      && RequiredEvidence(claims) <= Present(cap, EvidenceHandles)
  {
    if forall f :: Required(f, claims, failed) <= Present(cap, f) {
      assert Required(ActiveRequirements, claims, failed) <= Present(cap, ActiveRequirements);
      assert Required(ApprovedDecisions, claims, failed) <= Present(cap, ApprovedDecisions);
      assert Required(UnresolvedClaims, claims, failed) <= Present(cap, UnresolvedClaims);
      assert Required(FailedChecks, claims, failed) <= Present(cap, FailedChecks);
      assert Required(EvidenceHandles, claims, failed) <= Present(cap, EvidenceHandles);
      assert forall id :: id in failed ==> id in Required(FailedChecks, claims, failed);
    }
  }

  lemma InvariantsByName(cap: Capsule)
    ensures (forall name :: name in INVARIANTS ==> Asserted(cap, name)) <==>
      && Affirms(cap, "authoritative_state_preserved") && Affirms(cap, "evidence_dereferenceable")
      && Affirms(cap, "summary_is_not_evidence")
  {
    if forall name :: name in INVARIANTS ==> Asserted(cap, name) {
      assert Asserted(cap, INVARIANTS[0]) && Asserted(cap, INVARIANTS[1]) && Asserted(cap, INVARIANTS[2]);
    }
  }

  lemma IdsWherePresent(cap: Capsule, claims: seq<Claim>, holds: Claim -> bool, f: Field)
    ensures IdsWhere(claims, holds) <= Present(cap, f) <==> forall c :: c in claims && holds(c) ==> HasId(cap, f, c.id)
  {
    if IdsWhere(claims, holds) <= Present(cap, f) {
      forall c | c in claims && holds(c) ensures HasId(cap, f, c.id) { assert c.id in IdsWhere(claims, holds); }
    }
  }

  ghost predicate IdsHeld(cap: Capsule, c: Claim) {
    && (IsActiveRequirement(c) ==> HasId(cap, ActiveRequirements, c.id))
    && (IsApprovedDecision(c) ==> HasId(cap, ApprovedDecisions, c.id))
    && (IsUnresolved(c) ==> HasId(cap, UnresolvedClaims, c.id))
  }

  ghost predicate EvidenceHeld(cap: Capsule, claims: seq<Claim>, c: Claim) {
    (exists d :: d in claims && d.id == c.id && Demanded(d)) ==>
      forall e :: e in c.support || e in c.refutation ==> HasId(cap, EvidenceHandles, e)
  }

  lemma HeldSplits(cap: Capsule, claims: seq<Claim>, c: Claim)
    ensures Held(cap, claims, c) <==> IdsHeld(cap, c) && EvidenceHeld(cap, claims, c)
  {}

  lemma ClaimIdsByName(cap: Capsule, claims: seq<Claim>)
    ensures IdsWhere(claims, IsActiveRequirement) <= Present(cap, ActiveRequirements)
         && IdsWhere(claims, IsApprovedDecision) <= Present(cap, ApprovedDecisions)
         && IdsWhere(claims, IsUnresolved) <= Present(cap, UnresolvedClaims)
       <==> forall c :: c in claims ==> IdsHeld(cap, c)
  {
    IdsWherePresent(cap, claims, IsActiveRequirement, ActiveRequirements);
    IdsWherePresent(cap, claims, IsApprovedDecision, ApprovedDecisions);
    IdsWherePresent(cap, claims, IsUnresolved, UnresolvedClaims);
  }

  lemma DemandedExactly(claims: seq<Claim>, id: string)
    ensures id in Authoritative(claims) <==> exists d :: d in claims && d.id == id && Demanded(d)
  {
    if d :| d in claims && d.id == id && Demanded(d) {
      assert IsActiveRequirement(d) || IsApprovedDecision(d) || IsUnresolved(d);
    }
  }

  lemma EvidenceOfOne(cap: Capsule, claims: seq<Claim>, c: Claim)
    requires c in claims && RequiredEvidence(claims) <= Present(cap, EvidenceHandles)
    ensures EvidenceHeld(cap, claims, c)
  {
    DemandedExactly(claims, c.id);
    if c.id in Authoritative(claims) {
      forall e | e in c.support || e in c.refutation ensures HasId(cap, EvidenceHandles, e) {
        assert e in c.support + c.refutation;
        assert e in RequiredEvidence(claims);
      }
    }
  }

  lemma EvidenceListed(cap: Capsule, claims: seq<Claim>, e: string)
    requires forall c :: c in claims ==> EvidenceHeld(cap, claims, c)
    requires e in RequiredEvidence(claims)
    ensures e in Present(cap, EvidenceHandles)
  {
    var c :| c in claims && c.id in Authoritative(claims) && e in c.support + c.refutation;
    DemandedExactly(claims, c.id);
    assert EvidenceHeld(cap, claims, c) && HasId(cap, EvidenceHandles, e);
  }

  lemma EvidenceByName(cap: Capsule, claims: seq<Claim>)
    ensures RequiredEvidence(claims) <= Present(cap, EvidenceHandles)
       <==> forall c :: c in claims ==> EvidenceHeld(cap, claims, c)
  {
    if RequiredEvidence(claims) <= Present(cap, EvidenceHandles) {
      forall c | c in claims ensures EvidenceHeld(cap, claims, c) { EvidenceOfOne(cap, claims, c); }
    }
    if forall c :: c in claims ==> EvidenceHeld(cap, claims, c) {
      forall e | e in RequiredEvidence(claims) ensures e in Present(cap, EvidenceHandles) { EvidenceListed(cap, claims, e); }
    }
  }

  /** The capsule without one id in one field. */
  function Drop(cap: Capsule, f: Field, id: string): Capsule {
    if f in cap.ids then cap.(ids := cap.ids[f := Filter(cap.ids[f], id)]) else cap
  }

  function Filter(ids: seq<string>, id: string): (r: seq<string>)
    ensures forall x :: x in r <==> x in ids && x != id
  {
    if ids == [] then []
    else
      var r := Filter(ids[..|ids| - 1], id);
      assert forall x :: x in ids <==> x in ids[..|ids| - 1] || x == ids[|ids| - 1];
      if ids[|ids| - 1] == id then r else r + [ids[|ids| - 1]]
  }

  /** Dropping an id is noticed exactly when it is required. */
  lemma DroppingIsNoticed(cap: Capsule, claims: seq<Claim>, failed: seq<string>, f: Field, id: string)
    requires Conforms(cap, claims, failed)
    ensures Conforms(Drop(cap, f, id), claims, failed) <==> id !in Required(f, claims, failed)
  {
    var d := Drop(cap, f, id);
    assert Required(f, claims, failed) <= Present(cap, f);
    assert Present(d, f) == Present(cap, f) - {id};
    forall g | g != f ensures Present(d, g) == Present(cap, g) {}
    if id !in Required(f, claims, failed) {
      forall g ensures Required(g, claims, failed) <= Present(d, g) {
        assert Required(g, claims, failed) <= Present(cap, g);
      }
    } else {
      assert id !in Present(d, f);
    }
    forall name | name in INVARIANTS ensures Asserted(d, name) { assert Asserted(cap, name); }
  }
}

module Compaction {
  import opened Base
  import opened Sorting
  import opened CapsuleValidator

  datatype Evidence = Evidence(contentHash: Option<string>, body: string)

  datatype CheckResult = CheckResult(mandatory: bool, status: string, criterionId: Option<string>)

  /** A ledger event, as far as its verification results. */
  type Event = seq<CheckResult>

  datatype CanonicalState = CanonicalState(
    activeRequirements: set<string>,
    approvedDecisions: set<string>,
    unresolvedClaims: set<string>,
    failedChecks: set<string>,
    evidenceHandles: map<string, string>)

  // Building the state, an absent kind means "fact" and an absent state falls back to the status.

  function KindOf(c: Claim): string { GetOr(c.kind, "fact") }

  function StateOf(c: Claim): Option<string> { if c.state.Some? then c.state else c.status }

  predicate CountsAsRequirement(c: Claim) { KindOf(c) == "requirement" && StateOf(c) == Some("active") }

  predicate CountsAsDecision(c: Claim) { KindOf(c) == "decision" && StateOf(c) == Some("approved") }

  predicate CountsAsUnresolved(c: Claim) {
    || (KindOf(c) == "fact" && (StateOf(c) == Some("unknown") || StateOf(c) == Some("conflicted")))
    || (KindOf(c) == "assumption" && StateOf(c) == Some("open"))
  }

  predicate FailedMandatory(r: CheckResult) {
    r.mandatory && (r.status == "failed" || r.status == "not_run") && GetOr(r.criterionId, "") != ""
  }

  function FailedIn(events: seq<Event>): set<string> {
    set e, r | e in events && r in e && FailedMandatory(r) :: GetOr(r.criterionId, "")
  }

  function HandleOf(e: Evidence, hash: string -> string): string {
    if GetOr(e.contentHash, "") != "" then e.contentHash.value else hash(e.body)
  }

  ghost function Among(claims: map<string, Claim>, done: set<string>, counts: Claim -> bool): set<string> {
    set k | k in done && k in claims && counts(claims[k])
  }

  /** The ids of the stored claims that count. */
  ghost function Filed(claims: map<string, Claim>, counts: Claim -> bool): set<string> {
    Among(claims, claims.Keys, counts)
  }

  ghost predicate StateFrom(s: CanonicalState, claims: map<string, Claim>, evidence: map<string, Evidence>,
                            events: seq<Event>, hash: string -> string)
  {
    && s.activeRequirements == Filed(claims, CountsAsRequirement)
    && s.approvedDecisions == Filed(claims, CountsAsDecision)
    && s.unresolvedClaims == Filed(claims, CountsAsUnresolved)
    && s.failedChecks == FailedIn(events)
    && s.evidenceHandles == map k | k in evidence :: HandleOf(evidence[k], hash)
  }

  /** The state a claim is filed by: its own, or else its status. */
  ghost predicate InState(c: Claim, state: string) {
    c.state == Some(state) || (c.state == None && c.status == Some(state))
  }

  /** An unknown or conflicted fact, which a claim without a kind is too, or an open assumption. */
  ghost predicate Unsettled(c: Claim) {
    || ((c.kind == None || c.kind == Some("fact")) && (InState(c, "unknown") || InState(c, "conflicted")))
    || (c.kind == Some("assumption") && InState(c, "open"))
  }

  /** The result of a mandatory check, failed or not run, of the criterion. */
  ghost predicate Fails(r: CheckResult, id: string) {
    r.mandatory && (r.status == "failed" || r.status == "not_run") && r.criterionId == Some(id) && id != ""
  }

  /** The handle of a piece of evidence: its content hash, unless that is absent or empty. */
  ghost predicate Handles(e: Evidence, handle: string, hash: string -> string) {
    match e.contentHash
    case Some(h) => handle == if h != "" then h else hash(e.body)
    case None => handle == hash(e.body)
  }

  /** The canonical state read from the records alone. */
  lemma StateByName(s: CanonicalState, claims: map<string, Claim>, evidence: map<string, Evidence>,
                    events: seq<Event>, hash: string -> string, id: string)
    requires StateFrom(s, claims, evidence, events, hash)
    ensures id in s.activeRequirements <==>
      id in claims && claims[id].kind == Some("requirement") && InState(claims[id], "active")
    ensures id in s.approvedDecisions <==>
      id in claims && claims[id].kind == Some("decision") && InState(claims[id], "approved")
    ensures id in s.unresolvedClaims <==> id in claims && Unsettled(claims[id])
    ensures id in s.failedChecks <==> exists event, r :: event in events && r in event && Fails(r, id)
    ensures id in s.evidenceHandles <==> id in evidence
    ensures id in evidence ==> Handles(evidence[id], s.evidenceHandles[id], hash)
  {
    FiledByName(claims, id);
    FailedByName(events, id);
  }

  lemma FiledByName(claims: map<string, Claim>, id: string)
    ensures id in Filed(claims, CountsAsRequirement) <==>
      id in claims && claims[id].kind == Some("requirement") && InState(claims[id], "active")
    ensures id in Filed(claims, CountsAsDecision) <==>
      id in claims && claims[id].kind == Some("decision") && InState(claims[id], "approved")
    ensures id in Filed(claims, CountsAsUnresolved) <==> id in claims && Unsettled(claims[id])
  {
    assert "fact"[0] == 'f' && "requirement"[0] == 'r' && "decision"[0] == 'd' && "assumption"[0] == 'a';
  }

  lemma FailedByName(events: seq<Event>, id: string)
    ensures id in FailedIn(events) <==> exists event, r :: event in events && r in event && Fails(r, id)
  {}

  lemma KindsExclude(c: Claim)
    ensures CountsAsRequirement(c) ==> !CountsAsDecision(c) && !CountsAsUnresolved(c)
    ensures CountsAsDecision(c) ==> !CountsAsUnresolved(c)
  {}

  lemma AmongStep(claims: map<string, Claim>, done: set<string>, id: string, counts: Claim -> bool)
    requires id in claims
    ensures Among(claims, done + {id}, counts) == Among(claims, done, counts) + if counts(claims[id]) then {id} else {}
  {}

  /** Files one claim under the first heading it counts for. */
  method FileOne(id: string, c: Claim, a: set<string>, d: set<string>, u: set<string>)
    returns (active: set<string>, approved: set<string>, unresolved: set<string>)
    ensures active == a + if CountsAsRequirement(c) then {id} else {}
    ensures approved == d + if CountsAsDecision(c) then {id} else {}
    ensures unresolved == u + if CountsAsUnresolved(c) then {id} else {}
  {
    active, approved, unresolved := a, d, u;
    KindsExclude(c);
    if CountsAsRequirement(c) {
      active := active + {id};
    } else if CountsAsDecision(c) {
      approved := approved + {id};
    } else if CountsAsUnresolved(c) {
      unresolved := unresolved + {id};
    }
  }

  method ClassifyClaims(claims: map<string, Claim>) returns (active: set<string>, approved: set<string>, unresolved: set<string>)
    ensures active == Filed(claims, CountsAsRequirement)
    ensures approved == Filed(claims, CountsAsDecision)
    ensures unresolved == Filed(claims, CountsAsUnresolved)
  {
    active, approved, unresolved := {}, {}, {};
    var todo, done: set<string> := claims.Keys, {};
    while todo != {}
      invariant done + todo == claims.Keys && done !! todo
      invariant active == Among(claims, done, CountsAsRequirement)
      invariant approved == Among(claims, done, CountsAsDecision)
      invariant unresolved == Among(claims, done, CountsAsUnresolved)
      decreases |todo|
    {
      var id :| id in todo;
      AmongStep(claims, done, id, CountsAsRequirement);
      AmongStep(claims, done, id, CountsAsDecision);
      AmongStep(claims, done, id, CountsAsUnresolved);
      active, approved, unresolved := FileOne(id, claims[id], active, approved, unresolved);
      MoveOne(done, todo, id);
      todo, done := todo - {id}, done + {id};
    }
    assert done == claims.Keys;
  }

  lemma MoveOne<T>(done: set<T>, todo: set<T>, x: T)
    requires x in todo && done !! todo
    ensures (done + {x}) + (todo - {x}) == done + todo && (done + {x}) !! (todo - {x})
  {}

  method CollectFailed(events: seq<Event>) returns (failed: set<string>)
    ensures failed == FailedIn(events)
  {
    failed := {};
    var i := 0;
    while i < |events|
      invariant i <= |events| && failed == FailedIn(events[..i])
    {
      assert forall e :: e in events[..i + 1] <==> e in events[..i] || e == events[i];
      var results := events[i];
      ghost var before := failed;
      var j := 0;
      while j < |results|
        invariant j <= |results|
        invariant failed == before + set r | r in results[..j] && FailedMandatory(r) :: GetOr(r.criterionId, "")
      {
        var r := results[j];
        assert forall x :: x in results[..j + 1] <==> x in results[..j] || x == r;
        if r.mandatory && (r.status == "failed" || r.status == "not_run") {
          var id := GetOr(r.criterionId, "");
          if id != "" { failed := failed + {id}; }
        }
        j := j + 1;
      }
      assert results[..j] == results;
      i := i + 1;
    }
    assert events[..i] == events;
  }

  method BuildCanonicalState(claims: map<string, Claim>, evidence: map<string, Evidence>, events: seq<Event>, hash: string -> string)
    returns (s: CanonicalState)
    ensures StateFrom(s, claims, evidence, events, hash)
  {
    var active, approved, unresolved := ClassifyClaims(claims);
    var handles := map k | k in evidence :: HandleOf(evidence[k], hash);
    var failed := CollectFailed(events);
    s := CanonicalState(active, approved, unresolved, failed, handles);
  }

  function FailedIds(s: CanonicalState, given: Option<seq<string>>): set<string> {
    if given.Some? then set x | x in given.value else s.failedChecks
  }

  /** Python's `value or default`: an empty string counts as absent. */
  function OrElse(o: Option<string>, default: string): string {
    if GetOr(o, "") != "" then o.value else default
  }

  /** The text given, unless it is absent or empty. */
  ghost predicate GivenOr(given: Option<string>, default: string, text: string) {
    match given
    case Some(s) => text == if s != "" then s else default
    case None => text == default
  }

  const ALL_ASSERTED: map<string, bool> :=
    map["authoritative_state_preserved" := true, "evidence_dereferenceable" := true, "summary_is_not_evidence" := true]

  function IdLists(a: seq<string>, d: seq<string>, u: seq<string>, failed: seq<string>, e: seq<string>): map<Field, seq<string>> {
    map[ActiveRequirements := a, ApprovedDecisions := d, UnresolvedClaims := u, FailedChecks := failed, EvidenceHandles := e]
  }

  /** The capsule holds the ids of the canonical state, all of them and no others. */
  ghost predicate Carries(cap: Capsule, s: CanonicalState, failed: set<string>) {
    && Present(cap, ActiveRequirements) == s.activeRequirements
    && Present(cap, ApprovedDecisions) == s.approvedDecisions
    && Present(cap, UnresolvedClaims) == s.unresolvedClaims
    && Present(cap, FailedChecks) == failed
    && Present(cap, EvidenceHandles) == s.evidenceHandles.Keys
  }

  lemma CapsuleCarries(cap: Capsule, s: CanonicalState, a: seq<string>, d: seq<string>, u: seq<string>, failed: seq<string>, e: seq<string>)
    requires cap.ids == IdLists(a, d, u, failed, e) && cap.invariants == ALL_ASSERTED
    requires SortedIds(s.activeRequirements, a) && SortedIds(s.approvedDecisions, d) && SortedIds(s.unresolvedClaims, u)
    requires SortedIds(s.evidenceHandles.Keys, e)
    ensures Carries(cap, s, set x | x in failed)
    ensures forall name :: name in INVARIANTS ==> Asserted(cap, name)
  {}

  /** Builds the capsule and lets the validator decide; an invalid capsule is never returned. */
  method Compact(s: CanonicalState, narrative: string, claims: seq<Claim>, given: Option<seq<string>>,
                 taskId: Option<string>, sourceHash: Option<string>, hash: string -> string)
    returns (r: Result<Capsule, seq<Error>>)
    ensures r.Ok? <==>
      && IdsWhere(claims, IsActiveRequirement) <= s.activeRequirements
      && IdsWhere(claims, IsApprovedDecision) <= s.approvedDecisions
      && IdsWhere(claims, IsUnresolved) <= s.unresolvedClaims
      && RequiredEvidence(claims) <= s.evidenceHandles.Keys
    ensures r.Ok? ==> Carries(r.value, s, FailedIds(s, given))
    ensures r.Ok? ==>
      && r.value.narrative == narrative
      && GivenOr(sourceHash, hash(narrative), r.value.sourceHash)
      && GivenOr(taskId, "task-unknown", r.value.taskId)
    ensures r.Ok? ==> forall f :: f in r.value.ids ==> SortedBy(r.value.ids[f], StringLeq)
  {
    var a := SortSet(s.activeRequirements);
    var d := SortSet(s.approvedDecisions);
    var u := SortSet(s.unresolvedClaims);
    var e := SortSet(s.evidenceHandles.Keys);
    var failed := FailedList(s, given);
    var cap := Capsule(OrElse(taskId, "task-unknown"), OrElse(sourceHash, hash(narrative)), IdLists(a, d, u, failed, e),
                       narrative, ALL_ASSERTED);
    var errors := ValidateContextCapsule(cap, claims, failed);
    CapsuleCarries(cap, s, a, d, u, failed, e);
    ConformsExactly(cap, s, claims, failed);
    if errors != [] { return Err(errors); }
    return Ok(cap);
  }

  method FailedList(s: CanonicalState, given: Option<seq<string>>) returns (failed: seq<string>)
    ensures FailedIds(s, given) == set x | x in failed
    ensures SortedBy(failed, StringLeq)
  {
    if given.Some? {
      StringOrder();
      SortStable(given.value, StringLeq, (a: string, b: string) => true);
      failed := Sort(given.value, StringLeq);
      SortContents(given.value, StringLeq);
      assert forall x :: x in failed <==> x in multiset(failed);
      assert forall x :: x in given.value <==> x in multiset(given.value);
    } else {
      failed := SortSet(s.failedChecks);
    }
  }

  /** A capsule that carries the state meets the validator's demands exactly when the state does. */
  lemma ConformsExactly(cap: Capsule, s: CanonicalState, claims: seq<Claim>, failed: seq<string>)
    requires Carries(cap, s, set x | x in failed)
    requires forall name :: name in INVARIANTS ==> Asserted(cap, name)
    ensures Conforms(cap, claims, failed) <==>
      && IdsWhere(claims, IsActiveRequirement) <= s.activeRequirements
      && IdsWhere(claims, IsApprovedDecision) <= s.approvedDecisions
      && IdsWhere(claims, IsUnresolved) <= s.unresolvedClaims
      && RequiredEvidence(claims) <= s.evidenceHandles.Keys
  {
    FiveInclusions(cap, claims, failed);
  }

  lemma FiveInclusions(cap: Capsule, claims: seq<Claim>, failed: seq<string>)
    requires forall name :: name in INVARIANTS ==> Asserted(cap, name)
    ensures Conforms(cap, claims, failed) <==>
      && Required(ActiveRequirements, claims, failed) <= Present(cap, ActiveRequirements)
      && Required(ApprovedDecisions, claims, failed) <= Present(cap, ApprovedDecisions)
      && Required(UnresolvedClaims, claims, failed) <= Present(cap, UnresolvedClaims)
      && Required(FailedChecks, claims, failed) <= Present(cap, FailedChecks)
      && Required(EvidenceHandles, claims, failed) <= Present(cap, EvidenceHandles)
  {}

  /** The claims of a store, each under its own id, listed in any order. */
  ghost predicate Lists(claims: seq<Claim>, stored: map<string, Claim>) {
    && (forall k :: k in stored ==> stored[k].id == k)
    && (forall c :: c in claims <==> c.id in stored && stored[c.id] == c)
  }

  /** The two readings of absent fields differ, but in the safe direction: whatever the validator asks
      for, the canonical state holds.  So compaction of a built state loses nothing, and is refused only
      when some evidence of an authoritative claim is not registered. */
  lemma CompactionKeepsAuthoritativeState(s: CanonicalState, claims: seq<Claim>, stored: map<string, Claim>,
                                          evidence: map<string, Evidence>, events: seq<Event>, hash: string -> string)
    requires StateFrom(s, stored, evidence, events, hash) && Lists(claims, stored)
    ensures IdsWhere(claims, IsActiveRequirement) <= s.activeRequirements
    ensures IdsWhere(claims, IsApprovedDecision) <= s.approvedDecisions
    ensures IdsWhere(claims, IsUnresolved) <= s.unresolvedClaims
    ensures RequiredEvidence(claims) <= s.evidenceHandles.Keys <==>
      forall c :: c in claims && (IsActiveRequirement(c) || IsApprovedDecision(c) || IsUnresolved(c)) ==>
        forall e :: e in c.support + c.refutation ==> e in evidence
  {
    forall c | c in claims
      ensures c.id in Authoritative(claims) <==> IsActiveRequirement(c) || IsApprovedDecision(c) || IsUnresolved(c)
    {
      if c.id in Authoritative(claims) {
        var d :| d in claims && d.id == c.id && (IsActiveRequirement(d) || IsApprovedDecision(d) || IsUnresolved(d));
        assert d == c;
      }
    }
    if RequiredEvidence(claims) <= s.evidenceHandles.Keys {
      forall c, e | c in claims && (IsActiveRequirement(c) || IsApprovedDecision(c) || IsUnresolved(c)) && e in c.support + c.refutation
        ensures e in evidence
      {
        assert c.id in Authoritative(claims);
        assert e in RequiredEvidence(claims);
      }
    }
  }

  /** The whole of compaction, from the stored claims to the capsule.  For claims keyed by their id it is
      refused exactly when some evidence of an authoritative claim is not registered. */
  method CompactStore(stored: map<string, Claim>, claims: seq<Claim>, evidence: map<string, Evidence>, events: seq<Event>,
                      narrative: string, taskId: Option<string>, sourceHash: Option<string>, hash: string -> string)
    returns (r: Result<Capsule, seq<Error>>)
    requires Lists(claims, stored)
    ensures r.Ok? <==>
      forall c :: c in claims && (IsActiveRequirement(c) || IsApprovedDecision(c) || IsUnresolved(c)) ==>
        forall e :: e in c.support + c.refutation ==> e in evidence
    ensures r.Ok? ==>
      exists s :: StateFrom(s, stored, evidence, events, hash) && Carries(r.value, s, s.failedChecks)
  {
    var s := BuildCanonicalState(stored, evidence, events, hash);
    CompactionKeepsAuthoritativeState(s, claims, stored, evidence, events, hash);
    r := Compact(s, narrative, claims, None, taskId, sourceHash, hash);
  }

  predicate CountsAsAny(c: Claim) { CountsAsRequirement(c) || CountsAsDecision(c) || CountsAsUnresolved(c) }

  /** The ids the canonical state files under any heading. */
  ghost function FiledIds(stored: map<string, Claim>): set<string> {
    Filed(stored, CountsAsRequirement) + Filed(stored, CountsAsDecision) + Filed(stored, CountsAsUnresolved)
  }

  lemma ReadingsOfOne(c: Claim)
    ensures IsActiveRequirement(c) || IsApprovedDecision(c) || IsUnresolved(c)
       <==> CountsAsAny(c) && c.kind.Some? && c.state.Some?
  {}

  /** Where the two readings agree: the validator requires all that the state files exactly when every
      claim that is filed carries both a kind and a state of its own. */
  lemma FiledAreCheckedExactly(claims: seq<Claim>, stored: map<string, Claim>)
    requires Lists(claims, stored)
    ensures Authoritative(claims) == FiledIds(stored)
       <==> forall c :: c in claims && CountsAsAny(c) ==> c.kind.Some? && c.state.Some?
  {
    forall id ensures id in FiledIds(stored) <==> id in stored && CountsAsAny(stored[id]) {}
    forall id
      ensures id in Authoritative(claims) <==>
        id in stored && CountsAsAny(stored[id]) && stored[id].kind.Some? && stored[id].state.Some?
    {
      if id in stored {
        assert stored[id] in claims;
        ReadingsOfOne(stored[id]);
      }
      if id in Authoritative(claims) {
        var c :| c in claims && c.id == id && (IsActiveRequirement(c) || IsApprovedDecision(c) || IsUnresolved(c));
        assert stored[id] == c;
      }
    }
    if Authoritative(claims) == FiledIds(stored) {
      forall c | c in claims && CountsAsAny(c) ensures c.kind.Some? && c.state.Some? {
        assert c.id in FiledIds(stored);
      }
    } else {
      var id :| id in stored && CountsAsAny(stored[id]) && id !in Authoritative(claims);
      assert stored[id] in claims;
    }
  }

  /** A claim as the claim store makes them, without kind or state: filed as unresolved, and not required. */
  lemma FiledButNotChecked()
    ensures exists claims, stored ::
      Lists(claims, stored) && Filed(stored, CountsAsUnresolved) != {} && Authoritative(claims) == {}
  {
    var c := Claim("c", None, None, Some("unknown"), [], []);
    var claims, stored := [c], map["c" := c];
    assert Lists(claims, stored);
    assert "c" in Filed(stored, CountsAsUnresolved);
    KindlessClaimsAreNotChecked(claims);
  }

  /** Where the readings differ: a claim without a kind is never authoritative to the validator, though
      the state files it as a fact.  For claims of that form, as the claim store makes them, the check of
      a capsule against the claims is vacuous. */
  lemma KindlessClaimsAreNotChecked(claims: seq<Claim>)
    requires forall c :: c in claims ==> c.kind == None || c.state == None
    ensures Authoritative(claims) == {} && RequiredEvidence(claims) == {}
  {
    forall id | id in Authoritative(claims) ensures false {
      var c :| c in claims && c.id == id && (IsActiveRequirement(c) || IsApprovedDecision(c) || IsUnresolved(c));
    }
  }
}
