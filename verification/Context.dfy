/** Breadth-first reachability in a finite graph. */
module Reachability {
  type Graph<N(==)> = map<N, set<N>>

  function Successors<N>(g: Graph<N>, n: N): set<N> {
    if n in g then g[n] else {}
  }

  ghost predicate IsPath<N>(g: Graph<N>, p: seq<N>) {
    |p| > 0 && forall i :: 0 <= i < |p| - 1 ==> p[i + 1] in Successors(g, p[i])
  }

  ghost predicate Connects<N>(g: Graph<N>, p: seq<N>, from: N, to: N) {
    IsPath(g, p) && p[0] == from && p[|p| - 1] == to
  }

  ghost predicate Reachable<N(!new)>(g: Graph<N>, root: N, n: N) {
    exists p :: Connects(g, p, root, n)
  }

  ghost predicate Closed<N(!new)>(g: Graph<N>, s: set<N>) {
    forall n, m :: n in s && m in Successors(g, n) ==> m in s
  }

  lemma {:induction false} PathStaysInside<N(!new)>(g: Graph<N>, s: set<N>, p: seq<N>)
    requires Closed(g, s) && IsPath(g, p) && p[0] in s
    ensures p[|p| - 1] in s
  {
    if |p| > 1 {
      var q := p[..|p| - 1];
      assert IsPath(g, q);
      PathStaysInside(g, s, q);
      assert p[|p| - 2 + 1] in Successors(g, p[|p| - 2]);
    }
  }

  lemma StepReachable<N(!new)>(g: Graph<N>, root: N, n: N, m: N)
    requires Reachable(g, root, n) && m in Successors(g, n)
    ensures Reachable(g, root, m)
  {
    var p :| Connects(g, p, root, n);
    assert Connects(g, p + [m], root, m);
  }

  lemma RootReachable<N(!new)>(g: Graph<N>, root: N)
    ensures Reachable(g, root, root)
  {
    assert Connects(g, [root], root, root);
  }

  /** A set that contains the root, is closed, and holds only reachable nodes is the reachable set. */
  lemma ClosedIsReachable<N(!new)>(g: Graph<N>, root: N, s: set<N>)
    requires root in s && Closed(g, s) && forall n :: n in s ==> Reachable(g, root, n)
    ensures forall n :: n in s <==> Reachable(g, root, n)
  {
    forall n | Reachable(g, root, n) ensures n in s {
      var p :| Connects(g, p, root, n);
      PathStaysInside(g, s, p);
    }
  }

  ghost function Universe<N(!new)>(g: Graph<N>, root: N): set<N> {
    {root} + set n, m | n in g && m in g[n] :: m
  }

  ghost predicate Progress<N(!new)>(g: Graph<N>, root: N, seen: set<N>, queue: seq<N>) {
    && root in seen
    && seen <= Universe(g, root)
    && (forall n :: n in seen ==> Reachable(g, root, n))
    && (forall n :: n in queue ==> n in seen)
  }

  /** Every seen node outside the queue has had all its successors seen. */
  ghost predicate Expanded<N(!new)>(g: Graph<N>, seen: set<N>, queue: seq<N>) {
    forall n, m :: n in seen && n !in queue && m in Successors(g, n) ==> m in seen
  }

  method Reach<N(==,!new)>(g: Graph<N>, root: N) returns (seen: set<N>)
    ensures forall n :: n in seen <==> Reachable(g, root, n)
  {
    seen := {root};
    var queue: seq<N> := [root];
    RootReachable(g, root);
    while queue != []
      invariant Progress(g, root, seen, queue) && Expanded(g, seen, queue)
      decreases |Universe(g, root) - seen|, |queue|
    {
      var node := queue[0];
      assert node in queue;
      seen, queue := Expand(g, root, seen, queue[1..], node);
    }
    ClosedIsReachable(g, root, seen);
  }

  /** The inner loop: visits the neighbours of one node, in any order. */
  method Expand<N(==,!new)>(g: Graph<N>, root: N, seen0: set<N>, queue0: seq<N>, node: N)
    returns (seen: set<N>, queue: seq<N>)
    requires Progress(g, root, seen0, [node] + queue0) && Expanded(g, seen0, [node] + queue0)
    ensures Progress(g, root, seen, queue) && Expanded(g, seen, queue)
    ensures |Universe(g, root) - seen| < |Universe(g, root) - seen0|
         || (seen == seen0 && queue == queue0)
  {
    seen, queue := seen0, queue0;
    assert node in [node] + queue0;
    assert forall n :: n in queue0 ==> n in [node] + queue0;
    assert forall n :: n in [node] + queue0 ==> n == node || n in queue0;
    var rest := Successors(g, node);
    while rest != {}
      invariant rest <= Successors(g, node)
      invariant Progress(g, root, seen, queue)
      invariant forall m :: m in Successors(g, node) && m !in rest ==> m in seen
      invariant forall n, m :: n in seen && n !in queue && n != node && m in Successors(g, n) ==> m in seen
      invariant seen0 <= seen && node in seen
      invariant |Universe(g, root) - seen| < |Universe(g, root) - seen0| || (seen == seen0 && queue == queue0)
      decreases |rest|
    {
      var neighbor :| neighbor in rest;
      rest := rest - {neighbor};
      if neighbor !in seen {
        StepReachable(g, root, node, neighbor);
        assert neighbor in Universe(g, root);
        assert Universe(g, root) - (seen + {neighbor}) == (Universe(g, root) - seen) - {neighbor};
        assert forall n :: n in queue + [neighbor] <==> n in queue || n == neighbor;
        seen := seen + {neighbor};
        queue := queue + [neighbor];
      }
    }
  }
}

/** Compiling a context package from the task's dependency graph. */
module ContextCompiler {
  import opened Base
  import opened Sorting
  import opened Reachability

  datatype Criterion = Criterion(id: string, refs: seq<string>)

  datatype Claim = Claim(evidenceIds: seq<string>, premiseIds: seq<string>)

  type Claims = map<string, Claim>

  const TASK: string := "task"
  const CRITERION: string := "criterion:"
  const CLAIM: string := "claim:"
  const EVIDENCE: string := "evidence:"

  function Cites(c: Claim): seq<string> { c.evidenceIds + c.premiseIds }

  type Edges = set<(string, string)>

  ghost predicate Represents(g: Graph<string>, es: Edges) {
    forall a, b :: b in Successors(g, a) <==> (a, b) in es
  }

  /** A requirement reference names a claim if there is one of that id, otherwise evidence. */
  function RefEdges(claims: Claims, evidence: set<string>, node: string, refs: seq<string>): Edges {
    if refs == [] then {}
    else
      var ref := refs[|refs| - 1];
      RefEdges(claims, evidence, node, refs[..|refs| - 1]) +
        if ref in claims then {(node, CLAIM + ref)} else if ref in evidence then {(node, EVIDENCE + ref)} else {}
  }

  function CriteriaEdges(criteria: seq<Criterion>, claims: Claims, evidence: set<string>): Edges {
    if criteria == [] then {}
    else
      var c := criteria[|criteria| - 1];
      CriteriaEdges(criteria[..|criteria| - 1], claims, evidence) + {(TASK, CRITERION + c.id)}
        + RefEdges(claims, evidence, CRITERION + c.id, c.refs)
  }

  function CiteEdges(node: string, ids: seq<string>, evidence: set<string>): Edges {
    if ids == [] then {}
    else
      var id := ids[|ids| - 1];
      CiteEdges(node, ids[..|ids| - 1], evidence) + if id in evidence then {(node, EVIDENCE + id)} else {}
  }

  /** The evidence edges of the claims in `ids`. */
  ghost function ClaimEdges(claims: Claims, ids: set<string>, evidence: set<string>): Edges
    requires ids <= claims.Keys
  {
    set id, e | id in ids && e in CiteEdges(CLAIM + id, Cites(claims[id]), evidence) :: e
  }

  method AddEdge(g: Graph<string>, a: string, b: string, ghost es: Edges) returns (g': Graph<string>)
    requires Represents(g, es)
    ensures Represents(g', es + {(a, b)})
  {
    g' := g[a := Successors(g, a) + {b}];
    if b !in g' { g' := g'[b := {}]; }
  }

  method SetDefault(g: Graph<string>, a: string, ghost es: Edges) returns (g': Graph<string>)
    requires Represents(g, es)
    ensures Represents(g', es)
  {
    g' := g;
    if a !in g { g' := g[a := {}]; }
  }

  method AddRefs(g: Graph<string>, node: string, refs: seq<string>, claims: Claims, evidence: set<string>, ghost es: Edges)
    returns (g': Graph<string>)
    requires Represents(g, es)
    ensures Represents(g', es + RefEdges(claims, evidence, node, refs))
  {
    g' := g;
    assert es + RefEdges(claims, evidence, node, refs[..0]) == es;
    var i := 0;
    while i < |refs|
      invariant i <= |refs| && Represents(g', es + RefEdges(claims, evidence, node, refs[..i]))
    {
      ghost var sofar := es + RefEdges(claims, evidence, node, refs[..i]);
      assert refs[..i + 1][..i] == refs[..i];
      if refs[i] in claims {
        g' := AddEdge(g', node, CLAIM + refs[i], sofar);
        assert sofar + {(node, CLAIM + refs[i])} == es + RefEdges(claims, evidence, node, refs[..i + 1]);
      } else if refs[i] in evidence {
        g' := AddEdge(g', node, EVIDENCE + refs[i], sofar);
        assert sofar + {(node, EVIDENCE + refs[i])} == es + RefEdges(claims, evidence, node, refs[..i + 1]);
      } else {
        assert sofar == es + RefEdges(claims, evidence, node, refs[..i + 1]);
      }
      i := i + 1;
    }
    assert refs[..i] == refs;
  }

  method AddCites(g: Graph<string>, node: string, ids: seq<string>, evidence: set<string>, ghost es: Edges)
    returns (g': Graph<string>)
    requires Represents(g, es)
    ensures Represents(g', es + CiteEdges(node, ids, evidence))
  {
    g' := g;
    assert es + CiteEdges(node, ids[..0], evidence) == es;
    var i := 0;
    while i < |ids|
      invariant i <= |ids| && Represents(g', es + CiteEdges(node, ids[..i], evidence))
    {
      ghost var sofar := es + CiteEdges(node, ids[..i], evidence);
      assert ids[..i + 1][..i] == ids[..i];
      if ids[i] in evidence {
        g' := AddEdge(g', node, EVIDENCE + ids[i], sofar);
        assert sofar + {(node, EVIDENCE + ids[i])} == es + CiteEdges(node, ids[..i + 1], evidence);
      } else {
        assert sofar == es + CiteEdges(node, ids[..i + 1], evidence);
      }
      i := i + 1;
    }
    assert ids[..i] == ids;
  }

  method AddCriteria(g0: Graph<string>, criteria: seq<Criterion>, claims: Claims, evidence: set<string>) returns (g: Graph<string>)
    requires Represents(g0, {})
    ensures Represents(g, CriteriaEdges(criteria, claims, evidence))
  {
    g := g0;
    var i := 0;
    while i < |criteria|
      invariant i <= |criteria| && Represents(g, CriteriaEdges(criteria[..i], claims, evidence))
    {
      var c := criteria[i];
      ghost var es := CriteriaEdges(criteria[..i], claims, evidence);
      assert criteria[..i + 1][..i] == criteria[..i];
      g := SetDefault(g, CRITERION + c.id, es);
      g := AddEdge(g, TASK, CRITERION + c.id, es);
      g := AddRefs(g, CRITERION + c.id, c.refs, claims, evidence, es + {(TASK, CRITERION + c.id)});
      i := i + 1;
    }
    assert criteria[..i] == criteria;
  }

  lemma ClaimEdgesStep(claims: Claims, done: set<string>, id: string, evidence: set<string>)
    requires done <= claims.Keys && id in claims
    ensures ClaimEdges(claims, done + {id}, evidence)
         == ClaimEdges(claims, done, evidence) + CiteEdges(CLAIM + id, Cites(claims[id]), evidence)
  {
    var l, r := ClaimEdges(claims, done + {id}, evidence),
                ClaimEdges(claims, done, evidence) + CiteEdges(CLAIM + id, Cites(claims[id]), evidence);
    forall e | e in r ensures e in l {
      if e in ClaimEdges(claims, done, evidence) {
        var i :| i in done && e in CiteEdges(CLAIM + i, Cites(claims[i]), evidence);
        assert i in done + {id};
      } else {
        assert id in done + {id};
      }
    }
  }

  /** The claims of a dictionary, in any order. */
  method AddClaims(g0: Graph<string>, claims: Claims, evidence: set<string>, ghost es: Edges) returns (g: Graph<string>)
    requires Represents(g0, es)
    ensures Represents(g, es + ClaimEdges(claims, claims.Keys, evidence))
  {
    g := g0;
    var todo, done: set<string> := claims.Keys, {};
    assert ClaimEdges(claims, done, evidence) == {};
    assert es + ClaimEdges(claims, done, evidence) == es;
    while todo != {}
      invariant done + todo == claims.Keys && done !! todo
      invariant Represents(g, es + ClaimEdges(claims, done, evidence))
      decreases |todo|
    {
      var id :| id in todo;
      ghost var sofar := es + ClaimEdges(claims, done, evidence);
      g := SetDefault(g, CLAIM + id, sofar);
      g := AddCites(g, CLAIM + id, Cites(claims[id]), evidence, sofar);
      ClaimEdgesStep(claims, done, id, evidence);
      assert sofar + CiteEdges(CLAIM + id, Cites(claims[id]), evidence) == es + ClaimEdges(claims, done + {id}, evidence);
      todo, done := todo - {id}, done + {id};
    }
    assert done == claims.Keys;
  }

  method BuildGraph(criteria: seq<Criterion>, claims: Claims, evidence: set<string>) returns (g: Graph<string>)
    ensures Represents(g, AllEdges(criteria, claims, evidence))
    ensures Successors(g, TASK) == {} <==> criteria == []
  {
    g := map[TASK := {}];
    g := AddCriteria(g, criteria, claims, evidence);
    ghost var es := CriteriaEdges(criteria, claims, evidence);
    g := AddClaims(g, claims, evidence, es);
    var rest := evidence;
    while rest != {}
      invariant Represents(g, AllEdges(criteria, claims, evidence))
      decreases |rest|
    {
      var e :| e in rest;
      g := SetDefault(g, EVIDENCE + e, AllEdges(criteria, claims, evidence));
      rest := rest - {e};
    }
    TaskEdges(criteria, claims, evidence);
  }

  ghost function AllEdges(criteria: seq<Criterion>, claims: Claims, evidence: set<string>): Edges {
    CriteriaEdges(criteria, claims, evidence) + ClaimEdges(claims, claims.Keys, evidence)
  }

  // ----- what the edges are -----

  lemma {:induction false} RefEdgesExactly(claims: Claims, evidence: set<string>, node: string, refs: seq<string>, a: string, b: string)
    ensures (a, b) in RefEdges(claims, evidence, node, refs) <==>
      a == node && ((exists r :: r in refs && r in claims && b == CLAIM + r)
                    || (exists r :: r in refs && r !in claims && r in evidence && b == EVIDENCE + r))
  {
    if refs != [] {
      var init, ref := refs[..|refs| - 1], refs[|refs| - 1];
      RefEdgesExactly(claims, evidence, node, init, a, b);
      assert forall r :: r in refs <==> r in init || r == ref;
    }
  }

  lemma {:induction false} CiteEdgesExactly(node: string, ids: seq<string>, evidence: set<string>, a: string, b: string)
    ensures (a, b) in CiteEdges(node, ids, evidence) <==>
      a == node && exists e :: e in ids && e in evidence && b == EVIDENCE + e
  {
    if ids != [] {
      var init, id := ids[..|ids| - 1], ids[|ids| - 1];
      CiteEdgesExactly(node, init, evidence, a, b);
      assert forall e :: e in ids <==> e in init || e == id;
    }
  }

  lemma {:induction false} CriteriaEdgesExactly(criteria: seq<Criterion>, claims: Claims, evidence: set<string>, a: string, b: string)
    ensures (a, b) in CriteriaEdges(criteria, claims, evidence) <==>
      exists c :: c in criteria &&
        ((a == TASK && b == CRITERION + c.id) || (a, b) in RefEdges(claims, evidence, CRITERION + c.id, c.refs))
  {
    if criteria != [] {
      var init, last := criteria[..|criteria| - 1], criteria[|criteria| - 1];
      CriteriaEdgesExactly(init, claims, evidence, a, b);
      assert forall c :: c in criteria <==> c in init || c == last;
    }
  }

  lemma TaskEdges(criteria: seq<Criterion>, claims: Claims, evidence: set<string>)
    ensures (exists b :: (TASK, b) in AllEdges(criteria, claims, evidence))
       <==> criteria != []
  {
    if criteria != [] {
      var c := criteria[0];
      CriteriaEdgesExactly(criteria, claims, evidence, TASK, CRITERION + c.id);
    } else {
      forall b ensures (TASK, b) !in ClaimEdges(claims, claims.Keys, evidence) {
        forall id | id in claims ensures (TASK, b) !in CiteEdges(CLAIM + id, Cites(claims[id]), evidence) {
          CiteEdgesExactly(CLAIM + id, Cites(claims[id]), evidence, TASK, b);
          assert (CLAIM + id)[0] == 'c' && TASK[0] == 't';
        }
      }
    }
  }

  // ----- what is reachable -----

  /** Claims some criterion refers to. */
  function CitedClaims(criteria: seq<Criterion>, claims: Claims): set<string> {
    set c, r | c in criteria && r in c.refs && r in claims :: r
  }

  /** Evidence a criterion refers to itself, or through a claim it refers to. */
  function CitedEvidence(criteria: seq<Criterion>, claims: Claims, evidence: set<string>): set<string> {
    (set c, r | c in criteria && r in c.refs && r !in claims && r in evidence :: r)
    + (set id, e | id in CitedClaims(criteria, claims) && e in Cites(claims[id]) && e in evidence :: e)
  }

  function Tagged(tag: string, ids: set<string>): set<string> {
    set id | id in ids :: tag + id
  }

  function CriterionIds(criteria: seq<Criterion>): set<string> {
    set c | c in criteria :: c.id
  }

  function DependencyNodes(criteria: seq<Criterion>, claims: Claims, evidence: set<string>): set<string> {
    {TASK} + Tagged(CRITERION, CriterionIds(criteria)) + Tagged(CLAIM, CitedClaims(criteria, claims))
      + Tagged(EVIDENCE, CitedEvidence(criteria, claims, evidence))
  }

  /** The node encoding is unambiguous. */
  lemma NodesDiffer(x: string, y: string)
    ensures TASK != CRITERION + x && TASK != CLAIM + x && TASK != EVIDENCE + x
    ensures CRITERION + x != CLAIM + y && CRITERION + x != EVIDENCE + y && CLAIM + x != EVIDENCE + y
  {
    assert TASK[0] == 't' && (CRITERION + x)[..2] == "cr" && (CLAIM + y)[..2] == "cl" && (CLAIM + x)[..2] == "cl";
    assert (EVIDENCE + x)[0] == 'e' && (EVIDENCE + y)[0] == 'e';
    assert (CRITERION + x)[1] == "cr"[1] == 'r' && (CLAIM + y)[1] == "cl"[1] == 'l';
  }

  lemma TagInjective(tag: string, x: string, y: string)
    requires tag + x == tag + y
    ensures x == y
  {
    assert (tag + x)[|tag|..] == x && (tag + y)[|tag|..] == y;
  }

  lemma FromTask(criteria: seq<Criterion>, claims: Claims, evidence: set<string>, b: string)
    ensures (TASK, b) in AllEdges(criteria, claims, evidence) <==> exists c :: c in criteria && b == CRITERION + c.id
  {
    CriteriaEdgesExactly(criteria, claims, evidence, TASK, b);
    forall c | c in criteria ensures (TASK, b) !in RefEdges(claims, evidence, CRITERION + c.id, c.refs) {
      RefEdgesExactly(claims, evidence, CRITERION + c.id, c.refs, TASK, b);
      NodesDiffer(c.id, "");
    }
    forall id | id in claims ensures (TASK, b) !in CiteEdges(CLAIM + id, Cites(claims[id]), evidence) {
      CiteEdgesExactly(CLAIM + id, Cites(claims[id]), evidence, TASK, b);
      NodesDiffer(id, "");
    }
  }

  lemma FromCriterion(criteria: seq<Criterion>, claims: Claims, evidence: set<string>, x: string, b: string)
    ensures (CRITERION + x, b) in AllEdges(criteria, claims, evidence) <==>
      exists c :: c in criteria && c.id == x && (CRITERION + x, b) in RefEdges(claims, evidence, CRITERION + x, c.refs)
  {
    var a := CRITERION + x;
    CriteriaEdgesExactly(criteria, claims, evidence, a, b);
    NodesDiffer(x, "");
    forall c | c in criteria && (a, b) in RefEdges(claims, evidence, CRITERION + c.id, c.refs) ensures c.id == x {
      RefEdgesExactly(claims, evidence, CRITERION + c.id, c.refs, a, b);
      TagInjective(CRITERION, x, c.id);
    }
    forall id | id in claims ensures (a, b) !in CiteEdges(CLAIM + id, Cites(claims[id]), evidence) {
      CiteEdgesExactly(CLAIM + id, Cites(claims[id]), evidence, a, b);
      NodesDiffer(x, id);
    }
  }

  lemma FromClaim(criteria: seq<Criterion>, claims: Claims, evidence: set<string>, id: string, b: string)
    ensures (CLAIM + id, b) in AllEdges(criteria, claims, evidence) <==>
      id in claims && exists e :: e in Cites(claims[id]) && e in evidence && b == EVIDENCE + e
  {
    var a := CLAIM + id;
    CriteriaEdgesExactly(criteria, claims, evidence, a, b);
    NodesDiffer(id, "");
    forall c | c in criteria ensures (a, b) !in RefEdges(claims, evidence, CRITERION + c.id, c.refs) {
      RefEdgesExactly(claims, evidence, CRITERION + c.id, c.refs, a, b);
      NodesDiffer(c.id, id);
    }
    forall i | i in claims && (a, b) in CiteEdges(CLAIM + i, Cites(claims[i]), evidence) ensures i == id {
      CiteEdgesExactly(CLAIM + i, Cites(claims[i]), evidence, a, b);
      TagInjective(CLAIM, i, id);
    }
    if id in claims { CiteEdgesExactly(a, Cites(claims[id]), evidence, a, b); }
  }

  lemma FromEvidence(criteria: seq<Criterion>, claims: Claims, evidence: set<string>, x: string, b: string)
    ensures (EVIDENCE + x, b) !in AllEdges(criteria, claims, evidence)
  {
    var a := EVIDENCE + x;
    CriteriaEdgesExactly(criteria, claims, evidence, a, b);
    NodesDiffer(x, "");
    forall c | c in criteria ensures (a, b) !in RefEdges(claims, evidence, CRITERION + c.id, c.refs) {
      RefEdgesExactly(claims, evidence, CRITERION + c.id, c.refs, a, b);
      NodesDiffer(c.id, x);
    }
    forall id | id in claims ensures (a, b) !in CiteEdges(CLAIM + id, Cites(claims[id]), evidence) {
      CiteEdgesExactly(CLAIM + id, Cites(claims[id]), evidence, a, b);
      NodesDiffer(id, x);
    }
  }

  lemma NodesClosed(g: Graph<string>, criteria: seq<Criterion>, claims: Claims, evidence: set<string>)
    requires Represents(g, AllEdges(criteria, claims, evidence))
    ensures Closed(g, DependencyNodes(criteria, claims, evidence))
  {
    var nodes := DependencyNodes(criteria, claims, evidence);
    forall n, m | n in nodes && m in Successors(g, n) ensures m in nodes {
      assert (n, m) in AllEdges(criteria, claims, evidence);
      if n == TASK {
        FromTask(criteria, claims, evidence, m);
      } else if n in Tagged(CRITERION, CriterionIds(criteria)) {
        var x :| x in CriterionIds(criteria) && n == CRITERION + x;
        FromCriterion(criteria, claims, evidence, x, m);
        var c :| c in criteria && c.id == x && (n, m) in RefEdges(claims, evidence, n, c.refs);
        RefEdgesExactly(claims, evidence, n, c.refs, n, m);
      } else if n in Tagged(CLAIM, CitedClaims(criteria, claims)) {
        var id :| id in CitedClaims(criteria, claims) && n == CLAIM + id;
        FromClaim(criteria, claims, evidence, id, m);
      } else {
        var e :| e in CitedEvidence(criteria, claims, evidence) && n == EVIDENCE + e;
        FromEvidence(criteria, claims, evidence, e, m);
      }
    }
  }

  lemma CriterionReachable(g: Graph<string>, criteria: seq<Criterion>, claims: Claims, evidence: set<string>, c: Criterion)
    requires Represents(g, AllEdges(criteria, claims, evidence)) && c in criteria
    ensures Reachable(g, TASK, CRITERION + c.id)
  {
    RootReachable(g, TASK);
    FromTask(criteria, claims, evidence, CRITERION + c.id);
    StepReachable(g, TASK, TASK, CRITERION + c.id);
  }

  lemma ClaimReachable(g: Graph<string>, criteria: seq<Criterion>, claims: Claims, evidence: set<string>, id: string)
    requires Represents(g, AllEdges(criteria, claims, evidence)) && id in CitedClaims(criteria, claims)
    ensures Reachable(g, TASK, CLAIM + id)
  {
    var c :| c in criteria && id in c.refs && id in claims;
    CriterionReachable(g, criteria, claims, evidence, c);
    RefEdgesExactly(claims, evidence, CRITERION + c.id, c.refs, CRITERION + c.id, CLAIM + id);
    FromCriterion(criteria, claims, evidence, c.id, CLAIM + id);
    StepReachable(g, TASK, CRITERION + c.id, CLAIM + id);
  }

  lemma EvidenceReachable(g: Graph<string>, criteria: seq<Criterion>, claims: Claims, evidence: set<string>, e: string)
    requires Represents(g, AllEdges(criteria, claims, evidence)) && e in CitedEvidence(criteria, claims, evidence)
    ensures Reachable(g, TASK, EVIDENCE + e)
  {
    if exists c :: c in criteria && e in c.refs && e !in claims && e in evidence {
      var c :| c in criteria && e in c.refs && e !in claims && e in evidence;
      CriterionReachable(g, criteria, claims, evidence, c);
      RefEdgesExactly(claims, evidence, CRITERION + c.id, c.refs, CRITERION + c.id, EVIDENCE + e);
      FromCriterion(criteria, claims, evidence, c.id, EVIDENCE + e);
      StepReachable(g, TASK, CRITERION + c.id, EVIDENCE + e);
    } else {
      var id :| id in CitedClaims(criteria, claims) && e in Cites(claims[id]) && e in evidence;
      ClaimReachable(g, criteria, claims, evidence, id);
      FromClaim(criteria, claims, evidence, id, EVIDENCE + e);
      StepReachable(g, TASK, CLAIM + id, EVIDENCE + e);
    }
  }

  /** In the graph built from the inputs, exactly the dependency nodes are reachable from the task. */
  lemma ReachableExactly(g: Graph<string>, criteria: seq<Criterion>, claims: Claims, evidence: set<string>)
    requires Represents(g, AllEdges(criteria, claims, evidence))
    ensures forall n :: Reachable(g, TASK, n) <==> n in DependencyNodes(criteria, claims, evidence)
  {
    var nodes := DependencyNodes(criteria, claims, evidence);
    NodesClosed(g, criteria, claims, evidence);
    forall n | n in nodes ensures Reachable(g, TASK, n) {
      RootReachable(g, TASK);
      if n in Tagged(CRITERION, CriterionIds(criteria)) {
        var x :| x in CriterionIds(criteria) && n == CRITERION + x;
        var c :| c in criteria && c.id == x;
        CriterionReachable(g, criteria, claims, evidence, c);
      } else if n in Tagged(CLAIM, CitedClaims(criteria, claims)) {
        var id :| id in CitedClaims(criteria, claims) && n == CLAIM + id;
        ClaimReachable(g, criteria, claims, evidence, id);
      } else if n != TASK {
        var e :| e in CitedEvidence(criteria, claims, evidence) && n == EVIDENCE + e;
        EvidenceReachable(g, criteria, claims, evidence, e);
      }
    }
    ClosedIsReachable(g, TASK, nodes);
  }

  // ----- decoding and packaging -----

  /** Python's `node.partition(":")[2]`: what follows the first colon. */
  function AfterColon(s: string): string {
    if s == [] then [] else if s[0] == ':' then s[1..] else AfterColon(s[1..])
  }

  lemma {:induction false} AfterColonOf(tag: string, id: string)
    requires tag != [] && tag[|tag| - 1] == ':' && forall i :: 0 <= i < |tag| - 1 ==> tag[i] != ':'
    ensures AfterColon(tag + id) == id
  {
    assert (tag + id)[1..] == tag[1..] + id;
    if |tag| == 1 {
      assert tag[1..] + id == id;
    } else {
      AfterColonOf(tag[1..], id);
    }
  }

  /** The ids of the nodes that start with a tag. */
  function Decode(nodes: set<string>, tag: string): set<string> {
    set n | n in nodes && tag <= n :: AfterColon(n)
  }

  lemma DecodeTagged(nodes: set<string>, tag: string, ids: set<string>)
    requires tag != [] && tag[|tag| - 1] == ':' && forall i :: 0 <= i < |tag| - 1 ==> tag[i] != ':'
    requires forall n :: n in nodes && tag <= n <==> n in Tagged(tag, ids)
    ensures Decode(nodes, tag) == ids
  {
    forall x | x in Decode(nodes, tag) ensures x in ids {
      var n :| n in nodes && tag <= n && x == AfterColon(n);
      var id :| id in ids && n == tag + id;
      AfterColonOf(tag, id);
    }
    forall id | id in ids ensures id in Decode(nodes, tag) {
      AfterColonOf(tag, id);
      assert tag + id in Tagged(tag, ids);
    }
  }

  lemma TagsApart(x: string)
    ensures !(CLAIM <= TASK) && !(CLAIM <= CRITERION + x) && !(CLAIM <= EVIDENCE + x)
    ensures !(EVIDENCE <= TASK) && !(EVIDENCE <= CRITERION + x) && !(EVIDENCE <= CLAIM + x)
    ensures !(CRITERION <= TASK) && !(CRITERION <= CLAIM + x) && !(CRITERION <= EVIDENCE + x)
    ensures CLAIM <= CLAIM + x && EVIDENCE <= EVIDENCE + x && CRITERION <= CRITERION + x
  {
    assert CLAIM[1] == 'l' && CRITERION[1] == 'r' && EVIDENCE[0] == 'e' && CLAIM[0] == 'c' && CRITERION[0] == 'c';
    assert (CRITERION + x)[1] == 'r' && (CLAIM + x)[1] == 'l' && (EVIDENCE + x)[0] == 'e';
    assert (CRITERION + x)[0] == 'c' && (CLAIM + x)[0] == 'c' && TASK[0] == 't';
  }

  /** Decoding the reachable nodes gives back the cited claims, evidence and criteria. */
  lemma DecodeDependencies(criteria: seq<Criterion>, claims: Claims, evidence: set<string>)
    ensures var nodes := DependencyNodes(criteria, claims, evidence);
      && Decode(nodes, CLAIM) == CitedClaims(criteria, claims)
      && Decode(nodes, EVIDENCE) == CitedEvidence(criteria, claims, evidence)
      && Decode(nodes, CRITERION) == CriterionIds(criteria)
  {
    var nodes := DependencyNodes(criteria, claims, evidence);
    var cl, ev, cr := CitedClaims(criteria, claims), CitedEvidence(criteria, claims, evidence), CriterionIds(criteria);
    TagsApart("");
    forall n | n in nodes
      ensures CLAIM <= n <==> n in Tagged(CLAIM, cl)
      ensures EVIDENCE <= n <==> n in Tagged(EVIDENCE, ev)
      ensures CRITERION <= n <==> n in Tagged(CRITERION, cr)
    {
      NodeTags(n, cl, ev, cr);
    }
    DecodeTagged(nodes, CLAIM, cl);
    DecodeTagged(nodes, EVIDENCE, ev);
    DecodeTagged(nodes, CRITERION, cr);
  }

  lemma NodeTags(n: string, cl: set<string>, ev: set<string>, cr: set<string>)
    requires n == TASK || n in Tagged(CRITERION, cr) || n in Tagged(CLAIM, cl) || n in Tagged(EVIDENCE, ev)
    ensures CLAIM <= n <==> n in Tagged(CLAIM, cl)
    ensures EVIDENCE <= n <==> n in Tagged(EVIDENCE, ev)
    ensures CRITERION <= n <==> n in Tagged(CRITERION, cr)
  {
    TagsApart("");
    forall x ensures TagsApartFor(x) { TagsApart(x); }
    if n in Tagged(CRITERION, cr) {
      var x :| x in cr && n == CRITERION + x;
      assert TagsApartFor(x);
    } else if n in Tagged(CLAIM, cl) {
      var x :| x in cl && n == CLAIM + x;
      assert TagsApartFor(x);
    } else if n in Tagged(EVIDENCE, ev) {
      var x :| x in ev && n == EVIDENCE + x;
      assert TagsApartFor(x);
    }
  }

  ghost predicate TagsApartFor(x: string) {
    && !(CLAIM <= CRITERION + x) && !(CLAIM <= EVIDENCE + x)
    && !(EVIDENCE <= CRITERION + x) && !(EVIDENCE <= CLAIM + x)
    && !(CRITERION <= CLAIM + x) && !(CRITERION <= EVIDENCE + x)
    && CLAIM <= CLAIM + x && EVIDENCE <= EVIDENCE + x && CRITERION <= CRITERION + x
  }

  datatype Event = Event(id: string, subjectId: Option<string>, payload: string)

  datatype Strategy = IncludeEverything | GraphReachability

  /** The included records, claims and evidence by id, and the number of records left out. */
  datatype Package = Package(
    strategy: Strategy,
    taskId: string,
    claims: seq<string>,
    evidence: seq<string>,
    events: seq<Event>,
    excluded: int)

  /** An event belongs to the package if it is about the task, or its payload mentions an included id. */
  predicate Relevant(e: Event, taskId: string, ids: set<string>, references: (string, set<string>) -> bool) {
    e.subjectId == Some(taskId) || (ids != {} && references(e.payload, ids))
  }

  function RelevantEvents(events: seq<Event>, taskId: string, ids: set<string>, references: (string, set<string>) -> bool): (r: seq<Event>)
    ensures |r| <= |events|
  {
    if events == [] then []
    else
      var e, r := events[|events| - 1], RelevantEvents(events[..|events| - 1], taskId, ids, references);
      if Relevant(e, taskId, ids, references) then r + [e] else r
  }

  method ReachableEvents(events: seq<Event>, taskId: string, ids: set<string>, references: (string, set<string>) -> bool)
    returns (selected: seq<Event>)
    ensures selected == RelevantEvents(events, taskId, ids, references)
  {
    selected := [];
    var i := 0;
    while i < |events|
      invariant i <= |events| && selected == RelevantEvents(events[..i], taskId, ids, references)
    {
      assert events[..i + 1][..i] == events[..i];
      if events[i].subjectId == Some(taskId) {
        selected := selected + [events[i]];
      } else if ids != {} && references(events[i].payload, ids) {
        selected := selected + [events[i]];
      }
      i := i + 1;
    }
    assert events[..i] == events;
  }

  /** What the compiled package must be, in terms of the inputs alone. */
  ghost predicate CompiledFrom(p: Package, taskId: string, criteria: seq<Criterion>, claims: Claims, evidence: set<string>,
                               events: seq<Event>, references: (string, set<string>) -> bool)
  {
    && p.taskId == taskId
    && p.excluded + |p.claims| + |p.evidence| + |p.events| == |claims| + |evidence| + |events|
    && p.excluded >= 0
    && if criteria == [] then
         && p.strategy == IncludeEverything && p.excluded == 0
         && SortedIds(claims.Keys, p.claims) && SortedIds(evidence, p.evidence) && p.events == events
       else
         var cl, ev := CitedClaims(criteria, claims), CitedEvidence(criteria, claims, evidence);
         && p.strategy == GraphReachability
         && SortedIds(cl, p.claims) && SortedIds(ev, p.evidence)
         && p.events == RelevantEvents(events, taskId, cl + ev + CriterionIds(criteria), references)
  }

  method Compile(taskId: string, criteria: seq<Criterion>, claims: Claims, evidence: set<string>,
                 events: seq<Event>, references: (string, set<string>) -> bool) returns (p: Package)
    ensures CompiledFrom(p, taskId, criteria, claims, evidence, events, references)
  {
    var total := |claims| + |evidence| + |events|;
    var graph := BuildGraph(criteria, claims, evidence);
    if Successors(graph, TASK) == {} {
      var cs := SortSet(claims.Keys);
      var es := SortSet(evidence);
      SortedIdsSize(claims.Keys, cs);
      SortedIdsSize(evidence, es);
      var excluded := total - (|cs| + |es| + |events|);
      return Package(IncludeEverything, taskId, cs, es, events, if excluded > 0 then excluded else 0);
    }
    var nodes := Reach(graph, TASK);
    ReachableExactly(graph, criteria, claims, evidence);
    assert nodes == DependencyNodes(criteria, claims, evidence);
    var cs, es, ids := Included(nodes, criteria, claims, evidence);
    var selected := ReachableEvents(events, taskId, ids, references);
    var excluded := total - (|cs| + |es| + |selected|);
    p := Package(GraphReachability, taskId, cs, es, selected, if excluded > 0 then excluded else 0);
  }

  /** The claims and evidence among the reachable nodes, and all reachable ids. */
  method Included(nodes: set<string>, ghost criteria: seq<Criterion>, claims: Claims, evidence: set<string>)
    returns (cs: seq<string>, es: seq<string>, ids: set<string>)
    requires nodes == DependencyNodes(criteria, claims, evidence)
    ensures SortedIds(CitedClaims(criteria, claims), cs) && |cs| <= |claims|
    ensures SortedIds(CitedEvidence(criteria, claims, evidence), es) && |es| <= |evidence|
    ensures ids == CitedClaims(criteria, claims) + CitedEvidence(criteria, claims, evidence) + CriterionIds(criteria)
  {
    DecodeDependencies(criteria, claims, evidence);
    var claimIds, evidenceIds, criterionIds := Decode(nodes, CLAIM), Decode(nodes, EVIDENCE), Decode(nodes, CRITERION);
    assert (set id | id in claimIds && id in claims) == claimIds && evidenceIds * evidence == evidenceIds;
    cs := SortSet(set id | id in claimIds && id in claims);
    es := SortSet(evidenceIds * evidence);
    ids := claimIds + evidenceIds + criterionIds;
    SortedIdsSize(claimIds, cs);
    SortedIdsSize(evidenceIds, es);
    SubsetSize(claimIds, claims.Keys);
    SubsetSize(evidenceIds, evidence);
  }

  // ----- the package read from the inputs alone -----

  ghost predicate ReferredTo(criteria: seq<Criterion>, id: string) {
    exists c :: c in criteria && id in c.refs
  }

  /** A claim the criteria refer to rests on the evidence, directly or as a premise. */
  ghost predicate RestsOn(criteria: seq<Criterion>, claims: Claims, e: string) {
    exists id :: id in claims && ReferredTo(criteria, id) && (e in claims[id].evidenceIds || e in claims[id].premiseIds)
  }

  ghost predicate NeededEvidence(criteria: seq<Criterion>, claims: Claims, evidence: set<string>, e: string) {
    e in evidence && ((e !in claims && ReferredTo(criteria, e)) || RestsOn(criteria, claims, e))
  }

  lemma CitedExactly(criteria: seq<Criterion>, claims: Claims, evidence: set<string>, id: string)
    ensures id in CitedClaims(criteria, claims) <==> id in claims && ReferredTo(criteria, id)
    ensures id in CitedEvidence(criteria, claims, evidence) <==> NeededEvidence(criteria, claims, evidence, id)
  {
    if RestsOn(criteria, claims, id) {
      var k :| k in claims && ReferredTo(criteria, k) && (id in claims[k].evidenceIds || id in claims[k].premiseIds);
      assert k in CitedClaims(criteria, claims) && id in Cites(claims[k]);
    }
    if k :| k in CitedClaims(criteria, claims) && id in Cites(claims[k]) {
      assert k in claims && ReferredTo(criteria, k);
    }
  }

  /** The event is about the task, or mentions one of the ids. */
  ghost predicate RelevantTo(e: Event, taskId: string, ids: set<string>, references: (string, set<string>) -> bool) {
    e.subjectId == Some(taskId) || (ids != {} && references(e.payload, ids))
  }

  /** With criteria, the package holds exactly the claims they refer to, the evidence they refer to or
      those claims rest on, and the events about the task or mentioning one of these or a criterion. */
  lemma PackageExactly(p: Package, taskId: string, criteria: seq<Criterion>, claims: Claims, evidence: set<string>,
                       events: seq<Event>, references: (string, set<string>) -> bool, ids: set<string>)
    requires CompiledFrom(p, taskId, criteria, claims, evidence, events, references) && criteria != []
    requires forall id :: id in ids <==>
      || (id in claims && ReferredTo(criteria, id)) || NeededEvidence(criteria, claims, evidence, id)
      || exists c :: c in criteria && c.id == id
    ensures forall id :: id in p.claims <==> id in claims && ReferredTo(criteria, id)
    ensures forall e :: e in p.evidence <==> NeededEvidence(criteria, claims, evidence, e)
    ensures forall e :: e in p.events <==> e in events && RelevantTo(e, taskId, ids, references)
  {
    forall id
      ensures id in CitedClaims(criteria, claims) <==> id in claims && ReferredTo(criteria, id)
      ensures id in CitedEvidence(criteria, claims, evidence) <==> NeededEvidence(criteria, claims, evidence, id)
    {
      CitedExactly(criteria, claims, evidence, id);
    }
    assert CitedClaims(criteria, claims) + CitedEvidence(criteria, claims, evidence) + CriterionIds(criteria) == ids;
    RelevantMembers(events, taskId, ids, references);
  }

  lemma {:induction false} RelevantMembers(events: seq<Event>, taskId: string, ids: set<string>, references: (string, set<string>) -> bool)
    ensures forall e :: e in RelevantEvents(events, taskId, ids, references) <==>
      e in events && RelevantTo(e, taskId, ids, references)
  {
    if events != [] {
      var init, last := events[..|events| - 1], events[|events| - 1];
      RelevantMembers(init, taskId, ids, references);
      assert forall e :: e in events <==> e in init || e == last;
    }
  }

  /** Selecting events keeps their order and their number. */
  lemma {:induction false} RelevantAppend(a: seq<Event>, b: seq<Event>, taskId: string, ids: set<string>, references: (string, set<string>) -> bool)
    ensures RelevantEvents(a + b, taskId, ids, references)
         == RelevantEvents(a, taskId, ids, references) + RelevantEvents(b, taskId, ids, references)
    ensures |a| == 1 ==> RelevantEvents(a, taskId, ids, references) == (if RelevantTo(a[0], taskId, ids, references) then a else [])
  {
    if |a| == 1 { assert a[..0] == [] && a == [a[0]]; }
    if b == [] {
      assert a + b == a;
    } else {
      assert (a + b)[..|a + b| - 1] == a + b[..|b| - 1];
      RelevantAppend(a, b[..|b| - 1], taskId, ids, references);
    }
  }
}
