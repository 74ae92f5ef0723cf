/** The cost-quality Pareto filter: sort by accuracy, then scan for falling cost. */
module Pareto {
  import opened Base
  import opened Sorting

  /** A cohort report as read from the benchmark results; absent fields take their fallbacks. */
  datatype Report =
    | Failed
    | Report(cohort: string, accuracy: Option<real>, totalCost: Option<real>, meanCostPerCorrect: Option<real>,
             p95Latency: Option<real>, meanLatency: Option<real>)

  datatype Point = Point(cohort: string, accuracy: real, cost: real, latency: real, efficiency: real)

  function PointOf(r: Report): Point
    requires r.Report?
  {
    var accuracy := GetOr(r.accuracy, 0.0);
    var cost := GetOr(r.totalCost, GetOr(r.meanCostPerCorrect, 0.0));
    Point(r.cohort, accuracy, cost, GetOr(r.p95Latency, GetOr(r.meanLatency, 0.0)),
          accuracy / (if cost > 0.0001 then cost else 0.0001))
  }

  function Points(reports: seq<Report>): seq<Point> {
    if reports == [] then []
    else
      var r := reports[|reports| - 1];
      Points(reports[..|reports| - 1]) + if r.Report? then [PointOf(r)] else []
  }

  /** What a report reads as: absent fields are 0, the mean cost stands in for the total and the mean
      latency for the 95th percentile; the efficiency is the accuracy per unit of cost, where a cost
      counts as at least 0.0001. */
  lemma PointReads(r: Report)
    requires r.Report?
    ensures var p := PointOf(r);
      && p.cohort == r.cohort
      && (r.accuracy == Some(p.accuracy) || (r.accuracy == None && p.accuracy == 0.0))
      && (r.totalCost == Some(p.cost) || (r.totalCost == None && (r.meanCostPerCorrect == Some(p.cost)
            || (r.meanCostPerCorrect == None && p.cost == 0.0))))
      && (r.p95Latency == Some(p.latency) || (r.p95Latency == None && (r.meanLatency == Some(p.latency)
            || (r.meanLatency == None && p.latency == 0.0))))
      && (p.cost >= 0.0001 ==> p.efficiency * p.cost == p.accuracy)
      && (p.cost < 0.0001 ==> p.efficiency * 0.0001 == p.accuracy)
  {}

  /** Every report without an error gives one point, in order. */
  lemma {:induction false} PointsAppend(a: seq<Report>, b: seq<Report>)
    ensures Points(a + b) == Points(a) + Points(b)
    ensures |a| == 1 ==> Points(a) == (if a[0].Report? then [PointOf(a[0])] else [])
  {
    if |a| == 1 { assert a[..0] == []; }
    if b == [] {
      assert a + b == a;
    } else {
      assert (a + b)[..|a + b| - 1] == a + b[..|b| - 1];
      PointsAppend(a, b[..|b| - 1]);
    }
  }

  /** Sorting by accuracy, highest first, ties in input order. */
  predicate AccuracyLeq(a: Point, b: Point) { a.accuracy >= b.accuracy }

  /** Keep every point cheaper than all points before it. */
  function Scan(ps: seq<Point>): (r: seq<Point>) {
    if ps == [] then []
    else
      var init, p := ps[..|ps| - 1], ps[|ps| - 1];
      if forall q :: q in init ==> p.cost < q.cost then Scan(init) + [p] else Scan(init)
  }

  function Frontier(points: seq<Point>): seq<Point> {
    Scan(Sort(points, AccuracyLeq))
  }

  method ComputeParetoFrontier(reports: seq<Report>) returns (pareto: seq<Point>)
    ensures pareto == Frontier(Points(reports))
  {
    var points: seq<Point> := [];
    var i := 0;
    while i < |reports|
      invariant i <= |reports| && points == Points(reports[..i])
    {
      assert reports[..i + 1][..i] == reports[..i];
      if reports[i].Report? { points := points + [PointOf(reports[i])]; }
      i := i + 1;
    }
    assert reports[..i] == reports;
    points := Sort(points, AccuracyLeq);
    pareto := ScanCosts(points);
  }

  /** `bestCost` is the least cost seen, None standing for infinity. */
  method ScanCosts(points: seq<Point>) returns (pareto: seq<Point>)
    ensures pareto == Scan(points)
  {
    pareto := [];
    var bestCost: Option<real> := None;
    ghost var done: seq<Point> := [];
    var i := 0;
    while i < |points|
      invariant i <= |points| && done == points[..i] && pareto == Scan(done)
      invariant bestCost.None? ==> done == []
      invariant bestCost.Some? ==> forall q :: q in done ==> bestCost.value <= q.cost
      invariant bestCost.Some? ==> exists q :: q in done && q.cost == bestCost.value
    {
      var p := points[i];
      assert (done + [p])[..|done|] == done;
      assert p in done + [p];
      if bestCost.None? || p.cost < bestCost.value {
        pareto := pareto + [p];
        bestCost := Some(p.cost);
      }
      done := done + [p];
      i := i + 1;
    }
    assert done == points;
  }

  // ----- the scan, by position -----

  predicate InRange(pts: seq<Point>, i: int) { 0 <= i < |pts| }

  function At(pts: seq<Point>, i: int): Point {
    if InRange(pts, i) then pts[i] else Point("", 0.0, 0.0, 0.0, 0.0)
  }

  function PointsAt(pts: seq<Point>, order: seq<int>): (r: seq<Point>)
    ensures |r| == |order| && forall k :: 0 <= k < |order| ==> r[k] == At(pts, order[k])
  {
    Map((i: int) => At(pts, i), order)
  }

  /** The positions the scan keeps, over a list of positions. */
  function ScanAt(pts: seq<Point>, order: seq<int>): seq<int> {
    if order == [] then []
    else
      var init, i := order[..|order| - 1], order[|order| - 1];
      if CheaperThanAll(pts, i, init) then ScanAt(pts, init) + [i] else ScanAt(pts, init)
  }

  predicate CheaperThanAll(pts: seq<Point>, i: int, js: seq<int>) {
    forall j :: j in js ==> At(pts, i).cost < At(pts, j).cost
  }

  lemma CheaperByPoint(pts: seq<Point>, i: int, js: seq<int>)
    ensures CheaperThanAll(pts, i, js) <==> forall q :: q in PointsAt(pts, js) ==> At(pts, i).cost < q.cost
  {
    var ps := PointsAt(pts, js);
    if CheaperThanAll(pts, i, js) {
      forall q | q in ps ensures At(pts, i).cost < q.cost {
        var k :| 0 <= k < |js| && ps[k] == q;
        assert js[k] in js;
      }
    }
    if forall q :: q in ps ==> At(pts, i).cost < q.cost {
      forall j | j in js ensures At(pts, i).cost < At(pts, j).cost {
        var k :| 0 <= k < |js| && js[k] == j;
        assert ps[k] in ps;
      }
    }
  }

  lemma {:induction false} ScanMap(pts: seq<Point>, order: seq<int>)
    ensures Scan(PointsAt(pts, order)) == PointsAt(pts, ScanAt(pts, order))
  {
    if order != [] {
      var init, i := order[..|order| - 1], order[|order| - 1];
      var ps := PointsAt(pts, order);
      ScanMap(pts, init);
      CheaperByPoint(pts, i, init);
      assert ps[..|ps| - 1] == PointsAt(pts, init);
    }
  }

  ghost predicate Earlier(i: int, j: int) { i < j }

  function ByAccuracy(pts: seq<Point>): (int, int) -> bool {
    (i: int, j: int) => AccuracyLeq(At(pts, i), At(pts, j))
  }

  /** Position `j` comes before `i` in the sorted order. */
  ghost predicate Ahead(pts: seq<Point>, j: int, i: int) {
    At(pts, j).accuracy > At(pts, i).accuracy || (At(pts, j).accuracy == At(pts, i).accuracy && j < i)
  }

  function SortedPositions(pts: seq<Point>): seq<int> {
    Sort(UpTo(|pts|), ByAccuracy(pts))
  }

  function FrontierAt(pts: seq<Point>): seq<int> {
    ScanAt(pts, SortedPositions(pts))
  }

  ghost predicate InOrder(pts: seq<Point>, order: seq<int>) {
    forall a, b :: 0 <= a < b < |order| ==> Ahead(pts, order[a], order[b])
  }

  lemma SortedPositionsFacts(pts: seq<Point>)
    ensures forall i :: i in SortedPositions(pts) <==> InRange(pts, i)
    ensures InOrder(pts, SortedPositions(pts))
  {
    var leq := ByAccuracy(pts);
    SortContents(UpTo(|pts|), leq);
    forall i ensures i in UpTo(|pts|) <==> InRange(pts, i) {
      if InRange(pts, i) { assert UpTo(|pts|)[i] == i; }
    }
    SortStable(UpTo(|pts|), leq, Earlier);
    var order := SortedPositions(pts);
    forall a, b | 0 <= a < b < |order| ensures Ahead(pts, order[a], order[b]) {
      assert Lex(leq, Earlier)(order[a], order[b]);
    }
  }

  /** The returned points are those at the positions the scan keeps. */
  lemma FrontierIsAtPositions(pts: seq<Point>)
    ensures Frontier(pts) == PointsAt(pts, FrontierAt(pts))
  {
    SortMap((i: int) => At(pts, i), UpTo(|pts|), AccuracyLeq, ByAccuracy(pts));
    assert PointsAt(pts, UpTo(|pts|)) == pts;
    ScanMap(pts, SortedPositions(pts));
  }

  // ----- what the scan keeps -----

  lemma {:induction false} ScanKeeps(pts: seq<Point>, order: seq<int>)
    requires InOrder(pts, order)
    ensures forall i :: i in ScanAt(pts, order) <==>
      i in order && forall j :: j in order && Ahead(pts, j, i) ==> At(pts, i).cost < At(pts, j).cost
    ensures InOrder(pts, ScanAt(pts, order))
  {
    if order != [] {
      var init, last := order[..|order| - 1], order[|order| - 1];
      assert forall k :: k in order <==> k in init || k == last;
      ScanKeeps(pts, init);
      forall j | j in init ensures Ahead(pts, j, last) && !Ahead(pts, last, j) {
        var k :| 0 <= k < |init| && init[k] == j;
        assert Ahead(pts, order[k], order[|order| - 1]);
      }
      var kept := ScanAt(pts, init);
      forall a | 0 <= a < |kept| ensures Ahead(pts, kept[a], last) { assert kept[a] in kept; }
    }
  }

  /** Exactly which points are returned: those that are cheaper than every point of higher accuracy and
      than every earlier point of the same accuracy. */
  lemma FrontierExactly(pts: seq<Point>)
    ensures forall i :: i in FrontierAt(pts) <==>
      InRange(pts, i) && forall j :: InRange(pts, j) && Ahead(pts, j, i) ==> At(pts, i).cost < At(pts, j).cost
    ensures InOrder(pts, FrontierAt(pts))
  {
    SortedPositionsFacts(pts);
    ScanKeeps(pts, SortedPositions(pts));
  }

  /** Another point is better in both respects. */
  ghost predicate Dominated(pts: seq<Point>, i: int) {
    exists j :: InRange(pts, j) && At(pts, j).accuracy > At(pts, i).accuracy && At(pts, j).cost < At(pts, i).cost
  }

  /** Soundness, and its exact limit: no returned point is dominated, and an undominated point is left out
      exactly when a point ahead of it ties with it, in cost or in accuracy, at no higher cost. */
  lemma FrontierVsDominance(pts: seq<Point>, i: int)
    requires InRange(pts, i)
    ensures i in FrontierAt(pts) ==> !Dominated(pts, i)
    ensures !Dominated(pts, i) ==>
      (i !in FrontierAt(pts) <==>
         exists j :: InRange(pts, j) && Ahead(pts, j, i) && At(pts, j).cost <= At(pts, i).cost
                     && (At(pts, j).cost == At(pts, i).cost || At(pts, j).accuracy == At(pts, i).accuracy))
  {
    FrontierExactly(pts);
    if i !in FrontierAt(pts) && !Dominated(pts, i) {
      var j :| InRange(pts, j) && Ahead(pts, j, i) && At(pts, i).cost >= At(pts, j).cost;
      assert At(pts, j).cost == At(pts, i).cost || At(pts, j).accuracy == At(pts, i).accuracy;
    }
  }

  /** An undominated point can be left out: here the later of two equal ones. */
  lemma TieIsDropped(p: Point)
    ensures var pts := [p, p];
      InRange(pts, 1) && !Dominated(pts, 1) && 0 in FrontierAt(pts) && 1 !in FrontierAt(pts)
  {
    var pts := [p, p];
    FrontierExactly(pts);
    assert InRange(pts, 0) && Ahead(pts, 0, 1) && At(pts, 0).cost == At(pts, 1).cost;
    assert forall j :: InRange(pts, j) ==> !Ahead(pts, j, 0);
  }

  /** Covering: for every point some returned point is at least as accurate and no dearer. */
  lemma {:induction false} FrontierCovers(pts: seq<Point>, i: int) returns (k: int)
    requires InRange(pts, i)
    ensures k in FrontierAt(pts) && InRange(pts, k)
    ensures pts[k].accuracy >= pts[i].accuracy && pts[k].cost <= pts[i].cost
    decreases AheadCount(pts, i)
  {
    FrontierExactly(pts);
    if i in FrontierAt(pts) {
      k := i;
    } else {
      var j :| InRange(pts, j) && Ahead(pts, j, i) && At(pts, i).cost >= At(pts, j).cost;
      AheadCountFalls(pts, j, i);
      k := FrontierCovers(pts, j);
    }
  }

  ghost function AheadSet(pts: seq<Point>, i: int): set<int> {
    set j: int | 0 <= j < |pts| && Ahead(pts, j, i)
  }

  ghost function AheadCount(pts: seq<Point>, i: int): nat {
    |AheadSet(pts, i)|
  }

  lemma AheadCountFalls(pts: seq<Point>, j: int, i: int)
    requires InRange(pts, j) && Ahead(pts, j, i)
    ensures AheadCount(pts, j) < AheadCount(pts, i)
  {
    var a, b := AheadSet(pts, j), AheadSet(pts, i);
    assert j in b && j !in a;
    assert a <= b - {j};
    SubsetSize(a, b - {j});
  }

  /** Along the returned list costs strictly fall and accuracies do not rise. */
  lemma FrontierFalls(pts: seq<Point>)
    ensures forall a, b :: 0 <= a < b < |Frontier(pts)| ==>
      Frontier(pts)[a].cost > Frontier(pts)[b].cost && Frontier(pts)[a].accuracy >= Frontier(pts)[b].accuracy
  {
    FrontierIsAtPositions(pts);
    FrontierExactly(pts);
    var f := FrontierAt(pts);
    forall a, b | 0 <= a < b < |Frontier(pts)|
      ensures Frontier(pts)[a].cost > Frontier(pts)[b].cost && Frontier(pts)[a].accuracy >= Frontier(pts)[b].accuracy
    {
      assert f[a] in f && f[b] in f;
      assert Ahead(pts, f[a], f[b]);
    }
  }
}
