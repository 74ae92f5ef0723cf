/** Expected calibration error, over mathematical reals. */
module CalibrationSums {
  datatype Rec = Rec(predicted: real, actual: bool)

  ghost predicate InUnit(rs: seq<Rec>) {
    forall r :: r in rs ==> 0.0 <= r.predicted <= 1.0
  }

  function Abs(x: real): real { if x >= 0.0 then x else -x }

  function Hit(r: Rec): real { if r.actual then 1.0 else 0.0 }

  function SumPredicted(rs: seq<Rec>): real {
    if rs == [] then 0.0 else SumPredicted(rs[..|rs| - 1]) + rs[|rs| - 1].predicted
  }

  function SumHits(rs: seq<Rec>): real {
    if rs == [] then 0.0 else SumHits(rs[..|rs| - 1]) + Hit(rs[|rs| - 1])
  }

  /** The bin of a prediction: `int(p * n)`, with 1.0 put into the last bin. */
  function BinOf(p: real, n: nat): (b: int)
    requires n >= 1
    ensures b < n
    ensures 0.0 <= p ==> 0 <= b
  {
    if p < 0.0 then -((-p * n as real).Floor)
    else
      assert p * n as real >= 0.0;
      var b := (p * n as real).Floor; if b <= n - 1 then b else n - 1
  }

  /** Bin `i` of `n` is the interval from i/n up to but not including (i+1)/n; the last one holds 1 too. */
  predicate InBin(p: real, n: nat, i: int)
    requires n >= 1
  {
    i as real / n as real <= p < (i + 1) as real / n as real || (p == 1.0 && i == n - 1)
  }

  lemma QuotientAtMost(x: real, n: real, p: real)
    requires n > 0.0
    ensures x / n <= p <==> x <= p * n
  {
    var q := x / n;
    assert q * n == x;
    var d := p - q;
    assert d * n == p * n - x;
    if d >= 0.0 { assert d * n >= 0.0; } else { assert d * n < 0.0; }
  }

  lemma AtMostWhole(p: real, n: real)
    requires p <= 1.0 && n > 0.0
    ensures p * n <= n
    ensures p < 1.0 ==> p * n < n
  {
    var d := 1.0 - p;
    assert d * n == n - p * n;
    if d > 0.0 { assert d * n > 0.0; }
  }

  /** The computed index is that of the interval the prediction lies in. */
  lemma BinExactly(p: real, n: nat, i: int)
    requires n >= 1 && 0.0 <= p <= 1.0 && 0 <= i < n
    ensures BinOf(p, n) == i <==> InBin(p, n, i)
  {
    var x := p * n as real;
    QuotientAtMost(i as real, n as real, p);
    QuotientAtMost((i + 1) as real, n as real, p);
    AtMostWhole(p, n as real);
    if p == 1.0 { assert x == n as real; }
    BinByFloor(p, n, x);
  }

  lemma BinByFloor(p: real, n: nat, x: real)
    requires n >= 1 && p >= 0.0 && x == p * n as real
    ensures BinOf(p, n) == if x.Floor <= n - 1 then x.Floor else n - 1
  {}

  function BinTotal(rs: seq<Rec>, n: nat, i: int): real
    requires n >= 1
  {
    if rs == [] then 0.0
    else
      var r := rs[|rs| - 1];
      BinTotal(rs[..|rs| - 1], n, i) + if InBin(r.predicted, n, i) then r.predicted else 0.0
  }

  function BinHits(rs: seq<Rec>, n: nat, i: int): real
    requires n >= 1
  {
    if rs == [] then 0.0
    else
      var r := rs[|rs| - 1];
      BinHits(rs[..|rs| - 1], n, i) + if InBin(r.predicted, n, i) then Hit(r) else 0.0
  }

  function BinCount(rs: seq<Rec>, n: nat, i: int): nat
    requires n >= 1
  {
    if rs == [] then 0
    else BinCount(rs[..|rs| - 1], n, i) + if InBin(rs[|rs| - 1].predicted, n, i) then 1 else 0
  }

  /** A bin's share of the records times the gap between its mean confidence and its accuracy. */
  function BinTerm(total: nat, count: nat, sum: real, hits: real): real
    requires total > 0
  {
    if count == 0 then 0.0
    else (count as real / total as real) * Abs(sum / count as real - hits / count as real)
  }

  function EceUpTo(rs: seq<Rec>, n: nat, k: nat): real
    requires n >= 1 && rs != []
  {
    if k == 0 then 0.0
    else EceUpTo(rs, n, k - 1) + BinTerm(|rs|, BinCount(rs, n, k - 1), BinTotal(rs, n, k - 1), BinHits(rs, n, k - 1))
  }

  const MIN_RECORDS: nat := 10

  function Ece(rs: seq<Rec>, n: nat): real
    requires n >= 1
  {
    if |rs| < MIN_RECORDS then 0.0 else EceUpTo(rs, n, n)
  }

  function MeanConfidence(rs: seq<Rec>): real
    requires rs != []
  {
    SumPredicted(rs) / |rs| as real
  }

  function Accuracy(rs: seq<Rec>): real
    requires rs != []
  {
    SumHits(rs) / |rs| as real
  }

  // ----- bounds -----

  lemma {:induction false} BinBounds(rs: seq<Rec>, n: nat, i: int)
    requires n >= 1 && InUnit(rs)
    ensures 0.0 <= BinTotal(rs, n, i) <= BinCount(rs, n, i) as real
    ensures 0.0 <= BinHits(rs, n, i) <= BinCount(rs, n, i) as real
  {
    if rs != [] {
      assert rs[|rs| - 1] in rs;
      BinBounds(rs[..|rs| - 1], n, i);
    }
  }

  lemma DivideTwice(c: real, t: real, x: real)
    requires c > 0.0 && t > 0.0
    ensures (c / t) * (x / c) == x / t
  {
    var u, q := c / t, x / c;
    assert u * t == c && q * c == x;
    assert (u * q) * t == x;
  }

  lemma AbsQuotient(x: real, y: real, c: real)
    requires c > 0.0
    ensures Abs(x / c - y / c) == Abs(x - y) / c
  {
    assert x / c - y / c == (x - y) / c;
    if x - y >= 0.0 { assert (x - y) / c >= 0.0; } else { assert (x - y) / c <= 0.0; }
  }

  /** A term is the bin's absolute surplus of confidence over hits, per record. */
  lemma TermIs(rs: seq<Rec>, n: nat, i: int)
    requires n >= 1 && rs != [] && InUnit(rs)
    ensures BinTerm(|rs|, BinCount(rs, n, i), BinTotal(rs, n, i), BinHits(rs, n, i))
         == Abs(BinTotal(rs, n, i) - BinHits(rs, n, i)) / |rs| as real
  {
    BinBounds(rs, n, i);
    TermValue(|rs|, BinCount(rs, n, i), BinTotal(rs, n, i), BinHits(rs, n, i));
  }

  lemma TermValue(total: nat, count: nat, sum: real, hits: real)
    requires total > 0 && (count == 0 ==> sum == 0.0 == hits)
    ensures BinTerm(total, count, sum, hits) == Abs(sum - hits) / total as real
  {
    if count > 0 {
      AbsQuotient(sum, hits, count as real);
      DivideTwice(count as real, total as real, Abs(sum - hits));
    }
  }

  /** Sums over the first k bins. */
  function TotalUpTo(rs: seq<Rec>, n: nat, k: nat): real
    requires n >= 1
  {
    if k == 0 then 0.0 else TotalUpTo(rs, n, k - 1) + BinTotal(rs, n, k - 1)
  }

  function HitsUpTo(rs: seq<Rec>, n: nat, k: nat): real
    requires n >= 1
  {
    if k == 0 then 0.0 else HitsUpTo(rs, n, k - 1) + BinHits(rs, n, k - 1)
  }

  function CountUpTo(rs: seq<Rec>, n: nat, k: nat): nat
    requires n >= 1
  {
    if k == 0 then 0 else CountUpTo(rs, n, k - 1) + BinCount(rs, n, k - 1)
  }

  lemma {:induction false} UpToSnoc(rs: seq<Rec>, r: Rec, n: nat, k: nat)
    requires n >= 1 && 0.0 <= r.predicted <= 1.0 && k <= n
    ensures var inside := BinOf(r.predicted, n) < k;
      && TotalUpTo(rs + [r], n, k) == TotalUpTo(rs, n, k) + (if inside then r.predicted else 0.0)
      && HitsUpTo(rs + [r], n, k) == HitsUpTo(rs, n, k) + (if inside then Hit(r) else 0.0)
      && CountUpTo(rs + [r], n, k) == CountUpTo(rs, n, k) + (if inside then 1 else 0)
  {
    assert (rs + [r])[..|rs|] == rs;
    if k > 0 {
      UpToSnoc(rs, r, n, k - 1);
      BinExactly(r.predicted, n, k - 1);
    }
  }

  lemma {:induction false} EmptyUpTo(n: nat, k: nat)
    requires n >= 1
    ensures TotalUpTo([], n, k) == 0.0 && HitsUpTo([], n, k) == 0.0 && CountUpTo([], n, k) == 0
  {
    if k > 0 { EmptyUpTo(n, k - 1); }
  }

  /** The bins partition the records. */
  lemma {:induction false} BinsPartition(rs: seq<Rec>, n: nat)
    requires n >= 1 && InUnit(rs)
    ensures TotalUpTo(rs, n, n) == SumPredicted(rs)
    ensures HitsUpTo(rs, n, n) == SumHits(rs)
    ensures CountUpTo(rs, n, n) == |rs|
  {
    if rs == [] {
      EmptyUpTo(n, n);
    } else {
      var init, r := rs[..|rs| - 1], rs[|rs| - 1];
      assert r in rs && rs == init + [r];
      BinsPartition(init, n);
      UpToSnoc(init, r, n, n);
    }
  }

  lemma DivAdd(a: real, b: real, t: real)
    requires t > 0.0
    ensures (a + b) / t == a / t + b / t
  {}

  lemma DivMono(a: real, b: real, t: real)
    requires t > 0.0 && a <= b
    ensures a / t <= b / t
  {}

  lemma {:induction false} EceBetween(rs: seq<Rec>, n: nat, k: nat)
    requires n >= 1 && rs != [] && InUnit(rs)
    ensures Abs(TotalUpTo(rs, n, k) - HitsUpTo(rs, n, k)) / |rs| as real <= EceUpTo(rs, n, k)
    ensures EceUpTo(rs, n, k) <= CountUpTo(rs, n, k) as real / |rs| as real
  {
    var t := |rs| as real;
    if k > 0 {
      EceBetween(rs, n, k - 1);
      TermIs(rs, n, k - 1);
      BinBounds(rs, n, k - 1);
      var d, e := TotalUpTo(rs, n, k - 1) - HitsUpTo(rs, n, k - 1), BinTotal(rs, n, k - 1) - BinHits(rs, n, k - 1);
      DivAdd(Abs(d), Abs(e), t);
      DivMono(Abs(d + e), Abs(d) + Abs(e), t);
      DivMono(Abs(e), BinCount(rs, n, k - 1) as real, t);
      DivAdd(CountUpTo(rs, n, k - 1) as real, BinCount(rs, n, k - 1) as real, t);
    }
  }

  /** For any number of bins, the calibration error bounds the global gap between mean confidence and
      accuracy, and is itself at most 1. */
  lemma EceBoundsGap(rs: seq<Rec>, n: nat)
    requires n >= 1 && |rs| >= MIN_RECORDS && InUnit(rs)
    ensures Abs(MeanConfidence(rs) - Accuracy(rs)) <= Ece(rs, n) <= 1.0
  {
    BinsPartition(rs, n);
    EceBetween(rs, n, n);
    AbsQuotient(SumPredicted(rs), SumHits(rs), |rs| as real);
  }

  /** With a single bin the error is exactly the global gap. */
  lemma OneBinIsGap(rs: seq<Rec>)
    requires |rs| >= MIN_RECORDS && InUnit(rs)
    ensures Ece(rs, 1) == Abs(MeanConfidence(rs) - Accuracy(rs))
  {
    BinsPartition(rs, 1);
    assert TotalUpTo(rs, 1, 0) == 0.0 && HitsUpTo(rs, 1, 0) == 0.0;
    assert TotalUpTo(rs, 1, 1) == BinTotal(rs, 1, 0) && HitsUpTo(rs, 1, 1) == BinHits(rs, 1, 0);
    TermIs(rs, 1, 0);
    AbsQuotient(SumPredicted(rs), SumHits(rs), |rs| as real);
    assert EceUpTo(rs, 1, 0) == 0.0;
  }

  /** The positions of the records with a property. */
  ghost function Positions(rs: seq<Rec>, holds: Rec -> bool): set<nat> {
    set k: nat | k < |rs| && holds(rs[k])
  }

  lemma PositionsSnoc(init: seq<Rec>, r: Rec, holds: Rec -> bool)
    ensures |Positions(init + [r], holds)| == |Positions(init, holds)| + if holds(r) then 1 else 0
  {
    var rs := init + [r];
    assert Positions(rs, holds) == Positions(init, holds) + if holds(r) then {|init|} else {};
    assert |init| !in Positions(init, holds);
  }

  lemma NoPositions(holds: Rec -> bool)
    ensures |Positions([], holds)| == 0
  {
    assert Positions([], holds) == {};
  }

  function Inside(n: nat, i: int): Rec -> bool
    requires n >= 1
  {
    (r: Rec) => n >= 1 && InBin(r.predicted, n, i)
  }

  function Correct(): Rec -> bool { (r: Rec) => r.actual }

  function InsideAndCorrect(n: nat, i: int): Rec -> bool
    requires n >= 1
  {
    (r: Rec) => n >= 1 && InBin(r.predicted, n, i) && r.actual
  }

  /** A bin counts its records, and its hits are those of them that came true. */
  lemma {:induction false} BinCountsPositions(rs: seq<Rec>, n: nat, i: int)
    requires n >= 1
    ensures BinCount(rs, n, i) == |Positions(rs, Inside(n, i))|
    ensures BinHits(rs, n, i) == |Positions(rs, InsideAndCorrect(n, i))| as real
  {
    if rs == [] {
      NoPositions(Inside(n, i));
      NoPositions(InsideAndCorrect(n, i));
    } else {
      var init, r := rs[..|rs| - 1], rs[|rs| - 1];
      assert rs == init + [r];
      BinCountsPositions(init, n, i);
      PositionsSnoc(init, r, Inside(n, i));
      PositionsSnoc(init, r, InsideAndCorrect(n, i));
    }
  }

  /** Accuracy is the share of the records that came true. */
  lemma {:induction false} HitsAreCorrect(rs: seq<Rec>)
    ensures SumHits(rs) == |Positions(rs, Correct())| as real
  {
    if rs == [] {
      NoPositions(Correct());
    } else {
      var init, r := rs[..|rs| - 1], rs[|rs| - 1];
      assert rs == init + [r];
      HitsAreCorrect(init);
      PositionsSnoc(init, r, Correct());
    }
  }

  /** The absolute surpluses of confidence over hits of the first `k` bins, added up. */
  function SurplusUpTo(rs: seq<Rec>, n: nat, k: nat): real
    requires n >= 1
  {
    if k == 0 then 0.0 else SurplusUpTo(rs, n, k - 1) + Abs(BinTotal(rs, n, k - 1) - BinHits(rs, n, k - 1))
  }

  /** The error is the sum over the bins of how far the confidences there exceed or fall short of the
      hits, per record: surpluses of one bin do not make up for another.  With fewer than ten records
      it is 0. */
  lemma EceIsSurplus(rs: seq<Rec>, n: nat)
    requires n >= 1 && InUnit(rs)
    ensures |rs| < 10 ==> Ece(rs, n) == 0.0
    ensures |rs| >= 10 ==> Ece(rs, n) == SurplusUpTo(rs, n, n) / |rs| as real
  {
    if rs != [] { SurplusTo(rs, n, n); }
  }

  lemma {:induction false} SurplusTo(rs: seq<Rec>, n: nat, k: nat)
    requires n >= 1 && rs != [] && InUnit(rs)
    ensures EceUpTo(rs, n, k) == SurplusUpTo(rs, n, k) / |rs| as real
  {
    if k > 0 {
      SurplusTo(rs, n, k - 1);
      TermIs(rs, n, k - 1);
      DivAdd(SurplusUpTo(rs, n, k - 1), Abs(BinTotal(rs, n, k - 1) - BinHits(rs, n, k - 1)), |rs| as real);
    }
  }

  lemma {:induction false} SumsInUnit(rs: seq<Rec>)
    requires InUnit(rs)
    ensures 0.0 <= SumPredicted(rs) <= |rs| as real && 0.0 <= SumHits(rs) <= |rs| as real
  {
    if rs != [] {
      assert rs[|rs| - 1] in rs;
      SumsInUnit(rs[..|rs| - 1]);
    }
  }
}

module Calibration {
  import opened Base
  import opened CalibrationSums

  datatype Error = OutOfRange

  const FALLBACK_FACTOR: real := 0.5

  /** Accuracy over mean confidence, clipped to [0, 1]; 1 without enough data. */
  function Factor(rs: seq<Rec>): real {
    if |rs| < MIN_RECORDS || MeanConfidence(rs) == 0.0 then 1.0
    else
      var f := Accuracy(rs) / MeanConfidence(rs);
      var capped := if f < 1.0 then f else 1.0;
      if capped > 0.0 then capped else 0.0
  }

  function Multiplier(rs: seq<Rec>): real {
    if |rs| >= MIN_RECORDS then Factor(rs) else FALLBACK_FACTOR
  }

  function Scaled(raw: real, factor: real): real { raw * factor }

  function Calibrated(rs: seq<Rec>, raw: real): real { Scaled(raw, Multiplier(rs)) }

  class CalibrationStore {
    var records: map<string, seq<Rec>>

    ghost predicate Valid()
      reads this
    {
      forall m :: m in records ==> InUnit(records[m])
    }

    function Records(model: string): seq<Rec>
      reads this
    {
      if model in records then records[model] else []
    }

    constructor ()
      ensures Valid() && records == map[]
    {
      records := map[];
    }

    method RecordOutcome(model: string, predicted: real, actual: bool) returns (r: Result<(), Error>)
      requires Valid()
      modifies this
      ensures Valid()
      ensures r.Ok? <==> 0.0 <= predicted <= 1.0
      ensures r.Err? ==> records == old(records)
      ensures r.Ok? ==> records == old(records)[model := old(Records(model)) + [Rec(predicted, actual)]]
    {
      if !(0.0 <= predicted <= 1.0) { return Err(OutOfRange); }
      if model !in records { records := records[model := []]; }
      records := records[model := records[model] + [Rec(predicted, actual)]];
      return Ok(());
    }

    method RecordCount(model: string) returns (n: nat)
      ensures n == |Records(model)|
    {
      n := |Records(model)|;
    }

    /** Fills one total, one hit count and one size per bin, then adds up the bins. */
    method ComputeEce(model: string, nBins: nat) returns (ece: real)
      requires Valid() && nBins >= 1
      ensures ece == Ece(Records(model), nBins)
    {
      var rs := Records(model);
      if |rs| < MIN_RECORDS { return 0.0; }
      var totals, hits, counts := FillBins(rs, nBins);
      ece := 0.0;
      var i := 0;
      while i < nBins
        invariant i <= nBins && ece == EceUpTo(rs, nBins, i)
      {
        if counts[i] != 0 {
          var avgConfidence := totals[i] / counts[i] as real;
          var avgAccuracy := hits[i] / counts[i] as real;
          ece := ece + (counts[i] as real / |rs| as real) * Abs(avgConfidence - avgAccuracy);
        }
        i := i + 1;
      }
    }

    /** True only with enough data, and then the mean confidence is within the threshold of the accuracy. */
    method IsCalibrated(model: string, threshold: real) returns (calibrated: bool)
      requires Valid()
      ensures calibrated <==> |Records(model)| >= MIN_RECORDS && Ece(Records(model), 10) <= threshold
      ensures calibrated ==> Abs(MeanConfidence(Records(model)) - Accuracy(Records(model))) <= threshold
    {
      var n := RecordCount(model);
      if n < MIN_RECORDS { return false; }
      var ece := ComputeEce(model, 10);
      EceBoundsGap(Records(model), 10);
      return ece <= threshold;
    }

    method CalibrationFactor(model: string) returns (factor: real)
      requires Valid()
      ensures factor == Factor(Records(model)) && 0.0 <= factor <= 1.0
    {
      var rs := Records(model);
      if |rs| < MIN_RECORDS { return 1.0; }
      var mean, accuracy := Means(rs);
      if mean == 0.0 { return 1.0; }
      var f := accuracy / mean;
      f := if f < 1.0 then f else 1.0;
      return if f > 0.0 then f else 0.0;
    }

    /** Calibration only ever lowers a confidence that is not negative, and raises every other one
        unless it leaves all as they are. */
    method CalibratedConfidence(model: string, raw: real) returns (c: real)
      requires Valid()
      ensures c == Calibrated(Records(model), raw)
      ensures raw >= 0.0 ==> 0.0 <= c <= raw
      ensures c <= raw <==>
        raw >= 0.0 || (|Records(model)| >= MIN_RECORDS && MeanConfidence(Records(model)) <= Accuracy(Records(model)))
    {
      var n := RecordCount(model);
      var factor := FALLBACK_FACTOR;
      if n >= MIN_RECORDS { factor := CalibrationFactor(model); }
      assert factor == Multiplier(Records(model));
      NothingTaken(Records(model));
      Shrink(raw, factor);
      c := Scaled(raw, factor);
    }
  }

  /** With fewer than ten records half of a confidence is taken, otherwise the records decide. */
  lemma TenRecordsDecide(rs: seq<Rec>, raw: real)
    ensures |rs| < 10 ==> Calibrated(rs, raw) == raw * 0.5
    ensures |rs| >= 10 ==> Calibrated(rs, raw) == Scaled(raw, Factor(rs))
  {}

  /** Calibration leaves confidences as they are exactly when the model is known not to be overconfident. */
  lemma NothingTaken(rs: seq<Rec>)
    requires InUnit(rs)
    ensures Multiplier(rs) == 1.0 <==> |rs| >= MIN_RECORDS && MeanConfidence(rs) <= Accuracy(rs)
  {
    if |rs| >= MIN_RECORDS {
      var m, a := MeanConfidence(rs), Accuracy(rs);
      SumsInUnit(rs);
      DivMono(0.0, SumPredicted(rs), |rs| as real);
      DivMono(0.0, SumHits(rs), |rs| as real);
      if m > 0.0 { QuotientAtLeastOne(a, m); }
    }
  }

  lemma QuotientAtLeastOne(a: real, m: real)
    requires a >= 0.0 && m > 0.0
    ensures a / m >= 1.0 <==> a >= m
    ensures a / m >= 0.0
  {
    var f := a / m;
    assert f * m == a;
    BelowOne(f, m);
  }

  lemma Shrink(raw: real, factor: real)
    requires 0.0 <= factor <= 1.0
    ensures raw >= 0.0 ==> 0.0 <= Scaled(raw, factor) <= raw
    ensures Scaled(raw, factor) <= raw <==> raw >= 0.0 || factor == 1.0
  {
    var loss := 1.0 - factor;
    Split(raw, factor, loss);
    if raw >= 0.0 {
      ProductSign(raw, loss);
      ProductSign(raw, factor);
    } else {
      ProductSign(-raw, loss);
      NegateProduct(raw, loss);
    }
  }

  lemma Split(raw: real, factor: real, loss: real)
    requires loss == 1.0 - factor
    ensures raw * factor == raw - raw * loss
  {}

  lemma ProductSign(x: real, y: real)
    requires x >= 0.0 && y >= 0.0
    ensures x * y >= 0.0
    ensures x * y == 0.0 <==> x == 0.0 || y == 0.0
  {}

  lemma NegateProduct(x: real, y: real)
    ensures (-x) * y == -(x * y)
  {}

  method FillBins(rs: seq<Rec>, nBins: nat) returns (totals: array<real>, hits: array<real>, counts: array<nat>)
    requires nBins >= 1 && InUnit(rs)
    ensures totals.Length == nBins && hits.Length == nBins && counts.Length == nBins
    ensures forall i :: 0 <= i < nBins ==> totals[i] == BinTotal(rs, nBins, i)
    ensures forall i :: 0 <= i < nBins ==> hits[i] == BinHits(rs, nBins, i)
    ensures forall i :: 0 <= i < nBins ==> counts[i] == BinCount(rs, nBins, i)
  {
    totals, hits, counts := new real[nBins](_ => 0.0), new real[nBins](_ => 0.0), new nat[nBins](_ => 0);
    var k := 0;
    while k < |rs|
      invariant k <= |rs|
      invariant forall i :: 0 <= i < nBins ==> totals[i] == BinTotal(rs[..k], nBins, i)
      invariant forall i :: 0 <= i < nBins ==> hits[i] == BinHits(rs[..k], nBins, i)
      invariant forall i :: 0 <= i < nBins ==> counts[i] == BinCount(rs[..k], nBins, i)
    {
      var r := rs[k];
      assert r in rs;
      assert rs[..k + 1][..k] == rs[..k];
      var b := BinOf(r.predicted, nBins);
      forall i | 0 <= i < nBins ensures InBin(r.predicted, nBins, i) <==> i == b { BinExactly(r.predicted, nBins, i); }
      totals[b] := totals[b] + r.predicted;
      counts[b] := counts[b] + 1;
      if r.actual { hits[b] := hits[b] + 1.0; }
      k := k + 1;
    }
    assert rs[..k] == rs;
  }

  method Means(rs: seq<Rec>) returns (mean: real, accuracy: real)
    requires rs != []
    ensures mean == MeanConfidence(rs) && accuracy == Accuracy(rs)
  {
    var sum, right, k := 0.0, 0.0, 0;
    while k < |rs|
      invariant k <= |rs| && sum == SumPredicted(rs[..k]) && right == SumHits(rs[..k])
    {
      assert rs[..k + 1][..k] == rs[..k];
      sum := sum + rs[k].predicted;
      if rs[k].actual { right := right + 1.0; }
      k := k + 1;
    }
    assert rs[..k] == rs;
    return sum / |rs| as real, right / |rs| as real;
  }

  lemma BelowOne(f: real, m: real)
    requires m > 0.0
    ensures f < 1.0 <==> f * m < m
  {
    if f < 1.0 { assert (1.0 - f) * m > 0.0; } else { assert (f - 1.0) * m >= 0.0; }
  }

  /** On average calibration removes exactly the overconfidence: the calibrated mean confidence is the
      mean confidence where that is at most the accuracy, and the accuracy otherwise. */
  lemma CalibratedMean(rs: seq<Rec>)
    requires |rs| >= MIN_RECORDS && InUnit(rs)
    ensures var (m, a) := (MeanConfidence(rs), Accuracy(rs));
      Calibrated(rs, m) == if m <= a then m else a
  {
    SumsInUnit(rs);
    var m, a := MeanConfidence(rs), Accuracy(rs);
    DivMono(0.0, SumPredicted(rs), |rs| as real);
    DivMono(0.0, SumHits(rs), |rs| as real);
    assert m >= 0.0 && a >= 0.0;
    if m > 0.0 {
      var f := a / m;
      assert f * m == a;
      assert f >= 0.0;
      BelowOne(f, m);
    }
  }
}
