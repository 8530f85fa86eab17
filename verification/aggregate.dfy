/**
 * The running aggregate `Aggr`: per-row running means and second moments
 * over the columns of a table, one column being one more observation of
 * every row.
 *
 * `AggrState` is the abstract value of an aggregate; `Initialized`, `Step`,
 * `FoldRange` and `AccumulateSpec` are the specification of its operations,
 * and the class `Aggr` is the object whose methods update the fields in
 * place and are proved equal to them. The update follows the code, which
 * takes the absolute value of both deltas; the recurrence written in the
 * doc comment above `Accumulate` is `WelfordUpdate`, related to the code's
 * step by `StepMatchesWelfordAtOrAbove` and `AbsMeanExceedsWelfordBelow`.
 */
module Aggregate {
  import opened Wrappers
  import opened Compute

  /** The fields of an aggregate: columns folded so far, running means, running M2. */
  datatype AggrState = AggrState(count: nat, means: Option<Column>, variances: Option<Column>)

  /** A named column of a result table. */
  datatype NamedColumn = NamedColumn(name: string, values: Option<Column>)

  /** The state a constructor leaves: count 0 and null columns. */
  const Empty: AggrState := AggrState(0, None, None)

  /** The state `Initialize(col)` leaves: the column is the mean, every M2 is 0. */
  function Initialized(col: Column): AggrState {
    AggrState(1, Some(col), Some(Zeros(|col|)))
  }

  /** One pass of the loop body of Accumulate: fold column `x` into `s`. */
  function Step(s: AggrState, x: Column): AggrState {
    var n := s.count + 1;
    var deltaMean := VecAbs(VecSub(Some(x), s.means));
    var means := VecAdd(s.means, VecDivScalar(deltaMean, n as real));
    var deltaVar := VecAbs(VecSub(Some(x), means));
    var variances := VecAdd(s.variances, VecMul(deltaVar, deltaMean));
    AggrState(n, means, variances)
  }

  /** Columns `lo` up to (excluding) `hi` of `t` folded into `s`, in order. */
  function FoldRange(s: AggrState, t: seq<Column>, lo: int, hi: int): (r: AggrState)
    requires lo < hi ==> 0 <= lo && hi <= |t|
    decreases hi - lo
  {
    if hi <= lo then s else Step(FoldRange(s, t, lo, hi - 1), t[hi - 1])
  }

  /** The first column the loop of Accumulate visits: an empty aggregate consumes `start` first. */
  function LoopStart(s: AggrState, start: int): int {
    if s.count == 0 then start + 1 else start
  }

  /** The loop's exclusive bound: a stop index of 0 means "through the last column". */
  function LoopStop(t: seq<Column>, stop: int): int {
    if stop == 0 then |t| else stop
  }

  /** Every column Accumulate reads exists: `Table::column` does not check its index. */
  predicate WindowOk(s: AggrState, t: seq<Column>, start: int, stop: int) {
    && (s.count == 0 ==> 0 <= start < |t|)
    && (LoopStart(s, start) < LoopStop(t, stop) ==> 0 <= LoopStart(s, start) && LoopStop(t, stop) <= |t|)
  }

  /** The state after `Accumulate(t, start, stop)`. */
  function AccumulateSpec(s: AggrState, t: seq<Column>, start: int, stop: int): AggrState
    requires WindowOk(s, t, start, stop)
  {
    var first := if s.count == 0 then Initialized(t[start]) else s;
    FoldRange(first, t, LoopStart(s, start), LoopStop(t, stop))
  }

  /** The two-column table {mean, variance} that TakeResult builds over the current columns. */
  function ResultTable(s: AggrState): seq<NamedColumn> {
    [NamedColumn("mean", s.means), NamedColumn("variance", s.variances)]
  }

  // ---------------------------------------------------------------------
  // The object

  class Aggr {
    var count: nat
    var means: Option<Column>
    var variances: Option<Column>

    /** The abstract value of this aggregate. */
    function State(): AggrState
      reads this
    {
      AggrState(count, means, variances)
    }

    constructor ()
      ensures State() == Empty
    {
      count := 0;
      means := None;
      variances := None;
    }

    method Initialize(initialVals: Column)
      modifies this
      ensures State() == Initialized(initialVals)
    {
      var initialVars := Zeros(|initialVals|);
      variances := Some(initialVars);
      means := Some(initialVals);
      count := 1;
    }

    /** Folds columns [colStart, colStop) of `newVals` into the aggregate; always reports OK. */
    method Accumulate(newVals: seq<Column>, colStart: int := 1, colStop: int := 0) returns (ok: bool)
      requires WindowOk(State(), newVals, colStart, colStop)
      modifies this
      ensures ok
      ensures State() == AccumulateSpec(old(State()), newVals, colStart, colStop)
    {
      ghost var before := State();
      var start, stop := colStart, colStop;
      if count == 0 {
        Initialize(newVals[start]);
        count := 1;
        start := start + 1;
      }
      if stop == 0 {
        stop := |newVals|;
      }
      ghost var first := State();
      ghost var lo := start;
      assert first == (if before.count == 0 then Initialized(newVals[colStart]) else before);
      assert lo == LoopStart(before, colStart) && stop == LoopStop(newVals, colStop);
      while start < stop
        invariant lo <= start
        invariant lo < start ==> start <= stop
        invariant lo < stop ==> start <= stop && 0 <= lo && stop <= |newVals|
        invariant first.count >= 1
        invariant count >= 1
        invariant State() == FoldRange(first, newVals, lo, start)
      {
        FoldColumn(newVals[start]);
        start := start + 1;
      }
      ok := true;
    }

    /** One iteration of the loop of Accumulate: the count goes up, then the means and M2s follow. */
    method FoldColumn(colVals: Column)
      requires count >= 1
      modifies this
      ensures State() == Step(old(State()), colVals)
    {
      count := count + 1;
      assert count >= 2;
      var deltaMean := VecAbs(VecSub(Some(colVals), means));
      means := VecAdd(means, VecDivScalar(deltaMean, count as real));
      var deltaVar := VecAbs(VecSub(Some(colVals), means));
      variances := VecAdd(variances, VecMul(deltaVar, deltaMean));
    }

    /** The table {mean, variance} over the current columns; no field changes. */
    method TakeResult() returns (result: seq<NamedColumn>)
      ensures result == ResultTable(State())
    {
      result := [NamedColumn("mean", means), NamedColumn("variance", variances)];
    }
  }
}

/**
 * What the specification of the aggregate guarantees: count bookkeeping,
 * length preservation, null propagation, monotonicity of the absolute-value
 * update, its relation to the Welford recurrence, and streaming in pieces.
 */
module AggregateProperties {
  import opened Wrappers
  import opened Compute
  import opened Aggregate

  /** Each folded column raises the count by exactly one. */
  lemma {:induction false} FoldCount(s: AggrState, t: seq<Column>, lo: int, hi: int)
    requires lo < hi ==> 0 <= lo && hi <= |t|
    ensures FoldRange(s, t, lo, hi).count == s.count + (if lo < hi then hi - lo else 0)
    decreases hi - lo
  {
    if lo < hi {
      FoldCount(s, t, lo, hi - 1);
    }
  }

  /**
   * After Accumulate the count is the old count (or 1, when the call had to
   * initialise) plus the number of columns the loop visits.
   */
  lemma AccumulateCount(s: AggrState, t: seq<Column>, start: int, stop: int)
    requires WindowOk(s, t, start, stop)
    ensures AccumulateSpec(s, t, start, stop).count ==
      (if s.count == 0 then 1 else s.count)
      + (if LoopStart(s, start) < LoopStop(t, stop) then LoopStop(t, stop) - LoopStart(s, start) else 0)
    ensures AccumulateSpec(s, t, start, stop).count >= 1
  {
    var first := if s.count == 0 then Initialized(t[start]) else s;
    FoldCount(first, t, LoopStart(s, start), LoopStop(t, stop));
  }

  /** An empty aggregate given a one-column window takes that column as its means. */
  lemma FreshSingleColumn(t: seq<Column>, start: int)
    requires 0 <= start < |t|
    ensures AccumulateSpec(Empty, t, start, start + 1) == AggrState(1, Some(t[start]), Some(Zeros(|t[start]|)))
  {
  }

  /** Both columns present, each of length `len`. */
  predicate Shaped(s: AggrState, len: nat) {
    s.means.Some? && s.variances.Some? && |s.means.value| == len && |s.variances.value| == len
  }

  /** Columns of the aggregate's length keep both running columns present and of that length. */
  lemma {:induction false} FoldPreservesShape(s: AggrState, t: seq<Column>, lo: int, hi: int, len: nat)
    requires lo < hi ==> 0 <= lo && hi <= |t|
    requires Shaped(s, len)
    requires forall i :: lo <= i < hi ==> |t[i]| == len
    ensures Shaped(FoldRange(s, t, lo, hi), len)
    decreases hi - lo
  {
    if lo < hi {
      FoldPreservesShape(s, t, lo, hi - 1, len);
    }
  }

  /**
   * On a table whose columns all have length `len`, Accumulate leaves both
   * columns present with that length.
   */
  lemma AccumulatePreservesShape(s: AggrState, t: seq<Column>, start: int, stop: int, len: nat)
    requires WindowOk(s, t, start, stop)
    requires s.count != 0 ==> Shaped(s, len)
    requires forall i :: 0 <= i < |t| ==> |t[i]| == len
    ensures Shaped(AccumulateSpec(s, t, start, stop), len)
  {
    var first := if s.count == 0 then Initialized(t[start]) else s;
    FoldPreservesShape(first, t, LoopStart(s, start), LoopStop(t, stop), len);
  }

  /** Once null, the means stay null; once either column is null, the variances stay null. */
  lemma {:induction false} FoldNullIsSticky(s: AggrState, t: seq<Column>, lo: int, hi: int)
    requires lo < hi ==> 0 <= lo && hi <= |t|
    ensures s.means.None? ==> FoldRange(s, t, lo, hi).means.None?
    ensures s.means.None? && lo < hi ==> FoldRange(s, t, lo, hi).variances.None?
    ensures s.variances.None? ==> FoldRange(s, t, lo, hi).variances.None?
    decreases hi - lo
  {
    if lo < hi {
      FoldNullIsSticky(s, t, lo, hi - 1);
    }
  }

  /** A present means column keeps its length through a fold. */
  lemma {:induction false} FoldMeansLength(s: AggrState, t: seq<Column>, lo: int, hi: int, len: nat)
    requires lo < hi ==> 0 <= lo && hi <= |t|
    requires s.means.Some? ==> |s.means.value| == len
    ensures var r := FoldRange(s, t, lo, hi); r.means.Some? ==> |r.means.value| == len
    decreases hi - lo
  {
    if lo < hi {
      FoldMeansLength(s, t, lo, hi - 1, len);
    }
  }

  /**
   * A column whose length differs from the means' makes the backend fail:
   * both columns become null, and stay null for the rest of the call.
   */
  lemma {:induction false} FoldMismatchNullsBoth(s: AggrState, t: seq<Column>, lo: int, hi: int, len: nat, bad: int)
    requires lo < hi ==> 0 <= lo && hi <= |t|
    requires s.means.Some? ==> |s.means.value| == len
    requires lo <= bad < hi && |t[bad]| != len
    ensures FoldRange(s, t, lo, hi).means.None?
    ensures FoldRange(s, t, lo, hi).variances.None?
    decreases hi - lo
  {
    var prev := FoldRange(s, t, lo, hi - 1);
    if bad == hi - 1 {
      FoldMeansLength(s, t, lo, hi - 1, len);
      assert VecSub(Some(t[bad]), prev.means).None?;
    } else {
      FoldMismatchNullsBoth(s, t, lo, hi - 1, len, bad);
    }
  }

  /** A column `r`, when present, has the length of `c` and no smaller entry in any row. */
  predicate ColumnNoLower(c: Column, r: Option<Column>) {
    r.Some? ==> |r.value| == |c| && forall j :: 0 <= j < |c| ==> r.value[j] >= c[j]
  }

  /** Neither running column of `r` is below the one of `s`, row by row. */
  predicate NoRowLower(s: AggrState, r: AggrState)
    requires s.means.Some? && s.variances.Some?
  {
    ColumnNoLower(s.means.value, r.means) && ColumnNoLower(s.variances.value, r.variances)
  }

  lemma ColumnNoLowerTrans(a: Column, b: Column, r: Option<Column>)
    requires ColumnNoLower(a, Some(b)) && ColumnNoLower(b, r)
    ensures ColumnNoLower(a, r)
  {
  }

  /** One step never lowers a row's mean: the increment |x - m| / count is non-negative. */
  lemma StepMeansMonotone(s: AggrState, x: Column)
    requires s.means.Some?
    ensures ColumnNoLower(s.means.value, Step(s, x).means)
  {
    if Step(s, x).means.Some? {
      forall j | 0 <= j < |s.means.value| ensures Step(s, x).means.value[j] >= s.means.value[j] {
        StepMeanNoLowerAt(s, x, j);
      }
    }
  }

  lemma StepMeanNoLowerAt(s: AggrState, x: Column, j: int)
    requires s.means.Some? && Step(s, x).means.Some?
    requires 0 <= j < |s.means.value|
    ensures |Step(s, x).means.value| == |s.means.value|
    ensures Step(s, x).means.value[j] >= s.means.value[j]
  {
    var n := (s.count + 1) as real;
    var deltaMean := VecAbs(VecSub(Some(x), s.means));
    var quot := VecDivScalar(deltaMean, n);
    assert quot.value[j] == deltaMean.value[j] / n;
    assert deltaMean.value[j] >= 0.0;
    NonNegativeQuotient(deltaMean.value[j], n);
  }

  lemma NonNegativeQuotient(a: real, n: real)
    requires a >= 0.0 && n > 0.0
    ensures a / n >= 0.0
  {
  }

  /** One step never lowers a row's M2: the increment is a product of two absolute values. */
  lemma StepVariancesMonotone(s: AggrState, x: Column)
    requires s.variances.Some?
    ensures ColumnNoLower(s.variances.value, Step(s, x).variances)
  {
    if Step(s, x).variances.Some? {
      forall j | 0 <= j < |s.variances.value| ensures Step(s, x).variances.value[j] >= s.variances.value[j] {
        StepVarianceNoLowerAt(s, x, j);
      }
    }
  }

  lemma StepVarianceNoLowerAt(s: AggrState, x: Column, j: int)
    requires s.variances.Some? && Step(s, x).variances.Some?
    requires 0 <= j < |s.variances.value|
    ensures |Step(s, x).variances.value| == |s.variances.value|
    ensures Step(s, x).variances.value[j] >= s.variances.value[j]
  {
    var n := (s.count + 1) as real;
    var deltaMean := VecAbs(VecSub(Some(x), s.means));
    var means := VecAdd(s.means, VecDivScalar(deltaMean, n));
    var deltaVar := VecAbs(VecSub(Some(x), means));
    var prod := VecMul(deltaVar, deltaMean);
    assert Step(s, x).variances == VecAdd(s.variances, prod);
    NonNegativeProduct(deltaVar.value[j], deltaMean.value[j]);
  }

  lemma NonNegativeProduct(a: real, b: real)
    requires a >= 0.0 && b >= 0.0
    ensures a * b >= 0.0
  {
  }

  /** Over a fold, every row's mean and M2 are non-decreasing. */
  lemma {:induction false} FoldMonotone(s: AggrState, t: seq<Column>, lo: int, hi: int)
    requires lo < hi ==> 0 <= lo && hi <= |t|
    requires s.means.Some? && s.variances.Some?
    ensures NoRowLower(s, FoldRange(s, t, lo, hi))
    decreases hi - lo
  {
    if lo < hi {
      var prev := FoldRange(s, t, lo, hi - 1);
      var r := Step(prev, t[hi - 1]);
      FoldMonotone(s, t, lo, hi - 1);
      if r.means.Some? {
        StepMeansMonotone(prev, t[hi - 1]);
        ColumnNoLowerTrans(s.means.value, prev.means.value, r.means);
      }
      if r.variances.Some? {
        StepVariancesMonotone(prev, t[hi - 1]);
        ColumnNoLowerTrans(s.variances.value, prev.variances.value, r.variances);
      }
    }
  }

  /** Over an Accumulate call on an initialised aggregate, no row's mean or M2 decreases. */
  lemma AccumulateMonotone(s: AggrState, t: seq<Column>, start: int, stop: int)
    requires WindowOk(s, t, start, stop)
    requires s.count != 0 && s.means.Some? && s.variances.Some?
    ensures NoRowLower(s, AccumulateSpec(s, t, start, stop))
  {
    FoldMonotone(s, t, LoopStart(s, start), LoopStop(t, stop));
  }

  // ---------------------------------------------------------------------
  // The doc-comment recurrence against the code's update

  /** Running statistics of one row: observations, mean, M2. */
  datatype Moments = Moments(count: nat, mean: real, m2: real)

  /** Welford's update, as the doc comment above Accumulate writes it. */
  function WelfordUpdate(a: Moments, x: real): Moments {
    var n := a.count + 1;
    var delta := x - a.mean;
    var mean := a.mean + delta / (n as real);
    var delta2 := x - mean;
    Moments(n, mean, a.m2 + delta * delta2)
  }

  /** The update the code performs on one row: both deltas taken in absolute value. */
  function AbsUpdate(a: Moments, x: real): Moments {
    var n := a.count + 1;
    var delta := Abs(x - a.mean);
    var mean := a.mean + delta / (n as real);
    var delta2 := Abs(x - mean);
    Moments(n, mean, a.m2 + delta2 * delta)
  }

  /** The columnar Step is AbsUpdate applied to every row independently. */
  lemma StepIsRowwise(s: AggrState, x: Column, j: int)
    requires Shaped(s, |x|)
    requires 0 <= j < |x|
    ensures Shaped(Step(s, x), |x|)
    ensures var a := AbsUpdate(Moments(s.count, s.means.value[j], s.variances.value[j]), x[j]);
      Step(s, x).means.value[j] == a.mean && Step(s, x).variances.value[j] == a.m2
  {
    StepMeanAt(s, x, j);
    StepVarianceAt(s, x, j);
  }

  /** Row `j` of the means after a Step: m + |x - m| / count. */
  lemma StepMeanAt(s: AggrState, x: Column, j: int)
    requires s.means.Some? && |s.means.value| == |x|
    requires 0 <= j < |x|
    ensures Step(s, x).means.Some? && |Step(s, x).means.value| == |x|
    ensures Step(s, x).means.value[j]
      == s.means.value[j] + Abs(x[j] - s.means.value[j]) / ((s.count + 1) as real)
  {
    var n := (s.count + 1) as real;
    var deltaMean := VecAbs(VecSub(Some(x), s.means));
    var quot := VecDivScalar(deltaMean, n);
    assert deltaMean.value[j] == Abs(x[j] - s.means.value[j]);
    assert quot.value[j] == deltaMean.value[j] / n;
  }

  /** Row `j` of the M2 column after a Step: v + |x - m'| * |x - m|. */
  lemma StepVarianceAt(s: AggrState, x: Column, j: int)
    requires Shaped(s, |x|)
    requires 0 <= j < |x|
    ensures Step(s, x).means.Some? && |Step(s, x).means.value| == |x|
    ensures Step(s, x).variances.Some? && |Step(s, x).variances.value| == |x|
    ensures Step(s, x).variances.value[j]
      == s.variances.value[j] + Abs(x[j] - Step(s, x).means.value[j]) * Abs(x[j] - s.means.value[j])
  {
    var n := (s.count + 1) as real;
    var deltaMean := VecAbs(VecSub(Some(x), s.means));
    var means := VecAdd(s.means, VecDivScalar(deltaMean, n));
    var deltaVar := VecAbs(VecSub(Some(x), means));
    var prod := VecMul(deltaVar, deltaMean);
    assert Step(s, x).means == means;
    assert Step(s, x).variances == VecAdd(s.variances, prod);
    assert deltaMean.value[j] == Abs(x[j] - s.means.value[j]);
    assert deltaVar.value[j] == Abs(x[j] - means.value[j]);
    assert deltaMean.Some? && |deltaMean.value| == |x|;
    assert deltaVar.Some? && |deltaVar.value| == |x|;
    VecMulAt(deltaVar, deltaMean, j);
  }

  /** For a sample at or above the running mean, the code's update is Welford's. */
  lemma AbsUpdateIsWelfordAtOrAbove(a: Moments, x: real)
    requires x >= a.mean
    ensures AbsUpdate(a, x) == WelfordUpdate(a, x)
  {
    var n := (a.count + 1) as real;
    var delta := x - a.mean;
    assert delta / n <= delta by {
      assert delta / n * n == delta;
      assert n >= 1.0;
    }
  }

  /**
   * For a sample below the running mean the code moves the mean up, away
   * from the sample, where Welford's update moves it down.
   */
  lemma AbsMeanExceedsWelfordBelow(a: Moments, x: real)
    requires x < a.mean
    ensures AbsUpdate(a, x).mean > a.mean > WelfordUpdate(a, x).mean
  {
    var n := (a.count + 1) as real;
    assert (a.mean - x) / n > 0.0;
  }

  /** Row `j` of a Step equals Welford's update whenever that row's sample is at or above its mean. */
  lemma StepMatchesWelfordAtOrAbove(s: AggrState, x: Column, j: int)
    requires Shaped(s, |x|)
    requires 0 <= j < |x| && x[j] >= s.means.value[j]
    ensures var w := WelfordUpdate(Moments(s.count, s.means.value[j], s.variances.value[j]), x[j]);
      Step(s, x).means.value[j] == w.mean && Step(s, x).variances.value[j] == w.m2
  {
    StepIsRowwise(s, x, j);
    AbsUpdateIsWelfordAtOrAbove(Moments(s.count, s.means.value[j], s.variances.value[j]), x[j]);
  }

  /** Columns 2 then 4 into a fresh aggregate: count 2, mean 3, M2 2. */
  lemma TwoThenFourExample()
    ensures AccumulateSpec(Empty, [[0.0], [2.0], [4.0]], 1, 0) == AggrState(2, Some([3.0]), Some([2.0]))
  {
    var t: seq<Column> := [[0.0], [2.0], [4.0]];
    var first := Initialized([2.0]);
    assert Zeros(1) == [0.0];
    assert first.means == Some([2.0]) && first.variances == Some([0.0]);
    StepIsRowwise(first, [4.0], 0);
    assert AbsUpdate(Moments(1, 2.0, 0.0), 4.0) == Moments(2, 3.0, 2.0);
    var r := Step(first, [4.0]);
    assert r.means.value == [3.0];
    assert r.variances.value == [2.0];
  }

  /** Columns 4 then 2: the code's mean is 5 and its M2 6, where Welford gives 3 and 2. */
  lemma FourThenTwoExample()
    ensures AccumulateSpec(Empty, [[0.0], [4.0], [2.0]], 1, 0) == AggrState(2, Some([5.0]), Some([6.0]))
    ensures WelfordUpdate(Moments(1, 4.0, 0.0), 2.0) == Moments(2, 3.0, 2.0)
  {
    var first := Initialized([4.0]);
    assert Zeros(1) == [0.0];
    assert first.means == Some([4.0]) && first.variances == Some([0.0]);
    StepIsRowwise(first, [2.0], 0);
    assert AbsUpdate(Moments(1, 4.0, 0.0), 2.0) == Moments(2, 5.0, 6.0);
    var r := Step(first, [2.0]);
    assert r.means.value == [5.0];
    assert r.variances.value == [6.0];
  }

  // ---------------------------------------------------------------------
  // Streaming in pieces

  /** Folding [lo, mid) and then [mid, hi) is folding [lo, hi). */
  lemma {:induction false} FoldSplit(s: AggrState, t: seq<Column>, lo: int, mid: int, hi: int)
    requires 0 <= lo <= mid <= hi <= |t|
    ensures FoldRange(FoldRange(s, t, lo, mid), t, mid, hi) == FoldRange(s, t, lo, hi)
    decreases hi - mid
  {
    if mid < hi {
      FoldSplit(s, t, lo, mid, hi - 1);
    }
  }

  /**
   * Accumulating columns [a, b) and then [b, c) leaves the aggregate that
   * accumulating [a, c) in one call leaves: a table can be consumed in
   * consecutive column slices.
   */
  lemma AccumulateInTwoCalls(s: AggrState, t: seq<Column>, a: int, b: int, c: int)
    requires 0 <= a < b <= c <= |t|
    ensures WindowOk(s, t, a, b) && WindowOk(s, t, a, c)
    ensures AccumulateSpec(s, t, a, b).count >= 1
    ensures WindowOk(AccumulateSpec(s, t, a, b), t, b, c)
    ensures AccumulateSpec(AccumulateSpec(s, t, a, b), t, b, c) == AccumulateSpec(s, t, a, c)
  {
    AccumulateCount(s, t, a, b);
    var first := if s.count == 0 then Initialized(t[a]) else s;
    FoldSplit(first, t, LoopStart(s, a), b, c);
  }
}
