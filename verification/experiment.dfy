/**
 * AggrTable of the in-memory experiment: one partial aggregate over a
 * window of at most `colLimit` columns starting at `colStart`, computed in a
 * fresh `Aggr` and returned as its {mean, variance} table. The elapsed time
 * it also measures is not modelled.
 */
module Experiment {
  import opened Wrappers
  import opened Compute
  import opened Aggregate
  import opened AggregateProperties

  /**
   * The stop index AggrTable passes to Accumulate: 0 ("through the last
   * column") without a positive limit, otherwise the window end clamped to
   * the column count.
   */
  function StopIndex(colStart: int, colLimit: int, numColumns: nat): (stop: int)
    ensures stop <= numColumns
    ensures colLimit <= 0 ==> stop == 0
    ensures colLimit > 0 && 0 <= colStart < numColumns ==> colStart < stop
    ensures colLimit > 0 && colStart + colLimit < numColumns ==> stop == colStart + colLimit
    ensures colLimit > 0 && colStart + colLimit >= numColumns ==> stop == numColumns
  {
    if colLimit > 0 then
      (if colStart + colLimit < numColumns then colStart + colLimit else numColumns)
    else 0
  }

  /** The {mean, variance} table of a fresh aggregate fed the window of `srcTable`. */
  method AggrTable(srcTable: seq<Column>, colStart: int, colLimit: int) returns (aggrResult: seq<NamedColumn>)
    requires 0 <= colStart < |srcTable|
    ensures aggrResult == ResultTable(AccumulateSpec(Empty, srcTable, colStart, StopIndex(colStart, colLimit, |srcTable|)))
  {
    var partialAggr := new Aggr();
    var colStopndx := StopIndex(colStart, colLimit, |srcTable|);
    var _ := partialAggr.Accumulate(srcTable, colStart, colStopndx);
    aggrResult := partialAggr.TakeResult();
  }

  /**
   * The window AggrTable aggregates: a positive limit covers
   * min(limit, columns left) columns, otherwise every column from the start.
   */
  lemma WindowCount(srcTable: seq<Column>, colStart: int, colLimit: int)
    requires 0 <= colStart < |srcTable|
    ensures AccumulateSpec(Empty, srcTable, colStart, StopIndex(colStart, colLimit, |srcTable|)).count ==
      if colLimit > 0 && colStart + colLimit < |srcTable| then colLimit else |srcTable| - colStart
  {
    AccumulateCount(Empty, srcTable, colStart, StopIndex(colStart, colLimit, |srcTable|));
  }

  /** With a limit of one column, the result is that column as means and zeros as M2. */
  lemma WindowOfOneColumn(srcTable: seq<Column>, colStart: int)
    requires 0 <= colStart < |srcTable|
    ensures ResultTable(AccumulateSpec(Empty, srcTable, colStart, StopIndex(colStart, 1, |srcTable|))) ==
      [NamedColumn("mean", Some(srcTable[colStart])), NamedColumn("variance", Some(Zeros(|srcTable[colStart]|)))]
  {
  }

  /**
   * Two AggrTable windows side by side are two slices of one stream: feeding
   * the second window's columns into the first window's aggregate gives the
   * aggregate of the joined window.
   */
  lemma AdjacentWindows(srcTable: seq<Column>, colStart: int, colLimit: int, nextLimit: int)
    requires 0 <= colStart && 0 < colLimit && 0 < nextLimit
    requires colStart + colLimit + nextLimit <= |srcTable|
    ensures var first := AccumulateSpec(Empty, srcTable, colStart, StopIndex(colStart, colLimit, |srcTable|));
      var next := colStart + colLimit;
      WindowOk(first, srcTable, next, StopIndex(next, nextLimit, |srcTable|))
      && AccumulateSpec(first, srcTable, next, StopIndex(next, nextLimit, |srcTable|))
         == AccumulateSpec(Empty, srcTable, colStart, StopIndex(colStart, colLimit + nextLimit, |srcTable|))
  {
    var next := colStart + colLimit;
    AccumulateInTwoCalls(Empty, srcTable, colStart, next, next + nextLimit);
    assert StopIndex(colStart, colLimit, |srcTable|) == next;
    assert StopIndex(next, nextLimit, |srcTable|) == next + nextLimit;
    assert StopIndex(colStart, colLimit + nextLimit, |srcTable|) == next + nextLimit;
  }
}
