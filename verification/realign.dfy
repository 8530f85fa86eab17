/**
 * Row alignment (CopyMatchedRows and its helpers CreateEmptyRecordBatch and
 * SelectTableByRow): reorder and gap-fill the rows of a keyed table so that
 * they follow a canonical sequence of ids.
 *
 * A table is held as rows: a nullable string key (its first column) and
 * `width` doubles (the other columns). Chunks of the id column and of the
 * key column are flattened into one sequence each.
 */
module Realign {
  import opened Wrappers
  import opened Compute

  /** One row: the key in column 0, then the values of the remaining columns. */
  datatype Row = Row(key: Option<string>, values: seq<real>)

  /** A table whose schema is a string key column followed by `width` double columns. */
  datatype Table = Table(width: nat, rows: seq<Row>)

  /** The key column. */
  function Keys(rows: seq<Row>): (keys: seq<Option<string>>)
    ensures |keys| == |rows|
  {
    seq(|rows|, i requires 0 <= i < |rows| => rows[i].key)
  }

  // ---------------------------------------------------------------------
  // The key map

  /** How many keys are non-null. */
  function NonNullCount(keys: seq<Option<string>>): (n: nat)
    ensures n <= |keys|
  {
    if keys == [] then 0
    else NonNullCount(keys[..|keys| - 1]) + (if keys[|keys| - 1].Some? then 1 else 0)
  }

  /**
   * The map CopyMatchedRows builds, as written: keys are visited in row
   * order, a null key is skipped without advancing the row counter, and an
   * insert never overwrites, so a key maps to the number of non-null keys
   * before its first occurrence.
   */
  function KeyMapOf(keys: seq<Option<string>>): map<string, nat> {
    if keys == [] then map[]
    else
      var m := KeyMapOf(keys[..|keys| - 1]);
      var k := keys[|keys| - 1];
      if k.Some? && k.value !in m then m[k.value := NonNullCount(keys[..|keys| - 1])] else m
  }

  /**
   * The map the alignment evidently intends: a key maps to the position of
   * the first row holding it, the index `Take` needs.
   */
  function RowIndexOf(keys: seq<Option<string>>): map<string, nat> {
    if keys == [] then map[]
    else
      var m := RowIndexOf(keys[..|keys| - 1]);
      var k := keys[|keys| - 1];
      if k.Some? && k.value !in m then m[k.value := |keys| - 1] else m
  }

  /** Every index the map stores selects a row of a table with `n` rows. */
  predicate IndicesInRange(keymap: map<string, nat>, n: nat) {
    forall k :: k in keymap ==> keymap[k] < n
  }

  // ---------------------------------------------------------------------
  // Row selection and default rows

  /** The rows at `rowIndices`, in index-list order. */
  function TakeRows(rows: seq<Row>, rowIndices: seq<int>): (taken: seq<Row>)
    requires forall k :: 0 <= k < |rowIndices| ==> 0 <= rowIndices[k] < |rows|
    ensures |taken| == |rowIndices|
  {
    seq(|rowIndices|, k requires 0 <= k < |rowIndices| => rows[rowIndices[k]])
  }

  /** Arrow's `Take` over a table: an out-of-range index makes it fail. */
  function SelectTableByRow(inputRows: seq<Row>, rowIndices: seq<int>): (r: Result<seq<Row>>)
    ensures r.Ok? <==> forall k :: 0 <= k < |rowIndices| ==> 0 <= rowIndices[k] < |inputRows|
    ensures r.Ok? ==> |r.value| == |rowIndices|
    ensures r.Ok? ==> forall k :: 0 <= k < |rowIndices| ==> r.value[k] == inputRows[rowIndices[k]]
  {
    if forall k :: 0 <= k < |rowIndices| ==> 0 <= rowIndices[k] < |inputRows| then
      Ok(TakeRows(inputRows, rowIndices))
    else
      Err("Take: index out of bounds")
  }

  /** The row that stands in for a missing id: the id as key and 0 in every other column. */
  function DefaultRow(width: nat, id: string): Row {
    Row(Some(id), Zeros(width))
  }

  /** One default row per id, in order. */
  function DefaultRows(width: nat, ids: seq<string>): (rows: seq<Row>)
    ensures |rows| == |ids|
  {
    seq(|ids|, i requires 0 <= i < |ids| => DefaultRow(width, ids[i]))
  }

  /** Batches concatenated in order, as Table::FromRecordBatches does. */
  function Flatten(batches: seq<seq<Row>>): seq<Row> {
    if batches == [] then [] else Flatten(batches[..|batches| - 1]) + batches[|batches| - 1]
  }

  /**
   * Builds the batch for a run of missing ids column by column (the id
   * column, then one zero-filled column per remaining field) and reads it
   * back as rows.
   */
  method CreateEmptyRecordBatch(width: nat, rowIds: seq<string>) returns (batch: seq<Row>)
    ensures batch == DefaultRows(width, rowIds)
  {
    var fillValues := Zeros(|rowIds|);
    var batchData: seq<Column> := [];
    var colNdx := 1;
    while colNdx < width + 1
      invariant 1 <= colNdx <= width + 1
      invariant |batchData| == colNdx - 1
      invariant forall c :: 0 <= c < |batchData| ==> batchData[c] == fillValues
    {
      batchData := batchData + [fillValues];
      colNdx := colNdx + 1;
    }
    batch := seq(|rowIds|, i requires 0 <= i < |rowIds| =>
      Row(Some(rowIds[i]), seq(width, c requires 0 <= c < width => batchData[c][i])));
    assert forall i :: 0 <= i < |rowIds| ==> batch[i].values == Zeros(width);
  }

  // ---------------------------------------------------------------------
  // The alignment

  /** The row aligned with `id`: the mapped source row, or a default row keyed by the id ("" when null). */
  function MatchedRow(src: Table, keymap: map<string, nat>, id: Option<string>): Row
    requires IndicesInRange(keymap, |src.rows|)
  {
    if id.Some? && id.value in keymap then src.rows[keymap[id.value]]
    else DefaultRow(src.width, id.GetOr(""))
  }

  /** The rows buffered but not yet flushed: a run of missing ids, or else a run of matched indices. */
  function Pending(src: Table, missingIds: seq<string>, matchIndices: seq<int>): seq<Row>
    requires forall k :: 0 <= k < |matchIndices| ==> 0 <= matchIndices[k] < |src.rows|
  {
    if missingIds != [] then DefaultRows(src.width, missingIds) else TakeRows(src.rows, matchIndices)
  }

  /** One aligned row per id, in the order of the ids. */
  function Realigned(src: Table, keymap: map<string, nat>, ids: seq<Option<string>>): (rows: seq<Row>)
    requires IndicesInRange(keymap, |src.rows|)
    ensures |rows| == |ids|
  {
    seq(|ids|, i requires 0 <= i < |ids| => MatchedRow(src, keymap, ids[i]))
  }

  /**
   * The first loop of CopyMatchedRows: hash every non-null key to a row
   * counter that only null-free rows advance; an existing entry is kept.
   */
  method BuildKeyMap(srcKeys: seq<Option<string>>) returns (srcKeymap: map<string, nat>)
    ensures srcKeymap == KeyMapOf(srcKeys)
  {
    var srcRowndx := 0;
    srcKeymap := map[];
    var i := 0;
    while i < |srcKeys|
      invariant 0 <= i <= |srcKeys|
      invariant srcKeymap == KeyMapOf(srcKeys[..i])
      invariant srcRowndx == NonNullCount(srcKeys[..i])
    {
      var srcKey := srcKeys[i];
      assert srcKeys[..i + 1][..i] == srcKeys[..i];
      if srcKey.Some? {
        if srcKey.value !in srcKeymap {
          srcKeymap := srcKeymap[srcKey.value := srcRowndx];
        }
        srcRowndx := srcRowndx + 1;
      }
      i := i + 1;
    }
    assert srcKeys[..|srcKeys|] == srcKeys;
  }

  /**
   * The first loop as evidently intended: the counter advances on every
   * row, so a key maps to the position of the first row holding it.
   */
  method BuildRowIndex(srcKeys: seq<Option<string>>) returns (srcKeymap: map<string, nat>)
    ensures srcKeymap == RowIndexOf(srcKeys)
  {
    srcKeymap := map[];
    var i := 0;
    while i < |srcKeys|
      invariant 0 <= i <= |srcKeys|
      invariant srcKeymap == RowIndexOf(srcKeys[..i])
    {
      var srcKey := srcKeys[i];
      assert srcKeys[..i + 1][..i] == srcKeys[..i];
      if srcKey.Some? && srcKey.value !in srcKeymap {
        srcKeymap := srcKeymap[srcKey.value := i];
      }
      i := i + 1;
    }
    assert srcKeys[..|srcKeys|] == srcKeys;
  }

  /**
   * CopyMatchedRows as written: the key map of the first loop, then the
   * run-batching alignment.
   */
  method CopyMatchedRows(orderedIds: seq<Option<string>>, srcTable: Table) returns (result: Result<Table>)
    ensures IndicesInRange(KeyMapOf(Keys(srcTable.rows)), |srcTable.rows|)
    ensures result == Ok(Table(srcTable.width, Realigned(srcTable, KeyMapOf(Keys(srcTable.rows)), orderedIds)))
  {
    var srcKeymap := BuildKeyMap(Keys(srcTable.rows));
    KeyMapInRange(Keys(srcTable.rows));
    result := AlignRows(orderedIds, srcTable, srcKeymap);
  }

  /**
   * CopyMatchedRows with the corrected key map: every id present in the key
   * column is given the first source row that holds it.
   */
  method CopyMatchedRowsCorrected(orderedIds: seq<Option<string>>, srcTable: Table) returns (result: Result<Table>)
    ensures IndicesInRange(RowIndexOf(Keys(srcTable.rows)), |srcTable.rows|)
    ensures result == Ok(Table(srcTable.width, Realigned(srcTable, RowIndexOf(Keys(srcTable.rows)), orderedIds)))
  {
    var srcKeymap := BuildRowIndex(Keys(srcTable.rows));
    RowIndexPointsAtKey(Keys(srcTable.rows));
    result := AlignRows(orderedIds, srcTable, srcKeymap);
  }

  /** Drains a run of missing ids, when there is one, as one zero-filled batch. */
  method FlushMissing(width: nat, resultBatches: seq<seq<Row>>, missingIds: seq<string>)
    returns (batches: seq<seq<Row>>)
    ensures Flatten(batches) == Flatten(resultBatches) + DefaultRows(width, missingIds)
  {
    batches := resultBatches;
    if |missingIds| > 0 {
      var batch := CreateEmptyRecordBatch(width, missingIds);
      FlattenSnoc(resultBatches, batch);
      batches := resultBatches + [batch];
    }
  }

  /** Drains a run of matched indices, when there is one, as one `Take` selection. */
  method FlushMatches(rows: seq<Row>, resultBatches: seq<seq<Row>>, matchIndices: seq<int>)
    returns (batches: seq<seq<Row>>)
    requires forall k :: 0 <= k < |matchIndices| ==> 0 <= matchIndices[k] < |rows|
    ensures Flatten(batches) == Flatten(resultBatches) + TakeRows(rows, matchIndices)
  {
    batches := resultBatches;
    if |matchIndices| > 0 {
      var tableSelection := SelectTableByRow(rows, matchIndices).value;
      FlattenSnoc(resultBatches, tableSelection);
      batches := resultBatches + [tableSelection];
    }
  }

  /**
   * The second loop of CopyMatchedRows: aligns `srcTable` with
   * `orderedIds`, buffering runs of matched indices and runs of missing ids
   * and flushing each run as one `Take` selection or one zero-filled batch.
   */
  method AlignRows(orderedIds: seq<Option<string>>, srcTable: Table, srcKeymap: map<string, nat>)
    returns (result: Result<Table>)
    requires IndicesInRange(srcKeymap, |srcTable.rows|)
    ensures result == Ok(Table(srcTable.width, Realigned(srcTable, srcKeymap, orderedIds)))
  {
    var missingIds: seq<string> := [];
    var matchIndices: seq<int> := [];
    var resultBatches: seq<seq<Row>> := [];
    var j := 0;
    while j < |orderedIds|
      invariant 0 <= j <= |orderedIds|
      invariant missingIds == [] || matchIndices == []
      invariant forall k :: 0 <= k < |matchIndices| ==> 0 <= matchIndices[k] < |srcTable.rows|
      invariant Flatten(resultBatches) + Pending(srcTable, missingIds, matchIndices)
        == Realigned(srcTable, srcKeymap, orderedIds[..j])
    {
      var srcKey := orderedIds[j];
      var srcKeyval := srcKey.GetOr("");
      ghost var aligned := Realigned(srcTable, srcKeymap, orderedIds[..j]);
      ghost var row := MatchedRow(srcTable, srcKeymap, srcKey);
      RealignedSnoc(srcTable, srcKeymap, orderedIds, j);
      if srcKey.Some? && srcKeyval in srcKeymap {
        resultBatches := FlushMissing(srcTable.width, resultBatches, missingIds);
        missingIds := [];
        assert Flatten(resultBatches) + TakeRows(srcTable.rows, matchIndices) == aligned;
        TakeRowsSnoc(srcTable.rows, matchIndices, srcKeymap[srcKeyval]);
        AppendOne(Flatten(resultBatches), TakeRows(srcTable.rows, matchIndices), row);
        matchIndices := matchIndices + [srcKeymap[srcKeyval]];
      } else {
        resultBatches := FlushMatches(srcTable.rows, resultBatches, matchIndices);
        matchIndices := [];
        assert Flatten(resultBatches) + DefaultRows(srcTable.width, missingIds) == aligned;
        DefaultRowsSnoc(srcTable.width, missingIds, srcKeyval);
        AppendOne(Flatten(resultBatches), DefaultRows(srcTable.width, missingIds), row);
        missingIds := missingIds + [srcKeyval];
      }
      j := j + 1;
    }
    assert orderedIds[..|orderedIds|] == orderedIds;
    ghost var aligned := Realigned(srcTable, srcKeymap, orderedIds);

    resultBatches := FlushMissing(srcTable.width, resultBatches, missingIds);
    missingIds := [];
    resultBatches := FlushMatches(srcTable.rows, resultBatches, matchIndices);
    matchIndices := [];
    assert Flatten(resultBatches) == aligned;
    result := Ok(Table(srcTable.width, Flatten(resultBatches)));
  }

  // ---------------------------------------------------------------------
  // Steps of the proof of CopyMatchedRows

  lemma {:induction false} KeyMapInRange(keys: seq<Option<string>>)
    ensures forall k :: k in KeyMapOf(keys) ==> KeyMapOf(keys)[k] < NonNullCount(keys)
  {
    if keys != [] {
      KeyMapInRange(keys[..|keys| - 1]);
    }
  }

  lemma RealignedSnoc(src: Table, keymap: map<string, nat>, ids: seq<Option<string>>, j: int)
    requires IndicesInRange(keymap, |src.rows|)
    requires 0 <= j < |ids|
    ensures Realigned(src, keymap, ids[..j + 1]) == Realigned(src, keymap, ids[..j]) + [MatchedRow(src, keymap, ids[j])]
  {
  }

  lemma FlattenSnoc(batches: seq<seq<Row>>, batch: seq<Row>)
    ensures Flatten(batches + [batch]) == Flatten(batches) + batch
  {
    assert (batches + [batch])[..|batches|] == batches;
  }

  lemma TakeRowsSnoc(rows: seq<Row>, rowIndices: seq<int>, index: int)
    requires forall k :: 0 <= k < |rowIndices| ==> 0 <= rowIndices[k] < |rows|
    requires 0 <= index < |rows|
    ensures TakeRows(rows, rowIndices + [index]) == TakeRows(rows, rowIndices) + [rows[index]]
  {
  }

  lemma AppendOne(done: seq<Row>, run: seq<Row>, row: Row)
    ensures done + (run + [row]) == (done + run) + [row]
  {
  }

  lemma DefaultRowsSnoc(width: nat, ids: seq<string>, id: string)
    ensures DefaultRows(width, ids + [id]) == DefaultRows(width, ids) + [DefaultRow(width, id)]
  {
  }

  // ---------------------------------------------------------------------
  // Properties of the key maps

  /** Every key is non-null. */
  predicate NoNullKeys(keys: seq<Option<string>>) {
    forall a :: 0 <= a < |keys| ==> keys[a].Some?
  }

  /** No key occurs twice. */
  predicate DistinctKeys(keys: seq<Option<string>>) {
    forall a, b :: 0 <= a < b < |keys| ==> keys[a] != keys[b]
  }

  lemma {:induction false} RowIndexPointsAtKey(keys: seq<Option<string>>)
    ensures IndicesInRange(RowIndexOf(keys), |keys|)
    ensures forall k :: k in RowIndexOf(keys) ==> keys[RowIndexOf(keys)[k]] == Some(k)
  {
    if keys != [] {
      var p := keys[..|keys| - 1];
      RowIndexPointsAtKey(p);
      assert forall k :: k in RowIndexOf(p) ==> keys[RowIndexOf(p)[k]] == p[RowIndexOf(p)[k]];
    }
  }

  /** A string is mapped exactly when it occurs as a non-null key. */
  lemma {:induction false} KeyMapDomain(keys: seq<Option<string>>)
    ensures forall k :: k in KeyMapOf(keys) <==> Some(k) in keys
  {
    if keys != [] {
      var p := keys[..|keys| - 1];
      KeyMapDomain(p);
      assert keys == p + [keys[|keys| - 1]];
    }
  }

  lemma {:induction false} RowIndexDomain(keys: seq<Option<string>>)
    ensures forall k :: k in RowIndexOf(keys) <==> Some(k) in keys
  {
    if keys != [] {
      var p := keys[..|keys| - 1];
      RowIndexDomain(p);
      assert keys == p + [keys[|keys| - 1]];
    }
  }

  /**
   * First occurrence wins, as written: the key at its first position `i`
   * maps to the number of non-null keys before `i`.
   */
  lemma {:induction false} KeyMapFirstWins(keys: seq<Option<string>>, i: int)
    requires 0 <= i < |keys| && keys[i].Some?
    requires forall a :: 0 <= a < i ==> keys[a] != keys[i]
    ensures keys[i].value in KeyMapOf(keys)
    ensures KeyMapOf(keys)[keys[i].value] == NonNullCount(keys[..i])
  {
    var p := keys[..|keys| - 1];
    KeyMapDomain(p);
    if i == |keys| - 1 {
      assert keys[i] !in p;
    } else {
      KeyMapFirstWins(p, i);
      assert p[..i] == keys[..i];
    }
  }

  /** First occurrence wins, corrected: the key maps to its first position. */
  lemma {:induction false} RowIndexFirstWins(keys: seq<Option<string>>, i: int)
    requires 0 <= i < |keys| && keys[i].Some?
    requires forall a :: 0 <= a < i ==> keys[a] != keys[i]
    ensures keys[i].value in RowIndexOf(keys)
    ensures RowIndexOf(keys)[keys[i].value] == i
  {
    var p := keys[..|keys| - 1];
    RowIndexDomain(p);
    if i == |keys| - 1 {
      assert keys[i] !in p;
    } else {
      RowIndexFirstWins(p, i);
    }
  }

  lemma {:induction false} NoNullsCountAll(keys: seq<Option<string>>)
    requires NoNullKeys(keys)
    ensures NonNullCount(keys) == |keys|
  {
    if keys != [] {
      NoNullsCountAll(keys[..|keys| - 1]);
    }
  }

  /** Without null keys the map as written is the corrected one. */
  lemma {:induction false} KeyMapsAgreeWithoutNulls(keys: seq<Option<string>>)
    requires NoNullKeys(keys)
    ensures KeyMapOf(keys) == RowIndexOf(keys)
  {
    if keys != [] {
      var p := keys[..|keys| - 1];
      KeyMapsAgreeWithoutNulls(p);
      NoNullsCountAll(p);
    }
  }

  // ---------------------------------------------------------------------
  // Properties of the alignment

  /** An id that is null or absent from the key column gets the default row keyed by the id ("" when null). */
  lemma MissingIdGetsDefaultRow(src: Table, ids: seq<Option<string>>, i: int)
    requires 0 <= i < |ids|
    requires ids[i].None? || ids[i] !in Keys(src.rows)
    ensures IndicesInRange(KeyMapOf(Keys(src.rows)), |src.rows|)
    ensures Realigned(src, KeyMapOf(Keys(src.rows)), ids)[i] == DefaultRow(src.width, ids[i].GetOr(""))
  {
    KeyMapInRange(Keys(src.rows));
    KeyMapDomain(Keys(src.rows));
  }

  /**
   * With the corrected map, an id found at its first position `f` of the key
   * column gets source row `f`.
   */
  lemma MatchedIdGetsFirstRow(src: Table, ids: seq<Option<string>>, i: int, f: int)
    requires 0 <= i < |ids| && 0 <= f < |src.rows|
    requires ids[i].Some? && src.rows[f].key == ids[i]
    requires forall a :: 0 <= a < f ==> src.rows[a].key != ids[i]
    ensures IndicesInRange(RowIndexOf(Keys(src.rows)), |src.rows|)
    ensures Realigned(src, RowIndexOf(Keys(src.rows)), ids)[i] == src.rows[f]
  {
    RowIndexPointsAtKey(Keys(src.rows));
    RowIndexFirstWins(Keys(src.rows), f);
  }

  /** With the corrected map every aligned row carries its id as key. */
  lemma RealignedKeysMatchIds(src: Table, ids: seq<Option<string>>)
    ensures IndicesInRange(RowIndexOf(Keys(src.rows)), |src.rows|)
    ensures forall i :: 0 <= i < |ids| ==>
      Realigned(src, RowIndexOf(Keys(src.rows)), ids)[i].key == Some(ids[i].GetOr(""))
  {
    RowIndexPointsAtKey(Keys(src.rows));
  }

  /** Without null source keys the code as written aligns exactly as the corrected map does. */
  lemma AsWrittenCorrectWithoutNullKeys(src: Table, ids: seq<Option<string>>)
    requires NoNullKeys(Keys(src.rows))
    ensures IndicesInRange(KeyMapOf(Keys(src.rows)), |src.rows|)
    ensures IndicesInRange(RowIndexOf(Keys(src.rows)), |src.rows|)
    ensures Realigned(src, KeyMapOf(Keys(src.rows)), ids) == Realigned(src, RowIndexOf(Keys(src.rows)), ids)
  {
    KeyMapsAgreeWithoutNulls(Keys(src.rows));
    RowIndexPointsAtKey(Keys(src.rows));
  }

  /** Aligning a table with distinct non-null keys against its own key column returns its rows unchanged. */
  lemma SelfRealignIsIdentity(src: Table)
    requires NoNullKeys(Keys(src.rows)) && DistinctKeys(Keys(src.rows))
    ensures IndicesInRange(KeyMapOf(Keys(src.rows)), |src.rows|)
    ensures Realigned(src, KeyMapOf(Keys(src.rows)), Keys(src.rows)) == src.rows
  {
    var keys := Keys(src.rows);
    KeyMapInRange(keys);
    forall i | 0 <= i < |keys|
      ensures Realigned(src, KeyMapOf(keys), keys)[i] == src.rows[i]
    {
      KeyMapFirstWins(keys, i);
      NoNullsCountAll(keys[..i]);
    }
  }

  /**
   * A null key ahead of a matched key shifts the match: source rows
   * (null, 1) and ("a", 2) aligned with ids ["a"] yield the null-keyed row.
   */
  lemma NullKeyShiftsMatch()
    ensures var src := Table(1, [Row(None, [1.0]), Row(Some("a"), [2.0])]);
      IndicesInRange(KeyMapOf(Keys(src.rows)), |src.rows|) &&
      IndicesInRange(RowIndexOf(Keys(src.rows)), |src.rows|) &&
      Realigned(src, KeyMapOf(Keys(src.rows)), [Some("a")]) == [Row(None, [1.0])] &&
      Realigned(src, RowIndexOf(Keys(src.rows)), [Some("a")]) == [Row(Some("a"), [2.0])]
  {
    var src := Table(1, [Row(None, [1.0]), Row(Some("a"), [2.0])]);
    var keys := Keys(src.rows);
    assert keys == [None, Some("a")];
    assert keys[..1] == [None] && keys[..1][..0] == [];
    assert KeyMapOf(keys[..1]) == map[] && NonNullCount(keys[..1]) == 0;
    assert KeyMapOf(keys) == map["a" := 0];
    assert RowIndexOf(keys[..1]) == map[];
    assert RowIndexOf(keys) == map["a" := 1];
  }

  /**
   * Ids a, b, c against source rows c:30 and a:10: a and c are found, b is
   * filled with zeros, and the result follows the id order.
   */
  lemma ExampleRealign()
    ensures var src := Table(1, [Row(Some("c"), [30.0]), Row(Some("a"), [10.0])]);
      IndicesInRange(KeyMapOf(Keys(src.rows)), |src.rows|) &&
      Realigned(src, KeyMapOf(Keys(src.rows)), [Some("a"), Some("b"), Some("c")])
        == [Row(Some("a"), [10.0]), Row(Some("b"), [0.0]), Row(Some("c"), [30.0])]
  {
    var src := Table(1, [Row(Some("c"), [30.0]), Row(Some("a"), [10.0])]);
    var keys := Keys(src.rows);
    assert keys == [Some("c"), Some("a")];
    assert keys[..1] == [Some("c")] && keys[..1][..0] == [];
    assert NonNullCount(keys[..1][..0]) == 0 && KeyMapOf(keys[..1][..0]) == map[];
    assert KeyMapOf(keys[..1]) == map["c" := 0];
    assert NonNullCount(keys[..1]) == 1;
    assert "a" !in KeyMapOf(keys[..1]);
    assert KeyMapOf(keys) == map["c" := 0, "a" := 1];
    assert Zeros(1) == [0.0];
  }

  /** Two selections concatenated are the selection by the concatenated index lists. */
  lemma TakeConcat(rows: seq<Row>, left: seq<int>, right: seq<int>)
    requires SelectTableByRow(rows, left).Ok? && SelectTableByRow(rows, right).Ok?
    ensures SelectTableByRow(rows, left + right)
      == Ok(SelectTableByRow(rows, left).value + SelectTableByRow(rows, right).value)
  {
    var both := left + right;
    assert forall k :: 0 <= k < |both| ==> 0 <= both[k] < |rows| by {
      forall k | 0 <= k < |both| ensures 0 <= both[k] < |rows| {
        if k >= |left| { assert both[k] == right[k - |left|]; }
      }
    }
    assert TakeRows(rows, both) == TakeRows(rows, left) + TakeRows(rows, right);
  }
}
