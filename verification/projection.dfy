/**
 * Projection then selection over an in-memory table (ProjectFromTable):
 * keep the columns whose name equals the requested attribute at the same
 * position, then, when a filter function is supplied, keep the rows its
 * Boolean mask selects.
 *
 * A table is a sequence of named columns over one row count; cells have an
 * arbitrary type `V`. A mask entry is `None` for a null Boolean, which
 * Arrow's `Filter` drops (its default null selection behaviour).
 */
module Projection {
  import opened Wrappers

  /** One named column. */
  datatype Field<V> = Field(name: string, values: seq<V>)

  /** A table: its columns, in schema order, and its row count. */
  datatype Frame<V> = Frame(fields: seq<Field<V>>, numRows: nat)

  /** An Arrow table's own invariant: every column holds `numRows` values. */
  predicate Valid<V>(f: Frame<V>) {
    forall c :: 0 <= c < |f.fields| ==> |f.fields[c].values| == f.numRows
  }

  /** `Table::ColumnNames`. */
  function ColumnNames<V>(f: Frame<V>): (names: seq<string>)
    ensures |names| == |f.fields|
  {
    seq(|f.fields|, c requires 0 <= c < |f.fields| => f.fields[c].name)
  }

  // ---------------------------------------------------------------------
  // Building the column indices

  /**
   * The indices the loop of ProjectFromTable collects: position `i` is kept
   * when the `i`-th column name equals the `i`-th requested attribute.
   */
  function MatchIndices(names: seq<string>, attrs: seq<string>): seq<int>
    requires |attrs| >= |names|
  {
    if names == [] then []
    else
      var last := |names| - 1;
      MatchIndices(names[..last], attrs) + (if names[last] == attrs[last] then [last] else [])
  }

  /**
   * The column-name loop: walks the schema with a running field index and
   * pushes every index whose name matches the attribute at that index.
   */
  method SelectedIndices(names: seq<string>, takeAttrs: seq<string>) returns (takeIndices: seq<int>)
    requires |takeAttrs| >= |names|
    ensures takeIndices == MatchIndices(names, takeAttrs)
  {
    takeIndices := [];
    var fieldNdx := 0;
    while fieldNdx < |names|
      invariant 0 <= fieldNdx <= |names|
      invariant takeIndices == MatchIndices(names[..fieldNdx], takeAttrs)
    {
      assert names[..fieldNdx + 1][..fieldNdx] == names[..fieldNdx];
      if names[fieldNdx] == takeAttrs[fieldNdx] {
        takeIndices := takeIndices + [fieldNdx];
      }
      fieldNdx := fieldNdx + 1;
    }
    assert names[..|names|] == names;
  }

  /** Every index selects an existing column. */
  predicate ColumnIndicesOk<V>(f: Frame<V>, indices: seq<int>) {
    forall k :: 0 <= k < |indices| ==> 0 <= indices[k] < |f.fields|
  }

  /** `Table::SelectColumns`: the columns at `indices`, in that order; an invalid index is an error. */
  function SelectColumns<V>(f: Frame<V>, indices: seq<int>): (r: Result<Frame<V>>)
    ensures r.Ok? <==> ColumnIndicesOk(f, indices)
    ensures r.Ok? ==> r.value.numRows == f.numRows && |r.value.fields| == |indices|
    ensures r.Ok? ==> forall k :: 0 <= k < |indices| ==> r.value.fields[k] == f.fields[indices[k]]
  {
    if ColumnIndicesOk(f, indices) then
      Ok(Frame(seq(|indices|, k requires 0 <= k < |indices| => f.fields[indices[k]]), f.numRows))
    else
      Err("Invalid column index")
  }

  // ---------------------------------------------------------------------
  // Row filtering

  /** How many rows a mask keeps: the entries that are a non-null true. */
  function Kept(mask: seq<Option<bool>>): nat {
    if mask == [] then 0
    else Kept(mask[..|mask| - 1]) + (if mask[|mask| - 1] == Some(true) then 1 else 0)
  }

  /** The values of one column at the rows the mask keeps, in row order. */
  function FilterValues<V>(values: seq<V>, mask: seq<Option<bool>>): (kept: seq<V>)
    requires |values| == |mask|
    ensures |kept| == Kept(mask)
  {
    if mask == [] then []
    else
      var last := |mask| - 1;
      FilterValues(values[..last], mask[..last]) + (if mask[last] == Some(true) then [values[last]] else [])
  }

  /** `compute::Filter` on a table: a mask of the wrong length is an error. */
  function FilterRows<V>(f: Frame<V>, mask: seq<Option<bool>>): (r: Result<Frame<V>>)
    requires Valid(f)
    ensures r.Ok? <==> |mask| == f.numRows
    ensures r.Ok? ==> Valid(r.value) && r.value.numRows == Kept(mask)
    ensures r.Ok? ==> ColumnNames(r.value) == ColumnNames(f)
    ensures r.Ok? ==> forall c :: 0 <= c < |f.fields| ==> r.value.fields[c].values == FilterValues(f.fields[c].values, mask)
  {
    if |mask| != f.numRows then
      Err("Filter: mask length does not match the table")
    else
      var fields := seq(|f.fields|, c requires 0 <= c < |f.fields| =>
        Field(f.fields[c].name, FilterValues(f.fields[c].values, mask)));
      Ok(Frame(fields, Kept(mask)))
  }

  /** A row filter: given a table, a Boolean mask over its rows, or an error. */
  type FilterFn<!V> = Frame<V> -> Result<seq<Option<bool>>>

  // ---------------------------------------------------------------------
  // The operation

  /**
   * ProjectFromTable: select the positionally matching columns; with no
   * filter that selection is the result, otherwise the filter is applied
   * to the projected table and its mask selects the rows.
   */
  method ProjectFromTable<V>(data: Frame<V>, takeAttrs: seq<string>, fnFilter: Option<FilterFn<V>>)
    returns (result: Result<Frame<V>>)
    requires Valid(data)
    requires |takeAttrs| >= |data.fields|
    ensures SelectColumns(data, MatchIndices(ColumnNames(data), takeAttrs)).Ok?
    ensures fnFilter.None? ==> result == SelectColumns(data, MatchIndices(ColumnNames(data), takeAttrs))
    ensures fnFilter.Some? ==>
      var projData := SelectColumns(data, MatchIndices(ColumnNames(data), takeAttrs)).value;
      Valid(projData) &&
      result == (match fnFilter.value(projData)
                   case Err(e) => Err(e)
                   case Ok(matchResults) => FilterRows(projData, matchResults))
  {
    var takeIndices := SelectedIndices(ColumnNames(data), takeAttrs);
    MatchIndicesSpec(ColumnNames(data), takeAttrs);
    if fnFilter.None? {
      return SelectColumns(data, takeIndices);
    }
    var projData := SelectColumns(data, takeIndices).value;
    SelectPreservesValid(data, takeIndices);
    var matchResults := fnFilter.value(projData);
    if matchResults.Err? {
      return Err(matchResults.msg);
    }
    result := FilterRows(projData, matchResults.value);
  }

  // ---------------------------------------------------------------------
  // Properties

  /**
   * The collected indices are strictly increasing, below the column count,
   * no more than the columns, and contain `i` exactly when the `i`-th name
   * equals the `i`-th attribute.
   */
  lemma {:induction false} MatchIndicesSpec(names: seq<string>, attrs: seq<string>)
    requires |attrs| >= |names|
    ensures |MatchIndices(names, attrs)| <= |names|
    ensures forall k :: 0 <= k < |MatchIndices(names, attrs)| ==> 0 <= MatchIndices(names, attrs)[k] < |names|
    ensures forall k, l :: 0 <= k < l < |MatchIndices(names, attrs)| ==>
      MatchIndices(names, attrs)[k] < MatchIndices(names, attrs)[l]
    ensures forall i :: 0 <= i < |names| ==> (i in MatchIndices(names, attrs) <==> names[i] == attrs[i])
  {
    if names != [] {
      var last := |names| - 1;
      var prefix := names[..last];
      MatchIndicesSpec(prefix, attrs);
      var m := MatchIndices(prefix, attrs);
      assert forall i :: 0 <= i < last ==> names[i] == prefix[i];
      assert last !in m;
    }
  }

  /**
   * Row `r` that the mask keeps lands at position `Kept(mask[..r])` of the
   * filtered column: kept rows keep their relative order.
   */
  lemma {:induction false} FilterValuesAt<V>(v: seq<V>, mask: seq<Option<bool>>, r: int)
    requires |v| == |mask| && 0 <= r < |mask| && mask[r] == Some(true)
    ensures Kept(mask[..r]) < Kept(mask)
    ensures FilterValues(v, mask)[Kept(mask[..r])] == v[r]
  {
    var last := |mask| - 1;
    if r == last {
      assert mask[..last] == mask[..r];
    } else {
      FilterValuesAt(v[..last], mask[..last], r);
      assert mask[..last][..r] == mask[..r];
    }
  }

  lemma SelectPreservesValid<V>(f: Frame<V>, indices: seq<int>)
    requires Valid(f) && ColumnIndicesOk(f, indices)
    ensures Valid(SelectColumns(f, indices).value)
  {
  }

  /**
   * Without a filter the projection cannot fail, and the result holds, in
   * schema order, exactly the columns whose name equals the attribute at
   * their own position.
   */
  lemma ProjectionSelectsMatchingColumns<V>(data: Frame<V>, takeAttrs: seq<string>)
    requires |takeAttrs| >= |data.fields|
    ensures SelectColumns(data, MatchIndices(ColumnNames(data), takeAttrs)).Ok?
    ensures var m := MatchIndices(ColumnNames(data), takeAttrs);
      var p := SelectColumns(data, m).value;
      && p.numRows == data.numRows
      && |p.fields| == |m|
      && (forall k :: 0 <= k < |m| ==>
            0 <= m[k] < |data.fields| && p.fields[k] == data.fields[m[k]] && data.fields[m[k]].name == takeAttrs[m[k]])
      && (forall k, l :: 0 <= k < l < |m| ==> m[k] < m[l])
      && (forall i :: 0 <= i < |data.fields| && data.fields[i].name == takeAttrs[i] ==> i in m)
  {
    var names := ColumnNames(data);
    var m := MatchIndices(names, takeAttrs);
    MatchIndicesSpec(names, takeAttrs);
    forall k | 0 <= k < |m| ensures data.fields[m[k]].name == takeAttrs[m[k]] {
      assert m[k] in m && names[m[k]] == data.fields[m[k]].name;
    }
    forall i | 0 <= i < |data.fields| && data.fields[i].name == takeAttrs[i] ensures i in m {
      assert names[i] == data.fields[i].name;
    }
  }

  /** Attributes that agree with the schema everywhere select every column, unchanged. */
  lemma ExactAttributesSelectAll<V>(data: Frame<V>)
    ensures SelectColumns(data, MatchIndices(ColumnNames(data), ColumnNames(data))) == Ok(data)
  {
    var names := ColumnNames(data);
    MatchIndicesSpec(names, names);
    var m := MatchIndices(names, names);
    MatchAllIsIdentity(names);
    var p := SelectColumns(data, m).value;
    assert p.fields == data.fields;
  }

  lemma {:induction false} MatchAllIsIdentity(names: seq<string>)
    ensures |MatchIndices(names, names)| == |names|
    ensures forall k :: 0 <= k < |names| ==> MatchIndices(names, names)[k] == k
  {
    if names != [] {
      var last := |names| - 1;
      MatchIndicesPrefix(names[..last], names);
      MatchAllIsIdentity(names[..last]);
    }
  }

  /** The indices depend only on the attributes at positions the names reach. */
  lemma {:induction false} MatchIndicesPrefix(names: seq<string>, attrs: seq<string>)
    requires |attrs| >= |names|
    ensures MatchIndices(names, attrs) == MatchIndices(names, attrs[..|names|])
  {
    if names != [] {
      var last := |names| - 1;
      MatchIndicesPrefix(names[..last], attrs);
      MatchIndicesPrefix(names[..last], attrs[..|names|]);
      assert attrs[..|names|][..last] == attrs[..last];
    }
  }

  /** A mask of all non-null trues keeps every row. */
  lemma {:induction false} AllTrueKeepsValues<V>(values: seq<V>, mask: seq<Option<bool>>)
    requires |values| == |mask|
    requires forall r :: 0 <= r < |mask| ==> mask[r] == Some(true)
    ensures FilterValues(values, mask) == values
  {
    if mask != [] {
      var last := |mask| - 1;
      AllTrueKeepsValues(values[..last], mask[..last]);
      assert values == values[..last] + [values[last]];
    }
  }

  /** Filtering with a mask of all non-null trues returns the table unchanged. */
  lemma AllTrueFilterIsIdentity<V>(f: Frame<V>, mask: seq<Option<bool>>)
    requires Valid(f) && |mask| == f.numRows
    requires forall r :: 0 <= r < |mask| ==> mask[r] == Some(true)
    ensures FilterRows(f, mask) == Ok(f)
  {
    AllTrueMaskCount(mask);
    var g := FilterRows(f, mask).value;
    forall c | 0 <= c < |f.fields| ensures g.fields[c] == f.fields[c] {
      AllTrueKeepsValues(f.fields[c].values, mask);
    }
    assert g.fields == f.fields;
  }

  lemma {:induction false} AllTrueMaskCount(mask: seq<Option<bool>>)
    requires forall r :: 0 <= r < |mask| ==> mask[r] == Some(true)
    ensures Kept(mask) == |mask|
  {
    if mask != [] {
      AllTrueMaskCount(mask[..|mask| - 1]);
    }
  }

  /** A null or false entry drops its row: a mask with no non-null true keeps nothing. */
  lemma {:induction false} NoTrueKeepsNothing<V>(values: seq<V>, mask: seq<Option<bool>>)
    requires |values| == |mask|
    requires forall r :: 0 <= r < |mask| ==> mask[r] != Some(true)
    ensures FilterValues(values, mask) == []
  {
    if mask != [] {
      NoTrueKeepsNothing(values[..|mask| - 1], mask[..|mask| - 1]);
    }
  }

  /**
   * For a mask fixed in advance, selecting columns and filtering rows
   * commute: projecting first changes only what the filter function gets
   * to see, not which rows a given mask keeps.
   */
  lemma SelectThenFilterCommutes<V>(f: Frame<V>, indices: seq<int>, mask: seq<Option<bool>>)
    requires Valid(f) && ColumnIndicesOk(f, indices) && |mask| == f.numRows
    ensures Valid(SelectColumns(f, indices).value)
    ensures FilterRows(SelectColumns(f, indices).value, mask)
      == SelectColumns(FilterRows(f, mask).value, indices)
  {
    var p := SelectColumns(f, indices).value;
    var g := FilterRows(f, mask).value;
    assert |g.fields| == |f.fields|;
    var left := FilterRows(p, mask).value;
    var right := SelectColumns(g, indices).value;
    assert left.fields == right.fields;
  }

  /** Example: schema [id, x, y] against attributes [id, y, y] keeps columns 0 and 2. */
  lemma ExampleSelection()
    ensures MatchIndices(["id", "x", "y"], ["id", "y", "y"]) == [0, 2]
  {
    var names := ["id", "x", "y"];
    var attrs := ["id", "y", "y"];
    assert names[..2] == ["id", "x"] && names[..2][..1] == ["id"] && names[..2][..1][..0] == [];
    assert MatchIndices(["id"], attrs) == [0];
    assert "x" != "y";
    assert MatchIndices(["id", "x"], attrs) == [0];
  }
}
