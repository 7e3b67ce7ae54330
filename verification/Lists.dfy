/** The list wrappers get_list, get_range_list and multiget_list: a keyed answer flattened to a
    list, each element carrying its own key under `key_name`. */
module Lists {
  import opened Php
  import opened Cassandra

  /** `$_value[$key_name] = $_key`: the array with its key stored under key_name, overwriting
      an entry of that name in place. */
  function WithKey<V>(row: PArray<V>, keyName: Value, key: V): PArray<V> {
    Put(row, KeyOf(keyName), key)
  }

  /** The injected key is found under key_name, every other name finds what it found before. */
  lemma WithKeyMeaning<V>(row: PArray<V>, keyName: Value, key: V, other: Value)
    ensures Lookup(WithKey(row, keyName, key), KeyOf(keyName)) == Some(key)
    ensures other != KeyOf(keyName) ==> Lookup(WithKey(row, keyName, key), other) == Lookup(row, other)
    ensures WellFormed(row) ==> WellFormed(WithKey(row, keyName, key))
  {
    if other != KeyOf(keyName) {
      PutOther(row, KeyOf(keyName), key, other);
    }
  }

  // ---------------------------------------------------------------------------
  // multiget_list and get_range_list

  /** multiget_list's loop: one element per row, in order, each row with its row key. */
  function MultigetListOf(rows: PArray<Row>, keyName: Value): (r: seq<Row>)
    ensures |r| == |rows|
    ensures forall i :: 0 <= i < |rows| ==> r[i] == WithKey(rows[i].1, keyName, Scalar(rows[i].0))
  {
    if rows == [] then []
    else
      var last := rows[|rows| - 1];
      MultigetListOf(rows[..|rows| - 1], keyName) + [WithKey(last.1, keyName, Scalar(last.0))]
  }

  /** get_range_list's loop: like multiget_list, but a row that decoded to nothing (PHP's null)
      is skipped. */
  function RangeListOf(rows: PArray<Row>, keyName: Value): (r: seq<Row>)
    ensures |r| <= |rows|
  {
    if rows == [] then []
    else
      var last := rows[|rows| - 1];
      var prev := RangeListOf(rows[..|rows| - 1], keyName);
      if last.1 == [] then prev else prev + [WithKey(last.1, keyName, Scalar(last.0))]
  }

  /** The rows `!empty($_value)` keeps, in their order. */
  function NonEmptyRows(rows: PArray<Row>): (r: PArray<Row>)
    ensures |r| <= |rows|
    ensures forall i :: 0 <= i < |r| ==> r[i].1 != [] && r[i] in rows
    ensures forall i :: 0 <= i < |rows| && rows[i].1 != [] ==> rows[i] in r
  {
    if rows == [] then []
    else
      var last := rows[|rows| - 1];
      var prev := NonEmptyRows(rows[..|rows| - 1]);
      assert forall i :: 0 <= i < |rows| - 1 ==> rows[..|rows| - 1][i] == rows[i];
      if last.1 == [] then prev else prev + [last]
  }

  /** get_range_list is multiget_list applied to the non-empty rows only. */
  lemma {:induction false} RangeListIsMultigetOfNonEmpty(rows: PArray<Row>, keyName: Value)
    ensures RangeListOf(rows, keyName) == MultigetListOf(NonEmptyRows(rows), keyName)
  {
    if rows != [] {
      var init, last := rows[..|rows| - 1], rows[|rows| - 1];
      RangeListIsMultigetOfNonEmpty(init, keyName);
      var kept := NonEmptyRows(init);
      if last.1 != [] {
        assert (kept + [last])[..|kept|] == kept;
      }
    }
  }

  /** With no empty row, get_range_list drops nothing. */
  lemma {:induction false} RangeListKeepsNonEmpty(rows: PArray<Row>, keyName: Value)
    requires forall i :: 0 <= i < |rows| ==> rows[i].1 != []
    ensures RangeListOf(rows, keyName) == MultigetListOf(rows, keyName)
  {
    if rows != [] {
      RangeListKeepsNonEmpty(rows[..|rows| - 1], keyName);
    }
  }

  /** Every element of either list finds its row key under key_name. */
  lemma ListElementsCarryKey(rows: PArray<Row>, keyName: Value)
    ensures forall i :: 0 <= i < |rows| ==>
      Lookup(MultigetListOf(rows, keyName)[i], KeyOf(keyName)) == Some(Scalar(rows[i].0))
    ensures forall i :: 0 <= i < |RangeListOf(rows, keyName)| ==>
      exists j :: 0 <= j < |rows| && rows[j].1 != [] && RangeListOf(rows, keyName)[i] == WithKey(rows[j].1, keyName, Scalar(rows[j].0))
  {
    forall i | 0 <= i < |rows|
      ensures Lookup(MultigetListOf(rows, keyName)[i], KeyOf(keyName)) == Some(Scalar(rows[i].0))
    {
      WithKeyMeaning(rows[i].1, keyName, Scalar(rows[i].0), KeyOf(keyName));
    }
    RangeListIsMultigetOfNonEmpty(rows, keyName);
    var kept := NonEmptyRows(rows);
    forall i | 0 <= i < |RangeListOf(rows, keyName)|
      ensures exists j :: 0 <= j < |rows| && rows[j].1 != [] && RangeListOf(rows, keyName)[i] == WithKey(rows[j].1, keyName, Scalar(rows[j].0))
    {
      assert kept[i] in rows;
      var j :| 0 <= j < |rows| && rows[j] == kept[i];
      assert RangeListOf(rows, keyName)[i] == WithKey(rows[j].1, keyName, Scalar(rows[j].0));
    }
  }

  lemma MultigetListStep(rows: PArray<Row>, keyName: Value, i: nat)
    requires i < |rows|
    ensures MultigetListOf(rows[..i + 1], keyName) == MultigetListOf(rows[..i], keyName) + [WithKey(rows[i].1, keyName, Scalar(rows[i].0))]
  {
    assert rows[..i + 1][..i] == rows[..i];
  }

  lemma RangeListStep(rows: PArray<Row>, keyName: Value, i: nat)
    requires i < |rows|
    ensures rows[i].1 == [] ==> RangeListOf(rows[..i + 1], keyName) == RangeListOf(rows[..i], keyName)
    ensures rows[i].1 != [] ==>
      RangeListOf(rows[..i + 1], keyName) == RangeListOf(rows[..i], keyName) + [WithKey(rows[i].1, keyName, Scalar(rows[i].0))]
  {
    assert rows[..i + 1][..i] == rows[..i];
  }

  /** multiget_list, given multiget's answer (`MultigetToArray` of the response). */
  method MultigetList(rows: PArray<Row>, keyName: Value) returns (r: seq<Row>)
    ensures r == MultigetListOf(rows, keyName)
  {
    r := [];
    for i := 0 to |rows|
      invariant r == MultigetListOf(rows[..i], keyName)
    {
      MultigetListStep(rows, keyName, i);
      var value := WithKey(rows[i].1, keyName, Scalar(rows[i].0));
      r := r + [value];
    }
    assert rows[..|rows|] == rows;
  }

  /** get_range_list, given get_range's answer (`KeyslicesToArray` of the response). */
  method GetRangeList(rows: PArray<Row>, keyName: Value) returns (r: seq<Row>)
    ensures r == RangeListOf(rows, keyName)
  {
    r := [];
    for i := 0 to |rows|
      invariant r == RangeListOf(rows[..i], keyName)
    {
      RangeListStep(rows, keyName, i);
      if rows[i].1 != [] {
        var value := WithKey(rows[i].1, keyName, Scalar(rows[i].0));
        r := r + [value];
      }
    }
    assert rows[..|rows|] == rows;
  }

  // ---------------------------------------------------------------------------
  // get_list

  /** A cell of get's answer that is not an array: get_list is meant for super-column
      families, where every cell is one. */
  datatype ListError = NotAnArray(name: Value)

  /** The sub-column array a cell stands for; PHP turns null into an empty array on
      assignment. */
  function CellColumns(cell: Cell): PArray<Value> {
    if cell.Nested? then cell.columns else []
  }

  predicate IsArrayLike(cell: Cell) {
    cell.Nested? || cell == Scalar(Null)
  }

  /** The position of the first cell that is neither an array nor null, or |row|. */
  function FirstNonArray(row: Row): (i: nat)
    ensures i <= |row|
    ensures forall j :: 0 <= j < i ==> IsArrayLike(row[j].1)
    ensures i < |row| ==> !IsArrayLike(row[i].1)
  {
    if row == [] || !IsArrayLike(row[0].1) then 0 else 1 + FirstNonArray(row[1..])
  }

  /** get_list's elements: one per cell, in order, each the cell's sub-columns with the super
      column's name injected under key_name. */
  function ListOfCells(row: Row, keyName: Value): (r: seq<PArray<Value>>)
    ensures |r| == |row|
    ensures forall i :: 0 <= i < |row| ==> r[i] == WithKey(CellColumns(row[i].1), keyName, row[i].0)
  {
    if row == [] then []
    else
      var last := row[|row| - 1];
      ListOfCells(row[..|row| - 1], keyName) + [WithKey(CellColumns(last.1), keyName, last.0)]
  }

  /** get_list's loop over get's answer: the list of all cells, or an error naming the first
      cell that is a non-null scalar, where the loop stops. */
  function GetListOf(row: Row, keyName: Value): Result<seq<PArray<Value>>, ListError> {
    var i := FirstNonArray(row);
    if i < |row| then Err(NotAnArray(row[i].0)) else Ok(ListOfCells(row, keyName))
  }

  lemma ListOfCellsStep(row: Row, keyName: Value, i: nat)
    requires i < |row|
    ensures ListOfCells(row[..i + 1], keyName) == ListOfCells(row[..i], keyName) + [WithKey(CellColumns(row[i].1), keyName, row[i].0)]
  {
    assert row[..i + 1][..i] == row[..i];
  }

  /** get_list, given the answer of get without a super column (`GetResult(a, Null, resp)`). */
  method GetList(row: Row, keyName: Value) returns (r: Result<seq<PArray<Value>>, ListError>)
    ensures r == GetListOf(row, keyName)
  {
    var ret := [];
    for i := 0 to |row|
      invariant i <= FirstNonArray(row)
      invariant ret == ListOfCells(row[..i], keyName)
    {
      ListOfCellsStep(row, keyName, i);
      // `$_value[$key_name] = $_key` needs an array, or null, which becomes one
      if !IsArrayLike(row[i].1) {
        return Err(NotAnArray(row[i].0));
      }
      ret := ret + [WithKey(CellColumns(row[i].1), keyName, row[i].0)];
    }
    assert row[..|row|] == row;
    r := Ok(ret);
  }
}
