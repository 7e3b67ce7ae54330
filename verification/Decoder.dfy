/** The helpers that turn Cassandra's Thrift responses into PHP arrays: columns_to_array,
    supercolumns_or_columns_to_array and keyslices_to_array. */
module Decoder {
  import opened Php
  import opened Cassandra
  import opened NameCodec

  /** The array key a wire name is stored under once decoded (a null name is stored as ""). */
  function NameKey(c: Codec, name: Value, isColumn: bool): (k: Value)
    ensures IsKey(k)
  {
    KeyOf(Parse(c, name, isColumn))
  }

  /** columns_to_array: every Column stored under its name decoded with the sub-column codec;
      a later Column whose name decodes the same overwrites the earlier value in place. */
  function DecodeColumns(c: Codec, cols: seq<Column>): (r: PArray<Value>)
    ensures WellFormed(r)
    ensures |r| <= |cols|
  {
    if cols == [] then []
    else
      var last := cols[|cols| - 1];
      var prev := DecodeColumns(c, cols[..|cols| - 1]);
      PutWellFormed(prev, NameKey(c, last.name, false), last.value);
      Put(prev, NameKey(c, last.name, false), last.value)
  }

  /** One more Column is stored under its decoded name. */
  lemma DecodeColumnsSnoc(c: Codec, cols: seq<Column>, col: Column)
    ensures DecodeColumns(c, cols + [col]) == Put(DecodeColumns(c, cols), NameKey(c, col.name, false), col.value)
  {
    assert (cols + [col])[..|cols|] == cols;
  }

  lemma DecodeColumnsStep(c: Codec, cols: seq<Column>, i: nat)
    requires i < |cols|
    ensures DecodeColumns(c, cols[..i + 1]) == Put(DecodeColumns(c, cols[..i]), NameKey(c, cols[i].name, false), cols[i].value)
  {
    assert cols[..i + 1] == cols[..i] + [cols[i]];
    DecodeColumnsSnoc(c, cols[..i], cols[i]);
  }

  /** The decoded array holds exactly the decoded names of the Columns. */
  lemma {:induction false} DecodeColumnsKeys(c: Codec, cols: seq<Column>, k: Value)
    ensures HasKey(DecodeColumns(c, cols), k) <==> exists i :: 0 <= i < |cols| && NameKey(c, cols[i].name, false) == k
  {
    if cols != [] {
      var init, last := cols[..|cols| - 1], cols[|cols| - 1];
      DecodeColumnsKeys(c, init, k);
      assert forall i :: 0 <= i < |init| ==> init[i] == cols[i];
      if k != NameKey(c, last.name, false) {
        PutOther(DecodeColumns(c, init), NameKey(c, last.name, false), last.value, k);
      }
    }
  }

  /** The value under a decoded name is that of the last Column whose name decodes to it. */
  lemma {:induction false} DecodeColumnsLastWins(c: Codec, cols: seq<Column>, i: nat)
    requires i < |cols|
    requires forall j :: i < j < |cols| ==> NameKey(c, cols[j].name, false) != NameKey(c, cols[i].name, false)
    ensures Lookup(DecodeColumns(c, cols), NameKey(c, cols[i].name, false)) == Some(cols[i].value)
  {
    if i < |cols| - 1 {
      var init, last := cols[..|cols| - 1], cols[|cols| - 1];
      assert forall j :: 0 <= j < |init| ==> init[j] == cols[j];
      DecodeColumnsLastWins(c, init, i);
      PutOther(DecodeColumns(c, init), NameKey(c, last.name, false), last.value, NameKey(c, cols[i].name, false));
    }
  }

  /** A super column's decoded sub-columns: columns_to_array returns null when there are none. */
  function SuperCell(cols: PArray<Value>): Cell {
    if cols == [] then Scalar(Null) else Nested(cols)
  }

  /** The key a response entry is stored under: that of its Column if it has one, else that of
      its SuperColumn; an entry with neither is skipped. */
  function EntryKey(c: Codec, e: ColumnOrSuperColumn, asColumns: bool): Option<Value> {
    if e.column.Some? then Some(NameKey(c, e.column.value.name, asColumns))
    else if e.superColumn.Some? then Some(NameKey(c, e.superColumn.value.name, asColumns))
    else None
  }

  function EntryCell(c: Codec, e: ColumnOrSuperColumn): Cell {
    if e.column.Some? then Scalar(e.column.value.value)
    else if e.superColumn.Some? then SuperCell(DecodeColumns(c, e.superColumn.value.columns))
    else Scalar(Null)
  }

  /** supercolumns_or_columns_to_array: the response entries folded into a row mapping, outer
      names decoded with the column codec when `asColumns` holds and with the sub-column codec
      otherwise. */
  function DecodeRow(c: Codec, entries: seq<ColumnOrSuperColumn>, asColumns: bool): (r: Row)
    ensures WellFormed(r)
    ensures |r| <= |entries|
  {
    if entries == [] then []
    else
      var last := entries[|entries| - 1];
      var acc := DecodeRow(c, entries[..|entries| - 1], asColumns);
      match EntryKey(c, last, asColumns)
      case Some(k) =>
        PutWellFormed(acc, k, EntryCell(c, last));
        Put(acc, k, EntryCell(c, last))
      case None => acc
  }

  /** One more entry is stored under its key; an entry that sets neither field has none and
      leaves the row as it was. */
  lemma DecodeRowSnoc(c: Codec, entries: seq<ColumnOrSuperColumn>, e: ColumnOrSuperColumn, asColumns: bool)
    ensures EntryKey(c, e, asColumns).Some? ==>
      DecodeRow(c, entries + [e], asColumns) == Put(DecodeRow(c, entries, asColumns), EntryKey(c, e, asColumns).value, EntryCell(c, e))
    ensures EntryKey(c, e, asColumns).None? ==> DecodeRow(c, entries + [e], asColumns) == DecodeRow(c, entries, asColumns)
  {
    assert (entries + [e])[..|entries|] == entries;
  }

  lemma DecodeRowStep(c: Codec, entries: seq<ColumnOrSuperColumn>, asColumns: bool, i: nat)
    requires i < |entries|
    ensures EntryKey(c, entries[i], asColumns).Some? ==>
      DecodeRow(c, entries[..i + 1], asColumns) == Put(DecodeRow(c, entries[..i], asColumns), EntryKey(c, entries[i], asColumns).value, EntryCell(c, entries[i]))
    ensures EntryKey(c, entries[i], asColumns).None? ==> DecodeRow(c, entries[..i + 1], asColumns) == DecodeRow(c, entries[..i], asColumns)
  {
    assert entries[..i + 1] == entries[..i] + [entries[i]];
    DecodeRowSnoc(c, entries[..i], entries[i], asColumns);
  }

  /** The decoded row holds exactly the keys of the entries that set a field. */
  lemma {:induction false} DecodeRowKeys(c: Codec, entries: seq<ColumnOrSuperColumn>, asColumns: bool, k: Value)
    ensures HasKey(DecodeRow(c, entries, asColumns), k) <==>
      exists i :: 0 <= i < |entries| && EntryKey(c, entries[i], asColumns) == Some(k)
  {
    if entries != [] {
      var init, last := entries[..|entries| - 1], entries[|entries| - 1];
      DecodeRowKeys(c, init, asColumns, k);
      assert forall i :: 0 <= i < |init| ==> init[i] == entries[i];
      var key := EntryKey(c, last, asColumns);
      if key.Some? && key.value != k {
        PutOther(DecodeRow(c, init, asColumns), key.value, EntryCell(c, last), k);
      }
    }
  }

  /** The cell under a decoded name is that of the last entry stored under it: a Column's
      value, or a SuperColumn's sub-columns decoded with the sub-column codec. */
  lemma {:induction false} DecodeRowLastWins(c: Codec, entries: seq<ColumnOrSuperColumn>, asColumns: bool, i: nat)
    requires i < |entries| && EntryKey(c, entries[i], asColumns).Some?
    requires forall j :: i < j < |entries| ==> EntryKey(c, entries[j], asColumns) != EntryKey(c, entries[i], asColumns)
    ensures Lookup(DecodeRow(c, entries, asColumns), EntryKey(c, entries[i], asColumns).value) == Some(EntryCell(c, entries[i]))
  {
    var init, last := entries[..|entries| - 1], entries[|entries| - 1];
    assert forall j :: 0 <= j < |init| ==> init[j] == entries[j];
    if i < |entries| - 1 {
      DecodeRowLastWins(c, init, asColumns, i);
      var key := EntryKey(c, last, asColumns);
      if key.Some? {
        PutOther(DecodeRow(c, init, asColumns), key.value, EntryCell(c, last), EntryKey(c, entries[i], asColumns).value);
      }
    }
  }

  /** keyslices_to_array and the loop of multiget: every row key with its decoded row, a
      repeated key overwriting the earlier row in place. */
  function DecodeRows(c: Codec, resp: seq<(Value, seq<ColumnOrSuperColumn>)>): (r: PArray<Row>)
    ensures WellFormed(r)
    ensures |r| <= |resp|
  {
    if resp == [] then []
    else
      var last := resp[|resp| - 1];
      var prev := DecodeRows(c, resp[..|resp| - 1]);
      PutWellFormed(prev, KeyOf(last.0), DecodeRow(c, last.1, true));
      Put(prev, KeyOf(last.0), DecodeRow(c, last.1, true))
  }

  lemma DecodeRowsStep(c: Codec, resp: seq<(Value, seq<ColumnOrSuperColumn>)>, i: nat)
    requires i < |resp|
    ensures DecodeRows(c, resp[..i + 1]) == Put(DecodeRows(c, resp[..i]), KeyOf(resp[i].0), DecodeRow(c, resp[i].1, true))
  {
    assert resp[..i + 1][..i] == resp[..i];
  }

  /** With distinct row keys no key is dropped: one entry per response row, in response order. */
  lemma {:induction false} DecodeRowsInOrder(c: Codec, resp: seq<(Value, seq<ColumnOrSuperColumn>)>)
    requires forall i :: 0 <= i < |resp| ==> IsKey(resp[i].0)
    requires forall i, j :: 0 <= i < j < |resp| ==> resp[i].0 != resp[j].0
    ensures |DecodeRows(c, resp)| == |resp|
    ensures forall i :: 0 <= i < |resp| ==> DecodeRows(c, resp)[i] == (resp[i].0, DecodeRow(c, resp[i].1, true))
  {
    if resp != [] {
      var init := resp[..|resp| - 1];
      DecodeRowsInOrder(c, init);
      var prev := DecodeRows(c, init);
      var k := resp[|resp| - 1].0;
      assert !HasKey(prev, k) by {
        forall j | 0 <= j < |prev| ensures prev[j].0 != k {
          assert prev[j].0 == resp[j].0;
        }
      }
    }
  }

  /** The (row key, entries) pairs of the key slices, in response order. */
  function KeySlicePairs(slices: seq<KeySlice>): seq<(Value, seq<ColumnOrSuperColumn>)>
  {
    seq(|slices|, i requires 0 <= i < |slices| => (Str(slices[i].key), slices[i].columns))
  }

  /** keyslices_to_array adds one key per key slice, in response order, when the keys differ. */
  lemma KeySlicesInOrder(c: Codec, slices: seq<KeySlice>)
    requires forall i, j :: 0 <= i < j < |slices| ==> slices[i].key != slices[j].key
    ensures |DecodeRows(c, KeySlicePairs(slices))| == |slices|
    ensures forall i :: 0 <= i < |slices| ==>
      DecodeRows(c, KeySlicePairs(slices))[i] == (Str(slices[i].key), DecodeRow(c, slices[i].columns, true))
  {
    var pairs := KeySlicePairs(slices);
    assert forall i, j :: 0 <= i < j < |pairs| ==> pairs[i].0 != pairs[j].0 by {
      forall i, j | 0 <= i < j < |pairs| ensures pairs[i].0 != pairs[j].0 {
        assert slices[i].key != slices[j].key;
      }
    }
    DecodeRowsInOrder(c, pairs);
  }

  /** columns_to_array */
  method ColumnsToArray(c: Codec, cols: seq<Column>) returns (r: PArray<Value>)
    ensures r == DecodeColumns(c, cols)
  {
    r := [];
    for i := 0 to |cols|
      invariant r == DecodeColumns(c, cols[..i])
    {
      DecodeColumnsStep(c, cols, i);
      var name := Parse(c, cols[i].name, false);
      r := Put(r, KeyOf(name), cols[i].value);
    }
    assert cols[..|cols|] == cols;
  }

  /** supercolumns_or_columns_to_array */
  method SupercolumnsOrColumnsToArray(c: Codec, entries: seq<ColumnOrSuperColumn>, asColumns: bool)
    returns (r: Row)
    ensures r == DecodeRow(c, entries, asColumns)
  {
    r := [];
    for i := 0 to |entries|
      invariant r == DecodeRow(c, entries[..i], asColumns)
    {
      DecodeRowStep(c, entries, asColumns, i);
      var e := entries[i];
      if e.column.Some? {
        var name := Parse(c, e.column.value.name, asColumns);
        r := Put(r, KeyOf(name), Scalar(e.column.value.value));
      } else if e.superColumn.Some? {
        var name := Parse(c, e.superColumn.value.name, asColumns);
        var columns := ColumnsToArray(c, e.superColumn.value.columns);
        r := Put(r, KeyOf(name), if columns == [] then Scalar(Null) else Nested(columns));
      }
    }
    assert entries[..|entries|] == entries;
  }

  /** keyslices_to_array */
  method KeyslicesToArray(c: Codec, slices: seq<KeySlice>) returns (r: PArray<Row>)
    ensures r == DecodeRows(c, KeySlicePairs(slices))
  {
    ghost var pairs := KeySlicePairs(slices);
    r := [];
    for i := 0 to |slices|
      invariant r == DecodeRows(c, pairs[..i])
    {
      DecodeRowsStep(c, pairs, i);
      var row := SupercolumnsOrColumnsToArray(c, slices[i].columns, true);
      r := Put(r, Str(slices[i].key), row);
    }
    assert pairs[..|slices|] == pairs;
  }
}
