/** The requests CassandraCF's calls build and the way they decode the answers: which codec
    direction and which boolean each call site passes to the name codec. The remote calls
    themselves are not modelled; their responses are inputs. */
module Accessor {
  import opened Php
  import opened Cassandra
  import opened NameCodec
  import opened Encoder
  import opened Decoder
  import RoundTrip

  /** The CassandraCF fields the calls read (the consistency levels only pass through). */
  datatype Accessor = Accessor(columnFamily: Bytes, isSuper: bool, codec: Codec)

  /** The SliceRange defaults of the Thrift structure, which multiget leaves unset. */
  const DEFAULT_COLUMN_COUNT := 100

  /** DEFAULT_ROW_LIMIT, the default row count of get_range. */
  const DEFAULT_ROW_LIMIT := 100

  datatype KeyRange = KeyRange(startKey: Value, endKey: Value, count: int)

  /** `$slice_start ? $this->unparse_column_name($slice_start, $flag) : ""` */
  function SliceBound(c: Codec, bound: Value, isColumn: bool): Value
  {
    if Truthy(bound) then Unparse(c, bound, isColumn) else Str([])
  }

  /** The column parent and slice range get sends for a row (or one super column of it). */
  function GetRequest(a: Accessor, superColumn: Value, sliceStart: Value, sliceFinish: Value,
                      reversed: bool, count: int): (ColumnParent, SliceRange)
  {
    (ColumnParent(a.columnFamily, Unparse(a.codec, superColumn, true)),
     SliceRange(SliceBound(a.codec, sliceStart, false), SliceBound(a.codec, sliceFinish, false), reversed, count))
  }

  /** What get returns for the response entries: outer names are decoded with the column
      codec, unless a super column was asked for, when they are that super column's
      sub-columns and are decoded with the sub-column codec. */
  function GetResult(a: Accessor, superColumn: Value, resp: seq<ColumnOrSuperColumn>): Row
  {
    DecodeRow(a.codec, resp, !Truthy(superColumn))
  }

  /** The column parent and slice range multiget sends: no super column, bounds through the
      sub-column codec, the structure's default order and count. */
  function MultigetRequest(a: Accessor, sliceStart: Value, sliceFinish: Value): (ColumnParent, SliceRange)
  {
    (ColumnParent(a.columnFamily, Null),
     SliceRange(SliceBound(a.codec, sliceStart, false), SliceBound(a.codec, sliceFinish, false), false, DEFAULT_COLUMN_COUNT))
  }

  /** multiget's loop over the response: every row key with its row decoded with the column
      codec, in response order. */
  method MultigetToArray(c: Codec, resp: PArray<seq<ColumnOrSuperColumn>>) returns (r: PArray<Row>)
    ensures r == DecodeRows(c, resp)
  {
    r := [];
    for i := 0 to |resp|
      invariant r == DecodeRows(c, resp[..i])
    {
      DecodeRowsStep(c, resp, i);
      var row := SupercolumnsOrColumnsToArray(c, resp[i].1, true);
      r := Put(r, KeyOf(resp[i].0), row);
    }
    assert resp[..|resp|] == resp;
  }

  /** multiget keeps every row of a genuine response, in response order. */
  lemma MultigetKeepsRows(c: Codec, resp: PArray<seq<ColumnOrSuperColumn>>)
    requires WellFormed(resp)
    ensures |DecodeRows(c, resp)| == |resp|
    ensures forall i :: 0 <= i < |resp| ==> DecodeRows(c, resp)[i] == (resp[i].0, DecodeRow(c, resp[i].1, true))
  {
    DecodeRowsInOrder(c, resp);
  }

  /** The column parent, slice range and key range get_range sends: bounds through the
      column codec, unlike get and multiget. */
  function GetRangeRequest(a: Accessor, startKey: Value, endKey: Value, rowCount: int,
                           sliceStart: Value, sliceFinish: Value): (ColumnParent, SliceRange, KeyRange)
  {
    (ColumnParent(a.columnFamily, Null),
     SliceRange(SliceBound(a.codec, sliceStart, true), SliceBound(a.codec, sliceFinish, true), false, DEFAULT_COLUMN_COUNT),
     KeyRange(startKey, endKey, rowCount))
  }

  /** The mutation map insert sends: the row key, then the column family, then the mutations
      array_to_mutation builds, all stamped with the one clock reading `now`. */
  function InsertRequest(a: Accessor, key: Value, columns: Row, now: int): PArray<PArray<seq<Mutation>>>
  {
    var mutations := WrapMutations(EncodeRow(a.codec, columns, EffectiveTimestamp(now, now)));
    Put([], KeyOf(key), Put([], Str(a.columnFamily), mutations))
  }

  /** The column path remove sends: a super-column family names a super column (column
      codec), any other family a column (sub-column codec). */
  function RemovePath(a: Accessor, columnName: Value): ColumnPath
  {
    if a.isSuper then ColumnPath(a.columnFamily, Unparse(a.codec, columnName, true), Null)
    else ColumnPath(a.columnFamily, Null, Unparse(a.codec, columnName, false))
  }

  // ---------------------------------------------------------------------------
  // Properties of the call sites

  /** Decoding the sub-column codec way never looks at the column type. */
  lemma {:induction false} DecodeColumnsIgnoresColumnType(c: Codec, t: NameType, cols: seq<Column>)
    ensures DecodeColumns(c.(columnType := t), cols) == DecodeColumns(c, cols)
  {
    if cols != [] {
      DecodeColumnsIgnoresColumnType(c, t, cols[..|cols| - 1]);
      FlagSelectsType(c, cols[|cols| - 1].name);
      FlagSelectsType(c.(columnType := t), cols[|cols| - 1].name);
    }
  }

  /** Decoding outer names with the sub-column codec is decoding them with the column codec of
      a family whose column type is the sub-column type. */
  lemma {:induction false} SubcolumnDecodeIsColumnDecode(c: Codec, entries: seq<ColumnOrSuperColumn>)
    ensures DecodeRow(c, entries, false) == DecodeRow(c.(columnType := c.subcolumnType), entries, true)
  {
    if entries != [] {
      var init, last := entries[..|entries| - 1], entries[|entries| - 1];
      SubcolumnDecodeIsColumnDecode(c, init);
      var c' := c.(columnType := c.subcolumnType);
      if last.column.Some? {
        FlagSelectsType(c, last.column.value.name);
      } else if last.superColumn.Some? {
        FlagSelectsType(c, last.superColumn.value.name);
        DecodeColumnsIgnoresColumnType(c, c.subcolumnType, last.superColumn.value.columns);
      }
      assert EntryCell(c', last) == EntryCell(c, last);
      assert EntryKey(c', last, true) == EntryKey(c, last, false);
    }
  }

  /** get with a super column decodes its answer as get without one would on a family whose
      column type is the sub-column type. */
  lemma GetSuperColumnUsesSubcolumnCodec(a: Accessor, superColumn: Value, resp: seq<ColumnOrSuperColumn>)
    requires Truthy(superColumn)
    ensures GetResult(a, superColumn, resp) == GetResult(a.(codec := a.codec.(columnType := a.codec.subcolumnType)), Null, resp)
  {
    SubcolumnDecodeIsColumnDecode(a.codec, resp);
  }

  /** A false bound is sent as the empty string whatever the codec; a true one is sent
      encoded, so that the codec decodes it back whenever the name round-trips. */
  lemma SliceBoundMeaning(c: Codec, bound: Value, isColumn: bool)
    ensures !Truthy(bound) ==> SliceBound(c, bound, isColumn) == Str([])
    ensures Truthy(bound) && RoundTrips(c, isColumn, bound) ==> Parse(c, SliceBound(c, bound, isColumn), isColumn) == bound
  {
    if Truthy(bound) && RoundTrips(c, isColumn, bound) {
      ParseUnparse(c, isColumn, bound);
    }
  }

  /** get and multiget send the same slice range for the same bounds when get keeps the
      default order and count. */
  lemma GetAndMultigetSlicesAgree(a: Accessor, sliceStart: Value, sliceFinish: Value)
    ensures GetRequest(a, Null, sliceStart, sliceFinish, false, DEFAULT_COLUMN_COUNT).1 == MultigetRequest(a, sliceStart, sliceFinish).1
  {
  }

  /** get and get_range encode the same slice bound differently once the two name types
      differ: an integer bound of a LongType family is packed by get_range, while get sends it
      through the (absent) sub-column type untouched. */
  lemma GetAndGetRangeBoundsDiffer(cf: Bytes)
    ensures var a := Accessor(cf, false, Codec(LongType, Unrecognised, true, x => x, x => x));
      && GetRequest(a, Null, Int(1), Null, false, DEFAULT_COLUMN_COUNT).1.start == Int(1)
      && GetRangeRequest(a, Str([]), Str([]), DEFAULT_ROW_LIMIT, Int(1), Null).1.start == Str(LongCodec.Pack(1))
  {
  }

  /** Whatever the types, the two bound encodings agree when both name types are the same. */
  lemma SameTypesSameBounds(a: Accessor, bound: Value)
    requires a.codec.columnType == a.codec.subcolumnType
    ensures SliceBound(a.codec, bound, true) == SliceBound(a.codec, bound, false)
  {
  }

  /** Every Column and SuperColumn of one insert carries the call's single timestamp, and
      decoding the mutations' entries gives back the inserted row when it survives the trip. */
  lemma InsertSharesTimestamp(a: Accessor, key: Value, columns: Row, now: int)
    ensures var ms := InsertRequest(a, key, columns, now)[0].1[0].1;
      StampedWith(seq(|ms|, i requires 0 <= i < |ms| => ms[i].columnOrSupercolumn), now)
    ensures RoundTrip.EncodableRow(a.codec, columns) ==>
      var ms := InsertRequest(a, key, columns, now)[0].1[0].1;
      DecodeRow(a.codec, seq(|ms|, i requires 0 <= i < |ms| => ms[i].columnOrSupercolumn), true) == columns
  {
    var ms := InsertRequest(a, key, columns, now)[0].1[0].1;
    var entries := EncodeRow(a.codec, columns, now);
    assert seq(|ms|, i requires 0 <= i < |ms| => ms[i].columnOrSupercolumn) == entries;
    EncodeRowShape(a.codec, columns, now);
    if RoundTrip.EncodableRow(a.codec, columns) {
      RoundTrip.DecodeEncodeRow(a.codec, columns, now);
    }
  }

  /** remove without a column name deletes the whole row: neither path field is set. */
  lemma RemoveWholeRow(a: Accessor)
    ensures RemovePath(a, Null).superColumn == Null && RemovePath(a, Null).column == Null
  {
  }

  /** The path remove sends names the column (or super column) that decodes back to the name
      asked for, with the codec direction its family uses. */
  lemma RemoveTargetsName(a: Accessor, columnName: Value)
    requires RoundTrips(a.codec, a.isSuper, columnName)
    ensures a.isSuper ==> Parse(a.codec, RemovePath(a, columnName).superColumn, true) == columnName
    ensures !a.isSuper ==> Parse(a.codec, RemovePath(a, columnName).column, false) == columnName
  {
    ParseUnparse(a.codec, a.isSuper, columnName);
  }

  /** The super column get asks for is encoded with the column codec, so it is the super column
      the column codec decodes back to that name. */
  lemma GetParentNamesSuperColumn(a: Accessor, superColumn: Value)
    requires RoundTrips(a.codec, true, superColumn)
    ensures Parse(a.codec, GetRequest(a, superColumn, Null, Null, false, DEFAULT_COLUMN_COUNT).0.superColumn, true) == superColumn
  {
    ParseUnparse(a.codec, true, superColumn);
  }
}
