/** The helpers that turn PHP arrays into Cassandra's Thrift structures: array_to_columns,
    array_to_supercolumns_or_columns, array_to_mutation and to_column_value. */
module Encoder {
  import opened Php
  import opened Cassandra
  import opened NameCodec

  /** to_column_value: null is sent as the empty string, every other value as it is. */
  function ToColumnValue(v: Value): (r: Value)
    ensures !r.Null?
    ensures r == v || (v.Null? && r == Str([]))
  {
    if v.Null? then Str([]) else v
  }

  /** `if(empty($timestamp)) $timestamp = CassandraUtil::get_time();`, the clock reading being
      the parameter `now`. */
  function EffectiveTimestamp(ts: int, now: int): int {
    if ts == 0 then now else ts
  }

  function EncodeColumn(c: Codec, entry: (Value, Value), t: int): Column {
    Column(Unparse(c, entry.0, false), ToColumnValue(entry.1), t)
  }

  /** The Columns array_to_columns builds from a sub-column array: one per entry, in order, the
      name through the sub-column codec, every one stamped with t. */
  function EncodeColumns(c: Codec, a: PArray<Value>, t: int): (r: seq<Column>)
    ensures |r| == |a|
    ensures forall i :: 0 <= i < |a| ==>
      && r[i].name == Unparse(c, a[i].0, false)
      && r[i].value == ToColumnValue(a[i].1)
      && r[i].timestamp == t
  {
    if a == [] then [] else EncodeColumns(c, a[..|a| - 1], t) + [EncodeColumn(c, a[|a| - 1], t)]
  }

  /** One entry of array_to_supercolumns_or_columns: an array value becomes a SuperColumn,
      any other value a Column; the outer name goes through the column codec. */
  function EncodeEntry(c: Codec, entry: (Value, Cell), t: int): ColumnOrSuperColumn {
    match entry.1
    case Nested(cols) =>
      ColumnOrSuperColumn(None, Some(SuperColumn(Unparse(c, entry.0, true), EncodeColumns(c, cols, t), t)))
    case Scalar(v) =>
      ColumnOrSuperColumn(Some(Column(Unparse(c, entry.0, true), ToColumnValue(v), t)), None)
  }

  /** The entries array_to_supercolumns_or_columns builds: one per array entry, in order. */
  function EncodeRow(c: Codec, a: Row, t: int): (r: seq<ColumnOrSuperColumn>)
    ensures |r| == |a|
    ensures forall i :: 0 <= i < |a| ==> r[i] == EncodeEntry(c, a[i], t)
  {
    if a == [] then [] else EncodeRow(c, a[..|a| - 1], t) + [EncodeEntry(c, a[|a| - 1], t)]
  }

  /** array_to_mutation's wrapping: one Mutation per entry, in order. */
  function WrapMutations(entries: seq<ColumnOrSuperColumn>): (r: seq<Mutation>)
    ensures |r| == |entries|
    ensures forall i :: 0 <= i < |entries| ==> r[i].columnOrSupercolumn == entries[i]
  {
    if entries == [] then []
    else WrapMutations(entries[..|entries| - 1]) + [Mutation(entries[|entries| - 1])]
  }

  /** Every Column and SuperColumn in the entries, at either level, carries timestamp t. */
  ghost predicate StampedWith(entries: seq<ColumnOrSuperColumn>, t: int) {
    forall i :: 0 <= i < |entries| ==>
      && (entries[i].column.Some? ==> entries[i].column.value.timestamp == t)
      && (entries[i].superColumn.Some? ==>
            && entries[i].superColumn.value.timestamp == t
            && forall j :: 0 <= j < |entries[i].superColumn.value.columns| ==>
                 entries[i].superColumn.value.columns[j].timestamp == t)
  }

  /** Each encoded entry sets exactly one of its two fields, the super-column field exactly
      when the array value is itself an array; and every record carries the one timestamp. */
  lemma EncodeRowShape(c: Codec, a: Row, t: int)
    ensures forall i :: 0 <= i < |a| ==>
      && EncodeRow(c, a, t)[i].column.Some? != EncodeRow(c, a, t)[i].superColumn.Some?
      && (EncodeRow(c, a, t)[i].superColumn.Some? <==> a[i].1.Nested?)
    ensures StampedWith(EncodeRow(c, a, t), t)
  {
  }

  lemma EncodeColumnsStep(c: Codec, a: PArray<Value>, t: int, i: nat)
    requires i < |a|
    ensures EncodeColumns(c, a[..i + 1], t) == EncodeColumns(c, a[..i], t) + [EncodeColumn(c, a[i], t)]
  {
    assert a[..i + 1][..i] == a[..i];
  }

  lemma EncodeRowStep(c: Codec, a: Row, t: int, i: nat)
    requires i < |a|
    ensures EncodeRow(c, a[..i + 1], t) == EncodeRow(c, a[..i], t) + [EncodeEntry(c, a[i], t)]
  {
    assert a[..i + 1][..i] == a[..i];
  }

  lemma WrapMutationsStep(entries: seq<ColumnOrSuperColumn>, i: nat)
    requires i < |entries|
    ensures WrapMutations(entries[..i + 1]) == WrapMutations(entries[..i]) + [Mutation(entries[i])]
  {
    assert entries[..i + 1][..i] == entries[..i];
  }

  /** array_to_columns */
  method ArrayToColumns(c: Codec, a: PArray<Value>, ts: int, now: int) returns (r: seq<Column>)
    ensures r == EncodeColumns(c, a, EffectiveTimestamp(ts, now))
  {
    var t := if ts == 0 then now else ts;
    r := [];
    for i := 0 to |a|
      invariant r == EncodeColumns(c, a[..i], t)
    {
      EncodeColumnsStep(c, a, t, i);
      var column := Column(Unparse(c, a[i].0, false), ToColumnValue(a[i].1), t);
      r := r + [column];
    }
    assert a[..|a|] == a;
  }

  /** array_to_supercolumns_or_columns */
  method ArrayToSupercolumnsOrColumns(c: Codec, a: Row, ts: int, now: int)
    returns (r: seq<ColumnOrSuperColumn>)
    ensures r == EncodeRow(c, a, EffectiveTimestamp(ts, now))
  {
    var t := if ts == 0 then now else ts;
    r := [];
    for i := 0 to |a|
      invariant r == EncodeRow(c, a[..i], t)
    {
      EncodeRowStep(c, a, t, i);
      var name := a[i].0;
      var cOrSc;
      match a[i].1 {
        case Nested(cols) =>
          var columns := ArrayToColumns(c, cols, t, now);
          assert EffectiveTimestamp(t, now) == t;
          cOrSc := ColumnOrSuperColumn(None, Some(SuperColumn(Unparse(c, name, true), columns, t)));
        case Scalar(v) =>
          cOrSc := ColumnOrSuperColumn(Some(Column(Unparse(c, name, true), ToColumnValue(v), t)), None);
      }
      assert cOrSc == EncodeEntry(c, a[i], t);
      r := r + [cOrSc];
    }
    assert a[..|a|] == a;
  }

  /** array_to_mutation */
  method ArrayToMutation(c: Codec, a: Row, ts: int, now: int) returns (r: seq<Mutation>)
    ensures r == WrapMutations(EncodeRow(c, a, EffectiveTimestamp(ts, now)))
  {
    var t := if ts == 0 then now else ts;
    var entries := ArrayToSupercolumnsOrColumns(c, a, t, now);
    r := [];
    for i := 0 to |entries|
      invariant r == WrapMutations(entries[..i])
    {
      WrapMutationsStep(entries, i);
      r := r + [Mutation(entries[i])];
    }
    assert entries[..|entries|] == entries;
  }
}
