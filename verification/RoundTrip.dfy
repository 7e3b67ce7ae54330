/** Decoding what the encoders build gives back the application's array: the contract between
    array_to_supercolumns_or_columns and supercolumns_or_columns_to_array. */
module RoundTrip {
  import opened Php
  import opened Cassandra
  import opened NameCodec
  import opened Encoder
  import opened Decoder

  /** A sub-column array that survives the trip: a genuine PHP array whose names the
      sub-column codec gives back and whose values are not null (null is sent as ""). */
  ghost predicate EncodableColumns(c: Codec, a: PArray<Value>) {
    && WellFormed(a)
    && forall i :: 0 <= i < |a| ==> RoundTrips(c, false, a[i].0) && !a[i].1.Null?
  }

  ghost predicate EncodableCell(c: Codec, cell: Cell) {
    match cell
    case Scalar(v) => !v.Null?
    case Nested(cols) => cols != [] && EncodableColumns(c, cols)
  }

  /** A row that survives the trip: names the column codec gives back, non-null scalars and
      non-empty sub-column arrays (an empty one comes back as null). */
  ghost predicate EncodableRow(c: Codec, a: Row) {
    && WellFormed(a)
    && forall i :: 0 <= i < |a| ==> RoundTrips(c, true, a[i].0) && EncodableCell(c, a[i].1)
  }

  /** The name an encoded name decodes to, once stored as an array key, is the original. */
  lemma NameKeyRoundTrip(c: Codec, isColumn: bool, name: Value)
    requires IsKey(name) && RoundTrips(c, isColumn, name)
    ensures NameKey(c, Unparse(c, name, isColumn), isColumn) == name
  {
    ParseUnparse(c, isColumn, name);
  }

  /** A genuine array is its front, which is genuine, followed by its last entry, whose key
      the front does not hold. */
  lemma LastKeyIsNew<V>(a: PArray<V>)
    requires WellFormed(a) && a != []
    ensures !HasKey(a[..|a| - 1], a[|a| - 1].0)
    ensures WellFormed(a[..|a| - 1])
    ensures a == a[..|a| - 1] + [a[|a| - 1]]
  {
    var init := a[..|a| - 1];
    forall j | 0 <= j < |init| ensures init[j].0 != a[|a| - 1].0 {
      assert init[j] == a[j];
    }
  }

  lemma EncodableColumnsInit(c: Codec, a: PArray<Value>)
    requires EncodableColumns(c, a) && a != []
    ensures EncodableColumns(c, a[..|a| - 1])
    ensures IsKey(a[|a| - 1].0) && RoundTrips(c, false, a[|a| - 1].0) && !a[|a| - 1].1.Null?
    ensures Put(a[..|a| - 1], a[|a| - 1].0, a[|a| - 1].1) == a
  {
    LastKeyIsNew(a);
  }

  lemma EncodableRowInit(c: Codec, a: Row)
    requires EncodableRow(c, a) && a != []
    ensures EncodableRow(c, a[..|a| - 1])
    ensures IsKey(a[|a| - 1].0) && RoundTrips(c, true, a[|a| - 1].0) && EncodableCell(c, a[|a| - 1].1)
    ensures Put(a[..|a| - 1], a[|a| - 1].0, a[|a| - 1].1) == a
  {
    LastKeyIsNew(a);
  }

  /** Decoding the Columns array_to_columns builds returns the original sub-column array. */
  lemma {:induction false} DecodeEncodeColumns(c: Codec, a: PArray<Value>, t: int)
    requires EncodableColumns(c, a)
    ensures DecodeColumns(c, EncodeColumns(c, a, t)) == a
  {
    if a != [] {
      var init, last := a[..|a| - 1], a[|a| - 1];
      EncodableColumnsInit(c, a);
      DecodeEncodeColumns(c, init, t);
      NameKeyRoundTrip(c, false, last.0);
      DecodeColumnsSnoc(c, EncodeColumns(c, init, t), EncodeColumn(c, last, t));
    }
  }

  /** Decoding the entries array_to_supercolumns_or_columns builds returns the original row. */
  lemma {:induction false} DecodeEncodeRow(c: Codec, a: Row, t: int)
    requires EncodableRow(c, a)
    ensures DecodeRow(c, EncodeRow(c, a, t), true) == a
  {
    if a != [] {
      var init, last := a[..|a| - 1], a[|a| - 1];
      EncodableRowInit(c, a);
      DecodeEncodeRow(c, init, t);
      DecodeEncodeEntry(c, last, t);
      DecodeRowSnoc(c, EncodeRow(c, init, t), EncodeEntry(c, last, t), true);
    }
  }

  /** One encoded entry decodes to the name and the cell it was built from. */
  lemma DecodeEncodeEntry(c: Codec, entry: (Value, Cell), t: int)
    requires IsKey(entry.0) && RoundTrips(c, true, entry.0) && EncodableCell(c, entry.1)
    ensures EntryKey(c, EncodeEntry(c, entry, t), true) == Some(entry.0)
    ensures EntryCell(c, EncodeEntry(c, entry, t)) == entry.1
  {
    NameKeyRoundTrip(c, true, entry.0);
    if entry.1.Nested? {
      DecodeEncodeColumns(c, entry.1.columns, t);
    }
  }

  /** With parsing on and pass-through types at both levels, every genuine row with true names,
      non-null values and non-empty sub-column arrays round-trips. */
  lemma PassThroughRoundTrip(c: Codec, a: Row, t: int)
    requires c.parseColumns
    requires c.columnType !in {LongType, LexicalUUIDType, TimeUUIDType}
    requires c.subcolumnType !in {LongType, LexicalUUIDType, TimeUUIDType}
    requires WellFormed(a)
    requires forall i :: 0 <= i < |a| ==> Truthy(a[i].0) && match a[i].1
      case Scalar(v) => !v.Null?
      case Nested(cols) =>
        (cols != [] && WellFormed(cols) && forall j :: 0 <= j < |cols| ==> Truthy(cols[j].0) && !cols[j].1.Null?)
    ensures DecodeRow(c, EncodeRow(c, a, t), true) == a
  {
    DecodeEncodeRow(c, a, t);
  }

  /** A family whose column names are LongType and whose sub-column names pass through: rows
      keyed by non-zero integers round-trip. */
  lemma LongTypeRoundTrip(c: Codec, a: Row, t: int)
    requires c.parseColumns && c.columnType == LongType
    requires c.subcolumnType !in {LongType, LexicalUUIDType, TimeUUIDType}
    requires WellFormed(a)
    requires forall i :: 0 <= i < |a| ==> a[i].0.Int? && a[i].0.n != 0 && match a[i].1
      case Scalar(v) => !v.Null?
      case Nested(cols) =>
        (cols != [] && WellFormed(cols) && forall j :: 0 <= j < |cols| ==> Truthy(cols[j].0) && !cols[j].1.Null?)
    ensures DecodeRow(c, EncodeRow(c, a, t), true) == a
  {
    DecodeEncodeRow(c, a, t);
  }
}
