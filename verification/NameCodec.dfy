/** parse_column_name / unparse_column_name: the translation between the names an application
    uses and the names on the wire, chosen by the column family's comparator types. */
module NameCodec {
  import opened Php
  import LongCodec

  /** The comparator a column family declares for its column names or its sub-column names.
      `Unrecognised` stands for no type (the default sub-column type is null) and for every
      tag that is not one of the six names below; all of those leave names as they are. */
  datatype NameType =
    | BytesType | AsciiType | UTF8Type | LongType | LexicalUUIDType | TimeUUIDType
    | Unrecognised

  /** The accessor state the codec reads. `uuidToText` and `uuidToBinary` stand for the external
      UUID library's conversion from the 16-byte form to the string form and back; that
      library is not part of this model. */
  datatype Codec = Codec(
    columnType: NameType,
    subcolumnType: NameType,
    parseColumns: bool,
    uuidToText: Value -> Value,
    uuidToBinary: Value -> Value)

  /** The boolean argument of both directions picks the column type or the sub-column type. */
  function TypeFor(c: Codec, isColumn: bool): NameType {
    if isColumn then c.columnType else c.subcolumnType
  }

  predicate IsUuidType(t: NameType) {
    t == LexicalUUIDType || t == TimeUUIDType
  }

  /** parse_column_name: a wire name to the name the application sees. */
  function Parse(c: Codec, name: Value, isColumn: bool): Value {
    if !c.parseColumns then name
    else if !Truthy(name) then Null
    else
      var t := TypeFor(c, isColumn);
      if IsUuidType(t) then c.uuidToText(name)
      else if t == LongType then Int(LongCodec.Unpack(name))
      else name
  }

  /** unparse_column_name: an application name to the name sent on the wire. */
  function Unparse(c: Codec, name: Value, isColumn: bool): Value {
    if !c.parseColumns then name
    else if !Truthy(name) then Null
    else
      var t := TypeFor(c, isColumn);
      if IsUuidType(t) then c.uuidToBinary(name)
      else if t == LongType then Str(LongCodec.Pack(ToPhpInt(name)))
      else name
  }

  /** The codec used for a boolean depends on that boolean only through the type it selects:
      asking for the sub-column codec is asking for the column codec of an accessor whose
      column type is the sub-column type. */
  lemma FlagSelectsType(c: Codec, name: Value)
    ensures Parse(c, name, false) == Parse(c.(columnType := c.subcolumnType), name, true)
    ensures Unparse(c, name, false) == Unparse(c.(columnType := c.subcolumnType), name, true)
    ensures Parse(c, name, true) == Parse(c.(subcolumnType := c.columnType), name, false)
    ensures Unparse(c, name, true) == Unparse(c.(subcolumnType := c.columnType), name, false)
  {
  }

  /** With parsing switched off both directions are the identity; with it on, a false name
      (null, "", "0" or 0) becomes null, and a type other than the long and UUID types leaves
      a true name as it is. */
  lemma CodecShortCuts(c: Codec, name: Value, isColumn: bool)
    ensures !c.parseColumns ==> Parse(c, name, isColumn) == name && Unparse(c, name, isColumn) == name
    ensures c.parseColumns && !Truthy(name) ==> Parse(c, name, isColumn) == Null && Unparse(c, name, isColumn) == Null
    ensures TypeFor(c, isColumn) !in {LongType, LexicalUUIDType, TimeUUIDType} && Truthy(name) ==>
      Parse(c, name, isColumn) == name && Unparse(c, name, isColumn) == name
  {
  }

  /** The names for which decoding undoes encoding. */
  ghost predicate RoundTrips(c: Codec, isColumn: bool, name: Value) {
    var t := TypeFor(c, isColumn);
    || !c.parseColumns
    || (Truthy(name) && !IsUuidType(t) && t != LongType)
    || (Truthy(name) && t == LongType && name.Int?)
    || (Truthy(name) && IsUuidType(t) && Truthy(c.uuidToBinary(name))
        && c.uuidToText(c.uuidToBinary(name)) == name)
  }

  /** Decoding an encoded name gives the name back: always with parsing off, for every true
      name under the pass-through types, for every non-zero integer under LongType, and under
      the UUID types whenever the UUID library's two conversions undo each other. */
  lemma ParseUnparse(c: Codec, isColumn: bool, name: Value)
    requires RoundTrips(c, isColumn, name)
    ensures Parse(c, Unparse(c, name, isColumn), isColumn) == name
  {
    if c.parseColumns && TypeFor(c, isColumn) == LongType {
      var packed := LongCodec.Pack(name.n);
      assert |packed| == 8;
      assert Truthy(Str(packed));
    }
  }

  /** Encoding a decoded 8-byte LongType name gives the wire name back, unless it is all zero
      bytes: that one decodes to 0, which is false and so encodes to null. */
  lemma UnparseParseLong(c: Codec, isColumn: bool, wire: Bytes)
    requires c.parseColumns && TypeFor(c, isColumn) == LongType
    requires |wire| == 8
    ensures LongCodec.Unpack(Str(wire)) != 0 ==> Unparse(c, Parse(c, Str(wire), isColumn), isColumn) == Str(wire)
    ensures LongCodec.Unpack(Str(wire)) == 0 ==> Unparse(c, Parse(c, Str(wire), isColumn), isColumn) == Null
  {
    assert Truthy(Str(wire));
    LongCodec.PackUnpack(wire);
  }

  /** Under LongType an integer name and its decimal string are sent as the same 8 bytes:
      `>>` reads the string as the integer it spells. */
  lemma UnparseDecimalName(c: Codec, isColumn: bool, n: Int64)
    requires c.parseColumns && TypeFor(c, isColumn) == LongType && n != 0
    ensures Unparse(c, Str(ToPhpString(Int(n))), isColumn) == Unparse(c, Int(n), isColumn)
  {
    IntStringRoundTrip(n);
    if 0 < n < 10 {
      assert ToPhpString(Int(n)) == [ZERO_DIGIT + n];
    }
  }

  /** A LongType name 0 is false: it is sent as null, although the wire name for 0 (eight zero
      bytes) decodes to 0. */
  lemma LongZeroIsLost(c: Codec, isColumn: bool)
    requires c.parseColumns && TypeFor(c, isColumn) == LongType
    ensures Unparse(c, Int(0), isColumn) == Null
    ensures Parse(c, Str([0, 0, 0, 0, 0, 0, 0, 0]), isColumn) == Int(0)
  {
  }
}
