/** The structures of Cassandra's Thrift interface that the accessor builds and reads, and the
    row mapping the application sees in their place. */
module Cassandra {
  import opened Php

  datatype Column = Column(name: Value, value: Value, timestamp: int)

  /** The accessor also stores the call's timestamp on every SuperColumn it builds. */
  datatype SuperColumn = SuperColumn(name: Value, columns: seq<Column>, timestamp: int)

  /** Two optional fields, of which the accessor sets exactly one; a response entry may carry
      either, both or neither. */
  datatype ColumnOrSuperColumn = ColumnOrSuperColumn(column: Option<Column>, superColumn: Option<SuperColumn>)

  datatype Mutation = Mutation(columnOrSupercolumn: ColumnOrSuperColumn)

  datatype KeySlice = KeySlice(key: Bytes, columns: seq<ColumnOrSuperColumn>)

  datatype ColumnParent = ColumnParent(columnFamily: Bytes, superColumn: Value)

  datatype ColumnPath = ColumnPath(columnFamily: Bytes, superColumn: Value, column: Value)

  datatype SliceRange = SliceRange(start: Value, finish: Value, reversed: bool, count: int)

  /** A value of a row mapping: a scalar for a column, an array of sub-columns for a super
      column. */
  datatype Cell = Scalar(v: Value) | Nested(columns: PArray<Value>)

  /** A row mapping: column (or super-column) names to cells, in PHP array order. */
  type Row = PArray<Cell>
}
