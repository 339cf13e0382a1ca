/** Types and table metadata shared by the catalog and the binder. */
module Sql {
  import opened Options

  /** A VARCHAR bound: a non-zero 32-bit number. */
  type Limit = x: int | 1 <= x < 0x1_0000_0000 witness 1

  datatype LogicalType =
    | NullType
    | Boolean
    | Int32
    | Int64
    | Uint32
    | Float32
    | Float64
    | Text
    | Varchar(limit: Option<Limit>)

  datatype Column = Column(name: string, dataType: LogicalType, nullable: bool)

  datatype Constraint = PrimaryKey(columns: seq<nat>) | Unique(columns: seq<nat>)
}
