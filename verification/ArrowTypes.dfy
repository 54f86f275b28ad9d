/** Arrow data types and fields, with Iceberg field ids kept as text in field metadata. */
module ArrowTypes {
  import opened Scalars
  import opened Numerals

  const FIELD_ID_KEY := "PARQUET:field_id"
  const EXTENSION_KEY := "ARROW:extension:name"
  const VARIANT_EXTENSION := "arrow.parquet.variant"

  datatype TimeUnit = Second | Millisecond | Microsecond | Nanosecond

  type I8 = x: int | -0x80 <= x < 0x80

  datatype DataType =
    | Null | Boolean
    | Int8 | Int16 | Int32 | Int64
    | Float32 | Float64
    | Decimal128(precision: U8, scale: I8)
    | Date32
    | Time64(unit: TimeUnit)
    | Timestamp(unit: TimeUnit, zone: Option<string>)
    | Utf8 | Utf8View
    | FixedSizeBinary(width: I32)
    | Binary | BinaryView
    | Struct(fields: seq<Field>)
    | List(child: Field)
    | LargeList(child: Field)
    | ListView(child: Field)
    | LargeListView(child: Field)
    | FixedSizeList(child: Field, size: I32)
    | Map(entries: Field, sorted: bool)
    | OtherType(name: string)

  datatype Field = Field(name: string, dataType: DataType, nullable: bool, metadata: map<string, string>)

  /** The field id, when the metadata holds one that parses. */
  function FieldId(f: Field): Option<I32> {
    if FIELD_ID_KEY in f.metadata then ParseI32(f.metadata[FIELD_ID_KEY]) else None
  }

  predicate IsVariant(f: Field) {
    EXTENSION_KEY in f.metadata && f.metadata[EXTENSION_KEY] == VARIANT_EXTENSION
  }
}
