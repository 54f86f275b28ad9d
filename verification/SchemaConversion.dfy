/** Iceberg types to Arrow types and back. */
module SchemaConversion {
  import opened Scalars
  import opened Numerals
  import opened ArrowTypes
  import opened FieldIds

  type U32 = x: int | 0 <= x < 0x1_0000_0000
  type U64 = x: int | 0 <= x < 0x1_0000_0000_0000_0000

  datatype PrimitiveType =
    | BooleanType | IntType | LongType | FloatType | DoubleType
    | DecimalType(precision: U32, scale: U32)
    | DateType | TimeType
    | TimestampType | TimestamptzType | TimestampNsType | TimestamptzNsType
    | StringType | UuidType
    | FixedType(length: U64)
    | BinaryType | UnknownType | VariantType
    | GeometryType(crs: Option<string>)
    | GeographyType(crs: Option<string>, algorithm: Option<string>)

  datatype Type =
    | Primitive(primitive: PrimitiveType)
    | StructOf(fields: seq<StructField>)
    | ListOf(elementId: I32, elementRequired: bool, element: Type)
    | MapOf(keyId: I32, key: Type, valueId: I32, valueRequired: bool, value: Type)

  datatype StructField = StructField(
    id: I32, name: string, required: bool, fieldType: Type,
    doc: Option<string>, initialDefault: Option<string>, writeDefault: Option<string>)

  datatype Failure = MissingId | BadId | NotSupported

  datatype Result<+T> = Ok(value: T) | Err(failure: Failure)

  // Narrowing casts, wrapping as machine integers do, and their widening counterparts.

  function Wrap(x: int, modulus: nat): int
    requires modulus > 0
  {
    var low := x % modulus;
    if 2 * low < modulus then low else low - modulus
  }

  function ToI8(x: int): I8 { Wrap(x, 0x100) }

  function ToI32(x: int): I32 { Wrap(x, 0x1_0000_0000) }

  function ToU8(x: int): U8 { x % 0x100 }

  function ToU32(x: int): U32 { x % 0x1_0000_0000 }

  function ToU64(x: int): U64 { x % 0x1_0000_0000_0000_0000 }

  // Iceberg to Arrow.

  function FieldMetadata(t: Type, id: I32): map<string, string> {
    var metadata := map[FIELD_ID_KEY := SignedDecimal(id)];
    if t == Primitive(VariantType) then metadata[EXTENSION_KEY := VARIANT_EXTENSION] else metadata
  }

  function ArrowField(name: string, t: Type, nullable: bool, id: I32): Field
    decreases t, 1
  {
    Field(name, ToArrow(t), nullable, FieldMetadata(t, id))
  }

  function PrimitiveToArrow(p: PrimitiveType): DataType {
    match p
    case BooleanType => DataType.Boolean
    case IntType => DataType.Int32
    case LongType => DataType.Int64
    case FloatType => Float32
    case DoubleType => Float64
    case DecimalType(precision, scale) => Decimal128(ToU8(precision), ToI8(scale))
    case DateType => DataType.Date32
    case TimeType => DataType.Time64(Microsecond)
    case TimestampType => Timestamp(Microsecond, None)
    case TimestamptzType => Timestamp(Microsecond, Some("UTC"))
    case TimestampNsType => Timestamp(Nanosecond, None)
    case TimestamptzNsType => Timestamp(Nanosecond, Some("UTC"))
    case StringType => DataType.Utf8
    case UuidType => DataType.Utf8
    case FixedType(length) => FixedSizeBinary(ToI32(length))
    case BinaryType => Binary
    case UnknownType => DataType.Null
    case VariantType =>
      Struct([Field("metadata", BinaryView, false, map[]), Field("value", BinaryView, true, map[])])
    case GeometryType(_) => Binary
    case GeographyType(_, _) => Binary
  }

  function ToArrow(t: Type): DataType
    decreases t, 0
  {
    match t
    case Primitive(p) => PrimitiveToArrow(p)
    case StructOf(fields) => Struct(ToArrowFields(fields))
    case ListOf(id, required, element) => List(ArrowField("item", element, !required, id))
    case MapOf(keyId, key, valueId, valueRequired, value) =>
      Map(
        Field(
          "entries",
          Struct([ArrowField("key", key, false, keyId), ArrowField("value", value, !valueRequired, valueId)]),
          false, map[]),
        false)
  }

  function ToArrowFields(fields: seq<StructField>): seq<Field>
    decreases fields, 2
  {
    if fields == [] then []
    else
      [ArrowField(fields[0].name, fields[0].fieldType, !fields[0].required, fields[0].id)]
        + ToArrowFields(fields[1..])
  }

  // Arrow to Iceberg.

  function GetFieldId(f: Field): Result<I32> {
    if FIELD_ID_KEY !in f.metadata then Err(MissingId)
    else
      match ParseI32(f.metadata[FIELD_ID_KEY])
      case Some(id) => Ok(id)
      case None => Err(BadId)
  }

  function IcebergType(f: Field): Result<Type>
    decreases f, 0
  {
    if IsVariant(f) then
      if f.dataType.Struct? then Ok(Primitive(VariantType)) else Err(NotSupported)
    else FromArrow(f.dataType)
  }

  predicate UtcZone(zone: string) {
    zone == "UTC" || zone == "+00:00"
  }

  function LeafFromArrow(t: DataType): Option<PrimitiveType> {
    match t
    case Boolean => Some(BooleanType)
    case Int8 => Some(IntType)
    case Int16 => Some(IntType)
    case Int32 => Some(IntType)
    case Int64 => Some(LongType)
    case Float32 => Some(FloatType)
    case Float64 => Some(DoubleType)
    case Decimal128(precision, scale) => Some(DecimalType(ToU32(precision), ToU32(scale)))
    case Date32 => Some(DateType)
    case Time64(_) => Some(TimeType)
    case Timestamp(unit, None) => Some(if unit.Nanosecond? then TimestampNsType else TimestampType)
    case Timestamp(unit, Some(zone)) =>
      if !UtcZone(zone) then None
      else Some(if unit.Nanosecond? then TimestamptzNsType else TimestamptzType)
    case Utf8 => Some(StringType)
    case Utf8View => Some(StringType)
    case FixedSizeBinary(width) => Some(FixedType(ToU64(width)))
    case Binary => Some(BinaryType)
    case _ => None
  }

  function FromArrow(t: DataType): Result<Type>
    decreases t, 0
  {
    match t
    case Struct(fields) =>
      (match FromArrowFields(fields)
       case Ok(converted) => Ok(StructOf(converted))
       case Err(failure) => Err(failure))
    case List(child) =>
      (match (GetFieldId(child), IcebergType(child))
       case (Ok(id), Ok(element)) => Ok(ListOf(id, !child.nullable, element))
       case (Err(failure), _) => Err(failure)
       case (_, Err(failure)) => Err(failure))
    case Map(entries, _) =>
      if !entries.dataType.Struct? || |entries.dataType.fields| != 2 then Err(NotSupported)
      else if entries.dataType.fields[0].nullable then Err(NotSupported)
      else FromEntries(entries)
    case _ =>
      match LeafFromArrow(t)
      case Some(p) => Ok(Primitive(p))
      case None => Err(NotSupported)
  }

  function FromEntries(entries: Field): Result<Type>
    requires entries.dataType.Struct? && |entries.dataType.fields| == 2
    decreases entries, 0
  {
    var key, value := entries.dataType.fields[0], entries.dataType.fields[1];
    match (GetFieldId(key), GetFieldId(value), IcebergType(key), IcebergType(value))
    case (Ok(keyId), Ok(valueId), Ok(keyType), Ok(valueType)) =>
      Ok(MapOf(keyId, keyType, valueId, !value.nullable, valueType))
    case (Err(failure), _, _, _) => Err(failure)
    case (_, Err(failure), _, _) => Err(failure)
    case (_, _, Err(failure), _) => Err(failure)
    case (_, _, _, Err(failure)) => Err(failure)
  }

  function FromArrowFields(fields: seq<Field>): Result<seq<StructField>>
    decreases fields, 2
  {
    if fields == [] then Ok([])
    else
      match FromArrowField(fields[0])
      case Err(failure) => Err(failure)
      case Ok(first) =>
        match FromArrowFields(fields[1..])
        case Err(failure) => Err(failure)
        case Ok(rest) => Ok([first] + rest)
  }

  function FromArrowField(f: Field): Result<StructField>
    decreases f, 1
  {
    match GetFieldId(f)
    case Err(failure) => Err(failure)
    case Ok(id) =>
      match IcebergType(f)
      case Err(failure) => Err(failure)
      case Ok(t) => Ok(StructField(id, f.name, !f.nullable, t, None, None, None))
  }

  // The round trip.

  predicate PrimitiveRoundTrips(p: PrimitiveType) {
    match p
    case DecimalType(precision, scale) => precision < 0x100 && (scale < 0x80 || scale >= 0xFFFF_FF80)
    case FixedType(length) => length < 0x8000_0000 || length >= 0xFFFF_FFFF_8000_0000
    case UuidType => false
    case UnknownType => false
    case VariantType => false
    case GeometryType(_) => false
    case GeographyType(_, _) => false
    case _ => true
  }

  /** A variant is recovered from its field's metadata, so only as the type of a field. */
  predicate FieldRoundTrips(t: Type)
    decreases t, 1
  {
    t == Primitive(VariantType) || TypeRoundTrips(t)
  }

  predicate TypeRoundTrips(t: Type)
    decreases t, 0
  {
    match t
    case Primitive(p) => PrimitiveRoundTrips(p)
    case StructOf(fields) => AllRoundTrip(fields)
    case ListOf(_, _, element) => FieldRoundTrips(element)
    case MapOf(_, key, _, _, value) => FieldRoundTrips(key) && FieldRoundTrips(value)
  }

  predicate AllRoundTrip(fields: seq<StructField>)
    decreases fields, 2
  {
    fields == [] ||
    (fields[0].doc.None? && fields[0].initialDefault.None? && fields[0].writeDefault.None?
     && FieldRoundTrips(fields[0].fieldType) && AllRoundTrip(fields[1..]))
  }

  lemma PrecisionSurvives(precision: U32)
    ensures ToU32(ToU8(precision)) == precision <==> precision < 0x100
  {
  }

  lemma ScaleSurvives(scale: U32)
    ensures ToU32(ToI8(scale)) == scale <==> scale < 0x80 || scale >= 0xFFFF_FF80
  {
    var low := scale % 0x100;
    if low >= 0x80 {
      assert ToU32(low - 0x100) == low - 0x100 + 0x1_0000_0000;
    }
  }

  lemma LengthSurvives(length: U64)
    ensures ToU64(ToI32(length)) == length <==> length < 0x8000_0000 || length >= 0xFFFF_FFFF_8000_0000
  {
    var low := length % 0x1_0000_0000;
    if low >= 0x8000_0000 {
      assert ToU64(low - 0x1_0000_0000) == low - 0x1_0000_0000 + 0x1_0000_0000_0000_0000;
    }
  }

  lemma PrimitiveRoundTrip(p: PrimitiveType)
    ensures FromArrow(PrimitiveToArrow(p)) == Ok(Primitive(p)) <==> PrimitiveRoundTrips(p)
  {
    match p
    case VariantType =>
      var fields := PrimitiveToArrow(p).fields;
      assert FromArrowField(fields[0]).Err?;
    case DecimalType(precision, scale) =>
      PrecisionSurvives(precision);
      ScaleSurvives(scale);
      assert LeafFromArrow(PrimitiveToArrow(p)) == Some(DecimalType(ToU32(ToU8(precision)), ToU32(ToI8(scale))));
    case FixedType(length) =>
      LengthSurvives(length);
      assert LeafFromArrow(PrimitiveToArrow(p)) == Some(FixedType(ToU64(ToI32(length))));
    case _ => NamedRoundTrip(p);
  }

  lemma NamedRoundTrip(p: PrimitiveType)
    requires !p.VariantType? && !p.DecimalType? && !p.FixedType?
    ensures FromArrow(PrimitiveToArrow(p)) == Ok(Primitive(p)) <==> PrimitiveRoundTrips(p)
  {
  }

  lemma FieldMetadataReads(name: string, t: Type, nullable: bool, id: I32)
    ensures GetFieldId(ArrowField(name, t, nullable, id)) == Ok(id)
    ensures IsVariant(ArrowField(name, t, nullable, id)) <==> t == Primitive(VariantType)
  {
    ParseOfSignedDecimal(id);
  }

  /** A field's type survives exactly when it is a variant or a type that survives. */
  lemma {:induction false} FieldRoundTrip(name: string, t: Type, nullable: bool, id: I32)
    ensures IcebergType(ArrowField(name, t, nullable, id)) == Ok(t) <==> FieldRoundTrips(t)
    decreases t, 2
  {
    FieldMetadataReads(name, t, nullable, id);
    if t != Primitive(VariantType) {
      TypeRoundTrip(t);
    }
  }

  /** Iceberg to Arrow and back is the identity exactly on these types. */
  lemma {:induction false} TypeRoundTrip(t: Type)
    ensures FromArrow(ToArrow(t)) == Ok(t) <==> TypeRoundTrips(t)
    decreases t, 1
  {
    match t
    case Primitive(p) => PrimitiveRoundTrip(p);
    case StructOf(fields) => SchemaRoundTrip(fields);
    case ListOf(id, required, element) =>
      FieldMetadataReads("item", element, !required, id);
      FieldRoundTrip("item", element, !required, id);
    case MapOf(_, _, _, _, _) => MapRoundTrip(t);
  }

  lemma {:induction false} MapRoundTrip(t: Type)
    requires t.MapOf?
    ensures FromArrow(ToArrow(t)) == Ok(t) <==> FieldRoundTrips(t.key) && FieldRoundTrips(t.value)
    decreases t, 0
  {
    var entries := ToArrow(t).entries;
    FieldMetadataReads("key", t.key, false, t.keyId);
    FieldMetadataReads("value", t.value, !t.valueRequired, t.valueId);
    FieldRoundTrip("key", t.key, false, t.keyId);
    FieldRoundTrip("value", t.value, !t.valueRequired, t.valueId);
    EntriesRoundTrip(entries, t);
  }

  lemma EntriesRoundTrip(entries: Field, t: Type)
    requires t.MapOf? && entries == ToArrow(t).entries
    requires GetFieldId(entries.dataType.fields[0]) == Ok(t.keyId) && GetFieldId(entries.dataType.fields[1]) == Ok(t.valueId)
    ensures FromEntries(entries) == Ok(t) <==>
      IcebergType(entries.dataType.fields[0]) == Ok(t.key) && IcebergType(entries.dataType.fields[1]) == Ok(t.value)
  {
  }

  /** A whole schema, as lists of fields. */
  lemma {:induction false} SchemaRoundTrip(fields: seq<StructField>)
    ensures FromArrowFields(ToArrowFields(fields)) == Ok(fields) <==> AllRoundTrip(fields)
    decreases fields, 3
  {
    if fields != [] {
      var f := fields[0];
      FieldMetadataReads(f.name, f.fieldType, !f.required, f.id);
      FieldRoundTrip(f.name, f.fieldType, !f.required, f.id);
      SchemaRoundTrip(fields[1..]);
      assert ToArrowFields(fields)[1..] == ToArrowFields(fields[1..]);
      assert fields == [f] + fields[1..];
    }
  }

  // Whatever was read from Arrow survives a round trip.

  lemma {:induction false} ImportedFieldRoundTrips(f: Field)
    requires IcebergType(f).Ok?
    ensures FieldRoundTrips(IcebergType(f).value)
    decreases f, 1
  {
    if !IsVariant(f) { ImportedRoundTrips(f.dataType); }
  }

  lemma {:induction false} ImportedRoundTrips(t: DataType)
    requires FromArrow(t).Ok?
    ensures TypeRoundTrips(FromArrow(t).value)
    decreases t, 0
  {
    match t
    case Struct(fields) => ImportedAllRoundTrip(fields);
    case List(child) => ImportedFieldRoundTrips(child);
    case Map(entries, _) =>
      ImportedFieldRoundTrips(entries.dataType.fields[0]);
      ImportedFieldRoundTrips(entries.dataType.fields[1]);
    case _ =>
  }

  /** A schema read from Arrow is written back to Arrow and read again unchanged. */
  lemma {:induction false} ImportedAllRoundTrip(fields: seq<Field>)
    requires FromArrowFields(fields).Ok?
    ensures AllRoundTrip(FromArrowFields(fields).value)
    ensures FromArrowFields(ToArrowFields(FromArrowFields(fields).value)) == FromArrowFields(fields)
    decreases fields, 2
  {
    if fields != [] {
      ImportedFieldRoundTrips(fields[0]);
      ImportedAllRoundTrip(fields[1..]);
      assert FromArrowFields(fields).value[1..] == FromArrowFields(fields[1..]).value;
    }
    SchemaRoundTrip(FromArrowFields(fields).value);
  }

  // Which Arrow types convert at all.

  predicate SupportedField(f: Field)
    decreases f, 1
  {
    if IsVariant(f) then f.dataType.Struct? else SupportedType(f.dataType)
  }

  predicate SupportedType(t: DataType)
    decreases t, 0
  {
    match t
    case Struct(fields) => SupportedAll(fields)
    case List(child) => SupportedField(child)
    case Map(entries, _) => SupportedEntries(entries)
    case _ => LeafFromArrow(t).Some?
  }

  /** Map entries: a struct of exactly a required key and a value. */
  predicate SupportedEntries(entries: Field)
    decreases entries, 0
  {
    && entries.dataType.Struct? && |entries.dataType.fields| == 2
    && !entries.dataType.fields[0].nullable
    && SupportedAll(entries.dataType.fields)
  }

  predicate SupportedAll(fields: seq<Field>)
    decreases fields, 2
  {
    fields == [] || (SupportedField(fields[0]) && SupportedAll(fields[1..]))
  }

  /** A numbered field converts exactly when its type is supported. */
  lemma {:induction false} NumberedConverts(f: Field)
    requires Numbered(f)
    ensures GetFieldId(f).Ok?
    ensures IcebergType(f).Ok? <==> SupportedField(f)
    decreases f, 1
  {
    if !IsVariant(f) {
      NumberedTypeConverts(f.dataType);
    }
  }

  lemma {:induction false} NumberedTypeConverts(t: DataType)
    requires NumberedUnder(t)
    ensures FromArrow(t).Ok? <==> SupportedType(t)
    decreases t, 0
  {
    match t
    case Struct(fields) => NumberedAllConvert(fields);
    case List(child) => NumberedConverts(child);
    case Map(entries, _) =>
      if entries.dataType.Struct? && |entries.dataType.fields| == 2 {
        EntriesConvert(entries);
      }
    case _ =>
  }

  lemma {:induction false} EntriesConvert(entries: Field)
    requires entries.dataType.Struct? && |entries.dataType.fields| == 2
    requires NumberedAll(entries.dataType.fields)
    ensures FromEntries(entries).Ok? <==> SupportedAll(entries.dataType.fields)
    decreases entries, 0
  {
    var fields := entries.dataType.fields;
    assert fields[1..][0] == fields[1] && fields[1..][1..] == [];
    NumberedConverts(fields[0]);
    NumberedConverts(fields[1]);
    assert SupportedAll(fields[1..]) <==> SupportedField(fields[1]);
  }

  lemma {:induction false} NumberedAllConvert(fields: seq<Field>)
    requires NumberedAll(fields)
    ensures FromArrowFields(fields).Ok? <==> SupportedAll(fields)
    decreases fields, 2
  {
    if fields != [] {
      NumberedConverts(fields[0]);
      NumberedAllConvert(fields[1..]);
    }
  }

  // Whether a type is supported depends only on its shape.

  lemma {:induction false} ShapeSupported(f: Field)
    ensures SupportedField(Shape(f)) <==> SupportedField(f)
    decreases f, 1
  {
    assert IsVariant(Shape(f)) == IsVariant(f);
    if !IsVariant(f) {
      ShapeTypeSupported(f.dataType);
    }
  }

  lemma {:induction false} ShapeTypeSupported(t: DataType)
    ensures SupportedType(ShapeOf(t)) <==> SupportedType(t)
    ensures ShapeOf(t).Struct? <==> t.Struct?
    decreases t, 0
  {
    match t
    case Struct(fields) => ShapeAllSupported(fields);
    case List(child) => ShapeSupported(child);
    case Map(entries, _) =>
      if entries.dataType.Struct? {
        ShapeAllSupported(entries.dataType.fields);
        ShapeKeepsNullability(entries.dataType.fields);
      }
    case _ =>
  }

  lemma ShapeKeepsNullability(fields: seq<Field>)
    ensures |ShapeOfAll(fields)| == |fields|
    ensures fields != [] ==> ShapeOfAll(fields)[0].nullable == fields[0].nullable
  {
  }

  lemma {:induction false} ShapeAllSupported(fields: seq<Field>)
    ensures SupportedAll(ShapeOfAll(fields)) <==> SupportedAll(fields)
    decreases fields, 2
  {
    if fields != [] {
      ShapeSupported(fields[0]);
      ShapeAllSupported(fields[1..]);
      assert ShapeOfAll(fields)[1..] == ShapeOfAll(fields[1..]);
    }
  }

  /** Once its fields are numbered, an Arrow schema converts if and only if its types are supported. */
  lemma ConvertsAfterNumbering(fields: seq<Field>, index: I32)
    requires NewFieldsWithIds(fields, index).0.Some?
    ensures FromArrowFields(NewFieldsWithIds(fields, index).0.value).Ok? <==> SupportedAll(fields)
  {
    var after := NewFieldsWithIds(fields, index).0.value;
    AssignFieldsTracks(fields, Alloc(index, ReservedInAll(fields)));
    NumberedAllConvert(after);
    ShapeAllSupported(after);
    ShapeAllSupported(fields);
  }
}
