/** Columnar arrays and what their constructors check. */
module ArrowArrays {
  import opened Scalars
  import opened ArrowTypes

  /** The ways a type holds rows of one child field. */
  datatype Kind = ListKind | LargeListKind | FixedKind(size: I32) | MapKind(sorted: bool)

  function Nesting(t: DataType): Option<(Kind, Field)> {
    match t
    case List(child) => Some((ListKind, child))
    case LargeList(child) => Some((LargeListKind, child))
    case FixedSizeList(child, size) => Some((FixedKind(size), child))
    case Map(entries, sorted) => Some((MapKind(sorted), entries))
    case _ => None
  }

  function NestedType(kind: Kind, child: Field): (t: DataType)
    ensures Nesting(t) == Some((kind, child))
  {
    match kind
    case ListKind => List(child)
    case LargeListKind => LargeList(child)
    case FixedKind(size) => FixedSizeList(child, size)
    case MapKind(sorted) => Map(child, sorted)
  }

  lemma NestingInverse(t: DataType)
    ensures Nesting(t).Some? ==> NestedType(Nesting(t).value.0, Nesting(t).value.1) == t
    ensures Nesting(t).Some? ==> Nesting(t).value.1 < t
  {
  }

  /** Per row, whether it is valid; absent when every row is. */
  type Validity = Option<seq<bool>>

  /** `Leaf` stands for every array that is neither a struct nor nested in one of those ways. */
  datatype Array =
    | Leaf(leafType: DataType, cells: seq<Option<int>>)
    | StructArray(fields: seq<Field>, columns: seq<Array>, length: nat, validity: Validity)
    | NestedArray(kind: Kind, child: Field, offsets: seq<nat>, length: nat, values: Array, validity: Validity)

  function TypeOf(a: Array): DataType {
    match a
    case Leaf(t, _) => t
    case StructArray(fields, _, _, _) => Struct(fields)
    case NestedArray(kind, child, _, _, _, _) => NestedType(kind, child)
  }

  function Length(a: Array): nat {
    match a
    case Leaf(_, cells) => |cells|
    case _ => a.length
  }

  predicate RowValid(a: Array, i: nat)
    requires i < Length(a)
  {
    match a
    case Leaf(_, cells) => cells[i].Some?
    case _ => Valid(a.validity, i)
  }

  predicate Valid(validity: Validity, i: nat) {
    validity.None? || i >= |validity.value| || validity.value[i]
  }

  predicate NoNulls(a: Array) {
    forall i :: 0 <= i < Length(a) ==> RowValid(a, i)
  }

  predicate ValidityFits(validity: Validity, length: nat) {
    validity.Some? ==> |validity.value| == length
  }

  /** A child that may not be null is null only under a null parent row. */
  predicate Masked(f: Field, column: Array, validity: Validity) {
    f.nullable || forall i :: 0 <= i < Length(column) && !RowValid(column, i) ==> !Valid(validity, i)
  }

  predicate ColumnFits(f: Field, column: Array, length: nat, validity: Validity) {
    TypeOf(column) == f.dataType && Length(column) == length && Masked(f, column, validity)
  }

  predicate StructFits(fields: seq<Field>, columns: seq<Array>, length: nat, validity: Validity) {
    && |columns| == |fields| && ValidityFits(validity, length)
    && forall i :: 0 <= i < |columns| ==> ColumnFits(fields[i], columns[i], length, validity)
  }

  predicate OffsetsFit(offsets: seq<nat>, length: nat, values: Array) {
    |offsets| == length + 1 && offsets[length] <= Length(values)
  }

  predicate NestedFits(kind: Kind, child: Field, offsets: seq<nat>, length: nat, values: Array, validity: Validity) {
    && ValidityFits(validity, length)
    && TypeOf(values) == child.dataType
    && match kind
       case FixedKind(size) =>
         && size >= 0 && Length(values) == length * size && offsets == []
         && (child.nullable ||
             forall i :: 0 <= i < Length(values) && size > 0 && !RowValid(values, i) ==> !Valid(validity, i / size))
       case MapKind(_) =>
         !child.nullable && OffsetsFit(offsets, length, values) && values.StructArray? && |values.columns| == 2 && NoNulls(values)
       case _ =>
         OffsetsFit(offsets, length, values) && (child.nullable || NoNulls(values))
  }

  /** Refuses a struct without columns, whose length it could not tell. */
  function NewStruct(fields: seq<Field>, columns: seq<Array>, validity: Validity): Option<Array> {
    if columns == [] then None
    else if StructFits(fields, columns, Length(columns[0]), validity) then
      Some(StructArray(fields, columns, Length(columns[0]), validity))
    else None
  }

  function NewNested(kind: Kind, child: Field, offsets: seq<nat>, length: nat, values: Array, validity: Validity): Option<Array> {
    if NestedFits(kind, child, offsets, length, values, validity) then
      Some(NestedArray(kind, child, offsets, length, values, validity))
    else None
  }

  /** What the constructors, level by level, would accept. */
  predicate WellFormed(a: Array) {
    match a
    case Leaf(t, _) => !t.Struct? && Nesting(t).None?
    case StructArray(fields, columns, length, validity) =>
      columns != [] && StructFits(fields, columns, length, validity) && forall i :: 0 <= i < |columns| ==> WellFormed(columns[i])
    case NestedArray(kind, child, offsets, length, values, validity) =>
      NestedFits(kind, child, offsets, length, values, validity) && WellFormed(values)
  }

  function NoRows(n: nat): Validity {
    Some(seq(n, _ => false))
  }

  /** An array of `n` null rows. */
  function NullArray(t: DataType, n: nat): Array
    decreases t
  {
    NestingInverse(t);
    if t.Struct? then StructArray(t.fields, NullColumns(t.fields, n), n, NoRows(n))
    else
      match Nesting(t)
      case Some((FixedKind(size), child)) =>
        NestedArray(FixedKind(size), child, [], n, NullArray(child.dataType, if size >= 0 then n * size else 0), NoRows(n))
      case Some((kind, child)) =>
        NestedArray(kind, child, seq(n + 1, _ => 0), n, NullArray(child.dataType, 0), NoRows(n))
      case None => Leaf(t, seq(n, _ => None))
  }

  function NullColumns(fields: seq<Field>, n: nat): (columns: seq<Array>)
    ensures |columns| == |fields|
    decreases fields
  {
    if fields == [] then [] else [NullArray(fields[0].dataType, n)] + NullColumns(fields[1..], n)
  }

  lemma NullArrayType(t: DataType, n: nat)
    ensures TypeOf(NullArray(t, n)) == t && Length(NullArray(t, n)) == n
  {
    NestingInverse(t);
  }

  lemma {:induction false} NullColumnsAt(fields: seq<Field>, n: nat, i: nat)
    requires i < |fields|
    ensures NullColumns(fields, n)[i] == NullArray(fields[i].dataType, n)
    decreases fields
  {
    if i > 0 { NullColumnsAt(fields[1..], n, i - 1); }
  }
}
