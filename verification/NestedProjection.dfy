/**
 Reading nested columns under a newer schema: a program compiled from the source and target
 types matches struct fields by field id, and is applied to whole arrays.
 */
module NestedProjection {
  import opened Scalars
  import opened ArrowTypes
  import opened ArrowArrays

  datatype Failure = FieldAbsent(name: string) | WidthChanged | ChildIdChanged(name: string)

  datatype Result<+T> = Ok(value: T) | Err(failure: Failure)

  datatype Projection =
    | StructP(targetFields: seq<Field>, children: seq<Child>)
    | NestedP(kind: Kind, field: Field, values: Option<Projection>)

  datatype Child = Child(source: Option<nat>, target: Field, nested: Option<Projection>)

  /** Conversion of an array to another type, where no projection applies. */
  type Cast = (Array, DataType) -> Option<Array>

  function PositionOfId(fields: seq<Field>, id: I32): (at: Option<nat>)
    ensures at.Some? ==> at.value < |fields| && FieldId(fields[at.value]) == Some(id)
    ensures at.None? ==> forall i :: 0 <= i < |fields| ==> FieldId(fields[i]) != Some(id)
  {
    if fields == [] then None
    else if FieldId(fields[0]) == Some(id) then Some(0)
    else
      match PositionOfId(fields[1..], id)
      case Some(i) => Some(i + 1)
      case None => None
  }

  function PositionOfName(fields: seq<Field>, name: string): (at: Option<nat>)
    ensures at.Some? ==> at.value < |fields| && fields[at.value].name == name
    ensures at.None? ==> forall i :: 0 <= i < |fields| ==> fields[i].name != name
  {
    if fields == [] then None
    else if fields[0].name == name then Some(0)
    else
      match PositionOfName(fields[1..], name)
      case Some(i) => Some(i + 1)
      case None => None
  }

  predicate HasIds(fields: seq<Field>) {
    exists i :: 0 <= i < |fields| && FieldId(fields[i]).Some?
  }

  /** By id where the source has any and the target field has one, and by name otherwise. */
  function SourceOf(source: seq<Field>, target: Field): (at: Option<nat>)
    ensures at.Some? ==> at.value < |source|
  {
    if HasIds(source) && FieldId(target).Some? then PositionOfId(source, FieldId(target).value)
    else PositionOfName(source, target.name)
  }

  predicate ChildIdChanges(source: Field, target: Field) {
    FieldId(source).Some? && FieldId(target).Some? && FieldId(source) != FieldId(target)
  }

  /** Lists project onto lists, maps onto maps and so on; only fixed-size widths must agree. */
  predicate SameFamily(source: Kind, target: Kind) {
    match source
    case ListKind => target.ListKind?
    case LargeListKind => target.LargeListKind?
    case FixedKind(_) => target.FixedKind?
    case MapKind(_) => target.MapKind?
  }

  /** Compiles the projection; none where the types are equal or are not containers of one kind. */
  function Build(source: DataType, target: DataType): Result<Option<Projection>>
    decreases target, 0
  {
    NestingInverse(target);
    if source == target then Ok(None)
    else if source.Struct? && target.Struct? then
      match BuildChildren(source.fields, target.fields)
      case Ok(children) => Ok(Some(StructP(target.fields, children)))
      case Err(failure) => Err(failure)
    else
      match (Nesting(source), Nesting(target))
      case (Some((was, from)), Some((kind, to))) =>
        if !SameFamily(was, kind) then Ok(None)
        else if was.FixedKind? && was != kind then Err(WidthChanged)
        else if ChildIdChanges(from, to) then Err(ChildIdChanged(to.name))
        else
          (match Build(from.dataType, to.dataType)
           case Ok(values) => Ok(Some(NestedP(kind, to, values)))
           case Err(failure) => Err(failure))
      case _ => Ok(None)
  }

  function BuildChildren(source: seq<Field>, targets: seq<Field>): Result<seq<Child>>
    decreases targets, 2
  {
    if targets == [] then Ok([])
    else
      match BuildChild(source, targets[0])
      case Err(failure) => Err(failure)
      case Ok(first) =>
        match BuildChildren(source, targets[1..])
        case Err(failure) => Err(failure)
        case Ok(rest) => Ok([first] + rest)
  }

  function BuildChild(source: seq<Field>, target: Field): Result<Child>
    decreases target, 1
  {
    match SourceOf(source, target)
    case None => if target.nullable then Ok(Child(None, target, None)) else Err(FieldAbsent(target.name))
    case Some(i) =>
      match Build(source[i].dataType, target.dataType)
      case Ok(nested) => Ok(Child(Some(i), target, nested))
      case Err(failure) => Err(failure)
  }

  /** Applies a compiled projection; none on an array of the wrong kind or a constructor's refusal. */
  function Apply(p: Projection, input: Array, cast: Cast): Option<Array>
    decreases p, 0
  {
    match (p, input)
    case (StructP(targets, children), StructArray(_, columns, length, validity)) =>
      (match ApplyChildren(children, columns, length, cast)
       case Some(projected) => NewStruct(targets, projected, validity)
       case None => None)
    case (NestedP(kind, field, nested), NestedArray(was, _, offsets, length, values, validity)) =>
      if !SameFamily(was, kind) then None
      else
        (match ProjectOrCast(values, field.dataType, nested, cast)
         case Some(projected) => NewNested(kind, field, offsets, length, projected, validity)
         case None => None)
    case _ => None
  }

  function ApplyChildren(children: seq<Child>, columns: seq<Array>, length: nat, cast: Cast): Option<seq<Array>>
    decreases children, 2
  {
    if children == [] then Some([])
    else
      match (ApplyChild(children[0], columns, length, cast), ApplyChildren(children[1..], columns, length, cast))
      case (Some(first), Some(rest)) => Some([first] + rest)
      case _ => None
  }

  function ApplyChild(child: Child, columns: seq<Array>, length: nat, cast: Cast): Option<Array>
    decreases child, 1
  {
    match child.source
    case None => Some(NullArray(child.target.dataType, length))
    case Some(i) => if i < |columns| then ProjectOrCast(columns[i], child.target.dataType, child.nested, cast) else None
  }

  function ProjectOrCast(source: Array, target: DataType, projection: Option<Projection>, cast: Cast): Option<Array>
    decreases projection, 1
  {
    match projection
    case Some(p) => Apply(p, source, cast)
    case None => if TypeOf(source) == target then Some(source) else cast(source, target)
  }

  /** The projected column: compile, then apply. */
  function Project(a: Array, target: DataType, cast: Cast): Option<Array>
    requires Build(TypeOf(a), target).Ok?
  {
    ProjectOrCast(a, target, Build(TypeOf(a), target).value, cast)
  }

  // What a projection yields.

  ghost predicate CastOk(cast: Cast) {
    forall a, t :: cast(a, t).Some? ==>
      && TypeOf(cast(a, t).value) == t && Length(cast(a, t).value) == Length(a)
      && (WellFormed(a) ==> WellFormed(cast(a, t).value))
  }

  predicate SameContainer(s: DataType, t: DataType) {
    (s.Struct? && t.Struct?) ||
    (Nesting(s).Some? && Nesting(t).Some? && SameFamily(Nesting(s).value.0, Nesting(t).value.0))
  }

  function ValidityOf(a: Array): Validity {
    match a
    case Leaf(_, cells) => Some(seq(|cells|, i requires 0 <= i < |cells| => cells[i].Some?))
    case _ => a.validity
  }

  /**
   Whatever the schemas, the result has exactly the target type and the input's length, and,
   between containers of one kind, the input's nulls.
   */
  lemma {:induction false} ProjectionTyped(a: Array, target: DataType, cast: Cast)
    requires WellFormed(a) && CastOk(cast)
    requires Build(TypeOf(a), target).Ok? && Project(a, target, cast).Some?
    ensures
      var r := Project(a, target, cast).value;
      TypeOf(r) == target && Length(r) == Length(a) && (SameContainer(TypeOf(a), target) ==> ValidityOf(r) == ValidityOf(a))
    decreases target
  {
    var p := Build(TypeOf(a), target).value;
    if p.Some? {
      assert Project(a, target, cast) == Apply(p.value, a, cast);
      BuiltFor(TypeOf(a), target, p.value);
      ApplyTyped(a, p.value, cast);
      if p.value.StructP? && target.fields != [] {
        FirstColumnLength(a, p.value.children, target.fields, cast);
      }
    }
  }

  /** What a projection was compiled from. */
  lemma BuiltFor(source: DataType, target: DataType, p: Projection)
    requires Build(source, target) == Ok(Some(p))
    ensures source != target && SameContainer(source, target)
    ensures
      match p
      case StructP(to, children) => target == Struct(to) && source.Struct? && BuildChildren(source.fields, to) == Ok(children)
      case NestedP(kind, to, nested) =>
        && target == NestedType(kind, to) && Nesting(source).Some?
        && Build(Nesting(source).value.1.dataType, to.dataType) == Ok(nested)
  {
    NestingInverse(target);
  }

  /** The type and length an application builds, read off the projection. */
  lemma ApplyTyped(a: Array, p: Projection, cast: Cast)
    requires Apply(p, a, cast).Some?
    ensures
      var r := Apply(p, a, cast).value;
      && ValidityOf(r) == ValidityOf(a)
      && (match p
          case StructP(to, children) =>
            && TypeOf(r) == Struct(to) && r.StructArray? && a.StructArray?
            && ApplyChildren(children, a.columns, a.length, cast) == Some(r.columns)
            && r.columns != [] && Length(r) == Length(r.columns[0])
          case NestedP(kind, to, _) => TypeOf(r) == NestedType(kind, to) && Length(r) == Length(a))
  {
  }

  lemma {:induction false} FirstColumnLength(a: Array, children: seq<Child>, targets: seq<Field>, cast: Cast)
    requires a.StructArray? && WellFormed(a) && CastOk(cast)
    requires BuildChildren(a.fields, targets) == Ok(children)
    requires targets != [] && ApplyChildren(children, a.columns, a.length, cast).Some?
    ensures ApplyChildren(children, a.columns, a.length, cast).value != []
    ensures Length(ApplyChildren(children, a.columns, a.length, cast).value[0]) == a.length
    decreases targets
  {
    var child := BuildChild(a.fields, targets[0]).value;
    assert children[0] == child;
    match child.source
    case None => NullArrayType(targets[0].dataType, a.length);
    case Some(i) => ProjectionTyped(a.columns[i], targets[0].dataType, cast);
  }

  // The same, without a compile step: what each target column is, read off the types.

  function Direct(a: Array, target: DataType, cast: Cast): Option<Array>
    decreases target, 0
  {
    NestingInverse(target);
    match a
    case StructArray(_, _, _, validity) =>
      if !target.Struct? then cast(a, target)
      else
        (match DirectColumns(a, target.fields, cast)
         case Some(projected) => NewStruct(target.fields, projected, validity)
         case None => None)
    case NestedArray(was, _, offsets, length, values, validity) =>
      (match Nesting(target)
       case Some((kind, to)) =>
         if !SameFamily(was, kind) then cast(a, target)
         else
           (match Direct(values, to.dataType, cast)
            case Some(projected) => NewNested(kind, to, offsets, length, projected, validity)
            case None => None)
       case None => cast(a, target))
    case Leaf(t, _) => if t == target then Some(a) else cast(a, target)
  }

  function DirectColumns(a: Array, targets: seq<Field>, cast: Cast): (columns: Option<seq<Array>>)
    requires a.StructArray?
    ensures columns.Some? ==> |columns.value| == |targets|
    decreases targets, 2
  {
    if targets == [] then Some([])
    else
      match (DirectColumn(a, targets[0], cast), DirectColumns(a, targets[1..], cast))
      case (Some(first), Some(rest)) => Some([first] + rest)
      case _ => None
  }

  function DirectColumn(a: Array, target: Field, cast: Cast): Option<Array>
    requires a.StructArray?
    decreases target, 1
  {
    match SourceOf(a.fields, target)
    case None => Some(NullArray(target.dataType, a.length))
    case Some(i) => if i < |a.columns| then Direct(a.columns[i], target.dataType, cast) else None
  }

  predicate UniqueAtLevel(fields: seq<Field>) {
    forall i, j :: 0 <= i < j < |fields| ==>
      fields[i].name != fields[j].name && (FieldId(fields[i]).None? || FieldId(fields[i]) != FieldId(fields[j]))
  }

  /**
   At every level no two fields share a name or an id, no struct is without fields, no
   width is negative, and map entries are a key and a value and may not be null.
   */
  predicate ProperType(t: DataType)
    decreases t
  {
    NestingInverse(t);
    if t.Struct? then
      t.fields != [] && UniqueAtLevel(t.fields) && forall i :: 0 <= i < |t.fields| ==> ProperType(t.fields[i].dataType)
    else
      match Nesting(t)
      case None => true
      case Some((kind, child)) => ProperType(child.dataType) && ProperNesting(kind, child)
  }

  predicate ProperNesting(kind: Kind, child: Field) {
    match kind
    case FixedKind(size) => size >= 0
    case MapKind(_) => !child.nullable && child.dataType.Struct? && |child.dataType.fields| == 2
    case _ => true
  }

  lemma SourceOfSelf(fields: seq<Field>, i: nat)
    requires i < |fields| && UniqueAtLevel(fields)
    ensures SourceOf(fields, fields[i]) == Some(i)
  {
    if HasIds(fields) && FieldId(fields[i]).Some? {
      var at := PositionOfId(fields, FieldId(fields[i]).value);
      assert at.Some?;
    } else {
      var at := PositionOfName(fields, fields[i].name);
      assert at.Some?;
    }
  }

  /** Projecting an array onto its own type gives it back. */
  lemma {:induction false} DirectIdentity(a: Array, cast: Cast)
    requires WellFormed(a) && ProperType(TypeOf(a))
    ensures Direct(a, TypeOf(a), cast) == Some(a)
    decreases a, 1
  {
    match a
    case StructArray(fields, columns, length, validity) =>
      DirectColumnsIdentity(a, 0, cast);
      assert fields[0..] == fields && columns[0..] == columns;
    case NestedArray(_, _, _, _, values, _) => DirectIdentity(values, cast);
    case Leaf(_, _) =>
  }

  lemma {:induction false} DirectColumnsIdentity(a: Array, k: nat, cast: Cast)
    requires a.StructArray? && WellFormed(a) && ProperType(TypeOf(a))
    requires k <= |a.fields|
    ensures DirectColumns(a, a.fields[k..], cast) == Some(a.columns[k..])
    decreases a, 0, |a.fields| - k
  {
    if k < |a.fields| {
      SourceOfSelf(a.fields, k);
      DirectIdentity(a.columns[k], cast);
      assert DirectColumn(a, a.fields[k], cast) == Some(a.columns[k]);
      DirectColumnsIdentity(a, k + 1, cast);
      assert a.fields[k..][1..] == a.fields[k + 1..];
      assert a.columns[k..] == [a.columns[k]] + a.columns[k + 1..];
    } else {
      assert a.fields[k..] == [] && a.columns[k..] == [];
    }
  }

  /** The compiled program computes the direct projection, shortcuts included. */
  lemma {:induction false} CompiledIsDirect(a: Array, target: DataType, cast: Cast)
    requires WellFormed(a) && ProperType(TypeOf(a))
    requires Build(TypeOf(a), target).Ok?
    ensures Project(a, target, cast) == Direct(a, target, cast)
    decreases target, 0
  {
    var p := Build(TypeOf(a), target).value;
    if TypeOf(a) == target {
      DirectIdentity(a, cast);
    } else if p.Some? {
      BuiltFor(TypeOf(a), target, p.value);
      assert Project(a, target, cast) == Apply(p.value, a, cast);
      if p.value.StructP? {
        ChildrenAreDirect(a, target.fields, cast);
      } else {
        CompiledIsDirect(a.values, p.value.field.dataType, cast);
      }
    }
  }

  lemma {:induction false} ChildrenAreDirect(a: Array, targets: seq<Field>, cast: Cast)
    requires a.StructArray? && WellFormed(a) && ProperType(TypeOf(a))
    requires BuildChildren(a.fields, targets).Ok?
    ensures ApplyChildren(BuildChildren(a.fields, targets).value, a.columns, a.length, cast) == DirectColumns(a, targets, cast)
    decreases targets, 2
  {
    if targets != [] {
      var children := BuildChildren(a.fields, targets).value;
      assert children[0] == BuildChild(a.fields, targets[0]).value;
      assert children[1..] == BuildChildren(a.fields, targets[1..]).value;
      ChildrenAreDirect(a, targets[1..], cast);
      match SourceOf(a.fields, targets[0])
      case None =>
      case Some(i) => CompiledIsDirect(a.columns[i], targets[0].dataType, cast);
    }
  }

  // When a projection compiles.

  /**
   Every required target field has a source, container children keep their ids, fixed-size
   lists their width, and so on down the matched fields.
   */
  predicate Compatible(source: DataType, target: DataType)
    decreases target
  {
    NestingInverse(target);
    if source.Struct? && target.Struct? then
      forall k :: 0 <= k < |target.fields| ==>
        match SourceOf(source.fields, target.fields[k])
        case Some(i) => Compatible(source.fields[i].dataType, target.fields[k].dataType)
        case None => target.fields[k].nullable
    else
      match (Nesting(source), Nesting(target))
      case (Some((was, from)), Some((kind, to))) =>
        SameFamily(was, kind) ==>
          (was.FixedKind? ==> was == kind) && !ChildIdChanges(from, to) && Compatible(from.dataType, to.dataType)
      case _ => true
  }

  lemma {:induction false} CompatibleWithSelf(t: DataType)
    requires ProperType(t)
    ensures Compatible(t, t)
    decreases t
  {
    NestingInverse(t);
    if t.Struct? {
      forall k | 0 <= k < |t.fields|
        ensures SourceOf(t.fields, t.fields[k]) == Some(k) && Compatible(t.fields[k].dataType, t.fields[k].dataType)
      {
        SourceOfSelf(t.fields, k);
        CompatibleWithSelf(t.fields[k].dataType);
      }
    } else if Nesting(t).Some? {
      CompatibleWithSelf(Nesting(t).value.1.dataType);
    }
  }

  /** Compiling is refused exactly where the schemas are not compatible. */
  lemma {:induction false} BuildsIff(source: DataType, target: DataType)
    requires ProperType(source)
    ensures Build(source, target).Ok? <==> Compatible(source, target)
    decreases target, 0
  {
    NestingInverse(source);
    NestingInverse(target);
    if source == target {
      CompatibleWithSelf(source);
    } else if source.Struct? && target.Struct? {
      ChildrenBuildIff(source.fields, target.fields);
    } else if Nesting(source).Some? && Nesting(target).Some? {
      BuildsIff(Nesting(source).value.1.dataType, Nesting(target).value.1.dataType);
    }
  }

  lemma {:induction false} ChildrenBuildIff(source: seq<Field>, targets: seq<Field>)
    requires ProperType(Struct(source))
    ensures BuildChildren(source, targets).Ok? <==>
      forall k :: 0 <= k < |targets| ==>
        match SourceOf(source, targets[k])
        case Some(i) => Compatible(source[i].dataType, targets[k].dataType)
        case None => targets[k].nullable
    decreases targets, 1
  {
    if targets != [] {
      if SourceOf(source, targets[0]).Some? {
        BuildsIff(source[SourceOf(source, targets[0]).value].dataType, targets[0].dataType);
      }
      ChildrenBuildIff(source, targets[1..]);
      assert forall k :: 1 <= k < |targets| ==> targets[k] == targets[1..][k - 1];
    }
  }

  // Null arrays.

  lemma ProductBound(i: nat, n: nat, size: nat)
    requires size > 0 && i < n * size
    ensures i / size < n
  {
    var q := i / size;
    assert q * size <= i;
    assert q >= n ==> q * size >= n * size;
  }

  lemma {:induction false} NullArrayWellFormed(t: DataType, n: nat)
    requires ProperType(t)
    ensures WellFormed(NullArray(t, n)) && TypeOf(NullArray(t, n)) == t && Length(NullArray(t, n)) == n
    decreases t
  {
    NullArrayType(t, n);
    NestingInverse(t);
    if t.Struct? {
      NullColumnsWellFormed(t.fields, n);
    } else {
      match Nesting(t)
      case Some((kind, child)) =>
        var rows := NullRows(kind, n);
        NullArrayWellFormed(child.dataType, rows);
        NullNestedFits(kind, child, n, NullArray(child.dataType, rows));
      case None =>
    }
  }

  /** How many child rows `n` null rows have. */
  function NullRows(kind: Kind, n: nat): nat {
    match kind
    case FixedKind(size) => if size >= 0 then n * size else 0
    case _ => 0
  }

  lemma NullNestedFits(kind: Kind, child: Field, n: nat, values: Array)
    requires ProperNesting(kind, child)
    requires TypeOf(values) == child.dataType && Length(values) == NullRows(kind, n) && WellFormed(values)
    ensures NestedFits(kind, child, if kind.FixedKind? then [] else seq(n + 1, _ => 0), n, values, NoRows(n))
  {
    if kind.FixedKind? && kind.size > 0 {
      NullSlots(n, kind.size);
    }
  }

  lemma NullSlots(n: nat, size: nat)
    requires size > 0
    ensures forall i: nat :: i < n * size ==> !Valid(NoRows(n), i / size)
  {
    forall i: nat | i < n * size ensures !Valid(NoRows(n), i / size) {
      ProductBound(i, n, size);
    }
  }

  lemma {:induction false} NullColumnsWellFormed(fields: seq<Field>, n: nat)
    requires forall i :: 0 <= i < |fields| ==> ProperType(fields[i].dataType)
    ensures
      forall i :: 0 <= i < |fields| ==>
        WellFormed(NullColumns(fields, n)[i]) && ColumnFits(fields[i], NullColumns(fields, n)[i], n, NoRows(n))
    decreases fields
  {
    if fields != [] {
      NullArrayWellFormed(fields[0].dataType, n);
      NullColumnsWellFormed(fields[1..], n);
    }
  }

  // What a direct projection yields.

  lemma {:induction false} DirectSound(a: Array, target: DataType, cast: Cast)
    requires WellFormed(a) && ProperType(target) && CastOk(cast)
    requires Direct(a, target, cast).Some?
    ensures
      var r := Direct(a, target, cast).value;
      WellFormed(r) && TypeOf(r) == target && Length(r) == Length(a)
    decreases target, 0
  {
    NestingInverse(target);
    match a
    case StructArray(_, _, _, _) =>
      if target.Struct? {
        DirectColumnsSound(a, target.fields, cast);
      }
    case NestedArray(was, _, _, _, values, _) =>
      if Nesting(target).Some? && SameFamily(was, Nesting(target).value.0) {
        DirectSound(values, Nesting(target).value.1.dataType, cast);
      }
    case Leaf(_, _) =>
  }

  lemma {:induction false} DirectColumnsSound(a: Array, targets: seq<Field>, cast: Cast)
    requires a.StructArray? && WellFormed(a) && CastOk(cast)
    requires forall i :: 0 <= i < |targets| ==> ProperType(targets[i].dataType)
    requires DirectColumns(a, targets, cast).Some?
    ensures
      var columns := DirectColumns(a, targets, cast).value;
      forall i :: 0 <= i < |targets| ==>
        && DirectColumn(a, targets[i], cast) == Some(columns[i])
        && WellFormed(columns[i]) && Length(columns[i]) == a.length
    decreases targets, 2
  {
    if targets != [] {
      DirectColumnsSound(a, targets[1..], cast);
      match SourceOf(a.fields, targets[0])
      case None => NullArrayWellFormed(targets[0].dataType, a.length);
      case Some(i) => DirectSound(a.columns[i], targets[0].dataType, cast);
    }
  }

  // One projection after another.

  predicate AllIds(fields: seq<Field>) {
    fields != [] && forall i :: 0 <= i < |fields| ==> FieldId(fields[i]).Some?
  }

  /** Nulls of the middle type project onto nulls: fields matched by id, leaves unchanged. */
  predicate NullLinked(middle: DataType, target: DataType)
    decreases target
  {
    NestingInverse(target);
    if target.Struct? then
      && middle.Struct? && AllIds(middle.fields) && AllIds(target.fields)
      && forall k :: 0 <= k < |target.fields| ==>
           match SourceOf(middle.fields, target.fields[k])
           case Some(j) => NullLinked(middle.fields[j].dataType, target.fields[k].dataType)
           case None => true
    else
      match (Nesting(middle), Nesting(target))
      case (Some((was, from)), Some((kind, to))) =>
        SameFamily(was, kind) && (was.FixedKind? ==> was == kind) && NullLinked(from.dataType, to.dataType)
      case _ => middle == target
  }

  /**
   Every struct level of the three types has an id on every field, the middle type keeps
   each field the other two share, and leaves keep their type.
   */
  predicate Linked(source: DataType, middle: DataType, target: DataType)
    decreases target
  {
    NestingInverse(target);
    if target.Struct? then
      && source.Struct? && middle.Struct?
      && AllIds(source.fields) && AllIds(middle.fields) && AllIds(target.fields)
      && forall k :: 0 <= k < |target.fields| ==>
           match (SourceOf(source.fields, target.fields[k]), SourceOf(middle.fields, target.fields[k]))
           case (Some(i), Some(j)) =>
             Linked(source.fields[i].dataType, middle.fields[j].dataType, target.fields[k].dataType)
           case (Some(_), None) => false
           case (None, Some(j)) => NullLinked(middle.fields[j].dataType, target.fields[k].dataType)
           case (None, None) => true
    else
      match (Nesting(source), Nesting(middle), Nesting(target))
      case (Some((first, from)), Some((second, through)), Some((third, to))) =>
        SameFamily(first, second) && SameFamily(second, third) && Linked(from.dataType, through.dataType, to.dataType)
      case _ => source == middle == target
  }

  lemma SourceById(source: seq<Field>, f: Field, g: Field)
    requires AllIds(source) && FieldId(f).Some? && FieldId(g) == FieldId(f)
    ensures SourceOf(source, f) == SourceOf(source, g)
  {
    assert FieldId(source[0]).Some?;
  }

  lemma SourceHasId(source: seq<Field>, f: Field)
    requires AllIds(source) && FieldId(f).Some? && SourceOf(source, f).Some?
    ensures FieldId(source[SourceOf(source, f).value]) == FieldId(f)
  {
    assert FieldId(source[0]).Some?;
  }

  lemma {:induction false} DirectColumnsAt(a: Array, targets: seq<Field>, cast: Cast, i: nat)
    requires a.StructArray? && i < |targets|
    requires DirectColumns(a, targets, cast).Some?
    ensures DirectColumn(a, targets[i], cast) == Some(DirectColumns(a, targets, cast).value[i])
    decreases targets
  {
    if i > 0 { DirectColumnsAt(a, targets[1..], cast, i - 1); }
  }

  lemma {:induction false} SameColumns(a: Array, b: Array, targets: seq<Field>, cast: Cast)
    requires a.StructArray? && b.StructArray?
    requires forall i :: 0 <= i < |targets| ==> DirectColumn(a, targets[i], cast) == DirectColumn(b, targets[i], cast)
    ensures DirectColumns(a, targets, cast) == DirectColumns(b, targets, cast)
    decreases targets
  {
    if targets != [] { SameColumns(a, b, targets[1..], cast); }
  }

  lemma {:induction false} NullProjectsToNull(middle: DataType, target: DataType, n: nat, cast: Cast)
    requires NullLinked(middle, target) && ProperType(target)
    ensures Direct(NullArray(middle, n), target, cast) == Some(NullArray(target, n))
    decreases target, 0
  {
    NestingInverse(target);
    NestingInverse(middle);
    NullArrayType(middle, n);
    NullArrayWellFormed(target, n);
    if target.Struct? {
      NullColumnsProject(middle, target.fields, n, cast);
    } else {
      match (Nesting(middle), Nesting(target))
      case (Some((was, from)), Some((kind, to))) =>
        NullProjectsToNull(from.dataType, to.dataType, NullRows(was, n), cast);
      case _ =>
    }
  }

  lemma {:induction false} NullColumnsProject(middle: DataType, targets: seq<Field>, n: nat, cast: Cast)
    requires middle.Struct? && AllIds(middle.fields)
    requires forall k :: 0 <= k < |targets| ==>
      && ProperType(targets[k].dataType)
      && match SourceOf(middle.fields, targets[k])
         case Some(j) => NullLinked(middle.fields[j].dataType, targets[k].dataType)
         case None => true
    ensures DirectColumns(NullArray(middle, n), targets, cast) == Some(NullColumns(targets, n))
    decreases targets, 1
  {
    if targets != [] {
      NullColumnsProject(middle, targets[1..], n, cast);
      match SourceOf(middle.fields, targets[0])
      case None =>
      case Some(j) =>
        NullColumnsAt(middle.fields, n, j);
        NullProjectsToNull(middle.fields[j].dataType, targets[0].dataType, n, cast);
    }
  }

  /** Projecting through the middle type is projecting straight to the target. */
  lemma {:induction false} DirectComposes(a: Array, middle: DataType, target: DataType, cast: Cast)
    requires WellFormed(a) && ProperType(middle) && ProperType(target) && CastOk(cast)
    requires Linked(TypeOf(a), middle, target)
    requires Direct(a, middle, cast).Some?
    ensures Direct(a, target, cast) == Direct(Direct(a, middle, cast).value, target, cast)
    decreases target
  {
    NestingInverse(target);
    NestingInverse(middle);
    NestingInverse(TypeOf(a));
    var b := Direct(a, middle, cast).value;
    DirectSound(a, middle, cast);
    if target.Struct? {
      forall k | 0 <= k < |target.fields|
        ensures DirectColumn(a, target.fields[k], cast) == DirectColumn(b, target.fields[k], cast)
      {
        ColumnComposes(a, b, target.fields[k], middle, cast);
      }
      SameColumns(a, b, target.fields, cast);
    } else if Nesting(target).Some? {
      DirectComposes(a.values, Nesting(middle).value.1.dataType, Nesting(target).value.1.dataType, cast);
    }
  }

  lemma {:induction false} ColumnComposes(a: Array, b: Array, f: Field, middle: DataType, cast: Cast)
    requires a.StructArray? && WellFormed(a) && CastOk(cast)
    requires middle.Struct? && ProperType(middle)
    requires Direct(a, middle, cast) == Some(b) && b.StructArray? && b.length == a.length && b.fields == middle.fields
    requires AllIds(a.fields) && AllIds(middle.fields) && FieldId(f).Some? && ProperType(f.dataType)
    requires
      match (SourceOf(a.fields, f), SourceOf(middle.fields, f))
      case (Some(i), Some(j)) => Linked(a.fields[i].dataType, middle.fields[j].dataType, f.dataType)
      case (Some(_), None) => false
      case (None, Some(j)) => NullLinked(middle.fields[j].dataType, f.dataType)
      case (None, None) => true
    ensures DirectColumn(a, f, cast) == DirectColumn(b, f, cast)
    decreases f
  {
    match SourceOf(middle.fields, f)
    case None =>
    case Some(j) =>
      SourceHasId(middle.fields, f);
      SourceById(a.fields, f, middle.fields[j]);
      DirectColumnsAt(a, middle.fields, cast, j);
      match SourceOf(a.fields, f)
      case None => NullProjectsToNull(middle.fields[j].dataType, f.dataType, a.length, cast);
      case Some(i) => DirectComposes(a.columns[i], middle.fields[j].dataType, f.dataType, cast);
  }

  /**
   Compiled projections compose: when all three compile, reading through a middle schema
   that keeps what the other two share is reading straight under the last one, refusals
   included.
   */
  lemma ProjectionsCompose(a: Array, middle: DataType, target: DataType, cast: Cast)
    requires WellFormed(a) && ProperType(TypeOf(a)) && ProperType(middle) && ProperType(target) && CastOk(cast)
    requires Linked(TypeOf(a), middle, target)
    requires Build(TypeOf(a), middle).Ok? && Build(middle, target).Ok? && Build(TypeOf(a), target).Ok?
    requires Project(a, middle, cast).Some?
    ensures
      var b := Project(a, middle, cast).value;
      TypeOf(b) == middle && Project(b, target, cast) == Project(a, target, cast)
  {
    CompiledIsDirect(a, middle, cast);
    CompiledIsDirect(a, target, cast);
    DirectSound(a, middle, cast);
    CompiledIsDirect(Direct(a, middle, cast).value, target, cast);
    DirectComposes(a, middle, target, cast);
  }

  // When a projection succeeds.

  /**
   Fields are added only as nullable ones, matched fields do not lose their nullability,
   container children keep their ids, lists their width and leaves their type; names and
   order are free.
   */
  predicate Evolves(source: DataType, target: DataType)
    decreases target
  {
    NestingInverse(target);
    if target.Struct? then
      source.Struct? && forall k :: 0 <= k < |target.fields| ==>
        match SourceOf(source.fields, target.fields[k])
        case Some(i) => FieldEvolves(source.fields[i], target.fields[k]) && Evolves(source.fields[i].dataType, target.fields[k].dataType)
        case None => target.fields[k].nullable
    else
      match (Nesting(source), Nesting(target))
      case (Some((was, from)), Some((kind, to))) =>
        && SameFamily(was, kind) && (was.FixedKind? ==> was == kind) && !ChildIdChanges(from, to)
        && (kind.MapKind? || FieldEvolves(from, to))
        && Evolves(from.dataType, to.dataType)
      case _ => source == target
  }

  predicate FieldEvolves(source: Field, target: Field) {
    source.nullable ==> target.nullable
  }

  /** The same rows are null. */
  predicate SameRows(a: Array, r: Array) {
    Length(r) == Length(a) && forall i :: 0 <= i < Length(a) ==> RowValid(r, i) == RowValid(a, i)
  }

  lemma {:induction false} EvolvedProjects(a: Array, target: DataType, cast: Cast)
    requires WellFormed(a) && ProperType(target) && Evolves(TypeOf(a), target)
    ensures
      Direct(a, target, cast).Some? &&
      var r := Direct(a, target, cast).value;
      TypeOf(r) == target && SameRows(a, r) && WellFormed(r)
    decreases target, 0
  {
    NestingInverse(target);
    NestingInverse(TypeOf(a));
    if target.Struct? {
      EvolvedColumns(a, target.fields, cast);
    } else if Nesting(target).Some? {
      var (kind, to) := Nesting(target).value;
      EvolvedProjects(a.values, to.dataType, cast);
      EvolvedNestedFits(a, kind, to, Direct(a.values, to.dataType, cast).value);
    }
  }

  lemma EvolvedNestedFits(a: Array, kind: Kind, to: Field, values: Array)
    requires a.NestedArray? && WellFormed(a) && SameFamily(a.kind, kind) && (a.kind.FixedKind? ==> a.kind == kind)
    requires kind.MapKind? || FieldEvolves(a.child, to)
    requires ProperNesting(kind, to) && TypeOf(values) == to.dataType && SameRows(a.values, values) && WellFormed(values)
    ensures NestedFits(kind, to, a.offsets, a.length, values, a.validity)
  {
  }

  lemma {:induction false} EvolvedColumns(a: Array, targets: seq<Field>, cast: Cast)
    requires a.StructArray? && WellFormed(a)
    requires forall k :: 0 <= k < |targets| ==>
      && ProperType(targets[k].dataType)
      && match SourceOf(a.fields, targets[k])
         case Some(i) => FieldEvolves(a.fields[i], targets[k]) && Evolves(a.fields[i].dataType, targets[k].dataType)
         case None => targets[k].nullable
    ensures
      DirectColumns(a, targets, cast).Some? &&
      forall k :: 0 <= k < |targets| ==>
        var column := DirectColumns(a, targets, cast).value[k];
        WellFormed(column) && ColumnFits(targets[k], column, a.length, a.validity)
    decreases targets, 1
  {
    if targets != [] {
      EvolvedColumns(a, targets[1..], cast);
      match SourceOf(a.fields, targets[0])
      case None => NullArrayWellFormed(targets[0].dataType, a.length);
      case Some(i) =>
        assert ColumnFits(a.fields[i], a.columns[i], a.length, a.validity);
        EvolvedProjects(a.columns[i], targets[0].dataType, cast);
    }
  }

  lemma {:induction false} EvolvedCompatible(source: DataType, target: DataType)
    requires Evolves(source, target)
    ensures Compatible(source, target)
    decreases target
  {
    NestingInverse(target);
    if target.Struct? {
      forall k | 0 <= k < |target.fields| && SourceOf(source.fields, target.fields[k]).Some?
        ensures Compatible(source.fields[SourceOf(source.fields, target.fields[k]).value].dataType, target.fields[k].dataType)
      {
        EvolvedCompatible(source.fields[SourceOf(source.fields, target.fields[k]).value].dataType, target.fields[k].dataType);
      }
    } else if Nesting(source).Some? && Nesting(target).Some? {
      EvolvedCompatible(Nesting(source).value.1.dataType, Nesting(target).value.1.dataType);
    }
  }

  /** Under such a change the projection compiles, applies, and keeps every row's nullness. */
  lemma ProjectionTotal(a: Array, target: DataType, cast: Cast)
    requires WellFormed(a) && ProperType(TypeOf(a)) && ProperType(target) && Evolves(TypeOf(a), target)
    ensures Build(TypeOf(a), target).Ok? && Project(a, target, cast).Some?
    ensures
      var r := Project(a, target, cast).value;
      TypeOf(r) == target && SameRows(a, r) && WellFormed(r)
  {
    EvolvedCompatible(TypeOf(a), target);
    BuildsIff(TypeOf(a), target);
    CompiledIsDirect(a, target, cast);
    EvolvedProjects(a, target, cast);
  }

  /** The way back from a change that keeps every field compiles too. */
  lemma {:induction false} BackCompatible(source: DataType, middle: DataType)
    requires ProperType(source) && Evolves(source, middle) && Linked(source, middle, source)
    ensures Compatible(middle, source)
    decreases source
  {
    NestingInverse(source);
    NestingInverse(middle);
    if source.Struct? {
      forall k | 0 <= k < |source.fields|
        ensures SourceOf(middle.fields, source.fields[k]).Some?
        ensures Compatible(middle.fields[SourceOf(middle.fields, source.fields[k]).value].dataType, source.fields[k].dataType)
      {
        SourceOfSelf(source.fields, k);
        var j := SourceOf(middle.fields, source.fields[k]).value;
        SourceHasId(middle.fields, source.fields[k]);
        SourceById(source.fields, source.fields[k], middle.fields[j]);
        BackCompatible(source.fields[k].dataType, middle.fields[j].dataType);
      }
    } else if Nesting(source).Some? && Nesting(middle).Some? {
      BackCompatible(Nesting(source).value.1.dataType, Nesting(middle).value.1.dataType);
    }
  }

  /** A rename or reorder, or adding nullable fields, and back is the identity. */
  lemma RenameAndBack(a: Array, middle: DataType, cast: Cast)
    requires WellFormed(a) && ProperType(TypeOf(a)) && ProperType(middle) && CastOk(cast)
    requires Evolves(TypeOf(a), middle) && Linked(TypeOf(a), middle, TypeOf(a))
    ensures Build(TypeOf(a), middle).Ok? && Build(middle, TypeOf(a)).Ok? && Project(a, middle, cast).Some?
    ensures
      var b := Project(a, middle, cast).value;
      TypeOf(b) == middle && Project(b, TypeOf(a), cast) == Some(a)
  {
    ProjectionTotal(a, middle, cast);
    BackCompatible(TypeOf(a), middle);
    BuildsIff(middle, TypeOf(a));
    ProjectionsCompose(a, middle, TypeOf(a), cast);
  }

  // Fields by path: a path names fields by id only, and says nothing of names or order.

  datatype PathStep = ById(id: I32) | Inside(kind: Kind)

  function TypeAt(t: DataType, path: seq<PathStep>): Option<DataType>
    decreases |path|
  {
    if path == [] then Some(t)
    else
      match path[0]
      case ById(id) =>
        if !t.Struct? then None
        else
          (match PositionOfId(t.fields, id)
           case Some(i) => TypeAt(t.fields[i].dataType, path[1..])
           case None => None)
      case Inside(kind) =>
        match Nesting(t)
        case Some((own, child)) => if SameFamily(own, kind) then TypeAt(child.dataType, path[1..]) else None
        case None => None
  }

  function ColumnAt(a: Array, path: seq<PathStep>): Option<Array>
    decreases |path|
  {
    if path == [] then Some(a)
    else
      match (path[0], a)
      case (ById(id), StructArray(fields, columns, _, _)) =>
        (match PositionOfId(fields, id)
         case Some(i) => if i < |columns| then ColumnAt(columns[i], path[1..]) else None
         case None => None)
      case (Inside(kind), NestedArray(own, _, _, _, values, _)) =>
        if SameFamily(own, kind) then ColumnAt(values, path[1..]) else None
      case _ => None
  }

  /** The path's column is there, a field on it is missing, or an array on it is cast as a whole. */
  datatype Found = Present(column: Array) | Missing | Recast

  function Find(a: Array, target: DataType, path: seq<PathStep>): Found
    decreases |path|
  {
    if path == [] then Present(a)
    else
      match (path[0], a)
      case (ById(id), StructArray(fields, columns, _, _)) =>
        if !target.Struct? then Recast
        else
          (match (PositionOfId(fields, id), PositionOfId(target.fields, id))
           case (Some(i), Some(j)) =>
             if i < |columns| then Find(columns[i], target.fields[j].dataType, path[1..]) else Missing
           case _ => Missing)
      case (Inside(kind), NestedArray(own, _, _, _, values, _)) =>
        (match Nesting(target)
         case Some((to, child)) =>
           if SameFamily(own, to) then Find(values, child.dataType, path[1..]) else Recast
         case None => Recast)
      case _ => Recast
  }

  /** Every struct level has an id on every field. */
  predicate IdsEverywhere(t: DataType)
    decreases t
  {
    NestingInverse(t);
    if t.Struct? then AllIds(t.fields) && forall i :: 0 <= i < |t.fields| ==> IdsEverywhere(t.fields[i].dataType)
    else Nesting(t).Some? ==> IdsEverywhere(Nesting(t).value.1.dataType)
  }

  predicate AllNull(a: Array) {
    forall i :: 0 <= i < Length(a) ==> !RowValid(a, i)
  }

  lemma {:induction false} NullArrayPath(t: DataType, n: nat, path: seq<PathStep>)
    requires TypeAt(t, path).Some?
    ensures
      var c := ColumnAt(NullArray(t, n), path);
      c.Some? && TypeOf(c.value) == TypeAt(t, path).value && AllNull(c.value)
    decreases |path|
  {
    NestingInverse(t);
    NullArrayType(t, n);
    if path != [] {
      match path[0]
      case ById(id) =>
        var i := PositionOfId(t.fields, id).value;
        NullColumnsAt(t.fields, n, i);
        NullArrayPath(t.fields[i].dataType, n, path[1..]);
      case Inside(_) =>
        var (kind, child) := Nesting(t).value;
        NullArrayPath(child.dataType, Length(NullArray(t, n).values), path[1..]);
        NullArrayType(child.dataType, match kind case FixedKind(size) => (if size >= 0 then n * size else 0) case _ => 0);
    }
  }

  /**
   A column of the result is the projection of the source column on the same id path, so
   the very same column where its type did not change, and all null where a field on the
   path is missing from the source.
   */
  lemma {:induction false} FieldByPath(a: Array, target: DataType, cast: Cast, path: seq<PathStep>)
    requires WellFormed(a) && IdsEverywhere(TypeOf(a)) && IdsEverywhere(target)
    requires Direct(a, target, cast).Some? && TypeAt(target, path).Some?
    ensures
      var c, u := ColumnAt(Direct(a, target, cast).value, path), TypeAt(target, path).value;
      match Find(a, target, path)
      case Present(column) =>
        && ColumnAt(a, path) == Some(column)
        && c.Some? && Direct(column, u, cast) == c
        && (TypeOf(column) == u && ProperType(u) ==> c == Some(column))
      case Missing => ColumnAt(a, path) == None && c.Some? && TypeOf(c.value) == u && AllNull(c.value)
      case Recast => true
    decreases |path|, 1
  {
    NestingInverse(target);
    NestingInverse(TypeOf(a));
    if path != [] {
      match (path[0], a)
      case (ById(id), StructArray(fields, columns, _, _)) =>
        if target.Struct? {
          StructFieldByPath(a, target, cast, id, path);
        }
      case (Inside(kind), NestedArray(own, _, _, _, values, _)) =>
        if Nesting(target).Some? && SameFamily(own, Nesting(target).value.0) {
          FieldByPath(values, Nesting(target).value.1.dataType, cast, path[1..]);
        }
      case _ =>
    } else if TypeOf(a) == target && ProperType(target) {
      DirectIdentity(a, cast);
    }
  }

  lemma {:induction false} StructFieldByPath(a: Array, target: DataType, cast: Cast, id: I32, path: seq<PathStep>)
    requires a.StructArray? && target.Struct? && path != [] && path[0] == ById(id)
    requires WellFormed(a) && IdsEverywhere(TypeOf(a)) && IdsEverywhere(target)
    requires Direct(a, target, cast).Some? && TypeAt(target, path).Some?
    ensures
      var c, u := ColumnAt(Direct(a, target, cast).value, path), TypeAt(target, path).value;
      match Find(a, target, path)
      case Present(column) =>
        && ColumnAt(a, path) == Some(column)
        && c.Some? && Direct(column, u, cast) == c
        && (TypeOf(column) == u && ProperType(u) ==> c == Some(column))
      case Missing => ColumnAt(a, path) == None && c.Some? && TypeOf(c.value) == u && AllNull(c.value)
      case Recast => true
    decreases |path|, 0
  {
    var j := PositionOfId(target.fields, id).value;
    assert FieldId(a.fields[0]).Some?;
    match PositionOfId(a.fields, id)
    case None => MissingField(a, target, cast, id, path);
    case Some(i) =>
      StepsIntoField(a, target, cast, id, path);
      FieldByPath(a.columns[i], target.fields[j].dataType, cast, path[1..]);
  }

  lemma {:induction false} StepsIntoField(a: Array, target: DataType, cast: Cast, id: I32, path: seq<PathStep>)
    requires a.StructArray? && target.Struct? && path != [] && path[0] == ById(id)
    requires WellFormed(a) && IdsEverywhere(TypeOf(a)) && IdsEverywhere(target)
    requires Direct(a, target, cast).Some? && TypeAt(target, path).Some? && PositionOfId(a.fields, id).Some?
    ensures PositionOfId(target.fields, id).Some?
    ensures
      var i, j, rest := PositionOfId(a.fields, id).value, PositionOfId(target.fields, id).value, path[1..];
      var column, u := a.columns[i], target.fields[j].dataType;
      && WellFormed(column) && IdsEverywhere(TypeOf(column)) && IdsEverywhere(u)
      && Find(a, target, path) == Find(column, u, rest)
      && ColumnAt(a, path) == ColumnAt(column, rest) && TypeAt(target, path) == TypeAt(u, rest)
      && Direct(column, u, cast).Some?
      && ColumnAt(Direct(a, target, cast).value, path) == ColumnAt(Direct(column, u, cast).value, rest)
  {
    assert FieldId(a.fields[0]).Some?;
    DirectColumnsAt(a, target.fields, cast, PositionOfId(target.fields, id).value);
  }

  lemma MissingField(a: Array, target: DataType, cast: Cast, id: I32, path: seq<PathStep>)
    requires a.StructArray? && target.Struct? && path != [] && path[0] == ById(id)
    requires WellFormed(a) && IdsEverywhere(TypeOf(a)) && IdsEverywhere(target)
    requires Direct(a, target, cast).Some? && TypeAt(target, path).Some? && PositionOfId(a.fields, id).None?
    ensures
      var c, u := ColumnAt(Direct(a, target, cast).value, path), TypeAt(target, path).value;
      Find(a, target, path) == Missing && ColumnAt(a, path) == None && c.Some? && TypeOf(c.value) == u && AllNull(c.value)
  {
    var j := PositionOfId(target.fields, id).value;
    assert FieldId(a.fields[0]).Some?;
    DirectColumnsAt(a, target.fields, cast, j);
    NullArrayPath(target.fields[j].dataType, a.length, path[1..]);
  }
}
