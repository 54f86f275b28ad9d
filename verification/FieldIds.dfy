/**
 Numbering the fields of an Arrow schema: ids already present are kept, every other field
 gets an id no field of the schema carries, and a schema already numbered is left as it is.
 */
module FieldIds {
  import opened Scalars
  import opened Numerals
  import opened ArrowTypes

  datatype Alloc = Alloc(index: I32, reserved: set<I32>)

  // Ids present anywhere in a schema.

  function ReservedIn(f: Field): set<I32>
    decreases f
  {
    var own := match FieldId(f) case Some(id) => {id} case None => {};
    own + if IsVariant(f) then {} else ReservedUnder(f.dataType)
  }

  function ReservedUnder(t: DataType): set<I32>
    decreases t
  {
    match t
    case Struct(fields) => ReservedInAll(fields)
    case List(child) => ReservedIn(child)
    case LargeList(child) => ReservedIn(child)
    case ListView(child) => ReservedIn(child)
    case LargeListView(child) => ReservedIn(child)
    case FixedSizeList(child, _) => ReservedIn(child)
    case Map(entries, _) => ReservedIn(entries)
    case _ => {}
  }

  function ReservedInAll(fields: seq<Field>): set<I32>
    decreases fields
  {
    if fields == [] then {} else ReservedIn(fields[0]) + ReservedInAll(fields[1..])
  }

  // One id.

  /** The least id from `candidate` up that is not reserved. */
  function NextFree(candidate: int, reserved: set<I32>): (id: Option<I32>)
    requires candidate >= I32_MIN
    ensures id.Some? ==> candidate <= id.value && id.value !in reserved && forall c: I32 :: candidate <= c < id.value ==> c in reserved
    ensures id.None? ==> forall c: I32 :: candidate <= c ==> c in reserved
    decreases I32_MAX - candidate
  {
    if candidate > I32_MAX then None
    else if candidate in reserved then NextFree(candidate + 1, reserved)
    else Some(candidate)
  }

  function ResolveId(existing: Option<I32>, s: Alloc): (Option<I32>, Alloc) {
    match existing
    case Some(id) => (existing, s.(index := if id > s.index then id else s.index))
    case None =>
      match NextFree(s.index + 1, s.reserved)
      case None => (None, s)
      case Some(id) => (Some(id), Alloc(id, s.reserved + {id}))
  }

  // A schema.

  function WithId(f: Field, t: DataType, id: I32): Field {
    f.(dataType := t, metadata := f.metadata[FIELD_ID_KEY := SignedDecimal(id)])
  }

  function AssignField(f: Field, s: Alloc): (Option<Field>, Alloc)
    decreases f
  {
    match ResolveId(FieldId(f), s)
    case (None, t) => (None, t)
    case (Some(id), t) =>
      if IsVariant(f) then (Some(WithId(f, f.dataType, id)), t)
      else
        match AssignType(f.dataType, t)
        case (None, u) => (None, u)
        case (Some(dataType), u) => (Some(WithId(f, dataType, id)), u)
  }

  /** Structs, lists and maps of structs are numbered inside; a map's entries field is not. */
  function AssignType(t: DataType, s: Alloc): (Option<DataType>, Alloc)
    decreases t
  {
    match t
    case Struct(fields) =>
      (match AssignFields(fields, s)
       case (None, u) => (None, u)
       case (Some(numbered), u) => (Some(Struct(numbered)), u))
    case List(child) =>
      (match AssignField(child, s)
       case (None, u) => (None, u)
       case (Some(numbered), u) => (Some(List(numbered)), u))
    case Map(entries, sorted) =>
      if entries.dataType.Struct? then
        match AssignFields(entries.dataType.fields, s)
        case (None, u) => (None, u)
        case (Some(numbered), u) => (Some(Map(entries.(dataType := Struct(numbered)), sorted)), u)
      else (Some(t), s)
    case _ => (Some(t), s)
  }

  function AssignFields(fields: seq<Field>, s: Alloc): (Option<seq<Field>>, Alloc)
    decreases fields
  {
    if fields == [] then (Some([]), s)
    else
      match AssignField(fields[0], s)
      case (None, t) => (None, t)
      case (Some(first), t) =>
        match AssignFields(fields[1..], t)
        case (None, u) => (None, u)
        case (Some(rest), u) => (Some([first] + rest), u)
  }

  function NewFieldsWithIds(fields: seq<Field>, index: I32): (Option<seq<Field>>, Alloc) {
    AssignFields(fields, Alloc(index, ReservedInAll(fields)))
  }

  // The numbered fields of a schema, in the order they are visited, as a flat list.

  function Slots(f: Field): seq<Option<I32>>
    decreases f
  {
    [FieldId(f)] + if IsVariant(f) then [] else SlotsUnder(f.dataType)
  }

  function SlotsUnder(t: DataType): seq<Option<I32>>
    decreases t
  {
    match t
    case Struct(fields) => SlotsOfAll(fields)
    case List(child) => Slots(child)
    case Map(entries, _) => if entries.dataType.Struct? then SlotsOfAll(entries.dataType.fields) else []
    case _ => []
  }

  function SlotsOfAll(fields: seq<Field>): seq<Option<I32>>
    decreases fields
  {
    if fields == [] then [] else Slots(fields[0]) + SlotsOfAll(fields[1..])
  }

  /** Everything about a field but the ids of the fields that are numbered. */
  function Shape(f: Field): Field
    decreases f
  {
    f.(metadata := f.metadata - {FIELD_ID_KEY}, dataType := if IsVariant(f) then f.dataType else ShapeOf(f.dataType))
  }

  function ShapeOf(t: DataType): DataType
    decreases t
  {
    match t
    case Struct(fields) => Struct(ShapeOfAll(fields))
    case List(child) => List(Shape(child))
    case Map(entries, sorted) =>
      if entries.dataType.Struct? then Map(entries.(dataType := Struct(ShapeOfAll(entries.dataType.fields))), sorted) else t
    case _ => t
  }

  function ShapeOfAll(fields: seq<Field>): seq<Field>
    decreases fields
  {
    if fields == [] then [] else [Shape(fields[0])] + ShapeOfAll(fields[1..])
  }

  /** Every numbered field carries its id in the text form an assignment writes. */
  predicate Numbered(f: Field)
    decreases f
  {
    && FieldId(f).Some? && f.metadata[FIELD_ID_KEY] == SignedDecimal(FieldId(f).value)
    && (IsVariant(f) || NumberedUnder(f.dataType))
  }

  predicate NumberedUnder(t: DataType)
    decreases t
  {
    match t
    case Struct(fields) => NumberedAll(fields)
    case List(child) => Numbered(child)
    case Map(entries, _) => entries.dataType.Struct? ==> NumberedAll(entries.dataType.fields)
    case _ => true
  }

  predicate NumberedAll(fields: seq<Field>)
    decreases fields
  {
    fields == [] || (Numbered(fields[0]) && NumberedAll(fields[1..]))
  }

  /** Resolving a flat list of slots. */
  function Fill(slots: seq<Option<I32>>, s: Alloc): (Option<seq<Option<I32>>>, Alloc)
    decreases |slots|
  {
    if slots == [] then (Some([]), s)
    else
      match ResolveId(slots[0], s)
      case (None, t) => (None, t)
      case (Some(id), t) =>
        match Fill(slots[1..], t)
        case (None, u) => (None, u)
        case (Some(rest), u) => (Some([Some(id)] + rest), u)
  }

  lemma {:induction false} FillConcat(a: seq<Option<I32>>, b: seq<Option<I32>>, s: Alloc)
    ensures Fill(a + b, s) ==
      match Fill(a, s)
      case (None, t) => (None, t)
      case (Some(first), t) =>
        match Fill(b, t)
        case (None, u) => (None, u)
        case (Some(second), u) => (Some(first + second), u)
    decreases |a|
  {
    if a == [] {
      assert a + b == b;
      match Fill(b, s)
      case (None, u) =>
      case (Some(second), u) => assert [] + second == second;
    } else {
      assert (a + b)[1..] == a[1..] + b;
      match ResolveId(a[0], s)
      case (None, t) =>
      case (Some(id), t) =>
        FillConcat(a[1..], b, t);
        match Fill(a[1..], t)
        case (None, u) =>
        case (Some(rest), u) =>
          match Fill(b, u)
          case (None, v) =>
          case (Some(second), v) => assert [Some(id)] + (rest + second) == ([Some(id)] + rest) + second;
    }
  }

  /** What an assignment's outcome has to do with the flat outcome. */
  ghost predicate Tracks<T>(result: (Option<T>, Alloc), flat: (Option<seq<Option<I32>>>, Alloc), good: (T, seq<Option<I32>>) -> bool) {
    && result.1 == flat.1
    && (result.0.Some? <==> flat.0.Some?)
    && (result.0.Some? ==> good(result.0.value, flat.0.value))
  }

  ghost predicate GoodField(f: Field, g: Field, ids: seq<Option<I32>>) {
    Slots(g) == ids && Shape(g) == Shape(f) && Numbered(g)
  }

  ghost predicate GoodType(t: DataType, u: DataType, ids: seq<Option<I32>>) {
    SlotsUnder(u) == ids && ShapeOf(u) == ShapeOf(t) && NumberedUnder(u)
  }

  ghost predicate GoodFields(fields: seq<Field>, after: seq<Field>, ids: seq<Option<I32>>) {
    SlotsOfAll(after) == ids && ShapeOfAll(after) == ShapeOfAll(fields) && NumberedAll(after)
  }

  lemma WithIdGood(f: Field, t: DataType, id: I32, ids: seq<Option<I32>>)
    requires if IsVariant(f) then t == f.dataType && ids == [] else GoodType(f.dataType, t, ids)
    ensures GoodField(f, WithId(f, t, id), [Some(id)] + ids)
  {
    ParseOfSignedDecimal(id);
    var g := WithId(f, t, id);
    assert IsVariant(g) == IsVariant(f);
    assert g.metadata - {FIELD_ID_KEY} == f.metadata - {FIELD_ID_KEY};
  }

  /** Numbering the tree is numbering the flat list of its slots, in visiting order. */
  lemma {:induction false} AssignFieldTracks(f: Field, s: Alloc)
    ensures Tracks(AssignField(f, s), Fill(Slots(f), s), (g, ids) => GoodField(f, g, ids))
    decreases f
  {
    var rest := if IsVariant(f) then [] else SlotsUnder(f.dataType);
    assert Slots(f)[1..] == rest;
    match ResolveId(FieldId(f), s)
    case (None, t) =>
    case (Some(id), t) =>
      if IsVariant(f) {
        WithIdGood(f, f.dataType, id, []);
      } else {
        AssignTypeTracks(f.dataType, t);
        match AssignType(f.dataType, t)
        case (None, u) =>
        case (Some(dataType), u) => WithIdGood(f, dataType, id, Fill(rest, t).0.value);
      }
  }

  lemma {:induction false} AssignTypeTracks(t: DataType, s: Alloc)
    ensures Tracks(AssignType(t, s), Fill(SlotsUnder(t), s), (u, ids) => GoodType(t, u, ids))
    decreases t
  {
    match t
    case Struct(fields) =>
      AssignFieldsTracks(fields, s);
      StructGood(fields, s);
    case List(child) =>
      AssignFieldTracks(child, s);
      ListGood(child, s);
    case Map(entries, sorted) =>
      if entries.dataType.Struct? {
        AssignFieldsTracks(entries.dataType.fields, s);
        MapGood(entries, sorted, s);
      }
    case _ =>
  }

  lemma StructGood(fields: seq<Field>, s: Alloc)
    requires Tracks(AssignFields(fields, s), Fill(SlotsOfAll(fields), s), (after, ids) => GoodFields(fields, after, ids))
    ensures Tracks(AssignType(Struct(fields), s), Fill(SlotsUnder(Struct(fields)), s), (u, ids) => GoodType(Struct(fields), u, ids))
  {
  }

  lemma ListGood(child: Field, s: Alloc)
    requires Tracks(AssignField(child, s), Fill(Slots(child), s), (g, ids) => GoodField(child, g, ids))
    ensures Tracks(AssignType(List(child), s), Fill(SlotsUnder(List(child)), s), (u, ids) => GoodType(List(child), u, ids))
  {
    match AssignField(child, s)
    case (None, _) =>
    case (Some(g), _) => assert GoodType(List(child), List(g), Slots(g));
  }

  lemma MapGood(entries: Field, sorted: bool, s: Alloc)
    requires entries.dataType.Struct?
    requires Tracks(AssignFields(entries.dataType.fields, s), Fill(SlotsOfAll(entries.dataType.fields), s),
               (after, ids) => GoodFields(entries.dataType.fields, after, ids))
    ensures Tracks(AssignType(Map(entries, sorted), s), Fill(SlotsUnder(Map(entries, sorted)), s),
              (u, ids) => GoodType(Map(entries, sorted), u, ids))
  {
  }

  lemma {:induction false} AssignFieldsTracks(fields: seq<Field>, s: Alloc)
    ensures Tracks(AssignFields(fields, s), Fill(SlotsOfAll(fields), s), (after, ids) => GoodFields(fields, after, ids))
    decreases fields
  {
    if fields != [] {
      FillConcat(Slots(fields[0]), SlotsOfAll(fields[1..]), s);
      AssignFieldTracks(fields[0], s);
      match AssignField(fields[0], s)
      case (None, t) =>
      case (Some(first), t) =>
        AssignFieldsTracks(fields[1..], t);
        match AssignFields(fields[1..], t)
        case (None, u) =>
        case (Some(rest), u) =>
          assert ([first] + rest)[1..] == rest;
    }
  }

  // What the flat list is filled with.

  /** Slots with an id keep it; fresh ids are new, above the old index, and strictly increase. */
  lemma {:induction false} FillSound(slots: seq<Option<I32>>, s: Alloc)
    requires Fill(slots, s).0.Some?
    ensures
      var (filled, after) := Fill(slots, s);
      var ids := filled.value;
      && |ids| == |slots|
      && (forall k :: 0 <= k < |ids| ==> ids[k].Some? && ids[k].value <= after.index)
      && (forall k :: 0 <= k < |ids| && slots[k].Some? ==> ids[k] == slots[k])
      && (forall k :: 0 <= k < |ids| && slots[k].None? ==> ids[k].value > s.index && ids[k].value !in s.reserved)
      && (forall j, k :: 0 <= j < k < |ids| && slots[j].None? && slots[k].None? ==> ids[j].value < ids[k].value)
      && s.index <= after.index && s.reserved <= after.reserved
    decreases |slots|
  {
    if slots != [] {
      var (id, t) := ResolveId(slots[0], s);
      FillSound(slots[1..], t);
    }
  }

  /** Filling fails only with no free id left above the index. */
  lemma {:induction false} FillFails(slots: seq<Option<I32>>, s: Alloc)
    requires Fill(slots, s).0.None?
    ensures forall c: I32 :: Fill(slots, s).1.index < c ==> c in Fill(slots, s).1.reserved
    ensures None in slots
    decreases |slots|
  {
    var (id, t) := ResolveId(slots[0], s);
    if id.Some? {
      FillFails(slots[1..], t);
    }
  }

  function Unnumbered(slots: seq<Option<I32>>): nat {
    if slots == [] then 0 else (if slots[0].None? then 1 else 0) + Unnumbered(slots[1..])
  }

  /** With room above every id in use, filling succeeds. */
  lemma {:induction false} FillSucceeds(slots: seq<Option<I32>>, s: Alloc, top: int)
    requires s.index <= top && (forall id :: id in s.reserved ==> id <= top)
    requires forall k :: 0 <= k < |slots| && slots[k].Some? ==> slots[k].value <= top
    requires top + Unnumbered(slots) <= I32_MAX
    ensures Fill(slots, s).0.Some?
    ensures Fill(slots, s).1.index <= top + Unnumbered(slots)
    decreases |slots|
  {
    if slots != [] {
      var used := if slots[0].None? then 1 else 0;
      assert slots[0].None? ==> top + 1 !in s.reserved;
      var (id, t) := ResolveId(slots[0], s);
      FillSucceeds(slots[1..], t, top + used);
    }
  }

  // Which ids the reserving traversal sees.

  /** Every id that numbering keeps was reserved. */
  ghost predicate Within(slots: seq<Option<I32>>, ids: set<I32>) {
    forall k :: 0 <= k < |slots| && slots[k].Some? ==> slots[k].value in ids
  }

  /** No map's entries field, at a level that is numbered, is itself marked as a variant. */
  predicate PlainEntries(f: Field)
    decreases f
  {
    IsVariant(f) || PlainEntriesUnder(f.dataType)
  }

  predicate PlainEntriesUnder(t: DataType)
    decreases t
  {
    match t
    case Struct(fields) => PlainEntriesAll(fields)
    case List(child) => PlainEntries(child)
    case Map(entries, _) => entries.dataType.Struct? ==> !IsVariant(entries) && PlainEntriesAll(entries.dataType.fields)
    case _ => true
  }

  predicate PlainEntriesAll(fields: seq<Field>)
    decreases fields
  {
    fields == [] || (PlainEntries(fields[0]) && PlainEntriesAll(fields[1..]))
  }

  lemma {:induction false} SlotsReserved(f: Field)
    requires PlainEntries(f)
    ensures Within(Slots(f), ReservedIn(f))
    decreases f
  {
    if !IsVariant(f) { SlotsReservedUnder(f.dataType); }
  }

  lemma {:induction false} SlotsReservedUnder(t: DataType)
    requires PlainEntriesUnder(t)
    ensures Within(SlotsUnder(t), ReservedUnder(t))
    decreases t
  {
    match t
    case Struct(fields) => SlotsReservedAll(fields);
    case List(child) => SlotsReserved(child);
    case Map(entries, _) =>
      if entries.dataType.Struct? {
        SlotsReservedAll(entries.dataType.fields);
        assert ReservedUnder(entries.dataType) == ReservedInAll(entries.dataType.fields);
        assert ReservedUnder(entries.dataType) <= ReservedIn(entries);
      }
    case _ =>
  }

  lemma {:induction false} SlotsReservedAll(fields: seq<Field>)
    requires PlainEntriesAll(fields)
    ensures Within(SlotsOfAll(fields), ReservedInAll(fields))
    decreases fields
  {
    if fields != [] {
      SlotsReserved(fields[0]);
      SlotsReservedAll(fields[1..]);
    }
  }

  /**
   Numbering a schema: names, nullability, nesting and other metadata are untouched; ids
   present are kept; fresh ids strictly increase above the starting index and avoid every
   reserved id; the index ends at or above every id visited.
   */
  lemma NumberingSound(fields: seq<Field>, index: I32)
    requires NewFieldsWithIds(fields, index).0.Some?
    ensures
      var (result, after) := NewFieldsWithIds(fields, index);
      var before, ids := SlotsOfAll(fields), SlotsOfAll(result.value);
      && ShapeOfAll(result.value) == ShapeOfAll(fields)
      && |ids| == |before|
      && (forall k :: 0 <= k < |ids| ==> ids[k].Some? && ids[k].value <= after.index)
      && (forall k :: 0 <= k < |ids| && before[k].Some? ==> ids[k] == before[k])
      && (forall k :: 0 <= k < |ids| && before[k].None? ==> ids[k].value > index && ids[k].value !in ReservedInAll(fields))
      && (forall j, k :: 0 <= j < k < |ids| && before[j].None? && before[k].None? ==> ids[j].value < ids[k].value)
      && index <= after.index
  {
    AssignFieldsTracks(fields, Alloc(index, ReservedInAll(fields)));
    FillSound(SlotsOfAll(fields), Alloc(index, ReservedInAll(fields)));
  }

  function Bare(name: string): Field {
    Field(name, DataType.Int32, true, map[])
  }

  lemma BareFirst(name: string, fields: seq<Field>, index: I32)
    ensures ReservedInAll([Bare(name)] + fields) == ReservedInAll(fields)
    ensures SlotsOfAll([Bare(name)] + fields) == [None] + SlotsOfAll(fields)
  {
    var bare := Bare(name);
    assert ([bare] + fields)[1..] == fields;
    assert ReservedUnder(bare.dataType) == {} && ReservedIn(bare) == {};
    assert SlotsUnder(bare.dataType) == [] && Slots(bare) == [None];
  }

  /**
   That condition is exact: a column added in front of the schema gets an id no other field
   has, whatever the index, if and only if every kept id is among the reserved ones; the
   least id of all is never given out.
   */
  lemma NewColumnUniqueIff(name: string, fields: seq<Field>)
    ensures
      Within(SlotsOfAll(fields), ReservedInAll(fields) + {I32_MIN}) <==>
      forall index: I32 ::
        var (id, after) := ResolveId(None, Alloc(index, ReservedInAll([Bare(name)] + fields)));
        id.Some? ==> id !in SlotsOfAll(fields)
  {
    BareFirst(name, fields, 0);
    var slots, reserved := SlotsOfAll(fields), ReservedInAll(fields);
    if k :| 0 <= k < |slots| && slots[k].Some? && slots[k].value !in reserved + {I32_MIN} {
      var index: I32 := slots[k].value - 1;
      assert ResolveId(None, Alloc(index, reserved)).0 == slots[k];
    } else {
      assert Within(slots, reserved + {I32_MIN});
    }
  }

  /** A schema the condition shuts out: a map whose entries are marked as a variant. */
  lemma VariantEntriesCollide()
    ensures
      var key := Field("key", DataType.Int32, false, map[FIELD_ID_KEY := SignedDecimal(1)]);
      var entries := Field("entries", Struct([key]), false, map[EXTENSION_KEY := VARIANT_EXTENSION]);
      var fields := [Bare("a"), Field("m", Map(entries, false), true, map[FIELD_ID_KEY := SignedDecimal(2)])];
      var (result, _) := NewFieldsWithIds(fields, 0);
      result.Some? && SlotsOfAll(result.value) == [Some(1), Some(2), Some(1)]
  {
    var key := Field("key", DataType.Int32, false, map[FIELD_ID_KEY := SignedDecimal(1)]);
    var entries := Field("entries", Struct([key]), false, map[EXTENSION_KEY := VARIANT_EXTENSION]);
    var m := Field("m", Map(entries, false), true, map[FIELD_ID_KEY := SignedDecimal(2)]);
    var fields := [Bare("a"), m];
    ParseOfSignedDecimal(1);
    ParseOfSignedDecimal(2);
    assert fields[1..] == [m];
    assert FieldId(key) == Some(1) && SlotsUnder(DataType.Int32) == [] && Slots(key) == [Some(1)];
    assert SlotsOfAll([key]) == [Some(1)];
    assert SlotsUnder(m.dataType) == [Some(1)] && FieldId(m) == Some(2) && !IsVariant(m);
    assert Slots(m) == [Some(2), Some(1)] && Slots(Bare("a")) == [None];
    assert IsVariant(entries) && FieldId(entries) == None && ReservedIn(entries) == {};
    assert ReservedUnder(m.dataType) == {} && ReservedIn(m) == {2} && ReservedIn(Bare("a")) == {};
    assert SlotsOfAll([m]) == [Some(2), Some(1)];
    assert SlotsOfAll(fields) == [None, Some(2), Some(1)];
    assert ReservedInAll([m]) == {2};
    var s := Alloc(0, ReservedInAll(fields));
    AssignFieldsTracks(fields, s);
    assert NextFree(1, {2}) == Some(1);
    assert Fill([], Alloc(2, {1, 2})).0 == Some([]);
    assert Fill([Some(1)], Alloc(2, {1, 2})).0 == Some([Some(1)]);
    assert [Some(2), Some(1)][1..] == [Some(1)];
    assert Fill([Some(2), Some(1)], Alloc(1, {1, 2})).0 == Some([Some(2), Some(1)]);
    assert [None, Some(2), Some(1)][1..] == [Some(2), Some(1)];
  }

  /** Numbering fails only when no id above the index it reached is free. */
  lemma NumberingFails(fields: seq<Field>, index: I32)
    requires NewFieldsWithIds(fields, index).0.None?
    ensures None in SlotsOfAll(fields)
    ensures
      var after := NewFieldsWithIds(fields, index).1;
      forall c: I32 :: after.index < c ==> c in after.reserved
  {
    AssignFieldsTracks(fields, Alloc(index, ReservedInAll(fields)));
    FillFails(SlotsOfAll(fields), Alloc(index, ReservedInAll(fields)));
  }

  /** It succeeds whenever there is room above every id in use. */
  lemma NumberingSucceeds(fields: seq<Field>, index: I32, top: int)
    requires index <= top && (forall id :: id in ReservedInAll(fields) ==> id <= top)
    requires forall k :: 0 <= k < |SlotsOfAll(fields)| && SlotsOfAll(fields)[k].Some? ==> SlotsOfAll(fields)[k].value <= top
    requires top + Unnumbered(SlotsOfAll(fields)) <= I32_MAX
    ensures NewFieldsWithIds(fields, index).0.Some?
  {
    AssignFieldsTracks(fields, Alloc(index, ReservedInAll(fields)));
    FillSucceeds(SlotsOfAll(fields), Alloc(index, ReservedInAll(fields)), top);
  }

  // Exactly when numbering succeeds.

  function Above(index: int, reserved: set<I32>): set<I32> {
    set id | id in reserved && id > index
  }

  /** How many ids above `index` are not reserved. */
  function FreeAbove(index: int, reserved: set<I32>): int {
    I32_MAX - index - |Above(index, reserved)|
  }

  lemma FreeAboveStep(index: int, reserved: set<I32>)
    requires I32_MIN <= index < I32_MAX
    ensures FreeAbove(index, reserved) == FreeAbove(index + 1, reserved) + (if index + 1 in reserved then 0 else 1)
  {
    if index + 1 in reserved {
      assert Above(index, reserved) == Above(index + 1, reserved) + {index + 1};
    } else {
      assert Above(index, reserved) == Above(index + 1, reserved);
    }
  }

  /** Going up never frees ids, and at the top none is left. */
  lemma {:induction false} FreeAboveDecreases(index: int, higher: int, reserved: set<I32>)
    requires I32_MIN <= index <= higher <= I32_MAX
    ensures 0 <= FreeAbove(higher, reserved) <= FreeAbove(index, reserved)
    decreases I32_MAX - index
  {
    if index == I32_MAX {
      assert Above(index, reserved) == {};
    } else {
      FreeAboveStep(index, reserved);
      FreeAboveDecreases(index + 1, if higher == index then index + 1 else higher, reserved);
    }
  }

  lemma FreeAboveTaken(index: int, id: I32, reserved: set<I32>)
    requires id !in reserved
    ensures FreeAbove(index, reserved + {id}) == FreeAbove(index, reserved) - (if id > index then 1 else 0)
  {
    if id > index {
      assert Above(index, reserved + {id}) == Above(index, reserved) + {id};
    } else {
      assert Above(index, reserved + {id}) == Above(index, reserved);
    }
  }

  /** The search finds an id exactly when one is free, and skips none. */
  lemma {:induction false} NextFreeCounts(candidate: int, reserved: set<I32>)
    requires I32_MIN < candidate <= I32_MAX + 1
    ensures
      match NextFree(candidate, reserved)
      case None => FreeAbove(candidate - 1, reserved) == 0
      case Some(id) => FreeAbove(candidate - 1, reserved) == FreeAbove(id, reserved) + 1
    decreases I32_MAX - candidate
  {
    if candidate > I32_MAX {
      assert Above(I32_MAX, reserved) == {};
    } else {
      FreeAboveStep(candidate - 1, reserved);
      if candidate in reserved { NextFreeCounts(candidate + 1, reserved); }
    }
  }

  /** The fields still to be numbered fit above the index, and above every id they come after. */
  predicate Room(slots: seq<Option<I32>>, index: I32, reserved: set<I32>) {
    && Unnumbered(slots) <= FreeAbove(index, reserved)
    && forall j :: 0 <= j < |slots| && slots[j].Some? ==> Unnumbered(slots[j + 1..]) <= FreeAbove(slots[j].value, reserved)
  }

  lemma {:induction false} UnnumberedSuffix(slots: seq<Option<I32>>, j: nat)
    requires j <= |slots|
    ensures Unnumbered(slots[j..]) <= Unnumbered(slots)
  {
    if j == 0 {
      assert slots[0..] == slots;
    } else {
      UnnumberedSuffix(slots[1..], j - 1);
      assert slots[1..][j - 1..] == slots[j..];
    }
  }

  /** Room for a list is room for its tail, and for all of it above the index and its own first id. */
  lemma RoomTail(slots: seq<Option<I32>>, index: I32, reserved: set<I32>)
    requires slots != []
    ensures Room(slots, index, reserved) <==>
      && Unnumbered(slots) <= FreeAbove(index, reserved)
      && (slots[0].Some? ==> Unnumbered(slots[1..]) <= FreeAbove(slots[0].value, reserved))
      && forall j :: 0 <= j < |slots[1..]| && slots[1..][j].Some? ==>
           Unnumbered(slots[1..][j + 1..]) <= FreeAbove(slots[1..][j].value, reserved)
  {
    var rest := slots[1..];
    forall j | 0 <= j < |rest| ensures rest[j] == slots[j + 1] && rest[j + 1..] == slots[j + 2..] {}
    if Room(slots, index, reserved) {
      forall j | 0 <= j < |rest| && rest[j].Some?
        ensures Unnumbered(rest[j + 1..]) <= FreeAbove(rest[j].value, reserved)
      {
        assert slots[j + 1].Some?;
      }
    }
    if Unnumbered(slots) <= FreeAbove(index, reserved)
       && (slots[0].Some? ==> Unnumbered(rest) <= FreeAbove(slots[0].value, reserved))
       && forall j :: 0 <= j < |rest| && rest[j].Some? ==> Unnumbered(rest[j + 1..]) <= FreeAbove(rest[j].value, reserved) {
      forall j | 0 <= j < |slots| && slots[j].Some?
        ensures Unnumbered(slots[j + 1..]) <= FreeAbove(slots[j].value, reserved)
      {
        if j > 0 { assert rest[j - 1].Some?; }
      }
    }
  }

  lemma RoomKept(slots: seq<Option<I32>>, s: Alloc, id: I32)
    requires slots != [] && slots[0] == Some(id)
    ensures Room(slots, s.index, s.reserved) <==> Room(slots[1..], if id > s.index then id else s.index, s.reserved)
  {
    RoomTail(slots, s.index, s.reserved);
    if id > s.index {
      FreeAboveDecreases(s.index, id, s.reserved);
    } else {
      FreeAboveDecreases(id, s.index, s.reserved);
    }
  }

  lemma RoomFresh(slots: seq<Option<I32>>, s: Alloc, id: I32)
    requires slots != [] && slots[0].None?
    requires ResolveId(None, s).0 == Some(id)
    ensures Room(slots, s.index, s.reserved) <==> Room(slots[1..], id, s.reserved + {id})
  {
    var rest := slots[1..];
    RoomTail(slots, s.index, s.reserved);
    NextFreeCounts(s.index + 1, s.reserved);
    FreeAboveTaken(id, id, s.reserved);
    if Unnumbered(slots) <= FreeAbove(s.index, s.reserved) {
      forall j | 0 <= j < |rest| && rest[j].Some?
        ensures Unnumbered(rest[j + 1..]) <= FreeAbove(rest[j].value, s.reserved)
          <==> Unnumbered(rest[j + 1..]) <= FreeAbove(rest[j].value, s.reserved + {id})
      {
        FreeAboveTaken(rest[j].value, id, s.reserved);
        UnnumberedSuffix(rest, j + 1);
        if rest[j].value < id {
          // Both hold: the id just taken was itself free above this one.
          FreeAboveStep(id - 1, s.reserved);
          FreeAboveDecreases(rest[j].value, id - 1, s.reserved);
        }
      }
    }
  }

  lemma {:induction false} FillIff(slots: seq<Option<I32>>, s: Alloc)
    ensures Fill(slots, s).0.Some? <==> Room(slots, s.index, s.reserved)
    decreases |slots|
  {
    if slots == [] {
      FreeAboveDecreases(s.index, s.index, s.reserved);
    } else {
      var (id, t) := ResolveId(slots[0], s);
      match slots[0]
      case Some(existing) =>
        RoomKept(slots, s, existing);
        FillIff(slots[1..], t);
      case None =>
        if id.Some? {
          RoomFresh(slots, s, id.value);
          FillIff(slots[1..], t);
        } else {
          NextFreeCounts(s.index + 1, s.reserved);
        }
    }
  }

  /**
   Numbering succeeds if and only if the fields without an id fit into the free ids above
   the starting index and, counted from each id present, those after it fit above that id.
   */
  lemma NumberingSucceedsIff(fields: seq<Field>, index: I32)
    ensures NewFieldsWithIds(fields, index).0.Some? <==> Room(SlotsOfAll(fields), index, ReservedInAll(fields))
  {
    AssignFieldsTracks(fields, Alloc(index, ReservedInAll(fields)));
    FillIff(SlotsOfAll(fields), Alloc(index, ReservedInAll(fields)));
  }

  /** The largest id visited before a field without one exhausts the ids, however many are free below it. */
  lemma LargestIdExhausts(fields: seq<Field>, index: I32, j: nat, k: nat)
    requires j < k < |SlotsOfAll(fields)|
    requires SlotsOfAll(fields)[j] == Some(I32_MAX) && SlotsOfAll(fields)[k] == None
    ensures NewFieldsWithIds(fields, index).0.None?
  {
    var slots := SlotsOfAll(fields);
    NumberingSucceedsIff(fields, index);
    assert Above(I32_MAX, ReservedInAll(fields)) == {};
    assert slots[j + 1..][k - j - 1] == None;
    UnnumberedSuffix(slots[j + 1..], k - j - 1);
  }

  // Exactly which ids are handed out, and when one collides.

  /** `id` goes to some field without one, before numbering ends or fails. */
  predicate HandedOut(slots: seq<Option<I32>>, s: Alloc, id: I32)
    decreases |slots|
  {
    slots != [] &&
    match ResolveId(slots[0], s)
    case (None, _) => false
    case (Some(own), t) => (slots[0].None? && own == id) || HandedOut(slots[1..], t, id)
  }

  /** The slots before the first whose id is `id` or more. */
  function Below(slots: seq<Option<I32>>, id: I32): (prefix: seq<Option<I32>>)
    ensures prefix <= slots
    ensures forall i :: 0 <= i < |prefix| && prefix[i].Some? ==> prefix[i].value < id
    ensures |prefix| < |slots| ==> slots[|prefix|].Some? && slots[|prefix|].value >= id
  {
    if slots == [] || (slots[0].Some? && slots[0].value >= id) then [] else [slots[0]] + Below(slots[1..], id)
  }

  /** How many ids above `index` and up to `id` are not reserved. */
  function FreeUpTo(index: int, id: I32, reserved: set<I32>): int {
    FreeAbove(index, reserved) - FreeAbove(id, reserved)
  }

  /** Enough fields without an id come, from the start or from some id present, to count up to `id`. */
  predicate Reaches(prefix: seq<Option<I32>>, index: I32, id: I32, reserved: set<I32>) {
    || Unnumbered(prefix) >= FreeUpTo(index, id, reserved)
    || exists q :: 0 <= q < |prefix| && prefix[q].Some? && Unnumbered(prefix[q + 1..]) >= FreeUpTo(prefix[q].value, id, reserved)
  }

  /** When numbering hands out `id`, read off the slots, the starting index and the reserved ids. */
  predicate HandsOut(slots: seq<Option<I32>>, index: I32, reserved: set<I32>, id: I32) {
    id !in reserved && index < id && Reaches(Below(slots, id), index, id, reserved)
  }

  lemma FreeUpToPositive(index: I32, id: I32, reserved: set<I32>)
    requires id !in reserved && index < id
    ensures FreeUpTo(index, id, reserved) >= 1
  {
    FreeAboveStep(id - 1, reserved);
    FreeAboveDecreases(index, id - 1, reserved);
  }

  lemma ReachesTail(slots: seq<Option<I32>>, index: I32, id: I32, reserved: set<I32>)
    requires slots != []
    ensures Reaches(slots, index, id, reserved) <==>
      || Unnumbered(slots) >= FreeUpTo(index, id, reserved)
      || (slots[0].Some? && Unnumbered(slots[1..]) >= FreeUpTo(slots[0].value, id, reserved))
      || exists q :: 0 <= q < |slots[1..]| && slots[1..][q].Some?
           && Unnumbered(slots[1..][q + 1..]) >= FreeUpTo(slots[1..][q].value, id, reserved)
  {
    var rest := slots[1..];
    if q :| 0 <= q < |rest| && rest[q].Some? && Unnumbered(rest[q + 1..]) >= FreeUpTo(rest[q].value, id, reserved) {
      assert slots[q + 1] == rest[q] && slots[q + 2..] == rest[q + 1..];
    }
    if q :| 0 <= q < |slots| && slots[q].Some? && Unnumbered(slots[q + 1..]) >= FreeUpTo(slots[q].value, id, reserved) {
      if q > 0 {
        assert rest[q - 1] == slots[q] && rest[q - 1 + 1..] == slots[q + 1..];
      }
    }
  }

  lemma ReachesKept(prefix: seq<Option<I32>>, index: I32, own: I32, id: I32, reserved: set<I32>)
    requires prefix != [] && prefix[0] == Some(own)
    ensures Reaches(prefix, index, id, reserved) <==> Reaches(prefix[1..], if own > index then own else index, id, reserved)
  {
    ReachesTail(prefix, index, id, reserved);
    if own > index { FreeAboveDecreases(index, own, reserved); } else { FreeAboveDecreases(own, index, reserved); }
  }

  lemma ReachesFresh(prefix: seq<Option<I32>>, s: Alloc, own: I32, id: I32)
    requires prefix != [] && prefix[0].None?
    requires ResolveId(None, s).0 == Some(own) && own < id
    ensures Reaches(prefix, s.index, id, s.reserved) <==> Reaches(prefix[1..], own, id, s.reserved + {own})
  {
    var rest := prefix[1..];
    ReachesTail(prefix, s.index, id, s.reserved);
    NextFreeCounts(s.index + 1, s.reserved);
    FreeAboveTaken(own, own, s.reserved);
    FreeAboveTaken(id, own, s.reserved);
    forall q | 0 <= q < |rest| && rest[q].Some?
      ensures rest[q].value >= own ==> FreeUpTo(rest[q].value, id, s.reserved + {own}) == FreeUpTo(rest[q].value, id, s.reserved)
      ensures rest[q].value < own ==>
        && FreeUpTo(rest[q].value, id, s.reserved) > FreeUpTo(own, id, s.reserved)
        && FreeUpTo(rest[q].value, id, s.reserved + {own}) >= FreeUpTo(own, id, s.reserved)
      ensures Unnumbered(rest[q + 1..]) <= Unnumbered(rest)
    {
      UnnumberedSuffix(rest, q + 1);
      FreeAboveTaken(rest[q].value, own, s.reserved);
      if rest[q].value < own {
        FreeAboveStep(own - 1, s.reserved);
        FreeAboveDecreases(rest[q].value, own - 1, s.reserved);
      }
    }
  }

  /** Numbering hands out exactly those ids, whether it succeeds or not. */
  lemma {:induction false} HandedOutIff(slots: seq<Option<I32>>, s: Alloc, id: I32)
    ensures HandedOut(slots, s, id) <==> HandsOut(slots, s.index, s.reserved, id)
    decreases |slots|
  {
    if id !in s.reserved && s.index < id {
      FreeUpToPositive(s.index, id, s.reserved);
    }
    if slots != [] {
      var (own, t) := ResolveId(slots[0], s);
      match slots[0]
      case Some(existing) =>
        HandedOutIff(slots[1..], t, id);
        if existing < id {
          assert Below(slots, id)[1..] == Below(slots[1..], id);
          ReachesKept(Below(slots, id), s.index, existing, id, s.reserved);
        }
      case None =>
        assert Below(slots, id)[1..] == Below(slots[1..], id);
        NextFreeCounts(s.index + 1, s.reserved);
        if own.Some? {
          HandedOutIff(slots[1..], t, id);
          if own.value < id { ReachesFresh(Below(slots, id), s, own.value, id); }
        }
    }
  }

  lemma {:induction false} HandedOutIsFresh(slots: seq<Option<I32>>, s: Alloc, id: I32)
    requires Fill(slots, s).0.Some?
    ensures
      var ids := Fill(slots, s).0.value;
      |ids| == |slots| && (HandedOut(slots, s, id) <==> exists k :: 0 <= k < |slots| && slots[k].None? && ids[k] == Some(id))
    decreases |slots|
  {
    if slots != [] {
      var (own, t) := ResolveId(slots[0], s);
      HandedOutIsFresh(slots[1..], t, id);
      var ids, rest := Fill(slots, s).0.value, Fill(slots[1..], t).0.value;
      assert forall k :: 0 <= k < |rest| ==> slots[1..][k] == slots[k + 1] && rest[k] == ids[k + 1];
      if k :| 0 <= k < |slots| && slots[k].None? && ids[k] == Some(id) {
        if k > 0 { assert slots[1..][k - 1].None? && rest[k - 1] == Some(id); }
      }
    }
  }

  /** A fresh id of the result is also the id some field already had. */
  predicate Collides(before: seq<Option<I32>>, ids: seq<Option<I32>>)
    requires |ids| == |before|
  {
    exists j, k :: 0 <= j < |ids| && 0 <= k < |ids| && before[j].Some? && before[k].None? && ids[j] == ids[k]
  }

  /** Some id present in the schema is one that numbering from this index hands out. */
  predicate HandsOutPresent(slots: seq<Option<I32>>, index: I32, reserved: set<I32>) {
    exists j :: 0 <= j < |slots| && slots[j].Some? && HandsOut(slots, index, reserved, slots[j].value)
  }

  /**
   Index by index: numbering succeeds with a fresh id some other field has if and only if
   there is room and an id present is among those handed out.
   */
  lemma CollidesIff(fields: seq<Field>, index: I32)
    ensures
      var slots, reserved := SlotsOfAll(fields), ReservedInAll(fields);
      var result := NewFieldsWithIds(fields, index).0;
      && (result.Some? ==> |SlotsOfAll(result.value)| == |slots|)
      && (result.Some? && Collides(slots, SlotsOfAll(result.value)) <==>
            Room(slots, index, reserved) && HandsOutPresent(slots, index, reserved))
  {
    var slots, s := SlotsOfAll(fields), Alloc(index, ReservedInAll(fields));
    NumberingSucceedsIff(fields, index);
    AssignFieldsTracks(fields, s);
    if NewFieldsWithIds(fields, index).0.Some? {
      var ids := SlotsOfAll(NewFieldsWithIds(fields, index).0.value);
      FillSound(slots, s);
      forall j | 0 <= j < |slots| && slots[j].Some?
        ensures HandsOut(slots, index, s.reserved, slots[j].value) <==> exists k :: 0 <= k < |slots| && slots[k].None? && ids[k] == slots[j]
      {
        HandedOutIff(slots, s, slots[j].value);
        HandedOutIsFresh(slots, s, slots[j].value);
      }
      if Collides(slots, ids) {
        var j, k :| 0 <= j < |ids| && 0 <= k < |ids| && slots[j].Some? && slots[k].None? && ids[j] == ids[k];
        assert ids[k] == slots[j];
      }
      if HandsOutPresent(slots, index, s.reserved) {
        var j :| 0 <= j < |slots| && slots[j].Some? && HandsOut(slots, index, s.reserved, slots[j].value);
        var k :| 0 <= k < |slots| && slots[k].None? && ids[k] == slots[j];
        assert ids[j] == ids[k];
      }
    }
  }

  /**
   An id that was not reserved stands after a field without one, and every field before
   that one has a smaller id.
   */
  predicate Exposed(slots: seq<Option<I32>>, reserved: set<I32>) {
    exists k, j :: 0 <= k < j < |slots| && ExposedAt(slots, reserved, k, j)
  }

  predicate ExposedAt(slots: seq<Option<I32>>, reserved: set<I32>, k: nat, j: nat)
    requires k < j < |slots|
  {
    && slots[k].None? && slots[j].Some? && slots[j].value !in reserved && slots[j].value > I32_MIN
    && forall i :: 0 <= i < k ==> slots[i].Some? && slots[i].value < slots[j].value
  }

  lemma {:induction false} BelowHoldsNone(slots: seq<Option<I32>>, id: I32, k: nat)
    requires k < |slots| && slots[k].None? && forall i :: 0 <= i < k ==> slots[i].Some? && slots[i].value < id
    ensures Unnumbered(Below(slots, id)) >= 1
    decreases k
  {
    if k > 0 {
      BelowHoldsNone(slots[1..], id, k - 1);
      assert Below(slots, id)[1..] == Below(slots[1..], id);
    }
  }

  /** The first field without an id, if there is one. */
  lemma {:induction false} FirstNone(slots: seq<Option<I32>>) returns (k: nat)
    requires Unnumbered(slots) >= 1
    ensures k < |slots| && slots[k].None? && forall i :: 0 <= i < k ==> slots[i].Some?
    decreases |slots|
  {
    if slots[0].None? {
      k := 0;
    } else {
      var rest := FirstNone(slots[1..]);
      k := rest + 1;
    }
  }

  lemma HandsOutExposes(slots: seq<Option<I32>>, index: I32, reserved: set<I32>, j: nat)
    requires j < |slots| && slots[j].Some? && HandsOut(slots, index, reserved, slots[j].value)
    ensures Exposed(slots, reserved)
  {
    var id := slots[j].value;
    var prefix := Below(slots, id);
    FreeUpToPositive(index, id, reserved);
    if Unnumbered(prefix) < FreeUpTo(index, id, reserved) {
      var q :| 0 <= q < |prefix| && prefix[q].Some? && Unnumbered(prefix[q + 1..]) >= FreeUpTo(prefix[q].value, id, reserved);
      FreeUpToPositive(prefix[q].value, id, reserved);
      UnnumberedSuffix(prefix, q + 1);
    }
    var k := FirstNone(prefix);
    assert j >= |prefix|;
    assert ExposedAt(slots, reserved, k, j);
  }

  /** Over all starting indexes: an id present is handed out from some index if and only if the schema is exposed. */
  lemma ExposedIff(fields: seq<Field>)
    ensures
      var slots, reserved := SlotsOfAll(fields), ReservedInAll(fields);
      Exposed(slots, reserved) <==>
      exists index: I32, j :: 0 <= j < |slots| && slots[j].Some? && HandedOut(slots, Alloc(index, reserved), slots[j].value)
  {
    var slots, reserved := SlotsOfAll(fields), ReservedInAll(fields);
    if Exposed(slots, reserved) {
      var k, j :| 0 <= k < j < |slots| && ExposedAt(slots, reserved, k, j);
      var id := slots[j].value;
      var index: I32 := id - 1;
      BelowHoldsNone(slots, id, k);
      FreeAboveStep(index, reserved);
      HandedOutIff(slots, Alloc(index, reserved), id);
    }
    if index: I32, j :| 0 <= j < |slots| && slots[j].Some? && HandedOut(slots, Alloc(index, reserved), slots[j].value) {
      HandedOutIff(slots, Alloc(index, reserved), slots[j].value);
      HandsOutExposes(slots, index, reserved, j);
    }
  }

  /** On a schema that is not exposed a fresh id differs from every other id of the result, earlier or later, fresh or kept. */
  lemma FreshIdsUnique(fields: seq<Field>, index: I32, j: nat, k: nat)
    requires NewFieldsWithIds(fields, index).0.Some?
    requires !Exposed(SlotsOfAll(fields), ReservedInAll(fields))
    requires j < |SlotsOfAll(fields)| && k < |SlotsOfAll(fields)| && j != k
    requires SlotsOfAll(fields)[k].None?
    ensures
      var ids := SlotsOfAll(NewFieldsWithIds(fields, index).0.value);
      j < |ids| && k < |ids| && ids[j] != ids[k]
  {
    NumberingSound(fields, index);
    CollidesIff(fields, index);
    var slots, reserved := SlotsOfAll(fields), ReservedInAll(fields);
    if HandsOutPresent(slots, index, reserved) {
      var i :| 0 <= i < |slots| && slots[i].Some? && HandsOut(slots, index, reserved, slots[i].value);
      HandsOutExposes(slots, index, reserved, i);
    }
    var ids := SlotsOfAll(NewFieldsWithIds(fields, index).0.value);
    assert !Collides(slots, ids);
  }

  /** Schemas whose map entries are not marked as variants are never exposed. */
  lemma PlainNotExposed(fields: seq<Field>)
    requires PlainEntriesAll(fields)
    ensures !Exposed(SlotsOfAll(fields), ReservedInAll(fields))
  {
    SlotsReservedAll(fields);
  }

  // A second pass.

  lemma SameId(f: Field)
    requires FieldId(f).Some? && f.metadata[FIELD_ID_KEY] == SignedDecimal(FieldId(f).value)
    ensures WithId(f, f.dataType, FieldId(f).value) == f
  {
    assert f.metadata[FIELD_ID_KEY := SignedDecimal(FieldId(f).value)] == f.metadata;
  }

  lemma {:induction false} NumberedStays(f: Field, s: Alloc)
    requires Numbered(f)
    ensures AssignField(f, s).0 == Some(f)
    decreases f
  {
    SameId(f);
    if !IsVariant(f) {
      NumberedStaysUnder(f.dataType, ResolveId(FieldId(f), s).1);
    }
  }

  lemma {:induction false} NumberedStaysUnder(t: DataType, s: Alloc)
    requires NumberedUnder(t)
    ensures AssignType(t, s).0 == Some(t)
    decreases t
  {
    match t
    case Struct(fields) => NumberedStaysAll(fields, s);
    case List(child) => NumberedStays(child, s);
    case Map(entries, _) =>
      if entries.dataType.Struct? {
        NumberedStaysAll(entries.dataType.fields, s);
      }
    case _ =>
  }

  lemma {:induction false} NumberedStaysAll(fields: seq<Field>, s: Alloc)
    requires NumberedAll(fields)
    ensures AssignFields(fields, s).0 == Some(fields)
    decreases fields
  {
    if fields != [] {
      NumberedStays(fields[0], s);
      NumberedStaysAll(fields[1..], AssignField(fields[0], s).1);
      assert [fields[0]] + fields[1..] == fields;
    }
  }

  /** Numbering what has been numbered changes nothing, from any index. */
  lemma SecondPassIdentity(fields: seq<Field>, index: I32, again: I32)
    requires NewFieldsWithIds(fields, index).0.Some?
    ensures
      var result := NewFieldsWithIds(fields, index).0.value;
      NewFieldsWithIds(result, again).0 == Some(result)
  {
    AssignFieldsTracks(fields, Alloc(index, ReservedInAll(fields)));
    var result := NewFieldsWithIds(fields, index).0.value;
    NumberedStaysAll(result, Alloc(again, ReservedInAll(result)));
  }

  // The traversal itself.

  class FieldNumbering {
    var index: I32
    var reserved: set<I32>

    constructor (index: I32)
      ensures this.index == index && reserved == {}
    {
      this.index, reserved := index, {};
    }

    function State(): Alloc
      reads this
    {
      Alloc(index, reserved)
    }

    method Reserve(f: Field)
      modifies this`reserved
      ensures reserved == old(reserved) + ReservedIn(f)
      decreases f, 0
    {
      match FieldId(f) {
        case Some(id) => reserved := reserved + {id};
        case None =>
      }
      if IsVariant(f) {
        return;
      }
      match f.dataType {
        case Struct(fields) => ReserveAll(fields);
        case List(child) => Reserve(child);
        case LargeList(child) => Reserve(child);
        case ListView(child) => Reserve(child);
        case LargeListView(child) => Reserve(child);
        case FixedSizeList(child, _) => Reserve(child);
        case Map(entries, _) => Reserve(entries);
        case _ =>
      }
    }

    method ReserveAll(fields: seq<Field>)
      modifies this`reserved
      ensures reserved == old(reserved) + ReservedInAll(fields)
      decreases fields, 1
    {
      if fields != [] {
        Reserve(fields[0]);
        ReserveAll(fields[1..]);
      }
    }

    method Resolve(f: Field) returns (id: Option<I32>)
      modifies this
      ensures (id, State()) == ResolveId(FieldId(f), old(State()))
    {
      match FieldId(f) {
        case Some(existing) =>
          index := if existing > index then existing else index;
          id := Some(existing);
        case None =>
          if index == I32_MAX {
            return None;
          }
          var candidate: I32 := index + 1;
          while candidate in reserved
            invariant candidate > old(index) && State() == old(State())
            invariant NextFree(old(index) + 1, reserved) == NextFree(candidate, reserved)
            decreases I32_MAX - candidate
          {
            if candidate == I32_MAX {
              return None;
            }
            candidate := candidate + 1;
          }
          index := candidate;
          reserved := reserved + {candidate};
          id := Some(candidate);
      }
    }

    method Assign(f: Field) returns (result: Option<Field>)
      modifies this
      ensures (result, State()) == AssignField(f, old(State()))
      decreases f, 0
    {
      var id := Resolve(f);
      if id.None? {
        return None;
      }
      if IsVariant(f) {
        return Some(WithId(f, f.dataType, id.value));
      }
      var dataType := f.dataType;
      match f.dataType {
        case Struct(fields) =>
          var children := AssignAll(fields);
          if children.None? { return None; }
          dataType := Struct(children.value);
        case List(child) =>
          var element := Assign(child);
          if element.None? { return None; }
          dataType := List(element.value);
        case Map(entries, sorted) =>
          if entries.dataType.Struct? {
            var children := AssignAll(entries.dataType.fields);
            if children.None? { return None; }
            dataType := Map(entries.(dataType := Struct(children.value)), sorted);
          }
        case _ =>
      }
      result := Some(WithId(f, dataType, id.value));
    }

    method AssignAll(fields: seq<Field>) returns (result: Option<seq<Field>>)
      modifies this
      ensures (result, State()) == AssignFields(fields, old(State()))
      decreases fields, 1
    {
      if fields == [] {
        return Some([]);
      }
      var first := Assign(fields[0]);
      if first.None? {
        return None;
      }
      var rest := AssignAll(fields[1..]);
      result := if rest.None? then None else Some([first.value] + rest.value);
    }

    method NumberFields(fields: seq<Field>) returns (result: Option<seq<Field>>)
      requires reserved == {}
      modifies this
      ensures (result, State()) == NewFieldsWithIds(fields, old(index))
    {
      ReserveAll(fields);
      assert reserved == ReservedInAll(fields);
      result := AssignAll(fields);
    }
  }
}
