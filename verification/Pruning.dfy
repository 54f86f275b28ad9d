/**
 Skipping manifests and data files: the statistics the scan exposes for each, and the
 guarantee that nothing holding a matching row is skipped.
 */
module Pruning {
  import opened Scalars
  import opened Expressions
  import opened HourRing
  import opened Projection

  datatype Content = Data | Deletes

  /** Summary of one partition field over all files of a manifest. */
  datatype FieldSummary = FieldSummary(containsNull: bool, lower: Option<Scalar>, upper: Option<Scalar>)

  datatype ManifestEntry = ManifestEntry(
    path: string, specId: int, content: Content,
    addedRows: Option<I64>, existingRows: Option<I64>,
    partitions: Option<seq<FieldSummary>>)

  datatype DataFile = DataFile(
    content: Content, partition: map<string, Option<Scalar>>, recordCount: I64,
    lowerBounds: map<int, Scalar>, upperBounds: map<int, Scalar>, nullCounts: map<int, I64>)

  datatype SchemaField = SchemaField(name: string, id: int, fieldType: SourceType)

  /** Type of a partition field's values; a void field has none. */
  function PartitionType(f: BoundField): Option<SourceType> {
    match f.transform
    case Identity => Some(f.sourceType)
    case Truncate(_) => Some(f.sourceType)
    case Void => None
    case _ => Some(IntType)
  }

  /** Reading a stored value as the column's type: the same type, or one it converts to. */
  function CastTo(v: Scalar, t: SourceType): Option<Scalar> {
    if v.Null? then None
    else if t.OtherType? || LiteralMatchesSource(v, t) then Some(v)
    else
      match v
      case Int32(i) => if t.LongType? then Some(Int64(i)) else if t.DateType? then Some(Date32(i)) else None
      case Int64(i) =>
        if t.TimeType? then Some(Time64(i))
        else if t.TimestampType? then Some(TimestampMicros(i, NoZone))
        else if t.TimestamptzType? then Some(TimestampMicros(i, Utc))
        else if t.TimestampNsType? then Some(TimestampNanos(i, NoZone))
        else if t.TimestamptzNsType? then Some(TimestampNanos(i, Utc))
        else None
      case Date32(d) =>
        if t.TimestampType? && FitsI64(d * MICROS_IN_DAY) then Some(TimestampMicros(d * MICROS_IN_DAY, NoZone))
        else if t.TimestampNsType? && FitsI64(d * NANOS_IN_DAY) then Some(TimestampNanos(d * NANOS_IN_DAY, NoZone))
        else None
      case TimestampMicros(us, zone) =>
        if FitsI64(us * 1000) && ((zone.NoZone? && t.TimestampNsType?) || (zone.Utc? && t.TimestamptzNsType?))
        then Some(TimestampNanos(us * 1000, zone)) else None
      case TimestampNanos(ns, zone) =>
        if (zone.NoZone? && t.TimestampType?) || (zone.Utc? && t.TimestamptzType?) then Some(TimestampMicros(ns / 1000, zone))
        else if t.DateType? && !zone.OtherZone? then Some(Date32(ns / NANOS_IN_DAY))
        else None
      case _ => None
  }

  predicate SameType(a: Scalar, b: Scalar) {
    match a
    case Null => b.Null?
    case Boolean(_) => b.Boolean?
    case Int32(_) => b.Int32?
    case Int64(_) => b.Int64?
    case Date32(_) => b.Date32?
    case Time64(_) => b.Time64?
    case TimestampMicros(_, zone) => b.TimestampMicros? && b.zone == zone
    case TimestampNanos(_, zone) => b.TimestampNanos? && b.zone == zone
    case Utf8(_) => b.Utf8?
  }

  /** Values of one type keep their order when read as another. */
  lemma CastKeepsOrder(a: Scalar, b: Scalar, t: SourceType)
    requires SameType(a, b) && CastTo(a, t).Some? && CastTo(b, t).Some?
    requires Comparable(a, b) && Leq(a, b)
    ensures Comparable(CastTo(a, t).value, CastTo(b, t).value) && Leq(CastTo(a, t).value, CastTo(b, t).value)
  {
    if a.TimestampNanos? {
      DivMonotone(a.ns, b.ns, NANOS_IN_DAY);
      DivMonotone(a.ns, b.ns, 1000);
    }
  }

  function IndexByName(fields: seq<BoundField>, name: string): (index: Option<nat>)
    ensures index.Some? ==> index.value < |fields| && fields[index.value].name == name
    ensures index.None? ==> forall i :: 0 <= i < |fields| ==> fields[i].name != name
  {
    if fields == [] then None
    else if fields[0].name == name then Some(0)
    else
      match IndexByName(fields[1..], name)
      case None => None
      case Some(i) => assert fields[1..][i] == fields[i + 1]; Some(i + 1)
  }

  function CastBound(bound: Option<Scalar>, f: BoundField): Option<Scalar> {
    if bound.Some? && PartitionType(f).Some? then CastTo(bound.value, PartitionType(f).value) else None
  }

  function ManifestRows(m: ManifestEntry): Option<int> {
    if m.addedRows.Some? && m.existingRows.Some? && FitsI64(m.addedRows.value + m.existingRows.value)
    then Some(m.addedRows.value + m.existingRows.value) else None
  }

  function ManifestColumn(fields: seq<BoundField>, specId: int, m: ManifestEntry, name: string): ColumnStats {
    match IndexByName(fields, name)
    case None => UNKNOWN
    case Some(i) =>
      var compatible := m.specId == specId;
      var summary := if m.partitions.Some? && i < |m.partitions.value| then Some(m.partitions.value[i]) else None;
      var counted := compatible && m.content.Data?;
      ColumnStats(
        if compatible && summary.Some? then CastBound(summary.value.lower, fields[i]) else None,
        if compatible && summary.Some? then CastBound(summary.value.upper, fields[i]) else None,
        if counted && summary.Some? && !summary.value.containsNull then Some(0) else None,
        if counted then ManifestRows(m) else None)
  }

  function FieldNames(fields: seq<BoundField>): set<string> {
    set f | f in fields :: f.name
  }

  function ManifestStatistics(fields: seq<BoundField>, specId: int, m: ManifestEntry): Statistics {
    map name | name in FieldNames(fields) :: ManifestColumn(fields, specId, m, name)
  }

  function FileColumn(fields: seq<BoundField>, compatible: set<string>, path: string, file: DataFile, name: string): ColumnStats {
    match IndexByName(fields, name)
    case None => UNKNOWN
    case Some(i) =>
      var known := file.content.Data? && path in compatible && name in file.partition;
      var value := if known then CastBound(file.partition[name], fields[i]) else None;
      ColumnStats(value, value,
        if known then Some(if file.partition[name].Some? then 0 else file.recordCount) else None,
        Some(file.recordCount))
  }

  function FileStatistics(fields: seq<BoundField>, compatible: set<string>, path: string, file: DataFile): Statistics {
    map name | name in FieldNames(fields) :: FileColumn(fields, compatible, path, file, name)
  }

  function SchemaFieldByName(schema: seq<SchemaField>, name: string): (found: Option<SchemaField>)
    ensures found.Some? ==> found.value in schema && found.value.name == name
  {
    if schema == [] then None
    else if schema[0].name == name then Some(schema[0])
    else SchemaFieldByName(schema[1..], name)
  }

  /** Column bounds kept per data file, exposed under the column names of the current schema. */
  function ColumnBounds(schema: seq<SchemaField>, file: DataFile, name: string): ColumnStats {
    match SchemaFieldByName(schema, name)
    case None => UNKNOWN
    case Some(field) =>
      ColumnStats(
        if field.id in file.lowerBounds then CastTo(file.lowerBounds[field.id], field.fieldType) else None,
        if field.id in file.upperBounds then CastTo(file.upperBounds[field.id], field.fieldType) else None,
        if field.id in file.nullCounts then Some(file.nullCounts[field.id]) else None,
        Some(file.recordCount))
  }

  function BoundsStatistics(schema: seq<SchemaField>, file: DataFile): Statistics {
    map name | name in (set f | f in schema :: f.name) :: ColumnBounds(schema, file, name)
  }

  /** The projectable filters, joined by And; none when no filter can be projected. */
  function ProjectFilters(filters: seq<Expr>, fields: seq<BoundField>): Option<Expr> {
    if filters == [] then None
    else
      var head, tail := TransformPredicate(filters[0], fields), ProjectFilters(filters[1..], fields);
      if head.None? then tail
      else if tail.None? then head
      else Some(Binary(head.value, And, tail.value))
  }

  ghost predicate ManifestKept(cal: Calendar, filters: seq<Expr>, fields: seq<BoundField>, specId: int, m: ManifestEntry) {
    ProjectFilters(filters, fields).Some? ==>
      Kept(cal, ProjectFilters(filters, fields).value, ManifestStatistics(fields, specId, m))
  }

  ghost predicate FileKept(cal: Calendar, filters: seq<Expr>, fields: seq<BoundField>, compatible: set<string>,
                           schema: seq<SchemaField>, path: string, file: DataFile) {
    && (ProjectFilters(filters, fields).Some? ==>
          Kept(cal, ProjectFilters(filters, fields).value, FileStatistics(fields, compatible, path, file)))
    && (forall e :: e in filters ==> Kept(cal, e, BoundsStatistics(schema, file)))
  }

  // ---- What a truthful writer puts in the statistics ----

  /** The stored bounds are of the stored value's type, and on either side of it. */
  predicate StoredWithin(lower: Option<Scalar>, upper: Option<Scalar>, stored: Scalar) {
    && (lower.Some? ==> SameType(lower.value, stored) && Comparable(lower.value, stored) && Leq(lower.value, stored))
    && (upper.Some? ==> SameType(stored, upper.value) && Comparable(stored, upper.value) && Leq(stored, upper.value))
  }

  /** The bounds are true of the value that is now read as `x`, in the type it was written with. */
  ghost predicate BoundsTrueOf(lower: Option<Scalar>, upper: Option<Scalar>, t: SourceType, x: Scalar) {
    lower.Some? || upper.Some? ==> exists stored :: CastTo(stored, t) == Some(x) && StoredWithin(lower, upper, stored)
  }

  /** The manifest's summaries and counts are true of one of its rows' partition values. */
  ghost predicate ManifestDescribes(m: ManifestEntry, fields: seq<BoundField>, tuple: Row) {
    && (ManifestRows(m).Some? ==> ManifestRows(m).value > 0)
    && (m.partitions.Some? ==>
          forall i :: 0 <= i < |fields| && i < |m.partitions.value| ==>
            var s, x := m.partitions.value[i], Lookup(tuple, fields[i].name);
            if x.Null? then s.containsNull
            else PartitionType(fields[i]).Some? ==> BoundsTrueOf(s.lower, s.upper, PartitionType(fields[i]).value, x))
  }

  /** The file's partition tuple is `tuple`, and it holds at least one row. */
  ghost predicate FileDescribes(file: DataFile, fields: seq<BoundField>, tuple: Row) {
    && file.recordCount > 0
    && forall i :: 0 <= i < |fields| && fields[i].name in file.partition ==>
         var stored, x := file.partition[fields[i].name], Lookup(tuple, fields[i].name);
         && (stored.None? <==> x.Null?)
         && (CastBound(stored, fields[i]).Some? ==> CastBound(stored, fields[i]).value == x)
  }

  function StoredBound(bounds: map<int, Scalar>, id: int): Option<Scalar> {
    if id in bounds then Some(bounds[id]) else None
  }

  /** The file's column bounds and null counts are true of one of its rows. */
  ghost predicate BoundsDescribe(file: DataFile, schema: seq<SchemaField>, row: Row) {
    && file.recordCount > 0
    && (forall name :: SchemaFieldByName(schema, name).Some? ==>
          var field, x := SchemaFieldByName(schema, name).value, Lookup(row, name);
          if x.Null? then field.id in file.nullCounts ==> file.nullCounts[field.id] > 0
          else
            && BoundsTrueOf(StoredBound(file.lowerBounds, field.id), StoredBound(file.upperBounds, field.id), field.fieldType, x)
            && (field.id in file.nullCounts ==> file.nullCounts[field.id] < file.recordCount))
  }

  /** Bounds true of what was written are, once cast, true of what is read. */
  lemma CastBoundsAdmit(lower: Option<Scalar>, upper: Option<Scalar>, t: SourceType, x: Scalar)
    requires BoundsTrueOf(lower, upper, t, x)
    ensures
      lower.Some? && CastTo(lower.value, t).Some? ==>
        Comparable(CastTo(lower.value, t).value, x) && Leq(CastTo(lower.value, t).value, x)
    ensures
      upper.Some? && CastTo(upper.value, t).Some? ==>
        Comparable(x, CastTo(upper.value, t).value) && Leq(x, CastTo(upper.value, t).value)
  {
    if lower.Some? || upper.Some? {
      var stored :| CastTo(stored, t) == Some(x) && StoredWithin(lower, upper, stored);
      if lower.Some? && CastTo(lower.value, t).Some? { CastKeepsOrder(lower.value, stored, t); }
      if upper.Some? && CastTo(upper.value, t).Some? { CastKeepsOrder(stored, upper.value, t); }
    }
  }

  // ---- Soundness ----

  lemma {:induction false} FiltersSound(cal: Calendar, filters: seq<Expr>, fields: seq<BoundField>, row: Row, tuple: Row)
    requires ProperCalendar(cal) && Recorded(cal, fields, row, tuple)
    requires forall e :: e in filters ==> Holds(cal, e, row)
    requires ProjectFilters(filters, fields).Some?
    ensures Holds(cal, ProjectFilters(filters, fields).value, tuple)
  {
    var head, tail := TransformPredicate(filters[0], fields), ProjectFilters(filters[1..], fields);
    if head.Some? { ProjectionSound(cal, filters[0], fields, row, tuple); }
    if tail.Some? { FiltersSound(cal, filters[1..], fields, row, tuple); }
  }

  lemma ManifestAdmits(fields: seq<BoundField>, specId: int, m: ManifestEntry, tuple: Row)
    requires m.specId == specId ==> m.content.Data? && ManifestDescribes(m, fields, tuple)
    ensures Admits(ManifestStatistics(fields, specId, m), tuple)
  {
    forall c ensures StatsAdmit(StatsOf(ManifestStatistics(fields, specId, m), c), Lookup(tuple, c)) {
      if c in FieldNames(fields) && m.specId == specId {
        var i := IndexByName(fields, c);
        assert i.Some?;
        assert StatsOf(ManifestStatistics(fields, specId, m), c) == ManifestColumn(fields, specId, m, c);
        if m.partitions.Some? && i.value < |m.partitions.value| && !Lookup(tuple, c).Null? {
          SummaryAdmits(m.partitions.value[i.value], fields[i.value], Lookup(tuple, c), ManifestRows(m));
        }
      }
    }
  }

  lemma SummaryAdmits(summary: FieldSummary, f: BoundField, x: Scalar, rows: Option<int>)
    requires rows.Some? ==> rows.value > 0
    requires !x.Null? && (PartitionType(f).Some? ==> BoundsTrueOf(summary.lower, summary.upper, PartitionType(f).value, x))
    ensures
      var nulls := if summary.containsNull then None else Some(0);
      StatsAdmit(ColumnStats(CastBound(summary.lower, f), CastBound(summary.upper, f), nulls, rows), x)
  {
    if PartitionType(f).Some? {
      CastBoundsAdmit(summary.lower, summary.upper, PartitionType(f).value, x);
    }
  }

  lemma FileAdmits(fields: seq<BoundField>, compatible: set<string>, path: string, file: DataFile, tuple: Row)
    requires file.recordCount > 0
    requires file.content.Data? && path in compatible ==> FileDescribes(file, fields, tuple)
    ensures Admits(FileStatistics(fields, compatible, path, file), tuple)
  {
    forall c ensures StatsAdmit(StatsOf(FileStatistics(fields, compatible, path, file), c), Lookup(tuple, c)) {
      if c in FieldNames(fields) {
        var i := IndexByName(fields, c);
        assert i.Some?;
        assert StatsOf(FileStatistics(fields, compatible, path, file), c) == FileColumn(fields, compatible, path, file, c);
        var st := FileColumn(fields, compatible, path, file, c);
        if st.min.Some? && Comparable(st.min.value, Lookup(tuple, c)) {
          LeqTotal(st.min.value, Lookup(tuple, c));
        }
      }
    }
  }

  lemma BoundsAdmitRow(schema: seq<SchemaField>, file: DataFile, row: Row)
    requires BoundsDescribe(file, schema, row)
    ensures Admits(BoundsStatistics(schema, file), row)
  {
    forall c ensures StatsAdmit(StatsOf(BoundsStatistics(schema, file), c), Lookup(row, c)) {
      if c in BoundsStatistics(schema, file) {
        assert StatsOf(BoundsStatistics(schema, file), c) == ColumnBounds(schema, file, c);
        var field := SchemaFieldByName(schema, c);
        if field.Some? && !Lookup(row, c).Null? {
          CastBoundsAdmit(StoredBound(file.lowerBounds, field.value.id), StoredBound(file.upperBounds, field.value.id),
                          field.value.fieldType, Lookup(row, c));
        }
      }
    }
  }

  ghost predicate NothingKnown(stats: Statistics) {
    forall c :: StatsOf(stats, c).min.None? && StatsOf(stats, c).max.None? && StatsOf(stats, c).nulls.None?
  }

  lemma ColumnComparisonUndecided(cal: Calendar, name: string, op: Operator, side: Expr, stats: Statistics)
    requires NothingKnown(stats) && !op.And? && !op.Or?
    ensures Kept(cal, Binary(Column(name), op, side), stats)
  {
    if IsComparison(op) && ColumnRefs(side) == {} {
      var st := StatsOf(stats, name);
      assert NotAllNull(st) == Null;
      assert RangeCheck(op, st, Eval(cal, side, map[])) == Null;
    }
  }

  lemma HourNeverRulesOut(cal: Calendar, name: string, op: Operator, timestamp: I64, unit: int, stats: Statistics)
    requires unit > 0 && NothingKnown(stats)
    requires HourPredicate(name, op, timestamp, unit).Some?
    ensures Kept(cal, HourPredicate(name, op, timestamp, unit).value, stats)
  {
    var e := HourPredicate(name, op, timestamp, unit).value;
    if e.op.Eq? {
      ColumnComparisonUndecided(cal, name, Eq, e.right, stats);
    } else {
      ColumnComparisonUndecided(cal, name, GtEq, e.left.right, stats);
      ColumnComparisonUndecided(cal, name, LtEq, e.right.right, stats);
    }
  }

  lemma ComparisonNeverRulesOut(cal: Calendar, f: BoundField, op: Operator, value: Scalar, stats: Statistics)
    requires NothingKnown(stats) && !op.And? && !op.Or?
    requires ProjectComparison(f, op, value).Some?
    ensures Kept(cal, ProjectComparison(f, op, value).value, stats)
  {
    var e := ProjectComparison(f, op, value).value;
    if f.transform.Hour? {
      if value.TimestampMicros? { HourNeverRulesOut(cal, f.name, op, value.us, MICROS_IN_HOUR, stats); }
      else { HourNeverRulesOut(cal, f.name, op, value.ns, NANOS_IN_HOUR, stats); }
    } else if e.op.And? {
      ColumnComparisonUndecided(cal, f.name, GtEq, e.left.right, stats);
      ColumnComparisonUndecided(cal, f.name, LtEq, e.right.right, stats);
    } else {
      ColumnComparisonUndecided(cal, f.name, e.op, e.right, stats);
    }
  }

  /** With bounds and null counts unknown, a projected predicate keeps any matching row's container. */
  lemma {:induction false} UnknownKept(cal: Calendar, e: Expr, fields: seq<BoundField>, stats: Statistics, row: Row)
    requires NothingKnown(stats)
    requires Holds(cal, e, row) && TransformPredicate(e, fields).Some?
    ensures Kept(cal, TransformPredicate(e, fields).value, stats)
  {
    if e.Binary? && (e.op.And? || e.op.Or?) {
      if Holds(cal, e.left, row) && TransformPredicate(e.left, fields).Some? {
        UnknownKept(cal, e.left, fields, stats, row);
      }
      if Holds(cal, e.right, row) && TransformPredicate(e.right, fields).Some? {
        UnknownKept(cal, e.right, fields, stats, row);
      }
    } else if forall c :: c in ColumnRefs(e) ==> IdentityColumn(fields, c) {
      forall c ensures StatsAdmit(StatsOf(stats, c), Lookup(row, c)) {}
      PruneSound(cal, e, stats, row);
    } else if e.Binary? {
      var onLeft := e.left.Column?;
      var f := FindBySource(fields, if onLeft then e.left.name else e.right.name).value;
      var value := FoldCastLiteral(if onLeft then e.right else e.left, f.sourceType).value;
      ComparisonNeverRulesOut(cal, f, Oriented(e.op, onLeft).value, value, stats);
    }
  }

  lemma {:induction false} FiltersUnknownKept(cal: Calendar, filters: seq<Expr>, fields: seq<BoundField>, stats: Statistics, row: Row)
    requires NothingKnown(stats)
    requires forall e :: e in filters ==> Holds(cal, e, row)
    requires ProjectFilters(filters, fields).Some?
    ensures Kept(cal, ProjectFilters(filters, fields).value, stats)
  {
    var head, tail := TransformPredicate(filters[0], fields), ProjectFilters(filters[1..], fields);
    if head.Some? { UnknownKept(cal, filters[0], fields, stats, row); }
    if tail.Some? { FiltersUnknownKept(cal, filters[1..], fields, stats, row); }
  }

  /** Under another spec every partition bound and null count is unknown. */
  lemma OtherSpecUnknown(fields: seq<BoundField>, specId: int, m: ManifestEntry, compatible: set<string>,
                         path: string, file: DataFile)
    ensures m.specId != specId ==> NothingKnown(ManifestStatistics(fields, specId, m))
    ensures path !in compatible ==> NothingKnown(FileStatistics(fields, compatible, path, file))
  {
    forall c | c in FieldNames(fields)
      ensures StatsOf(ManifestStatistics(fields, specId, m), c) == ManifestColumn(fields, specId, m, c)
      ensures StatsOf(FileStatistics(fields, compatible, path, file), c) == FileColumn(fields, compatible, path, file, c)
    {
    }
  }

  /** A manifest holding a matching row is kept, whichever partition spec it was written under. */
  lemma ManifestPruningSound(cal: Calendar, filters: seq<Expr>, fields: seq<BoundField>, specId: int,
                             m: ManifestEntry, file: DataFile, row: Row, tuple: Row)
    requires ProperCalendar(cal)
    requires forall e :: e in filters ==> Holds(cal, e, row)
    requires m.content.Data?
    requires m.specId == specId ==> Recorded(cal, fields, row, tuple) && ManifestDescribes(m, fields, tuple)
    ensures ManifestKept(cal, filters, fields, specId, m)
  {
    if ProjectFilters(filters, fields).Some? {
      var stats := ManifestStatistics(fields, specId, m);
      if m.specId == specId {
        FiltersSound(cal, filters, fields, row, tuple);
        ManifestAdmits(fields, specId, m, tuple);
        PruneSound(cal, ProjectFilters(filters, fields).value, stats, tuple);
      } else {
        OtherSpecUnknown(fields, specId, m, {}, m.path, file);
        FiltersUnknownKept(cal, filters, fields, stats, row);
      }
    }
  }

  lemma FilePruningSound(cal: Calendar, filters: seq<Expr>, fields: seq<BoundField>, compatible: set<string>,
                         schema: seq<SchemaField>, m: ManifestEntry, file: DataFile, row: Row, tuple: Row)
    requires ProperCalendar(cal)
    requires forall e :: e in filters ==> Holds(cal, e, row)
    requires file.content.Data? && BoundsDescribe(file, schema, row)
    requires m.path in compatible ==> Recorded(cal, fields, row, tuple) && FileDescribes(file, fields, tuple)
    ensures FileKept(cal, filters, fields, compatible, schema, m.path, file)
  {
    if ProjectFilters(filters, fields).Some? {
      var stats := FileStatistics(fields, compatible, m.path, file);
      if m.path in compatible {
        FiltersSound(cal, filters, fields, row, tuple);
        FileAdmits(fields, compatible, m.path, file, tuple);
        PruneSound(cal, ProjectFilters(filters, fields).value, stats, tuple);
      } else {
        OtherSpecUnknown(fields, m.specId, m, compatible, m.path, file);
        FiltersUnknownKept(cal, filters, fields, stats, row);
      }
    }
    BoundsAdmitRow(schema, file, row);
    forall e | e in filters ensures Kept(cal, e, BoundsStatistics(schema, file)) {
      PruneSound(cal, e, BoundsStatistics(schema, file), row);
    }
  }

  /** The paths whose files carry partition tuples of the table's current spec. */
  function CompatiblePaths(manifests: seq<ManifestEntry>, specId: int): set<string> {
    set m | m in manifests && m.specId == specId :: m.path
  }

  /**
   The whole scan: a live data file of any manifest that holds a row satisfying every
   filter survives manifest pruning, partition pruning and column-bound pruning.
   */
  lemma ScanLosesNoRow(cal: Calendar, filters: seq<Expr>, fields: seq<BoundField>, specId: int,
                       schema: seq<SchemaField>, manifests: seq<ManifestEntry>, m: ManifestEntry,
                       file: DataFile, row: Row, tuple: Row)
    requires ProperCalendar(cal)
    requires forall e :: e in filters ==> Holds(cal, e, row)
    requires m in manifests && m.content.Data? && file.content.Data?
    requires forall a, b :: a in manifests && b in manifests && a.path == b.path ==> a == b
    requires BoundsDescribe(file, schema, row)
    requires m.specId == specId ==>
      Recorded(cal, fields, row, tuple) && ManifestDescribes(m, fields, tuple) && FileDescribes(file, fields, tuple)
    ensures ManifestKept(cal, filters, fields, specId, m)
    ensures FileKept(cal, filters, fields, CompatiblePaths(manifests, specId), schema, m.path, file)
  {
    ManifestPruningSound(cal, filters, fields, specId, m, file, row, tuple);
    FilePruningSound(cal, filters, fields, CompatiblePaths(manifests, specId), schema, m, file, row, tuple);
  }
}
