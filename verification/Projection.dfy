/**
 Rewriting a row predicate into a predicate over partition values, and what a writer,
 current or legacy, may have recorded as the partition values of a row.
 */
module Projection {
  import opened Scalars
  import opened Expressions
  import opened HourRing

  datatype Transform =
    | Identity | Year | Month | Day | Hour | Void
    | Bucket(buckets: nat)
    | Truncate(width: nat)

  datatype SourceType =
    | IntType | LongType | DateType | TimeType | StringType
    | TimestampType | TimestamptzType | TimestampNsType | TimestamptzNsType
    | OtherType

  datatype BoundField = BoundField(sourceName: string, name: string, transform: Transform, sourceType: SourceType)

  function FindBySource(fields: seq<BoundField>, column: string): (found: Option<BoundField>)
    ensures found.Some? ==> found.value in fields && found.value.sourceName == column
    ensures found.None? ==> forall f :: f in fields ==> f.sourceName != column
  {
    if fields == [] then None
    else if fields[0].sourceName == column then Some(fields[0])
    else FindBySource(fields[1..], column)
  }

  predicate IdentityColumn(fields: seq<BoundField>, column: string) {
    exists f :: f in fields && f.sourceName == column && f.name == column && f.transform.Identity?
  }

  function FoldCastLiteral(e: Expr, sourceType: SourceType): Option<Scalar> {
    match e
    case Literal(value) => Some(value)
    case Cast(Literal(value), convert) =>
      var converted := convert(value);
      if converted.None? || !converted.value.TimestampNanos? then converted
      else
        var TimestampNanos(ns, zone) := converted.value;
        if zone.NoZone? && sourceType.TimestampType? && ns % 1000 == 0 then
          Some(TimestampMicros(ns / 1000, NoZone))
        else if !sourceType.TimestampNsType? && !sourceType.TimestamptzNsType? then None
        else converted
    case _ => None
  }

  predicate LiteralMatchesSource(value: Scalar, sourceType: SourceType) {
    match sourceType
    case IntType => value.Int32?
    case LongType => value.Int64?
    case DateType => value.Date32?
    case TimeType => value.Time64?
    case StringType => value.Utf8?
    case TimestampType => value.TimestampMicros? && value.zone.NoZone?
    case TimestampNsType => value.TimestampNanos? && value.zone.NoZone?
    case TimestamptzType => value.TimestampMicros? && value.zone.Utc?
    case TimestamptzNsType => value.TimestampNanos? && value.zone.Utc?
    case OtherType => false
  }

  /** The literal side of a projected comparison, as an expression still to be evaluated. */
  function TransformLiteral(value: Scalar, transform: Transform): Option<Expr> {
    if value.Null? then None
    else
      match transform
      case Identity => Some(Literal(value))
      case Year => Some(DateTransform(YearPart, Literal(value)))
      case Month => Some(DateTransform(MonthPart, Literal(value)))
      case Day =>
        if value.TimestampMicros? && value.us < 0 then IntLiteral(value.us / MICROS_IN_DAY)
        else if value.TimestampNanos? && value.ns < 0 then IntLiteral(value.ns / NANOS_IN_DAY)
        else Some(DateTransform(DayPart, Literal(value)))
      case Truncate(width) =>
        if width == 0 then None
        else if value.Int32? && width <= I32_MAX then
          IntLiteral(value.int32 - value.int32 % width)
        else if value.Int64? && FitsI64(value.int64 - value.int64 % width) then
          Some(Literal(Int64(value.int64 - value.int64 % width)))
        else None
      case _ => None
  }

  function IntLiteral(x: int): Option<Expr> {
    if FitsI32(x) then Some(Literal(Int32(x))) else None
  }

  function HourPredicate(name: string, op: Operator, timestamp: I64, unit: int): Option<Expr>
    requires unit > 0
  {
    match HourWindow(op, timestamp, unit)
    case None => None
    case Some((lo, hi)) =>
      if hi - lo >= HOUR_ID_MODULUS - 1 then None
      else
        var lower, upper := WrappedId(lo), WrappedId(hi);
        var column := Column(name);
        if lower == upper then Some(Binary(column, Eq, Literal(Int32(lower))))
        else
          Some(Binary(
            Binary(column, GtEq, Literal(Int32(lower))),
            if lower < upper then And else Or,
            Binary(column, LtEq, Literal(Int32(upper)))))
  }

  /** The comparison with its column moved to the left. */
  function Oriented(op: Operator, columnOnLeft: bool): Option<Operator> {
    if columnOnLeft then Some(op)
    else if IsComparison(op) then Some(Flip(op))
    else None
  }

  function ProjectedOperator(op: Operator, transform: Transform): Option<Operator> {
    match transform
    case Identity => Some(op)
    case Bucket(_) => None
    case Void => None
    case _ => if Supported(op) then Some(Weaken(op)) else None
  }

  /** `column op value` on the source, as a predicate on the partition field. */
  function ProjectComparison(f: BoundField, op: Operator, value: Scalar): Option<Expr> {
    if f.transform.Hour? then
      match value
      case TimestampMicros(us, _) => HourPredicate(f.name, op, us, MICROS_IN_HOUR)
      case TimestampNanos(ns, _) => HourPredicate(f.name, op, ns, NANOS_IN_HOUR)
      case _ => None
    else
      match (ProjectedOperator(op, f.transform), TransformLiteral(value, f.transform))
      case (Some(weak), Some(literal)) =>
        var column := Column(f.name);
        if f.transform.Month? || (f.transform.Day? && value.TimestampMicros? && value.us < 0) then
          var legacy := Binary(literal, Plus, Literal(Int32(1)));
          match weak
          case Eq => Some(Binary(Binary(column, GtEq, literal), And, Binary(column, LtEq, legacy)))
          case LtEq => Some(Binary(column, LtEq, legacy))
          case GtEq => Some(Binary(column, GtEq, literal))
          case _ => None
        else Some(Binary(column, weak, literal))
      case _ => None
  }

  function ProjectBinary(left: Expr, op: Operator, right: Expr, fields: seq<BoundField>): Option<Expr> {
    if !left.Column? && !right.Column? then None
    else
      var onLeft := left.Column?;
      var column, side := if onLeft then left.name else right.name, if onLeft then right else left;
      match FindBySource(fields, column)
      case None => None
      case Some(f) =>
        match FoldCastLiteral(side, f.sourceType)
        case None => None
        case Some(value) =>
          if !f.transform.Identity? && !LiteralMatchesSource(value, f.sourceType) then None
          else
            match Oriented(op, onLeft)
            case None => None
            case Some(oriented) => ProjectComparison(f, oriented, value)
  }

  function ProjectNullCheck(column: string, isNull: bool, fields: seq<BoundField>): Option<Expr> {
    match FindBySource(fields, column)
    case None => None
    case Some(f) =>
      if f.transform.Void? then None
      else if isNull then Some(IsNull(Column(f.name)))
      else Some(IsNotNull(Column(f.name)))
  }

  function TransformPredicate(e: Expr, fields: seq<BoundField>): Option<Expr> {
    if e.Binary? && (e.op.And? || e.op.Or?) then
      match (TransformPredicate(e.left, fields), TransformPredicate(e.right, fields))
      case (Some(l), Some(r)) => Some(Binary(l, e.op, r))
      case (Some(l), None) => if e.op.And? then Some(l) else None
      case (None, Some(r)) => if e.op.And? then Some(r) else None
      case (None, None) => None
    else if forall c :: c in ColumnRefs(e) ==> IdentityColumn(fields, c) then Some(e)
    else
      match e
      case IsNull(Column(c)) => ProjectNullCheck(c, true, fields)
      case IsNotNull(Column(c)) => ProjectNullCheck(c, false, fields)
      case Binary(l, op, r) => ProjectBinary(l, op, r, fields)
      case _ => None
  }

  // ---- What writers record ----

  predicate HasSourceType(v: Scalar, t: SourceType) {
    v.Null? || t.OtherType? || LiteralMatchesSource(v, t)
  }

  /**
   A writer may record `p` for the source value `v`. Besides the value the table format
   prescribes this admits what older writers left behind: a month id one too high, a
   pre-epoch microsecond day or any pre-epoch hour truncated toward zero, hour ids
   wrapped to 32 bits, and any bucket at all.
   */
  predicate MayRecord(cal: Calendar, t: Transform, v: Scalar, p: Scalar) {
    if v.Null? then p.Null?
    else
      match t
      case Identity => p == v
      case Void => p.Null?
      case Bucket(_) => p.Int32?
      case Year => DayOf(v).Some? && p == OfInt(cal.year(DayOf(v).value)) && !p.Null?
      case Month =>
        && DayOf(v).Some? && p.Int32?
        && (p.int32 == cal.month(DayOf(v).value) || p.int32 == cal.month(DayOf(v).value) + 1)
      case Day =>
        && DayOf(v).Some? && p.Int32?
        && (|| p.int32 == DayOf(v).value
            || (v.TimestampMicros? && p.int32 == TruncatedDiv(v.us, MICROS_IN_DAY)))
      case Hour =>
        && p.Int32?
        && match v {
             case TimestampMicros(us, _) =>
               || p.int32 == WrappedId(us / MICROS_IN_HOUR)
               || p.int32 == WrappedId(TruncatedDiv(us, MICROS_IN_HOUR))
             case TimestampNanos(ns, _) =>
               || p.int32 == WrappedId(ns / NANOS_IN_HOUR)
               || p.int32 == WrappedId(TruncatedDiv(ns, NANOS_IN_HOUR))
             case _ => false
           }
      case Truncate(width) =>
        && width > 0
        && match v {
             case Int32(i) => p.Int32? && (width <= I32_MAX ==> p.int32 == i - i % width)
             case Int64(i) => p.Int64? && p.int64 == i - i % width
             case Utf8(_) => p.Utf8?
             case _ => false
           }
  }

  /** `tuple` is what some writer may have recorded for `row` under this partition spec. */
  ghost predicate Recorded(cal: Calendar, fields: seq<BoundField>, row: Row, tuple: Row) {
    forall f :: f in fields ==>
      && HasSourceType(Lookup(row, f.sourceName), f.sourceType)
      && MayRecord(cal, f.transform, Lookup(row, f.sourceName), Lookup(tuple, f.name))
  }

  // ---- Soundness ----

  lemma IdentityOnlySound(cal: Calendar, e: Expr, fields: seq<BoundField>, row: Row, tuple: Row)
    requires Recorded(cal, fields, row, tuple)
    requires forall c :: c in ColumnRefs(e) ==> IdentityColumn(fields, c)
    ensures Eval(cal, e, row) == Eval(cal, e, tuple)
  {
    forall c | c in ColumnRefs(e) ensures Lookup(row, c) == Lookup(tuple, c) {
      var f :| f in fields && f.sourceName == c && f.name == c && f.transform.Identity?;
    }
    EvalDependsOnRefs(cal, e, row, tuple);
  }

  /** Folding the cast leaves every comparison with a value of the source type unchanged. */
  lemma FoldedSideCompares(cal: Calendar, side: Expr, sourceType: SourceType, op: Operator, v: Scalar, row: Row)
    requires FoldCastLiteral(side, sourceType).Some?
    requires HasSourceType(v, sourceType)
    ensures !op.Plus? && !op.And? && !op.Or? ==>
      Apply(op, v, Eval(cal, side, row)) == Apply(op, v, FoldCastLiteral(side, sourceType).value)
  {
    if side.Cast? {
      var evaluated := side.convert(side.inner.value).value;
      assert Eval(cal, side.inner, row) == side.inner.value;
      assert Eval(cal, side, row) == evaluated;
      var folded := FoldCastLiteral(side, sourceType).value;
      assert Rank(evaluated) == Rank(folded);
      assert evaluated.Utf8? ==> evaluated == folded;
      assert Coerced(evaluated) == Coerced(folded);
    }
  }

  /** A matching source value compares with the literal as their integers do. */
  function IntOf(s: Scalar): int {
    match s
    case Int32(i) => i
    case Int64(i) => i
    case Date32(d) => d
    case Time64(t) => t
    case TimestampMicros(us, _) => us
    case TimestampNanos(ns, _) => ns
    case _ => 0
  }

  lemma SameTypeCompare(op: Operator, v: Scalar, value: Scalar, t: SourceType)
    requires Supported(op)
    requires LiteralMatchesSource(v, t) && LiteralMatchesSource(value, t) && !v.Utf8?
    ensures Compare(op, v, value) == Boolean(IntCompare(op, IntOf(v), IntOf(value)))
  {
  }

  lemma HourPredicateMeaning(cal: Calendar, name: string, op: Operator, timestamp: I64, unit: int, tuple: Row)
    requires unit > 0 && HourPredicate(name, op, timestamp, unit).Some?
    requires Lookup(tuple, name).Int32?
    ensures HourWindow(op, timestamp, unit).Some?
    ensures var (lo, hi) := HourWindow(op, timestamp, unit).value;
      Holds(cal, HourPredicate(name, op, timestamp, unit).value, tuple) <==>
      InArc(lo, hi, Lookup(tuple, name).int32)
  {
    HourWindowDefined(op, timestamp, unit);
    var (lo, hi) := HourWindow(op, timestamp, unit).value;
    var lower, upper := WrappedId(lo), WrappedId(hi);
    var id := Lookup(tuple, name).int32;
    ArcExact(lo, hi, id);
    var column := Column(name);
    assert Eval(cal, column, tuple) == Int32(id);
    assert Eval(cal, Literal(Int32(lower)), tuple) == Int32(lower);
    assert Eval(cal, Literal(Int32(upper)), tuple) == Int32(upper);
    var e := HourPredicate(name, op, timestamp, unit).value;
    if lower == upper {
      assert Eval(cal, e, tuple) == Compare(Eq, Int32(id), Int32(lower));
    } else {
      assert Eval(cal, e.left, tuple) == Boolean(lower <= id);
      assert Eval(cal, e.right, tuple) == Boolean(id <= upper);
    }
  }

  /** An hour comparison goes unprojected exactly when its window leaves no id out. */
  lemma HourAbsentIffFullTurn(name: string, op: Operator, timestamp: I64, unit: int)
    requires unit > 0 && Supported(op)
    ensures HourWindow(op, timestamp, unit).Some?
    ensures var (lo, hi) := HourWindow(op, timestamp, unit).value;
      HourPredicate(name, op, timestamp, unit).None? <==> forall id :: FitsI32(id) ==> InArc(lo, hi, id)
  {
    HourWindowDefined(op, timestamp, unit);
    var (lo, hi) := HourWindow(op, timestamp, unit).value;
    if hi - lo >= HOUR_ID_MODULUS - 1 {
      forall id | FitsI32(id) ensures InArc(lo, hi, id) { FullTurn(lo, hi, id); }
    } else {
      ArcMisses(lo, hi);
    }
  }

  lemma HourSound(cal: Calendar, f: BoundField, op: Operator, timestamp: I64, unit: int, x: I64, tuple: Row)
    requires unit > 0 && Supported(op) && IntCompare(op, x, timestamp)
    requires HourPredicate(f.name, op, timestamp, unit).Some?
    requires Lookup(tuple, f.name).Int32?
    requires var id := Lookup(tuple, f.name).int32;
      id == WrappedId(x / unit) || id == WrappedId(TruncatedDiv(x, unit))
    ensures Holds(cal, HourPredicate(f.name, op, timestamp, unit).value, tuple)
  {
    HourWindowCovers(op, timestamp, unit, x);
    HourPredicateMeaning(cal, f.name, op, timestamp, unit, tuple);
  }

  /** The transformed literal's integer, and the ids a writer may record for `v`. */
  function BaseId(cal: Calendar, t: Transform, v: Scalar): Option<int> {
    match t
    case Year => if DayOf(v).Some? then Some(cal.year(DayOf(v).value)) else None
    case Month => if DayOf(v).Some? then Some(cal.month(DayOf(v).value)) else None
    case Day => DayOf(v)
    case Truncate(width) =>
      if width == 0 then None
      else if v.Int32? then Some(v.int32 - v.int32 % width)
      else if v.Int64? then Some(v.int64 - v.int64 % width)
      else None
    case _ => None
  }

  predicate Ordered(t: Transform) {
    t.Year? || t.Month? || t.Day? || t.Truncate?
  }

  lemma TruncateMonotone(x: int, y: int, width: int)
    requires width > 0 && x <= y
    ensures x - x % width <= y - y % width
  {
    DivMonotone(x, y, width);
    assert x - x % width == x / width * width;
    assert y - y % width == y / width * width;
    MulMonotone(x / width, y / width, width);
  }

  lemma BaseIdMonotone(cal: Calendar, t: Transform, a: Scalar, b: Scalar, s: SourceType)
    requires ProperCalendar(cal) && Ordered(t)
    requires LiteralMatchesSource(a, s) && LiteralMatchesSource(b, s)
    requires IntOf(a) <= IntOf(b)
    requires BaseId(cal, t, a).Some? && BaseId(cal, t, b).Some?
    ensures BaseId(cal, t, a).value <= BaseId(cal, t, b).value
  {
    if t.Truncate? {
      TruncateMonotone(IntOf(a), IntOf(b), t.width);
    } else if a.TimestampMicros? {
      DivMonotone(a.us, b.us, MICROS_IN_DAY);
    } else if a.TimestampNanos? {
      DivMonotone(a.ns, b.ns, NANOS_IN_DAY);
    }
  }

  lemma TransformLiteralMeaning(cal: Calendar, value: Scalar, t: Transform, s: SourceType, tuple: Row)
    requires ProperCalendar(cal) && Ordered(t) && LiteralMatchesSource(value, s)
    requires TransformLiteral(value, t).Some? && BaseId(cal, t, value).Some?
    ensures var base := BaseId(cal, t, value).value;
      && Eval(cal, TransformLiteral(value, t).value, tuple)
           == (if value.Int64? then Int64(base) else Int32(base))
      && (t.Month? ==> base < I32_MAX)
      && (t.Day? && value.TimestampMicros? && value.us < 0 ==> base < I32_MAX)
  {
    var literal := TransformLiteral(value, t).value;
    if literal.DateTransform? {
      assert Eval(cal, Literal(value), tuple) == value;
      if t.Day? && value.TimestampMicros? { DayFits(value.us, MICROS_IN_DAY); }
      if t.Day? && value.TimestampNanos? { DayFits(value.ns, NANOS_IN_DAY); }
    } else {
      if value.TimestampMicros? { DayFits(value.us, MICROS_IN_DAY); }
    }
  }

  lemma DayFits(x: I64, unit: int)
    requires unit >= MICROS_IN_DAY
    ensures I32_MIN < x / unit < I32_MAX
  {
    DivBounds(x, unit);
    if x / unit >= I32_MAX { MulMonotone(I32_MAX, x / unit, unit); ScaleBy(I32_MAX, MICROS_IN_DAY, unit); }
    if x / unit <= I32_MIN { MulMonotone(x / unit + 1, I32_MIN + 1, unit); ScaleBy(-I32_MIN - 1, MICROS_IN_DAY, unit); }
  }

  lemma ScaleBy(a: int, small: int, large: int)
    requires a > 0 && small <= large
    ensures a * small <= a * large
  {
  }

  /** What the projected comparison tests of an integer partition value. */
  predicate IdTest(op: Operator, legacy: bool, base: int, id: int)
    requires Supported(op)
  {
    match Weaken(op)
    case Eq => if legacy then base <= id <= base + 1 else id == base
    case LtEq => if legacy then id <= base + 1 else id <= base
    case _ => id >= base
  }

  predicate LegacyTolerant(t: Transform, value: Scalar) {
    t.Month? || (t.Day? && value.TimestampMicros? && value.us < 0)
  }

  /** The two halves of a legacy-tolerant window. */
  lemma LegacyWindow(cal: Calendar, column: Expr, literal: Expr, tuple: Row, base: int, id: I32)
    requires FitsI32(base) && FitsI32(base + 1)
    requires Eval(cal, column, tuple) == Int32(id) && Eval(cal, literal, tuple) == Int32(base)
    ensures
      var legacy := Binary(literal, Plus, Literal(Int32(1)));
      && Eval(cal, Binary(column, GtEq, literal), tuple) == Boolean(id >= base)
      && Eval(cal, Binary(column, LtEq, legacy), tuple) == Boolean(id <= base + 1)
  {
    var one := Literal(Int32(1));
    assert Eval(cal, one, tuple) == Int32(1);
    assert Eval(cal, Binary(literal, Plus, one), tuple) == Int32(base + 1);
  }

  lemma PlainTest(cal: Calendar, column: Expr, op: Operator, literal: Expr, tuple: Row, base: int, id: int)
    requires Supported(op)
    requires
      || (FitsI64(id) && FitsI64(base) && Eval(cal, column, tuple) == Int64(id) && Eval(cal, literal, tuple) == Int64(base))
      || (FitsI32(id) && FitsI32(base) && Eval(cal, column, tuple) == Int32(id) && Eval(cal, literal, tuple) == Int32(base))
    ensures Holds(cal, Binary(column, Weaken(op), literal), tuple) <==> IdTest(op, false, base, id)
  {
  }

  lemma OrderedComparisonMeaning(cal: Calendar, f: BoundField, op: Operator, value: Scalar, tuple: Row)
    requires ProperCalendar(cal) && Ordered(f.transform) && LiteralMatchesSource(value, f.sourceType)
    requires ProjectComparison(f, op, value).Some? && BaseId(cal, f.transform, value).Some?
    requires if value.Int64? then Lookup(tuple, f.name).Int64? else Lookup(tuple, f.name).Int32?
    ensures Supported(op)
    ensures
      Holds(cal, ProjectComparison(f, op, value).value, tuple) <==>
      IdTest(op, LegacyTolerant(f.transform, value), BaseId(cal, f.transform, value).value,
             IntOf(Lookup(tuple, f.name)))
  {
    var literal := TransformLiteral(value, f.transform).value;
    TransformLiteralMeaning(cal, value, f.transform, f.sourceType, tuple);
    var id := Lookup(tuple, f.name);
    var column := Column(f.name);
    var base := BaseId(cal, f.transform, value).value;
    assert Eval(cal, column, tuple) == id;
    if LegacyTolerant(f.transform, value) {
      LegacyWindow(cal, column, literal, tuple, base, id.int32);
    } else {
      PlainTest(cal, column, op, literal, tuple, base, IntOf(id));
    }
  }

  lemma RecordedNearBase(cal: Calendar, t: Transform, v: Scalar, p: Scalar)
    requires Ordered(t) && !v.Null? && !v.Utf8? && MayRecord(cal, t, v, p)
    requires t.Truncate? && v.Int32? ==> t.width <= I32_MAX
    ensures BaseId(cal, t, v).Some?
    ensures if v.Int64? then p.Int64? else p.Int32?
    ensures var base := BaseId(cal, t, v).value;
      || IntOf(p) == base
      || (t.Month? && IntOf(p) == base + 1)
      || (t.Day? && v.TimestampMicros? && v.us < 0 && IntOf(p) == base + 1 && IntOf(p) <= 0)
  {
    if v.TimestampMicros? { TruncatedVsFloor(v.us, MICROS_IN_DAY); }
  }

  lemma OrderedSound(cal: Calendar, f: BoundField, op: Operator, value: Scalar, v: Scalar, tuple: Row)
    requires ProperCalendar(cal) && Ordered(f.transform)
    requires LiteralMatchesSource(value, f.sourceType) && LiteralMatchesSource(v, f.sourceType)
    requires MayRecord(cal, f.transform, v, Lookup(tuple, f.name))
    requires ProjectComparison(f, op, value).Some?
    requires IsComparison(op) && Compare(op, v, value) == Boolean(true)
    ensures Holds(cal, ProjectComparison(f, op, value).value, tuple)
  {
    ProjectableLiteral(cal, f, op, value);
    assert !v.Utf8?;
    SameTypeCompare(op, v, value, f.sourceType);
    RecordedNearBase(cal, f.transform, v, Lookup(tuple, f.name));
    RecordedPassesTest(cal, f, op, value, v, Lookup(tuple, f.name));
    OrderedComparisonMeaning(cal, f, op, value, tuple);
  }

  lemma RecordedPassesTest(cal: Calendar, f: BoundField, op: Operator, value: Scalar, v: Scalar, p: Scalar)
    requires ProperCalendar(cal) && Ordered(f.transform) && Supported(op)
    requires LiteralMatchesSource(value, f.sourceType) && LiteralMatchesSource(v, f.sourceType) && !v.Utf8?
    requires MayRecord(cal, f.transform, v, p)
    requires f.transform.Truncate? && v.Int32? ==> f.transform.width <= I32_MAX
    requires IntCompare(op, IntOf(v), IntOf(value))
    ensures BaseId(cal, f.transform, value).Some?
    ensures IdTest(op, LegacyTolerant(f.transform, value), BaseId(cal, f.transform, value).value, IntOf(p))
  {
    var t := f.transform;
    RecordedNearBase(cal, t, v, p);
    BasesInOrder(cal, t, v, value, f.sourceType);
    if t.Day? && v.TimestampMicros? && v.us < 0 <= value.us {
      DivMonotone(0, value.us, MICROS_IN_DAY);
    }
  }

  lemma BasesInOrder(cal: Calendar, t: Transform, a: Scalar, b: Scalar, sourceType: SourceType)
    requires ProperCalendar(cal) && Ordered(t)
    requires LiteralMatchesSource(a, sourceType) && LiteralMatchesSource(b, sourceType)
    requires !a.Utf8? && !b.Utf8?
    requires BaseId(cal, t, a).Some? && BaseId(cal, t, b).Some?
    ensures IntOf(a) <= IntOf(b) ==> BaseId(cal, t, a).value <= BaseId(cal, t, b).value
    ensures IntOf(b) <= IntOf(a) ==> BaseId(cal, t, b).value <= BaseId(cal, t, a).value
  {
    if IntOf(a) <= IntOf(b) { BaseIdMonotone(cal, t, a, b, sourceType); }
    if IntOf(b) <= IntOf(a) { BaseIdMonotone(cal, t, b, a, sourceType); }
  }

  lemma ComparisonSound(cal: Calendar, f: BoundField, op: Operator, value: Scalar, v: Scalar, tuple: Row)
    requires ProperCalendar(cal)
    requires HasSourceType(v, f.sourceType)
    requires MayRecord(cal, f.transform, v, Lookup(tuple, f.name))
    requires !f.transform.Identity? && LiteralMatchesSource(value, f.sourceType)
    requires ProjectComparison(f, op, value).Some?
    requires Apply(op, v, value) == Boolean(true)
    ensures Holds(cal, ProjectComparison(f, op, value).value, tuple)
  {
    if f.transform.Hour? {
      HourWindowOperators(op, value);
      SameTypeCompare(op, v, value, f.sourceType);
      match value
      case TimestampMicros(us, _) => HourSound(cal, f, op, us, MICROS_IN_HOUR, v.us, tuple);
      case TimestampNanos(ns, _) => HourSound(cal, f, op, ns, NANOS_IN_HOUR, v.ns, tuple);
      case _ =>
    } else {
      OrderedSound(cal, f, op, value, v, tuple);
    }
  }

  lemma HourWindowOperators(op: Operator, value: Scalar)
    ensures value.TimestampMicros? && HourWindow(op, value.us, MICROS_IN_HOUR).Some? ==> Supported(op)
    ensures value.TimestampNanos? && HourWindow(op, value.ns, NANOS_IN_HOUR).Some? ==> Supported(op)
  {
  }

  lemma BinarySound(cal: Calendar, l: Expr, op: Operator, r: Expr, fields: seq<BoundField>, row: Row, tuple: Row)
    requires ProperCalendar(cal) && Recorded(cal, fields, row, tuple)
    requires !op.And? && !op.Or?
    requires Holds(cal, Binary(l, op, r), row)
    requires ProjectBinary(l, op, r, fields).Some?
    ensures Holds(cal, ProjectBinary(l, op, r, fields).value, tuple)
  {
    var onLeft := l.Column?;
    var name, side := if onLeft then l.name else r.name, if onLeft then r else l;
    var f := FindBySource(fields, name).value;
    var v := Lookup(row, name);
    var value := FoldCastLiteral(side, f.sourceType).value;
    var oriented := Oriented(op, onLeft).value;
    assert Eval(cal, Column(name), row) == v;
    FoldedSideCompares(cal, side, f.sourceType, oriented, v, row);
    if !onLeft { CompareFlip(op, Eval(cal, side, row), v); }
    assert Apply(oriented, v, value) == Boolean(true);
    if f.transform.Identity? {
      IdentityComparisonSound(cal, f, oriented, value, v, tuple);
    } else {
      assert IsComparison(oriented) by { ProjectedOnlyComparisons(f, oriented, value); }
      ComparisonSound(cal, f, oriented, value, v, tuple);
    }
  }

  lemma ProjectedOnlyComparisons(f: BoundField, op: Operator, value: Scalar)
    requires !f.transform.Identity? && ProjectComparison(f, op, value).Some?
    ensures Supported(op)
  {
  }

  /** On an identity field under another name the comparison is carried over as it is. */
  lemma IdentityComparisonSound(cal: Calendar, f: BoundField, op: Operator, value: Scalar, v: Scalar, tuple: Row)
    requires f.transform.Identity? && Lookup(tuple, f.name) == v
    requires Apply(op, v, value) == Boolean(true)
    requires ProjectComparison(f, op, value).Some?
    ensures Holds(cal, ProjectComparison(f, op, value).value, tuple)
  {
    var column, literal := Column(f.name), Literal(value);
    assert ProjectComparison(f, op, value).value == Binary(column, op, literal);
    assert Eval(cal, column, tuple) == v;
    assert Eval(cal, literal, tuple) == value;
  }

  lemma NullCheckSound(cal: Calendar, column: string, isNull: bool, fields: seq<BoundField>, row: Row, tuple: Row)
    requires Recorded(cal, fields, row, tuple)
    requires Lookup(row, column).Null? == isNull
    requires ProjectNullCheck(column, isNull, fields).Some?
    ensures Holds(cal, ProjectNullCheck(column, isNull, fields).value, tuple)
  {
    var f := FindBySource(fields, column).value;
    assert Eval(cal, Column(f.name), tuple) == Lookup(tuple, f.name);
  }

  /**
   Inclusive projection: whatever partition values a writer recorded for a matching row,
   the projected predicate is true of them.
   */
  lemma {:induction false} ProjectionSound(cal: Calendar, e: Expr, fields: seq<BoundField>, row: Row, tuple: Row)
    requires ProperCalendar(cal) && Recorded(cal, fields, row, tuple)
    requires Holds(cal, e, row)
    requires TransformPredicate(e, fields).Some?
    ensures Holds(cal, TransformPredicate(e, fields).value, tuple)
  {
    if e.Binary? && (e.op.And? || e.op.Or?) {
      if Holds(cal, e.left, row) && TransformPredicate(e.left, fields).Some? {
        ProjectionSound(cal, e.left, fields, row, tuple);
      }
      if Holds(cal, e.right, row) && TransformPredicate(e.right, fields).Some? {
        ProjectionSound(cal, e.right, fields, row, tuple);
      }
    } else if forall c :: c in ColumnRefs(e) ==> IdentityColumn(fields, c) {
      IdentityOnlySound(cal, e, fields, row, tuple);
    } else {
      match e
      case IsNull(Column(c)) =>
        assert Eval(cal, Column(c), row) == Lookup(row, c);
        NullCheckSound(cal, c, true, fields, row, tuple);
      case IsNotNull(Column(c)) =>
        assert Eval(cal, Column(c), row) == Lookup(row, c);
        NullCheckSound(cal, c, false, fields, row, tuple);
      case Binary(l, op, r) => BinarySound(cal, l, op, r, fields, row, tuple);
      case _ =>
    }
  }

  // ---- Precision ----

  /** The conjuncts of a conjunction, in order; anything else is its own conjunct. */
  function Conjuncts(e: Expr): seq<Expr> {
    if e.Binary? && e.op.And? then Conjuncts(e.left) + Conjuncts(e.right) else [e]
  }

  function Disjuncts(e: Expr): seq<Expr> {
    if e.Binary? && e.op.Or? then Disjuncts(e.left) + Disjuncts(e.right) else [e]
  }

  lemma BothSidesKept(cal: Calendar, e: Expr, fields: seq<BoundField>, tuple: Row)
    requires e.Binary? && e.op.And?
    ensures
      var l, r := TransformPredicate(e.left, fields), TransformPredicate(e.right, fields);
      && (TransformPredicate(e, fields).Some? <==> l.Some? || r.Some?)
      && (TransformPredicate(e, fields).Some? ==>
            (Holds(cal, TransformPredicate(e, fields).value, tuple) <==>
              (l.Some? ==> Holds(cal, l.value, tuple)) && (r.Some? ==> Holds(cal, r.value, tuple))))
  {
  }

  /** No conjunct that projects is given up: the projection is the conjunction of all of theirs. */
  lemma {:induction false} ConjunctsAllKept(cal: Calendar, e: Expr, fields: seq<BoundField>, tuple: Row)
    ensures TransformPredicate(e, fields).Some? <==> exists c :: c in Conjuncts(e) && TransformPredicate(c, fields).Some?
    ensures TransformPredicate(e, fields).Some? ==>
      (Holds(cal, TransformPredicate(e, fields).value, tuple) <==>
        forall c :: c in Conjuncts(e) && TransformPredicate(c, fields).Some? ==> Holds(cal, TransformPredicate(c, fields).value, tuple))
  {
    if e.Binary? && e.op.And? {
      BothSidesKept(cal, e, fields, tuple);
      ConjunctsAllKept(cal, e.left, fields, tuple);
      ConjunctsAllKept(cal, e.right, fields, tuple);
      assert forall c :: c in Conjuncts(e) <==> c in Conjuncts(e.left) || c in Conjuncts(e.right);
    }
  }

  /** A disjunction projects exactly when every disjunct does, onto the disjunction of theirs. */
  lemma {:induction false} DisjunctsAllNeeded(cal: Calendar, e: Expr, fields: seq<BoundField>, tuple: Row)
    ensures TransformPredicate(e, fields).Some? <==> forall c :: c in Disjuncts(e) ==> TransformPredicate(c, fields).Some?
    ensures TransformPredicate(e, fields).Some? ==>
      (Holds(cal, TransformPredicate(e, fields).value, tuple) <==>
        exists c :: c in Disjuncts(e) && Holds(cal, TransformPredicate(c, fields).value, tuple))
  {
    if e.Binary? && e.op.Or? {
      DisjunctsAllNeeded(cal, e.left, fields, tuple);
      DisjunctsAllNeeded(cal, e.right, fields, tuple);
      assert forall c :: c in Disjuncts(e) <==> c in Disjuncts(e.left) || c in Disjuncts(e.right);
    }
  }

  predicate ComparesWeakly(t: SourceType, op: Operator, v: Scalar, value: Scalar)
    requires Supported(op)
  {
    LiteralMatchesSource(v, t) && IntCompare(Weaken(op), IntOf(v), IntOf(value))
  }

  predicate PreEpochMidnight(t: Transform, value: Scalar) {
    t.Day? && value.TimestampMicros? && value.us < 0 && value.us % MICROS_IN_DAY == 0
  }

  /** Where the projection gives away precision: a pre-epoch midnight as an upper bound. */
  predicate GivesAway(t: Transform, op: Operator, value: Scalar) {
    PreEpochMidnight(t, value) && (op.Eq? || op.Lt? || op.LtEq?)
  }

  lemma WeakSameProjection(f: BoundField, op: Operator, value: Scalar)
    requires Supported(op) && Ordered(f.transform)
    ensures ProjectComparison(f, Weaken(op), value) == ProjectComparison(f, op, value)
  {
  }

  lemma LiteralRecordsBase(cal: Calendar, f: BoundField, value: Scalar, p: Scalar)
    requires ProperCalendar(cal) && Ordered(f.transform) && LiteralMatchesSource(value, f.sourceType)
    requires TransformLiteral(value, f.transform).Some? && BaseId(cal, f.transform, value).Some?
    requires if value.Int64? then p.Int64? else p.Int32?
    requires f.transform.Truncate? && value.Int32? ==> f.transform.width <= I32_MAX
    requires var base := BaseId(cal, f.transform, value).value;
      || IntOf(p) == base
      || (IntOf(p) == base + 1 && (f.transform.Month?
          || (LegacyTolerant(f.transform, value) && !PreEpochMidnight(f.transform, value))))
    ensures MayRecord(cal, f.transform, value, p)
  {
    if value.TimestampMicros? { TruncatedVsFloor(value.us, MICROS_IN_DAY); }
  }

  /** If an id passes, either the value it was recorded for matches weakly or the literal records it. */
  lemma PassingIdNearLiteral(cal: Calendar, f: BoundField, op: Operator, value: Scalar, seen: Scalar, p: Scalar)
    requires ProperCalendar(cal) && Ordered(f.transform) && Supported(op)
    requires LiteralMatchesSource(value, f.sourceType) && LiteralMatchesSource(seen, f.sourceType) && !seen.Utf8?
    requires f.transform.Truncate? && value.Int32? ==> f.transform.width <= I32_MAX
    requires MayRecord(cal, f.transform, seen, p) && BaseId(cal, f.transform, value).Some?
    requires IdTest(op, LegacyTolerant(f.transform, value), BaseId(cal, f.transform, value).value, IntOf(p))
    requires !GivesAway(f.transform, op, value)
    requires !ComparesWeakly(f.sourceType, op, seen, value)
    ensures var base := BaseId(cal, f.transform, value).value;
      || IntOf(p) == base
      || (IntOf(p) == base + 1 && (f.transform.Month?
          || (LegacyTolerant(f.transform, value) && !PreEpochMidnight(f.transform, value))))
  {
    var t := f.transform;
    RecordedNearBase(cal, t, seen, p);
    if IntOf(seen) <= IntOf(value) { BaseIdMonotone(cal, t, seen, value, f.sourceType); }
    if IntOf(seen) >= IntOf(value) { BaseIdMonotone(cal, t, value, seen, f.sourceType); }
    if t.Day? && value.TimestampMicros? && value.us >= 0 { DivMonotone(0, value.us, MICROS_IN_DAY); }
  }

  /** `seen` was recorded as the tuple's value, and the projection passes it just when some weak match may have been. */
  ghost predicate ExactOn(cal: Calendar, f: BoundField, op: Operator, value: Scalar, seen: Scalar, tuple: Row)
    requires Supported(op)
  {
    LiteralMatchesSource(seen, f.sourceType) && MayRecord(cal, f.transform, seen, Lookup(tuple, f.name))
    && ProjectComparison(f, op, value).Some? ==>
      (Holds(cal, ProjectComparison(f, op, value).value, tuple) <==>
       exists v :: MayRecord(cal, f.transform, v, Lookup(tuple, f.name)) && ComparesWeakly(f.sourceType, op, v, value))
  }

  /**
   Among the partition values a writer can have recorded, the projected comparison picks
   exactly those some weakly matching source value can have.
   */
  lemma OrderedExact(cal: Calendar, f: BoundField, op: Operator, value: Scalar, seen: Scalar, tuple: Row)
    requires ProperCalendar(cal) && Ordered(f.transform) && Supported(op)
    requires LiteralMatchesSource(value, f.sourceType)
    requires !GivesAway(f.transform, op, value)
    ensures ExactOn(cal, f, op, value, seen, tuple)
  {
    if LiteralMatchesSource(seen, f.sourceType) && MayRecord(cal, f.transform, seen, Lookup(tuple, f.name))
       && ProjectComparison(f, op, value).Some? {
      var t, p := f.transform, Lookup(tuple, f.name);
      if v :| MayRecord(cal, t, v, p) && ComparesWeakly(f.sourceType, op, v, value) {
        WeakSameProjection(f, op, value);
        ProjectableLiteral(cal, f, op, value);
        SameTypeCompare(Weaken(op), v, value, f.sourceType);
        OrderedSound(cal, f, Weaken(op), value, v, tuple);
      }
      if Holds(cal, ProjectComparison(f, op, value).value, tuple) && !ComparesWeakly(f.sourceType, op, seen, value) {
        ExactOnlyIf(cal, f, op, value, seen, tuple);
        assert ComparesWeakly(f.sourceType, op, value, value);
      }
    }
  }

  lemma ProjectableLiteral(cal: Calendar, f: BoundField, op: Operator, value: Scalar)
    requires Ordered(f.transform) && LiteralMatchesSource(value, f.sourceType)
    requires ProjectComparison(f, op, value).Some?
    ensures TransformLiteral(value, f.transform).Some?
    ensures f.transform.Truncate? ==> !value.Utf8?
    ensures f.transform.Truncate? && value.Int32? ==> f.transform.width <= I32_MAX
    ensures f.transform.Truncate? ==> BaseId(cal, f.transform, value).Some?
  {
  }

  lemma ExactOnlyIf(cal: Calendar, f: BoundField, op: Operator, value: Scalar, seen: Scalar, tuple: Row)
    requires ProperCalendar(cal) && Ordered(f.transform) && Supported(op)
    requires LiteralMatchesSource(value, f.sourceType) && LiteralMatchesSource(seen, f.sourceType)
    requires MayRecord(cal, f.transform, seen, Lookup(tuple, f.name))
    requires ProjectComparison(f, op, value).Some?
    requires !GivesAway(f.transform, op, value)
    requires Holds(cal, ProjectComparison(f, op, value).value, tuple)
    requires !ComparesWeakly(f.sourceType, op, seen, value)
    ensures MayRecord(cal, f.transform, value, Lookup(tuple, f.name))
  {
    ProjectableLiteral(cal, f, op, value);
    RecordedNearBase(cal, f.transform, seen, Lookup(tuple, f.name));
    assert BaseId(cal, f.transform, value).Some?;
    OrderedComparisonMeaning(cal, f, op, value, tuple);
    PassingIdNearLiteral(cal, f, op, value, seen, Lookup(tuple, f.name));
    LiteralRecordsBase(cal, f, value, Lookup(tuple, f.name));
  }

  /**
   Every such literal does lose precision: the id of the day after passes, a writer may
   have recorded it, but for no value that matches.
   */
  lemma PreEpochMidnightImprecise(cal: Calendar, f: BoundField, op: Operator, value: Scalar)
      returns (seen: Scalar, tuple: Row)
    requires ProperCalendar(cal) && LiteralMatchesSource(value, f.sourceType) && Supported(op)
    requires GivesAway(f.transform, op, value)
    ensures LiteralMatchesSource(seen, f.sourceType) && MayRecord(cal, Day, seen, Lookup(tuple, f.name))
    ensures ProjectComparison(f, op, value).Some? && Holds(cal, ProjectComparison(f, op, value).value, tuple)
    ensures forall v :: MayRecord(cal, Day, v, Lookup(tuple, f.name)) ==> !ComparesWeakly(f.sourceType, op, v, value)
    ensures !ExactOn(cal, f, op, value, seen, tuple)
  {
    var day := value.us / MICROS_IN_DAY;
    DayFits(value.us, MICROS_IN_DAY);
    seen := TimestampMicros((day + 1) * MICROS_IN_DAY, value.zone);
    DivOfSum(day + 1, 0, MICROS_IN_DAY);
    tuple := map[f.name := Int32(day + 1)];
    OrderedComparisonMeaning(cal, f, op, value, tuple);
    forall v | MayRecord(cal, Day, v, Int32(day + 1)) ensures !ComparesWeakly(f.sourceType, op, v, value) {
      if ComparesWeakly(f.sourceType, op, v, value) {
        TruncatedMonotone(v.us, value.us, MICROS_IN_DAY);
        DivMonotone(v.us, value.us, MICROS_IN_DAY);
        OnGridTruncates(value.us);
      }
    }
  }

  lemma OnGridTruncates(us: int)
    requires us < 0 && us % MICROS_IN_DAY == 0
    ensures TruncatedDiv(us, MICROS_IN_DAY) == us / MICROS_IN_DAY
  {
  }

  /** The projected comparison is exact if and only if its literal is not such a bound. */
  lemma OrderedExactIff(cal: Calendar, f: BoundField, op: Operator, value: Scalar)
    requires ProperCalendar(cal) && Ordered(f.transform) && Supported(op)
    requires LiteralMatchesSource(value, f.sourceType)
    ensures (forall seen, tuple :: ExactOn(cal, f, op, value, seen, tuple)) <==> !GivesAway(f.transform, op, value)
  {
    if GivesAway(f.transform, op, value) {
      var seen, tuple := PreEpochMidnightImprecise(cal, f, op, value);
      assert !ExactOn(cal, f, op, value, seen, tuple);
    } else {
      forall seen, tuple ensures ExactOn(cal, f, op, value, seen, tuple) {
        OrderedExact(cal, f, op, value, seen, tuple);
      }
    }
  }
}
