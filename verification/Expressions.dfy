/**
 Row and partition predicates with SQL's three-valued meaning, and the statistics
 evaluator that decides from minima, maxima and null counts whether a container of
 rows can be skipped.
 */
module Expressions {
  import opened Scalars

  /** Year and month ids of a day number; the calendar arithmetic itself is a parameter. */
  datatype Calendar = Calendar(year: int -> int, month: int -> int)

  /** Monotone over the days a date or timestamp can fall on, with ids that fit. */
  ghost predicate ProperCalendar(cal: Calendar) {
    && (forall a: I32, b: I32 :: a <= b ==> cal.year(a) <= cal.year(b))
    && (forall a: I32, b: I32 :: a <= b ==> cal.month(a) <= cal.month(b))
    && (forall d: I32 :: I32_MIN <= cal.year(d) < I32_MAX)
    && (forall d: I32 :: I32_MIN <= cal.month(d) < I32_MAX)
  }

  const MICROS_IN_HOUR: int := 3_600_000_000
  const NANOS_IN_HOUR: int := 3_600_000_000_000
  const MICROS_IN_DAY: int := 86_400_000_000
  const NANOS_IN_DAY: int := 86_400_000_000_000

  datatype DatePart = YearPart | MonthPart | DayPart

  /** A value as a binary operator sees it: timestamps are first brought to one unit. */
  datatype Operand = Plain(scalar: Scalar) | Instant(nanos: int, zone: Zone)

  function Coerced(s: Scalar): Operand {
    match s
    case TimestampMicros(us, zone) => Instant(1000 * us, zone)
    case TimestampNanos(ns, zone) => Instant(ns, zone)
    case _ => Plain(s)
  }

  datatype Operator =
    | Eq | NotEq | Lt | LtEq | Gt | GtEq
    | And | Or | Plus
    | OtherOp(apply: (Operand, Operand) -> Scalar)

  /** `Other` stands for every expression form the projection does not look inside. */
  datatype Expr =
    | Column(name: string)
    | Literal(value: Scalar)
    | Cast(inner: Expr, convert: Scalar -> Option<Scalar>)
    | Binary(left: Expr, op: Operator, right: Expr)
    | IsNull(inner: Expr)
    | IsNotNull(inner: Expr)
    | DateTransform(part: DatePart, argument: Expr)
    | Other(meaning: seq<Scalar> -> Scalar, arguments: seq<Expr>)

  type Row = map<string, Scalar>

  function Lookup(row: Row, name: string): Scalar {
    if name in row then row[name] else Null
  }

  /** The UTC day number a date or timestamp falls on. */
  function DayOf(s: Scalar): Option<int> {
    match s
    case Date32(d) => Some(d)
    case TimestampMicros(us, _) => Some(us / MICROS_IN_DAY)
    case TimestampNanos(ns, _) => Some(ns / NANOS_IN_DAY)
    case _ => None
  }

  function OfInt(x: int): Scalar {
    if FitsI32(x) then Int32(x) else Null
  }

  function DateTransformOf(cal: Calendar, part: DatePart, s: Scalar): Scalar {
    match DayOf(s)
    case None => Null
    case Some(d) =>
      match part
      case YearPart => OfInt(cal.year(d))
      case MonthPart => OfInt(cal.month(d))
      case DayPart => OfInt(d)
  }

  predicate IsComparison(op: Operator) {
    op.Eq? || op.NotEq? || op.Lt? || op.LtEq? || op.Gt? || op.GtEq?
  }

  /** A comparison with null, or between values with no common order, is unknown. */
  function Compare(op: Operator, a: Scalar, b: Scalar): Scalar
    requires IsComparison(op)
  {
    if !Comparable(a, b) || !Comparable(b, a) then Null
    else
      match op
      case Eq => Boolean(Leq(a, b) && Leq(b, a))
      case NotEq => Boolean(!(Leq(a, b) && Leq(b, a)))
      case Lt => Boolean(!Leq(b, a))
      case LtEq => Boolean(Leq(a, b))
      case Gt => Boolean(!Leq(a, b))
      case GtEq => Boolean(Leq(b, a))
  }

  function AndOf(a: Scalar, b: Scalar): Scalar {
    if a == Boolean(false) || b == Boolean(false) then Boolean(false)
    else if a == Boolean(true) && b == Boolean(true) then Boolean(true)
    else Null
  }

  function OrOf(a: Scalar, b: Scalar): Scalar {
    if a == Boolean(true) || b == Boolean(true) then Boolean(true)
    else if a == Boolean(false) && b == Boolean(false) then Boolean(false)
    else Null
  }

  function Apply(op: Operator, a: Scalar, b: Scalar): Scalar {
    match op
    case And => AndOf(a, b)
    case Or => OrOf(a, b)
    case Plus => if a.Int32? && b.Int32? then OfInt(a.int32 + b.int32) else Null
    case OtherOp(f) => f(Coerced(a), Coerced(b))
    case _ => Compare(op, a, b)
  }

  function Eval(cal: Calendar, e: Expr, row: Row): Scalar {
    match e
    case Column(name) => Lookup(row, name)
    case Literal(value) => value
    case Cast(inner, convert) =>
      var converted := convert(Eval(cal, inner, row));
      if converted.Some? then converted.value else Null
    case Binary(l, op, r) => Apply(op, Eval(cal, l, row), Eval(cal, r, row))
    case IsNull(inner) => Boolean(Eval(cal, inner, row).Null?)
    case IsNotNull(inner) => Boolean(!Eval(cal, inner, row).Null?)
    case DateTransform(part, argument) => DateTransformOf(cal, part, Eval(cal, argument, row))
    case Other(meaning, arguments) => meaning(EvalAll(cal, arguments, row))
  }

  function EvalAll(cal: Calendar, es: seq<Expr>, row: Row): seq<Scalar> {
    if es == [] then [] else [Eval(cal, es[0], row)] + EvalAll(cal, es[1..], row)
  }

  ghost predicate Holds(cal: Calendar, e: Expr, row: Row) {
    Eval(cal, e, row) == Boolean(true)
  }

  function ColumnRefs(e: Expr): set<string> {
    match e
    case Column(name) => {name}
    case Literal(_) => {}
    case Cast(inner, _) => ColumnRefs(inner)
    case Binary(l, _, r) => ColumnRefs(l) + ColumnRefs(r)
    case IsNull(inner) => ColumnRefs(inner)
    case IsNotNull(inner) => ColumnRefs(inner)
    case DateTransform(_, argument) => ColumnRefs(argument)
    case Other(_, arguments) => AllColumnRefs(arguments)
  }

  function AllColumnRefs(es: seq<Expr>): set<string> {
    if es == [] then {} else ColumnRefs(es[0]) + AllColumnRefs(es[1..])
  }

  ghost predicate Agree(names: set<string>, row: Row, other: Row) {
    forall name :: name in names ==> Lookup(row, name) == Lookup(other, name)
  }

  /** An expression depends only on the columns it mentions. */
  lemma {:induction false} EvalDependsOnRefs(cal: Calendar, e: Expr, row: Row, other: Row)
    requires Agree(ColumnRefs(e), row, other)
    ensures Eval(cal, e, row) == Eval(cal, e, other)
  {
    match e
    case Column(name) =>
    case Literal(_) =>
    case Cast(inner, _) => EvalDependsOnRefs(cal, inner, row, other);
    case Binary(l, _, r) =>
      EvalDependsOnRefs(cal, l, row, other);
      EvalDependsOnRefs(cal, r, row, other);
    case IsNull(inner) => EvalDependsOnRefs(cal, inner, row, other);
    case IsNotNull(inner) => EvalDependsOnRefs(cal, inner, row, other);
    case DateTransform(_, argument) => EvalDependsOnRefs(cal, argument, row, other);
    case Other(_, arguments) => EvalAllDependsOnRefs(cal, arguments, row, other);
  }

  lemma {:induction false} EvalAllDependsOnRefs(cal: Calendar, es: seq<Expr>, row: Row, other: Row)
    requires Agree(AllColumnRefs(es), row, other)
    ensures EvalAll(cal, es, row) == EvalAll(cal, es, other)
  {
    if es != [] {
      EvalDependsOnRefs(cal, es[0], row, other);
      EvalAllDependsOnRefs(cal, es[1..], row, other);
    }
  }

  /** What is known of one column over one container; a missing part is unknown. */
  datatype ColumnStats = ColumnStats(
    min: Option<Scalar>, max: Option<Scalar>, nulls: Option<int>, rows: Option<int>)

  const UNKNOWN: ColumnStats := ColumnStats(None, None, None, None)

  type Statistics = map<string, ColumnStats>

  function StatsOf(stats: Statistics, name: string): ColumnStats {
    if name in stats then stats[name] else UNKNOWN
  }

  function CompareBound(op: Operator, bound: Option<Scalar>, v: Scalar): Scalar
    requires IsComparison(op)
  {
    if bound.None? then Null else Compare(op, bound.value, v)
  }

  function NotAllNull(st: ColumnStats): Scalar {
    if st.nulls.Some? && st.rows.Some? then Boolean(st.nulls.value != st.rows.value) else Null
  }

  function Flip(op: Operator): Operator
    requires IsComparison(op)
    ensures IsComparison(Flip(op))
  {
    match op
    case Lt => Gt
    case LtEq => GtEq
    case Gt => Lt
    case GtEq => LtEq
    case _ => op
  }

  /** Whether some value in the container's range can satisfy the comparison. */
  function RangeCheck(op: Operator, st: ColumnStats, v: Scalar): Scalar
    requires IsComparison(op)
  {
    AndOf(NotAllNull(st),
      match op
      case Eq => AndOf(CompareBound(LtEq, st.min, v), CompareBound(GtEq, st.max, v))
      case NotEq => OrOf(CompareBound(NotEq, st.min, v), CompareBound(NotEq, st.max, v))
      case Lt => CompareBound(Lt, st.min, v)
      case LtEq => CompareBound(LtEq, st.min, v)
      case Gt => CompareBound(Gt, st.max, v)
      case _ => CompareBound(GtEq, st.max, v))
  }

  /**
   The pruning evaluator: false only when no row of the container can satisfy `e`.
   Whatever it cannot decide from the statistics is unknown.
   */
  function PruneEval(cal: Calendar, e: Expr, stats: Statistics): Scalar {
    match e
    case Literal(Boolean(b)) => Boolean(b)
    case IsNull(Column(c)) =>
      var nulls := StatsOf(stats, c).nulls;
      if nulls.Some? then Boolean(nulls.value > 0) else Null
    case IsNotNull(Column(c)) => NotAllNull(StatsOf(stats, c))
    case Binary(l, op, r) =>
      if op.And? then AndOf(PruneEval(cal, l, stats), PruneEval(cal, r, stats))
      else if op.Or? then OrOf(PruneEval(cal, l, stats), PruneEval(cal, r, stats))
      else if !IsComparison(op) then Null
      else if l.Column? && ColumnRefs(r) == {} then
        RangeCheck(op, StatsOf(stats, l.name), Eval(cal, r, map[]))
      else if r.Column? && ColumnRefs(l) == {} then
        RangeCheck(Flip(op), StatsOf(stats, r.name), Eval(cal, l, map[]))
      else Null
    case _ => Null
  }

  ghost predicate Kept(cal: Calendar, e: Expr, stats: Statistics) {
    PruneEval(cal, e, stats) != Boolean(false)
  }

  /** The statistics are true of a container that holds a row with value `x` in the column. */
  ghost predicate StatsAdmit(st: ColumnStats, x: Scalar) {
    if x.Null? then st.nulls.Some? ==> st.nulls.value > 0
    else
      && (st.min.Some? && Comparable(st.min.value, x) ==> Leq(st.min.value, x))
      && (st.max.Some? && Comparable(x, st.max.value) ==> Leq(x, st.max.value))
      && (st.nulls.Some? && st.rows.Some? ==> st.nulls.value < st.rows.value)
  }

  ghost predicate Admits(stats: Statistics, row: Row) {
    forall c :: StatsAdmit(StatsOf(stats, c), Lookup(row, c))
  }

  /** Being below a smaller bound carries over, in both strengths. */
  lemma BoundCarries(lo: Scalar, mid: Scalar, v: Scalar)
    requires Comparable(lo, mid) && Leq(lo, mid)
    requires Comparable(mid, v)
    ensures Comparable(lo, v) && Comparable(v, lo) && Comparable(v, mid)
    ensures Leq(mid, v) ==> Leq(lo, v)
    ensures Leq(v, lo) ==> Leq(v, mid)
  {
    LeqTotal(mid, v);
    LeqTotal(lo, mid);
    if Leq(mid, v) { LeqTransitive(lo, mid, v); }
    if Leq(v, lo) { LeqTransitive(v, lo, mid); }
  }

  lemma LowerCheckSound(op: Operator, bound: Option<Scalar>, x: Scalar, v: Scalar)
    requires op.Lt? || op.LtEq? || op.Eq?
    requires !x.Null? && (bound.Some? && Comparable(bound.value, x) ==> Leq(bound.value, x))
    requires Compare(op, x, v) == Boolean(true)
    ensures CompareBound(if op.Eq? then LtEq else op, bound, v) != Boolean(false)
  {
    if bound.Some? && Comparable(bound.value, v) {
      BoundCarries(bound.value, x, v);
    }
  }

  lemma UpperCheckSound(op: Operator, bound: Option<Scalar>, x: Scalar, v: Scalar)
    requires op.Gt? || op.GtEq? || op.Eq?
    requires !x.Null? && (bound.Some? && Comparable(x, bound.value) ==> Leq(x, bound.value))
    requires Compare(op, x, v) == Boolean(true)
    ensures CompareBound(if op.Eq? then GtEq else op, bound, v) != Boolean(false)
  {
    if bound.Some? && Comparable(bound.value, v) {
      LeqTotal(v, x);
      LeqTotal(x, bound.value);
      if Leq(v, x) { LeqTransitive(v, x, bound.value); }
      if Leq(bound.value, v) { LeqTransitive(x, bound.value, v); }
    }
  }

  lemma UnequalCheckSound(st: ColumnStats, x: Scalar, v: Scalar)
    requires StatsAdmit(st, x)
    requires Compare(NotEq, x, v) == Boolean(true)
    ensures OrOf(CompareBound(NotEq, st.min, v), CompareBound(NotEq, st.max, v)) != Boolean(false)
  {
    LeqTotal(x, v);
    if CompareBound(NotEq, st.min, v) == Boolean(false) && CompareBound(NotEq, st.max, v) == Boolean(false) {
      LeqTotal(st.min.value, x);
      LeqTotal(x, st.max.value);
      LeqTransitive(v, st.min.value, x);
      LeqTransitive(x, st.max.value, v);
    }
  }

  lemma RangeCheckSound(op: Operator, st: ColumnStats, x: Scalar, v: Scalar)
    requires IsComparison(op)
    requires StatsAdmit(st, x)
    requires Compare(op, x, v) == Boolean(true)
    ensures RangeCheck(op, st, v) != Boolean(false)
  {
    match op
    case NotEq => UnequalCheckSound(st, x, v);
    case Eq =>
      LowerCheckSound(op, st.min, x, v);
      UpperCheckSound(op, st.max, x, v);
    case Lt => LowerCheckSound(op, st.min, x, v);
    case LtEq => LowerCheckSound(op, st.min, x, v);
    case Gt => UpperCheckSound(op, st.max, x, v);
    case GtEq => UpperCheckSound(op, st.max, x, v);
    case _ =>
  }

  lemma CompareFlip(op: Operator, a: Scalar, b: Scalar)
    requires IsComparison(op)
    ensures Compare(op, a, b) == Compare(Flip(op), b, a)
  {
  }

  /** A container holding a row that satisfies the predicate is never skipped. */
  lemma {:induction false} PruneSound(cal: Calendar, e: Expr, stats: Statistics, row: Row)
    requires Admits(stats, row)
    requires Holds(cal, e, row)
    ensures Kept(cal, e, stats)
  {
    match e
    case Binary(l, op, r) =>
      if op.And? {
        PruneSound(cal, l, stats, row);
        PruneSound(cal, r, stats, row);
      } else if op.Or? {
        if Holds(cal, l, row) { PruneSound(cal, l, stats, row); }
        else { PruneSound(cal, r, stats, row); }
      } else if !IsComparison(op) {
      } else if l.Column? && ColumnRefs(r) == {} {
        EvalDependsOnRefs(cal, r, row, map[]);
        assert Eval(cal, l, row) == Lookup(row, l.name);
        RangeCheckSound(op, StatsOf(stats, l.name), Lookup(row, l.name), Eval(cal, r, map[]));
      } else if r.Column? && ColumnRefs(l) == {} {
        EvalDependsOnRefs(cal, l, row, map[]);
        assert Eval(cal, r, row) == Lookup(row, r.name);
        CompareFlip(op, Eval(cal, l, map[]), Lookup(row, r.name));
        RangeCheckSound(Flip(op), StatsOf(stats, r.name), Lookup(row, r.name), Eval(cal, l, map[]));
      }
    case IsNull(Column(c)) =>
      assert Eval(cal, Column(c), row) == Lookup(row, c);
    case IsNotNull(Column(c)) =>
      assert Eval(cal, Column(c), row) == Lookup(row, c);
    case _ =>
  }
}
