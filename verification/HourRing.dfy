/**
 Hour ids are stored in 32 bits: an hour outside that range wraps around. This module
 holds the hour window a timestamp comparison allows and the wrapped id of an hour.
 */
module HourRing {
  import opened Scalars
  import opened Expressions

  const HOUR_ID_MODULUS: int := 0x1_0000_0000

  /** The signed 32-bit id of an hour. */
  function WrappedId(hour: int): (id: int)
    ensures FitsI32(id)
  {
    (hour - I32_MIN) % HOUR_ID_MODULUS + I32_MIN
  }

  /** Division as older writers did it, dropping the fraction toward zero. */
  function TruncatedDiv(x: int, unit: int): int
    requires unit > 0
  {
    if x >= 0 then x / unit else -((-x) / unit)
  }

  function CheckedI64(x: int): Option<int> {
    if FitsI64(x) then Some(x) else None
  }

  /** The hours a row may carry when its timestamp satisfies the comparison. */
  function HourWindow(op: Operator, timestamp: I64, unit: int): Option<(int, int)>
    requires unit > 0
  {
    var hour := timestamp / unit;
    var slack := if timestamp < 0 then 1 else 0;
    match op
    case Eq =>
      if CheckedI64(hour + slack).None? then None else Some((hour, hour + slack))
    case Lt =>
      if CheckedI64(hour + slack).None? then None else Some((I64_MIN / unit, hour + slack))
    case LtEq =>
      if CheckedI64(hour + slack).None? then None else Some((I64_MIN / unit, hour + slack))
    case Gt => Some((hour, I64_MAX / unit))
    case GtEq => Some((hour, I64_MAX / unit))
    case _ => None
  }

  predicate Supported(op: Operator) {
    op.Eq? || op.Lt? || op.LtEq? || op.Gt? || op.GtEq?
  }

  /** `x op y` on plain integers. */
  predicate IntCompare(op: Operator, x: int, y: int)
    requires Supported(op)
  {
    match op
    case Eq => x == y
    case Lt => x < y
    case LtEq => x <= y
    case Gt => x > y
    case _ => x >= y
  }

  function Weaken(op: Operator): Operator
    requires Supported(op)
    ensures Supported(Weaken(op))
  {
    match op
    case Lt => LtEq
    case Gt => GtEq
    case _ => op
  }

  lemma DivBounds(x: int, unit: int)
    requires unit > 0
    ensures x / unit * unit <= x < x / unit * unit + unit
  {
  }

  lemma DivMonotone(x: int, y: int, unit: int)
    requires unit > 0 && x <= y
    ensures x / unit <= y / unit
  {
    DivBounds(x, unit);
    DivBounds(y, unit);
    if x / unit > y / unit {
      assert x / unit >= y / unit + 1;
      MulMonotone(y / unit + 1, x / unit, unit);
    }
  }

  lemma MulMonotone(a: int, b: int, unit: int)
    requires unit > 0 && a <= b
    ensures a * unit <= b * unit
  {
  }

  lemma DivOfSum(k: int, r: int, unit: int)
    requires unit > 0 && 0 <= r < unit
    ensures (k * unit + r) / unit == k
  {
    var x := k * unit + r;
    DivBounds(x, unit);
    if x / unit > k { MulMonotone(k + 1, x / unit, unit); }
    if x / unit < k { MulMonotone(x / unit + 1, k, unit); }
  }

  /** Truncation toward zero is the floor, or one more for a negative value off the grid. */
  lemma TruncatedVsFloor(x: int, unit: int)
    requires unit > 0
    ensures x >= 0 ==> TruncatedDiv(x, unit) == x / unit
    ensures x < 0 ==> x / unit <= TruncatedDiv(x, unit) <= x / unit + 1
    ensures x < 0 && x % unit != 0 ==> TruncatedDiv(x, unit) == x / unit + 1
    ensures x < 0 ==> TruncatedDiv(x, unit) <= 0
  {
    if x < 0 {
      var q, r := x / unit, x % unit;
      assert x == q * unit + r;
      if r == 0 {
        assert -x == (-q) * unit;
        DivOfSum(-q, 0, unit);
      } else {
        assert -x == (-q - 1) * unit + (unit - r) by { assert (-q - 1) * unit == -(q * unit) - unit; }
        DivOfSum(-q - 1, unit - r, unit);
      }
      DivMonotone(0, -x, unit);
      assert 0 / unit == 0;
    }
  }

  lemma TruncatedMonotone(x: int, y: int, unit: int)
    requires unit > 0 && x <= y
    ensures TruncatedDiv(x, unit) <= TruncatedDiv(y, unit)
  {
    TruncatedVsFloor(x, unit);
    TruncatedVsFloor(y, unit);
    if x >= 0 {
      DivMonotone(x, y, unit);
    } else if y < 0 {
      DivMonotone(-y, -x, unit);
    } else {
      DivMonotone(0, y, unit);
      assert 0 / unit == 0;
    }
  }

  /** No step of the window overflows 64 bits, and it exists for every supported operator. */
  lemma HourWindowDefined(op: Operator, timestamp: I64, unit: int)
    requires unit > 0
    ensures HourWindow(op, timestamp, unit).Some? <==> Supported(op)
    ensures Supported(op) ==>
      var (lo, hi) := HourWindow(op, timestamp, unit).value;
      I64_MIN <= lo <= hi <= I64_MAX
  {
    DivMonotone(I64_MIN, timestamp, unit);
    DivMonotone(timestamp, I64_MAX, unit);
    DivBounds(I64_MIN, unit);
    DivBounds(timestamp, unit);
    if I64_MIN / unit < I64_MIN {
      MulMonotone(I64_MIN / unit, I64_MIN - 1, unit);
      NegativeScaling(I64_MIN - 1, unit);
    }
    if timestamp >= 0 { DivMonotone(0, timestamp, unit); assert 0 / unit == 0; }
    else { DivMonotone(timestamp, -1, unit); assert -1 / unit == -1 by { DivOfSum(-1, unit - 1, unit); } }
    PositiveDivShrinks(I64_MAX, unit);
    NegativeDivGrows(I64_MIN, unit);
  }

  lemma NegativeScaling(a: int, unit: int)
    requires unit > 0 && a < 0
    ensures a * unit <= a
  {
  }

  lemma PositiveDivShrinks(x: int, unit: int)
    requires unit > 0 && x >= 0
    ensures 0 <= x / unit <= x
  {
    DivMonotone(0, x, unit);
    assert 0 / unit == 0;
    DivBounds(x, unit);
    if x / unit > x { NonNegativeScaling(x / unit, unit); }
  }

  lemma NonNegativeScaling(a: int, unit: int)
    requires unit > 0 && a >= 0
    ensures a * unit >= a
  {
  }

  lemma NegativeDivGrows(x: int, unit: int)
    requires unit > 0 && x <= 0
    ensures x <= x / unit <= 0
  {
    DivMonotone(x, 0, unit);
    assert 0 / unit == 0;
    DivBounds(x, unit);
    if x / unit < x {
      NegativeScaling(x / unit + 1, unit);
    }
  }

  /** Every matching timestamp has both its floored and its truncated hour in the window. */
  lemma HourWindowCovers(op: Operator, timestamp: I64, unit: int, x: I64)
    requires unit > 0 && Supported(op)
    requires IntCompare(op, x, timestamp)
    ensures HourWindow(op, timestamp, unit).Some?
    ensures var (lo, hi) := HourWindow(op, timestamp, unit).value;
      lo <= x / unit <= hi && lo <= TruncatedDiv(x, unit) <= hi
  {
    HourWindowDefined(op, timestamp, unit);
    TruncatedVsFloor(x, unit);
    TruncatedVsFloor(timestamp, unit);
    DivMonotone(I64_MIN, x, unit);
    DivMonotone(x, I64_MAX, unit);
    TruncatedVsFloor(I64_MAX, unit);
    TruncatedMonotone(x, I64_MAX, unit);
    if x <= timestamp { DivMonotone(x, timestamp, unit); TruncatedMonotone(x, timestamp, unit); }
    if x >= timestamp { DivMonotone(timestamp, x, unit); }
  }

  /** The window is not padded: each hour in it is within one of a weakly matching timestamp's. */
  lemma HourWindowTight(op: Operator, timestamp: I64, unit: int, hour: int) returns (x: I64)
    requires unit > 0 && Supported(op)
    requires HourWindow(op, timestamp, unit).Some?
    requires var (lo, hi) := HourWindow(op, timestamp, unit).value; lo <= hour <= hi
    ensures IntCompare(Weaken(op), x, timestamp)
    ensures x / unit <= hour <= x / unit + 1
  {
    var own := timestamp / unit;
    DivBounds(timestamp, unit);
    if own <= hour <= own + 1 {
      x := timestamp;
    } else if hour < own {
      DivBounds(I64_MIN, unit);
      if hour == I64_MIN / unit {
        x := I64_MIN;
      } else {
        MulMonotone(I64_MIN / unit + 1, hour, unit);
        assert (I64_MIN / unit + 1) * unit == I64_MIN / unit * unit + unit;
        MulMonotone(hour, own, unit);
        x := hour * unit;
        DivOfSum(hour, 0, unit);
      }
    } else {
      DivBounds(I64_MAX, unit);
      MulMonotone(hour, I64_MAX / unit, unit);
      MulMonotone(own + 1, hour, unit);
      assert (own + 1) * unit == own * unit + unit;
      x := hour * unit;
      DivOfSum(hour, 0, unit);
    }
  }

  /** The wrapped id is the one 32-bit number that differs from the hour by whole turns. */
  lemma WrappedIdUnique(hour: int, id: int)
    requires FitsI32(id)
    ensures WrappedId(hour) == id <==> (hour - id) % HOUR_ID_MODULUS == 0
  {
    var t := (hour - I32_MIN) / HOUR_ID_MODULUS;
    assert hour - WrappedId(hour) == t * HOUR_ID_MODULUS;
    if (hour - id) % HOUR_ID_MODULUS == 0 {
      var u := (hour - id) / HOUR_ID_MODULUS;
      assert hour - id == u * HOUR_ID_MODULUS;
      assert WrappedId(hour) - id == (u - t) * HOUR_ID_MODULUS;
    }
  }

  ghost predicate InArc(lower: int, upper: int, id: int) {
    exists hour :: lower <= hour <= upper && WrappedId(hour) == id
  }

  /** The test the projection emits for a window, on the ids of its two ends. */
  predicate ArcTest(lower: int, upper: int, id: int) {
    if lower == upper then id == lower
    else if lower < upper then lower <= id && id <= upper
    else lower <= id || id <= upper
  }

  /** A window short of a full turn is tested exactly. */
  lemma ArcExact(lower: int, upper: int, id: int)
    requires lower <= upper && upper - lower < HOUR_ID_MODULUS - 1
    requires FitsI32(id)
    ensures ArcTest(WrappedId(lower), WrappedId(upper), id) <==> InArc(lower, upper, id)
  {
    var lo, hi := WrappedId(lower), WrappedId(upper);
    var hour := FirstHourFrom(lower, id);
    WindowEnd(lower, upper);
    if InArc(lower, upper, id) {
      var other :| lower <= other <= upper && WrappedId(other) == id;
      SameIdWholeTurns(other, hour);
      assert other == hour;
    }
  }

  /** The one hour in the turn that starts at `lower` with this id. */
  lemma FirstHourFrom(lower: int, id: int) returns (hour: int)
    requires FitsI32(id)
    ensures WrappedId(hour) == id
    ensures
      var lo := WrappedId(lower);
      hour == lower + (if id >= lo then id - lo else id - lo + HOUR_ID_MODULUS)
  {
    var lo := WrappedId(lower);
    hour := lower + (if id >= lo then id - lo else id - lo + HOUR_ID_MODULUS);
    WrappedIdUnique(lower, lo);
    var k := (lower - lo) / HOUR_ID_MODULUS;
    var m := if id >= lo then 0 else 1;
    assert hour - id == (k + m) * HOUR_ID_MODULUS;
    WrappedIdUnique(hour, id);
  }

  lemma WindowEnd(lower: int, upper: int)
    requires lower <= upper && upper - lower < HOUR_ID_MODULUS
    ensures
      var lo, hi := WrappedId(lower), WrappedId(upper);
      hi == lo + (upper - lower) || hi == lo + (upper - lower) - HOUR_ID_MODULUS
  {
    var lo, hi := WrappedId(lower), WrappedId(upper);
    WrappedIdUnique(lower, lo);
    WrappedIdUnique(upper, hi);
    var k := (lower - lo) / HOUR_ID_MODULUS;
    var m := (upper - hi) / HOUR_ID_MODULUS;
    assert hi - lo - (upper - lower) == (k - m) * HOUR_ID_MODULUS;
  }

  /** A longer window reaches every id, so no test could rule anything out. */
  lemma FullTurn(lower: int, upper: int, id: int)
    requires upper - lower >= HOUR_ID_MODULUS - 1
    requires FitsI32(id)
    ensures InArc(lower, upper, id)
  {
    var lo := WrappedId(lower);
    var hour := lower + (id - lo) % HOUR_ID_MODULUS;
    WrappedIdUnique(hour, id);
    WrappedIdUnique(lower, lo);
    var k := (lower - lo) / HOUR_ID_MODULUS;
    var m := (id - lo) / HOUR_ID_MODULUS;
    assert hour - id == (k - m) * HOUR_ID_MODULUS;
  }

  /** A window short of a full turn misses the id just past its end. */
  lemma ArcMisses(lower: int, upper: int)
    requires lower <= upper && upper - lower < HOUR_ID_MODULUS - 1
    ensures !InArc(lower, upper, WrappedId(upper + 1))
  {
    forall hour | lower <= hour <= upper ensures WrappedId(hour) != WrappedId(upper + 1) {
      if WrappedId(hour) == WrappedId(upper + 1) { SameIdWholeTurns(upper + 1, hour); }
    }
  }

  lemma SameIdWholeTurns(a: int, b: int)
    requires WrappedId(a) == WrappedId(b)
    ensures (a - b) % HOUR_ID_MODULUS == 0
  {
    var id := WrappedId(a);
    WrappedIdUnique(a, id);
    WrappedIdUnique(b, id);
    assert a - b == ((a - id) / HOUR_ID_MODULUS - (b - id) / HOUR_ID_MODULUS) * HOUR_ID_MODULUS;
  }
}
