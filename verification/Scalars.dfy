/**
 Typed literals and column values, with the comparison order that row predicates,
 partition predicates and pruning statistics share.
 */
module Scalars {

  datatype Option<+T> = None | Some(value: T)

  type U8 = x: int | 0 <= x < 0x100
  type I32 = x: int | -0x8000_0000 <= x < 0x8000_0000
  type I64 = x: int | -0x8000_0000_0000_0000 <= x < 0x8000_0000_0000_0000

  const I32_MIN: int := -0x8000_0000
  const I32_MAX: int := 0x7fff_ffff
  const I64_MIN: int := -0x8000_0000_0000_0000
  const I64_MAX: int := 0x7fff_ffff_ffff_ffff

  predicate FitsI32(x: int) { I32_MIN <= x <= I32_MAX }
  predicate FitsI64(x: int) { I64_MIN <= x <= I64_MAX }

  datatype Zone = NoZone | Utc | OtherZone

  datatype Scalar =
    | Null
    | Boolean(truth: bool)
    | Int32(int32: I32)
    | Int64(int64: I64)
    | Date32(days: I32)
    | Time64(micros: I64)
    | TimestampMicros(us: I64, zone: Zone)
    | TimestampNanos(ns: I64, zone: Zone)
    | Utf8(text: string)

  /** The family a value is compared in and its place there; none for null and text. */
  function Rank(s: Scalar): Option<(nat, int)> {
    match s
    case Boolean(b) => Some((0, if b then 1 else 0))
    case Int32(i) => Some((1, i))
    case Int64(i) => Some((1, i))
    case Date32(d) => Some((2, d))
    case Time64(t) => Some((3, t))
    case TimestampMicros(us, _) => Some((4, 1000 * us))
    case TimestampNanos(ns, _) => Some((4, ns))
    case _ => None
  }

  predicate TextLeq(a: string, b: string) {
    |a| == 0 || (|b| > 0 && (a[0] < b[0] || (a[0] == b[0] && TextLeq(a[1..], b[1..]))))
  }

  /** Whether an ordering comparison between the two values has an answer. */
  predicate Comparable(a: Scalar, b: Scalar) {
    || (a.Utf8? && b.Utf8?)
    || (Rank(a).Some? && Rank(b).Some? && Rank(a).value.0 == Rank(b).value.0)
  }

  predicate Leq(a: Scalar, b: Scalar)
    requires Comparable(a, b)
  {
    if a.Utf8? then TextLeq(a.text, b.text) else Rank(a).value.1 <= Rank(b).value.1
  }

  lemma {:induction false} TextLeqTotal(a: string, b: string)
    ensures TextLeq(a, a)
    ensures TextLeq(a, b) || TextLeq(b, a)
    ensures TextLeq(a, b) && TextLeq(b, a) ==> a == b
  {
    if |a| > 0 {
      TextLeqTotal(a[1..], if |b| > 0 then b[1..] else []);
      if |b| > 0 && a[0] == b[0] && TextLeq(a, b) && TextLeq(b, a) {
        assert a == [a[0]] + a[1..] == [b[0]] + b[1..] == b;
      }
    }
  }

  lemma {:induction false} TextLeqTransitive(a: string, b: string, c: string)
    requires TextLeq(a, b) && TextLeq(b, c)
    ensures TextLeq(a, c)
  {
    if |a| > 0 && a[0] == b[0] && b[0] == c[0] {
      TextLeqTransitive(a[1..], b[1..], c[1..]);
    }
  }

  /** Comparison is a total preorder within a family. */
  lemma LeqTotal(a: Scalar, b: Scalar)
    requires Comparable(a, b)
    ensures Comparable(b, a) && Comparable(a, a)
    ensures Leq(a, a)
    ensures Leq(a, b) || Leq(b, a)
  {
    if a.Utf8? { TextLeqTotal(a.text, b.text); }
  }

  lemma LeqTransitive(a: Scalar, b: Scalar, c: Scalar)
    requires Comparable(a, b) && Comparable(b, c)
    requires Leq(a, b) && Leq(b, c)
    ensures Comparable(a, c) && Leq(a, c)
  {
    if a.Utf8? { TextLeqTransitive(a.text, b.text, c.text); }
  }
}
