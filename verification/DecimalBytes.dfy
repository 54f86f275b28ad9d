/**
 The unscaled value of a decimal as bytes: two encoders, one over a sixteen-byte word and
 one over the base-256 digits of a magnitude, both producing the shortest big-endian two's
 complement.
 */
module DecimalBytes {
  import opened Scalars

  type Bytes = seq<U8>

  const I128_MAX := 0x7FFF_FFFF_FFFF_FFFF_FFFF_FFFF_FFFF_FFFF
  const I128_MIN := -I128_MAX - 1
  const U128_MAX := 0xFFFF_FFFF_FFFF_FFFF_FFFF_FFFF_FFFF_FFFF

  type I128 = x: int | I128_MIN <= x <= I128_MAX
  type U128 = x: int | 0 <= x <= U128_MAX

  function Pow(n: nat): (p: nat)
    ensures p > 0
  {
    if n == 0 then 1 else 256 * Pow(n - 1)
  }

  function Unsigned(bytes: Bytes): nat {
    if bytes == [] then 0 else Unsigned(bytes[..|bytes| - 1]) * 256 + bytes[|bytes| - 1]
  }

  /** Big-endian two's complement. */
  function Signed(bytes: Bytes): int
    requires bytes != []
  {
    if bytes[0] >= 128 then Unsigned(bytes) - Pow(|bytes|) else Unsigned(bytes)
  }

  /** No shorter byte string stands for the same value, and no other one of its length does. */
  ghost predicate ShortestFor(bytes: Bytes, value: int) {
    && bytes != [] && Signed(bytes) == value
    && forall other: Bytes :: other != [] && Signed(other) == value ==>
         |bytes| <= |other| && (|other| == |bytes| ==> other == bytes)
  }

  lemma {:induction false} UnsignedConcat(a: Bytes, b: Bytes)
    ensures Unsigned(a + b) == Unsigned(a) * Pow(|b|) + Unsigned(b)
    decreases |b|
  {
    if b == [] {
      assert a + b == a;
    } else {
      var init := b[..|b| - 1];
      UnsignedConcat(a, init);
      assert (a + b)[..|a + b| - 1] == a + init;
      assert (Unsigned(a) * Pow(|init|)) * 256 == Unsigned(a) * Pow(|b|);
    }
  }

  lemma {:induction false} UnsignedRange(bytes: Bytes)
    ensures Unsigned(bytes) < Pow(|bytes|)
    ensures bytes != [] ==> bytes[0] * Pow(|bytes| - 1) <= Unsigned(bytes) < (bytes[0] + 1) * Pow(|bytes| - 1)
  {
    if bytes != [] {
      var rest := bytes[1..];
      UnsignedRange(rest);
      assert bytes == [bytes[0]] + rest;
      UnsignedConcat([bytes[0]], rest);
      assert Unsigned([bytes[0]]) == bytes[0] by { assert [bytes[0]][..0] == []; }
      TopByte(bytes[0], Unsigned(rest), Pow(|rest|));
    }
  }

  lemma TopByte(top: U8, rest: nat, p: nat)
    requires rest < p
    ensures top * p <= top * p + rest < (top + 1) * p <= 256 * p
  {
    Scaled(top + 1, 256, p);
  }

  lemma Scaled(a: int, b: int, p: nat)
    requires a <= b
    ensures a * p <= b * p
  {
  }

  /** A number between `top * p` and `(top + 1) * p`, compared with another multiple of `p`. */
  lemma Between(u: int, top: int, bound: int, p: nat)
    requires top * p <= u < (top + 1) * p
    ensures top >= bound ==> u >= bound * p
    ensures top < bound ==> u < bound * p
  {
    if top >= bound { Scaled(bound, top, p); } else { Scaled(top + 1, bound, p); }
  }

  /** `k` bytes hold exactly the values from -128 * 256^(k-1) up to 128 * 256^(k-1) - 1. */
  lemma SignedRange(bytes: Bytes)
    requires bytes != []
    ensures -128 * Pow(|bytes| - 1) <= Signed(bytes) < 128 * Pow(|bytes| - 1)
    ensures Signed(bytes) < 0 <==> bytes[0] >= 128
  {
    UnsignedRange(bytes);
    Between(Unsigned(bytes), bytes[0], 128, Pow(|bytes| - 1));
  }

  lemma {:induction false} UnsignedInjective(a: Bytes, b: Bytes)
    requires |a| == |b| && Unsigned(a) == Unsigned(b)
    ensures a == b
  {
    if a != [] {
      var last := |a| - 1;
      assert Unsigned(a[..last]) == Unsigned(b[..last]) && a[last] == b[last];
      UnsignedInjective(a[..last], b[..last]);
      assert a == a[..last] + [a[last]] && b == b[..last] + [b[last]];
    }
  }

  lemma {:induction false} PowMonotone(m: nat, n: nat)
    requires m <= n
    ensures Pow(m) <= Pow(n)
  {
    if m < n { PowMonotone(m, n - 1); }
  }

  /** Out of reach of one byte less is enough to be shortest. */
  lemma ShortestByRange(bytes: Bytes, value: int)
    requires bytes != [] && Signed(bytes) == value
    requires |bytes| > 1 ==> value < -128 * Pow(|bytes| - 2) || value >= 128 * Pow(|bytes| - 2)
    ensures ShortestFor(bytes, value)
  {
    forall other: Bytes | other != [] && Signed(other) == value
      ensures |bytes| <= |other| && (|other| == |bytes| ==> other == bytes)
    {
      SignedRange(other);
      SignedRange(bytes);
      if |other| < |bytes| {
        PowMonotone(|other| - 1, |bytes| - 2);
        assert false;
      }
      if |other| == |bytes| {
        UnsignedInjective(other, bytes);
      }
    }
  }

  /** A leading byte that only repeats the sign may go. */
  lemma DropSignByte(bytes: Bytes)
    requires |bytes| > 1
    requires (bytes[0] == 0 && bytes[1] < 128) || (bytes[0] == 255 && bytes[1] >= 128)
    ensures Signed(bytes[1..]) == Signed(bytes)
  {
    assert bytes == [bytes[0]] + bytes[1..];
    UnsignedConcat([bytes[0]], bytes[1..]);
    assert Unsigned([bytes[0]]) == bytes[0] by { assert [bytes[0]][..0] == []; }
  }

  /** A leading byte that does not only repeat the sign is needed. */
  lemma NeededSignByte(bytes: Bytes)
    requires |bytes| > 1
    requires !(bytes[0] == 0 && bytes[1] < 128) && !(bytes[0] == 255 && bytes[1] >= 128)
    ensures Signed(bytes) < -128 * Pow(|bytes| - 2) || Signed(bytes) >= 128 * Pow(|bytes| - 2)
  {
    var rest := bytes[1..];
    var p := Pow(|rest|);
    assert bytes == [bytes[0]] + rest;
    UnsignedConcat([bytes[0]], rest);
    assert Unsigned([bytes[0]]) == bytes[0] by { assert [bytes[0]][..0] == []; }
    UnsignedRange(rest);
    assert p == 256 * Pow(|bytes| - 2);
    Between(Unsigned(rest), rest[0], 128, Pow(|bytes| - 2));
    if 0 < bytes[0] < 128 { Scaled(1, bytes[0], p); }
    if 128 <= bytes[0] < 255 { Scaled(bytes[0], 254, p); }
  }

  // The encoder over a sixteen-byte word.

  function ToBytes(value: nat, n: nat): (bytes: Bytes)
    ensures |bytes| == n
  {
    if n == 0 then [] else ToBytes(value / 256, n - 1) + [value % 256]
  }

  lemma {:induction false} UnsignedToBytes(value: nat, n: nat)
    requires value < Pow(n)
    ensures Unsigned(ToBytes(value, n)) == value
  {
    if n > 0 {
      UnsignedToBytes(value / 256, n - 1);
      assert ToBytes(value, n)[..n - 1] == ToBytes(value / 256, n - 1);
    }
  }

  /** The sixteen big-endian bytes of an i128. */
  function WordBytes(value: I128): (bytes: Bytes)
    ensures |bytes| == 16
  {
    ToBytes(if value < 0 then value + U128_MAX + 1 else value, 16)
  }

  lemma PowSixteen()
    ensures Pow(16) == U128_MAX + 1 && 128 * Pow(15) == I128_MAX + 1
  {
    assert Pow(4) == 0x1_0000_0000;
    assert Pow(8) == 0x1_0000_0000_0000_0000;
    assert Pow(12) == 0x1_0000_0000_0000_0000_0000_0000;
    assert Pow(15) == 0x1_00_0000_0000_0000_0000_0000_0000_0000;
  }

  lemma WordBytesSigned(value: I128)
    ensures Signed(WordBytes(value)) == value
  {
    PowSixteen();
    var word := if value < 0 then value + U128_MAX + 1 else value;
    UnsignedToBytes(word, 16);
    UnsignedRange(WordBytes(value));
    Between(word, WordBytes(value)[0], 128, Pow(15));
  }

  method I128ToBeBytesMin(value: I128) returns (encoded: Bytes)
    ensures ShortestFor(encoded, value)
  {
    var bytes := WordBytes(value);
    WordBytesSigned(value);
    var negative := value < 0;
    var padding := if negative then 0xff else 0x00;
    var start := 0;
    assert bytes[0..] == bytes;
    while start < |bytes| - 1 && bytes[start] == padding
      invariant start < |bytes| == 16
      invariant Signed(bytes[start..]) == value
    {
      var nextNegative := bytes[start + 1] >= 128;
      if nextNegative != negative {
        break;
      }
      DropSignByte(bytes[start..]);
      assert bytes[start..][1..] == bytes[start + 1..];
      start := start + 1;
    }
    encoded := bytes[start..];
    SignedRange(encoded);
    if |encoded| > 1 {
      NeededSignByte(encoded);
    }
    ShortestByRange(encoded, value);
  }

  // Decimals: a sign and a magnitude.

  datatype Decimal = Decimal(negative: bool, magnitude: U128, exponent: int)

  function Unscaled(d: Decimal): int {
    if d.negative then 0 - d.magnitude else d.magnitude
  }

  /** Only a scale beyond `i32::MAX` is refused. */
  function FromMantissa(mantissa: I128, scale: nat): Option<Decimal> {
    if scale > I32_MAX then None
    else Some(Decimal(mantissa < 0, if mantissa < 0 then 0 - mantissa else mantissa, 0 - scale))
  }

  function Mantissa(d: Decimal): Option<I128> {
    if d.negative then
      if d.magnitude == -I128_MIN then Some(I128_MIN)
      else if d.magnitude <= I128_MAX then Some(0 - d.magnitude)
      else None
    else if d.magnitude <= I128_MAX then Some(d.magnitude)
    else None
  }

  /** Extraction inverts construction on every i128, the least one included. */
  lemma MantissaRoundTrip(mantissa: I128, scale: nat)
    requires scale <= I32_MAX
    ensures
      var d := FromMantissa(mantissa, scale);
      d.Some? && Mantissa(d.value) == Some(mantissa) && Unscaled(d.value) == mantissa && d.value.exponent == 0 - scale
  {
  }

  /** Extraction succeeds exactly on the decimals whose unscaled value is an i128. */
  lemma MantissaExact(d: Decimal, value: I128)
    ensures Mantissa(d) == Some(value) <==> Unscaled(d) == value
    ensures Mantissa(d) == None <==> !(I128_MIN <= Unscaled(d) <= I128_MAX)
  {
  }

  /** The base-256 digits of a magnitude, most significant first. */
  function Digits(m: nat): (digits: Bytes)
    ensures digits != []
    decreases m
  {
    if m < 256 then [m] else Digits(m / 256) + [m % 256]
  }

  lemma {:induction false} DigitsMinimal(m: nat)
    ensures Unsigned(Digits(m)) == m
    ensures m > 0 ==> Digits(m)[0] > 0
    decreases m
  {
    if m < 256 {
      assert Digits(m)[..0] == [];
    } else {
      DigitsMinimal(m / 256);
      assert Digits(m)[..|Digits(m)| - 1] == Digits(m / 256);
    }
  }

  function Inverted(bytes: Bytes): Bytes {
    seq(|bytes|, i requires 0 <= i < |bytes| => 255 - bytes[i])
  }

  lemma {:induction false} UnsignedInverted(bytes: Bytes)
    ensures Unsigned(Inverted(bytes)) == Pow(|bytes|) - 1 - Unsigned(bytes)
  {
    if bytes != [] {
      var init := bytes[..|bytes| - 1];
      UnsignedInverted(init);
      assert Inverted(bytes)[..|bytes| - 1] == Inverted(init);
    }
  }

  lemma {:induction false} UnsignedUpdate(bytes: Bytes, k: nat, byte: U8, delta: int)
    requires k < |bytes| && byte == bytes[k] + delta
    ensures Unsigned(bytes[k := byte]) == Unsigned(bytes) + delta * Pow(|bytes| - 1 - k)
  {
    var last := |bytes| - 1;
    if k == last {
      assert bytes[k := byte][..last] == bytes[..last];
    } else {
      assert bytes[k := byte][..last] == bytes[..last][k := byte];
      UnsignedUpdate(bytes[..last], k, byte, delta);
      assert (delta * Pow(last - 1 - k)) * 256 == delta * Pow(last - k);
    }
  }

  lemma CarryStep(bytes: Bytes, i: nat)
    requires i < |bytes|
    ensures bytes[i] == 255 ==> Unsigned(bytes[i := 0]) + Pow(|bytes| - i) == Unsigned(bytes) + Pow(|bytes| - 1 - i)
    ensures bytes[i] < 255 ==> Unsigned(bytes[i := bytes[i] + 1]) == Unsigned(bytes) + Pow(|bytes| - 1 - i)
  {
    if bytes[i] == 255 {
      UnsignedUpdate(bytes, i, 0, 0 - 255);
    } else {
      UnsignedUpdate(bytes, i, bytes[i] + 1, 1);
    }
  }

  lemma ZeroFirst(digits: Bytes)
    ensures Unsigned([0] + digits) == Unsigned(digits)
  {
    UnsignedConcat([0], digits);
    assert Unsigned([0]) == 0 by { assert [0][..0] == []; }
  }

  /** Adds one in place, carrying leftwards, dropping a carry out of the first byte. */
  method AddOne(bytes: Bytes) returns (sum: Bytes)
    requires Unsigned(bytes) + 1 < Pow(|bytes|)
    ensures |sum| == |bytes| && Unsigned(sum) == Unsigned(bytes) + 1
  {
    sum := bytes;
    var i := |sum|;
    while i > 0
      invariant 0 <= i <= |sum| == |bytes|
      invariant Unsigned(sum) + Pow(|sum| - i) == Unsigned(bytes) + 1
    {
      i := i - 1;
      if sum[i] == 255 {
        CarryStep(sum, i);
        sum := sum[i := 0];
      } else {
        CarryStep(sum, i);
        sum := sum[i := sum[i] + 1];
        return;
      }
    }
    UnsignedRange(sum);
  }

  method DecimalToBeBytesMin(d: Decimal) returns (bytes: Bytes)
    ensures ShortestFor(bytes, Unscaled(d))
  {
    bytes := Digits(d.magnitude);
    ghost var digits := bytes;
    DigitsMinimal(d.magnitude);
    UnsignedRange(digits);
    if d.magnitude == 0 {
      ShortestByRange([0], 0);
      return [0];
    }
    if d.negative {
      bytes := [0] + bytes;
      ZeroFirst(digits);
      UnsignedInverted(bytes);
      bytes := AddOne(Inverted(bytes));
      NegatedTop(bytes, d.magnitude, |digits|);
      if bytes[0] == 0xff && bytes[1] >= 128 {
        DropSignByte(bytes);
        bytes := bytes[1..];
        NegatedShort(digits, bytes, d.magnitude);
      } else {
        NeededSignByte(bytes);
      }
    } else if bytes[0] >= 128 {
      bytes := [0] + bytes;
      ZeroFirst(digits);
      NeededSignByte(bytes);
    } else if |bytes| > 1 {
      NeededSignByte(bytes);
    }
    ShortestByRange(bytes, Unscaled(d));
  }

  lemma NegatedTop(bytes: Bytes, magnitude: nat, n: nat)
    requires 0 < magnitude < Pow(n) && |bytes| == n + 1
    requires Unsigned(bytes) == Pow(n + 1) - magnitude
    ensures bytes[0] == 255 && Signed(bytes) == 0 - magnitude
  {
    UnsignedRange(bytes);
    Between(Unsigned(bytes), bytes[0], 255, Pow(n));
  }

  lemma NegatedShort(digits: Bytes, bytes: Bytes, magnitude: nat)
    requires digits != [] && digits[0] > 0 && Unsigned(digits) == magnitude
    requires |bytes| == |digits| && Signed(bytes) == 0 - magnitude
    ensures |bytes| > 1 ==> 0 - magnitude < -128 * Pow(|bytes| - 2)
  {
    UnsignedRange(digits);
    Scaled(1, digits[0], Pow(|digits| - 1));
  }

  /** The two encoders agree on every i128. */
  method EncodersAgree(value: I128, scale: nat) returns (word: Bytes, digits: Bytes)
    requires scale <= I32_MAX
    ensures word == digits
  {
    word := I128ToBeBytesMin(value);
    MantissaRoundTrip(value, scale);
    digits := DecimalToBeBytesMin(FromMantissa(value, scale).value);
  }
}
