/** The number that the eight bytes of a double stand for (IEEE 754 binary64). */
module Doubles {
  import opened Types
  import opened SampleWindows

  const FRACTION: int := 0x10_0000_0000_0000

  /** `m` times the `k`-th power of two. */
  function Scaled(m: real, k: int): real
    decreases if k >= 0 then k else -k, m
  {
    if k == 0 then m
    else if k > 0 then Scaled(m, k - 1) * 2.0
    else Scaled(m, k + 1) / 2.0
  }

  /** The exact value of a finite double; infinities and not-a-number have none and read as zero. */
  function RealOf(d: Double): real
    decreases d.bits
  {
    if d.bits >= TWO_63 then -RealOf(Double(d.bits - TWO_63))
    else
      var exponent, fraction := d.bits / FRACTION, d.bits % FRACTION;
      if exponent == 2047 then 0.0
      else if exponent == 0 then Scaled(fraction as real, -1074)
      else Scaled((fraction + FRACTION) as real, exponent - 1075)
  }

  /** A value as a bare number, its unit dropped. */
  function NumberOf(v: Value): real {
    match v
    case Percentage(d) => RealOf(d)
    case PressureRatio(d) => RealOf(d)
    case RequestsPerSecond(d) => RealOf(d)
    case TokensPerSecond(d) => RealOf(d)
    case BytesPerSecond(d) => RealOf(d)
    case OperationsPerSecond(d) => RealOf(d)
    case _ => v.i as real
  }

  /** What a window is offered for a value: the number, or that there is none. Of the doubles without a
      number, minus infinity alone is read as zero. */
  function ReadingOf(v: Value): Reading {
    match v
    case Percentage(d) => DoubleReading(d)
    case PressureRatio(d) => DoubleReading(d)
    case RequestsPerSecond(d) => DoubleReading(d)
    case TokensPerSecond(d) => DoubleReading(d)
    case BytesPerSecond(d) => DoubleReading(d)
    case OperationsPerSecond(d) => DoubleReading(d)
    case _ => Number(v.i as real)
  }

  const INFINITY: int := 0x7FF0_0000_0000_0000

  function DoubleReading(d: Double): Reading {
    if d.bits == INFINITY then PlusInfinity
    else if d.bits % TWO_63 > INFINITY then NotANumber
    else Number(RealOf(d))
  }

  // ----- Which number it is -----

  lemma {:induction false} ScaledLinear(m: real, c: real, k: int) returns (x: real, y: real)
    ensures x == Scaled(m * c, k) && y == Scaled(m, k) && x == y * c
    decreases if k >= 0 then k else -k
  {
    x, y := Scaled(m * c, k), Scaled(m, k);
    if k > 0 {
      var a, b := ScaledLinear(m, c, k - 1);
      assert a * 2.0 == (b * 2.0) * c;
    } else if k < 0 {
      var a, b := ScaledLinear(m, c, k + 1);
      assert a / 2.0 == (b / 2.0) * c;
    }
  }

  lemma ScaledUp(m: real, k: int)
    ensures Scaled(m, k + 1) == Scaled(m, k) * 2.0
  {}

  /** The next exponent doubles a normal number. */
  lemma NextExponent(bits: U64)
    requires 0x0010_0000_0000_0000 <= bits < 0x7FE0_0000_0000_0000
    ensures RealOf(Double(bits + 0x0010_0000_0000_0000)) == RealOf(Double(bits)) * 2.0
  {
    var exponent, fraction := bits / FRACTION, bits % FRACTION;
    assert (bits + FRACTION) / FRACTION == exponent + 1 && (bits + FRACTION) % FRACTION == fraction;
    ScaledUp((fraction + FRACTION) as real, exponent - 1075);
  }

  /** Between two exponents the numbers are spaced evenly; the same below the first. */
  lemma WithinExponent(bits: U64, fraction: nat)
    requires bits % FRACTION == 0 && bits < 0x7FF0_0000_0000_0000 && fraction < FRACTION
    ensures bits >= FRACTION ==> EvenlySpaced(RealOf(Double(bits)), RealOf(Double(bits + fraction)), FRACTION + fraction)
    ensures EvenlySpaced(RealOf(Double(FRACTION)), RealOf(Double(fraction)), fraction)
  {
    var exponent := bits / FRACTION;
    assert (bits + fraction) / FRACTION == exponent && (bits + fraction) % FRACTION == fraction;
    if exponent > 0 {
      SpacedBy(FRACTION + fraction, exponent - 1075);
    }
    SpacedBy(fraction, -1074);
  }

  /** `x` is `n` steps where `whole` is 2^52 of them. */
  predicate EvenlySpaced(whole: real, x: real, n: nat) {
    x * 4503599627370496.0 == whole * n as real
  }

  lemma SpacedBy(n: nat, k: int)
    ensures EvenlySpaced(Scaled(FRACTION as real, k), Scaled(n as real, k), n)
  {
    var whole, unit := ScaledLinear(1.0, FRACTION as real, k);
    var x, _ := ScaledLinear(1.0, n as real, k);
    CrossProduct(unit, FRACTION as real, n as real, whole, x);
  }

  lemma CrossProduct(unit: real, f: real, n: real, whole: real, x: real)
    requires whole == unit * f && x == unit * n
    ensures x * f == whole * n
  {}

  /** The sign bit. */
  lemma SignBit(bits: U64)
    requires bits < 0x8000_0000_0000_0000
    ensures RealOf(Double(bits + 0x8000_0000_0000_0000)) == -RealOf(Double(bits))
  {}

  function Two(k: nat): real {
    if k == 0 then 1.0 else Two(k - 1) * 2.0
  }

  lemma {:induction false} HalvedBack(k: nat)
    ensures Scaled(Two(k), 0 - k) == 1.0
  {
    if k > 0 {
      HalvedBack(k - 1);
      ScaledDouble(Two(k - 1), Two(k), 1 - k);
      assert Scaled(Two(k), 0 - k) == Scaled(Two(k), (0 - k) + 1) / 2.0;
    }
  }

  lemma {:induction false} ScaledDouble(m: real, d: real, k: int)
    requires d == m * 2.0
    ensures Scaled(d, k) == Scaled(m, k) * 2.0
    decreases if k >= 0 then k else -k
  {
    if k > 0 {
      ScaledDouble(m, d, k - 1);
    } else if k < 0 {
      ScaledDouble(m, d, k + 1);
    }
  }

  lemma {:induction false} TwoTimes(j: nat, k: nat) returns (p: real, q: real)
    ensures p == Two(j) && q == Two(k) && Two(j + k) == p * q
  {
    p, q := Two(j), Two(k);
    if j > 0 {
      var a, _ := TwoTimes(j - 1, k);
      assert a * q * 2.0 == (a * 2.0) * q;
    }
  }

  lemma TwoTo52()
    ensures Two(52) == 4503599627370496.0
  {
    assert Two(1) == 2.0 && Two(2) == 4.0 && Two(3) == 8.0 && Two(4) == 16.0;
    var _, _ := TwoTimes(4, 4);
    var _, _ := TwoTimes(8, 8);
    var _, _ := TwoTimes(16, 16);
    var _, _ := TwoTimes(32, 16);
    var _, _ := TwoTimes(48, 4);
  }

  /** The anchor: these bits are the number one. */
  lemma OneIsOne()
    ensures RealOf(Double(0x3FF0_0000_0000_0000)) == 1.0
  {
    assert 0x3FF0_0000_0000_0000 / FRACTION == 1023 && 0x3FF0_0000_0000_0000 % FRACTION == 0;
    TwoTo52();
    HalvedBack(52);
  }
}
