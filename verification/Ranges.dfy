/** The range tests of the decoder compare the bits of a double; here is what they say of its number. */
module Ranges {
  import opened Types
  import opened Doubles
  import opened Codec

  // ----- The order of bits is the order of numbers -----

  lemma {:induction false} ScaledGrows(m: real, n: real, k: int)
    requires m < n
    ensures Scaled(m, k) < Scaled(n, k)
    decreases if k >= 0 then k else -k
  {
    if k > 0 {
      ScaledGrows(m, n, k - 1);
    } else if k < 0 {
      ScaledGrows(m, n, k + 1);
    }
  }

  /** The next bits stand for the next larger number. */
  lemma NextIsLarger(bits: U64)
    requires bits + 1 < 0x7FF0_0000_0000_0000
    ensures RealOf(Double(bits)) < RealOf(Double(bits + 1))
  {
    var exponent, fraction := bits / FRACTION, bits % FRACTION;
    if fraction + 1 < FRACTION {
      assert (bits + 1) / FRACTION == exponent && (bits + 1) % FRACTION == fraction + 1;
      WithinLarger(exponent, fraction);
    } else {
      assert (bits + 1) / FRACTION == exponent + 1 && (bits + 1) % FRACTION == 0;
      AcrossLarger(exponent);
    }
  }

  lemma WithinLarger(exponent: nat, fraction: nat)
    ensures Scaled(fraction as real, -1074) < Scaled((fraction + 1) as real, -1074)
    ensures Scaled((fraction + FRACTION) as real, exponent - 1075) < Scaled((fraction + 1 + FRACTION) as real, exponent - 1075)
  {
    ScaledGrows(fraction as real, (fraction + 1) as real, -1074);
    ScaledGrows((fraction + FRACTION) as real, (fraction + 1 + FRACTION) as real, exponent - 1075);
  }

  lemma AcrossLarger(exponent: nat)
    ensures Scaled((FRACTION - 1) as real, -1074) < Scaled(FRACTION as real, -1074)
    ensures Scaled((FRACTION - 1 + FRACTION) as real, exponent - 1075) < Scaled(FRACTION as real, exponent + 1 - 1075)
  {
    ScaledGrows((FRACTION - 1) as real, FRACTION as real, -1074);
    ScaledGrows((FRACTION - 1 + FRACTION) as real, (FRACTION + FRACTION) as real, exponent - 1075);
    ScaledDouble(FRACTION as real, (FRACTION + FRACTION) as real, exponent - 1075);
    ScaledUp(FRACTION as real, exponent - 1075);
  }

  lemma {:induction false} LargerBits(a: U64, b: U64)
    requires a < b < 0x7FF0_0000_0000_0000
    ensures RealOf(Double(a)) < RealOf(Double(b))
    decreases b - a
  {
    NextIsLarger(b - 1);
    if a < b - 1 {
      LargerBits(a, b - 1);
    }
  }

  lemma ZeroIsZero()
    ensures RealOf(Double(0)) == 0.0
  {
    ScaledZero(-1074);
  }

  lemma {:induction false} ScaledZero(k: int)
    ensures Scaled(0.0, k) == 0.0
    decreases if k >= 0 then k else -k
  {
    if k > 0 {
      ScaledZero(k - 1);
    } else if k < 0 {
      ScaledZero(k + 1);
    }
  }

  /** Neither infinite nor not-a-number. */
  predicate Finite(d: Double) {
    d.bits % 0x8000_0000_0000_0000 < 0x7FF0_0000_0000_0000
  }

  lemma BelowZeroExactly(d: Double)
    requires Finite(d)
    ensures BelowZero(d) <==> RealOf(d) < 0.0
  {
    ZeroIsZero();
    if d.bits > 0x8000_0000_0000_0000 {
      LargerBits(0, d.bits - 0x8000_0000_0000_0000);
      SignBit(d.bits - 0x8000_0000_0000_0000);
    } else if d.bits == 0x8000_0000_0000_0000 {
      SignBit(0);
    } else if d.bits > 0 {
      LargerBits(0, d.bits);
    }
  }

  lemma AboveExactly(d: Double, limit: U64)
    requires Finite(d) && limit < 0x7FF0_0000_0000_0000
    ensures Codec.Above(d, limit) <==> RealOf(d) > RealOf(Double(limit))
  {
    ZeroIsZero();
    BelowZeroExactly(d);
    if 0 < limit {
      LargerBits(0, limit);
    }
    if d.bits == 0x8000_0000_0000_0000 {
      SignBit(0);
    } else if d.bits < 0x8000_0000_0000_0000 {
      if d.bits > limit {
        LargerBits(limit, d.bits);
      } else if d.bits < limit {
        LargerBits(d.bits, limit);
      }
    }
  }

  // ----- The limits -----

  lemma HundredIsHundred()
    ensures RealOf(Double(HUNDRED)) == 100.0
  {
    OneIsOne();
    NextExponent(0x3FF0_0000_0000_0000);
    NextExponent(0x4000_0000_0000_0000);
    NextExponent(0x4010_0000_0000_0000);
    NextExponent(0x4020_0000_0000_0000);
    NextExponent(0x4030_0000_0000_0000);
    NextExponent(0x4040_0000_0000_0000);
    assert RealOf(Double(0x4050_0000_0000_0000)) == 64.0;
    WithinExponent(0x4050_0000_0000_0000, 0x9_0000_0000_0000);
    assert EvenlySpaced(64.0, RealOf(Double(HUNDRED)), FRACTION + 0x9_0000_0000_0000);
  }

  /** A finite percentage is accepted exactly when it is from zero to a hundred, a finite fraction when it is from
      zero to one, a finite pressure when it is not negative; what is not a number is refused except as a
      fraction. */
  lemma RangesExactly(d: Double)
    ensures Finite(d) ==> (ValidPercentage(d) <==> 0.0 <= RealOf(d) <= 100.0)
    ensures Finite(d) ==> (FractionPasses(d) <==> 0.0 <= RealOf(d) <= 1.0)
    ensures Finite(d) ==> (ValidPressure(d) <==> 0.0 <= RealOf(d))
    ensures d.bits % 0x8000_0000_0000_0000 > 0x7FF0_0000_0000_0000 ==>
      !ValidPercentage(d) && !ValidPressure(d) && !ValidRate(d) && FractionPasses(d)
  {
    if Finite(d) {
      BelowZeroExactly(d);
      HundredIsHundred();
      AboveExactly(d, HUNDRED);
      OneIsOne();
      AboveExactly(d, ONE);
    }
  }
}
