/** The numbers below 256 and the eight-bit words are the same thing. */
module Octets {

  lemma NumberKeepsBits(b: bv8)
    ensures 0 <= b as int < 256 && (b as int) as bv8 == b
  {}

  lemma NextNumber(b: bv8)
    requires b != 255
    ensures (b + 1) as int == b as int + 1
  {}

  /** The word for a number, found by counting up to it. */
  lemma {:induction false} WordFor(x: nat) returns (b: bv8)
    requires x < 256
    ensures b as int == x
  {
    if x == 0 {
      b := 0;
    } else {
      var c := WordFor(x - 1);
      NextNumber(c);
      b := c + 1;
    }
  }

  lemma BitsKeepNumber(x: int)
    requires 0 <= x < 256
    ensures (x as bv8) as int == x
  {
    var b := WordFor(x);
    NumberKeepsBits(b);
  }
}
