/** Doubles as 64-bit patterns. */
module Doubles {
  import opened Varint

  const SIGN: nat := 0x8000_0000_0000_0000
  const INFINITY: nat := 0x7ff0_0000_0000_0000
  const MINUS_INFINITY: int := -0x7ff0_0000_0000_0000
  const MAX_DOUBLE: nat := 0x7fef_ffff_ffff_ffff

  /** Ordering the patterns of doubles that are numbers orders the doubles; both zeros have key 0. */
  function Key(d: nat): int {
    if d < SIGN then d else -(d - SIGN)
  }

  predicate IsNaN(d: nat) {
    Key(d) > INFINITY || Key(d) < MINUS_INFINITY
  }

  predicate IsFinite(d: nat) {
    MINUS_INFINITY < Key(d) < INFINITY
  }

  /** The comparison `<` of doubles: false of NaN. */
  predicate Less(x: nat, y: nat) {
    !IsNaN(x) && !IsNaN(y) && Key(x) < Key(y)
  }

  function Negated(d: nat): nat
    requires d < SIGN
  {
    d + SIGN
  }

  /** A pattern that is a number or an infinity. */
  predicate IsNumber(d: nat) {
    d < 2 * SIGN && !IsNaN(d)
  }

  // ----- What the patterns stand for (binary64 of IEEE 754, section 3.4) -----

  const FRACTION: nat := 0x10_0000_0000_0000

  /** The 11 exponent bits and the 52 fraction bits. */
  function Exponent(d: nat): nat {
    d % SIGN / FRACTION
  }

  function Fraction(d: nat): nat {
    d % FRACTION
  }

  function Magnitude(exponent: nat, fraction: nat): nat {
    if exponent == 0 then fraction else (FRACTION + fraction) * Pow2(exponent - 1)
  }

  /** The double in units of the smallest one, 2 to the -1074. */
  function Units(d: nat): int {
    var m := Magnitude(Exponent(d), Fraction(d));
    if d >= SIGN then -(m as int) else m
  }

  lemma Parts(d: nat)
    requires d < SIGN
    ensures d == Exponent(d) * FRACTION + Fraction(d) && Fraction(d) < FRACTION && Exponent(d) < 2048
  {
  }

  lemma {:induction false} Pow2Grows(a: nat, b: nat)
    requires a <= b
    ensures Pow2(a) <= Pow2(b)
    decreases b
  {
    if a < b {
      Pow2Grows(a, b - 1);
    }
  }

  lemma Times(a: nat, b: nat, p: nat, q: nat)
    requires a <= b && p <= q
    ensures a * p <= b * q
  {
    assert a * p <= b * p <= b * q;
  }

  /** A greater exponent outweighs any fraction. */
  lemma ExponentDecides(e: nat, f: nat, e': nat, f': nat)
    requires e < e' && f < FRACTION && f' < FRACTION
    ensures Magnitude(e, f) < Magnitude(e', f')
  {
    if e == 0 {
      Pow2Grows(0, e' - 1);
      Times(FRACTION, FRACTION + f', 1, Pow2(e' - 1));
    } else {
      Pow2Grows(e, e' - 1);
      Times(2 * FRACTION, 2 * (FRACTION + f'), Pow2(e - 1), Pow2(e - 1));
      Times(FRACTION, FRACTION + f', Pow2(e), Pow2(e' - 1));
      assert (FRACTION + f) * Pow2(e - 1) < 2 * FRACTION * Pow2(e - 1) == FRACTION * Pow2(e);
    }
  }

  lemma FractionDecides(e: nat, f: nat, f': nat)
    requires f < f'
    ensures Magnitude(e, f) < Magnitude(e, f')
  {
    if e > 0 {
      assert (FRACTION + f) * Pow2(e - 1) < (FRACTION + f') * Pow2(e - 1);
    }
  }

  lemma MagnitudeGrows(x: nat, y: nat)
    requires x < y < SIGN
    ensures Magnitude(Exponent(x), Fraction(x)) < Magnitude(Exponent(y), Fraction(y))
  {
    Parts(x);
    Parts(y);
    if Exponent(x) == Exponent(y) {
      FractionDecides(Exponent(x), Fraction(x), Fraction(y));
    } else {
      ExponentDecides(Exponent(x), Fraction(x), Exponent(y), Fraction(y));
    }
  }

  /** The signed magnitude of a key. */
  function OfKey(k: int): int {
    if k >= 0 then Magnitude(Exponent(k), Fraction(k)) else -(Magnitude(Exponent(-k), Fraction(-k)) as int)
  }

  lemma SignBit(d: nat)
    requires SIGN <= d < 2 * SIGN
    ensures Exponent(d) == Exponent(d - SIGN) && Fraction(d) == Fraction(d - SIGN)
  {
    assert d % SIGN == d - SIGN == (d - SIGN) % SIGN;
    assert SIGN == 2048 * FRACTION;
    assert (d - SIGN) % FRACTION == d % FRACTION;
  }

  lemma UnitsOfKey(d: nat)
    requires d < 2 * SIGN
    ensures Units(d) == OfKey(Key(d))
  {
    if d >= SIGN {
      SignBit(d);
    }
  }

  lemma KeysOrder(k: int, l: int)
    requires -(SIGN as int) < k < SIGN && -(SIGN as int) < l < SIGN
    ensures k < l ==> OfKey(k) < OfKey(l)
  {
    if 0 <= k < l {
      MagnitudeGrows(k, l);
    } else if k < l <= 0 {
      MagnitudeGrows(-l, -k);
    } else if k < 0 < l {
      MagnitudeGrows(0, l);
      MagnitudeGrows(0, -k);
    }
  }

  /** The comparison is that of the numbers the patterns stand for. */
  lemma LessIsNumeric(x: nat, y: nat)
    requires x < 2 * SIGN && y < 2 * SIGN && IsFinite(x) && IsFinite(y)
    ensures Less(x, y) <==> Units(x) < Units(y)
  {
    UnitsOfKey(x);
    UnitsOfKey(y);
    KeyOrder(Key(x), Key(y));
  }

  lemma KeyOrder(k: int, l: int)
    requires -(SIGN as int) < k < SIGN && -(SIGN as int) < l < SIGN
    ensures k < l <==> OfKey(k) < OfKey(l)
  {
    KeysOrder(k, l);
    KeysOrder(l, k);
  }

  /** NaNs and infinities have all exponent bits set; a NaN has a fraction bit set, an infinity none. */
  lemma KindByBits(d: nat)
    requires d < 2 * SIGN
    ensures IsFinite(d) <==> Exponent(d) < 2047
    ensures IsNaN(d) <==> Exponent(d) == 2047 && Fraction(d) != 0
    ensures IsFinite(d) ==> Less(d, INFINITY) && Less(Negated(INFINITY), d)
  {
    if d >= SIGN {
      assert d % SIGN == d - SIGN;
    }
  }
}
