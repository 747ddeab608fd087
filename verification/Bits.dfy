/** Bits of natural numbers, and exclusive or. */
module Bits {

  function Power(n: nat): nat { if n == 0 then 1 else 2 * Power(n - 1) }

  /** (v >> i) & 1. */
  predicate BitOf(v: nat, i: nat) {
    if i == 0 then v % 2 == 1 else BitOf(v / 2, i - 1)
  }

  /** a ^ b. */
  function XorNumber(a: nat, b: nat): nat
    decreases a + b
  {
    if a == 0 && b == 0 then 0 else 2 * XorNumber(a / 2, b / 2) + (if a % 2 == b % 2 then 0 else 1)
  }

  lemma {:induction false} ZeroBits(i: nat)
    ensures !BitOf(0, i)
  {
    if i > 0 { ZeroBits(i - 1); }
  }

  /** Every bit of an exclusive or is set exactly when the two operands differ there. */
  lemma {:induction false} XorBits(a: nat, b: nat, i: nat)
    ensures BitOf(XorNumber(a, b), i) <==> BitOf(a, i) != BitOf(b, i)
    decreases i
  {
    if a == 0 && b == 0 {
      ZeroBits(i);
    } else if i > 0 {
      XorBits(a / 2, b / 2, i - 1);
    }
  }

  lemma {:induction false} XorBound(a: nat, b: nat, n: nat)
    requires a < Power(n) && b < Power(n)
    ensures XorNumber(a, b) < Power(n)
  {
    if n > 0 && !(a == 0 && b == 0) { XorBound(a / 2, b / 2, n - 1); }
  }

  /** Numbers are their bits. */
  lemma {:induction false} SameBits(a: nat, b: nat, n: nat)
    requires a < Power(n) && b < Power(n) && forall i :: 0 <= i < n ==> BitOf(a, i) == BitOf(b, i)
    ensures a == b
  {
    if n > 0 {
      assert BitOf(a, 0) == BitOf(b, 0);
      forall i | 0 <= i < n - 1 ensures BitOf(a / 2, i) == BitOf(b / 2, i) {
        assert BitOf(a, i + 1) == BitOf(b, i + 1);
      }
      SameBits(a / 2, b / 2, n - 1);
    }
  }

  lemma {:induction false} HighBits(v: nat, n: nat, i: nat)
    requires v < Power(n) && n <= i
    ensures !BitOf(v, i)
  {
    if n == 0 {
      ZeroBits(i);
    } else {
      HighBits(v / 2, n - 1, i - 1);
    }
  }

  /** A low part of n bits and a high part keep their bits. */
  lemma {:induction false} JoinedBits(high: nat, low: nat, n: nat, i: nat)
    requires low < Power(n)
    ensures BitOf(Power(n) * high + low, i) <==> if i < n then BitOf(low, i) else BitOf(high, i - n)
  {
    if n > 0 {
      var v := Power(n) * high + low;
      TwiceTimes(Power(n - 1), high);
      assert v / 2 == Power(n - 1) * high + low / 2 && v % 2 == low % 2;
      if i > 0 { JoinedBits(high, low / 2, n - 1, i - 1); }
    }
  }

  lemma {:induction false} OnesBits(n: nat, i: nat)
    requires i < n
    ensures Power(n) >= 1 && BitOf(Power(n) - 1, i)
  {
    if i > 0 {
      OnesBits(n - 1, i - 1);
      assert (Power(n) - 1) / 2 == Power(n - 1) - 1;
    } else {
      PowerPositive(n - 1);
    }
  }

  lemma {:induction false} PowerPositive(n: nat)
    ensures Power(n) >= 1
  {
    if n > 0 { PowerPositive(n - 1); }
  }

  /** Only 2^n - 1 has all n bits set. */
  lemma AllOnes(v: nat, n: nat)
    requires v < Power(n) && forall i :: 0 <= i < n ==> BitOf(v, i)
    ensures v == Power(n) - 1
  {
    PowerPositive(n);
    var ones := Power(n) - 1;
    forall i | 0 <= i < n ensures BitOf(v, i) == BitOf(ones, i) { OnesBits(n, i); }
    SameBits(v, ones, n);
  }

  lemma NibbleBits(v: nat, b: nat)
    ensures var unit := if b == 0 then 1 else if b == 1 then 2 else if b == 2 then 4 else 8;
      b < 4 ==> (BitOf(v, b) <==> (v / unit) % 2 == 1)
    ensures b >= 4 ==> BitOf(v, b) == BitOf(v / 16, b - 4)
  {
    assert b >= 1 ==> BitOf(v, b) == BitOf(v / 2, b - 1);
    assert b >= 2 ==> BitOf(v / 2, b - 1) == BitOf(v / 2 / 2, b - 2);
    assert b >= 3 ==> BitOf(v / 2 / 2, b - 2) == BitOf(v / 2 / 2 / 2, b - 3);
    assert v / 2 / 2 == v / 4 && v / 4 / 2 == v / 8 && v / 8 / 2 == v / 16;
  }

  lemma Quarters(v: nat)
    ensures v / 16 / 1 == v / 16 && v / 16 / 2 == v / 32
    ensures v / 16 / 4 == v / 64 && v / 16 / 8 == v / 128
  {}

  lemma TopBit(v: nat)
    requires v < 256
    ensures (v / 128) % 2 == 1 <==> v >= 128
  {}

  lemma HighNibble(v: nat, b: nat)
    requires 4 <= b < 8
    ensures var unit := if b == 4 then 1 else if b == 5 then 2 else if b == 6 then 4 else 8;
      BitOf(v, b) <==> (v / 16 / unit) % 2 == 1
  {
    hide BitOf;
    NibbleBits(v, b);
    NibbleBits(v / 16, b - 4);
  }

  lemma BitsOfByte(v: nat)
    requires v < 256
    ensures BitOf(v, 7) <==> v >= 0x80
    ensures BitOf(v, 6) <==> (v / 64) % 2 == 1
    ensures BitOf(v, 5) <==> (v / 32) % 2 == 1
    ensures BitOf(v, 4) <==> (v / 16) % 2 == 1
    ensures BitOf(v, 1) <==> (v / 2) % 2 == 1
  {
    hide BitOf;
    NibbleBits(v, 1);
    HighNibble(v, 4);
    HighNibble(v, 5);
    HighNibble(v, 6);
    HighNibble(v, 7);
    Quarters(v);
    TopBit(v);
  }

  lemma TwiceTimes(a: nat, b: nat)
    ensures (2 * a) * b == 2 * (a * b)
  {}

  lemma {:induction false} PowerAdds(m: nat, n: nat)
    ensures Power(m + n) == Power(m) * Power(n)
  {
    if m > 0 {
      PowerAdds(m - 1, n);
      TwiceTimes(Power(m - 1), Power(n));
    }
  }

  lemma {:induction false} XorNothing(v: nat)
    ensures XorNumber(v, 0) == v
  {
    if v > 0 { XorNothing(v / 2); }
  }

  /** An exclusive or with a number of n bits leaves the bits above alone. */
  lemma {:induction false} XorLow(high: nat, low: nat, b: nat, n: nat)
    requires low < Power(n) && b < Power(n)
    ensures XorNumber(Power(n) * high + low, b) == Power(n) * high + XorNumber(low, b)
  {
    if n == 0 {
      XorNothing(high);
    } else {
      var v := Power(n) * high + low;
      TwiceTimes(Power(n - 1), high);
      assert v / 2 == Power(n - 1) * high + low / 2 && v % 2 == low % 2;
      XorLow(high, low / 2, b / 2, n - 1);
    }
  }
}
