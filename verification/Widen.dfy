/**
 binary16 to binary64, the exact unpack the half-precision pipeline widens
 through, and the round trip back through the narrowing.
 */
module Widen {
  import opened Words
  import opened Pow2
  import opened Wide
  import opened Ieee
  import opened Narrow
  import Fma

  const TWO42: nat := 0x400_0000_0000

  /** x holds the value of h: same class, sign and magnitude, and for a NaN the payload moved up. */
  predicate Widens(h: nat, x: nat)
    requires BINARY64.Valid() && BINARY16.Valid()
  {
    && Encoding(BINARY64, x)
    && Negative(BINARY64, x) == Negative(BINARY16, h)
    && if IsNaN(BINARY16, h) then IsNaN(BINARY64, x) && Fraction(BINARY64, x) == Fraction(BINARY16, h) * TWO42
       else if IsInf(BINARY16, h) then IsInf(BINARY64, x)
       else IsFinite(BINARY64, x) && Units(BINARY64, x, U) == Units(BINARY16, h, U)
  }

  lemma {:induction false} HalfFields(h: nat)
    requires h < 0x10000
    ensures BINARY16.Valid() && Encoding(BINARY16, h)
    ensures Negative(BINARY16, h) <==> h >= 0x8000
    ensures ExpField(BINARY16, h) == (h / 0x400) % 0x20 && Fraction(BINARY16, h) == h % 0x400
    ensures BINARY16.MaxField() == 0x1f
  {
    HalfConstants();
    DoublePowers();
    assert P2(5) == 32;
    hide P2;
    P2Add(10, 5);
    P2Add(11, 5);
    Fma.FieldsOf(BINARY16, h);
  }

  /** A binary64 built from a sign, an exponent field and the top fraction bits. */
  function Assemble(neg: bool, be: nat, mant: nat): nat {
    (if neg then TOP else 0) + be * HIDDEN + mant * TWO42
  }

  lemma {:induction false} AssembleFields(neg: bool, be: nat, mant: nat)
    requires be <= 0x7ff && mant < 0x400
    ensures BINARY64.Valid()
    ensures
      var x := Assemble(neg, be, mant);
      && Encoding(BINARY64, x) && Negative(BINARY64, x) == neg
      && ExpField(BINARY64, x) == be && Fraction(BINARY64, x) == mant * TWO42
  {
    DoublePowers();
    hide P2;
    SplitEncoding(BINARY64, neg, be, mant * TWO42);
  }

  /** The magnitude of an assembled normal number. */
  lemma {:induction false} AssembleUnits(neg: bool, be: nat, mant: nat)
    requires 0 < be < 0x7ff && 0x400 <= mant < 0x800
    ensures BINARY64.Valid() && IsFinite(BINARY64, Assemble(neg, be, mant - 0x400))
    ensures Units(BINARY64, Assemble(neg, be, mant - 0x400), U) == mant * P2(be + 41)
  {
    AssembleFields(neg, be, mant - 0x400);
    DoublePowers();
    hide P2, Assemble;
    P2Add(42, be - 1);
    Assoc(mant, TWO42, P2(be - 1));
  }

  method F16ToF64(h: nat) returns (x: nat)
    requires h < 0x10000
    ensures BINARY64.Valid() && BINARY16.Valid() && Widens(h, x)
  {
    hide P2, Widens, Assemble, Format.Valid;
    DoublePowers();
    var neg := h >= 0x8000;
    var exp := (h / 0x400) % 0x20;
    var mant := h % 0x400;
    if exp == 0x1f {
      WidensSpecial(h, neg, mant);
      x := Assemble(neg, 0x7ff, mant);
    } else if exp == 0 {
      if mant == 0 {
        WidensZero(h, neg);
        x := Assemble(neg, 0, 0);
      } else {
        ghost var mant0 := mant;
        exp := 1023 - 15 + 1;
        while mant < 0x400          // (mant & 0x400) == 0 for a value below 0x800
          invariant 0 < mant < 0x800 && 999 <= exp <= 1009
          invariant mant * P2(exp) == mant0 * P2(1009)
          decreases 0x800 - mant
        {
          NormalizeStep(mant, exp, mant0);
          mant := mant * 2;
          exp := exp - 1;
        }
        WidensSubnormal(h, neg, mant0, mant, exp);
        x := Assemble(neg, exp, mant % 0x400);
      }
    } else {
      WidensNormal(h, neg, exp, mant);
      x := Assemble(neg, exp - 15 + 1023, mant);
    }
  }

  /** One doubling keeps the value, and cannot run past the bottom of the half range. */
  lemma {:induction false} NormalizeStep(mant: nat, exp: nat, mant0: nat)
    requires 0 < mant < 0x400 && mant0 > 0 && exp >= 999 && mant * P2(exp) == mant0 * P2(1009)
    ensures exp > 999 && (mant * 2) * P2(exp - 1) == mant0 * P2(1009)
  {
    HalfConstants();
    MulMono(1, mant0, P2(1009));
    if exp == 999 {
      MulBounds(0, mant, 0x400, P2(999));
      P2Add(10, 999);
      assert false;
    }
    assert P2(exp) == 2 * P2(exp - 1);
    Assoc(mant, 2, P2(exp - 1));
  }

  lemma {:induction false} WidensSpecial(h: nat, neg: bool, mant: nat)
    requires h < 0x10000 && (h / 0x400) % 0x20 == 0x1f && mant == h % 0x400 && neg == (h >= 0x8000)
    ensures BINARY64.Valid() && BINARY16.Valid() && Widens(h, Assemble(neg, 0x7ff, mant))
  {
    hide P2, Assemble, Units, Format.Valid, Format.MaxField, ExpField, Fraction, Negative;
    HalfFields(h);
    DoublePowers();
    AssembleFields(neg, 0x7ff, mant);
  }

  lemma {:induction false} WidensZero(h: nat, neg: bool)
    requires h < 0x10000 && (h / 0x400) % 0x20 == 0 && h % 0x400 == 0 && neg == (h >= 0x8000)
    ensures BINARY64.Valid() && BINARY16.Valid() && Widens(h, Assemble(neg, 0, 0))
  {
    hide P2, Assemble, Format.Valid, Format.MaxField, ExpField, Fraction, Negative;
    HalfFields(h);
    DoublePowers();
    AssembleFields(neg, 0, 0);
  }

  lemma {:induction false} WidensSubnormal(h: nat, neg: bool, mant0: nat, mant: nat, exp: nat)
    requires h < 0x10000 && (h / 0x400) % 0x20 == 0 && mant0 == h % 0x400 && neg == (h >= 0x8000)
    requires 0x400 <= mant < 0x800 && 999 <= exp <= 1009 && mant * P2(exp) == mant0 * P2(1009)
    ensures BINARY64.Valid() && BINARY16.Valid() && Widens(h, Assemble(neg, exp, mant % 0x400))
  {
    hide P2, Assemble, Format.Valid, Format.MaxField, ExpField, Fraction, Negative;
    HalfFields(h);
    DoublePowers();
    AssembleFields(neg, exp, mant - 0x400);
    AssembleUnits(neg, exp, mant);
    P2Add(exp, 41);
    P2Add(1009, 41);
    Assoc(mant, P2(exp), P2(41));
    Assoc(mant0, P2(1009), P2(41));
  }

  lemma {:induction false} WidensNormal(h: nat, neg: bool, exp: nat, mant: nat)
    requires h < 0x10000 && exp == (h / 0x400) % 0x20 && 0 < exp < 0x1f && mant == h % 0x400 && neg == (h >= 0x8000)
    ensures BINARY64.Valid() && BINARY16.Valid() && Widens(h, Assemble(neg, exp - 15 + 1023, mant))
  {
    hide P2, Assemble, Format.Valid, Format.MaxField, ExpField, Fraction, Negative;
    HalfFields(h);
    HalfConstants();
    DoublePowers();
    AssembleFields(neg, exp + 1008, mant);
    AssembleUnits(neg, exp + 1008, mant + 0x400);
  }

  // ---- there and back ----

  /** Every finite half narrows back to itself with no flag. */
  lemma {:induction false} RoundTripFinite(h: nat, x: U64, b: nat, fl: Flags)
    requires h < 0x10000 && BINARY64.Valid() && BINARY16.Valid()
    requires IsFinite(BINARY16, h) && Widens(h, x) && ToHalf(x, b, fl)
    ensures b == h && fl == NO_FLAGS
  {
    hide P2, Format.Valid, Format.MaxField, ExpField, Fraction, Negative, Units, SignBit, Rounded, Limit;
    HalfFields(h);
    DoublePowers();
    Fma.FiniteZero(BINARY64, x, U);
    Fma.FiniteZero(BINARY16, h, U);
    if IsZero(BINARY64, x) {
      ZeroEncoding(h);
    } else {
      var a := Units(BINARY16, h, U);
      RepresentableIsExact(BINARY16, h, U);
      FiniteBelowLimit(BINARY16, h, U);
      DecodeInjective(BINARY16, b, h, U);
    }
  }

  lemma {:induction false} ZeroEncoding(h: nat)
    requires h < 0x10000 && BINARY16.Valid() && IsZero(BINARY16, h)
    ensures h == SignBit(BINARY16, Negative(BINARY16, h))
  {
    HalfFields(h);
    RebuildFromFields(BINARY16, h);
  }

  /** An infinity comes back; a NaN comes back quieted, and signals exactly when it was signaling. */
  lemma {:induction false} RoundTripSpecial(h: nat, x: U64, b: nat, fl: Flags)
    requires h < 0x10000 && BINARY64.Valid() && BINARY16.Valid()
    requires !IsFinite(BINARY16, h) && Widens(h, x) && ToHalf(x, b, fl)
    ensures IsInf(BINARY16, h) ==> b == h && fl == NO_FLAGS
    ensures IsNaN(BINARY16, h) ==> b == (if IsSignaling(BINARY16, h) then h + 0x200 else h)
    ensures IsNaN(BINARY16, h) ==> fl == if IsSignaling(BINARY16, h) then INVALID else NO_FLAGS
  {
    hide P2, Format.Valid, Format.MaxField, ExpField, Fraction, Negative, Units, SignBit, Rounds;
    HalfFields(h);
    HalfConstants();
    DoublePowers();
    P2Add(9, 1);
    P2Small();
    assert P2(9) == 0x200;
    var r := Fraction(BINARY16, h);
    assert (r * TWO42) / TWO42 == r;
    assert h == (if h >= 0x8000 then 0x8000 else 0) + ((h / 0x400) % 0x20) * 0x400 + h % 0x400;
  }
}
