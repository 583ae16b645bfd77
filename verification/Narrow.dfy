/** The software narrowing of binary64 to binary16, rounding to nearest even. */
module Narrow {
  import opened Words
  import opened Pow2
  import opened Wide
  import opened Ieee
  import FusedEval
  import Fma

  /** Units of 2^-1074, in which every finite binary64 is an integer. */
  const U: int := -1074

  // ---- shared shape: shift the significand right, then lay out ----

  /** A binary64 as the conversion reads it: magnitude word, exponent field, 53-bit significand. */
  lemma {:induction false} NormalUnits(x: U64, be: nat, sig: nat)
    requires BINARY64.Valid() && be == ExpField(BINARY64, x) && be > 0
    requires sig == Fraction(BINARY64, x) + P2(52)
    ensures P2(52) <= sig < P2(53)
    ensures Units(BINARY64, x, U) == sig * P2(be - 1) && Msb(Units(BINARY64, x, U)) == be + 51
  {
    hide P2, Msb, Format.Valid, Fraction, ExpField;
    SignificandBound(BINARY64, x);
    MsbUnique(sig, 52);
    MsbScale(sig, be - 1);
  }

  lemma {:induction false} NearestScale(x: nat, s: nat, k: nat)
    ensures NearestEven(x * P2(k), s + k) == NearestEven(x, s)
    ensures (x * P2(k)) / P2(s + k) == x / P2(s)
    ensures (x * P2(k)) % P2(s + k) == (x % P2(s)) * P2(k)
  {
    MulDiv(x, P2(k));
    DivP2P2(x * P2(k), k, s);
    P2Add(s, k);
    var r, p, c := x % P2(s), P2(s), P2(k);
    assert 2 * (r * c) > p * c <==> 2 * r > p by { CompareScaled(2 * r, p, c); }
    assert 2 * (r * c) == p * c <==> 2 * r == p by { CompareScaled(2 * r, p, c); }
  }

  lemma CompareScaled(a: nat, b: nat, c: nat)
    requires c > 0
    ensures a * c > b * c <==> a > b
    ensures a * c == b * c <==> a == b
  {
    if a > b {
      MulMono(b + 1, a, c);
    } else {
      MulMono(a, b, c);
      if a < b {
        MulMono(a + 1, b, c);
      }
    }
  }

  /**
   Adding the rounded quotient to its exponent's field lets a carry bump the
   exponent, into the normals or into infinity, and still encodes the rounding.
   */
  lemma {:induction false} LayoutRounds(f: Format, neg: bool, a: nat, u: int, b: nat)
    requires f.Valid() && u <= f.emin && a > 0 && Msb(a) + u <= f.wmax
    requires b == SignBit(f, neg) + (Quantum(f, a, u) + u - f.emin) * P2(f.prec - 1) + NearestEven(a, Quantum(f, a, u))
    ensures f.wtiny + 1 - u >= 0
    ensures Rounds(f, neg, a, u, b,
                   if Rounded(f, a, u) >= Limit(f, u) then OVERFLOW
                   else Flags(false, false, Rounded(f, a, u) != a && a < P2(f.wtiny + 1 - u), Rounded(f, a, u) != a))
  {
    hide Rounds, P2, Msb, NearestEven, Quantum, Rounded, SignBit, Limit;
    var k := NearestEven(a, Quantum(f, a, u));
    if k == 0 {
      LayoutZero(f, neg, a, u);
      assert b == SignBit(f, neg) by {
        assert 0 * P2(f.prec - 1) == 0;
      }
    } else if k < P2(f.prec) {
      LayoutKept(f, neg, a, u, b);
    } else {
      LayoutCarry(f, neg, a, u, b);
    }
  }

  lemma {:induction false} LayoutZero(f: Format, neg: bool, a: nat, u: int)
    requires f.Valid() && u <= f.emin && a > 0
    requires NearestEven(a, Quantum(f, a, u)) == 0
    ensures Quantum(f, a, u) + u == f.emin
    ensures f.wtiny + 1 - u >= 0 && a < P2(f.wtiny + 1 - u)
    ensures Rounded(f, a, u) == 0 < Limit(f, u)
    ensures Rounds(f, neg, a, u, SignBit(f, neg), UNDERFLOW)
  {
    hide Rounds;
    FusedEval.PackZero(f, neg, a, u);
    FusedEval.NearZeroIsTiny(f, a, u);
    ZeroQuantum(f, a, u);
  }

  lemma {:induction false} LayoutKept(f: Format, neg: bool, a: nat, u: int, b: nat)
    requires f.Valid() && u <= f.emin && a > 0 && Msb(a) + u <= f.wmax
    requires 0 < NearestEven(a, Quantum(f, a, u)) < P2(f.prec)
    requires b == SignBit(f, neg) + (Quantum(f, a, u) + u - f.emin) * P2(f.prec - 1) + NearestEven(a, Quantum(f, a, u))
    ensures f.wtiny + 1 - u >= 0
    ensures Rounded(f, a, u) < Limit(f, u)
    ensures Rounds(f, neg, a, u, b,
                   Flags(false, false, Rounded(f, a, u) != a && a < P2(f.wtiny + 1 - u), Rounded(f, a, u) != a))
  {
    hide Rounds, P2, Msb, NearestEven, Quantum, Rounded, FusedEval.Canonical, Format.Valid;
    var k, e := NearestEven(a, Quantum(f, a, u)), Quantum(f, a, u) + u;
    FusedEval.RoundedCanonical(f, a, u);
    KeptTop(f, a, u, k);
    FusedEval.BelowLimit(f, u, k, e);
    assert Rounded(f, a, u) == k * P2(e - u) by { RoundedIs(f, a, u); }
    PackedFinite(f, neg, a, u, k, e, b);
  }

  lemma {:induction false} LayoutCarry(f: Format, neg: bool, a: nat, u: int, b: nat)
    requires f.Valid() && u <= f.emin && a > 0 && Msb(a) + u <= f.wmax
    requires NearestEven(a, Quantum(f, a, u)) >= P2(f.prec)
    requires b == SignBit(f, neg) + (Quantum(f, a, u) + u - f.emin) * P2(f.prec - 1) + NearestEven(a, Quantum(f, a, u))
    ensures f.wtiny + 1 - u >= 0
    ensures Rounds(f, neg, a, u, b,
                   if Rounded(f, a, u) >= Limit(f, u) then OVERFLOW
                   else Flags(false, false, Rounded(f, a, u) != a && a < P2(f.wtiny + 1 - u), Rounded(f, a, u) != a))
  {
    hide Rounds, P2, Msb, NearestEven, Rounded;
    LimitExponent(f);
    var k, e := NearestEven(a, Quantum(f, a, u)), Quantum(f, a, u) + u;
    FusedEval.RoundedCanonical(f, a, u);
    CarryLayout(f, e, k);
    P2Mono(0, f.prec - 1);
    P2Zero(0);
    P2Mono(f.prec - 1, f.prec);
    MsbUnique(P2(f.prec - 1), f.prec - 1);
    if e + f.prec > f.wmax {
      FusedEval.PackInfinity(f, neg, a, u, P2(f.prec - 1), e + 1);
      FusedEval.PastLimit(f, u, P2(f.prec - 1), e + 1);
    } else {
      FusedEval.BelowLimit(f, u, P2(f.prec - 1), e + 1);
      PackedFinite(f, neg, a, u, P2(f.prec - 1), e + 1, b);
    }
  }

  lemma RoundedIs(f: Format, a: nat, u: int)
    requires f.Valid() && u <= f.emin && a > 0
    ensures Rounded(f, a, u) == NearestEven(a, Quantum(f, a, u)) * P2(Quantum(f, a, u))
  {
  }

  lemma {:induction false} PackedFinite(f: Format, neg: bool, a: nat, u: int, k: nat, e: int, b: nat)
    requires f.Valid() && u <= f.emin && a > 0 && k > 0
    requires FusedEval.Canonical(f, a, u, k, e) && e + Msb(k) <= f.wmax
    requires b == SignBit(f, neg) + (e - f.emin) * P2(f.prec - 1) + k
    ensures f.wtiny + 1 - u >= 0
    ensures Rounds(f, neg, a, u, b,
                   Flags(false, false, Rounded(f, a, u) != a && a < P2(f.wtiny + 1 - u), Rounded(f, a, u) != a))
  {
    hide Rounds;
    LimitExponent(f);
    FusedEval.PackFinite(f, neg, a, u, k, e, b,
                         Flags(false, false, Rounded(f, a, u) != a && a < P2(f.wtiny + 1 - u), Rounded(f, a, u) != a));
  }

  /** Something that rounds to zero is below half the subnormal quantum. */
  lemma {:induction false} ZeroQuantum(f: Format, a: nat, u: int)
    requires f.Valid() && u <= f.emin && a > 0 && NearestEven(a, Quantum(f, a, u)) == 0
    ensures Quantum(f, a, u) + u == f.emin
    ensures Rounded(f, a, u) == 0 < Limit(f, u)
  {
    QuotientRange(f, a, u);
    NearestEvenBounds(a, Quantum(f, a, u));
  }

  /** Short of a carry, rounding keeps a normal's top bit and a subnormal's range. */
  lemma {:induction false} KeptTop(f: Format, a: nat, u: int, k: nat)
    requires f.Valid() && u <= f.emin && a > 0 && Msb(a) + u <= f.wmax
    requires k == NearestEven(a, Quantum(f, a, u)) && 0 < k < P2(f.prec)
    ensures Quantum(f, a, u) + u + Msb(k) <= f.wmax
  {
    LimitExponent(f);
    P2Lt(Msb(k), f.prec);
  }

  lemma {:induction false} CarryLayout(f: Format, e: int, k: nat)
    requires f.Valid() && e >= f.emin && k == P2(f.prec)
    requires e + f.prec - 1 <= f.wmax || e == f.emin
    ensures P2(f.prec) / 2 == P2(f.prec - 1)
    ensures (e - f.emin) * P2(f.prec - 1) + k == (e + 1 - f.emin) * P2(f.prec - 1) + P2(f.prec - 1)
    ensures e + f.prec > f.wmax && e + f.prec - 1 <= f.wmax ==>
              (e - f.emin) * P2(f.prec - 1) + k == f.MaxField() * P2(f.prec - 1)
  {
    var p := P2(f.prec - 1);
    assert k == 2 * p;
    Distrib(e - f.emin, 1, p);
    Distrib(e - f.emin, 2, p);
  }

  // ---- binary64 words, in the conversion's constants ----

  const TOP: nat := 0x8000_0000_0000_0000     // 2^63
  const HIDDEN: nat := 0x10_0000_0000_0000    // 2^52
  const INF64: nat := 0x7ff0_0000_0000_0000

  lemma {:induction false} DoublePowers()
    ensures BINARY64.Valid() && BINARY32.Valid() && BINARY16.Valid()
    ensures P2(63) == TOP && P2(52) == HIDDEN && P2(51) == HIDDEN / 2
    ensures P2(42) == 0x400_0000_0000
    ensures BINARY64.MaxField() == 0x7ff && BINARY32.MaxField() == 0xff && BINARY16.MaxField() == 0x1f
  {
    FormatsValid();
    P2Small();
    P2Word();
    assert P2(11) == 2048 && P2(5) == 32;
    hide P2;
    P2Add(32, 10);
    P2Add(42, 10);
    P2Add(52, 11);
    P2Add(51, 1);
  }

  /** The constants 2^63, 2^52 and 2^51 cut a word as the field masks do. */
  lemma WordFields(x: U64)
    ensures
      var mag := x % TOP;
      && (x / TOP != 0 <==> x >= TOP)
      && mag / HIDDEN <= 0x7ff
      && (mag > INF64 <==> mag / HIDDEN == 0x7ff && mag % HIDDEN != 0)
      && (mag == INF64 <==> mag / HIDDEN == 0x7ff && mag % HIDDEN == 0)
      && (mag == 0 <==> mag / HIDDEN == 0 && mag % HIDDEN == 0)
  {
  }

  lemma QuietBit(mag: nat)
    ensures (mag / (HIDDEN / 2)) % 2 == 0 <==> mag % HIDDEN < HIDDEN / 2
  {
    var q, r := mag / (HIDDEN / 2), mag % (HIDDEN / 2);
    assert mag == q * (HIDDEN / 2) + r;
    assert q == (q / 2) * 2 + q % 2;
    assert mag == (q / 2) * HIDDEN + ((q % 2) * (HIDDEN / 2) + r);
  }

  lemma TopPayload(mag: nat)
    ensures (mag / 0x400_0000_0000) % 0x200 == ((mag % HIDDEN) / 0x400_0000_0000) % 0x200
  {
    var q, r := mag / HIDDEN, mag % HIDDEN;
    assert mag == q * HIDDEN + r;
    var n, t := r / 0x400_0000_0000, r % 0x400_0000_0000;
    DivUnique(mag, 0x400_0000_0000, q * 0x400 + n, t);
    DivUnique(q * 0x400 + n, 0x200, q * 2 + n / 0x200, n % 0x200);
  }

  /** Comparing and shifting the magnitude word reads the binary64 fields. */
  lemma {:induction false} DoubleFields(x: U64)
    ensures BINARY64.Valid()
    ensures Magnitude(BINARY64, x) == x % TOP && (Negative(BINARY64, x) <==> x >= TOP)
    ensures ExpField(BINARY64, x) == (x % TOP) / HIDDEN && Fraction(BINARY64, x) == (x % TOP) % HIDDEN
    ensures IsNaN(BINARY64, x) <==> x % TOP > INF64
    ensures IsInf(BINARY64, x) <==> x % TOP == INF64
    ensures IsSignaling(BINARY64, x) <==> x % TOP > INF64 && (x % TOP / (HIDDEN / 2)) % 2 == 0
  {
    hide P2, Format.Valid, Format.MaxField;
    DoublePowers();
    WordFields(x);
    QuietBit(x % TOP);
  }

  // ---- to half ----

  /** What a conversion to binary16 delivers and signals, for every binary64 word. */
  predicate ToHalf(x: U64, b: nat, fl: Flags)
    requires BINARY64.Valid() && BINARY16.Valid()
  {
    var neg := Negative(BINARY64, x);
    if IsNaN(BINARY64, x) then
      // FPConvertNaN: quiet, and keep the top payload bits
      && b == SignBit(BINARY16, neg) + 0x7e00 + (Fraction(BINARY64, x) / P2(42)) % 0x200
      && fl == (if IsSignaling(BINARY64, x) then INVALID else NO_FLAGS)
    else if IsInf(BINARY64, x) then
      b == Infinity(BINARY16, neg) && fl == NO_FLAGS
    else if IsZero(BINARY64, x) then
      b == SignBit(BINARY16, neg) && fl == NO_FLAGS
    else
      && Units(BINARY64, x, U) > 0
      && Rounds(BINARY16, neg, Units(BINARY64, x, U), U, b, fl)
  }

  method F64ToF16(x: U64) returns (res: nat, fl: Flags)
    ensures BINARY64.Valid() && BINARY16.Valid() && ToHalf(x, res, fl)
  {
    hide ToHalf, P2, Format.Valid;
    SpecialToHalf(x);
    var sign := if x >= TOP then 0x8000 else 0;
    var mag := x % TOP;
    if mag >= INF64 {
      if mag > INF64 {
        fl := if (mag / (HIDDEN / 2)) % 2 == 0 then INVALID else NO_FLAGS;
        return sign + 0x7e00 + (mag / 0x400_0000_0000) % 0x200, fl;
      }
      return sign + 0x7c00, NO_FLAGS;
    }
    if mag == 0 {
      return sign, NO_FLAGS;
    }
    res, fl := RoundToHalf(x, sign, mag);
  }

  /** A nonzero finite value: shift out, round, and let the carry run into the exponent. */
  method RoundToHalf(x: U64, sign: nat, mag: nat) returns (res: nat, fl: Flags)
    requires mag == x % TOP && 0 < mag < INF64 && sign == if x >= TOP then 0x8000 else 0
    ensures BINARY64.Valid() && BINARY16.Valid() && ToHalf(x, res, fl)
  {
    hide ToHalf, P2, Format.Valid, NearestEven, HalfBits;
    var he := mag / HIDDEN - 1023 + 15;
    var sig := mag % HIDDEN + HIDDEN;
    if he >= 0x1f {
      HalfOverflow(x);
      return sign + 0x7c00, OVERFLOW;
    }
    var shift := if he > 0 then 42 else 43 - he;
    if shift >= 54 {
      HalfUnderflow(x);
      return sign, UNDERFLOW;
    }
    var rounded := sig / P2(shift);
    var rem := sig % P2(shift);
    var halfway := P2(shift - 1);
    HalfwayIs(sig, shift);
    HalfRounds(x, sig, shift);
    if rem > halfway || (rem == halfway && rounded % 2 == 1) {
      rounded := rounded + 1;
    }
    fl := NO_FLAGS;
    if rem != 0 {
      fl := if he > 0 then Flags(false, false, false, true) else UNDERFLOW;
    }
    res := HalfBits(sign, he, rounded);
    if (res / 0x400) % 0x20 == 0x1f {
      fl := fl.Or(OVERFLOW);
    }
  }

  function HalfBits(sign: nat, he: int, rounded: nat): nat {
    if he > 0 then sign + (he - 1) * 0x400 + rounded else sign + rounded
  }

  lemma {:induction false} HalfwayIs(sig: nat, shift: nat)
    requires shift > 0
    ensures
      var n, r, h := sig / P2(shift), sig % P2(shift), P2(shift - 1);
      NearestEven(sig, shift) == if r > h || (r == h && n % 2 == 1) then n + 1 else n
  {
  }

  /** Rounding the shifted significand is rounding the value; the flags follow the remainder. */
  lemma {:induction false} HalfRounds(x: U64, sig: nat, shift: nat)
    requires 0 < x % TOP < INF64 && sig == (x % TOP) % HIDDEN + HIDDEN
    requires
      var he := (x % TOP) / HIDDEN - 1008;
      && he < 0x1f && shift == (if he > 0 then 42 else 43 - he) && shift < 54
    ensures BINARY64.Valid() && BINARY16.Valid()
    ensures
      var he, rem := (x % TOP) / HIDDEN - 1008, sig % P2(shift);
      var res := HalfBits(if x >= TOP then 0x8000 else 0, he, NearestEven(sig, shift));
      var fl := if rem == 0 then NO_FLAGS else if he > 0 then Flags(false, false, false, true) else UNDERFLOW;
      ToHalf(x, res, if (res / 0x400) % 0x20 == 0x1f then fl.Or(OVERFLOW) else fl)
  {
    hide P2, Msb, NearestEven, Rounds, Format.Valid, Format.MaxField, Units, HalfBits,
      IsNaN, IsInf, IsSignaling, ExpField, Fraction, SignBit, Negative, Infinity;
    DoublePowers();
    DoubleFields(x);
    var be := (x % TOP) / HIDDEN;
    assert be > 0;
    NormalUnits(x, be, sig);
    HalfValue(x >= TOP, Units(BINARY64, x, U), be, sig, shift);
  }

  lemma {:induction false} HalfValue(neg: bool, a: nat, be: nat, sig: nat, shift: nat)
    requires BINARY16.Valid() && be > 0 && sig > 0 && a == sig * P2(be - 1) && a > 0 && Msb(a) == be + 51
    requires be - 1008 < 0x1f && shift == if be > 1008 then 42 else 43 - (be - 1008)
    ensures
      var rem := sig % P2(shift);
      var res := HalfBits(if neg then 0x8000 else 0, be - 1008, NearestEven(sig, shift));
      var fl := if rem == 0 then NO_FLAGS else if be > 1008 then Flags(false, false, false, true) else UNDERFLOW;
      Rounds(BINARY16, neg, a, U, res, if (res / 0x400) % 0x20 == 0x1f then fl.Or(OVERFLOW) else fl)
  {
    hide P2, Msb, NearestEven, Quantum, Rounded, Rounds, Format.Valid, Format.MaxField, Limit;
    HalfConstants();
    var k := NearestEven(sig, shift);
    var res := HalfBits(if neg then 0x8000 else 0, be - 1008, k);
    HalfQuantum(a, be, sig, shift);
    LayoutRounds(BINARY16, neg, a, U, res);
    HalfInfinity(neg, a, res);
    if be <= 1008 {
      SubnormalStays(a);
    }
  }

  /** A tiny value never reaches infinity. */
  lemma {:induction false} SubnormalStays(a: nat)
    requires BINARY16.Valid() && a > 0 && a < P2(1060)
    ensures Rounded(BINARY16, a, U) < Limit(BINARY16, U)
  {
    hide P2, Rounded;
    OverflowThreshold(BINARY16, a, U);
    P2Mono(1060, 1078);
    P2Mono(1079, 1090);
    P2Mono(1078, 1079);
  }

  lemma {:induction false} HalfQuantum(a: nat, be: nat, sig: nat, shift: nat)
    requires BINARY16.Valid() && be > 0 && sig > 0 && a == sig * P2(be - 1) && a > 0 && Msb(a) == be + 51
    requires
      var he := be - 1008;
      he < 0x1f && shift == if he > 0 then 42 else 43 - he
    ensures Quantum(BINARY16, a, U) == shift + be - 1
    ensures NearestEven(a, Quantum(BINARY16, a, U)) == NearestEven(sig, shift)
    ensures Rounded(BINARY16, a, U) == a <==> sig % P2(shift) == 0
    ensures a < P2(1060) <==> be <= 1008
  {
    hide P2, Msb, NearestEven;
    NearestScale(sig, shift, be - 1);
    FusedEval.ExactIffDivides(a, shift + be - 1);
    if sig % P2(shift) > 0 {
      MulMono(1, sig % P2(shift), P2(be - 1));
    }
    MsbRange(a);
    if be <= 1008 {
      P2Mono(be + 52, 1060);
    } else {
      P2Mono(1060, be + 51);
    }
  }

  lemma MsbRange(a: nat)
    requires a > 0
    ensures P2(Msb(a)) <= a < P2(Msb(a) + 1)
  {
  }

  /** The all-ones exponent pattern appears exactly when the rounding overflowed. */
  lemma {:induction false} HalfInfinity(neg: bool, a: nat, res: nat)
    requires BINARY16.Valid() && a > 0
    requires BINARY16.wtiny + 1 - U >= 0
    requires Rounds(BINARY16, neg, a, U, res,
                    if Rounded(BINARY16, a, U) >= Limit(BINARY16, U) then OVERFLOW
                    else Flags(false, false, Rounded(BINARY16, a, U) != a && a < P2(1060),
                      Rounded(BINARY16, a, U) != a))
    ensures (res / 0x400) % 0x20 == 0x1f <==> Rounded(BINARY16, a, U) >= Limit(BINARY16, U)
  {
    Fma.FieldsOf(BINARY16, res);
    HalfConstants();
    DoublePowers();
    assert P2(5) == 32;
  }

  lemma {:induction false} HalfOverflow(x: U64)
    requires 0 < x % TOP < INF64 && (x % TOP) / HIDDEN - 1008 >= 0x1f
    ensures BINARY64.Valid() && BINARY16.Valid()
    ensures ToHalf(x, (if x >= TOP then 0x8000 else 0) + 0x7c00, OVERFLOW)
  {
    hide P2, Msb, NearestEven, Quantum, Rounded, Rounds, Format.Valid, Format.MaxField, Units,
      IsNaN, IsInf, IsSignaling, ExpField, Fraction, SignBit, Negative, Infinity;
    DoublePowers();
    DoubleFields(x);
    HalfConstants();
    var be, a := (x % TOP) / HIDDEN, Units(BINARY64, x, U);
    NormalUnits(x, be, (x % TOP) % HIDDEN + HIDDEN);
    MsbRange(a);
    P2Mono(BINARY16.wmax + 1 - U, Msb(a));
    AboveLimit(BINARY16, x >= TOP, a, U);
  }

  /** Everything from the limit up rounds to infinity. */
  lemma {:induction false} AboveLimit(f: Format, neg: bool, a: nat, u: int)
    requires f.Valid() && u <= f.emin && a >= Limit(f, u) && a > 0
    ensures Rounds(f, neg, a, u, Infinity(f, neg), OVERFLOW)
  {
    hide P2, Rounded;
    LimitExponent(f);
    OverflowThreshold(f, a, u);
    SplitEncoding(f, neg, f.MaxField(), 0);
  }

  lemma {:induction false} HalfUnderflow(x: U64)
    requires 0 < x % TOP < INF64 && (x % TOP) / HIDDEN - 1008 <= -11
    ensures BINARY64.Valid() && BINARY16.Valid()
    ensures ToHalf(x, if x >= TOP then 0x8000 else 0, UNDERFLOW)
  {
    hide P2, Msb, NearestEven, Rounded, Rounds, Format.Valid, Format.MaxField,
      IsNaN, IsInf, IsSignaling, ExpField, Fraction, SignBit, Negative, Infinity;
    DoublePowers();
    DoubleFields(x);
    HalfConstants();
    var be, a := (x % TOP) / HIDDEN, Units(BINARY64, x, U);
    SmallUnits(x, be);
    NearZero(BINARY16, a, 1050);
    LayoutZero(BINARY16, x >= TOP, a, U);
  }

  /** A binary64 below 2^-25 has fewer than 2^1049 units. */
  lemma {:induction false} SmallUnits(x: U64, be: nat)
    requires BINARY64.Valid() && be == ExpField(BINARY64, x) && be <= 997 && !IsZero(BINARY64, x)
    ensures 0 < Units(BINARY64, x, U) < P2(1049)
  {
    hide P2, Format.Valid, ExpField, Fraction;
    Fma.FiniteZero(BINARY64, x, U);
    SignificandBound(BINARY64, x);
    var e := Exponent(BINARY64, x) - U;
    MulBounds(0, Significand(BINARY64, x), P2(53), P2(e));
    P2Add(53, e);
    P2Mono(53 + e, 1049);
  }

  lemma {:induction false} NearZero(f: Format, a: nat, q: nat)
    requires f.Valid() && f.emin - U == q && f.prec < q && 0 < a < P2(q - 1)
    ensures Quantum(f, a, U) == q && NearestEven(a, q) == 0
  {
    P2Lt(Msb(a), q - 1);
    assert P2(q) == 2 * P2(q - 1);
    DivUnique(a, P2(q), 0, a);
  }

  /** NaNs, infinities and zeros. */
  lemma {:induction false} SpecialToHalf(x: U64)
    ensures BINARY64.Valid() && BINARY16.Valid()
    ensures
      var sign, mag := if x >= TOP then 0x8000 else 0, x % TOP;
      && (mag > INF64 ==> ToHalf(x, sign + 0x7e00 + (mag / 0x400_0000_0000) % 0x200,
                                 if (mag / (HIDDEN / 2)) % 2 == 0 then INVALID else NO_FLAGS))
      && (mag == INF64 ==> ToHalf(x, sign + 0x7c00, NO_FLAGS))
      && (mag == 0 ==> ToHalf(x, sign, NO_FLAGS))
  {
    hide P2, Rounds, Format.Valid, Format.MaxField, Units, IsNaN, IsInf, IsSignaling, ExpField, Fraction,
      SignBit, Negative, Infinity;
    DoublePowers();
    DoubleFields(x);
    HalfConstants();
    TopPayload(x % TOP);
  }

  lemma {:induction false} HalfConstants()
    ensures BINARY16.Valid()
    ensures SignBit(BINARY16, true) == 0x8000 && SignBit(BINARY16, false) == 0
    ensures Infinity(BINARY16, true) == 0xfc00 && Infinity(BINARY16, false) == 0x7c00
    ensures P2(10) == 0x400 && P2(11) == 0x800
  {
    FormatsValid();
    P2Small();
    assert P2(11) == 2 * P2(10);
    assert P2(5) == 32;
    hide P2;
    P2Add(10, 5);
  }
}
