/**
 Round to odd (FCVTXN): truncation whose lost bits are folded into the lowest
 kept one. The point of the mode is that a later rounding to a narrower format
 then gives what a single rounding would have given.
 */
module RoundOdd {
  import opened Words
  import opened Pow2
  import opened Wide
  import opened Ieee
  import opened Narrow
  import FusedEval
  import Fma

  // ---- specification ----

  /** a / 2^q truncated, then made odd if anything was lost. */
  function OddQuotient(a: nat, q: nat): nat {
    var n := a / P2(q);
    if a % P2(q) != 0 && n % 2 == 0 then n + 1 else n
  }

  /** a * 2^u rounded to odd, in units of 2^u. */
  function RoundedOdd(f: Format, a: nat, u: int): nat
    requires f.Valid() && u <= f.emin && a > 0
  {
    OddQuotient(a, Quantum(f, a, u)) * P2(Quantum(f, a, u))
  }

  /** Largest finite magnitude. */
  function MaxFinite(f: Format, u: int): int
    requires f.Valid() && u <= f.emin
  {
    LimitExponent(f);
    Limit(f, u) - P2(f.wmax + 1 - f.prec - u)
  }

  /** A finite encoding always comes back: overflow stops at the largest one. */
  predicate RoundsOdd(f: Format, neg: bool, a: nat, u: int, b: nat, fl: Flags)
    requires f.Valid() && u <= f.emin && a > 0
  {
    LimitExponent(f);
    var inexact := a % P2(Quantum(f, a, u)) != 0;
    && Encoding(f, b) && Negative(f, b) == neg && IsFinite(f, b)
    && if a >= Limit(f, u) then Units(f, b, u) == MaxFinite(f, u) && fl == OVERFLOW
       else
         && Units(f, b, u) == RoundedOdd(f, a, u)
         && fl == Flags(false, false, inexact && a < P2(f.wtiny + 1 - u), inexact)
  }

  predicate ToSingleOdd(x: U64, b: nat, fl: Flags)
    requires BINARY64.Valid() && BINARY32.Valid()
  {
    var neg := Negative(BINARY64, x);
    if IsNaN(BINARY64, x) then
      b == SignBit(BINARY32, neg) + 0x7fc00000 && fl == (if IsSignaling(BINARY64, x) then INVALID else NO_FLAGS)
    else if IsInf(BINARY64, x) then
      b == Infinity(BINARY32, neg) && fl == NO_FLAGS
    else if IsZero(BINARY64, x) then
      b == SignBit(BINARY32, neg) && fl == NO_FLAGS
    else
      && Units(BINARY64, x, U) > 0
      && RoundsOdd(BINARY32, neg, Units(BINARY64, x, U), U, b, fl)
  }

  // ---- what rounding to odd is for ----

  /** Less than one quantum away, and odd unless exact. */
  lemma {:induction false} OddNeighbour(a: nat, q: nat)
    ensures Distance(a, OddQuotient(a, q) * P2(q)) < P2(q)
    ensures OddQuotient(a, q) * P2(q) == a || OddQuotient(a, q) % 2 == 1
    ensures OddQuotient(a, q) * P2(q) == a <==> a % P2(q) == 0
  {
    var n, p := a / P2(q), P2(q);
    DivMod(a, p);
    Distrib(n, 1, p);
    MulDiv(OddQuotient(a, q), p);
  }

  /** Two bits or more further up, nearest-even cannot see that odd rounding came first. */
  lemma {:induction false} OddThenNearest(a: nat, q: nat, d: nat)
    requires d >= 2
    ensures NearestEven(OddQuotient(a, q) * P2(q), q + d) == NearestEven(a, q + d)
  {
    hide NearestEven;
    var n, k := a / P2(q), OddQuotient(a, q);
    MulDiv(k, P2(q));
    NearestByDigit(a, q, d);
    NearestByDigit(k * P2(q), q, d);
    SameUpperBits(n, k, d);
    assert P2(d - 1) % 2 == 0 by { assert P2(d - 1) == 2 * P2(d - 2); }
  }

  /** Nearest-even d bits up, from the quotient by 2^q and what is below it. */
  lemma {:induction false} NearestByDigit(a: nat, q: nat, d: nat)
    requires d >= 1
    ensures
      var n, r, h := a / P2(q), a % P2(q), P2(d - 1);
      var t, m := n % P2(d), n / P2(d);
      NearestEven(a, q + d) == if t > h || (t == h && (r > 0 || m % 2 == 1)) then m + 1 else m
  {
    var r, h := a % P2(q), P2(d - 1);
    DivP2P2(a, q, d);
    CompareHalf((a / P2(q)) % P2(d), r, P2(q), h);
    P2Add(d - 1, q);
    assert P2(q + d) == 2 * P2(d - 1 + q);
  }

  lemma {:induction false} SameUpperBits(n: nat, k: nat, d: nat)
    requires d >= 1 && (k == n || (k == n + 1 && n % 2 == 0))
    ensures k / P2(d) == n / P2(d)
    ensures k % P2(d) == n % P2(d) + (k - n)
    ensures (n % P2(d)) % 2 == n % 2
  {
    var p, h := P2(d), P2(d - 1);
    assert p == 2 * h;
    DivMod(n, p);
    var s, t := n / p, n % p;
    assert n == 2 * (s * h) + t by {
      Assoc(s, 2, h);
    }
    DivUnique(k, p, s, t + (k - n));
  }

  lemma CompareHalf(t: nat, r: nat, p: nat, h: nat)
    requires r < p
    ensures t * p + r > h * p <==> t > h || (t == h && r > 0)
    ensures t * p + r == h * p <==> t == h && r == 0
  {
    if t > h {
      MulMono(h + 1, t, p);
      Distrib(h, 1, p);
    } else if t < h {
      MulMono(t + 1, h, p);
      Distrib(t, 1, p);
    }
  }

  /** Rounding to odd keeps the spacing of a narrower format in place. */
  lemma {:induction false} OddKeepsQuantum(f: Format, g: Format, a: nat, u: int)
    requires f.Valid() && g.Valid() && u <= f.emin && a > 0
    requires g.prec + 2 <= f.prec && g.emin >= f.emin + 2
    ensures RoundedOdd(f, a, u) > 0
    ensures Quantum(g, RoundedOdd(f, a, u), u) == Quantum(g, a, u) >= Quantum(f, a, u) + 2
  {
    var q := Quantum(f, a, u);
    var n, k := a / P2(q), OddQuotient(a, q);
    QuotientRange(f, a, u);
    DivMod(a, P2(q));
    MulMono(1, k, P2(q));
    MsbScale(k, q);
    if n > 0 {
      MsbDiv(a, q);
      OddKeepsTop(n, k);
    } else {
      MsbUnique(1, 0);
      P2Lt(Msb(a), q);
    }
  }

  lemma {:induction false} OddKeepsTop(n: nat, k: nat)
    requires n > 0 && (k == n || (k == n + 1 && n % 2 == 0))
    ensures k > 0 && Msb(k) == Msb(n)
  {
    var t := Msb(n);
    if t == 0 {
      assert n == 1;
    } else {
      assert P2(t + 1) == 2 * P2(t);
      MsbUnique(k, t);
    }
  }

  /**
   Innocuous double rounding: rounding to odd in f and then to nearest even in a
   format at least two bits narrower is one rounding to nearest even.
   */
  lemma {:induction false} DoubleRoundingIsOne(f: Format, g: Format, a: nat, u: int)
    requires f.Valid() && g.Valid() && u <= f.emin && a > 0
    requires g.prec + 2 <= f.prec && g.emin >= f.emin + 2
    ensures RoundedOdd(f, a, u) > 0
    ensures Rounded(g, RoundedOdd(f, a, u), u) == Rounded(g, a, u)
  {
    hide NearestEven, Quantum;
    OddKeepsQuantum(f, g, a, u);
    OddThenNearest(a, Quantum(f, a, u), Quantum(g, a, u) - Quantum(f, a, u));
  }

  /** And where the first rounding stops at the largest finite value, the second still overflows, as one would. */
  lemma {:induction false} CapStillOverflows(f: Format, g: Format, a: nat, u: int)
    requires f.Valid() && g.Valid() && u <= f.emin && u <= g.emin && g.prec + 2 <= f.prec && g.wmax <= f.wmax
    requires a >= Limit(f, u)
    ensures MaxFinite(f, u) > 0 && a > 0
    ensures Rounded(g, MaxFinite(f, u), u) >= Limit(g, u) && Rounded(g, a, u) >= Limit(g, u)
  {
    hide P2, Rounded;
    LimitExponent(f);
    LimitExponent(g);
    var w, v := f.wmax + 1 - u, g.wmax + 1 - u;
    P2Mono(v, w);
    P2Positive(w);
    Threshold(w, v, f.prec, g.prec);
    OverflowThreshold(g, MaxFinite(f, u), u);
    OverflowThreshold(g, a, u);
  }

  lemma {:induction false} Threshold(w: nat, v: nat, p: nat, q: nat)
    requires v <= w && 2 <= q && q + 2 <= p <= w && q + 1 <= v
    ensures P2(w) - P2(w - p) >= P2(v) - P2(v - 1 - q)
    ensures P2(w) - P2(w - p) > 0
  {
    hide P2;
    P2Mono(w - p, w - 1);
    P2Add(1, w - 1);
    assert P2(1) == 2 by {
      P2One();
    }
    P2Positive(w - 1);
    P2Positive(v - 1 - q);
    if v == w {
      P2Mono(w - p, w - 1 - q);
    } else {
      P2Mono(v, w - 1);
    }
  }

  lemma P2One()
    ensures P2(1) == 2
  {
    assert P2(0) == 1;
  }

  // ---- the conversion ----

  method F64ToF32RoundOdd(x: U64) returns (res: nat, fl: Flags)
    ensures BINARY64.Valid() && BINARY32.Valid() && ToSingleOdd(x, res, fl)
  {
    hide ToSingleOdd, P2, Format.Valid, OddQuotient, SingleBits;
    SpecialToSingle(x);
    var sign := if x >= TOP then 0x80000000 else 0;
    var mag := x % TOP;
    if mag >= INF64 {
      fl := NO_FLAGS;
      if mag > INF64 && (mag / (HIDDEN / 2)) % 2 == 0 {
        fl := INVALID;
      }
      return sign + (if mag > INF64 then 0x7fc00000 else 0x7f800000), fl;
    }
    if mag == 0 {
      return sign, NO_FLAGS;
    }
    if mag < 0x36a0_0000_0000_0000 {
      SingleTiny(x);
      return sign + 1, UNDERFLOW;
    }
    var fe := mag / HIDDEN - 1023 + 127;
    var sig := mag % HIDDEN + HIDDEN;
    if fe >= 0xff {
      SingleOverflow(x);
      return sign + 0x7f7fffff, OVERFLOW;
    }
    var shift := if fe > 0 then 29 else 30 - fe;
    var rounded := sig / P2(shift);
    fl := NO_FLAGS;
    SingleRounds(x, sig, shift);
    OddOr(sig, shift);
    if sig % P2(shift) != 0 {
      rounded := if rounded % 2 == 0 then rounded + 1 else rounded;   // rounded |= 1
      fl := if fe > 0 then Flags(false, false, false, true) else UNDERFLOW;
    }
    res := SingleBits(sign, fe, rounded);
  }

  function SingleBits(sign: nat, fe: int, rounded: nat): nat {
    if fe > 0 then sign + (fe - 1) * 0x800000 + rounded else sign + rounded
  }

  lemma OddOr(sig: nat, shift: nat)
    ensures
      var n := sig / P2(shift);
      OddQuotient(sig, shift) == if sig % P2(shift) != 0 then (if n % 2 == 0 then n + 1 else n) else n
  {
  }

  lemma {:induction false} SingleConstants()
    ensures BINARY32.Valid()
    ensures SignBit(BINARY32, true) == 0x80000000 && SignBit(BINARY32, false) == 0
    ensures Infinity(BINARY32, true) == 0xff800000 && Infinity(BINARY32, false) == 0x7f800000
    ensures P2(23) == 0x800000 && P2(24) == 0x1000000
  {
    FormatsValid();
    P2Small();
    DoublePowers();
    assert P2(5) == 32 && P2(6) == 64;
    hide P2;
    P2Add(18, 5);
    P2Add(18, 6);
    P2Add(23, 8);
  }

  lemma {:induction false} SpecialToSingle(x: U64)
    ensures BINARY64.Valid() && BINARY32.Valid()
    ensures
      var sign, mag := if x >= TOP then 0x80000000 else 0, x % TOP;
      && (mag > INF64 ==> ToSingleOdd(x, sign + 0x7fc00000,
                                      if (mag / (HIDDEN / 2)) % 2 == 0 then INVALID else NO_FLAGS))
      && (mag == INF64 ==> ToSingleOdd(x, sign + 0x7f800000, NO_FLAGS))
      && (mag == 0 ==> ToSingleOdd(x, sign, NO_FLAGS))
  {
    hide P2, RoundsOdd, Format.Valid, Format.MaxField, Units, IsNaN, IsInf, IsSignaling, ExpField, Fraction,
      SignBit, Negative, Infinity;
    DoublePowers();
    DoubleFields(x);
    SingleConstants();
  }

  lemma {:induction false} SingleTiny(x: U64)
    requires 0 < x % TOP < 0x36a0_0000_0000_0000
    ensures BINARY64.Valid() && BINARY32.Valid()
    ensures ToSingleOdd(x, (if x >= TOP then 0x80000000 else 0) + 1, UNDERFLOW)
  {
    hide P2, Msb, Format.Valid, Format.MaxField, RoundsOdd,
      IsNaN, IsInf, IsSignaling, ExpField, Fraction, SignBit, Negative, Infinity;
    DoublePowers();
    DoubleFields(x);
    SingleConstants();
    TinyUnits(x, (x % TOP) / HIDDEN);
    SmallestSubnormal(x >= TOP, Units(BINARY64, x, U));
  }

  lemma {:induction false} TinyUnits(x: U64, be: nat)
    requires BINARY64.Valid() && be == ExpField(BINARY64, x) && be < 874 && !IsZero(BINARY64, x)
    ensures 0 < Units(BINARY64, x, U) < P2(925)
  {
    hide P2, Format.Valid, ExpField, Fraction;
    Fma.FiniteZero(BINARY64, x, U);
    SignificandBound(BINARY64, x);
    var e := Exponent(BINARY64, x) - U;
    MulBounds(0, Significand(BINARY64, x), P2(53), P2(e));
    P2Add(53, e);
    P2Mono(53 + e, 925);
  }

  lemma {:induction false} SmallestSubnormal(neg: bool, a: nat)
    requires BINARY32.Valid() && 0 < a < P2(925)
    ensures RoundsOdd(BINARY32, neg, a, U, SignBit(BINARY32, neg) + 1, UNDERFLOW)
  {
    hide P2, Msb, Format.MaxField;
    LimitExponent(BINARY32);
    MsbRange(a);
    P2Lt(Msb(a), 925);
    DivUnique(a, P2(925), 0, a);
    P2Mono(925, 1202);
    P2Mono(925, 948);
    P2Mono(1, 23);
    P2Mono(1, 24);
    P2Zero(1);
    EncodeCanonical(BINARY32, neg, 1, -149);
  }

  lemma {:induction false} SingleOverflow(x: U64)
    requires 0 < x % TOP < INF64 && (x % TOP) / HIDDEN - 896 >= 0xff
    ensures BINARY64.Valid() && BINARY32.Valid()
    ensures ToSingleOdd(x, (if x >= TOP then 0x80000000 else 0) + 0x7f7fffff, OVERFLOW)
  {
    hide P2, Msb, Quantum, RoundsOdd, Format.Valid, Format.MaxField, Units,
      IsNaN, IsInf, IsSignaling, ExpField, Fraction, SignBit, Negative, Infinity;
    DoublePowers();
    DoubleFields(x);
    SingleConstants();
    var be, a := (x % TOP) / HIDDEN, Units(BINARY64, x, U);
    NormalUnits(x, be, (x % TOP) % HIDDEN + HIDDEN);
    MsbRange(a);
    P2Mono(1202, Msb(a));
    LargestFinite(x >= TOP, a);
  }

  lemma {:induction false} LargestFinite(neg: bool, a: nat)
    requires BINARY32.Valid() && a >= P2(1202)
    ensures a > 0 && RoundsOdd(BINARY32, neg, a, U, SignBit(BINARY32, neg) + 0x7f7fffff, OVERFLOW)
  {
    hide P2, Msb, Quantum, Format.MaxField;
    SingleConstants();
    LimitExponent(BINARY32);
    EncodeCanonical(BINARY32, neg, 0xffffff, 104);
    P2Add(24, 1178);
    Distrib(P2(24), 1, P2(1178));
  }

  /** Truncating the significand with its sticky bit is rounding the value to odd. */
  lemma {:induction false} SingleRounds(x: U64, sig: nat, shift: nat)
    requires 0x36a0_0000_0000_0000 <= x % TOP < INF64 && sig == (x % TOP) % HIDDEN + HIDDEN
    requires
      var fe := (x % TOP) / HIDDEN - 896;
      fe < 0xff && shift == if fe > 0 then 29 else 30 - fe
    ensures BINARY64.Valid() && BINARY32.Valid()
    ensures
      var fe, rem := (x % TOP) / HIDDEN - 896, sig % P2(shift);
      ToSingleOdd(x, SingleBits(if x >= TOP then 0x80000000 else 0, fe, OddQuotient(sig, shift)),
                  if rem == 0 then NO_FLAGS else if fe > 0 then Flags(false, false, false, true) else UNDERFLOW)
  {
    hide P2, Msb, OddQuotient, RoundsOdd, Format.Valid, Format.MaxField, Units, SingleBits,
      IsNaN, IsInf, IsSignaling, ExpField, Fraction, SignBit, Negative, Infinity;
    DoublePowers();
    DoubleFields(x);
    var be := (x % TOP) / HIDDEN;
    assert be >= 874;
    NormalUnits(x, be, sig);
    SingleValue(x >= TOP, Units(BINARY64, x, U), be, sig, shift);
  }

  lemma {:induction false} SingleValue(neg: bool, a: nat, be: nat, sig: nat, shift: nat)
    requires BINARY32.Valid() && be > 0 && P2(52) <= sig < P2(53) && a == sig * P2(be - 1) && a > 0 && Msb(a) == be + 51
    requires 874 <= be && be - 896 < 0xff && shift == if be > 896 then 29 else 30 - (be - 896)
    ensures RoundsOdd(BINARY32, neg, a, U, SingleBits(if neg then 0x80000000 else 0, be - 896, OddQuotient(sig, shift)),
                      if sig % P2(shift) == 0 then NO_FLAGS
                      else if be > 896 then Flags(false, false, false, true) else UNDERFLOW)
  {
    hide P2, Msb, OddQuotient, Quantum, Format.Valid, Format.MaxField, Units, IsFinite, Negative;
    SingleConstants();
    LimitExponent(BINARY32);
    SingleQuantum(a, be, sig, shift);
    var k, e := OddQuotient(sig, shift), shift + be - 1 + U;
    EncodeCanonical(BINARY32, neg, k, e);
    OddUnits(neg, k, e);
  }

  lemma {:induction false} OddUnits(neg: bool, k: nat, e: int)
    requires BINARY32.Valid() && e >= -149
    ensures
      var b := SignBit(BINARY32, neg) + (e + 149) * P2(23) + k;
      b >= 0 && (Significand(BINARY32, b) == k && Exponent(BINARY32, b) == e ==> Units(BINARY32, b, U) == k * P2(e - U))
  {
    MulMono(0, e + 149, P2(23));
  }

  lemma {:induction false} SingleQuantum(a: nat, be: nat, sig: nat, shift: nat)
    requires BINARY32.Valid() && be > 0 && P2(52) <= sig < P2(53) && a == sig * P2(be - 1) && a > 0 && Msb(a) == be + 51
    requires 874 <= be && be - 896 < 0xff && shift == if be > 896 then 29 else 30 - (be - 896)
    ensures Quantum(BINARY32, a, U) == shift + be - 1
    ensures OddQuotient(a, shift + be - 1) == OddQuotient(sig, shift)
    ensures a % P2(shift + be - 1) != 0 <==> sig % P2(shift) != 0
    ensures 0 < OddQuotient(sig, shift) < P2(24) && (be > 896 ==> OddQuotient(sig, shift) >= P2(23))
    ensures a < P2(948) <==> be <= 896
    ensures a < P2(1202)
  {
    hide P2, Msb;
    NearestScale(sig, shift, be - 1);
    if sig % P2(shift) > 0 {
      MulMono(1, sig % P2(shift), P2(be - 1));
    }
    MsbRange(a);
    P2Mono(be + 52, 1202);
    if be <= 896 {
      P2Mono(be + 52, 948);
    } else {
      P2Mono(948, be + 51);
    }
    KeptSignificand(sig, shift);
  }

  lemma {:induction false} KeptSignificand(sig: nat, shift: nat)
    requires P2(52) <= sig < P2(53) && 29 <= shift <= 52
    ensures 0 < OddQuotient(sig, shift) < P2(24)
    ensures shift == 29 ==> OddQuotient(sig, shift) >= P2(23)
  {
    SingleConstants();
    FusedEval.QuotientTop(sig, 52, shift);
    P2Mono(53 - shift, 24);
    P2Mono(0, 52 - shift);
    P2Zero(0);
  }
}
