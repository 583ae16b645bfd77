/**
 IEEE 754-2019 binary formats, as a specification. A finite value is an integer
 number of units of 2^u for some fixed u no higher than the format's quantum
 exponent, so sums and products of encodings are exact integers and rounding
 is stated without reals.
 */
module Ieee {
  import opened Pow2

  /**
   One binary format, in the parameters the fused evaluator takes: significand
   precision, exponent of the smallest subnormal, exponent of the largest finite
   top bit, exponent at or below which a top bit is tiny, storage width, and the
   offset from a significand's lsb exponent to the biased exponent field.
   */
  datatype Format = Format(prec: nat, emin: int, wmax: int, wtiny: int, width: nat, eoff: int) {
    predicate Valid() {
      && 2 <= prec <= 53
      && prec + 2 <= width
      && eoff == 1 - emin
      && wtiny == emin + prec - 2
      && wmax == emin + prec + P2(width - prec) - 4
    }

    /** The all-ones exponent field, which infinities and NaNs carry. */
    function MaxField(): (r: nat)
      requires Valid()
      ensures r >= 3
    {
      P2Mono(2, width - prec);
      P2(width - prec) - 1
    }
  }

  const BINARY64 := Format(53, -1074, 1023, -1023, 64, 1075)
  const BINARY32 := Format(24, -149, 127, -127, 32, 150)
  const BINARY16 := Format(11, -24, 15, -15, 16, 25)

  lemma FormatsValid()
    ensures BINARY64.Valid() && BINARY32.Valid() && BINARY16.Valid()
  {
    assert P2(5) == 32;
    assert P2(8) == 256;
    assert P2(11) == 2048 by {
      P2Add(8, 3);
      assert P2(3) == 8;
    }
  }

  /** Table 3.5: the precisions and widths, and an exponent bias of half the exponent field's range less one. */
  lemma StandardFormats()
    ensures BINARY64.prec == 53 && BINARY64.width == 64 && BINARY32.prec == 24 && BINARY32.width == 32
    ensures BINARY16.prec == 11 && BINARY16.width == 16
    ensures BINARY64.emin == 3 - P2(BINARY64.width - BINARY64.prec - 1) - BINARY64.prec
    ensures BINARY32.emin == 3 - P2(BINARY32.width - BINARY32.prec - 1) - BINARY32.prec
    ensures BINARY16.emin == 3 - P2(BINARY16.width - BINARY16.prec - 1) - BINARY16.prec
  {
    P2Small();
    assert P2(8) == 2 * P2(7);
    assert P2(4) == 16;
  }

  datatype Flags = Flags(ioc: bool, ofc: bool, ufc: bool, ixc: bool) {
    function Or(o: Flags): Flags {
      Flags(ioc || o.ioc, ofc || o.ofc, ufc || o.ufc, ixc || o.ixc)
    }
  }

  const NO_FLAGS := Flags(false, false, false, false)
  const INVALID := Flags(true, false, false, false)
  const OVERFLOW := Flags(false, true, false, true)
  const UNDERFLOW := Flags(false, false, true, true)

  // ---- encodings ----

  predicate Encoding(f: Format, b: nat) {
    b < P2(f.width)
  }

  function Magnitude(f: Format, b: nat): nat
    requires f.Valid()
  {
    b % P2(f.width - 1)
  }

  predicate Negative(f: Format, b: nat)
    requires f.Valid()
  {
    b / P2(f.width - 1) != 0
  }

  function ExpField(f: Format, b: nat): nat
    requires f.Valid()
  {
    Magnitude(f, b) / P2(f.prec - 1)
  }

  function Fraction(f: Format, b: nat): nat
    requires f.Valid()
  {
    Magnitude(f, b) % P2(f.prec - 1)
  }

  predicate IsFinite(f: Format, b: nat)
    requires f.Valid()
  {
    ExpField(f, b) < f.MaxField()
  }

  predicate IsInf(f: Format, b: nat)
    requires f.Valid()
  {
    ExpField(f, b) == f.MaxField() && Fraction(f, b) == 0
  }

  predicate IsNaN(f: Format, b: nat)
    requires f.Valid()
  {
    ExpField(f, b) == f.MaxField() && Fraction(f, b) != 0
  }

  predicate IsSignaling(f: Format, b: nat)
    requires f.Valid()
  {
    IsNaN(f, b) && Fraction(f, b) < P2(f.prec - 2)
  }

  predicate IsZero(f: Format, b: nat)
    requires f.Valid()
  {
    Magnitude(f, b) == 0
  }

  function SignBit(f: Format, neg: bool): nat
    requires f.Valid()
  {
    if neg then P2(f.width - 1) else 0
  }

  function Infinity(f: Format, neg: bool): nat
    requires f.Valid()
  {
    SignBit(f, neg) + f.MaxField() * P2(f.prec - 1)
  }

  function DefaultNaN(f: Format): nat
    requires f.Valid()
  {
    f.MaxField() * P2(f.prec - 1) + P2(f.prec - 2)
  }

  /** Integer significand and the exponent of its lsb. */
  function Significand(f: Format, b: nat): nat
    requires f.Valid()
  {
    if ExpField(f, b) == 0 then Fraction(f, b) else Fraction(f, b) + P2(f.prec - 1)
  }

  function Exponent(f: Format, b: nat): (e: int)
    requires f.Valid()
    ensures e >= f.emin
  {
    (if ExpField(f, b) == 0 then 1 else ExpField(f, b)) - f.eoff
  }

  /** Magnitude of a finite encoding as a count of 2^u. */
  function Units(f: Format, b: nat, u: int): nat
    requires f.Valid() && u <= f.emin
  {
    Significand(f, b) * P2(Exponent(f, b) - u)
  }

  function SignedUnits(f: Format, b: nat, u: int): int
    requires f.Valid() && u <= f.emin
  {
    var x: int := Units(f, b, u);
    if Negative(f, b) then -x else x
  }

  // ---- rounding ----

  /** a / 2^q to the nearest integer, ties to even (section 4.3.1). */
  function NearestEven(a: nat, q: nat): nat {
    var n, r := a / P2(q), a % P2(q);
    if 2 * r > P2(q) || (2 * r == P2(q) && n % 2 == 1) then n + 1 else n
  }

  /**
   Spacing, as a power of two in units of 2^u, of the format's values around
   a * 2^u when the exponent has no upper bound.
   */
  function Quantum(f: Format, a: nat, u: int): (q: nat)
    requires f.Valid() && u <= f.emin && a > 0
    ensures q == Msb(a) - (f.prec - 1) || q == f.emin - u
    ensures q >= f.emin - u && q >= Msb(a) - (f.prec - 1)
  {
    var q := Msb(a) - (f.prec - 1);
    if q < f.emin - u then f.emin - u else q
  }

  /** a * 2^u rounded with no upper bound on the exponent, in units of 2^u. */
  function Rounded(f: Format, a: nat, u: int): nat
    requires f.Valid() && u <= f.emin && a > 0
  {
    NearestEven(a, Quantum(f, a, u)) * P2(Quantum(f, a, u))
  }

  /** First magnitude past every finite value, in units of 2^u. */
  function Limit(f: Format, u: int): nat
    requires f.Valid() && u <= f.emin
  {
    LimitExponent(f);
    P2(f.wmax + 1 - u)
  }

  lemma LimitExponent(f: Format)
    requires f.Valid()
    ensures f.wmax - f.prec >= f.emin && f.wmax + 1 >= f.emin
    ensures f.wtiny + 1 >= f.emin
  {
    P2Mono(2, f.width - f.prec);
  }

  /**
   `b` and `fl` are what roundTiesToEven delivers for the exact nonzero value
   (-1)^neg * a * 2^u: overflow goes to infinity (section 7.4), underflow is
   signalled for an inexact result that was tiny before rounding (section 7.5,
   the choice ARM makes), inexact when the delivered value differs (section 7.6).
   */
  predicate Rounds(f: Format, neg: bool, a: nat, u: int, b: nat, fl: Flags)
    requires f.Valid() && u <= f.emin && a > 0
  {
    var r := Rounded(f, a, u);
    LimitExponent(f);
    && Encoding(f, b)
    && Negative(f, b) == neg
    && if r >= Limit(f, u) then IsInf(f, b) && fl == OVERFLOW
       else
         && IsFinite(f, b)
         && Units(f, b, u) == r
         && fl == Flags(false, false, r != a && a < P2(f.wtiny + 1 - u), r != a)
  }

  // ---- what the rounding means ----

  lemma {:induction false} NearestEvenBounds(a: nat, q: nat)
    ensures
      var n, p, k := a / P2(q), P2(q), NearestEven(a, q);
      && n * p <= a < n * p + p
      && n <= k <= n + 1
      && (k == n ==> 2 * (a - n * p) <= p)
      && (k == n + 1 ==> 2 * (a - n * p) >= p)
      && (2 * (a - n * p) == p ==> k % 2 == 0)
  {
    DivMod(a, P2(q));
  }

  function Distance(x: int, y: int): nat {
    if x < y then y - x else x - y
  }

  /** No multiple of the quantum is closer, and a tie has gone to the even one. */
  lemma {:induction false} NearestMultiple(a: nat, q: nat, m: nat)
    ensures Distance(a, NearestEven(a, q) * P2(q)) <= Distance(a, m * P2(q))
    ensures m != NearestEven(a, q) && Distance(a, NearestEven(a, q) * P2(q)) == Distance(a, m * P2(q)) ==>
              NearestEven(a, q) % 2 == 0
  {
    var n, p, k := a / P2(q), P2(q), NearestEven(a, q);
    NearestEvenBounds(a, q);
    Distrib(n, 1, p);
    if m < n {
      MulMono(m + 1, n, p);
      Distrib(m, 1, p);
    } else if m > n + 1 {
      MulMono(n + 2, m, p);
      Distrib(n, 2, p);
    }
  }

  /** The rounded quotient keeps the full precision or sits on the subnormal quantum. */
  lemma {:induction false} QuotientRange(f: Format, a: nat, u: int)
    requires f.Valid() && u <= f.emin && a > 0
    ensures
      var q := Quantum(f, a, u);
      && a / P2(q) < P2(f.prec)
      && NearestEven(a, q) <= P2(f.prec)
      && (q > f.emin - u ==> a / P2(q) >= P2(f.prec - 1) && q == Msb(a) - (f.prec - 1))
  {
    var q, k := Quantum(f, a, u), Msb(a);
    DivMod(a, P2(q));
    P2Add(f.prec, q);
    P2Mono(k + 1, f.prec + q);
    if a / P2(q) >= P2(f.prec) {
      MulMono(P2(f.prec), a / P2(q), P2(q));
      assert false;
    }
    if q > f.emin - u {
      P2Add(f.prec - 1, q);
      if a / P2(q) < P2(f.prec - 1) {
        MulMono(a / P2(q) + 1, P2(f.prec - 1), P2(q));
        Distrib(a / P2(q), 1, P2(q));
        assert false;
      }
    }
  }

  lemma {:induction false} SignificandBound(f: Format, y: nat)
    requires f.Valid()
    ensures Significand(f, y) < P2(f.prec)
    ensures ExpField(f, y) != 0 ==> Significand(f, y) >= P2(f.prec - 1)
    ensures ExpField(f, y) == 0 ==> Exponent(f, y) == f.emin
  {
    DivMod(Magnitude(f, y), P2(f.prec - 1));
    assert P2(f.prec) == 2 * P2(f.prec - 1);
  }

  /** A value finer than the quantum lies in a lower binade than a. */
  lemma {:induction false} FinerIsLower(f: Format, a: nat, u: int, y: nat)
    requires f.Valid() && u <= f.emin && a > 0
    requires Exponent(f, y) - u < Quantum(f, a, u)
    ensures Units(f, y, u) < (a / P2(Quantum(f, a, u))) * P2(Quantum(f, a, u))
  {
    var q, e := Quantum(f, a, u), Exponent(f, y) - u;
    QuotientRange(f, a, u);
    SignificandBound(f, y);
    MulBounds(0, Significand(f, y), P2(f.prec), P2(e));
    P2Add(f.prec, e);
    P2Add(f.prec - 1, q);
    P2Mono(f.prec + e, f.prec - 1 + q);
    MulMono(P2(f.prec - 1), a / P2(q), P2(q));
  }

  lemma {:induction false} CoarserIsMultiple(f: Format, y: nat, u: int, q: nat)
    requires f.Valid() && u <= f.emin
    requires Exponent(f, y) - u >= q
    ensures Units(f, y, u) == (Significand(f, y) * P2(Exponent(f, y) - u - q)) * P2(q)
  {
    P2Add(Exponent(f, y) - u - q, q);
    Assoc(Significand(f, y), P2(Exponent(f, y) - u - q), P2(q));
  }

  /** No finite value of the format is closer to a * 2^u than the rounded one. */
  lemma {:induction false} RoundedIsNearest(f: Format, a: nat, u: int, y: nat)
    requires f.Valid() && u <= f.emin && a > 0
    ensures Distance(a, Rounded(f, a, u)) <= Distance(a, Units(f, y, u))
    ensures Units(f, y, u) != Rounded(f, a, u) && Distance(a, Rounded(f, a, u)) == Distance(a, Units(f, y, u)) ==>
              NearestEven(a, Quantum(f, a, u)) % 2 == 0
  {
    var q := Quantum(f, a, u);
    if Exponent(f, y) - u >= q {
      CoarserIsMultiple(f, y, u, q);
      NearestMultiple(a, q, Significand(f, y) * P2(Exponent(f, y) - u - q));
    } else {
      FinerIsLower(f, a, u, y);
      NearestMultiple(a, q, a / P2(q));
      NearestEvenBounds(a, q);
    }
  }

  /** A value the format holds rounds to itself. */
  lemma {:induction false} RepresentableIsExact(f: Format, y: nat, u: int)
    requires f.Valid() && u <= f.emin && Units(f, y, u) > 0
    ensures Rounded(f, Units(f, y, u), u) == Units(f, y, u)
  {
    RoundedIsNearest(f, Units(f, y, u), u, y);
  }

  /** Finite encodings stay below the limit. */
  lemma {:induction false} FiniteBelowLimit(f: Format, y: nat, u: int)
    requires f.Valid() && u <= f.emin && IsFinite(f, y)
    ensures Units(f, y, u) < Limit(f, u)
  {
    LimitExponent(f);
    SignificandBound(f, y);
    var e := Exponent(f, y) - u;
    MulBounds(0, Significand(f, y), P2(f.prec), P2(e));
    P2Add(f.prec, e);
    P2Mono(f.prec + e, f.wmax + 1 - u);
  }

  /**
   The overflow threshold of section 4.3.1: exactly the magnitudes from
   2^wmax * (2 - 2^-prec) up round to infinity.
   */
  lemma {:induction false} OverflowThreshold(f: Format, a: nat, u: int)
    requires f.Valid() && u <= f.emin && a > 0
    ensures f.wmax - f.prec - u >= 0
    ensures Rounded(f, a, u) >= Limit(f, u) <==> a >= Limit(f, u) - P2(f.wmax - f.prec - u)
  {
    LimitExponent(f);
    var q, t := Quantum(f, a, u), f.wmax + 1 - f.prec - u;
    QuotientRange(f, a, u);
    assert f.prec + t == f.wmax + 1 - u;
    if q > t {
      OverflowHigher(f, a, q, t);
    } else if q < t {
      OverflowLower(f, a, q, t);
    } else {
      OverflowSame(f, a, t);
    }
  }

  lemma {:induction false} OverflowSame(f: Format, a: nat, t: nat)
    requires f.prec >= 2 && t > 0 && a / P2(t) < P2(f.prec)
    ensures NearestEven(a, t) * P2(t) >= P2(f.prec + t) <==> a >= P2(f.prec + t) - P2(t - 1)
  {
    var m := P2(f.prec);
    P2Add(f.prec, t);
    assert P2(t) == 2 * P2(t - 1);
    assert m == 2 * P2(f.prec - 1);
    OverflowLastBinade(a, t, m);
  }

  lemma {:induction false} OverflowHigher(f: Format, a: nat, q: nat, t: nat)
    requires f.prec >= 2 && q > t && a / P2(q) >= P2(f.prec - 1)
    ensures NearestEven(a, q) * P2(q) >= P2(f.prec + t) && a >= P2(f.prec + t)
  {
    var n, k := a / P2(q), NearestEven(a, q);
    NearestEvenBounds(a, q);
    P2Add(f.prec - 1, q);
    P2Mono(f.prec + t, f.prec - 1 + q);
    MulMono(P2(f.prec - 1), n, P2(q));
    MulMono(n, k, P2(q));
  }

  lemma {:induction false} OverflowLower(f: Format, a: nat, q: nat, t: nat)
    requires f.prec >= 2 && q < t && a / P2(q) < P2(f.prec)
    ensures NearestEven(a, q) * P2(q) < P2(f.prec + t)
    ensures a < P2(f.prec + t) - P2(t - 1)
  {
    hide NearestEven;
    var n, k := a / P2(q), NearestEven(a, q);
    NearestEvenBounds(a, q);
    P2Add(f.prec, q);
    P2Mono(f.prec + q, f.prec + t - 1);
    MulMono(k, P2(f.prec), P2(q));
    MulBounds(0, n, P2(f.prec), P2(q));
    P2Mono(t - 1, f.prec + t - 1);
  }

  /** In the topmost binade only the last half quantum rounds up to m quanta. */
  lemma {:induction false} OverflowLastBinade(a: nat, q: nat, m: nat)
    requires a / P2(q) < m && m % 2 == 0
    ensures NearestEven(a, q) * P2(q) >= m * P2(q) <==> 2 * a >= 2 * (m * P2(q)) - P2(q)
  {
    var n, k, p := a / P2(q), NearestEven(a, q), P2(q);
    NearestEvenBounds(a, q);
    if n == m - 1 {
      Distrib(m, 1, p);
      if k == n {
        MulMono(1, 1, p);
      }
    } else {
      MulMono(n + 2, m, p);
      Distrib(n, 2, p);
      MulMono(k + 1, m, p);
      Distrib(k, 1, p);
    }
  }

  // ---- encoding a rounded value ----

  /** Laying out a canonical significand and exponent gives an encoding of them. */
  lemma {:induction false} EncodeCanonical(f: Format, neg: bool, m: nat, e: int)
    requires f.Valid()
    requires m < P2(f.prec) && e >= f.emin
    requires m >= P2(f.prec - 1) || e == f.emin
    requires e + f.prec - 1 <= f.wmax
    ensures
      var b := SignBit(f, neg) + (e - f.emin) * P2(f.prec - 1) + m;
      && Encoding(f, b) && Negative(f, b) == neg && IsFinite(f, b)
      && Significand(f, b) == m
      && (m > 0 ==> Exponent(f, b) == e)
  {
    var p, field := P2(f.prec - 1), e - f.emin;
    var g := field * p + m;
    assert P2(f.prec) == 2 * p;
    var (x, r) := if m >= p then (field + 1, m - p) else (0, m);
    assert g == x * p + r by {
      Distrib(field, 1, p);
    }
    SplitEncoding(f, neg, x, r);
  }

  /** The fields of a word assembled from a sign, an exponent field and a fraction. */
  lemma {:induction false} SplitEncoding(f: Format, neg: bool, x: nat, r: nat)
    requires f.Valid() && x <= f.MaxField() && r < P2(f.prec - 1)
    ensures
      var b := SignBit(f, neg) + x * P2(f.prec - 1) + r;
      && Encoding(f, b) && Negative(f, b) == neg
      && ExpField(f, b) == x && Fraction(f, b) == r
  {
    var p := P2(f.prec - 1);
    var g := x * p + r;
    P2Add(f.width - f.prec, f.prec - 1);
    MulMono(x + 1, P2(f.width - f.prec), p);
    Distrib(x, 1, p);
    var s := P2(f.width - 1);
    assert P2(f.width) == 2 * s;
    DivUnique(SignBit(f, neg) + g, s, if neg then 1 else 0, g);
    DivUnique(g, p, x, r);
  }

  /** A sign and a magnitude name one encoding. */
  lemma {:induction false} DecodeInjective(f: Format, b: nat, c: nat, u: int)
    requires f.Valid() && u <= f.emin
    requires Encoding(f, b) && Encoding(f, c) && IsFinite(f, b) && IsFinite(f, c)
    requires Negative(f, b) == Negative(f, c) && Units(f, b, u) == Units(f, c, u)
    ensures b == c
  {
    ExponentsAgree(f, b, c, u);
    ExponentsAgree(f, c, b, u);
    MulCancel(Significand(f, b), Significand(f, c), P2(Exponent(f, b) - u));
    RebuildFromFields(f, b);
    RebuildFromFields(f, c);
    SignificandBound(f, b);
    SignificandBound(f, c);
  }

  lemma MulCancel(a: nat, b: nat, c: nat)
    requires c > 0 && a * c == b * c
    ensures a == b
  {
    if a < b {
      MulMono(a + 1, b, c);
    } else if b < a {
      MulMono(b + 1, a, c);
    }
  }

  lemma {:induction false} RebuildFromFields(f: Format, b: nat)
    requires f.Valid() && Encoding(f, b)
    ensures b == SignBit(f, Negative(f, b)) + ExpField(f, b) * P2(f.prec - 1) + Fraction(f, b)
  {
    var s := P2(f.width - 1);
    assert P2(f.width) == 2 * s;
    DivMod(Magnitude(f, b), P2(f.prec - 1));
    if b < s {
      DivUnique(b, s, 0, b);
    } else {
      DivUnique(b, s, 1, b - s);
    }
  }

  lemma {:induction false} ExponentsAgree(f: Format, b: nat, c: nat, u: int)
    requires f.Valid() && u <= f.emin && Units(f, b, u) == Units(f, c, u)
    ensures Exponent(f, b) <= Exponent(f, c)
  {
    SignificandBound(f, b);
    SignificandBound(f, c);
    var eb, ec := Exponent(f, b) - u, Exponent(f, c) - u;
    if eb > ec {
      P2Add(f.prec - 1, eb);
      P2Add(f.prec, ec);
      P2Mono(f.prec + ec, f.prec - 1 + eb);
      MulMono(P2(f.prec - 1), Significand(f, b), P2(eb));
      MulBounds(0, Significand(f, c), P2(f.prec), P2(ec));
      assert false;
    }
  }

  /** The exact value and the format leave one rounded encoding and one set of flags. */
  lemma {:induction false} RoundsUnique(f: Format, neg: bool, a: nat, u: int, b: nat, fl: Flags, c: nat, gl: Flags)
    requires f.Valid() && u <= f.emin && a > 0
    requires Rounds(f, neg, a, u, b, fl) && Rounds(f, neg, a, u, c, gl)
    ensures b == c && fl == gl
  {
    if Rounded(f, a, u) >= Limit(f, u) {
      RebuildFromFields(f, b);
      RebuildFromFields(f, c);
    } else {
      DecodeInjective(f, b, c, u);
    }
  }
}
