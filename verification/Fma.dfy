/**
 a64_fma and a64_fmaf: screening of the special operands around the integer
 evaluator, against fusedMultiplyAdd of section 5.4.1 of IEEE 754-2019.
 */
module Fma {
  import opened Words
  import opened Pow2
  import opened Wide
  import opened Ieee
  import FusedEval

  // ---- specification ----

  predicate InfTimesZero(f: Format, n: nat, m: nat)
    requires f.Valid()
  {
    (IsInf(f, n) && IsZero(f, m)) || (IsZero(f, n) && IsInf(f, m))
  }

  /** The exact n*m + a of finite operands, in units of 2^(2*emin). */
  function ExactMulAdd(f: Format, n: nat, m: nat, a: nat): int
    requires f.Valid() && f.emin <= 0
  {
    SignedUnits(f, n, f.emin) * SignedUnits(f, m, f.emin) + SignedUnits(f, a, 2 * f.emin)
  }

  /**
   fusedMultiplyAdd(n, m, a) delivers `b` and signals `fl`. A NaN operand gives
   the default NaN: the callers choose the payload afterwards.
   */
  predicate MulAdd(f: Format, n: nat, m: nat, a: nat, b: nat, fl: Flags)
    requires f.Valid() && f.emin <= 0
  {
    var psign := Negative(f, n) != Negative(f, m);
    if IsNaN(f, n) || IsNaN(f, m) || IsNaN(f, a) then
      && b == DefaultNaN(f)
      && fl == (if IsSignaling(f, n) || IsSignaling(f, m) || IsSignaling(f, a) || InfTimesZero(f, n, m)
                then INVALID else NO_FLAGS)
    else if InfTimesZero(f, n, m) then
      b == DefaultNaN(f) && fl == INVALID
    else if IsInf(f, n) || IsInf(f, m) then
      if IsInf(f, a) && Negative(f, a) != psign then b == DefaultNaN(f) && fl == INVALID
      else b == Infinity(f, psign) && fl == NO_FLAGS
    else if IsInf(f, a) then
      b == a && fl == NO_FLAGS
    else
      var x := ExactMulAdd(f, n, m, a);
      // the sign of an exact zero sum: section 6.3
      if x == 0 then b == SignBit(f, psign && Negative(f, a)) && fl == NO_FLAGS
      else Rounds(f, x < 0, FusedEval.Abs(x), 2 * f.emin, b, fl)
  }

  /** Any two correct fused multiply-adds agree, bits and flags. */
  lemma {:induction false} MulAddUnique(f: Format, n: nat, m: nat, a: nat, b: nat, fl: Flags, c: nat, gl: Flags)
    requires f.Valid() && f.emin <= 0
    requires MulAdd(f, n, m, a, b, fl) && MulAdd(f, n, m, a, c, gl)
    ensures b == c && fl == gl
  {
    hide Rounds;
    var x := ExactMulAdd(f, n, m, a);
    if x != 0 && Rounds(f, x < 0, FusedEval.Abs(x), 2 * f.emin, b, fl)
         && Rounds(f, x < 0, FusedEval.Abs(x), 2 * f.emin, c, gl) {
      RoundsUnique(f, x < 0, FusedEval.Abs(x), 2 * f.emin, b, fl, c, gl);
    }
  }

  // ---- unpacking ----

  /** Sign, significand and lsb exponent, with the hidden bit restored. */
  function Unpack(f: Format, b: U64): (r: (bool, U64, int))
    requires f.Valid() && f.width <= 64 && Encoding(f, b)
    ensures r.0 == Negative(f, b)
    ensures r.1 == Significand(f, b) && r.2 == Exponent(f, b)
    ensures r.1 < P2(f.prec) <= P2(53)
  {
    FieldsOf(f, b);
    SignificandBound(f, b);
    SignificandWord(f);
    var be := (b / P2(f.prec - 1)) % P2(f.width - f.prec);
    (b / P2(f.width - 1) != 0,
     b % P2(f.prec - 1) + (if be != 0 then P2(f.prec - 1) else 0),
     (if be != 0 then be else 1) - f.eoff)
  }

  lemma {:induction false} SignificandWord(f: Format)
    requires f.Valid()
    ensures P2(f.prec) <= P2(53) && P2(53) < W
  {
    P2Mono(f.prec, 53);
    P2Lt(53, 64);
    P2Word();
  }

  /** Masking the whole word reads the same fields as masking off the sign first. */
  lemma {:induction false} FieldsOf(f: Format, b: nat)
    requires f.Valid()
    ensures ExpField(f, b) == (b / P2(f.prec - 1)) % P2(f.width - f.prec)
    ensures Fraction(f, b) == b % P2(f.prec - 1)
  {
    var l, h := f.prec - 1, f.width - f.prec;
    DivP2P2(b, l, h);
    DivMod(b, P2(l));
    DivUnique(Magnitude(f, b), P2(l), (b / P2(l)) % P2(h), b % P2(l));
  }

  lemma {:induction false} Classes(f: Format, b: nat)
    requires f.Valid()
    ensures IsFinite(f, b) || IsInf(f, b) || IsNaN(f, b)
  {
    FieldsOf(f, b);
  }

  // ---- the special operands ----

  lemma {:induction false} FiniteZero(f: Format, b: nat, u: int)
    requires f.Valid() && u <= f.emin
    ensures IsZero(f, b) <==> Significand(f, b) == 0
    ensures IsZero(f, b) ==> Units(f, b, u) == 0 && SignedUnits(f, b, u) == 0
    ensures !IsZero(f, b) ==> Units(f, b, u) > 0
  {
    SignificandBound(f, b);
    var p := P2(f.prec - 1);
    DivMod(Magnitude(f, b), p);
    if ExpField(f, b) == 0 {
      assert 0 * p == 0;
    } else {
      MulMono(1, ExpField(f, b), p);
    }
    if Significand(f, b) > 0 {
      MulMono(1, Significand(f, b), P2(Exponent(f, b) - u));
    }
  }

  /** A finite nonzero addend is its own rounding. */
  lemma {:induction false} AddendIsExact(f: Format, a: nat, u: int)
    requires f.Valid() && u <= f.emin && Encoding(f, a) && IsFinite(f, a) && !IsZero(f, a)
    ensures Units(f, a, u) > 0
    ensures Rounds(f, Negative(f, a), Units(f, a, u), u, a, NO_FLAGS)
  {
    hide P2, Rounded;
    FiniteZero(f, a, u);
    RepresentableIsExact(f, a, u);
    FiniteBelowLimit(f, a, u);
  }

  /** The product of two finite values is the product of significands at the summed exponent. */
  lemma {:induction false} ExactProduct(f: Format, n: nat, m: nat)
    requires f.Valid() && f.emin <= 0
    ensures Units(f, n, f.emin) * Units(f, m, f.emin)
         == (Significand(f, n) * Significand(f, m)) * P2(Exponent(f, n) + Exponent(f, m) - 2 * f.emin)
  {
    var x, y, i, j := Significand(f, n), Significand(f, m), Exponent(f, n) - f.emin, Exponent(f, m) - f.emin;
    P2Add(i, j);
    Interchange(x, P2(i), y, P2(j));
  }

  lemma Interchange(x: int, p: int, y: int, q: int)
    ensures (x * p) * (y * q) == (x * y) * (p * q)
  {
    Assoc(x, p, y * q);
    Assoc(x, y, p * q);
    Assoc(p, y, q);
    Assoc(y, p, q);
  }

  lemma SignedProduct(x: int, y: int, z: int, ns: bool, ms: bool, asign: bool)
    ensures (if ns then -x else x) * (if ms then -y else y) + (if asign then -z else z)
         == (if ns != ms then -1 else 1) * (x * y) + (if asign then -1 else 1) * z
  {
    if ns != ms {
      assert (-x) * y == -(x * y) && x * (-y) == -(x * y);
    } else {
      assert (-x) * (-y) == x * y;
    }
  }

  /** What the evaluator is asked for is the specification's exact sum. */
  lemma {:induction false} ExactAgrees(f: Format, n: nat, m: nat, a: nat)
    requires f.Valid() && f.emin <= 0 && !IsZero(f, n) && !IsZero(f, m)
    ensures
      var p, pe := Significand(f, n) * Significand(f, m), Exponent(f, n) + Exponent(f, m);
      var psign := Negative(f, n) != Negative(f, m);
      FusedEval.Exact(p, pe, psign, Significand(f, a), Exponent(f, a), Negative(f, a), 2 * f.emin)
        == ExactMulAdd(f, n, m, a)
  {
    ExactProduct(f, n, m);
    SignedProduct(Units(f, n, f.emin), Units(f, m, f.emin), Units(f, a, 2 * f.emin),
                  Negative(f, n), Negative(f, m), Negative(f, a));
  }

  /** An addend of value zero leaves the product alone, whatever exponent it is given. */
  lemma ExactNoAddend(p: nat, pe: int, psign: bool, ae: int, asign: bool, u: int)
    requires u <= pe
    ensures FusedEval.Exact(p, pe, psign, 0, ae, asign, u) == FusedEval.Exact(p, pe, psign, 0, 0, false, u)
  {
  }

  // ---- the product ----

  /** Two limbs of the significand product. */
  function Product(f: Format, mn: U64, mm: U64): (p: Fx128)
    requires f.Valid() && mn < P2(f.prec) && mm < P2(f.prec)
    requires f.prec > 32 || f.prec <= 24
    ensures Val(p) == mn * mm && Val(p) < P2(2 * f.prec)
  {
    ProductFits(f, mn, mm);
    if f.prec <= 24 then Fx128(0, Mul(mn, mm))                // 24 x 24: one limb is enough
    else Fx128(Umulh64(mn, mm), Mul(mn, mm))
  }

  lemma {:induction false} ProductFits(f: Format, mn: U64, mm: U64)
    requires f.Valid() && mn < P2(f.prec) && mm < P2(f.prec)
    ensures 0 <= mn * mm < P2(2 * f.prec)
    ensures f.prec <= 24 ==> mn * mm < W
    ensures mn * mm == ((mn * mm) / W) * W + Mul(mn, mm)
  {
    P2Add(f.prec, f.prec);
    MulMono(0, mn, mm);
    MulMono(mn, P2(f.prec), mm);
    MulBounds(0, mm, P2(f.prec), P2(f.prec));
    if f.prec <= 24 {
      P2Lt(2 * f.prec, 64);
      P2Word();
    }
  }

  // ---- the operation ----

  predicate Supported(f: Format) {
    f == BINARY64 || f == BINARY32
  }

  /** Finite operands with a nonzero product. */
  method MulAddFinite(f: Format, n: U64, m: U64, a: U64) returns (r: nat, fl: Flags)
    requires f.Valid() && Supported(f) && Encoding(f, n) && Encoding(f, m) && Encoding(f, a)
    requires !IsZero(f, n) && !IsZero(f, m)
    ensures
      var x := ExactMulAdd(f, n, m, a);
      if x == 0 then r == 0 && fl == NO_FLAGS
      else Rounds(f, x < 0, FusedEval.Abs(x), 2 * f.emin, r, fl)
  {
    hide P2, Rounds, ExactMulAdd, FusedEval.Exact, Significand, Exponent, Unpack, Product, Encoding;
    var (sn, mn, en) := Unpack(f, n);
    var (sm, mm, em) := Unpack(f, m);
    FiniteZero(f, n, f.emin);
    FiniteZero(f, m, f.emin);
    var p := Product(f, mn, mm);
    MulMono(1, mn, mm);
    ExactAgrees(f, n, m, a);
    FiniteZero(f, a, 2 * f.emin);
    if IsZero(f, a) {
      ExactNoAddend(mn * mm, en + em, sn != sm, Exponent(f, a), Negative(f, a), 2 * f.emin);
      fl, r := FusedEval.Eval(f, p, en + em, sn != sm, 0, 0, false, 2 * f.emin);
    } else {
      var (sa, ma, ea) := Unpack(f, a);
      fl, r := FusedEval.Eval(f, p, en + em, sn != sm, ma, ea, sa, 2 * f.emin);
    }
  }

  method FusedMultiplyAdd(f: Format, n: U64, m: U64, a: U64) returns (r: nat, fl: Flags)
    requires f.Valid() && Supported(f) && Encoding(f, n) && Encoding(f, m) && Encoding(f, a)
    ensures MulAdd(f, n, m, a, r, fl)
  {
    hide P2, Rounds, ExactMulAdd, Significand, Exponent, Units, Encoding;
    if IsNaN(f, n) || IsNaN(f, m) || IsNaN(f, a) {
      fl := if IsSignaling(f, n) || IsSignaling(f, m) || IsSignaling(f, a) || InfTimesZero(f, n, m)
            then INVALID else NO_FLAGS;
      return DefaultNaN(f), fl;
    }
    if (IsInf(f, n) && IsZero(f, m)) || (IsZero(f, n) && IsInf(f, m)) {
      return DefaultNaN(f), INVALID;
    }
    var sp := Negative(f, n) != Negative(f, m);
    if IsInf(f, n) || IsInf(f, m) {
      if IsInf(f, a) && Negative(f, a) != sp {
        return DefaultNaN(f), INVALID;
      }
      return Infinity(f, sp), NO_FLAGS;
    }
    if IsInf(f, a) {
      return a, NO_FLAGS;
    }
    FiniteZero(f, n, f.emin);
    FiniteZero(f, m, f.emin);
    FiniteZero(f, a, 2 * f.emin);
    if IsZero(f, n) || IsZero(f, m) {
      ZeroProduct(f, n, m, a);
      if IsZero(f, a) {
        return SignBit(f, sp && Negative(f, a)), NO_FLAGS;
      }
      Classes(f, a);
      AddendIsExact(f, a, 2 * f.emin);
      return a, NO_FLAGS;
    }
    r, fl := MulAddFinite(f, n, m, a);
    if ExactMulAdd(f, n, m, a) == 0 {
      CancelledSigns(f, n, m, a);
    }
  }

  lemma ZeroProduct(f: Format, n: nat, m: nat, a: nat)
    requires f.Valid() && f.emin <= 0 && (IsZero(f, n) || IsZero(f, m))
    ensures ExactMulAdd(f, n, m, a) == SignedUnits(f, a, 2 * f.emin)
  {
    FiniteZero(f, n, f.emin);
    FiniteZero(f, m, f.emin);
  }

  /** A nonzero product is only cancelled by an addend of the other sign. */
  lemma {:induction false} CancelledSigns(f: Format, n: nat, m: nat, a: nat)
    requires f.Valid() && f.emin <= 0 && !IsZero(f, n) && !IsZero(f, m)
    requires ExactMulAdd(f, n, m, a) == 0
    ensures !((Negative(f, n) != Negative(f, m)) && Negative(f, a))
  {
    FiniteZero(f, n, f.emin);
    FiniteZero(f, m, f.emin);
    SignedProduct(Units(f, n, f.emin), Units(f, m, f.emin), Units(f, a, 2 * f.emin),
                  Negative(f, n), Negative(f, m), Negative(f, a));
    MulMono(1, Units(f, n, f.emin), Units(f, m, f.emin));
  }

  /** The cumulative exception flags that every operation ORs into. */
  class FpUnit {
    var fpexc: Flags

    constructor ()
      ensures fpexc == NO_FLAGS
    {
      fpexc := NO_FLAGS;
    }

    method A64Fma(n: U64, m: U64, a: U64) returns (r: nat, ghost fl: Flags)
      modifies this
      ensures BINARY64.Valid() && MulAdd(BINARY64, n, m, a, r, fl)
      ensures fpexc == old(fpexc).Or(fl)
    {
      FormatsValid();
      P2Word();
      var flags;
      r, flags := FusedMultiplyAdd(BINARY64, n, m, a);
      fpexc := fpexc.Or(flags);
      fl := flags;
    }

    method A64Fmaf(n: U64, m: U64, a: U64) returns (r: nat, ghost fl: Flags)
      requires n < HALF && m < HALF && a < HALF
      modifies this
      ensures BINARY32.Valid() && MulAdd(BINARY32, n, m, a, r, fl)
      ensures fpexc == old(fpexc).Or(fl)
    {
      FormatsValid();
      P2Word();
      var flags;
      r, flags := FusedMultiplyAdd(BINARY32, n, m, a);
      fpexc := fpexc.Or(flags);
      fl := flags;
    }
  }
}
