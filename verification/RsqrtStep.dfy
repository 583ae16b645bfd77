/**
 FRSQRTS: (3 - n*m)/2 with a single rounding, computed by one of three fused
 multiply-adds chosen so that the halving never loses a bit.
 */
module RsqrtStep {
  import opened Words
  import opened Pow2
  import opened Wide
  import opened Ieee
  import FusedEval
  import Fma
  import Narrow

  // ---- specification ----

  /** 3 - n*m exactly, in units of 2^(2*emin); halving only lowers the unit. */
  function ThreeMinus(f: Format, n: nat, m: nat): int
    requires f.Valid() && f.emin <= 0
  {
    3 * P2(-2 * f.emin) - SignedUnits(f, n, f.emin) * SignedUnits(f, m, f.emin)
  }

  /** One rounding of (3 - n*m)/2; 0 * inf counts as zero and an infinite product dominates. */
  predicate Step(f: Format, n: nat, m: nat, b: nat, fl: Flags)
    requires f.Valid() && f.emin <= 0
  {
    if Fma.InfTimesZero(f, n, m) then b == OnePointFive(f) && fl == NO_FLAGS
    else if IsInf(f, n) || IsInf(f, m) then b == Infinity(f, Negative(f, n) == Negative(f, m)) && fl == NO_FLAGS
    else
      var x := ThreeMinus(f, n, m);
      if x == 0 then b == 0 && fl == NO_FLAGS
      else Rounds(f, x < 0, FusedEval.Abs(x), 2 * f.emin - 1, b, fl)
  }

  // ---- constants and exact host operations ----

  function OnePointFive(f: Format): (r: nat)
    requires f.Valid() && f.emin <= 0
  {
    Literal(f, -1)
  }

  function Three(f: Format): nat
    requires f.Valid() && f.emin <= 0
  {
    Literal(f, 0)
  }

  /** The encoding of 3 * 2^k. */
  function Literal(f: Format, k: int): nat
    requires f.Valid()
  {
    var e := k - (f.prec - 2) - f.emin;
    if e < 0 then 0 else e * P2(f.prec - 1) + 3 * P2(f.prec - 2)
  }

  lemma {:induction false} LiteralMeaning(f: Format, k: int, u: int)
    requires f.Valid() && u <= f.emin && k - (f.prec - 2) >= f.emin && k + 1 <= f.wmax
    ensures
      var b := Literal(f, k);
      && Encoding(f, b) && IsFinite(f, b) && !Negative(f, b) && !IsZero(f, b)
      && Exponent(f, b) == k - (f.prec - 2)
      && k - u >= 0 && Units(f, b, u) == 3 * P2(k - u)
  {
    var e := k - (f.prec - 2);
    assert P2(f.prec - 1) == 2 * P2(f.prec - 2) && P2(f.prec) == 2 * P2(f.prec - 1);
    EncodeCanonical(f, false, 3 * P2(f.prec - 2), e);
    P2Add(f.prec - 2, e - u);
    Assoc(3, P2(f.prec - 2), P2(e - u));
    Fma.FiniteZero(f, Literal(f, k), u);
  }

  /** Sign flip. */
  function Neg(f: Format, b: nat): nat
    requires f.Valid() && Encoding(f, b)
  {
    if Negative(f, b) then Magnitude(f, b) else b + P2(f.width - 1)
  }

  lemma {:induction false} NegMeaning(f: Format, b: nat)
    requires f.Valid() && Encoding(f, b)
    ensures Encoding(f, Neg(f, b)) && Magnitude(f, Neg(f, b)) == Magnitude(f, b)
    ensures Negative(f, Neg(f, b)) == !Negative(f, b)
  {
    var s := P2(f.width - 1);
    assert P2(f.width) == 2 * s;
    if b >= s {
      DivUnique(b, s, 1, b - s);
      DivUnique(b - s, s, 0, b - s);
    } else {
      DivUnique(b, s, 0, b);
      DivUnique(b + s, s, 1, b);
    }
  }

  /** Multiplying by one half where the result is still normal, or the operand infinite. */
  function Halve(f: Format, b: nat): nat
    requires f.Valid()
    requires ExpField(f, b) >= 2
  {
    if IsFinite(f, b) && b >= P2(f.prec - 1) then b - P2(f.prec - 1) else b
  }

  lemma {:induction false} HalveMeaning(f: Format, b: nat, u: int)
    requires f.Valid() && Encoding(f, b) && ExpField(f, b) >= 2 && u < f.emin
    ensures var h := Halve(f, b);
      && Encoding(f, h) && Negative(f, h) == Negative(f, b)
      && (IsFinite(f, b) ==> IsFinite(f, h) && !IsZero(f, h) && 2 * Units(f, h, u) == Units(f, b, u)
                             && 2 * Units(f, h, f.emin) == Units(f, b, f.emin))
      && (!IsFinite(f, b) ==> h == b)
  {
    var p, x, r := P2(f.prec - 1), ExpField(f, b), Fraction(f, b);
    RebuildFromFields(f, b);
    if IsFinite(f, b) {
      Distrib(x, 1, p);
      MulMono(1, x, p);
      SplitEncoding(f, Negative(f, b), x - 1, r);
      HalfUnits(f, b, Halve(f, b), u);
      HalfUnits(f, b, Halve(f, b), f.emin);
      Fma.FiniteZero(f, Halve(f, b), u);
    }
  }

  lemma {:induction false} HalfUnits(f: Format, b: nat, h: nat, u: int)
    requires f.Valid() && u <= f.emin && Exponent(f, h) == Exponent(f, b) - 1 && Significand(f, h) == Significand(f, b)
    ensures 2 * Units(f, h, u) == Units(f, b, u)
  {
    assert P2(Exponent(f, b) - u) == 2 * P2(Exponent(f, h) - u);
    Assoc(Significand(f, b), 2, P2(Exponent(f, h) - u));
  }

  // ---- one rounding, whatever the unit ----

  /** Halving the unit and doubling the count describe one value, with one rounding. */
  lemma {:induction false} FinerUnit(f: Format, a: nat, u: int)
    requires f.Valid() && u <= f.emin && a > 0
    ensures Rounded(f, 2 * a, u - 1) == 2 * Rounded(f, a, u)
    ensures Limit(f, u - 1) == 2 * Limit(f, u)
  {
    hide NearestEven;
    LimitExponent(f);
    P2Zero(1);
    MsbScale(a, 1);
    var q := Quantum(f, a, u);
    assert Quantum(f, 2 * a, u - 1) == q + 1;
    Narrow.NearestScale(a, q, 1);
    assert P2(q + 1) == 2 * P2(q);
    Assoc(NearestEven(a, q), 2, P2(q));
  }

  lemma {:induction false} RoundsFiner(f: Format, neg: bool, a: nat, u: int, b: nat, fl: Flags)
    requires f.Valid() && u <= f.emin && a > 0 && Rounds(f, neg, a, u, b, fl)
    ensures Rounds(f, neg, 2 * a, u - 1, b, fl)
  {
    hide Rounded;
    LimitExponent(f);
    FinerUnit(f, a, u);
    assert Units(f, b, u - 1) == 2 * Units(f, b, u) by {
      Assoc(Significand(f, b), 2, P2(Exponent(f, b) - u));
    }
    assert P2(f.wtiny + 2 - u) == 2 * P2(f.wtiny + 1 - u);
  }

  // ---- the first two arms ----

  lemma {:induction false} SignedNeg(f: Format, b: nat, u: int)
    requires f.Valid() && u <= f.emin && Encoding(f, b)
    ensures Encoding(f, Neg(f, b)) && SignedUnits(f, Neg(f, b), u) == -SignedUnits(f, b, u)
    ensures Units(f, Neg(f, b), u) == Units(f, b, u)
  {
    NegMeaning(f, b);
  }

  /** -(n/2)*m + 1.5 doubled is 3 - n*m. */
  lemma HalvedProduct(x: int, y: int, half: int, c: int)
    requires x == 2 * half
    ensures 2 * ((-half) * y + c) == 2 * c - x * y
    ensures 2 * ((-y) * half + c) == 2 * c - y * x
  {
    Assoc(2, half, y);
    assert (-half) * y == -(half * y) && (-y) * half == -(y * half);
  }

  predicate Roomy(f: Format) {
    f.emin <= 0 && -1 - (f.prec - 2) >= f.emin && 2 <= f.wmax
  }

  lemma {:induction false} HalvedOperand(f: Format, n: nat, m: nat)
    requires f.Valid() && Roomy(f) && Encoding(f, n) && Encoding(f, m) && ExpField(f, n) >= 2 && IsFinite(f, n)
    ensures Encoding(f, Neg(f, m)) && Encoding(f, Halve(f, n)) && Encoding(f, Neg(f, Halve(f, n)))
    ensures 2 * Fma.ExactMulAdd(f, Neg(f, Halve(f, n)), m, OnePointFive(f)) == ThreeMinus(f, n, m)
    ensures 2 * Fma.ExactMulAdd(f, Neg(f, m), Halve(f, n), OnePointFive(f)) == ThreeMinus(f, m, n)
  {
    hide Halve, Neg, Units, Literal, P2;
    HalveMeaning(f, n, f.emin - 1);
    SignedNeg(f, Halve(f, n), f.emin);
    SignedNeg(f, m, f.emin);
    LiteralMeaning(f, -1, 2 * f.emin);
    TwiceP2(-1 - 2 * f.emin);
    HalvedProduct(SignedUnits(f, n, f.emin), SignedUnits(f, m, f.emin), SignedUnits(f, Halve(f, n), f.emin),
                  SignedUnits(f, OnePointFive(f), 2 * f.emin));
  }

  /** A fused 1.5 minus half the product is the whole step. */
  lemma {:induction false} FiniteArm(f: Format, n: nat, m: nat, p: nat, q: nat, r: nat, fl: Flags)
    requires f.Valid() && Roomy(f)
    requires IsFinite(f, n) && IsFinite(f, m) && IsFinite(f, p) && IsFinite(f, q)
    requires 2 * Fma.ExactMulAdd(f, p, q, OnePointFive(f)) == ThreeMinus(f, n, m)
    requires Fma.MulAdd(f, p, q, OnePointFive(f), r, fl)
    ensures Step(f, n, m, r, fl)
  {
    hide Rounds, Literal, P2, Units, Fma.ExactMulAdd, ThreeMinus;
    LiteralMeaning(f, -1, 2 * f.emin);
    var y := Fma.ExactMulAdd(f, p, q, OnePointFive(f));
    if y != 0 {
      RoundsFiner(f, y < 0, FusedEval.Abs(y), 2 * f.emin, r, fl);
    }
  }

  /** An infinite operand leaves an infinity of the opposite sign to the product. */
  lemma {:induction false} InfiniteArm(f: Format, n: nat, m: nat, p: nat, q: nat, r: nat, fl: Flags)
    requires f.Valid() && Roomy(f)
    requires !Fma.InfTimesZero(f, n, m) && (IsInf(f, n) || IsInf(f, m))
    requires !IsNaN(f, p) && !IsNaN(f, q) && !Fma.InfTimesZero(f, p, q) && (IsInf(f, p) || IsInf(f, q))
    requires (Negative(f, p) != Negative(f, q)) == (Negative(f, n) == Negative(f, m))
    requires Fma.MulAdd(f, p, q, OnePointFive(f), r, fl)
    ensures Step(f, n, m, r, fl)
  {
    hide Rounds, Literal, P2, Units, Fma.ExactMulAdd, ThreeMinus;
    LiteralMeaning(f, -1, 2 * f.emin);
  }

  /** Classes survive the sign flip and the exact halving. */
  lemma {:induction false} OperandClasses(f: Format, n: nat)
    requires f.Valid() && Encoding(f, n) && !IsNaN(f, n)
    ensures Encoding(f, Neg(f, n)) && Negative(f, Neg(f, n)) == !Negative(f, n)
    ensures IsFinite(f, Neg(f, n)) == IsFinite(f, n) == !IsInf(f, n)
    ensures IsInf(f, Neg(f, n)) == IsInf(f, n) && IsZero(f, Neg(f, n)) == IsZero(f, n) && !IsNaN(f, Neg(f, n))
    ensures ExpField(f, n) >= 2 ==>
      var h := Halve(f, n);
      && Encoding(f, h) && Negative(f, h) == Negative(f, n) && !IsZero(f, h) && !IsZero(f, n) && !IsNaN(f, h)
      && IsFinite(f, h) == IsFinite(f, n) && IsInf(f, h) == IsInf(f, n)
  {
    hide Halve, P2, Units;
    NegMeaning(f, n);
    Fma.Classes(f, n);
    if ExpField(f, n) >= 2 {
      HalveMeaning(f, n, f.emin - 1);
      NonzeroField(f, n);
    }
  }

  lemma {:induction false} NonzeroField(f: Format, n: nat)
    requires f.Valid() && ExpField(f, n) > 0
    ensures !IsZero(f, n)
  {
    DivMod(Magnitude(f, n), P2(f.prec - 1));
    MulMono(1, ExpField(f, n), P2(f.prec - 1));
  }

  lemma {:induction false} StepFirst(f: Format, n: nat, m: nat, r: nat, fl: Flags)
    requires f.Valid() && Roomy(f) && Encoding(f, n) && Encoding(f, m) && ExpField(f, n) >= 2
    requires !IsNaN(f, n) && !IsNaN(f, m) && !Fma.InfTimesZero(f, n, m)
    requires Encoding(f, Halve(f, n)) && Encoding(f, Neg(f, Halve(f, n)))
    requires Fma.MulAdd(f, Neg(f, Halve(f, n)), m, OnePointFive(f), r, fl)
    ensures Step(f, n, m, r, fl)
  {
    hide Step, Halve, Neg, Literal, P2, Fma.MulAdd, IsFinite, IsInf, IsNaN, ThreeMinus, Fma.ExactMulAdd;
    OperandClasses(f, n);
    OperandClasses(f, m);
    OperandClasses(f, Halve(f, n));
    if IsFinite(f, n) && IsFinite(f, m) {
      HalvedOperand(f, n, m);
      FiniteArm(f, n, m, Neg(f, Halve(f, n)), m, r, fl);
    } else {
      InfiniteArm(f, n, m, Neg(f, Halve(f, n)), m, r, fl);
    }
  }

  lemma {:induction false} StepSecond(f: Format, n: nat, m: nat, r: nat, fl: Flags)
    requires f.Valid() && Roomy(f) && Encoding(f, n) && Encoding(f, m) && ExpField(f, m) >= 2
    requires !IsNaN(f, n) && !IsNaN(f, m) && !Fma.InfTimesZero(f, n, m)
    requires Fma.MulAdd(f, Neg(f, n), Halve(f, m), OnePointFive(f), r, fl)
    ensures Step(f, n, m, r, fl)
  {
    hide Step, Halve, Neg, Literal, P2, Fma.MulAdd, IsFinite, IsInf, IsNaN, ThreeMinus, Fma.ExactMulAdd;
    OperandClasses(f, n);
    OperandClasses(f, m);
    if IsFinite(f, n) && IsFinite(f, m) {
      HalvedOperand(f, m, n);
      FiniteArm(f, n, m, Neg(f, n), Halve(f, m), r, fl);
    } else {
      InfiniteArm(f, n, m, Neg(f, n), Halve(f, m), r, fl);
    }
  }

  lemma TwiceP2(n: nat)
    ensures P2(n + 1) == 2 * P2(n)
  {
  }

  // ---- the third arm ----

  /** With both operands at the bottom exponent the product is far below 3's last bit. */
  lemma {:induction false} BottomProduct(f: Format, n: nat, m: nat)
    requires f.Valid() && f.emin <= 0 && ExpField(f, n) <= 1 && ExpField(f, m) <= 1
    ensures FusedEval.Abs(SignedUnits(f, n, f.emin) * SignedUnits(f, m, f.emin)) < P2(2 * f.prec)
  {
    hide P2, Significand, ExpField;
    SignificandBound(f, n);
    SignificandBound(f, m);
    P2Zero(0);
    P2Add(f.prec, f.prec);
    BoundedProduct(Significand(f, n), Significand(f, m), P2(f.prec), Negative(f, n), Negative(f, m));
  }

  lemma BoundedProduct(x: int, y: int, b: nat, ns: bool, ms: bool)
    requires 0 <= x < b && 0 <= y < b
    ensures FusedEval.Abs((if ns then -x else x) * (if ms then -y else y)) < b * b
  {
    MulMono(0, x, y);
    MulMono(x, b, y);
    MulBounds(0, y, b, b);
    Fma.SignedProduct(x, y, 0, ns, ms, false);
  }

  /** Anything within half a quantum of 3 rounds to 3. */
  lemma {:induction false} RoundsToThree(f: Format, d: int, u: int, k: nat)
    requires f.Valid() && u <= f.emin && k > f.prec && k - (f.prec - 2) >= f.emin - u
    requires FusedEval.Abs(d) < P2(k - f.prec)
    ensures 3 * P2(k) - d > 0 && Rounded(f, 3 * P2(k) - d, u) == 3 * P2(k)
  {
    var a, q := 3 * P2(k) - d, k + 1 - (f.prec - 1);
    P2Mono(k - f.prec, k - 1);
    assert P2(k) == 2 * P2(k - 1) && P2(k + 1) == 2 * P2(k) && P2(k + 2) == 2 * P2(k + 1);
    MsbUnique(a, k + 1);
    assert Quantum(f, a, u) == q;
    P2Add(f.prec - 2, q);
    var m := 3 * P2(f.prec - 2);
    Assoc(3, P2(f.prec - 2), P2(q));
    assert P2(q) == 4 * P2(q - 2);
    NearMultiple(a, q, m);
  }

  /** Less than half a quantum from a multiple, that multiple is the nearest. */
  lemma {:induction false} NearMultiple(a: nat, q: nat, m: nat)
    requires 2 * Distance(a, m * P2(q)) < P2(q)
    ensures NearestEven(a, q) == m
  {
    var k, p := NearestEven(a, q), P2(q);
    NearestMultiple(a, q, m);
    if k < m {
      MulMono(k + 1, m, p);
      Distrib(k, 1, p);
    } else if k > m {
      MulMono(m + 1, k, p);
      Distrib(m, 1, p);
    }
  }

  predicate Separated(f: Format) {
    Roomy(f) && 3 * f.prec <= -2 * f.emin && f.wtiny + 2 <= 0
  }

  /** A value that rounds to 3 * 2^j in whole units, encoded and flagged. */
  lemma {:induction false} RoundsLiteral(f: Format, x: nat, u: int, k: nat, j: int)
    requires f.Valid() && Separated(f) && u <= f.emin && k - u <= -2 * u && j == k + u && -1 <= j <= 0
    requires x > P2(k) && Rounded(f, x, u) == 3 * P2(k)
    ensures Rounds(f, false, x, u, Literal(f, j), Flags(false, false, false, x != 3 * P2(k)))
  {
    hide Rounded, Literal;
    LimitExponent(f);
    LiteralMeaning(f, j, u);
    FiniteBelowLimit(f, Literal(f, j), u);
    P2Mono(f.wtiny + 1 - u, k);
  }

  /** The third arm: 3 rounded, then halved, is 1.5 with the same inexact flag. */
  lemma {:induction false} ThirdArm(f: Format, n: nat, m: nat, t: nat, fl: Flags)
    requires f.Valid() && Separated(f) && Encoding(f, n)
    requires ExpField(f, n) <= 1 && ExpField(f, m) <= 1
    requires IsFinite(f, n) && IsFinite(f, m)
    requires Encoding(f, Neg(f, n)) && Fma.MulAdd(f, Neg(f, n), m, Three(f), t, fl)
    ensures t == Three(f) && Step(f, n, m, OnePointFive(f), fl)
  {
    hide Rounds, Rounded, Literal, Neg, P2, Units;
    var u, k := 2 * f.emin, -2 * f.emin;
    var d := SignedUnits(f, n, f.emin) * SignedUnits(f, m, f.emin);
    var x := 3 * P2(k) - d;
    BottomProduct(f, n, m);
    P2Mono(2 * f.prec, k - f.prec);
    P2Mono(k - f.prec, k);
    RoundsToThree(f, d, u, k);
    RoundsToThree(f, d, u - 1, k);
    RoundsLiteral(f, x, u, k, 0);
    RoundsLiteral(f, x, u - 1, k, -1);
    NegThree(f, n, m);
    assert Rounds(f, false, x, u, t, fl);
    RoundsUnique(f, false, x, u, t, fl, Three(f), Flags(false, false, false, x != 3 * P2(k)));
  }

  /** The evaluator's exact sum in the third arm, and that no operand is special. */
  lemma {:induction false} NegThree(f: Format, n: nat, m: nat)
    requires f.Valid() && Separated(f) && Encoding(f, n) && IsFinite(f, n) && IsFinite(f, m)
    ensures Encoding(f, Neg(f, n)) && IsFinite(f, Neg(f, n)) && IsFinite(f, Three(f))
    ensures Fma.ExactMulAdd(f, Neg(f, n), m, Three(f))
         == 3 * P2(-2 * f.emin) - SignedUnits(f, n, f.emin) * SignedUnits(f, m, f.emin)
  {
    hide Literal, Neg, P2, Units;
    NegMeaning(f, n);
    SignedNeg(f, n, f.emin);
    LimitExponent(f);
    LiteralMeaning(f, 0, 2 * f.emin);
    var x, y := SignedUnits(f, n, f.emin), SignedUnits(f, m, f.emin);
    assert (-x) * y == -(x * y);
  }

  lemma {:induction false} HalfOfThree(f: Format)
    requires f.Valid() && Roomy(f)
    ensures ExpField(f, Three(f)) >= 2 && Halve(f, Three(f)) == OnePointFive(f)
  {
    LimitExponent(f);
    LiteralMeaning(f, 0, f.emin);
    var p, e := P2(f.prec - 1), -(f.prec - 2) - f.emin;
    Distrib(e, 1, p);
    MulMono(1, e, p);
  }

  lemma {:induction false} StepFormats(f: Format)
    requires Fma.Supported(f)
    ensures f.Valid() && Separated(f)
    ensures forall b: nat :: Encoding(f, b) ==> b < W
  {
    FormatsValid();
    P2Word();
  }

  lemma {:induction false} LiteralWords(f: Format)
    requires f.Valid() && Separated(f)
    ensures Encoding(f, OnePointFive(f)) && Encoding(f, Three(f))
  {
    LimitExponent(f);
    LiteralMeaning(f, -1, f.emin);
    LiteralMeaning(f, 0, f.emin);
  }

  /** The kernel of FRSQRTS for operands that are not NaN, in either precision. */
  method RsqrtStepKernel(f: Format, n: U64, m: U64) returns (r: nat, fl: Flags)
    requires f.Valid() && Fma.Supported(f) && Encoding(f, n) && Encoding(f, m)
    requires !IsNaN(f, n) && !IsNaN(f, m)
    ensures f.emin <= 0 && Step(f, n, m, r, fl)
  {
    hide Step, Halve, Neg, Literal, P2, Fma.MulAdd, Format.Valid, Encoding, IsNaN, IsFinite;
    StepFormats(f);
    LiteralWords(f);
    OperandClasses(f, n);
    OperandClasses(f, m);
    if (IsZero(f, n) && IsInf(f, m)) || (IsInf(f, n) && IsZero(f, m)) {
      StepInfZero(f, n, m);
      return OnePointFive(f), NO_FLAGS;
    }
    if ExpField(f, n) >= 2 {
      OperandClasses(f, Halve(f, n));
      r, fl := Fma.FusedMultiplyAdd(f, Neg(f, Halve(f, n)), m, OnePointFive(f));
      StepFirst(f, n, m, r, fl);
      return;
    }
    if ExpField(f, m) >= 2 {
      r, fl := Fma.FusedMultiplyAdd(f, Neg(f, n), Halve(f, m), OnePointFive(f));
      StepSecond(f, n, m, r, fl);
      return;
    }
    var t;
    t, fl := Fma.FusedMultiplyAdd(f, Neg(f, n), m, Three(f));
    SmallIsFinite(f, n);
    SmallIsFinite(f, m);
    ThirdArm(f, n, m, t, fl);
    HalfOfThree(f);
    r := Halve(f, t);
  }

  lemma StepInfZero(f: Format, n: nat, m: nat)
    requires f.Valid() && f.emin <= 0 && Fma.InfTimesZero(f, n, m)
    ensures Step(f, n, m, OnePointFive(f), NO_FLAGS)
  {
  }

  lemma SmallIsFinite(f: Format, n: nat)
    requires f.Valid() && ExpField(f, n) <= 1
    ensures IsFinite(f, n)
  {
  }
}
