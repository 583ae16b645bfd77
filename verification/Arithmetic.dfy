/**
 What the flag-setting operations and the condition codes mean over the integers:
 sums and differences without bound, carries, signed overflow, and the comparison
 that each condition decides after a compare.
 */
module Arithmetic {
  import opened Pow2
  import opened Binary
  import opened Ir

  function Modulus(w: bool): nat {
    if w then 0x1_0000_0000_0000_0000 else 0x1_0000_0000
  }

  /** A register of that width as an unsigned and as a two's complement number. */
  function Unsigned(w: bool, a: bv64): nat {
    Number(a) % Modulus(w)
  }

  function Signed(w: bool, a: bv64): int {
    var u := Unsigned(w, a);
    if 2 * u < Modulus(w) then u else u - Modulus(w)
  }

  predicate InSignedRange(w: bool, i: int) {
    0 <= 2 * i + Modulus(w) < 2 * Modulus(w)
  }

  // ---- The sum and its bits ----

  lemma {:induction false} TotalIs(x: bv64, y: bv64, c: bool)
    ensures Full(Total(x, y, c)) == Number(x) + Number(y) + One(c)
  {
    hide Number, Full, Widened, Summed, Succ, Small, IsWord;
    NumberFull(x);
    NumberFull(y);
    WordIsCarried(Widened(x));
    FullSum(Widened(x), Widened(y));
    SumFits(Widened(x), Widened(y));
    FullSucc(Summed(Widened(x), Widened(y)));
  }

  lemma WordIsCarried(x: bv66)
    requires IsWord(x)
    ensures IsCarried(x)
  {
  }

  lemma {:induction false} FullAt(t: bv66, n: nat)
    requires n < 66
    ensures Low(t, n) == Full(t) % P2(n)
    ensures Odd(Down(t, n)) <==> (Full(t) / P2(n)) % 2 == 1
  {
    hide Down, P2, Odd, Low;
    LowParts(t, n, 66 - n);
    OddLow(Down(t, n), 66 - n);
  }

  /** A bound below twice the modulus makes the quotient the carry. */
  lemma Quotient(u: nat, m: nat)
    requires u < 2 * m
    ensures u / m == if u >= m then 1 else 0
  {
    DivUnique(u, m, if u >= m then 1 else 0, if u >= m then u - m else u);
  }

  /** Value and carry of the machine's sum. */
  lemma {:induction false} SumIs(w: bool, x: bv64, y: bv64, c: bool)
    requires w || (Number(x) < Modulus(w) && Number(y) < Modulus(w))
    ensures
      var r, u := Sum(w, x, y, c), Number(x) + Number(y) + One(c);
      Number(r.value) == u % Modulus(w) && (r.nz.c <==> u >= Modulus(w))
  {
    hide Total, Number, Full, LowWord, LowHalf, CarryWord, CarryHalf, Down, P2, Low, Odd, TopBit, Overflows;
    var t := Total(x, y, c);
    TotalIs(x, y, c);
    CutIs(t);
    P2Word();
    NumberFull(x);
    NumberFull(y);
    FullAt(t, if w then 64 else 32);
    Quotient(Full(t), Modulus(w));
  }

  // ---- Widths and signs ----

  predicate Fits(w: bool, x: bv64) {
    Fit(w, x) == x
  }

  lemma CutRaw(a: bv64)
    ensures (a & 0xffff_ffff) as bv66 == (a as bv66) & 0xffff_ffff && (a & 0xffff_ffff) & 0xffff_ffff == a & 0xffff_ffff
  {
  }

  lemma FitTwice(w: bool, a: bv64)
    ensures Fits(w, Fit(w, a)) && (w ==> Fit(w, a) == a)
  {
    CutRaw(a);
    if !w {
      assert Fit(w, a) == a & 0xffff_ffff;
    }
  }

  lemma FitBits(a: bv64)
    ensures Widened(Fit(false, a)) == Masked(Widened(a), LOW32)
  {
    CutRaw(a);
    assert Fit(false, a) == a & 0xffff_ffff;
    assert Widened(Fit(false, a)) == (a & 0xffff_ffff) as bv66;
    assert Widened(a) == a as bv66;
    assert Masked(Widened(a), LOW32) == (a as bv66) & 0xffff_ffff;
  }

  /** The unsigned reading of a register is the number of its bits in that width. */
  lemma {:induction false} FitIs(w: bool, a: bv64)
    ensures Number(Fit(w, a)) == Unsigned(w, a) < Modulus(w) && Fits(w, Fit(w, a))
  {
    hide Widened, Masked, Low, Ones, P2, Full, Fit, Fits;
    FitTwice(w, a);
    NumberFull(a);
    P2Word();
    if !w {
      FitBits(a);
      Ones32();
      AndOnes(Widened(a), LOW32, 32, 64);
      NumberLow(a, 32);
    }
  }

  lemma TopBitBits(x: bv64)
    ensures TopBit(true, x) == Odd(RightBy(Widened(x), 63))
    ensures Fits(false, x) ==> TopBit(false, x) == Odd(RightBy(Widened(x), 31))
  {
  }

  /** The sign bit is set from half the modulus on. */
  lemma {:induction false} TopBitIs(w: bool, x: bv64)
    requires Fits(w, x)
    ensures TopBit(w, x) <==> 2 * Number(x) >= Modulus(w)
  {
    hide Number, Widened, Low, TopBit, Odd, RightBy, Down, P2, Full, Fit;
    var n := if w then 63 else 31;
    FitIs(w, x);
    TopBitBits(x);
    RightIs(Widened(x), n);
    NumberLow(x, n);
    OddLow(Down(Widened(x), n), 64 - n);
    P2Word();
    P2Halves();
    Quotient(Number(x), P2(n));
  }

  lemma P2Halves()
    ensures P2(31) == 0x8000_0000 && P2(63) == 0x8000_0000_0000_0000
  {
    P2Word();
    assert P2(32) == 2 * P2(31) && P2(64) == 2 * P2(63);
  }

  lemma NotRaw(y: bv64)
    ensures ((!y) as bv66) + (y as bv66) == 0xffff_ffff_ffff_ffff
    ensures y & 0xffff_ffff == y ==> ((!y & 0xffff_ffff) as bv66) + (y as bv66) == 0xffff_ffff
  {
  }

  function Complement(w: bool, y: bv64): bv64 {
    Fit(w, Flip(y))
  }

  lemma NotBits(w: bool, y: bv64)
    requires Fits(w, y)
    ensures Summed(Widened(Complement(w, y)), Widened(y)) == if w then LOW64 else LOW32
  {
    NotRaw(y);
    assert Flip(y) == !y;
    assert Widened(y) == y as bv66;
    if w {
      assert Widened(Complement(w, y)) == (!y) as bv66;
    } else {
      assert Complement(w, y) == !y & 0xffff_ffff;
      assert Widened(Complement(w, y)) == (!y & 0xffff_ffff) as bv66;
    }
  }

  /** The complement within the width. */
  lemma {:induction false} NotIs(w: bool, y: bv64)
    requires Fits(w, y)
    ensures Number(Complement(w, y)) == Modulus(w) - 1 - Number(y)
  {
    hide Number, Widened, Low, Summed, Ones, Full, P2, Complement, Fits, IsWord, IsCarried;
    var n := Complement(w, y);
    NotBits(w, y);
    NumberFull(n);
    NumberFull(y);
    WordIsCarried(Widened(n));
    FullSum(Widened(n), Widened(y));
    FullLow(w);
  }

  lemma {:induction false} FullLow(w: bool)
    ensures Full(if w then LOW64 else LOW32) == Modulus(w) - 1
  {
    hide Low, Ones, P2, Down;
    P2Word();
    Ones32();
    Ones64();
    OnesLow(LOW32, 32);
    OnesLow(LOW64, 64);
    var m := if w then LOW64 else LOW32;
    var k := if w then 64 else 32;
    LowSplit(m, k, 66 - k);
    OnesDown(m, k);
    ZeroLow(66 - k);
  }

  lemma {:induction false} OnesDown(m: bv66, k: nat)
    requires Ones(m, k)
    ensures Down(m, k) == 0
    decreases k
  {
    hide Half, Odd;
    if k > 0 {
      OnesDown(Half(m), k - 1);
    }
  }

  lemma OverflowBits(w: bool, x: bv64, y: bv64, r: bv64)
    requires Fits(w, x) && Fits(w, y) && Fits(w, r)
    ensures Overflows(w, x, y, r) <==> TopBit(w, x) == TopBit(w, y) && TopBit(w, r) != TopBit(w, x)
  {
  }

  lemma SumFitsWidth(w: bool, x: bv64, y: bv64, c: bool)
    ensures Fits(w, Sum(w, x, y, c).value)
  {
    hide Total;
    if !w {
      LowHalfFits(Total(x, y, c));
    }
  }

  lemma LowHalfFits(t: bv66)
    ensures LowHalf(t) & 0xffff_ffff == LowHalf(t)
  {
  }

  /** Two's complement reading of a register that fits. */
  lemma {:induction false} SignedIs(w: bool, x: bv64)
    requires Fits(w, x)
    ensures Unsigned(w, x) == Number(x) < Modulus(w)
    ensures Signed(w, x) == if TopBit(w, x) then Number(x) - Modulus(w) else Number(x)
    ensures InSignedRange(w, Signed(w, x)) && (TopBit(w, x) <==> Signed(w, x) < 0)
  {
    hide Number, TopBit, Fit;
    FitIs(w, x);
    TopBitIs(w, x);
  }

  /** What an addition with carry gives: the sum, without bound, of both readings. */
  ghost predicate Adds(w: bool, r: Result, u: int, s: int) {
    && Number(r.value) == u % Modulus(w)
    && (r.nz.n <==> Signed(w, r.value) < 0)
    && (r.nz.z <==> Number(r.value) == 0)
    && (r.nz.v <==> !InSignedRange(w, s))
    && (!r.nz.v ==> Signed(w, r.value) == s)
  }

  lemma {:induction false} SumMeans(w: bool, x: bv64, y: bv64, c: bool)
    requires Fits(w, x) && Fits(w, y)
    ensures
      var r, u := Sum(w, x, y, c), Number(x) + Number(y) + One(c);
      && Adds(w, r, u, Signed(w, x) + Signed(w, y) + One(c))
      && (r.nz.c <==> u >= Modulus(w))
  {
    hide Number, TopBit, Overflows, Fit, Total, LowWord, LowHalf, CarryWord, CarryHalf, Signed, Unsigned;
    var r := Sum(w, x, y, c);
    SignedIs(w, x);
    SignedIs(w, y);
    SumIs(w, x, y, c);
    SumFitsWidth(w, x, y, c);
    SignedIs(w, r.value);
    OverflowBits(w, x, y, r.value);
    NumberZero(r.value);
    Wrapped(Number(x) + Number(y) + One(c), Modulus(w));
  }

  lemma Wrapped(u: nat, m: nat)
    requires u < 2 * m
    ensures u % m == if u >= m then u - m else u
  {
    DivUnique(u, m, if u >= m then 1 else 0, if u >= m then u - m else u);
  }

  // ---- The arithmetic operations ----

  lemma {:induction false} Readings(w: bool, a: bv64)
    ensures Fits(w, Fit(w, a)) && Number(Fit(w, a)) == Unsigned(w, a) && Signed(w, Fit(w, a)) == Signed(w, a)
  {
    hide Number, TopBit, Fit, Fits;
    FitIs(w, a);
    SignedIs(w, Fit(w, a));
  }

  /** The value is the sum modulo 2^width, C the carry out, V that the signed sum does not fit. */
  lemma {:induction false} AddMeans(w: bool, a: bv64, b: bv64, c: bool, k: Kind)
    requires k == Add || k == Adc
    ensures
      var r := Compute(k, w, a, b, c);
      var one := One(k == Adc && c);
      && Adds(w, r, Unsigned(w, a) + Unsigned(w, b) + one, Signed(w, a) + Signed(w, b) + one)
      && (r.nz.c <==> Unsigned(w, a) + Unsigned(w, b) + one >= Modulus(w))
  {
    hide Number, Fit, Fits, Sum, Unsigned, Signed, Adds;
    Readings(w, a);
    Readings(w, b);
    SumMeans(w, Fit(w, a), Fit(w, b), k == Adc && c);
  }

  /** The value is the difference modulo 2^width, C that nothing is borrowed, V that the signed one does not fit. */
  lemma {:induction false} SubMeans(w: bool, a: bv64, b: bv64, c: bool, k: Kind)
    requires k == Sub || k == Sbc
    ensures
      var r := Compute(k, w, a, b, c);
      var one := One(k == Sbc && !c);
      && Adds(w, r, Unsigned(w, a) - Unsigned(w, b) - one, Signed(w, a) - Signed(w, b) - one)
      && (r.nz.c <==> Unsigned(w, a) >= Unsigned(w, b) + one)
  {
    hide Compute, Number, Fit, Fits, Sum, Unsigned, Signed, Adds, Modulus, Complement;
    var x, y := Fit(w, a), Fit(w, b);
    var carry := k == Sub || c;
    SubIsSum(w, a, b, c, k);
    Readings(w, a);
    Readings(w, b);
    ReadComplement(w, y);
    NotIs(w, y);
    SignedNot(w, y);
    SumMeans(w, x, Complement(w, y), carry);
    SameAdds(w, Compute(k, w, a, b, c), Unsigned(w, a) - Unsigned(w, b) - One(!carry),
      Signed(w, a) - Signed(w, b) - One(!carry));
  }

  lemma {:induction false} ReadComplement(w: bool, y: bv64)
    ensures Fits(w, Complement(w, y)) && Unsigned(w, Complement(w, y)) == Number(Complement(w, y))
  {
    hide Number, Fit, Fits;
    FitIs(w, Flip(y));
    FitIs(w, Complement(w, y));
    assert Fit(w, Complement(w, y)) == Complement(w, y) by {
      Fitted(w, Complement(w, y));
    }
  }

  lemma SubIsSum(w: bool, a: bv64, b: bv64, c: bool, k: Kind)
    requires k == Sub || k == Sbc
    ensures Compute(k, w, a, b, c) == Sum(w, Fit(w, a), Complement(w, Fit(w, b)), k == Sub || c)
  {
    hide Sum, Fit, Flip, Logic;
  }

  lemma {:induction false} SignedNot(w: bool, y: bv64)
    requires Fits(w, y)
    ensures Signed(w, Complement(w, y)) == -Signed(w, y) - 1
  {
    hide Number, Fit, Fits, Complement;
    Readings(w, y);
    ReadComplement(w, y);
    NotIs(w, y);
    FitIs(w, y);
    assert Fit(w, y) == y by {
      Fitted(w, y);
    }
  }

  lemma Fitted(w: bool, y: bv64)
    requires Fits(w, y)
    ensures Fit(w, y) == y
  {
  }

  lemma SameAdds(w: bool, r: Result, u: int, s: int)
    requires Adds(w, r, u + Modulus(w), s)
    ensures Adds(w, r, u, s)
  {
    hide Number, Signed;
    SameRemainder(u, Modulus(w));
  }

  lemma SameRemainder(u: int, m: nat)
    requires m > 0
    ensures (u + m) % m == u % m
  {
    DivMod(u, m);
    DivUnique(u + m, m, u / m + 1, u % m);
  }

  // ---- Conditions ----

  /** What each condition code asks of the operands of a compare. */
  predicate Decides(cc: nat, w: bool, a: bv64, b: bv64) {
    var ua, ub, sa, sb := Unsigned(w, a), Unsigned(w, b), Signed(w, a), Signed(w, b);
    match cc % 16
    case 0 => ua == ub
    case 1 => ua != ub
    case 2 => ua >= ub
    case 3 => ua < ub
    case 4 => 2 * ((ua - ub) % Modulus(w)) >= Modulus(w)
    case 5 => 2 * ((ua - ub) % Modulus(w)) < Modulus(w)
    case 6 => !InSignedRange(w, sa - sb)
    case 7 => InSignedRange(w, sa - sb)
    case 8 => ua > ub
    case 9 => ua <= ub
    case 10 => sa >= sb
    case 11 => sa < sb
    case 12 => sa > sb
    case 13 => sa <= sb
    case _ => true
  }

  /** Odd codes negate the even ones before them, except the last. */
  lemma OddNegates(cc: nat, f: Nzcv)
    requires cc % 2 == 0 && cc % 16 != 14
    ensures Holds(cc + 1, f) == !Holds(cc, f)
  {
  }

  /** The flags of a compare. */
  lemma {:induction false} CompareFlags(w: bool, a: bv64, b: bv64, c: bool)
    ensures
      var f := Compute(Sub, w, a, b, c).nz;
      var ua, ub, sa, sb := Unsigned(w, a), Unsigned(w, b), Signed(w, a), Signed(w, b);
      && (f.z <==> ua == ub) && (f.c <==> ua >= ub) && (f.v <==> !InSignedRange(w, sa - sb))
      && (f.n <==> 2 * ((ua - ub) % Modulus(w)) >= Modulus(w))
      && (f.n == f.v <==> sa >= sb) && (sa == sb <==> ua == ub)
  {
    hide Number, Compute;
    var r := Compute(Sub, w, a, b, c);
    SubMeans(w, a, b, c, Sub);
    Difference(Unsigned(w, a), Unsigned(w, b), Modulus(w));
    assert Unsigned(w, r.value) == Number(r.value) by {
      Wrapped(Number(r.value), Modulus(w));
    }
  }

  lemma CodeParts(cc: nat)
    ensures (cc / 2) % 8 == (cc % 16) / 2 && (cc % 16) % 2 == cc % 2 && (cc % 16) % 16 == cc % 16
  {
    var q, r := cc / 16, cc % 16;
    DivUnique(cc, 2, 8 * q + r / 2, r % 2);
    DivUnique(8 * q + r / 2, 8, q, r / 2);
  }

  lemma SameCode(cc: nat, f: Nzcv)
    ensures Holds(cc, f) == Holds(cc % 16, f)
  {
    CodeParts(cc);
    CodeParts(cc % 16);
  }

  /** After a compare a condition holds exactly when the operands stand in its relation. */
  lemma {:induction false} ConditionMeans(w: bool, a: bv64, b: bv64, c: bool, cc: nat)
    ensures Holds(cc, Compute(Sub, w, a, b, c).nz) <==> Decides(cc, w, a, b)
  {
    hide Compute, Unsigned, Signed, Modulus, InSignedRange;
    SameCode(cc, Compute(Sub, w, a, b, c).nz);
    CompareFlags(w, a, b, c);
  }

  lemma Difference(a: nat, b: nat, m: nat)
    requires a < m && b < m
    ensures (a - b) % m == if a >= b then a - b else a - b + m
  {
    DivUnique(a - b, m, if a >= b then 0 else -1, if a >= b then a - b else a - b + m);
  }
}
