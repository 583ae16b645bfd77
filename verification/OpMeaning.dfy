/**
 What one operation of the intermediate representation, and the branch that ends
 a block, do to the guest, in terms of integers and of single bits.
 */
module OpMeaning {
  import opened Pow2
  import opened Binary
  import opened Ir
  import opened Arithmetic

  // ---- Bits ----

  lemma {:induction false} BitDown(x: bv64, i: nat)
    ensures BitIs(x, i) <==> i < 64 && Odd(Down(Widened(x), i))
  {
    hide Odd, Down, RightBy, Widened;
    if i < 64 {
      RightIs(Widened(x), i);
    }
  }

  /** Bit i of a word is digit i of its number. */
  lemma {:induction false} BitMeans(x: bv64, i: nat)
    ensures BitIs(x, i) <==> i < 64 && Number(x) / P2(i) % 2 == 1
  {
    hide Odd, Down, Widened, P2, BitIs, Number;
    BitDown(x, i);
    if i < 64 {
      DigitIs(x, i);
    }
  }

  predicate IsAnd(a: bv66, b: bv66, c: bv66) {
    c == a & b
  }

  lemma HalfAnd(a: bv66, b: bv66, c: bv66)
    requires IsAnd(a, b, c)
    ensures IsAnd(Half(a), Half(b), Half(c))
  {
  }

  lemma OddAnd(a: bv66, b: bv66, c: bv66)
    requires IsAnd(a, b, c)
    ensures Odd(c) == (Odd(a) && Odd(b))
  {
  }

  lemma WideAnd(x: bv64, y: bv64, z: bv64)
    requires z == Conj(x, y)
    ensures IsAnd(Widened(x), Widened(y), Widened(z))
  {
  }

  lemma {:induction false} DownAnd(a: bv66, b: bv66, c: bv66, i: nat)
    requires IsAnd(a, b, c)
    ensures IsAnd(Down(a, i), Down(b, i), Down(c, i))
    decreases i
  {
    hide Half, IsAnd;
    if i > 0 {
      HalfAnd(a, b, c);
      DownAnd(Half(a), Half(b), Half(c), i - 1);
    }
  }

  lemma {:induction false} BitAnd(x: bv64, y: bv64, z: bv64, i: nat)
    requires IsAnd(Widened(x), Widened(y), Widened(z))
    ensures BitIs(z, i) == (BitIs(x, i) && BitIs(y, i))
  {
    hide Odd, Down, Widened, BitIs, IsAnd;
    BitDown(x, i);
    BitDown(y, i);
    BitDown(z, i);
    DownAnd(Widened(x), Widened(y), Widened(z), i);
    OddAnd(Down(Widened(x), i), Down(Widened(y), i), Down(Widened(z), i));
  }

  predicate IsOr(a: bv66, b: bv66, c: bv66) {
    c == a | b
  }

  lemma HalfOr(a: bv66, b: bv66, c: bv66)
    requires IsOr(a, b, c)
    ensures IsOr(Half(a), Half(b), Half(c))
  {
  }

  lemma OddOr(a: bv66, b: bv66, c: bv66)
    requires IsOr(a, b, c)
    ensures Odd(c) == (Odd(a) || Odd(b))
  {
  }

  lemma WideOr(x: bv64, y: bv64, z: bv64)
    requires z == Disj(x, y)
    ensures IsOr(Widened(x), Widened(y), Widened(z))
  {
  }

  lemma {:induction false} DownOr(a: bv66, b: bv66, c: bv66, i: nat)
    requires IsOr(a, b, c)
    ensures IsOr(Down(a, i), Down(b, i), Down(c, i))
    decreases i
  {
    hide Half, IsOr;
    if i > 0 {
      HalfOr(a, b, c);
      DownOr(Half(a), Half(b), Half(c), i - 1);
    }
  }

  lemma {:induction false} BitOr(x: bv64, y: bv64, z: bv64, i: nat)
    requires IsOr(Widened(x), Widened(y), Widened(z))
    ensures BitIs(z, i) == (BitIs(x, i) || BitIs(y, i))
  {
    hide Odd, Down, Widened, BitIs, IsOr;
    BitDown(x, i);
    BitDown(y, i);
    BitDown(z, i);
    DownOr(Widened(x), Widened(y), Widened(z), i);
    OddOr(Down(Widened(x), i), Down(Widened(y), i), Down(Widened(z), i));
  }

  predicate IsXor(a: bv66, b: bv66, c: bv66) {
    c == a ^ b
  }

  lemma HalfXor(a: bv66, b: bv66, c: bv66)
    requires IsXor(a, b, c)
    ensures IsXor(Half(a), Half(b), Half(c))
  {
  }

  lemma OddXor(a: bv66, b: bv66, c: bv66)
    requires IsXor(a, b, c)
    ensures Odd(c) == (Odd(a) != Odd(b))
  {
  }

  lemma WideXor(x: bv64, y: bv64, z: bv64)
    requires z == Excl(x, y)
    ensures IsXor(Widened(x), Widened(y), Widened(z))
  {
  }

  lemma {:induction false} DownXor(a: bv66, b: bv66, c: bv66, i: nat)
    requires IsXor(a, b, c)
    ensures IsXor(Down(a, i), Down(b, i), Down(c, i))
    decreases i
  {
    hide Half, IsXor;
    if i > 0 {
      HalfXor(a, b, c);
      DownXor(Half(a), Half(b), Half(c), i - 1);
    }
  }

  lemma {:induction false} BitXor(x: bv64, y: bv64, z: bv64, i: nat)
    requires IsXor(Widened(x), Widened(y), Widened(z))
    ensures BitIs(z, i) == (BitIs(x, i) != BitIs(y, i))
  {
    hide Odd, Down, Widened, BitIs, IsXor;
    BitDown(x, i);
    BitDown(y, i);
    BitDown(z, i);
    DownXor(Widened(x), Widened(y), Widened(z), i);
    OddXor(Down(Widened(x), i), Down(Widened(y), i), Down(Widened(z), i));
  }

  const ALL: bv64 := 0xffff_ffff_ffff_ffff
  const HALF: bv64 := 0xffff_ffff

  lemma {:induction false} ConstantBits(i: nat)
    ensures BitIs(ALL, i) <==> i < 64
    ensures BitIs(HALF, i) <==> i < 32
  {
    hide Odd, Down, Widened, BitIs, Ones;
    BitDown(ALL, i);
    BitDown(HALF, i);
    Ones32();
    Ones64();
    OnesBit(LOW64, 64, i);
    OnesBit(LOW32, 32, i);
    ConstantsWide();
  }

  lemma ConstantsWide()
    ensures Widened(ALL) == LOW64 && Widened(HALF) == LOW32
  {
  }

  lemma FlipIsXor(y: bv64)
    ensures Flip(y) == Excl(y, ALL)
  {
  }

  lemma {:induction false} BitFlip(y: bv64, i: nat)
    ensures BitIs(Flip(y), i) <==> i < 64 && !BitIs(y, i)
  {
    hide BitIs, Flip, IsXor, Widened, Excl;
    FlipIsXor(y);
    WideXor(y, ALL, Flip(y));
    BitXor(y, ALL, Flip(y), i);
    ConstantBits(i);
    BitRange(y, i);
  }

  lemma BitRange(y: bv64, i: nat)
    ensures BitIs(y, i) ==> i < 64
  {
  }

  function Width(w: bool): nat {
    if w then 64 else 32
  }

  lemma FitIsAnd(a: bv64)
    ensures Fit(true, a) == a && Fit(false, a) == Conj(a, HALF)
  {
  }

  lemma {:induction false} BitFit(w: bool, a: bv64, i: nat)
    ensures BitIs(Fit(w, a), i) <==> i < Width(w) && BitIs(a, i)
  {
    hide BitIs, Fit, IsAnd, Widened, Conj;
    FitIsAnd(a);
    BitRange(a, i);
    if !w {
      WideAnd(a, HALF, Fit(w, a));
      BitAnd(a, HALF, Fit(w, a), i);
      ConstantBits(i);
    }
  }

  // ---- Logic ----

  predicate Logical(k: Kind) {
    k == And || k == Bic || k == Orr || k == Orn || k == Eor || k == Eon
  }

  predicate LogicBit(k: Kind, p: bool, q: bool)
    requires Logical(k)
  {
    match k
    case And => p && q
    case Bic => p && !q
    case Orr => p || q
    case Orn => p || !q
    case Eor => p != q
    case Eon => p == q
  }

  /** The second operand, flipped for the negated forms. */
  function Second(k: Kind, w: bool, b: bv64): bv64 {
    if k == Bic || k == Orn || k == Eon then Fit(w, Flip(Fit(w, b))) else Fit(w, b)
  }

  lemma LogicForm(k: Kind, w: bool, a: bv64, b: bv64, c: bool)
    requires Logical(k)
    ensures
      var r, x, y := Compute(k, w, a, b, c), Fit(w, a), Second(k, w, b);
      && (k == And || k == Bic ==> r.value == Conj(x, y)) && (k == Orr || k == Orn ==> r.value == Disj(x, y))
      && (k == Eor || k == Eon ==> r.value == Excl(x, y))
      && r.nz == Nzcv(TopBit(w, r.value), r.value == 0, false, false)
  {
    hide Fit, TopBit, Sum, Flip, Conj, Disj, Excl;
  }

  lemma {:induction false} BitSecond(k: Kind, w: bool, b: bv64, i: nat)
    ensures
      BitIs(Second(k, w, b), i) <==>
      i < Width(w) && if k == Bic || k == Orn || k == Eon then !BitIs(b, i) else BitIs(b, i)
  {
    hide BitIs, Fit, Flip;
    BitFit(w, b, i);
    BitFlip(Fit(w, b), i);
    BitFit(w, Flip(Fit(w, b)), i);
  }

  /** A logical operation works bit by bit within the width, and clears C and V. */
  lemma {:induction false} LogicMeans(k: Kind, w: bool, a: bv64, b: bv64, c: bool, i: nat)
    requires Logical(k)
    ensures
      var r := Compute(k, w, a, b, c);
      && (BitIs(r.value, i) <==> i < Width(w) && LogicBit(k, BitIs(a, i), BitIs(b, i)))
      && r.nz == Nzcv(TopBit(w, r.value), r.value == 0, false, false)
  {
    hide BitIs, Fit, Compute, Second, TopBit, Conj, Disj, Excl;
    LogicForm(k, w, a, b, c);
    LogicBits(k, w, a, b, c, i);
    BitFit(w, a, i);
    BitSecond(k, w, b, i);
  }

  lemma {:induction false} LogicBits(k: Kind, w: bool, a: bv64, b: bv64, c: bool, i: nat)
    requires Logical(k)
    ensures
      var p, q := BitIs(Fit(w, a), i), BitIs(Second(k, w, b), i);
      BitIs(Compute(k, w, a, b, c).value, i) ==
        if k == And || k == Bic then p && q else if k == Orr || k == Orn then p || q else p != q
  {
    hide BitIs, Fit, Compute, Second, IsAnd, IsOr, IsXor, Widened, Conj, Disj, Excl;
    LogicForm(k, w, a, b, c);
    var r, x, y := Compute(k, w, a, b, c).value, Fit(w, a), Second(k, w, b);
    if k == And || k == Bic {
      WideAnd(x, y, r);
      BitAnd(x, y, r, i);
    } else if k == Orr || k == Orn {
      WideOr(x, y, r);
      BitOr(x, y, r, i);
    } else {
      WideXor(x, y, r);
      BitXor(x, y, r, i);
    }
  }

  // ---- Selection and field insertion ----

  lemma PlusIs(x: bv64, y: bv64)
    ensures Plus(x, y) == Plus64(x, y)
  {
  }

  /** A sum of registers, read in either width. */
  lemma {:induction false} PlusMeans(w: bool, x: bv64, y: bv64)
    ensures Unsigned(w, Plus(x, y)) == (Unsigned(w, x) + Unsigned(w, y)) % Modulus(w)
  {
    hide Number, Plus, Modulus;
    WordPlus(x, y);
    CutEither(w, Number(x), Number(y));
  }

  lemma {:induction false} WordPlus(x: bv64, y: bv64)
    ensures Modulus(true) > 0 && Number(Plus(x, y)) == (Number(x) + Number(y)) % Modulus(true)
  {
    hide Number, Plus, Plus64;
    PlusIs(x, y);
    NumberPlus(x, y);
  }

  lemma CutEither(w: bool, x: nat, y: nat)
    ensures Modulus(w) > 0
    ensures (x + y) % Modulus(true) % Modulus(w) == (x % Modulus(w) + y % Modulus(w)) % Modulus(w)
  {
    if w {
      CutWhole(x, y, Modulus(w));
    } else {
      CutSum(x, y);
    }
  }

  lemma CutWhole(x: nat, y: nat, m: nat)
    requires m > 0
    ensures (x + y) % m % m == (x % m + y % m) % m
  {
    var s := x % m + y % m;
    DivMod(x, m);
    DivMod(y, m);
    DivMod(s, m);
    Distrib(x / m, y / m, m);
    Distrib(x / m + y / m, s / m, m);
    DivUnique(x + y, m, x / m + y / m + s / m, s % m);
    DivUnique(s % m, m, 0, s % m);
  }

  lemma CutSum(x: nat, y: nat)
    ensures
      (x + y) % 0x1_0000_0000_0000_0000 % 0x1_0000_0000 == (x % 0x1_0000_0000 + y % 0x1_0000_0000) % 0x1_0000_0000
  {
    var m: nat, n: nat := 0x1_0000_0000, 0x1_0000_0000_0000_0000;
    CutTwice(x + y);
    var a, b := x / m, y / m;
    var s := x % m + y % m;
    DivUnique(x + y, m, a + b + s / m, s % m);
  }

  lemma CutTwice(u: nat)
    ensures u % 0x1_0000_0000_0000_0000 % 0x1_0000_0000 == u % 0x1_0000_0000
  {
    var m: nat, n: nat := 0x1_0000_0000, 0x1_0000_0000_0000_0000;
    var v := u % n;
    DivMod(u, n);
    DivUnique(u, m, (u / n) * m + v / m, v % m);
  }

  lemma {:induction false} OneIs()
    ensures Number(1) == 1
  {
    hide Number;
    NumberInc(0);
    NumberZero(0);
    assert Inc64(0) == 1 by {
      IncZero();
    }
  }

  lemma IncZero()
    ensures Inc64(0) == 1
  {
  }

  lemma {:induction false} FlipIs(w: bool, b: bv64)
    ensures Unsigned(w, Flip(b)) == Modulus(w) - 1 - Unsigned(w, b)
  {
    hide Number, Flip, Modulus;
    FlipNumber(b);
    CutFlips(w, Number(b));
  }

  lemma {:induction false} FlipNumber(b: bv64)
    ensures Number(Flip(b)) == Modulus(true) - 1 - Number(b) && Number(b) < Modulus(true)
  {
    hide Number, Flip, Fits, Fit, Full, IsWord;
    AllFits(b);
    AllFits(Flip(b));
    NotIs(true, b);
    NumberFull(b);
  }

  lemma CutFlips(w: bool, u: nat)
    requires u < Modulus(true)
    ensures Modulus(w) > 0 && (Modulus(true) - 1 - u) % Modulus(w) == Modulus(w) - 1 - u % Modulus(w)
  {
    if w {
    } else {
      CutFlip(u);
    }
  }

  lemma AllFits(b: bv64)
    ensures Fits(true, b) && Fit(true, b) == b
  {
  }

  lemma CutFlip(u: nat)
    requires u < 0x1_0000_0000_0000_0000
    ensures (0xffff_ffff_ffff_ffff - u) % 0x1_0000_0000 == 0xffff_ffff - u % 0x1_0000_0000
  {
    var m: nat := 0x1_0000_0000;
    DivUnique(0xffff_ffff_ffff_ffff - u, m, 0xffff_ffff - u / m, 0xffff_ffff - u % m);
  }

  /** What a conditional select leaves: one source, or the other as it is, plus one, complemented or negated. */
  lemma {:induction false} ChosenMeans(choice: Choice, w: bool, yes: bool, a: bv64, b: bv64)
    ensures
      Number(Chosen(choice, w, yes, a, b)) ==
      if yes then Unsigned(w, a)
      else
        match choice
        case Sel => Unsigned(w, b)
        case Inc => (Unsigned(w, b) + 1) % Modulus(w)
        case Inv => Modulus(w) - 1 - Unsigned(w, b)
        case Neg => (Modulus(w) - Unsigned(w, b)) % Modulus(w)
  {
    hide Number, Flip, Fit, Plus, Unsigned, Fits;
    FitIs(w, a);
    FitIs(w, b);
    FitIs(w, Plus(b, 1));
    FitIs(w, Flip(b));
    FitIs(w, Plus(Flip(b), 1));
    PlusMeans(w, b, 1);
    PlusMeans(w, Flip(b), 1);
    FlipIs(w, b);
    UnitReads(w);
  }

  lemma {:induction false} UnitReads(w: bool)
    ensures Unsigned(w, 1) == 1
  {
    hide Number;
    OneIs();
  }

  /** s is x with the 16 bits above the mask's n those of imm. */
  predicate Replaced(x: bv66, imm: bv66, s: bv66, m: bv66, n: nat) {
    && Masked(s, m) == Masked(x, m) && Masked(Down(s, n), 0xffff) == Masked(imm, 0xffff)
    && Down(s, n + 16) == Down(x, n + 16)
  }

  lemma MaskWide(s: bv64, x: bv64, m: bv66)
    requires (s as bv66) & m == (x as bv66) & m
    ensures Masked(Widened(s), m) == Masked(Widened(x), m)
  {
  }

  lemma MaskOf(a: bv66, b: bv66, m: bv66)
    requires a & m == b & m
    ensures Masked(a, m) == Masked(b, m)
  {
  }

  lemma ShiftIs(a: bv66, s: bv64)
    requires a == s as bv66
    ensures ByBytes(a, 0) == (s as bv66) >> 0 && ByBytes(a, 2) == (s as bv66) >> 16
    ensures ByBytes(a, 4) == (s as bv66) >> 32 && ByBytes(a, 6) == (s as bv66) >> 48
    ensures ByBytes(a, 8) == (s as bv66) >> 64
  {
  }

  lemma Set0Raw(x: bv64, imm: bv64, s: bv64)
    requires s == (x & 0xffff_ffff_ffff_0000) | (imm & 0xffff)
    ensures (s as bv66) & 0 == (x as bv66) & 0
    ensures ((s as bv66) >> 0) & 0xffff == (imm as bv66) & 0xffff
    ensures (s as bv66) >> 16 == (x as bv66) >> 16
  {
  }

  lemma Shift0(s: bv64, x: bv64, imm: bv64)
    requires ((s as bv66) >> 0) & 0xffff == (imm as bv66) & 0xffff
    requires (s as bv66) >> 16 == (x as bv66) >> 16
    ensures Masked(ByBytes(Widened(s), 0), 0xffff) == Masked(Widened(imm), 0xffff)
    ensures ByBytes(Widened(s), 2) == ByBytes(Widened(x), 2)
  {
    hide ByBytes, Masked;
    assert Widened(s) == s as bv66 && Widened(x) == x as bv66 && Widened(imm) == imm as bv66;
    ShiftIs(Widened(s), s);
    ShiftIs(Widened(x), x);
    MaskOf((s as bv66) >> 0, imm as bv66, 0xffff);
  }

  lemma {:induction false} Set0Field(x: bv64, imm: bv64)
    ensures Replaced(Widened(x), Widened(imm), Widened(Set0(x, imm)), 0, 0)
  {
    hide Down, Widened, Masked, ByBytes;
    var s := Set0(x, imm);
    Set0Raw(x, imm, s);
    MaskWide(s, x, 0);
    Shift0(s, x, imm);
    DownBytes(Widened(s), 0);
    DownBytes(Widened(s), 2);
    DownBytes(Widened(x), 2);
  }

  lemma Set1Raw(x: bv64, imm: bv64, s: bv64)
    requires s == (x & 0xffff_ffff_0000_ffff) | ((imm & 0xffff) << 16)
    ensures (s as bv66) & 0xffff == (x as bv66) & 0xffff
    ensures ((s as bv66) >> 16) & 0xffff == (imm as bv66) & 0xffff
    ensures (s as bv66) >> 32 == (x as bv66) >> 32
  {
  }

  lemma Shift16(s: bv64, x: bv64, imm: bv64)
    requires ((s as bv66) >> 16) & 0xffff == (imm as bv66) & 0xffff
    requires (s as bv66) >> 32 == (x as bv66) >> 32
    ensures Masked(ByBytes(Widened(s), 2), 0xffff) == Masked(Widened(imm), 0xffff)
    ensures ByBytes(Widened(s), 4) == ByBytes(Widened(x), 4)
  {
    hide ByBytes, Masked;
    assert Widened(s) == s as bv66 && Widened(x) == x as bv66 && Widened(imm) == imm as bv66;
    ShiftIs(Widened(s), s);
    ShiftIs(Widened(x), x);
    MaskOf((s as bv66) >> 16, imm as bv66, 0xffff);
  }

  lemma {:induction false} Set1Field(x: bv64, imm: bv64)
    ensures Replaced(Widened(x), Widened(imm), Widened(Set1(x, imm)), 0xffff, 16)
  {
    hide Down, Widened, Masked, ByBytes;
    var s := Set1(x, imm);
    Set1Raw(x, imm, s);
    MaskWide(s, x, 0xffff);
    Shift16(s, x, imm);
    DownBytes(Widened(s), 2);
    DownBytes(Widened(s), 4);
    DownBytes(Widened(x), 4);
  }

  lemma Set2Raw(x: bv64, imm: bv64, s: bv64)
    requires s == (x & 0xffff_0000_ffff_ffff) | ((imm & 0xffff) << 32)
    ensures (s as bv66) & 0xffff_ffff == (x as bv66) & 0xffff_ffff
    ensures ((s as bv66) >> 32) & 0xffff == (imm as bv66) & 0xffff
    ensures (s as bv66) >> 48 == (x as bv66) >> 48
  {
  }

  lemma Shift32(s: bv64, x: bv64, imm: bv64)
    requires ((s as bv66) >> 32) & 0xffff == (imm as bv66) & 0xffff
    requires (s as bv66) >> 48 == (x as bv66) >> 48
    ensures Masked(ByBytes(Widened(s), 4), 0xffff) == Masked(Widened(imm), 0xffff)
    ensures ByBytes(Widened(s), 6) == ByBytes(Widened(x), 6)
  {
    hide ByBytes, Masked;
    assert Widened(s) == s as bv66 && Widened(x) == x as bv66 && Widened(imm) == imm as bv66;
    ShiftIs(Widened(s), s);
    ShiftIs(Widened(x), x);
    MaskOf((s as bv66) >> 32, imm as bv66, 0xffff);
  }

  lemma {:induction false} Set2Field(x: bv64, imm: bv64)
    ensures Replaced(Widened(x), Widened(imm), Widened(Set2(x, imm)), 0xffff_ffff, 32)
  {
    hide Down, Widened, Masked, ByBytes;
    var s := Set2(x, imm);
    Set2Raw(x, imm, s);
    MaskWide(s, x, 0xffff_ffff);
    Shift32(s, x, imm);
    DownBytes(Widened(s), 4);
    DownBytes(Widened(s), 6);
    DownBytes(Widened(x), 6);
  }

  lemma Set3Raw(x: bv64, imm: bv64, s: bv64)
    requires s == (x & 0x0000_ffff_ffff_ffff) | ((imm & 0xffff) << 48)
    ensures (s as bv66) & 0xffff_ffff_ffff == (x as bv66) & 0xffff_ffff_ffff
    ensures ((s as bv66) >> 48) & 0xffff == (imm as bv66) & 0xffff
    ensures (s as bv66) >> 64 == (x as bv66) >> 64
  {
  }

  lemma Shift48(s: bv64, x: bv64, imm: bv64)
    requires ((s as bv66) >> 48) & 0xffff == (imm as bv66) & 0xffff
    requires (s as bv66) >> 64 == (x as bv66) >> 64
    ensures Masked(ByBytes(Widened(s), 6), 0xffff) == Masked(Widened(imm), 0xffff)
    ensures ByBytes(Widened(s), 8) == ByBytes(Widened(x), 8)
  {
    hide ByBytes, Masked;
    assert Widened(s) == s as bv66 && Widened(x) == x as bv66 && Widened(imm) == imm as bv66;
    ShiftIs(Widened(s), s);
    ShiftIs(Widened(x), x);
    MaskOf((s as bv66) >> 48, imm as bv66, 0xffff);
  }

  lemma {:induction false} Set3Field(x: bv64, imm: bv64)
    ensures Replaced(Widened(x), Widened(imm), Widened(Set3(x, imm)), 0xffff_ffff_ffff, 48)
  {
    hide Down, Widened, Masked, ByBytes;
    var s := Set3(x, imm);
    Set3Raw(x, imm, s);
    MaskWide(s, x, 0xffff_ffff_ffff);
    Shift48(s, x, imm);
    DownBytes(Widened(s), 6);
    DownBytes(Widened(s), 8);
    DownBytes(Widened(x), 8);
  }

  lemma {:induction false} InsertReplaces(x: bv64, imm: bv64, hw: nat) returns (m: bv66)
    requires hw < 4
    ensures Ones(m, 16 * hw) && Replaced(Widened(x), Widened(imm), Widened(Insert(x, imm, hw)), m, 16 * hw)
  {
    hide Replaced, Widened, Ones, Set0, Set1, Set2, Set3;
    Ones48();
    Ones32();
    NoOnes();
    if hw == 0 {
      m := 0;
      Set0Field(x, imm);
    } else if hw == 1 {
      m := 0xffff;
      Set1Field(x, imm);
    } else if hw == 2 {
      m := LOW32;
      Set2Field(x, imm);
    } else {
      m := 0xffff_ffff_ffff;
      Set3Field(x, imm);
    }
  }

  /** One 16-bit field is that of the immediate; below and above it the register is as it was. */
  lemma {:induction false} InsertMeans(x: bv64, imm: bv64, hw: nat)
    requires hw < 4
    ensures
      var s, n := Number(Insert(x, imm, hw)), 16 * hw;
      && s % P2(n) == Number(x) % P2(n)
      && s / P2(n) % P2(16) == Number(imm) % P2(16)
      && s / P2(n + 16) == Number(x) / P2(n + 16)
  {
    hide Low, Down, Widened, P2, Insert, Number, Ones, Masked;
    var s, n := Insert(x, imm, hw), 16 * hw;
    var m := InsertReplaces(x, imm, hw);
    SameLow(Widened(s), Widened(x), m, n);
    Ones48();
    SameLow(Down(Widened(s), n), Widened(imm), 0xffff, 16);
    NumberLow(s, n);
    NumberLow(x, n);
    NumberLow(imm, 16);
    NumberLow(s, n + 16);
    NumberLow(x, n + 16);
    DigitsAre(s, n, 16);
  }

  // ---- Sums as the address computations use them ----

  lemma {:induction false} WholeRead(x: bv64)
    ensures Unsigned(true, x) == Number(x) < Modulus(true)
  {
    hide Number, Full, IsWord;
    NumberFull(x);
  }

  lemma {:induction false} AddIsPlus(x: bv64, y: bv64, c: bool)
    ensures Compute(Add, true, x, y, c).value == Plus(x, y)
  {
    hide Compute, Number, Plus, Signed, Unsigned, Modulus;
    AddMeans(true, x, y, c, Add);
    WordPlus(x, y);
    WholeRead(x);
    WholeRead(y);
    NumberInjective(Compute(Add, true, x, y, c).value, Plus(x, y));
  }

  lemma {:induction false} SubIsPlus(x: bv64, y: bv64, z: bv64, c: bool)
    requires Plus(z, y) == 0
    ensures Compute(Sub, true, x, z, c).value == Plus(x, y)
  {
    hide Compute, Number, Plus, Signed, Unsigned;
    SubMeans(true, x, z, c, Sub);
    WordPlus(x, y);
    WordPlus(z, y);
    NumberZero(0);
    WholeRead(x);
    WholeRead(y);
    WholeRead(z);
    Opposite(Number(x), Number(y), Number(z), Modulus(true));
    NumberInjective(Compute(Sub, true, x, z, c).value, Plus(x, y));
  }

  lemma Opposite(x: nat, y: nat, z: nat, m: nat)
    requires y < m && z < m && (z + y) % m == 0
    ensures (x - z) % m == (x + y) % m
  {
    Wrapped(z + y, m);
    if z + y != 0 {
      SameRemainder(x - z, m);
    }
  }
}
