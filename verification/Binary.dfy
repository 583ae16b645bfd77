/**
 Bit vectors as numbers: the value of a word is the sum of its bits' weights, and
 addition, shifts, masks and complements are what they are over the integers.
 */
module Binary {
  import opened Pow2

  // ---- Values ----

  function Half(x: bv66): bv66 {
    x >> 1
  }

  predicate Odd(x: bv66) {
    x & 1 == 1
  }

  function One(b: bool): nat {
    if b then 1 else 0
  }

  /** The number that the k low bits write in binary. */
  function Low(x: bv66, k: nat): nat
    decreases k
  {
    if k == 0 then 0 else One(Odd(x)) + 2 * Low(Half(x), k - 1)
  }

  function Number(x: bv64): nat {
    Low(Widened(x), 64)
  }

  lemma {:induction false} LowBound(x: bv66, k: nat)
    ensures Low(x, k) < P2(k)
    decreases k
  {
    hide Half, Odd;
    if k > 0 {
      LowBound(Half(x), k - 1);
    }
  }

  /** n places to the right. */
  function Down(x: bv66, n: nat): bv66
    decreases n
  {
    if n == 0 then x else Down(Half(x), n - 1)
  }

  function ByEight(x: bv66): bv66 {
    x >> 8
  }

  lemma EightHalves(x: bv66)
    ensures Half(Half(Half(Half(Half(Half(Half(Half(x)))))))) == ByEight(x)
  {
  }

  lemma {:induction false} DownByte(x: bv66, n: nat)
    ensures Down(x, n + 8) == Down(ByEight(x), n)
  {
    hide Half, ByEight;
    var h4 := Half(Half(Half(Half(x))));
    EightHalves(x);
    DownFour(x, n + 4);
    DownFour(h4, n);
  }

  lemma {:induction false} DownFour(x: bv66, n: nat)
    ensures Down(x, n + 4) == Down(Half(Half(Half(Half(x)))), n)
  {
    hide Half;
    assert Down(x, n + 4) == Down(Half(x), n + 3);
    assert Down(Half(x), n + 3) == Down(Half(Half(x)), n + 2);
    assert Down(Half(Half(x)), n + 2) == Down(Half(Half(Half(x))), n + 1);
  }

  /** The digits up to n, and those above. */
  lemma {:induction false} LowSplit(x: bv66, n: nat, k: nat)
    ensures Low(x, n + k) == Low(x, n) + P2(n) * Low(Down(x, n), k)
    decreases n
  {
    hide Half, Odd;
    if n > 0 {
      LowSplit(Half(x), n - 1, k);
      Assoc(2, P2(n - 1), Low(Down(x, n), k));
    }
  }

  /** So dropping digits divides, and keeping them is the remainder. */
  lemma {:induction false} LowParts(x: bv66, n: nat, k: nat)
    ensures Low(Down(x, n), k) == Low(x, n + k) / P2(n)
    ensures Low(x, n) == Low(x, n + k) % P2(n)
  {
    hide Low, Down, P2;
    LowSplit(x, n, k);
    LowBound(x, n);
    DivUnique(Low(x, n + k), P2(n), Low(Down(x, n), k), Low(x, n));
  }

  lemma {:induction false} DownSum(x: bv66, m: nat, n: nat)
    ensures Down(Down(x, m), n) == Down(x, m + n)
    decreases m
  {
    hide Half;
    if m > 0 {
      DownSum(Half(x), m - 1, n);
    }
  }

  lemma {:induction false} ZeroDown(n: nat)
    ensures Down(0, n) == 0
  {
    if n > 0 {
      assert Half(0) == 0;
      ZeroDown(n - 1);
    }
  }

  lemma {:induction false} ZeroLow(n: nat)
    ensures Low(0, n) == 0
  {
    if n > 0 {
      assert Half(0) == 0;
      ZeroLow(n - 1);
    }
  }

  // ---- One number, one word ----

  lemma SameDigits(x: bv66, y: bv66)
    requires Half(x) == Half(y) && Odd(x) == Odd(y)
    ensures x == y
  {
  }

  lemma {:induction false} Injective(x: bv66, y: bv66, k: nat)
    requires Low(x, k) == Low(y, k) && Down(x, k) == Down(y, k)
    ensures x == y
    decreases k
  {
    hide Half, Odd;
    if k > 0 {
      LowBound(Half(x), k - 1);
      Injective(Half(x), Half(y), k - 1);
      SameDigits(x, y);
    }
  }

  // ---- Shifts ----

  function ByBytes(x: bv66, q: nat): bv66 {
    match q
    case 0 => x
    case 1 => x >> 8
    case 2 => x >> 16
    case 3 => x >> 24
    case 4 => x >> 32
    case 5 => x >> 40
    case 6 => x >> 48
    case 7 => x >> 56
    case _ => x >> 64
  }

  function ByBits(x: bv66, r: nat): bv66 {
    match r
    case 0 => x
    case 1 => x >> 1
    case 2 => x >> 2
    case 3 => x >> 3
    case 4 => x >> 4
    case 5 => x >> 5
    case 6 => x >> 6
    case _ => x >> 7
  }

  /** The machine shift. */
  function RightBy(x: bv66, n: nat): bv66 {
    ByBits(ByBytes(x, n / 8), n % 8)
  }

  lemma NextByte(x: bv66, q: nat)
    requires 0 < q <= 8
    ensures ByBytes(x, q) == ByBytes(ByEight(x), q - 1)
  {
    ByteSteps(x);
    assert ByEight(x) == x >> 8;
  }

  lemma ByteSteps(x: bv66)
    ensures (x >> 8) >> 8 == x >> 16 && (x >> 8) >> 16 == x >> 24 && (x >> 8) >> 24 == x >> 32
    ensures (x >> 8) >> 32 == x >> 40 && (x >> 8) >> 40 == x >> 48 && (x >> 8) >> 48 == x >> 56
    ensures (x >> 8) >> 56 == x >> 64
  {
  }

  lemma BitSteps(x: bv66)
    ensures (x >> 1) >> 1 == x >> 2 && (x >> 1) >> 2 == x >> 3 && (x >> 1) >> 3 == x >> 4
    ensures (x >> 1) >> 4 == x >> 5 && (x >> 1) >> 5 == x >> 6 && (x >> 1) >> 6 == x >> 7
  {
  }

  lemma NextBit(x: bv66, r: nat)
    requires 0 < r <= 7
    ensures ByBits(x, r) == ByBits(Half(x), r - 1)
  {
    BitSteps(x);
    assert Half(x) == x >> 1;
  }

  lemma {:induction false} DownBytes(x: bv66, q: nat)
    requires q <= 8
    ensures Down(x, 8 * q) == ByBytes(x, q)
    decreases q
  {
    hide ByEight;
    if q > 0 {
      hide Down, ByBytes;
      NextByte(x, q);
      DownByte(x, 8 * (q - 1));
      DownBytes(ByEight(x), q - 1);
    }
  }

  lemma {:induction false} DownBits(x: bv66, r: nat)
    requires r <= 7
    ensures Down(x, r) == ByBits(x, r)
    decreases r
  {
    hide Half;
    if r > 0 {
      hide ByBits;
      NextBit(x, r);
      DownBits(Half(x), r - 1);
    }
  }

  lemma {:induction false} RightIs(x: bv66, n: nat)
    requires n < 72
    ensures Down(x, n) == RightBy(x, n)
  {
    hide Down, ByBytes, ByBits;
    DownBytes(x, n / 8);
    DownBits(ByBytes(x, n / 8), n % 8);
    DownSum(x, 8 * (n / 8), n % 8);
  }

  lemma {:induction false} DownWord(x: bv66)
    ensures Down(x, 64) == x >> 64
  {
    hide Down;
    RightIs(x, 64);
  }

  // ---- Words ----

  function Widened(x: bv64): bv66 {
    x as bv66
  }

  lemma Narrowed(x: bv64, y: bv64)
    ensures Widened(x) >> 64 == 0
    ensures Widened(x) == Widened(y) ==> x == y
  {
  }

  lemma {:induction false} NumberInjective(x: bv64, y: bv64)
    requires Number(x) == Number(y)
    ensures x == y
  {
    hide Low, Down, Widened;
    DownWord(Widened(x));
    DownWord(Widened(y));
    Narrowed(x, y);
    Narrowed(y, x);
    Injective(Widened(x), Widened(y), 64);
  }

  // ---- Addition ----

  function Succ(x: bv66): bv66 {
    x + 1
  }

  function Summed(x: bv66, y: bv66): bv66 {
    x + y
  }

  /** Small enough that adding does not overflow. */
  predicate Small(x: bv66) {
    x <= 0x1_ffff_ffff_ffff_ffff
  }

  lemma SuccDigits(x: bv66)
    requires Small(x)
    ensures Odd(Succ(x)) == !Odd(x)
    ensures Half(Succ(x)) == if Odd(x) then Succ(Half(x)) else Half(x)
    ensures Small(Half(x)) && Succ(x) != 0
  {
  }

  lemma {:induction false} LowSucc(x: bv66, k: nat)
    requires Small(x)
    ensures
      || Low(Succ(x), k) == Low(x, k) + 1
      || (Low(Succ(x), k) == 0 && Low(x, k) + 1 == P2(k))
    decreases k
  {
    hide Half, Odd, Succ, Small;
    if k > 0 {
      SuccDigits(x);
      if Odd(x) {
        LowSucc(Half(x), k - 1);
      }
    }
  }

  lemma TwoLeft(x: bv66)
    ensures Half(Half(x >> 64)) == 0
  {
  }

  lemma {:induction false} DownAll(x: bv66)
    ensures Down(x, 66) == 0
  {
    hide Half;
    DownWord(x);
    DownSum(x, 64, 2);
    TwoLeft(x);
    assert Down(x >> 64, 2) == Half(Half(x >> 64));
  }

  /** The whole value. */
  function Full(x: bv66): nat {
    Low(x, 66)
  }

  lemma {:induction false} FullZero(x: bv66)
    ensures Full(x) == 0 <==> x == 0
  {
    hide Low, Down;
    ZeroLow(66);
    if Full(x) == 0 {
      DownAll(x);
      DownAll(0);
      Injective(x, 0, 66);
    }
  }

  lemma {:induction false} FullSucc(x: bv66)
    requires Small(x)
    ensures Full(Succ(x)) == Full(x) + 1
  {
    hide Low, Succ, Small;
    LowSucc(x, 66);
    SuccDigits(x);
    FullZero(Succ(x));
  }

  function Pred(x: bv66): bv66 {
    x - 1
  }

  /** A 64-bit word, and one that may be 2^64 as well. */
  predicate IsWord(x: bv66) {
    x <= 0xffff_ffff_ffff_ffff
  }

  predicate IsCarried(x: bv66) {
    x <= 0x1_0000_0000_0000_0000
  }

  lemma Regroup(x: bv66, y: bv66)
    ensures x + y == (x + (y - 1)) + 1 && (y - 1) + 1 == y
  {
  }

  lemma OneMore(x: bv66, y: bv66)
    ensures Summed(x, y) == Succ(Summed(x, Pred(y))) && Succ(Pred(y)) == y
  {
    Regroup(x, y);
    assert Pred(y) == y - 1;
    assert Summed(x, Pred(y)) == x + (y - 1);
  }

  lemma BeforeFits(y: bv66)
    requires IsWord(y) && y != 0
    ensures IsWord(Pred(y)) && Small(Pred(y))
  {
  }

  lemma SumFits(x: bv66, y: bv66)
    requires IsCarried(x) && IsWord(y)
    ensures Small(Summed(x, y))
  {
  }

  lemma NothingMore(x: bv66)
    ensures Summed(x, 0) == x
  {
  }

  lemma {:induction false} FullSum(x: bv66, y: bv66)
    requires IsCarried(x) && IsWord(y)
    ensures Full(Summed(x, y)) == Full(x) + Full(y)
    decreases Full(y)
  {
    hide Full, Summed, Succ, Pred, Small, IsWord, IsCarried;
    FullZero(y);
    if y == 0 {
      NothingMore(x);
    } else {
      BeforeFits(y);
      OneMore(x, y);
      SumFits(x, Pred(y));
      FullSucc(Pred(y));
      FullSucc(Summed(x, Pred(y)));
      FullSum(x, Pred(y));
    }
  }

  // ---- Masks ----

  /** All ones below bit k, and no others. */
  predicate Ones(m: bv66, k: nat)
    decreases k
  {
    if k == 0 then m == 0 else Odd(m) && Ones(Half(m), k - 1)
  }

  function Masked(x: bv66, m: bv66): bv66 {
    x & m
  }

  lemma AndSteps(x: bv66, m: bv66)
    ensures (x & m) >> 1 == (x >> 1) & (m >> 1) && x & 0 == 0
  {
  }

  lemma AndHalf(x: bv66, m: bv66)
    ensures Half(Masked(x, m)) == Masked(Half(x), Half(m)) && Masked(x, 0) == 0
  {
    AndSteps(x, m);
    assert Half(x) == x >> 1 && Half(m) == m >> 1;
    assert Masked(x, m) == x & m;
  }

  lemma AndOdd(x: bv66, m: bv66)
    ensures Odd(Masked(x, m)) == (Odd(x) && Odd(m))
  {
  }

  lemma {:induction false} AndOnes(x: bv66, m: bv66, k: nat, n: nat)
    requires Ones(m, k) && k <= n
    ensures Low(Masked(x, m), n) == Low(x, k)
    decreases k
  {
    hide Half, Odd, Masked;
    AndHalf(x, m);
    AndOdd(x, m);
    if k == 0 {
      ZeroLow(n);
    } else {
      AndOnes(Half(x), Half(m), k - 1, n - 1);
    }
  }

  lemma OnesByte(m: bv66)
    requires m & 0xff == 0xff
    ensures Odd(m) && Odd(Half(m)) && Odd(Half(Half(m))) && Odd(Half(Half(Half(m))))
    ensures
      var h := Half(Half(Half(Half(m))));
      Odd(h) && Odd(Half(h)) && Odd(Half(Half(h))) && Odd(Half(Half(Half(h))))
  {
  }

  lemma {:induction false} OnesFour(m: bv66, k: nat)
    requires Odd(m) && Odd(Half(m)) && Odd(Half(Half(m))) && Odd(Half(Half(Half(m))))
    ensures Ones(m, k + 4) == Ones(Half(Half(Half(Half(m)))), k)
  {
    hide Half, Odd;
    assert Ones(m, k + 4) == Ones(Half(m), k + 3);
    assert Ones(Half(m), k + 3) == Ones(Half(Half(m)), k + 2);
    assert Ones(Half(Half(m)), k + 2) == Ones(Half(Half(Half(m))), k + 1);
  }

  lemma {:induction false} OnesMore(m: bv66, k: nat)
    requires m & 0xff == 0xff
    ensures Ones(m, k + 8) == Ones(ByEight(m), k)
  {
    hide Half, Odd, Ones, ByEight;
    OnesByte(m);
    EightHalves(m);
    OnesFour(m, k + 4);
    OnesFour(Half(Half(Half(Half(m)))), k);
  }

  lemma {:induction false} OnesLow(m: bv66, k: nat)
    requires Ones(m, k)
    ensures Low(m, k) == P2(k) - 1
    decreases k
  {
    hide Half, Odd;
    if k > 0 {
      OnesLow(Half(m), k - 1);
    }
  }

  const LOW32: bv66 := 0xffff_ffff
  const LOW64: bv66 := 0xffff_ffff_ffff_ffff

  lemma Ones24()
    ensures Ones(0xff_ffff, 24)
  {
    hide Ones;
    OnesMore(0xff_ffff, 16);
    OnesMore(0xffff, 8);
    OnesMore(0xff, 0);
    NoOnes();
  }

  lemma NoOnes()
    ensures Ones(0, 0)
  {
  }

  lemma {:induction false} Ones32()
    ensures Ones(LOW32, 32)
  {
    hide Ones;
    Ones24();
    OnesMore(LOW32, 24);
  }

  lemma {:induction false} Ones48()
    ensures Ones(0xffff, 16) && Ones(0xffff_ffff_ffff, 48)
  {
    hide Ones;
    Ones32();
    OnesMore(0xffff, 8);
    OnesMore(0xff, 0);
    NoOnes();
    OnesMore(0xffff_ffff_ffff, 40);
    OnesMore(0xff_ffff_ffff, 32);
  }

  lemma {:induction false} Ones64()
    ensures Ones(LOW64, 64)
  {
    hide Ones;
    Ones32();
    OnesMore(LOW64, 56);
    OnesMore(0xff_ffff_ffff_ffff, 48);
    OnesMore(0xffff_ffff_ffff, 40);
    OnesMore(0xff_ffff_ffff, 32);
  }

  // ---- 64-bit words ----

  lemma {:induction false} NumberFull(x: bv64)
    ensures Number(x) == Full(Widened(x)) && Number(x) < 0x1_0000_0000_0000_0000 && IsWord(Widened(x))
  {
    hide Low, Down, Widened;
    LowSplit(Widened(x), 64, 2);
    DownWord(Widened(x));
    Narrowed(x, x);
    ZeroLow(2);
    LowBound(Widened(x), 64);
    P2Word();
    WidenedFits(x);
  }

  lemma WidenedFits(x: bv64)
    ensures IsWord(Widened(x))
  {
  }

  function LowWord(t: bv66): bv64 {
    (t & LOW64) as bv64
  }

  function LowHalf(t: bv66): bv64 {
    (t & LOW32) as bv64
  }

  /** The bits a sum of words and a sum of half words carry into. */
  predicate CarryWord(t: bv66) {
    (t >> 64) & 1 == 1
  }

  predicate CarryHalf(t: bv66) {
    (t >> 32) & 1 == 1
  }

  lemma LowBits(t: bv66)
    ensures Widened(LowWord(t)) == Masked(t, LOW64) && Widened(LowHalf(t)) == Masked(t, LOW32)
    ensures CarryWord(t) == Odd(ByBytes(t, 8)) && CarryHalf(t) == Odd(ByBytes(t, 4))
  {
  }

  /** Cutting a number to a word or a half is the remainder, and the next bit is the quotient's parity. */
  lemma {:induction false} CutIs(t: bv66)
    ensures Number(LowWord(t)) == Low(t, 64) && Number(LowHalf(t)) == Low(t, 32)
    ensures CarryWord(t) == Odd(Down(t, 64)) && CarryHalf(t) == Odd(Down(t, 32))
  {
    hide Low, Down, Widened, Masked, Odd, ByBytes, LowWord, LowHalf, CarryWord, CarryHalf, Ones;
    LowBits(t);
    Ones32();
    Ones64();
    AndOnes(t, LOW64, 64, 64);
    AndOnes(t, LOW32, 32, 64);
    DownBytes(t, 8);
    DownBytes(t, 4);
  }

  function Inc64(x: bv64): bv64 {
    x + 1
  }

  function Dec64(x: bv64): bv64 {
    x - 1
  }

  function Plus64(x: bv64, y: bv64): bv64 {
    x + y
  }

  lemma IncBits(x: bv64)
    ensures x == 0xffff_ffff_ffff_ffff ==> Inc64(x) == 0 && Widened(x) == LOW64
    ensures x != 0xffff_ffff_ffff_ffff ==> Widened(Inc64(x)) == Succ(Widened(x)) && Small(Widened(x))
  {
  }

  /** The next word, around the end. */
  lemma {:induction false} NumberInc(x: bv64)
    ensures Number(Inc64(x)) == if Number(x) == 0xffff_ffff_ffff_ffff then 0 else Number(x) + 1
  {
    hide Widened, Succ, Low, Full, Inc64, Ones, Small;
    IncBits(x);
    NumberFull(x);
    NumberFull(Inc64(x));
    if x == 0xffff_ffff_ffff_ffff {
      Ones64();
      OnesLow(LOW64, 64);
      P2Word();
      ZeroLow(64);
      assert Widened(Inc64(x)) == 0 by {
        WideZero();
      }
    } else {
      FullSucc(Widened(x));
    }
  }

  lemma WideZero()
    ensures Widened(0) == 0
  {
  }

  lemma PlusRaw(x: bv64, y: bv64)
    ensures Plus64(x, y - 1) == x + y - 1 && Plus64(x, y) == x + y
  {
  }

  lemma IncRaw(x: bv64, y: bv64)
    ensures Inc64(x + y - 1) == x + y
  {
  }

  lemma DecRaw(y: bv64)
    ensures Dec64(y) == y - 1
  {
  }

  lemma OneMore64(x: bv64, y: bv64)
    ensures Plus64(x, y) == Inc64(Plus64(x, Dec64(y)))
  {
    hide Plus64, Inc64, Dec64;
    PlusRaw(x, y);
    IncRaw(x, y);
    DecRaw(y);
  }

  lemma Unchanged(x: bv64)
    ensures Inc64(Dec64(x)) == x && Plus64(x, 0) == x
  {
  }

  lemma {:induction false} NumberZero(x: bv64)
    ensures Number(x) == 0 <==> x == 0
  {
    hide Low, Widened;
    WideZero();
    ZeroLow(64);
    if Number(x) == 0 {
      NumberInjective(x, 0);
    }
  }

  /** Addition of words is addition modulo 2^64. */
  lemma {:induction false} NumberPlus(x: bv64, y: bv64)
    ensures Number(Plus64(x, y)) == (Number(x) + Number(y)) % 0x1_0000_0000_0000_0000
    decreases Number(y)
  {
    hide Number, Plus64, Inc64, Dec64, Full, Widened, IsWord;
    OneMore64(x, y);
    Unchanged(x);
    Unchanged(y);
    NumberZero(y);
    NumberFull(x);
    if y != 0 {
      NumberInc(Dec64(y));
      NumberInc(Plus64(x, Dec64(y)));
      NumberPlus(x, Dec64(y));
      Around(Number(x) + Number(Dec64(y)));
    }
  }

  lemma Around(u: nat)
    ensures
      (u + 1) % 0x1_0000_0000_0000_0000 ==
      if u % 0x1_0000_0000_0000_0000 == 0xffff_ffff_ffff_ffff then 0 else u % 0x1_0000_0000_0000_0000 + 1
  {
    var m: nat := 0x1_0000_0000_0000_0000;
    var q, r := u / m, u % m;
    if r == m - 1 {
      DivUnique(u + 1, m, q + 1, 0);
    } else {
      DivUnique(u + 1, m, q, r + 1);
    }
  }

  /** Words that agree under a mask of ones have the same low digits. */
  lemma {:induction false} SameLow(a: bv66, b: bv66, m: bv66, k: nat)
    requires Ones(m, k) && Masked(a, m) == Masked(b, m)
    ensures Low(a, k) == Low(b, k)
  {
    hide Low, Ones, Masked;
    AndOnes(a, m, k, k);
    AndOnes(b, m, k, k);
  }

  lemma OddLow(x: bv66, k: nat)
    requires k > 0
    ensures Odd(x) <==> Low(x, k) % 2 == 1
  {
    hide Odd, Half;
  }

  lemma {:induction false} NumberLow(x: bv64, k: nat)
    requires k <= 64
    ensures Low(Widened(x), k) == Number(x) % P2(k)
    ensures Low(Down(Widened(x), k), 64 - k) == Number(x) / P2(k)
  {
    hide Low, Down, P2, Widened;
    LowParts(Widened(x), k, 64 - k);
  }

  /** Digit n of a word's number. */
  lemma {:induction false} DigitIs(x: bv64, n: nat)
    requires n < 64
    ensures Odd(Down(Widened(x), n)) <==> Number(x) / P2(n) % 2 == 1
  {
    hide Odd, Down, Widened, Low, P2, Number;
    NumberLow(x, n);
    OddLow(Down(Widened(x), n), 64 - n);
  }

  /** k digits from the n-th on. */
  lemma {:induction false} DigitsAre(x: bv64, n: nat, k: nat)
    requires n + k <= 64
    ensures Low(Down(Widened(x), n), k) == Number(x) / P2(n) % P2(k)
  {
    hide Down, Widened, Low, P2, Number;
    NumberLow(x, n);
    LowParts(Down(Widened(x), n), k, 64 - n - k);
  }

  /** The word a number writes. */
  function ToWord(n: nat): bv64 {
    if n == 0 then 0 else Inc64(ToWord(n - 1))
  }

  lemma {:induction false} ToWordIs(n: nat)
    requires n < 0x1_0000_0000_0000_0000
    ensures Number(ToWord(n)) == n
  {
    hide Number, Inc64;
    if n == 0 {
      NumberZero(0);
    } else {
      ToWordIs(n - 1);
      NumberInc(ToWord(n - 1));
    }
  }

  lemma {:induction false} WordOf(x: bv64)
    ensures ToWord(Number(x)) == x
  {
    hide Number, ToWord, Full, IsWord;
    NumberFull(x);
    ToWordIs(Number(x));
    NumberInjective(ToWord(Number(x)), x);
  }

  // ---- Shifts and masks of words ----

  /** The shifts and the masks of low bits that are used. */
  predicate IsShift(n: nat) {
    n == 6 || n == 8 || n == 12 || n == 16 || n == 21 || n == 25 || n == 30 || n == 32 || n == 39
  }

  function Right64(x: bv64, n: nat): bv64
    requires IsShift(n)
  {
    if n == 6 then x >> 6
    else if n == 8 then x >> 8
    else if n == 12 then x >> 12
    else if n == 16 then x >> 16
    else if n == 21 then x >> 21
    else if n == 25 then x >> 25
    else if n == 30 then x >> 30
    else if n == 32 then x >> 32
    else x >> 39
  }

  predicate IsKept(k: nat) {
    || k == 2 || k == 4 || k == 6 || k == 8 || k == 9 || k == 12 || k == 16 || k == 18 || k == 27 || k == 32
    || k == 36 || k == 44 || k == 56
  }

  function Kept(k: nat): bv66
    requires IsKept(k)
  {
    if k == 2 then 0x3
    else if k == 4 then 0xf
    else if k == 6 then 0x3f
    else if k == 8 then 0xff
    else if k == 9 then 0x1ff
    else if k == 12 then 0xfff
    else if k == 16 then 0xffff
    else if k == 18 then 0x3_ffff
    else if k == 27 then 0x7ff_ffff
    else if k == 32 then 0xffff_ffff
    else if k == 36 then 0xf_ffff_ffff
    else if k == 44 then 0xfff_ffff_ffff
    else 0xff_ffff_ffff_ffff
  }

  function Keep(x: bv64, k: nat): bv64
    requires IsKept(k)
  {
    if k == 2 then x & 0x3
    else if k == 4 then x & 0xf
    else if k == 6 then x & 0x3f
    else if k == 8 then x & 0xff
    else if k == 9 then x & 0x1ff
    else if k == 12 then x & 0xfff
    else if k == 16 then x & 0xffff
    else if k == 18 then x & 0x3_ffff
    else if k == 27 then x & 0x7ff_ffff
    else if k == 32 then x & 0xffff_ffff
    else if k == 36 then x & 0xf_ffff_ffff
    else if k == 44 then x & 0xfff_ffff_ffff
    else x & 0xff_ffff_ffff_ffff
  }

  lemma Right6(x: bv64)
    ensures Widened(x >> 6) == RightBy(Widened(x), 6)
  {
  }

  lemma Right8(x: bv64)
    ensures Widened(x >> 8) == RightBy(Widened(x), 8)
  {
  }

  lemma Right12(x: bv64)
    ensures Widened(x >> 12) == RightBy(Widened(x), 12)
  {
  }

  lemma Right16(x: bv64)
    ensures Widened(x >> 16) == RightBy(Widened(x), 16)
  {
  }

  lemma Right21(x: bv64)
    ensures Widened(x >> 21) == RightBy(Widened(x), 21)
  {
  }

  lemma Right25(x: bv64)
    ensures Widened(x >> 25) == RightBy(Widened(x), 25)
  {
  }

  lemma Right30(x: bv64)
    ensures Widened(x >> 30) == RightBy(Widened(x), 30)
  {
  }

  lemma Right32(x: bv64)
    ensures Widened(x >> 32) == RightBy(Widened(x), 32)
  {
  }

  lemma Right39(x: bv64)
    ensures Widened(x >> 39) == RightBy(Widened(x), 39)
  {
  }

  lemma Keep2(x: bv64)
    ensures Widened(x & 0x3) == Masked(Widened(x), 0x3)
  {
  }

  lemma Keep4(x: bv64)
    ensures Widened(x & 0xf) == Masked(Widened(x), 0xf)
  {
  }

  lemma Keep6(x: bv64)
    ensures Widened(x & 0x3f) == Masked(Widened(x), 0x3f)
  {
  }

  lemma Keep8(x: bv64)
    ensures Widened(x & 0xff) == Masked(Widened(x), 0xff)
  {
  }

  lemma Keep9(x: bv64)
    ensures Widened(x & 0x1ff) == Masked(Widened(x), 0x1ff)
  {
  }

  lemma Keep12(x: bv64)
    ensures Widened(x & 0xfff) == Masked(Widened(x), 0xfff)
  {
  }

  lemma Keep16(x: bv64)
    ensures Widened(x & 0xffff) == Masked(Widened(x), 0xffff)
  {
  }

  lemma Keep18(x: bv64)
    ensures Widened(x & 0x3_ffff) == Masked(Widened(x), 0x3_ffff)
  {
  }

  lemma Keep27(x: bv64)
    ensures Widened(x & 0x7ff_ffff) == Masked(Widened(x), 0x7ff_ffff)
  {
  }

  lemma Keep32(x: bv64)
    ensures Widened(x & 0xffff_ffff) == Masked(Widened(x), 0xffff_ffff)
  {
  }

  lemma Keep36(x: bv64)
    ensures Widened(x & 0xf_ffff_ffff) == Masked(Widened(x), 0xf_ffff_ffff)
  {
  }

  lemma Keep44(x: bv64)
    ensures Widened(x & 0xfff_ffff_ffff) == Masked(Widened(x), 0xfff_ffff_ffff)
  {
  }

  lemma Keep56(x: bv64)
    ensures Widened(x & 0xff_ffff_ffff_ffff) == Masked(Widened(x), 0xff_ffff_ffff_ffff)
  {
  }

  /** A shift right is a division. */
  lemma {:induction false} RightNumber(x: bv64, n: nat)
    requires IsShift(n)
    ensures Number(Right64(x, n)) == Number(x) / P2(n)
  {
    hide Widened, RightBy, Low, Down, P2, Full, IsWord;
    RightBits(x, n);
    RightIs(Widened(x), n);
    NumberLow(x, n);
    LowSplit(Down(Widened(x), n), 64 - n, n);
    DownSum(Widened(x), n, 64 - n);
    DownWord(Widened(x));
    Narrowed(x, x);
    ZeroLow(n);
  }

  lemma {:induction false} RightBits(x: bv64, n: nat)
    requires IsShift(n)
    ensures Widened(Right64(x, n)) == RightBy(Widened(x), n)
  {
    hide Widened, RightBy;
    if n == 6 {
      Right6(x);
    } else if n == 8 {
      Right8(x);
    } else if n == 12 {
      Right12(x);
    } else if n == 16 {
      Right16(x);
    } else if n == 21 {
      Right21(x);
    } else if n == 25 {
      Right25(x);
    } else if n == 30 {
      Right30(x);
    } else if n == 32 {
      Right32(x);
    } else {
      Right39(x);
    }
  }

  /** Low bits are a remainder. */
  lemma {:induction false} KeepNumber(x: bv64, k: nat)
    requires IsKept(k)
    ensures Number(Keep(x, k)) == Number(x) % P2(k)
  {
    hide Widened, Masked, Low, P2, Keep, Kept, Ones;
    KeepBits(x, k);
    KeptOnes(k);
    AndOnes(Widened(x), Kept(k), k, 64);
    NumberLow(x, k);
  }

  lemma {:induction false} KeepBits(x: bv64, k: nat)
    requires IsKept(k)
    ensures Widened(Keep(x, k)) == Masked(Widened(x), Kept(k))
  {
    hide Widened, Masked;
    if k == 2 {
      Keep2(x);
    } else if k == 4 {
      Keep4(x);
    } else if k == 6 {
      Keep6(x);
    } else if k == 8 {
      Keep8(x);
    } else if k == 9 {
      Keep9(x);
    } else if k == 12 {
      Keep12(x);
    } else if k == 16 {
      Keep16(x);
    } else if k == 18 {
      Keep18(x);
    } else if k == 27 {
      Keep27(x);
    } else if k == 32 {
      Keep32(x);
    } else if k == 36 {
      Keep36(x);
    } else if k == 44 {
      Keep44(x);
    } else {
      Keep56(x);
    }
  }

  lemma SmallOnes()
    ensures Ones(1, 1) && Ones(3, 2) && Ones(7, 3) && Ones(0xf, 4)
  {
  }

  lemma {:induction false} KeptOnes(k: nat)
    requires IsKept(k)
    ensures Ones(Kept(k), k)
  {
    hide Ones;
    SmallOnes();
    if k == 6 {
      Ones6();
    } else if k == 8 {
      OnesMore(0xff, 0);
      NoOnes();
    } else if k == 16 {
      Ones48();
    } else if k == 32 {
      Ones32();
    } else if k == 9 {
      OnesMore(0x1ff, 1);
    } else if k == 12 {
      OnesMore(0xfff, 4);
    } else if k == 18 {
      OnesMore(0x3_ffff, 10);
      OnesMore(0x3ff, 2);
    } else if k == 27 {
      OnesMore(0x7ff_ffff, 19);
      OnesMore(0x7_ffff, 11);
      OnesMore(0x7ff, 3);
    } else if k == 36 {
      OnesMore(0xf_ffff_ffff, 28);
      OnesMore(0xfff_ffff, 20);
      OnesMore(0xf_ffff, 12);
      OnesMore(0xfff, 4);
    } else if k == 44 {
      OnesMore(0xfff_ffff_ffff, 36);
      KeptOnes(36);
    } else if k == 56 {
      Ones48();
      OnesMore(0xff_ffff_ffff_ffff, 48);
    }
  }

  lemma Ones6()
    ensures Ones(0x3f, 6)
  {
    assert Ones(7, 3) by {
      SmallOnes();
    }
  }

  function Flip64(x: bv64): bv64 {
    !x
  }

  lemma FlipRaw(y: bv64)
    ensures ((!y) as bv66) + (y as bv66) == 0xffff_ffff_ffff_ffff
  {
  }

  lemma FlipBits(y: bv64)
    ensures Summed(Widened(Flip64(y)), Widened(y)) == LOW64
  {
    FlipRaw(y);
    assert Widened(y) == y as bv66;
    assert Widened(Flip64(y)) == (!y) as bv66;
  }

  lemma WordCarried(x: bv66)
    requires IsWord(x)
    ensures IsCarried(x)
  {
  }

  /** The complement of a word. */
  lemma {:induction false} NumberFlip(y: bv64)
    ensures Number(Flip64(y)) == 0xffff_ffff_ffff_ffff - Number(y)
  {
    hide Widened, Low, Summed, Ones, Full, P2, Flip64, IsWord, IsCarried;
    FlipBits(y);
    NumberFull(Flip64(y));
    NumberFull(y);
    WordCarried(Widened(Flip64(y)));
    FullSum(Widened(Flip64(y)), Widened(y));
    FullOnes();
  }

  lemma {:induction false} FullOnes()
    ensures Full(LOW64) == 0xffff_ffff_ffff_ffff
  {
    hide Low, Ones, P2, Down;
    P2Word();
    Ones64();
    OnesLow(LOW64, 64);
    LowSplit(LOW64, 64, 2);
    DownWord(LOW64);
    ZeroLow(2);
    NoneLeft();
  }

  lemma NoneLeft()
    ensures LOW64 >> 64 == 0
  {
  }

  lemma {:induction false} OnesBit(m: bv66, k: nat, i: nat)
    requires Ones(m, k)
    ensures Odd(Down(m, i)) <==> i < k
    decreases i
  {
    hide Half, Odd;
    if k == 0 {
      ZeroDown(i);
      assert !Odd(0) by {
        ZeroEven();
      }
    } else if i > 0 {
      OnesBit(Half(m), k - 1, i - 1);
    }
  }

  lemma ZeroEven()
    ensures !Odd(0)
  {
  }

  /** The digits of a masked word. */
  lemma {:induction false} MaskedDigit(x: bv66, m: bv66, i: nat)
    ensures Odd(Down(Masked(x, m), i)) == (Odd(Down(x, i)) && Odd(Down(m, i)))
    decreases i
  {
    hide Half, Odd, Masked;
    AndHalf(x, m);
    AndOdd(x, m);
    if i > 0 {
      MaskedDigit(Half(x), Half(m), i - 1);
    }
  }

  // ---- Order ----

  predicate AtMost(x: bv66, y: bv66) {
    x <= y
  }

  lemma HalfOrder(x: bv66, y: bv66)
    requires AtMost(x, y)
    ensures AtMost(Half(x), Half(y))
  {
  }

  lemma LastOrder(x: bv66, y: bv66)
    requires Half(x) == Half(y) && Odd(x) && !Odd(y)
    ensures !AtMost(x, y)
  {
  }

  lemma {:induction false} LowOrder(x: bv66, y: bv66, k: nat)
    requires AtMost(x, y) && Down(x, k) == 0 && Down(y, k) == 0
    ensures Low(x, k) <= Low(y, k)
    decreases k
  {
    hide Half, Odd, AtMost;
    if k > 0 {
      HalfOrder(x, y);
      LowOrder(Half(x), Half(y), k - 1);
      if Low(Half(x), k - 1) == Low(Half(y), k - 1) {
        Injective(Half(x), Half(y), k - 1);
        if Odd(x) && !Odd(y) {
          LastOrder(x, y);
        }
      }
    }
  }

  predicate NoMore(x: bv64, y: bv64) {
    x <= y
  }

  lemma WideOrder(x: bv64, y: bv64)
    requires NoMore(x, y)
    ensures AtMost(Widened(x), Widened(y))
  {
  }

  lemma {:induction false} WideDown(x: bv64)
    ensures Down(Widened(x), 64) == 0
  {
    hide Widened, Down;
    DownWord(Widened(x));
    Narrowed(x, x);
  }

  lemma {:induction false} OrderUp(x: bv64, y: bv64)
    requires NoMore(x, y)
    ensures Number(x) <= Number(y)
  {
    hide Widened, Low, Down, NoMore, AtMost;
    WideOrder(x, y);
    WideDown(x);
    WideDown(y);
    LowOrder(Widened(x), Widened(y), 64);
  }

  lemma EitherWay(x: bv64, y: bv64)
    ensures NoMore(x, y) || NoMore(y, x)
    ensures x == y ==> NoMore(x, y)
  {
  }

  /** Words are ordered as their numbers. */
  lemma {:induction false} NumberOrder(x: bv64, y: bv64)
    ensures x <= y <==> Number(x) <= Number(y)
  {
    hide Number;
    assert NoMore(x, y) == (x <= y);
    hide NoMore;
    EitherWay(x, y);
    if NoMore(x, y) {
      OrderUp(x, y);
    } else {
      OrderUp(y, x);
      if Number(x) == Number(y) {
        NumberInjective(x, y);
      }
    }
  }
}
