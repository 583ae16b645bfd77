/**
 What a load or store of compiled code means in numbers: bytes in little-endian
 order at the sum of base and offset, and the extension of what was loaded.
 */
module AccessMeaning {
  import opened Pow2
  import opened Binary
  import opened Arithmetic
  import opened Words
  import Ir
  import M = GuestMemory
  import O = MemoryOps
  import Probe
  import T = Tlb
  import TableWalk

  // ---- Bytes ----

  function Num8(x: bv8): nat {
    Number(x as bv64)
  }

  function Num16(x: bv16): nat {
    Number(x as bv64)
  }

  function Num32(x: bv32): nat {
    Number(x as bv64)
  }

  lemma HalfLow(x: bv8, y: bv8)
    ensures Keep(M.Half(x, y) as bv64, 8) == x as bv64
  {
  }

  lemma HalfHigh(x: bv8, y: bv8)
    ensures Right64(M.Half(x, y) as bv64, 8) == y as bv64
  {
  }

  lemma WordLow(x: bv16, y: bv16)
    ensures Keep(M.Word(x, y) as bv64, 16) == x as bv64
  {
  }

  lemma WordHigh(x: bv16, y: bv16)
    ensures Right64(M.Word(x, y) as bv64, 16) == y as bv64
  {
  }

  lemma DoubleLow(x: bv32, y: bv32)
    ensures Keep(M.Doubleword(x, y), 32) == x as bv64
  {
  }

  lemma DoubleHigh(x: bv32, y: bv32)
    ensures Right64(M.Doubleword(x, y), 32) == y as bv64
  {
  }

  /** A word is its low digits and, above them, the rest. */
  lemma {:induction false} TwoParts(v: bv64, n: nat)
    requires IsShift(n) && IsKept(n)
    ensures Number(v) == Number(Keep(v, n)) + P2(n) * Number(Right64(v, n))
  {
    hide Keep, Right64, Number, P2;
    KeepNumber(v, n);
    RightNumber(v, n);
    DivMod(Number(v), P2(n));
  }

  lemma {:induction false} HalfIs(x: bv8, y: bv8)
    ensures Num16(M.Half(x, y)) == Num8(x) + 256 * Num8(y)
  {
    hide Keep, Right64, Number, M.Half;
    P2Small();
    hide P2;
    HalfLow(x, y);
    HalfHigh(x, y);
    TwoParts(M.Half(x, y) as bv64, 8);
  }

  lemma {:induction false} WordIs(x: bv16, y: bv16)
    ensures Num32(M.Word(x, y)) == Num16(x) + 65536 * Num16(y)
  {
    hide Keep, Right64, Number, M.Word, P2;
    P2Sixteen();
    WordLow(x, y);
    WordHigh(x, y);
    TwoParts(M.Word(x, y) as bv64, 16);
  }

  lemma {:induction false} DoubleIs(x: bv32, y: bv32)
    ensures Number(M.Doubleword(x, y)) == Num32(x) + 0x1_0000_0000 * Num32(y)
  {
    hide Keep, Right64, Number, M.Doubleword, P2;
    P2Word();
    DoubleLow(x, y);
    DoubleHigh(x, y);
    TwoParts(M.Doubleword(x, y), 32);
  }

  lemma P2Sixteen()
    ensures P2(8) == 256 && P2(16) == 65536
  {
    P2Small();
    hide P2;
    P2Add(8, 8);
  }

  // ---- Loads ----

  /** The number n bytes from an address write, lowest first; addresses go around at 2^64. */
  function Little(ram: bv64 -> bv8, pa: nat, n: nat): nat
    decreases n
  {
    if n == 0 then 0 else Num8(ram(ToWord(pa % W))) + 256 * Little(ram, pa + 1, n - 1)
  }

  lemma {:induction false} LittleAround(ram: bv64 -> bv8, pa: nat, n: nat)
    ensures Little(ram, pa % W, n) == Little(ram, pa, n)
    decreases n
  {
    hide Num8, ToWord;
    if n > 0 {
      Remainders(pa, 1);
      assert pa % W % W == pa % W;
      LittleAround(ram, pa % W + 1, n - 1);
      LittleAround(ram, pa + 1, n - 1);
    }
  }

  lemma Remainders(pa: nat, k: nat)
    ensures (pa % W + k) % W == (pa + k) % W
  {
  }

  lemma {:induction false} LittleSplit(ram: bv64 -> bv8, pa: nat, a: nat, b: nat)
    ensures Little(ram, pa, a + b) == Little(ram, pa, a) + P2(8 * a) * Little(ram, pa + a, b)
    decreases a
  {
    hide Num8, ToWord;
    if a > 0 {
      LittleSplit(ram, pa + 1, a - 1, b);
      P2Sixteen();
      hide P2;
      P2Add(8, 8 * (a - 1));
      Assoc(256, P2(8 * (a - 1)), Little(ram, pa + a, b));
    } else {
      P2Zero(0);
    }
  }

  lemma SmallWords()
    ensures Inc64(0) == 1 && Inc64(1) == 2 && Inc64(2) == 3 && Inc64(3) == 4
  {
  }

  lemma {:induction false} SmallNumbers()
    ensures Number(1) == 1 && Number(2) == 2 && Number(4) == 4
  {
    hide Number, Inc64;
    SmallWords();
    NumberZero(0);
    NumberInc(0);
    NumberInc(1);
    NumberInc(2);
    NumberInc(3);
  }

  lemma PlusIs(a: bv64, b: bv64)
    ensures a + b == Plus64(a, b)
  {
  }

  /** The address some bytes further on. */
  lemma {:induction false} Onward(pa: bv64, k: bv64)
    ensures Number(pa + k) == (Number(pa) + Number(k)) % W && ToWord((Number(pa) + Number(k)) % W) == pa + k
  {
    hide Number, Plus64, ToWord;
    PlusIs(pa, k);
    NumberPlus(pa, k);
    WordOf(pa + k);
  }

  lemma {:induction false} Load2Is(ram: bv64 -> bv8, pa: bv64)
    ensures Num16(M.Load2(ram, pa)) == Little(ram, Number(pa), 2)
  {
    hide Number, M.Half, ToWord, Num8, Num16;
    HalfIs(ram(pa), ram(pa + 1));
    SmallNumbers();
    Onward(pa, 1);
    WordOf(pa);
    Below(pa);
    assert Little(ram, Number(pa), 2) == Num8(ram(ToWord(Number(pa) % W))) + 256 * Little(ram, Number(pa) + 1, 1);
    assert Little(ram, Number(pa) + 1, 1) == Num8(ram(ToWord((Number(pa) + 1) % W)));
  }

  lemma {:induction false} Below(pa: bv64)
    ensures Number(pa) < W && Number(pa) % W == Number(pa)
  {
    hide Number, Full, IsWord;
    NumberFull(pa);
  }

  lemma {:induction false} Load4Is(ram: bv64 -> bv8, pa: bv64)
    ensures Num32(M.Load4(ram, pa)) == Little(ram, Number(pa), 4)
  {
    hide Number, M.Word, ToWord, Num8, Num16, Num32, M.Load2, Little, P2;
    WordIs(M.Load2(ram, pa), M.Load2(ram, pa + 2));
    Load2Is(ram, pa);
    Load2Is(ram, pa + 2);
    SmallNumbers();
    Onward(pa, 2);
    LittleAround(ram, Number(pa) + 2, 2);
    P2Sixteen();
    LittleSplit(ram, Number(pa), 2, 2);
  }

  lemma {:induction false} Load8Is(ram: bv64 -> bv8, pa: bv64)
    ensures Number(M.Load8(ram, pa)) == Little(ram, Number(pa), 8)
  {
    hide Number, M.Doubleword, ToWord, Num8, Num32, M.Load4, Little, P2;
    DoubleIs(M.Load4(ram, pa), M.Load4(ram, pa + 4));
    Load4Is(ram, pa);
    Load4Is(ram, pa + 4);
    SmallNumbers();
    Onward(pa, 4);
    LittleAround(ram, Number(pa) + 4, 4);
    P2Word();
    LittleSplit(ram, Number(pa), 4, 4);
  }

  /** Bytes of an access. */
  function Size(szl: nat): nat {
    if szl == 0 then 1 else if szl == 1 then 2 else if szl == 2 then 4 else 8
  }

  /** A load is the little-endian number of its bytes. */
  lemma {:induction false} LoadIs(ram: bv64 -> bv8, pa: bv64, szl: nat)
    ensures Number(M.Load(ram, pa, szl)) == Little(ram, Number(pa), Size(szl))
  {
    hide Number, M.Load2, M.Load4, M.Load8, ToWord;
    WordOf(pa);
    Below(pa);
    if szl == 0 {
      assert Little(ram, Number(pa), 1) == Num8(ram(pa));
    } else if szl == 1 {
      Load2Is(ram, pa);
    } else if szl == 2 {
      Load4Is(ram, pa);
    } else {
      Load8Is(ram, pa);
    }
  }

  // ---- Stores ----

  lemma Byte0(v: bv64)
    ensures Widened(M.Byte(v, 0) as bv64) == Masked(ByBytes(Widened(v), 0), 0xff)
  {
  }

  lemma Byte1(v: bv64)
    ensures Widened(M.Byte(v, 1) as bv64) == Masked(ByBytes(Widened(v), 1), 0xff)
  {
  }

  lemma Byte2(v: bv64)
    ensures Widened(M.Byte(v, 2) as bv64) == Masked(ByBytes(Widened(v), 2), 0xff)
  {
  }

  lemma Byte3(v: bv64)
    ensures Widened(M.Byte(v, 3) as bv64) == Masked(ByBytes(Widened(v), 3), 0xff)
  {
  }

  lemma Byte4(v: bv64)
    ensures Widened(M.Byte(v, 4) as bv64) == Masked(ByBytes(Widened(v), 4), 0xff)
  {
  }

  lemma Byte5(v: bv64)
    ensures Widened(M.Byte(v, 5) as bv64) == Masked(ByBytes(Widened(v), 5), 0xff)
  {
  }

  lemma Byte6(v: bv64)
    ensures Widened(M.Byte(v, 6) as bv64) == Masked(ByBytes(Widened(v), 6), 0xff)
  {
  }

  lemma Byte7(v: bv64)
    ensures Widened(M.Byte(v, 7) as bv64) == Masked(ByBytes(Widened(v), 7), 0xff)
  {
  }

  /** The byte stored at an offset. */
  lemma {:induction false} ByteIs(v: bv64, k: bv64, n: nat)
    requires n < 8 && k == Small(n)
    ensures Num8(M.Byte(v, k)) == Number(v) / P2(8 * n) % 256
  {
    hide M.Byte, Widened, Masked, ByBytes, Low, Down, P2, Ones;
    ByteBits(v, k, n);
    DownBytes(Widened(v), n);
    KeptOnes(8);
    AndOnes(Down(Widened(v), 8 * n), 0xff, 8, 64);
    DigitsAre(v, 8 * n, 8);
    P2Sixteen();
  }

  function Small(n: nat): bv64 {
    if n == 0 then 0 else if n == 1 then 1 else if n == 2 then 2 else if n == 3 then 3 else if n == 4 then 4
    else if n == 5 then 5 else if n == 6 then 6 else 7
  }

  lemma {:induction false} ByteBits(v: bv64, k: bv64, n: nat)
    requires n < 8 && k == Small(n)
    ensures Widened(M.Byte(v, k) as bv64) == Masked(ByBytes(Widened(v), n), 0xff)
  {
    hide M.Byte, Widened, Masked, ByBytes;
    if n == 0 {
      Byte0(v);
    } else if n == 1 {
      Byte1(v);
    } else if n == 2 {
      Byte2(v);
    } else if n == 3 {
      Byte3(v);
    } else if n == 4 {
      Byte4(v);
    } else if n == 5 {
      Byte5(v);
    } else if n == 6 {
      Byte6(v);
    } else {
      Byte7(v);
    }
  }

  lemma SmallSteps()
    ensures Inc64(4) == 5 && Inc64(5) == 6 && Inc64(6) == 7
  {
  }

  lemma {:induction false} SmallIs(n: nat)
    requires n < 8
    ensures Number(Small(n)) == n
  {
    hide Number, Inc64;
    SmallWords();
    SmallSteps();
    NumberZero(0);
    NumberInc(0);
    NumberInc(1);
    NumberInc(2);
    NumberInc(3);
    NumberInc(4);
    NumberInc(5);
    NumberInc(6);
  }

  lemma UpTo(o: bv64)
    requires o <= 7
    ensures o == 0 || o == 1 || o == 2 || o == 3 || o == 4 || o == 5 || o == 6 || o == 7
  {
  }

  lemma {:induction false} SmallOf(o: bv64)
    ensures o <= 7 <==> Number(o) < 8
    ensures Number(o) < 8 ==> o == Small(Number(o))
  {
    hide Number;
    if o <= 7 {
      UpTo(o);
      SmallIs(0);
      SmallIs(1);
      SmallIs(2);
      SmallIs(3);
      SmallIs(4);
      SmallIs(5);
      SmallIs(6);
      SmallIs(7);
    }
    if Number(o) < 8 {
      SmallIs(Number(o));
      NumberInjective(o, Small(Number(o)));
    }
  }

  lemma {:induction false} OffsetInside(o: bv64, szl: nat)
    ensures o <= M.Extra(szl) <==> Number(o) < Size(szl)
  {
    hide Number;
    SmallOf(o);
    if Number(o) < 8 {
      SmallBelow(Number(o), szl);
    }
  }

  lemma SmallBelow(n: nat, szl: nat)
    requires n < 8
    ensures Small(n) <= M.Extra(szl) <==> n < Size(szl)
  {
  }

  lemma BackRaw(a: bv64, b: bv64)
    ensures Plus64(a - b, b) == a
  {
  }

  lemma MinusRaw(a: bv64, b: bv64)
    ensures M.Minus(a, b) == a - b
  {
  }

  lemma Back(a: bv64, b: bv64)
    ensures Plus64(M.Minus(a, b), b) == a
  {
    hide Plus64, M.Minus;
    BackRaw(a, b);
    MinusRaw(a, b);
  }

  lemma {:induction false} MinusIs(a: bv64, b: bv64)
    ensures Number(M.Minus(a, b)) == (Number(a) - Number(b)) % W
  {
    hide Number, M.Minus, Plus64;
    var d := M.Minus(a, b);
    Back(a, b);
    NumberPlus(d, b);
    Below(d);
    Below(b);
    Undone(Number(d), Number(b));
  }

  lemma Undone(d: nat, b: nat)
    requires d < W && b < W
    ensures ((d + b) % W - b) % W == d
  {
  }

  /** A store puts the bytes of the value, lowest first, at its address and after, and touches no other. */
  lemma {:induction false} StoreIs(ram: bv64 -> bv8, pa: bv64, szl: nat, v: bv64, a: bv64)
    ensures
      var off := (Number(a) - Number(pa)) % W;
      Num8(M.Stored(ram, pa, szl, v)(a)) == if off < Size(szl) then Number(v) / P2(8 * off) % 256 else Num8(ram(a))
  {
    hide Number, M.Minus, M.Byte, M.Extra, M.Stored, P2, Num8, Small;
    var o := M.Minus(a, pa);
    MinusIs(a, pa);
    OffsetInside(o, szl);
    SmallOf(o);
    M.StoredAt(ram, pa, szl, v, a, o);
    if Number(o) < Size(szl) {
      ByteIs(v, o, Number(o));
    }
  }

  // ---- Extension ----

  const ALL: bv64 := 0xffff_ffff_ffff_ffff

  lemma Low8Is(v: bv64)
    ensures M.Low8(v) == Keep(v, 8)
  {
  }

  lemma Ones8Low(v: bv64)
    ensures Keep(M.Ones8(M.Low8(v)), 8) == Keep(v, 8)
  {
  }

  lemma Ones8High(v: bv64)
    ensures Right64(M.Ones8(M.Low8(v)), 8) == Right64(ALL, 8)
  {
  }

  lemma Sign8(v: bv64)
    ensures M.Negative(v, 0) == Odd(RightBy(Widened(v), 7))
  {
  }

  lemma Low16Is(v: bv64)
    ensures M.Low16(v) == Keep(v, 16)
  {
  }

  lemma Ones16Low(v: bv64)
    ensures Keep(M.Ones16(M.Low16(v)), 16) == Keep(v, 16)
  {
  }

  lemma Ones16High(v: bv64)
    ensures Right64(M.Ones16(M.Low16(v)), 16) == Right64(ALL, 16)
  {
  }

  lemma Sign16(v: bv64)
    ensures M.Negative(v, 1) == Odd(RightBy(Widened(v), 15))
  {
  }

  lemma Low32Is(v: bv64)
    ensures M.Low32(v) == Keep(v, 32)
  {
  }

  lemma Ones32Low(v: bv64)
    ensures Keep(M.Ones32(M.Low32(v)), 32) == Keep(v, 32)
  {
  }

  lemma Ones32High(v: bv64)
    ensures Right64(M.Ones32(M.Low32(v)), 32) == Right64(ALL, 32)
  {
  }

  lemma Sign32(v: bv64)
    ensures M.Negative(v, 2) == Odd(RightBy(Widened(v), 31))
  {
  }

  lemma {:induction false} AllIs()
    ensures Number(ALL) == W - 1
  {
    hide Number, Flip64;
    NumberFlip(0);
    NumberZero(0);
    AllFlips();
  }

  lemma AllFlips()
    ensures Flip64(0) == ALL
  {
  }

  /** The sign bit of a field, from the number in it. */
  lemma {:induction false} SignBit(v: bv64, szl: nat)
    requires szl <= 2
    ensures
      var b := 8 * Size(szl);
      M.Negative(v, szl) <==> 2 * (Number(v) % P2(b)) >= P2(b)
  {
    hide M.Negative, Odd, RightBy, Widened, Number, Down;
    var b := 8 * Size(szl);
    if szl == 0 {
      Sign8(v);
    } else if szl == 1 {
      Sign16(v);
    } else {
      Sign32(v);
    }
    RightIs(Widened(v), b - 1);
    DigitIs(v, b - 1);
    TopDigit(Number(v), b);
  }

  lemma {:induction false} TopDigit(n: nat, b: nat)
    requires b > 0
    ensures n / P2(b - 1) % 2 == 1 <==> 2 * (n % P2(b)) >= P2(b)
  {
    P2Zero(1);
    assert P2(b) == 2 * P2(b - 1);
    hide P2;
    DivP2P2(n, b - 1, 1);
    DivMod(n, P2(b - 1));
  }

  /** Sign extension to 64 bits: a field with its top bit set stands for itself less 2^b. */
  lemma {:induction false} SignIs(v: bv64, szl: nat)
    requires szl <= 2
    ensures
      var b := 8 * Size(szl);
      var n := Number(v) % P2(b);
      Number(M.SignExtended(v, szl)) == if 2 * n >= P2(b) then n + W - P2(b) else n
  {
    hide M.Negative, Number, Keep, Right64, P2, M.Ones8, M.Ones16, M.Ones32, M.Low8, M.Low16, M.Low32;
    var b := 8 * Size(szl);
    SignBit(v, szl);
    KeepNumber(v, b);
    AllIs();
    RightNumber(ALL, b);
    P2Sixteen();
    P2Word();
    if szl == 0 {
      Low8Is(v);
      Ones8Low(v);
      Ones8High(v);
      TwoParts(M.Ones8(M.Low8(v)), 8);
    } else if szl == 1 {
      Low16Is(v);
      Ones16Low(v);
      Ones16High(v);
      TwoParts(M.Ones16(M.Low16(v)), 16);
    } else {
      Low32Is(v);
      Ones32Low(v);
      Ones32High(v);
      TwoParts(M.Ones32(M.Low32(v)), 32);
    }
  }

  /** The number a loaded field stands for. */
  function Reading(n: nat, szl: nat, sign: bool): int {
    var b := 8 * Size(szl);
    if sign && szl < 3 then (if 2 * (n % P2(b)) >= P2(b) then n % P2(b) - P2(b) else n % P2(b)) else n
  }

  /** What goes into the register: the field's reading modulo its width. */
  lemma {:induction false} ExtendedIs(v: bv64, szl: nat, sign: bool, is64: bool)
    requires szl <= 3
    ensures Number(M.Extended(v, szl, sign, is64)) == Reading(Number(v), szl, sign) % Modulus(is64)
  {
    hide Number, M.SignExtended, Ir.Fit, P2, Fits;
    FitIs(is64, v);
    FitIs(is64, M.SignExtended(v, szl));
    if sign {
      if szl < 3 {
        SignIs(v, szl);
        AroundWord(Reading(Number(v), szl, sign), is64);
      } else {
        WholeWord(v, szl);
      }
    }
  }

  lemma WholeWord(v: bv64, szl: nat)
    requires szl == 3
    ensures M.SignExtended(v, szl) == v
  {
  }

  lemma AroundWord(r: int, w: bool)
    ensures (r + W) % Modulus(w) == r % Modulus(w)
  {
    if w {
      SameRemainder(r, Modulus(w));
    } else {
      DivMod(r, Modulus(w));
      DivUnique(r + W, Modulus(w), r / Modulus(w) + 0x1_0000_0000, r % Modulus(w));
    }
  }

  // ---- The instruction ----

  lemma OffsetRaw(va: bv64)
    ensures Probe.PageOffset(va) == Keep(va, 12)
  {
  }

  lemma {:induction false} PageOffsetIs(va: bv64)
    ensures Number(Probe.PageOffset(va)) == Number(va) % 4096
  {
    hide Number, Keep, Probe.PageOffset, P2;
    OffsetRaw(va);
    KeepNumber(va, 12);
    P2Twelve();
  }

  lemma P2Twelve()
    ensures P2(12) == 4096 && P2(4) == 16
  {
    assert P2(4) == 16;
    P2Sixteen();
    hide P2;
    P2Add(8, 4);
  }

  lemma {:induction false} ExtraIs(szl: nat)
    ensures Number(M.Extra(szl)) == Size(szl) - 1
  {
    hide Number;
    SmallIs(0);
    SmallIs(1);
    SmallIs(3);
    SmallIs(7);
  }

  lemma PageTop(t: bv64)
    ensures t <= 0xfff <==> Right64(t, 12) == 0
  {
  }

  lemma {:induction false} PageTopIs(t: bv64)
    ensures t <= 0xfff <==> Number(t) < 4096
  {
    hide Number, Right64, P2;
    PageTop(t);
    RightNumber(t, 12);
    NumberZero(Right64(t, 12));
    P2Twelve();
  }

  lemma WithinRaw(o: bv64, e: bv64)
    ensures Probe.Within(o, e) <==> Plus64(o, e) <= 0xfff
  {
  }

  /** The fast path is for accesses that stay on their page. */
  lemma {:induction false} OnePageIs(va: bv64, szl: nat)
    ensures Probe.OnePage(va, M.Extra(szl)) <==> Number(va) % 4096 + Size(szl) <= 4096
  {
    hide Number, Plus64, M.Extra, Probe.PageOffset, Probe.Within;
    var o, e := Probe.PageOffset(va), M.Extra(szl);
    PageOffsetIs(va);
    ExtraIs(szl);
    WithinRaw(o, e);
    NumberPlus(o, e);
    PageTopIs(Plus64(o, e));
  }

  lemma MisalignedRaw(x: bv64)
    ensures O.Misaligned(x) <==> Keep(x, 4) != 0
  {
  }

  /** The stack pointer is to be a multiple of 16. */
  lemma {:induction false} MisalignedIs(x: bv64)
    ensures O.Misaligned(x) <==> Number(x) % 16 != 0
  {
    hide Number, Keep, P2, O.Misaligned;
    MisalignedRaw(x);
    KeepNumber(x, 4);
    NumberZero(Keep(x, 4));
    P2Twelve();
  }

  /** Effective address, and the byte of RAM that a hit puts there. */
  function Target(g: Ir.Guest, op: O.MemOp): nat
    requires Ir.RegsOk(g.regs) && O.MemOpOk(op)
  {
    (Number(g.regs[op.a]) + Number(op.imm)) % W
  }

  function Landing(g: Ir.Guest, w: M.World, op: O.MemOp): nat
    requires Ir.RegsOk(g.regs) && O.MemOpOk(op) && T.Sized(w.caches)
  {
    (Number(w.caches.dtlb[T.Idx(Ir.Plus(g.regs[op.a], op.imm))].paPage) + Target(g, op) % 4096) % W
  }

  lemma IrPlusIs(a: bv64, b: bv64)
    ensures Ir.Plus(a, b) == Plus64(a, b)
  {
  }

  lemma {:induction false} LandingIs(g: Ir.Guest, w: M.World, op: O.MemOp)
    requires Ir.RegsOk(g.regs) && O.MemOpOk(op) && T.Sized(w.caches)
    ensures
      var va := Ir.Plus(g.regs[op.a], op.imm);
      Number(va) == Target(g, op) && Number(M.Pointer(w, va)) == Landing(g, w, op)
  {
    hide Number, Ir.Plus, Plus64, T.Idx, Probe.PageOffset;
    var va := Ir.Plus(g.regs[op.a], op.imm);
    IrPlusIs(g.regs[op.a], op.imm);
    NumberPlus(g.regs[op.a], op.imm);
    PageOffsetIs(va);
    var p := w.caches.dtlb[T.Idx(va)].paPage;
    IrPlusIs(p, Probe.PageOffset(va));
    NumberPlus(p, Probe.PageOffset(va));
  }

  /** The caches serve the access: a hit, all on one page, and no stack-pointer fault. */
  predicate Served(g: Ir.Guest, w: M.World, op: O.MemOp)
    requires Ir.RegsOk(g.regs) && O.MemOpOk(op) && T.Sized(w.caches)
  {
    && !(op.a == 31 && Number(g.regs[31]) % 16 != 0 && w.strict)
    && Target(g, op) % 4096 + Size(op.szl) <= 4096
    && T.DataHit(w.caches, w.cpu, Ir.Plus(g.regs[op.a], op.imm), if op.Ld? then TableWalk.Read else TableWalk.Write)
  }

  /** A load that the caches serve: one register, from the little-endian bytes at base plus offset. */
  lemma {:induction false} LoadMeans(bus: M.Bus, g: Ir.Guest, w: M.World, op: O.MemOp)
    requires Ir.RegsOk(g.regs) && O.MemOpOk(op) && T.Sized(w.caches) && op.Ld? && Served(g, w, op)
    ensures
      var r := O.MemMeaning(bus, g, w, op);
      && r.On? && r.w == w && r.g == g.(regs := r.g.regs) && |r.g.regs| == Ir.VREGS
      && (forall v :: 0 <= v < Ir.VREGS && (v != op.dst || v == Ir.ZERO) ==> r.g.regs[v] == g.regs[v])
      && (op.dst != Ir.ZERO ==>
            Number(r.g.regs[op.dst]) ==
              Reading(Little(w.ram, Landing(g, w, op), Size(op.szl)), op.szl, op.sign) % Modulus(op.is64))
  {
    hide Number, Ir.Plus, M.Extra, Probe.OnePage, M.Pointer, M.Load, M.Extended, T.DataHit, O.Misaligned, Little,
      Reading, Landing, Target;
    var va := Ir.Plus(g.regs[op.a], op.imm);
    LandingIs(g, w, op);
    OnePageIs(va, op.szl);
    MisalignedIs(g.regs[31]);
    LoadIs(w.ram, M.Pointer(w, va), op.szl);
    ExtendedIs(M.Load(w.ram, M.Pointer(w, va), op.szl), op.szl, op.sign, op.is64);
  }

  /** A store that the caches serve: the register's low bytes, lowest first, and no other byte. */
  lemma {:induction false} StoreMeans(bus: M.Bus, g: Ir.Guest, w: M.World, op: O.MemOp, a: bv64)
    requires Ir.RegsOk(g.regs) && O.MemOpOk(op) && T.Sized(w.caches) && op.St? && Served(g, w, op)
    ensures
      var r := O.MemMeaning(bus, g, w, op);
      var off := (Number(a) - Landing(g, w, op)) % W;
      && r.On? && r.g == g && r.w == w.(ram := r.w.ram)
      && Num8(r.w.ram(a)) == if off < Size(op.szl) then Number(g.regs[op.b]) / P2(8 * off) % 256 else Num8(w.ram(a))
  {
    hide Number, Ir.Plus, M.Extra, Probe.OnePage, M.Pointer, M.Stored, T.DataHit, O.Misaligned, Landing, Target, P2,
      Num8;
    var va := Ir.Plus(g.regs[op.a], op.imm);
    LandingIs(g, w, op);
    OnePageIs(va, op.szl);
    MisalignedIs(g.regs[31]);
    StoreIs(w.ram, M.Pointer(w, va), op.szl, g.regs[op.b], a);
  }

  /** What the bus answers to the access, where the caches do not serve it. */
  function Asked(bus: M.Bus, g: Ir.Guest, w: M.World, op: O.MemOp): M.Answer
    requires Ir.RegsOk(g.regs) && O.MemOpOk(op)
  {
    var va := ToWord(Target(g, op));
    if op.Ld? then bus.read(w, g.nz, op.pc, va, op.szl) else bus.write(w, g.nz, op.pc, va, op.szl, g.regs[op.b])
  }

  lemma {:induction false} AskedIs(g: Ir.Guest, op: O.MemOp)
    requires Ir.RegsOk(g.regs) && O.MemOpOk(op)
    ensures ToWord(Target(g, op)) == Ir.Plus(g.regs[op.a], op.imm)
    ensures Number(Ir.Plus(g.regs[op.a], op.imm)) == Target(g, op)
  {
    hide Number, Ir.Plus, Plus64, ToWord;
    var va := Ir.Plus(g.regs[op.a], op.imm);
    IrPlusIs(g.regs[op.a], op.imm);
    NumberPlus(g.regs[op.a], op.imm);
    WordOf(va);
  }

  /** The base is the stack pointer, checked and not a multiple of 16. */
  predicate Unaligned(g: Ir.Guest, w: M.World, op: O.MemOp)
    requires Ir.RegsOk(g.regs)
  {
    op.a == 31 && w.strict && Number(g.regs[31]) % 16 != 0
  }

  /** An access the caches do not serve is the bus's: a load's register takes the reading of what it answers. */
  lemma {:induction false} MissMeans(bus: M.Bus, g: Ir.Guest, w: M.World, op: O.MemOp)
    requires Ir.RegsOk(g.regs) && O.MemOpOk(op) && T.Sized(w.caches)
    requires !Served(g, w, op) && !Unaligned(g, w, op) && Asked(bus, g, w, op).Done?
    ensures
      var r, a := O.MemMeaning(bus, g, w, op), Asked(bus, g, w, op);
      && r.On? && r.w == a.w && r.g == g.(regs := r.g.regs) && (op.St? ==> r.g == g) && |r.g.regs| == Ir.VREGS
      && (op.Ld? ==>
            && (forall v :: 0 <= v < Ir.VREGS && (v != op.dst || v == Ir.ZERO) ==> r.g.regs[v] == g.regs[v])
            && (op.dst != Ir.ZERO ==>
                  Number(r.g.regs[op.dst]) == Reading(Number(a.val), op.szl, op.sign) % Modulus(op.is64)))
  {
    hide Number, Ir.Plus, M.Extra, Probe.OnePage, M.Pointer, M.Stored, M.Load, M.Extended, T.DataHit, O.Misaligned,
      Reading, Target, ToWord;
    var va := Ir.Plus(g.regs[op.a], op.imm);
    AskedIs(g, op);
    OnePageIs(va, op.szl);
    MisalignedIs(g.regs[31]);
    if op.Ld? {
      ExtendedIs(Asked(bus, g, w, op).val, op.szl, op.sign, op.is64);
    }
  }

  /**
   An access that faults leaves the registers, goes where the trap says with its
   flags, and counts itself and those before it.
   */
  lemma {:induction false} FaultMeans(bus: M.Bus, g: Ir.Guest, w: M.World, op: O.MemOp)
    requires Ir.RegsOk(g.regs) && O.MemOpOk(op) && T.Sized(w.caches) && O.MemMeaning(bus, g, w, op).Off?
    ensures
      var r := O.MemMeaning(bus, g, w, op);
      && (Unaligned(g, w, op) || (!Served(g, w, op) && Asked(bus, g, w, op).Fault?))
      && var t := if Unaligned(g, w, op) then bus.misaligned(w, g.nz, op.pc) else Asked(bus, g, w, op).trap;
         && r.g.regs == g.regs && r.g.pc == t.pc && r.g.nz == t.nz && r.w == t.w
         && Number(r.g.icount) == (Number(g.icount) + 1 + Number(op.icnt)) % W
  {
    hide Number, Ir.Plus, M.Extra, Probe.OnePage, M.Pointer, M.Stored, M.Load, M.Extended, T.DataHit, O.Misaligned,
      Target, ToWord;
    AskedIs(g, op);
    OnePageIs(Ir.Plus(g.regs[op.a], op.imm), op.szl);
    MisalignedIs(g.regs[31]);
    CountIs(g.icount, op.icnt);
  }

  lemma {:induction false} CountIs(i: bv64, n: bv64)
    ensures Number(Ir.Plus(Ir.Plus(i, 1), n)) == (Number(i) + 1 + Number(n)) % W
  {
    hide Number, Ir.Plus, Plus64;
    IrPlusIs(i, 1);
    NumberPlus(i, 1);
    IrPlusIs(Ir.Plus(i, 1), n);
    NumberPlus(Ir.Plus(i, 1), n);
    SmallNumbers();
    Remainders(Number(i) + 1, Number(n));
  }
}
