/**
 The table walk over the integers: addresses, descriptors and registers as numbers,
 levels as divisions by powers of two, and the walk as the chain of descriptors it
 follows from the translation table base to the first that is not a table.
 */
module WalkMeaning {
  import opened Pow2
  import opened Binary
  import opened Words
  import opened LargePages
  import opened TableWalk
  import Tlb
  import TlbRuns

  // ---- Single bits ----

  function Weight(n: nat): bv64 {
    match n
    case 0 => 1
    case 1 => 2
    case 7 => 1 << 7
    case 10 => 1 << 10
    case 23 => 1 << 23
    case 37 => 1 << 37
    case 38 => 1 << 38
    case 53 => 1 << 53
    case 54 => 1 << 54
    case _ => 1 << 55
  }

  predicate Tested(n: nat) {
    n == 0 || n == 1 || n == 7 || n == 10 || n == 23 || n == 37 || n == 38 || n == 53 || n == 54 || n == 55
  }

  lemma WeightBit(x: bv64, n: nat)
    requires Tested(n)
    ensures Bit(x, Weight(n)) == Odd(RightBy(Widened(x), n))
  {
    if n == 0 {
    } else if n == 1 {
    } else if n == 7 {
    } else if n == 10 {
    } else if n == 23 {
    } else if n == 37 {
    } else if n == 38 {
    } else if n == 53 {
    } else if n == 54 {
    } else {
    }
  }

  lemma {:induction false} BitIs(x: bv64, n: nat)
    requires Tested(n)
    ensures Bit(x, Weight(n)) <==> Number(x) / P2(n) % 2 == 1
  {
    hide Bit, Weight, Odd, RightBy, Down, Number, P2, Widened;
    WeightBit(x, n);
    RightIs(Widened(x), n);
    DigitIs(x, n);
  }

  // ---- Fields ----

  lemma Field0(va: bv64)
    ensures Field(va, 0) == Keep(Right64(va, 39), 9)
  {
  }

  lemma Field1(va: bv64)
    ensures Field(va, 1) == Keep(Right64(va, 30), 9)
  {
  }

  lemma Field2(va: bv64)
    ensures Field(va, 2) == Keep(Right64(va, 21), 9)
  {
  }

  lemma Field3(va: bv64)
    ensures Field(va, 3) == Keep(Right64(va, 12), 9)
  {
  }

  /** The table index of a level. */
  lemma {:induction false} FieldIs(va: bv64, level: nat)
    requires level <= 3
    ensures Number(Field(va, level)) == Number(va) / P2(Shift(level)) % 512
  {
    hide Field, Keep, Right64, P2, Number;
    var n := Shift(level);
    if level == 0 {
      Field0(va);
    } else if level == 1 {
      Field1(va);
    } else if level == 2 {
      Field2(va);
    } else {
      Field3(va);
    }
    RightNumber(va, n);
    KeepNumber(Right64(va, n), 9);
    P2Nine();
  }

  lemma P2Nine()
    ensures P2(9) == 512 && P2(6) == 64 && P2(2) == 4 && P2(12) == 4096
  {
    P2Small();
    assert P2(10) == 2 * P2(9);
    P2Add(10, 2);
  }

  lemma OutputRaw(d: bv64)
    ensures (d & 0x0000_ffff_ffff_f000) >> 12 == (d >> 12) & 0xf_ffff_ffff
  {
  }

  lemma OutputRight(d: bv64)
    ensures Right64(Output(d), 12) == (d & 0x0000_ffff_ffff_f000) >> 12
  {
  }

  lemma OutputKeep(d: bv64)
    ensures Keep(Right64(d, 12), 36) == (d >> 12) & 0xf_ffff_ffff
  {
  }

  lemma OutputLow(d: bv64)
    ensures Keep(Output(d), 12) == 0
  {
  }

  /** Bits 47 to 12 of a descriptor or a base register, in their place. */
  lemma {:induction false} OutputIs(d: bv64)
    ensures Number(Output(d)) == Number(d) / 4096 % P2(36) * 4096
  {
    hide Output, Keep, Right64, P2, Number;
    OutputRaw(d);
    OutputRight(d);
    OutputKeep(d);
    OutputLow(d);
    RightNumber(Output(d), 12);
    RightNumber(d, 12);
    KeepNumber(Right64(d, 12), 36);
    KeepNumber(Output(d), 12);
    P2Nine();
    NumberZero(0);
    DivMod(Number(Output(d)), 4096);
  }

  function Times2(i: bv64): bv64 {
    i + i
  }

  lemma Times2Is(i: bv64)
    ensures Times2(i) == Plus64(i, i)
  {
  }

  lemma EightIs(i: bv64)
    ensures Eight(i) == Times2(Times2(Times2(i)))
  {
  }

  lemma {:induction false} NumberTwice(i: bv64)
    requires Number(i) < 0x8000
    ensures Number(Times2(i)) == 2 * Number(i)
  {
    hide Number, Times2, Plus64;
    Times2Is(i);
    NumberPlus(i, i);
  }

  /** The descriptor's address. */
  lemma {:induction false} AtIs(table: bv64, i: bv64)
    requires Number(i) < 512
    ensures Number(At(table, i)) == (Number(table) + 8 * Number(i)) % 0x1_0000_0000_0000_0000
  {
    hide Number, Plus64, Times2, Eight;
    NumberTwice(i);
    NumberTwice(Times2(i));
    NumberTwice(Times2(Times2(i)));
    EightIs(i);
    NumberPlus(table, Eight(i));
  }

  // ---- Leaves ----

  lemma Down12(x: bv64)
    ensures Right64(x, 12) == x >> 12
  {
  }

  lemma Down21(x: bv64)
    ensures Right64(x, 21) == x >> 21
  {
  }

  lemma Down30(x: bv64)
    ensures Right64(x, 30) == x >> 30
  {
  }

  lemma Down39(x: bv64)
    ensures Right64(x, 39) == x >> 39
  {
  }

  lemma Kept12(x: bv64)
    ensures Keep(x, 12) == x & 0xfff
  {
  }

  lemma Kept9(x: bv64)
    ensures Keep(x, 9) == x & 0x1ff
  {
  }

  lemma Kept18(x: bv64)
    ensures Keep(x, 18) == x & 0x3_ffff
  {
  }

  lemma Kept27(x: bv64)
    ensures Keep(x, 27) == x & 0x7ff_ffff
  {
  }

  function Block0(d: bv64, va: bv64): bv64 {
    (d & 0xff80_0000_0000) | (va & 0x7f_ffff_f000)
  }

  lemma Block0Form(d: bv64, va: bv64)
    ensures BlockPage(d, va, 0) == Block0(d, va)
  {
  }

  lemma Block0Raw(d: bv64, va: bv64)
    ensures ((d & 0xff80_0000_0000) | (va & 0x7f_ffff_f000)) & 0xfff == 0
    ensures (((d & 0xff80_0000_0000) | (va & 0x7f_ffff_f000)) >> 12) & 0x7ff_ffff == (va >> 12) & 0x7ff_ffff
    ensures ((d & 0xff80_0000_0000) | (va & 0x7f_ffff_f000)) >> 39 == (d >> 39) & 0x1ff
  {
  }

  lemma Block0Left(d: bv64, va: bv64)
    ensures Keep(Block0(d, va), 12) == ((d & 0xff80_0000_0000) | (va & 0x7f_ffff_f000)) & 0xfff
    ensures
      Keep(Right64(Block0(d, va), 12), 27) == (((d & 0xff80_0000_0000) | (va & 0x7f_ffff_f000)) >> 12) & 0x7ff_ffff
    ensures Right64(Block0(d, va), 39) == ((d & 0xff80_0000_0000) | (va & 0x7f_ffff_f000)) >> 39
  {
    hide Keep, Right64;
    var p := Block0(d, va);
    Kept12(p);
    Down12(p);
    Kept27(p >> 12);
    Down39(p);
  }

  lemma Block0Right(d: bv64, va: bv64)
    ensures Keep(Right64(va, 12), 27) == (va >> 12) & 0x7ff_ffff && Keep(Right64(d, 39), 9) == (d >> 39) & 0x1ff
  {
    hide Keep, Right64;
    Down12(va);
    Kept27(va >> 12);
    Down39(d);
    Kept9(d >> 39);
  }

  function Block1(d: bv64, va: bv64): bv64 {
    (d & 0xffff_c000_0000) | (va & 0x3fff_f000)
  }

  lemma Block1Form(d: bv64, va: bv64)
    ensures BlockPage(d, va, 1) == Block1(d, va)
  {
  }

  lemma Block1Raw(d: bv64, va: bv64)
    ensures ((d & 0xffff_c000_0000) | (va & 0x3fff_f000)) & 0xfff == 0
    ensures (((d & 0xffff_c000_0000) | (va & 0x3fff_f000)) >> 12) & 0x3_ffff == (va >> 12) & 0x3_ffff
    ensures ((d & 0xffff_c000_0000) | (va & 0x3fff_f000)) >> 30 == (d >> 30) & 0x3_ffff
  {
  }

  lemma Block1Left(d: bv64, va: bv64)
    ensures Keep(Block1(d, va), 12) == ((d & 0xffff_c000_0000) | (va & 0x3fff_f000)) & 0xfff
    ensures Keep(Right64(Block1(d, va), 12), 18) == (((d & 0xffff_c000_0000) | (va & 0x3fff_f000)) >> 12) & 0x3_ffff
    ensures Right64(Block1(d, va), 30) == ((d & 0xffff_c000_0000) | (va & 0x3fff_f000)) >> 30
  {
    hide Keep, Right64;
    var p := Block1(d, va);
    Kept12(p);
    Down12(p);
    Kept18(p >> 12);
    Down30(p);
  }

  lemma Block1Right(d: bv64, va: bv64)
    ensures Keep(Right64(va, 12), 18) == (va >> 12) & 0x3_ffff && Keep(Right64(d, 30), 18) == (d >> 30) & 0x3_ffff
  {
    hide Keep, Right64;
    Down12(va);
    Kept18(va >> 12);
    Down30(d);
    Kept18(d >> 30);
  }

  function Block2(d: bv64, va: bv64): bv64 {
    (d & 0xffff_ffe0_0000) | (va & 0x1f_f000)
  }

  lemma Block2Form(d: bv64, va: bv64)
    ensures BlockPage(d, va, 2) == Block2(d, va)
  {
  }

  lemma Block2Raw(d: bv64, va: bv64)
    ensures ((d & 0xffff_ffe0_0000) | (va & 0x1f_f000)) & 0xfff == 0
    ensures (((d & 0xffff_ffe0_0000) | (va & 0x1f_f000)) >> 12) & 0x1ff == (va >> 12) & 0x1ff
    ensures ((d & 0xffff_ffe0_0000) | (va & 0x1f_f000)) >> 21 == (d >> 21) & 0x7ff_ffff
  {
  }

  lemma Block2Left(d: bv64, va: bv64)
    ensures Keep(Block2(d, va), 12) == ((d & 0xffff_ffe0_0000) | (va & 0x1f_f000)) & 0xfff
    ensures Keep(Right64(Block2(d, va), 12), 9) == (((d & 0xffff_ffe0_0000) | (va & 0x1f_f000)) >> 12) & 0x1ff
    ensures Right64(Block2(d, va), 21) == ((d & 0xffff_ffe0_0000) | (va & 0x1f_f000)) >> 21
  {
    hide Keep, Right64;
    var p := Block2(d, va);
    Kept12(p);
    Down12(p);
    Kept9(p >> 12);
    Down21(p);
  }

  lemma Block2Right(d: bv64, va: bv64)
    ensures Keep(Right64(va, 12), 9) == (va >> 12) & 0x1ff && Keep(Right64(d, 21), 27) == (d >> 21) & 0x7ff_ffff
  {
    hide Keep, Right64;
    Down12(va);
    Kept9(va >> 12);
    Down21(d);
    Kept27(d >> 21);
  }

  /** A page that a block descriptor gives: its output bits above, those of the address below. */
  predicate IsBlock(p: bv64, d: bv64, va: bv64, k: nat)
    requires k == 21 || k == 30 || k == 39
  {
    && Keep(p, 12) == 0
    && Keep(Right64(p, 12), k - 12) == Keep(Right64(va, 12), k - 12)
    && Right64(p, k) == Keep(Right64(d, k), 48 - k)
  }

  lemma {:induction false} Block0Is(d: bv64, va: bv64)
    ensures IsBlock(BlockPage(d, va, 0), d, va, 39)
  {
    hide BlockPage, Block0, Keep, Right64;
    Block0Form(d, va);
    Block0Raw(d, va);
    Block0Left(d, va);
    Block0Right(d, va);
  }

  lemma {:induction false} Block1Is(d: bv64, va: bv64)
    ensures IsBlock(BlockPage(d, va, 1), d, va, 30)
  {
    hide BlockPage, Block1, Keep, Right64;
    Block1Form(d, va);
    Block1Raw(d, va);
    Block1Left(d, va);
    Block1Right(d, va);
  }

  lemma {:induction false} Block2Is(d: bv64, va: bv64)
    ensures IsBlock(BlockPage(d, va, 2), d, va, 21)
  {
    hide BlockPage, Block2, Keep, Right64;
    Block2Form(d, va);
    Block2Raw(d, va);
    Block2Left(d, va);
    Block2Right(d, va);
  }

  lemma {:induction false} BlockBits(d: bv64, va: bv64, level: nat)
    requires level <= 2
    ensures IsBlock(BlockPage(d, va, level), d, va, Shift(level))
  {
    hide BlockPage, IsBlock;
    if level == 0 {
      Block0Is(d, va);
    } else if level == 1 {
      Block1Is(d, va);
    } else {
      Block2Is(d, va);
    }
  }

  lemma {:induction false} BlockIs(d: bv64, va: bv64, level: nat)
    requires level <= 2
    ensures
      var k := Shift(level);
      Number(BlockPage(d, va, level)) ==
        Number(d) / P2(k) % P2(48 - k) * P2(k) + Number(va) / 4096 % P2(k - 12) * 4096
  {
    hide BlockPage, Keep, Right64, P2, Number;
    var p, k := BlockPage(d, va, level), Shift(level);
    BlockBits(d, va, level);
    P2Nine();
    KeepNumber(p, 12);
    NumberZero(0);
    RightNumber(p, 12);
    KeepNumber(Right64(p, 12), k - 12);
    RightNumber(va, 12);
    KeepNumber(Right64(va, 12), k - 12);
    RightNumber(p, k);
    RightNumber(d, k);
    KeepNumber(Right64(d, k), 48 - k);
    Pieces(Number(p), k);
  }

  /** A number from its digits above k, from k down to 12, and below. */
  lemma {:induction false} Pieces(p: nat, k: nat)
    requires k >= 12
    ensures p == p / P2(k) * P2(k) + p / 4096 % P2(k - 12) * 4096 + p % 4096
  {
    hide P2;
    P2Nine();
    DivP2P2(p, 12, k - 12);
    DivMod(p, P2(k));
  }

  lemma ApRaw(d: bv64)
    ensures (d >> 6) & 3 == Keep(Right64(d, 6), 2)
  {
  }

  /** The attributes of a leaf. */
  lemma {:induction false} LeafIs(page: bv64, d: bv64)
    ensures
      var t := Leaf(page, d);
      && t.paPage == page && Number(t.ap) == Number(d) / 64 % 4
      && (t.pxn <==> Number(d) / P2(53) % 2 == 1) && (t.uxn <==> Number(d) / P2(54) % 2 == 1)
  {
    hide Keep, Right64, P2, Number, Bit;
    ApRaw(d);
    RightNumber(d, 6);
    KeepNumber(Right64(d, 6), 2);
    P2Nine();
    BitIs(d, 53);
    BitIs(d, 54);
  }

  // ---- The region ----

  function Down1(x: bv64): bv64 {
    x >> 1
  }

  lemma MeetUp(va: bv64, h: bv64)
    ensures Meet(va, Up1(h)) == 0 <==> Meet(Down1(va), h) == 0
  {
  }

  lemma MeetBase(va: bv64)
    ensures Meet(va, High(25)) == 0 <==> va >> 25 == 0
  {
  }

  lemma DownLeft(va: bv64)
    ensures Widened(Down1(va)) == (va as bv66) >> 1
  {
  }

  lemma DownRight(va: bv64)
    ensures Half(Widened(va)) == (va as bv66) >> 1
  {
  }

  lemma DownOne(va: bv64)
    ensures Widened(Down1(va)) == Half(Widened(va))
  {
    hide Widened, Down1, Half;
    DownLeft(va);
    DownRight(va);
  }

  lemma {:induction false} HalfNumber(va: bv64)
    ensures Number(Down1(va)) == Number(va) / 2
  {
    hide Low, Widened, Down1, Half, Odd, Down, P2;
    DownOne(va);
    var a := Widened(va);
    LowParts(a, 1, 63);
    DownStep(a);
    LowSplit(Half(a), 63, 1);
    DownSum(a, 1, 63);
    DownWord(a);
    Narrowed(va, va);
    ZeroLow(1);
    P2Zero(1);
  }

  lemma DownStep(a: bv66)
    ensures Down(a, 1) == Half(a)
  {
    hide Half;
  }

  lemma BaseRaw(va: bv64)
    ensures va >> 25 == 0 <==> Right64(va, 25) == 0
  {
  }

  /** No bit from the width on. */
  lemma {:induction false} HighMeets(va: bv64, width: nat)
    requires 25 <= width <= 48
    ensures Meet(va, High(width)) == 0 <==> Number(va) < P2(width)
    decreases width
  {
    hide Number, Meet, Up1, Down1, Right64;
    if width == 25 {
      hide P2;
      MeetBase(va);
      BaseRaw(va);
      RightNumber(va, 25);
      NumberZero(Right64(va, 25));
      NoQuotient(Number(va), P2(25));
    } else {
      MeetUp(va, High(width - 1));
      HighMeets(Down1(va), width - 1);
      HalfNumber(va);
    }
  }

  lemma NoQuotient(n: nat, m: nat)
    requires m > 0
    ensures n / m == 0 <==> n < m
  {
    DivMod(n, m);
    if n < m {
      DivUnique(n, m, 0, n);
    }
  }

  lemma TrimRaw(va: bv64, h: bv64)
    ensures va & (h & UNTAGGED) == (va & UNTAGGED) & h
  {
  }

  lemma CoversRaw(va: bv64, g: bv64)
    requires va & g == g
    ensures !va & g == 0
  {
  }

  lemma MissesRaw(va: bv64, g: bv64)
    requires !va & g == 0
    ensures va & g == g
  {
  }

  lemma Covers(va: bv64, g: bv64)
    ensures Meet(va, g) == g <==> Meet(Flip64(va), g) == 0
  {
    hide Meet, Flip64;
    NoTagMeet(va, g);
    FlipMeet(va, g);
    if va & g == g {
      CoversRaw(va, g);
    } else if !va & g == 0 {
      MissesRaw(va, g);
    }
  }

  lemma TrimMeet(va: bv64, h: bv64)
    ensures Meet(va, Trim(h, true)) == va & (h & UNTAGGED) && Trim(h, true) == h & UNTAGGED
  {
  }

  lemma NoTagMeet(va: bv64, h: bv64)
    ensures Meet(NoTag(va), h) == (va & UNTAGGED) & h && Meet(va, h) == va & h
  {
  }

  lemma FlipMeet(va: bv64, h: bv64)
    ensures Meet(NoTag(Flip64(va)), h) == (!va & UNTAGGED) & h && Meet(Flip64(va), h) == !va & h
  {
  }

  lemma TrimLower(va: bv64, h: bv64)
    ensures Meet(va, Trim(h, true)) == 0 <==> Meet(NoTag(va), h) == 0
  {
    hide Meet, Trim, NoTag;
    TrimRaw(va, h);
    TrimMeet(va, h);
    NoTagMeet(va, h);
  }

  lemma TrimUpper(va: bv64, h: bv64)
    ensures Meet(va, Trim(h, true)) == Trim(h, true) <==> Meet(NoTag(Flip64(va)), h) == 0
  {
    hide Meet, Trim, NoTag, Flip64;
    Covers(va, Trim(h, true));
    TrimLower(Flip64(va), h);
  }

  lemma NoTagRaw(va: bv64)
    ensures NoTag(va) == Keep(va, 56)
  {
  }

  /** Bits of an address that are looked at. */
  function Span(tbi: bool): nat {
    if tbi then 56 else 64
  }

  /** The address sign-extends a number of width bits, as far as it is looked at. */
  predicate Extends(va: nat, upper: bool, tbi: bool, width: nat)
    requires width <= 48
  {
    var t := va % P2(Span(tbi));
    if upper then t + P2(width) >= P2(Span(tbi)) else t < P2(width)
  }

  lemma {:induction false} ChecksLower(va: bv64, width: nat, tbi: bool)
    requires 25 <= width <= 48
    ensures Meet(va, Checked(width, tbi)) == 0 <==> Extends(Number(va), false, tbi, width)
  {
    hide Number, Meet, High, Trim, NoTag, P2, Keep, Full, IsWord;
    NumberFull(va);
    P2Word();
    if tbi {
      TrimLower(va, High(width));
      HighMeets(NoTag(va), width);
      NoTagRaw(va);
      KeepNumber(va, 56);
    } else {
      assert Checked(width, tbi) == High(width) by {
        NoTrim(High(width));
      }
      HighMeets(va, width);
    }
  }

  lemma NoTrim(h: bv64)
    ensures Trim(h, false) == h
  {
  }

  lemma {:induction false} ChecksUpper(va: bv64, width: nat, tbi: bool)
    requires 25 <= width <= 48
    ensures Meet(va, Checked(width, tbi)) == Checked(width, tbi) <==> Extends(Number(va), true, tbi, width)
  {
    hide Number, Meet, High, Trim, NoTag, P2, Keep, Full, IsWord, Flip64;
    NumberFull(va);
    NumberFlip(va);
    if tbi {
      TrimUpper(va, High(width));
      HighMeets(NoTag(Flip64(va)), width);
      NoTagRaw(Flip64(va));
      KeepNumber(Flip64(va), 56);
      FlipKept(Number(va));
    } else {
      P2Word();
      assert Checked(width, tbi) == High(width) by {
        NoTrim(High(width));
      }
      Covers(va, High(width));
      HighMeets(Flip64(va), width);
    }
  }

  lemma {:induction false} FlipKept(n: nat)
    requires n <= 0xffff_ffff_ffff_ffff
    ensures (0xffff_ffff_ffff_ffff - n) % P2(56) == P2(56) - 1 - n % P2(56)
  {
    P2Small();
    hide P2;
    P2Word();
    P2Add(56, 8);
    var m := P2(56);
    DivMod(n, m);
    assert m * 256 == 0x1_0000_0000_0000_0000;
    assert (255 - n / m) * m == 255 * m - n / m * m by {
      Distrib(255, n / m, m);
    }
    DivUnique(0xffff_ffff_ffff_ffff - n, m, 255 - n / m, m - 1 - n % m);
  }

  predicate UpperHalf(va: nat) {
    va / P2(55) % 2 == 1
  }

  /** TxSZ of that half, held between 16 and 39, and the address bits it leaves. */
  function RegionBits(tcr: nat, upper: bool): (n: nat)
    ensures 25 <= n <= 48
  {
    var t := (if upper then tcr / P2(16) else tcr) % 64;
    64 - if t < 16 then 16 else if t > 39 then 39 else t
  }

  predicate TagIgnored(tcr: nat, upper: bool) {
    tcr / P2(if upper then 38 else 37) % 2 == 1
  }

  predicate WalkOff(tcr: nat, upper: bool) {
    tcr / P2(if upper then 23 else 7) % 2 == 1
  }

  lemma SizeRaw(tcr: bv64)
    ensures (tcr >> 16) & 0x3f == Keep(Right64(tcr, 16), 6) && tcr & 0x3f == Keep(tcr, 6)
  {
  }

  lemma {:induction false} WidthIs(tcr: bv64, upper: bool)
    ensures Width(tcr, upper) == RegionBits(Number(tcr), upper)
  {
    hide Number, Keep, Right64, P2;
    SizeRaw(tcr);
    RightNumber(tcr, 16);
    KeepNumber(Right64(tcr, 16), 6);
    KeepNumber(tcr, 6);
    P2Nine();
  }

  /** Which half, whether its walks are off, and whether the address belongs to it. */
  lemma {:induction false} RegionIs(tcr: bv64, va: bv64)
    ensures
      var t, v := Number(tcr), Number(va);
      var up := UpperHalf(v);
      && Upper(va) == up && Disabled(tcr, up) == WalkOff(t, up) && Width(tcr, up) == RegionBits(t, up)
      && InRange(tcr, va) == Extends(v, up, TagIgnored(t, up), RegionBits(t, up))
  {
    hide Number, Bit, P2, Meet, Checked, Width, Extends, RegionBits;
    BitIs(va, 55);
    BitIs(tcr, 7);
    BitIs(tcr, 23);
    BitIs(tcr, 37);
    BitIs(tcr, 38);
    var up := Upper(va);
    WidthIs(tcr, up);
    ChecksLower(va, Width(tcr, up), TopByteIgnored(tcr, up));
    ChecksUpper(va, Width(tcr, up), TopByteIgnored(tcr, up));
  }

  // ---- The chain of descriptors ----

  /** The table or page address a descriptor or base register holds. */
  function Base(d: nat): nat {
    d / 4096 % P2(36) * 4096
  }

  /** Address of the level's descriptor for va. */
  function Entry(base: nat, va: nat, level: nat): nat
    requires level <= 3
  {
    (base + 8 * (va / P2(12 + 9 * (3 - level)) % 512)) % W
  }

  function Found64(tb: Tables, base: nat, va: nat, level: nat): Word
    requires level <= 3
  {
    tb.read(ToWord(Entry(base, va, level)))
  }

  predicate IsTable(d: nat, level: nat) {
    level < 3 && d % 4 == 3
  }

  predicate IsLeaf(d: nat, level: nat) {
    if level < 3 then d % 4 == 1 else d % 4 == 3
  }

  /** ds are the table descriptors met from that level on, each read where the one before says. */
  predicate Leads(tb: Tables, base: nat, va: nat, level: nat, ds: seq<nat>)
    decreases |ds|
  {
    ds == [] ||
    (&& level < 3 && ds[0] < W && Found64(tb, base, va, level) == Word(ToWord(ds[0]))
     && IsTable(ds[0], level) && Leads(tb, Base(ds[0]), va, level + 1, ds[1..]))
  }

  /** What is read after them. */
  function After(tb: Tables, base: nat, va: nat, level: nat, ds: seq<nat>): Word
    requires level + |ds| <= 3
  {
    Found64(tb, if ds == [] then base else Base(ds[|ds| - 1]), va, level + |ds|)
  }

  /** Page of va in the leaf d, which maps 2^k bytes. */
  function LeafPage(d: nat, va: nat, k: nat): nat
    requires 12 <= k <= 39
  {
    d / P2(k) % P2(48 - k) * P2(k) + va / 4096 % P2(k - 12) * 4096
  }

  /** What a walk answers that ends at this level with this word, which is no table. */
  predicate Answers(r: Outcome, w: Word, va: nat, level: nat)
    requires level <= 3
  {
    match w
    case BusError => r == Fault(0x10)
    case Word(x) =>
      var d, k := Number(x), 12 + 9 * (3 - level);
      if !IsLeaf(d, level) then r == Fault(4 + level)
      else if d / 1024 % 2 == 0 then r == Fault(8 + level)
      else
        && r.Found? && r.shift == (if level == 3 then 0 else k)
        && Number(r.t.paPage) == LeafPage(d, va, k) && Number(r.t.ap) == d / 64 % 4
        && (r.t.pxn <==> d / P2(53) % 2 == 1) && (r.t.uxn <==> d / P2(54) % 2 == 1)
  }

  predicate Ends(w: Word, level: nat) {
    w.BusError? || !IsTable(Number(w.value), level)
  }

  lemma {:induction false} SlotIs(table: bv64, va: bv64, level: nat)
    requires level <= 3
    ensures Slot(table, va, level) == ToWord(Entry(Number(table), Number(va), level))
  {
    hide Number, Field, At, P2, ToWord;
    FieldIs(va, level);
    AtIs(table, Field(va, level));
    WordOf(Slot(table, va, level));
  }

  lemma {:induction false} KindIs(d: bv64, level: nat)
    requires level <= 3
    ensures IsTable(Number(d), level) <==> Bit(d, 1) && Bit(d, 2) && level < 3
    ensures IsLeaf(Number(d), level) <==> Bit(d, 1) && (Bit(d, 2) <==> level == 3)
    ensures Number(d) / 1024 % 2 == 0 <==> !Bit(d, 1 << 10)
  {
    hide Number, Bit;
    P2Small();
    P2Zero(0);
    P2Zero(1);
    hide P2;
    BitIs(d, 0);
    BitIs(d, 1);
    BitIs(d, 10);
  }

  lemma {:induction false} LeafPageIs(d: bv64, va: bv64, level: nat)
    requires level <= 3
    ensures
      Number(if level == 3 then Output(d) else BlockPage(d, va, level)) ==
        LeafPage(Number(d), Number(va), 12 + 9 * (3 - level))
  {
    hide Number, Output, BlockPage, P2;
    if level == 3 {
      OutputIs(d);
      P2Nine();
      P2Zero(0);
    } else {
      BlockIs(d, va, level);
    }
  }

  /** The answer at a word that is no table. */
  function Settled(w: Word, va: bv64, level: nat): Outcome
    requires level <= 3
  {
    match w
    case BusError => Fault(EXTERNAL)
    case Word(d) =>
      if !Bit(d, 1) || (!Bit(d, 2) && level == 3) then Fault(TRANS_L0 + level)
      else if !Bit(d, 1 << 10) then Fault(ACCESS_L0 + level)
      else if level == 3 then Found(Leaf(Output(d), d), 0)
      else Found(Leaf(BlockPage(d, va, level), d), Shift(level))
  }

  lemma DescendStep(tb: Tables, va: bv64, table: bv64, level: nat)
    requires level <= 3
    ensures
      var w := tb.read(Slot(table, va, level));
      Descend(tb, va, table, level) ==
        if w.Word? && Bit(w.value, 1) && Bit(w.value, 2) && level < 3 then Descend(tb, va, Output(w.value), level + 1)
        else Settled(w, va, level)
  {
    hide Slot, Output, BlockPage, Bit, Leaf, IsBlockShift;
  }

  lemma {:induction false} DescendEnds(tb: Tables, va: bv64, table: bv64, level: nat)
    requires level <= 3
    ensures
      var w := Found64(tb, Number(table), Number(va), level);
      Ends(w, level) ==> Answers(Descend(tb, va, table, level), w, Number(va), level)
  {
    hide Number, Slot, Output, BlockPage, Bit, P2, ToWord, Entry, Leaf, LeafPage, IsTable, IsLeaf, Descend;
    SlotIs(table, va, level);
    DescendStep(tb, va, table, level);
    match tb.read(Slot(table, va, level))
    case BusError =>
    case Word(d) =>
      KindIs(d, level);
      LeafPageIs(d, va, level);
      LeafIs(Output(d), d);
      if level < 3 {
        LeafIs(BlockPage(d, va, level), d);
      }
  }

  /** The loop follows the tables. */
  lemma {:induction false} DescendFollows(tb: Tables, va: bv64, table: bv64, level: nat, ds: seq<nat>)
    requires level + |ds| <= 3 && Leads(tb, Number(table), Number(va), level, ds)
    requires Ends(After(tb, Number(table), Number(va), level, ds), level + |ds|)
    ensures
      Answers(Descend(tb, va, table, level), After(tb, Number(table), Number(va), level, ds), Number(va),
        level + |ds|)
    decreases |ds|
  {
    hide Number, Slot, Output, Bit, P2, ToWord, Entry, Answers, Base, Ends, IsTable, IsLeaf, Descend, Settled;
    if ds == [] {
      DescendEnds(tb, va, table, level);
    } else {
      var d := ToWord(ds[0]);
      SlotIs(table, va, level);
      DescendStep(tb, va, table, level);
      ToWordIs(ds[0]);
      KindIs(d, level);
      BaseIs(d);
      assert ds[1..] != [] ==> ds[1..][|ds[1..]| - 1] == ds[|ds| - 1];
      DescendFollows(tb, va, Output(d), level + 1, ds[1..]);
    }
  }

  lemma {:induction false} BaseIs(d: bv64)
    ensures Number(Output(d)) == Base(Number(d))
  {
    hide Number, Output, P2;
    OutputIs(d);
  }

  lemma {:induction false} SomeChain(tb: Tables, va: nat, base: nat, level: nat) returns (ds: seq<nat>)
    requires level <= 3
    ensures level + |ds| <= 3 && Leads(tb, base, va, level, ds)
    ensures Ends(After(tb, base, va, level, ds), level + |ds|)
    decreases 3 - level
  {
    hide Number, ToWord, Entry, Base, P2;
    ds := [];
    var w := Found64(tb, base, va, level);
    if w.Word? && IsTable(Number(w.value), level) {
      hide IsTable;
      var d := Number(w.value);
      WordOf(w.value);
      NumberSmall(w.value);
      var rest := SomeChain(tb, va, Base(d), level + 1);
      ds := [d] + rest;
      assert ds[1..] == rest;
    }
  }

  lemma {:induction false} NumberSmall(x: bv64)
    ensures Number(x) < W
  {
    hide Number, Full, IsWord;
    NumberFull(x);
  }

  /** There is one chain to follow. */
  lemma {:induction false} OneChain(tb: Tables, va: nat, base: nat, level: nat, ds: seq<nat>, es: seq<nat>)
    requires level + |ds| <= 3 && Leads(tb, base, va, level, ds) && Ends(After(tb, base, va, level, ds), level + |ds|)
    requires level + |es| <= 3 && Leads(tb, base, va, level, es) && Ends(After(tb, base, va, level, es), level + |es|)
    ensures ds == es
    decreases |ds|
  {
    hide Number, ToWord, Entry, Base, P2, IsTable;
    if ds != [] {
      ToWordIs(ds[0]);
      if es != [] {
        ToWordIs(es[0]);
        assert ds[1..] != [] ==> ds[1..][|ds[1..]| - 1] == ds[|ds| - 1];
        assert es[1..] != [] ==> es[1..][|es[1..]| - 1] == es[|es| - 1];
        OneChain(tb, va, Base(ds[0]), level + 1, ds[1..], es[1..]);
        assert ds == [ds[0]] + ds[1..] && es == [es[0]] + es[1..];
      }
    } else if es != [] {
      ToWordIs(es[0]);
    }
  }

  /** Levels down to the pages: one for every nine bits above the offset, the first perhaps fewer. */
  function FirstLevel(bits: nat): (l: nat)
    requires 25 <= bits <= 48
    ensures l <= 2
  {
    if bits > 39 then 0 else if bits > 30 then 1 else 2
  }

  lemma FirstLevelIs(bits: nat)
    requires 25 <= bits <= 48
    ensures StartLevel(bits) == FirstLevel(bits)
  {
  }

  /** Number of the base register of the half the address lies in. */
  function Root(tb: Tables, va: nat): nat {
    Number(if UpperHalf(va) then tb.ttbr1 else tb.ttbr0)
  }

  /** The half's walks are on and the address belongs to it. */
  predicate Walks(tcr: nat, va: nat) {
    var up := UpperHalf(va);
    !WalkOff(tcr, up) && Extends(va, up, TagIgnored(tcr, up), RegionBits(tcr, up))
  }

  /**
   What a walk gives: a level-0 translation fault outside the region; inside, the
   answer of the first word that is no table descriptor, at the end of the one
   chain of tables that starts at the base register of the address's half.
   */
  lemma {:induction false} WalkMeans(tb: Tables, va: bv64) returns (ds: seq<nat>)
    ensures !Walks(Number(tb.tcr), Number(va)) ==> Walk(tb, va) == Fault(4)
    ensures
      Walks(Number(tb.tcr), Number(va)) ==>
        var v := Number(va);
        var base, l := Base(Root(tb, v)), FirstLevel(RegionBits(Number(tb.tcr), UpperHalf(v)));
        && l + |ds| <= 3 && Leads(tb, base, v, l, ds) && Ends(After(tb, base, v, l, ds), l + |ds|)
        && Answers(Walk(tb, va), After(tb, base, v, l, ds), v, l + |ds|)
  {
    hide Number, Upper, Disabled, Width, InRange, Extends, RegionBits, TagIgnored, WalkOff, UpperHalf, Output, Base, P2,
      Descend, Leads, After, Answers, Ends, StartLevel, FirstLevel;
    var v := Number(va);
    RegionIs(tb.tcr, va);
    ds := [];
    if Walks(Number(tb.tcr), v) {
      var r := if UpperHalf(v) then tb.ttbr1 else tb.ttbr0;
      var l := FirstLevel(RegionBits(Number(tb.tcr), UpperHalf(v)));
      FirstLevelIs(RegionBits(Number(tb.tcr), UpperHalf(v)));
      BaseIs(r);
      ds := SomeChain(tb, v, Base(Number(r)), l);
      DescendFollows(tb, va, Output(r), l, ds);
    }
  }

  /** Each half has its own base register. */
  lemma {:induction false} HalvesApart(tb: Tables, va: bv64, x: bv64)
    ensures Number(va) / P2(55) % 2 == 0 ==> Walk(tb.(ttbr1 := x), va) == Walk(tb, va)
    ensures Number(va) / P2(55) % 2 == 1 ==> Walk(tb.(ttbr0 := x), va) == Walk(tb, va)
  {
    hide Number, Upper, Disabled, Width, InRange, Descend, P2, Bit, StartLevel, Output;
    RegionIs(tb.tcr, va);
    var up := Upper(va);
    var t, l := Output(if up then tb.ttbr1 else tb.ttbr0), StartLevel(Width(tb.tcr, up));
    SameReads(tb, tb.(ttbr1 := x), va, t, l);
    SameReads(tb, tb.(ttbr0 := x), va, t, l);
  }

  lemma {:induction false} SameReads(tb: Tables, tb': Tables, va: bv64, table: bv64, level: nat)
    requires level <= 3 && tb'.read == tb.read
    ensures Descend(tb', va, table, level) == Descend(tb, va, table, level)
    decreases 3 - level
  {
    hide Descend, Slot, Output, Settled;
    var w := tb.read(Slot(table, va, level));
    DescendStep(tb, va, table, level);
    DescendStep(tb', va, table, level);
    if w.Word? && level < 3 {
      SameReads(tb, tb', va, Output(w.value), level + 1);
    }
  }

  // ---- Rights ----

  /** What the access permission field grants: read and write, by privilege. */
  lemma PermissionRows(t: Translation)
    ensures Number(t.ap) % 4 == 0 ==>
      && PermOk(Read, t, false) && PermOk(Write, t, false) && !PermOk(Read, t, true) && !PermOk(Write, t, true)
    ensures Number(t.ap) % 4 == 1 ==>
      && PermOk(Read, t, false) && PermOk(Write, t, false) && PermOk(Read, t, true) && PermOk(Write, t, true)
    ensures Number(t.ap) % 4 == 2 ==>
      && PermOk(Read, t, false) && !PermOk(Write, t, false) && !PermOk(Read, t, true) && !PermOk(Write, t, true)
    ensures Number(t.ap) % 4 == 3 ==>
      && PermOk(Read, t, false) && !PermOk(Write, t, false) && PermOk(Read, t, true) && !PermOk(Write, t, true)
    ensures PermOk(Execute, t, false) <==> !t.pxn
    ensures PermOk(Execute, t, true) <==> PermOk(Read, t, true) && !t.uxn
  {
    hide Number, Keep, P2;
    ApBits(t.ap);
  }

  lemma ApRows(ap: bv64)
    ensures ap & 3 == 0 <==> !Bit(ap, 1) && !Bit(ap, 2)
    ensures ap & 3 == 1 <==> Bit(ap, 1) && !Bit(ap, 2)
    ensures ap & 3 == 2 <==> !Bit(ap, 1) && Bit(ap, 2)
    ensures ap & 3 == 3 <==> Bit(ap, 1) && Bit(ap, 2)
  {
  }

  lemma {:induction false} ApBits(ap: bv64)
    ensures ap & 3 == 0 <==> Number(ap) % 4 == 0
    ensures ap & 3 == 1 <==> Number(ap) % 4 == 1
    ensures ap & 3 == 2 <==> Number(ap) % 4 == 2
    ensures ap & 3 == 3 <==> Number(ap) % 4 == 3
  {
    hide Number, Bit;
    ApRows(ap);
    P2Zero(0);
    P2Zero(1);
    hide P2;
    BitIs(ap, 0);
    BitIs(ap, 1);
  }

  // ---- Addresses ----

  lemma OffsetRaw(page: bv64, va: bv64)
    ensures (page | (va & 0xfff)) >> 12 == page >> 12
    ensures page & 0xfff == 0 ==> (page | (va & 0xfff)) & 0xfff == va & 0xfff
  {
  }

  lemma OffsetRight(page: bv64, va: bv64)
    ensures Right64(Tlb.WithOffset(page, va), 12) == (page | (va & 0xfff)) >> 12
  {
  }

  lemma OffsetKeep(page: bv64, va: bv64)
    ensures Keep(Tlb.WithOffset(page, va), 12) == (page | (va & 0xfff)) & 0xfff
  {
  }

  lemma Twelve(x: bv64)
    ensures Right64(x, 12) == x >> 12 && Keep(x, 12) == x & 0xfff
  {
  }

  lemma {:induction false} OffsetIs(page: bv64, va: bv64)
    requires Number(page) % 4096 == 0
    ensures Number(Tlb.WithOffset(page, va)) == Number(page) + Number(va) % 4096
  {
    hide Number, Right64, Keep, P2, Tlb.WithOffset;
    var p := Tlb.WithOffset(page, va);
    P2Nine();
    OffsetRight(page, va);
    OffsetKeep(page, va);
    Twelve(page);
    Twelve(va);
    KeepNumber(page, 12);
    NumberZero(Keep(page, 12));
    OffsetRaw(page, va);
    KeepNumber(p, 12);
    KeepNumber(va, 12);
    RightNumber(p, 12);
    RightNumber(page, 12);
    DivMod(Number(p), 4096);
    DivMod(Number(page), 4096);
  }

  /** The output bits of a leaf above the offset bits of the address. */
  lemma {:induction false} LeafAddress(d: nat, va: nat, k: nat)
    requires 12 <= k <= 39
    ensures LeafPage(d, va, k) + va % 4096 == d / P2(k) % P2(48 - k) * P2(k) + va % P2(k)
    ensures LeafPage(d, va, k) % 4096 == 0
  {
    hide P2;
    P2Nine();
    DivP2P2(va, 12, k - 12);
    P2Add(12, k - 12);
    var h, m := d / P2(k) % P2(48 - k), va / 4096 % P2(k - 12);
    Assoc(h, 4096, P2(k - 12));
    Distrib(h * P2(k - 12), m, 4096);
    MulDiv(h * P2(k - 12) + m, 4096);
  }

  /**
   Where an access goes that the tables map: some leaf, at the end of the chain,
   grants it, and the address is the leaf's output bits with the offset of va.
   */
  lemma {:induction false} AddressMeans(c: Tlb.Cpu, tb: Tables, va: bv64, acc: Access) returns (d: nat, k: nat)
    requires c.mmu && TlbRuns.Uncached(c, tb, va, acc).Address?
    ensures 12 <= k <= 39 && Walk(tb, va).Found?
    ensures
      Number(TlbRuns.Uncached(c, tb, va, acc).pa) == d / P2(k) % P2(48 - k) * P2(k) + Number(va) % P2(k)
    ensures Number(Walk(tb, va).t.ap) == d / 64 % 4 && PermOk(acc, Walk(tb, va).t, Tlb.Unprivileged(c))
  {
    hide Number, Walk, Walks, Leads, After, Ends, P2, Tlb.WithOffset, PermOk, LeafPage, IsLeaf, Root, Base;
    var ds := WalkMeans(tb, va);
    var v := Number(va);
    var l := FirstLevel(RegionBits(Number(tb.tcr), UpperHalf(v)));
    var w := After(tb, Base(Root(tb, v)), v, l, ds);
    d, k := Number(w.value), 12 + 9 * (3 - (l + |ds|));
    LeafAddress(d, v, k);
    OffsetIs(Walk(tb, va).t.paPage, va);
  }

  /** An abort is the walk's, or the refusal of the leaf it found. */
  lemma AbortMeans(c: Tlb.Cpu, tb: Tables, va: bv64, acc: Access)
    requires TlbRuns.Uncached(c, tb, va, acc).Abort?
    ensures
      var fsc := TlbRuns.Uncached(c, tb, va, acc).fsc;
      && c.mmu
      && match Walk(tb, va)
         case Fault(f) => fsc == f
         case Found(t, _) => fsc == 0x0f && !PermOk(acc, t, Tlb.Unprivileged(c))
  {
    hide Walk, PermOk, Tlb.WithOffset;
  }

  // ---- The operand of a TLBI by address ----

  function Named(x: bv64): bv64 {
    (x & 0xfff_ffff_ffff) << 12
  }

  lemma NamedLow(x: bv64)
    ensures Keep(Named(x), 12) == 0
  {
  }

  lemma NamedHigh(x: bv64)
    ensures Right64(Named(x), 12) == Keep(x, 44)
  {
  }

  lemma {:induction false} NamedIs(x: bv64)
    ensures Number(Named(x)) == Number(x) % P2(44) * 4096 < P2(56)
  {
    hide Number, Named, Keep, Right64, P2;
    P2Nine();
    NamedLow(x);
    NamedHigh(x);
    KeepNumber(Named(x), 12);
    RightNumber(Named(x), 12);
    KeepNumber(x, 44);
    NumberZero(0);
    DivMod(Number(Named(x)), 4096);
    P2Add(44, 12);
    DivMod(Number(x), P2(44));
  }

  const TAG: bv64 := 0xff00_0000_0000_0000

  lemma TagRaw(v: bv64)
    requires v & 0xff00_0000_0000_0000 == 0
    ensures v | 0xff00_0000_0000_0000 == v + 0xff00_0000_0000_0000
  {
  }

  lemma NamedTag(x: bv64)
    ensures Named(x) & 0xff00_0000_0000_0000 == 0
  {
  }

  lemma PlusTag(v: bv64)
    ensures Plus64(v, TAG) == v + 0xff00_0000_0000_0000
  {
  }

  lemma TagFlips()
    ensures Flip64(Keep(TAG_FREE, 56)) == TAG
  {
  }

  const TAG_FREE: bv64 := 0xffff_ffff_ffff_ffff

  lemma {:induction false} TagIs()
    ensures Number(TAG) == W - P2(56)
  {
    hide Number, Keep, Flip64;
    TagFlips();
    NumberFlip(Keep(TAG_FREE, 56));
    KeepNumber(TAG_FREE, 56);
    NumberZero(0);
    NumberFlip(0);
    FlipZero();
    P2Small();
    hide P2;
    P2Word();
    P2Add(56, 8);
    DivUnique(W - 1, P2(56), 255, P2(56) - 1);
  }

  lemma FlipZero()
    ensures Flip64(0) == TAG_FREE
  {
  }

  lemma TlbiForm(x: bv64)
    ensures Tlb.TlbiVa(x) == if Bit(Named(x), 1 << 55) then Named(x) | 0xff00_0000_0000_0000 else Named(x)
  {
    hide Bit;
  }

  /** A named address with its top byte set. */
  lemma {:induction false} TaggedIs(x: bv64)
    ensures
      var v := Number(x) % P2(44) * 4096;
      v < P2(56) && Number(Named(x) | 0xff00_0000_0000_0000) == v + W - P2(56)
  {
    hide Number, Named, Plus64, P2;
    NamedIs(x);
    NamedTag(x);
    TagRaw(Named(x));
    PlusTag(Named(x));
    NumberPlus(Named(x), TAG);
    TagIs();
    P2Word();
  }

  /** Bits 43 to 0 of the operand are bits 55 to 12 of the address, which is sign-extended from there. */
  lemma {:induction false} TlbiVaIs(x: bv64)
    ensures
      var v := Number(x) % P2(44) * 4096;
      Number(Tlb.TlbiVa(x)) == if 2 * v >= P2(56) then v + W - P2(56) else v
  {
    hide Number, Named, Bit, P2, Tlb.TlbiVa;
    NamedIs(x);
    TlbiForm(x);
    BitIs(Named(x), 55);
    TopDigit(Number(Named(x)));
    TaggedIs(x);
  }

  lemma {:induction false} TopDigit(n: nat)
    requires n < P2(56)
    ensures n / P2(55) % 2 == 1 <==> 2 * n >= P2(56)
  {
    assert P2(56) == 2 * P2(55);
    hide P2;
    DivMod(n, P2(55));
    DivUnique(n, P2(55), if n >= P2(55) then 1 else 0, if n >= P2(55) then n - P2(55) else n);
  }
}
