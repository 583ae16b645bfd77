/**
 CRC32 and CRC32C: the bit-serial reflected definition, and the table-driven
 form (one byte at a time, or eight bytes in one combined lookup) that computes it.
 */
module Crc {

  const CRC32: bv32 := 0xEDB88320
  const CRC32C: bv32 := 0x82F63B78

  // ---- bit-serial definition ----

  /** Divide one bit out of the reflected remainder. */
  function Step(c: bv32, poly: bv32): bv32 {
    (c >> 1) ^ (poly & (0 - (c & 1)))
  }

  function Steps(c: bv32, poly: bv32, n: nat): bv32
    decreases n
  {
    if n == 0 then c else Steps(Step(c, poly), poly, n - 1)
  }

  /** Feed the n low bits of w, lowest first. */
  function Serial(acc: bv32, w: bv32, poly: bv32, n: nat): bv32
    decreases n
  {
    if n == 0 then acc else Serial(Step(acc ^ (w & 1), poly), w >> 1, poly, n - 1)
  }

  /** Byte i of a 64-bit datum. */
  function ByteOf(data: bv64, i: nat): (b: bv32)
    requires i < 8
    ensures b >> 8 == 0
  {
    ((data >> (8 * i)) & 0xff) as bv32
  }

  /** The CRC of the datum's first `bytes` bytes: every bit of every byte in turn. */
  function Reference(acc: bv32, data: bv64, bytes: nat, poly: bv32): bv32
    requires bytes <= 8
  {
    if bytes == 0 then acc
    else Serial(Reference(acc, data, bytes - 1, poly), ByteOf(data, bytes - 1), poly, 8)
  }

  // ---- linearity over GF(2) ----

  function Xor(a: bv32, b: bv32): bv32 {
    a ^ b
  }

  function Half(w: bv32): bv32 {
    w >> 1
  }

  predicate Even(w: bv32) {
    w & 1 == 0
  }

  lemma StepCases(c: bv32, poly: bv32)
    ensures Even(c) ==> Step(c, poly) == Half(c)
    ensures !Even(c) ==> Step(c, poly) == Xor(Half(c), poly)
  {
    if c & 1 == 0 {
      assert 0 - (c & 1) == 0;
    } else {
      assert c & 1 == 1;
      assert 0 - (c & 1) == 0xffff_ffff;
    }
  }

  lemma XorBits(a: bv32, b: bv32)
    ensures Half(Xor(a, b)) == Xor(Half(a), Half(b))
    ensures Even(Xor(a, b)) <==> Even(a) == Even(b)
  {
  }

  lemma XorAssoc(a: bv32, b: bv32, c: bv32)
    ensures Xor(Xor(a, b), c) == Xor(a, Xor(b, c))
  {
  }

  lemma XorComm(a: bv32, b: bv32)
    ensures Xor(a, b) == Xor(b, a)
    ensures Xor(a, a) == 0 && Xor(a, 0) == a
  {
  }

  lemma {:induction false} StepLinear(a: bv32, b: bv32, poly: bv32)
    ensures Step(Xor(a, b), poly) == Xor(Step(a, poly), Step(b, poly))
  {
    hide Step, Xor, Half, Even;
    StepCases(a, poly);
    StepCases(b, poly);
    StepCases(Xor(a, b), poly);
    XorBits(a, b);
    var x, y := Half(a), Half(b);
    XorAssoc(x, y, poly);
    XorAssoc(x, poly, y);
    XorAssoc(x, poly, Xor(poly, y));
    XorAssoc(poly, poly, y);
    XorComm(y, poly);
    XorComm(poly, poly);
    XorComm(y, 0);
    XorComm(0, y);
  }

  lemma {:induction false} StepsLinear(a: bv32, b: bv32, poly: bv32, n: nat)
    ensures Steps(Xor(a, b), poly, n) == Xor(Steps(a, poly, n), Steps(b, poly, n))
    decreases n
  {
    hide Step, Xor;
    if n > 0 {
      StepLinear(a, b, poly);
      StepsLinear(Step(a, poly), Step(b, poly), poly, n - 1);
    }
  }

  lemma {:induction false} StepsAdd(c: bv32, poly: bv32, m: nat, n: nat)
    ensures Steps(c, poly, m + n) == Steps(Steps(c, poly, m), poly, n)
    decreases m
  {
    hide Step;
    if m > 0 {
      StepsAdd(Step(c, poly), poly, m - 1, n);
    }
  }

  /** Shifting n bits out, one at a time. */
  function Drop(w: bv32, n: nat): bv32
    decreases n
  {
    if n == 0 then w else Drop(Half(w), n - 1)
  }

  /** Xoring in the lowest bit, as one step of the definition does. */
  function Feed(acc: bv32, w: bv32, poly: bv32): bv32 {
    Step(Xor(acc, w & 1), poly)
  }

  lemma {:induction false} SerialOne(acc: bv32, w: bv32, poly: bv32, n: nat)
    requires n > 0
    ensures Serial(acc, w, poly, n) == Serial(Feed(acc, w, poly), Half(w), poly, n - 1)
  {
    hide Step;
  }

  lemma LowBit(acc: bv32, w: bv32)
    ensures Xor(acc, w) == Xor(Xor(acc, w & 1), w & 0xffff_fffe)
    ensures Even(w & 0xffff_fffe) && Half(w & 0xffff_fffe) == Half(w)
  {
  }

  lemma {:induction false} FeedOne(acc: bv32, w: bv32, poly: bv32)
    ensures Step(Xor(acc, w), poly) == Xor(Feed(acc, w, poly), Half(w))
  {
    hide Step, Xor, Half, Even;
    LowBit(acc, w);
    StepLinear(Xor(acc, w & 1), w & 0xffff_fffe, poly);
    StepCases(w & 0xffff_fffe, poly);
  }

  /** Feeding bits one by one is xoring them in first; only the unfed ones remain apart. */
  lemma {:induction false} SerialIsXor(acc: bv32, w: bv32, poly: bv32, n: nat)
    ensures Steps(Xor(acc, w), poly, n) == Xor(Serial(acc, w, poly, n), Drop(w, n))
    decreases n
  {
    if n > 0 {
      FeedOne(acc, w, poly);
      SerialOne(acc, w, poly, n);
      SerialIsXor(Feed(acc, w, poly), Half(w), poly, n - 1);
      SerialXorStep(acc, w, poly, n);
    }
  }

  lemma {:induction false} SerialXorStep(acc: bv32, w: bv32, poly: bv32, n: nat)
    requires n > 0
    requires Step(Xor(acc, w), poly) == Xor(Feed(acc, w, poly), Half(w))
    requires Serial(acc, w, poly, n) == Serial(Feed(acc, w, poly), Half(w), poly, n - 1)
    requires Steps(Xor(Feed(acc, w, poly), Half(w)), poly, n - 1)
          == Xor(Serial(Feed(acc, w, poly), Half(w), poly, n - 1), Drop(Half(w), n - 1))
    ensures Steps(Xor(acc, w), poly, n) == Xor(Serial(acc, w, poly, n), Drop(w, n))
  {
    hide Step, Xor, Feed, Half, Serial;
  }

  lemma HalvedEightTimes(w: bv32)
    ensures Half(Half(Half(Half(Half(Half(Half(Half(w)))))))) == w >> 8
  {
  }

  lemma {:induction false} DropOne(w: bv32, n: nat)
    requires n > 0
    ensures Drop(w, n) == Drop(Half(w), n - 1)
  {
    hide Half;
  }

  lemma {:induction false} DropByte(w: bv32)
    ensures Drop(w, 8) == Half(Half(Half(Half(Half(Half(Half(Half(w))))))))
  {
    hide Half;
    var a := Half(Half(Half(Half(w))));
    DropOne(w, 8);
    DropOne(Half(w), 7);
    DropOne(Half(Half(w)), 6);
    DropOne(Half(Half(Half(w))), 5);
    DropOne(a, 4);
    DropOne(Half(a), 3);
    DropOne(Half(Half(a)), 2);
    DropOne(Half(Half(Half(a))), 1);
  }

  /** One byte of the definition is eight divisions of the xored remainder. */
  lemma {:induction false} SerialByte(acc: bv32, b: bv32, poly: bv32)
    requires b >> 8 == 0
    ensures Serial(acc, b, poly, 8) == Steps(Xor(acc, b), poly, 8)
  {
    HalvedEightTimes(b);
    hide Xor, Half, Step, Serial, Steps;
    SerialIsXor(acc, b, poly, 8);
    DropByte(b);
    XorComm(Serial(acc, b, poly, 8), 0);
  }

  lemma {:induction false} StepsEven(w: bv32, poly: bv32, n: nat)
    requires n > 0 && Even(w)
    ensures Steps(w, poly, n) == Steps(Half(w), poly, n - 1)
  {
    hide Step, Half, Even;
    StepCases(w, poly);
  }

  lemma {:induction false} FourEven(w: bv32, poly: bv32, n: nat)
    requires n >= 4 && Even(w) && Even(Half(w)) && Even(Half(Half(w))) && Even(Half(Half(Half(w))))
    ensures Steps(w, poly, n) == Steps(Half(Half(Half(Half(w)))), poly, n - 4)
  {
    hide Step, Half, Even;
    StepsEven(w, poly, n);
    StepsEven(Half(w), poly, n - 1);
    StepsEven(Half(Half(w)), poly, n - 2);
    StepsEven(Half(Half(Half(w))), poly, n - 3);
  }

  lemma ClearByteIsEven(w: bv32)
    requires w & 0xff == 0
    ensures Even(w) && Even(Half(w)) && Even(Half(Half(w))) && Even(Half(Half(Half(w))))
    ensures
      var a := Half(Half(Half(Half(w))));
      Even(a) && Even(Half(a)) && Even(Half(Half(a))) && Even(Half(Half(Half(a))))
  {
  }

  /** With eight zero bits below, eight divisions are a shift. */
  lemma {:induction false} EightClear(w: bv32, poly: bv32)
    requires w & 0xff == 0
    ensures Steps(w, poly, 8) == w >> 8
  {
    ClearByteIsEven(w);
    HalvedEightTimes(w);
    EightEven(w, poly);
  }

  lemma {:induction false} EightEven(w: bv32, poly: bv32)
    requires Even(w) && Even(Half(w)) && Even(Half(Half(w))) && Even(Half(Half(Half(w))))
    requires
      var a := Half(Half(Half(Half(w))));
      Even(a) && Even(Half(a)) && Even(Half(Half(a))) && Even(Half(Half(Half(a))))
    ensures Steps(w, poly, 8) == Half(Half(Half(Half(Half(Half(Half(Half(w))))))))
  {
    hide Step, Half, Even;
    FourEven(w, poly, 8);
    FourEven(Half(Half(Half(Half(w)))), poly, 4);
  }

  // ---- bytes of a word ----

  /** A word as its four bytes in place. */
  function Join(b0: bv32, b1: bv32, b2: bv32, b3: bv32): bv32 {
    Xor(Xor(Xor(b0, b1 << 8), b2 << 16), b3 << 24)
  }

  lemma JoinWord(x: bv32)
    ensures x == Join(x & 0xff, (x >> 8) & 0xff, (x >> 16) & 0xff, x >> 24)
    ensures (x & 0xff) >> 8 == 0 && ((x >> 8) & 0xff) >> 8 == 0 && ((x >> 16) & 0xff) >> 8 == 0 && (x >> 24) >> 8 == 0
  {
  }

  lemma ShiftUp(w: bv32)
    requires w >> 24 == 0
    ensures (w << 8) & 0xff == 0 && (w << 8) >> 8 == w
  {
  }

  lemma ByteShifts(b: bv32)
    requires b >> 8 == 0
    ensures b >> 24 == 0 && (b << 8) >> 24 == 0 && (b << 16) >> 24 == 0
    ensures (b << 8) << 8 == b << 16 && (b << 16) << 8 == b << 24
  {
  }

  /** A byte moved up by eight takes eight more divisions to come down. */
  lemma {:induction false} StepsShifted(w: bv32, poly: bv32, n: nat)
    requires w >> 24 == 0 && n >= 8
    ensures Steps(w << 8, poly, n) == Steps(w, poly, n - 8)
  {
    ShiftUp(w);
    EightClear(w << 8, poly);
    StepsAdd(w << 8, poly, 8, n - 8);
  }

  lemma {:induction false} StepsPlaced(b: bv32, poly: bv32, n: nat)
    requires b >> 8 == 0 && n >= 24
    ensures Steps(b << 8, poly, n) == Steps(b, poly, n - 8)
    ensures Steps(b << 16, poly, n) == Steps(b, poly, n - 16)
    ensures Steps(b << 24, poly, n) == Steps(b, poly, n - 24)
  {
    hide Steps;
    ByteShifts(b);
    StepsShifted(b, poly, n);
    StepsShifted(b, poly, n - 8);
    StepsShifted(b, poly, n - 16);
    StepsShifted(b << 8, poly, n);
    StepsShifted(b << 8, poly, n - 8);
    StepsShifted(b << 16, poly, n);
  }

  /** n divisions of a word, byte by byte: what the sliced lookup adds up. */
  lemma {:induction false} StepsJoin(b0: bv32, b1: bv32, b2: bv32, b3: bv32, poly: bv32, n: nat)
    requires b1 >> 8 == 0 && b2 >> 8 == 0 && b3 >> 8 == 0 && n >= 24
    ensures Steps(Join(b0, b1, b2, b3), poly, n)
         == Xor(Xor(Xor(Steps(b0, poly, n), Steps(b1, poly, n - 8)), Steps(b2, poly, n - 16)), Steps(b3, poly, n - 24))
  {
    StepsPlaced(b1, poly, n);
    StepsPlaced(b2, poly, n);
    StepsPlaced(b3, poly, n);
    hide Steps, Xor;
    StepsLinear(b0, b1 << 8, poly, n);
    StepsLinear(Xor(b0, b1 << 8), b2 << 16, poly, n);
    StepsLinear(Xor(Xor(b0, b1 << 8), b2 << 16), b3 << 24, poly, n);
  }

  /** Absorbing a byte after n divisions is absorbing it in place before them. */
  lemma {:induction false} Absorb(x: bv32, n: nat, b: bv32, s: bv32, poly: bv32)
    requires Steps(s, poly, n) == b
    ensures Steps(Xor(Steps(x, poly, n), b), poly, 8) == Steps(Xor(x, s), poly, n + 8)
  {
    hide Steps, Xor;
    StepsLinear(x, s, poly, n);
    StepsAdd(Xor(x, s), poly, n, 8);
  }

  /** Four bytes fed in turn are one word xored in and 32 divisions. */
  lemma {:induction false} FourBytes(acc: bv32, b0: bv32, b1: bv32, b2: bv32, b3: bv32, poly: bv32)
    requires b0 >> 8 == 0 && b1 >> 8 == 0 && b2 >> 8 == 0 && b3 >> 8 == 0
    ensures Serial(Serial(Serial(Serial(acc, b0, poly, 8), b1, poly, 8), b2, poly, 8), b3, poly, 8)
         == Steps(Xor(acc, Join(b0, b1, b2, b3)), poly, 32)
  {
    PlacedBytes(b1, b2, b3, poly);
    FourBytesJoin(acc, b0, b1, b2, b3);
    hide Steps, Xor, Serial, Join;
    var x1 := Xor(acc, b0);
    var x2 := Xor(x1, b1 << 8);
    var x3 := Xor(x2, b2 << 16);
    SerialByte(acc, b0, poly);
    SerialByte(Steps(x1, poly, 8), b1, poly);
    Absorb(x1, 8, b1, b1 << 8, poly);
    SerialByte(Steps(x2, poly, 16), b2, poly);
    Absorb(x2, 16, b2, b2 << 16, poly);
    SerialByte(Steps(x3, poly, 24), b3, poly);
    Absorb(x3, 24, b3, b3 << 24, poly);
  }

  lemma {:induction false} PlacedBytes(b1: bv32, b2: bv32, b3: bv32, poly: bv32)
    requires b1 >> 8 == 0 && b2 >> 8 == 0 && b3 >> 8 == 0
    ensures Steps(b1 << 8, poly, 8) == b1 && Steps(b2 << 16, poly, 16) == b2 && Steps(b3 << 24, poly, 24) == b3
  {
    ByteShifts(b1);
    ByteShifts(b2);
    ByteShifts(b3);
    assert Steps(b1, poly, 0) == b1 && Steps(b2, poly, 0) == b2 && Steps(b3, poly, 0) == b3;
    hide Steps;
    StepsShifted(b1, poly, 8);
    StepsShifted(b2 << 8, poly, 16);
    StepsShifted(b2, poly, 8);
    StepsPlaced(b3, poly, 24);
  }

  lemma FourBytesJoin(acc: bv32, b0: bv32, b1: bv32, b2: bv32, b3: bv32)
    ensures Xor(Xor(Xor(Xor(acc, b0), b1 << 8), b2 << 16), b3 << 24) == Xor(acc, Join(b0, b1, b2, b3))
  {
    XorAssoc(acc, b0, b1 << 8);
    XorAssoc(acc, Xor(b0, b1 << 8), b2 << 16);
    XorAssoc(acc, Xor(Xor(b0, b1 << 8), b2 << 16), b3 << 24);
    hide Xor;
  }

  // ---- the eight-byte form ----

  function Low(data: bv64): bv32 {
    (data & 0xffff_ffff) as bv32
  }

  function High(data: bv64): bv32 {
    ((data >> 32) & 0xffff_ffff) as bv32
  }

  lemma Byte0(data: bv64)
    ensures ByteOf(data, 0) == Low(data) & 0xff
  {
    assert data >> (8 * 0) == data >> 0;
  }

  lemma Byte1(data: bv64)
    ensures ByteOf(data, 1) == (Low(data) >> 8) & 0xff
  {
    assert data >> (8 * 1) == data >> 8;
  }

  lemma Byte2(data: bv64)
    ensures ByteOf(data, 2) == (Low(data) >> 16) & 0xff
  {
    assert data >> (8 * 2) == data >> 16;
  }

  lemma Byte3(data: bv64)
    ensures ByteOf(data, 3) == Low(data) >> 24
  {
    assert data >> (8 * 3) == data >> 24;
  }

  lemma Byte4(data: bv64)
    ensures ByteOf(data, 4) == High(data) & 0xff
  {
    assert data >> (8 * 4) == data >> 32;
  }

  lemma Byte5(data: bv64)
    ensures ByteOf(data, 5) == (High(data) >> 8) & 0xff
  {
    assert data >> (8 * 5) == data >> 40;
  }

  lemma Byte6(data: bv64)
    ensures ByteOf(data, 6) == (High(data) >> 16) & 0xff
  {
    assert data >> (8 * 6) == data >> 48;
  }

  lemma Byte7(data: bv64)
    ensures ByteOf(data, 7) == High(data) >> 24
  {
    assert data >> (8 * 7) == data >> 56;
  }

  lemma {:induction false} DatumBytes(data: bv64)
    ensures Low(data) == Join(ByteOf(data, 0), ByteOf(data, 1), ByteOf(data, 2), ByteOf(data, 3))
    ensures High(data) == Join(ByteOf(data, 4), ByteOf(data, 5), ByteOf(data, 6), ByteOf(data, 7))
  {
    hide ByteOf, Low, High, Join;
    Byte0(data);
    Byte1(data);
    Byte2(data);
    Byte3(data);
    Byte4(data);
    Byte5(data);
    Byte6(data);
    Byte7(data);
    JoinWord(Low(data));
    JoinWord(High(data));
  }

  /** The whole definition over eight bytes: 64 divisions of the low word, 32 of the high one. */
  lemma {:induction false} ReferenceEight(acc: bv32, data: bv64, poly: bv32)
    ensures Reference(acc, data, 8, poly)
         == Xor(Steps(Xor(acc, Low(data)), poly, 64), Steps(High(data), poly, 32))
  {
    hide Serial, Steps, Xor, Low, High, Join, ByteOf;
    ReferenceUnfold(acc, data, poly);
    DatumBytes(data);
    var r4 := Steps(Xor(acc, Low(data)), poly, 32);
    FourBytes(acc, ByteOf(data, 0), ByteOf(data, 1), ByteOf(data, 2), ByteOf(data, 3), poly);
    FourBytes(r4, ByteOf(data, 4), ByteOf(data, 5), ByteOf(data, 6), ByteOf(data, 7), poly);
    StepsLinear(r4, High(data), poly, 32);
    StepsAdd(Xor(acc, Low(data)), poly, 32, 32);
  }

  lemma {:induction false} ReferenceUnfold(acc: bv32, data: bv64, poly: bv32)
    ensures
      var r4 := Serial(Serial(Serial(Serial(acc, ByteOf(data, 0), poly, 8), ByteOf(data, 1), poly, 8),
                              ByteOf(data, 2), poly, 8), ByteOf(data, 3), poly, 8);
      Reference(acc, data, 8, poly)
        == Serial(Serial(Serial(Serial(r4, ByteOf(data, 4), poly, 8), ByteOf(data, 5), poly, 8),
                         ByteOf(data, 6), poly, 8), ByteOf(data, 7), poly, 8)
  {
    hide Serial, ByteOf;
    assert Reference(acc, data, 0, poly) == acc;
    ReferenceOne(acc, data, 1, poly);
    ReferenceOne(acc, data, 2, poly);
    ReferenceOne(acc, data, 3, poly);
    ReferenceOne(acc, data, 4, poly);
    ReferenceOne(acc, data, 5, poly);
    ReferenceOne(acc, data, 6, poly);
    ReferenceOne(acc, data, 7, poly);
    ReferenceOne(acc, data, 8, poly);
  }

  lemma ReferenceOne(acc: bv32, data: bv64, k: nat, poly: bv32)
    requires 1 <= k <= 8
    ensures Reference(acc, data, k, poly) == Serial(Reference(acc, data, k - 1, poly), ByteOf(data, k - 1), poly, 8)
  {
  }

  /** One table lookup per byte: a shift and the low byte's eight divisions. */
  lemma {:induction false} ByteStep(x: bv32, poly: bv32)
    ensures Xor(x >> 8, Steps(x & 0xff, poly, 8)) == Steps(x, poly, 8)
  {
    SplitLowByte(x);
    EightClear(x & 0xffff_ff00, poly);
    hide Steps, Xor;
    StepsLinear(x & 0xffff_ff00, x & 0xff, poly, 8);
  }

  lemma SplitLowByte(x: bv32)
    ensures Xor(x & 0xffff_ff00, x & 0xff) == x
    ensures (x & 0xffff_ff00) & 0xff == 0 && (x & 0xffff_ff00) >> 8 == x >> 8
  {
  }

  // ---- the tables ----

  /** Entry i of table j is the byte i after j + 1 bytes' worth of divisions. */
  function Entry(i: nat, poly: bv32, j: nat): bv32
    requires i < 256
  {
    Steps(i as bv32, poly, 8 * (j + 1))
  }

  lemma StepsNone(c: bv32, poly: bv32)
    ensures Steps(c, poly, 0) == c
  {
  }

  lemma {:induction false} StepsLast(c: bv32, poly: bv32, n: nat)
    ensures Steps(c, poly, n + 1) == (Steps(c, poly, n) >> 1) ^ (poly & (0 - (Steps(c, poly, n) & 1)))
  {
    StepsAdd(c, poly, n, 1);
    var x := Steps(c, poly, n);
    assert Steps(x, poly, 1) == Step(x, poly) by {
      hide Step;
      assert Steps(x, poly, 1) == Steps(Step(x, poly), poly, 0);
    }
    hide Steps;
  }

  /** The table index of a word's low byte. */
  function Index(x: bv32): (k: nat)
    ensures k < 256 && k as bv32 == x & 0xff
  {
    MaskBound(x);
    IntAndBack(x & 0xff);
    (x & 0xff) as int
  }

  lemma MaskBound(x: bv32)
    ensures (x & 0xff) as int < 256
  {
  }

  lemma IntAndBack(b: bv32)
    ensures (b as int) as bv32 == b
  {
  }

  /** One table lookup: shift the remainder down and add the entry of the byte shifted out. */
  function Lookup(x: bv32, e: bv32): bv32 {
    Xor(x >> 8, e)
  }

  /** A lookup in table 0 is one byte's worth of divisions. */
  lemma {:induction false} LookupIsByte(x: bv32, poly: bv32)
    ensures Lookup(x, Entry(Index(x), poly, 0)) == Steps(x, poly, 8)
  {
    hide Steps, Xor, Index;
    ByteStep(x, poly);
  }

  /** Each table is the one before it, one byte further. */
  lemma {:induction false} NextEntry(i: nat, poly: bv32, j: nat)
    requires i < 256 && 1 <= j
    ensures Entry(i, poly, j) == Lookup(Entry(i, poly, j - 1), Entry(Index(Entry(i, poly, j - 1)), poly, 0))
  {
    hide Steps, Lookup, Index;
    LookupIsByte(Entry(i, poly, j - 1), poly);
    StepsAdd(i as bv32, poly, 8 * j, 8);
  }

  /** A table holds the entries of polynomial `poly`. */
  ghost predicate Built(t: array2<bv32>, poly: bv32)
    requires t.Length0 == 8 && t.Length1 == 256
    reads t
  {
    forall j: nat, i: nat :: j < 8 && i < 256 ==> t[j, i] == Entry(i, poly, j)
  }

  method TabInit(t: array2<bv32>, poly: bv32)
    requires t.Length0 == 8 && t.Length1 == 256
    modifies t
    ensures Built(t, poly)
  {
    hide Entry;
    var i := 0;
    while i < 256
      invariant i <= 256
      invariant forall k: nat :: k < i ==> t[0, k] == Entry(k, poly, 0)
    {
      var c := FirstEntry(i, poly);
      t[0, i] := c;
      i := i + 1;
    }
    FillRows(t, poly);
  }

  /** Tables 1 to 7, each from the one before. */
  method FillRows(t: array2<bv32>, poly: bv32)
    requires t.Length0 == 8 && t.Length1 == 256
    requires forall k: nat :: k < 256 ==> t[0, k] == Entry(k, poly, 0)
    modifies t
    ensures Built(t, poly)
  {
    hide Entry, Lookup, Index;
    var i := 0;
    while i < 256
      invariant i <= 256
      invariant forall k: nat :: k < 256 ==> t[0, k] == Entry(k, poly, 0)
      invariant forall j: nat, k: nat :: j < 8 && k < i ==> t[j, k] == Entry(k, poly, j)
    {
      var j := 1;
      while j < 8
        invariant 1 <= j <= 8
        invariant forall k: nat :: k < 256 ==> t[0, k] == Entry(k, poly, 0)
        invariant forall l: nat, k: nat :: l < 8 && k < i ==> t[l, k] == Entry(k, poly, l)
        invariant forall l: nat :: l < j ==> t[l, i] == Entry(i, poly, l)
      {
        NextEntry(i, poly, j);
        var e := t[j - 1, i];
        t[j, i] := Lookup(e, t[0, Index(e)]);
        j := j + 1;
      }
      i := i + 1;
    }
  }

  /** The inner loop of table 0: eight divisions of the index. */
  method FirstEntry(i: nat, poly: bv32) returns (c: bv32)
    requires i < 256
    ensures c == Entry(i, poly, 0)
  {
    c := i as bv32;
    var k := 0;
    StepsNone(c, poly);
    while k < 8
      invariant k <= 8 && c == Steps(i as bv32, poly, k)
    {
      StepsLast(i as bv32, poly, k);
      c := (c >> 1) ^ (poly & (0 - (c & 1)));
      k := k + 1;
    }
  }

  // ---- the instruction ----

  /** Tables j down to j - 3, read at a word's four bytes. */
  function FourAt(t: array2<bv32>, x: bv32, j: nat): bv32
    requires t.Length0 == 8 && t.Length1 == 256 && 3 <= j < 8
    reads t
  {
    Xor(Xor(Xor(t[j, Index(x)], t[j - 1, Index(x >> 8)]), t[j - 2, Index(x >> 16)]), t[j - 3, Index(x >> 24)])
  }

  /** Four adjacent tables make up a word's divisions. */
  lemma {:induction false} FourLookups(t: array2<bv32>, x: bv32, j: nat, poly: bv32)
    requires t.Length0 == 8 && t.Length1 == 256 && Built(t, poly) && 3 <= j < 8
    ensures FourAt(t, x, j) == Steps(x, poly, 8 * (j + 1))
  {
    WordIndices(x);
    hide Steps, Xor, Index, Join;
    StepsJoin(x & 0xff, (x >> 8) & 0xff, (x >> 16) & 0xff, x >> 24, poly, 8 * (j + 1));
  }

  lemma {:induction false} WordIndices(x: bv32)
    ensures Index(x) as bv32 == x & 0xff && Index(x >> 8) as bv32 == (x >> 8) & 0xff
    ensures Index(x >> 16) as bv32 == (x >> 16) & 0xff && Index(x >> 24) as bv32 == x >> 24
    ensures x == Join(x & 0xff, (x >> 8) & 0xff, (x >> 16) & 0xff, x >> 24)
    ensures ((x >> 8) & 0xff) >> 8 == 0 && ((x >> 16) & 0xff) >> 8 == 0 && (x >> 24) >> 8 == 0
  {
    JoinWord(x);
    assert (x >> 24) & 0xff == x >> 24;
    hide Index, Join;
  }

  /** The eight lookups add up to the bit-serial definition over eight bytes. */
  lemma {:induction false} SlicedIsReference(t: array2<bv32>, acc: bv32, data: bv64, poly: bv32)
    requires t.Length0 == 8 && t.Length1 == 256 && Built(t, poly)
    ensures Xor(FourAt(t, Xor(acc, Low(data)), 7), FourAt(t, High(data), 3)) == Reference(acc, data, 8, poly)
  {
    hide Steps, Xor, FourAt, Reference, Built, Low, High;
    FourLookups(t, Xor(acc, Low(data)), 7, poly);
    FourLookups(t, High(data), 3, poly);
    ReferenceEight(acc, data, poly);
  }

  /** The low word of the datum shifted to byte i. */
  function ShiftedLow(data: bv64, i: nat): bv32
    requires i < 8
  {
    ((data >> (8 * i)) & 0xffff_ffff) as bv32
  }

  lemma SameLowByte(acc: bv32, w: bv64)
    ensures (acc ^ ((w & 0xffff_ffff) as bv32)) & 0xff == (acc ^ ((w & 0xff) as bv32)) & 0xff
    ensures (acc ^ ((w & 0xff) as bv32)) >> 8 == acc >> 8
  {
  }

  lemma {:induction false} SameLookup(acc: bv32, data: bv64, i: nat, e: bv32)
    requires i < 8
    ensures Index(Xor(acc, ShiftedLow(data, i))) == Index(Xor(acc, ByteOf(data, i)))
    ensures Lookup(Xor(acc, ByteOf(data, i)), e) == Lookup(acc, e)
  {
    SameLowByte(acc, data >> (8 * i));
  }

  /** One turn of the byte loop is one byte of the definition. */
  lemma {:induction false} ByteTurn(acc: bv32, data: bv64, i: nat, poly: bv32)
    requires i < 8
    ensures Lookup(acc, Entry(Index(Xor(acc, ShiftedLow(data, i))), poly, 0)) == Serial(acc, ByteOf(data, i), poly, 8)
  {
    hide Steps, Serial, ByteOf, Index, Lookup, Xor, ShiftedLow, Entry;
    var b := ByteOf(data, i);
    SerialByte(acc, b, poly);
    LookupIsByte(Xor(acc, b), poly);
    SameLookup(acc, data, i, Entry(Index(Xor(acc, b)), poly, 0));
  }

  /** The two tables, each built the first time its polynomial is used. */
  class CrcUnit {
    const tab0: array2<bv32>
    const tab1: array2<bv32>

    constructor ()
      ensures Valid() && fresh(tab0) && fresh(tab1)
    {
      tab0 := new bv32[8, 256]((j, i) => 0);
      tab1 := new bv32[8, 256]((j, i) => 0);
    }

    /** A table whose entry for 1 has been written is complete, for its own polynomial. */
    ghost predicate Valid()
      reads tab0, tab1
    {
      && tab0 != tab1
      && tab0.Length0 == 8 && tab0.Length1 == 256 && tab1.Length0 == 8 && tab1.Length1 == 256
      && (tab0[0, 1] != 0 ==> Built(tab0, CRC32))
      && (tab1[0, 1] != 0 ==> Built(tab1, CRC32C))
    }

    method Crc32Step(acc0: bv32, data: bv64, bytes: nat, poly: bv32) returns (acc: bv32)
      requires Valid() && (poly == CRC32 || poly == CRC32C) && bytes <= 8
      modifies tab0, tab1
      ensures Valid()
      ensures acc == Reference(acc0, data, bytes, poly)
    {
      hide Built, Reference, Entry, Xor, FourAt;
      var t := if poly == CRC32C then tab1 else tab0;
      if t[0, 1] == 0 {
        TabInit(t, poly);
      }
      acc := acc0;
      if bytes == 8 {
        SlicedIsReference(t, acc, data, poly);
        acc := Xor(acc, Low(data));
        return Xor(FourAt(t, acc, 7), FourAt(t, High(data), 3));
      }
      acc := ByteLoop(t, acc, data, bytes, poly);
    }
  }

  method ByteLoop(t: array2<bv32>, acc0: bv32, data: bv64, bytes: nat, poly: bv32) returns (acc: bv32)
    requires t.Length0 == 8 && t.Length1 == 256 && Built(t, poly) && bytes < 8
    ensures acc == Reference(acc0, data, bytes, poly)
  {
    hide Entry, Xor, Index, Lookup, Serial, ByteOf;
    acc := acc0;
    var i := 0;
    while i < bytes
      invariant i <= bytes && acc == Reference(acc0, data, i, poly)
    {
      ByteTurn(acc, data, i, poly);
      acc := Lookup(acc, t[0, Index(Xor(acc, ShiftedLow(data, i)))]);
      i := i + 1;
    }
  }
}
