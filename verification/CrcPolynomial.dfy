/**
 The CRC as division of polynomials over GF(2): bit i of a reflected remainder is
 the coefficient of x^(31-i), and what the serial definition computes is the one
 remainder of the message by the generator.
 */
module CrcPolynomial {
  import opened Crc
  import B = Binary
  import opened Pow2

  // ---- Coefficients ----

  predicate Bit(c: bv32, i: nat)
    decreases i
  {
    if i == 0 then !Even(c) else Bit(Crc.Half(c), i - 1)
  }

  /** The coefficient of x^e in a remainder. */
  predicate Coef(c: bv32, e: nat) {
    e < 32 && Bit(c, 31 - e)
  }

  /** The generator: x^32 and the polynomial written below it. */
  predicate Generator(poly: bv32, e: nat) {
    e == 32 || Coef(poly, e)
  }

  lemma {:induction false} BitXor(a: bv32, b: bv32, i: nat)
    ensures Bit(Xor(a, b), i) == (Bit(a, i) != Bit(b, i))
    decreases i
  {
    hide Xor, Crc.Half, Even;
    XorBits(a, b);
    if i > 0 {
      BitXor(Crc.Half(a), Crc.Half(b), i - 1);
    }
  }

  /** No more than 32 bits. */
  function Shifted(c: bv32, n: nat): bv32
    decreases n
  {
    if n == 0 then c else Shifted(Crc.Half(c), n - 1)
  }

  lemma {:induction false} BitShifted(c: bv32, n: nat, i: nat)
    ensures Bit(c, n + i) == Bit(Shifted(c, n), i)
    decreases n
  {
    hide Crc.Half, Even;
    if n > 0 {
      BitShifted(Crc.Half(c), n - 1, i);
    }
  }

  function By8(c: bv32): bv32 {
    c >> 8
  }

  lemma EightHalves(c: bv32)
    ensures Crc.Half(Crc.Half(Crc.Half(Crc.Half(Crc.Half(Crc.Half(Crc.Half(Crc.Half(c)))))))) == By8(c)
  {
  }

  lemma {:induction false} ShiftedByte(c: bv32, n: nat)
    ensures Shifted(c, n + 8) == Shifted(By8(c), n)
  {
    hide Crc.Half, By8;
    EightHalves(c);
    ShiftedFour(c, n + 4);
    ShiftedFour(Crc.Half(Crc.Half(Crc.Half(Crc.Half(c)))), n);
  }

  lemma {:induction false} ShiftedFour(c: bv32, n: nat)
    ensures Shifted(c, n + 4) == Shifted(Crc.Half(Crc.Half(Crc.Half(Crc.Half(c)))), n)
  {
    hide Crc.Half;
    assert Shifted(c, n + 4) == Shifted(Crc.Half(c), n + 3);
    assert Shifted(Crc.Half(c), n + 3) == Shifted(Crc.Half(Crc.Half(c)), n + 2);
    assert Shifted(Crc.Half(Crc.Half(c)), n + 2) == Shifted(Crc.Half(Crc.Half(Crc.Half(c))), n + 1);
  }

  lemma BytesGone(c: bv32)
    ensures By8(By8(By8(By8(c)))) == 0
  {
  }

  lemma {:induction false} NothingLeft(c: bv32)
    ensures Shifted(c, 32) == 0
  {
    hide Shifted, By8;
    var c2 := By8(By8(c));
    ShiftedByte(c, 24);
    ShiftedByte(By8(c), 16);
    ShiftedByte(c2, 8);
    ShiftedByte(By8(c2), 0);
    BytesGone(c);
    NoShift(By8(By8(c2)));
  }

  lemma NoShift(c: bv32)
    ensures Shifted(c, 0) == c
  {
  }

  lemma {:induction false} ZeroBit(i: nat)
    ensures !Bit(0, i)
    decreases i
  {
    ZeroHalf();
    if i > 0 {
      hide Crc.Half, Even;
      ZeroBit(i - 1);
    }
  }

  lemma ZeroHalf()
    ensures Crc.Half(0) == 0 && Even(0)
  {
  }

  lemma {:induction false} BitBound(c: bv32, i: nat)
    ensures Bit(c, i) ==> i < 32
  {
    hide Bit, Shifted;
    if i >= 32 {
      BitShifted(c, 32, i - 32);
      NothingLeft(c);
      ZeroBit(i - 32);
    }
  }

  // ---- One step ----

  /** A step multiplies by x and takes the generator away if x^32 appears. */
  lemma {:induction false} StepIs(c: bv32, poly: bv32, e: nat)
    ensures
      Coef(Crc.Step(c, poly), e) == ((e >= 1 && Coef(c, e - 1)) != (!Even(c) && Generator(poly, e)))
  {
    hide Crc.Step, Xor, Crc.Half, Even, Bit;
    StepCases(c, poly);
    var h := Crc.Half(c);
    if e < 32 {
      BitXor(h, poly, 31 - e);
      HalfBit(c, 31 - e);
      BitBound(c, 32);
    } else if e == 32 {
      LowBit(c);
    }
  }

  lemma HalfBit(c: bv32, i: nat)
    ensures Bit(Crc.Half(c), i) == Bit(c, i + 1)
  {
    hide Crc.Half, Even;
  }

  lemma LowBit(c: bv32)
    ensures Bit(c, 0) == !Even(c)
  {
  }

  // ---- Many steps ----

  /** x^n times a remainder. */
  predicate Raised(c: bv32, n: nat, e: nat) {
    e >= n && Coef(c, e - n)
  }

  /** The message polynomial of n bits, the first one sent the highest, times x^32. */
  predicate Message(w: bv32, n: nat, e: nat) {
    e >= 32 && e - 32 < n && Bit(w, n - 1 - (e - 32))
  }

  /** The product of the generator with a quotient given by its coefficients, lowest first. */
  predicate Multiple(qs: seq<bool>, poly: bv32, e: nat)
    decreases |qs|
  {
    if qs == [] then false
    else
      var k := |qs| - 1;
      Multiple(qs[..k], poly, e) != (qs[k] && e >= k && Generator(poly, e - k))
  }

  lemma {:induction false} RaisedStep(c: bv32, poly: bv32, n: nat, e: nat)
    ensures
      Raised(Crc.Step(c, poly), n, e) ==
        (Raised(c, n + 1, e) != (!Even(c) && e >= n && Generator(poly, e - n)))
  {
    hide Crc.Step, Coef, Generator, Even;
    if e >= n {
      StepIs(c, poly, e - n);
    }
  }

  lemma Fed(acc: bv32, w: bv32)
    ensures acc ^ (w & 1) == Xor(acc, if Even(w) then 0 else 1)
  {
  }

  lemma OneBit(i: nat)
    ensures Bit(1, i) <==> i == 0
  {
    OneHalf();
    if i > 0 {
      hide Crc.Half, Even;
      ZeroBit(i - 1);
    }
  }

  lemma OneHalf()
    ensures Crc.Half(1) == 0 && !Even(1)
  {
  }

  /** Feeding a bit adds x^31 times it. */
  lemma {:induction false} FedCoef(acc: bv32, w: bv32, e: nat)
    ensures Coef(acc ^ (w & 1), e) == (Coef(acc, e) != (e == 31 && !Even(w)))
  {
    hide Xor, Even, Bit;
    Fed(acc, w);
    if e < 32 {
      BitXor(acc, if Even(w) then 0 else 1, 31 - e);
      ZeroBit(31 - e);
      OneBit(31 - e);
    }
  }

  lemma {:induction false} FedRaised(acc: bv32, w: bv32, n: nat, e: nat)
    ensures Raised(acc ^ (w & 1), n, e) == (Raised(acc, n, e) != (e == 31 + n && !Even(w)))
  {
    hide Coef, Even;
    if e >= n {
      FedCoef(acc, w, e - n);
    }
  }

  lemma {:induction false} MessageStep(w: bv32, n: nat, e: nat)
    requires n > 0
    ensures Message(w, n, e) == ((e == 31 + n && !Even(w)) != Message(Crc.Half(w), n - 1, e))
  {
    hide Even, Crc.Half, Bit;
    if e == 31 + n {
      LowBit(w);
    } else if e >= 32 && e - 32 < n - 1 {
      HalfBit(w, n - 2 - (e - 32));
    }
  }

  /** The bits fed one after the other: acc times x^n plus the message times x^32, less a multiple of the generator. */
  lemma {:induction false} SerialIs(acc: bv32, w: bv32, poly: bv32, n: nat) returns (qs: seq<bool>)
    ensures |qs| == n
    ensures
      forall e: nat ::
        Coef(Serial(acc, w, poly, n), e) == ((Raised(acc, n, e) != Message(w, n, e)) != Multiple(qs, poly, e))
    decreases n
  {
    hide Crc.Step, Coef, Even, Raised, Message, Generator;
    qs := [];
    if n == 0 {
      forall e: nat ensures Coef(acc, e) == ((Raised(acc, 0, e) != Message(w, 0, e)) != Multiple([], poly, e)) {
        NothingFed(acc, w, e);
      }
    } else {
      var x := acc ^ (w & 1);
      var rest := SerialIs(Crc.Step(x, poly), w >> 1, poly, n - 1);
      qs := rest + [!Even(x)];
      forall e: nat
        ensures Coef(Serial(acc, w, poly, n), e) == ((Raised(acc, n, e) != Message(w, n, e)) != Multiple(qs, poly, e))
      {
        RaisedStep(x, poly, n - 1, e);
        FedRaised(acc, w, n, e);
        MessageStep(w, n, e);
        HalfIs(w);
        assert qs[..n - 1] == rest;
      }
    }
  }

  lemma HalfIs(w: bv32)
    ensures Crc.Half(w) == w >> 1
  {
  }

  lemma NothingFed(acc: bv32, w: bv32, e: nat)
    ensures Raised(acc, 0, e) == Coef(acc, e) && !Message(w, 0, e)
  {
    hide Coef;
  }

  // ---- The remainder is unique ----

  /** A multiple of the generator that is not zero has a coefficient at x^32 or above. */
  lemma {:induction false} MultipleHigh(qs: seq<bool>, poly: bv32)
    requires forall e: nat :: e >= 32 ==> !Multiple(qs, poly, e)
    ensures forall e: nat :: !Multiple(qs, poly, e)
    decreases |qs|
  {
    hide Coef;
    if qs != [] {
      var k := |qs| - 1;
      MultipleBelow(qs[..k], poly, k + 32);
      assert !Multiple(qs, poly, k + 32);
      assert !qs[k];
      forall e: nat ensures Multiple(qs, poly, e) == Multiple(qs[..k], poly, e) {
      }
      MultipleHigh(qs[..k], poly);
    }
  }

  lemma {:induction false} MultipleBelow(qs: seq<bool>, poly: bv32, e: nat)
    requires e >= |qs| + 32
    ensures !Multiple(qs, poly, e)
    decreases |qs|
  {
    if qs != [] {
      MultipleBelow(qs[..|qs| - 1], poly, e);
    }
  }

  function Plus(qs: seq<bool>, rs: seq<bool>): (ps: seq<bool>)
    requires |qs| == |rs|
    ensures |ps| == |qs|
  {
    seq(|qs|, k requires 0 <= k < |qs| => qs[k] != rs[k])
  }

  lemma {:induction false} MultipleSum(qs: seq<bool>, rs: seq<bool>, poly: bv32, e: nat)
    requires |qs| == |rs|
    ensures Multiple(Plus(qs, rs), poly, e) == (Multiple(qs, poly, e) != Multiple(rs, poly, e))
    decreases |qs|
  {
    hide Generator;
    if qs != [] {
      var k := |qs| - 1;
      assert Plus(qs, rs)[..k] == Plus(qs[..k], rs[..k]);
      MultipleSum(qs[..k], rs[..k], poly, e);
    }
  }

  lemma {:induction false} SameBits(a: bv32, b: bv32)
    requires forall i: nat :: i < 32 ==> Bit(a, i) == Bit(b, i)
    ensures a == b
  {
    forall i: nat ensures !Bit(Xor(a, b), i) {
      BitXor(a, b, i);
      BitBound(a, i);
      BitBound(b, i);
    }
    hide Bit;
    NoBits(Xor(a, b), 32);
    XorZero(a, b);
  }

  lemma XorZero(a: bv32, b: bv32)
    requires Xor(a, b) == 0
    ensures a == b
  {
  }

  lemma HalfZero(c: bv32)
    requires Crc.Half(c) == 0 && Even(c)
    ensures c == 0
  {
  }

  lemma {:induction false} NoBits(c: bv32, n: nat)
    requires Shifted(c, n) == 0 || n == 32
    requires forall i: nat :: !Bit(c, i)
    ensures c == 0
    decreases n
  {
    hide Crc.Half, Even;
    NothingLeft(c);
    if n > 0 {
      LowBit(c);
      forall i: nat ensures !Bit(Crc.Half(c), i) {
        HalfBit(c, i);
      }
      ShiftedNext(c, n);
      NoBits(Crc.Half(c), n - 1);
      HalfZero(c);
    }
  }

  lemma ShiftedNext(c: bv32, n: nat)
    requires n > 0
    ensures Shifted(c, n) == Shifted(Crc.Half(c), n - 1)
  {
    hide Crc.Half;
  }

  /** Two remainders of one polynomial by the generator are the same. */
  lemma {:induction false} OneRemainder(c: bv32, d: bv32, p: nat -> bool, qs: seq<bool>, rs: seq<bool>, poly: bv32)
    requires |qs| == |rs|
    requires forall e: nat :: Coef(c, e) == (p(e) != Multiple(qs, poly, e))
    requires forall e: nat :: Coef(d, e) == (p(e) != Multiple(rs, poly, e))
    ensures c == d
  {
    hide Multiple, Bit;
    forall e: nat ensures Multiple(Plus(qs, rs), poly, e) == (Coef(c, e) != Coef(d, e)) {
      MultipleSum(qs, rs, poly, e);
    }
    MultipleHigh(Plus(qs, rs), poly);
    forall i: nat | i < 32 ensures Bit(c, i) == Bit(d, i) {
      assert Coef(c, 31 - i) == Coef(d, 31 - i);
    }
    SameBits(c, d);
  }

  // ---- The instruction's data ----

  /** Bit t of the datum, as a number. */
  predicate Digit(data: bv64, t: nat) {
    t < 64 && B.Number(data) / P2(t) % 2 == 1
  }

  lemma WideRaw(c: bv32)
    ensures Even(c) == !B.Odd(c as bv66)
  {
  }

  lemma WideLeft(c: bv32)
    ensures (Crc.Half(c)) as bv66 == (c as bv66) >> 1
  {
  }

  lemma {:induction false} WideBit(c: bv32, i: nat)
    ensures Bit(c, i) == B.Odd(B.Down(c as bv66, i))
    decreases i
  {
    hide Crc.Half, Even, B.Odd;
    WideRaw(c);
    if i > 0 {
      WideLeft(c);
      HalfRight(c as bv66);
      WideBit(Crc.Half(c), i - 1);
    }
  }

  lemma HalfRight(x: bv66)
    ensures B.Half(x) == x >> 1
  {
  }

  lemma Octet0Form(data: bv64)
    ensures ByteOf(data, 0) == ((data >> 0) & 0xff) as bv32
  {
    assert data >> (8 * 0) == data >> 0;
  }

  lemma Octet0Raw(data: bv64)
    ensures (((data >> 0) & 0xff) as bv32) as bv66 == ((data as bv66) >> 0) & 0xff
  {
  }

  lemma Octet0Wide(data: bv64)
    ensures B.Masked(B.ByBytes(B.Widened(data), 0), 0xff) == ((data as bv66) >> 0) & 0xff
  {
  }

  lemma Octet0(data: bv64)
    ensures ByteOf(data, 0) as bv66 == B.Masked(B.ByBytes(B.Widened(data), 0), 0xff)
  {
    hide ByteOf, B.Masked, B.ByBytes, B.Widened;
    Octet0Form(data);
    Octet0Raw(data);
    Octet0Wide(data);
  }

  lemma Octet1Form(data: bv64)
    ensures ByteOf(data, 1) == ((data >> 8) & 0xff) as bv32
  {
    assert data >> (8 * 1) == data >> 8;
  }

  lemma Octet1Raw(data: bv64)
    ensures (((data >> 8) & 0xff) as bv32) as bv66 == ((data as bv66) >> 8) & 0xff
  {
  }

  lemma Octet1Wide(data: bv64)
    ensures B.Masked(B.ByBytes(B.Widened(data), 1), 0xff) == ((data as bv66) >> 8) & 0xff
  {
  }

  lemma Octet1(data: bv64)
    ensures ByteOf(data, 1) as bv66 == B.Masked(B.ByBytes(B.Widened(data), 1), 0xff)
  {
    hide ByteOf, B.Masked, B.ByBytes, B.Widened;
    Octet1Form(data);
    Octet1Raw(data);
    Octet1Wide(data);
  }

  lemma Octet2Form(data: bv64)
    ensures ByteOf(data, 2) == ((data >> 16) & 0xff) as bv32
  {
    assert data >> (8 * 2) == data >> 16;
  }

  lemma Octet2Raw(data: bv64)
    ensures (((data >> 16) & 0xff) as bv32) as bv66 == ((data as bv66) >> 16) & 0xff
  {
  }

  lemma Octet2Wide(data: bv64)
    ensures B.Masked(B.ByBytes(B.Widened(data), 2), 0xff) == ((data as bv66) >> 16) & 0xff
  {
  }

  lemma Octet2(data: bv64)
    ensures ByteOf(data, 2) as bv66 == B.Masked(B.ByBytes(B.Widened(data), 2), 0xff)
  {
    hide ByteOf, B.Masked, B.ByBytes, B.Widened;
    Octet2Form(data);
    Octet2Raw(data);
    Octet2Wide(data);
  }

  lemma Octet3Form(data: bv64)
    ensures ByteOf(data, 3) == ((data >> 24) & 0xff) as bv32
  {
    assert data >> (8 * 3) == data >> 24;
  }

  lemma Octet3Raw(data: bv64)
    ensures (((data >> 24) & 0xff) as bv32) as bv66 == ((data as bv66) >> 24) & 0xff
  {
  }

  lemma Octet3Wide(data: bv64)
    ensures B.Masked(B.ByBytes(B.Widened(data), 3), 0xff) == ((data as bv66) >> 24) & 0xff
  {
  }

  lemma Octet3(data: bv64)
    ensures ByteOf(data, 3) as bv66 == B.Masked(B.ByBytes(B.Widened(data), 3), 0xff)
  {
    hide ByteOf, B.Masked, B.ByBytes, B.Widened;
    Octet3Form(data);
    Octet3Raw(data);
    Octet3Wide(data);
  }

  lemma Octet4Form(data: bv64)
    ensures ByteOf(data, 4) == ((data >> 32) & 0xff) as bv32
  {
    assert data >> (8 * 4) == data >> 32;
  }

  lemma Octet4Raw(data: bv64)
    ensures (((data >> 32) & 0xff) as bv32) as bv66 == ((data as bv66) >> 32) & 0xff
  {
  }

  lemma Octet4Wide(data: bv64)
    ensures B.Masked(B.ByBytes(B.Widened(data), 4), 0xff) == ((data as bv66) >> 32) & 0xff
  {
  }

  lemma Octet4(data: bv64)
    ensures ByteOf(data, 4) as bv66 == B.Masked(B.ByBytes(B.Widened(data), 4), 0xff)
  {
    hide ByteOf, B.Masked, B.ByBytes, B.Widened;
    Octet4Form(data);
    Octet4Raw(data);
    Octet4Wide(data);
  }

  lemma Octet5Form(data: bv64)
    ensures ByteOf(data, 5) == ((data >> 40) & 0xff) as bv32
  {
    assert data >> (8 * 5) == data >> 40;
  }

  lemma Octet5Raw(data: bv64)
    ensures (((data >> 40) & 0xff) as bv32) as bv66 == ((data as bv66) >> 40) & 0xff
  {
  }

  lemma Octet5Wide(data: bv64)
    ensures B.Masked(B.ByBytes(B.Widened(data), 5), 0xff) == ((data as bv66) >> 40) & 0xff
  {
  }

  lemma Octet5(data: bv64)
    ensures ByteOf(data, 5) as bv66 == B.Masked(B.ByBytes(B.Widened(data), 5), 0xff)
  {
    hide ByteOf, B.Masked, B.ByBytes, B.Widened;
    Octet5Form(data);
    Octet5Raw(data);
    Octet5Wide(data);
  }

  lemma Octet6Form(data: bv64)
    ensures ByteOf(data, 6) == ((data >> 48) & 0xff) as bv32
  {
    assert data >> (8 * 6) == data >> 48;
  }

  lemma Octet6Raw(data: bv64)
    ensures (((data >> 48) & 0xff) as bv32) as bv66 == ((data as bv66) >> 48) & 0xff
  {
  }

  lemma Octet6Wide(data: bv64)
    ensures B.Masked(B.ByBytes(B.Widened(data), 6), 0xff) == ((data as bv66) >> 48) & 0xff
  {
  }

  lemma Octet6(data: bv64)
    ensures ByteOf(data, 6) as bv66 == B.Masked(B.ByBytes(B.Widened(data), 6), 0xff)
  {
    hide ByteOf, B.Masked, B.ByBytes, B.Widened;
    Octet6Form(data);
    Octet6Raw(data);
    Octet6Wide(data);
  }

  lemma Octet7Form(data: bv64)
    ensures ByteOf(data, 7) == ((data >> 56) & 0xff) as bv32
  {
    assert data >> (8 * 7) == data >> 56;
  }

  lemma Octet7Raw(data: bv64)
    ensures (((data >> 56) & 0xff) as bv32) as bv66 == ((data as bv66) >> 56) & 0xff
  {
  }

  lemma Octet7Wide(data: bv64)
    ensures B.Masked(B.ByBytes(B.Widened(data), 7), 0xff) == ((data as bv66) >> 56) & 0xff
  {
  }

  lemma Octet7(data: bv64)
    ensures ByteOf(data, 7) as bv66 == B.Masked(B.ByBytes(B.Widened(data), 7), 0xff)
  {
    hide ByteOf, B.Masked, B.ByBytes, B.Widened;
    Octet7Form(data);
    Octet7Raw(data);
    Octet7Wide(data);
  }

  lemma {:induction false} ByteWide(data: bv64, i: nat)
    requires i < 8
    ensures ByteOf(data, i) as bv66 == B.Masked(B.ByBytes(B.Widened(data), i), 0xff)
  {
    hide ByteOf, B.Masked, B.ByBytes, B.Widened;
    if i == 0 {
      Octet0(data);
    } else if i == 1 {
      Octet1(data);
    } else if i == 2 {
      Octet2(data);
    } else if i == 3 {
      Octet3(data);
    } else if i == 4 {
      Octet4(data);
    } else if i == 5 {
      Octet5(data);
    } else if i == 6 {
      Octet6(data);
    } else {
      Octet7(data);
    }
  }

  lemma {:induction false} ByteBit(data: bv64, i: nat, j: nat)
    requires i < 8
    ensures Bit(ByteOf(data, i), j) <==> j < 8 && Digit(data, 8 * i + j)
  {
    hide ByteOf, B.Masked, B.ByBytes, B.Widened, B.Odd, B.Down, B.Ones, B.Number, Bit, P2;
    var x := B.Widened(data);
    WideBit(ByteOf(data, i), j);
    ByteWide(data, i);
    B.DownBytes(x, i);
    B.MaskedDigit(B.Down(x, 8 * i), 0xff, j);
    B.KeptOnes(8);
    B.OnesBit(0xff, 8, j);
    B.DownSum(x, 8 * i, j);
    if j < 8 {
      B.DigitIs(data, 8 * i + j);
    }
  }

  /** The datum's n bits as a polynomial, the lowest bit the highest power, times x^32. */
  predicate Sent(data: bv64, n: nat, e: nat) {
    e >= 32 && e - 32 < n && Digit(data, n - 1 - (e - 32))
  }

  lemma {:induction false} SentStep(data: bv64, b: nat, e: nat)
    requires 0 < b <= 8
    ensures
      Sent(data, 8 * b, e) == ((e >= 8 && Sent(data, 8 * (b - 1), e - 8)) != Message(ByteOf(data, b - 1), 8, e))
  {
    hide Digit, ByteOf, Bit;
    if e >= 32 && e - 32 < 8 {
      ByteBit(data, b - 1, 7 - (e - 32));
    }
  }

  lemma {:induction false} MultipleJoin(a: seq<bool>, b: seq<bool>, poly: bv32, e: nat)
    ensures Multiple(a + b, poly, e) == (Multiple(a, poly, e) != (e >= |a| && Multiple(b, poly, e - |a|)))
    decreases |b|
  {
    hide Generator;
    if b == [] {
      assert a + b == a;
    } else {
      var k := |b| - 1;
      assert (a + b)[..|a| + k] == a + b[..k];
      MultipleJoin(a, b[..k], poly, e);
    }
  }

  /**
   The CRC is the remainder: acc times x^n plus the message times x^32, less a
   multiple of the generator, and of degree below 32.
   */
  lemma {:induction false} CrcIsRemainder(acc: bv32, data: bv64, bytes: nat, poly: bv32) returns (qs: seq<bool>)
    requires bytes <= 8
    ensures |qs| == 8 * bytes
    ensures
      forall e: nat ::
        Coef(Reference(acc, data, bytes, poly), e) ==
          ((Raised(acc, 8 * bytes, e) != Sent(data, 8 * bytes, e)) != Multiple(qs, poly, e))
    decreases bytes
  {
    hide Serial, Coef, Sent, Message, Generator, ByteOf;
    qs := [];
    if bytes == 0 {
      forall e: nat
        ensures Coef(acc, e) == ((Raised(acc, 0, e) != Sent(data, 0, e)) != Multiple([], poly, e))
      {
        NothingSent(data, e);
      }
    } else {
      var was := Reference(acc, data, bytes - 1, poly);
      var rs := CrcIsRemainder(acc, data, bytes - 1, poly);
      var ps := SerialIs(was, ByteOf(data, bytes - 1), poly, 8);
      qs := ps + rs;
      forall e: nat
        ensures
          Coef(Reference(acc, data, bytes, poly), e) ==
            ((Raised(acc, 8 * bytes, e) != Sent(data, 8 * bytes, e)) != Multiple(qs, poly, e))
      {
        SentStep(data, bytes, e);
        MultipleJoin(ps, rs, poly, e);
        if e >= 8 {
          assert Coef(was, e - 8) ==
            ((Raised(acc, 8 * bytes - 8, e - 8) != Sent(data, 8 * bytes - 8, e - 8)) != Multiple(rs, poly, e - 8));
        }
      }
    }
  }

  lemma NothingSent(data: bv64, e: nat)
    ensures !Sent(data, 0, e)
  {
  }

  /** And it is the only one, whatever the quotient. */
  lemma {:induction false} CrcIsTheRemainder(acc: bv32, data: bv64, bytes: nat, poly: bv32, c: bv32, qs: seq<bool>)
    requires bytes <= 8 && |qs| == 8 * bytes
    requires
      forall e: nat ::
        Coef(c, e) == ((Raised(acc, 8 * bytes, e) != Sent(data, 8 * bytes, e)) != Multiple(qs, poly, e))
    ensures c == Reference(acc, data, bytes, poly)
  {
    hide Reference, Coef, Raised, Sent, Multiple;
    var rs := CrcIsRemainder(acc, data, bytes, poly);
    var p := (e: nat) => Raised(acc, 8 * bytes, e) != Sent(data, 8 * bytes, e);
    OneRemainder(c, Reference(acc, data, bytes, poly), p, qs, rs, poly);
  }

  // ---- The two generators ----

  lemma Nibble(c: bv32)
    ensures Bit(c, 0) == (c & 1 != 0) && Bit(c, 1) == (c & 2 != 0)
    ensures Bit(c, 2) == (c & 4 != 0) && Bit(c, 3) == (c & 8 != 0)
  {
    assert Bit(c, 1) == Bit(Crc.Half(c), 0);
    assert Bit(c, 2) == Bit(Crc.Half(Crc.Half(c)), 0);
    assert Bit(c, 3) == Bit(Crc.Half(Crc.Half(Crc.Half(c))), 0);
  }

  function By4(c: bv32): bv32 {
    c >> 4
  }

  lemma FourHalves(c: bv32)
    ensures Crc.Half(Crc.Half(Crc.Half(Crc.Half(c)))) == By4(c)
  {
  }

  lemma {:induction false} BitFour(c: bv32, i: nat)
    ensures Bit(c, i + 4) == Bit(By4(c), i)
  {
    hide Bit, Crc.Half, By4;
    FourHalves(c);
    HalfBit(c, i + 3);
    HalfBit(Crc.Half(c), i + 2);
    HalfBit(Crc.Half(Crc.Half(c)), i + 1);
    HalfBit(Crc.Half(Crc.Half(Crc.Half(c))), i);
  }

  lemma Crc32Digits()
    ensures CRC32 == 0xedb8_8320
    ensures By4(0xedb8_8320) == 0x0edb_8832
    ensures By4(0x0edb_8832) == 0x00ed_b883
    ensures By4(0x00ed_b883) == 0x000e_db88
    ensures By4(0x000e_db88) == 0x0000_edb8
    ensures By4(0x0000_edb8) == 0x0000_0edb
    ensures By4(0x0000_0edb) == 0x0000_00ed
    ensures By4(0x0000_00ed) == 0x0000_000e
  {
  }

  lemma {:induction false} Crc32Bits(i: nat)
    requires i < 32
    ensures Bit(CRC32, i) <==> i in {5, 8, 9, 15, 19, 20, 21, 23, 24, 26, 27, 29, 30, 31}
  {
    hide Bit, By4;
    Crc32Digits();
    Nibble(0xedb8_8320);
    Nibble(0x0edb_8832);
    Nibble(0x00ed_b883);
    Nibble(0x000e_db88);
    Nibble(0x0000_edb8);
    Nibble(0x0000_0edb);
    Nibble(0x0000_00ed);
    Nibble(0x0000_000e);
    if i >= 4 {
      BitFour(0xedb8_8320, i - 4);
    }
    if i >= 8 {
      BitFour(0x0edb_8832, i - 8);
    }
    if i >= 12 {
      BitFour(0x00ed_b883, i - 12);
    }
    if i >= 16 {
      BitFour(0x000e_db88, i - 16);
    }
    if i >= 20 {
      BitFour(0x0000_edb8, i - 20);
    }
    if i >= 24 {
      BitFour(0x0000_0edb, i - 24);
    }
    if i >= 28 {
      BitFour(0x0000_00ed, i - 28);
    }
  }

  /** The generator of IEEE 802.3. */
  lemma {:induction false} Crc32Generator(e: nat)
    ensures Generator(CRC32, e) <==> e in {0, 1, 2, 4, 5, 7, 8, 10, 11, 12, 16, 22, 23, 26, 32}
  {
    hide Bit;
    if e < 32 {
      Crc32Bits(31 - e);
    }
  }

  lemma Crc32cDigits()
    ensures CRC32C == 0x82f6_3b78
    ensures By4(0x82f6_3b78) == 0x082f_63b7
    ensures By4(0x082f_63b7) == 0x0082_f63b
    ensures By4(0x0082_f63b) == 0x0008_2f63
    ensures By4(0x0008_2f63) == 0x0000_82f6
    ensures By4(0x0000_82f6) == 0x0000_082f
    ensures By4(0x0000_082f) == 0x0000_0082
    ensures By4(0x0000_0082) == 0x0000_0008
  {
  }

  lemma {:induction false} Crc32cBits(i: nat)
    requires i < 32
    ensures Bit(CRC32C, i) <==> i in {3, 4, 5, 6, 8, 9, 11, 12, 13, 17, 18, 20, 21, 22, 23, 25, 31}
  {
    hide Bit, By4;
    Crc32cDigits();
    Nibble(0x82f6_3b78);
    Nibble(0x082f_63b7);
    Nibble(0x0082_f63b);
    Nibble(0x0008_2f63);
    Nibble(0x0000_82f6);
    Nibble(0x0000_082f);
    Nibble(0x0000_0082);
    Nibble(0x0000_0008);
    if i >= 4 {
      BitFour(0x82f6_3b78, i - 4);
    }
    if i >= 8 {
      BitFour(0x082f_63b7, i - 8);
    }
    if i >= 12 {
      BitFour(0x0082_f63b, i - 12);
    }
    if i >= 16 {
      BitFour(0x0008_2f63, i - 16);
    }
    if i >= 20 {
      BitFour(0x0000_82f6, i - 20);
    }
    if i >= 24 {
      BitFour(0x0000_082f, i - 24);
    }
    if i >= 28 {
      BitFour(0x0000_0082, i - 28);
    }
  }

  /** The generator of Castagnoli. */
  lemma {:induction false} Crc32cGenerator(e: nat)
    ensures Generator(CRC32C, e) <==> e in {0, 6, 8, 9, 10, 11, 13, 14, 18, 19, 20, 22, 23, 25, 26, 27, 28, 32}
  {
    hide Bit;
    if e < 32 {
      Crc32cBits(31 - e);
    }
  }
}
