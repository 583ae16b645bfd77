/**
 64-bit machine words and the two-limb 128-bit arithmetic the fused
 multiply-add is built from. Words are naturals below 2^64; every shift, add
 and multiply that can leave the word writes its reduction out. An `|` of two
 values with no common bits is written as their sum.
 */
module Wide {
  import opened Words
  import opened Pow2

  const HALF: nat := 0x1_0000_0000

  datatype Fx128 = Fx128(hi: U64, lo: U64)

  function Val(v: Fx128): nat {
    v.hi * W + v.lo
  }

  function Shl(x: U64, s: nat): U64 {
    (x * P2(s)) % W
  }

  function Shr(x: U64, s: nat): (r: U64)
    ensures s > 0 ==> r < W / 2
  {
    ShrShrinks(x, s);
    x / P2(s)
  }

  lemma ShrShrinks(x: U64, s: nat)
    ensures 0 <= x / P2(s) <= x
    ensures s > 0 ==> x / P2(s) < W / 2
  {
    DivMod(x, P2(s));
    var q := x / P2(s);
    if q < 0 {
      MulMono(q, -1, P2(s));
    }
    MulMono(1, P2(s), q);
    if s > 0 {
      MulMono(2, P2(s), q);
    }
  }

  lemma ValBound(v: Fx128)
    ensures Val(v) < W * W
  {
  }

  function FxMsb(v: Fx128): (k: nat)
    requires Val(v) != 0
    ensures k == Msb(Val(v))
    ensures k < 128
  {
    MsbLimbs(v);
    if v.hi != 0 then 64 + Msb(v.hi) else Msb(v.lo)
  }

  lemma {:induction false} MsbLimbs(v: Fx128)
    requires Val(v) != 0
    ensures Msb(Val(v)) == if v.hi != 0 then 64 + Msb(v.hi) else Msb(v.lo)
    ensures Msb(Val(v)) < 128
  {
    P2Word();
    if v.hi != 0 {
      MsbBetween(v.hi, Val(v), 64);
      P2Lt(Msb(v.hi), 64);
    } else {
      P2Lt(Msb(v.lo), 64);
    }
  }

  lemma {:induction false} SplitWord(s: nat)
    requires s <= 64
    ensures P2(s) * P2(64 - s) == W
  {
    P2Word();
    P2Add(s, 64 - s);
  }

  /** A left shift of one limb: what stays, and what moves up. */
  lemma {:induction false} ShlParts(x: U64, s: nat)
    requires s <= 64
    ensures x * P2(s) == (x / P2(64 - s)) * W + Shl(x, s)
    ensures Shl(x, s) == (x % P2(64 - s)) * P2(s)
    ensures 0 <= x / P2(64 - s) < P2(s)
  {
    var p, q := P2(s), P2(64 - s);
    SplitWord(s);
    MulDiv(x, p);
    DivDiv(x * p, p, q);
    DivMod(x * p, W);
    DivMod(x, q);
    if x / q >= p {
      MulMono(p, x / q, q);
    }
  }

  function FxShl(v: Fx128, s: nat): (r: Fx128)
    requires s <= 127 && Val(v) * P2(s) < W * W
    ensures Val(r) == Val(v) * P2(s)
  {
    ShlFits(v, s);
    if s >= 64 then Fx128(Shl(v.lo, s - 64), 0)
    else if s > 0 then Fx128(Shl(v.hi, s) + Shr(v.lo, 64 - s), Shl(v.lo, s))
    else v
  }

  lemma {:induction false} ShlFits(v: Fx128, s: nat)
    requires s <= 127 && Val(v) * P2(s) < W * W
    ensures s >= 64 ==> Shl(v.lo, s - 64) * W == Val(v) * P2(s)
    ensures 0 < s < 64 ==>
      && Shl(v.hi, s) + Shr(v.lo, 64 - s) < W
      && (Shl(v.hi, s) + Shr(v.lo, 64 - s)) * W + Shl(v.lo, s) == Val(v) * P2(s)
    ensures s == 0 ==> Val(v) == Val(v) * P2(s)
  {
    if s >= 64 {
      P2Add(64, s - 64);
      P2Word();
      ShlHighLimb(v, P2(s - 64));
      P2Positive(s - 64);
    } else if s > 0 {
      ShlTwoLimbs(v, s);
    }
  }

  lemma P2Positive(n: nat)
    ensures P2(n) > 0
  {
  }

  lemma ShlHighLimb(v: Fx128, p: nat)
    requires p > 0 && Val(v) * (W * p) < W * W
    ensures v.hi == 0 && ((v.lo * p) % W) * W == Val(v) * (W * p)
  {
    var x := Val(v) * p;
    assert Val(v) * (W * p) == x * W by {
      Assoc(Val(v), p, W);
    }
    assert 0 <= x < W;
    if v.hi > 0 {
      MulMono(W, Val(v), p);
      MulMono(1, p, W);
      assert false;
    }
    SmallMod(x);
  }

  lemma {:induction false} ShlTwoLimbs(v: Fx128, s: nat)
    requires 0 < s < 64 && Val(v) * P2(s) < W * W
    ensures Shl(v.hi, s) + Shr(v.lo, 64 - s) < W
    ensures (Shl(v.hi, s) + Shr(v.lo, 64 - s)) * W + Shl(v.lo, s) == Val(v) * P2(s)
  {
    var p, up := P2(s), v.lo / P2(64 - s);
    ShlParts(v.lo, s);
    var h := v.hi * p;
    assert Val(v) * p == h * W + v.lo * p by {
      Distrib(v.hi * W, v.lo, p);
      Assoc(v.hi, W, p);
    }
    assert h * W + v.lo * p == (h + up) * W + Shl(v.lo, s) by {
      Distrib(h, up, W);
    }
    assert 0 <= h by { MulMono(0, v.hi, p); }
    if h + up >= W {
      MulMono(W, h + up, W);
      assert false;
    }
    assert Shl(v.hi, s) == h;
  }

  /** Right shift that reports in the second result whether a set bit was lost. */
  function FxShrSticky(v: Fx128, s: nat, lost: bool): (r: (Fx128, bool))
    requires s >= 1
    ensures Val(r.0) == Val(v) / P2(s)
    ensures r.1 <==> lost || Val(v) % P2(s) != 0
  {
    ShrFits(v, s);
    if s >= 128 then
      (Fx128(0, 0), lost || v.hi != 0 || v.lo != 0)
    else if s >= 64 then
      (Fx128(0, Shr(v.hi, s - 64)), lost || v.lo != 0 || v.hi % P2(s - 64) != 0)
    else
      (Fx128(Shr(v.hi, s), Shr(v.lo, s) + Shl(v.hi, 64 - s)), lost || v.lo % P2(s) != 0)
  }

  lemma {:induction false} ShrFits(v: Fx128, s: nat)
    requires s >= 1
    ensures s >= 128 ==> Val(v) / P2(s) == 0 && Val(v) % P2(s) == Val(v)
    ensures 64 <= s < 128 ==>
      && Val(v) / P2(s) == Shr(v.hi, s - 64)
      && (Val(v) % P2(s) != 0 <==> v.lo != 0 || v.hi % P2(s - 64) != 0)
    ensures s < 64 ==>
      && Shr(v.lo, s) + Shl(v.hi, 64 - s) < W
      && Val(v) / P2(s) == Shr(v.hi, s) * W + (Shr(v.lo, s) + Shl(v.hi, 64 - s))
      && Val(v) % P2(s) == v.lo % P2(s)
  {
    P2Word();
    if s >= 128 {
      P2Mono(128, s);
      P2Add(64, 64);
      ValBound(v);
      DivUnique(Val(v), P2(s), 0, Val(v));
    } else if s >= 64 {
      DivP2P2(Val(v), 64, s - 64);
      DivUnique(Val(v), W, v.hi, v.lo);
      var r := v.hi % P2(s - 64);
      if r > 0 {
        MulMono(1, r, W);
      }
    } else {
      ShrLow(v, s);
    }
  }

  lemma {:induction false} ShrLow(v: Fx128, s: nat)
    requires 1 <= s < 64
    ensures Shr(v.lo, s) + Shl(v.hi, 64 - s) < W
    ensures Val(v) / P2(s) == Shr(v.hi, s) * W + (Shr(v.lo, s) + Shl(v.hi, 64 - s))
    ensures Val(v) % P2(s) == v.lo % P2(s)
  {
    SplitWord(s);
    ShlParts(v.hi, 64 - s);
    ShrParts(v.hi, v.lo, P2(s), P2(64 - s));
    MulBounds(0, v.hi % P2(s), P2(s), P2(64 - s));
  }

  lemma ShrParts(hi: nat, lo: nat, p: nat, q: nat)
    requires p > 0 && q > 0 && p * q == W && lo < W
    ensures (hi * W + lo) / p == hi * q + lo / p
    ensures (hi * W + lo) % p == lo % p
    ensures lo / p < q
  {
    Assoc(hi, q, p);
    DivMod(lo, p);
    Distrib(hi * q, lo / p, p);
    DivUnique(hi * W + lo, p, hi * q + lo / p, lo % p);
    if lo / p >= q {
      MulMono(q, lo / p, p);
      assert false;
    }
  }

  function FxCmp(a: Fx128, b: Fx128): (r: int)
    ensures r < 0 <==> Val(a) < Val(b)
    ensures r == 0 <==> Val(a) == Val(b)
  {
    if a.hi != b.hi then (if a.hi < b.hi then -1 else 1)
    else if a.lo != b.lo then (if a.lo < b.lo then -1 else 1)
    else 0
  }

  function FxAdd(a: Fx128, b: Fx128): (r: Fx128)
    requires Val(a) + Val(b) < W * W
    ensures Val(r) == Val(a) + Val(b)
  {
    var lo := (a.lo + b.lo) % W;
    Fx128((a.hi + b.hi + if lo < a.lo then 1 else 0) % W, lo)
  }

  function FxSub(a: Fx128, b: Fx128): (r: Fx128)
    requires Val(a) >= Val(b)
    ensures Val(r) == Val(a) - Val(b)
  {
    Fx128((a.hi - b.hi - if a.lo < b.lo then 1 else 0) % W, (a.lo - b.lo) % W)
  }

  function Mul(x: U64, y: U64): U64 {
    (x * y) % W
  }

  /**
   High word of a 64 by 64 multiply from four 32-bit partial products, the form
   used where the compiler has no 128-bit integer.
   */
  function Umulh64(a: U64, b: U64): (r: U64)
    ensures r == (a * b) / W
  {
    var (al, ah, bl, bh) := (a % HALF, a / HALF, b % HALF, b / HALF);
    PartialProducts(al, ah, bl, bh);
    CombineCorrect(a * b, Mul(al, bl), Mul(al, bh), Mul(ah, bl), Mul(ah, bh));
    Combine(Mul(al, bl), Mul(al, bh), Mul(ah, bl), Mul(ah, bh))
  }

  function Combine(ll: U64, lh: U64, hl: U64, hh: U64): U64 {
    var mid0 := (lh + ll / HALF) % W;
    var carry0 := if mid0 < lh then HALF else 0;
    var mid := (mid0 + hl) % W;
    var carry := if mid < hl then carry0 + HALF else carry0;
    (hh + mid / HALF + carry) % W
  }

  lemma PartialBound(x: nat, y: nat)
    requires x < HALF && y < HALF
    ensures 0 <= x * y <= (HALF - 1) * (HALF - 1) && Mul(x, y) == x * y
  {
    MulMono(0, x, y);
    MulMono(x, HALF - 1, y);
    SmallMod(x * y);
  }

  lemma SmallMod(z: int)
    requires 0 <= z < W
    ensures z % W == z
  {
  }

  lemma PartialProducts(al: nat, ah: nat, bl: nat, bh: nat)
    requires al < HALF && ah < HALF && bl < HALF && bh < HALF
    ensures Mul(al, bl) <= (HALF - 1) * (HALF - 1) && Mul(al, bh) <= (HALF - 1) * (HALF - 1)
    ensures Mul(ah, bl) <= (HALF - 1) * (HALF - 1) && Mul(ah, bh) <= (HALF - 1) * (HALF - 1)
    ensures (ah * HALF + al) * (bh * HALF + bl)
         == Mul(ah, bh) * W + (Mul(al, bh) + Mul(ah, bl)) * HALF + Mul(al, bl)
  {
    PartialBound(al, bl);
    PartialBound(al, bh);
    PartialBound(ah, bl);
    PartialBound(ah, bh);
    var b := bh * HALF + bl;
    Distrib(ah * HALF, al, b);
    Assoc(ah, HALF, b);
    assert ah * b == (ah * bh) * HALF + ah * bl;
    assert al * b == (al * bh) * HALF + al * bl;
  }

  lemma CombineCorrect(x: nat, ll: U64, lh: U64, hl: U64, hh: U64)
    requires ll <= (HALF - 1) * (HALF - 1) && lh <= (HALF - 1) * (HALF - 1)
    requires hl <= (HALF - 1) * (HALF - 1) && hh <= (HALF - 1) * (HALF - 1)
    requires x == hh * W + (lh + hl) * HALF + ll
    ensures Combine(ll, lh, hl, hh) == x / W
  {
    var mid0 := lh + ll / HALF;
    var t := mid0 + hl;
    SmallMod(mid0);
    assert t * HALF == (t / HALF) * W + (t % HALF) * HALF;
    assert x == (hh + t / HALF) * W + ((t % HALF) * HALF + ll % HALF);
    DivUnique(x, W, hh + t / HALF, (t % HALF) * HALF + ll % HALF);
    if t < W {
      SmallMod(t);
    } else {
      assert t % W == t - W;
      assert (t - W) / HALF == t / HALF - HALF;
    }
  }
}
