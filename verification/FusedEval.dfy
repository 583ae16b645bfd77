/**
 The integer core of the fused multiply-add: the exact product and the addend
 are aligned in a 128-bit window, combined, and rounded once.
 */
module FusedEval {
  import opened Words
  import opened Pow2
  import opened Wide
  import opened Ieee

  /** The exact sum (-1)^psign * p * 2^pe + (-1)^asign * am * 2^ae in units of 2^u. */
  function Exact(p: nat, pe: int, psign: bool, am: nat, ae: int, asign: bool, u: int): int
    requires u <= pe && (am != 0 ==> u <= ae)
  {
    var x := p * P2(pe - u);
    var y := if am == 0 then 0 else am * P2(ae - u);
    (if psign then -1 else 1) * x + (if asign then -1 else 1) * y
  }

  function Abs(x: int): nat {
    if x < 0 then -x else x
  }

  // 2^106, 2^124, 2^125, 2^126 and 2^128 of the 128-bit window
  const Q106: nat := 0x400_0000_0000_0000_0000_0000_0000
  const Q124: nat := 0x1000_0000_0000_0000_0000_0000_0000_0000
  const Q125: nat := 0x2000_0000_0000_0000_0000_0000_0000_0000
  const Q126: nat := 0x4000_0000_0000_0000_0000_0000_0000_0000
  const Q128: nat := 0x1_0000_0000_0000_0000_0000_0000_0000_0000

  lemma {:induction false} WindowPowers()
    ensures P2(106) == Q106 && P2(124) == Q124 && P2(125) == Q125 && P2(126) == Q126
    ensures W * W == Q128
  {
    hide P2;
    P2Word();
    P2Add(64, 32);
    P2Small();
    P2Add(96, 10);
    P2Add(106, 18);
    P2Add(124, 1);
    P2Add(124, 2);
  }

  // ---- alignment ----

  /** v * 2^e cut at 2^floor, with the lost bits compressed to one. */
  function AlignAt(v: Fx128, e: int, floor: int): (Fx128, bool)
    requires e >= floor ==> e - floor <= 127 && Val(v) * P2(e - floor) < Q128
  {
    WindowPowers();
    if e >= floor then (FxShl(v, e - floor), false) else FxShrSticky(v, floor - e, false)
  }

  /** Alignment is division by the window's floor; the flag is its remainder. */
  lemma {:induction false} AlignMeaning(v: Fx128, e: int, floor: int, u: int)
    requires u <= e && u <= floor
    requires e >= floor ==> e - floor <= 127 && Val(v) * P2(e - floor) < Q128
    ensures
      var x, g, r := Val(v) * P2(e - u), P2(floor - u), AlignAt(v, e, floor);
      && Val(r.0) == x / g
      && (r.1 <==> x % g != 0)
  {
    var x := Val(v) * P2(e - u);
    if e >= floor {
      P2Add(e - floor, floor - u);
      Assoc(Val(v), P2(e - floor), P2(floor - u));
      MulDiv(Val(v) * P2(e - floor), P2(floor - u));
    } else {
      MulDiv(Val(v), P2(e - u));
      DivP2P2(x, e - u, floor - e);
      var r := Val(v) % P2(floor - e);
      if r > 0 {
        MulMono(1, r, P2(e - u));
      }
    }
  }

  /** An operand whose top bit is at most 125 above the floor fits the window. */
  lemma {:induction false} FitsWindow(v: Fx128, e: int, floor: int)
    requires Val(v) != 0 && e + Msb(Val(v)) <= floor + 125
    ensures e >= floor ==> e - floor <= 127 && Val(v) * P2(e - floor) < Q128
  {
    WindowPowers();
    if e >= floor {
      var k := Msb(Val(v));
      MulBounds(P2(k), Val(v), P2(k + 1), P2(e - floor));
      P2Add(k + 1, e - floor);
      P2Mono(k + 1 + e - floor, 126);
    }
  }

  /** The window value of an operand, from its top bit. */
  lemma {:induction false} WindowTop(x: nat, e: int, floor: int, u: int)
    requires x != 0 && u <= e && u <= floor
    ensures
      var top, w := e + Msb(x), (x * P2(e - u)) / P2(floor - u);
      && (top >= floor ==> w >= P2(top - floor))
      && (top + 1 >= floor ==> w < P2(top + 1 - floor))
      && (top < floor ==> w == 0)
  {
    MsbScale(x, e - u);
    QuotientTop(x * P2(e - u), e + Msb(x) - u, floor - u);
  }

  lemma {:induction false} QuotientTop(y: nat, top: nat, g: nat)
    requires P2(top) <= y < P2(top + 1)
    ensures top >= g ==> y / P2(g) >= P2(top - g)
    ensures top + 1 >= g ==> y / P2(g) < P2(top + 1 - g)
    ensures top < g ==> y / P2(g) == 0
  {
    if top < g {
      P2Mono(top + 1, g);
      DivUnique(y, P2(g), 0, y);
    } else {
      P2Add(top - g, g);
      P2Add(top + 1 - g, g);
      QuotientBounds(P2(top - g), y, P2(top + 1 - g), P2(g));
    }
  }

  lemma QuotientBounds(lo: nat, y: nat, hi: nat, d: nat)
    requires d > 0 && lo * d <= y < hi * d
    ensures lo <= y / d < hi
  {
    DivMod(y, d);
    if y / d < lo {
      MulMono(y / d + 1, lo, d);
      Distrib(y / d, 1, d);
    }
    if y / d >= hi {
      MulMono(hi, y / d, d);
    }
  }

  /**
   Only the operand with the lower top bit can lose bits to the window, and
   then the other fills it: the difference keeps at least 2^124.
   */
  lemma {:induction false} OnlyLowerLoses(p: nat, pe: int, am: nat, ae: int, floor: int, u: int)
    requires p != 0 && am != 0 && Msb(p) <= 105 && Msb(am) <= 105
    requires u <= pe && u <= ae && u <= floor
    requires floor > pe ==> floor == Max(pe + Msb(p), ae + Msb(am)) - 125
    ensures floor > pe ==>
      && floor <= ae
      && (p * P2(pe - u)) / P2(floor - u) < Q106
      && (am * P2(ae - u)) / P2(floor - u) >= Q125
      && (am * P2(ae - u)) / P2(floor - u) - (p * P2(pe - u)) / P2(floor - u) >= Q124
  {
    WindowPowers();
    if floor > pe {
      WindowTop(p, pe, floor, u);
      WindowTop(am, ae, floor, u);
      if pe + Msb(p) + 1 >= floor {
        P2Mono(pe + Msb(p) + 1 - floor, 106);
      }
    }
  }

  function Max(a: int, b: int): int {
    if a < b then b else a
  }

  // ---- combination ----

  /** Adding two window values when at most one of them has a tail. */
  lemma SameSign(x: nat, y: nat, g: nat)
    requires g > 0 && (x % g == 0 || y % g == 0)
    ensures (x + y) / g == x / g + y / g
    ensures (x + y) % g != 0 <==> x % g != 0 || y % g != 0
  {
    DivMod(x, g);
    DivMod(y, g);
    Distrib(x / g, y / g, g);
    DivUnique(x + y, g, x / g + y / g, x % g + y % g);
  }

  /** Subtracting the smaller: a tail on it borrows one and leaves a tail. */
  lemma Borrow(big: nat, small: nat, g: nat)
    requires g > 0 && (big % g == 0 || small % g == 0)
    requires small % g == 0 ==> big / g >= small / g
    requires small % g != 0 ==> big / g > small / g
    ensures big >= small
    ensures (big - small) / g == big / g - small / g - (if small % g != 0 then 1 else 0)
    ensures (big - small) % g != 0 <==> big % g != 0 || small % g != 0
  {
    var s, t := small % g, big % g;
    DivMod(big, g);
    DivMod(small, g);
    var d := big / g - small / g;
    Distrib(big / g, small / g, g);
    Distrib(d, 1, g);
    if s != 0 {
      MulMono(0, d - 1, g);
      DivUnique(big - small, g, d - 1, g - s);
    } else {
      MulMono(0, d, g);
      DivUnique(big - small, g, d, t);
    }
  }

  // ---- rounding ----

  /** Window position of the lowest bit the format keeps. */
  function LowBit(f: Format, k: nat, floor: int): int {
    var low := k - (f.prec - 1);
    if f.emin - floor > low then f.emin - floor else low
  }

  lemma {:induction false} LowIsQuantum(f: Format, a: nat, u: int, m: nat, floor: int)
    requires f.Valid() && u <= f.emin && u <= floor
    requires m == a / P2(floor - u) && m > 0
    ensures a > 0 && Msb(a) == Msb(m) + floor - u
    ensures Quantum(f, a, u) == LowBit(f, Msb(m), floor) + floor - u
  {
    MsbDiv(a, floor - u);
  }

  /** Every bit of an exact window fits the format. */
  lemma {:induction false} ExactWindow(f: Format, a: nat, u: int, m: nat, floor: int)
    requires f.Valid() && u <= f.emin && u <= floor
    requires m > 0 && a == m * P2(floor - u) && LowBit(f, Msb(m), floor) <= 0
    ensures m < P2(f.prec) && a > 0
    ensures Rounded(f, a, u) == a
  {
    var g, low := floor - u, LowBit(f, Msb(m), floor);
    MulDiv(m, P2(g));
    LowIsQuantum(f, a, u, m, floor);
    var q := low + g;
    ExactQuotient(m, -low, q);
    P2Mono(Msb(m) + 1, f.prec);
  }

  lemma {:induction false} ExactQuotient(m: nat, s: nat, q: nat)
    ensures NearestEven(m * P2(s + q), q) * P2(q) == m * P2(s + q)
  {
    P2Add(s, q);
    Assoc(m, P2(s), P2(q));
    MulDiv(m * P2(s), P2(q));
  }

  /** The guard bit and the sticky bit below it decide round-to-nearest-even. */
  lemma {:induction false} GuardAndSticky(a: nat, m: nat, g: nat, low: nat, guard: bool, sticky: bool)
    requires low > 0 && m == a / P2(g)
    requires guard <==> (m / P2(low - 1)) % 2 == 1
    requires sticky <==> m % P2(low - 1) != 0 || a % P2(g) != 0
    ensures
      var n := (m / P2(low - 1)) / 2;
      NearestEven(a, low + g) == if guard && (sticky || n % 2 == 1) then n + 1 else n
  {
    hide P2, NearestEven;
    var c, t := m / P2(low - 1), m % P2(low - 1);
    SplitRemainder(a, m, g, low);
    TailBound(t, a % P2(g), low - 1, g);
    NearestFromHalf(a, low - 1 + g, c / 2, guard, t * P2(g) + a % P2(g));
  }

  lemma {:induction false} TailBound(t: nat, x: nat, l: nat, g: nat)
    requires t < P2(l) && x < P2(g)
    ensures t * P2(g) + x < P2(l + g)
    ensures t * P2(g) + x != 0 <==> t != 0 || x != 0
  {
    MulBounds(0, t, P2(l), P2(g));
    P2Add(l, g);
    if t > 0 {
      MulMono(1, t, P2(g));
    }
  }

  lemma {:induction false} SplitRemainder(a: nat, m: nat, g: nat, low: nat)
    requires low > 0 && m == a / P2(g)
    ensures
      var c, t := m / P2(low - 1), m % P2(low - 1);
      && a / P2(low + g) == c / 2
      && a % P2(low + g) == (if c % 2 == 1 then P2(low - 1 + g) else 0) + (t * P2(g) + a % P2(g))
  {
    var c, t := m / P2(low - 1), m % P2(low - 1);
    DivP2P2(m, low - 1, 1);
    assert P2(1) == 2;
    DivP2P2(a, g, low);
    P2Add(low - 1, g);
    if c % 2 == 1 {
      Distrib(P2(low - 1), t, P2(g));
    }
  }

  lemma NearestFromHalf(a: nat, h: nat, n: nat, guard: bool, rest: nat)
    requires a / P2(h + 1) == n && rest < P2(h)
    requires a % P2(h + 1) == (if guard then P2(h) else 0) + rest
    ensures NearestEven(a, h + 1) == if guard && (rest != 0 || n % 2 == 1) then n + 1 else n
  {
    assert P2(h + 1) == 2 * P2(h);
  }

  // ---- packing ----

  /** A rounded canonical significand encodes the rounded value. */
  lemma {:induction false} PackFinite(f: Format, neg: bool, a: nat, u: int, rm: nat, e: int, b: nat, fl: Flags)
    requires f.Valid() && u <= f.emin && a > 0
    requires 0 < rm < P2(f.prec) && e >= f.emin && (rm >= P2(f.prec - 1) || e == f.emin)
    requires rm * P2(e - u) == Rounded(f, a, u)
    requires e + Msb(rm) <= f.wmax
    requires b == SignBit(f, neg) + (e - f.emin) * P2(f.prec - 1) + rm
    requires f.wtiny + 1 - u >= 0
    requires fl == Flags(false, false, Rounded(f, a, u) != a && a < P2(f.wtiny + 1 - u), Rounded(f, a, u) != a)
    ensures Rounds(f, neg, a, u, b, fl)
  {
    LimitExponent(f);
    if rm >= P2(f.prec - 1) {
      MsbUnique(rm, f.prec - 1);
    }
    EncodeCanonical(f, neg, rm, e);
    BelowLimit(f, u, rm, e);
  }

  lemma {:induction false} BelowLimit(f: Format, u: int, rm: nat, e: int)
    requires f.Valid() && u <= f.emin && e >= u && rm > 0 && e + Msb(rm) <= f.wmax
    ensures rm * P2(e - u) < Limit(f, u)
  {
    MsbScale(rm, e - u);
    var r := rm * P2(e - u);
    assert r < P2(Msb(r) + 1);
    P2Mono(Msb(r) + 1, f.wmax + 1 - u);
  }

  lemma {:induction false} PackInfinity(f: Format, neg: bool, a: nat, u: int, rm: nat, e: int)
    requires f.Valid() && u <= f.emin && a > 0 && rm > 0 && e >= u
    requires rm * P2(e - u) == Rounded(f, a, u)
    requires e + Msb(rm) > f.wmax
    ensures Rounds(f, neg, a, u, Infinity(f, neg), OVERFLOW)
  {
    LimitExponent(f);
    SplitEncoding(f, neg, f.MaxField(), 0);
    PastLimit(f, u, rm, e);
  }

  lemma {:induction false} PastLimit(f: Format, u: int, rm: nat, e: int)
    requires f.Valid() && u <= f.emin && e >= u && rm > 0 && e + Msb(rm) > f.wmax
    ensures rm * P2(e - u) >= Limit(f, u)
  {
    LimitExponent(f);
    MsbScale(rm, e - u);
    var r := rm * P2(e - u);
    assert P2(Msb(r)) <= r;
    P2Mono(f.wmax + 1 - u, Msb(r));
  }

  lemma {:induction false} PackZero(f: Format, neg: bool, a: nat, u: int)
    requires f.Valid() && u <= f.emin && a > 0
    requires NearestEven(a, Quantum(f, a, u)) == 0
    ensures Rounds(f, neg, a, u, SignBit(f, neg), UNDERFLOW)
  {
    LimitExponent(f);
    NearZeroIsTiny(f, a, u);
    SplitEncoding(f, neg, 0, 0);
    hide P2, NearestEven, Quantum;
  }

  lemma {:induction false} NearZeroIsTiny(f: Format, a: nat, u: int)
    requires f.Valid() && u <= f.emin && a > 0
    requires NearestEven(a, Quantum(f, a, u)) == 0
    ensures f.wtiny + 1 - u >= 0 && a < P2(f.wtiny + 1 - u)
    ensures Rounded(f, a, u) == 0
  {
    LimitExponent(f);
    NearestEvenBounds(a, Quantum(f, a, u));
    QuotientRange(f, a, u);
    P2Mono(f.emin - u, f.wtiny + 1 - u);
  }

  /** Tiny before rounding is a statement about the window's top bit. */
  lemma {:induction false} TinyIsTop(f: Format, a: nat, u: int, w: int)
    requires f.Valid() && u <= f.emin && a > 0 && w == Msb(a) + u
    ensures f.wtiny + 1 - u >= 0
    ensures w <= f.wtiny <==> a < P2(f.wtiny + 1 - u)
  {
    LimitExponent(f);
    if w <= f.wtiny {
      P2Mono(Msb(a) + 1, f.wtiny + 1 - u);
    } else {
      P2Mono(f.wtiny + 1 - u, Msb(a));
    }
  }

  // ---- the evaluator ----

  /** What the callers hand over: a nonzero product of two significands and an addend. */
  predicate Operands(f: Format, p: Fx128, pe: int, am: U64, ae: int, u: int) {
    && f.Valid() && f.width <= 64
    && 0 < Val(p) < P2(2 * f.prec)
    && am < P2(f.prec)
    && u <= f.emin && u <= pe && (am != 0 ==> u <= ae)
  }

  /** A window holding |x| with its tail compressed into the sticky flag. */
  predicate Holds(x: int, u: int, m: Fx128, floor: int, sticky: bool) {
    && u <= floor
    && Val(m) > 0
    && Val(m) == Abs(x) / P2(floor - u)
    && (sticky <==> Abs(x) % P2(floor - u) != 0)
    && (sticky ==> Val(m) >= Q124)
  }

  lemma {:induction false} SignificandTops(f: Format, p: Fx128, pe: int, am: U64, ae: int, u: int)
    requires Operands(f, p, pe, am, ae, u)
    ensures Msb(Val(p)) <= 105
    ensures am != 0 ==> Msb(am) <= 52
  {
    P2Mono(2 * f.prec, 106);
    P2Lt(Msb(Val(p)), 106);
    if am != 0 {
      P2Mono(f.prec, 53);
      P2Lt(Msb(am), 53);
    }
  }

  lemma ExactIsSum(x: nat, y: nat, psign: bool, asign: bool, s: int)
    requires s == (if psign then -1 else 1) * x + (if asign then -1 else 1) * y
    ensures psign == asign ==> Abs(s) == x + y && (s < 0 <==> psign && x + y > 0)
    ensures psign != asign && x >= y ==> Abs(s) == x - y && (x > y ==> (s < 0 <==> psign))
    ensures psign != asign && y >= x ==> Abs(s) == y - x && (y > x ==> (s < 0 <==> asign))
  {
  }

  /**
   Both operands cut at one floor. `x`, `y` and `g` are their exact magnitudes
   and the floor, in units: at most one has a tail, and then the other fills the
   window.
   */
  ghost predicate Aligned(pw: Fx128, plost: bool, aw: Fx128, alost: bool, x: nat, y: nat, g: nat) {
    && g > 0 && x > 0 && y > 0
    && Val(pw) == x / g && (plost <==> x % g != 0)
    && Val(aw) == y / g && (alost <==> y % g != 0)
    && (plost ==> !alost && Val(aw) >= Q125 && Val(pw) < Q106)
    && (alost ==> !plost && Val(pw) >= Q125 && Val(aw) < Q106)
    && Val(pw) < Q126 && Val(aw) < Q126
  }

  method Align(f: Format, p: Fx128, pe: int, am: U64, ae: int, ghost u: int)
    returns (floor: int, pw: Fx128, plost: bool, aw: Fx128, alost: bool)
    requires Operands(f, p, pe, am, ae, u) && am != 0
    ensures floor >= u
    ensures Aligned(pw, plost, aw, alost, Val(p) * P2(pe - u), am * P2(ae - u), P2(floor - u))
  {
    hide P2, Msb;
    SignificandTops(f, p, pe, am, ae, u);
    var topp := pe + FxMsb(p);
    var topa := ae + Msb(am);
    var topmax := if topp > topa then topp else topa;
    floor := if pe < ae then pe else ae;
    if floor < topmax - 125 {
      floor := topmax - 125;
    }
    var a0 := Fx128(0, am);
    FitsWindow(p, pe, floor);
    FitsWindow(a0, ae, floor);
    var pr := AlignAt(p, pe, floor);
    var ar := AlignAt(a0, ae, floor);
    pw, plost, aw, alost := pr.0, pr.1, ar.0, ar.1;
    AlignMeaning(p, pe, floor, u);
    AlignMeaning(a0, ae, floor, u);
    AlignedWindow(p, pe, am, ae, floor, u, pw, aw, plost, alost);
  }

  lemma {:induction false} AlignedWindow(p: Fx128, pe: int, am: U64, ae: int, floor: int, u: int,
                                         pw: Fx128, aw: Fx128, plost: bool, alost: bool)
    requires Val(p) != 0 && am != 0 && Msb(Val(p)) <= 105 && Msb(am) <= 52
    requires u <= pe && u <= ae && u <= floor
    requires pe + Msb(Val(p)) <= floor + 125 && ae + Msb(am) <= floor + 125
    requires floor > pe || floor > ae ==> floor == Max(pe + Msb(Val(p)), ae + Msb(am)) - 125
    requires Val(pw) == (Val(p) * P2(pe - u)) / P2(floor - u) && (plost <==> (Val(p) * P2(pe - u)) % P2(floor - u) != 0)
    requires Val(aw) == (am * P2(ae - u)) / P2(floor - u) && (alost <==> (am * P2(ae - u)) % P2(floor - u) != 0)
    ensures Aligned(pw, plost, aw, alost, Val(p) * P2(pe - u), am * P2(ae - u), P2(floor - u))
  {
    hide P2, Msb;
    OnlyLowerLoses(Val(p), pe, am, ae, floor, u);
    OnlyLowerLoses(am, ae, Val(p), pe, floor, u);
    InWindow(Val(p), pe, floor, u);
    InWindow(am, ae, floor, u);
  }

  lemma {:induction false} InWindow(x: nat, e: int, floor: int, u: int)
    requires x > 0 && u <= e && u <= floor && e + Msb(x) <= floor + 125
    ensures x * P2(e - u) > 0
    ensures (x * P2(e - u)) / P2(floor - u) < Q126
    ensures floor <= e ==> (x * P2(e - u)) % P2(floor - u) == 0
  {
    MulMono(1, x, P2(e - u));
    if floor <= e {
      NoTail(x, e, floor, u);
    }
    WindowTop(x, e, floor, u);
    WindowBelow((x * P2(e - u)) / P2(floor - u), e + Msb(x), floor);
  }

  lemma {:induction false} NoTail(x: nat, e: int, floor: int, u: int)
    requires u <= floor <= e
    ensures (x * P2(e - u)) % P2(floor - u) == 0
  {
    P2Add(e - floor, floor - u);
    Assoc(x, P2(e - floor), P2(floor - u));
    MulDiv(x * P2(e - floor), P2(floor - u));
  }

  /** Add aligned operands of one sign. */
  method AddAligned(pw: Fx128, plost: bool, aw: Fx128, alost: bool, ghost x: nat, ghost y: nat, ghost g: nat)
    returns (m: Fx128, sticky: bool)
    requires Aligned(pw, plost, aw, alost, x, y, g)
    ensures Val(m) > 0 && Val(m) == (x + y) / g
    ensures sticky <==> (x + y) % g != 0
    ensures sticky ==> Val(m) >= Q124
  {
    m, sticky := FxAdd(pw, aw), plost || alost;
    SameSign(x, y, g);
    NonzeroWindow(x + y, g);
  }

  /** Subtract aligned operands of opposite signs, unless they cancel exactly. */
  method SubAligned(pw: Fx128, plost: bool, aw: Fx128, alost: bool, ghost x: nat, ghost y: nat, ghost g: nat)
    returns (zero: bool, pBig: bool, m: Fx128, sticky: bool)
    requires Aligned(pw, plost, aw, alost, x, y, g)
    ensures zero <==> x == y
    ensures !zero ==> (pBig <==> x > y)
    ensures !zero ==> Val(m) > 0 && Val(m) == Abs(x - y) / g && (sticky <==> Abs(x - y) % g != 0)
    ensures !zero ==> (sticky ==> Val(m) >= Q124)
  {
    var cmp := FxCmp(pw, aw);
    if cmp == 0 && !plost && !alost {
      DivMod(x, g);
      DivMod(y, g);
      zero, pBig, m, sticky := true, false, pw, false;
      return;
    }
    zero, pBig := false, cmp > 0 || (cmp == 0 && plost);
    var big, small := if pBig then pw else aw, if pBig then aw else pw;
    var smallLost := if pBig then alost else plost;
    ghost var bx, sx := if pBig then x else y, if pBig then y else x;
    Borrow(bx, sx, g);
    NonzeroWindow(bx - sx, g);
    m := FxSub(big, small);
    if smallLost {
      if m.hi != 0 || m.lo != 0 {
        m := FxSub(m, Fx128(0, 1));
      }
      sticky := true;
    } else {
      sticky := if pBig then plost else alost;
    }
  }

  lemma NonzeroWindow(x: nat, g: nat)
    requires g > 0
    ensures x % g == 0 && x > 0 ==> x / g > 0
    ensures x % g != 0 ==> x > 0
    ensures x / g > 0 ==> x > 0
  {
    DivMod(x, g);
  }

  lemma {:induction false} WindowBelow(w: nat, top: int, floor: int)
    requires top <= floor + 125
    requires top + 1 >= floor ==> w < P2(top + 1 - floor)
    requires top < floor ==> w == 0
    ensures w < Q126
  {
    WindowPowers();
    if top >= floor {
      P2Mono(top + 1 - floor, 126);
    }
  }

  /** The rounded significand and exponent, canonical for the format. */
  ghost predicate Canonical(f: Format, a: nat, u: int, rm: nat, e: int)
    requires f.Valid() && u <= f.emin && a > 0
  {
    && e >= f.emin
    && rm < P2(f.prec)
    && (rm >= P2(f.prec - 1) || e == f.emin)
    && rm * P2(e - u) == Rounded(f, a, u)
    && (rm == 0 ==> NearestEven(a, Quantum(f, a, u)) == 0)
  }

  /** A window with a lost tail is far wider than any format. */
  lemma {:induction false} WideEnough(f: Format, m: Fx128, floor: int)
    requires f.Valid() && Val(m) >= Q124
    ensures LowBit(f, Msb(Val(m)), floor) > 0
  {
    WindowPowers();
    P2Lt(124, Msb(Val(m)) + 1);
  }

  lemma {:induction false} NarrowWindow(f: Format, a: nat, u: int, m: Fx128, floor: int)
    requires f.Valid() && u <= f.emin && a > 0
    requires Holds(a, u, m, floor, false) && LowBit(f, Msb(Val(m)), floor) <= 0
    ensures m.hi == 0 && a == m.lo * P2(floor - u) && Rounded(f, a, u) == a
    ensures m.lo < P2(f.prec)
  {
    DivMod(a, P2(floor - u));
    ExactWindow(f, a, u, Val(m), floor);
    P2Mono(f.prec, 64);
    P2Word();
  }

  /** Shifting a short significand up to full precision keeps its value. */
  lemma {:induction false} NormalizeUp(f: Format, rm: U64, sh: nat, e: int, u: int)
    requires f.Valid() && rm > 0 && sh <= f.prec - 1 - Msb(rm) && u <= e - sh
    ensures Shl(rm, sh) < P2(f.prec)
    ensures Shl(rm, sh) * P2(e - sh - u) == rm * P2(e - u)
    ensures sh == f.prec - 1 - Msb(rm) ==> Shl(rm, sh) >= P2(f.prec - 1)
    ensures Shl(rm, sh) > 0
  {
    ShlBits(f, rm, sh);
    P2Add(sh, e - sh - u);
    Assoc(rm, P2(sh), P2(e - sh - u));
  }

  lemma {:induction false} ShlBits(f: Format, rm: U64, sh: nat)
    requires f.Valid() && rm > 0 && sh <= f.prec - 1 - Msb(rm)
    ensures Shl(rm, sh) == rm * P2(sh) && 0 < rm * P2(sh) < P2(f.prec)
    ensures sh == f.prec - 1 - Msb(rm) ==> rm * P2(sh) >= P2(f.prec - 1)
  {
    MsbScale(rm, sh);
    P2Mono(Msb(rm) + sh + 1, f.prec);
    P2Lt(f.prec, 64);
    P2Word();
    hide P2, Msb, Format.Valid;
    SmallMod(rm * P2(sh));
  }

  /** Above the low bit at most precision-plus-one bits of the window remain. */
  lemma {:induction false} RoundedWindow(f: Format, m: nat, floor: int, a: nat, u: int, low: nat)
    requires f.Valid() && u <= f.emin && a > 0 && u <= floor
    requires m == a / P2(floor - u) && m > 0 && low == LowBit(f, Msb(m), floor) && low > 0
    ensures
      var n := (m / P2(low - 1)) / 2;
      && Quantum(f, a, u) == low + floor - u
      && n < P2(f.prec) && m / P2(low - 1) < W && P2(f.prec) < W
      && (floor + low > f.emin ==> n >= P2(f.prec - 1))
  {
    LowIsQuantum(f, a, u, m, floor);
    SplitRemainder(a, m, floor - u, low);
    QuotientRange(f, a, u);
    P2Mono(f.prec, 53);
    P2Lt(53, 64);
    P2Lt(54, 64);
    assert P2(54) == 2 * P2(53);
    P2Word();
  }

  /** Something was lost exactly when the quantum does not divide the value. */
  lemma {:induction false} InexactWindow(a: nat, m: nat, g: nat, low: nat, guard: bool, tail: bool)
    requires low > 0 && m == a / P2(g)
    requires guard <==> (m / P2(low - 1)) % 2 == 1
    requires tail <==> m % P2(low - 1) != 0 || a % P2(g) != 0
    ensures tail || guard <==> NearestEven(a, low + g) * P2(low + g) != a
  {
    var c, t := m / P2(low - 1), m % P2(low - 1);
    hide P2, NearestEven;
    SplitRemainder(a, m, g, low);
    TailBound(t, a % P2(g), low - 1, g);
    assert tail || guard <==> a % P2(low + g) != 0;
    ExactIffDivides(a, low + g);
  }

  lemma {:induction false} ExactIffDivides(a: nat, q: nat)
    ensures NearestEven(a, q) * P2(q) == a <==> a % P2(q) == 0
  {
    DivMod(a, P2(q));
    MulDiv(NearestEven(a, q), P2(q));
  }

  lemma {:induction false} CarryOut(f: Format, x: nat)
    requires f.Valid()
    ensures P2(f.prec) / 2 == P2(f.prec - 1)
    ensures P2(f.prec - 1) * P2(x + 1) == P2(f.prec) * P2(x)
    ensures P2(f.prec - 1) < P2(f.prec)
  {
    assert P2(f.prec) == 2 * P2(f.prec - 1);
    Assoc(P2(f.prec - 1), 2, P2(x));
  }

  /** Round the window once: nearest, ties to even. */
  method RoundWindow(f: Format, m: Fx128, floor: int, sticky: bool, ghost a: nat, ghost u: int)
    returns (rm: U64, e: int, inexact: bool)
    requires f.Valid() && u <= f.emin && a > 0
    requires Holds(a, u, m, floor, sticky)
    ensures Canonical(f, a, u, rm, e)
    ensures inexact <==> Rounded(f, a, u) != a
  {
    var k := FxMsb(m);
    var low := k - (f.prec - 1);
    if f.emin - floor > low {
      low := f.emin - floor;
    }
    if low <= 0 {
      if sticky {
        WideEnough(f, m, floor);
      }
      NarrowWindow(f, a, u, m, floor);
      inexact := sticky;
      rm, e := NormalizeWindow(f, m.lo, floor, a, u);
    } else {
      rm, e, inexact := RoundAt(f, m, floor, sticky, low, a, u);
    }
  }

  /** Every bit fits: normalize up, but not below the subnormal quantum. */
  method NormalizeWindow(f: Format, lo: U64, floor: int, ghost a: nat, ghost u: int) returns (rm: U64, e: int)
    requires f.Valid() && u <= f.emin && 0 < lo < P2(f.prec) && floor >= f.emin
    requires a == lo * P2(floor - u) && a > 0 && Rounded(f, a, u) == a
    ensures Canonical(f, a, u, rm, e)
  {
    rm, e := lo, floor;
    P2Lt(Msb(lo), f.prec);
    var sh := f.prec - 1 - Msb(lo);
    if sh > e - f.emin {
      sh := e - f.emin;
    }
    NormalizeUp(f, rm, sh, e, u);
    if sh > 0 {
      rm, e := Shl(rm, sh), e - sh;
    }
  }

  /** Round at bit `low` of the window, with a guard bit below it. */
  method RoundAt(f: Format, m: Fx128, floor: int, sticky: bool, low: nat, ghost a: nat, ghost u: int)
    returns (rm: U64, e: int, inexact: bool)
    requires f.Valid() && u <= f.emin && a > 0
    requires Holds(a, u, m, floor, sticky) && low == LowBit(f, Msb(Val(m)), floor) && low > 0
    ensures Canonical(f, a, u, rm, e)
    ensures inexact <==> Rounded(f, a, u) != a
  {
    hide P2, NearestEven, Quantum, Rounded, LowBit, Msb, Format.Valid, CutBelow, Canonical, Val;
    var (q, lost) := CutBelow(m, low);
    LowLimb(q);
    var guard := q.lo % 2 == 1;
    var tail := sticky || lost;
    RoundingDecision(f, Val(m), floor, a, u, low, Val(q), guard, tail);
    inexact := tail || guard;
    rm, e := RoundUp(f, q.lo / 2, floor + low, guard && (tail || (q.lo / 2) % 2 == 1), a, u);
  }

  lemma LowLimb(v: Fx128)
    ensures v.lo % 2 == Val(v) % 2
    ensures Val(v) < W ==> v.lo == Val(v)
  {
  }

  /** Add the rounding increment, renormalizing a carry out of the top bit. */
  method RoundUp(f: Format, n: U64, exp: int, up: bool, ghost a: nat, ghost u: int) returns (rm: U64, e: int)
    requires f.Valid() && u <= f.emin && a > 0
    requires exp == Quantum(f, a, u) + u && n < P2(f.prec) < W
    requires NearestEven(a, Quantum(f, a, u)) == if up then n + 1 else n
    ensures Canonical(f, a, u, rm, e)
  {
    hide P2, NearestEven, Quantum, Format.Valid, Canonical;
    RoundedCanonical(f, a, u);
    rm, e := n, exp;
    if up {
      rm := rm + 1;
      if rm == P2(f.prec) {
        rm, e := rm / 2, e + 1;
      }
    }
  }

  /** The window from the guard bit up, and whether a set bit was cut off below it. */
  function CutBelow(m: Fx128, low: nat): (r: (Fx128, bool))
    requires low > 0
    ensures Val(r.0) == Val(m) / P2(low - 1)
    ensures r.1 <==> Val(m) % P2(low - 1) != 0
  {
    P2Zero(low - 1);
    if low > 1 then FxShrSticky(m, low - 1, false) else (m, false)
  }

  /** Guard and tail decide the rounded significand and whether it is exact. */
  lemma {:induction false} RoundingDecision(f: Format, m: nat, floor: int, a: nat, u: int, low: nat,
                                            c: nat, guard: bool, tail: bool)
    requires f.Valid() && u <= f.emin && a > 0 && u <= floor
    requires m == a / P2(floor - u) && m > 0 && low == LowBit(f, Msb(m), floor) && low > 0
    requires c == m / P2(low - 1) && (guard <==> c % 2 == 1)
    requires tail <==> m % P2(low - 1) != 0 || a % P2(floor - u) != 0
    ensures Quantum(f, a, u) + u == floor + low
    ensures c < W && c / 2 < P2(f.prec) < W
    ensures NearestEven(a, Quantum(f, a, u)) == if guard && (tail || (c / 2) % 2 == 1) then c / 2 + 1 else c / 2
    ensures tail || guard <==> Rounded(f, a, u) != a
  {
    RoundedWindow(f, m, floor, a, u, low);
    GuardAndSticky(a, m, floor - u, low, guard, tail);
    InexactWindow(a, m, floor - u, low, guard, tail);
  }

  /** The nearest quotient is canonical, after a carry out of the top bit is renormalized. */
  lemma {:induction false} RoundedCanonical(f: Format, a: nat, u: int)
    requires f.Valid() && u <= f.emin && a > 0
    ensures
      var q := Quantum(f, a, u);
      var k := NearestEven(a, q);
      && (k < P2(f.prec) ==> Canonical(f, a, u, k, q + u))
      && (k >= P2(f.prec) ==> k == P2(f.prec) && Canonical(f, a, u, P2(f.prec) / 2, q + u + 1))
  {
    var q := Quantum(f, a, u);
    QuotientRange(f, a, u);
    NearestEvenBounds(a, q);
    CarryOut(f, q);
  }

  /** Lay out the rounded value and derive the flags. */
  method Pack(f: Format, rsign: bool, rm: U64, e: int, inexact: bool, w: int, ghost a: nat, ghost u: int)
    returns (fl: Flags, rraw: nat)
    requires f.Valid() && u <= f.emin && a > 0
    requires Canonical(f, a, u, rm, e)
    requires inexact <==> Rounded(f, a, u) != a
    requires w == Msb(a) + u
    ensures Rounds(f, rsign, a, u, rraw, fl)
  {
    hide P2, NearestEven, Quantum, Msb, Rounded, Rounds;
    var sbit := SignBit(f, rsign);
    if rm == 0 {
      PackZero(f, rsign, a, u);
      rraw, fl := sbit, UNDERFLOW;
      return;
    }
    var rtop := e + Msb(rm);
    if rtop > f.wmax {
      PackInfinity(f, rsign, a, u, rm, e);
      rraw, fl := sbit + f.MaxField() * P2(f.prec - 1), OVERFLOW;
      return;
    }
    fl := NO_FLAGS;
    if inexact {
      fl := Flags(false, false, w <= f.wtiny, true);
    }
    if rm < P2(f.prec - 1) {
      rraw := sbit + rm;
    } else {
      FieldLayout(f, rm, e);
      rraw := sbit + (e + f.eoff) * P2(f.prec - 1) + rm % P2(f.prec - 1);
    }
    TinyIsTop(f, a, u, w);
    PackFinite(f, rsign, a, u, rm, e, rraw, fl);
  }

  /** A normal significand's hidden bit is what the exponent offset accounts for. */
  lemma {:induction false} FieldLayout(f: Format, rm: nat, e: int)
    requires f.Valid() && P2(f.prec - 1) <= rm < P2(f.prec) && e >= f.emin
    ensures (e + f.eoff) * P2(f.prec - 1) + rm % P2(f.prec - 1) == (e - f.emin) * P2(f.prec - 1) + rm
  {
    var p := P2(f.prec - 1);
    assert P2(f.prec) == 2 * p;
    DivUnique(rm, p, 1, rm - p);
    Distrib(e - f.emin, 1, p);
  }

  /**
   The exact sum rounded to nearest even in one step, with the exception flags.
   The result is +0 with no flag when the operands cancel exactly.
   */
  method Eval(f: Format, p: Fx128, pe: int, psign: bool, am: U64, ae: int, asign: bool, ghost u: int)
    returns (fl: Flags, rraw: nat)
    requires Operands(f, p, pe, am, ae, u)
    ensures
      var x := Exact(Val(p), pe, psign, am, ae, asign, u);
      if x == 0 then rraw == 0 && fl == NO_FLAGS
      else Rounds(f, x < 0, Abs(x), u, rraw, fl)
  {
    hide Rounds, Canonical, Msb, P2, Format.Valid;
    ghost var s := Exact(Val(p), pe, psign, am, ae, asign, u);
    ghost var x, y := Val(p) * P2(pe - u), if am == 0 then 0 else am * P2(ae - u);
    ExactIsSum(x, y, psign, asign, s);
    var m, floor, sticky, rsign := p, pe, false, psign;
    if am == 0 {
      MulDiv(Val(p), P2(pe - u));
      MulMono(1, Val(p), P2(pe - u));
    } else {
      var pw, plost, aw, alost;
      floor, pw, plost, aw, alost := Align(f, p, pe, am, ae, u);
      if psign == asign {
        m, sticky := AddAligned(pw, plost, aw, alost, x, y, P2(floor - u));
      } else {
        var zero, pBig;
        zero, pBig, m, sticky := SubAligned(pw, plost, aw, alost, x, y, P2(floor - u));
        if zero {
          return NO_FLAGS, 0;
        }
        rsign := if pBig then psign else asign;
      }
    }
    assert s != 0 && rsign == (s < 0) && Holds(Abs(s), u, m, floor, sticky);
    var k := FxMsb(m);
    MsbDiv(Abs(s), floor - u);
    var rm, e, inexact := RoundWindow(f, m, floor, sticky, Abs(s), u);
    fl, rraw := Pack(f, rsign, rm, e, inexact, floor + k, Abs(s), u);
  }
}
