/**
 The saturating and rounding integer kernels of the vector unit, against the exact
 operation on unbounded integers followed by a clamp or a wrap.
 */
module Saturate {
  import opened Words
  import opened Pow2

  /** A lane's bits, and whether the kernel raised FPSR.QC. */
  datatype Out = Out(bits: U64, qc: bool)

  predicate Width(e: nat) {
    e == 8 || e == 16 || e == 32 || e == 64
  }

  /** The conversion to u64. */
  function Bits(x: int): U64 {
    x % W
  }

  function Half(e: nat): nat
    requires e > 0
  {
    P2(e - 1)
  }

  function Lane(v: U64, e: nat): nat {
    v % P2(e)
  }

  /** The lane read as signed. */
  function Signed(v: U64, e: nat): int
    requires e > 0
  {
    if Lane(v, e) >= Half(e) then Lane(v, e) - P2(e) else Lane(v, e)
  }

  // ---- What the forms call for ----

  function Clamp(x: int, lo: int, hi: int): int {
    if x < lo then lo else if x > hi then hi else x
  }

  /** The clamped value in the lane, and QC exactly when it had to clamp. */
  predicate Clamped(r: Out, x: int, lo: int, hi: int, e: nat) {
    r.bits % P2(e) == Clamp(x, lo, hi) % P2(e) && (r.qc <==> x < lo || x > hi)
  }

  predicate SignedClamp(r: Out, x: int, e: nat)
    requires e > 0
  {
    Clamped(r, x, -(Half(e) as int), Half(e) - 1, e)
  }

  predicate UnsignedClamp(r: Out, x: int, e: nat) {
    Clamped(r, x, 0, P2(e) - 1, e)
  }

  /** The value wrapped into the lane, QC untouched. */
  predicate Wrapped(r: Out, x: int, e: nat) {
    r.bits % P2(e) == x % P2(e) && !r.qc
  }

  /** A right shift by r with an optional rounding half. */
  function ShiftedRight(x: int, r: nat, round: bool): int {
    if round && r > 0 then (x + P2(r - 1)) / P2(r) else x / P2(r)
  }

  // ---- Arithmetic ----

  lemma {:induction false} WidthFacts(e: nat)
    requires Width(e)
    ensures P2(e) == 2 * Half(e) && P2(e) <= W && P2(64) == W && W == P2(64 - e) * P2(e)
    ensures e < 64 ==> 2 * P2(e) <= W
  {
    hide P2;
    P2Word();
    P2Add(64 - e, e);
    P2Mono(e, 64);
    Doubled(e - 1);
  }

  lemma Doubled(n: nat)
    ensures P2(n + 1) == 2 * P2(n)
  {
  }

  /** Reducing first modulo a multiple changes nothing. */
  lemma {:induction false} ModMod(x: int, k: nat, d: nat)
    requires d > 0 && k > 0
    ensures k * d > 0 && (x % (k * d)) % d == x % d
  {
    MulPositive(k, d);
    DivMod(x, k * d);
    DivMod(x % (k * d), d);
    var q, r := x / (k * d), x % (k * d);
    Assoc(q, k, d);
    Distrib(q * k, r / d, d);
    DivUnique(x, d, q * k + r / d, r % d);
  }

  lemma MulPositive(a: nat, b: nat)
    requires a > 0 && b > 0
    ensures a * b > 0
  {
  }

  lemma {:induction false} BitsLane(x: int, e: nat)
    requires Width(e)
    ensures Bits(x) % P2(e) == x % P2(e)
  {
    WidthFacts(e);
    ModMod(x, P2(64 - e), P2(e));
  }

  lemma {:induction false} ModSelf(x: int, d: nat)
    requires d > 0
    ensures (x % d) % d == x % d
    ensures (x - d) % d == x % d
  {
    DivMod(x, d);
    DivUnique(x - d, d, x / d - 1, x % d);
  }

  /** The shift-and-carry identity for rounding. */
  lemma {:induction false} RoundByCarry(x: int, r: nat)
    requires r > 0
    ensures (x + P2(r - 1)) / P2(r) == x / P2(r) + (x / P2(r - 1)) % 2
  {
    hide P2;
    var h := P2(r - 1);
    Doubled(r - 1);
    var q, t := x / h, x % h;
    DivMod(x, h);
    HalfQuotient(x, h, q, t);
    Distrib(q, 1, h);
    HalfQuotient(x + h, h, q + 1, t);
  }

  lemma {:induction false} HalfQuotient(x: int, h: nat, q: int, t: int)
    requires h > 0 && x == q * h + t && 0 <= t < h
    ensures x / (2 * h) == q / 2
  {
    DivMod(q, 2);
    var m := q % 2;
    Assoc(q / 2, 2, h);
    Distrib((q / 2) * 2, m, h);
    if m == 0 {
      DivUnique(x, 2 * h, q / 2, t);
    } else {
      DivUnique(x, 2 * h, q / 2, h + t);
    }
  }

  /** A pre-shift bound check decides overflow exactly. */
  lemma {:induction false} BoundByDivision(x: int, m: int, d: nat)
    requires d > 0
    ensures x > m / d <==> x * d > m
  {
    DivMod(m, d);
    if x > m / d {
      MulMono(m / d + 1, x, d);
      Distrib(m / d, 1, d);
    } else {
      MulMono(x, m / d, d);
    }
  }

  lemma {:induction false} CongruentMul(a: int, b: int, p: nat, m: nat)
    requires m > 0 && a % m == b % m
    ensures (a * p) % m == (b * p) % m
  {
    var k := a / m - b / m;
    Differ(a, b, m);
    ShiftedMul(b, k, p, m);
  }

  lemma {:induction false} ShiftedMul(b: int, k: int, p: nat, m: nat)
    requires m > 0
    ensures ((b + k * m) * p) % m == (b * p) % m
  {
    var x, y := b * p, k * p;
    Expand(b, k, m, p);
    AddMultiple(x, y, m);
  }

  lemma {:induction false} Differ(a: int, b: int, m: nat)
    requires m > 0 && a % m == b % m
    ensures a == b + (a / m - b / m) * m
  {
    DivMod(a, m);
    DivMod(b, m);
    Distrib(a / m, b / m, m);
  }

  lemma Expand(b: int, k: int, m: int, p: int)
    ensures (b + k * m) * p == b * p + k * p * m
  {
    Distrib(b, k * m, p);
    Assoc(k, m, p);
  }

  lemma {:induction false} AddMultiple(x: int, k: int, m: nat)
    requires m > 0
    ensures (x + k * m) % m == x % m
  {
    DivMod(x, m);
    Distrib(x / m, k, m);
    DivUnique(x + k * m, m, x / m + k, x % m);
  }

  lemma {:induction false} LaneFacts(v: U64, e: nat)
    requires Width(e)
    ensures Lane(v, e) % P2(e) == v % P2(e) && Signed(v, e) % P2(e) == v % P2(e)
    ensures 0 <= Lane(v, e) < P2(e) && -(Half(e) as int) <= Signed(v, e) < Half(e)
  {
    hide P2, Half;
    WidthFacts(e);
    ModSelf(v, P2(e));
    ModSelf(Lane(v, e), P2(e));
  }

  // ---- Clamps ----

  /** sat_s */
  function SatS(v: int, e: nat): Out
    requires Width(e)
  {
    if v > Half(e) - 1 then Out(Bits(Half(e) - 1), true)
    else if v < -(Half(e) as int) then Out(Bits(-(Half(e) as int)), true)
    else Out(Bits(v), false)
  }

  lemma {:induction false} SatSRight(v: int, e: nat)
    requires Width(e)
    ensures SignedClamp(SatS(v, e), v, e)
  {
    hide P2, Half, Bits;
    HalfPositive(e);
    BitsLane(Half(e) - 1, e);
    BitsLane(-(Half(e) as int), e);
    BitsLane(v, e);
  }

  lemma HalfPositive(e: nat)
    requires Width(e)
    ensures Half(e) > 0
  {
  }

  // ---- Register shifts ----

  /** A left shift that wraps. */
  function LeftWrap(val: U64, sh: nat, e: nat): Out
    requires Width(e)
  {
    if sh >= 64 then Out(0, false)
    else
      ModFits(val * P2(sh), e);
      Out(Bits(val * P2(sh)) % P2(e), false)
  }

  lemma {:induction false} ModFits(x: int, e: nat)
    requires Width(e)
    ensures 0 <= Bits(x) % P2(e) < W
  {
    hide P2;
    WidthFacts(e);
    DivMod(Bits(x), P2(e));
  }

  lemma {:induction false} LeftWrapRight(val: U64, x: int, sh: nat, e: nat)
    requires Width(e) && x % P2(e) == val % P2(e)
    ensures Wrapped(LeftWrap(val, sh, e), x * P2(sh), e)
  {
    hide P2, Bits;
    if sh >= 64 {
      P2Add(sh - e, e);
      Assoc(x, P2(sh - e), P2(e));
      AddMultiple(0, x * P2(sh - e), P2(e));
    } else {
      BitsLane(val * P2(sh), e);
      CongruentMul(val, x, P2(sh), P2(e));
      ModSelf(Bits(val * P2(sh)), P2(e));
    }
  }

  /** A left shift that saturates, signed. */
  function LeftSigned(val: U64, sh: nat, e: nat): Out
    requires Width(e)
  {
    var sv := Signed(val, e);
    var max, min := Half(e) - 1, -(Half(e) as int);
    ModFits(max, e);
    ModFits(min, e);
    ModFits(sv * P2(sh), e);
    if sv == 0 then Out(0, false)
    else if sh >= e || sh >= 64 then Out(Bits(if sv > 0 then max else min) % P2(e), true)
    else if sv > 0 then
      if sv > max / P2(sh) then Out(Bits(max), true) else Out(Bits(sv * P2(sh)) % P2(e), false)
    else if sv < min / P2(sh) then Out(Bits(min) % P2(e), true)
    else Out(Bits(sv * P2(sh)) % P2(e), false)
  }

  lemma {:induction false} MaskedBits(x: int, e: nat)
    requires Width(e)
    ensures (Bits(x) % P2(e)) % P2(e) == x % P2(e)
  {
    hide P2, Bits;
    BitsLane(x, e);
    ModSelf(Bits(x), P2(e));
  }

  /** A shift by the lane's width or more takes any nonzero value out of range. */
  lemma {:induction false} FarShift(sv: int, sh: nat, e: nat)
    requires Width(e) && sh >= e && sv != 0
    ensures sv > 0 ==> sv * P2(sh) > P2(e) - 1
    ensures sv < 0 ==> sv * P2(sh) < -(Half(e) as int)
  {
    hide P2;
    P2Mono(e, sh);
    WidthFacts(e);
    if sv > 0 {
      MulMono(1, sv, P2(sh));
    } else {
      MulMono(sv, -1, P2(sh));
    }
  }

  /** min divides evenly, so its bound is exact too. */
  lemma {:induction false} NegativeBound(sv: int, sh: nat, e: nat)
    requires Width(e) && sh < e
    ensures sv < -(Half(e) as int) / P2(sh) <==> sv * P2(sh) < -(Half(e) as int)
  {
    hide P2;
    var k, d := P2(e - 1 - sh), P2(sh);
    P2Add(e - 1 - sh, sh);
    var q: int := -(k as int);
    Distrib(0, k, d);
    DivUnique(q * d, d, q, 0);
    if sv < q {
      MulMono(sv + 1, q, d);
      Distrib(sv, 1, d);
    } else {
      MulMono(q, sv, d);
    }
  }

  lemma {:induction false} LeftSignedRight(val: U64, sh: nat, e: nat)
    requires Width(e)
    ensures SignedClamp(LeftSigned(val, sh, e), Signed(val, e) * P2(sh), e)
  {
    hide P2, Bits, Half, Signed;
    var sv := Signed(val, e);
    HalfPositive(e);
    WidthFacts(e);
    MaskedBits(Half(e) - 1, e);
    BitsLane(Half(e) - 1, e);
    MaskedBits(-(Half(e) as int), e);
    MaskedBits(sv * P2(sh), e);
    SignKept(sv, P2(sh));
    if sv != 0 {
      if sh >= e {
        FarShift(sv, sh, e);
      } else {
        BoundByDivision(sv, Half(e) - 1, P2(sh));
        NegativeBound(sv, sh, e);
      }
    }
  }

  lemma SignKept(x: int, d: nat)
    requires d > 0
    ensures x == 0 ==> x * d == 0
    ensures x > 0 ==> x * d > 0
    ensures x < 0 ==> x * d < 0
  {
    if x > 0 {
      MulMono(1, x, d);
    } else if x < 0 {
      MulMono(x, -1, d);
    }
  }

  /** A left shift that saturates, unsigned. */
  function LeftUnsigned(val: U64, sh: nat, e: nat): Out
    requires Width(e)
  {
    var uv := Lane(val, e);
    ModFits(uv * P2(sh), e);
    WidthFacts(e);
    if uv == 0 then Out(0, false)
    else if sh >= 64 || uv > (P2(e) - 1) / P2(sh) then Out(P2(e) - 1, true)
    else Out(Bits(uv * P2(sh)) % P2(e), false)
  }

  lemma {:induction false} LeftUnsignedRight(val: U64, sh: nat, e: nat)
    requires Width(e)
    ensures UnsignedClamp(LeftUnsigned(val, sh, e), Lane(val, e) * P2(sh), e)
  {
    hide P2, Bits, Lane;
    var uv := Lane(val, e);
    MaskedBits(uv * P2(sh), e);
    SignKept(uv, P2(sh));
    BoundByDivision(uv, P2(e) - 1, P2(sh));
    if uv != 0 && sh >= 64 {
      FarShift(uv, sh, e);
    }
  }

  /** Arithmetic right shift, rounded by the carry identity. */
  function CarryShift(x: int, rs: nat, round: bool): int {
    x / P2(rs) + if round && rs >= 1 then (x / P2(rs - 1)) % 2 else 0
  }

  lemma {:induction false} CarryShiftRight(x: int, rs: nat, round: bool)
    ensures CarryShift(x, rs, round) == ShiftedRight(x, rs, round)
  {
    hide P2;
    if round && rs >= 1 {
      RoundByCarry(x, rs);
    }
  }

  function RightSigned(val: U64, rs: nat, e: nat, round: bool): Out
    requires Width(e)
  {
    var sv := Signed(val, e);
    ModFits(-1, e);
    ModFits(CarryShift(sv, rs, round), e);
    if rs >= 64 then Out(if round || sv >= 0 then 0 else Bits(-1) % P2(e), false)
    else Out(Bits(CarryShift(sv, rs, round)) % P2(e), false)
  }

  /** Past 64 places only the sign is left, and rounding makes that zero. */
  lemma {:induction false} FarRight(x: int, rs: nat, round: bool)
    requires rs >= 64 && -(P2(63) as int) <= x < P2(63)
    ensures ShiftedRight(x, rs, round) == if round || x >= 0 then 0 else -1
  {
    hide P2;
    Doubled(rs - 1);
    P2Mono(63, rs - 1);
    if round {
      DivUnique(x + P2(rs - 1), P2(rs), 0, x + P2(rs - 1));
    } else if x >= 0 {
      DivUnique(x, P2(rs), 0, x);
    } else {
      DivUnique(x, P2(rs), -1, x + P2(rs));
    }
  }

  lemma {:induction false} RightSignedRight(val: U64, rs: nat, e: nat, round: bool)
    requires Width(e)
    ensures Wrapped(RightSigned(val, rs, e, round), ShiftedRight(Signed(val, e), rs, round), e)
  {
    hide P2, Bits, Signed, ShiftedRight, CarryShift;
    var sv := Signed(val, e);
    LaneFacts(val, e);
    CarryShiftRight(sv, rs, round);
    MaskedBits(CarryShift(sv, rs, round), e);
    MaskedBits(-1, e);
    if rs >= 64 {
      P2Mono(e - 1, 63);
      FarRight(sv, rs, round);
      assert 0 % P2(e) == 0;
    }
  }

  function RightUnsigned(val: U64, rs: nat, e: nat, round: bool): Out
    requires Width(e)
  {
    var uv := Lane(val, e);
    LaneFacts(val, e);
    WidthFacts(e);
    ModFits(CarryShift(uv, rs, round), e);
    if rs >= 64 then
      ModFits((uv / P2(63)) % 2, e);
      Out(if round && rs == 64 then Bits((uv / P2(63)) % 2) % P2(e) else 0, false)
    else Out(Bits(CarryShift(uv, rs, round)) % P2(e), false)
  }

  /** Exactly 64 places with rounding is the lane's top bit; farther is nothing. */
  lemma {:induction false} FarRightUnsigned(x: nat, rs: nat, round: bool)
    requires rs >= 64 && x < P2(64)
    ensures ShiftedRight(x, rs, round) == if round && rs == 64 then (x / P2(63)) % 2 else 0
  {
    hide P2;
    Doubled(rs - 1);
    P2Mono(64, rs);
    if round && rs == 64 {
      RoundByCarry(x, 64);
      DivUnique(x, P2(64), 0, x);
    } else if round {
      P2Mono(64, rs - 1);
      DivUnique(x + P2(rs - 1), P2(rs), 0, x + P2(rs - 1));
    } else {
      DivUnique(x, P2(rs), 0, x);
    }
  }

  lemma {:induction false} RightUnsignedRight(val: U64, rs: nat, e: nat, round: bool)
    requires Width(e)
    ensures Wrapped(RightUnsigned(val, rs, e, round), ShiftedRight(Lane(val, e), rs, round), e)
  {
    hide P2, Bits, Lane, ShiftedRight, CarryShift;
    var uv := Lane(val, e);
    LaneFacts(val, e);
    WidthFacts(e);
    CarryShiftRight(uv, rs, round);
    MaskedBits(CarryShift(uv, rs, round), e);
    if rs >= 64 {
      FarRightUnsigned(uv, rs, round);
      MaskedBits((uv / P2(63)) % 2, e);
      assert 0 % P2(e) == 0;
    }
  }

  /** vreg_shift: left for sh >= 0, else right. */
  function VregShift(val: U64, sh: int, e: nat, sgn: bool, round: bool, sat: bool): Out
    requires Width(e)
  {
    if sh >= 0 then
      if !sat then LeftWrap(val, sh, e) else if sgn then LeftSigned(val, sh, e) else LeftUnsigned(val, sh, e)
    else if sgn then RightSigned(val, -sh, e, round)
    else RightUnsigned(val, -sh, e, round)
  }

  /**
   Every register-shift form computes the exact shift of the lane, rounded if
   asked, then wraps it, or for a saturating left shift clamps it and raises QC
   exactly when the clamp bites.
   */
  lemma {:induction false} VregShiftRight(val: U64, sh: int, e: nat, sgn: bool, round: bool, sat: bool)
    requires Width(e)
    ensures
      var r := VregShift(val, sh, e, sgn, round, sat);
      var x := if sgn then Signed(val, e) else Lane(val, e);
      if sh < 0 then Wrapped(r, ShiftedRight(x, -sh, round), e)
      else if !sat then Wrapped(r, x * P2(sh), e)
      else if sgn then SignedClamp(r, x * P2(sh), e)
      else UnsignedClamp(r, x * P2(sh), e)
  {
    hide P2, Signed, Lane, ShiftedRight, Wrapped, SignedClamp, UnsignedClamp, LeftWrap, LeftSigned, LeftUnsigned,
      RightSigned, RightUnsigned;
    LaneFacts(val, e);
    if sh >= 0 {
      LeftWrapRight(val, if sgn then Signed(val, e) else Lane(val, e), sh, e);
      LeftSignedRight(val, sh, e);
      LeftUnsignedRight(val, sh, e);
    } else {
      RightSignedRight(val, -sh, e, round);
      RightUnsignedRight(val, -sh, e, round);
    }
  }

  // ---- Narrowing shifts ----

  /** sat_umask */
  function SatMask(v: nat, e: nat): Out
    requires Width(e) && v < W
  {
    WidthFacts(e);
    if v > P2(e) - 1 then Out(P2(e) - 1, true) else Out(v, false)
  }

  lemma {:induction false} SatMaskRight(v: nat, e: nat)
    requires Width(e) && v < W
    ensures UnsignedClamp(SatMask(v, e), v, e)
  {
  }

  datatype Narrowing = Truncate | SignedToSigned | SignedToUnsigned | UnsignedToUnsigned

  /** A shifted source stays in 64 bits. */
  lemma {:induction false} NarrowFits(x: int, shift: nat, round: bool)
    requires shift > 0 && -(P2(63) as int) <= x < W
    ensures -(P2(63) as int) <= CarryShift(x, shift, round) < W
  {
    hide P2;
    P2Word();
    Doubled(63);
    P2Mono(1, shift);
    P2Zero(1);
    DivMod(x, P2(shift));
    QuotientBounds(x, P2(shift), P2(63));
    if round {
      DivMod(x / P2(shift - 1), 2);
    }
  }

  lemma {:induction false} QuotientBounds(x: int, d: nat, h: nat)
    requires d >= 2 && h > 1 && -(h as int) <= x < 2 * h
    ensures -(h as int) <= x / d < 2 * h - 1
  {
    DivMod(x, d);
    Between(x, d, h, x / d);
  }

  lemma {:induction false} Between(x: int, d: nat, h: nat, q: int)
    requires d >= 2 && h > 1 && -(h as int) <= x < 2 * h
    requires q * d <= x < q * d + d
    ensures -(h as int) <= q < h
  {
    if q >= h {
      MulMono(h, q, d);
      Twice(h, d);
    } else if q + 1 <= -(h as int) {
      var n: nat := -(q + 1);
      Distrib(q, 1, d);
      Distrib(0, n, d);
      Twice(n, d);
    }
  }

  lemma Twice(h: nat, d: nat)
    requires d >= 2
    ensures h * d >= 2 * h
  {
    MulMono(2, d, h);
  }

  /** narrow_shr: a source lane of twice the width, shifted right and narrowed. */
  function NarrowShr(src: U64, e: nat, shift: nat, round: bool, form: Narrowing): Out
    requires (e == 8 || e == 16 || e == 32) && 0 < shift < 2 * e && src < P2(2 * e)
  {
    var sv := Signed(src, 2 * e);
    NarrowBounds(src, e, shift, round);
    match form
    case Truncate => Out(Bits(CarryShift(src, shift, round)), false)
    case SignedToSigned => SatS(CarryShift(sv, shift, round), e)
    case SignedToUnsigned =>
      var w := CarryShift(sv, shift, round);
      if w < 0 then Out(0, true) else SatMask(w, e)
    case UnsignedToUnsigned => SatMask(CarryShift(src, shift, round), e)
  }

  lemma {:induction false} NarrowBounds(src: U64, e: nat, shift: nat, round: bool)
    requires (e == 8 || e == 16 || e == 32) && 0 < shift < 2 * e
    ensures 0 <= CarryShift(src, shift, round) < W && CarryShift(Signed(src, 2 * e), shift, round) < W
  {
    hide P2, Signed, CarryShift, Half;
    LaneFacts(src, 2 * e);
    P2Mono(2 * e - 1, 63);
    HalfIs(2 * e);
    P2Word();
    Doubled(63);
    NarrowFits(src, shift, round);
    NarrowFits(Signed(src, 2 * e), shift, round);
    CarryNonNegative(src, shift, round);
  }

  lemma CarryNonNegative(x: nat, shift: nat, round: bool)
    ensures CarryShift(x, shift, round) >= 0
  {
    hide P2;
    DivMod(x, P2(shift));
    if x / P2(shift) < 0 {
      MulMono(x / P2(shift), -1, P2(shift));
    }
  }

  /** Each narrowing form is the exact rounded shift, wrapped or clamped to its range. */
  lemma {:induction false} NarrowShrRight(src: U64, e: nat, shift: nat, round: bool, form: Narrowing)
    requires (e == 8 || e == 16 || e == 32) && 0 < shift < 2 * e && src < P2(2 * e)
    ensures
      var r := NarrowShr(src, e, shift, round, form);
      match form
      case Truncate => Wrapped(r, ShiftedRight(src, shift, round), e)
      case SignedToSigned => SignedClamp(r, ShiftedRight(Signed(src, 2 * e), shift, round), e)
      case SignedToUnsigned => UnsignedClamp(r, ShiftedRight(Signed(src, 2 * e), shift, round), e)
      case UnsignedToUnsigned => UnsignedClamp(r, ShiftedRight(src, shift, round), e)
  {
    hide P2, Signed, CarryShift, ShiftedRight, Bits, SatS, SatMask, SignedClamp, Half;
    var sv := Signed(src, 2 * e);
    NarrowBounds(src, e, shift, round);
    CarryShiftRight(src, shift, round);
    CarryShiftRight(sv, shift, round);
    match form
    case Truncate => BitsLane(CarryShift(src, shift, round), e);
    case SignedToSigned => SatSRight(CarryShift(sv, shift, round), e);
    case SignedToUnsigned =>
      if CarryShift(sv, shift, round) >= 0 {
        SatMaskRight(CarryShift(sv, shift, round), e);
      }
    case UnsignedToUnsigned => SatMaskRight(CarryShift(src, shift, round), e);
  }

  lemma HalfIs(e: nat)
    requires e > 0
    ensures Half(e) == P2(e - 1)
  {
  }

  // ---- Mixed-sign accumulates ----

  /** usat_add */
  function UsatAdd(a: nat, b: nat, e: nat): Out
    requires Width(e) && a < P2(e) && b < P2(e)
  {
    WidthFacts(e);
    var r := Bits(a + b);
    if e < 64 then (if r > P2(e) - 1 then Out(P2(e) - 1, true) else Out(r, false))
    else if r < a then Out(W - 1, true)
    else Out(r, false)
  }

  lemma {:induction false} UsatAddRight(a: nat, b: nat, e: nat)
    requires Width(e) && a < P2(e) && b < P2(e)
    ensures UnsignedClamp(UsatAdd(a, b, e), a + b, e)
  {
    hide P2;
    WidthFacts(e);
    WrapOnce(a + b);
    if a + b < P2(e) {
      DivUnique(a + b, P2(e), 0, a + b);
    }
  }

  lemma {:induction false} WrapOnce(x: nat)
    requires x < 2 * W
    ensures Bits(x) == if x < W then x else x - W
  {
  }

  /** usqadd_sat: unsigned accumulator plus signed addend. */
  function Usqadd(d: nat, sa: int, e: nat): Out
    requires Width(e) && d < P2(e) && -(Half(e) as int) <= sa < Half(e)
  {
    WidthFacts(e);
    if sa >= 0 then UsatAdd(d, sa, e)
    else
      var mag := Bits(0 - Bits(sa));
      if d < mag then Out(0, true) else Out(d - mag, false)
  }

  lemma {:induction false} UsqaddRight(d: nat, sa: int, e: nat)
    requires Width(e) && d < P2(e) && -(Half(e) as int) <= sa < Half(e)
    ensures UnsignedClamp(Usqadd(d, sa, e), d + sa, e)
  {
    hide P2, Half;
    WidthFacts(e);
    if sa >= 0 {
      UsatAddRight(d, sa, e);
    } else {
      Magnitude(sa);
    }
  }

  /** Negating as unsigned gives the magnitude, for the most negative value too. */
  lemma {:induction false} Magnitude(sa: int)
    requires -(W / 2) <= sa < 0
    ensures Bits(sa) == sa + W && Bits(0 - Bits(sa)) == -sa
  {
  }

  /** suqadd_sat: signed accumulator plus unsigned addend. */
  function Suqadd(d: U64, a: U64, e: nat): Out
    requires Width(e)
  {
    var sd, ua := Signed(d, e), Lane(a, e);
    if e < 64 then SatS(sd + ua, e)
    else
      var most := W / 2 - 1;
      var lim := if sd >= 0 then Bits(most - sd) else Bits(most + Bits(0 - Bits(sd)));
      if ua > lim then Out(most, true) else Out(Bits(Bits(sd) + ua), false)
  }

  lemma {:induction false} SuqaddRight(d: U64, a: U64, e: nat)
    requires Width(e)
    ensures SignedClamp(Suqadd(d, a, e), Signed(d, e) + Lane(a, e), e)
  {
    hide P2, Half, Signed, Lane, Bits, SatS;
    var sd, ua := Signed(d, e), Lane(a, e);
    LaneFacts(d, e);
    LaneFacts(a, e);
    WidthFacts(e);
    if e < 64 {
      SatSRight(sd + ua, e);
    } else {
      SuqaddWide(sd, ua);
      BitsLane(sd + ua, 64);
    }
  }

  lemma {:induction false} SuqaddWide(sd: int, ua: nat)
    requires -(W / 2) <= sd < W / 2 && ua < W
    ensures
      var most := W / 2 - 1;
      var lim := if sd >= 0 then Bits(most - sd) else Bits(most + Bits(0 - Bits(sd)));
      && lim == most - sd
      && (ua <= lim ==> Bits(Bits(sd) + ua) == Bits(sd + ua))
  {
    if sd < 0 {
      Magnitude(sd);
    }
  }

  // ---- Doubling multiplies ----

  /** sqdmull_sat: 2 * sa * sb, saturated by a check before the doubling. */
  function Sqdmull(sa: int, sb: int, e: nat): Out
    requires e == 16 || e == 32 || e == 64
  {
    var p, hi := sa * sb, P2(e - 2);
    if p >= hi then Out(Bits(Half(e) - 1), true)
    else if p < -(hi as int) then Out(Bits(-(Half(e) as int)), true)
    else Out(Bits(2 * p), false)
  }

  lemma {:induction false} SqdmullRight(sa: int, sb: int, e: nat)
    requires e == 16 || e == 32 || e == 64
    ensures SignedClamp(Sqdmull(sa, sb, e), 2 * (sa * sb), e)
  {
    hide P2, Bits;
    Doubled(e - 2);
    BitsLane(Half(e) - 1, e);
    BitsLane(-(Half(e) as int), e);
    BitsLane(2 * (sa * sb), e);
  }

  // ---- Rounding doubling multiply-accumulate ----

  /** A 128-bit two's complement number as two words. */
  predicate Pair(hi: U64, lo: U64, x: int) {
    lo == Bits(x) && hi == Bits(x / W)
  }

  /** The conversion back to s64. */
  function ToSigned(x: U64): int {
    if x >= W / 2 then x - W else x
  }

  /** base plus or minus twice p, in two words. */
  function DoubleWidth(base: int, p: int, sub: bool): (U64, U64) {
    var lo: int, hi: int := Bits(base), Bits(base / P2(63));
    var plo: int, phi: int := Bits(2 * p), Bits(p / P2(63));
    if sub then (Bits(hi - (phi + if lo < plo then 1 else 0)), Bits(lo - plo))
    else (Bits(hi + (phi + if Bits(lo + plo) < lo then 1 else 0)), Bits(lo + plo))
  }

  /** sqrdmlah_op: the sum at double width, then one shift and one clamp. */
  function Sqrdmlah(d: int, a: int, b: int, e: nat, sub: bool): Out
    requires e == 16 || e == 32
  {
    var (hi, lo) := DoubleWidth(d * P2(e) + P2(e - 1), a * b, sub);
    SatS(ToSigned(Bits(Bits(hi * P2(64 - e)) + lo / P2(e))), e)
  }

  lemma {:induction false} SplitWord(x: int)
    ensures x == (x / W) * W + Bits(x)
  {
  }

  lemma {:induction false} Joined(h: int, l: int)
    requires 0 <= l < W
    ensures Bits(h * W + l) == l && (h * W + l) / W == h
  {
    DivUnique(h * W + l, W, h, l);
  }

  lemma {:induction false} BitsSum(a: int, b: int, c: int)
    ensures Bits(Bits(a) + (Bits(b) + c)) == Bits(a + b + c) && Bits(Bits(a) - (Bits(b) + c)) == Bits(a - b - c)
  {
    var m, n := a / W, b / W;
    SplitWord(a);
    SplitWord(b);
    Restore(a + b + c, -m - n, Bits(a) + (Bits(b) + c));
    Restore(a - b - c, n - m, Bits(a) - (Bits(b) + c));
  }

  lemma {:induction false} Restore(x: int, k: int, y: int)
    requires y == x + k * W
    ensures Bits(y) == Bits(x)
  {
    AddMultiple(x, k, W);
  }

  lemma {:induction false} AddPair(h: U64, l: U64, x: int, h': U64, l': U64, y: int)
    requires Pair(h, l, x) && Pair(h', l', y)
    ensures
      var lo := Bits(l + l');
      Pair(Bits(h + (h' + if lo < l then 1 else 0)), lo, x + y)
  {
    hide Bits;
    SplitWord(x);
    SplitWord(y);
    var a, b := x / W, y / W;
    var c := if l + l' >= W then 1 else 0;
    CarryOut(l, l');
    BitsSum(a, b, c);
    Joined(a + b + c, l + l' - c * W);
    assert x + y == (a + b + c) * W + (l + l' - c * W);
  }

  lemma CarryOut(l: U64, l': U64)
    ensures Bits(l + l') == (if l + l' >= W then l + l' - W else l + l')
    ensures Bits(l + l') < l <==> l + l' >= W
  {
  }

  lemma {:induction false} SubPair(h: U64, l: U64, x: int, h': U64, l': U64, y: int)
    requires Pair(h, l, x) && Pair(h', l', y)
    ensures Pair(Bits(h - (h' + if l < l' then 1 else 0)), Bits(l - l'), x - y)
  {
    hide Bits;
    SplitWord(x);
    SplitWord(y);
    var a, b := x / W, y / W;
    var c := if l < l' then 1 else 0;
    BorrowOut(l, l');
    BitsSum(a, b, c);
    Joined(a - b - c, l - l' + c * W);
    assert x - y == (a - b - c) * W + (l - l' + c * W);
  }

  lemma BorrowOut(l: U64, l': U64)
    ensures Bits(l - l') == if l < l' then l - l' + W else l - l'
  {
  }

  /** Bits e and up of the pair are the quotient by 2^e. */
  lemma {:induction false} PairShift(hi: U64, lo: U64, x: int, e: nat)
    requires Pair(hi, lo, x) && Width(e)
    ensures Bits(Bits(hi * P2(64 - e)) + lo / P2(e)) == Bits(x / P2(e))
  {
    hide P2, Bits;
    WidthFacts(e);
    SplitWord(x);
    var a, k, d := x / W, P2(64 - e), P2(e);
    DivMod(lo, d);
    Assoc(a, k, d);
    Distrib(a * k, lo / d, d);
    DivUnique(x, d, a * k + lo / d, lo % d);
    BitsMod(a);
    CongruentMul(hi, a, k, W);
    BitsOfSum(hi * k, a * k, lo / d);
  }

  lemma BitsMod(a: int)
    ensures Bits(a) % W == a % W
  {
  }

  lemma BitsOfSum(x: int, y: int, z: int)
    requires x % W == y % W
    ensures Bits(Bits(x) + z) == Bits(y + z)
  {
  }

  lemma {:induction false} SignWord(x: int)
    requires -(W / 2) <= x < W / 2
    ensures x / P2(63) == x / W
    ensures Pair(Bits(x / P2(63)), Bits(x), x)
  {
    hide P2, Bits;
    P2Word();
    Doubled(63);
    if x >= 0 {
      DivUnique(x, P2(63), 0, x);
      DivUnique(x, W, 0, x);
    } else {
      DivUnique(x, P2(63), -1, x + P2(63));
      DivUnique(x, W, -1, x + W);
    }
  }

  lemma {:induction false} DoubledWord(p: int)
    ensures Pair(Bits(p / P2(63)), Bits(2 * p), 2 * p)
  {
    hide P2, Bits;
    P2Word();
    Doubled(63);
    DivMod(p, P2(63));
    DivUnique(2 * p, W, p / P2(63), 2 * (p % P2(63)));
  }

  lemma {:induction false} SignedAgain(q: int)
    requires -(W / 2) <= q < W / 2
    ensures ToSigned(Bits(q)) == q
  {
    if q < 0 {
      Magnitude(q);
    }
  }

  /** The operands of a 16- or 32-bit lane keep every intermediate in its word. */
  lemma {:induction false} LaneRanges(d: int, a: int, b: int, e: nat)
    requires e == 16 || e == 32
    requires -(Half(e) as int) <= d < Half(e) && -(Half(e) as int) <= a < Half(e) && -(Half(e) as int) <= b < Half(e)
    ensures -(W / 2) <= d * P2(e) + P2(e - 1) < W / 2
    ensures -(W / 4) <= a * b <= W / 4
  {
    hide P2;
    var h := P2(e - 1);
    WidthFacts(e);
    P2Word();
    Square(e);
    Doubled(e - 1);
    MulMono(-(h as int), d, P2(e));
    MulMono(d, h - 1, P2(e));
    ProductBound(a, b, h);
  }

  lemma {:induction false} Square(e: nat)
    requires e == 16 || e == 32
    ensures P2(e - 1) * P2(e - 1) <= W / 4 && P2(e - 1) * P2(e) <= W / 2
    ensures (P2(e - 1) - 1) * P2(e) + P2(e - 1) < W / 2
    ensures -(P2(e - 1) as int) * P2(e) + P2(e - 1) >= -(W / 2)
  {
    hide P2;
    P2Word();
    Doubled(63);
    Doubled(62);
    P2Add(e - 1, e - 1);
    P2Add(e - 1, e);
    P2Mono(2 * e - 2, 62);
    P2Mono(2 * e - 1, 63);
    Doubled(e - 1);
    Distrib(P2(e - 1), 1, P2(e));
    Distrib(0, P2(e - 1), P2(e));
  }

  lemma {:induction false} ProductBound(a: int, b: int, h: nat)
    requires -(h as int) <= a < h && -(h as int) <= b < h
    ensures -(h * h) <= a * b <= h * h
  {
    var m: nat, n: nat := if a < 0 then -a else a, if b < 0 then -b else b;
    MulMono(m, h, n);
    MulMono(n, h, h);
    Signs(a, b, m, n);
  }

  lemma Signs(a: int, b: int, m: nat, n: nat)
    requires (m == a || m == -a) && (n == b || n == -b)
    ensures a * b == m * n || a * b == -(m * n)
  {
    Negated(a, b);
    Negated(b, a);
    Negated(a, -b);
  }

  lemma Negated(a: int, b: int)
    ensures (-a) * b == -(a * b) && b * (-a) == -(b * a)
  {
  }

  /** The kernel saturates the exact rounded accumulate, QC exactly when out of range. */
  lemma {:induction false} SqrdmlahRight(d: int, a: int, b: int, e: nat, sub: bool)
    requires e == 16 || e == 32
    requires -(Half(e) as int) <= d < Half(e) && -(Half(e) as int) <= a < Half(e) && -(Half(e) as int) <= b < Half(e)
    ensures
      var exact := (d * P2(e) + (if sub then -2 * (a * b) else 2 * (a * b)) + P2(e - 1)) / P2(e);
      SignedClamp(Sqrdmlah(d, a, b, e, sub), exact, e)
  {
    hide P2, Bits, Half, SignedClamp, SatS, ToSigned, DoubleWidth;
    var base, p := d * P2(e) + P2(e - 1), a * b;
    LaneRanges(d, a, b, e);
    ShiftAndClamp(base, p, e, sub);
    assert d * P2(e) + (if sub then -2 * p else 2 * p) + P2(e - 1) == if sub then base - 2 * p else base + 2 * p;
  }

  lemma {:induction false} ShiftAndClamp(base: int, p: int, e: nat, sub: bool)
    requires (e == 16 || e == 32) && -(W / 2) <= base < W / 2 && -(W / 4) <= p <= W / 4
    ensures
      var (hi, lo) := DoubleWidth(base, p, sub);
      SignedClamp(SatS(ToSigned(Bits(Bits(hi * P2(64 - e)) + lo / P2(e))), e),
        (if sub then base - 2 * p else base + 2 * p) / P2(e), e)
  {
    hide P2, Bits, Half, SignedClamp, SatS, Pair, ToSigned, DoubleWidth;
    DoubleWidthPair(base, p, sub);
    var sum := if sub then base - 2 * p else base + 2 * p;
    var (hi, lo) := DoubleWidth(base, p, sub);
    PairShift(hi, lo, sum, e);
    SumQuotient(sum, e);
    SignedAgain(sum / P2(e));
    SatSRight(sum / P2(e), e);
  }

  lemma {:induction false} DoubleWidthPair(base: int, p: int, sub: bool)
    requires -(W / 2) <= base < W / 2
    ensures
      var (hi, lo) := DoubleWidth(base, p, sub);
      Pair(hi, lo, if sub then base - 2 * p else base + 2 * p)
  {
    hide P2, Bits, Pair;
    SignWord(base);
    DoubledWord(p);
    var lo, hi, plo, phi := Bits(base), Bits(base / P2(63)), Bits(2 * p), Bits(p / P2(63));
    AddPair(hi, lo, base, phi, plo, 2 * p);
    SubPair(hi, lo, base, phi, plo, 2 * p);
  }

  lemma {:induction false} SumQuotient(x: int, e: nat)
    requires (e == 16 || e == 32) && 0 <= x + W && x <= W
    ensures -(W / 2) <= x / P2(e) < W / 2
  {
    hide P2;
    P2Mono(3, e);
    Eight();
    DivMod(x, P2(e));
    if x / P2(e) >= W / 2 {
      MulMono(W / 2, x / P2(e), P2(e));
    } else if x / P2(e) < -(W / 2) {
      MulMono(x / P2(e), -(W / 2) - 1, P2(e));
    }
  }

  lemma Eight()
    ensures P2(3) == 8
  {
    assert P2(2) == 4;
  }
}
