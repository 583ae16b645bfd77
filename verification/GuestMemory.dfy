/**
 Guest memory as the memory operations of compiled code and their helpers see it:
 RAM behind the data cache's page pointers, and everything else, translation, bus
 and exceptions, behind an arbitrary bus.
 */
module GuestMemory {
  import Ir
  import T = Tlb
  import TlbRuns
  import opened Probe
  import opened TableWalk

  /**
   The caches and the CPU state they are tagged with, the tag bits the dispatcher
   left for generated code, whether SP alignment is checked, RAM, and the rest.
   */
  datatype World = World(caches: T.Caches, cpu: T.Cpu, context: bv64, strict: bool, ram: bv64 -> bv8, rest: int)

  /** A synchronous exception taken: where execution goes on, with which flags. */
  datatype Trap = Trap(w: World, pc: bv64, nz: Ir.Nzcv)

  datatype Answer = Done(w: World, val: bv64) | Fault(trap: Trap)

  /** What the slow paths do: given the flags, the instruction's address, the virtual address and the size. */
  datatype Bus = Bus(
    read: (World, Ir.Nzcv, bv64, bv64, nat) -> Answer,
    write: (World, Ir.Nzcv, bv64, bv64, nat, bv64) -> Answer,
    misaligned: (World, Ir.Nzcv, bv64) -> Trap)

  ghost predicate Steady(w: World) {
    T.Sized(w.caches) && SlotsOk(w.caches) && !w.cpu.unpriv && w.context == ContextWord(w.cpu, w.caches.gen)
  }

  /** A completed access may refill the caches; it changes neither the generation nor the CPU's context. */
  ghost predicate Keeps(w: World, w': World) {
    Steady(w') && w'.cpu == w.cpu && w'.strict == w.strict && w'.caches.gen == w.caches.gen
  }

  ghost predicate ReadsOk(bus: Bus) {
    forall w, nz, pc, va, szl ::
      Steady(w) && bus.read(w, nz, pc, va, szl).Done? ==> Keeps(w, bus.read(w, nz, pc, va, szl).w)
  }

  ghost predicate WritesOk(bus: Bus) {
    forall w, nz, pc, va, szl, val ::
      Steady(w) && bus.write(w, nz, pc, va, szl, val).Done? ==> Keeps(w, bus.write(w, nz, pc, va, szl, val).w)
  }

  ghost predicate BusOk(bus: Bus) {
    ReadsOk(bus) && WritesOk(bus)
  }

  // ---- Bytes ----

  /** Sizes are 1, 2, 4 and 8 bytes. */
  function Extra(szl: nat): (e: bv64)
    ensures Short(e)
  {
    if szl == 0 then 0 else if szl == 1 then 1 else if szl == 2 then 3 else 7
  }

  function Half(x: bv8, y: bv8): bv16 {
    (x as bv16) | ((y as bv16) << 8)
  }

  function Word(x: bv16, y: bv16): bv32 {
    (x as bv32) | ((y as bv32) << 16)
  }

  function Doubleword(x: bv32, y: bv32): bv64 {
    (x as bv64) | ((y as bv64) << 32)
  }

  function Load2(ram: bv64 -> bv8, pa: bv64): bv16 {
    Half(ram(pa), ram(pa + 1))
  }

  function Load4(ram: bv64 -> bv8, pa: bv64): bv32 {
    Word(Load2(ram, pa), Load2(ram, pa + 2))
  }

  function Load8(ram: bv64 -> bv8, pa: bv64): bv64 {
    Doubleword(Load4(ram, pa), Load4(ram, pa + 4))
  }

  /** A little-endian load, zero-extended. */
  function Load(ram: bv64 -> bv8, pa: bv64, szl: nat): bv64 {
    if szl == 0 then ram(pa) as bv64 else if szl == 1 then Load2(ram, pa) as bv64
    else if szl == 2 then Load4(ram, pa) as bv64 else Load8(ram, pa)
  }

  function Byte(v: bv64, i: bv64): bv8 {
    (if i == 0 then v & 0xff else if i == 1 then (v >> 8) & 0xff else if i == 2 then (v >> 16) & 0xff
     else if i == 3 then (v >> 24) & 0xff else if i == 4 then (v >> 32) & 0xff else if i == 5 then (v >> 40) & 0xff
     else if i == 6 then (v >> 48) & 0xff else (v >> 56) & 0xff) as bv8
  }

  function Minus(a: bv64, b: bv64): bv64 {
    a - b
  }

  function ByteAfter(was: bv8, offset: bv64, szl: nat, v: bv64): bv8 {
    if offset <= Extra(szl) then Byte(v, offset) else was
  }

  /** RAM after a little-endian store. */
  function Stored(ram: bv64 -> bv8, pa: bv64, szl: nat, v: bv64): bv64 -> bv8 {
    (a: bv64) => ByteAfter(ram(a), Minus(a, pa), szl, v)
  }

  // The halves and words of a value.

  function Half0(v: bv64): bv16 {
    (v & 0xffff) as bv16
  }

  function Half1(v: bv64): bv16 {
    ((v >> 16) & 0xffff) as bv16
  }

  function Half2(v: bv64): bv16 {
    ((v >> 32) & 0xffff) as bv16
  }

  function Half3(v: bv64): bv16 {
    ((v >> 48) & 0xffff) as bv16
  }

  function Word0(v: bv64): bv32 {
    (v & 0xffff_ffff) as bv32
  }

  function Word1(v: bv64): bv32 {
    ((v >> 32) & 0xffff_ffff) as bv32
  }

  lemma Halves(v: bv64)
    ensures Half(Byte(v, 0), Byte(v, 1)) == Half0(v) && Half(Byte(v, 2), Byte(v, 3)) == Half1(v)
  {
  }

  lemma UpperHalves(v: bv64)
    ensures Half(Byte(v, 4), Byte(v, 5)) == Half2(v) && Half(Byte(v, 6), Byte(v, 7)) == Half3(v)
  {
  }

  lemma LowerWord(v: bv64)
    ensures Word(Half0(v), Half1(v)) == Word0(v)
  {
  }

  lemma UpperWord(v: bv64)
    ensures Word(Half2(v), Half3(v)) == Word1(v)
  {
  }

  lemma BothWords(v: bv64)
    ensures Doubleword(Word0(v), Word1(v)) == v
  {
  }

  function Low(v: bv64, szl: nat): bv64 {
    if szl == 0 then Byte(v, 0) as bv64 else if szl == 1 then Half0(v) as bv64 else if szl == 2 then Word0(v) as bv64
    else v
  }

  lemma Offsets(pa: bv64)
    ensures Minus(pa, pa) == 0 && Minus(pa + 1, pa) == 1 && Minus(pa + 2, pa) == 2 && Minus((pa + 2) + 1, pa) == 3
    ensures Minus(pa + 4, pa) == 4 && Minus((pa + 4) + 1, pa) == 5
    ensures Minus((pa + 4) + 2, pa) == 6 && Minus(((pa + 4) + 2) + 1, pa) == 7
  {
  }

  lemma {:induction false} StoredAt(ram: bv64 -> bv8, pa: bv64, szl: nat, v: bv64, a: bv64, offset: bv64)
    requires Minus(a, pa) == offset
    ensures Stored(ram, pa, szl, v)(a) == ByteAfter(ram(a), offset, szl, v)
  {
    hide Minus, ByteAfter;
  }

  lemma BytesBelow(was: bv8, szl: nat, v: bv64)
    ensures ByteAfter(was, 0, szl, v) == Byte(v, 0)
    ensures szl >= 1 ==> ByteAfter(was, 1, szl, v) == Byte(v, 1)
    ensures szl >= 2 ==> ByteAfter(was, 2, szl, v) == Byte(v, 2) && ByteAfter(was, 3, szl, v) == Byte(v, 3)
  {
    hide Byte;
  }

  lemma BytesAbove(was: bv8, v: bv64)
    ensures ByteAfter(was, 4, 3, v) == Byte(v, 4) && ByteAfter(was, 5, 3, v) == Byte(v, 5)
    ensures ByteAfter(was, 6, 3, v) == Byte(v, 6) && ByteAfter(was, 7, 3, v) == Byte(v, 7)
  {
    hide Byte;
  }

  lemma {:induction false} StoredByte(ram: bv64 -> bv8, pa: bv64, szl: nat, v: bv64)
    ensures Stored(ram, pa, szl, v)(pa) == Byte(v, 0)
  {
    hide Byte, Minus, Stored, ByteAfter;
    Offsets(pa);
    StoredAt(ram, pa, szl, v, pa, 0);
    BytesBelow(ram(pa), szl, v);
  }

  lemma {:induction false} StoredHalf(ram: bv64 -> bv8, pa: bv64, szl: nat, v: bv64)
    requires szl >= 1
    ensures Load2(Stored(ram, pa, szl, v), pa) == Half0(v)
  {
    hide Byte, Minus, Stored, ByteAfter, Half, Half0, Half1;
    Offsets(pa);
    StoredByte(ram, pa, szl, v);
    StoredAt(ram, pa, szl, v, pa + 1, 1);
    BytesBelow(ram(pa + 1), szl, v);
    Halves(v);
  }

  lemma {:induction false} StoredNext(ram: bv64 -> bv8, pa: bv64, szl: nat, v: bv64)
    requires szl >= 2
    ensures Load2(Stored(ram, pa, szl, v), pa + 2) == Half1(v)
  {
    hide Byte, Minus, Stored, ByteAfter, Half, Half0, Half1;
    Offsets(pa);
    StoredAt(ram, pa, szl, v, pa + 2, 2);
    StoredAt(ram, pa, szl, v, (pa + 2) + 1, 3);
    BytesBelow(ram(pa + 2), szl, v);
    BytesBelow(ram((pa + 2) + 1), szl, v);
    Halves(v);
  }

  lemma {:induction false} StoredThird(ram: bv64 -> bv8, pa: bv64, v: bv64)
    ensures Load2(Stored(ram, pa, 3, v), pa + 4) == Half2(v)
  {
    hide Byte, Minus, Stored, ByteAfter, Half, Half2, Half3;
    Offsets(pa);
    StoredAt(ram, pa, 3, v, pa + 4, 4);
    StoredAt(ram, pa, 3, v, (pa + 4) + 1, 5);
    BytesAbove(ram(pa + 4), v);
    BytesAbove(ram((pa + 4) + 1), v);
    UpperHalves(v);
  }

  lemma {:induction false} StoredFourth(ram: bv64 -> bv8, pa: bv64, v: bv64)
    ensures Load2(Stored(ram, pa, 3, v), (pa + 4) + 2) == Half3(v)
  {
    hide Byte, Minus, Stored, ByteAfter, Half, Half2, Half3;
    Offsets(pa);
    StoredAt(ram, pa, 3, v, (pa + 4) + 2, 6);
    StoredAt(ram, pa, 3, v, ((pa + 4) + 2) + 1, 7);
    BytesAbove(ram((pa + 4) + 2), v);
    BytesAbove(ram(((pa + 4) + 2) + 1), v);
    UpperHalves(v);
  }

  lemma {:induction false} StoredLower(ram: bv64 -> bv8, pa: bv64, szl: nat, v: bv64)
    requires szl >= 2
    ensures Load4(Stored(ram, pa, szl, v), pa) == Word0(v)
  {
    hide Stored, Load2, Word, Half0, Half1, Word0;
    StoredHalf(ram, pa, szl, v);
    StoredNext(ram, pa, szl, v);
    LowerWord(v);
  }

  lemma {:induction false} StoredUpper(ram: bv64 -> bv8, pa: bv64, v: bv64)
    ensures Load4(Stored(ram, pa, 3, v), pa + 4) == Word1(v)
  {
    hide Stored, Load2, Word, Half2, Half3, Word1;
    StoredThird(ram, pa, v);
    StoredFourth(ram, pa, v);
    UpperWord(v);
  }

  lemma {:induction false} StoredBoth(ram: bv64 -> bv8, pa: bv64, v: bv64)
    ensures Load8(Stored(ram, pa, 3, v), pa) == v
  {
    hide Stored, Load4, Word0, Word1, Doubleword;
    StoredLower(ram, pa, 3, v);
    StoredUpper(ram, pa, v);
    BothWords(v);
  }

  /** A load of what was just stored there gives back its low bytes. */
  lemma {:induction false} LoadStored(ram: bv64 -> bv8, pa: bv64, szl: nat, v: bv64)
    requires szl <= 3
    ensures Load(Stored(ram, pa, szl, v), pa, szl) == Low(v, szl)
  {
    hide Byte, Stored, Load2, Load4, Load8, Half0, Word0;
    if szl == 0 {
      StoredByte(ram, pa, szl, v);
    } else if szl == 1 {
      StoredHalf(ram, pa, szl, v);
    } else if szl == 2 {
      StoredLower(ram, pa, szl, v);
    } else {
      StoredBoth(ram, pa, v);
    }
  }

  /** And other bytes are untouched. */
  lemma {:induction false} StoredElsewhere(ram: bv64 -> bv8, pa: bv64, szl: nat, v: bv64, a: bv64)
    requires !(Minus(a, pa) <= Extra(szl))
    ensures Stored(ram, pa, szl, v)(a) == ram(a)
  {
    hide Minus, Byte, Extra;
    StoredAt(ram, pa, szl, v, a, Minus(a, pa));
  }

  // ---- Extension ----

  function Low8(v: bv64): bv64 {
    v & 0xff
  }

  function Low16(v: bv64): bv64 {
    v & 0xffff
  }

  function Low32(v: bv64): bv64 {
    v & 0xffff_ffff
  }

  // Ones above a field.

  function Ones8(v: bv64): bv64 {
    v | 0xffff_ffff_ffff_ff00
  }

  function Ones16(v: bv64): bv64 {
    v | 0xffff_ffff_ffff_0000
  }

  function Ones32(v: bv64): bv64 {
    v | 0xffff_ffff_0000_0000
  }

  predicate Negative(v: bv64, szl: nat) {
    if szl == 0 then v & 0x80 != 0 else if szl == 1 then v & 0x8000 != 0 else v & 0x8000_0000 != 0
  }

  /** The helper's sign extension of the low bytes. */
  function SignExtended(v: bv64, szl: nat): bv64 {
    if szl == 0 then (if Negative(v, 0) then Ones8(Low8(v)) else Low8(v))
    else if szl == 1 then (if Negative(v, 1) then Ones16(Low16(v)) else Low16(v))
    else if szl == 2 then (if Negative(v, 2) then Ones32(Low32(v)) else Low32(v))
    else v
  }

  /** It shifts to the top and back. */
  lemma ShiftsKeepLow(v: bv64)
    ensures (v << 56) >> 56 == v & 0xff
    ensures (v << 48) >> 48 == v & 0xffff
    ensures (v << 32) >> 32 == v & 0xffff_ffff
  {
  }

  /** jit_ld: extend, then truncate a 32-bit result. */
  function Extended(v: bv64, szl: nat, sign: bool, is64: bool): bv64 {
    Ir.Fit(is64, if sign then SignExtended(v, szl) else v)
  }

  /** SBFM from bit 0: the generated code's sign extension, in a 32- or 64-bit register. */
  function SignField(v: bv64, szl: nat, is64: bool): bv64 {
    if szl == 0 then (if Negative(v, 0) then Ir.Fit(is64, Ones8(v)) else Low8(v))
    else if szl == 1 then (if Negative(v, 1) then Ir.Fit(is64, Ones16(v)) else Low16(v))
    else if szl == 2 then (if Negative(v, 2) then Ir.Fit(is64, Ones32(v)) else Low32(v))
    else Ir.Fit(is64, v)
  }

  lemma Fields8(v: bv64)
    ensures Ones8(Low8(v)) == Ones8(v) && Low32(Low8(v)) == Low8(v)
  {
  }

  lemma Fields16(v: bv64)
    ensures Ones16(Low16(v)) == Ones16(v) && Low32(Low16(v)) == Low16(v)
  {
  }

  lemma Fields32(v: bv64)
    ensures Ones32(Low32(v)) == Ones32(v) && Low32(Low32(v)) == Low32(v)
  {
  }

  lemma FitIsLow(is64: bool, v: bv64)
    ensures Ir.Fit(is64, v) == if is64 then v else Low32(v)
  {
  }

  lemma {:induction false} SignFieldExtends(v: bv64, szl: nat, is64: bool)
    requires szl <= 3
    ensures SignField(v, szl, is64) == Extended(v, szl, true, is64)
  {
    hide Low8, Low16, Low32, Ones8, Ones16, Ones32, Negative, Ir.Fit;
    Fields8(v);
    Fields16(v);
    Fields32(v);
    FitIsLow(is64, Low8(v));
    FitIsLow(is64, Low16(v));
    FitIsLow(is64, Low32(v));
  }

  /** What generated code makes of a loaded value; a 32-bit register needs no truncation. */
  function InRegister(v: bv64, szl: nat, sign: bool, is64: bool): bv64 {
    if sign then SignField(v, szl, is64) else v
  }

  /**
   The two extensions agree on every value a load of that size can give, except
   that of an eight-byte load into a 32-bit register, which the front end never
   asks for, the generated code would keep the upper half.
   */
  lemma {:induction false} SameExtension(ram: bv64 -> bv8, pa: bv64, szl: nat, sign: bool, is64: bool)
    requires szl <= 3
    ensures
      var v := Load(ram, pa, szl);
      InRegister(v, szl, sign, is64) == Extended(v, szl, sign, is64) <==>
      (szl == 3 && !sign && !is64 ==> v == Low32(v))
  {
    hide Load, SignField, SignExtended, Ir.Fit, Low32;
    var v := Load(ram, pa, szl);
    if sign {
      SignFieldExtends(v, szl, is64);
    } else {
      FitIsLow(is64, v);
      if szl < 3 {
        LoadFits(ram, pa, szl);
      }
    }
  }

  lemma Narrow8(x: bv8)
    ensures Low32(x as bv64) == x as bv64
  {
  }

  lemma Narrow16(x: bv16)
    ensures Low32(x as bv64) == x as bv64
  {
  }

  lemma Narrow32(x: bv32)
    ensures Low32(x as bv64) == x as bv64
  {
  }

  /** A zero-extended load of at most four bytes already fits a 32-bit register. */
  lemma {:induction false} LoadFits(ram: bv64 -> bv8, pa: bv64, szl: nat)
    requires szl <= 2
    ensures Low32(Load(ram, pa, szl)) == Load(ram, pa, szl)
  {
    hide Low32, Load2, Load4;
    Narrow8(ram(pa));
    Narrow16(Load2(ram, pa));
    Narrow32(Load4(ram, pa));
  }

  // ---- Accesses ----

  /** The byte behind the cached page pointer. */
  function Pointer(w: World, va: bv64): bv64
    requires T.Sized(w.caches)
  {
    Ir.Plus(w.caches.dtlb[T.Idx(va)].paPage, PageOffset(va))
  }

  /** mem_read: the fast path on a hit inside a page, else the bus. */
  function MemRead(bus: Bus, w: World, nz: Ir.Nzcv, pc: bv64, va: bv64, szl: nat): Answer
    requires T.Sized(w.caches)
  {
    if OnePage(va, Extra(szl)) && T.DataHit(w.caches, w.cpu, va, Read) then Done(w, Load(w.ram, Pointer(w, va), szl))
    else bus.read(w, nz, pc, va, szl)
  }

  /** mem_write */
  function MemWrite(bus: Bus, w: World, nz: Ir.Nzcv, pc: bv64, va: bv64, szl: nat, val: bv64): Answer
    requires T.Sized(w.caches)
  {
    if OnePage(va, Extra(szl)) && T.DataHit(w.caches, w.cpu, va, Write) then
      Done(w.(ram := Stored(w.ram, Pointer(w, va), szl, val)), 0)
    else bus.write(w, nz, pc, va, szl, val)
  }

  // ---- The inline probe ----

  /** The test generated code makes, with the tag bits the dispatcher left for it. */
  predicate FastHit(w: World, va: bv64, extra: bv64, acc: Access)
    requires T.Sized(w.caches)
  {
    var d := w.caches.dtlb[T.Idx(va)];
    d.tag == T.Key(Page(Last(va, extra)), w.context) && if acc == Write then d.w else d.r
  }

  /** It passes exactly when the span is in one page and the interpreter's own test of its first byte passes. */
  lemma {:induction false} FastIsInterpreter(w: World, va: bv64, extra: bv64, acc: Access)
    requires Steady(w) && Short(extra) && acc != Execute
    ensures FastHit(w, va, extra, acc) <==> OnePage(va, extra) && T.DataHit(w.caches, w.cpu, va, acc)
  {
    hide T.Idx, Page, T.Tag, Last, OnePage, Short, ContextWord, T.DataHit, T.Key;
    KeyFromContext(w.cpu, Last(va, extra), w.caches.gen);
    InlineIsInterpreter(w.caches, w.cpu, va, extra, acc);
  }

  // ---- One page for a whole span ----

  /** Bytes d to d + f of a span of e + 1. */
  predicate Inside(d: bv64, f: bv64, e: bv64) {
    d <= 0xfff && f <= 0xfff && e <= 0xfff && d + f <= e
  }

  lemma SmallOffset(va: bv64)
    ensures PageOffset(va) <= 0xfff
  {
  }

  lemma RoomFor(x: bv64, d: bv64, f: bv64, e: bv64)
    requires x <= 0xfff && Within(x, e) && Inside(d, f, e)
    ensures Within(x + d, f)
  {
  }

  lemma RoomUpTo(x: bv64, d: bv64, f: bv64, e: bv64)
    requires x <= 0xfff && Within(x, e) && d <= 0xfff && f <= 0xfff && e <= 0xfff && d + f <= e
    ensures Within(x, d)
  {
  }

  lemma OffsetMoves(va: bv64, d: bv64)
    requires Within(PageOffset(va), d) && d <= 0xfff
    ensures PageOffset(Ir.Plus(va, d)) == Ir.Plus(PageOffset(va), d)
  {
  }

  lemma PageStays(va: bv64, d: bv64)
    requires Within(PageOffset(va), d) && d <= 0xfff
    ensures Ir.Plus(va, d) & 0xffff_ffff_ffff_f000 == va & 0xffff_ffff_ffff_f000
  {
  }

  lemma {:induction false} SpanBits(va: bv64, d: bv64, f: bv64, e: bv64)
    requires OnePage(va, e) && Inside(d, f, e)
    ensures PageOffset(Ir.Plus(va, d)) == Ir.Plus(PageOffset(va), d) && OnePage(Ir.Plus(va, d), f)
    ensures Page(Ir.Plus(va, d)) == Page(va)
  {
    hide PageOffset, Within, Ir.Plus, Page;
    SmallOffset(va);
    RoomFor(PageOffset(va), d, f, e);
    PlusIs(PageOffset(va), d);
    RoomUpTo(PageOffset(va), d, f, e);
    OffsetMoves(va, d);
    PageStays(va, d);
    PageBits(va);
    PageBits(Ir.Plus(va, d));
  }

  lemma {:induction false} RawSums(x: bv64, y: bv64, z: bv64)
    ensures Ir.Plus(x, y + z) == (x + y) + z
  {
    assert Ir.Plus(x, y + z) == x + (y + z);
  }

  lemma {:induction false} SumsAgree(x: bv64, y: bv64, z: bv64)
    ensures Ir.Plus(x, y + z) == Ir.Plus(x + y, z)
  {
    RawSums(x, y, z);
    assert Ir.Plus(x + y, z) == (x + y) + z;
  }

  lemma PlusIs(x: bv64, y: bv64)
    ensures Ir.Plus(x, y) == x + y
  {
  }

  lemma {:induction false} Associates(x: bv64, y: bv64, z: bv64)
    ensures Ir.Plus(x, Ir.Plus(y, z)) == Ir.Plus(Ir.Plus(x, y), z)
  {
    hide Ir.Plus;
    PlusIs(y, z);
    PlusIs(x, y);
    SumsAgree(x, y, z);
  }

  lemma {:induction false} SamePageIdx(a: bv64, b: bv64)
    requires Page(a) == Page(b)
    ensures T.Idx(a) == T.Idx(b)
  {
    hide T.Idx, Page;
    TlbRuns.IdxOfPage(a);
    TlbRuns.IdxOfPage(b);
  }

  /** Every access inside a span that hits finds the same entry. */
  lemma {:induction false} SpanHits(w: World, va: bv64, d: bv64, f: bv64, e: bv64, acc: Access)
    requires T.Sized(w.caches) && Inside(d, f, e) && OnePage(va, e) && T.DataHit(w.caches, w.cpu, va, acc)
    ensures OnePage(Ir.Plus(va, d), f) && T.DataHit(w.caches, w.cpu, Ir.Plus(va, d), acc)
  {
    hide T.Idx, Page, OnePage, Inside, T.Tag, PageOffset, Ir.Plus;
    SpanBits(va, d, f, e);
    SamePageIdx(Ir.Plus(va, d), va);
    Probe.SameTag(w.cpu, Ir.Plus(va, d), va, w.caches.gen);
  }

  /** And its byte lies at that distance from the span's first. */
  lemma {:induction false} SpanPointer(w: World, va: bv64, d: bv64, f: bv64, e: bv64)
    requires T.Sized(w.caches) && Inside(d, f, e) && OnePage(va, e)
    ensures Pointer(w, Ir.Plus(va, d)) == Ir.Plus(Pointer(w, va), d)
  {
    hide T.Idx, Page, OnePage, Inside, PageOffset, Ir.Plus;
    SpanBits(va, d, f, e);
    SamePageIdx(Ir.Plus(va, d), va);
    Associates(w.caches.dtlb[T.Idx(va)].paPage, PageOffset(va), d);
  }
}
