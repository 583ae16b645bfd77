/**
 The software TLB, the host-pointer D-TLB and the fetch cache as functions on
 values: one step each for a flush, a one-page invalidation, a translation, a
 data access and an instruction fetch.
 */
module Tlb {
  import opened LargePages
  import opened TableWalk

  const ENTRIES: nat := 4096

  datatype Cpu = Cpu(mmu: bool, el0: bool, unpriv: bool)

  /** The privilege an access is checked against. */
  predicate Unprivileged(c: Cpu) {
    c.el0 || c.unpriv
  }

  datatype TlbEntry = TlbEntry(valid: bool, gen: bv32, vaPage: bv64, el0: bool, t: Translation)

  /** Tag word, page behind the host pointer, permission bits. */
  datatype DataEntry = DataEntry(tag: bv64, paPage: bv64, r: bool, w: bool)

  datatype FetchEntry = FetchEntry(valid: bool, page: bv64, paPage: bv64, mmu: bool)

  datatype Caches = Caches(tlb: seq<TlbEntry>, dtlb: seq<DataEntry>, fetch: seq<FetchEntry>, gen: bv32, lp: Range)

  const NO_TRANSLATION := Translation(0, 0, false, false)
  const NO_TLB := TlbEntry(false, 0, 0, false, NO_TRANSLATION)
  const NO_DATA := DataEntry(0, 0, false, false)
  const NO_FETCH := FetchEntry(false, 0, 0, false)

  predicate Sized(s: Caches) {
    |s.tlb| == ENTRIES && |s.dtlb| == ENTRIES && |s.fetch| == 2 && Valid(s.lp)
  }

  function Idx(va: bv64): (i: nat)
    ensures i < ENTRIES
  {
    (((va >> 12) & 0xfff) as bv12) as int
  }

  /** VA page | 10 generation bits | MMU on | EL0 view. */
  function Tag(c: Cpu, va: bv64, gen: bv32): bv64 {
    Pack(Page(va), Slice(gen), if c.mmu then 2 else 0, if Unprivileged(c) then 1 else 0)
  }

  function Pack(page: bv64, slice: bv64, m: bv64, e: bv64): bv64 {
    Key(page, Context(slice, m, e))
  }

  function Key(page: bv64, context: bv64): bv64 {
    page | context
  }

  /** The bits below the page. */
  function Context(slice: bv64, m: bv64, e: bv64): bv64 {
    (slice << 2) | m | e
  }

  function Slice(gen: bv32): bv64 {
    (gen & 0x3ff) as bv64
  }

  function Which(el0: bool): nat {
    if el0 then 1 else 0
  }

  function Empty<T>(x: T, n: nat): (r: seq<T>)
    ensures |r| == n && forall i :: 0 <= i < n ==> r[i] == x
  {
    seq(n, _ => x)
  }

  function Start(): Caches {
    Caches(Empty(NO_TLB, ENTRIES), Empty(NO_DATA, ENTRIES), Empty(NO_FETCH, 2), 1, NONE)
  }

  function NoFetch(fetch: seq<FetchEntry>): (r: seq<FetchEntry>)
    requires |fetch| == 2
    ensures |r| == 2 && !r[0].valid && !r[1].valid
  {
    [fetch[0].(valid := false), fetch[1].(valid := false)]
  }

  function Next(gen: bv32): bv32 {
    gen + 1
  }

  predicate SliceWraps(gen: bv32) {
    gen & 0x3ff == 0
  }

  /** tlb_flush_all */
  function FlushAll(s: Caches): Caches
    requires Sized(s)
  {
    var g := Next(s.gen);
    Caches(
      if SliceWraps(g) && g == 0 then Empty(NO_TLB, ENTRIES) else s.tlb,
      if SliceWraps(g) then Empty(NO_DATA, ENTRIES) else s.dtlb,
      NoFetch(s.fetch),
      if SliceWraps(g) && g == 0 then 1 else g,
      NONE)
  }

  /** tlb_flush_page */
  function FlushPage(s: Caches, va: bv64): Caches
    requires Sized(s)
  {
    if Inside(s.lp, va) then FlushAll(s)
    else
      s.(tlb := s.tlb[Idx(va) := s.tlb[Idx(va)].(valid := false)],
      dtlb := s.dtlb[Idx(va) := NO_DATA],
      fetch := NoFetch(s.fetch))
  }

  /** The address a VA-form TLBI operand names: bits 43..0 hold VA[55:12], sign-extended. */
  function TlbiVa(x: bv64): bv64 {
    var va := (x & 0xfff_ffff_ffff) << 12;
    if Bit(va, 1 << 55) then va | 0xff00_0000_0000_0000 else va
  }

  predicate TlbHit(s: Caches, c: Cpu, va: bv64, acc: Access)
    requires Sized(s)
  {
    var e := s.tlb[Idx(va)];
    e.valid && e.gen == s.gen && e.vaPage == Page(va) && e.el0 == Unprivileged(c) && PermOk(acc, e.t, Unprivileged(c))
  }

  datatype Result = Abort(fsc: nat) | Address(pa: bv64)

  function WithOffset(page: bv64, va: bv64): bv64 {
    page | (va & 0xfff)
  }

  /** Whether a translation has to walk. */
  predicate Walks(s: Caches, c: Cpu, va: bv64, acc: Access)
    requires Sized(s)
  {
    c.mmu && !TlbHit(s, c, va, acc)
  }

  function Fill(s: Caches, c: Cpu, va: bv64, t: Translation, shift: nat): Caches
    requires Sized(s) && (shift == 0 || IsBlockShift(shift))
  {
    s.(tlb := s.tlb[Idx(va) := TlbEntry(true, s.gen, Page(va), Unprivileged(c), t)],
    lp := if shift != 0 then Grown(s.lp, va, shift) else s.lp)
  }

  /** mmu_translate: the caches it leaves. */
  function Translated(s: Caches, c: Cpu, tb: Tables, va: bv64, acc: Access): Caches
    requires Sized(s)
  {
    if !Walks(s, c, va, acc) then s
    else
      match Walk(tb, va)
      case Fault(_) => s
      case Found(t, shift) => Fill(s, c, va, t, shift)
  }

  /** mmu_translate: what it answers. */
  function Translate(s: Caches, c: Cpu, tb: Tables, va: bv64, acc: Access): Result
    requires Sized(s)
  {
    if !c.mmu then Address(va)
    else if TlbHit(s, c, va, acc) then Address(WithOffset(s.tlb[Idx(va)].t.paPage, va))
    else
      match Walk(tb, va)
      case Fault(fsc) => Abort(fsc)
      case Found(t, _) =>
        if PermOk(acc, t, Unprivileged(c)) then Address(WithOffset(t.paPage, va)) else Abort(PERM_L3)
  }

  /** What lies behind an address: RAM, with translated code on its page, under a watchpoint run, bus answering. */
  datatype Medium = Medium(ram: bool, coded: bool, watched: bool, ok: bool)

  /** dtlb_fill */
  function DataFill(s: Caches, c: Cpu, va: bv64, pa: bv64, m: Medium): Caches
    requires Sized(s)
  {
    var e := s.tlb[Idx(va)];
    var el0 := Unprivileged(c);
    if m.watched || !m.ram then s
    else if c.mmu && (e.vaPage != Page(va) || e.el0 != el0) then s
    else
      var r := !c.mmu || PermOk(Read, e.t, el0);
      var w := (!c.mmu || PermOk(Write, e.t, el0)) && !m.coded;
      s.(dtlb := s.dtlb[Idx(va) := DataEntry(Tag(c, va, s.gen), Page(pa), r, w)])
  }

  /** The permission probe, for Read or Write. */
  predicate DataHit(s: Caches, c: Cpu, va: bv64, acc: Access)
    requires Sized(s)
  {
    var d := s.dtlb[Idx(va)];
    d.tag == Tag(c, va, s.gen) && if acc == Write then d.w else d.r
  }

  /** mem_read and mem_write within a page, or (fits false) with the MMU off across two. */
  function Accessed(s: Caches, c: Cpu, tb: Tables, va: bv64, acc: Access, fits: bool, m: Medium): Caches
    requires Sized(s)
  {
    if fits && DataHit(s, c, va, acc) then s
    else
      var s' := Translated(s, c, tb, va, acc);
      TranslatedSized(s, c, tb, va, acc);
      match Translate(s, c, tb, va, acc)
      case Abort(_) => s'
      case Address(pa) => if m.ok then DataFill(s', c, va, pa, m) else s'
  }

  predicate FetchHit(s: Caches, c: Cpu, va: bv64)
    requires Sized(s)
  {
    var f := s.fetch[Which(c.el0)];
    f.valid && f.page == Page(va) && va & 3 == 0 && f.mmu == c.mmu
  }

  /** mem_ifetch: backed says the page has a host pointer. */
  function Fetched(s: Caches, c: Cpu, tb: Tables, va: bv64, backed: bool): Caches
    requires Sized(s)
  {
    if FetchHit(s, c, va) || va & 3 != 0 then s
    else
      var s' := Translated(s, c, tb, va, Execute);
      TranslatedSized(s, c, tb, va, Execute);
      match Translate(s, c, tb, va, Execute)
      case Abort(_) => s'
      case Address(pa) =>
        if backed then s'.(fetch := s'.fetch[Which(c.el0) := FetchEntry(true, Page(va), Page(pa), c.mmu)]) else s'
  }

  lemma TranslatedSized(s: Caches, c: Cpu, tb: Tables, va: bv64, acc: Access)
    requires Sized(s)
    ensures Sized(Translated(s, c, tb, va, acc))
  {
    hide Walk, PermOk, TlbHit, Grown, Valid;
    if Walks(s, c, va, acc) && Walk(tb, va).Found? && Walk(tb, va).shift != 0 {
      GrownCovers(s.lp, va, Walk(tb, va).shift);
    }
  }

  lemma FlushSized(s: Caches, va: bv64)
    requires Sized(s)
    ensures Sized(FlushAll(s)) && Sized(FlushPage(s, va))
  {
  }

  lemma AccessedSized(s: Caches, c: Cpu, tb: Tables, va: bv64, acc: Access, fits: bool, m: Medium)
    requires Sized(s)
    ensures Sized(Accessed(s, c, tb, va, acc, fits, m))
  {
    hide Translated, Translate, Tag, PermOk, DataHit, Valid;
    TranslatedSized(s, c, tb, va, acc);
  }

  lemma FetchedSized(s: Caches, c: Cpu, tb: Tables, va: bv64, backed: bool)
    requires Sized(s)
    ensures Sized(Fetched(s, c, tb, va, backed))
  {
    hide Translated, Translate, FetchHit, Valid;
    TranslatedSized(s, c, tb, va, Execute);
  }
}
