/**
 The data probe that generated code runs inline: it indexes by the first byte's page
 and compares the tag of the last byte's page, for one access or a fused run.
 */
module Probe {
  import opened TableWalk
  import opened Tlb
  import TlbRuns

  /** Bytes beyond the first, fewer than a page. */
  predicate Short(extra: bv64) {
    extra & 0xffff_ffff_ffff_f000 == 0
  }

  function PageOffset(va: bv64): bv64 {
    va & 0xfff
  }

  predicate Within(offset: bv64, extra: bv64) {
    offset + extra <= 0xfff
  }

  predicate OnePage(va: bv64, extra: bv64) {
    Within(PageOffset(va), extra)
  }

  function Last(va: bv64, extra: bv64): bv64 {
    va + extra
  }

  predicate InlineHit(s: Caches, c: Cpu, va: bv64, extra: bv64, acc: Access)
    requires Sized(s)
  {
    var d := s.dtlb[Idx(va)];
    d.tag == Tag(c, Last(va, extra), s.gen) && if acc == Write then d.w else d.r
  }

  lemma OnePageBits(va: bv64, extra: bv64)
    requires extra & 0xffff_ffff_ffff_f000 == 0
    ensures OnePage(va, extra) <==> (va + extra) & 0xffff_ffff_ffff_f000 == va & 0xffff_ffff_ffff_f000
  {
    CarryBits(va, extra);
  }

  lemma CarryBits(va: bv64, extra: bv64)
    requires extra & 0xffff_ffff_ffff_f000 == 0
    ensures
      ((va & 0xfff) + extra) & 0xffff_ffff_ffff_f000 == 0 <==>
      (va + extra) & 0xffff_ffff_ffff_f000 == va & 0xffff_ffff_ffff_f000
    ensures (va & 0xfff) + extra <= 0xfff <==> ((va & 0xfff) + extra) & 0xffff_ffff_ffff_f000 == 0
  {
  }

  lemma NextIndexDiffers(va: bv64, extra: bv64)
    requires extra & 0xffff_ffff_ffff_f000 == 0
    requires Slot(va + extra) == Slot(va)
    ensures (va + extra) & 0xffff_ffff_ffff_f000 == va & 0xffff_ffff_ffff_f000
  {
  }

  lemma PageBits(va: bv64)
    ensures Page(va) == va & 0xffff_ffff_ffff_f000
  {
  }

  lemma NarrowBits(p: bv64, q: bv64)
    requires p & 0xffff_ffff_ffff_f000 == 0 && q & 0xffff_ffff_ffff_f000 == 0 && p as bv12 == q as bv12
    ensures p == q
  {
  }

  function Number(x: bv12): (n: int)
    ensures 0 <= n < 4096
  {
    x as int
  }

  lemma Denumber(x: bv12)
    ensures Number(x) as bv12 == x
  {
  }

  function Slot(a: bv64): (r: bv64)
    ensures r & 0xffff_ffff_ffff_f000 == 0
  {
    (a >> 12) & 0xfff
  }

  function Low12(r: bv64): bv12
    requires r & 0xffff_ffff_ffff_f000 == 0
  {
    r as bv12
  }

  lemma IdxIsSlot(a: bv64)
    ensures Idx(a) == Number(Low12(Slot(a)))
  {
  }

  lemma SameLow12(p: bv64, q: bv64)
    requires p & 0xffff_ffff_ffff_f000 == 0 && q & 0xffff_ffff_ffff_f000 == 0 && Low12(p) == Low12(q)
    ensures p == q
  {
    NarrowBits(p, q);
  }

  lemma {:induction false} IdxBits(a: bv64, b: bv64)
    requires Idx(a) == Idx(b)
    ensures Slot(a) == Slot(b)
  {
    hide Idx, Slot, Number, Low12;
    IdxIsSlot(a);
    IdxIsSlot(b);
    Denumber(Low12(Slot(a)));
    Denumber(Low12(Slot(b)));
    SameLow12(Slot(a), Slot(b));
  }

  /** A span under a page that changes page changes slot. */
  lemma {:induction false} SameSlotSamePage(va: bv64, extra: bv64)
    requires Short(extra)
    ensures OnePage(va, extra) <==> Page(Last(va, extra)) == Page(va)
    ensures Idx(Last(va, extra)) == Idx(va) ==> Page(Last(va, extra)) == Page(va)
  {
    hide Idx, Page;
    PageBits(va);
    PageBits(Last(va, extra));
    OnePageBits(va, extra);
    if Idx(Last(va, extra)) == Idx(va) {
      IdxBits(Last(va, extra), va);
      NextIndexDiffers(va, extra);
    }
  }

  lemma SameTag(c: Cpu, a: bv64, b: bv64, gen: bv32)
    requires Page(a) == Page(b)
    ensures Tag(c, a, gen) == Tag(c, b, gen)
  {
    hide Page, Pack, Slice;
  }

  /** Every entry that grants anything sits in the slot of its own page. */
  ghost predicate SlotsOk(s: Caches)
    requires Sized(s)
  {
    forall i :: 0 <= i < ENTRIES && (s.dtlb[i].r || s.dtlb[i].w) ==> Idx(s.dtlb[i].tag) == i
  }

  /** In every state a run can reach they do. */
  lemma {:induction false} RunsKeepSlots(log: seq<TlbRuns.Event>, s: Caches)
    requires TlbRuns.Inv(log, s)
    ensures Sized(s) && SlotsOk(s)
  {
    hide Idx, TlbRuns.TagSlice, Slice, TlbRuns.DataBacked, TlbRuns.SliceAtMost, TlbRuns.TlbsOk, TlbRuns.FetchesOk,
      TlbRuns.Covered;
    forall i | 0 <= i < ENTRIES && (s.dtlb[i].r || s.dtlb[i].w) ensures Idx(s.dtlb[i].tag) == i {
      assert TlbRuns.DataOk(log, s.gen, i, s.dtlb[i]);
    }
  }

  lemma {:induction false} FillKeepsSlots(s: Caches, c: Cpu, va: bv64, pa: bv64, m: Medium)
    requires Sized(s) && SlotsOk(s)
    ensures SlotsOk(DataFill(s, c, va, pa, m)) && DataFill(s, c, va, pa, m).gen == s.gen
  {
    hide Idx, Page, Tag, PermOk, TlbRuns.TagSlice, Slice;
    TlbRuns.TagFields(c, va, s.gen);
    TlbRuns.IdxOfPage(Tag(c, va, s.gen));
    TlbRuns.IdxOfPage(va);
  }

  /** A modelled access, hit or refill, keeps them there and the generation as it was. */
  lemma {:induction false} AccessKeepsSlots(s: Caches, c: Cpu, tb: Tables, va: bv64, acc: Access, fits: bool, m: Medium)
    requires Sized(s) && SlotsOk(s)
    ensures
      var s' := Accessed(s, c, tb, va, acc, fits, m);
      Sized(s') && SlotsOk(s') && s'.gen == s.gen
  {
    hide Idx, Page, Tag, PermOk, Walk, DataFill, Translate, DataHit, TlbHit;
    AccessedSized(s, c, tb, va, acc, fits, m);
    TranslatedSized(s, c, tb, va, acc);
    var s' := Translated(s, c, tb, va, acc);
    assert s'.dtlb == s.dtlb && s'.gen == s.gen;
    match Translate(s, c, tb, va, acc)
    case Abort(_) =>
    case Address(pa) => FillKeepsSlots(s', c, va, pa, m);
  }

  /**
   Then the inline probe hits exactly when the whole span lies in one page and
   the interpreter's probe of its first byte hits with the same permission.
   */
  lemma {:induction false} InlineIsInterpreter(s: Caches, c: Cpu, va: bv64, extra: bv64, acc: Access)
    requires Sized(s) && SlotsOk(s) && Short(extra) && acc != Execute
    ensures InlineHit(s, c, va, extra, acc) <==> OnePage(va, extra) && DataHit(s, c, va, acc)
  {
    hide Idx, Page, Tag, OnePage, Last, TlbRuns.TagSlice, Slice;
    var d := s.dtlb[Idx(va)];
    SameSlotSamePage(va, extra);
    if InlineHit(s, c, va, extra, acc) {
      TlbRuns.TagFields(c, Last(va, extra), s.gen);
      TlbRuns.IdxOfPage(d.tag);
      TlbRuns.IdxOfPage(Last(va, extra));
      SameTag(c, Last(va, extra), va, s.gen);
    }
    if OnePage(va, extra) {
      SameTag(c, Last(va, extra), va, s.gen);
    }
  }

  // ---- The context word ----

  /** dtlb_ctxgen: the tag bits below the page, left for generated code by the dispatcher. */
  function ContextWord(c: Cpu, gen: bv32): bv64 {
    Context(Slice(gen), if c.mmu then 2 else 0, if c.el0 then 1 else 0)
  }

  /** Ored into the page of the last byte it makes the tag the probe compares. */
  lemma {:induction false} KeyFromContext(c: Cpu, va: bv64, gen: bv32)
    requires !c.unpriv
    ensures Key(Page(va), ContextWord(c, gen)) == Tag(c, va, gen)
  {
    hide Page, Slice, Context, Key;
  }
}
