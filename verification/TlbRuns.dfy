/**
 Every run of translations, accesses, fetches and invalidations: whatever the
 caches answer was walked since the last invalidation that covers it.
 */
module TlbRuns {
  import opened LargePages
  import opened TableWalk
  import opened Tlb

  /** What a run did, in order: successful walks, invalidations of a page, of everything. */
  datatype Event = Walked(tb: Tables, va: bv64) | FlushedPage(va: bv64) | FlushedAll

  /** Whether an invalidation covers a translation: its page, or any part of its block. */
  predicate Kills(e: Event, page: bv64, shift: nat) {
    match e
    case Walked(_, _) => false
    case FlushedAll => true
    case FlushedPage(va) =>
      SamePage(va, page) || (shift != 0 && SameBlock(va, page, shift))
  }

  predicate SamePage(a: bv64, b: bv64) {
    Page(NoTag(a)) == Page(NoTag(b))
  }

  /** The event walked that page to that leaf. */
  predicate Walks(e: Event, page: bv64, t: Translation, shift: nat) {
    e.Walked? && Page(e.va) == page && Walk(e.tb, e.va) == Found(t, shift)
  }

  /** Some walk of the page gave that leaf, and nothing after it covers the page or its block. */
  predicate Live(log: seq<Event>, page: bv64, t: Translation, shift: nat): (r: bool)
    ensures r && shift != 0 ==> IsBlockShift(shift)
  {
    |log| > 0 &&
    (Walks(log[|log| - 1], page, t, shift) ||
     (!Kills(log[|log| - 1], page, shift) && Live(log[..|log| - 1], page, t, shift)))
  }

  /** The walk at i gave that leaf and nothing since covers it. */
  ghost predicate Since(log: seq<Event>, i: int, page: bv64, t: Translation, shift: nat) {
    && 0 <= i < |log| && Walks(log[i], page, t, shift)
    && forall j :: i < j < |log| ==> !Kills(log[j], page, shift)
  }

  /** What Live says, without recursion. */
  lemma {:induction false} LiveMeans(log: seq<Event>, page: bv64, t: Translation, shift: nat)
    ensures Live(log, page, t, shift) <==> exists i :: Since(log, i, page, t, shift)
  {
    if Live(log, page, t, shift) {
      var i := LiveSince(log, page, t, shift);
    }
    if i :| Since(log, i, page, t, shift) {
      SinceLive(log, i, page, t, shift);
    }
  }

  lemma {:induction false} LiveSince(log: seq<Event>, page: bv64, t: Translation, shift: nat) returns (i: int)
    requires Live(log, page, t, shift)
    ensures Since(log, i, page, t, shift)
  {
    hide Walks, Kills;
    i := |log| - 1;
    if !Walks(log[i], page, t, shift) {
      i := LiveSince(log[..|log| - 1], page, t, shift);
    }
  }

  lemma {:induction false} SinceLive(log: seq<Event>, i: int, page: bv64, t: Translation, shift: nat)
    requires Since(log, i, page, t, shift)
    ensures Live(log, page, t, shift)
  {
    hide Walks, Kills;
    if i < |log| - 1 {
      SinceLive(log[..|log| - 1], i, page, t, shift);
    }
  }

  predicate Backed(log: seq<Event>, page: bv64, t: Translation) {
    Live(log, page, t, 0) || Live(log, page, t, 21) || Live(log, page, t, 30) || Live(log, page, t, 39)
  }

  lemma {:induction false} LiveAppend(log: seq<Event>, e: Event, page: bv64, t: Translation, shift: nat)
    ensures Live(log + [e], page, t, shift) ==
      (Walks(e, page, t, shift) || (!Kills(e, page, shift) && Live(log, page, t, shift)))
  {
    assert (log + [e])[..|log|] == log;
  }

  // ---- The invariant ----

  function TagSlice(tag: bv64): bv64 {
    (tag >> 2) & 0x3ff
  }

  predicate TagMmu(tag: bv64) {
    tag & 2 != 0
  }

  predicate TagEl0(tag: bv64) {
    tag & 1 != 0
  }

  /** The packed tag gives back every field. */
  lemma TagFields(c: Cpu, va: bv64, gen: bv32)
    ensures Page(Tag(c, va, gen)) == Page(va) && TagSlice(Tag(c, va, gen)) == Slice(gen)
    ensures TagMmu(Tag(c, va, gen)) == c.mmu && TagEl0(Tag(c, va, gen)) == Unprivileged(c)
  {
    hide Slice, TagSlice, TagMmu, TagEl0, Page, Pack;
    SliceFits(gen);
    Unpack(Page(va), Slice(gen), if c.mmu then 2 else 0, if Unprivileged(c) then 1 else 0, va);
  }

  lemma SliceFits(gen: bv32)
    ensures Slice(gen) & !0x3ff == 0
  {
  }

  lemma Unpack(page: bv64, slice: bv64, m: bv64, e: bv64, va: bv64)
    requires page == Page(va) && slice & !0x3ff == 0 && m & !2 == 0 && e & !1 == 0
    ensures Page(Pack(page, slice, m, e)) == page
    ensures TagSlice(Pack(page, slice, m, e)) == slice
    ensures TagMmu(Pack(page, slice, m, e)) == (m != 0)
    ensures TagEl0(Pack(page, slice, m, e)) == (e != 0)
  {
  }

  lemma IdxOfPage(va: bv64)
    ensures Idx(Page(va)) == Idx(va) && Page(Page(va)) == Page(va)
  {
  }

  lemma SameIdx(a: bv64, b: bv64)
    requires SamePage(a, b)
    ensures Idx(a) == Idx(b)
  {
  }

  lemma SameBlockPage(x: bv64, va: bv64, shift: nat)
    requires IsBlockShift(shift)
    ensures SameBlock(x, Page(va), shift) == SameBlock(x, va, shift)
  {
    hide BlockMask, Meet;
    BlockMaskPages(shift);
    MeetPage(va, BlockMask(shift));
  }

  lemma BlockMaskPages(shift: nat)
    ensures BlockMask(shift) & 0xfff == 0
  {
  }

  lemma MeetPage(va: bv64, mask: bv64)
    requires mask & 0xfff == 0
    ensures Meet(NoTag(Page(va)), mask) == Meet(NoTag(va), mask)
  {
  }

  predicate AtMost(a: bv32, b: bv32) {
    a <= b
  }

  predicate SliceAtMost(a: bv64, b: bv64) {
    a <= b
  }

  predicate TlbOk(log: seq<Event>, gen: bv32, i: nat, e: TlbEntry) {
    e.valid ==> Idx(e.vaPage) == i && AtMost(e.gen, gen) && (e.gen == gen ==> Backed(log, e.vaPage, e.t))
  }

  /** A D-TLB entry's own account of itself: a live walk that grants what it grants, or the identity. */
  predicate Grants(log: seq<Event>, page: bv64, el0: bool, d: DataEntry, t: Translation) {
    && Backed(log, page, t) && d.paPage == Page(t.paPage)
    && (d.r ==> PermOk(Read, t, el0)) && (d.w ==> PermOk(Write, t, el0))
  }

  ghost predicate DataBacked(log: seq<Event>, d: DataEntry) {
    if TagMmu(d.tag) then exists t :: Grants(log, Page(d.tag), TagEl0(d.tag), d, t)
    else d.paPage == Page(d.tag)
  }

  ghost predicate DataOk(log: seq<Event>, gen: bv32, i: nat, d: DataEntry) {
    d.r || d.w ==>
      && Idx(d.tag) == i && SliceAtMost(TagSlice(d.tag), Slice(gen))
      && (TagSlice(d.tag) == Slice(gen) ==> DataBacked(log, d))
  }

  predicate Executes(log: seq<Event>, page: bv64, el0: bool, paPage: bv64, t: Translation) {
    Backed(log, page, t) && paPage == Page(t.paPage) && PermOk(Execute, t, el0)
  }

  ghost predicate FetchOk(log: seq<Event>, el0: bool, f: FetchEntry) {
    f.valid ==> if f.mmu then exists t :: Executes(log, f.page, el0, f.paPage, t) else f.paPage == f.page
  }

  /** Every live block lies in the covering range. */
  ghost predicate Covered(log: seq<Event>, lp: Range) {
    forall page, t, shift, x ::
      Live(log, page, t, shift) && shift != 0 && SameBlock(x, page, shift) ==> Inside(lp, x)
  }

  ghost predicate TlbsOk(log: seq<Event>, gen: bv32, tlb: seq<TlbEntry>) {
    forall i :: 0 <= i < |tlb| ==> TlbOk(log, gen, i, tlb[i])
  }

  ghost predicate DatasOk(log: seq<Event>, gen: bv32, dtlb: seq<DataEntry>) {
    forall i :: 0 <= i < |dtlb| ==> DataOk(log, gen, i, dtlb[i])
  }

  ghost predicate FetchesOk(log: seq<Event>, fetch: seq<FetchEntry>)
    requires |fetch| == 2
  {
    FetchOk(log, false, fetch[0]) && FetchOk(log, true, fetch[1])
  }

  ghost predicate Inv(log: seq<Event>, s: Caches) {
    && Sized(s)
    && TlbsOk(log, s.gen, s.tlb)
    && DatasOk(log, s.gen, s.dtlb)
    && FetchesOk(log, s.fetch)
    && Covered(log, s.lp)
  }

  // ---- A full flush ----

  lemma NextIsLater(gen: bv32)
    requires Next(gen) != 0
    ensures gen < Next(gen)
  {
  }

  lemma Later(e: bv32, gen: bv32, next: bv32)
    requires AtMost(e, gen) && gen < next
    ensures AtMost(e, next) && e != next
  {
  }

  lemma NextGen(gen: bv32, e: bv32)
    requires AtMost(e, gen) && Next(gen) != 0
    ensures AtMost(e, Next(gen)) && e != Next(gen)
  {
    hide AtMost, Next;
    NextIsLater(gen);
    Later(e, gen, Next(gen));
  }

  lemma NextSlice(gen: bv32, slice: bv64)
    requires SliceAtMost(slice, Slice(gen)) && !SliceWraps(Next(gen))
    ensures SliceAtMost(slice, Slice(Next(gen))) && slice != Slice(Next(gen))
  {
  }

  lemma WrapSlice(gen: bv32)
    ensures Next(gen) == 0 ==> SliceWraps(Next(gen))
  {
  }

  lemma {:induction false} FlushTlb(log: seq<Event>, log': seq<Event>, s: Caches)
    requires Sized(s) && TlbsOk(log, s.gen, s.tlb)
    ensures TlbsOk(log', FlushAll(s).gen, FlushAll(s).tlb)
  {
    hide Backed, Idx, Next, SliceWraps, NoFetch, AtMost, Valid;
    WrapSlice(s.gen);
    forall i | 0 <= i < ENTRIES ensures TlbOk(log', FlushAll(s).gen, i, FlushAll(s).tlb[i]) {
      assert TlbOk(log, s.gen, i, s.tlb[i]);
      if Next(s.gen) != 0 && s.tlb[i].valid {
        NextGen(s.gen, s.tlb[i].gen);
      }
    }
  }

  lemma {:induction false} FlushData(log: seq<Event>, log': seq<Event>, s: Caches)
    requires Sized(s) && DatasOk(log, s.gen, s.dtlb)
    ensures DatasOk(log', FlushAll(s).gen, FlushAll(s).dtlb)
  {
    hide DataBacked, Idx, Next, SliceWraps, NoFetch, TagSlice, Slice, SliceAtMost, Valid;
    forall i | 0 <= i < ENTRIES ensures DataOk(log', FlushAll(s).gen, i, FlushAll(s).dtlb[i]) {
      assert DataOk(log, s.gen, i, s.dtlb[i]);
      if !SliceWraps(Next(s.gen)) && (s.dtlb[i].r || s.dtlb[i].w) {
        NextSlice(s.gen, TagSlice(s.dtlb[i].tag));
      }
    }
  }

  lemma {:induction false} NothingLive(log: seq<Event>, page: bv64, t: Translation, shift: nat)
    ensures !Live(log + [FlushedAll], page, t, shift)
  {
    LiveAppend(log, FlushedAll, page, t, shift);
  }

  /** A full flush is sound whatever else the log says, through both wraps. */
  lemma {:induction false} AfterFlushAll(log: seq<Event>, s: Caches, log0: seq<Event>)
    requires Inv(log, s)
    ensures Inv(log0 + [FlushedAll], FlushAll(s))
  {
    hide TlbsOk, DatasOk, Backed, SameBlock, Inside, Next, SliceWraps, Live;
    var log' := log0 + [FlushedAll];
    FlushTlb(log, log', s);
    FlushData(log, log', s);
    FlushSized(s, 0);
    forall page, t, shift: nat ensures !Live(log', page, t, shift) {
      NothingLive(log0, page, t, shift);
    }
  }

  // ---- A one-page invalidation outside the block range ----

  lemma {:induction false} LiveSurvives(log: seq<Event>, lp: Range, va: bv64, page: bv64, t: Translation, shift: nat)
    requires Covered(log, lp) && !Inside(lp, va) && !SamePage(va, page)
    requires Live(log, page, t, shift)
    ensures Live(log + [FlushedPage(va)], page, t, shift)
  {
    hide SamePage, SameBlock, Inside, Live;
    LiveAppend(log, FlushedPage(va), page, t, shift);
  }

  lemma {:induction false} BackedSurvives(log: seq<Event>, lp: Range, va: bv64, page: bv64, t: Translation)
    requires Covered(log, lp) && !Inside(lp, va) && !SamePage(va, page)
    requires Backed(log, page, t)
    ensures Backed(log + [FlushedPage(va)], page, t)
  {
    hide SamePage, Inside, Live, Covered;
    if Live(log, page, t, 0) {
      LiveSurvives(log, lp, va, page, t, 0);
    } else if Live(log, page, t, 21) {
      LiveSurvives(log, lp, va, page, t, 21);
    } else if Live(log, page, t, 30) {
      LiveSurvives(log, lp, va, page, t, 30);
    } else {
      LiveSurvives(log, lp, va, page, t, 39);
    }
  }

  lemma {:induction false} TlbSurvives(log: seq<Event>, lp: Range, gen: bv32, va: bv64, i: nat, e: TlbEntry)
    requires Covered(log, lp) && !Inside(lp, va) && TlbOk(log, gen, i, e) && i != Idx(va)
    ensures TlbOk(log + [FlushedPage(va)], gen, i, e)
  {
    hide SamePage, Inside, Backed, Covered, Idx, AtMost;
    if e.valid && e.gen == gen {
      if SamePage(va, e.vaPage) {
        SameIdx(va, e.vaPage);
      }
      BackedSurvives(log, lp, va, e.vaPage, e.t);
    }
  }

  lemma {:induction false} DataSurvives(log: seq<Event>, lp: Range, gen: bv32, va: bv64, i: nat, d: DataEntry)
    requires Covered(log, lp) && !Inside(lp, va) && DataOk(log, gen, i, d) && i != Idx(va)
    ensures DataOk(log + [FlushedPage(va)], gen, i, d)
  {
    hide SamePage, Inside, Backed, Covered, Idx, SliceAtMost, TagSlice, Slice, TagMmu, TagEl0, PermOk, Page;
    var log' := log + [FlushedPage(va)];
    if (d.r || d.w) && TagSlice(d.tag) == Slice(gen) && TagMmu(d.tag) {
      IdxOfPage(d.tag);
      if SamePage(va, Page(d.tag)) {
        SameIdx(va, Page(d.tag));
      }
      var t :| Grants(log, Page(d.tag), TagEl0(d.tag), d, t);
      BackedSurvives(log, lp, va, Page(d.tag), t);
      assert Grants(log', Page(d.tag), TagEl0(d.tag), d, t);
    }
  }

  lemma {:induction false} CoveredAfterPage(log: seq<Event>, lp: Range, va: bv64)
    requires Covered(log, lp)
    ensures Covered(log + [FlushedPage(va)], lp)
  {
    hide SameBlock, Inside, Live;
    forall page, t, shift: nat, x |
      Live(log + [FlushedPage(va)], page, t, shift) && shift != 0 && SameBlock(x, page, shift)
      ensures Inside(lp, x)
    {
      LiveAppend(log, FlushedPage(va), page, t, shift);
    }
  }

  lemma {:induction false} AfterFlushOne(log: seq<Event>, s: Caches, va: bv64)
    requires Inv(log, s) && !Inside(s.lp, va)
    ensures Inv(log + [FlushedPage(va)], FlushPage(s, va))
  {
    hide TlbOk, DataOk, Inside, Covered, Idx, Valid, FlushAll;
    var s', log' := FlushPage(s, va), log + [FlushedPage(va)];
    CoveredAfterPage(log, s.lp, va);
    forall i | 0 <= i < ENTRIES ensures TlbOk(log', s.gen, i, s'.tlb[i]) {
      assert TlbOk(log, s.gen, i, s.tlb[i]);
      if i == Idx(va) {
        InvalidTlb(log', s.gen, i, s'.tlb[i]);
      } else {
        TlbSurvives(log, s.lp, s.gen, va, i, s.tlb[i]);
      }
    }
    forall i | 0 <= i < ENTRIES ensures DataOk(log', s.gen, i, s'.dtlb[i]) {
      assert DataOk(log, s.gen, i, s.dtlb[i]);
      if i == Idx(va) {
        InvalidData(log', s.gen, i, s'.dtlb[i]);
      } else {
        DataSurvives(log, s.lp, s.gen, va, i, s.dtlb[i]);
      }
    }
  }

  lemma InvalidTlb(log: seq<Event>, gen: bv32, i: nat, e: TlbEntry)
    requires !e.valid
    ensures TlbOk(log, gen, i, e)
  {
  }

  lemma InvalidData(log: seq<Event>, gen: bv32, i: nat, d: DataEntry)
    requires !d.r && !d.w
    ensures DataOk(log, gen, i, d)
  {
  }

  // ---- A walk ----

  lemma {:induction false} LiveAfterWalk(log: seq<Event>, w: Event, page: bv64, t: Translation, shift: nat)
    requires w.Walked? && Live(log, page, t, shift)
    ensures Live(log + [w], page, t, shift)
  {
    LiveAppend(log, w, page, t, shift);
  }

  lemma {:induction false} BackedAfterWalk(log: seq<Event>, w: Event, page: bv64, t: Translation)
    requires w.Walked? && Backed(log, page, t)
    ensures Backed(log + [w], page, t)
  {
    hide Live;
    if Live(log, page, t, 0) {
      LiveAfterWalk(log, w, page, t, 0);
    } else if Live(log, page, t, 21) {
      LiveAfterWalk(log, w, page, t, 21);
    } else if Live(log, page, t, 30) {
      LiveAfterWalk(log, w, page, t, 30);
    } else {
      LiveAfterWalk(log, w, page, t, 39);
    }
  }

  lemma {:induction false} TlbAfterWalk(log: seq<Event>, w: Event, gen: bv32, i: nat, e: TlbEntry)
    requires w.Walked? && TlbOk(log, gen, i, e)
    ensures TlbOk(log + [w], gen, i, e)
  {
    hide Backed, Idx, AtMost;
    if e.valid && e.gen == gen {
      BackedAfterWalk(log, w, e.vaPage, e.t);
    }
  }

  lemma {:induction false} DataAfterWalk(log: seq<Event>, w: Event, gen: bv32, i: nat, d: DataEntry)
    requires w.Walked? && DataOk(log, gen, i, d)
    ensures DataOk(log + [w], gen, i, d)
  {
    hide Backed, Idx, SliceAtMost, TagSlice, Slice, TagMmu, TagEl0, PermOk, Page;
    if (d.r || d.w) && TagSlice(d.tag) == Slice(gen) && TagMmu(d.tag) {
      var t :| Grants(log, Page(d.tag), TagEl0(d.tag), d, t);
      BackedAfterWalk(log, w, Page(d.tag), t);
      assert Grants(log + [w], Page(d.tag), TagEl0(d.tag), d, t);
    }
  }

  lemma {:induction false} FetchAfterWalk(log: seq<Event>, w: Event, el0: bool, f: FetchEntry)
    requires w.Walked? && FetchOk(log, el0, f)
    ensures FetchOk(log + [w], el0, f)
  {
    hide Backed, PermOk, Page;
    if f.valid && f.mmu {
      var t :| Executes(log, f.page, el0, f.paPage, t);
      BackedAfterWalk(log, w, f.page, t);
      assert Executes(log + [w], f.page, el0, f.paPage, t);
    }
  }

  /** Recording the block keeps every live block covered. */
  lemma {:induction false} CoveredAfterWalk(log: seq<Event>, lp: Range, tb: Tables, va: bv64, t: Translation,
      shift: nat)
    requires Covered(log, lp) && Valid(lp) && Walk(tb, va) == Found(t, shift)
    ensures
      shift != 0 ==> IsBlockShift(shift) && Covered(log + [Walked(tb, va)], Grown(lp, va, shift))
    ensures shift == 0 ==> Covered(log + [Walked(tb, va)], lp)
  {
    hide SameBlock, Inside, Live, TableWalk.Walk, Grown, Valid, Page;
    var w := Walked(tb, va);
    if shift != 0 {
      GrownCovers(lp, va, shift);
    }
    var lp' := if shift != 0 then Grown(lp, va, shift) else lp;
    forall page, t0, shift0: nat, x |
      Live(log + [w], page, t0, shift0) && shift0 != 0 && SameBlock(x, page, shift0)
      ensures Inside(lp', x)
    {
      LiveAppend(log, w, page, t0, shift0);
      if Walks(w, page, t0, shift0) {
        SameBlockPage(x, va, shift);
      }
    }
  }

  lemma {:induction false} LogWalk(log: seq<Event>, s: Caches, w: Event)
    requires Inv(log, s) && w.Walked?
    ensures TlbsOk(log + [w], s.gen, s.tlb) && DatasOk(log + [w], s.gen, s.dtlb) && FetchesOk(log + [w], s.fetch)
  {
    hide TlbOk, DataOk, FetchOk, Covered, Valid;
    forall i | 0 <= i < ENTRIES ensures TlbOk(log + [w], s.gen, i, s.tlb[i]) {
      TlbAfterWalk(log, w, s.gen, i, s.tlb[i]);
    }
    forall i | 0 <= i < ENTRIES ensures DataOk(log + [w], s.gen, i, s.dtlb[i]) {
      DataAfterWalk(log, w, s.gen, i, s.dtlb[i]);
    }
    FetchAfterWalk(log, w, false, s.fetch[0]);
    FetchAfterWalk(log, w, true, s.fetch[1]);
  }

  lemma {:induction false} JustWalked(log: seq<Event>, tb: Tables, va: bv64, t: Translation, shift: nat)
    requires Walk(tb, va) == Found(t, shift)
    ensures Backed(log + [Walked(tb, va)], Page(va), t)
  {
    hide Live, TableWalk.Walk, Page;
    LiveAppend(log, Walked(tb, va), Page(va), t, shift);
  }

  lemma AtMostSelf(gen: bv32)
    ensures AtMost(gen, gen)
  {
  }

  lemma {:induction false} AfterFill(log: seq<Event>, s: Caches, c: Cpu, tb: Tables, va: bv64, t: Translation,
      shift: nat)
    requires Inv(log, s) && Walk(tb, va) == Found(t, shift)
    ensures Inv(log + [Walked(tb, va)], Fill(s, c, va, t, shift))
  {
    hide Backed, DatasOk, FetchesOk, Covered, Valid, TableWalk.Walk, Idx, AtMost, Page, Grown, IsBlockShift;
    var log' := log + [Walked(tb, va)];
    LogWalk(log, s, Walked(tb, va));
    CoveredAfterWalk(log, s.lp, tb, va, t, shift);
    JustWalked(log, tb, va, t, shift);
    IdxOfPage(va);
    AtMostSelf(s.gen);
    if shift != 0 {
      GrownCovers(s.lp, va, shift);
    }
    assert TlbOk(log', s.gen, Idx(va), TlbEntry(true, s.gen, Page(va), Unprivileged(c), t));
  }

  /** The event a translation adds, if it walks to a leaf. */
  function WalkEvents(s: Caches, c: Cpu, tb: Tables, va: bv64, acc: Access): seq<Event>
    requires Sized(s)
  {
    if Tlb.Walks(s, c, va, acc) && Walk(tb, va).Found? then [Walked(tb, va)] else []
  }

  lemma {:induction false} AfterTranslate(log: seq<Event>, s: Caches, c: Cpu, tb: Tables, va: bv64, acc: Access)
    requires Inv(log, s)
    ensures Inv(log + WalkEvents(s, c, tb, va, acc), Translated(s, c, tb, va, acc))
  {
    hide TlbsOk, DatasOk, FetchesOk, Covered, Valid, TableWalk.Walk, TlbHit, Fill;
    if Tlb.Walks(s, c, va, acc) && Walk(tb, va).Found? {
      AfterFill(log, s, c, tb, va, Walk(tb, va).t, Walk(tb, va).shift);
    } else {
      assert log + [] == log;
    }
  }

  lemma PageOfOffset(page: bv64, va: bv64)
    ensures Page(WithOffset(page, va)) == Page(page)
  {
    assert Page(WithOffset(page, va)) == (page | (va & 0xfff)) & 0xffff_ffff_ffff_f000;
    assert Page(page) == page & 0xffff_ffff_ffff_f000;
    ClearLow(page, va);
  }

  lemma ClearLow(page: bv64, va: bv64)
    ensures (page | (va & 0xfff)) & 0xffff_ffff_ffff_f000 == page & 0xffff_ffff_ffff_f000
  {
  }

  lemma {:induction false} FillIsCached(s: Caches, c: Cpu, va: bv64, acc: Access, t: Translation, shift: nat)
    requires Sized(s) && (shift == 0 || IsBlockShift(shift)) && PermOk(acc, t, Unprivileged(c))
    ensures
      var s' := Fill(s, c, va, t, shift);
      && |s'.tlb| == ENTRIES && s'.gen == s.gen && s'.dtlb == s.dtlb && s'.fetch == s.fetch && s'.tlb[Idx(va)].t == t
      && (Sized(s') ==> TlbHit(s', c, va, acc))
  {
    hide Valid, PermOk, Idx, Page, Grown;
  }

  /** A translation that answers under the MMU leaves its own entry in place. */
  lemma {:induction false} AnswerIsCached(s: Caches, c: Cpu, tb: Tables, va: bv64, acc: Access)
    requires Sized(s) && c.mmu && Translate(s, c, tb, va, acc).Address?
    ensures
      var s' := Translated(s, c, tb, va, acc);
      && Sized(s') && s'.gen == s.gen && s'.dtlb == s.dtlb && s'.fetch == s.fetch && TlbHit(s', c, va, acc)
      && Page(Translate(s, c, tb, va, acc).pa) == Page(s'.tlb[Idx(va)].t.paPage)
  {
    hide Valid, TableWalk.Walk, PermOk, Idx, Page, WithOffset, Fill, TlbHit;
    TranslatedSized(s, c, tb, va, acc);
    if Tlb.Walks(s, c, va, acc) {
      FillIsCached(s, c, va, acc, Walk(tb, va).t, Walk(tb, va).shift);
      PageOfOffset(Walk(tb, va).t.paPage, va);
    } else {
      PageOfOffset(s.tlb[Idx(va)].t.paPage, va);
    }
  }

  lemma SliceAtMostSelf(slice: bv64)
    ensures SliceAtMost(slice, slice)
  {
  }

  /** A new D-TLB entry for a page whose TLB entry is current, or with the MMU off. */
  lemma {:induction false} NewDataOk(log: seq<Event>, c: Cpu, gen: bv32, va: bv64, pa: bv64, t: Translation, r: bool,
      w: bool)
    requires c.mmu ==> Backed(log, Page(va), t) && Page(pa) == Page(t.paPage)
    requires c.mmu && r ==> PermOk(Read, t, Unprivileged(c))
    requires c.mmu && w ==> PermOk(Write, t, Unprivileged(c))
    requires !c.mmu ==> Page(pa) == Page(va)
    ensures DataOk(log, gen, Idx(va), DataEntry(Tag(c, va, gen), Page(pa), r, w))
  {
    hide Backed, Idx, SliceAtMost, TagSlice, Slice, TagMmu, TagEl0, PermOk, Page, Tag;
    var d := DataEntry(Tag(c, va, gen), Page(pa), r, w);
    TagFields(c, va, gen);
    SliceAtMostSelf(Slice(gen));
    IdxOfPage(va);
    IdxOfPage(d.tag);
    if c.mmu {
      assert Grants(log, Page(d.tag), TagEl0(d.tag), d, t);
    }
  }

  lemma {:induction false} AfterDataFill(log: seq<Event>, s: Caches, c: Cpu, va: bv64, pa: bv64, m: Medium)
    requires Inv(log, s)
    requires c.mmu ==>
      var e := s.tlb[Idx(va)];
      e.valid && e.gen == s.gen && e.vaPage == Page(va) && Page(pa) == Page(e.t.paPage)
    requires !c.mmu ==> Page(pa) == Page(va)
    ensures Inv(log, DataFill(s, c, va, pa, m))
  {
    hide TlbOk, FetchesOk, Covered, Valid, DataOk, Tag, PermOk, Page, Idx, Backed;
    var e := s.tlb[Idx(va)];
    var el0 := Unprivileged(c);
    if c.mmu {
      CurrentIsBacked(log, s, va);
    }
    NewDataOk(log, c, s.gen, va, pa, e.t, !c.mmu || PermOk(Read, e.t, el0), (!c.mmu || PermOk(Write, e.t,
      el0)) && !m.coded);
  }

  lemma {:induction false} CurrentIsBacked(log: seq<Event>, s: Caches, va: bv64)
    requires Sized(s) && TlbsOk(log, s.gen, s.tlb)
    requires
      var e := s.tlb[Idx(va)];
      e.valid && e.gen == s.gen && e.vaPage == Page(va)
    ensures Backed(log, Page(va), s.tlb[Idx(va)].t)
  {
    hide Backed, Page, Idx, AtMost, Valid;
    assert TlbOk(log, s.gen, Idx(va), s.tlb[Idx(va)]);
  }

  lemma {:induction false} AfterAccess(log: seq<Event>, s: Caches, c: Cpu, tb: Tables, va: bv64, acc: Access,
      fits: bool, m: Medium)
    requires Inv(log, s)
    ensures
      Inv(log + (if fits && DataHit(s, c, va, acc) then [] else WalkEvents(s, c, tb, va, acc)),
        Accessed(s, c, tb, va, acc, fits, m))
  {
    hide TlbsOk, DatasOk, FetchesOk, Covered, Valid, DataHit, DataFill, Translated, Translate, WalkEvents, Page, PermOk;
    if fits && DataHit(s, c, va, acc) {
      assert log + [] == log;
    } else {
      AfterTranslate(log, s, c, tb, va, acc);
      var s' := Translated(s, c, tb, va, acc);
      var a := Translate(s, c, tb, va, acc);
      if a.Address? && m.ok {
        if c.mmu {
          AnswerIsCached(s, c, tb, va, acc);
        } else {
          IdentityOff(s, c, tb, va, acc);
        }
        AfterDataFill(log + WalkEvents(s, c, tb, va, acc), s', c, va, a.pa, m);
      }
    }
  }

  lemma IdentityOff(s: Caches, c: Cpu, tb: Tables, va: bv64, acc: Access)
    requires Sized(s) && !c.mmu
    ensures Translate(s, c, tb, va, acc) == Address(va)
  {
  }

  lemma {:induction false} NewFetchOk(log: seq<Event>, c: Cpu, va: bv64, pa: bv64, t: Translation)
    requires c.mmu ==> Backed(log, Page(va), t) && Page(pa) == Page(t.paPage) && PermOk(Execute, t, c.el0)
    requires !c.mmu ==> Page(pa) == Page(va)
    ensures FetchOk(log, c.el0, FetchEntry(true, Page(va), Page(pa), c.mmu))
  {
    hide Backed, PermOk, Page;
    if c.mmu {
      assert Executes(log, Page(va), c.el0, Page(pa), t);
    }
  }

  lemma {:induction false} AfterFetch(log: seq<Event>, s: Caches, c: Cpu, tb: Tables, va: bv64, backed: bool)
    requires Inv(log, s) && !c.unpriv
    ensures
      Inv(log + (if FetchHit(s, c, va) || va & 3 != 0 then [] else WalkEvents(s, c, tb, va, Execute)),
        Fetched(s, c, tb, va, backed))
  {
    hide TlbsOk, DatasOk, FetchOk, Covered, Valid, FetchHit, Translated, Translate, WalkEvents, Page, PermOk, Backed;
    if FetchHit(s, c, va) || va & 3 != 0 {
      assert log + [] == log;
    } else {
      AfterTranslate(log, s, c, tb, va, Execute);
      var log' := log + WalkEvents(s, c, tb, va, Execute);
      var s' := Translated(s, c, tb, va, Execute);
      var a := Translate(s, c, tb, va, Execute);
      if a.Address? && backed {
        if c.mmu {
          AnswerIsCached(s, c, tb, va, Execute);
          CurrentIsBacked(log', s', va);
        } else {
          IdentityOff(s, c, tb, va, Execute);
        }
        NewFetchOk(log', c, va, a.pa, s'.tlb[Idx(va)].t);
      }
    }
  }

  // ---- Runs ----

  datatype Op =
    | Data(c: Cpu, tb: Tables, va: bv64, acc: Access, fits: bool, m: Medium)
    | Fetch(c: Cpu, tb: Tables, va: bv64, backed: bool)
    | TlbiPage(x: bv64)
    | Flush

  /** An unprivileged load or store is data: it is never in force at a fetch. */
  predicate Possible(op: Op) {
    op.Fetch? ==> !op.c.unpriv
  }

  datatype Run = Run(s: Caches, log: seq<Event>)

  function Step(r: Run, op: Op): Run
    requires Sized(r.s)
  {
    match op
    case Data(c, tb, va, acc, fits, m) =>
      Run(Accessed(r.s, c, tb, va, acc, fits, m),
        r.log + if fits && DataHit(r.s, c, va, acc) then [] else WalkEvents(r.s, c, tb, va, acc))
    case Fetch(c, tb, va, backed) =>
      Run(Fetched(r.s, c, tb, va, backed),
        r.log + if FetchHit(r.s, c, va) || va & 3 != 0 then [] else WalkEvents(r.s, c, tb, va, Execute))
    case TlbiPage(x) =>
      Run(FlushPage(r.s, TlbiVa(x)),
        r.log + [FlushedPage(TlbiVa(x))] + if Inside(r.s.lp, TlbiVa(x)) then [FlushedAll] else [])
    case Flush => Run(FlushAll(r.s), r.log + [FlushedAll])
  }

  lemma {:induction false} StepSized(r: Run, op: Op)
    requires Sized(r.s)
    ensures Sized(Step(r, op).s)
  {
    hide Sized, Accessed, Fetched, FlushPage, FlushAll, DataHit, FetchHit, WalkEvents, Inside;
    match op
    case Data(c, tb, va, acc, fits, m) => AccessedSized(r.s, c, tb, va, acc, fits, m);
    case Fetch(c, tb, va, backed) => FetchedSized(r.s, c, tb, va, backed);
    case TlbiPage(x) => FlushSized(r.s, TlbiVa(x));
    case Flush => FlushSized(r.s, 0);
  }

  function Play(ops: seq<Op>): (r: Run)
    ensures Sized(r.s)
  {
    if ops == [] then Run(Tlb.Start(), [])
    else
      StepSized(Play(ops[..|ops| - 1]), ops[|ops| - 1]);
      Step(Play(ops[..|ops| - 1]), ops[|ops| - 1])
  }

  lemma {:induction false} StepKeeps(r: Run, op: Op)
    requires Inv(r.log, r.s) && Possible(op)
    ensures Inv(Step(r, op).log, Step(r, op).s)
  {
    hide Inv, Accessed, Fetched, DataHit, FetchHit, WalkEvents, Inside, FlushAll, TlbiVa, Valid;
    match op
    case Data(c, tb, va, acc, fits, m) => AfterAccess(r.log, r.s, c, tb, va, acc, fits, m);
    case Fetch(c, tb, va, backed) => AfterFetch(r.log, r.s, c, tb, va, backed);
    case TlbiPage(x) =>
      InvSized(r.log, r.s);
      if Inside(r.s.lp, TlbiVa(x)) {
        AfterFlushAll(r.log, r.s, r.log + [FlushedPage(TlbiVa(x))]);
      } else {
        AfterFlushOne(r.log, r.s, TlbiVa(x));
        assert r.log + [FlushedPage(TlbiVa(x))] + [] == r.log + [FlushedPage(TlbiVa(x))];
      }
    case Flush => AfterFlushAll(r.log, r.s, r.log);
  }

  lemma InvSized(log: seq<Event>, s: Caches)
    requires Inv(log, s)
    ensures Sized(s)
  {
  }

  lemma {:induction false} StartOk()
    ensures Inv([], Tlb.Start())
  {
    var s := Tlb.Start();
    forall i | 0 <= i < ENTRIES ensures DataOk([], s.gen, i, s.dtlb[i]) {
      InvalidData([], s.gen, i, s.dtlb[i]);
    }
  }

  /** Every run keeps the invariant, through any number of flushes and wraps. */
  lemma {:induction false} RunKeeps(ops: seq<Op>)
    requires forall i :: 0 <= i < |ops| ==> Possible(ops[i])
    ensures Inv(Play(ops).log, Play(ops).s)
  {
    hide Inv, Step, Sized, Possible;
    if ops == [] {
      StartOk();
    } else {
      RunKeeps(ops[..|ops| - 1]);
      StepKeeps(Play(ops[..|ops| - 1]), ops[|ops| - 1]);
    }
  }

  // ---- What a hit means ----

  lemma {:induction false} BackedShift(log: seq<Event>, page: bv64, t: Translation) returns (shift: nat)
    requires Backed(log, page, t)
    ensures Live(log, page, t, shift)
  {
    hide Live;
    shift :=
      if Live(log, page, t, 0) then 0 else if Live(log, page, t, 21) then 21
      else if Live(log, page, t, 30) then 30 else 39;
  }

  /** A TLB hit is a live walk that allows the access. */
  lemma {:induction false} TlbHitIsLive(log: seq<Event>, s: Caches, c: Cpu, va: bv64, acc: Access)
    requires Inv(log, s) && TlbHit(s, c, va, acc)
    ensures
      var t := s.tlb[Idx(va)].t;
      Backed(log, Page(va), t) && PermOk(acc, t, Unprivileged(c))
  {
    hide Backed, DatasOk, FetchesOk, Covered, Valid, Idx, Page, PermOk, TlbOk;
    CurrentIsBacked(log, s, va);
  }

  /**
   A D-TLB permission hit under the MMU is a live walk of the same page whose
   leaf allows the access at the same effective privilege.
   */
  lemma {:induction false} DataHitIsLive(log: seq<Event>, s: Caches, c: Cpu, va: bv64,
      acc: Access) returns (t: Translation)
    requires Inv(log, s) && DataHit(s, c, va, acc) && acc != Execute && c.mmu
    ensures Backed(log, Page(va), t) && PermOk(acc, t, Unprivileged(c))
    ensures s.dtlb[Idx(va)].paPage == Page(t.paPage)
  {
    hide Backed, TlbsOk, FetchesOk, Covered, Valid, Idx, Page, PermOk, Tag, TagSlice, Slice, TagMmu, TagEl0,
      SliceAtMost;
    var d := s.dtlb[Idx(va)];
    assert DataOk(log, s.gen, Idx(va), d);
    TagFields(c, va, s.gen);
    t :| Grants(log, Page(d.tag), TagEl0(d.tag), d, t);
  }

  /** With the MMU off it is the identity. */
  lemma {:induction false} DataHitIsIdentity(log: seq<Event>, s: Caches, c: Cpu, va: bv64, acc: Access)
    requires Inv(log, s) && DataHit(s, c, va, acc) && !c.mmu
    ensures s.dtlb[Idx(va)].paPage == Page(va)
  {
    hide Backed, TlbsOk, FetchesOk, Covered, Valid, Idx, Page, PermOk, Tag, TagSlice, Slice, TagMmu, TagEl0,
      SliceAtMost;
    var d := s.dtlb[Idx(va)];
    assert DataOk(log, s.gen, Idx(va), d);
    TagFields(c, va, s.gen);
  }

  /** A fetch hit is a live walk whose leaf lets this EL execute, or the identity. */
  lemma {:induction false} FetchHitIsLive(log: seq<Event>, s: Caches, c: Cpu, va: bv64) returns (t: Translation)
    requires Inv(log, s) && FetchHit(s, c, va)
    ensures c.mmu ==> Backed(log, Page(va), t) && PermOk(Execute, t, c.el0)
    ensures c.mmu ==> s.fetch[Which(c.el0)].paPage == Page(t.paPage)
    ensures !c.mmu ==> s.fetch[Which(c.el0)].paPage == Page(va)
  {
    hide Backed, TlbsOk, DatasOk, Covered, Valid, Page, PermOk;
    var f := s.fetch[Which(c.el0)];
    assert FetchOk(log, c.el0, f);
    if c.mmu {
      t :| Executes(log, Page(va), c.el0, f.paPage, t);
    } else {
      t := NO_TRANSLATION;
    }
  }

  // ---- The invalidation theorem ----

  /** The translation some cache would serve an access from. */
  ghost predicate Serves(s: Caches, c: Cpu, va: bv64, acc: Access, paPage: bv64)
    requires Sized(s)
  {
    || (TlbHit(s, c, va, acc) && paPage == Page(s.tlb[Idx(va)].t.paPage))
    || (acc != Execute && DataHit(s, c, va, acc) && paPage == s.dtlb[Idx(va)].paPage)
    || (acc == Execute && !c.unpriv && FetchHit(s, c, va) && paPage == s.fetch[Which(c.el0)].paPage)
  }

  lemma {:induction false} ServedIsBacked(log: seq<Event>, s: Caches, c: Cpu, va: bv64, acc: Access, paPage: bv64)
    returns (t: Translation)
    requires Inv(log, s) && c.mmu && Serves(s, c, va, acc, paPage)
    ensures Backed(log, Page(va), t) && PermOk(acc, t, Unprivileged(c)) && paPage == Page(t.paPage)
  {
    hide Inv, Backed, TlbHit, DataHit, FetchHit, PermOk, Page, Idx;
    InvSized(log, s);
    if TlbHit(s, c, va, acc) && paPage == Page(s.tlb[Idx(va)].t.paPage) {
      t := s.tlb[Idx(va)].t;
      TlbHitIsLive(log, s, c, va, acc);
    } else if acc != Execute {
      t := DataHitIsLive(log, s, c, va, acc);
    } else {
      t := FetchHitIsLive(log, s, c, va);
    }
  }

  lemma {:induction false} PlayExtends(ops: seq<Op>, n: nat)
    requires n <= |ops|
    ensures Play(ops[..n]).log <= Play(ops).log
  {
    hide Sized, Accessed, Fetched, FlushPage, FlushAll, DataHit, FetchHit, WalkEvents, Inside;
    if n < |ops| {
      PlayExtends(ops[..|ops| - 1], n);
      assert ops[..|ops| - 1][..n] == ops[..n];
    } else {
      assert ops[..n] == ops;
    }
  }

  /** Whether a VA-form TLBI covers a translation: its page, or any part of its block. */
  predicate Covers(x: bv64, page: bv64, shift: nat) {
    Kills(FlushedPage(TlbiVa(x)), page, shift)
  }

  lemma {:induction false} TlbiEvent(ops: seq<Op>, n: nat)
    requires n < |ops| && ops[n].TlbiPage?
    ensures
      var p := |Play(ops[..n]).log|;
      p < |Play(ops).log| && Play(ops).log[p] == FlushedPage(TlbiVa(ops[n].x))
  {
    hide Sized, FlushPage, Inside, TlbiVa;
    PlayExtends(ops, n + 1);
    assert ops[..n + 1][..n] == ops[..n];
    assert ops[..n + 1][n] == ops[n];
  }

  /**
   In every run, whatever a cache serves under the MMU was walked, for that page
   and that access, after every earlier TLBI by VA that names the page or any
   part of the block it came from.
   */
  lemma {:induction false} ServedAfterTlbi(ops: seq<Op>, n: nat, c: Cpu, va: bv64, acc: Access, paPage: bv64)
    returns (t: Translation, shift: nat, i: int)
    requires forall k :: 0 <= k < |ops| ==> Possible(ops[k])
    requires n < |ops| && ops[n].TlbiPage?
    requires c.mmu && Serves(Play(ops).s, c, va, acc, paPage)
    ensures PermOk(acc, t, Unprivileged(c)) && paPage == Page(t.paPage)
    ensures Since(Play(ops).log, i, Page(va), t, shift)
    ensures Covers(ops[n].x, Page(va), shift) ==> i > |Play(ops[..n]).log|
  {
    hide Inv, Serves, Step, Live, Backed, PermOk, Page, Sized, Walks, TlbiVa, SamePage, SameBlock;
    RunKeeps(ops);
    var log := Play(ops).log;
    t := ServedIsBacked(log, Play(ops).s, c, va, acc, paPage);
    shift := BackedShift(log, Page(va), t);
    LiveMeans(log, Page(va), t, shift);
    i :| Since(log, i, Page(va), t, shift);
    TlbiEvent(ops, n);
    NotAWalk(TlbiVa(ops[n].x), Page(va), t, shift);
  }

  lemma NotAWalk(va: bv64, page: bv64, t: Translation, shift: nat)
    ensures !Walks(FlushedPage(va), page, t, shift)
  {
  }

  /** The same for a full flush: nothing walked before it is served again. */
  lemma {:induction false} ServedAfterFlush(ops: seq<Op>, n: nat, c: Cpu, va: bv64, acc: Access, paPage: bv64)
    returns (t: Translation, shift: nat, i: int)
    requires forall k :: 0 <= k < |ops| ==> Possible(ops[k])
    requires n < |ops| && ops[n].Flush?
    requires c.mmu && Serves(Play(ops).s, c, va, acc, paPage)
    ensures PermOk(acc, t, Unprivileged(c)) && paPage == Page(t.paPage)
    ensures Since(Play(ops).log, i, Page(va), t, shift) && i > |Play(ops[..n]).log|
  {
    hide Inv, Serves, Step, Live, Backed, PermOk, Page, Sized, TableWalk.Walk;
    RunKeeps(ops);
    var log := Play(ops).log;
    t := ServedIsBacked(log, Play(ops).s, c, va, acc, paPage);
    shift := BackedShift(log, Page(va), t);
    LiveMeans(log, Page(va), t, shift);
    i :| Since(log, i, Page(va), t, shift);
    FlushEvent(ops, n);
  }

  lemma {:induction false} FlushEvent(ops: seq<Op>, n: nat)
    requires n < |ops| && ops[n].Flush?
    ensures
      var p := |Play(ops[..n]).log|;
      p < |Play(ops).log| && Play(ops).log[p] == FlushedAll
  {
    hide Sized, FlushAll;
    PlayExtends(ops, n + 1);
    assert ops[..n + 1][..n] == ops[..n];
    assert ops[..n + 1][n] == ops[n];
  }

  // ---- Agreement with the uncached walk ----

  /** mmu_translate without caches. */
  function Uncached(c: Cpu, tb: Tables, va: bv64, acc: Access): Result {
    if !c.mmu then Address(va)
    else
      match Walk(tb, va)
      case Fault(fsc) => Abort(fsc)
      case Found(t, _) =>
        if PermOk(acc, t, Unprivileged(c)) then Address(WithOffset(t.paPage, va)) else Abort(PERM_L3)
  }

  /** A fill is refused for a device page and under a watchpoint run, and never grants W where code was translated. */
  lemma FillRefuses(s: Caches, c: Cpu, va: bv64, pa: bv64, m: Medium)
    requires Sized(s)
    ensures m.watched || !m.ram ==> DataFill(s, c, va, pa, m) == s
    ensures
      DataFill(s, c, va, pa, m) != s ==>
        var d := DataFill(s, c, va, pa, m).dtlb[Idx(va)];
        d.paPage == Page(pa) && d.tag == Tag(c, va, s.gen) && (m.coded ==> !d.w)
  {
    hide PermOk, Tag, Page, Idx;
  }

  /** An abort is always the verdict of the tables at that access, never of a cached entry. */
  lemma AbortIsFresh(s: Caches, c: Cpu, tb: Tables, va: bv64, acc: Access)
    requires Sized(s) && Translate(s, c, tb, va, acc).Abort?
    ensures Uncached(c, tb, va, acc) == Translate(s, c, tb, va, acc)
  {
    hide TableWalk.Walk, PermOk, TlbHit, WithOffset;
  }

  /** Every live walk's page still maps where it did, with at least the rights it had. */
  ghost predicate Maintained(log: seq<Event>, tb: Tables) {
    forall va, t, shift ::
      Live(log, Page(va), t, shift) ==> StillMaps(Walk(tb, va), t)
  }

  ghost predicate StillMaps(now: Outcome, t: Translation) {
    && now.Found? && now.t.paPage == t.paPage
    && forall acc, el0 :: PermOk(acc, t, el0) ==> PermOk(acc, now.t, el0)
  }

  /**
   Caching is invisible as long as software only ever makes live translations
   more permissive without a TLBI (a copy-on-write upgrade in place): every
   translation answers what an uncached walk of the current tables would.
   */
  lemma {:induction false} CachedIsUncached(ops: seq<Op>, c: Cpu, tb: Tables, va: bv64, acc: Access)
    requires forall k :: 0 <= k < |ops| ==> Possible(ops[k])
    requires Maintained(Play(ops).log, tb)
    ensures Translate(Play(ops).s, c, tb, va, acc) == Uncached(c, tb, va, acc)
  {
    hide Inv, Live, Backed, PermOk, Page, Valid, TableWalk.Walk, WithOffset, TlbHit, Play;
    RunKeeps(ops);
    var s, log := Play(ops).s, Play(ops).log;
    if c.mmu && TlbHit(s, c, va, acc) {
      TlbHitIsLive(log, s, c, va, acc);
      var t := s.tlb[Idx(va)].t;
      var shift := BackedShift(log, Page(va), t);
      assert StillMaps(Walk(tb, va), t);
    } else if Translate(s, c, tb, va, acc).Abort? {
      AbortIsFresh(s, c, tb, va, acc);
    }
  }

  /** And a fast-path data access goes where that translation would, when it would be allowed. */
  lemma {:induction false} FastIsUncached(ops: seq<Op>, c: Cpu, tb: Tables, va: bv64, acc: Access)
    requires forall k :: 0 <= k < |ops| ==> Possible(ops[k])
    requires Maintained(Play(ops).log, tb)
    requires acc != Execute && DataHit(Play(ops).s, c, va, acc)
    ensures
      var a := Uncached(c, tb, va, acc);
      a.Address? && Page(a.pa) == Play(ops).s.dtlb[Idx(va)].paPage
  {
    hide Inv, Live, Backed, PermOk, Page, Sized, TableWalk.Walk, WithOffset, DataHit, Play;
    RunKeeps(ops);
    var s, log := Play(ops).s, Play(ops).log;
    if c.mmu {
      var t := DataHitIsLive(log, s, c, va, acc);
      var shift := BackedShift(log, Page(va), t);
      assert StillMaps(Walk(tb, va), t);
      PageOfOffset(t.paPage, va);
    } else {
      DataHitIsIdentity(log, s, c, va, acc);
    }
  }

  // ---- What the caches are for ----

  /** A slow access to RAM that succeeds leaves the next one of its kind on the fast path. */
  lemma {:induction false} NextAccessHits(s: Caches, c: Cpu, tb: Tables, va: bv64, acc: Access, fits: bool, m: Medium)
    requires Sized(s) && acc != Execute && Translate(s, c, tb, va, acc).Address?
    requires m.ok && m.ram && !m.watched && (acc == Write ==> !m.coded)
    ensures Sized(Accessed(s, c, tb, va, acc, fits, m))
    ensures !(fits && DataHit(s, c, va, acc)) ==> DataHit(Accessed(s, c, tb, va, acc, fits, m), c, va, acc)
  {
    hide Translated, Translate, Tag, PermOk, Page, Idx, Valid, TableWalk.Walk;
    AccessedSized(s, c, tb, va, acc, fits, m);
    if c.mmu {
      AnswerIsCached(s, c, tb, va, acc);
    } else {
      OffKeeps(s, c, tb, va, acc);
    }
  }

  lemma OffKeeps(s: Caches, c: Cpu, tb: Tables, va: bv64, acc: Access)
    requires Sized(s) && !c.mmu
    ensures Translated(s, c, tb, va, acc) == s
  {
  }

  /** A fetch from a backed page leaves the next one on the fast path. */
  lemma {:induction false} NextFetchHits(s: Caches, c: Cpu, tb: Tables, va: bv64)
    requires Sized(s) && va & 3 == 0 && Translate(s, c, tb, va, Execute).Address?
    ensures Sized(Fetched(s, c, tb, va, true)) && FetchHit(Fetched(s, c, tb, va, true), c, va)
  {
    hide Translated, Translate, Page, Valid;
    FetchedSized(s, c, tb, va, true);
    TranslatedSized(s, c, tb, va, Execute);
  }

  /** A one-page invalidation outside the block range leaves the hits of every other slot. */
  lemma {:induction false} OnePageSpares(s: Caches, va: bv64, c: Cpu, x: bv64, acc: Access)
    requires Sized(s) && !Inside(s.lp, va) && Idx(x) != Idx(va)
    ensures Sized(FlushPage(s, va))
    ensures TlbHit(FlushPage(s, va), c, x, acc) <==> TlbHit(s, c, x, acc)
    ensures DataHit(FlushPage(s, va), c, x, acc) <==> DataHit(s, c, x, acc)
  {
    hide Idx, Inside, Page, PermOk, Tag;
    FlushSized(s, va);
  }
}
