/**
 The dispatcher around the block table: look up or translate, chain the exit that
 led here, refill the indirect-branch cache; and every run of that with page
 drops, flushes and TLB-driven purges.
 */
module Dispatcher {
  import opened Words
  import opened BlockTable

  datatype Jit = Jit(table: Table, jcache: seq<JEntry>, dirty: seq<nat>, ndirty: nat)

  // ---- Keys ----

  /** jit_ctx: EL0, MMU on, active SP bank, FP trapped. */
  function Ctx(el: bv64, mmu: bool, spsel: bool, trapped: bool): bv64
    requires el <= 3
  {
    (if el == 0 then 1 else 0) | (if mmu then 2 else 0) | ((if spsel then el else 0) << 2) | (if trapped then 16 else 0)
  }

  function JitTag(pc: bv64, ctx: bv64): bv64 {
    (pc << 3) | ctx
  }

  predicate IsCtx(ctx: bv64) {
    ctx & !0x1f == 0 && !(ctx & 1 != 0 && ctx & 0xc != 0)
  }

  predicate Canonical(pc: bv64) {
    pc & 3 == 0 && (pc >> 60 == 0 || pc >> 60 == 0xf)
  }

  lemma CtxIsCtx(el: bv64, mmu: bool, spsel: bool, trapped: bool)
    requires el <= 3
    ensures IsCtx(Ctx(el, mmu, spsel, trapped))
  {
    assert el == 0 || el == 1 || el == 2 || el == 3;
    if el == 0 {
    } else if el == 1 {
    } else if el == 2 {
    } else {
    }
  }

  /** The stack pointer in use: SP_EL0 is bank 0. */
  function Bank(el: bv64, spsel: bool): bv64 {
    if spsel then el else 0
  }

  predicate CtxBits(ctx: bv64, user: bool, mmu: bool, bank: bv64, trapped: bool) {
    && (ctx & 1 != 0 <==> user) && (ctx & 2 != 0 <==> mmu) && (ctx >> 2) & 3 == bank && (ctx & 16 != 0 <==> trapped)
  }

  lemma CtxReads(el: bv64, mmu: bool, spsel: bool, trapped: bool)
    requires el <= 3
    ensures CtxBits(Ctx(el, mmu, spsel, trapped), el == 0, mmu, Bank(el, spsel), trapped)
  {
    if el == 0 {
    } else if el == 1 {
    } else if el == 2 {
    } else {
    }
  }

  /** Two states have one context exactly when EL0, MMU, stack pointer and FP trapping agree. */
  lemma {:induction false} CtxTells(el: bv64, mmu: bool, spsel: bool, trapped: bool, el': bv64, mmu': bool,
      spsel': bool, trapped': bool)
    requires el <= 3 && el' <= 3
    ensures
      Ctx(el, mmu, spsel, trapped) == Ctx(el', mmu', spsel', trapped') <==>
      (el == 0 <==> el' == 0) && mmu == mmu' && Bank(el, spsel) == Bank(el', spsel') && trapped == trapped'
  {
    hide Ctx, Bank;
    CtxReads(el, mmu, spsel, trapped);
    CtxReads(el', mmu', spsel', trapped');
    CtxForm(el, mmu, spsel, trapped);
    CtxForm(el', mmu', spsel', trapped');
  }

  function Packed(user: bool, mmu: bool, bank: bv64, trapped: bool): bv64 {
    (if user then 1 else 0) | (if mmu then 2 else 0) | (bank << 2) | (if trapped then 16 else 0)
  }

  lemma CtxForm(el: bv64, mmu: bool, spsel: bool, trapped: bool)
    requires el <= 3
    ensures Ctx(el, mmu, spsel, trapped) == Packed(el == 0, mmu, Bank(el, spsel), trapped)
  {
  }

  /** No real key is the empty pattern. */
  lemma TagNotEmpty(pc: bv64, ctx: bv64)
    requires pc & 3 == 0 && IsCtx(ctx)
    ensures JitTag(pc, ctx) != ONES
  {
  }

  /** The three dropped address bits are redundant, so a key names one address and context. */
  lemma TagInjective(pc: bv64, ctx: bv64, pc': bv64, ctx': bv64)
    requires Canonical(pc) && IsCtx(ctx) && Canonical(pc') && IsCtx(ctx')
    requires JitTag(pc, ctx) == JitTag(pc', ctx')
    ensures pc == pc' && ctx == ctx'
  {
  }

  function JcIdx(pc: bv64): (k: nat)
    ensures k < JC_SIZE
  {
    (((pc >> 2) & 0xfff) as bv12) as int
  }

  // ---- The indirect-branch cache ----

  predicate Shaped(j: Jit) {
    Sized(j.table) && |j.jcache| == JC_SIZE && |j.dirty| == DIRTY_MAX && j.ndirty <= DIRTY_MAX + 1
  }

  /** Clear the entries on the dirty list. */
  function Clear(jcache: seq<JEntry>, dirty: seq<nat>): (r: seq<JEntry>)
    ensures |r| == |jcache|
    ensures forall i :: 0 <= i < |r| ==> r[i].tag == if i in dirty then ONES else jcache[i].tag
    decreases |dirty|
  {
    if dirty == [] then jcache
    else
      var i := dirty[|dirty| - 1];
      var r := Clear(jcache, dirty[..|dirty| - 1]);
      assert forall k :: k in dirty <==> k == i || k in dirty[..|dirty| - 1];
      if i < |jcache| then r[i := r[i].(tag := ONES)] else r
  }

  /** The entries after a purge: by the dirty list, or all of them once that overflowed. */
  function Emptied(jcache: seq<JEntry>, dirty: seq<nat>, ndirty: nat): (r: seq<JEntry>)
    requires |jcache| == JC_SIZE && |dirty| == DIRTY_MAX
    ensures |r| == JC_SIZE
  {
    if ndirty <= DIRTY_MAX then Clear(jcache, dirty[..ndirty]) else seq(JC_SIZE, _ => JEntry(ONES, -1))
  }

  /** jcache_purge */
  function Purge(j: Jit): (r: Jit)
    requires Shaped(j)
    ensures Shaped(r)
  {
    j.(jcache := Emptied(j.jcache, j.dirty, j.ndirty), ndirty := 0)
  }

  /** A non-empty entry names a listed block with that key, and the dirty list knows it. */
  predicate EntryOk(j: Jit, i: nat)
    requires Shaped(j) && i < JC_SIZE
  {
    var x := j.jcache[i];
    x.tag == ONES ||
    (&& Listed(j.table, x.code) && j.table.arena[x.code].tag == x.tag
     && (j.ndirty <= DIRTY_MAX ==> i in j.dirty[..j.ndirty]))
  }

  ghost predicate Inv(j: Jit) {
    Shaped(j) && BlockTable.Inv(j.table) && forall i :: 0 <= i < JC_SIZE ==> EntryOk(j, i)
  }

  predicate AllEmpty(j: Jit)
    requires Shaped(j)
  {
    forall i :: 0 <= i < JC_SIZE ==> j.jcache[i].tag == ONES
  }

  /** Every non-empty entry is on the dirty list, unless that overflowed. */
  predicate DirtyKnows(j: Jit)
    requires Shaped(j)
  {
    j.ndirty <= DIRTY_MAX ==> forall i :: 0 <= i < JC_SIZE && j.jcache[i].tag != ONES ==> i in j.dirty[..j.ndirty]
  }

  lemma {:induction false} InvDirty(j: Jit)
    requires Inv(j)
    ensures DirtyKnows(j)
  {
    hide BlockTable.Inv, Listed;
    if j.ndirty <= DIRTY_MAX {
      forall i | 0 <= i < JC_SIZE && j.jcache[i].tag != ONES ensures i in j.dirty[..j.ndirty] {
        assert EntryOk(j, i);
      }
    }
  }

  /** Purging by the dirty list empties the whole cache, as the full fill would. */
  lemma {:induction false} PurgeEmpties(j: Jit)
    requires Shaped(j) && DirtyKnows(j)
    ensures AllEmpty(Purge(j)) && Purge(j).table == j.table
  {
    hide Sized, Clear;
  }

  lemma {:induction false} EmptyOk(j: Jit)
    requires Shaped(j) && BlockTable.Inv(j.table) && AllEmpty(j)
    ensures Inv(j)
  {
    hide BlockTable.Inv, Listed;
    forall i | 0 <= i < JC_SIZE ensures EntryOk(j, i) {
    }
  }

  lemma {:induction false} PurgeKeeps(j: Jit)
    requires Inv(j)
    ensures Inv(Purge(j))
  {
    hide BlockTable.Inv, EntryOk, Purge;
    InvDirty(j);
    PurgeEmpties(j);
    EmptyOk(Purge(j));
  }

  // ---- Flush and page drop ----

  function Flush(j: Jit): (r: Jit)
    requires Shaped(j)
    ensures Shaped(r)
  {
    Purge(j).(table := BlockTable.Fresh())
  }

  lemma {:induction false} FlushKeeps(j: Jit)
    requires Inv(j)
    ensures Inv(Flush(j))
  {
    hide BlockTable.Inv, EntryOk, Purge;
    InvDirty(j);
    PurgeEmpties(j);
    FreshOk();
    EmptyOk(Flush(j));
  }

  function DropPage(j: Jit, pa: bv64): (r: Jit)
    requires Inv(j)
    ensures Shaped(r)
  {
    DropPageKeeps(j.table, pa);
    var list := j.table.pages[PageIdx(pa)];
    var j' := j.(table := BlockTable.DropPage(j.table, pa));
    if exists n :: 0 <= n < |list| && j.table.arena[list[n]].paPage == pa then Purge(j') else j'
  }

  /** If no block of the page was in its chain, no listed block has that page. */
  lemma {:induction false} NoneDropped(j: Jit, pa: bv64, i: nat)
    requires Inv(j) && i < JC_SIZE
    requires
      var list := j.table.pages[PageIdx(pa)];
      forall n :: 0 <= n < |list| ==> list[n] < |j.table.arena| && j.table.arena[list[n]].paPage != pa
    ensures EntryOk(j.(table := BlockTable.DropPage(j.table, pa)), i)
  {
    hide TableOk, Listed, BlockTable.DropPage, PageIdx;
    assert EntryOk(j, i);
    var x := j.jcache[i];
    if x.tag != ONES {
      DropPageLists(j.table, pa, x.code);
    }
  }

  lemma {:induction false} DropPageInv(j: Jit, pa: bv64)
    requires Inv(j)
    ensures Inv(DropPage(j, pa))
  {
    hide EntryOk, PageIdx, BlockTable.DropPage, BlockTable.Inv, Purge;
    DropPageKeeps(j.table, pa);
    var list := j.table.pages[PageIdx(pa)];
    var j' := j.(table := BlockTable.DropPage(j.table, pa));
    if exists n :: 0 <= n < |list| && j.table.arena[list[n]].paPage == pa {
      InvDirty(j);
      PurgeEmpties(j');
      EmptyOk(Purge(j'));
    } else {
      forall i | 0 <= i < JC_SIZE ensures EntryOk(j', i) {
        NoneDropped(j, pa, i);
      }
    }
  }

  // ---- One dispatch ----

  predicate Full(e: Table, noRoom: bool) {
    |e.arena| >= MAX_BLOCKS || e.nedges + 2 > 2 * MAX_BLOCKS || noRoom
  }

  /** jit_translate of a block the table lacks; noRoom says the code cache is exhausted. */
  function Translate(j: Jit, b: Block, noRoom: bool): (r: Jit)
    requires Shaped(j)
    ensures Shaped(r)
  {
    var j' := if Full(j.table, noRoom) then Flush(j) else j;
    j'.(table := Insert(j'.table, b))
  }

  lemma {:induction false} InsertEntry(j: Jit, b: Block, i: nat)
    requires Inv(j) && i < JC_SIZE
    ensures EntryOk(j.(table := Insert(j.table, b)), i)
  {
    hide Listed, HashIdx, LinksOk, Unique, PagesOk, HashOk;
    assert EntryOk(j, i);
    var x := j.jcache[i];
    if x.tag != ONES {
      InsertLists(j.table, b, x.code);
    }
  }

  lemma {:induction false} TranslateKeeps(j: Jit, b: Block, noRoom: bool)
    requires Inv(j) && Lookup(j.table, b.tag, b.host) == -1
    ensures
      var r := Translate(j, b, noRoom);
      Inv(r) && Listed(r.table, |r.table.arena| - 1) && r.table.arena[|r.table.arena| - 1] == b
  {
    hide EntryOk, Insert, Flush, BlockTable.Inv, Listed;
    FlushKeeps(j);
    var j' := if Full(j.table, noRoom) then Flush(j) else j;
    if Full(j.table, noRoom) {
      FreshMisses(j, b);
    }
    InsertKeeps(j'.table, b);
    forall i | 0 <= i < JC_SIZE ensures EntryOk(j'.(table := Insert(j'.table, b)), i) {
      InsertEntry(j', b, i);
    }
    LastIsListed(j'.table, b);
  }

  lemma FreshMisses(j: Jit, b: Block)
    requires Shaped(j)
    ensures HashOk(Flush(j).table) && Lookup(Flush(j).table, b.tag, b.host) == -1
  {
    hide Purge;
    FreshOk();
  }

  lemma {:induction false} LastIsListed(e: Table, b: Block)
    requires BlockTable.Inv(e)
    ensures Listed(Insert(e, b), |e.arena|) && Insert(e, b).arena == e.arena + [b]
  {
    hide HashIdx, PageIdx, Listed;
    InsertLists(e, b, |e.arena|);
  }

  /** Record a verified dispatch in the indirect-branch cache. */
  function Refill(j: Jit, pc: bv64, tag: bv64, code: int): (r: Jit)
    requires Shaped(j)
    ensures Shaped(r)
  {
    var k := JcIdx(pc);
    j.(jcache := j.jcache[k := JEntry(tag, code)],
    dirty := if j.ndirty < DIRTY_MAX then j.dirty[j.ndirty := k] else j.dirty,
    ndirty := if j.ndirty <= DIRTY_MAX then j.ndirty + 1 else j.ndirty)
  }

  lemma {:induction false} RefillEntry(j: Jit, pc: bv64, tag: bv64, code: int, i: nat)
    requires Inv(j) && Listed(j.table, code) && j.table.arena[code].tag == tag && i < JC_SIZE
    ensures EntryOk(Refill(j, pc, tag, code), i)
  {
    hide BlockTable.Inv, Listed, JcIdx;
    assert EntryOk(j, i);
    var r := Refill(j, pc, tag, code);
    if r.ndirty <= DIRTY_MAX {
      assert r.dirty[..r.ndirty] == j.dirty[..j.ndirty] + [JcIdx(pc)];
    }
  }

  lemma {:induction false} RefillKeeps(j: Jit, pc: bv64, tag: bv64, code: int)
    requires Inv(j) && Listed(j.table, code) && j.table.arena[code].tag == tag
    ensures Inv(Refill(j, pc, tag, code))
  {
    hide EntryOk, BlockTable.Inv, Listed, JcIdx;
    forall i | 0 <= i < JC_SIZE ensures EntryOk(Refill(j, pc, tag, code), i) {
      RefillEntry(j, pc, tag, code, i);
    }
  }

  lemma {:induction false} ChainJit(j: Jit, f: nat, second: bool, t: nat)
    requires Inv(j) && MayChain(j.table, f, second, t) && Listed(j.table, t)
    ensures Inv(j.(table := Chain(j.table, f, second, t)))
    ensures Listed(Chain(j.table, f, second, t), t)
  {
    hide BlockTable.Inv, HashIdx, MayChain;
    var j' := j.(table := Chain(j.table, f, second, t));
    ChainKeeps(j.table, f, second, t);
    forall i | 0 <= i < JC_SIZE ensures EntryOk(j', i) {
      assert EntryOk(j, i);
    }
  }

  /** The exit the last block left by, or none. */
  datatype Previous = Nothing | Left(block: nat, second: bool)

  /** What a dispatch has to hand: address, context, resolved code page, and the block a translation would build. */
  datatype Request = Request(pc: bv64, ctx: bv64, host: bv64, paPage: bv64, exit0: bv64, exit1: bv64, noRoom: bool)

  function Wanted(q: Request): Block {
    Block(q.pc, JitTag(q.pc, q.ctx), q.host, q.paPage, q.exit0, q.exit1)
  }

  /** Look up or translate: the table, the block, and the exit still worth chaining. */
  function Found(j: Jit, prev: Previous, q: Request): (Jit, int, Previous)
    requires Inv(j)
  {
    var i := Lookup(j.table, JitTag(q.pc, q.ctx), q.host);
    if i != -1 then (j, i, prev)
    else
      var j' := Translate(j, Wanted(q), q.noRoom);
      (j', |j'.table.arena| - 1, if Full(j.table, q.noRoom) then Nothing else prev)
  }

  lemma {:induction false} FoundIs(j: Jit, prev: Previous, q: Request)
    requires Inv(j)
    ensures
      var (j', i, _) := Found(j, prev, q);
      && Inv(j') && Listed(j'.table, i)
      && j'.table.arena[i].tag == JitTag(q.pc, q.ctx) && j'.table.arena[i].host == q.host
  {
    hide Translate, Lookup, Listed, EntryOk, JitTag, PagesOk;
    var i := Lookup(j.table, JitTag(q.pc, q.ctx), q.host);
    LookupFinds(j.table, JitTag(q.pc, q.ctx), q.host);
    if i == -1 {
      TranslateKeeps(j, Wanted(q), q.noRoom);
    }
  }

  /** One round of the dispatch loop up to entering the block. */
  function Dispatch(j: Jit, prev: Previous, q: Request): Jit
    requires Inv(j)
  {
    FoundIs(j, prev, q);
    var (j1, i, p) := Found(j, prev, q);
    var j2 :=
      if p.Left? && MayChain(j1.table, p.block, p.second, i) then j1.(table := Chain(j1.table, p.block, p.second, i))
      else j1;
    Refill(j2, q.pc, JitTag(q.pc, q.ctx), i)
  }

  lemma {:induction false} DispatchKeeps(j: Jit, prev: Previous, q: Request)
    requires Inv(j)
    ensures Inv(Dispatch(j, prev, q))
  {
    hide Found, Inv, MayChain, Refill, Listed, JitTag, Sized, HashOk;
    FoundIs(j, prev, q);
    var (j1, i, p) := Found(j, prev, q);
    InvParts(j1);
    if p.Left? && MayChain(j1.table, p.block, p.second, i) {
      ChainJit(j1, p.block, p.second, i);
      RefillKeeps(j1.(table := Chain(j1.table, p.block, p.second, i)), q.pc, JitTag(q.pc, q.ctx), i);
    } else {
      RefillKeeps(j1, q.pc, JitTag(q.pc, q.ctx), i);
    }
  }

  lemma InvParts(j: Jit)
    requires Inv(j)
    ensures Shaped(j) && BlockTable.Inv(j.table) && HashOk(j.table)
  {
  }

  /** Whether a dispatch finds the block, and whether translating it first empties a full table. */
  predicate Hits(j: Jit, q: Request)
    requires Inv(j)
  {
    Lookup(j.table, JitTag(q.pc, q.ctx), q.host) != -1
  }

  /**
   A dispatch that finds its block makes the exit it came by jump there, if that
   exit is of a listed block, still a stub, built for that address, on the same
   page and in the same context, and an edge is free; no other exit changes.
   */
  lemma {:induction false} DispatchChains(j: Jit, f: nat, second: bool, q: Request, g: nat, other: bool)
    requires Inv(j) && Hits(j, q) && Listed(j.table, f) && g < |j.table.arena|
    ensures
      var e, e', i := j.table, Dispatch(j, Left(f, second), q).table, Lookup(j.table, JitTag(q.pc, q.ctx), q.host);
      && |e'.jumps| == |e.jumps| && 0 <= i < |e.arena|
      && Target(e'.jumps[g], other) ==
         if g == f && other == second && Compatible(e.arena[f], second, e.arena[i])
           && Target(e.jumps[f], second) == -1 && e.nedges < 2 * MAX_BLOCKS
         then i else Target(e.jumps[g], other)
  {
    hide Translate, Lookup, Listed, EntryOk, JitTag, PagesOk, Compatible, JcIdx;
    var i := Lookup(j.table, JitTag(q.pc, q.ctx), q.host);
    LookupFinds(j.table, JitTag(q.pc, q.ctx), q.host);
    assert Listed(j.table, i);
    ListedBounds(j.table, i);
    LookupFinds(j.table, j.table.arena[f].tag, j.table.arena[f].host);
    assert Found(j, Left(f, second), q) == (j, i, Left(f, second));
  }

  lemma ListedBounds(e: BlockTable.Table, i: int)
    requires Sized(e) && Listed(e, i)
    ensures 0 <= i < |e.arena|
  {
  }

  lemma {:induction false} FoundLists(j: Jit, prev: Previous, q: Request, k: int)
    requires Inv(j)
    ensures
      var e, e' := j.table, Found(j, prev, q).0.table;
      Sized(e') &&
      if Hits(j, q) then e' == e
      else if Full(e, q.noRoom) then e'.arena == [Wanted(q)] && (Listed(e', k) <==> k == 0)
      else e'.arena == e.arena + [Wanted(q)] && (Listed(e', k) <==> Listed(e, k) || k == |e.arena|)
  {
    hide Lookup, Listed, Wanted, JitTag, Insert, HashIdx, Purge;
    FoundIs(j, prev, q);
    if !Hits(j, q) {
      if Full(j.table, q.noRoom) {
        FreshOk();
        InsertLists(BlockTable.Fresh(), Wanted(q), k);
        LastIsListed(BlockTable.Fresh(), Wanted(q));
        FreshLists(k);
      } else {
        InsertLists(j.table, Wanted(q), k);
        LastIsListed(j.table, Wanted(q));
      }
    }
  }

  lemma FreshLists(k: int)
    ensures !Listed(BlockTable.Fresh(), k)
  {
  }

  /** What a dispatch does to the set of listed blocks. */
  lemma {:induction false} DispatchLists(j: Jit, prev: Previous, q: Request, k: int)
    requires Inv(j)
    ensures
      var e, e' := j.table, Dispatch(j, prev, q).table;
      Sized(e') &&
      if Hits(j, q) then e'.arena == e.arena && (Listed(e', k) <==> Listed(e, k))
      else if Full(e, q.noRoom) then e'.arena == [Wanted(q)] && (Listed(e', k) <==> k == 0)
      else e'.arena == e.arena + [Wanted(q)] && (Listed(e', k) <==> Listed(e, k) || k == |e.arena|)
  {
    hide Inv, Hits, Full, Found, MayChain, JitTag, Wanted, HashIdx, JcIdx;
    FoundIs(j, prev, q);
    FoundLists(j, prev, q, k);
    var (j1, i, p) := Found(j, prev, q);
    InvParts(j1);
    InvParts(j);
    var e' := Dispatch(j, prev, q).table;
    assert e'.arena == j1.table.arena && e'.hash == j1.table.hash;
  }

  /** After a dispatch the block for the request is listed and the next indirect branch to it hits the cache. */
  lemma {:induction false} DispatchHits(j: Jit, prev: Previous, q: Request)
    requires Inv(j)
    ensures
      var j' := Dispatch(j, prev, q);
      var x := j'.jcache[JcIdx(q.pc)];
      && x.tag == JitTag(q.pc, q.ctx) && Listed(j'.table, x.code)
      && j'.table.arena[x.code].tag == x.tag && j'.table.arena[x.code].host == q.host
  {
    hide Inv, Found, MayChain, JitTag, HashIdx, JcIdx;
    FoundIs(j, prev, q);
    var (j1, i, p) := Found(j, prev, q);
    InvParts(j1);
  }

  // ---- Runs ----

  datatype Op =
    | Dispatched(prev: Previous, q: Request)
    | Dropped(pa: bv64)
    | Flushed
    | TlbMoved

  function Start(): (j: Jit)
    ensures Shaped(j)
  {
    Jit(BlockTable.Fresh(), seq(JC_SIZE, _ => JEntry(ONES, -1)), seq(DIRTY_MAX, _ => 0), 0)
  }

  ghost function Step(j: Jit, op: Op): Jit
    requires Inv(j)
  {
    match op
    case Dispatched(prev, q) => Dispatch(j, prev, q)
    case Dropped(pa) => DropPage(j, pa)
    case Flushed => Flush(j)
    case TlbMoved => Purge(j)
  }

  lemma {:induction false} StepKeeps(j: Jit, op: Op)
    requires Inv(j)
    ensures Inv(Step(j, op))
  {
    hide Inv, Dispatch, DropPage, Flush, Purge;
    match op
    case Dispatched(prev, q) => DispatchKeeps(j, prev, q);
    case Dropped(pa) => DropPageInv(j, pa);
    case Flushed => FlushKeeps(j);
    case TlbMoved => PurgeKeeps(j);
  }

  lemma StartOk()
    ensures Inv(Start())
  {
    hide BlockTable.Inv;
    FreshOk();
    EmptyOk(Start());
  }

  lemma StartMisses(q: Request)
    ensures Inv(Start()) && !Hits(Start(), q) && Start().table.arena == []
  {
    hide Inv, JitTag, HashIdx;
    StartOk();
    InvParts(Start());
  }

  ghost function Play(ops: seq<Op>): (j: Jit)
    ensures Inv(j)
  {
    if ops == [] then
      StartOk();
      Start()
    else
      StepKeeps(Play(ops[..|ops| - 1]), ops[|ops| - 1]);
      Step(Play(ops[..|ops| - 1]), ops[|ops| - 1])
  }

  /**
   In every run: a patched exit jumps to a block still in the table, with the pc,
   context and VA page it was built for; that block's incoming list has it, once,
   and no other list has it.
   */
  lemma {:induction false} PatchedExits(ops: seq<Op>, f: nat, second: bool)
    requires f < |Play(ops).table.arena| && Target(Play(ops).table.jumps[f], second) != -1
    ensures
      var e := Play(ops).table;
      var t := Target(e.jumps[f], second);
      && Listed(e, t) && Compatible(e.arena[f], second, e.arena[t])
      && Edge(f, second) in e.incoming[t] && Distinct(e.incoming[t])
      && forall u :: 0 <= u < |e.arena| && Edge(f, second) in e.incoming[u] ==> u == t
  {
    hide Play, Listed, Compatible, Distinct, Target, EntryOk, HashOk, Unique, PagesOk;
    var e := Play(ops).table;
    assert ExitOk(e, f, second);
    var t := Target(e.jumps[f], second);
    assert IncomingOk(e, t);
    forall u | 0 <= u < |e.arena| && Edge(f, second) in e.incoming[u] ensures u == t {
      assert IncomingOk(e, u);
    }
  }

  // ---- Keys in a run ----

  /** The key is that of the block's own address and some context. */
  predicate Keyed(b: Block) {
    Canonical(b.pc) && IsCtx(b.tag & 0x1f) && b.tag == JitTag(b.pc, b.tag & 0x1f)
  }

  lemma WantedKeyed(q: Request)
    requires Canonical(q.pc) && IsCtx(q.ctx)
    ensures Keyed(Wanted(q))
  {
    assert JitTag(q.pc, q.ctx) & 0x1f == q.ctx;
  }

  predicate Possible(op: Op) {
    op.Dispatched? ==> Canonical(op.q.pc) && IsCtx(op.q.ctx)
  }

  predicate AllKeyed(arena: seq<Block>) {
    forall i :: 0 <= i < |arena| ==> Keyed(arena[i])
  }

  lemma {:induction false} StepKeyed(j: Jit, op: Op)
    requires Inv(j) && AllKeyed(j.table.arena) && Possible(op)
    ensures AllKeyed(Step(j, op).table.arena)
  {
    hide Inv, Keyed, Canonical, IsCtx, JitTag, Hits, Full, Wanted, Dispatch, DropPage, Listed, Clear;
    InvParts(j);
    match op
    case Dispatched(prev, q) =>
      WantedKeyed(q);
      DispatchLists(j, prev, q, 0);
    case Dropped(pa) => DropArena(j, pa);
    case Flushed =>
    case TlbMoved =>
  }

  lemma {:induction false} DropArena(j: Jit, pa: bv64)
    requires Inv(j)
    ensures DropPage(j, pa).table.arena == j.table.arena
  {
    hide Inv, BlockTable.DropPage, PageIdx, Clear;
    InvParts(j);
    DropPageKeeps(j.table, pa);
  }

  lemma {:induction false} PlayKeyed(ops: seq<Op>)
    requires forall k :: 0 <= k < |ops| ==> Possible(ops[k])
    ensures AllKeyed(Play(ops).table.arena)
  {
    hide Inv, Step, Keyed, Possible;
    if ops != [] {
      PlayKeyed(ops[..|ops| - 1]);
      StepKeyed(Play(ops[..|ops| - 1]), ops[|ops| - 1]);
    }
  }

  /** In every run a probe of the indirect-branch cache hits only a listed block of that very address and context. */
  lemma {:induction false} ProbeHits(ops: seq<Op>, pc: bv64, ctx: bv64, i: nat)
    requires forall k :: 0 <= k < |ops| ==> Possible(ops[k])
    requires Canonical(pc) && IsCtx(ctx) && i < JC_SIZE
    requires Play(ops).jcache[i].tag == JitTag(pc, ctx)
    ensures
      var x := Play(ops).jcache[i];
      && Listed(Play(ops).table, x.code)
      && Play(ops).table.arena[x.code].pc == pc && Play(ops).table.arena[x.code].tag == JitTag(pc, ctx)
  {
    hide Play, Listed, BlockTable.Inv, JitTag, IsCtx, Canonical, Possible;
    CanonicalAligned(pc);
    TagNotEmpty(pc, ctx);
    var j := Play(ops);
    assert EntryOk(j, i);
    PlayKeyed(ops);
    var b := j.table.arena[j.jcache[i].code];
    assert Keyed(b);
    TagInjective(pc, ctx, b.pc, b.tag & 0x1f);
  }

  lemma CanonicalAligned(pc: bv64)
    requires Canonical(pc)
    ensures pc & 3 == 0
  {
  }
}
