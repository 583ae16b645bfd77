/**
 The history behind a listed block: the dispatch that translated it, and that no
 step since then wrote its page; told by the steps of the run, not by counters.
 */
module CodeHistory {
  import opened CodePages
  import opened TableWalk
  import opened Tlb
  import BlockTable
  import D = Dispatcher

  function Once(b: bool): nat {
    if b then 1 else 0
  }

  function Times(pages: seq<bv64>, q: bv64): nat {
    if pages == [] then 0 else Once(pages[0] == q) + Times(pages[1..], q)
  }

  /** How often a step writes a physical page. */
  ghost function WritesTo(m: Machine, op: Op, q: bv64): nat
    requires CodePages.Inv(m)
  {
    InvParts(m);
    match op
    case DoStore(c, tb, va, _, ok) =>
      if DataHit(m.caches, c, va, Write) then Once(m.caches.dtlb[Idx(va)].paPage == q)
      else
        var a := Tlb.Translate(m.caches, c, tb, va, Write);
        Once(a.Address? && ok && Page(a.pa) == q)
    case DoBlockWrite(pages) => Times(pages, q)
    case _ => 0
  }

  // ---- Counting ----

  lemma {:induction false} InvalidateSame(m: Machine, p: bv64)
    requires D.Inv(m.jit)
    ensures
      var m' := Invalidate(m, p);
      m'.writes == m.writes && m'.stamps == m.stamps && m'.jit.table.arena == m.jit.table.arena
  {
    hide D.Inv, D.DropPage, BlockTable.Listed;
    DropPageLists(m.jit, p, 0);
  }

  lemma {:induction false} CommitSame(m: Machine, c: Cpu, va: bv64, pa: bv64, watched: bool, q: bv64)
    requires CodePages.Inv(m)
    ensures
      var m' := Commit(m, c, va, pa, watched);
      && m'.writes(q) == m.writes(q) + Once(Page(pa) == q) && m'.stamps == m.stamps
      && m'.jit.table.arena == m.jit.table.arena
  {
    hide CodePages.Inv, Invalidate, DataFill, Page, MediumAt, D.Inv, Sized;
    InvParts(m);
    InvalidateSame(Wrote(m, Page(pa)), Page(pa));
  }

  lemma {:induction false} InvalidateAllSame(m: Machine, pages: seq<bv64>)
    requires CodePages.Inv(m)
    ensures
      var m' := InvalidateAll(m, pages);
      m'.writes == m.writes && m'.stamps == m.stamps && m'.jit.table.arena == m.jit.table.arena
    decreases |pages|
  {
    hide CodePages.Inv, Invalidate;
    if pages != [] {
      InvParts(m);
      InvalidateKeeps(m, pages[0]);
      InvalidateSame(m, pages[0]);
      InvalidateAllSame(Invalidate(m, pages[0]), pages[1..]);
    }
  }

  lemma {:induction false} WroteAllCounts(m: Machine, pages: seq<bv64>, q: bv64)
    ensures
      var m' := WroteAll(m, pages);
      m'.writes(q) == m.writes(q) + Times(pages, q) && m'.stamps == m.stamps && m'.jit == m.jit
    decreases |pages|
  {
    if pages != [] {
      WroteAllCounts(Wrote(m, pages[0]), pages[1..], q);
    }
  }

  /** A step adds to a page's count what it writes there. */
  lemma {:induction false} StepCounts(m: Machine, op: Op, q: bv64)
    requires CodePages.Inv(m)
    ensures CodePages.Step(m, op).writes(q) == m.writes(q) + WritesTo(m, op, q)
  {
    hide CodePages.Inv, Commit, Translated, Tlb.Translate, DataHit, InvalidateAll, WroteAll, Invalidate, D.Dispatch,
      D.Hits, D.Full, Fetched, FlushPage, FlushAll, Accessed, Strip, D.Flush, D.Purge, Page, Idx;
    InvParts(m);
    match op
    case DoStore(c, tb, va, watched, ok) =>
      var a := Tlb.Translate(m.caches, c, tb, va, Write);
      if !DataHit(m.caches, c, va, Write) && a.Address? && ok {
        var s := Translated(m.caches, c, tb, va, Write);
        TranslatedData(m.caches, c, tb, va, Write);
        NewCaches(m, s);
        CommitSame(m.(caches := s), c, va, a.pa, watched, q);
      }
    case DoBlockWrite(pages) =>
      InvalidateAllSame(m, pages);
      WroteAllCounts(InvalidateAll(m, pages), pages, q);
    case DoInvalidate(page) => InvalidateSame(m, page);
    case _ =>
  }

  // ---- Listing ----

  lemma {:induction false} InvalidateLists(m: Machine, p: bv64, i: int)
    requires D.Inv(m.jit) && BlockTable.Sized(m.jit.table)
    ensures BlockTable.Sized(Invalidate(m, p).jit.table)
    ensures Listed(Invalidate(m, p), i) ==> Listed(m, i)
    ensures Listed(m, i) && !Listed(Invalidate(m, p), i) ==> Blocks(m)[i].paPage == p
  {
    hide D.Inv, D.DropPage, BlockTable.Listed;
    DropPageLists(m.jit, p, i);
    D.DropPageInv(m.jit, p);
    D.InvParts(D.DropPage(m.jit, p));
  }

  lemma {:induction false} CommitLists(m: Machine, c: Cpu, va: bv64, pa: bv64, watched: bool, i: int)
    requires CodePages.Inv(m)
    ensures
      var m' := Commit(m, c, va, pa, watched);
      && BlockTable.Sized(m.jit.table) && BlockTable.Sized(m'.jit.table) && m'.ram == m.ram
      && (Listed(m', i) ==> Listed(m, i)) && (Listed(m, i) && !Listed(m', i) ==> Blocks(m)[i].paPage == Page(pa))
  {
    hide CodePages.Inv, Invalidate, DataFill, Page, MediumAt, D.Inv, Sized, BlockTable.Listed;
    InvParts(m);
    InvalidateLists(Wrote(m, Page(pa)), Page(pa), i);
    InvalidateRam(Wrote(m, Page(pa)), Page(pa));
  }

  lemma InvalidateRam(m: Machine, p: bv64)
    requires D.Inv(m.jit)
    ensures Invalidate(m, p).ram == m.ram
  {
    hide D.Inv, D.DropPage;
  }

  lemma {:induction false} InvalidateAllLists(m: Machine, pages: seq<bv64>, i: int)
    requires CodePages.Inv(m)
    ensures
      var m' := InvalidateAll(m, pages);
      && BlockTable.Sized(m.jit.table) && BlockTable.Sized(m'.jit.table) && m'.ram == m.ram
      && (Listed(m', i) ==> Listed(m, i)) && (Listed(m, i) && !Listed(m', i) ==> Blocks(m)[i].paPage in pages)
    decreases |pages|
  {
    hide CodePages.Inv, Invalidate, BlockTable.Listed;
    InvParts(m);
    if pages != [] {
      InvalidateKeeps(m, pages[0]);
      InvalidateLists(m, pages[0], i);
      InvalidateSame(m, pages[0]);
      InvalidateAllLists(Invalidate(m, pages[0]), pages[1..], i);
    }
  }

  /** The step translates, and the new block gets this index. */
  ghost predicate Fresh(m: Machine, op: Op, i: int)
    requires CodePages.Inv(m)
  {
    InvParts(m);
    && op.DoDispatch? && !D.Hits(m.jit, op.q)
    && i == if D.Full(m.jit.table, op.q.noRoom) then 0 else |Blocks(m)|
  }

  /** What may take a block off the list. */
  ghost predicate Drops(m: Machine, op: Op, p: bv64)
    requires CodePages.Inv(m)
  {
    InvParts(m);
    || op.DoFlush? || op.DoReset? || op == DoInvalidate(p) || (op.DoBlockWrite? && p in op.pages)
    || (op.DoDispatch? && !D.Hits(m.jit, op.q) && D.Full(m.jit.table, op.q.noRoom))
    || (op.DoStore? && WritesTo(m, op, p) > 0)
  }

  lemma {:induction false} StoreLists(m: Machine, op: Op, i: int)
    requires CodePages.Inv(m) && op.DoStore?
    ensures
      var m' := CodePages.Step(m, op);
      && BlockTable.Sized(m.jit.table) && BlockTable.Sized(m'.jit.table) && m'.ram == m.ram
      && m'.stamps == m.stamps && Blocks(m') == Blocks(m)
      && (Listed(m', i) ==> Listed(m, i))
      && (Listed(m, i) && !Listed(m', i) ==> WritesTo(m, op, Blocks(m)[i].paPage) > 0)
  {
    hide CodePages.Inv, Commit, Translated, Tlb.Translate, DataHit, Page, Idx, BlockTable.Listed;
    InvParts(m);
    var a := Tlb.Translate(m.caches, op.c, op.tb, op.va, Write);
    if !DataHit(m.caches, op.c, op.va, Write) && a.Address? && op.ok {
      var s := Translated(m.caches, op.c, op.tb, op.va, Write);
      TranslatedData(m.caches, op.c, op.tb, op.va, Write);
      NewCaches(m, s);
      CommitSame(m.(caches := s), op.c, op.va, a.pa, op.watched, 0);
      CommitLists(m.(caches := s), op.c, op.va, a.pa, op.watched, i);
    }
  }

  lemma {:induction false} DispatchListed(m: Machine, op: Op, i: int)
    requires CodePages.Inv(m) && op.DoDispatch?
    ensures
      var m' := CodePages.Step(m, op);
      && BlockTable.Sized(m.jit.table) && BlockTable.Sized(m'.jit.table) && m'.ram == m.ram
      && |m'.stamps| == |Blocks(m')| && |m.stamps| == |Blocks(m)|
      && (Fresh(m, op, i) ==> Listed(m', i) && Blocks(m')[i] == D.Wanted(op.q) && m'.stamps[i] == m.writes(op.q.paPage))
      && (Listed(m', i) && !Fresh(m, op, i) ==>
            Listed(m, i) && Blocks(m')[i] == Blocks(m)[i] && m'.stamps[i] == m.stamps[i])
      && (Listed(m, i) && !Listed(m', i) ==> Drops(m, op, Blocks(m)[i].paPage))
  {
    hide CodePages.Inv, D.Inv, D.Dispatch, D.Hits, D.Full, BlockTable.Listed, Strip, D.Wanted, WritesTo;
    InvParts(m);
    D.DispatchLists(m.jit, op.prev, op.q, i);
    DispatchedKeeps(m, op.prev, op.q);
    InvParts(CodePages.Step(m, op));
  }

  /** A listed block was listed before as it is, with its stamp, or this step translated it. */
  lemma {:induction false} StepBlocks(m: Machine, op: Op, i: int)
    requires CodePages.Inv(m)
    ensures
      var m' := CodePages.Step(m, op);
      && BlockTable.Sized(m.jit.table) && BlockTable.Sized(m'.jit.table) && m'.ram == m.ram
      && |m'.stamps| == |Blocks(m')| && |m.stamps| == |Blocks(m)|
      && (Fresh(m, op, i) ==> Listed(m', i) && Blocks(m')[i] == D.Wanted(op.q) && m'.stamps[i] == m.writes(op.q.paPage))
      && (Listed(m', i) && !Fresh(m, op, i) ==>
            Listed(m, i) && Blocks(m')[i] == Blocks(m)[i] && m'.stamps[i] == m.stamps[i])
      && (Listed(m, i) && !Listed(m', i) ==> Drops(m, op, Blocks(m)[i].paPage))
  {
    hide CodePages.Inv, Store, InvalidateAll, WroteAll, Invalidate, Dispatched, D.Hits, D.Full, Fetched, FlushPage,
      FlushAll, Accessed, D.Purge, BlockTable.Listed, WritesTo, Tlb.Translate;
    InvParts(m);
    CodePages.StepKeeps(m, op);
    InvParts(CodePages.Step(m, op));
    match op
    case DoStore(_, _, _, _, _) => StoreLists(m, op, i);
    case DoDispatch(_, _) => DispatchListed(m, op, i);
    case DoBlockWrite(pages) =>
      InvalidateAllSame(m, pages);
      InvalidateAllLists(m, pages, i);
      WroteAllCounts(InvalidateAll(m, pages), pages, 0);
      WroteAllRam(InvalidateAll(m, pages), pages);
    case DoInvalidate(page) =>
      InvalidateSame(m, page);
      InvalidateLists(m, page, i);
      InvalidateRam(m, page);
    case DoFlush => Emptied(m, false, i);
    case DoReset => Emptied(m, true, i);
    case DoPurge => PurgedTable(m.jit);
    case _ =>
  }

  lemma {:induction false} WroteAllRam(m: Machine, pages: seq<bv64>)
    ensures WroteAll(m, pages).ram == m.ram
    decreases |pages|
  {
    if pages != [] {
      WroteAllRam(Wrote(m, pages[0]), pages[1..]);
    }
  }

  lemma PurgedTable(j: D.Jit)
    requires D.Shaped(j)
    ensures D.Purge(j).table == j.table
  {
  }

  lemma Emptied(m: Machine, reset: bool, i: int)
    requires CodePages.Inv(m)
    ensures
      var m' := FlushCode(m, reset);
      BlockTable.Sized(m'.jit.table) && !Listed(m', i) && m'.ram == m.ram
  {
    hide D.Purge;
    InvParts(m);
  }

  // ---- History ----

  lemma {:induction false} PlayRam(ram: set<bv64>, writes: bv64 -> int, ops: seq<Op>)
    ensures CodePages.Play(ram, writes, ops).ram == ram
    decreases |ops|
  {
    hide CodePages.Inv, CodePages.Step, Fresh, Drops;
    if ops != [] {
      var n := |ops| - 1;
      PlayRam(ram, writes, ops[..n]);
      StepBlocks(CodePages.Play(ram, writes, ops[..n]), ops[n], 0);
    }
  }

  /**
   Whatever the dispatcher can reach on a RAM page was put there by one dispatch
   of the run, and no later step wrote that page.
   */
  lemma {:induction false} NotWrittenSince(ram: set<bv64>, writes: bv64 -> int, ops: seq<Op>, i: int) returns (t: nat)
    requires BlockTable.Sized(CodePages.Play(ram, writes, ops).jit.table)
    requires Listed(CodePages.Play(ram, writes, ops), i)
    requires Blocks(CodePages.Play(ram, writes, ops))[i].paPage in ram
    ensures t < |ops| && ops[t].DoDispatch?
    ensures Blocks(CodePages.Play(ram, writes, ops))[i] == D.Wanted(ops[t].q)
    ensures forall k :: t < k < |ops| ==> WritesTo(CodePages.Play(ram, writes, ops[..k]), ops[k], ops[t].q.paPage) == 0
    decreases |ops|
  {
    hide CodePages.Inv, CodePages.Step, WritesTo, D.Wanted, Drops, BlockTable.Listed;
    var n := |ops| - 1;
    if ops == [] {
      NothingListed(ram, writes, i);
    } else {
      var m := CodePages.Play(ram, writes, ops[..n]);
      StepBlocks(m, ops[n], i);
      PlayRam(ram, writes, ops[..n]);
      PlayRam(ram, writes, ops);
      if Fresh(m, ops[n], i) {
        t := n;
      } else {
        t := NotWrittenSince(ram, writes, ops[..n], i);
        WantedPage(ops[t].q);
        CodePages.ListedIsCurrent(ram, writes, ops[..n], i);
        CodePages.ListedIsCurrent(ram, writes, ops, i);
        StepCounts(m, ops[n], ops[t].q.paPage);
        Prefixes(ops, n);
      }
    }
  }

  lemma Prefixes(ops: seq<Op>, n: nat)
    requires n <= |ops|
    ensures forall k :: 0 <= k <= n ==> ops[..n][..k] == ops[..k]
  {
  }

  lemma NothingListed(ram: set<bv64>, writes: bv64 -> int, i: int)
    requires BlockTable.Sized(CodePages.Play(ram, writes, []).jit.table)
    ensures !Listed(CodePages.Play(ram, writes, []), i)
  {
  }
}
