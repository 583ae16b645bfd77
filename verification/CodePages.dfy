/**
 Self-modifying code: the code-page bitmap, the D-TLB's refusal of W on marked
 pages and the store hooks together keep every listed block current with the
 page it was translated from.
 */
module CodePages {
  import BlockTable
  import D = Dispatcher
  import opened TableWalk
  import opened Tlb

  /**
   stamps records, per block, how many writes its page had seen when it was
   translated; writes counts them now. coded is the bitmap.
   */
  datatype Machine = Machine(
    jit: D.Jit,
    stamps: seq<int>,
    caches: Caches,
    ram: set<bv64>,
    coded: set<bv64>,
    writes: bv64 -> int)

  function Blocks(m: Machine): seq<BlockTable.Block> {
    m.jit.table.arena
  }

  predicate Listed(m: Machine, i: int): (r: bool)
    requires BlockTable.Sized(m.jit.table)
    ensures r ==> 0 <= i < |Blocks(m)|
  {
    BlockTable.Listed(m.jit.table, i)
  }

  /** A listed block on a RAM page is marked, and no write has reached the page since. */
  predicate BlockOk(m: Machine, i: int)
    requires BlockTable.Sized(m.jit.table) && |m.stamps| == |Blocks(m)|
  {
    Listed(m, i) && Blocks(m)[i].paPage in m.ram ==>
      Blocks(m)[i].paPage in m.coded && m.stamps[i] == m.writes(Blocks(m)[i].paPage)
  }

  /** No entry lets stores past the hook on a marked page. */
  ghost predicate WritesGuarded(dtlb: seq<DataEntry>, ram: set<bv64>, coded: set<bv64>) {
    forall k :: 0 <= k < |dtlb| && dtlb[k].w ==> dtlb[k].paPage in ram && dtlb[k].paPage !in coded
  }

  ghost predicate Inv(m: Machine) {
    && D.Inv(m.jit) && Sized(m.caches) && |m.stamps| == |Blocks(m)|
    && m.coded <= m.ram
    && (forall i :: BlockOk(m, i))
    && WritesGuarded(m.caches.dtlb, m.ram, m.coded)
  }

  // ---- Invalidation ----

  /** One page of jit_invalidate_phys_range. */
  function Invalidate(m: Machine, p: bv64): Machine
    requires D.Inv(m.jit)
  {
    if p in m.ram && p !in m.coded then m
    else m.(jit := D.DropPage(m.jit, p), coded := m.coded - {p})
  }

  lemma {:induction false} DropPageLists(j: D.Jit, p: bv64, i: int)
    requires D.Inv(j)
    ensures BlockTable.Sized(j.table) && D.DropPage(j, p).table.arena == j.table.arena
    ensures
      BlockTable.Listed(D.DropPage(j, p).table, i) <==> BlockTable.Listed(j.table, i) && j.table.arena[i].paPage != p
  {
    hide D.Inv, BlockTable.Listed, BlockTable.DropPage, BlockTable.Inv, D.Clear, BlockTable.PageIdx;
    D.InvParts(j);
    BlockTable.DropPageLists(j.table, p, i);
  }

  /** After it no listed block lies on the page, so writing there is safe. */
  lemma {:induction false} InvalidateKeeps(m: Machine, p: bv64)
    requires Inv(m)
    ensures
      var m' := Invalidate(m, p);
      && Inv(m') && m'.caches == m.caches && m'.ram == m.ram && m'.writes == m.writes
      && m'.coded == m.coded - {p}
      && (p in m.ram ==> forall i :: Listed(m', i) ==> Blocks(m')[i].paPage != p)
  {
    hide D.Inv, D.DropPage, BlockTable.Listed, Sized, WritesGuarded;
    D.InvParts(m.jit);
    D.DropPageInv(m.jit, p);
    DropPageLists(m.jit, p, 0);
    var m' := Invalidate(m, p);
    FewerGuarded(m.caches.dtlb, m.ram, m.coded, m.coded - {p});
    forall i ensures BlockOk(m', i) && (p in m.ram && Listed(m', i) ==> Blocks(m')[i].paPage != p) {
      assert BlockOk(m, i);
      DropPageLists(m.jit, p, i);
    }
  }

  function InvalidateAll(m: Machine, pages: seq<bv64>): (r: Machine)
    requires Inv(m)
    ensures Inv(r)
    decreases |pages|
  {
    if pages == [] then m
    else
      InvalidateKeeps(m, pages[0]);
      InvalidateAll(Invalidate(m, pages[0]), pages[1..])
  }

  lemma {:induction false} InvalidateAllMeans(m: Machine, pages: seq<bv64>)
    requires Inv(m)
    ensures
      var m' := InvalidateAll(m, pages);
      && m'.caches == m.caches && m'.ram == m.ram && m'.writes == m.writes
      && m'.coded <= m.coded && (forall p :: p in pages ==> p !in m'.coded)
    decreases |pages|
  {
    hide Inv, Invalidate;
    if pages != [] {
      InvParts(m);
      InvalidateKeeps(m, pages[0]);
      InvalidateAllMeans(Invalidate(m, pages[0]), pages[1..]);
    }
  }

  // ---- Stores ----

  function Wrote(m: Machine, p: bv64): Machine {
    m.(writes := (q: bv64) => if q == p then m.writes(q) + 1 else m.writes(q))
  }

  /** A write to an unmarked page disturbs no listed block. */
  lemma {:induction false} WroteUnmarked(m: Machine, p: bv64)
    requires Inv(m) && p !in m.coded
    ensures Inv(Wrote(m, p))
  {
    hide D.Inv, Sized, BlockTable.Listed;
    D.InvParts(m.jit);
    var m' := Wrote(m, p);
    forall i ensures BlockOk(m', i) {
      assert BlockOk(m, i);
    }
  }

  function MediumAt(m: Machine, pa: bv64, watched: bool, ok: bool): Medium {
    Medium(Page(pa) in m.ram, Page(pa) in m.coded, watched, ok)
  }

  /** Only the hit slot or none changes when a D-TLB entry is filled, and never with W on a marked page. */
  lemma {:induction false} FillGuarded(m: Machine, s: Caches, c: Cpu, va: bv64, pa: bv64, watched: bool, ok: bool)
    requires Sized(s) && WritesGuarded(s.dtlb, m.ram, m.coded)
    ensures Sized(DataFill(s, c, va, pa, MediumAt(m, pa, watched, ok)))
    ensures WritesGuarded(DataFill(s, c, va, pa, MediumAt(m, pa, watched, ok)).dtlb, m.ram, m.coded)
  {
    hide Idx, Page, PermOk, Tag;
  }

  lemma {:induction false} TranslatedData(s: Caches, c: Cpu, tb: Tables, va: bv64, acc: Access)
    requires Sized(s)
    ensures Sized(Translated(s, c, tb, va, acc)) && Translated(s, c, tb, va, acc).dtlb == s.dtlb
  {
    hide TlbHit, Idx, Page, TableWalk.Walk;
    TranslatedSized(s, c, tb, va, acc);
  }

  lemma {:induction false} NewCaches(m: Machine, s: Caches)
    requires Inv(m) && Sized(s) && WritesGuarded(s.dtlb, m.ram, m.coded)
    ensures Inv(m.(caches := s))
  {
    hide D.Inv, Sized, BlockTable.Listed, WritesGuarded;
    D.InvParts(m.jit);
    forall i ensures BlockOk(m.(caches := s), i) {
      assert BlockOk(m, i);
    }
  }

  /** The committed half of mem_write's slow path: write, hook, refill. */
  function Commit(m: Machine, c: Cpu, va: bv64, pa: bv64, watched: bool): Machine
    requires Inv(m)
  {
    var p := Page(pa);
    var m1 := Wrote(m, p);
    var m2 := if p in m.coded then Invalidate(m1, p) else m1;
    m2.(caches := DataFill(m2.caches, c, va, pa, MediumAt(m2, pa, watched, true)))
  }

  /** Writing before or after dropping the page is the same. */
  lemma {:induction false} CommitOrder(m: Machine, p: bv64)
    requires Inv(m) && p in m.coded
    ensures
      var a, b := Invalidate(Wrote(m, p), p), Wrote(Invalidate(m, p), p);
      a.jit == b.jit && a.stamps == b.stamps && a.caches == b.caches && a.ram == b.ram && a.coded == b.coded
      && forall q :: a.writes(q) == b.writes(q)
  {
    hide D.Inv, D.DropPage;
  }

  lemma {:induction false} SameWrites(a: Machine, b: Machine)
    requires a.jit == b.jit && a.stamps == b.stamps && a.caches == b.caches && a.ram == b.ram && a.coded == b.coded
    requires forall q :: a.writes(q) == b.writes(q)
    requires Inv(b)
    ensures Inv(a)
  {
    hide D.Inv, Sized, BlockTable.Listed;
    D.InvParts(b.jit);
    forall i ensures BlockOk(a, i) {
      assert BlockOk(b, i);
    }
  }

  lemma {:induction false} CommitKeeps(m: Machine, c: Cpu, va: bv64, pa: bv64, watched: bool)
    requires Inv(m)
    ensures Inv(Commit(m, c, va, pa, watched))
  {
    hide Inv, Invalidate, DataFill, Page, WritesGuarded, MediumAt, D.Inv, Sized;
    var p := Page(pa);
    InvParts(m);
    var m1 := Wrote(m, p);
    var m2 := if p in m.coded then Invalidate(m1, p) else m1;
    if p in m.coded {
      InvalidateKeeps(m, p);
      WroteUnmarked(Invalidate(m, p), p);
      CommitOrder(m, p);
      SameWrites(m2, Wrote(Invalidate(m, p), p));
    } else {
      WroteUnmarked(m, p);
    }
    InvParts(m2);
    FillGuarded(m2, m2.caches, c, va, pa, watched, true);
    NewCaches(m2, DataFill(m2.caches, c, va, pa, MediumAt(m2, pa, watched, true)));
  }

  lemma InvParts(m: Machine)
    requires Inv(m)
    ensures D.Inv(m.jit) && Sized(m.caches) && BlockTable.Sized(m.jit.table) && |m.stamps| == |Blocks(m)|
    ensures WritesGuarded(m.caches.dtlb, m.ram, m.coded)
  {
  }

  /**
   A guest store inside a page: mem_write, one line of DC ZVA or one chunk of a
   memory copy or set, by D-TLB hit or by the slow path.
   */
  function Store(m: Machine, c: Cpu, tb: Tables, va: bv64, watched: bool, ok: bool): Machine
    requires Inv(m)
  {
    if DataHit(m.caches, c, va, Write) then Wrote(m, m.caches.dtlb[Idx(va)].paPage)
    else
      var s := Translated(m.caches, c, tb, va, Write);
      TranslatedData(m.caches, c, tb, va, Write);
      NewCaches(m, s);
      match Translate(m.caches, c, tb, va, Write)
      case Abort(_) => m.(caches := s)
      case Address(pa) => if ok then Commit(m.(caches := s), c, va, pa, watched) else m.(caches := s)
  }

  lemma {:induction false} StoreKeeps(m: Machine, c: Cpu, tb: Tables, va: bv64, watched: bool, ok: bool)
    requires Inv(m)
    ensures Inv(Store(m, c, tb, va, watched, ok))
  {
    hide Inv, Wrote, Commit, Translated, Translate;
    InvParts(m);
    if DataHit(m.caches, c, va, Write) {
      HitIsUnmarked(m, c, va);
      WroteUnmarked(m, m.caches.dtlb[Idx(va)].paPage);
    } else {
      var s := Translated(m.caches, c, tb, va, Write);
      TranslatedData(m.caches, c, tb, va, Write);
      NewCaches(m, s);
      var a := Translate(m.caches, c, tb, va, Write);
      if a.Address? && ok {
        CommitKeeps(m.(caches := s), c, va, a.pa, watched);
      }
    }
  }

  lemma HitIsUnmarked(m: Machine, c: Cpu, va: bv64)
    requires Sized(m.caches) && WritesGuarded(m.caches.dtlb, m.ram, m.coded) && DataHit(m.caches, c, va, Write)
    ensures m.caches.dtlb[Idx(va)].paPage !in m.coded
  {
    hide Tag, Idx;
  }

  // ---- Loads, fetches, invalidations of translations ----

  function Load(m: Machine, c: Cpu, tb: Tables, va: bv64, fits: bool, watched: bool, ok: bool): Machine
    requires Sized(m.caches)
  {
    var a := Translate(m.caches, c, tb, va, Read);
    m.(caches := Accessed(m.caches, c, tb, va, Read, fits, MediumAt(m, if a.Address? then a.pa else va, watched, ok)))
  }

  lemma {:induction false} LoadKeeps(m: Machine, c: Cpu, tb: Tables, va: bv64, fits: bool, watched: bool, ok: bool)
    requires Inv(m)
    ensures Inv(Load(m, c, tb, va, fits, watched, ok))
  {
    hide Inv, Translated, Translate, DataHit, DataFill, WritesGuarded, Page;
    InvParts(m);
    var a := Translate(m.caches, c, tb, va, Read);
    var s := Translated(m.caches, c, tb, va, Read);
    TranslatedData(m.caches, c, tb, va, Read);
    if a.Address? {
      FillGuarded(m, s, c, va, a.pa, watched, ok);
    }
    NewCaches(m, Load(m, c, tb, va, fits, watched, ok).caches);
  }

  lemma {:induction false} FetchGuarded(s: Caches, c: Cpu, tb: Tables, va: bv64, backed: bool)
    requires Sized(s)
    ensures Sized(Fetched(s, c, tb, va, backed)) && Fetched(s, c, tb, va, backed).dtlb == s.dtlb
  {
    hide Translated, Translate, FetchHit, Page;
    FetchedSized(s, c, tb, va, backed);
    TranslatedData(s, c, tb, va, Execute);
  }

  lemma {:induction false} FlushGuarded(s: Caches, va: bv64, ram: set<bv64>, coded: set<bv64>)
    requires Sized(s) && WritesGuarded(s.dtlb, ram, coded)
    ensures Sized(FlushAll(s)) && WritesGuarded(FlushAll(s).dtlb, ram, coded)
    ensures Sized(FlushPage(s, va)) && WritesGuarded(FlushPage(s, va).dtlb, ram, coded)
  {
    hide Idx, Next, SliceWraps, NoFetch;
    FlushSized(s, va);
  }

  // ---- Device writes ----

  function WroteAll(m: Machine, pages: seq<bv64>): Machine
    decreases |pages|
  {
    if pages == [] then m else WroteAll(Wrote(m, pages[0]), pages[1..])
  }

  /** phys_write_blk over the pages it covers: invalidate them all, then write. */
  function BlockWrite(m: Machine, pages: seq<bv64>): Machine
    requires Inv(m)
  {
    WroteAll(InvalidateAll(m, pages), pages)
  }

  lemma {:induction false} WroteAllKeeps(m: Machine, pages: seq<bv64>)
    requires Inv(m) && forall p :: p in pages ==> p !in m.coded
    ensures Inv(WroteAll(m, pages))
    decreases |pages|
  {
    hide Inv;
    if pages != [] {
      WroteUnmarked(m, pages[0]);
      WroteAllKeeps(Wrote(m, pages[0]), pages[1..]);
    }
  }

  lemma {:induction false} BlockWriteKeeps(m: Machine, pages: seq<bv64>)
    requires Inv(m)
    ensures Inv(BlockWrite(m, pages))
  {
    hide Inv, InvalidateAll, WroteAll;
    InvalidateAllMeans(m, pages);
    WroteAllKeeps(InvalidateAll(m, pages), pages);
  }

  // ---- Translation ----

  /** Take W from every entry that points at the page. */
  function Strip(dtlb: seq<DataEntry>, p: bv64): (r: seq<DataEntry>)
    ensures |r| == |dtlb|
    ensures forall k :: 0 <= k < |r| ==> r[k] == if dtlb[k].paPage == p then dtlb[k].(w := false) else dtlb[k]
  {
    seq(|dtlb|, k requires 0 <= k < |dtlb| => if dtlb[k].paPage == p then dtlb[k].(w := false) else dtlb[k])
  }

  /** A dispatch; a new translation stamps its block and, on a page not yet marked, marks it and strips W. */
  function Dispatched(m: Machine, prev: D.Previous, q: D.Request): Machine
    requires Inv(m)
  {
    var jit := D.Dispatch(m.jit, prev, q);
    var p := q.paPage;
    if D.Hits(m.jit, q) then m.(jit := jit)
    else
      var m' := m.(jit := jit,
        stamps := (if D.Full(m.jit.table, q.noRoom) then [] else m.stamps) + [m.writes(p)]);
      if p in m.coded then m'
      else
        m'.(coded := if p in m.ram then m.coded + {p} else m.coded,
        caches := m.caches.(dtlb := Strip(m.caches.dtlb, p)))
  }

  lemma {:induction false} DispatchedBlock(m: Machine, prev: D.Previous, q: D.Request, i: int)
    requires Inv(m)
    ensures
      var m' := Dispatched(m, prev, q);
      BlockTable.Sized(m'.jit.table) && |m'.stamps| == |Blocks(m')| && BlockOk(m', i)
  {
    hide D.Inv, D.Dispatch, D.Hits, D.Full, BlockTable.Listed, Sized, WritesGuarded, Strip;
    D.InvParts(m.jit);
    D.DispatchLists(m.jit, prev, q, i);
    assert BlockOk(m, i);
    WantedPage(q);
  }

  lemma WantedPage(q: D.Request)
    ensures D.Wanted(q).paPage == q.paPage
  {
  }

  lemma {:induction false} StripGuarded(dtlb: seq<DataEntry>, ram: set<bv64>, coded: set<bv64>, p: bv64)
    requires WritesGuarded(dtlb, ram, coded)
    ensures WritesGuarded(Strip(dtlb, p), ram, coded + {p})
  {
  }

  lemma {:induction false} FewerGuarded(dtlb: seq<DataEntry>, ram: set<bv64>, coded: set<bv64>, fewer: set<bv64>)
    requires WritesGuarded(dtlb, ram, coded) && fewer <= coded
    ensures WritesGuarded(dtlb, ram, fewer)
  {
  }

  lemma {:induction false} DispatchedKeeps(m: Machine, prev: D.Previous, q: D.Request)
    requires Inv(m)
    ensures Inv(Dispatched(m, prev, q))
  {
    hide D.Inv, D.Dispatch, D.Hits, D.Full, BlockOk, WritesGuarded, Strip, LargePages.Valid;
    var m' := Dispatched(m, prev, q);
    D.DispatchKeeps(m.jit, prev, q);
    forall i ensures BlockTable.Sized(m'.jit.table) && |m'.stamps| == |Blocks(m')| && BlockOk(m', i) {
      DispatchedBlock(m, prev, q, i);
    }
    DispatchedBlock(m, prev, q, 0);
    StripGuarded(m.caches.dtlb, m.ram, m.coded, q.paPage);
    FewerGuarded(Strip(m.caches.dtlb, q.paPage), m.ram, m.coded + {q.paPage}, m.coded);
  }

  // ---- Runs ----

  datatype Op =
    | DoStore(c: Cpu, tb: Tables, va: bv64, watched: bool, ok: bool)
    | DoLoad(c: Cpu, tb: Tables, va: bv64, fits: bool, watched: bool, ok: bool)
    | DoFetch(c: Cpu, tb: Tables, va: bv64, backed: bool)
    | DoTlbi(va: bv64)
    | DoTlbiAll
    | DoBlockWrite(pages: seq<bv64>)
    | DoInvalidate(page: bv64)
    | DoDispatch(prev: D.Previous, q: D.Request)
    | DoFlush
    | DoPurge
    | DoReset

  /** jit_reset also clears the bitmap; a flush for room does not. */
  function FlushCode(m: Machine, reset: bool): Machine
    requires D.Shaped(m.jit)
  {
    m.(jit := D.Flush(m.jit), stamps := [], coded := if reset then {} else m.coded)
  }

  lemma {:induction false} FlushCodeKeeps(m: Machine, reset: bool)
    requires Inv(m)
    ensures Inv(FlushCode(m, reset))
  {
    hide D.Inv, Sized, WritesGuarded, D.Purge;
    D.InvParts(m.jit);
    D.FlushKeeps(m.jit);
    FewerGuarded(m.caches.dtlb, m.ram, m.coded, {});
  }

  lemma {:induction false} PurgeKeeps(m: Machine)
    requires Inv(m)
    ensures Inv(m.(jit := D.Purge(m.jit)))
  {
    hide D.Inv, Sized, WritesGuarded, BlockTable.Listed, D.Clear;
    D.InvParts(m.jit);
    D.PurgeKeeps(m.jit);
    forall i ensures BlockOk(m.(jit := D.Purge(m.jit)), i) {
      assert BlockOk(m, i);
    }
  }

  ghost function Step(m: Machine, op: Op): Machine
    requires Inv(m)
  {
    match op
    case DoStore(c, tb, va, watched, ok) => Store(m, c, tb, va, watched, ok)
    case DoLoad(c, tb, va, fits, watched, ok) => Load(m, c, tb, va, fits, watched, ok)
    case DoFetch(c, tb, va, backed) => m.(caches := Fetched(m.caches, c, tb, va, backed))
    case DoTlbi(va) => m.(caches := FlushPage(m.caches, va))
    case DoTlbiAll => m.(caches := FlushAll(m.caches))
    case DoBlockWrite(pages) => BlockWrite(m, pages)
    case DoInvalidate(page) => Invalidate(m, page)
    case DoDispatch(prev, q) => Dispatched(m, prev, q)
    case DoFlush => FlushCode(m, false)
    case DoPurge => m.(jit := D.Purge(m.jit))
    case DoReset => FlushCode(m, true)
  }

  /** Every step of every kind keeps listed code current. */
  lemma {:induction false} StepKeeps(m: Machine, op: Op)
    requires Inv(m)
    ensures Inv(Step(m, op))
  {
    hide Inv, Store, Load, Fetched, FlushPage, FlushAll, BlockWrite, Invalidate, Dispatched, FlushCode, D.Purge,
      WritesGuarded;
    InvParts(m);
    match op
    case DoStore(c, tb, va, watched, ok) => StoreKeeps(m, c, tb, va, watched, ok);
    case DoLoad(c, tb, va, fits, watched, ok) => LoadKeeps(m, c, tb, va, fits, watched, ok);
    case DoFetch(c, tb, va, backed) =>
      FetchGuarded(m.caches, c, tb, va, backed);
      NewCaches(m, Fetched(m.caches, c, tb, va, backed));
    case DoTlbi(va) =>
      FlushGuarded(m.caches, va, m.ram, m.coded);
      NewCaches(m, FlushPage(m.caches, va));
    case DoTlbiAll =>
      FlushGuarded(m.caches, 0, m.ram, m.coded);
      NewCaches(m, FlushAll(m.caches));
    case DoBlockWrite(pages) => BlockWriteKeeps(m, pages);
    case DoInvalidate(page) => InvalidateKeeps(m, page);
    case DoDispatch(prev, q) => DispatchedKeeps(m, prev, q);
    case DoFlush => FlushCodeKeeps(m, false);
    case DoPurge => PurgeKeeps(m);
    case DoReset => FlushCodeKeeps(m, true);
  }

  function Start(ram: set<bv64>, writes: bv64 -> int): Machine {
    Machine(D.Start(), [], Tlb.Start(), ram, {}, writes)
  }

  lemma StartOk(ram: set<bv64>, writes: bv64 -> int)
    ensures Inv(Start(ram, writes))
  {
    hide D.Inv;
    D.StartOk();
  }

  ghost function Play(ram: set<bv64>, writes: bv64 -> int, ops: seq<Op>): (m: Machine)
    ensures Inv(m)
  {
    if ops == [] then
      StartOk(ram, writes);
      Start(ram, writes)
    else
      StepKeeps(Play(ram, writes, ops[..|ops| - 1]), ops[|ops| - 1]);
      Step(Play(ram, writes, ops[..|ops| - 1]), ops[|ops| - 1])
  }

  /** In every run a block the dispatcher can still reach on a RAM page has seen no write since it was translated. */
  lemma {:induction false} ListedIsCurrent(ram: set<bv64>, writes: bv64 -> int, ops: seq<Op>, i: int)
    requires Listed(Play(ram, writes, ops), i)
    requires Blocks(Play(ram, writes, ops))[i].paPage in Play(ram, writes, ops).ram
    ensures
      var m := Play(ram, writes, ops);
      m.stamps[i] == m.writes(Blocks(m)[i].paPage)
  {
    hide Play, D.Inv, Sized, WritesGuarded, BlockTable.Listed;
    InvParts(Play(ram, writes, ops));
    assert BlockOk(Play(ram, writes, ops), i);
  }

  // ---- A store across a page boundary with the MMU off ----

  /** The hook looks at the first page only; when it fires it covers both. */
  function Crossed(m: Machine, p: bv64, next: bv64): Machine
    requires Inv(m)
  {
    var m1 := Wrote(Wrote(m, p), next);
    D.DropPageInv(m.jit, p);
    if p in m.coded then Invalidate(Invalidate(m1, p), next) else m1
  }

  /** The store, and the refill for its first page. */
  function CrossingStore(m: Machine, c: Cpu, va: bv64, next: bv64, watched: bool): Machine
    requires Inv(m)
  {
    var m1 := Crossed(m, Page(va), next);
    CrossedCaches(m, Page(va), next);
    m1.(caches := DataFill(m1.caches, c, va, va, MediumAt(m1, va, watched, true)))
  }

  lemma CrossedCaches(m: Machine, p: bv64, next: bv64)
    requires Inv(m)
    ensures Crossed(m, p, next).caches == m.caches && Sized(m.caches)
    ensures Crossed(m, p, next).ram == m.ram && Crossed(m, p, next).coded <= m.coded
  {
    hide D.Inv, D.DropPage;
    D.DropPageInv(m.jit, p);
  }

  lemma {:induction false} HookedCrossing(m: Machine, p: bv64, next: bv64)
    requires Inv(m) && p in m.coded
    ensures Inv(Crossed(m, p, next))
  {
    hide Inv, D.Inv, D.DropPage;
    InvParts(m);
    D.DropPageInv(m.jit, p);
    InvalidateKeeps(m, p);
    InvalidateKeeps(Invalidate(m, p), next);
    var b := Invalidate(Invalidate(m, p), next);
    WroteUnmarked(b, p);
    WroteUnmarked(Wrote(b, p), next);
    InvCoded(m);
    SameWrites(Crossed(m, p, next), Wrote(Wrote(b, p), next));
  }

  /** The refill has no part in whether listed code is current. */
  lemma {:induction false} RefillAside(m: Machine, c: Cpu, va: bv64, next: bv64, watched: bool)
    requires Inv(m)
    ensures Inv(CrossingStore(m, c, va, next, watched)) <==> Inv(Crossed(m, Page(va), next))
  {
    hide Inv, Crossed, DataFill, Page, MediumAt, D.Inv, Sized, WritesGuarded;
    InvParts(m);
    CrossedCaches(m, Page(va), next);
    var m1 := Crossed(m, Page(va), next);
    FewerGuarded(m.caches.dtlb, m.ram, m.coded, m1.coded);
    FillGuarded(m1, m1.caches, c, va, va, watched, true);
    var m2 := CrossingStore(m, c, va, next, watched);
    if Inv(m1) {
      NewCaches(m1, m2.caches);
    }
    if Inv(m2) {
      NewCaches(m2, m1.caches);
      assert m2.(caches := m1.caches) == m1;
    }
  }

  lemma InvCoded(m: Machine)
    requires Inv(m)
    ensures m.coded <= m.ram
  {
  }

  lemma {:induction false} UnhookedCrossing(m: Machine, p: bv64, next: bv64)
    requires Inv(m) && p !in m.coded && next in m.ram && p != next
    ensures Inv(Wrote(Wrote(m, p), next)) <==> forall i :: Listed(m, i) ==> Blocks(m)[i].paPage != next
  {
    hide D.Inv, Sized, BlockTable.Listed, WritesGuarded;
    D.InvParts(m.jit);
    var m' := Wrote(Wrote(m, p), next);
    forall i ensures Listed(m', i) == Listed(m, i) {
    }
    if forall i :: Listed(m, i) ==> Blocks(m)[i].paPage != next {
      forall i ensures BlockOk(m', i) {
        assert BlockOk(m, i);
      }
    } else {
      var i :| Listed(m, i) && Blocks(m)[i].paPage == next;
      assert BlockOk(m, i);
      assert !BlockOk(m', i);
    }
  }

  /**
   A store across two RAM pages with the MMU off keeps listed code current
   exactly when the first page is marked or no listed block lies on the second.
   */
  lemma {:induction false} CrossingStoreKeeps(m: Machine, c: Cpu, va: bv64, next: bv64, watched: bool)
    requires Inv(m) && Page(va) in m.ram && next in m.ram && Page(va) != next
    ensures Inv(CrossingStore(m, c, va, next, watched)) <==>
      (Page(va) in m.coded || forall i :: Listed(m, i) ==> Blocks(m)[i].paPage != next)
  {
    hide Inv, Listed, Page, CrossingStore;
    InvParts(m);
    RefillAside(m, c, va, next, watched);
    if Page(va) in m.coded {
      HookedCrossing(m, Page(va), next);
    } else {
      UnhookedCrossing(m, Page(va), next);
    }
  }

  lemma PageOfFirst()
    ensures Page(0x4000_0ffc) == 0x4000_0000
  {
  }

  /** So one translation on the second page is enough for such a store to leave stale code listed. */
  lemma {:induction false} CrossingStoreCanBreak(c: Cpu) returns (m: Machine)
    ensures Inv(m) && !Inv(CrossingStore(m, c, 0x4000_0ffc, 0x4000_1000, false))
  {
    hide Inv, CrossingStore, D.Dispatch, D.Hits, D.Full, Listed, Strip, Page;
    var p, next := 0x4000_0000, 0x4000_1000;
    PageOfFirst();
    var m0 := Start({p, next}, (q: bv64) => 0);
    StartOk({p, next}, (q: bv64) => 0);
    InvParts(m0);
    var q := D.Request(next, 0, next, next, 0, 0, false);
    m := Dispatched(m0, D.Nothing, q);
    DispatchedKeeps(m0, D.Nothing, q);
    InvParts(m);
    FirstBlockListed(m0, q);
    CrossingStoreKeeps(m, c, 0x4000_0ffc, next, false);
  }

  lemma {:induction false} FirstBlockListed(m: Machine, q: D.Request)
    requires Inv(m) && m.jit == D.Start()
    ensures
      var m' := Dispatched(m, D.Nothing, q);
      && BlockTable.Sized(m'.jit.table) && Listed(m', 0) && Blocks(m')[0].paPage == q.paPage
      && m'.coded <= m.coded + {q.paPage}
  {
    hide D.Dispatch, D.Hits, D.Full, D.Start, D.Inv, BlockTable.Listed, Sized, WritesGuarded, BlockOk, Strip;
    D.InvParts(m.jit);
    D.StartMisses(q);
    D.DispatchLists(m.jit, D.Nothing, q, 0);
    WantedPage(q);
  }
}
