/**
 Patched exits and host pages: a chained jump skips the dispatcher's check of the
 code page, so the target has to be on its source's.
 */
module ChainedPages {
  import opened BlockTable
  import opened Dispatcher

  /** The exit is not patched, or its target's code lies on its source's host page. */
  predicate ExitStays(e: Table, f: nat, second: bool)
    requires Sized(e) && f < |e.arena|
  {
    var t := Target(e.jumps[f], second);
    t == -1 || (0 <= t < |e.arena| && e.arena[t].host == e.arena[f].host)
  }

  ghost predicate ExitsStay(e: Table) {
    Sized(e) && forall f, second :: 0 <= f < |e.arena| ==> ExitStays(e, f, second)
  }

  lemma InsertStays(e: Table, b: Block)
    requires ExitsStay(e)
    ensures ExitsStay(Insert(e, b))
  {
    hide HashIdx, PageIdx;
    var e' := Insert(e, b);
    forall f, second | 0 <= f < |e'.arena| ensures ExitStays(e', f, second) {
      if f < |e.arena| {
        assert ExitStays(e, f, second);
      }
    }
  }

  lemma FreshStays()
    ensures ExitsStay(BlockTable.Fresh())
  {
  }

  /** Patching keeps it exactly when the two blocks share a host page. */
  lemma {:induction false} ChainStays(e: Table, f: nat, second: bool, t: nat)
    requires ExitsStay(e) && HashOk(e) && MayChain(e, f, second, t)
    ensures ExitsStay(Chain(e, f, second, t)) <==> e.arena[f].host == e.arena[t].host
  {
    hide HashOk, Lookup, Compatible;
    var e' := Chain(e, f, second, t);
    if e.arena[f].host == e.arena[t].host {
      forall g, s | 0 <= g < |e'.arena| ensures ExitStays(e', g, s) {
        assert ExitStays(e, g, s);
      }
    } else {
      assert !ExitStays(e', f, second);
    }
  }

  lemma {:induction false} UnlinkStays(e: Table, i: nat)
    requires ExitsStay(e) && i < |e.arena|
    ensures ExitsStay(Unlink(e, i))
  {
    hide HashIdx, Unpatch;
    var e' := Unlink(e, i);
    forall f, second | 0 <= f < |e'.arena| ensures ExitStays(e', f, second) {
      assert ExitStays(e, f, second);
      UnpatchMeans(e.jumps, e.incoming[i], f, second);
    }
  }

  lemma {:induction false} UnlinkPageStays(e: Table, list: seq<nat>, pa: bv64)
    requires ExitsStay(e) && forall n :: 0 <= n < |list| ==> list[n] < |e.arena|
    ensures ExitsStay(UnlinkPage(e, list, pa))
    decreases |list|
  {
    hide ExitsStay, Unlink;
    ExitsSized(e);
    if list != [] {
      if e.arena[list[0]].paPage == pa {
        UnlinkStays(e, list[0]);
        UnlinkArena(e, list[0]);
        UnlinkPageStays(Unlink(e, list[0]), list[1..], pa);
      } else {
        UnlinkPageStays(e, list[1..], pa);
      }
    }
  }

  lemma ExitsSized(e: Table)
    requires ExitsStay(e)
    ensures Sized(e)
  {
  }

  lemma UnlinkArena(e: Table, i: nat)
    requires Sized(e) && i < |e.arena|
    ensures Unlink(e, i).arena == e.arena
  {
  }

  lemma {:induction false} DropStays(j: Jit, pa: bv64)
    requires Dispatcher.Inv(j) && ExitsStay(j.table)
    ensures ExitsStay(Dispatcher.DropPage(j, pa).table)
  {
    hide Dispatcher.Inv, PageIdx, UnlinkPage, Others, Emptied;
    InvParts(j);
    DropPageKeeps(j.table, pa);
    var list := j.table.pages[PageIdx(pa)];
    UnlinkPageStays(j.table, list, pa);
    SameJumps(UnlinkPage(j.table, list, pa), BlockTable.DropPage(j.table, pa));
  }

  lemma SameJumps(e: Table, e': Table)
    requires ExitsStay(e) && Sized(e') && e'.arena == e.arena && e'.jumps == e.jumps
    ensures ExitsStay(e')
  {
    forall f, second | 0 <= f < |e'.arena| ensures ExitStays(e', f, second) {
      assert ExitStays(e, f, second);
    }
  }

  // ---- Dispatches ----

  /** The dispatch would chain an exit to a block whose code was resolved on another host page. */
  predicate Strays(j: Jit, prev: Previous, q: Request)
    requires Dispatcher.Inv(j)
  {
    FoundIs(j, prev, q);
    var (j1, i, p) := Found(j, prev, q);
    p.Left? && MayChain(j1.table, p.block, p.second, i) && j1.table.arena[p.block].host != q.host
  }

  lemma {:induction false} FoundStays(j: Jit, prev: Previous, q: Request)
    requires Dispatcher.Inv(j) && ExitsStay(j.table)
    ensures ExitsStay(Found(j, prev, q).0.table)
  {
    hide Dispatcher.Inv, ExitsStay, Insert, Lookup, Purge, JitTag, Wanted, BlockTable.Fresh;
    InvParts(j);
    FreshStays();
    InsertStays(j.table, Wanted(q));
    InsertStays(BlockTable.Fresh(), Wanted(q));
  }

  /** A dispatch keeps every patched exit on its page exactly when it does not stray. */
  lemma {:induction false} DispatchStays(j: Jit, prev: Previous, q: Request)
    requires Dispatcher.Inv(j) && ExitsStay(j.table)
    ensures ExitsStay(Dispatch(j, prev, q).table) <==> !Strays(j, prev, q)
  {
    hide Dispatcher.Inv, ExitsStay, Found, MayChain, JitTag, Listed, Chain;
    FoundIs(j, prev, q);
    FoundStays(j, prev, q);
    var (j1, i, p) := Found(j, prev, q);
    InvParts(j1);
    if p.Left? && MayChain(j1.table, p.block, p.second, i) {
      ChainStays(j1.table, p.block, p.second, i);
    }
  }

  ghost predicate StraysAt(ops: seq<Op>, k: nat)
    requires k < |ops|
  {
    ops[k].Dispatched? && Strays(Play(ops[..k]), ops[k].prev, ops[k].q)
  }

  lemma {:induction false} StepStays(j: Jit, op: Op)
    requires Dispatcher.Inv(j) && ExitsStay(j.table)
    ensures ExitsStay(Step(j, op).table) <==> !(op.Dispatched? && Strays(j, op.prev, op.q))
  {
    hide Dispatcher.Inv, ExitsStay, Dispatch, Dispatcher.DropPage, Strays, BlockTable.Fresh;
    InvParts(j);
    match op
    case Dispatched(prev, q) => DispatchStays(j, prev, q);
    case Dropped(pa) => DropStays(j, pa);
    case Flushed => FreshStays();
    case TlbMoved =>
  }

  /** In every run in which no dispatch strays, a patched exit's target has its source's host page. */
  lemma {:induction false} PatchedExitsStay(ops: seq<Op>)
    requires forall k :: 0 <= k < |ops| ==> !StraysAt(ops, k)
    ensures ExitsStay(Play(ops).table)
  {
    hide Dispatcher.Inv, ExitsStay, Step, Strays;
    if ops == [] {
      FreshStays();
    } else {
      var n := |ops| - 1;
      var front := ops[..n];
      forall k | 0 <= k < n ensures !StraysAt(front, k) {
        assert front[..k] == ops[..k] && front[k] == ops[k] && !StraysAt(ops, k);
      }
      PatchedExitsStay(front);
      assert !StraysAt(ops, n);
      StepStays(Play(front), ops[n]);
    }
  }

  // ---- What keeps dispatches from straying ----

  function PageOf(pc: bv64): bv64 {
    pc & 0xffff_ffff_ffff_f000
  }

  function CtxOf(tag: bv64): bv64 {
    tag & 0x1f
  }

  /** A page of a context is resolved to one host page for the whole run. */
  type Where = (bv64, bv64) -> bv64

  predicate Resolves(q: Request, at: Where) {
    q.host == at(PageOf(q.pc), q.ctx)
  }

  predicate Placed(b: Block, at: Where) {
    b.host == at(PageOf(b.pc), CtxOf(b.tag))
  }

  predicate AllPlaced(arena: seq<Block>, at: Where) {
    forall k :: 0 <= k < |arena| ==> Placed(arena[k], at)
  }

  predicate Settled(op: Op, at: Where) {
    Possible(op) && (op.Dispatched? ==> Resolves(op.q, at))
  }

  lemma CtxOfTag(pc: bv64, ctx: bv64)
    requires pc & 3 == 0 && IsCtx(ctx)
    ensures CtxOf(JitTag(pc, ctx)) == ctx
  {
  }

  lemma {:induction false} WantedPlaced(q: Request, at: Where)
    requires Canonical(q.pc) && IsCtx(q.ctx) && Resolves(q, at)
    ensures Placed(Wanted(q), at)
  {
    hide JitTag, CtxOf, PageOf, IsCtx, Canonical;
    CanonicalAligned(q.pc);
    CtxOfTag(q.pc, q.ctx);
  }

  lemma {:induction false} StepPlaced(j: Jit, op: Op, at: Where)
    requires Dispatcher.Inv(j) && AllPlaced(j.table.arena, at) && Settled(op, at)
    ensures AllPlaced(Step(j, op).table.arena, at)
  {
    hide Dispatcher.Inv, Dispatch, Dispatcher.DropPage, Placed, Wanted, Hits, Full, Listed, Canonical, IsCtx;
    match op
    case Dispatched(prev, q) =>
      WantedPlaced(q, at);
      DispatchLists(j, prev, q, 0);
    case Dropped(pa) => DropArena(j, pa);
    case Flushed =>
    case TlbMoved =>
  }

  lemma {:induction false} PlayPlaced(ops: seq<Op>, at: Where)
    requires forall k :: 0 <= k < |ops| ==> Settled(ops[k], at)
    ensures AllPlaced(Play(ops).table.arena, at)
  {
    hide Dispatcher.Inv, Step, Placed, Settled;
    if ops != [] {
      PlayPlaced(ops[..|ops| - 1], at);
      StepPlaced(Play(ops[..|ops| - 1]), ops[|ops| - 1], at);
    }
  }

  lemma SamePlace(f: Block, second: bool, t: Block)
    requires Compatible(f, second, t)
    ensures PageOf(f.pc) == PageOf(t.pc) && CtxOf(f.tag) == CtxOf(t.tag)
  {
    SameMasked(f.pc, t.pc);
    SameLow(f.tag, t.tag);
  }

  lemma SameMasked(x: bv64, y: bv64)
    requires (x ^ y) & 0xffff_ffff_ffff_f000 == 0
    ensures x & 0xffff_ffff_ffff_f000 == y & 0xffff_ffff_ffff_f000
  {
  }

  lemma SameLow(x: bv64, y: bv64)
    requires (x ^ y) & 0x1f == 0
    ensures x & 0x1f == y & 0x1f
  {
  }

  lemma {:induction false} FoundArena(j: Jit, prev: Previous, q: Request, at: Where)
    requires Dispatcher.Inv(j) && AllPlaced(j.table.arena, at) && Placed(Wanted(q), at)
    ensures AllPlaced(Found(j, prev, q).0.table.arena, at)
  {
    hide Dispatcher.Inv, Found, Placed, Wanted, Hits, Full, Listed;
    FoundLists(j, prev, q, 0);
  }

  lemma {:induction false} SettledDoesNotStray(j: Jit, prev: Previous, q: Request, at: Where)
    requires Dispatcher.Inv(j) && AllPlaced(j.table.arena, at) && Canonical(q.pc) && IsCtx(q.ctx) && Resolves(q, at)
    ensures !Strays(j, prev, q)
  {
    hide Dispatcher.Inv, Found, JitTag, CtxOf, PageOf, IsCtx, Canonical, Compatible, Lookup, Listed, Wanted;
    FoundIs(j, prev, q);
    WantedPlaced(q, at);
    FoundArena(j, prev, q, at);
    var (j1, i, p) := Found(j, prev, q);
    InvParts(j1);
    if p.Left? && MayChain(j1.table, p.block, p.second, i) {
      var f, t := j1.table.arena[p.block], j1.table.arena[i];
      assert Placed(f, at) && Placed(t, at);
      SamePlace(f, p.second, t);
    }
  }

  /**
   So while each page of each context stays resolved to one host page, whatever
   else a run does, every patched exit stays on its page.
   */
  lemma {:induction false} SettledRunsStay(ops: seq<Op>, at: Where)
    requires forall k :: 0 <= k < |ops| ==> Settled(ops[k], at)
    ensures ExitsStay(Play(ops).table)
  {
    hide Dispatcher.Inv, ExitsStay, Strays, Play, AllPlaced, Canonical, IsCtx, Resolves;
    forall k | 0 <= k < |ops| ensures !StraysAt(ops, k) {
      assert Settled(ops[k], at);
      if ops[k].Dispatched? {
        PlayPlaced(ops[..k], at);
        SettledDoesNotStray(Play(ops[..k]), ops[k].prev, ops[k].q, at);
      }
    }
    PatchedExitsStay(ops);
  }

  // ---- A run in which it fails ----

  function FirstRequest(): Request {
    Request(0x1000, 0, 0x7000, 0, 0x1004, 0, false)
  }

  /** The same page, resolved to another host page. */
  function SecondRequest(): Request {
    Request(0x1004, 0, 0x8000, 0, 0, 0, false)
  }

  lemma {:induction false} FirstDispatch()
    ensures
      var j := Play([Dispatched(Nothing, FirstRequest())]);
      && j.table.arena == [Wanted(FirstRequest())] && j.table.jumps == [STUBS] && j.table.nedges == 0
      && Listed(j.table, 0) && forall k :: k != 0 ==> !Listed(j.table, k)
  {
    hide Dispatcher.Inv, Hits, Lookup, Wanted, JitTag, HashIdx, PageIdx;
    var op := Dispatched(Nothing, FirstRequest());
    assert [op][..0] == [];
    StartMisses(FirstRequest());
    FoundIs(Start(), Nothing, FirstRequest());
    forall k: int ensures Listed(Play([op]).table, k) <==> k == 0 {
      DispatchLists(Start(), Nothing, FirstRequest(), k);
    }
  }

  lemma Tags()
    ensures
      var f, t := Wanted(FirstRequest()), Wanted(SecondRequest());
      Compatible(f, false, t) && f.tag != t.tag && f.host != t.host
  {
  }

  lemma {:induction false} SecondStrays()
    ensures Strays(Play([Dispatched(Nothing, FirstRequest())]), Left(0, false), SecondRequest())
  {
    hide Dispatcher.Inv, Play, JitTag, HashIdx, PageIdx, Compatible, Listed, Unique, LinksOk, PagesOk;
    var j := Play([Dispatched(Nothing, FirstRequest())]);
    var q := SecondRequest();
    FirstDispatch();
    Tags();
    InvParts(j);
    LookupFinds(j.table, JitTag(q.pc, q.ctx), q.host);
    assert !Hits(j, q);
    FoundIs(j, Left(0, false), q);
    FoundLists(j, Left(0, false), q, 0);
    var (j1, i, p) := Found(j, Left(0, false), q);
    InvParts(j1);
    LookupFinds(j1.table, Wanted(FirstRequest()).tag, Wanted(FirstRequest()).host);
  }

  /** A block executes a remap of its own page and falls through: its exit is patched to the new page's code. */
  lemma {:induction false} RemapMakesItStray()
    ensures !ExitsStay(Play([Dispatched(Nothing, FirstRequest()), Dispatched(Left(0, false), SecondRequest())]).table)
  {
    hide Dispatcher.Inv, Step, ExitsStay, Strays, Dispatch, Found;
    var first, second := Dispatched(Nothing, FirstRequest()), Dispatched(Left(0, false), SecondRequest());
    assert [first, second][..1] == [first];
    FirstDispatch();
    InvParts(Play([first]));
    OneStub(Play([first]).table);
    SecondStrays();
    StepStays(Play([first]), second);
  }

  lemma OneStub(e: Table)
    requires Sized(e) && e.jumps == [STUBS]
    ensures ExitsStay(e)
  {
  }
}
