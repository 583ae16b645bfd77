/**
 The block table as the runtime keeps it: chains threaded through the arena and the
 edge pool. Each operation leaves the lists that BlockTable says.
 */
module JitEnv {
  import opened BlockTable
  import opened Links

  datatype Linked = Linked(
    arena: seq<Block>,
    hashHead: seq<int>,
    hashNext: seq<int>,
    pageHead: seq<int>,
    pageNext: seq<int>,
    inHead: seq<int>,
    jumps: seq<Jumps>,
    cells: seq<Cell>)

  predicate HeadsOk(heads: seq<int>, n: nat) {
    forall k :: 0 <= k < |heads| ==> -1 <= heads[k] < n
  }

  predicate LinkedOk(l: Linked) {
    && |l.hashHead| == HASH_SIZE && |l.pageHead| == PAGE_TBL
    && |l.hashNext| == |l.arena| && |l.pageNext| == |l.arena| && |l.inHead| == |l.arena| && |l.jumps| == |l.arena|
    && Down(l.hashNext) && Down(l.pageNext) && EdgesDown(l.cells)
    && HeadsOk(l.hashHead, |l.arena|) && HeadsOk(l.pageHead, |l.arena|) && HeadsOk(l.inHead, |l.cells|)
  }

  function Chains(next: seq<int>, heads: seq<int>): (r: seq<seq<nat>>)
    requires Down(next) && HeadsOk(heads, |next|)
    ensures |r| == |heads| && forall k :: 0 <= k < |heads| ==> r[k] == Along(next, heads[k])
  {
    seq(|heads|, k requires 0 <= k < |heads| => Along(next, heads[k]))
  }

  function EdgeLists(cells: seq<Cell>, heads: seq<int>): (r: seq<seq<Edge>>)
    requires EdgesDown(cells) && HeadsOk(heads, |cells|)
    ensures |r| == |heads| && forall k :: 0 <= k < |heads| ==> r[k] == EdgeChain(cells, heads[k])
  {
    seq(|heads|, k requires 0 <= k < |heads| => EdgeChain(cells, heads[k]))
  }

  /** The lists the links spell out. */
  function Abs(l: Linked): (e: Table)
    requires LinkedOk(l)
    ensures Sized(e) && e.arena == l.arena
  {
    Table(l.arena, Chains(l.hashNext, l.hashHead), Chains(l.pageNext, l.pageHead), l.jumps,
      EdgeLists(l.cells, l.inHead), |l.cells|)
  }

  // ---- Insertion ----

  /** Push a new index on one chain. */
  lemma {:induction false} PushChain(next: seq<int>, heads: seq<int>, k: nat)
    requires Down(next) && HeadsOk(heads, |next|) && k < |heads|
    ensures
      var next', heads' := next + [heads[k]], heads[k := |next|];
      && Down(next') && HeadsOk(heads', |next'|)
      && Chains(next', heads') == Chains(next, heads)[k := [|next|] + Along(next, heads[k])]
  {
    var next', heads' := next + [heads[k]], heads[k := |next|];
    forall j | 0 <= j < |heads|
      ensures Along(next', heads'[j]) == if j == k then [|next|] + Along(next, heads[k]) else Along(next, heads[j])
    {
      ChainPrefix(next, next', heads[j]);
      ChainPrefix(next, next', heads[k]);
    }
  }

  function Inserted(l: Linked, b: Block): Linked
    requires LinkedOk(l)
  {
    var i, k, p := |l.arena|, HashIdx(b.tag), PageIdx(b.paPage);
    Linked(l.arena + [b], l.hashHead[k := i], l.hashNext + [l.hashHead[k]], l.pageHead[p := i],
      l.pageNext + [l.pageHead[p]],
      l.inHead + [-1], l.jumps + [STUBS], l.cells)
  }

  lemma {:induction false} InsertedAbs(l: Linked, b: Block)
    requires LinkedOk(l)
    ensures LinkedOk(Inserted(l, b)) && Abs(Inserted(l, b)) == Insert(Abs(l), b)
  {
    hide HashIdx, PageIdx, Down, EdgesDown, Along, EdgeChain;
    PushChain(l.hashNext, l.hashHead, HashIdx(b.tag));
    PushChain(l.pageNext, l.pageHead, PageIdx(b.paPage));
    var heads := l.inHead + [-1];
    NoEdgeChain(l.cells);
    assert EdgeLists(l.cells, heads) == EdgeLists(l.cells, l.inHead) + [[]];
  }

  lemma NoEdgeChain(cells: seq<Cell>)
    requires EdgesDown(cells)
    ensures EdgeChain(cells, -1) == []
  {
  }

  // ---- Chaining an exit ----

  function Chained(l: Linked, f: nat, second: bool, t: nat): Linked
    requires LinkedOk(l) && f < |l.arena| && t < |l.arena|
  {
    l.(jumps := l.jumps[f := Retarget(l.jumps[f], second, t)],
    cells := l.cells + [Cell(Edge(f, second), l.inHead[t])],
    inHead := l.inHead[t := |l.cells|])
  }

  lemma {:induction false} PushEdge(cells: seq<Cell>, heads: seq<int>, t: nat, g: Edge)
    requires EdgesDown(cells) && HeadsOk(heads, |cells|) && t < |heads|
    ensures
      var cells', heads' := cells + [Cell(g, heads[t])], heads[t := |cells|];
      && EdgesDown(cells') && HeadsOk(heads', |cells'|)
      && EdgeLists(cells', heads') == EdgeLists(cells, heads)[t := [g] + EdgeChain(cells, heads[t])]
  {
    var cells', heads' := cells + [Cell(g, heads[t])], heads[t := |cells|];
    forall j | 0 <= j < |heads|
      ensures
        EdgeChain(cells', heads'[j]) == if j == t then [g] + EdgeChain(cells, heads[t]) else EdgeChain(cells, heads[j])
    {
      EdgePrefix(cells, cells', heads[j]);
      EdgePrefix(cells, cells', heads[t]);
    }
  }

  lemma {:induction false} ChainedAbs(l: Linked, f: nat, second: bool, t: nat)
    requires LinkedOk(l) && f < |l.arena| && t < |l.arena|
    ensures LinkedOk(Chained(l, f, second, t))
    ensures Abs(Chained(l, f, second, t)) == BlockTable.Chain(Abs(l), f, second, t)
  {
    hide Down, EdgesDown, Along, EdgeChain;
    PushEdge(l.cells, l.inHead, t, Edge(f, second));
  }

  // ---- Removing an index from one chain ----

  /** The chains after linking past i from p, or from the head when p is -1. */
  function Past(next: seq<int>, heads: seq<int>, k: nat, p: int, i: nat): (seq<int>, seq<int>)
    requires k < |heads| && -1 <= p < |next| && i < |next|
  {
    if p == -1 then (next, heads[k := next[i]]) else (next[p := next[i]], heads)
  }

  /** p is where the chain of k points at i. */
  predicate PointsAt(next: seq<int>, heads: seq<int>, k: nat, p: int, i: nat)
    requires Down(next) && HeadsOk(heads, |next|) && k < |heads|
  {
    if p == -1 then heads[k] == i else 0 <= p < |next| && p in Along(next, heads[k]) && next[p] == i
  }

  lemma {:induction false} PastRemoves(next: seq<int>, heads: seq<int>, k: nat, p: int, i: nat)
    requires Down(next) && HeadsOk(heads, |next|) && k < |heads| && i < |next| && -1 <= p < |next|
    requires PointsAt(next, heads, k, p, i)
    requires
      forall j :: 0 <= j < |heads| && j != k ==> forall x :: x in Along(next, heads[j]) ==> x !in Along(next, heads[k])
    ensures
      var (next', heads') := Past(next, heads, k, p, i);
      && Down(next') && HeadsOk(heads', |next'|) && |next'| == |next| && |heads'| == |heads|
      && Chains(next', heads') == Chains(next, heads)[k := Without(Along(next, heads[k]), i)]
  {
    var (next', heads') := Past(next, heads, k, p, i);
    if p == -1 {
      HeadRemoved(next, i);
    } else {
      ChainRemove(next, heads[k], p);
      forall j | 0 <= j < |heads| && j != k ensures Along(next', heads[j]) == Along(next, heads[j]) {
        ChainOther(next, p, next[i], heads[j]);
      }
    }
  }

  /** Chains of distinct buckets share no block. */
  lemma {:induction false} BucketsApart(l: Linked, k: nat)
    requires LinkedOk(l) && HashOk(Abs(l)) && k < HASH_SIZE
    ensures forall j :: 0 <= j < HASH_SIZE && j != k ==>
      forall x :: x in Along(l.hashNext, l.hashHead[j]) ==> x !in Along(l.hashNext, l.hashHead[k])
  {
    hide HashIdx, Down, EdgesDown, Along, Distinct;
    var e := Abs(l);
    forall j, x | 0 <= j < HASH_SIZE && j != k && x in Along(l.hashNext, l.hashHead[j])
      ensures x !in Along(l.hashNext, l.hashHead[k])
    {
      assert BucketOk(e, j, e.hash[j]) && BucketOk(e, k, e.hash[k]);
      assert x in e.hash[j];
    }
  }

  /** The links after taking i off its hash chain. */
  lemma {:induction false} HashRemoved(l: Linked, p: int, i: nat)
    requires LinkedOk(l) && HashOk(Abs(l)) && i < |l.arena| && -1 <= p < |l.arena|
    requires PointsAt(l.hashNext, l.hashHead, HashIdx(l.arena[i].tag), p, i)
    ensures
      var k := HashIdx(l.arena[i].tag);
      var (next, heads) := Past(l.hashNext, l.hashHead, k, p, i);
      var l' := l.(hashNext := next, hashHead := heads);
      LinkedOk(l') && Abs(l') == Abs(l).(hash := Abs(l).hash[k := Without(Abs(l).hash[k], i)])
  {
    hide HashIdx, Down, EdgesDown, Along, HashOk, PointsAt, Past;
    var k := HashIdx(l.arena[i].tag);
    BucketsApart(l, k);
    PastRemoves(l.hashNext, l.hashHead, k, p, i);
  }

  lemma {:induction false} AlongBounds(next: seq<int>, h: int)
    requires Down(next) && -1 <= h < |next|
    ensures forall n :: 0 <= n < |Along(next, h)| ==> Along(next, h)[n] < |next|
    decreases h
  {
    if h != -1 {
      AlongBounds(next, next[h]);
    }
  }

  lemma {:induction false} AlongStep(next: seq<int>, h: int)
    requires Down(next) && -1 <= h < |next|
    ensures h == -1 ==> Along(next, h) == []
    ensures h != -1 ==> -1 <= next[h] < h && Along(next, h) == [h] + Along(next, next[h])
  {
  }

  lemma {:induction false} FindStep(arena: seq<Block>, next: seq<int>, h: int, tag: bv64, host: bv64)
    requires Down(next) && |next| == |arena| && -1 <= h < |next|
    requires forall n :: 0 <= n < |Along(next, h)| ==> Along(next, h)[n] < |arena|
    ensures h == -1 ==> Find(arena, Along(next, h), tag, host) == -1
    ensures h != -1 && arena[h].tag == tag && arena[h].host == host ==> Find(arena, Along(next, h), tag, host) == h
    ensures
      h != -1 && !(arena[h].tag == tag && arena[h].host == host) ==>
        && -1 <= next[h] < h
        && (forall n :: 0 <= n < |Along(next, next[h])| ==> Along(next, next[h])[n] < |arena|)
        && Find(arena, Along(next, h), tag, host) == Find(arena, Along(next, next[h]), tag, host)
  {
    hide Along, Down;
    AlongStep(next, h);
    if h != -1 {
      AlongBounds(next, next[h]);
      assert Along(next, h)[1..] == Along(next, next[h]);
    }
  }

  class Env {
    var arena: seq<Block>
    var hashHead: seq<int>
    var hashNext: seq<int>
    var pageHead: seq<int>
    var pageNext: seq<int>
    var inHead: seq<int>
    var jumps: seq<Jumps>
    var cells: seq<Cell>

    ghost function Now(): Linked
      reads this
    {
      Linked(arena, hashHead, hashNext, pageHead, pageNext, inHead, jumps, cells)
    }

    ghost predicate Valid()
      reads this
    {
      LinkedOk(Now())
    }

    /** The lists the links spell out. */
    ghost function Lists(): (e: Table)
      requires Valid()
      reads this
      ensures Sized(e)
    {
      Abs(Now())
    }

    constructor ()
      ensures Valid() && Lists() == Fresh()
    {
      arena, jumps, cells := [], [], [];
      hashHead, pageHead := seq(HASH_SIZE, _ => -1), seq(PAGE_TBL, _ => -1);
      hashNext, pageNext, inHead := [], [], [];
    }

    /** jit_lookup */
    method Lookup(tag: bv64, host: bv64) returns (b: int)
      requires Valid() && HashOk(Lists())
      ensures b == BlockTable.Lookup(Lists(), tag, host)
    {
      hide HashIdx, Down, EdgesDown, Along, HashOk, Find;
      b := hashHead[HashIdx(tag)];
      AlongBounds(hashNext, b);
      while b != -1 && (arena[b].tag != tag || arena[b].host != host)
        invariant -1 <= b < |arena|
        invariant forall n :: 0 <= n < |Along(hashNext, b)| ==> Along(hashNext, b)[n] < |arena|
        invariant Find(arena, Along(hashNext, b), tag, host) == BlockTable.Lookup(Lists(), tag, host)
        decreases b
      {
        FindStep(arena, hashNext, b, tag, host);
        b := hashNext[b];
      }
      FindStep(arena, hashNext, b, tag, host);
    }

    /** The table part of jit_translate. */
    method Add(b: Block)
      requires Valid()
      modifies this
      ensures Valid() && Lists() == Insert(old(Lists()), b)
    {
      hide HashIdx, PageIdx, Abs, LinkedOk;
      InsertedAbs(Now(), b);
      ghost var l := Now();
      LinkedParts(l);
      var i, k, p := |arena|, HashIdx(b.tag), PageIdx(b.paPage);
      arena := arena + [b];
      hashNext := hashNext + [hashHead[k]];
      hashHead := hashHead[k := i];
      pageNext := pageNext + [pageHead[p]];
      pageHead := pageHead[p := i];
      inHead := inHead + [-1];
      jumps := jumps + [STUBS];
      assert Now() == Inserted(l, b);
    }

    /** The table part of chaining an exit. */
    method ChainExit(f: nat, second: bool, t: nat)
      requires Valid() && f < |arena| && t < |arena|
      modifies this
      ensures Valid() && Lists() == BlockTable.Chain(old(Lists()), f, second, t)
    {
      hide Abs, LinkedOk;
      ghost var l := Now();
      LinkedParts(l);
      ChainedAbs(l, f, second, t);
      jumps := jumps[f := Retarget(jumps[f], second, t)];
      cells := cells + [Cell(Edge(f, second), inHead[t])];
      inHead := inHead[t := |cells| - 1];
      assert Now() == Chained(l, f, second, t);
    }

    /** Take i off its hash chain. */
    method DropHash(i: nat)
      requires Valid() && HashOk(Lists()) && i < |arena|
      modifies this`hashHead, this`hashNext
      ensures
        var k := HashIdx(arena[i].tag);
        Valid() && Lists() == old(Lists()).(hash := old(Lists()).hash[k := Without(old(Lists()).hash[k], i)])
    {
      hide HashIdx, Down, EdgesDown, Along, HashOk, Without, Past;
      var k := HashIdx(arena[i].tag);
      var p, cur := FindLink(hashNext, hashHead, k, i);
      if cur != -1 {
        HashRemoved(Now(), p, i);
        var (next, heads) := Past(hashNext, hashHead, k, p, i);
        hashNext, hashHead := next, heads;
      } else {
        WithoutAbsent(Lists().hash[k], i);
        assert Lists().hash[k := Lists().hash[k]] == Lists().hash;
      }
    }

    /** Unpatch every chained jump into i. */
    method DropEdges(i: nat)
      requires Valid() && LinksOk(Lists()) && i < |arena|
      modifies this`jumps, this`inHead
      ensures Valid()
      ensures
        Lists() == old(Lists()).(jumps := Unpatch(old(Lists()).jumps, old(Lists()).incoming[i]),
                                 incoming := old(Lists()).incoming[i := []])
    {
      hide Down, EdgesDown, Along, EdgeChain, LinksOk, Unpatch;
      var js := UnpatchAll(cells, inHead[i], jumps);
      NoEdgeChain(cells);
      EdgeCleared(cells, inHead, i);
      jumps := js;
      inHead := inHead[i := -1];
    }

    /** jit_unlink_block */
    method Unlink(i: nat)
      requires Valid() && TableOk(Lists()) && i < |arena|
      modifies this`jumps, this`inHead, this`hashHead, this`hashNext
      ensures Valid() && Lists() == BlockTable.Unlink(old(Lists()), i)
    {
      hide HashIdx, LinkedOk, Without, Unpatch, HashOk, LinksOk, Unique;
      DropEdges(i);
      SameHash(old(Lists()), Lists());
      DropHash(i);
    }

    /** jit_drop_page; dropped says whether the indirect-branch cache must be purged. */
    method DropPage(pa: bv64) returns (dropped: bool)
      requires Valid() && Inv(Lists())
      modifies this`jumps, this`inHead, this`hashHead, this`hashNext, this`pageHead, this`pageNext
      ensures Valid()
      ensures
        var e, k := old(Lists()), PageIdx(pa);
        && (forall n :: 0 <= n < |e.pages[k]| ==> e.pages[k][n] < |e.arena|)
        && Lists() == BlockTable.DropPage(e, pa)
        && (dropped <==> AnyOn(e.arena, e.pages[k], pa))
    {
      hide PageIdx, LinkedOk, TableOk, PagesOk, PageLoop, AnyOn, Abs, Along, Down, HeadsOk;
      ghost var e := Lists();
      var k := PageIdx(pa);
      LinkedParts(Now());
      PageListBounds(e, k);
      var p, cur := -1, pageHead[k];
      ghost var kept: seq<nat> := [];
      dropped := false;
      PageLoopStarts(Now(), k, pa);
      while cur != -1
        invariant Valid() && TableOk(Lists()) && arena == e.arena && PageLoop(e, Now(), k, pa, p, cur, kept, dropped)
        invariant -1 <= cur < |arena| && -1 <= p < |arena|
        decreases cur
      {
        var b: nat := cur;
        LinkedParts(Now());
        PageNextDown(Now(), b);
        if arena[b].paPage == pa {
          PageLoopDrops(e, Now(), k, pa, p, b, kept, dropped);
          var (next, heads) := Past(pageNext, pageHead, k, p, b);
          cur := pageNext[b];
          pageNext, pageHead := next, heads;
          ghost var l := Now();
          UnlinkKeeps(Lists(), b);
          Unlink(b);
          PageLoopUnlinked(e, l, Now(), k, pa, p, b, cur, kept);
          dropped := true;
        } else {
          PageLoopKeeps(e, Now(), k, pa, p, b, kept, dropped);
          kept := kept + [b];
          p, cur := b, pageNext[b];
        }
      }
      PageLoopEnds(e, Now(), k, pa, p, kept, dropped);
    }
  }

  predicate AnyOn(arena: seq<Block>, list: seq<nat>, pa: bv64)
    requires forall n :: 0 <= n < |list| ==> list[n] < |arena|
  {
    exists n :: 0 <= n < |list| && arena[list[n]].paPage == pa
  }

  lemma {:induction false} EdgeCleared(cells: seq<Cell>, heads: seq<int>, i: nat)
    requires EdgesDown(cells) && HeadsOk(heads, |cells|) && i < |heads|
    ensures HeadsOk(heads[i := -1], |cells|) && EdgeLists(cells, heads[i := -1]) == EdgeLists(cells, heads)[i := []]
  {
    hide EdgesDown;
  }

  lemma {:induction false} SameHash(e: Table, e': Table)
    requires Sized(e) && Sized(e') && HashOk(e) && e'.arena == e.arena && e'.hash == e.hash
    ensures HashOk(e')
  {
    hide HashIdx, Distinct;
    forall k | 0 <= k < HASH_SIZE ensures BucketOk(e', k, e'.hash[k]) {
      assert BucketOk(e, k, e.hash[k]);
    }
  }

  /** Where the chain of k points at i: from p, or from the head; cur is -1 when it does not. */
  method FindLink(next: seq<int>, heads: seq<int>, k: nat, i: nat) returns (p: int, cur: int)
    requires Down(next) && HeadsOk(heads, |next|) && k < |heads| && i < |next|
    ensures -1 <= p < |next| && (cur == -1 || cur == i)
    ensures cur == i ==> PointsAt(next, heads, k, p, i)
    ensures cur == -1 ==> i !in Along(next, heads[k])
  {
    hide Down, Along;
    p, cur := -1, heads[k];
    AlongStep(next, cur);
    while cur != -1 && cur != i
      invariant -1 <= cur < |next| && -1 <= p < |next|
      invariant if p == -1 then cur == heads[k] else p in Along(next, heads[k]) && next[p] == cur
      invariant i in Along(next, heads[k]) ==> i in Along(next, cur)
      invariant cur != -1 ==> cur in Along(next, heads[k])
      decreases cur
    {
      AlongStep(next, cur);
      OnChain(next, heads[k], cur);
      p, cur := cur, next[cur];
    }
    AlongStep(next, cur);
  }

  /** The unpatching loop over an edge list. */
  method UnpatchAll(cells: seq<Cell>, h: int, jumps: seq<Jumps>) returns (js: seq<Jumps>)
    requires EdgesDown(cells) && -1 <= h < |cells|
    ensures js == Unpatch(jumps, EdgeChain(cells, h))
  {
    hide EdgesDown, EdgeChain, Unpatch;
    js := jumps;
    var e := h;
    while e != -1
      invariant -1 <= e < |cells|
      invariant Unpatch(js, EdgeChain(cells, e)) == Unpatch(jumps, EdgeChain(cells, h))
      decreases e
    {
      EdgeStep(cells, e);
      var g := cells[e].edge;
      UnpatchStep(js, g, EdgeChain(cells, cells[e].next));
      if g.from < |js| && Target(js[g.from], g.second) != -1 {
        js := js[g.from := Retarget(js[g.from], g.second, -1)];
      }
      e := cells[e].next;
    }
    EdgeStep(cells, e);
    NothingToUnpatch(js);
  }

  lemma EdgeStep(cells: seq<Cell>, h: int)
    requires EdgesDown(cells) && -1 <= h < |cells|
    ensures h == -1 ==> EdgeChain(cells, h) == []
    ensures h != -1 ==> -1 <= cells[h].next < h
    ensures h != -1 ==> EdgeChain(cells, h) == [cells[h].edge] + EdgeChain(cells, cells[h].next)
  {
  }

  /** An exit that is already a stub need not be rewritten. */
  lemma {:induction false} UnpatchStep(jumps: seq<Jumps>, g: Edge, rest: seq<Edge>)
    ensures
      var patched := g.from < |jumps| && Target(jumps[g.from], g.second) != -1;
      var j := if patched then jumps[g.from := Retarget(jumps[g.from], g.second, -1)] else jumps;
      Unpatch(jumps, [g] + rest) == Unpatch(j, rest)
  {
    assert ([g] + rest)[1..] == rest;
    if g.from < |jumps| && Target(jumps[g.from], g.second) == -1 {
      assert Retarget(jumps[g.from], g.second, -1) == jumps[g.from];
      assert jumps[g.from := jumps[g.from]] == jumps;
    }
  }

  lemma NothingToUnpatch(jumps: seq<Jumps>)
    ensures Unpatch(jumps, []) == jumps
  {
  }

  /** A chain goes on through every link of it. */
  lemma {:induction false} OnChain(next: seq<int>, h: int, x: nat)
    requires Down(next) && -1 <= h < |next| && x in Along(next, h) && x < |next|
    ensures next[x] == -1 || next[x] in Along(next, h)
    decreases h
  {
    if h != x {
      OnChain(next, next[h], x);
    } else {
      AlongStep(next, next[h]);
    }
  }

  lemma {:induction false} PageNextDown(l: Linked, b: nat)
    requires LinkedOk(l) && b < |l.arena|
    ensures |l.pageNext| == |l.arena| && -1 <= l.pageNext[b] < b
  {
  }

  // ---- The loop over a page's chain ----

  /** Blocks seen so far are kept or unlinked; the chain is what was kept, then the rest from cur. */
  ghost predicate PageLoop(e: Table, l: Linked, k: nat, pa: bv64, p: int, cur: int, kept: seq<nat>, dropped: bool) {
    && LinkedOk(l) && Inv(e) && l.arena == e.arena && k == PageIdx(pa) && -1 <= cur < |l.arena|
    && (forall n :: 0 <= n < |e.pages[k]| ==> e.pages[k][n] < |e.arena|)
    && LinkAt(l, k, p, cur)
    && (forall x :: x in kept ==> x > cur)
    && Along(l.pageNext, l.pageHead[k]) == kept + Along(l.pageNext, cur)
    && (forall j :: 0 <= j < PAGE_TBL && j != k ==> Along(l.pageNext, l.pageHead[j]) == e.pages[j])
    && (forall x :: x in Along(l.pageNext, l.pageHead[k]) ==> x in e.pages[k])
    && (forall n :: 0 <= n < |Along(l.pageNext, cur)| ==> Along(l.pageNext, cur)[n] < |l.arena|)
    && kept + Others(l.arena, Along(l.pageNext, cur), pa) == Others(l.arena, e.pages[k], pa)
    && UnlinkPage(Abs(l).(pages := e.pages), Along(l.pageNext, cur), pa) == UnlinkPage(e, e.pages[k], pa)
    && (AnyOn(e.arena, e.pages[k], pa) <==> dropped || AnyOn(l.arena, Along(l.pageNext, cur), pa))
  }

  predicate LinkAt(l: Linked, k: nat, p: int, cur: int)
    requires LinkedOk(l) && k < PAGE_TBL
  {
    if p == -1 then l.pageHead[k] == cur
    else 0 <= p < |l.arena| && p in Along(l.pageNext, l.pageHead[k]) && l.pageNext[p] == cur
  }

  lemma {:induction false} PageLoopStarts(l: Linked, k: nat, pa: bv64)
    requires LinkedOk(l) && Inv(Abs(l)) && k == PageIdx(pa)
    ensures -1 <= l.pageHead[k] < |l.arena| && PageLoop(Abs(l), l, k, pa, -1, l.pageHead[k], [], false)
  {
    hide PageIdx, Down, EdgesDown, Along, TableOk, PagesOk, Others, UnlinkPage, AnyOn;
    PageListBounds(Abs(l), k);
    var h := l.pageHead[k];
    assert [] + Along(l.pageNext, h) == Along(l.pageNext, h);
    assert [] + Others(l.arena, Along(l.pageNext, h), pa) == Others(l.arena, Along(l.pageNext, h), pa);
    assert Abs(l).(pages := Abs(l).pages) == Abs(l);
  }

  lemma {:induction false} PageLoopKeeps(e: Table, l: Linked, k: nat, pa: bv64, p: int, b: nat, kept: seq<nat>,
      dropped: bool)
    requires PageLoop(e, l, k, pa, p, b, kept, dropped) && l.arena[b].paPage != pa
    ensures PageLoop(e, l, k, pa, b, l.pageNext[b], kept + [b], dropped)
  {
    hide PageIdx, EdgesDown, Along, Inv, Unlink, Abs, Others, UnlinkPage, AnyOn;
    var next, cur := l.pageNext, l.pageNext[b];
    AlongStep(next, b);
    AlongBounds(next, cur);
    var rest := Along(next, cur);
    ListStep(Abs(l).(pages := e.pages), b, rest, pa);
    assert kept + ([b] + rest) == kept + [b] + rest;
    assert kept + ([b] + Others(l.arena, rest, pa)) == kept + [b] + Others(l.arena, rest, pa);
    assert b in Along(next, b) && b in Along(next, l.pageHead[k]);
    AnyStep(l.arena, b, rest, pa);
  }

  /** One element of a page chain. */
  lemma {:induction false} ListStep(e: Table, b: nat, rest: seq<nat>, pa: bv64)
    requires Sized(e) && b < |e.arena| && forall n :: 0 <= n < |rest| ==> rest[n] < |e.arena|
    ensures forall n :: 0 <= n < |[b] + rest| ==> ([b] + rest)[n] < |e.arena|
    ensures
      Others(e.arena, [b] + rest, pa) ==
        if e.arena[b].paPage == pa then Others(e.arena, rest, pa) else [b] + Others(e.arena, rest, pa)
    ensures
      var e' := if e.arena[b].paPage == pa then Unlink(e, b) else e;
      |e'.arena| == |e.arena| && UnlinkPage(e, [b] + rest, pa) == UnlinkPage(e', rest, pa)
  {
    hide Unlink;
    assert ([b] + rest)[1..] == rest;
    UnlinkArena(e, b);
  }

  /** In mid-step: b is off the chain but not yet off the hash table. */
  ghost predicate PageMid(e: Table, l: Linked, k: nat, pa: bv64, p: int, b: nat, cur: int, kept: seq<nat>) {
    && LinkedOk(l) && Inv(e) && l.arena == e.arena && k == PageIdx(pa) && -1 <= cur < |l.arena| && b < |l.arena|
    && (forall n :: 0 <= n < |e.pages[k]| ==> e.pages[k][n] < |e.arena|)
    && LinkAt(l, k, p, cur)
    && (forall x :: x in kept ==> x > cur)
    && Along(l.pageNext, l.pageHead[k]) == kept + Along(l.pageNext, cur)
    && (forall j :: 0 <= j < PAGE_TBL && j != k ==> Along(l.pageNext, l.pageHead[j]) == e.pages[j])
    && (forall x :: x in Along(l.pageNext, l.pageHead[k]) ==> x in e.pages[k])
    && (forall n :: 0 <= n < |Along(l.pageNext, cur)| ==> Along(l.pageNext, cur)[n] < |l.arena|)
    && kept + Others(l.arena, Along(l.pageNext, cur), pa) == Others(l.arena, e.pages[k], pa)
    && UnlinkPage(Unlink(Abs(l).(pages := e.pages), b), Along(l.pageNext, cur), pa) == UnlinkPage(e, e.pages[k], pa)
    && AnyOn(e.arena, e.pages[k], pa)
  }

  lemma {:induction false} WithoutMiddle(kept: seq<nat>, b: nat, rest: seq<nat>)
    requires b !in kept && b !in rest
    ensures Without(kept + [b] + rest, b) == kept + rest
  {
    if kept == [] {
      assert ([] + [b] + rest)[1..] == rest;
      WithoutAbsent(rest, b);
      assert [] + rest == rest;
    } else {
      assert (kept + [b] + rest)[1..] == kept[1..] + [b] + rest;
      WithoutMiddle(kept[1..], b, rest);
      assert [kept[0]] + (kept[1..] + rest) == kept + rest;
    }
  }

  /** Chains of distinct page buckets share no block. */
  lemma {:induction false} PagesApart(e: Table, l: Linked, k: nat, kept: seq<nat>, cur: int, pa: bv64)
    requires LinkedOk(l) && Inv(e) && l.arena == e.arena && k < PAGE_TBL && -1 <= cur < |l.arena|
    requires forall j :: 0 <= j < PAGE_TBL && j != k ==> Along(l.pageNext, l.pageHead[j]) == e.pages[j]
    requires forall x :: x in Along(l.pageNext, l.pageHead[k]) ==> x in e.pages[k]
    ensures forall j :: 0 <= j < PAGE_TBL && j != k ==>
      forall x :: x in Along(l.pageNext, l.pageHead[j]) ==> x !in Along(l.pageNext, l.pageHead[k])
  {
    hide PageIdx, Down, EdgesDown, Along, TableOk, Listed;
    forall j, x | 0 <= j < PAGE_TBL && j != k && x in Along(l.pageNext, l.pageHead[j])
      ensures x !in Along(l.pageNext, l.pageHead[k])
    {
    }
  }

  /** Linking past b leaves the kept blocks and the rest. */
  lemma {:induction false} PastChain(l: Linked, k: nat, p: int, b: nat, kept: seq<nat>)
    requires LinkedOk(l) && k < PAGE_TBL && b < |l.arena| && -1 <= p < |l.arena| && LinkAt(l, k, p, b)
    requires Along(l.pageNext, l.pageHead[k]) == kept + Along(l.pageNext, b) && forall x :: x in kept ==> x > b
    requires forall j :: 0 <= j < PAGE_TBL && j != k ==>
      forall x :: x in Along(l.pageNext, l.pageHead[j]) ==> x !in Along(l.pageNext, l.pageHead[k])
    ensures
      var cur := l.pageNext[b];
      var (next, heads) := Past(l.pageNext, l.pageHead, k, p, b);
      && Down(next) && HeadsOk(heads, |next|) && |next| == |l.arena| && |heads| == PAGE_TBL && -1 <= cur < b
      && Along(next, cur) == Along(l.pageNext, cur)
      && Along(next, heads[k]) == kept + Along(next, cur)
      && (forall j :: 0 <= j < PAGE_TBL && j != k ==> Along(next, heads[j]) == Along(l.pageNext, l.pageHead[j]))
  {
    hide EdgesDown, Along;
    var cur := l.pageNext[b];
    var (next, heads) := Past(l.pageNext, l.pageHead, k, p, b);
    PastRemoves(l.pageNext, l.pageHead, k, p, b);
    AlongStep(l.pageNext, b);
    var rest := Along(l.pageNext, cur);
    assert kept + Along(l.pageNext, b) == kept + [b] + rest;
    NotBelow(l.pageNext, cur, b);
    WithoutMiddle(kept, b, rest);
    ChainPrefix(l.pageNext, next, cur);
    assert Chains(next, heads)[k] == Along(next, heads[k]);
    forall j | 0 <= j < PAGE_TBL && j != k ensures Along(next, heads[j]) == Along(l.pageNext, l.pageHead[j]) {
      assert Chains(next, heads)[j] == Along(next, heads[j]);
    }
  }

  lemma NotBelow(next: seq<int>, h: int, b: nat)
    requires Down(next) && -1 <= h < |next| && h < b
    ensures b !in Along(next, h)
  {
    if b in Along(next, h) {
      ChainBelow(next, h, b);
    }
  }

  lemma {:induction false} PastLink(l: Linked, k: nat, p: int, b: nat, kept: seq<nat>)
    requires LinkedOk(l) && k < PAGE_TBL && b < |l.arena| && -1 <= p < |l.arena| && LinkAt(l, k, p, b)
    requires
      var (next, heads) := Past(l.pageNext, l.pageHead, k, p, b);
      && Down(next) && HeadsOk(heads, |next|) && |next| == |l.arena| && |heads| == PAGE_TBL
      && (p != -1 ==> p in Along(next, heads[k]))
    ensures
      var (next, heads) := Past(l.pageNext, l.pageHead, k, p, b);
      var l' := l.(pageNext := next, pageHead := heads);
      LinkedOk(l') && LinkAt(l', k, p, l.pageNext[b])
  {
    hide Along;
  }

  lemma {:induction false} PageLoopDrops(e: Table, l: Linked, k: nat, pa: bv64, p: int, b: nat, kept: seq<nat>,
      dropped: bool)
    requires PageLoop(e, l, k, pa, p, b, kept, dropped)
    requires l.arena[b].paPage == pa && TableOk(Abs(l)) && -1 <= p < |l.arena|
    ensures
      var (next, heads) := Past(l.pageNext, l.pageHead, k, p, b);
      var l' := l.(pageNext := next, pageHead := heads);
      PageMid(e, l', k, pa, p, b, l.pageNext[b], kept) && TableOk(Abs(l'))
  {
    hide PageIdx, EdgesDown, Along, Inv, Unlink, Past, TableOk, Chains, EdgeLists, Down, Others, UnlinkPage, AnyOn;
    var (next, heads) := Past(l.pageNext, l.pageHead, k, p, b);
    var l' := l.(pageNext := next, pageHead := heads);
    PagesApart(e, l, k, kept, b, pa);
    PastChain(l, k, p, b, kept);
    AlongStep(l.pageNext, b);
    var cur := l.pageNext[b];
    var rest := Along(l.pageNext, cur);
    AlongBounds(l.pageNext, cur);
    ListStep(Abs(l).(pages := e.pages), b, rest, pa);
    if p != -1 {
      KeptHas(l, k, p, b, kept);
    }
    PastLink(l, k, p, b, kept);
    SameTable(Abs(l), Abs(l'));
    assert Abs(l').(pages := e.pages) == Abs(l).(pages := e.pages);
    AnyStep(l.arena, b, rest, pa);
  }

  lemma {:induction false} KeptHas(l: Linked, k: nat, p: nat, b: nat, kept: seq<nat>)
    requires LinkedOk(l) && k < PAGE_TBL && b < |l.arena| && p < |l.arena| && LinkAt(l, k, p, b)
    requires Along(l.pageNext, l.pageHead[k]) == kept + Along(l.pageNext, b)
    ensures p in kept
  {
    if p in Along(l.pageNext, b) {
      ChainBelow(l.pageNext, b, p);
    }
  }

  lemma {:induction false} PageLoopUnlinked(e: Table, l: Linked, l': Linked, k: nat, pa: bv64, p: int, b: nat,
      cur: int, kept: seq<nat>)
    requires PageMid(e, l, k, pa, p, b, cur, kept) && LinkedOk(l')
    requires l'.pageNext == l.pageNext && l'.pageHead == l.pageHead && l'.arena == l.arena
    requires Abs(l') == Unlink(Abs(l), b)
    ensures PageLoop(e, l', k, pa, p, cur, kept, true)
  {
    hide PageIdx, EdgesDown, Along, Inv, HashIdx, Unpatch, Without, Chains, EdgeLists, Down, Others, UnlinkPage;
    assert Abs(l').(pages := e.pages) == Unlink(Abs(l).(pages := e.pages), b);
  }

  lemma {:induction false} PageLoopEnds(e: Table, l: Linked, k: nat, pa: bv64, p: int, kept: seq<nat>, dropped: bool)
    requires PageLoop(e, l, k, pa, p, -1, kept, dropped)
    ensures Abs(l) == BlockTable.DropPage(e, pa)
    ensures dropped <==> AnyOn(e.arena, e.pages[k], pa)
  {
    hide PageIdx, EdgesDown, Along, TableOk, PagesOk, Unlink, Down;
    TableSized(e);
    AlongStep(l.pageNext, -1);
    var d := BlockTable.DropPage(e, pa);
    assert kept + [] == kept;
    forall j | 0 <= j < PAGE_TBL ensures Abs(l).pages[j] == d.pages[j] {
    }
    assert Abs(l).(pages := e.pages).(pages := d.pages) == Abs(l);
  }

  lemma {:induction false} AnyStep(arena: seq<Block>, b: nat, rest: seq<nat>, pa: bv64)
    requires b < |arena| && forall n :: 0 <= n < |rest| ==> rest[n] < |arena|
    ensures AnyOn(arena, [b] + rest, pa) <==> arena[b].paPage == pa || AnyOn(arena, rest, pa)
  {
    var list := [b] + rest;
    if arena[b].paPage == pa {
      assert arena[list[0]].paPage == pa;
    }
    if n :| 0 <= n < |rest| && arena[rest[n]].paPage == pa {
      assert list[n + 1] == rest[n];
    }
  }

  lemma LinkedParts(l: Linked)
    requires LinkedOk(l)
    ensures |l.hashHead| == HASH_SIZE && |l.pageHead| == PAGE_TBL && |l.inHead| == |l.arena| && |l.jumps| == |l.arena|
  {
  }
}
