/**
 The translated-block table on values: hash and page chains, and patched exits with
 their incoming-edge lists.
 */
module BlockTable {

  const HASH_SIZE: nat := 16384
  const PAGE_TBL: nat := 4096
  const MAX_BLOCKS: nat := 65536
  const JC_SIZE: nat := 4096
  const DIRTY_MAX: nat := 1024

  /** Guest entry, lookup key, host page of the code, its physical page, chainable successors. */
  datatype Block = Block(pc: bv64, tag: bv64, host: bv64, paPage: bv64, exit0: bv64, exit1: bv64)

  /** One chained jump: slot 0 or 1 of a block. */
  datatype Edge = Edge(from: nat, second: bool)

  /** Where each exit of a block jumps: a block index, or -1 for the dispatcher stub. */
  datatype Jumps = Jumps(first: int, second: int)

  const STUBS := Jumps(-1, -1)

  /** tag and the block whose code the entry names. */
  datatype JEntry = JEntry(tag: bv64, code: int)

  datatype Table = Table(
    arena: seq<Block>,
    hash: seq<seq<nat>>,
    pages: seq<seq<nat>>,
    jumps: seq<Jumps>,
    incoming: seq<seq<Edge>>,
    nedges: nat)

  function HashIdx(tag: bv64): (k: nat)
    ensures k < HASH_SIZE
  {
    (((tag >> 4) & 0x3fff) as bv14) as int
  }

  function PageIdx(pa: bv64): (k: nat)
    ensures k < PAGE_TBL
  {
    (((pa >> 12) & 0xfff) as bv12) as int
  }

  function Exit(b: Block, second: bool): bv64 {
    if second then b.exit1 else b.exit0
  }

  function Target(j: Jumps, second: bool): int {
    if second then j.second else j.first
  }

  function Retarget(j: Jumps, second: bool, t: int): Jumps {
    if second then j.(second := t) else j.(first := t)
  }

  /** Same page, same context bits, and the successor the exit was built for. */
  predicate Compatible(from: Block, second: bool, to: Block) {
    && Exit(from, second) == to.pc
    && (from.tag ^ to.tag) & 0x1f == 0
    && (from.pc ^ to.pc) & 0xffff_ffff_ffff_f000 == 0
  }

  predicate Sized(e: Table) {
    |e.hash| == HASH_SIZE && |e.pages| == PAGE_TBL && |e.jumps| == |e.arena| && |e.incoming| == |e.arena|
  }

  predicate Listed(e: Table, i: int): (r: bool)
    requires Sized(e)
    ensures r ==> 0 <= i < |e.arena|
  {
    0 <= i < |e.arena| && i in e.hash[HashIdx(e.arena[i].tag)]
  }

  predicate Distinct<T(==)>(s: seq<T>) {
    forall a, b :: 0 <= a < b < |s| ==> s[a] != s[b]
  }

  /** A bucket holds, once each, blocks that hash to it. */
  predicate BucketOk(e: Table, k: nat, list: seq<nat>) {
    Distinct(list) && forall n :: 0 <= n < |list| ==> list[n] < |e.arena| && HashIdx(e.arena[list[n]].tag) == k
  }

  ghost predicate HashOk(e: Table)
    requires Sized(e)
  {
    forall k :: 0 <= k < HASH_SIZE ==> BucketOk(e, k, e.hash[k])
  }

  /** No two listed blocks answer the same lookup. */
  ghost predicate Unique(e: Table)
    requires Sized(e)
  {
    forall i, j ::
      Listed(e, i) && Listed(e, j) && e.arena[i].tag == e.arena[j].tag && e.arena[i].host == e.arena[j].host ==> i == j
  }

  /** Every edge in the list of t is a patched exit that jumps to t, once, and t is listed. */
  predicate IncomingOk(e: Table, t: nat)
    requires Sized(e) && t < |e.arena|
  {
    && Distinct(e.incoming[t])
    && (e.incoming[t] != [] ==> Listed(e, t))
    && forall n :: 0 <= n < |e.incoming[t]| ==>
         var g := e.incoming[t][n];
         g.from < |e.arena| && Target(e.jumps[g.from], g.second) == t
  }

  /** A patched exit jumps to a listed compatible block that has it in its list. */
  predicate ExitOk(e: Table, f: nat, second: bool)
    requires Sized(e) && f < |e.arena|
  {
    var t := Target(e.jumps[f], second);
    t == -1 || (Listed(e, t) && Edge(f, second) in e.incoming[t] && Compatible(e.arena[f], second, e.arena[t]))
  }

  ghost predicate LinksOk(e: Table)
    requires Sized(e)
  {
    && (forall t :: 0 <= t < |e.arena| ==> IncomingOk(e, t))
    && (forall f, second :: 0 <= f < |e.arena| ==> ExitOk(e, f, second))
  }

  /** A page bucket holds, once each, exactly the listed blocks of its pages. */
  ghost predicate PagesOk(e: Table)
    requires Sized(e)
  {
    && (forall k, n :: 0 <= k < PAGE_TBL && 0 <= n < |e.pages[k]| ==> PageMember(e, k, e.pages[k][n]))
    && (forall i :: Listed(e, i) ==> i in e.pages[PageIdx(e.arena[i].paPage)])
  }

  predicate PageMember(e: Table, k: nat, i: nat)
    requires Sized(e)
  {
    Listed(e, i) && PageIdx(e.arena[i].paPage) == k
  }

  ghost predicate TableOk(e: Table) {
    Sized(e) && HashOk(e) && Unique(e) && LinksOk(e)
  }

  ghost predicate Inv(e: Table) {
    TableOk(e) && PagesOk(e)
  }

  // ---- Operations ----

  /** jit_lookup along a chain. */
  function Find(arena: seq<Block>, list: seq<nat>, tag: bv64, host: bv64): (r: int)
    requires forall n :: 0 <= n < |list| ==> list[n] < |arena|
    ensures r == -1 || (r in list && arena[r].tag == tag && arena[r].host == host)
    ensures r == -1 ==> forall n :: 0 <= n < |list| ==> !(arena[list[n]].tag == tag && arena[list[n]].host == host)
  {
    if list == [] then -1
    else if arena[list[0]].tag == tag && arena[list[0]].host == host then list[0]
    else Find(arena, list[1..], tag, host)
  }

  function Lookup(e: Table, tag: bv64, host: bv64): (r: int)
    requires Sized(e) && HashOk(e)
  {
    assert BucketOk(e, HashIdx(tag), e.hash[HashIdx(tag)]);
    Find(e.arena, e.hash[HashIdx(tag)], tag, host)
  }

  /** A lookup finds the one listed block for (tag, host), exactly when there is one. */
  lemma {:induction false} LookupFinds(e: Table, tag: bv64, host: bv64)
    requires TableOk(e)
    ensures
      var r := Lookup(e, tag, host);
      forall i :: Listed(e, i) && e.arena[i].tag == tag && e.arena[i].host == host <==> r != -1 && i == r
  {
    hide HashIdx, LinksOk;
    var r := Lookup(e, tag, host);
    var k := HashIdx(tag);
    assert BucketOk(e, k, e.hash[k]);
    forall i ensures Listed(e, i) && e.arena[i].tag == tag && e.arena[i].host == host <==> r != -1 && i == r {
      if Listed(e, i) && e.arena[i].tag == tag && e.arena[i].host == host {
        assert i in e.hash[k];
        if r != -1 {
          assert Listed(e, r);
        }
      }
    }
  }

  /** The new table after translating a block the table lacks. */
  function Insert(e: Table, b: Block): (r: Table)
    requires Sized(e)
    ensures Sized(r)
  {
    var i, k, p := |e.arena|, HashIdx(b.tag), PageIdx(b.paPage);
    Table(e.arena + [b], e.hash[k := [i] + e.hash[k]], e.pages[p := [i] + e.pages[p]],
      e.jumps + [STUBS], e.incoming + [[]], e.nedges)
  }

  function Without(s: seq<nat>, i: nat): (r: seq<nat>)
    ensures forall x :: x in r <==> x in s && x != i
  {
    if s == [] then [] else if s[0] == i then Without(s[1..], i) else [s[0]] + Without(s[1..], i)
  }

  /** Every exit in the list goes back to its stub. */
  function Unpatch(jumps: seq<Jumps>, list: seq<Edge>): (r: seq<Jumps>)
    ensures |r| == |jumps|
    decreases |list|
  {
    if list == [] then jumps
    else
      var g := list[0];
      var j := if g.from < |jumps| then jumps[g.from := Retarget(jumps[g.from], g.second, -1)] else jumps;
      Unpatch(j, list[1..])
  }

  /** jit_unlink_block */
  function Unlink(e: Table, i: nat): (r: Table)
    requires Sized(e) && i < |e.arena|
    ensures Sized(r)
  {
    var k := HashIdx(e.arena[i].tag);
    e.(hash := e.hash[k := Without(e.hash[k], i)],
    jumps := Unpatch(e.jumps, e.incoming[i]),
    incoming := e.incoming[i := []])
  }

  /** The chain of a page, without that page's blocks. */
  function Others(arena: seq<Block>, list: seq<nat>, pa: bv64): (r: seq<nat>)
    requires forall n :: 0 <= n < |list| ==> list[n] < |arena|
    ensures forall x :: x in r <==> x in list && arena[x].paPage != pa
  {
    if list == [] then []
    else if arena[list[0]].paPage == pa then Others(arena, list[1..], pa)
    else [list[0]] + Others(arena, list[1..], pa)
  }

  function UnlinkPage(e: Table, list: seq<nat>, pa: bv64): (r: Table)
    requires Sized(e) && forall n :: 0 <= n < |list| ==> list[n] < |e.arena|
    ensures Sized(r) && r.arena == e.arena && r.pages == e.pages && r.nedges == e.nedges
    decreases |list|
  {
    if list == [] then e
    else
      UnlinkPage(if e.arena[list[0]].paPage == pa then Unlink(e, list[0]) else e, list[1..], pa)
  }

  /** jit_drop_page, without the indirect-branch cache. */
  function DropPage(e: Table, pa: bv64): (r: Table)
    requires Sized(e) && forall n :: 0 <= n < |e.pages[PageIdx(pa)]| ==> e.pages[PageIdx(pa)][n] < |e.arena|
    ensures Sized(r) && r.arena == e.arena
  {
    var list := e.pages[PageIdx(pa)];
    UnlinkPage(e, list, pa).(pages := e.pages[PageIdx(pa) := Others(e.arena, list, pa)])
  }

  function Fresh(): (e: Table)
    ensures Sized(e)
  {
    Table([], seq(HASH_SIZE, _ => []), seq(PAGE_TBL, _ => []), [], [], 0)
  }

  /** The guard under which the dispatcher chains an exit. */
  predicate MayChain(e: Table, f: nat, second: bool, t: nat): (r: bool)
    requires Sized(e) && HashOk(e)
    ensures r ==> f < |e.arena| && t < |e.arena|
  {
    && f < |e.arena| && t < |e.arena|
    && Compatible(e.arena[f], second, e.arena[t])
    && Target(e.jumps[f], second) == -1
    && Lookup(e, e.arena[f].tag, e.arena[f].host) == f
    && e.nedges < 2 * MAX_BLOCKS
  }

  function Chain(e: Table, f: nat, second: bool, t: nat): (r: Table)
    requires Sized(e) && f < |e.arena| && t < |e.arena|
    ensures Sized(r)
  {
    e.(jumps := e.jumps[f := Retarget(e.jumps[f], second, t)],
    incoming := e.incoming[t := [Edge(f, second)] + e.incoming[t]],
    nedges := e.nedges + 1)
  }

  // ---- Insertion ----

  lemma {:induction false} InsertLists(e: Table, b: Block, i: int)
    requires Sized(e) && HashOk(e)
    ensures Sized(Insert(e, b)) && (Listed(Insert(e, b), i) <==> Listed(e, i) || i == |e.arena|)
  {
    hide HashIdx, PageIdx;
    var e' := Insert(e, b);
    var k := HashIdx(b.tag);
    assert e'.hash[k] == [|e.arena|] + e.hash[k];
    if 0 <= i < |e.arena| {
      assert e'.arena[i] == e.arena[i];
    }
  }

  lemma {:induction false} InsertHash(e: Table, b: Block)
    requires Sized(e) && HashOk(e)
    ensures HashOk(Insert(e, b))
  {
    hide HashIdx, PageIdx;
    var e' := Insert(e, b);
    forall k | 0 <= k < HASH_SIZE ensures BucketOk(e', k, e'.hash[k]) {
      assert BucketOk(e, k, e.hash[k]);
      assert forall n :: 0 <= n < |e.hash[k]| ==> e'.arena[e.hash[k][n]] == e.arena[e.hash[k][n]];
    }
  }

  lemma {:induction false} InsertUnique(e: Table, b: Block)
    requires TableOk(e) && Lookup(e, b.tag, b.host) == -1
    ensures Unique(Insert(e, b))
  {
    hide HashIdx, PageIdx, Lookup, LinksOk, HashOk, Listed;
    var e' := Insert(e, b);
    LookupFinds(e, b.tag, b.host);
    forall i, j |
      Listed(e', i) && Listed(e', j) && e'.arena[i].tag == e'.arena[j].tag && e'.arena[i].host == e'.arena[j].host
      ensures i == j
    {
      InsertLists(e, b, i);
      InsertLists(e, b, j);
    }
  }

  lemma {:induction false} InsertIncoming(e: Table, b: Block, t: nat)
    requires TableOk(e) && t <= |e.arena|
    ensures IncomingOk(Insert(e, b), t)
  {
    hide HashIdx, PageIdx, HashOk, Unique, Listed, Target;
    var e' := Insert(e, b);
    if t < |e.arena| {
      assert IncomingOk(e, t);
      InsertLists(e, b, t);
    }
  }

  lemma {:induction false} InsertExit(e: Table, b: Block, f: nat, second: bool)
    requires TableOk(e) && f <= |e.arena|
    ensures ExitOk(Insert(e, b), f, second)
  {
    hide HashIdx, PageIdx, HashOk, Unique, Listed, Compatible;
    var e' := Insert(e, b);
    if f < |e.arena| {
      assert ExitOk(e, f, second);
      var t := Target(e.jumps[f], second);
      if t != -1 {
        InsertLists(e, b, t);
      }
    }
  }

  lemma {:induction false} InsertPages(e: Table, b: Block)
    requires Inv(e)
    ensures PagesOk(Insert(e, b))
  {
    hide HashIdx, PageIdx, LinksOk, Unique, Listed, HashOk;
    var e' := Insert(e, b);
    var p := PageIdx(b.paPage);
    forall k, n | 0 <= k < PAGE_TBL && 0 <= n < |e'.pages[k]| ensures PageMember(e', k, e'.pages[k][n]) {
      var i := e'.pages[k][n];
      InsertLists(e, b, i);
      if i != |e.arena| {
        var n0 := if k == p then n - 1 else n;
        assert e.pages[k][n0] == i && PageMember(e, k, i);
      }
    }
    forall i | Listed(e', i) ensures i in e'.pages[PageIdx(e'.arena[i].paPage)] {
      InsertLists(e, b, i);
    }
  }

  /** Translating a block the table lacks. */
  lemma {:induction false} InsertKeeps(e: Table, b: Block)
    requires Inv(e) && Lookup(e, b.tag, b.host) == -1
    ensures Inv(Insert(e, b))
  {
    hide HashOk, Unique, PagesOk, Lookup, IncomingOk, ExitOk;
    var e' := Insert(e, b);
    InsertHash(e, b);
    InsertUnique(e, b);
    InsertPages(e, b);
    forall t | 0 <= t < |e'.arena| ensures IncomingOk(e', t) {
      InsertIncoming(e, b, t);
    }
    forall f, second | 0 <= f < |e'.arena| ensures ExitOk(e', f, second) {
      InsertExit(e, b, f, second);
    }
  }

  // ---- Unlinking ----

  lemma {:induction false} UnpatchMeans(jumps: seq<Jumps>, list: seq<Edge>, f: nat, second: bool)
    requires f < |jumps|
    ensures Target(Unpatch(jumps, list)[f], second) == if Edge(f, second) in list then -1 else Target(jumps[f], second)
    decreases |list|
  {
    if list != [] {
      var g := list[0];
      var j := if g.from < |jumps| then jumps[g.from := Retarget(jumps[g.from], g.second, -1)] else jumps;
      UnpatchMeans(j, list[1..], f, second);
      assert Edge(f, second) in list <==> g == Edge(f, second) || Edge(f, second) in list[1..];
    }
  }

  lemma {:induction false} WithoutDistinct(s: seq<nat>, i: nat)
    requires Distinct(s)
    ensures Distinct(Without(s, i))
  {
    if s != [] {
      var rest := s[1..];
      assert forall n :: 0 <= n < |rest| ==> rest[n] == s[n + 1];
      WithoutDistinct(rest, i);
      var r := Without(rest, i);
      forall b | 0 <= b < |r| ensures r[b] != s[0] {
        assert r[b] in r && r[b] in rest;
      }
    }
  }

  lemma {:induction false} UnlinkLists(e: Table, i: nat, j: int)
    requires Sized(e) && i < |e.arena|
    ensures Sized(Unlink(e, i)) && (Listed(Unlink(e, i), j) <==> Listed(e, j) && j != i)
  {
    hide HashIdx, Unpatch;
  }

  lemma {:induction false} UnlinkHash(e: Table, i: nat)
    requires Sized(e) && HashOk(e) && i < |e.arena|
    ensures HashOk(Unlink(e, i))
  {
    hide HashIdx, Unpatch, Distinct;
    var e' := Unlink(e, i);
    forall k | 0 <= k < HASH_SIZE ensures BucketOk(e', k, e'.hash[k]) {
      assert BucketOk(e, k, e.hash[k]);
      WithoutDistinct(e.hash[k], i);
      assert forall x :: x in e.hash[k] ==> x < |e.arena| && HashIdx(e.arena[x].tag) == k;
      assert forall n :: 0 <= n < |e'.hash[k]| ==> e'.hash[k][n] in e'.hash[k];
    }
  }

  lemma {:induction false} UnlinkUnique(e: Table, i: nat)
    requires Sized(e) && Unique(e) && i < |e.arena|
    ensures Unique(Unlink(e, i))
  {
    hide HashIdx, Unpatch, Listed;
    var e' := Unlink(e, i);
    forall a, b |
      Listed(e', a) && Listed(e', b) && e'.arena[a].tag == e'.arena[b].tag && e'.arena[a].host == e'.arena[b].host
      ensures a == b
    {
      UnlinkLists(e, i, a);
      UnlinkLists(e, i, b);
    }
  }

  lemma {:induction false} UnlinkIncoming(e: Table, i: nat, t: nat)
    requires TableOk(e) && i < |e.arena| && t < |e.arena|
    ensures IncomingOk(Unlink(e, i), t)
  {
    hide HashIdx, Unpatch, Listed, HashOk, Unique, Target, Distinct;
    var e' := Unlink(e, i);
    assert IncomingOk(e, t) && IncomingOk(e, i);
    UnlinkLists(e, i, t);
    if t != i {
      forall n | 0 <= n < |e'.incoming[t]|
        ensures
          var g := e'.incoming[t][n];
          g.from < |e'.arena| && Target(e'.jumps[g.from], g.second) == t
      {
        var g := e.incoming[t][n];
        UnpatchMeans(e.jumps, e.incoming[i], g.from, g.second);
      }
    } else {
      NoEdges(e', t);
    }
  }

  lemma NoEdges(e: Table, t: nat)
    requires Sized(e) && t < |e.arena| && e.incoming[t] == []
    ensures IncomingOk(e, t)
  {
  }

  lemma {:induction false} UnlinkExit(e: Table, i: nat, f: nat, second: bool)
    requires TableOk(e) && i < |e.arena| && f < |e.arena|
    ensures ExitOk(Unlink(e, i), f, second)
  {
    hide HashIdx, Unpatch, Listed, HashOk, Unique, Target, Distinct, Compatible;
    var e' := Unlink(e, i);
    assert ExitOk(e, f, second);
    UnpatchMeans(e.jumps, e.incoming[i], f, second);
    var t := Target(e.jumps[f], second);
    if t != -1 {
      UnlinkLists(e, i, t);
    }
  }

  /** Unlinking drops that block alone, and leaves no exit jumping to it. */
  lemma {:induction false} UnlinkKeeps(e: Table, i: nat)
    requires TableOk(e) && i < |e.arena|
    ensures TableOk(Unlink(e, i))
    ensures forall f, second :: 0 <= f < |e.arena| ==> Target(Unlink(e, i).jumps[f], second) != i
  {
    hide HashOk, Unique, IncomingOk, ExitOk, Unpatch, Target;
    var e' := Unlink(e, i);
    UnlinkHash(e, i);
    UnlinkUnique(e, i);
    forall t | 0 <= t < |e'.arena| ensures IncomingOk(e', t) {
      UnlinkIncoming(e, i, t);
    }
    forall f, second | 0 <= f < |e'.arena| ensures ExitOk(e', f, second) && Target(e'.jumps[f], second) != i {
      UnlinkExit(e, i, f, second);
      NotToUnlinked(e', i, f, second);
    }
  }

  lemma NotToUnlinked(e: Table, i: nat, f: nat, second: bool)
    requires Sized(e) && i < |e.arena| && f < |e.arena| && ExitOk(e, f, second) && e.incoming[i] == []
    ensures Target(e.jumps[f], second) != i
  {
    hide Target, Compatible, HashIdx;
  }

  // ---- Chaining ----

  lemma {:induction false} ChainExit(e: Table, f: nat, second: bool, t: nat, g: nat, side: bool)
    requires TableOk(e) && MayChain(e, f, second, t) && Listed(e, t) && g < |e.arena|
    ensures ExitOk(Chain(e, f, second, t), g, side)
  {
    hide HashIdx, HashOk, Unique, Compatible, Lookup;
    assert ExitOk(e, g, side);
  }

  lemma {:induction false} ChainIncoming(e: Table, f: nat, second: bool, t: nat, u: nat)
    requires TableOk(e) && MayChain(e, f, second, t) && Listed(e, t) && u < |e.arena|
    ensures IncomingOk(Chain(e, f, second, t), u)
  {
    hide HashIdx, HashOk, Unique, Compatible, Lookup;
    assert IncomingOk(e, u);
    var e' := Chain(e, f, second, t);
    forall n | 0 <= n < |e.incoming[u]| ensures e.incoming[u][n] != Edge(f, second) {
      var g := e.incoming[u][n];
      assert Target(e.jumps[g.from], g.second) == u;
    }
  }

  /** Chaining an exit that the guard allows to a listed block. */
  lemma {:induction false} ChainKeeps(e: Table, f: nat, second: bool, t: nat)
    requires Inv(e) && MayChain(e, f, second, t) && Listed(e, t)
    ensures Inv(Chain(e, f, second, t)) && Target(Chain(e, f, second, t).jumps[f], second) == t
  {
    hide HashIdx, IncomingOk, ExitOk, Lookup, Compatible;
    var e' := Chain(e, f, second, t);
    forall i ensures Listed(e', i) == Listed(e, i) {
    }
    SameLists(e, e');
    forall u | 0 <= u < |e'.arena| ensures IncomingOk(e', u) {
      ChainIncoming(e, f, second, t, u);
    }
    forall g, side | 0 <= g < |e'.arena| ensures ExitOk(e', g, side) {
      ChainExit(e, f, second, t, g, side);
    }
  }

  lemma {:induction false} SameLists(e: Table, e': Table)
    requires Inv(e) && Sized(e') && e'.arena == e.arena && e'.hash == e.hash && e'.pages == e.pages
    ensures HashOk(e') && Unique(e') && PagesOk(e')
  {
    hide HashIdx, PageIdx, LinksOk;
    forall i ensures Listed(e', i) == Listed(e, i) {
    }
    forall k | 0 <= k < HASH_SIZE ensures BucketOk(e', k, e'.hash[k]) {
      assert BucketOk(e, k, e.hash[k]);
    }
    forall k, n | 0 <= k < PAGE_TBL && 0 <= n < |e'.pages[k]| ensures PageMember(e', k, e'.pages[k][n]) {
      assert PageMember(e, k, e.pages[k][n]);
    }
  }

  // ---- Dropping a page ----

  lemma {:induction false} UnlinkPageLists(e: Table, list: seq<nat>, pa: bv64, j: int)
    requires Sized(e) && forall n :: 0 <= n < |list| ==> list[n] < |e.arena|
    ensures Listed(UnlinkPage(e, list, pa), j) <==> Listed(e, j) && !(j in list && e.arena[j].paPage == pa)
    decreases |list|
  {
    hide HashIdx, Unlink, Listed;
    if list != [] {
      var i := list[0];
      var e1 := if e.arena[i].paPage == pa then Unlink(e, i) else e;
      UnlinkLists(e, i, j);
      assert e1.arena == e.arena by {
        UnlinkArena(e, i);
      }
      UnlinkPageLists(e1, list[1..], pa, j);
    }
  }

  lemma UnlinkArena(e: Table, i: nat)
    requires Sized(e) && i < |e.arena|
    ensures Unlink(e, i).arena == e.arena && Unlink(e, i).pages == e.pages && Unlink(e, i).nedges == e.nedges
  {
    hide Unpatch, Without, HashIdx;
  }

  lemma {:induction false} UnlinkPageKeeps(e: Table, list: seq<nat>, pa: bv64)
    requires TableOk(e) && forall n :: 0 <= n < |list| ==> list[n] < |e.arena|
    ensures TableOk(UnlinkPage(e, list, pa))
    decreases |list|
  {
    hide TableOk, Unlink;
    if list != [] {
      var i := list[0];
      TableSized(e);
      UnlinkArena(e, i);
      if e.arena[i].paPage == pa {
        UnlinkKeeps(e, i);
        UnlinkPageKeeps(Unlink(e, i), list[1..], pa);
      } else {
        UnlinkPageKeeps(e, list[1..], pa);
      }
    }
  }

  lemma TableSized(e: Table)
    requires TableOk(e)
    ensures Sized(e)
  {
  }

  lemma {:induction false} PageListBounds(e: Table, k: nat)
    requires Inv(e) && k < PAGE_TBL
    ensures forall n :: 0 <= n < |e.pages[k]| ==> e.pages[k][n] < |e.arena|
  {
    hide HashOk, Unique, LinksOk, Listed, PageIdx;
    forall n | 0 <= n < |e.pages[k]| ensures e.pages[k][n] < |e.arena| {
      assert PageMember(e, k, e.pages[k][n]);
    }
  }

  /** Dropping a page takes exactly that page's blocks off the table. */
  lemma {:induction false} DropPageLists(e: Table, pa: bv64, j: int)
    requires Inv(e)
    ensures forall n :: 0 <= n < |e.pages[PageIdx(pa)]| ==> e.pages[PageIdx(pa)][n] < |e.arena|
    ensures Sized(DropPage(e, pa))
    ensures Listed(DropPage(e, pa), j) <==> Listed(e, j) && e.arena[j].paPage != pa
  {
    hide HashIdx, PageIdx, UnlinkPage, TableOk, Others;
    TableSized(e);
    PageListBounds(e, PageIdx(pa));
    var list := e.pages[PageIdx(pa)];
    UnlinkPageLists(e, list, pa, j);
    assert DropPage(e, pa).hash == UnlinkPage(e, list, pa).hash;
  }

  lemma {:induction false} DropPagePages(e: Table, pa: bv64)
    requires Inv(e)
    ensures
      forall n :: 0 <= n < |e.pages[PageIdx(pa)]| ==> e.pages[PageIdx(pa)][n] < |e.arena|
    ensures Sized(DropPage(e, pa)) && PagesOk(DropPage(e, pa))
  {
    hide HashIdx, PageIdx, UnlinkPage, TableOk, Others, Listed;
    TableSized(e);
    PageListBounds(e, PageIdx(pa));
    DropPageLists(e, pa, 0);
    var p := PageIdx(pa);
    var e' := DropPage(e, pa);
    forall k, n | 0 <= k < PAGE_TBL && 0 <= n < |e'.pages[k]| ensures PageMember(e', k, e'.pages[k][n]) {
      var i := e'.pages[k][n];
      assert i in e'.pages[k] && i in e.pages[k];
      var n0 :| 0 <= n0 < |e.pages[k]| && e.pages[k][n0] == i;
      assert PageMember(e, k, e.pages[k][n0]);
      DropPageLists(e, pa, i);
    }
    forall i | Listed(e', i) ensures i in e'.pages[PageIdx(e'.arena[i].paPage)] {
      DropPageLists(e, pa, i);
    }
  }

  lemma {:induction false} DropPageKeeps(e: Table, pa: bv64)
    requires Inv(e)
    ensures
      forall n :: 0 <= n < |e.pages[PageIdx(pa)]| ==> e.pages[PageIdx(pa)][n] < |e.arena|
    ensures Inv(DropPage(e, pa))
  {
    hide HashIdx, PageIdx, UnlinkPage, PagesOk, Others;
    DropPagePages(e, pa);
    var list := e.pages[PageIdx(pa)];
    UnlinkPageKeeps(e, list, pa);
    SameTable(UnlinkPage(e, list, pa), DropPage(e, pa));
  }

  lemma {:induction false} SameTable(e: Table, e': Table)
    requires TableOk(e) && Sized(e')
    requires e'.arena == e.arena && e'.hash == e.hash && e'.jumps == e.jumps && e'.incoming == e.incoming
    ensures TableOk(e')
  {
    hide HashIdx, Compatible;
    forall i ensures Listed(e', i) == Listed(e, i) {
    }
    forall k | 0 <= k < HASH_SIZE ensures BucketOk(e', k, e'.hash[k]) {
      assert BucketOk(e, k, e.hash[k]);
    }
    forall t | 0 <= t < |e'.arena| ensures IncomingOk(e', t) {
      assert IncomingOk(e, t);
    }
    forall f, second | 0 <= f < |e'.arena| ensures ExitOk(e', f, second) {
      assert ExitOk(e, f, second);
    }
  }

  lemma FreshOk()
    ensures Inv(Fresh())
  {
  }
}
