/**
 The block-local register allocator: virtual registers cached in a pool of host
 registers, evicted least recently used, written back when dirty.
 */
module Allocator {
  import opened Ir
  import opened HostCode

  const POOL: seq<nat> := [19, 20, 21, 22, 23, 24, 25, 26, 9, 10, 11, 12, 13, 14, 15]
  const NOBODY: int := 36

  predicate InPool(h: int): (r: bool)
    ensures r ==> 9 <= h <= 26 && h != 16 && h != 17
  {
    9 <= h <= 15 || 19 <= h <= 26
  }

  datatype Ra = Ra(v2h: seq<int>, h2v: seq<int>, dirty: seq<bool>, lru: seq<nat>, stamp: nat)

  /** v2h and h2v are mutually inverse, only mapped registers are dirty, and the zero register never is. */
  predicate VregOk(ra: Ra, v: nat)
    requires |ra.v2h| == VREGS && |ra.h2v| == HREGS && |ra.dirty| == VREGS && v < VREGS
  {
    && (ra.v2h[v] == -1 || (InPool(ra.v2h[v]) && ra.h2v[ra.v2h[v]] == v))
    && (ra.dirty[v] ==> ra.v2h[v] != -1 && v != ZERO)
  }

  predicate HregOk(ra: Ra, h: nat)
    requires |ra.v2h| == VREGS && |ra.h2v| == HREGS && |ra.lru| == HREGS && h < HREGS
  {
    && (ra.h2v[h] == NOBODY || (InPool(h) && 0 <= ra.h2v[h] < VREGS && ra.v2h[ra.h2v[h]] == h))
    && ra.lru[h] <= ra.stamp
  }

  predicate RaOk(ra: Ra) {
    && |ra.v2h| == VREGS && |ra.h2v| == HREGS && |ra.dirty| == VREGS && |ra.lru| == HREGS
    && (forall v :: 0 <= v < VREGS ==> VregOk(ra, v))
    && (forall h :: 0 <= h < HREGS ==> HregOk(ra, h))
  }

  /** Registers of operands already fetched: mapped, and more recent than all others. */
  ghost predicate Kept(ra: Ra, keep: set<nat>)
    requires RaOk(ra)
  {
    && (forall h :: h in keep ==> InPool(h) && ra.h2v[h] != NOBODY)
    && (forall h, k :: h in keep && InPool(k) && k !in keep ==> ra.lru[k] < ra.lru[h])
  }

  datatype Got = Got(ra: Ra, h: nat, code: seq<Insn>)

  lemma PoolIsPool(i: nat)
    requires i < |POOL|
    ensures InPool(POOL[i])
  {
  }

  lemma PoolHas(h: nat)
    requires InPool(h)
    ensures exists i :: 0 <= i < |POOL| && POOL[i] == h
  {
    var i := if h >= 19 then h - 19 else h - 1;
    assert POOL[i] == h;
  }

  /** The least recently used of the first i, as the scan has it. */
  predicate Leads(ra: Ra, i: nat, best: int)
    requires RaOk(ra) && i <= |POOL|
  {
    if i == 0 then best == -1
    else InPool(best) && forall k :: 0 <= k < i ==> ra.h2v[POOL[k]] != NOBODY && ra.lru[best] <= ra.lru[POOL[k]]
  }

  /** ra_alloc's scan: the first free register, else the least recently used. */
  function Pick(ra: Ra, i: nat, best: int): (h: nat)
    requires RaOk(ra) && i <= |POOL| && Leads(ra, i, best)
    ensures InPool(h)
    ensures ra.h2v[h] == NOBODY || forall k :: 0 <= k < |POOL| ==> ra.lru[h] <= ra.lru[POOL[k]]
    decreases |POOL| - i
  {
    if i == |POOL| then best
    else
      PoolIsPool(i);
      var h := POOL[i];
      if ra.h2v[h] == NOBODY then h
      else Pick(ra, i + 1, if best == -1 || ra.lru[h] < ra.lru[best] then h else best)
  }

  /** The maps with a register freed. */
  function Freed(ra: Ra, h: nat): Ra
    requires RaOk(ra) && InPool(h) && ra.h2v[h] != NOBODY
  {
    assert HregOk(ra, h);
    var v := ra.h2v[h];
    ra.(v2h := ra.v2h[v := -1], h2v := ra.h2v[h := NOBODY], dirty := ra.dirty[v := false])
  }

  lemma {:induction false} FreedOk(ra: Ra, h: nat)
    requires RaOk(ra) && InPool(h) && ra.h2v[h] != NOBODY
    ensures RaOk(Freed(ra, h))
  {
    assert HregOk(ra, h);
    var e := Freed(ra, h);
    forall v | 0 <= v < VREGS ensures VregOk(e, v) {
      assert VregOk(ra, v);
    }
    forall k | 0 <= k < HREGS ensures HregOk(e, k) {
      assert HregOk(ra, k);
    }
  }

  function Map(ra: Ra, v: nat, h: nat, dirty: bool): Ra
    requires RaOk(ra) && v < VREGS && InPool(h)
  {
    ra.(v2h := ra.v2h[v := h], h2v := ra.h2v[h := v], dirty := ra.dirty[v := dirty])
  }

  lemma {:induction false} MapOk(ra: Ra, v: nat, h: nat, dirty: bool)
    requires RaOk(ra) && v < VREGS && InPool(h) && (dirty ==> v != ZERO)
    requires (ra.h2v[h] == NOBODY && ra.v2h[v] == -1) || (ra.h2v[h] == v && ra.v2h[v] == h)
    ensures RaOk(Map(ra, v, h, dirty))
  {
    var m := Map(ra, v, h, dirty);
    forall u | 0 <= u < VREGS ensures VregOk(m, u) {
      assert VregOk(ra, u);
    }
    forall k | 0 <= k < HREGS ensures HregOk(m, k) {
      assert HregOk(ra, k);
    }
  }

  /** Record a use. */
  function Touch(ra: Ra, h: nat): Ra
    requires RaOk(ra) && InPool(h)
  {
    ra.(lru := ra.lru[h := ra.stamp + 1], stamp := ra.stamp + 1)
  }

  lemma {:induction false} TouchOk(ra: Ra, h: nat)
    requires RaOk(ra) && InPool(h)
    ensures RaOk(Touch(ra, h))
  {
    var t := Touch(ra, h);
    forall v | 0 <= v < VREGS ensures VregOk(t, v) {
      assert VregOk(ra, v);
    }
    forall k | 0 <= k < HREGS ensures HregOk(t, k) {
      assert HregOk(ra, k);
    }
  }

  /** ra_alloc: a free register, written home first if it held a stale home's value. */
  function Alloc(ra: Ra): (g: Got)
    requires RaOk(ra)
    ensures RaOk(g.ra) && InPool(g.h) && g.ra.h2v[g.h] == NOBODY
    ensures forall v :: 0 <= v < VREGS && ra.v2h[v] == -1 ==> g.ra.v2h[v] == -1
  {
    var h := Pick(ra, 0, -1);
    assert HregOk(ra, h);
    if ra.h2v[h] == NOBODY then Got(ra, h, [])
    else
      FreedOk(ra, h);
      Got(Freed(ra, h), h, if ra.dirty[ra.h2v[h]] then [Store(h, ra.h2v[h])] else [])
  }

  function Fetch(h: nat, v: nat): Insn {
    if v == ZERO then Movz(h, 0, 0) else Load(h, v)
  }

  /** Map a register and record the use. */
  function Bind(ra: Ra, v: nat, h: nat, dirty: bool): (r: Ra)
    requires RaOk(ra) && v < VREGS && InPool(h) && (dirty ==> v != ZERO)
    requires (ra.h2v[h] == NOBODY && ra.v2h[v] == -1) || (ra.h2v[h] == v && ra.v2h[v] == h)
    ensures RaOk(r)
  {
    MapOk(ra, v, h, dirty);
    TouchOk(Map(ra, v, h, dirty), h);
    Touch(Map(ra, v, h, dirty), h)
  }

  lemma MappedPair(ra: Ra, v: nat)
    requires RaOk(ra) && v < VREGS && ra.v2h[v] != -1
    ensures InPool(ra.v2h[v]) && ra.h2v[ra.v2h[v]] == v && (ra.dirty[v] ==> v != ZERO)
  {
    assert VregOk(ra, v);
  }

  /** ra_use */
  function Use(ra: Ra, v: nat): (g: Got)
    requires RaOk(ra) && v < VREGS
    ensures RaOk(g.ra) && InPool(g.h)
  {
    if ra.v2h[v] != -1 then
      MappedPair(ra, v);
      Got(Bind(ra, v, ra.v2h[v], ra.dirty[v]), ra.v2h[v], [])
    else
      var a := Alloc(ra);
      Got(Bind(a.ra, v, a.h, false), a.h, a.code + [Fetch(a.h, v)])
  }

  /** ra_def; writes to the zero register go to a scratch register. */
  function Def(ra: Ra, v: nat): (g: Got)
    requires RaOk(ra) && v < VREGS
    ensures RaOk(g.ra) && (InPool(g.h) || g.h == 16)
  {
    if v == ZERO then Got(ra, 16, [])
    else if ra.v2h[v] != -1 then
      MappedPair(ra, v);
      Got(Bind(ra, v, ra.v2h[v], true), ra.v2h[v], [])
    else
      var a := Alloc(ra);
      Got(Bind(a.ra, v, a.h, true), a.h, a.code)
  }

  lemma {:induction false} UseCodeOk(ra: Ra, v: nat)
    requires RaOk(ra) && v < VREGS
    ensures CodeOk(Use(ra, v).code)
  {
    hide VregOk, HregOk, Pick;
    if ra.v2h[v] == -1 {
      AllocCodeOk(ra);
    }
  }

  lemma {:induction false} AllocCodeOk(ra: Ra)
    requires RaOk(ra)
    ensures CodeOk(Alloc(ra).code)
  {
    hide VregOk, HregOk, Pick;
    var h := Pick(ra, 0, -1);
    if ra.h2v[h] != NOBODY {
      HregPair(ra, h);
      if ra.dirty[ra.h2v[h]] {
        DirtyNotZero(ra, ra.h2v[h]);
      }
    }
  }

  lemma {:induction false} DefCodeOk(ra: Ra, v: nat)
    requires RaOk(ra) && v < VREGS
    ensures CodeOk(Def(ra, v).code)
  {
    hide VregOk, HregOk, Pick;
    AllocCodeOk(ra);
  }

  // ---- Agreement with the guest's registers ----

  /** Where a virtual register's value is. */
  predicate Holds(ra: Ra, s: State, regs: seq<bv64>, v: nat)
    requires RaOk(ra) && StateOk(s) && RegsOk(regs) && v < VREGS
  {
    assert VregOk(ra, v);
    && (ra.v2h[v] != -1 ==> s.r[ra.v2h[v]] == regs[v])
    && (v != ZERO && !ra.dirty[v] ==> s.homes[v] == regs[v])
  }

  predicate Agrees(ra: Ra, s: State, regs: seq<bv64>) {
    && RaOk(ra) && StateOk(s) && RegsOk(regs)
    && forall v :: 0 <= v < VREGS ==> Holds(ra, s, regs, v)
  }

  /** Everything but registers and homes is untouched. */
  predicate Elsewhere(s: State, s': State) {
    s'.nz == s.nz && s'.memNz == s.memNz && s'.pc == s.pc && s'.icount == s.icount
  }

  // ---- What eviction spares ----

  /** Eviction never takes an operand of the operation being emitted. */
  lemma {:induction false} PickSpares(ra: Ra, keep: set<nat>)
    requires RaOk(ra) && Kept(ra, keep) && |keep| < |POOL|
    ensures Pick(ra, 0, -1) !in keep
  {
    hide InPool, RaOk, Pick;
    var h := Pick(ra, 0, -1);
    if h in keep {
      Spare(keep);
      var k: nat :| InPool(k) && k !in keep;
      PoolHas(k);
    }
  }

  /** A small set leaves some pool register out. */
  lemma {:induction false} Spare(keep: set<nat>)
    requires |keep| < |POOL|
    ensures exists k: nat :: InPool(k) && k !in keep
  {
    var pool: set<nat> := {9, 10, 11, 12, 13, 14, 15, 19, 20, 21, 22, 23, 24, 25, 26};
    assert |pool| == 15;
    if pool <= keep {
      Subset(pool, keep);
    }
    var k :| k in pool && k !in keep;
  }

  lemma {:induction false} Subset(a: set<nat>, b: set<nat>)
    requires a <= b
    ensures |a| <= |b|
  {
    if a != {} {
      var x :| x in a;
      Subset(a - {x}, b - {x});
    }
  }

  // ---- Values through allocation ----

  lemma {:induction false} FreedAgrees(ra: Ra, s: State, regs: seq<bv64>, h: nat)
    requires Agrees(ra, s, regs) && InPool(h) && ra.h2v[h] != NOBODY
    requires
      var v := ra.h2v[h];
      0 <= v < VREGS && (v == ZERO || s.homes[v] == regs[v])
    ensures RaOk(Freed(ra, h)) && Agrees(Freed(ra, h), s, regs)
  {
    hide InPool, VregOk, HregOk;
    FreedOk(ra, h);
    forall u | 0 <= u < VREGS ensures Holds(Freed(ra, h), s, regs, u) {
      assert Holds(ra, s, regs, u);
    }
  }

  lemma {:induction false} StoreAgrees(ra: Ra, s: State, regs: seq<bv64>, v: nat)
    requires Agrees(ra, s, regs) && v < ZERO && ra.v2h[v] != -1 && InPool(ra.v2h[v])
    ensures
      var s' := s.(homes := s.homes[v := s.r[ra.v2h[v]]]);
      Agrees(ra, s', regs) && s'.homes[v] == regs[v]
  {
    hide InPool, VregOk, HregOk;
    var s' := s.(homes := s.homes[v := s.r[ra.v2h[v]]]);
    assert Holds(ra, s, regs, v);
    forall u | 0 <= u < VREGS ensures Holds(ra, s', regs, u) {
      assert Holds(ra, s, regs, u);
    }
  }

  /** Binding a register that then receives the value v is to have. */
  lemma {:induction false} BindAgrees(ra: Ra, s: State, regs: seq<bv64>, v: nat, h: nat, dirty: bool, val: bv64)
    requires Agrees(ra, s, regs) && v < VREGS && InPool(h) && (dirty ==> v != ZERO)
    requires (ra.h2v[h] == NOBODY && ra.v2h[v] == -1) || (ra.h2v[h] == v && ra.v2h[v] == h)
    requires v == ZERO ==> val == 0
    requires v != ZERO && !dirty ==> s.homes[v] == val
    ensures RaOk(Bind(ra, v, h, dirty)) && Agrees(Bind(ra, v, h, dirty), s.(r := s.r[h := val]), regs[v := val])
  {
    hide InPool, VregOk, HregOk;
    var s', regs' := s.(r := s.r[h := val]), regs[v := val];
    var b := Bind(ra, v, h, dirty);
    forall u | 0 <= u < VREGS ensures Holds(b, s', regs', u) {
      assert Holds(ra, s, regs, u);
      if u != v && ra.v2h[u] != -1 {
        MappedPair(ra, u);
      }
    }
  }

  /** Making room changes no value: at most one home is brought up to date. */
  lemma {:induction false} AllocRight(sem: Semantics, ra: Ra, s: State, regs: seq<bv64>)
    requires Agrees(ra, s, regs)
    ensures
      var g := Alloc(ra);
      && CodeOk(g.code)
      && var s' := Execute(sem, s, g.code);
         Agrees(g.ra, s', regs) && s'.r == s.r && Elsewhere(s, s')
  {
    hide InPool, VregOk, HregOk, Agrees, Freed, InsnOk, Pick, Exec;
    AgreesParts(ra, s, regs);
    var h := Pick(ra, 0, -1);
    if ra.h2v[h] != NOBODY {
      HregPair(ra, h);
      var v := ra.h2v[h];
      if ra.dirty[v] {
        DirtyNotZero(ra, v);
        StoreAgrees(ra, s, regs, v);
        var s' := s.(homes := s.homes[v := s.r[h]]);
        StoreRuns(sem, s, h, v);
        ExecuteOne(sem, s, Store(h, v));
        FreedAgrees(ra, s', regs, h);
      } else {
        CleanHome(ra, s, regs, v);
        FreedAgrees(ra, s, regs, h);
      }
    }
  }

  lemma AgreesParts(ra: Ra, s: State, regs: seq<bv64>)
    requires Agrees(ra, s, regs)
    ensures RaOk(ra) && StateOk(s) && RegsOk(regs)
  {
  }

  lemma HregPair(ra: Ra, h: nat)
    requires RaOk(ra) && InPool(h) && ra.h2v[h] != NOBODY
    ensures 0 <= ra.h2v[h] < VREGS && ra.v2h[ra.h2v[h]] == h
  {
    assert HregOk(ra, h);
  }

  lemma DirtyNotZero(ra: Ra, v: nat)
    requires RaOk(ra) && v < VREGS && ra.dirty[v]
    ensures v != ZERO
  {
    assert VregOk(ra, v);
  }

  lemma CleanHome(ra: Ra, s: State, regs: seq<bv64>, v: nat)
    requires Agrees(ra, s, regs) && v < VREGS && !ra.dirty[v]
    ensures v == ZERO || s.homes[v] == regs[v]
  {
    assert Holds(ra, s, regs, v);
  }

  lemma StoreRuns(sem: Semantics, s: State, h: nat, v: nat)
    requires StateOk(s) && InPool(h) && v < ZERO
    ensures |s.r| == HREGS && |s.homes| == VREGS && h < HREGS && InsnOk(Store(h, v))
    ensures Exec(sem, s, Store(h, v)) == s.(homes := s.homes[v := s.r[h]])
  {
  }

  lemma FetchRuns(sem: Semantics, s: State, h: nat, v: nat)
    requires StateOk(s) && InPool(h) && v < VREGS
    ensures |s.r| == HREGS && |s.homes| == VREGS && h < HREGS && InsnOk(Fetch(h, v))
    ensures Exec(sem, s, Fetch(h, v)) == s.(r := s.r[h := if v == ZERO then 0 else s.homes[v]])
  {
    assert Insert(0, 0, 0) == 0;
  }

  /** After a use the register holds the value; nothing else moved. */
  lemma {:induction false} UseRight(sem: Semantics, ra: Ra, s: State, regs: seq<bv64>, v: nat)
    requires Agrees(ra, s, regs) && v < VREGS
    ensures
      var g := Use(ra, v);
      && CodeOk(g.code)
      && var s' := Execute(sem, s, g.code);
         && Agrees(g.ra, s', regs) && Elsewhere(s, s')
         && |s'.r| == HREGS && s'.r[g.h] == regs[v]
         && s'.r == s.r[g.h := regs[v]]
  {
    hide InPool, VregOk, HregOk, Holds, InsnOk, Alloc, Bind, Exec, Fetch;
    AgreesParts(ra, s, regs);
    if ra.v2h[v] != -1 {
      MappedPair(ra, v);
      var h := ra.v2h[v];
      MappedValue(ra, s, regs, v);
      BindAgrees(ra, s, regs, v, h, ra.dirty[v], regs[v]);
      assert s.r[h := regs[v]] == s.r;
      assert s.(r := s.r) == s && regs[v := regs[v]] == regs;
    } else {
      var a := Alloc(ra);
      AllocRight(sem, ra, s, regs);
      var s1 := Execute(sem, s, a.code);
      FetchRuns(sem, s1, a.h, v);
      ExecuteOne(sem, s1, Fetch(a.h, v));
      ExecuteJoin(sem, s, a.code, [Fetch(a.h, v)]);
      UnmappedClean(ra, a.ra, v);
      CleanHome(a.ra, s1, regs, v);
      BindAgrees(a.ra, s1, regs, v, a.h, false, regs[v]);
      assert regs[v := regs[v]] == regs;
    }
  }

  lemma MappedValue(ra: Ra, s: State, regs: seq<bv64>, v: nat)
    requires Agrees(ra, s, regs) && v < VREGS && ra.v2h[v] != -1 && InPool(ra.v2h[v])
    ensures s.r[ra.v2h[v]] == regs[v] && (v != ZERO && !ra.dirty[v] ==> s.homes[v] == regs[v])
    ensures v == ZERO ==> regs[v] == 0
  {
    assert Holds(ra, s, regs, v);
  }

  lemma UnmappedClean(ra: Ra, a: Ra, v: nat)
    requires RaOk(ra) && RaOk(a) && v < VREGS && a.v2h[v] == -1
    ensures !a.dirty[v]
  {
    assert VregOk(a, v);
  }

  /** After a definition the register is ready: whatever is written to it becomes the value. */
  lemma {:induction false} DefRight(sem: Semantics, ra: Ra, s: State, regs: seq<bv64>, v: nat)
    requires Agrees(ra, s, regs) && v < VREGS
    ensures
      var g := Def(ra, v);
      && CodeOk(g.code)
      && var s' := Execute(sem, s, g.code);
         && s'.r == s.r && Elsewhere(s, s') && StateOk(s') && g.h < HREGS
         && forall val :: Agrees(g.ra, s'.(r := s'.r[g.h := val]), Put(regs, v, val))
  {
    hide InPool, VregOk, HregOk, Holds, InsnOk, Alloc, Bind, Exec, Agrees;
    AgreesParts(ra, s, regs);
    if v == ZERO {
      forall val ensures Agrees(ra, s.(r := s.r[16 := val]), Put(regs, v, val)) {
        ScratchAgrees(ra, s, regs, 16, val);
      }
    } else if ra.v2h[v] != -1 {
      MappedPair(ra, v);
      forall val ensures Agrees(Def(ra, v).ra, s.(r := s.r[ra.v2h[v] := val]), Put(regs, v, val)) {
        BindAgrees(ra, s, regs, v, ra.v2h[v], true, val);
      }
    } else {
      var a := Alloc(ra);
      AllocRight(sem, ra, s, regs);
      var s1 := Execute(sem, s, a.code);
      forall val ensures Agrees(Def(ra, v).ra, s1.(r := s1.r[a.h := val]), Put(regs, v, val)) {
        BindAgrees(a.ra, s1, regs, v, a.h, true, val);
      }
    }
  }

  /** Scratch registers hold no values. */
  lemma {:induction false} ScratchAgrees(ra: Ra, s: State, regs: seq<bv64>, n: nat, val: bv64)
    requires Agrees(ra, s, regs) && (n == 16 || n == 17)
    ensures Agrees(ra, s.(r := s.r[n := val]), regs)
  {
    var s' := s.(r := s.r[n := val]);
    forall u | 0 <= u < VREGS ensures Holds(ra, s', regs, u) {
      assert Holds(ra, s, regs, u);
      assert VregOk(ra, u);
    }
  }

  /** A use adds its register to the kept ones, and takes none of them for another value. */
  lemma {:induction false} UseKeeps(ra: Ra, v: nat, keep: set<nat>)
    requires RaOk(ra) && v < VREGS && Kept(ra, keep) && |keep| < |POOL|
    ensures
      var g := Use(ra, v);
      && Kept(g.ra, keep + {g.h})
      && (g.h in keep ==> ra.v2h[v] == g.h)
  {
    hide InPool, Pick, VregOk, HregOk, Kept;
    if ra.v2h[v] != -1 {
      MappedPair(ra, v);
      BindKeeps(ra, v, ra.v2h[v], ra.dirty[v], keep);
    } else {
      PickSpares(ra, keep);
      AllocKeeps(ra, keep);
      BindKeeps(Alloc(ra).ra, v, Alloc(ra).h, false, keep);
    }
  }

  /** The register a use returns is mapped to its operand, and kept registers stay with theirs. */
  lemma {:induction false} UseMaps(ra: Ra, v: nat, keep: set<nat>)
    requires RaOk(ra) && v < VREGS && Kept(ra, keep) && |keep| < |POOL|
    ensures
      var g := Use(ra, v);
      && RaOk(g.ra) && InPool(g.h) && g.ra.v2h[v] == g.h && g.ra.h2v[g.h] == v
      && forall h :: h in keep ==> InPool(h) && g.ra.h2v[h] == ra.h2v[h]
  {
    hide InPool, Pick, VregOk, HregOk;
    if ra.v2h[v] != -1 {
      MappedPair(ra, v);
    } else {
      PickSpares(ra, keep);
    }
  }

  lemma {:induction false} AllocKeeps(ra: Ra, keep: set<nat>)
    requires RaOk(ra) && Kept(ra, keep) && |keep| < |POOL|
    ensures Kept(Alloc(ra).ra, keep) && Alloc(ra).h !in keep
  {
    hide InPool, Pick;
    PickSpares(ra, keep);
  }

  lemma {:induction false} BindKeeps(ra: Ra, v: nat, h: nat, dirty: bool, keep: set<nat>)
    requires RaOk(ra) && v < VREGS && InPool(h) && (dirty ==> v != ZERO) && Kept(ra, keep)
    requires (ra.h2v[h] == NOBODY && ra.v2h[v] == -1) || (ra.h2v[h] == v && ra.v2h[v] == h)
    ensures Kept(Bind(ra, v, h, dirty), keep + {h})
  {
    var b := Bind(ra, v, h, dirty);
    forall x, k | x in keep + {h} && InPool(k) && k !in keep + {h} ensures b.lru[k] < b.lru[x] {
      assert HregOk(ra, k) && HregOk(ra, x);
    }
  }

  /** A use leaves the kept registers as they are. */
  lemma {:induction false} UseNext(sem: Semantics, ra: Ra, s: State, regs: seq<bv64>, v: nat, keep: set<nat>)
    requires Agrees(ra, s, regs) && v < VREGS && RaOk(ra) && Kept(ra, keep) && |keep| < |POOL|
    ensures
      var g := Use(ra, v);
      && CodeOk(g.code)
      && var s' := Execute(sem, s, g.code);
         && Agrees(g.ra, s', regs) && Elsewhere(s, s') && StateOk(s) && StateOk(s')
         && s'.r[g.h] == regs[v] && Kept(g.ra, keep + {g.h})
         && forall k :: k in keep && 0 <= k < HREGS ==> s'.r[k] == s.r[k]
  {
    hide Use, Kept, Agrees, InsnOk, Execute, RaOk;
    AgreesParts(ra, s, regs);
    UseRight(sem, ra, s, regs, v);
    UseKeeps(ra, v, keep);
    var g := Use(ra, v);
    if g.h in keep {
      UsedBefore(ra, s, regs, v);
    }
  }

  lemma UsedBefore(ra: Ra, s: State, regs: seq<bv64>, v: nat)
    requires Agrees(ra, s, regs) && v < VREGS
    ensures ra.v2h[v] == -1 || (0 <= ra.v2h[v] < HREGS && s.r[ra.v2h[v]] == regs[v])
  {
    if ra.v2h[v] != -1 {
      MappedPair(ra, v);
      MappedValue(ra, s, regs, v);
    }
  }

  /** Two operands fetched one after the other are both in their registers. */
  lemma {:induction false} UseTwo(sem: Semantics, ra: Ra, s: State, regs: seq<bv64>, a: nat, b: nat)
    requires Agrees(ra, s, regs) && a < VREGS && b < VREGS
    ensures
      var p := Use(ra, a);
      var q := Use(p.ra, b);
      && CodeOk(p.code + q.code)
      && var s' := Execute(sem, s, p.code + q.code);
         && Agrees(q.ra, s', regs) && Elsewhere(s, s') && StateOk(s') && Kept(q.ra, {p.h, q.h})
         && s'.r[p.h] == regs[a] && s'.r[q.h] == regs[b]
  {
    hide Use, Kept, Agrees, InsnOk, Execute, RaOk, RegsOk, StateOk;
    AgreesParts(ra, s, regs);
    NothingKept(ra);
    var p := Use(ra, a);
    UseNext(sem, ra, s, regs, a, {});
    var s1 := Execute(sem, s, p.code);
    assert {} + {p.h} == {p.h};
    var q := Use(p.ra, b);
    UseNext(sem, p.ra, s1, regs, b, {p.h});
    assert {p.h} + {q.h} == {p.h, q.h};
    ExecuteJoin(sem, s, p.code, q.code);
  }

  /** And three. */
  lemma {:induction false} UseThree(sem: Semantics, ra: Ra, s: State, regs: seq<bv64>, a: nat, b: nat, c: nat)
    requires Agrees(ra, s, regs) && a < VREGS && b < VREGS && c < VREGS
    ensures
      var p := Use(ra, a);
      var q := Use(p.ra, b);
      var t := Use(q.ra, c);
      && CodeOk(p.code + q.code + t.code)
      && var s' := Execute(sem, s, p.code + q.code + t.code);
         && Agrees(t.ra, s', regs) && Elsewhere(s, s') && StateOk(s')
         && s'.r[p.h] == regs[a] && s'.r[q.h] == regs[b] && s'.r[t.h] == regs[c]
  {
    hide Use, Kept, Agrees, InsnOk, Execute, RaOk, RegsOk, StateOk;
    AgreesParts(ra, s, regs);
    var p := Use(ra, a);
    var q := Use(p.ra, b);
    UseTwo(sem, ra, s, regs, a, b);
    var s1 := Execute(sem, s, p.code + q.code);
    UseNext(sem, q.ra, s1, regs, c, {p.h, q.h});
    ExecuteJoin(sem, s, p.code + q.code, Use(q.ra, c).code);
  }

  lemma NothingKept(ra: Ra)
    requires RaOk(ra)
    ensures Kept(ra, {})
  {
  }

  // ---- Writing everything home ----

  /** sync_all from register v on. */
  function Sync(ra: Ra, v: nat): (g: Got)
    requires RaOk(ra) && v <= VREGS
    ensures RaOk(g.ra)
    decreases VREGS - v
  {
    if v == VREGS then Got(ra, 0, [])
    else if ra.v2h[v] != -1 && ra.dirty[v] then
      MappedPair(ra, v);
      CleanOk(ra, v);
      var g := Sync(ra.(dirty := ra.dirty[v := false]), v + 1);
      Got(g.ra, 0, [Store(ra.v2h[v], v)] + g.code)
    else Sync(ra, v + 1)
  }

  lemma {:induction false} CleanOk(ra: Ra, v: nat)
    requires RaOk(ra) && v < VREGS
    ensures RaOk(ra.(dirty := ra.dirty[v := false]))
  {
    hide InPool;
    var c := ra.(dirty := ra.dirty[v := false]);
    forall u | 0 <= u < VREGS ensures VregOk(c, u) {
      assert VregOk(ra, u);
    }
    forall k | 0 <= k < HREGS ensures HregOk(c, k) {
      assert HregOk(ra, k);
    }
  }

  lemma {:induction false} CleanAgrees(ra: Ra, s: State, regs: seq<bv64>, v: nat)
    requires Agrees(ra, s, regs) && v < VREGS && (v == ZERO || s.homes[v] == regs[v])
    ensures RaOk(ra.(dirty := ra.dirty[v := false])) && Agrees(ra.(dirty := ra.dirty[v := false]), s, regs)
  {
    hide InPool, VregOk, HregOk;
    CleanOk(ra, v);
    var c := ra.(dirty := ra.dirty[v := false]);
    forall u | 0 <= u < VREGS ensures Holds(c, s, regs, u) {
      assert Holds(ra, s, regs, u);
    }
  }

  /** After a sync nothing is dirty from v on: every dirty value has reached its home. */
  lemma {:induction false} SyncRight(sem: Semantics, ra: Ra, s: State, regs: seq<bv64>, v: nat)
    requires Agrees(ra, s, regs) && v <= VREGS
    requires forall u :: 0 <= u < v ==> !ra.dirty[u]
    ensures
      var g := Sync(ra, v);
      && CodeOk(g.code)
      && var s' := Execute(sem, s, g.code);
         && Agrees(g.ra, s', regs) && s'.r == s.r && Elsewhere(s, s')
         && forall u :: 0 <= u < VREGS ==> !g.ra.dirty[u]
    decreases VREGS - v
  {
    hide InPool, VregOk, HregOk, Agrees, InsnOk, Exec;
    AgreesParts(ra, s, regs);
    if v < VREGS {
      if ra.v2h[v] != -1 && ra.dirty[v] {
        MappedPair(ra, v);
        var h := ra.v2h[v];
        StoreAgrees(ra, s, regs, v);
        StoreRuns(sem, s, h, v);
        var s1 := s.(homes := s.homes[v := s.r[h]]);
        CleanAgrees(ra, s1, regs, v);
        var c := ra.(dirty := ra.dirty[v := false]);
        SyncRight(sem, c, s1, regs, v + 1);
        ExecuteOne(sem, s, Store(h, v));
        ExecuteJoin(sem, s, [Store(h, v)], Sync(c, v + 1).code);
      } else {
        if ra.v2h[v] == -1 {
          UnmappedClean(ra, ra, v);
        }
        SyncRight(sem, ra, s, regs, v + 1);
      }
    }
  }

  /** With nothing dirty every home is current. */
  lemma {:induction false} HomesCurrent(ra: Ra, s: State, regs: seq<bv64>)
    requires Agrees(ra, s, regs) && forall u :: 0 <= u < VREGS ==> !ra.dirty[u]
    ensures s.homes[..ZERO] == regs[..ZERO]
  {
    hide InPool, VregOk, HregOk;
    forall u | 0 <= u < ZERO ensures s.homes[u] == regs[u] {
      assert Holds(ra, s, regs, u);
    }
  }

  lemma {:induction false} AgreesElsewhere(ra: Ra, s: State, s': State, regs: seq<bv64>)
    requires Agrees(ra, s, regs) && s'.r == s.r && s'.homes == s.homes
    ensures Agrees(ra, s', regs)
  {
    hide InPool, VregOk, HregOk;
    forall u | 0 <= u < VREGS ensures Holds(ra, s', regs, u) {
      assert Holds(ra, s, regs, u);
    }
  }

  /** Values live in pool registers and homes only. */
  lemma {:induction false} PoolAgrees(ra: Ra, s: State, s': State, regs: seq<bv64>)
    requires Agrees(ra, s, regs) && StateOk(s') && s'.homes == s.homes
    requires forall h :: 0 <= h < HREGS && InPool(h) ==> s'.r[h] == s.r[h]
    ensures Agrees(ra, s', regs)
  {
    hide InPool, VregOk, HregOk;
    forall u | 0 <= u < VREGS ensures Holds(ra, s', regs, u) {
      assert Holds(ra, s, regs, u);
      if ra.v2h[u] != -1 {
        MappedPair(ra, u);
      }
    }
  }

  /** A sync leaves nothing dirty. */
  lemma {:induction false} SyncCleans(ra: Ra, v: nat)
    requires RaOk(ra) && v <= VREGS && forall u :: 0 <= u < v ==> !ra.dirty[u]
    ensures forall u :: 0 <= u < VREGS ==> !Sync(ra, v).ra.dirty[u]
    decreases VREGS - v
  {
    hide InPool, VregOk, HregOk;
    if v < VREGS {
      if ra.v2h[v] != -1 && ra.dirty[v] {
        CleanOk(ra, v);
        SyncCleans(ra.(dirty := ra.dirty[v := false]), v + 1);
      } else {
        if ra.v2h[v] == -1 {
          UnmappedClean(ra, ra, v);
        }
        SyncCleans(ra, v + 1);
      }
    }
  }

  lemma {:induction false} UseStaysClean(ra: Ra, a: nat)
    requires RaOk(ra) && a < VREGS && forall u :: 0 <= u < VREGS ==> !ra.dirty[u]
    ensures forall u :: 0 <= u < VREGS ==> !Use(ra, a).ra.dirty[u]
  {
    hide InPool, VregOk, HregOk, Pick;
  }

  // ---- The scans, one step at a time ----

  lemma NoLeader(ra: Ra)
    requires RaOk(ra)
    ensures Leads(ra, 0, -1)
  {
  }

  lemma {:induction false} PickStep(ra: Ra, i: nat, best: int)
    requires RaOk(ra) && i < |POOL| && Leads(ra, i, best)
    ensures InPool(POOL[i]) && (best == -1 || InPool(best))
    ensures |ra.h2v| == HREGS && |ra.lru| == HREGS
    ensures ra.h2v[POOL[i]] == NOBODY ==> Pick(ra, i, best) == POOL[i]
    ensures
      ra.h2v[POOL[i]] != NOBODY ==>
        var next := if best == -1 || ra.lru[POOL[i]] < ra.lru[best] then POOL[i] else best;
        Leads(ra, i + 1, next) && Pick(ra, i, best) == Pick(ra, i + 1, next)
  {
    hide VregOk, HregOk;
    PoolIsPool(i);
  }

  lemma PickEnd(ra: Ra, best: int)
    requires RaOk(ra) && Leads(ra, |POOL|, best)
    ensures Pick(ra, |POOL|, best) == best
  {
    hide VregOk, HregOk;
  }

  lemma {:induction false} SyncStep(ra: Ra, v: nat)
    requires RaOk(ra) && v < VREGS
    ensures |ra.v2h| == VREGS && |ra.dirty| == VREGS
    ensures
      ra.v2h[v] != -1 && ra.dirty[v] ==>
        var c := ra.(dirty := ra.dirty[v := false]);
        && RaOk(c) && 0 <= ra.v2h[v]
        && Sync(ra, v).ra == Sync(c, v + 1).ra && Sync(ra, v).code == [Store(ra.v2h[v], v)] + Sync(c, v + 1).code
    ensures
      !(ra.v2h[v] != -1 && ra.dirty[v]) ==> Sync(ra, v) == Sync(ra, v + 1)
  {
    hide InPool, VregOk, HregOk;
    if ra.v2h[v] != -1 && ra.dirty[v] {
      MappedPair(ra, v);
      CleanOk(ra, v);
    }
  }

  lemma SyncEnd(ra: Ra)
    requires RaOk(ra)
    ensures Sync(ra, VREGS).ra == ra && Sync(ra, VREGS).code == []
  {
  }
}
