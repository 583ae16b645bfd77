/**
 The slow branches of inline operations: store what is dirty, call a helper that may
 lose caller-saved registers, reload those.
 */
module SlowPath {
  import opened Ir
  import opened HostCode
  import opened Allocator

  predicate CallerSaved(h: int) {
    9 <= h <= 15
  }

  /** slow_store_dirty from v on: dirty marks stay, for the fast branch stored nothing. */
  function StoreDirty(ra: Ra, v: nat): seq<Insn>
    requires RaOk(ra) && v <= VREGS
    decreases VREGS - v
  {
    if v == VREGS then []
    else if ra.v2h[v] != -1 && ra.dirty[v] then
      MappedPair(ra, v);
      [Store(ra.v2h[v], v)] + StoreDirty(ra, v + 1)
    else StoreDirty(ra, v + 1)
  }

  /** slow_reload_clobbered from v on. */
  function Reload(ra: Ra, v: nat): seq<Insn>
    requires RaOk(ra) && v <= VREGS
    decreases VREGS - v
  {
    if v == VREGS then []
    else if ra.v2h[v] != -1 && CallerSaved(ra.v2h[v]) then
      [Fetch(ra.v2h[v], v)] + Reload(ra, v + 1)
    else Reload(ra, v + 1)
  }

  /** Homes of the registers below v are current. */
  predicate Current(s: State, regs: seq<bv64>, v: nat)
    requires |s.homes| == VREGS && |regs| == VREGS && v <= VREGS
  {
    forall u :: 0 <= u < v && u != ZERO ==> s.homes[u] == regs[u]
  }

  // ---- Agreement but for some registers ----

  /** As Holds, with the host registers of some virtual registers excused. */
  predicate HoldsBut(ra: Ra, s: State, regs: seq<bv64>, v: nat, but: set<nat>)
    requires RaOk(ra) && StateOk(s) && RegsOk(regs) && v < VREGS
  {
    assert VregOk(ra, v);
    && (ra.v2h[v] != -1 && v !in but ==> s.r[ra.v2h[v]] == regs[v])
    && (v != ZERO && !ra.dirty[v] ==> s.homes[v] == regs[v])
  }

  predicate AgreesBut(ra: Ra, s: State, regs: seq<bv64>, but: set<nat>) {
    && RaOk(ra) && StateOk(s) && RegsOk(regs)
    && forall v :: 0 <= v < VREGS ==> HoldsBut(ra, s, regs, v, but)
  }

  lemma {:induction false} AgreesButNone(ra: Ra, s: State, regs: seq<bv64>)
    ensures AgreesBut(ra, s, regs, {}) <==> Agrees(ra, s, regs)
  {
    hide InPool, RaOk, StateOk, RegsOk;
    if RaOk(ra) && StateOk(s) && RegsOk(regs) {
      forall v | 0 <= v < VREGS ensures HoldsBut(ra, s, regs, v, {}) <==> Allocator.Holds(ra, s, regs, v) {
      }
    }
  }

  lemma {:induction false} AgreesButMore(ra: Ra, s: State, regs: seq<bv64>, but: set<nat>, but': set<nat>)
    requires AgreesBut(ra, s, regs, but) && but <= but'
    ensures AgreesBut(ra, s, regs, but')
  {
    hide InPool, RaOk;
    forall v | 0 <= v < VREGS ensures HoldsBut(ra, s, regs, v, but') {
      assert HoldsBut(ra, s, regs, v, but);
    }
  }

  lemma {:induction false} PoolAgreesBut(ra: Ra, s: State, s': State, regs: seq<bv64>, but: set<nat>)
    requires AgreesBut(ra, s, regs, but) && StateOk(s') && s'.homes == s.homes
    requires forall h :: 0 <= h < HREGS && InPool(h) ==> s'.r[h] == s.r[h]
    ensures AgreesBut(ra, s', regs, but)
  {
    hide InPool, VregOk, HregOk;
    forall u | 0 <= u < VREGS ensures HoldsBut(ra, s', regs, u, but) {
      assert HoldsBut(ra, s, regs, u, but);
      if ra.v2h[u] != -1 {
        MappedPair(ra, u);
      }
    }
  }

  /** Excused registers are mapped and clean: nothing will store them. */
  ghost predicate Holes(ra: Ra, but: set<nat>)
    requires RaOk(ra)
  {
    forall v :: v in but ==> v < ZERO && ra.v2h[v] != -1 && !ra.dirty[v]
  }

  lemma {:induction false} StoreAgreesBut(ra: Ra, s: State, regs: seq<bv64>, v: nat, but: set<nat>)
    requires AgreesBut(ra, s, regs, but) && v < ZERO && ra.v2h[v] != -1 && InPool(ra.v2h[v]) && v !in but
    ensures
      var s' := s.(homes := s.homes[v := s.r[ra.v2h[v]]]);
      AgreesBut(ra, s', regs, but) && s'.homes[v] == regs[v]
  {
    hide InPool, VregOk, HregOk;
    var s' := s.(homes := s.homes[v := s.r[ra.v2h[v]]]);
    assert HoldsBut(ra, s, regs, v, but);
    forall u | 0 <= u < VREGS ensures HoldsBut(ra, s', regs, u, but) {
      assert HoldsBut(ra, s, regs, u, but);
    }
  }

  lemma CleanHomeBut(ra: Ra, s: State, regs: seq<bv64>, v: nat, but: set<nat>)
    requires AgreesBut(ra, s, regs, but) && v < VREGS && !ra.dirty[v]
    ensures v == ZERO || s.homes[v] == regs[v]
  {
    assert HoldsBut(ra, s, regs, v, but);
  }

  lemma PartsBut(ra: Ra, s: State, regs: seq<bv64>, but: set<nat>)
    requires AgreesBut(ra, s, regs, but)
    ensures RaOk(ra) && StateOk(s) && RegsOk(regs)
  {
  }

  /** Storing what is dirty brings every home up to date. */
  lemma {:induction false} StoreDirtyRight(sem: Semantics, ra: Ra, s: State, regs: seq<bv64>, v: nat, but: set<nat>)
    requires AgreesBut(ra, s, regs, but) && RaOk(ra) && Holes(ra, but) && v <= VREGS && Current(s, regs, v)
    ensures
      && CodeOk(StoreDirty(ra, v))
      && var s' := Execute(sem, s, StoreDirty(ra, v));
         AgreesBut(ra, s', regs, but) && s'.r == s.r && Elsewhere(s, s') && Current(s', regs, VREGS)
    decreases VREGS - v
  {
    hide InPool, VregOk, HregOk, AgreesBut, InsnOk, Exec, RaOk;
    PartsBut(ra, s, regs, but);
    if v < VREGS {
      Lengths(ra);
      if ra.v2h[v] != -1 && ra.dirty[v] {
        MappedPair(ra, v);
        var h := ra.v2h[v];
        StoreAgreesBut(ra, s, regs, v, but);
        StoreRuns(sem, s, h, v);
        var s1 := s.(homes := s.homes[v := s.r[h]]);
        StoreDirtyRight(sem, ra, s1, regs, v + 1, but);
        ExecuteOne(sem, s, Store(h, v));
        ExecuteJoin(sem, s, [Store(h, v)], StoreDirty(ra, v + 1));
      } else {
        if ra.v2h[v] == -1 {
          UnmappedClean(ra, ra, v);
        }
        CleanHomeBut(ra, s, regs, v, but);
        StoreDirtyRight(sem, ra, s, regs, v + 1, but);
      }
    }
  }

  lemma {:induction false} StoreDirtyOk(ra: Ra, v: nat)
    requires RaOk(ra) && v <= VREGS
    ensures CodeOk(StoreDirty(ra, v))
    decreases VREGS - v
  {
    hide VregOk, HregOk;
    if v < VREGS {
      StoreDirtyOk(ra, v + 1);
      if ra.v2h[v] != -1 && ra.dirty[v] {
        MappedPair(ra, v);
      }
    }
  }

  lemma {:induction false} ReloadOk(ra: Ra, v: nat)
    requires RaOk(ra) && v <= VREGS
    ensures CodeOk(Reload(ra, v))
    decreases VREGS - v
  {
    hide VregOk, HregOk;
    if v < VREGS {
      ReloadOk(ra, v + 1);
      if ra.v2h[v] != -1 && CallerSaved(ra.v2h[v]) {
        MappedPair(ra, v);
      }
    }
  }

  lemma Lengths(ra: Ra)
    requires RaOk(ra)
    ensures |ra.v2h| == VREGS && |ra.dirty| == VREGS && |ra.h2v| == HREGS
  {
  }

  /** Registers below v hold their values, and so do those the call preserves; skip is excused. */
  ghost predicate Restored(ra: Ra, s: State, regs: seq<bv64>, v: nat, skip: set<nat>)
    requires RaOk(ra) && StateOk(s) && RegsOk(regs)
  {
    forall u ::
      0 <= u < VREGS && u !in skip && ra.v2h[u] != -1 && (u < v || !CallerSaved(ra.v2h[u])) ==> InHost(ra, s, regs, u)
  }

  predicate InHost(ra: Ra, s: State, regs: seq<bv64>, u: nat)
    requires RaOk(ra) && StateOk(s) && |regs| == VREGS && u < VREGS && ra.v2h[u] != -1
  {
    MappedPair(ra, u);
    s.r[ra.v2h[u]] == regs[u]
  }

  /** Reloading restores every register the call may have lost. */
  lemma {:induction false} ReloadRight(sem: Semantics, ra: Ra, s: State, regs: seq<bv64>, v: nat, skip: set<nat>)
    requires RaOk(ra) && StateOk(s) && RegsOk(regs) && v <= VREGS
    requires Current(s, regs, VREGS) && Restored(ra, s, regs, v, skip)
    ensures
      && CodeOk(Reload(ra, v))
      && var s' := Execute(sem, s, Reload(ra, v));
         s'.homes == s.homes && Elsewhere(s, s') && Restored(ra, s', regs, VREGS, skip)
    decreases VREGS - v
  {
    hide InPool, VregOk, HregOk, InsnOk, Exec, Fetch;
    if v < VREGS {
      if ra.v2h[v] != -1 && CallerSaved(ra.v2h[v]) {
        MappedPair(ra, v);
        var h := ra.v2h[v];
        FetchRuns(sem, s, h, v);
        var s1 := Exec(sem, s, Fetch(h, v));
        ReloadStep(ra, s, s1, regs, v, skip);
        ReloadRight(sem, ra, s1, regs, v + 1, skip);
        ExecuteOne(sem, s, Fetch(h, v));
        ExecuteJoin(sem, s, [Fetch(h, v)], Reload(ra, v + 1));
      } else {
        ReloadRight(sem, ra, s, regs, v + 1, skip);
      }
    }
  }

  lemma {:induction false} ReloadStep(ra: Ra, s: State, s': State, regs: seq<bv64>, v: nat, skip: set<nat>)
    requires RaOk(ra) && StateOk(s) && RegsOk(regs) && v < VREGS && ra.v2h[v] != -1 && InPool(ra.v2h[v])
    requires Current(s, regs, VREGS) && Restored(ra, s, regs, v, skip)
    requires s' == s.(r := s.r[ra.v2h[v] := if v == ZERO then 0 else s.homes[v]])
    ensures Restored(ra, s', regs, v + 1, skip)
  {
    hide InPool, VregOk, HregOk;
    forall u | 0 <= u < VREGS && u !in skip && ra.v2h[u] != -1 && (u < v + 1 || !CallerSaved(ra.v2h[u]))
      ensures InHost(ra, s', regs, u)
    {
      MappedPair(ra, u);
      MappedPair(ra, v);
      if u != v {
        assert InHost(ra, s, regs, u);
      }
    }
  }

  /** What a call leaves in the registers and flags it need not preserve. */
  datatype Loss = Loss(regs: nat -> bv64, nz: Nzcv)

  predicate Preserved(h: int) {
    19 <= h <= 28
  }

  /** The registers after a call. */
  function Returned(s: State, loss: Loss): (t: State)
    requires StateOk(s)
    ensures StateOk(t)
  {
    s.(r := seq(HREGS, h requires 0 <= h < HREGS => if Preserved(h) then s.r[h] else loss.regs(h)), nz := loss.nz)
  }

  /** Registers that held their values before a call and are preserved still do. */
  lemma {:induction false} ReturnedKeeps(ra: Ra, s: State, loss: Loss, regs: seq<bv64>, skip: set<nat>)
    requires RaOk(ra) && StateOk(s) && RegsOk(regs) && Restored(ra, s, regs, 0, skip)
    ensures Restored(ra, Returned(s, loss), regs, 0, skip)
  {
    hide VregOk, HregOk;
    var t := Returned(s, loss);
    forall u | 0 <= u < VREGS && u !in skip && ra.v2h[u] != -1 && !CallerSaved(ra.v2h[u])
      ensures InHost(ra, t, regs, u)
    {
      MappedPair(ra, u);
      assert InHost(ra, s, regs, u);
      assert Preserved(ra.v2h[u]) && t.r[ra.v2h[u]] == s.r[ra.v2h[u]];
    }
  }

  /** Agreement is more than every register holding its value. */
  lemma {:induction false} AgreesRestored(ra: Ra, s: State, regs: seq<bv64>, but: set<nat>)
    requires AgreesBut(ra, s, regs, but)
    ensures Restored(ra, s, regs, VREGS, but) && Restored(ra, s, regs, 0, but)
  {
    hide InPool, VregOk, HregOk;
    forall u | 0 <= u < VREGS && u !in but && ra.v2h[u] != -1 ensures InHost(ra, s, regs, u) {
      assert HoldsBut(ra, s, regs, u, but);
    }
  }

  /** A change to skipped registers' values is of no account. */
  lemma {:induction false} RestoredChanges(ra: Ra, s: State, s': State, regs: seq<bv64>, regs': seq<bv64>, v: nat,
      skip: set<nat>, skip': set<nat>)
    requires RaOk(ra) && StateOk(s) && StateOk(s') && RegsOk(regs) && RegsOk(regs') && v <= VREGS
    requires Restored(ra, s, regs, v, skip) && s'.r == s.r && skip <= skip'
    requires forall u :: 0 <= u < VREGS && u !in skip' ==> regs'[u] == regs[u]
    ensures Restored(ra, s', regs', v, skip')
  {
    hide InPool, VregOk, HregOk;
    forall u | 0 <= u < VREGS && u !in skip' && ra.v2h[u] != -1 && (u < v || !CallerSaved(ra.v2h[u]))
      ensures InHost(ra, s', regs', u)
    {
      assert InHost(ra, s, regs, u);
    }
  }

  /** All registers restored and homes current: the allocator's state stands. */
  lemma {:induction false} RestoredAgrees(ra: Ra, s: State, regs: seq<bv64>)
    requires RaOk(ra) && StateOk(s) && RegsOk(regs) && Current(s, regs, VREGS) && Restored(ra, s, regs, VREGS, {})
    ensures Agrees(ra, s, regs)
  {
    hide InPool, VregOk, HregOk;
    forall u | 0 <= u < VREGS ensures Allocator.Holds(ra, s, regs, u) {
      if ra.v2h[u] != -1 {
        assert InHost(ra, s, regs, u);
      }
    }
  }

  lemma NothingCurrent(s: State, regs: seq<bv64>)
    requires StateOk(s) && RegsOk(regs)
    ensures Current(s, regs, 0)
  {
  }

  /** Defining a register whose old value is of no account. */
  lemma {:induction false} RedefineAgrees(ra: Ra, s: State, regs: seq<bv64>, v: nat)
    requires RaOk(ra) && StateOk(s) && RegsOk(regs) && v < ZERO
    requires ra.v2h[v] != -1 && InPool(ra.v2h[v]) && ra.h2v[ra.v2h[v]] == v
    requires Current(s, regs, VREGS) && Restored(ra, s, regs, VREGS, {v})
    ensures Agrees(Bind(ra, v, ra.v2h[v], true), s.(r := s.r[ra.v2h[v] := regs[v]]), regs)
  {
    hide InPool, VregOk, HregOk;
    var h := ra.v2h[v];
    var b, s' := Bind(ra, v, h, true), s.(r := s.r[h := regs[v]]);
    forall u | 0 <= u < VREGS ensures Allocator.Holds(b, s', regs, u) {
      if u != v && ra.v2h[u] != -1 {
        MappedPair(ra, u);
        assert InHost(ra, s, regs, u);
      }
    }
  }

  /** With the loaded value at hand in s, committing it to its register completes the merge. */
  lemma {:induction false} MergeAgrees(sem: Semantics, ra: Ra, s: State, regs: seq<bv64>, dst: nat)
    requires RaOk(ra) && StateOk(s) && RegsOk(regs) && dst < ZERO
    requires Current(s, regs, VREGS) && Restored(ra, s, regs, VREGS, {dst})
    ensures
      var d := Def(ra, dst);
      && CodeOk(d.code)
      && var t := Execute(sem, s, d.code);
         StateOk(t) && d.h < HREGS && t.r == s.r && Agrees(d.ra, t.(r := t.r[d.h := regs[dst]]), regs)
  {
    hide InPool, VregOk, HregOk, Bind, Alloc, Restored, Current, Agrees;
    if ra.v2h[dst] != -1 {
      MappedPair(ra, dst);
      RedefineAgrees(ra, s, regs, dst);
      ExecuteNone(sem, s);
    } else {
      Unskip(ra, s, regs, dst);
      RestoredAgrees(ra, s, regs);
      DefRight(sem, ra, s, regs, dst);
      assert regs[dst := regs[dst]] == regs;
      assert Put(regs, dst, regs[dst]) == regs;
    }
  }

  lemma Unskip(ra: Ra, s: State, regs: seq<bv64>, dst: nat)
    requires RaOk(ra) && StateOk(s) && RegsOk(regs) && dst < ZERO
    requires ra.v2h[dst] == -1 && Restored(ra, s, regs, VREGS, {dst})
    ensures Restored(ra, s, regs, VREGS, {})
  {
    hide InHost;
  }
}
