/**
 Runs of loads or stores on one base behind a single probe: operands and
 destinations mapped beforehand, the fast accesses in a row, the bail path through
 the helpers in program order; and the theorem that a run is its accesses one after
 the other.
 */
module FusedRuns {
  import opened Ir
  import opened HostCode
  import opened Allocator
  import opened Emitter
  import opened Backend
  import opened SlowPath
  import opened GuestMemory
  import opened Probe
  import opened MemoryOps
  import T = Tlb
  import W = TableWalk

  // ---- Runs ----

  /** Distance from the span's first byte. */
  function Distance(op: MemOp, lo: bv64): bv64 {
    Minus(op.imm, lo)
  }

  /** One base, one kind, inside a span of extra + 1 bytes. */
  predicate Fits(op: MemOp, first: MemOp, lo: bv64, extra: bv64) {
    MemOpOk(op) && op.St? == first.St? && op.a == first.a && Inside(Distance(op, lo), Extra(op.szl), extra)
  }

  predicate AllOk(ops: seq<MemOp>) {
    forall i :: 0 <= i < |ops| ==> MemOpOk(ops[i])
  }

  predicate HostOk(hs: seq<nat>) {
    forall i :: 0 <= i < |hs| ==> hs[i] < 31
  }

  /** Only the last load may overwrite the base. */
  predicate KeepsBase(op: MemOp) {
    op.St? || op.dst != op.a
  }

  predicate RunOk(ops: seq<MemOp>, lo: bv64, extra: bv64) {
    && 1 <= |ops| <= 8 && Short(extra)
    && (forall i :: 0 <= i < |ops| ==> Fits(ops[i], ops[0], lo, extra))
    && (forall i :: 0 <= i < |ops| - 1 ==> KeepsBase(ops[i]))
  }

  /** The instructions one after the other, up to the first that faults. */
  ghost function RunMeaning(bus: Bus, g: Guest, w: World, ops: seq<MemOp>): Fate
    requires BusOk(bus) && Steady(w) && RegsOk(g.regs) && AllOk(ops)
    decreases |ops|
  {
    if ops == [] then On(g, w)
    else
      MeaningKeeps(bus, g, w, ops[0]);
      match MemMeaning(bus, g, w, ops[0])
      case Off(g', w') => Off(g', w')
      case On(g', w') => RunMeaning(bus, g', w', ops[1..])
  }

  /** The accesses alone. */
  ghost function AccessRun(bus: Bus, g: Guest, w: World, ops: seq<MemOp>): Fate
    requires BusOk(bus) && Steady(w) && RegsOk(g.regs) && AllOk(ops)
    decreases |ops|
  {
    if ops == [] then On(g, w)
    else
      AccessKeeps(bus, g, w, ops[0]);
      match Accessed(bus, g, w, ops[0])
      case Off(g', w') => Off(g', w')
      case On(g', w') => AccessRun(bus, g', w', ops[1..])
  }

  // ---- Mapping ----

  /** ra_map_clean: a register for a destination, without its old value. */
  function MapClean(ra: Ra, v: nat): (g: Got)
    requires RaOk(ra) && v < VREGS
    ensures RaOk(g.ra) && InPool(g.h)
  {
    if ra.v2h[v] != -1 then
      MappedPair(ra, v);
      Got(Bind(ra, v, ra.v2h[v], ra.dirty[v]), ra.v2h[v], [])
    else
      var a := Alloc(ra);
      Got(Bind(a.ra, v, a.h, false), a.h, a.code)
  }

  lemma MapCleanOk(ra: Ra, v: nat)
    requires RaOk(ra) && v < VREGS
    ensures CodeOk(MapClean(ra, v).code)
    ensures MapClean(ra, v).ra == Use(ra, v).ra && MapClean(ra, v).h == Use(ra, v).h
  {
    hide InPool, VregOk, HregOk, Pick, Alloc;
    if ra.v2h[v] == -1 {
      AllocCodeOk(ra);
    }
  }

  /** The register an access loads from or stores to; a discarded load uses x16. */
  function Target(ra: Ra, op: MemOp): (g: Got)
    requires RaOk(ra) && MemOpOk(op)
    ensures RaOk(g.ra) && (InPool(g.h) || g.h == 16)
  {
    if op.St? then Use(ra, op.b) else if op.dst == ZERO then Got(ra, 16, []) else MapClean(ra, op.dst)
  }

  datatype Maps = Maps(ra: Ra, hs: seq<nat>, code: seq<Insn>)

  function Targets(ra: Ra, ops: seq<MemOp>): (m: Maps)
    requires RaOk(ra) && AllOk(ops)
    ensures RaOk(m.ra) && |m.hs| == |ops| && HostOk(m.hs)
    decreases |ops|
  {
    if ops == [] then Maps(ra, [], [])
    else
      var p := Target(ra, ops[0]);
      var m := Targets(p.ra, ops[1..]);
      Maps(m.ra, [p.h] + m.hs, p.code + m.code)
  }

  lemma {:induction false} TargetsOk(ra: Ra, ops: seq<MemOp>)
    requires RaOk(ra) && AllOk(ops)
    ensures CodeOk(Targets(ra, ops).code)
    decreases |ops|
  {
    hide RaOk, InsnOk, Use, MapClean;
    if ops != [] {
      var p := Target(ra, ops[0]);
      if ops[0].St? {
        UseCodeOk(ra, ops[0].b);
      } else {
        MapCleanOk(ra, ops[0].dst);
      }
      TargetsOk(p.ra, ops[1..]);
    }
  }

  /** After the merge a loaded register is dirty. */
  function Marked(ra: Ra, ops: seq<MemOp>): Ra
    requires |ra.dirty| == VREGS && AllOk(ops)
    decreases |ops|
  {
    if ops == [] then ra
    else
      assert MemOpOk(ops[0]);
      if ops[0].Ld? && ops[0].dst != ZERO then Marked(ra.(dirty := ra.dirty[ops[0].dst := true]), ops[1..])
      else Marked(ra, ops[1..])
  }

  // ---- The machine ----

  /** One fast access, behind the pointer in x17. */
  function FastOne(s: State, w: World, op: MemOp, h: nat, d: bv64): (r: Ran)
    requires StateOk(s) && h < 31
    ensures StateOk(r.s) && r.Fell?
  {
    var p := Plus(s.r[17], d);
    var t := if d == 0 then s else s.(r := s.r[16 := p]);
    if op.St? then Fell(t, w.(ram := Stored(w.ram, p, op.szl, t.r[h])))
    else Fell(t.(r := t.r[h := InRegister(GuestMemory.Load(w.ram, p, op.szl), op.szl, op.sign, op.is64)]), w)
  }

  function FastAll(s: State, w: World, ops: seq<MemOp>, hs: seq<nat>, lo: bv64): (r: Ran)
    requires StateOk(s) && |hs| == |ops| && HostOk(hs)
    ensures StateOk(r.s) && r.Fell?
    decreases |ops|
  {
    if ops == [] then Fell(s, w)
    else
      var r := FastOne(s, w, ops[0], hs[0], Distance(ops[0], lo));
      FastAll(r.s, r.w, ops[1..], hs[1..], lo)
  }

  function AtHomeValue(s: State, v: nat): bv64
    requires StateOk(s) && v < VREGS
  {
    if v == ZERO then 0 else s.homes[v]
  }

  /** The helpers in program order; the span's address waits in a spill slot. */
  ghost function HelpAll(sem: Semantics, bus: Bus, s: State, w: World, ops: seq<MemOp>, lo: bv64, va: bv64,
      loss: nat -> Loss): (r: Ran)
    requires StateOk(s) && BusOk(bus) && Steady(w) && AllOk(ops)
    ensures StateOk(r.s)
    decreases |ops|
  {
    if ops == [] then Fell(s, w)
    else
      var op := ops[0];
      assert MemOpOk(op);
      HelperSteady(bus, s, w, op, Plus(va, Distance(op, lo)), if op.St? then AtHomeValue(s, op.b) else 0);
      match Helper(bus, s, w, op, Plus(va, Distance(op, lo)), if op.St? then AtHomeValue(s, op.b) else 0)
      case Exited(t, w') => Exited(ExitPlain(sem, t, op.icnt, loss(|ops|)), w')
      case Fell(t, w') => HelpAll(sem, bus, Returned(t, loss(|ops|)), w', ops[1..], lo, va, loss)
  }

  lemma {:induction false} HelperSteady(bus: Bus, s: State, w: World, op: MemOp, va: bv64, val: bv64)
    requires StateOk(s) && BusOk(bus) && Steady(w) && MemOpOk(op)
    ensures
      var r := Helper(bus, s, w, op, va, val);
      r.Fell? ==> Steady(r.w) && Keeps(w, r.w)
  {
    hide OnePage, T.DataHit, Pointer, GuestMemory.Load, Stored, SlotsOk, ContextWord, Plus, Extended;
    assert ReadsOk(bus) && WritesOk(bus);
    assert bus.read(w, s.memNz, op.pc, va, op.szl).Done? ==> Keeps(w, bus.read(w, s.memNz, op.pc, va, op.szl).w);
    assert bus.write(w, s.memNz, op.pc, va, op.szl, val).Done? ==>
        Keeps(w, bus.write(w, s.memNz, op.pc, va, op.szl, val).w);
  }

  /** Loaded values come back from their homes. */
  function Refill(ops: seq<MemOp>, hs: seq<nat>): seq<Insn>
    requires |hs| == |ops|
  {
    if ops == [] then []
    else (if ops[0].Ld? && ops[0].dst != ZERO then [Fetch(hs[0], ops[0].dst)] else []) + Refill(ops[1..], hs[1..])
  }

  lemma {:induction false} RefillOk(ops: seq<MemOp>, hs: seq<nat>)
    requires |hs| == |ops| && AllOk(ops) && HostOk(hs)
    ensures CodeOk(Refill(ops, hs))
    decreases |ops|
  {
    if ops != [] {
      RefillOk(ops[1..], hs[1..]);
    }
  }

  /** The bail path. */
  ghost function Bail(sem: Semantics, bus: Bus, m: Maps, s: State, w: World, ops: seq<MemOp>, lo: bv64,
      loss: nat -> Loss): (r: Ran)
    requires RaOk(m.ra) && StateOk(s) && BusOk(bus) && Steady(w) && |m.hs| == |ops|
    requires AllOk(ops) && HostOk(m.hs)
    ensures StateOk(r.s)
  {
    var u := Spilled(sem, m.ra, s);
    match HelpAll(sem, bus, u, w, ops, lo, u.r[1], loss)
    case Exited(t, w') => Exited(t, w')
    case Fell(t, w') =>
      ReloadOk(m.ra, 0);
      RefillOk(ops, m.hs);
      Fell(Execute(sem, Execute(sem, t, Reload(m.ra, 0)), Refill(ops, m.hs)), w')
  }

  /** Address of the span, one probe, and the branch it decides. */
  ghost function AttemptAll(sem: Semantics, bus: Bus, m: Maps, s: State, w: World, ops: seq<MemOp>, lo: bv64,
      extra: bv64,
      ha: nat, loss: nat -> Loss): (r: Ran)
    requires RaOk(m.ra) && StateOk(s) && BusOk(bus) && Steady(w) && |m.hs| == |ops| && InPool(ha) && ops != []
    requires AllOk(ops) && HostOk(m.hs)
    ensures StateOk(r.s)
  {
    AddressOk(ha, lo);
    var p := Probed(Execute(sem, s, AddressCode(ha, lo)), loss(9));
    if FastHit(w, p.r[1], extra, AccessOf(ops[0])) then
      FastAll(p.(r := p.r[17 := Pointer(w, p.r[1])]), w, ops, m.hs, lo)
    else Bail(sem, bus, m, p, w, ops, lo, loss)
  }

  /** emit_mem_run's code at work. */
  ghost function RunFused(sem: Semantics, bus: Bus, be: Be, s: State, w: World, ops: seq<MemOp>, lo: bv64, extra: bv64,
      loss: nat -> Loss): (r: Ran)
    requires RaOk(be.ra) && StateOk(s) && BusOk(bus) && Steady(w) && RunOk(ops, lo, extra)
    ensures StateOk(r.s)
  {
    var p := Use(be.ra, ops[0].a);
    BaseOk(be, ops[0].a);
    var s1 := Execute(sem, s, Materialize(be.fl) + p.code);
    var m := Targets(p.ra, ops);
    TargetsOk(p.ra, ops);
    match if ops[0].a == SP then SpGate(sem, bus, p.ra, s1, w, p.h, ops[0].pc, ops[0].icnt, loss(0)) else Fell(s1, w)
    case Exited(t, w') => Exited(t, w')
    case Fell(t, w') => AttemptAll(sem, bus, m, Execute(sem, t, m.code), w', ops, lo, extra, p.h, loss)
  }

  lemma BaseOk(be: Be, a: nat)
    requires RaOk(be.ra) && a < VREGS
    ensures CodeOk(Materialize(be.fl) + Use(be.ra, a).code)
  {
    hide RaOk, Use;
    MaterializeOk(be.fl);
    UseCodeOk(be.ra, a);
  }

  /** The generator's state after the run. */
  function AfterRun(be: Be, ops: seq<MemOp>): Be
    requires RaOk(be.ra) && ops != [] && AllOk(ops)
  {
    assert MemOpOk(ops[0]);
    var p := Use(be.ra, ops[0].a);
    Be(Marked(Targets(p.ra, ops).ra, ops), InMemory)
  }

  // ---- One stack-pointer check for all ----

  predicate SameBase(ops: seq<MemOp>, a: nat) {
    forall i :: 0 <= i < |ops| ==> ops[i].a == a
  }

  predicate SpPasses(g: Guest, w: World, a: nat)
    requires RegsOk(g.regs)
  {
    !(a == SP && Misaligned(g.regs[SP]) && w.strict)
  }

  lemma {:induction false} AccessKeepsSp(bus: Bus, g: Guest, w: World, op: MemOp)
    requires BusOk(bus) && Steady(w) && RegsOk(g.regs) && MemOpOk(op)
    ensures
      var f := Accessed(bus, g, w, op);
      f.On? ==> Keeps(w, f.w) && RegsOk(f.g.regs) && f.g.regs[SP] == g.regs[SP] && f.w.strict == w.strict
  {
    hide MemRead, MemWrite, Plus, Extended, SlotsOk, BusOk;
    AccessKeeps(bus, g, w, op);
  }

  /** When the first access passes the check, so do the others: no load goes to SP. */
  lemma {:induction false} OneCheck(bus: Bus, g: Guest, w: World, ops: seq<MemOp>, a: nat)
    requires BusOk(bus) && Steady(w) && RegsOk(g.regs) && AllOk(ops) && SameBase(ops, a) && SpPasses(g, w, a)
    ensures RunMeaning(bus, g, w, ops) == AccessRun(bus, g, w, ops)
    decreases |ops|
  {
    hide Accessed, BusOk, Steady, Misaligned, MemOpOk, Keeps;
    if ops != [] {
      assert MemOpOk(ops[0]) && ops[0].a == a;
      SteadySized(w);
      AccessKeepsSp(bus, g, w, ops[0]);
      MeaningKeeps(bus, g, w, ops[0]);
      match Accessed(bus, g, w, ops[0])
      case Off(_, _) =>
      case On(g', w') =>
        KeepsSteady(w, w');
        OneCheck(bus, g', w', ops[1..], a);
    }
  }

  lemma KeepsSteady(w: World, w': World)
    requires Keeps(w, w')
    ensures Steady(w')
  {
  }

  // ---- Mapping keeps what is mapped ----

  lemma {:induction false} Larger(keep: set<nat>, h: nat)
    ensures |keep + {h}| <= |keep| + 1
  {
    if h in keep {
      assert keep + {h} == keep;
    }
  }

  /** Stored values all arrive, with the base still there. */
  lemma {:induction false} MapStores(sem: Semantics, ra: Ra, s: State, regs: seq<bv64>, ops: seq<MemOp>, keep: set<nat>)
    requires Agrees(ra, s, regs) && RaOk(ra) && Kept(ra, keep) && |keep| + |ops| < |POOL|
    requires AllOk(ops) && forall i :: 0 <= i < |ops| ==> ops[i].St?
    ensures
      var m := Targets(ra, ops);
      && CodeOk(m.code) && StateOk(s)
      && var s' := Execute(sem, s, m.code);
         && Agrees(m.ra, s', regs) && Elsewhere(s, s')
         && (forall h :: h in keep ==> InPool(h) && m.ra.h2v[h] == ra.h2v[h])
         && (forall i :: 0 <= i < |ops| ==> InPool(m.hs[i]) && m.ra.h2v[m.hs[i]] == ops[i].b)
    decreases |ops|
  {
    hide Agrees, RaOk, Kept, Execute, Use, CodeOk, InPool;
    AgreesParts(ra, s, regs);
    if ops == [] {
      ExecuteNone(sem, s);
      NothingNeeded(ra, keep);
      NoCode();
    } else {
      var op := ops[0];
      assert MemOpOk(op) && op.St?;
      UseNext(sem, ra, s, regs, op.b, keep);
      UseMaps(ra, op.b, keep);
      var p := Use(ra, op.b);
      var s1 := Execute(sem, s, p.code);
      Larger(keep, p.h);
      MapStores(sem, p.ra, s1, regs, ops[1..], keep + {p.h});
      ExecuteJoin(sem, s, p.code, Targets(p.ra, ops[1..]).code);
    }
  }

  lemma NothingNeeded(ra: Ra, keep: set<nat>)
    requires RaOk(ra) && Kept(ra, keep)
    ensures forall h :: h in keep ==> InPool(h)
  {
  }

  // ---- Mapping destinations leaves holes ----

  lemma {:induction false} FreedBut(ra: Ra, s: State, regs: seq<bv64>, h: nat, but: set<nat>)
    requires AgreesBut(ra, s, regs, but) && InPool(h) && ra.h2v[h] != NOBODY && Holes(ra, but)
    requires
      var v := ra.h2v[h];
      0 <= v < VREGS && v !in but && ra.v2h[v] == h && (v == ZERO || s.homes[v] == regs[v])
    ensures RaOk(Freed(ra, h)) && AgreesBut(Freed(ra, h), s, regs, but) && Holes(Freed(ra, h), but)
  {
    hide InPool, VregOk, HregOk;
    FreedOk(ra, h);
    forall u | 0 <= u < VREGS ensures HoldsBut(Freed(ra, h), s, regs, u, but) {
      assert HoldsBut(ra, s, regs, u, but);
    }
  }

  /** Excused registers sit in kept ones. */
  ghost predicate HolesKept(ra: Ra, but: set<nat>, keep: set<nat>)
    requires RaOk(ra)
  {
    forall v :: v in but ==> v < VREGS && ra.v2h[v] in keep
  }

  lemma {:induction false} AllocBut(sem: Semantics, ra: Ra, s: State, regs: seq<bv64>, but: set<nat>, keep: set<nat>)
    requires AgreesBut(ra, s, regs, but) && RaOk(ra) && Holes(ra, but) && HolesKept(ra, but, keep)
    requires Kept(ra, keep) && |keep| < |POOL|
    ensures
      var g := Alloc(ra);
      && CodeOk(g.code)
      && var s' := Execute(sem, s, g.code);
         AgreesBut(g.ra, s', regs, but) && Holes(g.ra, but) && s'.r == s.r && Elsewhere(s, s')
  {
    hide InPool, VregOk, HregOk, AgreesBut, Freed, InsnOk, Pick, Exec, Kept, Holes;
    PartsBut(ra, s, regs, but);
    PickSpares(ra, keep);
    var h := Pick(ra, 0, -1);
    if ra.h2v[h] != NOBODY {
      HregPair(ra, h);
      var v := ra.h2v[h];
      if ra.dirty[v] {
        DirtyNotZero(ra, v);
        StoreAgreesBut(ra, s, regs, v, but);
        var s' := s.(homes := s.homes[v := s.r[h]]);
        StoreRuns(sem, s, h, v);
        ExecuteOne(sem, s, Store(h, v));
        FreedBut(ra, s', regs, h, but);
      } else {
        CleanHomeBut(ra, s, regs, v, but);
        FreedBut(ra, s, regs, h, but);
      }
    }
  }

  lemma {:induction false} BindHole(ra: Ra, s: State, regs: seq<bv64>, v: nat, h: nat, but: set<nat>)
    requires AgreesBut(ra, s, regs, but) && RaOk(ra) && Holes(ra, but) && v < ZERO && InPool(h)
    requires ra.h2v[h] == NOBODY && ra.v2h[v] == -1
    ensures
      var b := Bind(ra, v, h, false);
      AgreesBut(b, s, regs, but + {v}) && Holes(b, but + {v})
  {
    hide InPool, VregOk, HregOk;
    var b := Bind(ra, v, h, false);
    UnmappedClean(ra, ra, v);
    forall u | 0 <= u < VREGS ensures HoldsBut(b, s, regs, u, but + {v}) {
      assert HoldsBut(ra, s, regs, u, but);
      if u != v && ra.v2h[u] != -1 {
        MappedPair(ra, u);
      }
    }
  }

  lemma {:induction false} BindSame(ra: Ra, s: State, regs: seq<bv64>, v: nat, but: set<nat>)
    requires AgreesBut(ra, s, regs, but) && RaOk(ra) && Holes(ra, but) && v < VREGS
    requires ra.v2h[v] != -1 && InPool(ra.v2h[v]) && ra.h2v[ra.v2h[v]] == v && (ra.dirty[v] ==> v != ZERO)
    ensures
      var b := Bind(ra, v, ra.v2h[v], ra.dirty[v]);
      AgreesBut(b, s, regs, but) && Holes(b, but)
  {
    hide InPool, VregOk, HregOk;
    var b := Bind(ra, v, ra.v2h[v], ra.dirty[v]);
    forall u | 0 <= u < VREGS ensures HoldsBut(b, s, regs, u, but) {
      assert HoldsBut(ra, s, regs, u, but);
    }
  }

  function NewHole(ra: Ra, v: nat): set<nat>
    requires RaOk(ra) && v < VREGS
  {
    if ra.v2h[v] == -1 then {v} else {}
  }

  /** A destination mapped without its value is a hole; nothing else has changed. */
  lemma {:induction false} MapCleanRight(sem: Semantics, ra: Ra, s: State, regs: seq<bv64>, v: nat, but: set<nat>,
      keep: set<nat>)
    requires AgreesBut(ra, s, regs, but) && RaOk(ra) && Holes(ra, but) && HolesKept(ra, but, keep) && v < ZERO
    requires Kept(ra, keep) && |keep| < |POOL|
    ensures
      var p := MapClean(ra, v);
      && CodeOk(p.code) && StateOk(s)
      && var s' := Execute(sem, s, p.code);
         && AgreesBut(p.ra, s', regs, but + NewHole(ra, v)) && Holes(p.ra, but + NewHole(ra, v))
         && s'.r == s.r && Elsewhere(s, s')
  {
    hide AgreesBut, RaOk, Holes, Execute, Alloc, Bind, Kept, InPool, CodeOk;
    PartsBut(ra, s, regs, but);
    if ra.v2h[v] != -1 {
      MappedPair(ra, v);
      BindSame(ra, s, regs, v, but);
      ExecuteNone(sem, s);
      NoCode();
      assert but + {} == but;
    } else {
      AllocBut(sem, ra, s, regs, but, keep);
      var a := Alloc(ra);
      BindHole(a.ra, Execute(sem, s, a.code), regs, v, a.h, but);
    }
  }

  ghost function Loads(ops: seq<MemOp>): set<nat> {
    set i | 0 <= i < |ops| && ops[i].Ld? && ops[i].dst != ZERO :: ops[i].dst
  }

  lemma {:induction false} LoadsStep(ops: seq<MemOp>)
    requires ops != []
    ensures Loads(ops[1..]) <= Loads(ops)
    ensures ops[0].Ld? && ops[0].dst != ZERO ==> Loads(ops) == Loads(ops[1..]) + {ops[0].dst}
    ensures !(ops[0].Ld? && ops[0].dst != ZERO) ==> Loads(ops) == Loads(ops[1..])
  {
    var rest := ops[1..];
    forall v | v in Loads(rest) ensures v in Loads(ops) {
      var i :| 0 <= i < |rest| && rest[i].Ld? && rest[i].dst != ZERO && rest[i].dst == v;
      assert ops[i + 1] == rest[i];
    }
    forall v | v in Loads(ops) && !(ops[0].Ld? && ops[0].dst == v) ensures v in Loads(rest) {
      var i :| 0 <= i < |ops| && ops[i].Ld? && ops[i].dst != ZERO && ops[i].dst == v;
      assert rest[i - 1] == ops[i];
    }
    if ops[0].Ld? && ops[0].dst != ZERO {
      assert ops[0].dst in Loads(ops);
    }
  }

  /** A destination's register, or x16 for a discarded load. */
  predicate LoadsTo(ra: Ra, op: MemOp, h: nat)
    requires RaOk(ra)
  {
    op.Ld? && if op.dst == ZERO then h == 16 else InPool(h) && ra.h2v[h] == op.dst
  }

  /** Mapped is mapped: the register of every destination, with the base still there and nothing stale to store. */
  lemma {:induction false} MapLoads(sem: Semantics, ra: Ra, s: State, regs: seq<bv64>, ops: seq<MemOp>, but: set<nat>,
      keep: set<nat>) returns (holes: set<nat>)
    requires AgreesBut(ra, s, regs, but) && RaOk(ra) && Holes(ra, but) && HolesKept(ra, but, keep)
    requires Kept(ra, keep) && |keep| + |ops| < |POOL| && AllOk(ops) && forall i :: 0 <= i < |ops| ==> ops[i].Ld?
    ensures
      var m := Targets(ra, ops);
      && CodeOk(m.code) && StateOk(s)
      && var s' := Execute(sem, s, m.code);
         && AgreesBut(m.ra, s', regs, holes) && Holes(m.ra, holes) && Elsewhere(s, s')
         && (forall h :: h in keep ==> InPool(h) && m.ra.h2v[h] == ra.h2v[h] && s'.r[h] == s.r[h])
         && (forall i :: 0 <= i < |ops| ==> LoadsTo(m.ra, ops[i], m.hs[i]))
    ensures holes <= but + Loads(ops)
    decreases |ops|
  {
    hide AgreesBut, RaOk, Kept, Execute, Use, CodeOk, InPool, MapClean, Holes, Loads;
    PartsBut(ra, s, regs, but);
    if ops == [] {
      holes := but;
      ExecuteNone(sem, s);
      NothingNeeded(ra, keep);
      NoCode();
    } else {
      var op := ops[0];
      assert MemOpOk(op) && op.Ld?;
      LoadsStep(ops);
      var p := Target(ra, op);
      if op.dst == ZERO {
        holes := MapLoads(sem, ra, s, regs, ops[1..], but, keep);
        assert [] + Targets(ra, ops[1..]).code == Targets(ra, ops[1..]).code;
      } else {
        MapCleanRight(sem, ra, s, regs, op.dst, but, keep);
        MapCleanOk(ra, op.dst);
        UseMaps(ra, op.dst, keep);
        UseKeeps(ra, op.dst, keep);
        HolesStay(ra, p.ra, op.dst, p.h, but, keep);
        var s1 := Execute(sem, s, p.code);
        Larger(keep, p.h);
        holes := MapLoads(sem, p.ra, s1, regs, ops[1..], but + NewHole(ra, op.dst), keep + {p.h});
        ExecuteJoin(sem, s, p.code, Targets(p.ra, ops[1..]).code);
      }
    }
  }

  lemma {:induction false} HolesStay(ra: Ra, ra': Ra, v: nat, h: nat, but: set<nat>, keep: set<nat>)
    requires RaOk(ra) && RaOk(ra') && HolesKept(ra, but, keep) && Holes(ra, but) && v < VREGS
    requires InPool(h) && ra'.v2h[v] == h
    requires forall k :: k in keep ==> InPool(k) && ra'.h2v[k] == ra.h2v[k]
    ensures HolesKept(ra', but + NewHole(ra, v), keep + {h})
  {
    hide InPool, VregOk, HregOk;
    forall u | u in but ensures u < VREGS && ra'.v2h[u] in keep {
      MappedPair(ra, u);
      StillBound(ra, ra', u, ra.v2h[u]);
    }
  }

  // ---- The fast accesses ----

  lemma BackAndForth(lo: bv64, imm: bv64)
    ensures Plus(lo, imm - lo) == imm
  {
    assert Plus(lo, imm - lo) == lo + (imm - lo);
  }

  lemma MinusIs(x: bv64, y: bv64)
    ensures Minus(x, y) == x - y
  {
  }

  lemma {:induction false} Sums(lo: bv64, imm: bv64)
    ensures Plus(lo, Minus(imm, lo)) == imm
  {
    hide Plus, Minus;
    MinusIs(imm, lo);
    BackAndForth(lo, imm);
  }

  /** An access lies at its distance from the span's address. */
  lemma {:induction false} AccessAddress(base: bv64, op: MemOp, lo: bv64)
    ensures Plus(base, op.imm) == Plus(Plus(base, lo), Distance(op, lo))
  {
    hide Plus, Minus;
    Sums(lo, op.imm);
    Associates(base, lo, Minus(op.imm, lo));
  }

  /** The whole span hits one entry. */
  ghost predicate SpanIn(w: World, va: bv64, extra: bv64, acc: W.Access) {
    Steady(w) && OnePage(va, extra) && T.DataHit(w.caches, w.cpu, va, acc)
  }

  lemma {:induction false} StoreHits(bus: Bus, g: Guest, w: World, op: MemOp, lo: bv64, extra: bv64, va: bv64)
    requires RegsOk(g.regs) && MemOpOk(op) && op.St? && SpanIn(w, va, extra, W.Write) && va == Plus(g.regs[op.a], lo)
    requires Inside(Distance(op, lo), Extra(op.szl), extra) && T.Sized(w.caches)
    ensures
      Accessed(bus, g, w, op) ==
        On(g, w.(ram := Stored(w.ram, Plus(Pointer(w, va), Distance(op, lo)), op.szl, g.regs[op.b])))
  {
    hide Plus, Minus, Inside, OnePage, T.DataHit, Pointer, Stored, SlotsOk, ContextWord, Distance, MemRead;
    AccessAddress(g.regs[op.a], op, lo);
    SpanHits(w, va, Distance(op, lo), Extra(op.szl), extra, W.Write);
    SpanPointer(w, va, Distance(op, lo), Extra(op.szl), extra);
  }

  lemma {:induction false} LoadHits(bus: Bus, g: Guest, w: World, op: MemOp, lo: bv64, extra: bv64, va: bv64)
    requires RegsOk(g.regs) && MemOpOk(op) && op.Ld? && SpanIn(w, va, extra, W.Read) && va == Plus(g.regs[op.a], lo)
    requires Inside(Distance(op, lo), Extra(op.szl), extra) && T.Sized(w.caches)
    ensures
      var v := GuestMemory.Load(w.ram, Plus(Pointer(w, va), Distance(op, lo)), op.szl);
      Accessed(bus, g, w, op) == On(g.(regs := Put(g.regs, op.dst, InRegister(v, op.szl, op.sign, op.is64))), w)
  {
    hide Plus, Minus, Inside, OnePage, T.DataHit, Pointer, GuestMemory.Load, SlotsOk, ContextWord, Distance, MemWrite,
      Extended, InRegister;
    AccessAddress(g.regs[op.a], op, lo);
    SpanHits(w, va, Distance(op, lo), Extra(op.szl), extra, W.Read);
    SpanPointer(w, va, Distance(op, lo), Extra(op.szl), extra);
    SameExtension(w.ram, Plus(Pointer(w, va), Distance(op, lo)), op.szl, op.sign, op.is64);
  }

  /** Only RAM differs. */
  lemma {:induction false} SpanStays(w: World, ram: bv64 -> bv8, va: bv64, extra: bv64, acc: W.Access)
    requires SpanIn(w, va, extra, acc)
    ensures SpanIn(w.(ram := ram), va, extra, acc) && Pointer(w.(ram := ram), va) == Pointer(w, va)
  {
    hide OnePage, SlotsOk, ContextWord, Plus, PageOffset;
  }

  lemma {:induction false} StoreAside(s: State, w: World, op: MemOp, h: nat, d: bv64)
    requires StateOk(s) && op.St? && InPool(h)
    ensures
      var r := FastOne(s, w, op, h, d);
      && Aside(s, r.s) && r.s.r[17] == s.r[17]
      && r.w == w.(ram := Stored(w.ram, Plus(s.r[17], d), op.szl, s.r[h]))
  {
    hide Stored, Plus, GuestMemory.Load, InRegister;
  }

  /** A run of stores, on the fast branch. */
  lemma {:induction false} FastStores(bus: Bus, ra: Ra, s: State, w: World, g: Guest, ops: seq<MemOp>, hs: seq<nat>,
      a: nat,
      lo: bv64, extra: bv64, va: bv64)
    requires BusOk(bus) && Ready(ra, s, g) && RaOk(ra) && StateOk(s) && RegsOk(g.regs) && a < VREGS
    requires AllOk(ops) && HostOk(hs) && |hs| == |ops| && SameBase(ops, a)
    requires forall i :: 0 <= i < |ops| ==> ops[i].St? && Bound(ra, ops[i].b, hs[i])
    requires forall i :: 0 <= i < |ops| ==> Inside(Distance(ops[i], lo), Extra(ops[i].szl), extra)
    requires SpanIn(w, va, extra, W.Write) && T.Sized(w.caches) && s.r[17] == Pointer(w, va)
    requires va == Plus(g.regs[a], lo)
    ensures
      var r := FastAll(s, w, ops, hs, lo);
      Steady(w) && AccessRun(bus, g, w, ops) == On(g, r.w) && Ready(ra, r.s, g)
    decreases |ops|
  {
    hide Ready, RaOk, Bound, Inside, Accessed, FastOne, Plus, Pointer, Stored, Distance, BusOk, SpanIn, Extra, Steady;
    SpanSteady(w, va, extra, W.Write);
    if ops != [] {
      var op := ops[0];
      var d := Distance(op, lo);
      assert MemOpOk(op) && op.a == a && op.St? && Bound(ra, op.b, hs[0]);
      assert Inside(d, Extra(op.szl), extra);
      StoreHits(bus, g, w, op, lo, extra, va);
      BoundPool(ra, op.b, hs[0]);
      ReadyBound(ra, s, g, op.b, hs[0]);
      StoreAside(s, w, op, hs[0], d);
      var r := FastOne(s, w, op, hs[0], d);
      AsideReady(ra, s, r.s, g);
      SpanStays(w, r.w.ram, va, extra, W.Write);
      SpanSteady(r.w, va, extra, W.Write);
      FastStores(bus, ra, r.s, r.w, g, ops[1..], hs[1..], a, lo, extra, va);
    }
  }

  lemma SpanSteady(w: World, va: bv64, extra: bv64, acc: W.Access)
    requires SpanIn(w, va, extra, acc)
    ensures Steady(w) && T.Sized(w.caches)
  {
  }

  lemma BoundPool(ra: Ra, v: nat, h: nat)
    requires RaOk(ra) && Bound(ra, v, h)
    ensures InPool(h)
  {
  }

  lemma ReadyBound(ra: Ra, s: State, g: Guest, v: nat, h: nat)
    requires Ready(ra, s, g) && RaOk(ra) && Bound(ra, v, h)
    ensures h < HREGS && v < VREGS && |s.r| == HREGS && |g.regs| == VREGS && s.r[h] == g.regs[v]
  {
    hide Agrees, RaOk;
    BoundValue(ra, s, g.regs, v, h);
  }

  lemma {:induction false} DirtyOk(ra: Ra, v: nat)
    requires RaOk(ra) && v < ZERO && ra.v2h[v] != -1
    ensures RaOk(ra.(dirty := ra.dirty[v := true]))
  {
    hide InPool;
    var d := ra.(dirty := ra.dirty[v := true]);
    forall u | 0 <= u < VREGS ensures VregOk(d, u) {
      assert VregOk(ra, u);
    }
    forall k | 0 <= k < HREGS ensures HregOk(d, k) {
      assert HregOk(ra, k);
    }
  }

  /** A value arriving in its destination's register, which is then dirty. */
  lemma {:induction false} FillAgrees(ra: Ra, s: State, regs: seq<bv64>, v: nat, h: nat, val: bv64, but: set<nat>)
    requires AgreesBut(ra, s, regs, but + {v}) && v < ZERO && InPool(h) && ra.v2h[v] == h
    ensures
      var d := ra.(dirty := ra.dirty[v := true]);
      RaOk(d) && AgreesBut(d, s.(r := s.r[h := val]), regs[v := val], but)
  {
    hide InPool, VregOk, HregOk;
    DirtyOk(ra, v);
    var d := ra.(dirty := ra.dirty[v := true]);
    var s', regs' := s.(r := s.r[h := val]), regs[v := val];
    forall u | 0 <= u < VREGS ensures HoldsBut(d, s', regs', u, but) {
      assert HoldsBut(ra, s, regs, u, but + {v});
      if ra.v2h[u] != -1 {
        MappedPair(ra, u);
        MappedPair(ra, v);
      }
    }
  }

  /** One load on the fast branch: the scratch address, then the value. */
  lemma {:induction false} LoadAside(s: State, w: World, op: MemOp, h: nat, d: bv64)
    requires StateOk(s) && op.Ld? && h < 31 && h != 17
    ensures
      var r := FastOne(s, w, op, h, d);
      var v := GuestMemory.Load(w.ram, Plus(s.r[17], d), op.szl);
      var t := if d == 0 then s else s.(r := s.r[16 := Plus(s.r[17], d)]);
      && r == Fell(t.(r := t.r[h := InRegister(v, op.szl, op.sign, op.is64)]), w)
      && Aside(s, t) && r.s.r[17] == s.r[17]
  {
    hide Stored, Plus, GuestMemory.Load, InRegister;
  }

  /** The machine's side of a run of loads: destinations still to come are excused. */
  ghost predicate Filling(ra: Ra, s: State, g: Guest, ops: seq<MemOp>) {
    AgreesBut(ra, s, g.regs, Loads(ops)) && s.memNz == g.nz && s.icount == g.icount
  }

  lemma {:induction false} FillStep(ra: Ra, s: State, w: World, g: Guest, ops: seq<MemOp>, h: nat, d: bv64, val: bv64)
    requires Filling(ra, s, g, ops) && RaOk(ra) && StateOk(s) && ops != [] && MemOpOk(ops[0])
    requires LoadsTo(ra, ops[0], h) && h < 31 && RegsOk(g.regs)
    requires
      val == InRegister(GuestMemory.Load(w.ram, Plus(s.r[17], d), ops[0].szl), ops[0].szl, ops[0].sign, ops[0].is64)
    ensures
      var op := ops[0];
      var r := FastOne(s, w, op, h, d);
      var ra' := if op.dst == ZERO then ra else ra.(dirty := ra.dirty[op.dst := true]);
      && RaOk(ra') && r.w == w && r.s.r[17] == s.r[17]
      && Filling(ra', r.s, g.(regs := Put(g.regs, op.dst, val)), ops[1..])
  {
    hide AgreesBut, RaOk, Loads, FastOne, Plus, GuestMemory.Load, InRegister;
    var op := ops[0];
    LoadAside(s, w, op, h, d);
    LoadsStep(ops);
    var t := if d == 0 then s else s.(r := s.r[16 := Plus(s.r[17], d)]);
    PoolAgreesBut(ra, s, t, g.regs, Loads(ops));
    if op.dst == ZERO {
      PoolAgreesBut(ra, t, t.(r := t.r[16 := val]), g.regs, Loads(ops));
    } else {
      TargetMapped(ra, op.dst, h);
      FillAgrees(ra, t, g.regs, op.dst, h, val, Loads(ops[1..]));
    }
  }

  lemma TargetMapped(ra: Ra, v: nat, h: nat)
    requires RaOk(ra) && InPool(h) && ra.h2v[h] == v && v < VREGS
    ensures ra.v2h[v] == h
  {
    assert HregOk(ra, h);
  }

  lemma LoadsToKeeps(ra: Ra, ra': Ra, ops: seq<MemOp>, hs: seq<nat>)
    requires RaOk(ra) && RaOk(ra') && ra'.h2v == ra.h2v && |hs| == |ops| && ops != []
    requires forall i :: 0 <= i < |ops| ==> LoadsTo(ra, ops[i], hs[i])
    ensures forall i :: 0 <= i < |ops| - 1 ==> LoadsTo(ra', ops[1..][i], hs[1..][i])
  {
    hide RaOk;
    forall i | 0 <= i < |ops| - 1 ensures LoadsTo(ra', ops[1..][i], hs[1..][i]) {
      assert LoadsTo(ra, ops[i + 1], hs[i + 1]);
    }
  }

  /** The base survives to the last access. */
  predicate BaseStays(ops: seq<MemOp>) {
    forall i :: 0 <= i < |ops| - 1 ==> KeepsBase(ops[i])
  }

  predicate Spanned(ops: seq<MemOp>, lo: bv64, extra: bv64) {
    forall i :: 0 <= i < |ops| ==> Inside(Distance(ops[i], lo), Extra(ops[i].szl), extra)
  }

  /** A run of loads, on the fast branch. */
  lemma {:induction false} FastLoads(bus: Bus, ra: Ra, s: State, w: World, g: Guest, ops: seq<MemOp>, hs: seq<nat>,
      a: nat,
      lo: bv64, extra: bv64, va: bv64)
    requires BusOk(bus) && Filling(ra, s, g, ops) && RaOk(ra) && StateOk(s) && RegsOk(g.regs) && a < VREGS
    requires AllOk(ops) && HostOk(hs) && |hs| == |ops| && SameBase(ops, a) && BaseStays(ops) && Spanned(ops, lo, extra)
    requires forall i :: 0 <= i < |ops| ==> LoadsTo(ra, ops[i], hs[i])
    requires SpanIn(w, va, extra, W.Read) && T.Sized(w.caches) && Steady(w) && s.r[17] == Pointer(w, va)
    requires ops != [] ==> va == Plus(g.regs[a], lo)
    ensures
      var r := FastAll(s, w, ops, hs, lo);
      var f := AccessRun(bus, g, w, ops);
      f.On? && f.w == r.w && Filling(Marked(ra, ops), r.s, f.g, [])
    decreases |ops|
  {
    hide Filling, RaOk, LoadsTo, Inside, Accessed, FastOne, Plus, Pointer, Distance, BusOk, SpanIn, Extra, Steady,
      GuestMemory.Load, InRegister, AllOk, HostOk, Spanned, SameBase, BaseStays, MemOpOk;
    if ops != [] {
      var op := ops[0];
      var d := Distance(op, lo);
      FirstAndRest(ops, hs, a, lo, extra);
      assert LoadsTo(ra, op, hs[0]);
      LoadsToIsLoad(ra, op, hs[0]);
      Lengths(ra);
      LoadHits(bus, g, w, op, lo, extra, va);
      var val := InRegister(GuestMemory.Load(w.ram, Plus(s.r[17], d), op.szl), op.szl, op.sign, op.is64);
      FillStep(ra, s, w, g, ops, hs[0], d, val);
      var r := FastOne(s, w, op, hs[0], d);
      var g' := g.(regs := Put(g.regs, op.dst, val));
      var ra' := if op.dst == ZERO then ra else ra.(dirty := ra.dirty[op.dst := true]);
      LoadsToKeeps(ra, ra', ops, hs);
      BaseStep(ops, a, g.regs, g'.regs, val);
      FastLoads(bus, ra', r.s, r.w, g', ops[1..], hs[1..], a, lo, extra, va);
    }
  }

  lemma {:induction false} FirstAndRest(ops: seq<MemOp>, hs: seq<nat>, a: nat, lo: bv64, extra: bv64)
    requires ops != [] && AllOk(ops) && HostOk(hs) && |hs| == |ops| && SameBase(ops, a) && Spanned(ops, lo, extra)
    ensures MemOpOk(ops[0]) && ops[0].a == a && hs[0] < 31 && Inside(Distance(ops[0], lo), Extra(ops[0].szl), extra)
    ensures ops[0].Ld? ==> ops[0].dst < VREGS
    ensures AllOk(ops[1..]) && HostOk(hs[1..]) && SameBase(ops[1..], a) && Spanned(ops[1..], lo, extra)
  {
    hide Inside, Distance, Extra;
    assert MemOpOk(ops[0]);
  }

  lemma LoadsToIsLoad(ra: Ra, op: MemOp, h: nat)
    requires RaOk(ra) && LoadsTo(ra, op, h)
    ensures op.Ld?
  {
  }

  lemma {:induction false} BaseStep(ops: seq<MemOp>, a: nat, regs: seq<bv64>, regs': seq<bv64>, val: bv64)
    requires ops != [] && a < VREGS && SameBase(ops, a) && BaseStays(ops) && ops[0].Ld? && MemOpOk(ops[0])
    requires RegsOk(regs) && regs' == Put(regs, ops[0].dst, val)
    ensures SameBase(ops[1..], a) && BaseStays(ops[1..]) && (ops[1..] != [] ==> regs'[a] == regs[a])
  {
    var rest := ops[1..];
    forall i | 0 <= i < |rest| - 1 ensures KeepsBase(rest[i]) {
      assert KeepsBase(ops[i + 1]);
    }
    if rest != [] {
      assert KeepsBase(ops[0]) && ops[0].a == a;
    }
  }

  // ---- The bail path ----

  lemma HomeValue(s: State, g: Guest, v: nat)
    requires AtHome(s, g) && v < VREGS
    ensures AtHomeValue(s, v) == g.regs[v]
  {
  }

  lemma {:induction false} ReturnedHome(ra: Ra, s: State, t: State, loss: Loss, g: Guest, g': Guest, skip: set<nat>)
    requires RaOk(ra) && StateOk(s) && RegsOk(g.regs) && Restored(ra, s, g.regs, 0, skip)
    requires AtHome(t, g') && t.r == s.r && forall u :: 0 <= u < VREGS && u !in skip ==> g'.regs[u] == g.regs[u]
    ensures
      var t' := Returned(t, loss);
      AtHome(t', g') && Restored(ra, t', g'.regs, 0, skip)
  {
    hide RaOk, Restored, Returned;
    RestoredChanges(ra, s, t, g.regs, g'.regs, 0, skip, skip);
    ReturnedKeeps(ra, t, loss, g'.regs, skip);
    ReturnedParts(t, loss);
  }

  /** The bail path's calls are the accesses, and a fault at any of them leaves with all before it done. */
  lemma {:induction false} HelpsRight(sem: Semantics, bus: Bus, ra: Ra, s: State, w: World, g: Guest,
      ops: seq<MemOp>, a: nat,
      lo: bv64, va: bv64, skip: set<nat>, loss: nat -> Loss)
    requires BusOk(bus) && Steady(w) && AtHome(s, g) && RaOk(ra) && Restored(ra, s, g.regs, 0, skip) && a < VREGS
    requires AllOk(ops) && SameBase(ops, a) && BaseStays(ops) && Loads(ops) <= skip
    requires ops != [] ==> va == Plus(g.regs[a], lo)
    ensures
      var r := HelpAll(sem, bus, s, w, ops, lo, va, loss);
      match AccessRun(bus, g, w, ops)
      case Off(g', w') => r.Exited? && r.w == w' && Committed(r.s, g')
      case On(g', w') => r.Fell? && r.w == w' && AtHome(r.s, g') && Restored(ra, r.s, g'.regs, 0, skip)
    decreases |ops|
  {
    hide RaOk, Restored, Returned, Helper, Accessed, Plus, Distance, BusOk, Steady, Committed, ExitPlain, Loads,
      Current,
      Keeps;
    if ops != [] {
      var op := ops[0];
      assert MemOpOk(op) && op.a == a;
      SteadySized(w);
      AccessAddress(g.regs[a], op, lo);
      if op.St? {
        HomeValue(s, g, op.b);
      }
      var val := if op.St? then AtHomeValue(s, op.b) else 0;
      HelperRight(sem, bus, s, w, g, op, Plus(va, Distance(op, lo)), val, loss(|ops|));
      AccessKeeps(bus, g, w, op);
      HelperSteady(bus, s, w, op, Plus(va, Distance(op, lo)), val);
      LoadsStep(ops);
      match Accessed(bus, g, w, op)
      case Off(_, _) =>
      case On(g', w') =>
        var t := Helper(bus, s, w, op, Plus(va, Distance(op, lo)), val).s;
        OnlyLoads(g, g', op, skip);
        ReturnedHome(ra, s, t, loss(|ops|), g, g', skip);
        BaseNext(ops, a, g, g');
        HelpsRight(sem, bus, ra, Returned(t, loss(|ops|)), w', g', ops[1..], a, lo, va, skip, loss);
    }
  }

  lemma OnlyLoads(g: Guest, g': Guest, op: MemOp, skip: set<nat>)
    requires RegsOk(g.regs) && MemOpOk(op) && |g'.regs| == VREGS
    requires g'.regs == if op.Ld? then Put(g.regs, op.dst, g'.regs[op.dst]) else g.regs
    requires op.Ld? && op.dst != ZERO ==> op.dst in skip
    ensures forall u :: 0 <= u < VREGS && u !in skip ==> g'.regs[u] == g.regs[u]
  {
  }

  lemma BaseNext(ops: seq<MemOp>, a: nat, g: Guest, g': Guest)
    requires ops != [] && a < VREGS && SameBase(ops, a) && BaseStays(ops) && MemOpOk(ops[0]) && RegsOk(g.regs)
    requires |g'.regs| == VREGS
    requires g'.regs == if ops[0].Ld? then Put(g.regs, ops[0].dst, g'.regs[ops[0].dst]) else g.regs
    ensures SameBase(ops[1..], a) && BaseStays(ops[1..]) && (ops[1..] != [] ==> g'.regs[a] == g.regs[a])
  {
    if ops[0].Ld? {
      BaseStep(ops, a, g.regs, g'.regs, g'.regs[ops[0].dst]);
    } else {
      var rest := ops[1..];
      forall i | 0 <= i < |rest| - 1 ensures KeepsBase(rest[i]) {
        assert KeepsBase(ops[i + 1]);
      }
    }
  }

  lemma {:induction false} RefillStep(ra: Ra, s: State, g: Guest, v: nat, h: nat, skip: set<nat>)
    requires RaOk(ra) && AtHome(s, g) && v < ZERO && InPool(h) && ra.h2v[h] == v && ra.v2h[v] == h
    requires Restored(ra, s, g.regs, VREGS, skip + {v})
    ensures
      var t := s.(r := s.r[h := s.homes[v]]);
      AtHome(t, g) && Restored(ra, t, g.regs, VREGS, skip)
  {
    hide InPool, VregOk, HregOk;
    var t := s.(r := s.r[h := s.homes[v]]);
    forall u | 0 <= u < VREGS && u !in skip && ra.v2h[u] != -1 ensures SlowPath.InHost(ra, t, g.regs, u) {
      MappedPair(ra, u);
      if u != v {
        assert SlowPath.InHost(ra, s, g.regs, u);
      }
    }
  }

  /** Loaded values come back from their homes, and the allocator's state stands. */
  lemma {:induction false} RefillRight(sem: Semantics, ra: Ra, s: State, g: Guest, ops: seq<MemOp>, hs: seq<nat>)
    requires RaOk(ra) && AtHome(s, g) && |hs| == |ops| && AllOk(ops)
    requires forall i :: 0 <= i < |ops| ==> ops[i].St? || LoadsTo(ra, ops[i], hs[i])
    requires Restored(ra, s, g.regs, VREGS, Loads(ops)) && CodeOk(Refill(ops, hs))
    ensures
      var t := Execute(sem, s, Refill(ops, hs));
      AtHome(t, g) && Restored(ra, t, g.regs, VREGS, {})
    decreases |ops|
  {
    hide RaOk, Restored, Execute, Exec, InPool, Fetch, CodeOk, Current, InsnOk, Loads;
    if ops == [] {
      NoLoads();
      ExecuteNone(sem, s);
    } else {
      var op, h := ops[0], hs[0];
      assert MemOpOk(op) && (op.St? || LoadsTo(ra, op, h));
      LoadsStep(ops);
      var rest := Refill(ops[1..], hs[1..]);
      if op.Ld? && op.dst != ZERO {
        TargetMapped(ra, op.dst, h);
        RefillStep(ra, s, g, op.dst, h, Loads(ops[1..]));
        FetchRuns(sem, s, h, op.dst);
        ExecuteOne(sem, s, Fetch(h, op.dst));
        TailOk([Fetch(h, op.dst)], rest);
        ExecuteJoin(sem, s, [Fetch(h, op.dst)], rest);
        RefillRight(sem, ra, Exec(sem, s, Fetch(h, op.dst)), g, ops[1..], hs[1..]);
      } else {
        assert [] + rest == rest;
        RefillRight(sem, ra, s, g, ops[1..], hs[1..]);
      }
    }
  }

  lemma NoLoads()
    ensures Loads([]) == {}
  {
  }

  lemma TailOk(a: seq<Insn>, b: seq<Insn>)
    requires CodeOk(a + b)
    ensures CodeOk(b)
  {
    hide InsnOk;
    forall i | 0 <= i < |b| ensures InsnOk(b[i]) {
      assert (a + b)[|a| + i] == b[i];
    }
  }

  /** Marking destinations dirty asks less of their homes. */
  lemma {:induction false} MarkRight(ra: Ra, s: State, regs: seq<bv64>, ops: seq<MemOp>, hs: seq<nat>)
    requires AgreesBut(ra, s, regs, {}) && RaOk(ra) && |hs| == |ops| && AllOk(ops)
    requires forall i :: 0 <= i < |ops| ==> ops[i].St? || LoadsTo(ra, ops[i], hs[i])
    ensures AgreesBut(Marked(ra, ops), s, regs, {})
    decreases |ops|
  {
    hide RaOk, AgreesBut, InPool, LoadsTo;
    if ops != [] {
      var op, h := ops[0], hs[0];
      assert MemOpOk(op) && (op.St? || LoadsTo(ra, op, h));
      Lengths(ra);
      if op.Ld? && op.dst != ZERO {
        var d := ra.(dirty := ra.dirty[op.dst := true]);
        MarkOne(ra, s, regs, op, h);
        forall i | 0 <= i < |ops| - 1 ensures ops[1..][i].St? || LoadsTo(d, ops[1..][i], hs[1..][i]) {
          assert ops[i + 1].St? || LoadsTo(ra, ops[i + 1], hs[i + 1]);
          if ops[i + 1].Ld? {
            SameTargets(ra, d, ops[i + 1], hs[i + 1]);
          }
        }
        MarkRight(d, s, regs, ops[1..], hs[1..]);
      } else {
        MarkRight(ra, s, regs, ops[1..], hs[1..]);
      }
    }
  }

  lemma SameTargets(ra: Ra, ra': Ra, op: MemOp, h: nat)
    requires RaOk(ra) && RaOk(ra') && ra'.h2v == ra.h2v && LoadsTo(ra, op, h)
    ensures LoadsTo(ra', op, h)
  {
  }

  lemma {:induction false} MarkOne(ra: Ra, s: State, regs: seq<bv64>, op: MemOp, h: nat)
    requires AgreesBut(ra, s, regs, {}) && RaOk(ra) && MemOpOk(op) && op.Ld? && op.dst != ZERO && LoadsTo(ra, op, h)
    ensures
      var d := ra.(dirty := ra.dirty[op.dst := true]);
      RaOk(d) && AgreesBut(d, s, regs, {})
  {
    hide InPool, VregOk, HregOk;
    TargetMapped(ra, op.dst, h);
    DirtyOk(ra, op.dst);
    var d := ra.(dirty := ra.dirty[op.dst := true]);
    forall u | 0 <= u < VREGS ensures HoldsBut(d, s, regs, u, {}) {
      assert HoldsBut(ra, s, regs, u, {});
    }
  }

  // ---- The theorem ----

  /** Every access has its register. */
  predicate Placed(ra: Ra, ops: seq<MemOp>, hs: seq<nat>)
    requires RaOk(ra) && |hs| == |ops|
  {
    forall i :: 0 <= i < |ops| ==> if ops[i].St? then Bound(ra, ops[i].b, hs[i]) else LoadsTo(ra, ops[i], hs[i])
  }

  /** The state a run's code is in before its probe. */
  ghost predicate Staged(m: Maps, s: State, g: Guest, ops: seq<MemOp>, holes: set<nat>) {
    && AgreesBut(m.ra, s, g.regs, holes) && s.memNz == g.nz && s.icount == g.icount
    && Holes(m.ra, holes) && holes <= Loads(ops)
    && AllOk(ops) && |m.hs| == |ops| && HostOk(m.hs) && Placed(m.ra, ops, m.hs)
  }

  lemma StagedParts(m: Maps, s: State, g: Guest, ops: seq<MemOp>, holes: set<nat>)
    requires Staged(m, s, g, ops, holes)
    ensures RaOk(m.ra) && StateOk(s) && RegsOk(g.regs) && AllOk(ops) && |m.hs| == |ops| && HostOk(m.hs)
  {
  }

  lemma {:induction false} StagedAside(m: Maps, s: State, s': State, g: Guest, ops: seq<MemOp>, holes: set<nat>)
    requires Staged(m, s, g, ops, holes) && Aside(s, s')
    ensures Staged(m, s', g, ops, holes)
  {
    hide AgreesBut, InPool, RaOk, Placed, Holes;
    StagedParts(m, s, g, ops, holes);
    PoolAgreesBut(m.ra, s, s', g.regs, holes);
  }

  lemma {:induction false} SpillStaged(sem: Semantics, m: Maps, s: State, g: Guest, ops: seq<MemOp>, holes: set<nat>)
    requires Staged(m, s, g, ops, holes) && RaOk(m.ra) && StateOk(s)
    ensures
      var u := Spilled(sem, m.ra, s);
      AtHome(u, g) && u.r == s.r && Restored(m.ra, u, g.regs, 0, Loads(ops))
  {
    hide AgreesBut, RaOk, Execute, Current, CodeOk, Restored, Holes, Placed, Loads;
    StagedParts(m, s, g, ops, holes);
    NothingCurrent(s, g.regs);
    StoreDirtyRight(sem, m.ra, s, g.regs, 0, holes);
    var u := Spilled(sem, m.ra, s);
    AgreesRestored(m.ra, u, g.regs, holes);
    RestoredChanges(m.ra, u, u, g.regs, g.regs, 0, holes, Loads(ops));
  }

  lemma {:induction false} PlacedLoads(ra: Ra, ops: seq<MemOp>, hs: seq<nat>)
    requires RaOk(ra) && |hs| == |ops| && Placed(ra, ops, hs)
    ensures forall i :: 0 <= i < |ops| ==> ops[i].St? || LoadsTo(ra, ops[i], hs[i])
  {
    hide RaOk, LoadsTo, Bound;
  }

  /** The merged state: every register agrees and destinations are dirty. */
  ghost predicate Settled(ra: Ra, s: State, g: Guest) {
    AgreesBut(ra, s, g.regs, {}) && s.memNz == g.nz && s.icount == g.icount
  }

  lemma {:induction false} HomeSettled(ra: Ra, s: State, g: Guest, ops: seq<MemOp>, hs: seq<nat>)
    requires RaOk(ra) && AtHome(s, g) && Restored(ra, s, g.regs, VREGS, {})
    requires AllOk(ops) && |hs| == |ops| && Placed(ra, ops, hs) && |ra.dirty| == VREGS
    ensures Settled(Marked(ra, ops), s, g)
  {
    hide RaOk, AgreesBut, Agrees, Restored, Current, Placed, LoadsTo, MemOpOk;
    RestoredAgrees(ra, s, g.regs);
    AgreesButNone(ra, s, g.regs);
    PlacedLoads(ra, ops, hs);
    MarkRight(ra, s, g.regs, ops, hs);
  }

  lemma {:induction false} BailRight(sem: Semantics, bus: Bus, m: Maps, s: State, w: World, g: Guest,
      ops: seq<MemOp>, a: nat,
      lo: bv64, holes: set<nat>, loss: nat -> Loss)
    requires Staged(m, s, g, ops, holes) && RaOk(m.ra) && StateOk(s) && RegsOk(g.regs) && BusOk(bus) && Steady(w)
    requires a < VREGS
    requires AllOk(ops) && HostOk(m.hs) && |m.hs| == |ops| && |m.ra.dirty| == VREGS
    requires ops != [] && SameBase(ops, a) && BaseStays(ops) && s.r[1] == Plus(g.regs[a], lo)
    ensures
      var r := Bail(sem, bus, m, s, w, ops, lo, loss);
      match AccessRun(bus, g, w, ops)
      case Off(g', w') => r.Exited? && r.w == w' && Committed(r.s, g')
      case On(g', w') => r.Fell? && r.w == w' && Settled(Marked(m.ra, ops), r.s, g')
  {
    hide RaOk, Staged, Restored, Spilled, HelpAll, AccessRun, BusOk, Steady, Committed, Execute, CodeOk, Current,
      Settled,
      Marked, AllOk, HostOk, Plus, Placed;
    SpillStaged(sem, m, s, g, ops, holes);
    var u := Spilled(sem, m.ra, s);
    HelpsRight(sem, bus, m.ra, u, w, g, ops, a, lo, u.r[1], Loads(ops), loss);
    match AccessRun(bus, g, w, ops)
    case Off(_, _) =>
    case On(g', w') =>
      var t := HelpAll(sem, bus, u, w, ops, lo, u.r[1], loss).s;
      ReloadOk(m.ra, 0);
      RefillOk(ops, m.hs);
      StagedPlaced(m, s, g, ops, holes);
      PlacedLoads(m.ra, ops, m.hs);
      ReloadHome(sem, m.ra, t, g', Loads(ops));
      var t1 := Execute(sem, t, Reload(m.ra, 0));
      RefillRight(sem, m.ra, t1, g', ops, m.hs);
      HomeSettled(m.ra, Execute(sem, t1, Refill(ops, m.hs)), g', ops, m.hs);
  }

  lemma StagedPlaced(m: Maps, s: State, g: Guest, ops: seq<MemOp>, holes: set<nat>)
    requires Staged(m, s, g, ops, holes) && RaOk(m.ra) && |m.hs| == |ops|
    ensures Placed(m.ra, ops, m.hs)
  {
  }

  lemma {:induction false} ReloadHome(sem: Semantics, ra: Ra, s: State, g: Guest, skip: set<nat>)
    requires RaOk(ra) && AtHome(s, g) && Restored(ra, s, g.regs, 0, skip) && CodeOk(Reload(ra, 0))
    ensures
      var t := Execute(sem, s, Reload(ra, 0));
      AtHome(t, g) && Restored(ra, t, g.regs, VREGS, skip)
  {
    hide RaOk, Restored, Execute, CodeOk;
    ReloadRight(sem, ra, s, g.regs, 0, skip);
  }

  lemma {:induction false} FastRun(bus: Bus, m: Maps, s: State, w: World, g: Guest, ops: seq<MemOp>, a: nat, lo: bv64,
      extra: bv64, holes: set<nat>)
    requires Staged(m, s, g, ops, holes) && RaOk(m.ra) && StateOk(s) && RegsOk(g.regs) && BusOk(bus) && Steady(w)
    requires a < VREGS
    requires AllOk(ops) && HostOk(m.hs) && |m.hs| == |ops| && |m.ra.dirty| == VREGS && T.Sized(w.caches)
    requires ops != [] && SameBase(ops, a) && BaseStays(ops) && Spanned(ops, lo, extra)
    requires forall i :: 0 <= i < |ops| ==> ops[i].St? == ops[0].St?
    requires SpanIn(w, Plus(g.regs[a], lo), extra, AccessOf(ops[0])) && s.r[17] == Pointer(w, Plus(g.regs[a], lo))
    ensures
      var r := FastAll(s, w, ops, m.hs, lo);
      var f := AccessRun(bus, g, w, ops);
      f.On? && f.w == r.w && Settled(Marked(m.ra, ops), r.s, f.g)
  {
    hide RaOk, AccessRun, BusOk, Steady, AgreesBut, Agrees, Marked, FastAll, SpanIn, Pointer, Plus, LoadsTo, Bound,
      Inside,
      Distance, Loads, Holes, MemOpOk;
    var va := Plus(g.regs[a], lo);
    if ops[0].St? {
      NoHoles(ops, holes);
      AgreesButNone(m.ra, s, g.regs);
      FastStores(bus, m.ra, s, w, g, ops, m.hs, a, lo, extra, va);
      var r := FastAll(s, w, ops, m.hs, lo);
      AgreesButNone(m.ra, r.s, g.regs);
      MarkRight(m.ra, r.s, g.regs, ops, m.hs);
    } else {
      AgreesButMore(m.ra, s, g.regs, holes, Loads(ops));
      FastLoads(bus, m.ra, s, w, g, ops, m.hs, a, lo, extra, va);
      NoLoads();
    }
  }

  lemma NoHoles(ops: seq<MemOp>, holes: set<nat>)
    requires holes <= Loads(ops) && forall i :: 0 <= i < |ops| ==> ops[i].St?
    ensures holes == {}
  {
  }

  /** The outcome of a run's code is its accesses' outcome. */
  ghost predicate Outcome(ra: Ra, r: Ran, f: Fate) {
    match f
    case Off(g', w') => r.Exited? && r.w == w' && Committed(r.s, g')
    case On(g', w') => r.Fell? && r.w == w' && Settled(ra, r.s, g')
  }

  lemma {:induction false} AttemptAllRight(sem: Semantics, bus: Bus, m: Maps, s: State, w: World, g: Guest,
      ops: seq<MemOp>,
      lo: bv64, extra: bv64, ha: nat, holes: set<nat>, loss: nat -> Loss)
    requires Staged(m, s, g, ops, holes) && RaOk(m.ra) && StateOk(s) && RegsOk(g.regs) && BusOk(bus) && Steady(w)
    requires RunOk(ops, lo, extra) && AllOk(ops) && HostOk(m.hs) && |m.hs| == |ops| && |m.ra.dirty| == VREGS
    requires ops[0].a < VREGS && InPool(ha) && s.r[ha] == g.regs[ops[0].a]
    ensures
      Outcome(Marked(m.ra, ops), AttemptAll(sem, bus, m, s, w, ops, lo, extra, ha, loss), AccessRun(bus, g, w, ops))
  {
    hide RaOk, Staged, AccessRun, BusOk, Steady, Committed, Execute, CodeOk, Settled, Marked, AllOk, HostOk, Plus,
      FastHit,
      AddressCode, Bail, FastAll, Probed, Pointer, Short, Fits, MemOpOk, AccessOf;
    var a := ops[0].a;
    RunParts(ops, lo, extra);
    AddressOk(ha, lo);
    AddressRight(sem, s, ha, lo);
    var s1 := Execute(sem, s, AddressCode(ha, lo));
    ProbedAside(s, s1, loss(9));
    var p := Probed(s1, loss(9));
    StagedAside(m, s, p, g, ops, holes);
    SteadySized(w);
    if FastHit(w, p.r[1], extra, AccessOf(ops[0])) {
      NotExecute(ops[0]);
      FastIsInterpreter(w, p.r[1], extra, AccessOf(ops[0]));
      var q := p.(r := p.r[17 := Pointer(w, p.r[1])]);
      StagedAside(m, p, q, g, ops, holes);
      FastRun(bus, m, q, w, g, ops, a, lo, extra, holes);
    } else {
      BailRight(sem, bus, m, p, w, g, ops, a, lo, holes, loss);
    }
  }

  lemma NotExecute(op: MemOp)
    ensures AccessOf(op) != W.Execute
  {
  }

  lemma {:induction false} RunParts(ops: seq<MemOp>, lo: bv64, extra: bv64)
    requires RunOk(ops, lo, extra)
    ensures ops != [] && AllOk(ops) && ops[0].a < VREGS && SameBase(ops, ops[0].a) && BaseStays(ops)
    ensures Spanned(ops, lo, extra) && forall i :: 0 <= i < |ops| ==> ops[i].St? == ops[0].St?
  {
    hide Inside, Distance, Short;
    assert Fits(ops[0], ops[0], lo, extra);
  }

  lemma {:induction false} BaseFetched(sem: Semantics, be: Be, s: State, g: Guest, a: nat)
    requires Sim(be, s, g) && RaOk(be.ra) && StateOk(s) && a < VREGS
    requires CodeOk(Materialize(be.fl) + Use(be.ra, a).code)
    ensures
      var p := Use(be.ra, a);
      && Ready(p.ra, Execute(sem, s, Materialize(be.fl) + p.code), g)
      && Bound(p.ra, a, p.h) && Kept(p.ra, {p.h}) && p.ra.h2v[p.h] == a
  {
    hide Agrees, Execute, Materialize, Use, RaOk, Sim, InPool, Kept, CodeOk;
    MaterializeOk(be.fl);
    MaterializeReady(sem, be, s, g);
    var s1 := Execute(sem, s, Materialize(be.fl));
    NothingKept(be.ra);
    UseRight(sem, be.ra, s1, g.regs, a);
    UseMaps(be.ra, a, {});
    UseKeeps(be.ra, a, {});
    assert {} + {Use(be.ra, a).h} == {Use(be.ra, a).h};
    UseCodeOk(be.ra, a);
    ExecuteJoin(sem, s, Materialize(be.fl), Use(be.ra, a).code);
  }

  lemma {:induction false} PlacedStores(ra: Ra, ops: seq<MemOp>, hs: seq<nat>)
    requires RaOk(ra) && |hs| == |ops| && AllOk(ops)
    requires forall i :: 0 <= i < |ops| ==> ops[i].St? && InPool(hs[i]) && ra.h2v[hs[i]] == ops[i].b
    ensures Placed(ra, ops, hs)
  {
    hide RaOk, InPool;
    forall i | 0 <= i < |ops| ensures Bound(ra, ops[i].b, hs[i]) {
      assert MemOpOk(ops[i]);
      TargetMapped(ra, ops[i].b, hs[i]);
    }
  }

  /** After mapping, the run is staged with its base still in its register. */
  lemma {:induction false} StageRight(sem: Semantics, ra: Ra, s: State, g: Guest, ops: seq<MemOp>,
      ha: nat) returns (holes: set<nat>)
    requires Ready(ra, s, g) && RaOk(ra) && StateOk(s) && RegsOk(g.regs) && Kept(ra, {ha}) && InPool(ha)
    requires 1 <= |ops| <= 8 && AllOk(ops) && ops[0].a < VREGS && ra.h2v[ha] == ops[0].a && Bound(ra, ops[0].a, ha)
    requires forall i :: 0 <= i < |ops| ==> ops[i].St? == ops[0].St?
    requires CodeOk(Targets(ra, ops).code)
    ensures
      var m := Targets(ra, ops);
      var s' := Execute(sem, s, m.code);
      Staged(m, s', g, ops, holes) && s'.r[ha] == g.regs[ops[0].a]
  {
    hide Agrees, AgreesBut, RaOk, Kept, Execute, CodeOk, Targets, Loads, MemOpOk, LoadsTo, Bound, InPool, AllOk, HostOk;
    var m := Targets(ra, ops);
    var s' := Execute(sem, s, m.code);
    ReadyBound(ra, s, g, ops[0].a, ha);
    BoundPool(ra, ops[0].a, ha);
    if ops[0].St? {
      holes := {};
      MapStores(sem, ra, s, g.regs, ops, {ha});
      AgreesButNone(m.ra, s', g.regs);
      PlacedStores(m.ra, ops, m.hs);
      assert ha in {ha};
      TargetMapped(m.ra, ops[0].a, ha);
      StillThere(m.ra, s', g.regs, ops[0].a, ha);
    } else {
      AgreesButNone(ra, s, g.regs);
      holes := MapLoads(sem, ra, s, g.regs, ops, {}, {ha});
      assert ha in {ha};
    }
  }

  lemma StillThere(ra: Ra, s: State, regs: seq<bv64>, v: nat, h: nat)
    requires Agrees(ra, s, regs) && RaOk(ra) && v < VREGS && InPool(h) && ra.v2h[v] == h
    ensures |s.r| == HREGS && |regs| == VREGS && s.r[h] == regs[v]
  {
    hide Agrees, RaOk;
    BoundValue(ra, s, regs, v, h);
  }

  lemma SettledRefines(ra: Ra, r: Ran, f: Fate)
    requires Outcome(ra, r, f)
    ensures Refines(r, Be(ra, InMemory), f)
  {
    hide AgreesBut, Agrees, Committed;
    if f.On? {
      AgreesButNone(ra, r.s, f.g.regs);
    }
  }

  /**
   A fused run, hit or miss, is its instructions one after the other: the code
   ends with the memory, caches, registers, flags and count they end with and an
   allocator state that agrees, or, when one of them faults, at its vector with
   those before it done and the whole state committed.
   */
  lemma {:induction false} FusedRight(sem: Semantics, bus: Bus, be: Be, s: State, w: World, g: Guest, ops: seq<MemOp>,
      lo: bv64, extra: bv64, loss: nat -> Loss)
    requires Sim(be, s, g) && RaOk(be.ra) && StateOk(s) && RegsOk(g.regs) && BusOk(bus) && Steady(w)
    requires RunOk(ops, lo, extra) && ops != [] && AllOk(ops)
    ensures Refines(RunFused(sem, bus, be, s, w, ops, lo, extra, loss), AfterRun(be, ops), RunMeaning(bus, g, w, ops))
  {
    hide Sim, RaOk, Execute, Targets, SpGate, AttemptAll, Refines, AccessRun, RunMeaning, Steady, BusOk, Ready,
      Committed,
      Bound, CodeOk, Vectored, InPool, Kept, RunOk, AllOk, Marked, Staged, Use, Misaligned, Outcome, MemOpOk;
    RunParts(ops, lo, extra);
    var a := ops[0].a;
    BaseOk(be, a);
    BaseFetched(sem, be, s, g, a);
    var p := Use(be.ra, a);
    var s1 := Execute(sem, s, Materialize(be.fl) + p.code);
    var m := Targets(p.ra, ops);
    TargetsOk(p.ra, ops);
    SteadySized(w);
    FirstOk(ops);
    if a == SP {
      GateRight(sem, bus, p.ra, s1, w, g, p.h, ops[0], loss(0));
    }
    if a == SP && SpFaults(g, w, ops[0]) {
      GateExits(SpGate(sem, bus, p.ra, s1, w, p.h, ops[0].pc, ops[0].icnt, loss(0)), AfterRun(be, ops), g,
        bus.misaligned(w, g.nz, ops[0].pc), ops[0].icnt);
      FirstFaults(bus, g, w, ops);
    } else {
      var t := if a == SP then SpGate(sem, bus, p.ra, s1, w, p.h, ops[0].pc, ops[0].icnt, loss(0)).s else s1;
      OneCheck(bus, g, w, ops, a);
      RunLength8(ops, lo, extra);
      Lengths(m.ra);
      var holes := StageRight(sem, p.ra, t, g, ops, p.h);
      AttemptAllRight(sem, bus, m, Execute(sem, t, m.code), w, g, ops, lo, extra, p.h, holes, loss);
      SettledRefines(Marked(m.ra, ops), AttemptAll(sem, bus, m, Execute(sem, t, m.code), w, ops, lo, extra, p.h, loss),
        AccessRun(bus, g, w, ops));
    }
  }

  lemma FirstOk(ops: seq<MemOp>)
    requires ops != [] && AllOk(ops)
    ensures MemOpOk(ops[0])
  {
  }

  lemma RunLength8(ops: seq<MemOp>, lo: bv64, extra: bv64)
    requires RunOk(ops, lo, extra)
    ensures 1 <= |ops| <= 8
  {
  }

  lemma FirstFaults(bus: Bus, g: Guest, w: World, ops: seq<MemOp>)
    requires BusOk(bus) && Steady(w) && RegsOk(g.regs) && AllOk(ops) && ops != [] && SpFaults(g, w, ops[0])
    ensures
      var t := bus.misaligned(w, g.nz, ops[0].pc);
      RunMeaning(bus, g, w, ops) == Off(Vectored(g, t, ops[0].icnt), t.w)
  {
    hide Misaligned, Vectored, BusOk, Steady, Accessed;
    SteadySized(w);
    FirstOk(ops);
  }

  /** A run stops at the first instruction that faults, with those before it done. */
  lemma {:induction false} RunStops(bus: Bus, g: Guest, w: World, ops: seq<MemOp>) returns (t: nat)
    requires BusOk(bus) && Steady(w) && RegsOk(g.regs) && AllOk(ops)
    ensures t <= |ops| && AllOk(ops[..t]) && RunMeaning(bus, g, w, ops[..t]).On?
    ensures t == |ops| <==> RunMeaning(bus, g, w, ops).On?
    ensures
      t < |ops| ==>
        var f := RunMeaning(bus, g, w, ops[..t]);
        && Steady(f.w) && RegsOk(f.g.regs) && T.Sized(f.w.caches) && MemOpOk(ops[t])
        && MemMeaning(bus, f.g, f.w, ops[t]) == RunMeaning(bus, g, w, ops)
        && RunMeaning(bus, g, w, ops).Off?
    decreases |ops|
  {
    hide MemMeaning, Steady, BusOk, MemOpOk, Keeps;
    t := 0;
    if ops != [] {
      FirstOk(ops);
      SteadySized(w);
      MeaningKeeps(bus, g, w, ops[0]);
      match MemMeaning(bus, g, w, ops[0])
      case Off(_, _) =>
      case On(g', w') =>
        KeepsSteady(w, w');
        var n := RunStops(bus, g', w', ops[1..]);
        t := n + 1;
        assert ops[..t][0] == ops[0] && ops[..t][1..] == ops[1..][..n];
    }
  }
}
