/**
 Loads and stores of compiled code: operands, the stack-pointer check, the inline
 probe with its fast access, the slow branch through a helper, and the merge; and the
 theorem that together they are the helper's access.
 */
module MemoryOps {
  import opened Ir
  import opened HostCode
  import opened Allocator
  import opened Backend
  import opened SlowPath
  import opened GuestMemory
  import opened Probe
  import T = Tlb
  import W = TableWalk
  import OpMeaning

  const SP: nat := 31

  /** A guest load or store: address register and offset, size, and the instruction's address and position. */
  datatype MemOp =
    | Ld(dst: nat, a: nat, imm: bv64, szl: nat, sign: bool, is64: bool, pc: bv64, icnt: bv64)
    | St(b: nat, a: nat, imm: bv64, szl: nat, pc: bv64, icnt: bv64)

  /** Register 31 of a load is the zero register, and eight bytes go to a 64-bit register. */
  predicate MemOpOk(op: MemOp) {
    && op.a < VREGS && op.szl <= 3
    && if op.Ld? then op.dst < VREGS && op.dst != SP && (op.szl == 3 ==> op.is64) else op.b < VREGS
  }

  // ---- Meaning ----

  /** The guest goes on after the access, or is at the exception vector. */
  datatype Fate = On(g: Guest, w: World) | Off(g: Guest, w: World)

  /** An aborted instruction counts, with those retired before it. */
  function Vectored(g: Guest, t: Trap, icnt: bv64): Guest {
    g.(pc := t.pc, nz := t.nz, icount := Plus(Plus(g.icount, 1), icnt))
  }

  predicate Misaligned(x: bv64) {
    x & 15 != 0
  }

  predicate SpFaults(g: Guest, w: World, op: MemOp)
    requires RegsOk(g.regs)
  {
    op.a == SP && Misaligned(g.regs[SP]) && w.strict
  }

  /** The access alone, as the helpers make it. */
  function Accessed(bus: Bus, g: Guest, w: World, op: MemOp): Fate
    requires RegsOk(g.regs) && MemOpOk(op) && T.Sized(w.caches)
  {
    var va := Plus(g.regs[op.a], op.imm);
    if op.Ld? then
      match MemRead(bus, w, g.nz, op.pc, va, op.szl)
      case Done(w', v) => On(g.(regs := Put(g.regs, op.dst, Extended(v, op.szl, op.sign, op.is64))), w')
      case Fault(t) => Off(Vectored(g, t, op.icnt), t.w)
    else
      match MemWrite(bus, w, g.nz, op.pc, va, op.szl, g.regs[op.b])
      case Done(w', _) => On(g, w')
      case Fault(t) => Off(Vectored(g, t, op.icnt), t.w)
  }

  /** The instruction: a stack-pointer base is checked first. */
  function MemMeaning(bus: Bus, g: Guest, w: World, op: MemOp): Fate
    requires RegsOk(g.regs) && MemOpOk(op) && T.Sized(w.caches)
  {
    if SpFaults(g, w, op) then
      var t := bus.misaligned(w, g.nz, op.pc);
      Off(Vectored(g, t, op.icnt), t.w)
    else Accessed(bus, g, w, op)
  }

  // ---- The machine ----

  /** The code ran to its end, or left the block for the epilogue. */
  datatype Ran = Fell(s: State, w: World) | Exited(s: State, w: World)

  function Count(icnt: bv64): seq<Insn> {
    if icnt == 0 then [] else [AddIcount(icnt)]
  }

  /** A helper that takes an exception sets pc and flags and counts the instruction. */
  function Trapped(s: State, t: Trap): State {
    s.(pc := t.pc, memNz := t.nz, icount := Plus(s.icount, 1))
  }

  /** A helper's nonzero return: count the instructions before this one and leave. */
  function ExitPlain(sem: Semantics, s: State, icnt: bv64, loss: Loss): (t: State)
    requires StateOk(s)
    ensures StateOk(t)
  {
    Execute(sem, Returned(s, loss), Count(icnt))
  }

  function LeaveAt(sem: Semantics, s: State, t: Trap, icnt: bv64, loss: Loss): (r: Ran)
    requires StateOk(s)
    ensures StateOk(r.s)
  {
    Exited(ExitPlain(sem, Trapped(s, t), icnt, loss), t.w)
  }

  /** A zero return: reload what it ate. */
  function Resume(sem: Semantics, ra: Ra, s: State, loss: Loss): (t: State)
    requires RaOk(ra) && StateOk(s)
    ensures StateOk(t)
  {
    ReloadOk(ra, 0);
    Execute(sem, Returned(s, loss), Reload(ra, 0))
  }

  function Spilled(sem: Semantics, ra: Ra, s: State): (t: State)
    requires RaOk(ra) && StateOk(s)
    ensures StateOk(t)
  {
    StoreDirtyOk(ra, 0);
    Execute(sem, s, StoreDirty(ra, 0))
  }

  /** emit_spchk: the test, and when it fails jit_sp_check. */
  function SpGate(sem: Semantics, bus: Bus, ra: Ra, s: State, w: World, ha: nat, pc: bv64, icnt: bv64,
      loss: Loss): (r: Ran)
    requires RaOk(ra) && StateOk(s) && InPool(ha)
    ensures StateOk(r.s) && (r.Fell? ==> r.w == w)
  {
    assert Encodable(15);
    var t := Exec(sem, s, AluI(And, true, true, 31, ha, 15));
    if Ir.Holds(0, t.nz) then Fell(t, w)
    else
      var u := Spilled(sem, ra, t);
      if w.strict then LeaveAt(sem, u, bus.misaligned(w, u.memNz, pc), icnt, loss)
      else Fell(Resume(sem, ra, u, loss), w)
  }

  predicate Below(x: bv64) {
    x & 0x8000_0000_0000_0000 != 0
  }

  function Negated(x: bv64): bv64 {
    0 - x
  }

  /** The address, in x1. */
  function AddressCode(ha: nat, imm: bv64): seq<Insn> {
    var mag := if Below(imm) then Negated(imm) else imm;
    if imm == 0 then [MovR(true, 1, ha)]
    else if Encodable(mag) then [AluI(if Below(imm) then Sub else Add, false, true, 1, ha, mag)]
    else Imm64(16, imm) + [AluR(Add, false, true, 1, ha, 16)]
  }

  /** The probe uses x2, x16, x17 and the flags. */
  function Probed(s: State, loss: Loss): (t: State)
    requires StateOk(s)
    ensures StateOk(t)
  {
    s.(r := s.r[2 := loss.regs(2)][16 := loss.regs(16)][17 := loss.regs(17)], nz := loss.nz)
  }

  function AccessOf(op: MemOp): W.Access {
    if op.St? then W.Write else W.Read
  }

  /** The access behind the entry's page pointer; a loaded value goes to x16. */
  function Fast(s: State, w: World, op: MemOp, hb: nat): (r: Ran)
    requires StateOk(s) && T.Sized(w.caches) && hb < HREGS
    ensures StateOk(r.s)
  {
    var p := Pointer(w, s.r[1]);
    if op.St? then Fell(s, w.(ram := Stored(w.ram, p, op.szl, s.r[hb])))
    else Fell(s.(r := s.r[16 := InRegister(GuestMemory.Load(w.ram, p, op.szl), op.szl, op.sign, op.is64)]), w)
  }

  /** jit_ld and jit_st: a loaded value goes home. */
  function Helper(bus: Bus, s: State, w: World, op: MemOp, va: bv64, val: bv64): (r: Ran)
    requires StateOk(s) && T.Sized(w.caches) && MemOpOk(op)
    ensures StateOk(r.s)
  {
    if op.Ld? then
      match MemRead(bus, w, s.memNz, op.pc, va, op.szl)
      case Done(w', v) =>
        Fell(if op.dst == ZERO then s else s.(homes := s.homes[op.dst := Extended(v, op.szl, op.sign, op.is64)]), w')
      case Fault(t) => Exited(Trapped(s, t), t.w)
    else
      match MemWrite(bus, w, s.memNz, op.pc, va, op.szl, val)
      case Done(w', _) => Fell(s, w')
      case Fault(t) => Exited(Trapped(s, t), t.w)
  }

  /** The value a helper left at home, in x16 as the fast branch has it. */
  function Handed(sem: Semantics, s: State, op: MemOp): (t: State)
    requires StateOk(s) && MemOpOk(op)
    ensures StateOk(t)
  {
    if op.Ld? && op.dst != ZERO then Exec(sem, s, Insn.Load(16, op.dst)) else s
  }

  /** The slow branch. */
  function Slow(sem: Semantics, bus: Bus, ra: Ra, s: State, w: World, op: MemOp, hb: nat, loss: Loss): (r: Ran)
    requires RaOk(ra) && StateOk(s) && T.Sized(w.caches) && MemOpOk(op) && hb < HREGS
    ensures StateOk(r.s)
  {
    var u := Spilled(sem, ra, s);
    match Helper(bus, u, w, op, u.r[1], u.r[hb])
    case Exited(v, w') => Exited(ExitPlain(sem, v, op.icnt, loss), w')
    case Fell(v, w') => Fell(Handed(sem, Resume(sem, ra, v, loss), op), w')
  }

  datatype Operands = Operands(ra: Ra, ha: nat, hb: nat, code: seq<Insn>)

  /** Flags to memory, then the stored value and the base to registers. */
  function Fetched(be: Be, op: MemOp): (o: Operands)
    requires RaOk(be.ra) && MemOpOk(op)
    ensures RaOk(o.ra) && InPool(o.ha) && InPool(o.hb)
  {
    if op.St? then
      var q := Use(be.ra, op.b);
      var p := Use(q.ra, op.a);
      Operands(p.ra, p.h, q.h, Materialize(be.fl) + (q.code + p.code))
    else
      var p := Use(be.ra, op.a);
      Operands(p.ra, p.h, p.h, Materialize(be.fl) + p.code)
  }

  /** The merge: a loaded value moves from x16 to its register. */
  function Merged(ra: Ra, op: MemOp): (o: Out)
    requires RaOk(ra) && MemOpOk(op)
    ensures RaOk(o.be.ra)
  {
    if op.Ld? && op.dst != ZERO then
      var d := Def(ra, op.dst);
      Out(Be(d.ra, InMemory), d.code + [MovR(true, d.h, 16)])
    else Out(Be(ra, InMemory), [])
  }

  /** The generator's state after the operation. */
  function AfterMem(be: Be, op: MemOp): (r: Be)
    requires RaOk(be.ra) && MemOpOk(op)
    ensures RaOk(r.ra)
  {
    Merged(Fetched(be, op).ra, op).be
  }

  lemma {:induction false} FetchedOk(be: Be, op: MemOp)
    requires RaOk(be.ra) && MemOpOk(op)
    ensures CodeOk(Fetched(be, op).code)
  {
    hide RaOk, InsnOk, Use, Materialize;
    MaterializeOk(be.fl);
    if op.St? {
      UseCodeOk(be.ra, op.b);
      UseCodeOk(Use(be.ra, op.b).ra, op.a);
    } else {
      UseCodeOk(be.ra, op.a);
    }
  }

  lemma MaterializeOk(fl: Flags)
    ensures CodeOk(Materialize(fl))
  {
  }

  lemma {:induction false} AddressOk(ha: nat, imm: bv64)
    requires InPool(ha)
    ensures CodeOk(AddressCode(ha, imm))
  {
    hide Imm64, Encodable, Below, Negated;
    Imm64Ok(imm);
  }

  lemma Imm64Ok(imm: bv64)
    ensures CodeOk(Imm64(16, imm))
  {
    hide Chunk, Background, SeedFrom, Not16;
    var fill := Background(imm);
    var s := SeedFrom(imm, fill, 0);
    PatchesOk(imm, fill, 0, s);
    PatchesOk(imm, fill, s + 1, 4);
  }

  lemma {:induction false} PatchesOk(v: bv64, fill: bv64, lo: nat, hi: nat)
    requires lo <= hi <= 4
    ensures CodeOk(Patches(16, v, fill, lo, hi))
    decreases hi - lo
  {
    hide Chunk;
    if lo < hi {
      PatchesOk(v, fill, lo + 1, hi);
    }
  }

  lemma {:induction false} MergedOk(ra: Ra, op: MemOp)
    requires RaOk(ra) && MemOpOk(op)
    ensures CodeOk(Merged(ra, op).code)
  {
    hide RaOk, Def;
    if op.Ld? {
      DefCodeOk(ra, op.dst);
    }
  }

  /** Address, probe, and the branch it decides. */
  function Attempt(sem: Semantics, bus: Bus, ra: Ra, s: State, w: World, op: MemOp, ha: nat, hb: nat,
      loss: nat -> Loss): (r: Ran)
    requires RaOk(ra) && StateOk(s) && T.Sized(w.caches) && MemOpOk(op) && InPool(ha) && InPool(hb)
    ensures StateOk(r.s)
  {
    AddressOk(ha, op.imm);
    var p := Probed(Execute(sem, s, AddressCode(ha, op.imm)), loss(1));
    if FastHit(w, p.r[1], Extra(op.szl), AccessOf(op)) then Fast(p, w, op, hb)
    else Slow(sem, bus, ra, p, w, op, hb, loss(2))
  }

  /** emit_mem's code at work. */
  function RunMem(sem: Semantics, bus: Bus, be: Be, s: State, w: World, op: MemOp, loss: nat -> Loss): (r: Ran)
    requires RaOk(be.ra) && StateOk(s) && T.Sized(w.caches) && MemOpOk(op)
  {
    FetchedOk(be, op);
    var o := Fetched(be, op);
    MergedOk(o.ra, op);
    var s1 := Execute(sem, s, o.code);
    match if op.a == SP then SpGate(sem, bus, o.ra, s1, w, o.ha, op.pc, op.icnt, loss(0)) else Fell(s1, w)
    case Exited(t, w') => Exited(t, w')
    case Fell(t, w') =>
      match Attempt(sem, bus, o.ra, t, w', op, o.ha, o.hb, loss)
      case Exited(t', w'') => Exited(t', w'')
      case Fell(t', w'') => Fell(Execute(sem, t', Merged(o.ra, op).code), w'')
  }

  // ---- Values through the pieces ----

  /** The generated code's side: registers agree, flags are in memory, the count is the guest's. */
  ghost predicate Ready(ra: Ra, s: State, g: Guest) {
    Agrees(ra, s, g.regs) && s.memNz == g.nz && s.icount == g.icount
  }

  /** A guest register's value is in a host register. */
  predicate Bound(ra: Ra, v: nat, h: nat)
    requires RaOk(ra)
  {
    v < VREGS && InPool(h) && ra.v2h[v] == h
  }

  lemma {:induction false} BoundValue(ra: Ra, s: State, regs: seq<bv64>, v: nat, h: nat)
    requires Agrees(ra, s, regs) && RaOk(ra) && Bound(ra, v, h)
    ensures h < HREGS && |s.r| == HREGS && |regs| == VREGS && s.r[h] == regs[v]
  {
    hide InPool, Agrees, RaOk;
    AgreesParts(ra, s, regs);
    UsedBefore(ra, s, regs, v);
  }

  lemma {:induction false} MaterializeReady(sem: Semantics, be: Be, s: State, g: Guest)
    requires Sim(be, s, g) && StateOk(s) && CodeOk(Materialize(be.fl))
    ensures Ready(be.ra, Execute(sem, s, Materialize(be.fl)), g)
  {
    hide Agrees, Execute, Materialize;
    MaterializeRight(sem, be.ra, be.fl, s, g.regs, g.nz);
  }

  lemma {:induction false} FetchedRight(sem: Semantics, be: Be, s: State, g: Guest, op: MemOp)
    requires Sim(be, s, g) && MemOpOk(op) && RaOk(be.ra) && StateOk(s)
    requires CodeOk(Fetched(be, op).code)
    ensures
      var o := Fetched(be, op);
      && Ready(o.ra, Execute(sem, s, o.code), g)
      && Bound(o.ra, op.a, o.ha) && (op.St? ==> Bound(o.ra, op.b, o.hb))
  {
    hide Agrees, Execute, Materialize, Use, RaOk, Sim, InPool, Kept, CodeOk;
    MaterializeOk(be.fl);
    MaterializeReady(sem, be, s, g);
    var s1 := Execute(sem, s, Materialize(be.fl));
    NothingKept(be.ra);
    if op.St? {
      UseTwo(sem, be.ra, s1, g.regs, op.b, op.a);
      var q := Use(be.ra, op.b);
      UseMaps(be.ra, op.b, {});
      UseKeeps(be.ra, op.b, {});
      assert {} + {q.h} == {q.h};
      UseMaps(q.ra, op.a, {q.h});
      StillBound(q.ra, Use(q.ra, op.a).ra, op.b, q.h);
      ExecuteJoin(sem, s, Materialize(be.fl), q.code + Use(q.ra, op.a).code);
    } else {
      UseRight(sem, be.ra, s1, g.regs, op.a);
      UseMaps(be.ra, op.a, {});
      ExecuteJoin(sem, s, Materialize(be.fl), Use(be.ra, op.a).code);
    }
  }

  lemma StillBound(ra: Ra, ra': Ra, v: nat, h: nat)
    requires RaOk(ra) && RaOk(ra') && v < VREGS && InPool(h) && ra.h2v[h] == v && ra'.h2v[h] == v
    ensures ra'.v2h[v] == h
  {
    assert HregOk(ra', h);
  }

  /** What is spilled before a call: every home is current. */
  ghost predicate AtHome(s: State, g: Guest) {
    StateOk(s) && RegsOk(g.regs) && Current(s, g.regs, VREGS) && s.memNz == g.nz && s.icount == g.icount
  }

  lemma {:induction false} SpilledRight(sem: Semantics, ra: Ra, s: State, g: Guest)
    requires Ready(ra, s, g) && RaOk(ra) && StateOk(s)
    ensures
      var u := Spilled(sem, ra, s);
      Ready(ra, u, g) && u.r == s.r && AtHome(u, g)
  {
    hide Agrees, AgreesBut, Execute, RaOk, Current, CodeOk;
    AgreesParts(ra, s, g.regs);
    NothingCurrent(s, g.regs);
    AgreesButNone(ra, s, g.regs);
    StoreDirtyRight(sem, ra, s, g.regs, 0, {});
    AgreesButNone(ra, Spilled(sem, ra, s), g.regs);
    AgreesParts(ra, Spilled(sem, ra, s), g.regs);
  }

  /** Leaving with every home current commits the guest's state at the vector. */
  lemma {:induction false} LeaveRight(sem: Semantics, s: State, g: Guest, t: Trap, icnt: bv64, loss: Loss)
    requires AtHome(s, g)
    ensures LeaveAt(sem, s, t, icnt, loss).Exited? && LeaveAt(sem, s, t, icnt, loss).w == t.w
    ensures Committed(LeaveAt(sem, s, t, icnt, loss).s, Vectored(g, t, icnt))
  {
    hide Execute, Plus;
    CountRuns(sem, Returned(Trapped(s, t), loss), icnt);
    assert s.homes[..ZERO] == g.regs[..ZERO];
  }

  /** Coming back restores the allocator's state. */
  lemma {:induction false} ResumeRight(sem: Semantics, ra: Ra, s: State, g: Guest, loss: Loss, skip: set<nat>)
    requires RaOk(ra) && AtHome(s, g) && Restored(ra, s, g.regs, 0, skip)
    ensures
      var t := Resume(sem, ra, s, loss);
      AtHome(t, g) && Restored(ra, t, g.regs, VREGS, skip)
  {
    hide RaOk, Execute, Restored, Returned, CodeOk;
    ReturnedKeeps(ra, s, loss, g.regs, skip);
    ReturnedParts(s, loss);
    var t := Returned(s, loss);
    ReloadRight(sem, ra, t, g.regs, 0, skip);
  }

  lemma ReturnedParts(s: State, loss: Loss)
    requires StateOk(s)
    ensures
      var t := Returned(s, loss);
      t.homes == s.homes && t.memNz == s.memNz && t.icount == s.icount && t.pc == s.pc
  {
  }

  lemma {:induction false} HomeReady(ra: Ra, s: State, g: Guest)
    requires RaOk(ra) && AtHome(s, g) && Restored(ra, s, g.regs, VREGS, {})
    ensures Ready(ra, s, g)
  {
    hide RaOk, Agrees, Restored;
    RestoredAgrees(ra, s, g.regs);
  }

  lemma TestRuns(sem: Semantics, s: State, ha: nat)
    requires StateOk(s) && ha < 31
    ensures Encodable(15) && InsnOk(AluI(And, true, true, 31, ha, 15))
    ensures
      var t := Exec(sem, s, AluI(And, true, true, 31, ha, 15));
      t == s.(nz := t.nz) && (Ir.Holds(0, t.nz) <==> !Misaligned(s.r[ha]))
  {
  }

  lemma ReadyElsewhere(ra: Ra, s: State, s': State, g: Guest)
    requires Ready(ra, s, g) && s' == s.(nz := s'.nz)
    ensures Ready(ra, s', g)
  {
    hide Agrees;
    AgreesElsewhere(ra, s, s', g.regs);
  }

  /** The stack-pointer check leaves for the vector, or lets the access go on as if it were not there. */
  lemma {:induction false} GateRight(sem: Semantics, bus: Bus, ra: Ra, s: State, w: World, g: Guest, ha: nat,
      op: MemOp, loss: Loss)
    requires Ready(ra, s, g) && RaOk(ra) && StateOk(s) && MemOpOk(op) && op.a == SP && Bound(ra, SP, ha)
    requires RegsOk(g.regs)
    ensures
      var r := SpGate(sem, bus, ra, s, w, ha, op.pc, op.icnt, loss);
      if SpFaults(g, w, op) then
        var t := bus.misaligned(w, g.nz, op.pc);
        r.Exited? && r.w == t.w && Committed(r.s, Vectored(g, t, op.icnt))
      else r.Fell? && r.w == w && Ready(ra, r.s, g)
  {
    hide Agrees, RaOk, Execute, Exec, InsnOk, Resume, Spilled, LeaveAt, Restored, Misaligned, Encodable, Committed,
      Current, Ir.Holds;
    BoundValue(ra, s, g.regs, SP, ha);
    TestRuns(sem, s, ha);
    var t := Exec(sem, s, AluI(And, true, true, 31, ha, 15));
    ReadyElsewhere(ra, s, t, g);
    if Misaligned(s.r[ha]) {
      SpilledRight(sem, ra, t, g);
      var u := Spilled(sem, ra, t);
      if w.strict {
        LeaveRight(sem, u, g, bus.misaligned(w, u.memNz, op.pc), op.icnt, loss);
      } else {
        AgreesButNone(ra, u, g.regs);
        AgreesRestored(ra, u, g.regs, {});
        ResumeRight(sem, ra, u, g, loss, {});
        HomeReady(ra, Resume(sem, ra, u, loss), g);
      }
    }
  }

  // ---- The address ----

  lemma FitWide(x: bv64)
    ensures Fit(true, x) == x
  {
  }

  function Less(x: bv64, y: bv64): bv64 {
    x - y
  }

  lemma {:induction false} AddValue(x: bv64, y: bv64, c: bool)
    ensures Compute(Add, true, x, y, c).value == Plus(x, y)
  {
    hide Compute, Plus;
    OpMeaning.AddIsPlus(x, y, c);
  }

  lemma NegatedSum(y: bv64)
    ensures Plus(Negated(y), y) == 0
  {
  }

  lemma {:induction false} SubValue(x: bv64, y: bv64, c: bool)
    ensures Compute(Sub, true, x, Negated(y), c).value == Plus(x, y)
  {
    hide Compute, Negated, Plus;
    NegatedSum(y);
    OpMeaning.SubIsPlus(x, y, Negated(y), c);
  }

  lemma {:induction false} AddressOne(sem: Semantics, s: State, i: Insn, ha: nat, imm: bv64)
    requires StateOk(s) && InPool(ha) && InsnOk(i)
    requires
      || (imm == 0 && i == MovR(true, 1, ha))
      || i == AluI(Add, false, true, 1, ha, imm)
      || i == AluI(Sub, false, true, 1, ha, Negated(imm))
    ensures Exec(sem, s, i) == s.(r := s.r[1 := Plus(s.r[ha], imm)])
  {
    hide Compute, Plus, Negated, Encodable, Fit;
    FitWide(s.r[ha]);
    AddValue(s.r[ha], imm, s.nz.c);
    SubValue(s.r[ha], imm, s.nz.c);
    PlusZero(s.r[ha], imm);
  }

  lemma PlusZero(x: bv64, imm: bv64)
    ensures imm == 0 ==> Plus(x, imm) == x
  {
  }

  lemma {:induction false} AddressSum(sem: Semantics, s: State, ha: nat)
    requires StateOk(s) && InPool(ha)
    ensures
      && InsnOk(AluR(Add, false, true, 1, ha, 16))
      && Exec(sem, s, AluR(Add, false, true, 1, ha, 16)) == s.(r := s.r[1 := Plus(s.r[ha], s.r[16])])
  {
    hide Compute, Plus;
    AddValue(s.r[ha], s.r[16], s.nz.c);
  }

  /** Nothing but scratch registers and host flags has changed. */
  predicate Aside(s: State, s': State) {
    && StateOk(s) && StateOk(s') && s'.homes == s.homes && s'.memNz == s.memNz && s'.icount == s.icount
    && forall h :: 0 <= h < HREGS && InPool(h) ==> s'.r[h] == s.r[h]
  }

  lemma {:induction false} AddressRight(sem: Semantics, s: State, ha: nat, imm: bv64)
    requires StateOk(s) && InPool(ha) && CodeOk(AddressCode(ha, imm))
    ensures
      var s' := Execute(sem, s, AddressCode(ha, imm));
      Aside(s, s') && s'.r[1] == Plus(s.r[ha], imm)
  {
    hide Execute, Exec, Imm64, Below, Encodable, Negated, Plus, InsnOk;
    var code := AddressCode(ha, imm);
    var mag := if Below(imm) then Negated(imm) else imm;
    if imm == 0 || Encodable(mag) {
      assert InsnOk(code[0]);
      AddressOne(sem, s, code[0], ha, imm);
      ExecuteOne(sem, s, code[0]);
    } else {
      Imm64Loads(sem, s, 16, imm);
      var s1 := Execute(sem, s, Imm64(16, imm));
      AddressSum(sem, s1, ha);
      ExecuteOne(sem, s1, AluR(Add, false, true, 1, ha, 16));
      ExecuteJoin(sem, s, Imm64(16, imm), [AluR(Add, false, true, 1, ha, 16)]);
    }
  }

  lemma {:induction false} AsideReady(ra: Ra, s: State, s': State, g: Guest)
    requires Ready(ra, s, g) && Aside(s, s')
    ensures Ready(ra, s', g)
  {
    hide Agrees, InPool;
    PoolAgrees(ra, s, s', g.regs);
  }

  lemma {:induction false} ProbedAside(s: State, s': State, loss: Loss)
    requires Aside(s, s')
    ensures Aside(s, Probed(s', loss)) && Probed(s', loss).r[1] == s'.r[1]
  {
  }

  // ---- The two branches ----

  lemma {:induction false} FastMeans(bus: Bus, w: World, nz: Nzcv, pc: bv64, va: bv64, szl: nat, val: bv64, store: bool)
    requires Steady(w) && FastHit(w, va, Extra(szl), if store then W.Write else W.Read)
    ensures !store ==> MemRead(bus, w, nz, pc, va, szl) == Done(w, GuestMemory.Load(w.ram, Pointer(w, va), szl))
    ensures
      store ==> MemWrite(bus, w, nz, pc, va, szl, val) == Done(w.(ram := Stored(w.ram, Pointer(w, va), szl, val)), 0)
  {
    hide FastHit, OnePage, T.DataHit, Pointer, GuestMemory.Load, Stored;
    FastIsInterpreter(w, va, Extra(szl), if store then W.Write else W.Read);
  }

  /** A load's merge starts from its value in x16 and either branch's registers. */
  ghost predicate Loaded(ra: Ra, s: State, g: Guest, dst: nat, val: bv64)
    requires RaOk(ra)
  {
    && StateOk(s) && RegsOk(g.regs) && dst < ZERO && s.memNz == g.nz && s.icount == g.icount && s.r[16] == val
    && (|| Agrees(ra, s, g.regs)
        || (Current(s, g.regs[dst := val], VREGS) && Restored(ra, s, g.regs[dst := val], VREGS, {dst})))
  }

  lemma {:induction false} DefPut(sem: Semantics, ra: Ra, s: State, g: Guest, dst: nat, val: bv64)
    requires RaOk(ra) && Loaded(ra, s, g, dst, val)
    ensures
      var d := Def(ra, dst);
      && CodeOk(d.code) && InPool(d.h)
      && var t := Execute(sem, s, d.code);
         t.r == s.r && t.memNz == s.memNz && t.icount == s.icount
         && Agrees(d.ra, t.(r := t.r[d.h := val]), g.regs[dst := val])
  {
    hide Agrees, RaOk, Execute, Current, Restored, CodeOk;
    DefPool(ra, dst);
    DefStays(sem, ra, s, dst);
    if Agrees(ra, s, g.regs) {
      DefRight(sem, ra, s, g.regs, dst);
      assert Put(g.regs, dst, val) == g.regs[dst := val];
    } else {
      MergeAgrees(sem, ra, s, g.regs[dst := val], dst);
    }
  }

  lemma DefPool(ra: Ra, dst: nat)
    requires RaOk(ra) && dst < ZERO
    ensures InPool(Def(ra, dst).h)
  {
    hide Pick;
    if ra.v2h[dst] != -1 {
      MappedPair(ra, dst);
    }
  }

  lemma {:induction false} DefStays(sem: Semantics, ra: Ra, s: State, dst: nat)
    requires RaOk(ra) && StateOk(s) && dst < ZERO
    ensures CodeOk(Def(ra, dst).code) && Elsewhere(s, Execute(sem, s, Def(ra, dst).code))
  {
    hide InPool, VregOk, HregOk, Pick, Bind, Freed, InsnOk;
    DefCodeOk(ra, dst);
    if ra.v2h[dst] == -1 {
      var h := Pick(ra, 0, -1);
      if ra.h2v[h] != NOBODY {
        HregPair(ra, h);
        var v := ra.h2v[h];
        if ra.dirty[v] {
          DirtyNotZero(ra, v);
          StoreRuns(sem, s, h, v);
          ExecuteOne(sem, s, Store(h, v));
        }
      }
    }
  }

  lemma MovRuns(sem: Semantics, s: State, rd: nat)
    requires StateOk(s) && rd < 31
    ensures InsnOk(MovR(true, rd, 16)) && Exec(sem, s, MovR(true, rd, 16)) == s.(r := s.r[rd := s.r[16]])
  {
  }

  /** From either branch the merge puts the value in its register, and the allocator's state stands. */
  lemma {:induction false} MergeRight(sem: Semantics, ra: Ra, s: State, g: Guest, op: MemOp, val: bv64)
    requires RaOk(ra) && MemOpOk(op) && op.Ld? && op.dst != ZERO && Loaded(ra, s, g, op.dst, val)
    requires CodeOk(Merged(ra, op).code)
    ensures
      var o := Merged(ra, op);
      Sim(o.be, Execute(sem, s, o.code), g.(regs := Put(g.regs, op.dst, val)))
  {
    hide Agrees, RaOk, Execute, Current, Restored, CodeOk, Def, Exec, InsnOk;
    DefPut(sem, ra, s, g, op.dst, val);
    var d := Def(ra, op.dst);
    var t := Execute(sem, s, d.code);
    MovRuns(sem, t, d.h);
    ExecuteOne(sem, t, MovR(true, d.h, 16));
    ExecuteJoin(sem, s, d.code, [MovR(true, d.h, 16)]);
  }

  /** How the code stands before the merge, when the access came to an outcome. */
  ghost predicate Reached(ra: Ra, r: Ran, g: Guest, op: MemOp, f: Fate)
    requires RaOk(ra) && MemOpOk(op)
  {
    match f
    case Off(g', w') => r.Exited? && r.w == w' && Committed(r.s, g')
    case On(g', w') =>
      && r.Fell? && r.w == w' && RegsOk(g.regs)
      && if op.Ld? && op.dst != ZERO then
           RegsOk(g'.regs) && g' == g.(regs := Put(g.regs, op.dst, g'.regs[op.dst]))
           && Loaded(ra, r.s, g, op.dst, g'.regs[op.dst])
         else g' == g && Ready(ra, r.s, g)
  }

  lemma {:induction false} FastStoreRight(bus: Bus, ra: Ra, s: State, w: World, g: Guest, op: MemOp, hb: nat)
    requires Ready(ra, s, g) && RaOk(ra) && StateOk(s) && RegsOk(g.regs) && MemOpOk(op) && Steady(w) && op.St?
    requires s.r[1] == Plus(g.regs[op.a], op.imm) && hb < HREGS && s.r[hb] == g.regs[op.b]
    requires FastHit(w, s.r[1], Extra(op.szl), AccessOf(op))
    ensures Reached(ra, Fast(s, w, op, hb), g, op, Accessed(bus, g, w, op))
  {
    hide Agrees, RaOk, FastHit, Pointer, Stored, MemWrite, Plus, Steady, Ready, MemRead, Loaded, GuestMemory.Load;
    SteadySized(w);
    FastMeans(bus, w, g.nz, op.pc, s.r[1], op.szl, s.r[hb], true);
  }

  lemma {:induction false} FastLoadRight(bus: Bus, ra: Ra, s: State, w: World, g: Guest, op: MemOp, hb: nat)
    requires Ready(ra, s, g) && RaOk(ra) && StateOk(s) && RegsOk(g.regs) && MemOpOk(op) && Steady(w) && op.Ld?
    requires s.r[1] == Plus(g.regs[op.a], op.imm) && hb < HREGS
    requires FastHit(w, s.r[1], Extra(op.szl), AccessOf(op))
    ensures Reached(ra, Fast(s, w, op, hb), g, op, Accessed(bus, g, w, op))
  {
    hide Agrees, RaOk, FastHit, Pointer, GuestMemory.Load, MemRead, MemWrite, Plus, Steady, Extended, InRegister,
      Committed, Stored, Loaded, Ready;
    SteadySized(w);
    FastMeans(bus, w, g.nz, op.pc, s.r[1], op.szl, 0, false);
    var v := GuestMemory.Load(w.ram, Pointer(w, s.r[1]), op.szl);
    SameExtension(w.ram, Pointer(w, s.r[1]), op.szl, op.sign, op.is64);
    var val := InRegister(v, op.szl, op.sign, op.is64);
    ReadyLoaded(ra, s, g, val);
    assert Accessed(bus, g, w, op) == On(g.(regs := Put(g.regs, op.dst, val)), w);
  }

  lemma {:induction false} ReadyLoaded(ra: Ra, s: State, g: Guest, val: bv64)
    requires Ready(ra, s, g) && RaOk(ra) && StateOk(s) && RegsOk(g.regs)
    ensures
      var t := s.(r := s.r[16 := val]);
      Ready(ra, t, g) && forall dst :: 0 <= dst < ZERO ==> Loaded(ra, t, g, dst, val)
  {
    hide Agrees, Current, Restored, RaOk;
    ScratchAgrees(ra, s, g.regs, 16, val);
  }

  lemma SteadySized(w: World)
    requires Steady(w)
    ensures T.Sized(w.caches)
  {
  }

  /** What a helper does to homes, flags and count is what the access does to the guest. */
  ghost predicate Helped(sem: Semantics, r: Ran, s: State, g: Guest, op: MemOp, f: Fate, loss: Loss)
    requires MemOpOk(op) && RegsOk(g.regs) && StateOk(r.s)
  {
    match f
    case Off(g', w') => r.Exited? && r.w == w' && Committed(ExitPlain(sem, r.s, op.icnt, loss), g')
    case On(g', w') =>
      && r.Fell? && r.w == w' && r.s.r == s.r && AtHome(r.s, g')
      && g' == g.(regs := g'.regs) && g'.regs == if op.Ld? then Put(g.regs, op.dst, g'.regs[op.dst]) else g.regs
  }

  lemma {:induction false} TrapRight(sem: Semantics, s: State, g: Guest, t: Trap, icnt: bv64, loss: Loss)
    requires AtHome(s, g)
    ensures Committed(ExitPlain(sem, Trapped(s, t), icnt, loss), Vectored(g, t, icnt))
  {
    hide ExitPlain, Committed, Trapped, Vectored, AtHome;
    LeaveRight(sem, s, g, t, icnt, loss);
  }

  lemma {:induction false} HomeLoad(s: State, g: Guest, dst: nat, val: bv64)
    requires AtHome(s, g) && dst < VREGS
    ensures AtHome(if dst == ZERO then s else s.(homes := s.homes[dst := val]), g.(regs := Put(g.regs, dst, val)))
  {
  }

  lemma {:induction false} HelperLoadRight(sem: Semantics, bus: Bus, s: State, w: World, g: Guest, op: MemOp, va: bv64,
      loss: Loss)
    requires AtHome(s, g) && MemOpOk(op) && T.Sized(w.caches) && op.Ld? && va == Plus(g.regs[op.a], op.imm)
    ensures Helped(sem, Helper(bus, s, w, op, va, 0), s, g, op, Accessed(bus, g, w, op), loss)
  {
    hide MemRead, Plus, Extended, ExitPlain, Committed, Trapped, Vectored, Current, MemWrite;
    match MemRead(bus, w, s.memNz, op.pc, va, op.szl)
    case Fault(t) => TrapRight(sem, s, g, t, op.icnt, loss);
    case Done(w', v) => HomeLoad(s, g, op.dst, Extended(v, op.szl, op.sign, op.is64));
  }

  lemma {:induction false} HelperStoreRight(sem: Semantics, bus: Bus, s: State, w: World, g: Guest, op: MemOp, va: bv64,
      val: bv64, loss: Loss)
    requires AtHome(s, g) && MemOpOk(op) && T.Sized(w.caches) && op.St?
    requires va == Plus(g.regs[op.a], op.imm) && val == g.regs[op.b]
    ensures Helped(sem, Helper(bus, s, w, op, va, val), s, g, op, Accessed(bus, g, w, op), loss)
  {
    hide MemWrite, Plus, ExitPlain, Committed, Trapped, Vectored, Current, MemRead;
    match MemWrite(bus, w, s.memNz, op.pc, va, op.szl, val)
    case Fault(t) => TrapRight(sem, s, g, t, op.icnt, loss);
    case Done(_, _) =>
  }

  lemma {:induction false} HelperRight(sem: Semantics, bus: Bus, s: State, w: World, g: Guest, op: MemOp, va: bv64,
      val: bv64, loss: Loss)
    requires AtHome(s, g) && MemOpOk(op) && T.Sized(w.caches)
    requires va == Plus(g.regs[op.a], op.imm) && (op.St? ==> val == g.regs[op.b])
    ensures Helped(sem, Helper(bus, s, w, op, va, val), s, g, op, Accessed(bus, g, w, op), loss)
  {
    hide Helped, Accessed, Current, Plus, MemRead, MemWrite, Extended;
    if op.Ld? {
      assert Helper(bus, s, w, op, va, val) == Helper(bus, s, w, op, va, 0);
      HelperLoadRight(sem, bus, s, w, g, op, va, loss);
    } else {
      HelperStoreRight(sem, bus, s, w, g, op, va, val, loss);
    }
  }

  lemma {:induction false} HandedRight(sem: Semantics, ra: Ra, s: State, g: Guest, dst: nat, val: bv64)
    requires RaOk(ra) && StateOk(s) && RegsOk(g.regs) && dst < ZERO && s.memNz == g.nz && s.icount == g.icount
    requires Current(s, g.regs[dst := val], VREGS) && Restored(ra, s, g.regs[dst := val], VREGS, {dst})
    ensures InsnOk(Insn.Load(16, dst)) && Loaded(ra, Exec(sem, s, Insn.Load(16, dst)), g, dst, val)
  {
    hide VregOk, HregOk;
    var t := Exec(sem, s, Insn.Load(16, dst));
    assert t == s.(r := s.r[16 := val]);
    var regs := g.regs[dst := val];
    forall u | 0 <= u < VREGS && u !in {dst} && ra.v2h[u] != -1 ensures SlowPath.InHost(ra, t, regs, u) {
      MappedPair(ra, u);
      assert SlowPath.InHost(ra, s, regs, u);
    }
  }

  lemma {:induction false} SlowRight(sem: Semantics, bus: Bus, ra: Ra, s: State, w: World, g: Guest, op: MemOp, hb: nat,
      loss: Loss)
    requires Ready(ra, s, g) && RaOk(ra) && StateOk(s) && RegsOk(g.regs) && MemOpOk(op) && T.Sized(w.caches)
    requires s.r[1] == Plus(g.regs[op.a], op.imm) && hb < HREGS && (op.St? ==> s.r[hb] == g.regs[op.b])
    ensures Reached(ra, Slow(sem, bus, ra, s, w, op, hb, loss), g, op, Accessed(bus, g, w, op))
  {
    hide Agrees, RaOk, Spilled, Helper, Resume, ExitPlain, Restored, Current, Accessed, Plus, Committed, Exec, InsnOk;
    SpilledRight(sem, ra, s, g);
    var u := Spilled(sem, ra, s);
    AgreesButNone(ra, u, g.regs);
    AgreesRestored(ra, u, g.regs, {});
    HelperRight(sem, bus, u, w, g, op, u.r[1], u.r[hb], loss);
    match Accessed(bus, g, w, op)
    case Off(_, _) =>
    case On(g', w') =>
      var v := Helper(bus, u, w, op, u.r[1], u.r[hb]).s;
      var skip := if op.Ld? && op.dst != ZERO then {op.dst} else {};
      RestoredChanges(ra, u, v, g.regs, g'.regs, 0, {}, skip);
      ResumeRight(sem, ra, v, g', loss, skip);
      var t := Resume(sem, ra, v, loss);
      if op.Ld? && op.dst != ZERO {
        HandedRight(sem, ra, t, g, op.dst, g'.regs[op.dst]);
      } else {
        HomeReady(ra, t, g');
      }
  }

  lemma {:induction false} AttemptRight(sem: Semantics, bus: Bus, ra: Ra, s: State, w: World, g: Guest, op: MemOp,
      ha: nat,
      hb: nat, loss: nat -> Loss)
    requires Ready(ra, s, g) && RaOk(ra) && StateOk(s) && RegsOk(g.regs) && MemOpOk(op) && Steady(w)
    requires Bound(ra, op.a, ha) && InPool(hb) && (op.St? ==> Bound(ra, op.b, hb)) && T.Sized(w.caches)
    ensures Reached(ra, Attempt(sem, bus, ra, s, w, op, ha, hb, loss), g, op, Accessed(bus, g, w, op))
  {
    hide Agrees, RaOk, Execute, Fast, Slow, Accessed, Plus, FastHit, Steady, Reached, AddressCode, CodeOk, Probed;
    AddressOk(ha, op.imm);
    AddressRight(sem, s, ha, op.imm);
    var s1 := Execute(sem, s, AddressCode(ha, op.imm));
    ProbedAside(s, s1, loss(1));
    var p := Probed(s1, loss(1));
    AsideReady(ra, s, p, g);
    BoundValue(ra, s, g.regs, op.a, ha);
    if op.St? {
      BoundValue(ra, p, g.regs, op.b, hb);
    }
    if !FastHit(w, p.r[1], Extra(op.szl), AccessOf(op)) {
      SlowRight(sem, bus, ra, p, w, g, op, hb, loss(2));
    } else if op.St? {
      FastStoreRight(bus, ra, p, w, g, op, hb);
    } else {
      FastLoadRight(bus, ra, p, w, g, op, hb);
    }
  }

  /** The world after an access that completes is one generated code may go on in. */
  lemma {:induction false} AccessKeeps(bus: Bus, g: Guest, w: World, op: MemOp)
    requires BusOk(bus) && Steady(w) && RegsOk(g.regs) && MemOpOk(op) && T.Sized(w.caches)
    ensures
      var f := Accessed(bus, g, w, op);
      f.On? ==> Keeps(w, f.w) && RegsOk(f.g.regs)
  {
    hide OnePage, T.DataHit, Pointer, GuestMemory.Load, Stored, SlotsOk, ContextWord, Plus, Extended;
    var va := Plus(g.regs[op.a], op.imm);
    assert ReadsOk(bus) && WritesOk(bus);
    assert bus.read(w, g.nz, op.pc, va, op.szl).Done? ==> Keeps(w, bus.read(w, g.nz, op.pc, va, op.szl).w);
    if op.St? {
      var val := g.regs[op.b];
      var answer := bus.write(w, g.nz, op.pc, va, op.szl, val);
      assert answer.Done? ==> Keeps(w, answer.w);
    }
  }

  lemma {:induction false} MeaningKeeps(bus: Bus, g: Guest, w: World, op: MemOp)
    requires BusOk(bus) && Steady(w) && RegsOk(g.regs) && MemOpOk(op) && T.Sized(w.caches)
    ensures
      var f := MemMeaning(bus, g, w, op);
      f.On? ==> Keeps(w, f.w) && RegsOk(f.g.regs)
  {
    hide Accessed, Steady, Keeps, BusOk;
    AccessKeeps(bus, g, w, op);
  }

  /** The code's outcome is the meaning's. */
  ghost predicate Refines(r: Ran, be: Be, f: Fate) {
    match f
    case On(g, w) => r.Fell? && r.w == w && Sim(be, r.s, g)
    case Off(g, w) => r.Exited? && r.w == w && Committed(r.s, g)
  }

  lemma {:induction false} MergeRefines(sem: Semantics, ra: Ra, r: Ran, g: Guest, op: MemOp, f: Fate)
    requires RaOk(ra) && MemOpOk(op) && Reached(ra, r, g, op, f) && CodeOk(Merged(ra, op).code) && StateOk(r.s)
    ensures
      var r' := if r.Fell? then Fell(Execute(sem, r.s, Merged(ra, op).code), r.w) else r;
      Refines(r', Merged(ra, op).be, f)
  {
    hide RaOk, Execute, CodeOk, Agrees, Loaded, Committed;
    if r.Fell? {
      if op.Ld? && op.dst != ZERO {
        MergeRight(sem, ra, r.s, g, op, f.g.regs[op.dst]);
      } else {
        ExecuteNone(sem, r.s);
      }
    }
  }

  /**
   A load or store of compiled code, hit or miss, is the instruction: from any
   host state that agrees with the guest it ends with the memory, caches,
   registers, flags and count of the helper's access and an allocator state that
   agrees again, or at the exception vector with the whole state committed.
   */
  lemma {:induction false} MemRight(sem: Semantics, bus: Bus, be: Be, s: State, w: World, g: Guest, op: MemOp,
      loss: nat -> Loss)
    requires Sim(be, s, g) && RaOk(be.ra) && StateOk(s) && RegsOk(g.regs)
    requires MemOpOk(op) && Steady(w) && T.Sized(w.caches)
    ensures Refines(RunMem(sem, bus, be, s, w, op, loss), AfterMem(be, op), MemMeaning(bus, g, w, op))
  {
    hide Sim, RaOk, Execute, Fetched, Merged, SpGate, Attempt, Refines, Reached, Accessed, Steady, Ready, Committed,
      Bound, CodeOk, SpFaults, Vectored, InPool;
    FetchedOk(be, op);
    FetchedRight(sem, be, s, g, op);
    var o := Fetched(be, op);
    MergedOk(o.ra, op);
    var s1 := Execute(sem, s, o.code);
    if op.a == SP {
      GateRight(sem, bus, o.ra, s1, w, g, o.ha, op, loss(0));
    }
    if op.a == SP && SpFaults(g, w, op) {
      GateExits(SpGate(sem, bus, o.ra, s1, w, o.ha, op.pc, op.icnt, loss(0)), AfterMem(be, op), g,
        bus.misaligned(w, g.nz, op.pc), op.icnt);
    } else {
      NoSpFault(g, w, op);
      var t := if op.a == SP then SpGate(sem, bus, o.ra, s1, w, o.ha, op.pc, op.icnt, loss(0)).s else s1;
      AttemptRight(sem, bus, o.ra, t, w, g, op, o.ha, o.hb, loss);
      MergeRefines(sem, o.ra, Attempt(sem, bus, o.ra, t, w, op, o.ha, o.hb, loss), g, op, Accessed(bus, g, w, op));
    }
  }

  lemma GateExits(r: Ran, be: Be, g: Guest, t: Trap, icnt: bv64)
    requires r.Exited? && r.w == t.w && Committed(r.s, Vectored(g, t, icnt))
    ensures Refines(r, be, Off(Vectored(g, t, icnt), t.w))
  {
  }

  lemma NoSpFault(g: Guest, w: World, op: MemOp)
    requires RegsOk(g.regs) && !(op.a == SP && SpFaults(g, w, op))
    ensures !SpFaults(g, w, op)
  {
  }
}
