/**
 Whole blocks with memory: straight-line parts, single accesses and fused runs, from
 the entry check to the exits or a fault on the way.
 */
module MemoryBlocks {
  import opened Ir
  import opened HostCode
  import opened Allocator
  import opened Emitter
  import opened Backend
  import opened SlowPath
  import opened GuestMemory
  import opened MemoryOps
  import opened FusedRuns
  import T = Tlb

  /** The instructions of a block that fall through, in program order. */
  datatype Instr = Do(op: Op) | Access(mem: MemOp)

  predicate InstrOk(x: Instr) {
    match x
    case Do(op) => OpOk(op)
    case Access(mem) => MemOpOk(mem)
  }

  predicate InstrsOk(xs: seq<Instr>) {
    forall i :: 0 <= i < |xs| ==> InstrOk(xs[i])
  }

  // ---- Meaning ----

  /** One instruction; whether marks are heeded says if a definition marked dead leaves the flags alone. */
  ghost function One(sem: Semantics, bus: Bus, g: Guest, w: World, x: Instr, heeded: bool): (f: Fate)
    requires BusOk(bus) && Steady(w) && RegsOk(g.regs) && InstrOk(x)
    ensures f.On? ==> Steady(f.w) && RegsOk(f.g.regs)
  {
    match x
    case Do(op) => On(if heeded then CodeStep(sem, g, op) else Step(sem, g, op), w)
    case Access(mem) =>
      MeaningKeeps(bus, g, w, mem);
      MemMeaning(bus, g, w, mem)
  }

  /** One after the other, up to the first that faults. */
  ghost function Sequence(sem: Semantics, bus: Bus, g: Guest, w: World, xs: seq<Instr>, heeded: bool): (f: Fate)
    requires BusOk(bus) && Steady(w) && RegsOk(g.regs) && InstrsOk(xs)
    ensures f.On? ==> Steady(f.w) && RegsOk(f.g.regs)
    decreases |xs|
  {
    if xs == [] then On(g, w)
    else
      match One(sem, bus, g, w, xs[0], heeded)
      case Off(g', w') => Off(g', w')
      case On(g', w') => Sequence(sem, bus, g', w', xs[1..], heeded)
  }

  /** Where it leaves the guest: past the block's end, or at a vector. */
  function Ended(f: Fate, end: End): Fate
    requires EndOk(end) && (f.On? ==> RegsOk(f.g.regs))
  {
    if f.On? then Off(Finish(f.g, end), f.w) else f
  }

  lemma {:induction false} SequenceJoin(sem: Semantics, bus: Bus, g: Guest, w: World, a: seq<Instr>, b: seq<Instr>,
      heeded: bool)
    requires BusOk(bus) && Steady(w) && RegsOk(g.regs) && InstrsOk(a) && InstrsOk(b)
    ensures InstrsOk(a + b)
    ensures
      var f := Sequence(sem, bus, g, w, a, heeded);
      Sequence(sem, bus, g, w, a + b, heeded) ==
        if f.On? then Sequence(sem, bus, f.g, f.w, b, heeded) else f
    decreases |a|
  {
    hide One, BusOk, Steady, InstrOk, RegsOk;
    if a == [] {
      assert a + b == b;
    } else {
      assert (a + b)[0] == a[0] && (a + b)[1..] == a[1..] + b;
      match One(sem, bus, g, w, a[0], heeded)
      case Off(_, _) =>
      case On(g', w') => SequenceJoin(sem, bus, g', w', a[1..], b, heeded);
    }
  }

  // ---- Parts ----

  /** How the generator takes them: straight-line code, single accesses and fused runs. */
  datatype Part =
    | Plain(ops: seq<Op>)
    | Single(op: MemOp)
    | Fused(run: seq<MemOp>, lo: bv64, extra: bv64)

  predicate PartOk(p: Part) {
    match p
    case Plain(ops) => OpsOk(ops)
    case Single(op) => MemOpOk(op)
    case Fused(run, lo, extra) => RunOk(run, lo, extra)
  }

  predicate PartsOk(parts: seq<Part>) {
    forall i :: 0 <= i < |parts| ==> PartOk(parts[i])
  }

  function Accesses(run: seq<MemOp>): (xs: seq<Instr>)
    ensures |xs| == |run|
  {
    seq(|run|, i requires 0 <= i < |run| => Access(run[i]))
  }

  function Instrs(p: Part): seq<Instr> {
    match p
    case Plain(ops) => seq(|ops|, i requires 0 <= i < |ops| => Do(ops[i]))
    case Single(op) => [Access(op)]
    case Fused(run, _, _) => Accesses(run)
  }

  /** The instructions of the parts, whatever their grouping. */
  function Flat(parts: seq<Part>): seq<Instr> {
    if parts == [] then [] else Instrs(parts[0]) + Flat(parts[1..])
  }

  lemma {:induction false} InstrsAreOk(p: Part)
    requires PartOk(p)
    ensures InstrsOk(Instrs(p))
  {
    hide Inside, Distance, MemOpOk, OpOk;
    if p.Fused? {
      RunParts(p.run, p.lo, p.extra);
    }
  }

  lemma {:induction false} FlatOk(parts: seq<Part>)
    requires PartsOk(parts)
    ensures InstrsOk(Flat(parts))
    decreases |parts|
  {
    hide PartOk, InstrOk, Instrs;
    if parts != [] {
      assert PartOk(parts[0]);
      InstrsAreOk(parts[0]);
      FlatOk(parts[1..]);
    }
  }

  lemma {:induction false} PlainSequence(sem: Semantics, bus: Bus, g: Guest, w: World, ops: seq<Op>)
    requires BusOk(bus) && Steady(w) && RegsOk(g.regs) && OpsOk(ops) && InstrsOk(Instrs(Plain(ops)))
    ensures Sequence(sem, bus, g, w, Instrs(Plain(ops)), true) == On(CodeRun(sem, g, ops), w)
    decreases |ops|
  {
    hide BusOk, Steady, RegsOk, CodeStep, OpOk;
    if ops != [] {
      assert Instrs(Plain(ops))[1..] == Instrs(Plain(ops[1..]));
      PlainSequence(sem, bus, CodeStep(sem, g, ops[0]), w, ops[1..]);
    }
  }

  lemma {:induction false} RunSequence(sem: Semantics, bus: Bus, g: Guest, w: World, run: seq<MemOp>)
    requires BusOk(bus) && Steady(w) && RegsOk(g.regs) && AllOk(run) && InstrsOk(Accesses(run))
    ensures Sequence(sem, bus, g, w, Accesses(run), true) == RunMeaning(bus, g, w, run)
    decreases |run|
  {
    hide BusOk, Steady, RegsOk, MemMeaning, MemOpOk;
    if run != [] {
      FirstOk(run);
      SteadySized(w);
      assert Accesses(run)[1..] == Accesses(run[1..]);
      MeaningKeeps(bus, g, w, run[0]);
      match MemMeaning(bus, g, w, run[0])
      case Off(_, _) =>
      case On(g', w') =>
        KeepsSteady(w, w');
        RunSequence(sem, bus, g', w', run[1..]);
    }
  }

  lemma {:induction false} SingleSequence(sem: Semantics, bus: Bus, g: Guest, w: World, op: MemOp)
    requires BusOk(bus) && Steady(w) && RegsOk(g.regs) && MemOpOk(op) && T.Sized(w.caches)
    ensures InstrsOk([Access(op)]) && Sequence(sem, bus, g, w, [Access(op)], true) == MemMeaning(bus, g, w, op)
  {
    hide BusOk, Steady, RegsOk, MemMeaning, MemOpOk;
    assert [Access(op)][1..] == [];
  }

  // ---- Code ----

  /** What follows a straight-line part: where the flags go from there is not known. */
  const BOUNDARY: End := Branch(Zero(false, true, ZERO), Exit(0, 0), Exit(0, 0))

  function Ahead(rest: seq<Part>, end: End): End {
    if rest == [] then end else BOUNDARY
  }

  /** The generator's state after a part. */
  function AfterPart(be: Be, p: Part, next: End): Be
    requires RaOk(be.ra) && PartOk(p)
  {
    match p
    case Plain(ops) => EmitOps(be, ops, 0, next).be
    case Single(op) => AfterMem(be, op)
    case Fused(run, lo, extra) =>
      RunParts(run, lo, extra);
      AfterRun(be, run)
  }

  /** A part's code at work. */
  ghost predicate PartRuns(sem: Semantics, bus: Bus, be: Be, s: State, w: World, p: Part, next: End,
      loss: nat -> Loss, r: Ran)
    requires RaOk(be.ra) && StateOk(s) && BusOk(bus) && Steady(w) && PartOk(p)
  {
    match p
    case Plain(ops) =>
      var o := EmitOps(be, ops, 0, next);
      CodeOk(o.code) && r == Fell(Execute(sem, s, o.code), w)
    case Single(op) => r == RunMem(sem, bus, be, s, w, op, loss)
    case Fused(run, lo, extra) => r == RunFused(sem, bus, be, s, w, run, lo, extra, loss)
  }

  /** Each part, whatever its marks, keeps the simulation or leaves committed. */
  lemma {:induction false} PartRight(sem: Semantics, bus: Bus, be: Be, s: State, w: World, g: Guest, p: Part, next: End,
      loss: nat -> Loss) returns (r: Ran)
    requires Sim(be, s, g) && RaOk(be.ra) && StateOk(s) && RegsOk(g.regs) && BusOk(bus) && Steady(w) && PartOk(p)
    requires InstrsOk(Instrs(p))
    ensures PartRuns(sem, bus, be, s, w, p, next, loss, r)
    ensures Refines(r, AfterPart(be, p, next), Sequence(sem, bus, g, w, Instrs(p), true))
  {
    hide Sim, RaOk, Execute, EmitOps, RunMem, RunFused, MemMeaning, RunMeaning, Steady, BusOk, CodeRun, CodeOk,
      AfterMem, AfterRun, RunOk, Sequence, InstrOk;
    match p
    case Plain(ops) =>
      OpsSim(sem, be, s, g, ops, 0, next);
      assert ops[0..] == ops;
      PlainSequence(sem, bus, g, w, ops);
      r := Fell(Execute(sem, s, EmitOps(be, ops, 0, next).code), w);
    case Single(op) =>
      SteadySized(w);
      SingleSequence(sem, bus, g, w, op);
      r := RunMem(sem, bus, be, s, w, op, loss);
      MemRight(sem, bus, be, s, w, g, op, loss);
    case Fused(run, lo, extra) =>
      RunParts(run, lo, extra);
      RunSequence(sem, bus, g, w, run);
      r := RunFused(sem, bus, be, s, w, run, lo, extra, loss);
      FusedRight(sem, bus, be, s, w, g, run, lo, extra, loss);
  }

  /** The parts' code one after the other, then the exits; a part that leaves ends it. */
  ghost predicate Runs(sem: Semantics, bus: Bus, be: Be, s: State, w: World, parts: seq<Part>, end: End,
      loss: nat -> nat -> Loss, s': State, w': World)
    requires BusOk(bus) && PartsOk(parts) && EndOk(end)
    decreases |parts|
  {
    && RaOk(be.ra) && StateOk(s) && Steady(w)
    && if parts == [] then
         HostBlockOk(EmitEnd(be, end)) && s' == ExecuteBlock(sem, s, EmitEnd(be, end)) && w' == w
       else
         var next := Ahead(parts[1..], end);
         exists r :: PartRuns(sem, bus, be, s, w, parts[0], next, loss(|parts|), r)
           && if r.Exited? then s' == r.s && w' == r.w
              else Runs(sem, bus, AfterPart(be, parts[0], next), r.s, r.w, parts[1..], end, loss, s', w')
  }

  lemma SimParts(be: Be, s: State, g: Guest)
    requires Sim(be, s, g)
    ensures RaOk(be.ra) && StateOk(s) && RegsOk(g.regs)
  {
  }

  lemma {:induction false} PartsRight(sem: Semantics, bus: Bus, be: Be, s: State, w: World, g: Guest,
      parts: seq<Part>, end: End, loss: nat -> nat -> Loss) returns (s': State, w': World)
    requires Sim(be, s, g) && RegsOk(g.regs) && BusOk(bus) && Steady(w) && PartsOk(parts) && EndOk(end)
    requires InstrsOk(Flat(parts))
    ensures Runs(sem, bus, be, s, w, parts, end, loss, s', w')
    ensures
      var f := Ended(Sequence(sem, bus, g, w, Flat(parts), true), end);
      Committed(s', f.g) && w' == f.w
    decreases |parts|
  {
    hide Sim, RaOk, PartRuns, AfterPart, Sequence, Committed, EmitEnd, ExecuteBlock, HostBlockOk, Finish, Steady, BusOk,
      EndOk, PartOk, StateOk, Instrs, InstrOk;
    SimParts(be, s, g);
    if parts == [] {
      NoInstrs(sem, bus, g, w);
      EndCommits(sem, be, s, g, end);
      s', w' := ExecuteBlock(sem, s, EmitEnd(be, end)), w;
    } else {
      var p, rest := parts[0], parts[1..];
      var next := Ahead(rest, end);
      assert PartOk(p);
      InstrsAreOk(p);
      FlatOk(rest);
      SequenceJoin(sem, bus, g, w, Instrs(p), Flat(rest), true);
      var r := PartRight(sem, bus, be, s, w, g, p, next, loss(|parts|));
      match Sequence(sem, bus, g, w, Instrs(p), true)
      case Off(_, _) =>
        s', w' := r.s, r.w;
      case On(g', w1) =>
        SimParts(AfterPart(be, p, next), r.s, g');
        s', w' := PartsRight(sem, bus, AfterPart(be, p, next), r.s, w1, g', rest, end, loss);
    }
  }

  lemma NoInstrs(sem: Semantics, bus: Bus, g: Guest, w: World)
    requires BusOk(bus) && Steady(w) && RegsOk(g.regs)
    ensures Sequence(sem, bus, g, w, [], true) == On(g, w)
  {
  }

  /** The code leaves one state only. */
  lemma {:induction false} RunsOnce(sem: Semantics, bus: Bus, be: Be, s: State, w: World, parts: seq<Part>, end: End,
      loss: nat -> nat -> Loss, s1: State, w1: World, s2: State, w2: World)
    requires BusOk(bus) && PartsOk(parts) && EndOk(end)
    requires Runs(sem, bus, be, s, w, parts, end, loss, s1, w1) && Runs(sem, bus, be, s, w, parts, end, loss, s2, w2)
    ensures s1 == s2 && w1 == w2
    decreases |parts|
  {
    hide RaOk, StateOk, Steady, BusOk, EndOk, PartOk, AfterPart, EmitEnd, ExecuteBlock, HostBlockOk, PartRuns;
    if parts != [] {
      var p, next := parts[0], Ahead(parts[1..], end);
      assert PartOk(p);
      var r1 :| PartRuns(sem, bus, be, s, w, p, next, loss(|parts|), r1)
        && if r1.Exited? then s1 == r1.s && w1 == r1.w
           else Runs(sem, bus, AfterPart(be, p, next), r1.s, r1.w, parts[1..], end, loss, s1, w1);
      var r2 :| PartRuns(sem, bus, be, s, w, p, next, loss(|parts|), r2)
        && if r2.Exited? then s2 == r2.s && w2 == r2.w
           else Runs(sem, bus, AfterPart(be, p, next), r2.s, r2.w, parts[1..], end, loss, s2, w2);
      PartRunsOnce(sem, bus, be, s, w, p, next, loss(|parts|), r1, r2);
      if r1.Fell? {
        RunsOnce(sem, bus, AfterPart(be, p, next), r1.s, r1.w, parts[1..], end, loss, s1, w1, s2, w2);
      }
    }
  }

  lemma PartRunsOnce(sem: Semantics, bus: Bus, be: Be, s: State, w: World, p: Part, next: End, loss: nat -> Loss,
      r1: Ran, r2: Ran)
    requires RaOk(be.ra) && StateOk(s) && BusOk(bus) && Steady(w) && PartOk(p)
    requires PartRuns(sem, bus, be, s, w, p, next, loss, r1) && PartRuns(sem, bus, be, s, w, p, next, loss, r2)
    ensures r1 == r2
  {
    hide RaOk, StateOk, BusOk, Steady, EmitOps, Execute, RunMem, RunFused, RunOk, CodeOk;
  }

  // ---- The entry ----

  /** An interrupt request or a spent budget turns the block away. */
  predicate Refuses(icount: bv64, interrupt: bool, deadline: bv64) {
    interrupt || icount >= deadline
  }

  /** The entry check's scratch registers and flags. */
  function Entered(s: State, loss: Loss): (t: State)
    requires StateOk(s)
    ensures StateOk(t)
  {
    s.(r := s.r[16 := loss.regs(16)][17 := loss.regs(17)], nz := loss.nz)
  }

  /** be_emit_block's code at work: refused, the block's own address is the next. */
  ghost predicate BlockRuns(sem: Semantics, bus: Bus, s: State, w: World, pc: bv64, parts: seq<Part>, end: End,
      interrupt: bool, deadline: bv64, loss: nat -> nat -> Loss, s': State, w': World)
    requires StateOk(s) && BusOk(bus) && PartsOk(parts) && EndOk(end)
  {
    var t := Entered(s, loss(0)(0));
    if Refuses(s.icount, interrupt, deadline) then
      CodeOk(Imm64(16, pc) + [StorePc(16)]) && s' == Execute(sem, t, Imm64(16, pc) + [StorePc(16)]) && w' == w
    else Runs(sem, bus, Fresh(), t, w, parts, end, loss, s', w')
  }

  lemma {:induction false} RefusalRight(sem: Semantics, s: State, g: Guest, pc: bv64)
    requires Backend.Written(s, g)
    ensures
      var code := Imm64(16, pc) + [StorePc(16)];
      CodeOk(code) && Committed(Execute(sem, s, code), g.(pc := pc))
  {
    hide Execute, Imm64, Exec, CodeOk, InsnOk;
    Imm64Loads(sem, s, 16, pc);
    var t := Execute(sem, s, Imm64(16, pc));
    StorePcRuns(sem, t, 16);
    ExecuteOne(sem, t, StorePc(16));
    ExecuteJoin(sem, s, Imm64(16, pc), [StorePc(16)]);
  }

  /**
   Correctness of the code of a block with memory, whatever its dead marks: from
   any host state that holds the guest in memory it ends with the registers,
   successor, instruction count, guest memory and caches of the block's
   instructions one after the other, and with the NZCV of those definitions not
   marked dead; at its end, at the vector of the first access that faults, or
   turned away at its entry.
   */
  lemma {:induction false} MemoryBlockRight(sem: Semantics, bus: Bus, s: State, w: World, g: Guest, pc: bv64,
      parts: seq<Part>, end: End, interrupt: bool, deadline: bv64, loss: nat -> nat -> Loss)
    returns (s': State, w': World)
    requires Backend.Written(s, g) && RegsOk(g.regs) && BusOk(bus) && Steady(w) && PartsOk(parts) && EndOk(end)
    ensures InstrsOk(Flat(parts))
    ensures BlockRuns(sem, bus, s, w, pc, parts, end, interrupt, deadline, loss, s', w')
    ensures
      var f :=
        if Refuses(g.icount, interrupt, deadline) then Off(g.(pc := pc), w)
        else Ended(Sequence(sem, bus, g, w, Flat(parts), true), end);
      Committed(s', f.g) && w' == f.w
  {
    hide Execute, Imm64, Runs, Sequence, Committed, PartsOk, EndOk, BusOk, Steady, CodeOk, Sim, Fresh, Refuses, Flat,
      InstrsOk;
    FlatOk(parts);
    var t := Entered(s, loss(0)(0));
    if Refuses(s.icount, interrupt, deadline) {
      RefusalRight(sem, t, g, pc);
      s', w' := Execute(sem, t, Imm64(16, pc) + [StorePc(16)]), w;
    } else {
      FreshSim(t, g);
      s', w' := PartsRight(sem, bus, Fresh(), t, w, g, parts, end, loss);
    }
  }
}
