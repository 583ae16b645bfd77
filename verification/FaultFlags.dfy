/**
 The pass that marks unread flag definitions dead, over blocks with memory, and
 what its marks mean for the NZCV that a faulting access shows: the pass does not
 count an access as a reader.
 */
module FaultFlags {
  import opened Ir
  import opened HostCode
  import opened Emitter
  import opened Backend
  import opened SlowPath
  import opened GuestMemory
  import opened MemoryOps
  import opened MemoryBlocks
  import T = Tlb
  import Probe

  // ---- The pass ----

  predicate ReadsFlags(x: Instr) {
    x.Do? && Reads(x.op)
  }

  predicate SetsFlags(x: Instr) {
    x.Do? && Sets(x.op)
  }

  /** Whether the flags are live before instruction k: read before they are set, or to the end; exits read them. */
  predicate LiveAt(xs: seq<Instr>, k: nat)
    decreases |xs| - k
  {
    k >= |xs| || LiveAcross(xs[k], LiveAt(xs, k + 1))
  }

  /** One step of the pass: an access is transparent. */
  function LiveAcross(x: Instr, after: bool): bool {
    if x.Do? then LiveBefore(x.op, after) else after
  }

  function MarkInstr(x: Instr, live: bool): Instr {
    if x.Do? then Do(MarkOp(x.op, live)) else x
  }

  /** A definition is marked exactly when the flags are not live after it. */
  function MarkAll(xs: seq<Instr>): (m: seq<Instr>)
    ensures |m| == |xs|
  {
    seq(|xs|, k requires 0 <= k < |xs| => MarkInstr(xs[k], LiveAt(xs, k + 1)))
  }

  /** fe_liveness, as far as it goes for flags: one loop from the last instruction to the first. */
  method MarkFlags(xs: seq<Instr>) returns (m: seq<Instr>)
    ensures m == MarkAll(xs)
  {
    hide LiveAcross, MarkInstr;
    m := xs;
    var live := true;
    var i := |xs|;
    while i > 0
      invariant 0 <= i <= |xs| && |m| == |xs| && live == LiveAt(xs, i)
      invariant forall k :: 0 <= k < i ==> m[k] == xs[k]
      invariant forall k :: i <= k < |xs| ==> m[k] == MarkInstr(xs[k], LiveAt(xs, k + 1))
    {
      i := i - 1;
      m := m[i := MarkInstr(xs[i], live)];
      live := LiveAcross(xs[i], live);
    }
  }

  /** Nothing from k up to j sets the flags. */
  predicate Reaches(xs: seq<Instr>, k: nat, j: int) {
    k <= j <= |xs| && forall i :: k <= i < j ==> !SetsFlags(xs[i])
  }

  /** What the flags are at k is read at j, by an instruction or past the end. */
  predicate ReadAt(xs: seq<Instr>, k: nat, j: int) {
    Reaches(xs, k, j) && (j == |xs| || ReadsFlags(xs[j]))
  }

  ghost predicate Read(xs: seq<Instr>, k: nat) {
    exists j :: ReadAt(xs, k, j)
  }

  /** Live means that some reader, or the end, comes before any setter. */
  lemma {:induction false} LiveMeans(xs: seq<Instr>, k: nat)
    requires k <= |xs|
    ensures LiveAt(xs, k) <==> Read(xs, k)
    decreases |xs| - k
  {
    hide ReadAt, LiveAcross;
    if k == |xs| {
      assert ReadAt(xs, k, k) by {
        ReadHere(xs, k);
      }
    } else {
      LiveMeans(xs, k + 1);
      ReadHere(xs, k);
      if Read(xs, k + 1) {
        var j :| ReadAt(xs, k + 1, j);
        ReadLater(xs, k, j);
      }
      if Read(xs, k) {
        var j :| ReadAt(xs, k, j);
        ReadLater(xs, k, j);
      }
    }
  }

  lemma ReadHere(xs: seq<Instr>, k: nat)
    requires k <= |xs|
    ensures k == |xs| ==> ReadAt(xs, k, k)
    ensures k < |xs| && ReadsFlags(xs[k]) ==> ReadAt(xs, k, k)
    ensures k < |xs| ==> (LiveAcross(xs[k], true) <==> ReadsFlags(xs[k]) || !SetsFlags(xs[k]))
    ensures k < |xs| ==> (LiveAcross(xs[k], false) <==> ReadsFlags(xs[k]))
  {
    hide Reads, Sets;
  }

  lemma ReadLater(xs: seq<Instr>, k: nat, j: int)
    requires k < |xs|
    ensures ReadAt(xs, k + 1, j) && !SetsFlags(xs[k]) ==> ReadAt(xs, k, j)
    ensures ReadAt(xs, k, j) && j == k ==> ReadsFlags(xs[k])
    ensures ReadAt(xs, k, j) && j != k ==> !SetsFlags(xs[k]) && ReadAt(xs, k + 1, j)
  {
    hide SetsFlags, ReadsFlags;
  }

  lemma {:induction false} MarkedOk(xs: seq<Instr>)
    requires InstrsOk(xs)
    ensures InstrsOk(MarkAll(xs))
  {
    hide MemOpOk;
    forall k | 0 <= k < |xs| ensures InstrOk(MarkAll(xs)[k]) {
      assert InstrOk(xs[k]);
    }
  }

  // ---- Marked code beside the meaning ----

  /** Whether an access completes, and with what, has nothing to do with the flags. */
  ghost predicate FlagBlind(bus: Bus) {
    && (forall w, nz, nz', pc, va, szl ::
          bus.read(w, nz, pc, va, szl).Done? ==> bus.read(w, nz', pc, va, szl) == bus.read(w, nz, pc, va, szl))
    && (forall w, nz, nz', pc, va, szl, val ::
          bus.write(w, nz, pc, va, szl, val).Done? ==>
            bus.write(w, nz', pc, va, szl, val) == bus.write(w, nz, pc, va, szl, val))
  }

  lemma {:induction false} BlindRead(bus: Bus, w: World, c: Nzcv, nz: Nzcv, pc: bv64, va: bv64, szl: nat)
    requires FlagBlind(bus) && T.Sized(w.caches)
    ensures MemRead(bus, w, nz, pc, va, szl).Done? <==> MemRead(bus, w, c, pc, va, szl).Done?
    ensures
      MemRead(bus, w, nz, pc, va, szl).Done? ==> MemRead(bus, w, c, pc, va, szl) == MemRead(bus, w, nz, pc, va, szl)
  {
    hide Probe.OnePage, T.DataHit, Pointer, GuestMemory.Load;
    assert bus.read(w, nz, pc, va, szl).Done? ==> bus.read(w, c, pc, va, szl) == bus.read(w, nz, pc, va, szl);
    assert bus.read(w, c, pc, va, szl).Done? ==> bus.read(w, nz, pc, va, szl) == bus.read(w, c, pc, va, szl);
  }

  lemma {:induction false} BlindWrite(bus: Bus, w: World, c: Nzcv, nz: Nzcv, pc: bv64, va: bv64, szl: nat, val: bv64)
    requires FlagBlind(bus) && T.Sized(w.caches)
    ensures MemWrite(bus, w, nz, pc, va, szl, val).Done? <==> MemWrite(bus, w, c, pc, va, szl, val).Done?
    ensures
      MemWrite(bus, w, nz, pc, va, szl, val).Done? ==>
        MemWrite(bus, w, c, pc, va, szl, val) == MemWrite(bus, w, nz, pc, va, szl, val)
  {
    hide Probe.OnePage, T.DataHit, Pointer, Stored;
    var a, b := bus.write(w, nz, pc, va, szl, val), bus.write(w, c, pc, va, szl, val);
    assert a.Done? ==> b == a;
    assert b.Done? ==> a == b;
  }

  lemma {:induction false} LoadAlike(bus: Bus, c: Guest, g: Guest, w: World, op: MemOp)
    requires FlagBlind(bus) && RegsOk(g.regs) && MemOpOk(op) && op.Ld? && T.Sized(w.caches) && c == g.(nz := c.nz)
    ensures
      var f, f' := Accessed(bus, g, w, op), Accessed(bus, c, w, op);
      && (f.On? <==> f'.On?)
      && (f.On? ==> f'.w == f.w && f'.g == f.g.(nz := c.nz) && f.g.nz == g.nz)
  {
    hide MemRead, MemWrite, Plus, Extended, FlagBlind, Put;
    BlindRead(bus, w, c.nz, g.nz, op.pc, Plus(g.regs[op.a], op.imm), op.szl);
  }

  lemma {:induction false} StoreAlike(bus: Bus, c: Guest, g: Guest, w: World, op: MemOp)
    requires FlagBlind(bus) && RegsOk(g.regs) && MemOpOk(op) && op.St? && T.Sized(w.caches) && c == g.(nz := c.nz)
    ensures
      var f, f' := Accessed(bus, g, w, op), Accessed(bus, c, w, op);
      && (f.On? <==> f'.On?)
      && (f.On? ==> f'.w == f.w && f'.g == f.g.(nz := c.nz) && f.g.nz == g.nz)
  {
    hide MemRead, MemWrite, Plus, Extended, FlagBlind, Put;
    BlindWrite(bus, w, c.nz, g.nz, op.pc, Plus(g.regs[op.a], op.imm), op.szl, g.regs[op.b]);
  }

  /** An access from the same guest but for its flags completes or faults alike. */
  lemma {:induction false} AccessAlike(bus: Bus, c: Guest, g: Guest, w: World, op: MemOp)
    requires FlagBlind(bus) && RegsOk(g.regs) && MemOpOk(op) && T.Sized(w.caches) && c == g.(nz := c.nz)
    ensures
      var f, f' := MemMeaning(bus, g, w, op), MemMeaning(bus, c, w, op);
      && (f.On? <==> f'.On?)
      && (f.On? ==> f'.w == f.w && f'.g == f.g.(nz := c.nz) && f.g.nz == g.nz)
  {
    hide Accessed, Misaligned, FlagBlind;
    if op.Ld? {
      LoadAlike(bus, c, g, w, op);
    } else {
      StoreAlike(bus, c, g, w, op);
    }
  }

  /** One instruction of the marked block beside its meaning. */
  lemma {:induction false} OneAlike(sem: Semantics, bus: Bus, c: Guest, g: Guest, w: World, x: Instr, after: bool)
    requires BusOk(bus) && FlagBlind(bus) && Steady(w) && RegsOk(g.regs) && InstrOk(x) && InstrOk(MarkInstr(x, after))
    requires Alike(c, g, LiveAcross(x, after))
    ensures
      var f, f' := One(sem, bus, g, w, x, false), One(sem, bus, c, w, MarkInstr(x, after), true);
      && (f.On? <==> f'.On?)
      && (f.On? ==> f'.w == f.w && Alike(f'.g, f.g, after))
      && (f.On? && Keeps(MarkInstr(x, after)) ==> f'.g.nz == f.g.nz)
      && (f.On? && !Keeps(MarkInstr(x, after)) ==> f'.g.nz == c.nz)
      && (f.On? && !SetsFlags(x) ==> f.g.nz == g.nz)
  {
    hide BusOk, FlagBlind, MemMeaning, CodeStep, Step, MemOpOk, RegsOk, OpOk, Reads;
    SteadySized(w);
    if x.Do? {
      MarkKeepsMeaning(sem, g, x.op, after);
      StepAlike(sem, c, g, MarkOp(x.op, after), after);
    } else {
      AccessAlike(bus, c, g, w, x.mem);
    }
  }

  /** An instruction whose code sets the flags. */
  predicate Keeps(x: Instr) {
    x.Do? && Defines(x.op)
  }

  lemma {:induction false} MarkKeepsMeaning(sem: Semantics, g: Guest, op: Op, live: bool)
    requires RegsOk(g.regs) && OpOk(op)
    ensures OpOk(MarkOp(op, live)) && Step(sem, g, MarkOp(op, live)) == Step(sem, g, op)
    ensures LiveBefore(MarkOp(op, live), live) == LiveBefore(op, live) && Sets(MarkOp(op, live)) == Sets(op)
    ensures MarkOp(op, live).Alu? && MarkOp(op, live).dead ==> !live
  {
    hide Compute, Insert, Chosen, Compared, Ir.Holds, Fit, Value, Put;
  }

  // ---- Sequences ----

  /** The first n instructions. */
  function Front(xs: seq<Instr>, n: nat): (r: seq<Instr>)
    requires n <= |xs|
    ensures InstrsOk(xs) ==> InstrsOk(r)
  {
    xs[..n]
  }

  lemma {:induction false} FrontStep(sem: Semantics, bus: Bus, g: Guest, w: World, xs: seq<Instr>, n: nat, heeded: bool)
    requires BusOk(bus) && Steady(w) && RegsOk(g.regs) && InstrsOk(xs) && n < |xs|
    ensures
      var f := Sequence(sem, bus, g, w, Front(xs, n), heeded);
      InstrOk(xs[n]) &&
      Sequence(sem, bus, g, w, Front(xs, n + 1), heeded) ==
        if f.On? then One(sem, bus, f.g, f.w, xs[n], heeded) else f
  {
    hide One, BusOk, Steady, RegsOk, InstrOk;
    assert InstrOk(xs[n]);
    assert Front(xs, n + 1) == Front(xs, n) + [xs[n]];
    SequenceJoin(sem, bus, g, w, Front(xs, n), [xs[n]], heeded);
    var f := Sequence(sem, bus, g, w, Front(xs, n), heeded);
    if f.On? {
      Alone(sem, bus, f.g, f.w, xs[n], heeded);
    }
  }

  lemma Alone(sem: Semantics, bus: Bus, g: Guest, w: World, x: Instr, heeded: bool)
    requires BusOk(bus) && Steady(w) && RegsOk(g.regs) && InstrOk(x)
    ensures InstrsOk([x]) && Sequence(sem, bus, g, w, [x], heeded) == One(sem, bus, g, w, x, heeded)
  {
    hide One, BusOk, Steady, RegsOk, InstrOk;
    assert [x][1..] == [];
  }

  lemma FrontNone(sem: Semantics, bus: Bus, g: Guest, w: World, xs: seq<Instr>, heeded: bool)
    requires BusOk(bus) && Steady(w) && RegsOk(g.regs)
    ensures Front(xs, 0) == [] && Sequence(sem, bus, g, w, Front(xs, 0), heeded) == On(g, w)
  {
  }

  /** The marked block's code after n instructions, beside the meaning. */
  ghost predicate Beside(sem: Semantics, bus: Bus, g: Guest, w: World, xs: seq<Instr>, n: nat)
    requires BusOk(bus) && Steady(w) && RegsOk(g.regs) && InstrsOk(xs) && InstrsOk(MarkAll(xs)) && n <= |xs|
  {
    var f := Sequence(sem, bus, g, w, Front(xs, n), false);
    var f' := Sequence(sem, bus, g, w, Front(MarkAll(xs), n), true);
    (f.On? <==> f'.On?) && (f.On? ==> f'.w == f.w && Alike(f'.g, f.g, LiveAt(xs, n)))
  }

  /**
   As long as nothing faults the marked code has the meaning's registers, count,
   memory and caches, and its flags wherever they are live; and it faults where
   the meaning does.
   */
  lemma {:induction false} SequenceAlike(sem: Semantics, bus: Bus, g: Guest, w: World, xs: seq<Instr>, n: nat)
    requires BusOk(bus) && FlagBlind(bus) && Steady(w) && RegsOk(g.regs) && n <= |xs|
    requires InstrsOk(xs) && InstrsOk(MarkAll(xs))
    ensures Beside(sem, bus, g, w, xs, n)
  {
    hide One, BusOk, FlagBlind, Steady, RegsOk, InstrOk, Sequence, Front, MarkInstr, LiveAcross, Keeps;
    var m := MarkAll(xs);
    if n == 0 {
      FrontNone(sem, bus, g, w, xs, false);
      FrontNone(sem, bus, g, w, m, true);
    } else {
      SequenceAlike(sem, bus, g, w, xs, n - 1);
      FrontStep(sem, bus, g, w, xs, n - 1, false);
      FrontStep(sem, bus, g, w, m, n - 1, true);
      var f := Sequence(sem, bus, g, w, Front(xs, n - 1), false);
      var f' := Sequence(sem, bus, g, w, Front(m, n - 1), true);
      if f.On? {
        OneAlike(sem, bus, f'.g, f.g, f.w, xs[n - 1], LiveAt(xs, n));
      }
    }
  }

  // ---- Which flags a fault shows ----

  /** Just past the last of the first n instructions whose code sets the flags. */
  function LastKept(m: seq<Instr>, n: nat): (k: nat)
    requires n <= |m|
    ensures k <= n
  {
    if n == 0 then 0 else if Keeps(m[n - 1]) then n else LastKept(m, n - 1)
  }

  lemma {:induction false} FrontRan(sem: Semantics, bus: Bus, g: Guest, w: World, xs: seq<Instr>, k: nat, n: nat)
    requires BusOk(bus) && Steady(w) && RegsOk(g.regs) && InstrsOk(xs) && k <= n <= |xs|
    requires Sequence(sem, bus, g, w, Front(xs, n), false).On?
    ensures Sequence(sem, bus, g, w, Front(xs, k), false).On?
  {
    hide One, BusOk, Steady, RegsOk, InstrOk, Sequence, Front;
    if k < n {
      FrontStep(sem, bus, g, w, xs, n - 1, false);
      FrontRan(sem, bus, g, w, xs, k, n - 1);
    }
  }

  /** NZCV in the marked code is what the last definition not marked dead left. */
  lemma {:induction false} KeptFlags(sem: Semantics, bus: Bus, g: Guest, w: World, xs: seq<Instr>, n: nat)
    requires BusOk(bus) && FlagBlind(bus) && Steady(w) && RegsOk(g.regs) && n <= |xs|
    requires InstrsOk(xs) && InstrsOk(MarkAll(xs)) && Sequence(sem, bus, g, w, Front(xs, n), false).On?
    ensures
      var kept := Sequence(sem, bus, g, w, Front(xs, LastKept(MarkAll(xs), n)), false);
      var f' := Sequence(sem, bus, g, w, Front(MarkAll(xs), n), true);
      kept.On? && f'.On? && f'.g.nz == kept.g.nz
  {
    hide One, BusOk, FlagBlind, Steady, RegsOk, InstrOk, Sequence, Front, MarkInstr, LiveAcross, Keeps;
    var m := MarkAll(xs);
    SequenceAlike(sem, bus, g, w, xs, n);
    if n == 0 {
      FrontNone(sem, bus, g, w, xs, false);
      FrontNone(sem, bus, g, w, m, true);
    } else {
      FrontStep(sem, bus, g, w, xs, n - 1, false);
      FrontStep(sem, bus, g, w, m, n - 1, true);
      KeptFlags(sem, bus, g, w, xs, n - 1);
      SequenceAlike(sem, bus, g, w, xs, n - 1);
      var f := Sequence(sem, bus, g, w, Front(xs, n - 1), false);
      var f' := Sequence(sem, bus, g, w, Front(m, n - 1), true);
      OneAlike(sem, bus, f'.g, f.g, f.w, xs[n - 1], LiveAt(xs, n));
    }
  }

  /** Some definition before n is still unread there. */
  predicate Unread(xs: seq<Instr>, n: nat)
    requires n <= |xs|
  {
    exists i :: 0 <= i < n && UnreadFrom(xs, i, n)
  }

  /** Definition i, with nothing from it to n that reads or sets the flags. */
  predicate UnreadFrom(xs: seq<Instr>, i: int, n: nat)
    requires n <= |xs|
  {
    && 0 <= i < n && xs[i].Do? && xs[i].op.Alu? && xs[i].op.s
    && forall k :: i < k < n ==> !ReadsFlags(xs[k]) && !SetsFlags(xs[k])
  }

  /** With the flags live at n, or no definition unread there, they are right. */
  lemma {:induction false} FlagsRight(sem: Semantics, bus: Bus, g: Guest, w: World, xs: seq<Instr>, n: nat)
    requires BusOk(bus) && FlagBlind(bus) && Steady(w) && RegsOk(g.regs) && n <= |xs|
    requires InstrsOk(xs) && InstrsOk(MarkAll(xs)) && Sequence(sem, bus, g, w, Front(xs, n), false).On?
    requires LiveAt(xs, n) || !Unread(xs, n)
    ensures
      var f' := Sequence(sem, bus, g, w, Front(MarkAll(xs), n), true);
      f'.On? && f'.g == Sequence(sem, bus, g, w, Front(xs, n), false).g
  {
    hide One, BusOk, FlagBlind, Steady, RegsOk, InstrOk, Sequence, Front, MarkInstr, Keeps, LiveAcross, Unread;
    var m := MarkAll(xs);
    SequenceAlike(sem, bus, g, w, xs, n);
    if !LiveAt(xs, n) {
      if n == 0 {
        FrontNone(sem, bus, g, w, xs, false);
        FrontNone(sem, bus, g, w, m, true);
      } else {
        FrontStep(sem, bus, g, w, xs, n - 1, false);
        FrontStep(sem, bus, g, w, m, n - 1, true);
        SequenceAlike(sem, bus, g, w, xs, n - 1);
        var f := Sequence(sem, bus, g, w, Front(xs, n - 1), false);
        var f' := Sequence(sem, bus, g, w, Front(m, n - 1), true);
        OneAlike(sem, bus, f'.g, f.g, f.w, xs[n - 1], LiveAt(xs, n));
        NotUnread(xs, n);
        FlagsRight(sem, bus, g, w, xs, n - 1);
      }
    }
  }

  /**
   If nothing is unread after an instruction, the flags were live before it or
   nothing was, and its code sets them if it does.
   */
  lemma {:induction false} NotUnread(xs: seq<Instr>, n: nat)
    requires 0 < n <= |xs| && !Unread(xs, n)
    ensures LiveAt(xs, n - 1) || !Unread(xs, n - 1)
    ensures SetsFlags(xs[n - 1]) ==> Keeps(MarkInstr(xs[n - 1], LiveAt(xs, n)))
  {
    var x := xs[n - 1];
    if SetsFlags(x) {
      assert !UnreadFrom(xs, n - 1, n);
    }
    if !ReadsFlags(x) && Unread(xs, n - 1) {
      var i :| UnreadFrom(xs, i, n - 1);
      if !SetsFlags(x) {
        StaysUnread(xs, i, n - 1);
      }
    }
  }

  lemma StaysUnread(xs: seq<Instr>, i: int, n: nat)
    requires n < |xs| && UnreadFrom(xs, i, n) && !ReadsFlags(xs[n]) && !SetsFlags(xs[n])
    ensures UnreadFrom(xs, i, n + 1)
  {
    hide ReadsFlags, SetsFlags;
  }

  /** The condition is exact for the marks: it fails where a definition marked dead reaches with nothing in between. */
  lemma {:induction false} DeadReaches(xs: seq<Instr>, n: nat)
    requires n <= |xs|
    ensures
      LiveAt(xs, n) || !Unread(xs, n) <==>
      forall i :: UnreadFrom(xs, i, n) ==> !MarkAll(xs)[i].op.dead
  {
    forall i | UnreadFrom(xs, i, n) ensures MarkAll(xs)[i].op.dead <==> !LiveAt(xs, n) {
      Transparent(xs, i + 1, n);
    }
  }

  lemma {:induction false} Transparent(xs: seq<Instr>, i: nat, n: nat)
    requires i <= n <= |xs| && forall k :: i <= k < n ==> !ReadsFlags(xs[k]) && !SetsFlags(xs[k])
    ensures LiveAt(xs, i) == LiveAt(xs, n)
    decreases n - i
  {
    hide Reads, Sets;
    if i < n {
      Transparent(xs, i + 1, n);
    }
  }

  // ---- The block ----

  /** The meaning faults at instruction t, with those before it done. */
  ghost predicate FaultsAt(sem: Semantics, bus: Bus, g: Guest, w: World, xs: seq<Instr>, t: nat)
    requires BusOk(bus) && Steady(w) && RegsOk(g.regs) && InstrsOk(xs)
  {
    && t < |xs| && xs[t].Access? && Sequence(sem, bus, g, w, Front(xs, t), false).On?
    && Sequence(sem, bus, g, w, Front(xs, t + 1), false).Off?
  }

  lemma {:induction false} FrontStays(sem: Semantics, bus: Bus, g: Guest, w: World, xs: seq<Instr>, k: nat, n: nat,
      heeded: bool)
    requires BusOk(bus) && Steady(w) && RegsOk(g.regs) && InstrsOk(xs) && k <= n <= |xs|
    requires Sequence(sem, bus, g, w, Front(xs, k), heeded).Off?
    ensures Sequence(sem, bus, g, w, Front(xs, n), heeded) == Sequence(sem, bus, g, w, Front(xs, k), heeded)
  {
    hide One, BusOk, Steady, RegsOk, InstrOk, Sequence, Front;
    if k < n {
      FrontStays(sem, bus, g, w, xs, k, n - 1, heeded);
      FrontStep(sem, bus, g, w, xs, n - 1, heeded);
    }
  }

  lemma {:induction false} SomeFault(sem: Semantics, bus: Bus, g: Guest, w: World, xs: seq<Instr>, n: nat)
    returns (t: nat)
    requires BusOk(bus) && Steady(w) && RegsOk(g.regs) && InstrsOk(xs) && n <= |xs|
    requires Sequence(sem, bus, g, w, Front(xs, n), false).Off?
    ensures t < n && FaultsAt(sem, bus, g, w, xs, t)
  {
    hide BusOk, Steady, RegsOk, InstrOk, Sequence, Front, MemMeaning, Step, CodeStep;
    t := 0;
    FrontNone(sem, bus, g, w, xs, false);
    if n > 0 {
      FrontStep(sem, bus, g, w, xs, n - 1, false);
      if Sequence(sem, bus, g, w, Front(xs, n - 1), false).On? {
        t := n - 1;
      } else {
        t := SomeFault(sem, bus, g, w, xs, n - 1);
      }
    }
  }

  /** Where the marked code leaves the guest: the access has the NZCV of the last definition not marked dead. */
  ghost function FaultState(sem: Semantics, bus: Bus, g: Guest, w: World, xs: seq<Instr>, t: nat): Fate
    requires BusOk(bus) && FlagBlind(bus) && Steady(w) && RegsOk(g.regs) && InstrsOk(xs)
    requires InstrsOk(MarkAll(xs)) && FaultsAt(sem, bus, g, w, xs, t)
  {
    KeptFlags(sem, bus, g, w, xs, t);
    var f := Sequence(sem, bus, g, w, Front(xs, t), false);
    var kept := Sequence(sem, bus, g, w, Front(xs, LastKept(MarkAll(xs), t)), false);
    assert InstrOk(xs[t]);
    MemMeaning(bus, f.g.(nz := kept.g.nz), f.w, xs[t].mem)
  }

  lemma WholeFront(xs: seq<Instr>)
    ensures Front(xs, |xs|) == xs
  {
  }

  lemma {:induction false} CodeFaults(sem: Semantics, bus: Bus, g: Guest, w: World, xs: seq<Instr>, t: nat)
    requires BusOk(bus) && FlagBlind(bus) && Steady(w) && RegsOk(g.regs) && InstrsOk(xs)
    requires InstrsOk(MarkAll(xs)) && FaultsAt(sem, bus, g, w, xs, t)
    ensures
      var o := FaultState(sem, bus, g, w, xs, t);
      o.Off? && Sequence(sem, bus, g, w, MarkAll(xs), true) == o
  {
    hide BusOk, FlagBlind, Steady, RegsOk, InstrOk, Sequence, Front, MemMeaning, CodeStep, Step, LastKept;
    var m := MarkAll(xs);
    SequenceAlike(sem, bus, g, w, xs, t);
    KeptFlags(sem, bus, g, w, xs, t);
    FrontStep(sem, bus, g, w, xs, t, false);
    FrontStep(sem, bus, g, w, m, t, true);
    var f := Sequence(sem, bus, g, w, Front(xs, t), false);
    var f' := Sequence(sem, bus, g, w, Front(m, t), true);
    AccessIsOk(xs[t]);
    SteadySized(f.w);
    AccessAlike(bus, f'.g, f.g, f.w, xs[t].mem);
    FrontStays(sem, bus, g, w, m, t + 1, |m|, true);
    WholeFront(m);
  }

  lemma AccessIsOk(x: Instr)
    requires InstrOk(x) && x.Access?
    ensures MemOpOk(x.mem)
  {
  }

  /** What the meaning itself gives at that access. */
  lemma {:induction false} MeaningFaults(sem: Semantics, bus: Bus, g: Guest, w: World, xs: seq<Instr>, t: nat)
    requires BusOk(bus) && Steady(w) && RegsOk(g.regs) && InstrsOk(xs) && FaultsAt(sem, bus, g, w, xs, t)
    ensures
      var f := Sequence(sem, bus, g, w, Front(xs, t), false);
      && InstrOk(xs[t]) && T.Sized(f.w.caches)
      && Sequence(sem, bus, g, w, xs, false) == MemMeaning(bus, f.g, f.w, xs[t].mem)
      && MemMeaning(bus, f.g, f.w, xs[t].mem).Off?
  {
    hide BusOk, Steady, RegsOk, InstrOk, Sequence, Front, MemMeaning, CodeStep, Step;
    FrontStep(sem, bus, g, w, xs, t, false);
    FrontStays(sem, bus, g, w, xs, t + 1, |xs|, false);
    WholeFront(xs);
    AccessIsOk(xs[t]);
    SteadySized(Sequence(sem, bus, g, w, Front(xs, t), false).w);
  }

  /** With the flags live there, or no definition unread, the fault shows the meaning's state. */
  lemma {:induction false} FaultRight(sem: Semantics, bus: Bus, g: Guest, w: World, xs: seq<Instr>, t: nat)
    requires BusOk(bus) && FlagBlind(bus) && Steady(w) && RegsOk(g.regs) && InstrsOk(xs)
    requires InstrsOk(MarkAll(xs)) && FaultsAt(sem, bus, g, w, xs, t) && (LiveAt(xs, t) || !Unread(xs, t))
    ensures FaultState(sem, bus, g, w, xs, t) == Sequence(sem, bus, g, w, xs, false)
  {
    hide BusOk, FlagBlind, Steady, RegsOk, InstrOk, Sequence, Front, MemMeaning, LiveAt, Unread, LastKept, One;
    FlagsRight(sem, bus, g, w, xs, t);
    KeptFlags(sem, bus, g, w, xs, t);
    MeaningFaults(sem, bus, g, w, xs, t);
    var f := Sequence(sem, bus, g, w, Front(xs, t), false);
    assert f.g.(nz := f.g.nz) == f.g;
  }

  /** An exception shows the flags it was taken with, as SPSR does. */
  ghost predicate Records(bus: Bus) {
    && (forall w, nz, nz', pc, va, szl ::
          bus.read(w, nz, pc, va, szl).Fault? && bus.read(w, nz', pc, va, szl) == bus.read(w, nz, pc, va, szl) ==>
            nz' == nz)
    && (forall w, nz, nz', pc, va, szl, val ::
          (bus.write(w, nz, pc, va, szl, val).Fault?
           && bus.write(w, nz', pc, va, szl, val) == bus.write(w, nz, pc, va, szl, val)) ==> nz' == nz)
    && (forall w, nz, nz', pc :: bus.misaligned(w, nz', pc) == bus.misaligned(w, nz, pc) ==> nz' == nz)
  }

  /** Two faults of one access show the same state exactly when they were taken with the same flags. */
  lemma {:induction false} FaultsShow(bus: Bus, c: Guest, g: Guest, w: World, op: MemOp)
    requires Records(bus) && RegsOk(g.regs) && MemOpOk(op) && T.Sized(w.caches) && c == g.(nz := c.nz)
    requires MemMeaning(bus, g, w, op).Off? && MemMeaning(bus, c, w, op).Off?
    ensures MemMeaning(bus, c, w, op) == MemMeaning(bus, g, w, op) <==> c.nz == g.nz
  {
    hide Plus, Extended, Misaligned, Probe.OnePage, T.DataHit, Pointer, GuestMemory.Load, Stored;
    assert g.(nz := g.nz) == g;
    if MemMeaning(bus, c, w, op) == MemMeaning(bus, g, w, op) {
      if SpFaults(g, w, op) {
        SameTrap(c, g, bus.misaligned(w, c.nz, op.pc), bus.misaligned(w, g.nz, op.pc), op.icnt);
      } else if op.Ld? {
        var va := Plus(g.regs[op.a], op.imm);
        SameTrap(c, g, bus.read(w, c.nz, op.pc, va, op.szl).trap, bus.read(w, g.nz, op.pc, va, op.szl).trap, op.icnt);
      } else {
        var va, val := Plus(g.regs[op.a], op.imm), g.regs[op.b];
        SameTrap(c, g, bus.write(w, c.nz, op.pc, va, op.szl, val).trap,
          bus.write(w, g.nz, op.pc, va, op.szl, val).trap, op.icnt);
      }
    }
  }

  lemma SameTrap(c: Guest, g: Guest, a: Trap, b: Trap, icnt: bv64)
    requires Off(Vectored(c, a, icnt), a.w) == Off(Vectored(g, b, icnt), b.w)
    ensures a == b
  {
    hide Plus;
  }

  /**
   Exactly when the fault shows the meaning's state: when the definitions marked
   dead since the last one that was not would have left NZCV as that one did.
   */
  lemma {:induction false} FaultRightIff(sem: Semantics, bus: Bus, g: Guest, w: World, xs: seq<Instr>, t: nat)
    requires BusOk(bus) && FlagBlind(bus) && Records(bus) && Steady(w) && RegsOk(g.regs) && InstrsOk(xs)
    requires InstrsOk(MarkAll(xs)) && FaultsAt(sem, bus, g, w, xs, t)
    ensures
      var f := Sequence(sem, bus, g, w, Front(xs, t), false);
      var kept := Sequence(sem, bus, g, w, Front(xs, LastKept(MarkAll(xs), t)), false);
      FaultState(sem, bus, g, w, xs, t) == Sequence(sem, bus, g, w, xs, false) <==> kept.g.nz == f.g.nz
  {
    hide BusOk, FlagBlind, Records, Steady, RegsOk, InstrOk, Sequence, Front, MemMeaning, LastKept, One;
    MeaningFaults(sem, bus, g, w, xs, t);
    CodeFaults(sem, bus, g, w, xs, t);
    KeptFlags(sem, bus, g, w, xs, t);
    var f := Sequence(sem, bus, g, w, Front(xs, t), false);
    var kept := Sequence(sem, bus, g, w, Front(xs, LastKept(MarkAll(xs), t)), false);
    AccessIsOk(xs[t]);
    FaultsShow(bus, f.g.(nz := kept.g.nz), f.g, f.w, xs[t].mem);
  }

  /**
   From marking to execution: a block with memory, marked by the pass and
   compiled in any grouping, commits its full meaning when nothing faults. When
   an access faults, it is the one the meaning faults at, all before it is done,
   and the state committed is that of the access made with the NZCV of the last
   definition not marked dead; which is the meaning's own state when the flags
   are live there or no definition is unread.
   */
  lemma {:induction false} CompiledBlockRight(sem: Semantics, bus: Bus, s: State, w: World, g: Guest, pc: bv64,
      xs: seq<Instr>, parts: seq<Part>, end: End, interrupt: bool, deadline: bv64, loss: nat -> nat -> Loss)
    returns (s': State, w': World, t: nat)
    requires Backend.Written(s, g) && RegsOk(g.regs) && BusOk(bus) && FlagBlind(bus) && Steady(w)
    requires PartsOk(parts) && EndOk(end) && InstrsOk(xs) && Flat(parts) == MarkAll(xs)
    ensures InstrsOk(MarkAll(xs)) && BlockRuns(sem, bus, s, w, pc, parts, end, interrupt, deadline, loss, s', w')
    ensures Refuses(g.icount, interrupt, deadline) ==> Committed(s', g.(pc := pc)) && w' == w
    ensures
      var f := Sequence(sem, bus, g, w, xs, false);
      !Refuses(g.icount, interrupt, deadline) && f.On? ==> Committed(s', Finish(f.g, end)) && w' == f.w
    ensures
      var f := Sequence(sem, bus, g, w, xs, false);
      !Refuses(g.icount, interrupt, deadline) && f.Off? ==>
        && FaultsAt(sem, bus, g, w, xs, t)
        && var o := FaultState(sem, bus, g, w, xs, t);
           && o.Off? && Committed(s', o.g) && w' == o.w
           && (LiveAt(xs, t) || !Unread(xs, t) ==> o == f)
  {
    hide BlockRuns, Sequence, Committed, PartsOk, EndOk, BusOk, FlagBlind, Steady, Refuses, Flat, InstrsOk, MarkAll,
      FaultState, FaultsAt, Finish, Unread, LiveAt, Backend.Written, RegsOk, Front;
    MarkedOk(xs);
    s', w' := MemoryBlockRight(sem, bus, s, w, g, pc, parts, end, interrupt, deadline, loss);
    t := 0;
    WholeFront(xs);
    if Sequence(sem, bus, g, w, xs, false).On? {
      AllBeside(sem, bus, g, w, xs);
    } else {
      t := SomeFault(sem, bus, g, w, xs, |xs|);
      CodeFaults(sem, bus, g, w, xs, t);
      if LiveAt(xs, t) || !Unread(xs, t) {
        FaultRight(sem, bus, g, w, xs, t);
      }
    }
  }

  lemma {:induction false} AllBeside(sem: Semantics, bus: Bus, g: Guest, w: World, xs: seq<Instr>)
    requires BusOk(bus) && FlagBlind(bus) && Steady(w) && RegsOk(g.regs) && InstrsOk(xs) && InstrsOk(MarkAll(xs))
    requires Sequence(sem, bus, g, w, xs, false).On?
    ensures Sequence(sem, bus, g, w, MarkAll(xs), true) == Sequence(sem, bus, g, w, xs, false)
  {
    hide BusOk, FlagBlind, Steady, RegsOk, InstrOk, Sequence, Front, MarkInstr;
    SequenceAlike(sem, bus, g, w, xs, |xs|);
    WholeFront(xs);
    WholeFront(MarkAll(xs));
  }

  // ---- A run that shows the wrong flags ----

  /** Nothing is mapped: every access faults, and the handler sees the flags it was taken with. */
  function Unmapped(): Bus {
    Bus(
      (w: World, nz: Nzcv, pc: bv64, va: bv64, szl: nat) => Fault(Trap(w, 0x200, nz)),
      (w: World, nz: Nzcv, pc: bv64, va: bv64, szl: nat, val: bv64) => Fault(Trap(w, 0x200, nz)),
      (w: World, nz: Nzcv, pc: bv64) => Trap(w, 0x200, nz))
  }

  lemma UnmappedOk()
    ensures BusOk(Unmapped()) && FlagBlind(Unmapped()) && Records(Unmapped())
  {
  }

  function PowerOn(): World {
    var cpu := T.Cpu(false, false, false);
    World(T.Start(), cpu, Probe.ContextWord(cpu, 1), false, (a: bv64) => 0, 0)
  }

  lemma PowerOnSteady()
    ensures Steady(PowerOn())
  {
    hide Probe.ContextWord, T.Idx;
  }

  const CLEAR: Nzcv := Nzcv(false, false, false, false)
  const EQUAL: Nzcv := Nzcv(false, true, true, false)

  function Zeros(): (g: Guest)
    ensures RegsOk(g.regs)
  {
    Guest(seq(VREGS, _ => 0), CLEAR, 0x1000, 0)
  }

  /** cmp xzr, xzr */
  function Compare(dead: bool): Op {
    Alu(Sub, true, true, ZERO, ZERO, Reg(ZERO), dead)
  }

  function LoadX1(): MemOp {
    Ld(1, 0, 0, 3, false, true, 0x1004, 1)
  }

  /** cmp; ldr; cmp: the pass takes the first comparison's flags to be unread. */
  function Witness(): seq<Instr> {
    [Do(Compare(false)), Access(LoadX1()), Do(Compare(false))]
  }

  function WitnessParts(): seq<Part> {
    [Plain([Compare(true)]), Single(LoadX1()), Plain([Compare(false)])]
  }

  lemma EqualOperands(c: bool)
    ensures Compute(Sub, true, 0, 0, c) == Result(0, EQUAL)
  {
  }

  lemma {:induction false} WitnessMarks()
    ensures InstrsOk(Witness()) && PartsOk(WitnessParts())
    ensures MarkAll(Witness()) == [Do(Compare(true)), Access(LoadX1()), Do(Compare(false))]
    ensures Flat(WitnessParts()) == MarkAll(Witness())
  {
    var xs, parts := Witness(), WitnessParts();
    assert LiveAt(xs, 3) && !LiveAt(xs, 2) && !LiveAt(xs, 1);
    assert parts[1..] == [parts[1], parts[2]] && parts[1..][1..] == [parts[2]] && parts[1..][1..][1..] == [];
    assert Instrs(parts[0]) == [Do(Compare(true))] && Instrs(parts[2]) == [Do(Compare(false))];
    assert Flat(parts[1..][1..]) == Instrs(parts[2]);
  }

  lemma {:induction false} WitnessMeaning(sem: Semantics)
    requires BusOk(Unmapped()) && FlagBlind(Unmapped()) && Steady(PowerOn())
    requires InstrsOk(Witness()) && InstrsOk(MarkAll(Witness()))
    ensures FaultsAt(sem, Unmapped(), Zeros(), PowerOn(), Witness(), 1)
    ensures Sequence(sem, Unmapped(), Zeros(), PowerOn(), Front(Witness(), 1), false).g.nz == EQUAL
  {
    hide BusOk, FlagBlind, Steady, MemRead, Plus;
    var bus, g, w, xs := Unmapped(), Zeros(), PowerOn(), Witness();
    EqualOperands(false);
    FrontNone(sem, bus, g, w, xs, false);
    FrontStep(sem, bus, g, w, xs, 0, false);
    var g1 := Step(sem, g, Compare(false));
    assert One(sem, bus, g, w, xs[0], false) == On(g1, w) && g1.nz == EQUAL;
    FrontStep(sem, bus, g, w, xs, 1, false);
    NothingCached(bus, g1, w);
  }

  lemma NothingCached(bus: Bus, g: Guest, w: World)
    requires bus == Unmapped() && w == PowerOn() && RegsOk(g.regs) && T.Sized(w.caches)
    ensures MemMeaning(bus, g, w, LoadX1()).Off?
  {
    hide Plus, Probe.OnePage, T.Tag, T.Idx;
    assert !T.DataHit(w.caches, w.cpu, Plus(g.regs[0], 0), Probe.TableWalk.Read);
  }

  function HostZeros(): State {
    State(seq(HREGS, _ => 0), CLEAR, seq(VREGS, _ => 0), CLEAR, 0x1000, 0)
  }

  lemma HostHoldsZeros()
    ensures Backend.Written(HostZeros(), Zeros())
  {
  }

  /**
   From power-on, with flags clear and nothing mapped, the compiled block enters
   the handler at 0x200 with the flags it was entered with; the comparison before
   the load set Z and C.
   */
  lemma {:induction false} FaultShowsOldFlags(sem: Semantics, loss: nat -> nat -> Loss) returns (s': State, w': World)
    ensures BusOk(Unmapped()) && Steady(PowerOn()) && InstrsOk(Witness()) && PartsOk(WitnessParts())
    ensures Flat(WitnessParts()) == MarkAll(Witness()) && StateOk(HostZeros())
    ensures
      BlockRuns(sem, Unmapped(), HostZeros(), PowerOn(), 0x1000, WitnessParts(), Jmp(Exit(0x100c, 3)), false, 1000,
        loss, s', w')
    ensures s'.pc == 0x200 && s'.memNz == CLEAR
    ensures
      var f := Sequence(sem, Unmapped(), Zeros(), PowerOn(), Witness(), false);
      f.Off? && f.g.pc == 0x200 && f.g.nz == EQUAL
  {
    hide BusOk, FlagBlind, Records, Steady, InstrsOk, PartsOk, Flat, MarkAll, Sequence, Front, BlockRuns, LiveAt,
      Unread, PowerOn, FaultState, Backend.Written, MemMeaning;
    var bus, g, w, xs := Unmapped(), Zeros(), PowerOn(), Witness();
    UnmappedOk();
    PowerOnSteady();
    WitnessMarks();
    MarkedOk(xs);
    HostHoldsZeros();
    WitnessMeaning(sem);
    MeaningFaults(sem, bus, g, w, xs, 1);
    CodeFaults(sem, bus, g, w, xs, 1);
    var f := Sequence(sem, bus, g, w, Front(xs, 1), false);
    TrapOf(f.g, f.w);
    OldFlags(sem, bus, g, w);
    s', w' := MemoryBlockRight(sem, bus, HostZeros(), w, g, 0x1000, WitnessParts(), Jmp(Exit(0x100c, 3)), false, 1000,
      loss);
  }

  lemma TrapOf(g: Guest, w: World)
    requires RegsOk(g.regs) && T.Sized(w.caches) && MemMeaning(Unmapped(), g, w, LoadX1()).Off?
    ensures
      var o := MemMeaning(Unmapped(), g, w, LoadX1());
      o.g.pc == 0x200 && o.g.nz == g.nz
  {
    hide Plus, Probe.OnePage, T.DataHit, Pointer, GuestMemory.Load, Extended, Misaligned;
  }

  /** No definition before the load is kept, so its flags are those at entry. */
  lemma {:induction false} OldFlags(sem: Semantics, bus: Bus, g: Guest, w: World)
    requires bus == Unmapped() && g == Zeros() && w == PowerOn() && BusOk(bus) && FlagBlind(bus) && Steady(w)
    requires InstrsOk(Witness()) && InstrsOk(MarkAll(Witness()))
    requires MarkAll(Witness()) == [Do(Compare(true)), Access(LoadX1()), Do(Compare(false))]
    requires FaultsAt(sem, bus, g, w, Witness(), 1) && FaultState(sem, bus, g, w, Witness(), 1).Off?
    ensures
      var o := FaultState(sem, bus, g, w, Witness(), 1);
      o.g.pc == 0x200 && o.g.nz == CLEAR
  {
    hide BusOk, FlagBlind, Steady, InstrsOk, MarkAll, Sequence, Front, MemMeaning, PowerOn;
    var xs := Witness();
    assert LastKept(MarkAll(xs), 1) == 0;
    FrontNone(sem, bus, g, w, xs, false);
    KeptFlags(sem, bus, g, w, xs, 1);
    var f := Sequence(sem, bus, g, w, Front(xs, 1), false);
    SteadySized(f.w);
    TrapOf(f.g.(nz := CLEAR), f.w);
  }

  // ---- A block whose dead mark does no harm ----

  /** cmp; csel x0, x0, x0, eq; cmp; ldr; cmp: the second comparison repeats the first. */
  function Harmless(): seq<Instr> {
    [Do(Compare(false)), Do(Csel(Sel, true, 0, 0, 0, 0)), Do(Compare(false)), Access(LoadX1()), Do(Compare(false))]
  }

  lemma {:induction false} HarmlessMarks()
    ensures InstrsOk(Harmless()) && !LiveAt(Harmless(), 3) && Unread(Harmless(), 3)
    ensures LastKept(MarkAll(Harmless()), 3) == 1
  {
    var xs := Harmless();
    assert LiveAt(xs, 5) && !LiveAt(xs, 4) && !LiveAt(xs, 3) && !LiveAt(xs, 2) && LiveAt(xs, 1);
    assert UnreadFrom(xs, 2, 3);
    var m := MarkAll(xs);
    assert !Keeps(m[2]) && !Keeps(m[1]) && Keeps(m[0]);
    assert LastKept(m, 1) == 1 && LastKept(m, 2) == 1;
  }

  /** So liveness is sufficient for the run and not necessary: here the dead mark leaves NZCV right whatever happens. */
  lemma {:induction false} MarkCanBeHarmless(sem: Semantics, bus: Bus, g: Guest, w: World)
    requires BusOk(bus) && FlagBlind(bus) && Steady(w) && RegsOk(g.regs)
    ensures InstrsOk(Harmless()) && InstrsOk(MarkAll(Harmless()))
    ensures !LiveAt(Harmless(), 3) && Unread(Harmless(), 3)
    ensures
      var f := Sequence(sem, bus, g, w, Front(Harmless(), 3), false);
      var f' := Sequence(sem, bus, g, w, Front(MarkAll(Harmless()), 3), true);
      f.On? && f'.On? && f'.g == f.g
  {
    hide BusOk, FlagBlind, Steady, Sequence, Front, MarkAll, LiveAt, Unread, LastKept, Compute, Fit, Ir.Holds;
    var xs := Harmless();
    HarmlessMarks();
    MarkedOk(xs);
    FrontNone(sem, bus, g, w, xs, false);
    FrontStep(sem, bus, g, w, xs, 0, false);
    FrontStep(sem, bus, g, w, xs, 1, false);
    FrontStep(sem, bus, g, w, xs, 2, false);
    EqualOperands(g.nz.c);
    var g1 := Step(sem, g, Compare(false));
    var g2 := Step(sem, g1, Csel(Sel, true, 0, 0, 0, 0));
    EqualOperands(g2.nz.c);
    KeptFlags(sem, bus, g, w, xs, 3);
    SequenceAlike(sem, bus, g, w, xs, 3);
  }
}
