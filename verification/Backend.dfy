/**
 A whole block: lazily kept guest flags around each operation, write-back and exit
 stubs at the end, and the theorem that the emitted code runs the block.
 */
module Backend {
  import opened Ir
  import opened HostCode
  import opened Allocator
  import opened Emitter

  /** Where the guest's NZCV is current: the CPU's memory word, or the host flags. */
  datatype Flags = InMemory | InHost

  datatype Be = Be(ra: Ra, fl: Flags)
  datatype Out = Out(be: Be, code: seq<Insn>)

  // ---- Liveness of the flags ----

  predicate Sets(op: Op) {
    op.Ccmp? || (op.Alu? && op.s)
  }

  /** Whether anything reads NZCV before it is redefined, from operation k on; exits read it. */
  predicate Live(ops: seq<Op>, k: nat)
    decreases |ops| - k
  {
    k >= |ops| || Reads(ops[k]) || (!Sets(ops[k]) && Live(ops, k + 1))
  }

  /** The contract on dead: a definition so marked is never read. */
  predicate Sound(ops: seq<Op>) {
    forall i :: 0 <= i < |ops| && ops[i].Alu? && ops[i].dead ==> !Live(ops, i + 1)
  }

  /**
   Whether the flags are live after an operation, given that they are after the next: one step of the
   backward pass.
   */
  function LiveBefore(op: Op, after: bool): bool {
    Reads(op) || (after && !Sets(op))
  }

  /** The backward pass that marks dead definitions. */
  function Mark(ops: seq<Op>): (r: seq<Op>)
    ensures |r| == |ops|
  {
    MarkTo(ops, |ops|, true)
  }

  /** Marks of the first n, when the flags are live or not after them. */
  function MarkTo(ops: seq<Op>, n: nat, live: bool): (r: seq<Op>)
    requires n <= |ops|
    ensures |r| == n
  {
    if n == 0 then []
    else
      var op := ops[n - 1];
      MarkTo(ops, n - 1, LiveBefore(op, live)) + [MarkOp(op, live)]
  }

  /** A definition is dead when the flags are not live after it; conditional compares are never marked. */
  function MarkOp(op: Op, live: bool): Op {
    if op.Alu? && op.s then op.(dead := !live) else op
  }

  // ---- Emission ----

  datatype Next = Unknown | Consumed | Redefined

  /** flags_next_use */
  function NextUse(ops: seq<Op>, k: nat, end: End): Next
    decreases |ops| - k
  {
    if k >= |ops| then (if end.Branch? && !end.test.Cond? then Unknown else Consumed)
    else if Reads(ops[k]) then Consumed
    else if Sets(ops[k]) then Redefined
    else NextUse(ops, k + 1, end)
  }

  /** flags_to_host: the memory word stays current. */
  function ToHost(fl: Flags): seq<Insn> {
    if fl == InHost then [] else [LoadFlags]
  }

  /** materialize_flags */
  function Materialize(fl: Flags): seq<Insn> {
    if fl == InMemory then [] else [SaveFlags]
  }

  /** A carrying operation whose result and flags are both unread emits nothing. */
  predicate Skipped(op: Op) {
    op.Alu? && (op.k == Adc || op.k == Sbc) && op.dead && op.dst == ZERO
  }

  function EmitOp(be: Be, ops: seq<Op>, i: nat, end: End): (o: Out)
    requires RaOk(be.ra) && i < |ops| && OpOk(ops[i])
    ensures RaOk(o.be.ra)
  {
    var op := ops[i];
    if Skipped(op) then Out(be, [])
    else
      var b := Body(be.ra, op);
      var code := (if Reads(op) then ToHost(be.fl) else []) + b.code;
      if !Defines(op) then Out(Be(b.ra, be.fl), code)
      else if NextUse(ops, i + 1, end) == Unknown then Out(Be(b.ra, InMemory), code + [SaveFlags])
      else Out(Be(b.ra, InHost), code)
  }

  predicate OpsOk(ops: seq<Op>) {
    forall i :: 0 <= i < |ops| ==> OpOk(ops[i])
  }

  function EmitOps(be: Be, ops: seq<Op>, i: nat, end: End): (o: Out)
    requires RaOk(be.ra) && i <= |ops| && OpsOk(ops)
    ensures RaOk(o.be.ra)
    decreases |ops| - i
  {
    if i == |ops| then Out(be, [])
    else
      var o := EmitOp(be, ops, i, end);
      var rest := EmitOps(o.be, ops, i + 1, end);
      Out(rest.be, o.code + rest.code)
  }

  // ---- The simulation ----

  predicate FlagsOk(fl: Flags, s: State, nz: Nzcv) {
    if fl == InHost then s.nz == nz else s.memNz == nz
  }

  predicate Sim(be: Be, s: State, g: Guest) {
    Agrees(be.ra, s, g.regs) && s.icount == g.icount && FlagsOk(be.fl, s, g.nz)
  }

  lemma FlagMoves(sem: Semantics, s: State)
    requires StateOk(s)
    ensures Exec(sem, s, LoadFlags) == s.(nz := s.memNz, r := s.r[16 := FlagWord(s.memNz)])
    ensures Exec(sem, s, SaveFlags) == s.(memNz := s.nz, r := s.r[16 := FlagWord(s.nz)])
  {
    hide FlagWord;
  }

  lemma {:induction false} ToHostRight(sem: Semantics, ra: Ra, fl: Flags, s: State, regs: seq<bv64>, nz: Nzcv)
    requires Agrees(ra, s, regs) && FlagsOk(fl, s, nz)
    ensures
      && CodeOk(ToHost(fl))
      && var s' := Execute(sem, s, ToHost(fl));
         && Agrees(ra, s', regs) && s'.nz == nz && s'.memNz == s.memNz && s'.pc == s.pc
         && s'.icount == s.icount && s'.homes == s.homes
  {
    hide Agrees, Execute, Exec, FlagWord;
    AgreesParts(ra, s, regs);
    if fl == InHost {
      ExecuteNone(sem, s);
    } else {
      FlagMoves(sem, s);
      ExecuteOne(sem, s, LoadFlags);
      ScratchAgrees(ra, s, regs, 16, FlagWord(s.memNz));
      AgreesElsewhere(ra, s.(r := s.r[16 := FlagWord(s.memNz)]), Exec(sem, s, LoadFlags), regs);
    }
  }

  lemma {:induction false} MaterializeRight(sem: Semantics, ra: Ra, fl: Flags, s: State, regs: seq<bv64>, nz: Nzcv)
    requires Agrees(ra, s, regs) && FlagsOk(fl, s, nz)
    ensures
      && CodeOk(Materialize(fl))
      && var s' := Execute(sem, s, Materialize(fl));
         && Agrees(ra, s', regs) && s'.nz == s.nz && s'.memNz == nz && s'.pc == s.pc
         && s'.icount == s.icount && s'.homes == s.homes
  {
    hide Agrees, Execute, Exec, FlagWord;
    AgreesParts(ra, s, regs);
    if fl == InMemory {
      ExecuteNone(sem, s);
    } else {
      FlagMoves(sem, s);
      ExecuteOne(sem, s, SaveFlags);
      ScratchAgrees(ra, s, regs, 16, FlagWord(s.nz));
      AgreesElsewhere(ra, s.(r := s.r[16 := FlagWord(s.nz)]), Exec(sem, s, SaveFlags), regs);
    }
  }

  lemma {:induction false} StepFlags(sem: Semantics, g: Guest, op: Op)
    requires RegsOk(g.regs) && OpOk(op)
    ensures !Sets(op) ==> Step(sem, g, op).nz == g.nz
    ensures Step(sem, g, op).icount == g.icount && Step(sem, g, op).pc == g.pc
    ensures Skipped(op) ==> Step(sem, g, op).regs == g.regs
  {
    hide Compute, Insert, Chosen, Compared, Ir.Holds, Fit;
  }

  /** What an operation's code does: a definition marked dead leaves the flags alone. */
  function CodeStep(sem: Semantics, g: Guest, op: Op): (r: Guest)
    requires RegsOk(g.regs) && OpOk(op)
    ensures RegsOk(r.regs)
  {
    var g' := Step(sem, g, op);
    if op.Alu? && op.dead then g'.(nz := g.nz) else g'
  }

  function CodeRun(sem: Semantics, g: Guest, ops: seq<Op>): (r: Guest)
    requires RegsOk(g.regs) && OpsOk(ops)
    ensures RegsOk(r.regs)
    decreases |ops|
  {
    if ops == [] then g else CodeRun(sem, CodeStep(sem, g, ops[0]), ops[1..])
  }

  lemma {:induction false} PreludeRight(sem: Semantics, be: Be, s: State, g: Guest, op: Op)
    requires Sim(be, s, g)
    ensures
      var pre := if Reads(op) then ToHost(be.fl) else [];
      && CodeOk(pre)
      && var s' := Execute(sem, s, pre);
         && Sim(be, s', g) && s'.pc == s.pc && (Reads(op) ==> s'.nz == g.nz)
  {
    hide Agrees, Execute, ToHost, CodeOk;
    AgreesParts(be.ra, s, g.regs);
    if Reads(op) {
      ToHostRight(sem, be.ra, be.fl, s, g.regs, g.nz);
    } else {
      ExecuteNone(sem, s);
      NoCode();
    }
  }

  /** One operation, whatever its mark: the emitted code keeps registers and flags in step with what it does. */
  lemma {:induction false} StepSim(sem: Semantics, be: Be, s: State, g: Guest, ops: seq<Op>, i: nat, end: End)
    requires i < |ops| && OpsOk(ops) && Sim(be, s, g)
    ensures
      var o := EmitOp(be, ops, i, end);
      && CodeOk(o.code)
      && Sim(o.be, Execute(sem, s, o.code), CodeStep(sem, g, ops[i]))
  {
    hide Agrees, Execute, Exec, Body, Step, Did, OpOk, RaOk, RegsOk, Reads, Sets, Defines, Skipped, CodeOk, ToHost,
      NextUse;
    var op := ops[i];
    AgreesParts(be.ra, s, g.regs);
    StepFlags(sem, g, op);
    if Skipped(op) {
      ExecuteNone(sem, s);
      NoCode();
      SkippedDead(op);
    } else {
      var pre := if Reads(op) then ToHost(be.fl) else [];
      PreludeRight(sem, be, s, g, op);
      var s1 := Execute(sem, s, pre);
      BodyDid(sem, be.ra, s1, g, op);
      var b := Body(be.ra, op);
      var s2 := Execute(sem, s1, b.code);
      AgreesParts(be.ra, s1, g.regs);
      ExecuteJoin(sem, s, pre, b.code);
      DidParts(b, s1, s2, op, g, Step(sem, g, op));
      DefinesOrDead(op);
      if Defines(op) && NextUse(ops, i + 1, end) == Unknown {
        SaveRight(sem, b.ra, s2, Step(sem, g, op).regs);
        ExecuteJoin(sem, s, pre + b.code, [SaveFlags]);
      }
    }
  }

  lemma DidParts(b: Got, s: State, s': State, op: Op, g: Guest, g': Guest)
    requires Did(b, s, s', op, g, g')
    ensures Agrees(b.ra, s', g'.regs) && s'.memNz == s.memNz && s'.icount == s.icount
    ensures s'.nz == (if Defines(op) then g'.nz else s.nz)
  {
    hide Agrees;
  }

  lemma SkippedDead(op: Op)
    requires Skipped(op)
    ensures op.Alu? && op.dead
  {
  }

  /** An operation that sets flags but whose code does not is marked dead. */
  lemma DefinesOrDead(op: Op)
    ensures Defines(op) <==> Sets(op) && !(op.Alu? && op.dead)
  {
  }

  lemma {:induction false} SaveRight(sem: Semantics, ra: Ra, s: State, regs: seq<bv64>)
    requires Agrees(ra, s, regs)
    ensures
      && CodeOk([SaveFlags])
      && var s' := Execute(sem, s, [SaveFlags]);
         Agrees(ra, s', regs) && s'.memNz == s.nz && s'.icount == s.icount && StateOk(s)
  {
    hide Agrees, Execute;
    AgreesParts(ra, s, regs);
    MaterializeRight(sem, ra, InHost, s, regs, s.nz);
  }

  /** A run of operations, whatever its marks. */
  lemma {:induction false} OpsSim(sem: Semantics, be: Be, s: State, g: Guest, ops: seq<Op>, i: nat, end: End)
    requires i <= |ops| && OpsOk(ops) && Sim(be, s, g)
    ensures
      var o := EmitOps(be, ops, i, end);
      && CodeOk(o.code)
      && Sim(o.be, Execute(sem, s, o.code), CodeRun(sem, g, ops[i..]))
    decreases |ops| - i
  {
    hide Agrees, Execute, EmitOp, CodeStep, OpOk, RaOk, RegsOk, FlagsOk, CodeOk;
    AgreesParts(be.ra, s, g.regs);
    if i == |ops| {
      ExecuteNone(sem, s);
      NoCode();
      assert ops[i..] == [];
    } else {
      StepSim(sem, be, s, g, ops, i, end);
      var o := EmitOp(be, ops, i, end);
      var s1 := Execute(sem, s, o.code);
      OpsSim(sem, o.be, s1, CodeStep(sem, g, ops[i]), ops, i + 1, end);
      ExecuteJoin(sem, s, o.code, EmitOps(o.be, ops, i + 1, end).code);
      assert ops[i..][0] == ops[i] && ops[i..][1..] == ops[i + 1..];
    }
  }

  // ---- Marked code and its meaning ----

  /** The same guest, but for flags that are not live. */
  predicate Alike(c: Guest, g: Guest, live: bool) {
    c == g.(nz := c.nz) && (live ==> c.nz == g.nz)
  }

  /** One operation marked no more than liveness allows: what its code does is its meaning, but for dead flags. */
  lemma {:induction false} StepAlike(sem: Semantics, c: Guest, g: Guest, op: Op, after: bool)
    requires RegsOk(g.regs) && OpOk(op) && Alike(c, g, LiveBefore(op, after)) && (op.Alu? && op.dead ==> !after)
    ensures Alike(CodeStep(sem, c, op), Step(sem, g, op), after)
    ensures Defines(op) ==> CodeStep(sem, c, op).nz == Step(sem, g, op).nz
    ensures !Defines(op) ==> CodeStep(sem, c, op).nz == c.nz
    ensures !Sets(op) ==> Step(sem, g, op).nz == g.nz
  {
    hide Compute, Insert, Chosen, Compared, Ir.Holds, Fit, Value, Put;
    if op.Alu? {
      CarryOnly(op.k, op.w, g.regs[op.a], Value(g.regs, op.rhs, op.w), c.nz.c, g.nz.c);
    }
  }

  /** Only the carrying operations read the carry. */
  lemma CarryOnly(k: Kind, w: bool, a: bv64, b: bv64, c: bool, d: bool)
    ensures k != Adc && k != Sbc ==> Compute(k, w, a, b, c) == Compute(k, w, a, b, d)
  {
    hide Sum, Logic, Fit;
  }

  /** With sound marks a whole run's code is its meaning, flags included. */
  lemma {:induction false} RunAlike(sem: Semantics, c: Guest, g: Guest, ops: seq<Op>, i: nat)
    requires i <= |ops| && RegsOk(g.regs) && OpsOk(ops) && Sound(ops) && Alike(c, g, Live(ops, i))
    ensures CodeRun(sem, c, ops[i..]) == Run(sem, g, ops[i..])
    decreases |ops| - i
  {
    hide CodeStep, Step, OpOk, Reads, Sets, Defines;
    if i == |ops| {
      assert ops[i..] == [];
    } else {
      LiveStep(ops, i);
      StepAlike(sem, c, g, ops[i], Live(ops, i + 1));
      assert ops[i..][0] == ops[i] && ops[i..][1..] == ops[i + 1..];
      RunAlike(sem, CodeStep(sem, c, ops[i]), Step(sem, g, ops[i]), ops, i + 1);
    }
  }

  // ---- The end of a block ----

  /** What the final branch tests. */
  datatype Check = OnFlags(cc: nat) | OnZero(nonzero: bool, w: bool, rt: nat) | OnBit(on: bool, rt: nat, bit: nat)

  /** Straight-line code, then one exit or a branch between two. */
  datatype HostBlock =
    | Straight(code: seq<Insn>)
    | Fork(code: seq<Insn>, check: Check, taken: seq<Insn>, fall: seq<Insn>)

  predicate Taken(s: State, c: Check)
    requires StateOk(s) && (c.OnFlags? || c.rt < HREGS)
  {
    match c
    case OnFlags(cc) => Ir.Holds(cc, s.nz)
    case OnZero(nonzero, w, rt) => (Fit(w, Read(s, rt)) != 0) == nonzero
    case OnBit(on, rt, bit) => BitIs(Read(s, rt), bit) == on
  }

  predicate HostBlockOk(b: HostBlock) {
    CodeOk(b.code) && (b.Fork? ==> CodeOk(b.taken) && CodeOk(b.fall) && (b.check.OnFlags? || b.check.rt < HREGS))
  }

  function ExecuteBlock(sem: Semantics, s: State, b: HostBlock): State
    requires StateOk(s) && HostBlockOk(b)
  {
    var t := Execute(sem, s, b.code);
    if b.Straight? then t else Execute(sem, t, if Taken(t, b.check) then b.taken else b.fall)
  }

  /** exit_stub: count, load the successor's address, store it. */
  function Stub(x: Exit): seq<Insn> {
    (if x.icnt == 0 then [] else [AddIcount(x.icnt)]) + Imm64(16, x.pc) + [StorePc(16)]
  }

  function EmitEnd(be: Be, end: End): (b: HostBlock)
    requires RaOk(be.ra) && EndOk(end)
  {
    var g := Sync(be.ra, 0);
    match end
    case Jmp(next) => Straight(g.code + Materialize(be.fl) + Stub(next))
    case Branch(t, taken, fall) =>
      if t.Cond? then
        Fork(g.code + ToHost(be.fl) + Materialize(be.fl), OnFlags(t.cc), Stub(taken), Stub(fall))
      else
        var p := Use(g.ra, t.a);
        Fork(g.code + Materialize(be.fl) + p.code,
          if t.Zero? then OnZero(t.nonzero, t.w, p.h) else OnBit(t.on, p.h, t.bit), Stub(taken), Stub(fall))
    case Indirect(a, icnt) =>
      var p := Use(g.ra, a);
      Straight(g.code + Materialize(be.fl) + p.code + [StorePc(p.h)] + (if icnt == 0 then [] else [AddIcount(icnt)]))
  }

  /** The guest's state is all in memory. */
  predicate Committed(s: State, g: Guest) {
    && |s.homes| == VREGS && |g.regs| == VREGS && s.homes[..ZERO] == g.regs[..ZERO]
    && s.memNz == g.nz && s.pc == g.pc && s.icount == g.icount
  }

  /** The same, but for pc and count. */
  predicate Written(s: State, g: Guest) {
    && StateOk(s) && |g.regs| == VREGS && s.homes[..ZERO] == g.regs[..ZERO]
    && s.memNz == g.nz && s.icount == g.icount
  }

  lemma ZeroCount(x: bv64, n: bv64)
    requires n == 0
    ensures Plus(x, n) == x
  {
  }

  lemma {:induction false} CountRuns(sem: Semantics, s: State, n: bv64)
    requires StateOk(s)
    ensures
      var code := if n == 0 then [] else [AddIcount(n)];
      && CodeOk(code)
      && var s' := Execute(sem, s, code);
         StateOk(s') && s'.homes == s.homes && s'.memNz == s.memNz && s'.pc == s.pc && s'.icount == Plus(s.icount, n)
  {
    hide Execute, Plus, Exec, InsnOk;
    if n == 0 {
      ZeroCount(s.icount, n);
      ExecuteNone(sem, s);
      NoCode();
    } else {
      CountRun(sem, s, n);
      ExecuteOne(sem, s, AddIcount(n));
    }
  }

  lemma CountRun(sem: Semantics, s: State, n: bv64)
    requires StateOk(s)
    ensures InsnOk(AddIcount(n))
    ensures Exec(sem, s, AddIcount(n)) == s.(icount := Plus(s.icount, n), r := s.r[16 := Plus(s.icount, n)])
  {
    hide Plus;
  }

  /** A stub commits exactly its successor and its count. */
  lemma {:induction false} StubRuns(sem: Semantics, s: State, x: Exit)
    requires StateOk(s)
    ensures
      && CodeOk(Stub(x))
      && var s' := Execute(sem, s, Stub(x));
         s'.homes == s.homes && s'.memNz == s.memNz && s'.pc == x.pc && s'.icount == Plus(s.icount, x.icnt)
  {
    hide Execute, CodeOk, Imm64, InsnOk, Exec, StateOk, Plus;
    var count := if x.icnt == 0 then [] else [AddIcount(x.icnt)];
    CountRuns(sem, s, x.icnt);
    var s1 := Execute(sem, s, count);
    Imm64Loads(sem, s1, 16, x.pc);
    var s2 := Execute(sem, s1, Imm64(16, x.pc));
    StorePcRuns(sem, s2, 16);
    ExecuteOne(sem, s2, StorePc(16));
    ScratchWrite(s1, x.pc);
    ExecuteJoin(sem, s, count, Imm64(16, x.pc));
    ExecuteJoin(sem, s, count + Imm64(16, x.pc), [StorePc(16)]);
  }

  lemma StorePcRuns(sem: Semantics, s: State, rt: nat)
    requires StateOk(s) && rt < 31
    ensures InsnOk(StorePc(rt)) && |s.r| == HREGS && Exec(sem, s, StorePc(rt)) == s.(pc := s.r[rt])
  {
  }

  lemma ScratchWrite(s: State, x: bv64)
    requires StateOk(s)
    ensures
      var t := HostCode.Write(s, 16, x);
      |t.r| == HREGS && t.r[16] == x && t.homes == s.homes && t.memNz == s.memNz && t.icount == s.icount
  {
  }

  lemma {:induction false} StubCommits(sem: Semantics, s: State, g: Guest, x: Exit)
    requires Written(s, g)
    ensures CodeOk(Stub(x)) && Committed(Execute(sem, s, Stub(x)), Leave(g, x))
  {
    hide Execute, CodeOk, Stub, Plus;
    StubRuns(sem, s, x);
  }

  /** Write-back: homes current, and the flags wherever they are needed. */
  lemma {:induction false} HomeSync(sem: Semantics, be: Be, s: State, g: Guest)
    requires Sim(be, s, g)
    ensures
      var y := Sync(be.ra, 0);
      && CodeOk(y.code)
      && var s' := Execute(sem, s, y.code);
         && Agrees(y.ra, s', g.regs) && FlagsOk(be.fl, s', g.nz) && s'.icount == g.icount
         && StateOk(s') && s'.homes[..ZERO] == g.regs[..ZERO]
  {
    hide Agrees, Execute, CodeOk, Sync, RaOk, RegsOk;
    AgreesParts(be.ra, s, g.regs);
    SyncRight(sem, be.ra, s, g.regs, 0);
    var y := Sync(be.ra, 0);
    var s' := Execute(sem, s, y.code);
    AgreesParts(y.ra, s', g.regs);
    HomesCurrent(y.ra, s', g.regs);
  }

  /** Then the flags in memory too. */
  lemma {:induction false} SyncAndFlags(sem: Semantics, be: Be, s: State, g: Guest)
    requires Sim(be, s, g)
    ensures
      var y := Sync(be.ra, 0);
      var code := y.code + Materialize(be.fl);
      && CodeOk(code)
      && var s' := Execute(sem, s, code);
         Agrees(y.ra, s', g.regs) && Written(s', g)
  {
    hide Agrees, Execute, CodeOk, Sync, RaOk, RegsOk, Materialize;
    AgreesParts(be.ra, s, g.regs);
    HomeSync(sem, be, s, g);
    var y := Sync(be.ra, 0);
    var s1 := Execute(sem, s, y.code);
    MaterializeRight(sem, y.ra, be.fl, s1, g.regs, g.nz);
    ExecuteJoin(sem, s, y.code, Materialize(be.fl));
    AgreesParts(y.ra, Execute(sem, s1, Materialize(be.fl)), g.regs);
  }

  lemma {:induction false} JmpCommits(sem: Semantics, be: Be, s: State, g: Guest, end: End)
    requires Sim(be, s, g) && end.Jmp? && RaOk(be.ra) && StateOk(s) && RegsOk(g.regs)
    ensures
      var b := EmitEnd(be, end);
      HostBlockOk(b) && Committed(ExecuteBlock(sem, s, b), Finish(g, end))
  {
    hide Agrees, Execute, CodeOk, Sync, RaOk, Materialize, Stub, Committed, Written, Sim;
    var code := Sync(be.ra, 0).code + Materialize(be.fl);
    SyncAndFlags(sem, be, s, g);
    StubCommits(sem, Execute(sem, s, code), g, end.next);
    ExecuteJoin(sem, s, code, Stub(end.next));
  }

  lemma {:induction false} CondReady(sem: Semantics, be: Be, s: State, g: Guest)
    requires Sim(be, s, g) && RaOk(be.ra)
    ensures
      var code := Sync(be.ra, 0).code + ToHost(be.fl) + Materialize(be.fl);
      CodeOk(code) && StateOk(s) && Written(Execute(sem, s, code), g) && Execute(sem, s, code).nz == g.nz
  {
    hide Agrees, Execute, CodeOk, Sync, RaOk, RegsOk, Materialize, ToHost;
    AgreesParts(be.ra, s, g.regs);
    HomeSync(sem, be, s, g);
    var y := Sync(be.ra, 0);
    var s1 := Execute(sem, s, y.code);
    ToHostRight(sem, y.ra, be.fl, s1, g.regs, g.nz);
    var s2 := Execute(sem, s1, ToHost(be.fl));
    MaterializeRight(sem, y.ra, be.fl, s2, g.regs, g.nz);
    ExecuteJoin(sem, s, y.code, ToHost(be.fl));
    ExecuteJoin(sem, s, y.code + ToHost(be.fl), Materialize(be.fl));
    AgreesParts(y.ra, Execute(sem, s2, Materialize(be.fl)), g.regs);
  }

  lemma {:induction false} CondCommits(sem: Semantics, be: Be, s: State, g: Guest, end: End)
    requires Sim(be, s, g) && end.Branch? && end.test.Cond? && RaOk(be.ra) && StateOk(s) && RegsOk(g.regs)
    ensures
      var b := EmitEnd(be, end);
      HostBlockOk(b) && Committed(ExecuteBlock(sem, s, b), Finish(g, end))
  {
    hide Agrees, Execute, CodeOk, Sync, RaOk, Materialize, ToHost, Stub, Committed, Written, Sim, Ir.Holds, Leave;
    var code := Sync(be.ra, 0).code + ToHost(be.fl) + Materialize(be.fl);
    CondReady(sem, be, s, g);
    StubCommits(sem, Execute(sem, s, code), g, end.taken);
    StubCommits(sem, Execute(sem, s, code), g, end.fall);
  }

  /** A register fetched after the write-back. */
  lemma {:induction false} RegisterReady(sem: Semantics, be: Be, s: State, g: Guest, a: nat)
    requires Sim(be, s, g) && RaOk(be.ra) && a < VREGS && RegsOk(g.regs)
    ensures
      var y := Sync(be.ra, 0);
      var p := Use(y.ra, a);
      var code := y.code + Materialize(be.fl) + p.code;
      && CodeOk(code) && StateOk(s)
      && var s' := Execute(sem, s, code);
         Written(s', g) && p.h < 31 && s'.r[p.h] == g.regs[a]
  {
    hide Agrees, Execute, CodeOk, Sync, RaOk, RegsOk, Materialize, Use;
    AgreesParts(be.ra, s, g.regs);
    SyncAndFlags(sem, be, s, g);
    var y := Sync(be.ra, 0);
    var first := y.code + Materialize(be.fl);
    var s1 := Execute(sem, s, first);
    UseClean(sem, be.ra, y.ra, s1, g.regs, a);
    ExecuteJoin(sem, s, first, Use(y.ra, a).code);
  }

  /** With nothing dirty a use stores nothing. */
  lemma {:induction false} UseClean(sem: Semantics, ra0: Ra, ra: Ra, s: State, regs: seq<bv64>, a: nat)
    requires RaOk(ra0) && ra == Sync(ra0, 0).ra && Agrees(ra, s, regs) && a < VREGS
    ensures
      var p := Use(ra, a);
      && CodeOk(p.code)
      && var s' := Execute(sem, s, p.code);
         StateOk(s') && Elsewhere(s, s') && s'.r[p.h] == regs[a] && s'.homes[..ZERO] == regs[..ZERO]
  {
    hide Agrees, Execute, RaOk, Use, Sync;
    AgreesParts(ra, s, regs);
    UseRight(sem, ra, s, regs, a);
    var p := Use(ra, a);
    var s' := Execute(sem, s, p.code);
    AgreesParts(p.ra, s', regs);
    SyncCleans(ra0, 0);
    UseStaysClean(ra, a);
    HomesCurrent(p.ra, s', regs);
  }

  lemma {:induction false} TestCommits(sem: Semantics, be: Be, s: State, g: Guest, end: End)
    requires Sim(be, s, g) && end.Branch? && !end.test.Cond?
    requires EndOk(end) && RaOk(be.ra) && StateOk(s) && RegsOk(g.regs)
    ensures
      var b := EmitEnd(be, end);
      HostBlockOk(b) && Committed(ExecuteBlock(sem, s, b), Finish(g, end))
  {
    hide Agrees, Execute, CodeOk, Sync, RaOk, Use, Materialize, Stub, Committed, Sim, Fit, BitIs, Leave;
    var y := Sync(be.ra, 0);
    var p := Use(y.ra, end.test.a);
    var code := y.code + Materialize(be.fl) + p.code;
    RegisterReady(sem, be, s, g, end.test.a);
    var t := Execute(sem, s, code);
    StubCommits(sem, t, g, end.taken);
    StubCommits(sem, t, g, end.fall);
    ReadPlain(t, p.h);
  }

  lemma ReadPlain(s: State, n: nat)
    requires StateOk(s) && n < 31
    ensures Read(s, n) == s.r[n]
  {
  }

  lemma {:induction false} IndirectCommits(sem: Semantics, be: Be, s: State, g: Guest, end: End)
    requires Sim(be, s, g) && end.Indirect? && EndOk(end) && RaOk(be.ra) && StateOk(s) && RegsOk(g.regs)
    ensures
      var b := EmitEnd(be, end);
      HostBlockOk(b) && Committed(ExecuteBlock(sem, s, b), Finish(g, end))
  {
    hide Agrees, Execute, Exec, CodeOk, InsnOk, Sync, RaOk, Use, Materialize, Sim, Plus;
    var y := Sync(be.ra, 0);
    var p := Use(y.ra, end.a);
    var code := y.code + Materialize(be.fl) + p.code;
    var count := if end.icnt == 0 then [] else [AddIcount(end.icnt)];
    RegisterReady(sem, be, s, g, end.a);
    var t := Execute(sem, s, code);
    StorePcRuns(sem, t, p.h);
    ExecuteOne(sem, t, StorePc(p.h));
    ExecuteJoin(sem, s, code, [StorePc(p.h)]);
    CountRuns(sem, t.(pc := t.r[p.h]), end.icnt);
    ExecuteJoin(sem, s, code + [StorePc(p.h)], count);
  }

  lemma {:induction false} EndCommits(sem: Semantics, be: Be, s: State, g: Guest, end: End)
    requires Sim(be, s, g) && EndOk(end) && RaOk(be.ra) && StateOk(s) && RegsOk(g.regs)
    ensures
      var b := EmitEnd(be, end);
      HostBlockOk(b) && Committed(ExecuteBlock(sem, s, b), Finish(g, end))
  {
    hide EmitEnd, Finish, Committed, Sim, RaOk, StateOk, RegsOk, HostBlockOk, ExecuteBlock;
    match end
    case Jmp(_) => JmpCommits(sem, be, s, g, end);
    case Branch(t, _, _) =>
      if t.Cond? {
        CondCommits(sem, be, s, g, end);
      } else {
        TestCommits(sem, be, s, g, end);
      }
    case Indirect(_, _) => IndirectCommits(sem, be, s, g, end);
  }

  // ---- Whole blocks ----

  /** be_emit_block's starting state: nothing mapped, flags in memory. */
  function Fresh(): (be: Be)
    ensures RaOk(be.ra)
  {
    Be(Ra(seq(VREGS, _ => -1), seq(HREGS, _ => NOBODY), seq(VREGS, _ => false), seq(HREGS, _ => 0), 0), InMemory)
  }

  function Prefixed(code: seq<Insn>, b: HostBlock): HostBlock {
    if b.Straight? then Straight(code + b.code) else b.(code := code + b.code)
  }

  function EmitBlock(b: Block): HostBlock
    requires OpsOk(b.ops) && EndOk(b.end)
  {
    var o := EmitOps(Fresh(), b.ops, 0, b.end);
    Prefixed(o.code, EmitEnd(o.be, b.end))
  }

  function Meaning(sem: Semantics, g: Guest, b: Block): Guest
    requires RegsOk(g.regs) && OpsOk(b.ops) && EndOk(b.end)
  {
    Finish(Run(sem, g, b.ops), b.end)
  }

  lemma {:induction false} FreshSim(s: State, g: Guest)
    requires Written(s, g) && RegsOk(g.regs)
    ensures Sim(Fresh(), s, g)
  {
    var be := Fresh();
    forall v | 0 <= v < VREGS ensures Allocator.Holds(be.ra, s, g.regs, v) {
      if v < ZERO {
        assert s.homes[v] == s.homes[..ZERO][v] && g.regs[v] == g.regs[..ZERO][v];
      }
    }
  }

  /**
   Correctness of the generated code: for every block whose dead marks are
   sound, running its code from any host state that holds the guest's registers,
   flags and count in memory ends with the registers, NZCV, successor address
   and instruction count that the block means.
   */
  lemma {:induction false} BlockRight(sem: Semantics, b: Block, s: State, g: Guest)
    requires OpsOk(b.ops) && EndOk(b.end) && Sound(b.ops)
    requires RegsOk(g.regs) && Written(s, g)
    ensures
      && HostBlockOk(EmitBlock(b))
      && Committed(ExecuteBlock(sem, s, EmitBlock(b)), Meaning(sem, g, b))
  {
    hide EmitOps, EmitEnd, Sim, RaOk, Execute, CodeOk, Committed, Run, CodeRun, Finish, Taken, Agrees, Sound, Live;
    FreshSim(s, g);
    OpsSim(sem, Fresh(), s, g, b.ops, 0, b.end);
    RunAlike(sem, g, g, b.ops, 0);
    assert b.ops[0..] == b.ops;
    var o := EmitOps(Fresh(), b.ops, 0, b.end);
    var s1 := Execute(sem, s, o.code);
    var g1 := Run(sem, g, b.ops);
    var e := EmitEnd(o.be, b.end);
    EndCommits(sem, o.be, s1, g1, b.end);
    ExecuteJoin(sem, s, o.code, e.code);
  }

  // ---- The marking pass meets its contract ----

  lemma {:induction false} LiveStep(ops: seq<Op>, k: nat)
    requires k < |ops|
    ensures Live(ops, k) == LiveBefore(ops[k], Live(ops, k + 1))
  {
    hide Reads, Sets;
  }

  /** Marks change nothing that liveness looks at. */
  lemma {:induction false} MarkSame(ops: seq<Op>, n: nat, live: bool, i: nat)
    requires i < n <= |ops|
    ensures Reads(MarkTo(ops, n, live)[i]) == Reads(ops[i]) && Sets(MarkTo(ops, n, live)[i]) == Sets(ops[i])
  {
    if i < n - 1 {
      MarkSame(ops, n - 1, LiveBefore(ops[n - 1], live), i);
    }
  }

  lemma {:induction false} LiveSame(a: seq<Op>, b: seq<Op>, k: nat)
    requires |a| == |b| && k <= |a|
    requires forall i :: 0 <= i < |a| ==> Reads(a[i]) == Reads(b[i]) && Sets(a[i]) == Sets(b[i])
    ensures Live(a, k) == Live(b, k)
    decreases |a| - k
  {
    hide Reads, Sets;
    if k < |a| {
      LiveSame(a, b, k + 1);
    }
  }

  lemma {:induction false} MarkMeans(ops: seq<Op>, n: nat, i: nat)
    requires i < n <= |ops|
    ensures
      var m := MarkTo(ops, n, Live(ops, n))[i];
      if ops[i].Alu? && ops[i].s then m == ops[i].(dead := !Live(ops, i + 1)) else m == ops[i]
  {
    hide Reads, Sets, Live, LiveBefore;
    LiveStep(ops, n - 1);
    if i < n - 1 {
      MarkMeans(ops, n - 1, i);
    }
  }

  /** The pass marks exactly the definitions nothing reads. */
  lemma {:induction false} MarkSound(ops: seq<Op>)
    requires OpsOk(ops)
    ensures
      var m := Mark(ops);
      && OpsOk(m) && Sound(m)
      && forall i :: 0 <= i < |m| && m[i].Alu? && m[i].s ==> (m[i].dead <==> !Live(m, i + 1))
  {
    hide Reads, Sets, Live, MarkTo;
    var m := Mark(ops);
    assert Live(ops, |ops|) by {
      EndLive(ops);
    }
    forall i | 0 <= i < |m| ensures Reads(m[i]) == Reads(ops[i]) && Sets(m[i]) == Sets(ops[i]) {
      MarkSame(ops, |ops|, true, i);
    }
    forall i | 0 <= i < |m|
      ensures OpOk(m[i]) && (m[i].Alu? && m[i].s ==> (m[i].dead <==> !Live(m, i + 1)))
      ensures m[i].Alu? && m[i].dead ==> !Live(m, i + 1)
    {
      MarkMeans(ops, |ops|, i);
      LiveSame(m, ops, i + 1);
      MarkedOk(ops[i], !Live(ops, i + 1));
    }
  }

  lemma EndLive(ops: seq<Op>)
    ensures Live(ops, |ops|)
  {
  }

  lemma MarkedOk(op: Op, dead: bool)
    requires OpOk(op)
    ensures op.Alu? && op.s ==> OpOk(op.(dead := dead))
    ensures op.Alu? && op.dead ==> op.s
  {
  }

  // ---- Marking, then emitting ----

  lemma StepIgnoresMarks(sem: Semantics, g: Guest, op: Op, dead: bool)
    requires RegsOk(g.regs) && OpOk(op) && op.Alu? && op.s
    ensures OpOk(op.(dead := dead)) && Step(sem, g, op.(dead := dead)) == Step(sem, g, op)
  {
    hide Compute, Fit;
  }

  lemma {:induction false} RunIgnoresMarks(sem: Semantics, g: Guest, a: seq<Op>, b: seq<Op>)
    requires RegsOk(g.regs) && |a| == |b| && OpsOk(a) && OpsOk(b)
    requires forall i :: 0 <= i < |a| ==> Remarked(a[i], b[i])
    ensures Run(sem, g, a) == Run(sem, g, b)
    decreases |a|
  {
    hide Step, OpOk, RegsOk;
    if a != [] {
      assert Remarked(a[0], b[0]);
      if a[0] != b[0] {
        StepIgnoresMarks(sem, g, b[0], a[0].dead);
      }
      forall i | 0 <= i < |a[1..]| ensures Remarked(a[1..][i], b[1..][i]) {
        assert Remarked(a[i + 1], b[i + 1]);
      }
      RunIgnoresMarks(sem, Step(sem, g, a[0]), a[1..], b[1..]);
    }
  }

  predicate Remarked(a: Op, b: Op) {
    a == b || (b.Alu? && b.s && a.Alu? && a == b.(dead := a.dead))
  }

  /** From marking to execution: whatever its marks, a block compiled after the pass runs as it means. */
  lemma {:induction false} CompiledRight(sem: Semantics, b: Block, s: State, g: Guest)
    requires OpsOk(b.ops) && EndOk(b.end) && RegsOk(g.regs) && Written(s, g)
    ensures
      var m := b.(ops := Mark(b.ops));
      && OpsOk(m.ops) && HostBlockOk(EmitBlock(m))
      && Committed(ExecuteBlock(sem, s, EmitBlock(m)), Meaning(sem, g, b))
  {
    hide EmitBlock, ExecuteBlock, Committed, Written, Sound, MarkTo, RegsOk, OpOk, HostBlockOk;
    var m := b.(ops := Mark(b.ops));
    MarkSound(b.ops);
    BlockRight(sem, m, s, g);
    EndLive(b.ops);
    forall i | 0 <= i < |b.ops| ensures Remarked(m.ops[i], b.ops[i]) {
      MarkMeans(b.ops, |b.ops|, i);
    }
    RunIgnoresMarks(sem, g, m.ops, b.ops);
  }
}
