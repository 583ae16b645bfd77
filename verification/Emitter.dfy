/**
 Emission of the operations that fall through: their registers through the
 allocator, and the proof that each operation's code does what it means.
 */
module Emitter {
  import opened Ir
  import opened HostCode
  import opened Allocator

  // ---- Emission of one operation's registers ----

  /** Load or fold an immediate right-hand side; x17 is scratch. */
  function AluImm(k: Kind, s: bool, w: bool, rd: nat, rn: nat, imm: bv64): seq<Insn> {
    if (k == Add || k == Sub) && Encodable(imm) then [AluI(k, s, w, rd, rn, imm)]
    else Imm64(17, imm) + [AluR(k, s, w, rd, rn, 17)]
  }

  /** An operand that may be the zero register: a scratch register is cleared for it. */
  function UseOrScratch(ra: Ra, v: nat, scratch: nat): (g: Got)
    requires RaOk(ra) && v < VREGS && scratch < 31
    ensures RaOk(g.ra) && g.h < 31
  {
    if v == ZERO then Got(ra, scratch, []) else Use(ra, v)
  }

  function Low5(i: bv64): bv64 {
    i & 0x1f
  }

  function Clear(v: nat, scratch: nat): seq<Insn> {
    if v == ZERO then [Movz(scratch, 0, 0)] else []
  }

  function Body(ra: Ra, op: Op): (g: Got)
    requires RaOk(ra) && OpOk(op)
    ensures RaOk(g.ra)
  {
    match op
    case Nop => Got(ra, 0, [])
    case Movi(w, dst, imm) =>
      var d := Def(ra, dst);
      Got(d.ra, 0, d.code + Imm64(d.h, Fit(w, imm)))
    case Mov(w, dst, a) =>
      var p := Use(ra, a);
      var d := Def(p.ra, dst);
      Got(d.ra, 0, p.code + d.code + [MovR(w, d.h, p.h)])
    case Movk(w, dst, a, imm, hw) =>
      var p := Use(ra, a);
      var d := Def(p.ra, dst);
      Got(d.ra, 0, p.code + d.code + (if d.h != p.h then [MovR(true, d.h, p.h)] else []) + [MovK(w, d.h, imm, hw)])
    case Alu(k, s, w, dst, a, rhs, dead) =>
      var p := Use(ra, a);
      if rhs.Reg? then
        var q := Use(p.ra, rhs.b);
        var d := Def(q.ra, dst);
        Got(d.ra, 0, p.code + q.code + d.code + [AluR(k, s && !dead, w, d.h, p.h, q.h)])
      else
        var d := Def(p.ra, dst);
        Got(d.ra, 0, p.code + d.code + AluImm(k, s && !dead, w, d.h, p.h, Fit(w, rhs.i)))
    case Host1(code, w, dst, x) =>
      var p := Use(ra, x);
      var d := Def(p.ra, dst);
      Got(d.ra, 0, p.code + d.code + [Replay(code, w, d.h, p.h, 31, 31)])
    case Host2(code, w, dst, x, y) =>
      var p := Use(ra, x);
      var q := Use(p.ra, y);
      var d := Def(q.ra, dst);
      Got(d.ra, 0, p.code + q.code + d.code + [Replay(code, w, d.h, p.h, q.h, 31)])
    case Host3(code, w, dst, x, y, z) =>
      var p := Use(ra, x);
      var q := Use(p.ra, y);
      if z == ZERO then
        var d := Def(q.ra, dst);
        Got(d.ra, 0, p.code + q.code + d.code + [Replay(code, w, d.h, p.h, q.h, 31)])
      else
        var t := Use(q.ra, z);
        var d := Def(t.ra, dst);
        Got(d.ra, 0, p.code + q.code + t.code + d.code + [Replay(code, w, d.h, p.h, q.h, t.h)])
    case Csel(choice, w, dst, a, b, cc) =>
      var p := UseOrScratch(ra, a, 16);
      var q := UseOrScratch(p.ra, b, 17);
      var d := Def(q.ra, dst);
      Got(d.ra, 0, p.code + q.code + Clear(a, 16) + Clear(b, 17) + d.code + [Select(choice, w, d.h, p.h, q.h, cc)])
    case Ccmp(negated, w, a, rhs, otherwise, cc) =>
      var p := Use(ra, a);
      if rhs.Imm? then Got(p.ra, 0, p.code + [CompareI(negated, w, p.h, Low5(rhs.i), otherwise, cc)])
      else
        var q := Use(p.ra, rhs.b);
        Got(q.ra, 0, p.code + q.code + [CompareR(negated, w, p.h, q.h, otherwise, cc)])
  }

  /** Whether the operation consumes NZCV. */
  predicate Reads(op: Op) {
    op.Csel? || op.Ccmp? || (op.Alu? && (op.k == Adc || op.k == Sbc))
  }

  /** Whether the emitted code defines NZCV. */
  predicate Defines(op: Op) {
    op.Ccmp? || (op.Alu? && op.s && !op.dead)
  }

  // ---- Its effect ----

  /** What the registers part must do to the host state. */
  predicate Did(b: Got, s: State, s': State, op: Op, g: Guest, g': Guest) {
    && Agrees(b.ra, s', g'.regs)
    && s'.memNz == s.memNz && s'.pc == s.pc && s'.icount == s.icount
    && s'.nz == (if Defines(op) then g'.nz else s.nz)
  }

  /** A definition followed by code that leaves the value in its register, and perhaps x17 changed. */
  lemma {:induction false} DefThen(sem: Semantics, ra: Ra, s: State, regs: seq<bv64>, v: nat, tail: seq<Insn>,
      x: bv64, val: bv64, nz: Nzcv)
    requires Agrees(ra, s, regs) && v < VREGS && CodeOk(tail)
    requires
      var d := Def(ra, v);
      CodeOk(d.code) ==>
        var t := Execute(sem, s, d.code);
        Execute(sem, t, tail) == t.(r := t.r[17 := x][d.h := val], nz := nz)
    ensures
      var d := Def(ra, v);
      && CodeOk(d.code + tail)
      && var s' := Execute(sem, s, d.code + tail);
         && Agrees(d.ra, s', Put(regs, v, val)) && s'.nz == nz
         && s'.memNz == s.memNz && s'.pc == s.pc && s'.icount == s.icount
  {
    hide Agrees, Def, Execute, InsnOk, RaOk, Put, RegsOk;
    AgreesParts(ra, s, regs);
    var d := Def(ra, v);
    DefRight(sem, ra, s, regs, v);
    var t := Execute(sem, s, d.code);
    ExecuteJoin(sem, s, d.code, tail);
    var regs' := Put(regs, v, val);
    var t1 := t.(r := t.r[d.h := val]);
    ScratchAgrees(d.ra, t1, regs', 17, x);
    assert t.r[17 := x][d.h := val] == t.r[d.h := val][17 := x];
    AgreesElsewhere(d.ra, t1.(r := t1.r[17 := x]), t.(r := t.r[17 := x][d.h := val], nz := nz), regs');
  }

  /** Whenever the registers hold these operands and flags, the instruction leaves that value in rd and those flags. */
  ghost predicate Yields(sem: Semantics, i: Insn, rx: nat, x: bv64, ry: nat, y: bv64, rz: nat, z: bv64, f: Nzcv,
      rd: nat, val: bv64, nz: Nzcv)
    requires InsnOk(i) && rx < 31 && ry < 31 && rz < 31 && rd < 31
  {
    forall t: State :: StateOk(t) && t.r[rx] == x && t.r[ry] == y && t.r[rz] == z && t.nz == f ==>
      Exec(sem, t, i) == t.(r := t.r[rd := val], nz := nz)
  }

  /** The state a definition's code leaves. */
  predicate Left(d: Got, s: State, s': State, regs: seq<bv64>, nz: Nzcv) {
    Agrees(d.ra, s', regs) && s'.nz == nz && s'.memNz == s.memNz && s'.pc == s.pc && s'.icount == s.icount
  }

  lemma {:induction false} DefThenOne(sem: Semantics, ra: Ra, s: State, regs: seq<bv64>, v: nat, i: Insn, rx: nat,
      ry: nat, rz: nat, val: bv64, nz: Nzcv)
    requires Agrees(ra, s, regs) && v < VREGS && InsnOk(i) && rx < 31 && ry < 31 && rz < 31 && StateOk(s)
    requires Yields(sem, i, rx, s.r[rx], ry, s.r[ry], rz, s.r[rz], s.nz, Def(ra, v).h, val, nz)
    ensures
      var d := Def(ra, v);
      CodeOk(d.code + [i]) && Left(d, s, Execute(sem, s, d.code + [i]), Put(regs, v, val), nz)
  {
    hide Agrees, Def, Execute, Exec, InsnOk, RaOk, Put, RegsOk;
    AgreesParts(ra, s, regs);
    DefRight(sem, ra, s, regs, v);
    var t := Execute(sem, s, Def(ra, v).code);
    ExecuteOne(sem, t, i);
    assert t.r[17 := t.r[17]] == t.r;
    DefThen(sem, ra, s, regs, v, [i], t.r[17], val, nz);
  }

  /** One operand, then the instruction. */
  lemma {:induction false} OneThen(sem: Semantics, ra: Ra, s: State, regs: seq<bv64>, a: nat, v: nat, i: Insn,
      val: bv64, nz: Nzcv)
    requires Agrees(ra, s, regs) && a < VREGS && v < VREGS && InsnOk(i)
    requires
      var p := Use(ra, a);
      Yields(sem, i, p.h, regs[a], p.h, regs[a], p.h, regs[a], s.nz, Def(p.ra, v).h, val, nz)
    ensures
      var p := Use(ra, a);
      var d := Def(p.ra, v);
      CodeOk(p.code + d.code + [i]) && Left(d, s, Execute(sem, s, p.code + d.code + [i]), Put(regs, v, val), nz)
  {
    hide Agrees, Def, Use, Execute, InsnOk, RaOk, Put, RegsOk, Yields;
    AgreesParts(ra, s, regs);
    var p := Use(ra, a);
    UseRight(sem, ra, s, regs, a);
    var s1 := Execute(sem, s, p.code);
    AgreesParts(p.ra, s1, regs);
    DefThenOne(sem, p.ra, s1, regs, v, i, p.h, p.h, p.h, val, nz);
    var d := Def(p.ra, v);
    ExecuteJoin(sem, s, p.code, d.code + [i]);
    assert p.code + d.code + [i] == p.code + (d.code + [i]);
  }

  /** Two operands, then the instruction. */
  lemma {:induction false} TwoThen(sem: Semantics, ra: Ra, s: State, regs: seq<bv64>, a: nat, b: nat, v: nat,
      i: Insn, val: bv64, nz: Nzcv)
    requires Agrees(ra, s, regs) && a < VREGS && b < VREGS && v < VREGS && InsnOk(i)
    requires
      var p := Use(ra, a);
      var q := Use(p.ra, b);
      Yields(sem, i, p.h, regs[a], q.h, regs[b], q.h, regs[b], s.nz, Def(q.ra, v).h, val, nz)
    ensures
      var p := Use(ra, a);
      var q := Use(p.ra, b);
      var d := Def(q.ra, v);
      && CodeOk(p.code + q.code + d.code + [i])
      && Left(d, s, Execute(sem, s, p.code + q.code + d.code + [i]), Put(regs, v, val), nz)
  {
    hide Agrees, Def, Use, Execute, InsnOk, RaOk, Put, RegsOk, Yields, Kept;
    AgreesParts(ra, s, regs);
    var p := Use(ra, a);
    var q := Use(p.ra, b);
    UseTwo(sem, ra, s, regs, a, b);
    var s1 := Execute(sem, s, p.code + q.code);
    DefThenOne(sem, q.ra, s1, regs, v, i, p.h, q.h, q.h, val, nz);
    var d := Def(q.ra, v);
    ExecuteJoin(sem, s, p.code + q.code, d.code + [i]);
    assert p.code + q.code + d.code + [i] == p.code + q.code + (d.code + [i]);
  }

  /** Three operands, then the instruction. */
  lemma {:induction false} ThreeThen(sem: Semantics, ra: Ra, s: State, regs: seq<bv64>, a: nat, b: nat, c: nat,
      v: nat, i: Insn, val: bv64, nz: Nzcv)
    requires Agrees(ra, s, regs) && a < VREGS && b < VREGS && c < VREGS && v < VREGS && InsnOk(i)
    requires
      var p := Use(ra, a);
      var q := Use(p.ra, b);
      var t := Use(q.ra, c);
      Yields(sem, i, p.h, regs[a], q.h, regs[b], t.h, regs[c], s.nz, Def(t.ra, v).h, val, nz)
    ensures
      var p := Use(ra, a);
      var q := Use(p.ra, b);
      var t := Use(q.ra, c);
      var d := Def(t.ra, v);
      var code := p.code + q.code + t.code + d.code + [i];
      CodeOk(code) && Left(d, s, Execute(sem, s, code), Put(regs, v, val), nz)
  {
    hide Agrees, Def, Use, Execute, InsnOk, RaOk, Put, RegsOk, Yields;
    AgreesParts(ra, s, regs);
    var p := Use(ra, a);
    var q := Use(p.ra, b);
    var t := Use(q.ra, c);
    UseThree(sem, ra, s, regs, a, b, c);
    var s1 := Execute(sem, s, p.code + q.code + t.code);
    DefThenOne(sem, t.ra, s1, regs, v, i, p.h, q.h, t.h, val, nz);
    var d := Def(t.ra, v);
    ExecuteJoin(sem, s, p.code + q.code + t.code, d.code + [i]);
    assert p.code + q.code + t.code + d.code + [i] == p.code + q.code + t.code + (d.code + [i]);
  }

  // ---- Operation by operation ----

  lemma {:induction false} MoviDid(sem: Semantics, ra: Ra, s: State, g: Guest, op: Op)
    requires Agrees(ra, s, g.regs) && op.Movi? && OpOk(op)
    ensures CodeOk(Body(ra, op).code)
    ensures Did(Body(ra, op), s, Execute(sem, s, Body(ra, op).code), op, g, Step(sem, g, op))
  {
    hide Agrees, Def, Execute, InsnOk, RaOk, Put, Imm64, Fit, CodeOk;
    AgreesParts(ra, s, g.regs);
    var d := Def(ra, op.dst);
    DefRight(sem, ra, s, g.regs, op.dst);
    var t := Execute(sem, s, d.code);
    Imm64Loads(sem, t, d.h, Fit(op.w, op.imm));
    assert t.r[17 := t.r[17]] == t.r;
    DefThen(sem, ra, s, g.regs, op.dst, Imm64(d.h, Fit(op.w, op.imm)), t.r[17], Fit(op.w, op.imm), s.nz);
  }

  lemma MovYields(sem: Semantics, w: bool, rd: nat, rn: nat, x: bv64, f: Nzcv)
    requires rd < 31 && rn < 31
    ensures InsnOk(MovR(w, rd, rn)) && Yields(sem, MovR(w, rd, rn), rn, x, rn, x, rn, x, f, rd, Fit(w, x), f)
  {
    hide Fit;
  }

  lemma {:induction false} MovDid(sem: Semantics, ra: Ra, s: State, g: Guest, op: Op)
    requires Agrees(ra, s, g.regs) && op.Mov? && OpOk(op)
    ensures CodeOk(Body(ra, op).code)
    ensures Did(Body(ra, op), s, Execute(sem, s, Body(ra, op).code), op, g, Step(sem, g, op))
  {
    hide Agrees, Def, Use, Execute, RaOk, Put, Fit, CodeOk, Yields, InsnOk;
    AgreesParts(ra, s, g.regs);
    var p := Use(ra, op.a);
    var d := Def(p.ra, op.dst);
    MovYields(sem, op.w, d.h, p.h, g.regs[op.a], s.nz);
    OneThen(sem, ra, s, g.regs, op.a, op.dst, MovR(op.w, d.h, p.h), Fit(op.w, g.regs[op.a]), s.nz);
  }

  lemma {:induction false} AluYields(sem: Semantics, k: Kind, s: bool, w: bool, rd: nat, rn: nat, rm: nat, x: bv64,
      y: bv64, f: Nzcv)
    requires rd < 31 && rn < 31 && rm < 31
    ensures
      var r := Compute(k, w, x, y, f.c);
      InsnOk(AluR(k, s, w, rd, rn, rm)) &&
      Yields(sem, AluR(k, s, w, rd, rn, rm), rn, x, rm, y, rm, y, f, rd, r.value, if s then r.nz else f)
  {
    hide Compute, Exec;
    var r := Compute(k, w, x, y, f.c);
    forall t: State | StateOk(t) && t.r[rn] == x && t.r[rm] == y && t.nz == f
      ensures Exec(sem, t, AluR(k, s, w, rd, rn, rm)) == t.(r := t.r[rd := r.value], nz := if s then r.nz else f)
    {
      AluRuns(sem, t, k, s, w, rd, rn, rm, 0);
    }
  }

  lemma {:induction false} AluRegDid(sem: Semantics, ra: Ra, s: State, g: Guest, op: Op)
    requires Agrees(ra, s, g.regs) && op.Alu? && op.rhs.Reg? && OpOk(op) && (Reads(op) ==> s.nz == g.nz)
    ensures CodeOk(Body(ra, op).code)
    ensures Did(Body(ra, op), s, Execute(sem, s, Body(ra, op).code), op, g, Step(sem, g, op))
  {
    hide Agrees, Def, Use, Execute, RaOk, Put, Compute, CodeOk, Yields, InsnOk;
    AgreesParts(ra, s, g.regs);
    var p := Use(ra, op.a);
    var q := Use(p.ra, op.rhs.b);
    var d := Def(q.ra, op.dst);
    var x, y := g.regs[op.a], g.regs[op.rhs.b];
    var live := op.s && !op.dead;
    var r := Compute(op.k, op.w, x, y, s.nz.c);
    CarryUnread(op.k, op.w, x, y, s.nz.c, g.nz.c);
    AluYields(sem, op.k, live, op.w, d.h, p.h, q.h, x, y, s.nz);
    TwoThen(sem, ra, s, g.regs, op.a, op.rhs.b, op.dst, AluR(op.k, live, op.w, d.h, p.h, q.h), r.value,
      if live then r.nz else s.nz);
  }

  /** Only the carrying forms read the incoming carry. */
  lemma CarryUnread(k: Kind, w: bool, a: bv64, b: bv64, c: bool, c': bool)
    ensures k != Adc && k != Sbc ==> Compute(k, w, a, b, c) == Compute(k, w, a, b, c')
  {
    hide Sum, Logic, Fit;
  }

  lemma {:induction false} ReplayYields(sem: Semantics, code: nat, w: bool, rd: nat, rx: nat, ry: nat, rz: nat,
      x: bv64, y: bv64, z: bv64, f: Nzcv)
    requires rd < 31 && rx < 31 && ry < 31 && rz < 32 && (rz == 31 ==> z == 0)
    ensures InsnOk(Replay(code, w, rd, rx, ry, rz))
    ensures
      Yields(sem, Replay(code, w, rd, rx, ry, rz), rx, x, ry, y, if rz == 31 then ry else rz,
        if rz == 31 then y else z, f, rd, sem(code, w, x, y, z), f)
  {
    hide Exec;
    var i := Replay(code, w, rd, rx, ry, rz);
    forall t: State | StateOk(t) && t.r[rx] == x && t.r[ry] == y && (rz == 31 || t.r[rz] == z) && t.nz == f
      ensures Exec(sem, t, i) == t.(r := t.r[rd := sem(code, w, x, y, z)], nz := f)
    {
      ReplayRuns(sem, t, i, x, y, z);
    }
  }

  lemma {:induction false} Replay1Yields(sem: Semantics, code: nat, w: bool, rd: nat, rx: nat, x: bv64, f: Nzcv)
    requires rd < 31 && rx < 31
    ensures InsnOk(Replay(code, w, rd, rx, 31, 31))
    ensures Yields(sem, Replay(code, w, rd, rx, 31, 31), rx, x, rx, x, rx, x, f, rd, sem(code, w, x, 0, 0), f)
  {
    hide Exec;
    var i := Replay(code, w, rd, rx, 31, 31);
    forall t: State | StateOk(t) && t.r[rx] == x && t.nz == f
      ensures Exec(sem, t, i) == t.(r := t.r[rd := sem(code, w, x, 0, 0)], nz := f)
    {
      ReplayRuns(sem, t, i, x, 0, 0);
    }
  }

  lemma ReplayRuns(sem: Semantics, t: State, i: Insn, x: bv64, y: bv64, z: bv64)
    requires StateOk(t) && i.Replay? && InsnOk(i) && i.rd < 31
    requires Read(t, i.rx) == x && Read(t, i.ry) == y && Read(t, i.rz) == z
    ensures Exec(sem, t, i) == t.(r := t.r[i.rd := sem(i.code, i.w, x, y, z)])
  {
  }

  lemma {:induction false} HostDid(sem: Semantics, ra: Ra, s: State, g: Guest, op: Op)
    requires Agrees(ra, s, g.regs) && (op.Host1? || op.Host2?) && OpOk(op)
    ensures CodeOk(Body(ra, op).code)
    ensures Did(Body(ra, op), s, Execute(sem, s, Body(ra, op).code), op, g, Step(sem, g, op))
  {
    hide Agrees, Def, Use, Execute, RaOk, Put, CodeOk, Yields;
    AgreesParts(ra, s, g.regs);
    var p := Use(ra, op.x);
    if op.Host1? {
      var d := Def(p.ra, op.dst);
      Replay1Yields(sem, op.code, op.w, d.h, p.h, g.regs[op.x], s.nz);
      OneThen(sem, ra, s, g.regs, op.x, op.dst, Replay(op.code, op.w, d.h, p.h, 31, 31), sem(op.code, op.w,
        g.regs[op.x], 0, 0), s.nz);
    } else {
      var q := Use(p.ra, op.y);
      var d := Def(q.ra, op.dst);
      ReplayYields(sem, op.code, op.w, d.h, p.h, q.h, 31, g.regs[op.x], g.regs[op.y], 0, s.nz);
      TwoThen(sem, ra, s, g.regs, op.x, op.y, op.dst, Replay(op.code, op.w, d.h, p.h, q.h, 31), sem(op.code, op.w,
        g.regs[op.x], g.regs[op.y], 0), s.nz);
    }
  }

  lemma {:induction false} Host3Did(sem: Semantics, ra: Ra, s: State, g: Guest, op: Op)
    requires Agrees(ra, s, g.regs) && op.Host3? && OpOk(op)
    ensures CodeOk(Body(ra, op).code)
    ensures Did(Body(ra, op), s, Execute(sem, s, Body(ra, op).code), op, g, Step(sem, g, op))
  {
    hide Agrees, Def, Use, Execute, RaOk, Put, CodeOk, Yields;
    AgreesParts(ra, s, g.regs);
    var p := Use(ra, op.x);
    var q := Use(p.ra, op.y);
    var val := sem(op.code, op.w, g.regs[op.x], g.regs[op.y], g.regs[op.z]);
    if op.z == ZERO {
      var d := Def(q.ra, op.dst);
      ReplayYields(sem, op.code, op.w, d.h, p.h, q.h, 31, g.regs[op.x], g.regs[op.y], 0, s.nz);
      TwoThen(sem, ra, s, g.regs, op.x, op.y, op.dst, Replay(op.code, op.w, d.h, p.h, q.h, 31), val, s.nz);
    } else {
      var t := Use(q.ra, op.z);
      var d := Def(t.ra, op.dst);
      ReplayYields(sem, op.code, op.w, d.h, p.h, q.h, t.h, g.regs[op.x], g.regs[op.y], g.regs[op.z], s.nz);
      ThreeThen(sem, ra, s, g.regs, op.x, op.y, op.z, op.dst, Replay(op.code, op.w, d.h, p.h, q.h, t.h), val, s.nz);
    }
  }

  lemma {:induction false} MovkTail(sem: Semantics, t: State, w: bool, rd: nat, rn: nat, imm: bv64, hw: nat)
    requires StateOk(t) && rd < 31 && rn < 31 && hw < 4
    ensures
      var tail := (if rd != rn then [MovR(true, rd, rn)] else []) + [MovK(w, rd, imm, hw)];
      CodeOk(tail) && Execute(sem, t, tail) == t.(r := t.r[rd := Fit(w, Insert(t.r[rn], imm, hw))])
  {
    hide Insert, Fit, Execute;
    var k := MovK(w, rd, imm, hw);
    if rd != rn {
      var m := MovR(true, rd, rn);
      WideFit(t.r[rn]);
      var t1 := t.(r := t.r[rd := t.r[rn]]);
      assert Exec(sem, t, m) == t1;
      ExecuteOne(sem, t, m);
      ExecuteOne(sem, t1, k);
      ExecuteJoin(sem, t, [m], [k]);
      assert t.r[rd := t.r[rn]][rd := Fit(w, Insert(t.r[rn], imm, hw))] == t.r[rd := Fit(w, Insert(t.r[rn], imm, hw))];
    } else {
      ExecuteOne(sem, t, k);
      assert [] + [k] == [k];
    }
  }

  lemma WideFit(x: bv64)
    ensures Fit(true, x) == x
  {
  }

  lemma {:induction false} MovkDid(sem: Semantics, ra: Ra, s: State, g: Guest, op: Op)
    requires Agrees(ra, s, g.regs) && op.Movk? && OpOk(op)
    ensures CodeOk(Body(ra, op).code)
    ensures Did(Body(ra, op), s, Execute(sem, s, Body(ra, op).code), op, g, Step(sem, g, op))
  {
    hide Agrees, Def, Use, Execute, RaOk, Put, Fit, Insert, CodeOk, InsnOk;
    AgreesParts(ra, s, g.regs);
    var p := Use(ra, op.a);
    UseRight(sem, ra, s, g.regs, op.a);
    var s1 := Execute(sem, s, p.code);
    AgreesParts(p.ra, s1, g.regs);
    var d := Def(p.ra, op.dst);
    DefRight(sem, p.ra, s1, g.regs, op.dst);
    var t := Execute(sem, s1, d.code);
    var tail := (if d.h != p.h then [MovR(true, d.h, p.h)] else []) + [MovK(op.w, d.h, op.imm, op.hw)];
    MovkTail(sem, t, op.w, d.h, p.h, op.imm, op.hw);
    assert t.r[17 := t.r[17]] == t.r;
    DefThen(sem, p.ra, s1, g.regs, op.dst, tail, t.r[17], Fit(op.w, Insert(g.regs[op.a], op.imm, op.hw)), s.nz);
    ExecuteJoin(sem, s, p.code, d.code + tail);
    assert Body(ra, op).code == p.code + (d.code + tail);
  }

  lemma AluRuns(sem: Semantics, t: State, k: Kind, s: bool, w: bool, rd: nat, rn: nat, rm: nat, imm: bv64)
    requires StateOk(t) && rd < 31 && rn < 31 && rm < 31
    ensures InsnOk(AluR(k, s, w, rd, rn, rm)) && (Encodable(imm) ==> InsnOk(AluI(k, s, w, rd, rn, imm)))
    ensures
      var r := Compute(k, w, t.r[rn], t.r[rm], t.nz.c);
      Exec(sem, t, AluR(k, s, w, rd, rn, rm)) == t.(r := t.r[rd := r.value], nz := if s then r.nz else t.nz)
    ensures
      Encodable(imm) ==>
        var r := Compute(k, w, t.r[rn], imm, t.nz.c);
        Exec(sem, t, AluI(k, s, w, rd, rn, imm)) == t.(r := t.r[rd := r.value], nz := if s then r.nz else t.nz)
  {
    hide Compute, Encodable;
  }

  lemma {:induction false} AluImmTail(sem: Semantics, t: State, k: Kind, s: bool, w: bool, rd: nat, rn: nat,
      imm: bv64) returns (x: bv64)
    requires StateOk(t) && rd < 31 && rn < 31 && rd != 17 && rn != 17
    ensures
      var tail := AluImm(k, s, w, rd, rn, imm);
      var r := Compute(k, w, t.r[rn], imm, t.nz.c);
      CodeOk(tail) && Execute(sem, t, tail) == t.(r := t.r[17 := x][rd := r.value], nz := if s then r.nz else t.nz)
  {
    hide Compute, Execute, Imm64, Encodable, Exec, InsnOk, CodeOk;
    if (k == Add || k == Sub) && Encodable(imm) {
      x := t.r[17];
      assert t.r[17 := x] == t.r;
      AluRuns(sem, t, k, s, w, rd, rn, 17, imm);
      ExecuteOne(sem, t, AluI(k, s, w, rd, rn, imm));
    } else {
      x := imm;
      var i := AluR(k, s, w, rd, rn, 17);
      Imm64Loads(sem, t, 17, imm);
      var t1 := t.(r := t.r[17 := imm]);
      AluRuns(sem, t1, k, s, w, rd, rn, 17, 0);
      ExecuteOne(sem, t1, i);
      ExecuteJoin(sem, t, Imm64(17, imm), [i]);
    }
  }

  lemma {:induction false} AluImmCode(sem: Semantics, ra: Ra, s: State, regs: seq<bv64>, k: Kind, live: bool,
      w: bool, v: nat, a: nat, imm: bv64)
    requires Agrees(ra, s, regs) && a < VREGS && v < VREGS
    ensures
      var p := Use(ra, a);
      var d := Def(p.ra, v);
      var code := p.code + d.code + AluImm(k, live, w, d.h, p.h, imm);
      var r := Compute(k, w, regs[a], imm, s.nz.c);
      CodeOk(code) && Left(d, s, Execute(sem, s, code), Put(regs, v, r.value), if live then r.nz else s.nz)
  {
    hide Agrees, Def, Use, Execute, RaOk, Put, RegsOk, Compute, CodeOk, InsnOk, AluImm;
    AgreesParts(ra, s, regs);
    var p := Use(ra, a);
    UseRight(sem, ra, s, regs, a);
    var s1 := Execute(sem, s, p.code);
    AgreesParts(p.ra, s1, regs);
    var d := Def(p.ra, v);
    DefRight(sem, p.ra, s1, regs, v);
    var t := Execute(sem, s1, d.code);
    var r := Compute(k, w, regs[a], imm, s.nz.c);
    var x := AluImmTail(sem, t, k, live, w, d.h, p.h, imm);
    var tail := AluImm(k, live, w, d.h, p.h, imm);
    DefThen(sem, p.ra, s1, regs, v, tail, x, r.value, if live then r.nz else s.nz);
    ExecuteJoin(sem, s, p.code, d.code + tail);
    assert p.code + d.code + tail == p.code + (d.code + tail);
  }

  lemma {:induction false} AluImmDid(sem: Semantics, ra: Ra, s: State, g: Guest, op: Op)
    requires Agrees(ra, s, g.regs) && op.Alu? && op.rhs.Imm? && OpOk(op)
    ensures CodeOk(Body(ra, op).code)
    ensures Did(Body(ra, op), s, Execute(sem, s, Body(ra, op).code), op, g, Step(sem, g, op))
  {
    hide Agrees, Def, Use, Execute, RaOk, Put, Fit, Compute, CodeOk, InsnOk, AluImm;
    AgreesParts(ra, s, g.regs);
    var imm := Fit(op.w, op.rhs.i);
    CarryUnread(op.k, op.w, g.regs[op.a], imm, s.nz.c, g.nz.c);
    AluImmCode(sem, ra, s, g.regs, op.k, op.s && !op.dead, op.w, op.dst, op.a, imm);
  }

  // ---- Selects and conditional compares ----

  lemma {:induction false} ClearRight(sem: Semantics, ra: Ra, s: State, regs: seq<bv64>, v: nat, scratch: nat)
    requires Agrees(ra, s, regs) && (scratch == 16 || scratch == 17)
    ensures
      && CodeOk(Clear(v, scratch))
      && var s' := Execute(sem, s, Clear(v, scratch));
         Agrees(ra, s', regs) && StateOk(s) && s' == if v == ZERO then s.(r := s.r[scratch := 0]) else s
  {
    hide Agrees, Execute;
    AgreesParts(ra, s, regs);
    if v == ZERO {
      assert Insert(0, 0, 0) == 0;
      ExecuteOne(sem, s, Movz(scratch, 0, 0));
      ScratchAgrees(ra, s, regs, scratch, 0);
    } else {
      ExecuteNone(sem, s);
    }
  }

  /** Both operands of a select in place, zero operands in scratch registers. */
  lemma {:induction false} PairReady(sem: Semantics, ra: Ra, s: State, regs: seq<bv64>, a: nat, b: nat)
    requires Agrees(ra, s, regs) && a < VREGS && b < VREGS
    ensures
      var p := UseOrScratch(ra, a, 16);
      var q := UseOrScratch(p.ra, b, 17);
      var code := p.code + q.code + Clear(a, 16) + Clear(b, 17);
      && CodeOk(code)
      && var s' := Execute(sem, s, code);
         Agrees(q.ra, s', regs) && Elsewhere(s, s') && StateOk(s') && s'.r[p.h] == regs[a] && s'.r[q.h] == regs[b]
  {
    hide Agrees, Use, Execute, RaOk, CodeOk, InsnOk, Clear, Kept;
    AgreesParts(ra, s, regs);
    var p := UseOrScratch(ra, a, 16);
    var q := UseOrScratch(p.ra, b, 17);
    ExecuteNone(sem, s);
    NoCode();
    if a != ZERO && b != ZERO {
      UseTwo(sem, ra, s, regs, a, b);
    } else if a != ZERO {
      UseRight(sem, ra, s, regs, a);
      assert p.code + q.code == p.code;
    } else if b != ZERO {
      UseRight(sem, ra, s, regs, b);
      assert p.code + q.code == q.code;
    } else {
      assert p.code + q.code == [];
    }
    var s1 := Execute(sem, s, p.code + q.code);
    ClearRight(sem, q.ra, s1, regs, a, 16);
    var s2 := Execute(sem, s1, Clear(a, 16));
    ClearRight(sem, q.ra, s2, regs, b, 17);
    ExecuteJoin(sem, s, p.code + q.code, Clear(a, 16));
    ExecuteJoin(sem, s, p.code + q.code + Clear(a, 16), Clear(b, 17));
  }

  lemma NoCode()
    ensures CodeOk([])
  {
  }

  lemma SelectRuns(sem: Semantics, t: State, choice: Choice, w: bool, rd: nat, rn: nat, rm: nat, cc: nat)
    requires StateOk(t) && rd < 31 && rn < 31 && rm < 31
    ensures InsnOk(Select(choice, w, rd, rn, rm, cc))
    ensures Exec(sem, t, Select(choice, w, rd, rn, rm, cc)) ==
      t.(r := t.r[rd := Chosen(choice, w, Ir.Holds(cc, t.nz), t.r[rn], t.r[rm])])
  {
    hide Chosen, Ir.Holds;
  }

  lemma {:induction false} SelectYields(sem: Semantics, choice: Choice, w: bool, rd: nat, rn: nat, rm: nat, cc: nat,
      x: bv64, y: bv64, f: Nzcv)
    requires rd < 31 && rn < 31 && rm < 31
    ensures InsnOk(Select(choice, w, rd, rn, rm, cc))
    ensures
      Yields(sem, Select(choice, w, rd, rn, rm, cc), rn, x, rm, y, rm, y, f, rd,
        Chosen(choice, w, Ir.Holds(cc, f), x, y), f)
  {
    hide Chosen, Ir.Holds, Exec;
    forall t: State | StateOk(t) && t.r[rn] == x && t.r[rm] == y && t.nz == f
      ensures
        Exec(sem, t, Select(choice, w, rd, rn, rm, cc)) ==
          t.(r := t.r[rd := Chosen(choice, w, Ir.Holds(cc, f), x, y)], nz := f)
    {
      SelectRuns(sem, t, choice, w, rd, rn, rm, cc);
    }
  }

  lemma {:induction false} CselDid(sem: Semantics, ra: Ra, s: State, g: Guest, op: Op)
    requires Agrees(ra, s, g.regs) && op.Csel? && OpOk(op) && s.nz == g.nz
    ensures CodeOk(Body(ra, op).code)
    ensures Did(Body(ra, op), s, Execute(sem, s, Body(ra, op).code), op, g, Step(sem, g, op))
  {
    hide Agrees, Def, UseOrScratch, Execute, RaOk, Put, CodeOk, InsnOk, Yields, Chosen, Ir.Holds, Clear;
    AgreesParts(ra, s, g.regs);
    var p := UseOrScratch(ra, op.a, 16);
    var q := UseOrScratch(p.ra, op.b, 17);
    var d := Def(q.ra, op.dst);
    var code := p.code + q.code + Clear(op.a, 16) + Clear(op.b, 17);
    PairReady(sem, ra, s, g.regs, op.a, op.b);
    var s1 := Execute(sem, s, code);
    var x, y := g.regs[op.a], g.regs[op.b];
    var i := Select(op.choice, op.w, d.h, p.h, q.h, op.cc);
    SelectYields(sem, op.choice, op.w, d.h, p.h, q.h, op.cc, x, y, s.nz);
    DefThenOne(sem, q.ra, s1, g.regs, op.dst, i, p.h, q.h, q.h, Chosen(op.choice, op.w, Ir.Holds(op.cc, s.nz), x, y),
      s.nz);
    ExecuteJoin(sem, s, code, d.code + [i]);
    assert Body(ra, op).code == code + (d.code + [i]);
  }

  lemma CompareRuns(sem: Semantics, t: State, negated: bool, w: bool, rn: nat, rm: nat, imm: bv64, otherwise: Nzcv,
      cc: nat)
    requires StateOk(t) && rn < 31 && rm < 31
    ensures InsnOk(CompareR(negated, w, rn, rm, otherwise, cc)) && InsnOk(CompareI(negated, w, rn, imm, otherwise, cc))
    ensures Exec(sem, t, CompareR(negated, w, rn, rm, otherwise, cc)) ==
      t.(nz := Compared(negated, w, Ir.Holds(cc, t.nz), t.r[rn], t.r[rm], otherwise))
    ensures Exec(sem, t, CompareI(negated, w, rn, imm, otherwise, cc)) ==
      t.(nz := Compared(negated, w, Ir.Holds(cc, t.nz), t.r[rn], imm, otherwise))
  {
    hide Compared, Ir.Holds;
  }

  lemma {:induction false} CompareThen(sem: Semantics, s: State, regs: seq<bv64>, g: Got, first: seq<Insn>, i: Insn,
      nz: Nzcv)
    requires StateOk(s) && CodeOk(first) && InsnOk(i)
    requires
      var s1 := Execute(sem, s, first);
      Agrees(g.ra, s1, regs) && Elsewhere(s, s1) && Exec(sem, s1, i) == s1.(nz := nz)
    ensures CodeOk(first + [i]) && Left(g, s, Execute(sem, s, first + [i]), regs, nz)
  {
    hide Agrees, Execute, Exec, CodeOk, InsnOk;
    var s1 := Execute(sem, s, first);
    ExecuteOne(sem, s1, i);
    ExecuteJoin(sem, s, first, [i]);
    AgreesElsewhere(g.ra, s1, s1.(nz := nz), regs);
  }

  lemma {:induction false} CcmpImmDid(sem: Semantics, ra: Ra, s: State, g: Guest, op: Op)
    requires Agrees(ra, s, g.regs) && op.Ccmp? && op.rhs.Imm? && OpOk(op) && s.nz == g.nz
    ensures CodeOk(Body(ra, op).code)
    ensures Did(Body(ra, op), s, Execute(sem, s, Body(ra, op).code), op, g, Step(sem, g, op))
  {
    hide Agrees, Use, Execute, Exec, RaOk, CodeOk, InsnOk, Compared, Ir.Holds, Low5, Fit;
    AgreesParts(ra, s, g.regs);
    var p := Use(ra, op.a);
    SmallImmediate(op.w, op.rhs.i);
    UseRight(sem, ra, s, g.regs, op.a);
    var s1 := Execute(sem, s, p.code);
    AgreesParts(p.ra, s1, g.regs);
    var i := CompareI(op.negated, op.w, p.h, Low5(op.rhs.i), op.otherwise, op.cc);
    CompareRuns(sem, s1, op.negated, op.w, p.h, p.h, Low5(op.rhs.i), op.otherwise, op.cc);
    CompareThen(sem, s, g.regs, p, p.code, i, Step(sem, g, op).nz);
  }

  lemma {:induction false} CcmpRegDid(sem: Semantics, ra: Ra, s: State, g: Guest, op: Op)
    requires Agrees(ra, s, g.regs) && op.Ccmp? && op.rhs.Reg? && OpOk(op) && s.nz == g.nz
    ensures CodeOk(Body(ra, op).code)
    ensures Did(Body(ra, op), s, Execute(sem, s, Body(ra, op).code), op, g, Step(sem, g, op))
  {
    hide Agrees, Use, Execute, Exec, RaOk, CodeOk, InsnOk, Compared, Ir.Holds, Kept;
    AgreesParts(ra, s, g.regs);
    var p := Use(ra, op.a);
    var q := Use(p.ra, op.rhs.b);
    UseTwo(sem, ra, s, g.regs, op.a, op.rhs.b);
    var s1 := Execute(sem, s, p.code + q.code);
    var i := CompareR(op.negated, op.w, p.h, q.h, op.otherwise, op.cc);
    CompareRuns(sem, s1, op.negated, op.w, p.h, q.h, 0, op.otherwise, op.cc);
    CompareThen(sem, s, g.regs, q, p.code + q.code, i, Step(sem, g, op).nz);
  }

  lemma SmallImmediate(w: bool, i: bv64)
    requires Fit(w, i) & 0x1f == i
    ensures Low5(i) == i && Fit(w, i) == i
  {
  }

  /** Every operation's registers part does what the operation means. */
  lemma {:induction false} BodyDid(sem: Semantics, ra: Ra, s: State, g: Guest, op: Op)
    requires Agrees(ra, s, g.regs) && OpOk(op) && (Reads(op) ==> s.nz == g.nz)
    ensures CodeOk(Body(ra, op).code)
    ensures Did(Body(ra, op), s, Execute(sem, s, Body(ra, op).code), op, g, Step(sem, g, op))
  {
    hide Agrees, Body, Execute, Step, CodeOk, Did, OpOk, RaOk, RegsOk, StateOk;
    AgreesParts(ra, s, g.regs);
    match op
    case Nop => NopDid(sem, ra, s, g);
    case Movi(_, _, _) => MoviDid(sem, ra, s, g, op);
    case Mov(_, _, _) => MovDid(sem, ra, s, g, op);
    case Movk(_, _, _, _, _) => MovkDid(sem, ra, s, g, op);
    case Alu(_, _, _, _, _, rhs, _) =>
      if rhs.Reg? {
        AluRegDid(sem, ra, s, g, op);
      } else {
        AluImmDid(sem, ra, s, g, op);
      }
    case Host1(_, _, _, _) => HostDid(sem, ra, s, g, op);
    case Host2(_, _, _, _, _) => HostDid(sem, ra, s, g, op);
    case Host3(_, _, _, _, _, _) => Host3Did(sem, ra, s, g, op);
    case Csel(_, _, _, _, _, _) => CselDid(sem, ra, s, g, op);
    case Ccmp(_, _, _, rhs, _, _) =>
      if rhs.Reg? {
        CcmpRegDid(sem, ra, s, g, op);
      } else {
        CcmpImmDid(sem, ra, s, g, op);
      }
  }

  lemma NopDid(sem: Semantics, ra: Ra, s: State, g: Guest)
    requires Agrees(ra, s, g.regs)
    ensures CodeOk(Body(ra, Nop).code)
    ensures Did(Body(ra, Nop), s, Execute(sem, s, Body(ra, Nop).code), Nop, g, Step(sem, g, Nop))
  {
    hide Agrees;
    AgreesParts(ra, s, g.regs);
  }
}
