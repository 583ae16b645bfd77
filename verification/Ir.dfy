/**
 The integer part of the code generator's intermediate representation: registers,
 flags, operations and their meaning.
 */
module Ir {
  import opened Binary

  /** Virtual registers: 0..30 guest X, 31 SP, 32..34 temporaries, 35 zero. */
  const VREGS: nat := 36
  const ZERO: nat := 35

  datatype Nzcv = Nzcv(n: bool, z: bool, c: bool, v: bool)

  datatype Kind = Add | Sub | And | Bic | Orr | Orn | Eor | Eon | Adc | Sbc

  datatype Choice = Sel | Inc | Inv | Neg

  datatype Operand = Reg(b: nat) | Imm(i: bv64)

  /** Operations that fall through; w is 64-bit, s defines NZCV, dead says nothing reads that definition. */
  datatype Op =
    | Nop
    | Movi(w: bool, dst: nat, imm: bv64)
    | Mov(w: bool, dst: nat, a: nat)
    | Movk(w: bool, dst: nat, a: nat, imm: bv64, hw: nat)
    | Alu(k: Kind, s: bool, w: bool, dst: nat, a: nat, rhs: Operand, dead: bool)
    | Host1(code: nat, w: bool, dst: nat, x: nat)
    | Host2(code: nat, w: bool, dst: nat, x: nat, y: nat)
    | Host3(code: nat, w: bool, dst: nat, x: nat, y: nat, z: nat)
    | Csel(choice: Choice, w: bool, dst: nat, a: nat, b: nat, cc: nat)
    | Ccmp(negated: bool, w: bool, a: nat, rhs: Operand, otherwise: Nzcv, cc: nat)

  /** How a block ends: successor addresses with the instructions retired on the way. */
  datatype Exit = Exit(pc: bv64, icnt: bv64)
  datatype Test = Cond(cc: nat) | Zero(nonzero: bool, w: bool, a: nat) | BitTest(on: bool, a: nat, bit: nat)
  datatype End =
    | Jmp(next: Exit)
    | Branch(test: Test, taken: Exit, fall: Exit)
    | Indirect(a: nat, icnt: bv64)

  datatype Block = Block(ops: seq<Op>, end: End)

  datatype Guest = Guest(regs: seq<bv64>, nz: Nzcv, pc: bv64, icount: bv64)

  // ---- Arithmetic ----

  function Fit(w: bool, x: bv64): bv64 {
    if w then x else x & 0xffff_ffff
  }

  datatype Result = Result(value: bv64, nz: Nzcv)

  /** The sum with its carry in, in a word that holds it. */
  function Total(x: bv64, y: bv64, carry: bool): bv66 {
    var t := Summed(Widened(x), Widened(y));
    if carry then Succ(t) else t
  }

  /** The sign bit of a register of that width. */
  predicate TopBit(w: bool, x: bv64) {
    if w then x >> 63 == 1 else x >> 31 == 1
  }

  /** Operands of one sign and a result of the other. */
  predicate Overflows(w: bool, x: bv64, y: bv64, r: bv64) {
    TopBit(w, (x ^ r) & (y ^ r))
  }

  function Sum(w: bool, x: bv64, y: bv64, carry: bool): Result {
    var t := Total(x, y, carry);
    var r := if w then LowWord(t) else LowHalf(t);
    Result(r, Nzcv(TopBit(w, r), r == 0, if w then CarryWord(t) else CarryHalf(t), Overflows(w, x, y, r)))
  }

  function Logic(w: bool, r: bv64): Result {
    Result(r, Nzcv(TopBit(w, r), r == 0, false, false))
  }

  function Plus(a: bv64, b: bv64): bv64 {
    a + b
  }

  function Conj(x: bv64, y: bv64): bv64 {
    x & y
  }

  function Disj(x: bv64, y: bv64): bv64 {
    x | y
  }

  function Excl(x: bv64, y: bv64): bv64 {
    x ^ y
  }

  function Flip(y: bv64): bv64 {
    !y
  }

  /** The value and flags of an operation on operands of that width. */
  function Compute(k: Kind, w: bool, a: bv64, b: bv64, c: bool): Result {
    var x, y := Fit(w, a), Fit(w, b);
    match k
    case Add => Sum(w, x, y, false)
    case Sub => Sum(w, x, Fit(w, Flip(y)), true)
    case Adc => Sum(w, x, y, c)
    case Sbc => Sum(w, x, Fit(w, Flip(y)), c)
    case And => Logic(w, Conj(x, y))
    case Bic => Logic(w, Conj(x, Fit(w, Flip(y))))
    case Orr => Logic(w, Disj(x, y))
    case Orn => Logic(w, Disj(x, Fit(w, Flip(y))))
    case Eor => Logic(w, Excl(x, y))
    case Eon => Logic(w, Excl(x, Fit(w, Flip(y))))
  }

  /** A guest condition code. */
  predicate Holds(cc: nat, f: Nzcv) {
    var base :=
      match (cc / 2) % 8
      case 0 => f.z
      case 1 => f.c
      case 2 => f.n
      case 3 => f.v
      case 4 => f.c && !f.z
      case 5 => f.n == f.v
      case 6 => f.n == f.v && !f.z
      case _ => true;
    if cc % 2 == 1 && cc % 16 != 15 then !base else base
  }

  function Chosen(choice: Choice, w: bool, yes: bool, a: bv64, b: bv64): bv64 {
    if yes then Fit(w, a)
    else
      match choice
      case Sel => Fit(w, b)
      case Inc => Fit(w, Plus(b, 1))
      case Inv => Fit(w, Flip(b))
      case Neg => Fit(w, Plus(Flip(b), 1))
  }

  function Compared(negated: bool, w: bool, yes: bool, a: bv64, b: bv64, otherwise: Nzcv): Nzcv {
    if yes then Compute(if negated then Add else Sub, w, a, b, false).nz else otherwise
  }

  function Set0(x: bv64, imm: bv64): bv64 {
    (x & 0xffff_ffff_ffff_0000) | (imm & 0xffff)
  }

  function Set1(x: bv64, imm: bv64): bv64 {
    (x & 0xffff_ffff_0000_ffff) | ((imm & 0xffff) << 16)
  }

  function Set2(x: bv64, imm: bv64): bv64 {
    (x & 0xffff_0000_ffff_ffff) | ((imm & 0xffff) << 32)
  }

  function Set3(x: bv64, imm: bv64): bv64 {
    (x & 0x0000_ffff_ffff_ffff) | ((imm & 0xffff) << 48)
  }

  /** Replace one 16-bit field. */
  function Insert(x: bv64, imm: bv64, hw: nat): bv64 {
    if hw == 0 then Set0(x, imm) else if hw == 1 then Set1(x, imm) else if hw == 2 then Set2(x, imm) else Set3(x, imm)
  }

  // ---- Meaning ----

  /** What the remaining one-instruction operations compute (shifts, multiplies, divides, bit reversals). */
  type Semantics = (nat, bool, bv64, bv64, bv64) -> bv64

  predicate IsVreg(v: nat) {
    v < VREGS
  }

  predicate OperandOk(r: Operand) {
    r.Reg? ==> IsVreg(r.b)
  }

  predicate HasImmediate(k: Kind) {
    k == Add || k == Sub || k == And || k == Orr || k == Eor
  }

  predicate OpOk(op: Op) {
    match op
    case Nop => true
    case Movi(_, dst, _) => IsVreg(dst)
    case Mov(_, dst, a) => IsVreg(dst) && IsVreg(a)
    case Movk(w, dst, a, _, hw) => IsVreg(dst) && IsVreg(a) && hw < 4
    case Alu(k, s, w, dst, a, rhs, dead) =>
      IsVreg(dst) && IsVreg(a) && OperandOk(rhs) && (dead ==> s) && (rhs.Imm? ==> HasImmediate(k))
    case Host1(_, _, dst, x) => IsVreg(dst) && IsVreg(x)
    case Host2(_, _, dst, x, y) => IsVreg(dst) && IsVreg(x) && IsVreg(y)
    case Host3(_, _, dst, x, y, z) => IsVreg(dst) && IsVreg(x) && IsVreg(y) && IsVreg(z)
    case Csel(_, _, dst, a, b, _) => IsVreg(dst) && IsVreg(a) && IsVreg(b)
    case Ccmp(_, w, a, rhs, _, _) => IsVreg(a) && OperandOk(rhs) && (rhs.Imm? ==> Fit(w, rhs.i) & 0x1f == rhs.i)
  }

  predicate EndOk(end: End) {
    match end
    case Jmp(_) => true
    case Branch(t, _, _) => t.Cond? || IsVreg(t.a)
    case Indirect(a, _) => IsVreg(a)
  }

  predicate RegsOk(regs: seq<bv64>) {
    |regs| == VREGS && regs[ZERO] == 0
  }

  /** Writes to the zero register are discarded. */
  function Put(regs: seq<bv64>, v: nat, x: bv64): (r: seq<bv64>)
    requires RegsOk(regs) && IsVreg(v)
    ensures RegsOk(r)
  {
    if v == ZERO then regs else regs[v := x]
  }

  function Value(regs: seq<bv64>, r: Operand, w: bool): bv64
    requires RegsOk(regs) && OperandOk(r)
  {
    if r.Reg? then regs[r.b] else Fit(w, r.i)
  }

  function Step(sem: Semantics, g: Guest, op: Op): (r: Guest)
    requires RegsOk(g.regs) && OpOk(op)
    ensures RegsOk(r.regs)
  {
    match op
    case Nop => g
    case Movi(w, dst, imm) => g.(regs := Put(g.regs, dst, Fit(w, imm)))
    case Mov(w, dst, a) => g.(regs := Put(g.regs, dst, Fit(w, g.regs[a])))
    case Movk(w, dst, a, imm, hw) => g.(regs := Put(g.regs, dst, Fit(w, Insert(g.regs[a], imm, hw))))
    case Alu(k, s, w, dst, a, rhs, _) =>
      var r := Compute(k, w, g.regs[a], Value(g.regs, rhs, w), g.nz.c);
      g.(regs := Put(g.regs, dst, r.value), nz := if s then r.nz else g.nz)
    case Host1(code, w, dst, x) => g.(regs := Put(g.regs, dst, sem(code, w, g.regs[x], 0, 0)))
    case Host2(code, w, dst, x, y) => g.(regs := Put(g.regs, dst, sem(code, w, g.regs[x], g.regs[y], 0)))
    case Host3(code, w, dst, x, y, z) => g.(regs := Put(g.regs, dst, sem(code, w, g.regs[x], g.regs[y], g.regs[z])))
    case Csel(choice, w, dst, a, b, cc) =>
      g.(regs := Put(g.regs, dst, Chosen(choice, w, Holds(cc, g.nz), g.regs[a], g.regs[b])))
    case Ccmp(negated, w, a, rhs, otherwise, cc) =>
      g.(nz := Compared(negated, w, Holds(cc, g.nz), g.regs[a], Value(g.regs, rhs, w), otherwise))
  }

  predicate BitIs(x: bv64, bit: nat) {
    bit < 64 && Odd(RightBy(Widened(x), bit))
  }

  predicate Passes(t: Test, value: bv64, f: Nzcv) {
    match t
    case Cond(cc) => Holds(cc, f)
    case Zero(nonzero, w, _) => (Fit(w, value) != 0) == nonzero
    case BitTest(on, _, bit) => BitIs(value, bit) == on
  }

  function Tested(g: Guest, t: Test): bv64
    requires RegsOk(g.regs) && (t.Cond? || IsVreg(t.a))
  {
    if t.Cond? then 0 else g.regs[t.a]
  }

  function Leave(g: Guest, x: Exit): Guest {
    g.(pc := x.pc, icount := Plus(g.icount, x.icnt))
  }

  function Finish(g: Guest, end: End): Guest
    requires RegsOk(g.regs) && EndOk(end)
  {
    match end
    case Jmp(next) => Leave(g, next)
    case Branch(t, taken, fall) => Leave(g, if Passes(t, Tested(g, t), g.nz) then taken else fall)
    case Indirect(a, icnt) => Leave(g, Exit(g.regs[a], icnt))
  }

  function Run(sem: Semantics, g: Guest, ops: seq<Op>): (r: Guest)
    requires RegsOk(g.regs) && forall i :: 0 <= i < |ops| ==> OpOk(ops[i])
    ensures RegsOk(r.regs)
    decreases |ops|
  {
    if ops == [] then g else Run(sem, Step(sem, g, ops[0]), ops[1..])
  }
}
