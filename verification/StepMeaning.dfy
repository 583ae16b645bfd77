/**
 The operations and block endings as the guest sees them: which register changes,
 to which number, what the flags then say, and which way a branch goes.
 */
module StepMeaning {
  import opened Pow2
  import opened Binary
  import opened Ir
  import opened Arithmetic
  import opened OpMeaning
  import MemoryBlocks

  /** At most one register and the flags differ; writes to the zero register are lost. */
  ghost predicate Only(g: Guest, h: Guest, dst: nat) {
    && RegsOk(g.regs) && RegsOk(h.regs) && h.pc == g.pc && h.icount == g.icount
    && forall r :: 0 <= r < VREGS && r != dst ==> h.regs[r] == g.regs[r]
  }

  predicate Plain(k: Kind) {
    k == Add || k == Sub || k == Adc || k == Sbc
  }

  /** The unbounded results of an addition or subtraction, from the unsigned and the signed readings. */
  function Exact(k: Kind, a: int, b: int, c: bool): int
    requires Plain(k)
  {
    match k
    case Add => a + b
    case Adc => a + b + One(c)
    case Sub => a - b
    case Sbc => a - b - One(!c)
  }

  lemma {:induction false} PlainMeans(k: Kind, w: bool, a: bv64, b: bv64, c: bool)
    requires Plain(k)
    ensures
      var r := Compute(k, w, a, b, c);
      var u := Exact(k, Unsigned(w, a), Unsigned(w, b), c);
      && Adds(w, r, u, Exact(k, Signed(w, a), Signed(w, b), c))
      && (r.nz.c <==> if k == Add || k == Adc then u >= Modulus(w) else u >= 0)
  {
    hide Compute, Unsigned, Signed, Adds, Modulus;
    if k == Add || k == Adc {
      AddMeans(w, a, b, c, k);
    } else {
      SubMeans(w, a, b, c, k);
    }
  }

  /** Additions and subtractions, with or without flags. */
  lemma {:induction false} ArithmeticStep(sem: Semantics, g: Guest, op: Op)
    requires RegsOk(g.regs) && OpOk(op) && op.Alu? && Plain(op.k)
    ensures
      var h, a, b := Step(sem, g, op), g.regs[op.a], Value(g.regs, op.rhs, op.w);
      var m, u := Modulus(op.w), Exact(op.k, Unsigned(op.w, a), Unsigned(op.w, b), g.nz.c);
      && Only(g, h, op.dst)
      && (op.dst != ZERO ==> Number(h.regs[op.dst]) == u % m)
      && (!op.s ==> h.nz == g.nz)
      && (op.s ==>
            && (h.nz.n <==> 2 * (u % m) >= m) && (h.nz.z <==> u % m == 0)
            && (h.nz.c <==> if op.k == Add || op.k == Adc then u >= m else u >= 0)
            && (h.nz.v <==> !InSignedRange(op.w, Exact(op.k, Signed(op.w, a), Signed(op.w, b), g.nz.c))))
  {
    hide Compute, Number, Exact, InSignedRange, Value;
    var a, b := g.regs[op.a], Value(g.regs, op.rhs, op.w);
    PlainMeans(op.k, op.w, a, b, g.nz.c);
    var r := Compute(op.k, op.w, a, b, g.nz.c);
    NegativeIs(op.w, r.value, Exact(op.k, Unsigned(op.w, a), Unsigned(op.w, b), g.nz.c));
  }

  lemma NegativeIs(w: bool, r: bv64, u: int)
    requires Number(r) == u % Modulus(w)
    ensures Signed(w, r) < 0 <==> 2 * (u % Modulus(w)) >= Modulus(w)
  {
    hide Number;
    Wrapped(Number(r), Modulus(w));
  }

  /** Logical operations, bit by bit. */
  lemma {:induction false} LogicStep(sem: Semantics, g: Guest, op: Op, i: nat)
    requires RegsOk(g.regs) && OpOk(op) && op.Alu? && Logical(op.k)
    ensures
      var h, a, b := Step(sem, g, op), g.regs[op.a], Value(g.regs, op.rhs, op.w);
      && Only(g, h, op.dst)
      && (op.dst != ZERO ==>
            (BitIs(h.regs[op.dst], i) <==> i < Width(op.w) && LogicBit(op.k, BitIs(a, i), BitIs(b, i))))
      && (op.s ==> !h.nz.c && !h.nz.v) && (!op.s ==> h.nz == g.nz)
  {
    hide Compute, BitIs, Value, TopBit;
    LogicMeans(op.k, op.w, g.regs[op.a], Value(g.regs, op.rhs, op.w), g.nz.c, i);
  }

  /** Moves, of an immediate, of a register, and of one 16-bit field. */
  lemma {:induction false} MoveStep(sem: Semantics, g: Guest, op: Op)
    requires RegsOk(g.regs) && OpOk(op) && (op.Movi? || op.Mov? || op.Movk?) && op.dst != ZERO
    ensures
      var h := Step(sem, g, op);
      && Only(g, h, op.dst) && h.nz == g.nz
      && Number(h.regs[op.dst]) ==
         if op.Movi? then Unsigned(op.w, op.imm)
         else if op.Mov? then Unsigned(op.w, g.regs[op.a])
         else Unsigned(op.w, Insert(g.regs[op.a], op.imm, op.hw))
  {
    hide Number, Insert, Fit, Fits, Unsigned;
    if op.Movi? {
      FitIs(op.w, op.imm);
    } else if op.Mov? {
      FitIs(op.w, g.regs[op.a]);
    } else {
      FitIs(op.w, Insert(g.regs[op.a], op.imm, op.hw));
    }
  }

  // ---- Compare, then decide ----

  lemma {:induction false} CompareDecides(sem: Semantics, g: Guest, op: Op, cc: nat)
    requires RegsOk(g.regs) && OpOk(op) && op.Alu? && op.k == Sub && op.s
    ensures
      Holds(cc, Step(sem, g, op).nz) <==> Decides(cc, op.w, g.regs[op.a], Value(g.regs, op.rhs, op.w))
  {
    hide Compute, Holds, Decides, Value;
    ConditionMeans(op.w, g.regs[op.a], Value(g.regs, op.rhs, op.w), g.nz.c, cc);
  }

  /** A compare and a conditional branch go where the comparison says. */
  lemma {:induction false} CompareBranch(sem: Semantics, g: Guest, op: Op, cc: nat, taken: Exit, fall: Exit)
    requires RegsOk(g.regs) && OpOk(op) && op.Alu? && op.k == Sub && op.s
    ensures
      var h := Finish(Step(sem, g, op), Branch(Cond(cc), taken, fall));
      var x := if Decides(cc, op.w, g.regs[op.a], Value(g.regs, op.rhs, op.w)) then taken else fall;
      h.pc == x.pc && Number(h.icount) == (Number(g.icount) + Number(x.icnt)) % Modulus(true)
  {
    hide Holds, Decides, Value, Number, Modulus, Plus, Compute;
    CompareDecides(sem, g, op, cc);
    WordPlus(g.icount, taken.icnt);
    WordPlus(g.icount, fall.icnt);
  }

  /** A select reads either source, as its condition on the flags says. */
  lemma {:induction false} SelectStep(sem: Semantics, g: Guest, op: Op)
    requires RegsOk(g.regs) && OpOk(op) && op.Csel? && op.dst != ZERO
    ensures
      var h, m := Step(sem, g, op), Modulus(op.w);
      var ua, ub := Unsigned(op.w, g.regs[op.a]), Unsigned(op.w, g.regs[op.b]);
      && Only(g, h, op.dst) && h.nz == g.nz
      && Number(h.regs[op.dst]) ==
         if Holds(op.cc, g.nz) then ua
         else
           match op.choice
           case Sel => ub
           case Inc => (ub + 1) % m
           case Inv => m - 1 - ub
           case Neg => (m - ub) % m
  {
    hide Holds, Number, Unsigned, Chosen, Modulus;
    ChosenMeans(op.choice, op.w, Holds(op.cc, g.nz), g.regs[op.a], g.regs[op.b]);
  }

  /** A conditional compare compares when its condition holds, and else sets the flags given. */
  lemma {:induction false} ConditionalCompareStep(sem: Semantics, g: Guest, op: Op, cc: nat)
    requires RegsOk(g.regs) && OpOk(op) && op.Ccmp?
    ensures
      var h, a, b := Step(sem, g, op), g.regs[op.a], Value(g.regs, op.rhs, op.w);
      && Only(g, h, ZERO)
      && (!Holds(op.cc, g.nz) ==> h.nz == op.otherwise)
      && (Holds(op.cc, g.nz) && !op.negated ==> (Holds(cc, h.nz) <==> Decides(cc, op.w, a, b)))
      && (Holds(op.cc, g.nz) && op.negated ==> h.nz == Compute(Add, op.w, a, b, false).nz)
  {
    hide Compute, Holds, Decides, Value;
    ConditionMeans(op.w, g.regs[op.a], Value(g.regs, op.rhs, op.w), false, cc);
  }

  /** Compare-with-zero and bit-test branches, and the indirect exit. */
  lemma {:induction false} OtherEndings(g: Guest, end: End)
    requires RegsOk(g.regs) && EndOk(end)
    ensures
      end.Branch? && end.test.Zero? ==>
        var zero := Unsigned(end.test.w, g.regs[end.test.a]) == 0;
        Finish(g, end) == Leave(g, if zero == end.test.nonzero then end.fall else end.taken)
    ensures
      end.Branch? && end.test.BitTest? ==>
        var bit := end.test.bit < 64 && Number(g.regs[end.test.a]) / P2(end.test.bit) % 2 == 1;
        Finish(g, end) == Leave(g, if bit == end.test.on then end.taken else end.fall)
    ensures
      end.Indirect? ==>
        && Finish(g, end).pc == g.regs[end.a]
        && Number(Finish(g, end).icount) == (Number(g.icount) + Number(end.icnt)) % Modulus(true)
  {
    hide BitIs, Number, Fit, Unsigned, P2, Leave, Holds, Fits;
    if end.Branch? && end.test.Zero? {
      FitIs(end.test.w, g.regs[end.test.a]);
      NumberZero(Fit(end.test.w, g.regs[end.test.a]));
    } else if end.Branch? && end.test.BitTest? {
      BitMeans(g.regs[end.test.a], end.test.bit);
    } else if end.Indirect? {
      LeaveMeans(g, Exit(g.regs[end.a], end.icnt));
    }
  }

  lemma {:induction false} LeaveMeans(g: Guest, x: Exit)
    ensures
      var h := Leave(g, x);
      && h.pc == x.pc && h.regs == g.regs && h.nz == g.nz
      && Number(h.icount) == (Number(g.icount) + Number(x.icnt)) % Modulus(true)
  {
    hide Number, Plus;
    WordPlus(g.icount, x.icnt);
  }

  /** A block is turned away for an interrupt, or when the count has reached the deadline. */
  lemma {:induction false} RefusalMeans(icount: bv64, interrupt: bool, deadline: bv64)
    ensures MemoryBlocks.Refuses(icount, interrupt, deadline) <==> interrupt || Number(icount) >= Number(deadline)
  {
    hide Number;
    NumberOrder(deadline, icount);
  }
}
