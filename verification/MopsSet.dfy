/** SETP, SETM, SETE: memset as three restartable instructions. */
module MopsSet {
  import opened Words
  import opened MopsMemory
  import opened MopsCopy

  /** Memory, the address and size registers, and NZCV; the value register never changes. */
  datatype SetCpu = SetCpu(mem: Memory, d: U64, n: U64, flags: Nzcv) {
    predicate Valid() {
      |mem| == SPACE
    }
  }

  // ---- one execution of each instruction ----

  function SetPrologue(c: SetCpu, v: Byte, to: U64, size: U64, left: nat, sched: seq<Outcome>): (r: (SetCpu, Status))
    requires c.Valid() && left <= size
    ensures r.0.Valid()
    decreases left
  {
    if left == 0 then (c.(d := Plus(to, size), n := Minus(size), flags := CLEAR), Done)
    else
      var c1 := c.(d := to, n := size);
      if sched == [] || sched[0] == Fault then (c1, Faulted)
      else
        var k := Covered(sched[0], SetLimit(to, left));
        SetPrologue(c1.(mem := Fill(c1.mem, Va(to), k, v)), v, Plus(to, k), size - k, left - k, sched[1..])
  }

  /** `left` is what the stage still owes; a step may run past it, up to the end of its page. */
  function SetTail(c: SetCpu, v: Byte, to: U64, size: U64, left: nat, sched: seq<Outcome>): (r: (SetCpu, Status))
    requires c.Valid() && left <= size
    ensures r.0.Valid()
    decreases left
  {
    if left == 0 then (c, Done)
    else if sched == [] || sched[0] == Fault then (c, Faulted)
    else
      var k := Covered(sched[0], SetLimit(to, size));
      SetTail(c.(mem := Fill(c.mem, Va(to), k, v), n := Minus(size - k)), v, Plus(to, k), size - k,
              if k >= left then 0 else left - k, sched[1..])
  }

  function SetExec(stage: Stage, c: SetCpu, v: Byte, sched: seq<Outcome>): (r: (SetCpu, Status))
    requires c.Valid() && stage != End
    ensures r.0.Valid()
  {
    if stage == Prologue then
      var size := Cap(false, c.n);
      SetPrologue(c, v, c.d, size, SetLimit(c.d, size), sched)
    else if c.n == 0 then (c, Done)
    else if c.flags.c then (c, Mismatch)
    else
      var size := Minus(c.n);
      if stage == Epilogue && size >= PAGE then (c, Mismatch)
      else SetTail(c, v, Plus(c.d, c.n), size, if stage == Main then size / PAGE * PAGE else size, sched)
  }

  function SetRun(stage: Stage, c: SetCpu, v: Byte, scheds: seq<seq<Outcome>>): (r: (Stage, SetCpu, bool))
    requires c.Valid()
    ensures r.1.Valid()
    decreases |scheds|
  {
    if scheds == [] || stage == End then (stage, c, false)
    else
      var (c1, status) := SetExec(stage, c, v, scheds[0]);
      match status
      case Done => SetRun(Next(stage), c1, v, scheds[1..])
      case Faulted => SetRun(stage, c1, v, scheds[1..])
      case Mismatch => (stage, c1, true)
  }

  // ---- what holds between executions ----

  /** Fill n bytes from d with v. */
  datatype SetTask = SetTask(m0: Memory, d: nat, n: nat, v: Byte) {
    predicate Valid() {
      |m0| == SPACE && d + n <= SPACE
    }
  }

  ghost predicate Filled(t: SetTask, c: SetCpu, lo: nat)
    requires t.Valid()
  {
    lo <= t.n && c.mem == Fill(t.m0, t.d, lo, t.v)
  }

  ghost predicate SetInvariant(t: SetTask, stage: Stage, c: SetCpu, lo: nat)
    requires t.Valid()
  {
    && c.Valid() && Filled(t, c, lo)
    && match stage
       case Prologue => Cap(false, c.n) == t.n - lo && (lo < t.n ==> Va(c.d) == t.d + lo)
       case Main => SetStarted(t, c, lo)
       case Epilogue => SetStarted(t, c, lo) && t.n - lo < PAGE
       case End => lo == t.n
  }

  ghost predicate SetStarted(t: SetTask, c: SetCpu, lo: nat)
    requires t.Valid()
  {
    && !c.flags.c && lo <= t.n && t.n - lo <= CAP_COPY && c.n == Minus(t.n - lo)
    && (lo < t.n ==> Va(Plus(c.d, c.n)) == t.d + lo)
  }

  lemma FillFurther(m: Memory, d: nat, lo: nat, k: nat, v: Byte)
    requires d + lo + k <= |m|
    ensures Fill(Fill(m, d, lo, v), d + lo, k, v) == Fill(m, d, lo + k, v)
  {
    var a, b := Fill(Fill(m, d, lo, v), d + lo, k, v), Fill(m, d, lo + k, v);
    forall i | 0 <= i < |m|
      ensures a[i] == b[i]
    {
    }
  }

  lemma {:induction false} SetPrologueKeeps(t: SetTask, c: SetCpu, to: U64, size: U64, left: nat,
      sched: seq<Outcome>, lo: nat)
    returns (x: nat)
    requires t.Valid() && c.Valid() && left <= size
    requires Filled(t, c, lo) && size == t.n - lo <= CAP_COPY && (lo < t.n ==> Va(to) == t.d + lo)
    ensures lo <= x <= t.n
    ensures
      var r := SetPrologue(c, t.v, to, size, left, sched);
      match r.1
      case Done => SetInvariant(t, Main, r.0, x)
      case Faulted => SetInvariant(t, Prologue, r.0, x)
      case Mismatch => false
    ensures left > 0 && Progresses(sched) ==> x > lo
    decreases left
  {
    hide Va, Plus, Minus, Fill, PageLimit;
    x := lo;
    if left == 0 {
      if size > 0 {
        PlusBack(to, size);
      }
    } else if Progresses(sched) {
      var k := Covered(sched[0], SetLimit(to, left));
      FillFurther(t.m0, t.d, lo, k, t.v);
      if lo + k < t.n {
        VaPlus(to, k);
      }
      x := SetPrologueKeeps(t, c.(d := to, n := size, mem := Fill(c.mem, Va(to), k, t.v)), Plus(to, k),
                            size - k, left - k, sched[1..], lo + k);
    }
  }

  lemma {:induction false} SetTailKeeps(t: SetTask, c: SetCpu, to: U64, size: U64, left: nat, sched: seq<Outcome>,
      lo: nat)
    returns (x: nat)
    requires t.Valid() && c.Valid() && left <= size
    requires Filled(t, c, lo) && size == t.n - lo && SetStarted(t, c, lo)
    requires lo < t.n ==> Plus(c.d, c.n) == to
    ensures lo <= x <= t.n
    ensures
      var r := SetTail(c, t.v, to, size, left, sched);
      && r.1 != Mismatch && r.0.Valid() && Filled(t, r.0, x) && SetStarted(t, r.0, x)
      && (r.1 == Done ==> x >= lo + left)
    ensures left > 0 && Progresses(sched) ==> x > lo
    decreases left
  {
    hide Va, Plus, Minus, Fill, PageLimit;
    x := lo;
    if left > 0 && Progresses(sched) {
      var k := Covered(sched[0], SetLimit(to, size));
      FillFurther(t.m0, t.d, lo, k, t.v);
      if lo + k < t.n {
        VaPlus(to, k);
        PlusStep(c.d, to, size, k);
      }
      x := SetTailKeeps(t, c.(mem := Fill(c.mem, Va(to), k, t.v), n := Minus(size - k)), Plus(to, k), size - k,
                        if k >= left then 0 else left - k, sched[1..], lo + k);
    }
  }

  /** Every execution keeps the invariant and raises no mismatch; a successful access lowers what remains. */
  lemma {:induction false} SetExecKeeps(t: SetTask, stage: Stage, c: SetCpu, sched: seq<Outcome>,
      lo: nat) returns (x: nat)
    requires t.Valid() && stage != End && SetInvariant(t, stage, c, lo)
    ensures lo <= x <= t.n
    ensures
      var r := SetExec(stage, c, t.v, sched);
      match r.1
      case Done => SetInvariant(t, Next(stage), r.0, x)
      case Faulted => SetInvariant(t, stage, r.0, x)
      case Mismatch => false
    ensures Progresses(sched) && (if stage == Main then t.n - lo >= PAGE else lo < t.n) ==> x > lo
  {
    hide Va, Plus, Fill, SetPrologue, SetTail;
    x := lo;
    if stage == Prologue {
      var size := Cap(false, c.n);
      x := SetPrologueKeeps(t, c, c.d, size, SetLimit(c.d, size), sched, lo);
    } else if c.n != 0 {
      var size := Minus(c.n);
      x := SetTailKeeps(t, c, Plus(c.d, c.n), size, if stage == Main then size / PAGE * PAGE else size, sched, lo);
    }
  }

  lemma {:induction false} SetRunKeeps(t: SetTask, stage: Stage, c: SetCpu, scheds: seq<seq<Outcome>>, lo: nat)
    returns (x: nat)
    requires t.Valid() && SetInvariant(t, stage, c, lo)
    ensures
      var r := SetRun(stage, c, t.v, scheds);
      !r.2 && SetInvariant(t, r.0, r.1, x)
    decreases |scheds|
  {
    hide SetExec, Fill;
    x := lo;
    if scheds != [] && stage != End {
      x := SetExecKeeps(t, stage, c, scheds[0], lo);
      var r := SetExec(stage, c, t.v, scheds[0]);
      x := SetRunKeeps(t, if r.1 == Done then Next(stage) else stage, r.0, scheds[1..], x);
    }
  }

  /** SETP; SETM; SETE under every schedule: no mismatch, and on completion memory is memset of the original. */
  lemma {:induction false} SetIsMemset(t: SetTask, c: SetCpu, scheds: seq<seq<Outcome>>)
    requires t.Valid() && c.Valid() && c.mem == t.m0 && Va(c.d) == t.d && Cap(false, c.n) == t.n
    ensures
      var r := SetRun(Prologue, c, t.v, scheds);
      && !r.2
      && (r.0 == End ==> r.1.mem == Fill(t.m0, t.d, t.n, t.v))
  {
    assert Fill(t.m0, t.d, 0, t.v) == t.m0;
    hide SetRun, Fill;
    var x := SetRunKeeps(t, Prologue, c, scheds, 0);
  }

  // ---- completion ----

  lemma {:induction false} SetPrologueCompletes(c: SetCpu, v: Byte, to: U64, size: U64, left: nat, sched: seq<Outcome>)
    requires c.Valid() && left <= size && NoFault(sched) && left <= |sched|
    ensures SetPrologue(c, v, to, size, left, sched).1 == Done
    decreases left
  {
    hide Fill, Plus, Minus;
    if left > 0 {
      var k := Covered(sched[0], SetLimit(to, left));
      SetPrologueCompletes(c.(d := to, n := size, mem := Fill(c.mem, Va(to), k, v)), v, Plus(to, k), size - k, left - k,
                           sched[1..]);
    }
  }

  lemma {:induction false} SetTailCompletes(c: SetCpu, v: Byte, to: U64, size: U64, left: nat, sched: seq<Outcome>)
    requires c.Valid() && left <= size && NoFault(sched) && left <= |sched|
    ensures SetTail(c, v, to, size, left, sched).1 == Done
    decreases left
  {
    hide Fill, Plus, Minus;
    if left > 0 {
      var k := Covered(sched[0], SetLimit(to, size));
      SetTailCompletes(c.(mem := Fill(c.mem, Va(to), k, v), n := Minus(size - k)), v, Plus(to, k), size - k,
                       if k >= left then 0 else left - k, sched[1..]);
    }
  }

  /** An execution that meets no fault completes, within as many steps as bytes remain. */
  lemma {:induction false} SetExecCompletes(t: SetTask, stage: Stage, c: SetCpu, sched: seq<Outcome>, lo: nat)
    requires t.Valid() && stage != End && SetInvariant(t, stage, c, lo)
    requires NoFault(sched) && t.n - lo <= |sched|
    ensures SetExec(stage, c, t.v, sched).1 == Done
  {
    hide SetPrologue, SetTail, Plus, Va, Fill;
    if stage == Prologue {
      var size := Cap(false, c.n);
      SetPrologueCompletes(c, t.v, c.d, size, SetLimit(c.d, size), sched);
    } else if c.n != 0 {
      var size := Minus(c.n);
      SetTailCompletes(c, t.v, Plus(c.d, c.n), size, if stage == Main then size / PAGE * PAGE else size, sched);
    }
  }

  // ---- the instruction, step by step ----

  lemma {:induction false} StepFills(o: Outcome, to: U64, size: nat, k: nat)
    requires size > 0 && o != Fault && (o == One ==> k == 1) && (o == Chunk ==> Farthest(to, to, size, false, k))
    ensures k == Covered(o, SetLimit(to, size))
  {
    hide Farthest, SetLimit;
    SetLimitIsFarthest(to, size, k);
  }

  class SetUnit {
    var mem: Memory
    var xd: U64
    var xn: U64
    var flags: Nzcv

    constructor (m: Memory, d: U64, n: U64, f: Nzcv)
      requires |m| == SPACE
      ensures State() == SetCpu(m, d, n, f)
    {
      mem, xd, xn, flags := m, d, n, f;
    }

    function State(): SetCpu
      reads this
    {
      SetCpu(mem, xd, xn, flags)
    }

    /** mops_set_step */
    method SetStep(o: Outcome, to: U64, size: nat, v: Byte) returns (k: nat)
      requires |mem| == SPACE && size > 0
      modifies this`mem
      ensures |mem| == SPACE
      ensures k <= size && (k == 0 <==> o == Fault) && (k == 0 ==> mem == old(mem))
      ensures o == One ==> k == 1 && mem == Fill(old(mem), Va(to), 1, v)
      ensures o == Chunk ==> Farthest(to, to, size, false, k) && mem == Fill(old(mem), Va(to), k, v)
    {
      hide OnPage, Farthest;
      var n := (((to + PAGE) % W) / PAGE * PAGE - to) % W;
      StepLimit(to, to, size, false, n, n);
      if n > size {
        n := size;
      }
      if o == Chunk {
        FarthestFits(to, to, size, false, n);
        mem := Fill(mem, Va(to), n, v);
        return n;
      }
      if o == Fault {
        return 0;
      }
      assert mem[Va(to) := v] == Fill(mem, Va(to), 1, v);
      mem := mem[Va(to) := v];
      return 1;
    }

    method Set(stage: Stage, v: Byte, sched: seq<Outcome>) returns (status: Status)
      requires State().Valid() && stage != End
      modifies this
      ensures State().Valid()
      ensures (State(), status) == SetExec(stage, old(State()), v, sched)
    {
      hide SetPrologue, SetTail;
      if stage == Prologue {
        var size := Cap(false, xn);
        status := LoopPrologue(v, xd, size, SetLimit(xd, size), sched);
        return;
      }
      if xn == 0 {
        return Done;
      }
      if flags.c {
        return Mismatch;
      }
      var to, size := Plus(xd, xn), Minus(xn);
      if stage == Epilogue && size >= PAGE {
        return Mismatch;
      }
      status := LoopSet(v, to, size, if stage == Main then size / PAGE * PAGE else size, sched);
    }

    method LoopPrologue(v: Byte, to0: U64, size0: U64, left0: nat, sched: seq<Outcome>) returns (status: Status)
      requires State().Valid() && left0 <= size0
      modifies this
      ensures State().Valid()
      ensures (State(), status) == SetPrologue(old(State()), v, to0, size0, left0, sched)
    {
      hide Plus, Minus, Fill, SetLimit, Farthest;
      var to, i := to0, 0;
      var size: U64 := size0;
      var left: nat := left0;
      while left != 0
        invariant State().Valid() && left <= size && i <= |sched|
        invariant SetPrologue(State(), v, to, size, left, sched[i..])
               == SetPrologue(old(State()), v, to0, size0, left0, sched)
        decreases left
      {
        xd, xn := to, size;
        if i == |sched| {
          return Faulted;
        }
        assert sched[i..][0] == sched[i] && sched[i..][1..] == sched[i + 1..];
        var k := SetStep(sched[i], to, left, v);
        if k == 0 {
          return Faulted;
        }
        StepFills(sched[i], to, left, k);
        to, size, left, i := Plus(to, k), size - k, left - k, i + 1;
      }
      xd, xn, flags := Plus(to, size), Minus(size), CLEAR;
      status := Done;
    }

    method LoopSet(v: Byte, to0: U64, size0: U64, left0: nat, sched: seq<Outcome>) returns (status: Status)
      requires State().Valid() && left0 <= size0
      modifies this
      ensures State().Valid()
      ensures (State(), status) == SetTail(old(State()), v, to0, size0, left0, sched)
    {
      hide Plus, Minus, Fill, SetLimit, Farthest;
      var to, i := to0, 0;
      var size: U64 := size0;
      var left: nat := left0;
      while left != 0
        invariant State().Valid() && left <= size && i <= |sched|
        invariant SetTail(State(), v, to, size, left, sched[i..])
               == SetTail(old(State()), v, to0, size0, left0, sched)
        decreases left
      {
        if i == |sched| {
          return Faulted;
        }
        assert sched[i..][0] == sched[i] && sched[i..][1..] == sched[i + 1..];
        var k := SetStep(sched[i], to, size, v);
        if k == 0 {
          return Faulted;
        }
        StepFills(sched[i], to, size, k);
        to, size, i := Plus(to, k), size - k, i + 1;
        left := if k >= left then 0 else left - k;
        xn := Minus(size);
      }
      status := Done;
    }
  }
}
