/**
 CPYP, CPYM, CPYE (memmove) and CPYFP, CPYFM, CPYFE (forward memcpy). A
 schedule says what each access meets, so an execution may stop at any step
 with a fault and be re-executed from the registers it left.
 */
module MopsCopy {
  import opened Words
  import opened MopsMemory

  datatype Stage = Prologue | Main | Epilogue | End

  /** Memory, the three operand registers, and NZCV. */
  datatype Cpu = Cpu(mem: Memory, d: U64, s: U64, n: U64, flags: Nzcv) {
    predicate Valid() {
      |mem| == SPACE
    }
  }

  datatype Status = Done | Faulted | Mismatch

  const CAP_MOVE: nat := 0x007f_ffff_ffff_ffff
  const CAP_COPY: nat := 0x7fff_ffff_ffff_ffff

  function Cap(move: bool, n: U64): (r: U64)
    ensures r <= n && r <= CAP_COPY && (move ==> r <= CAP_MOVE)
  {
    var cap := if move then CAP_MOVE else CAP_COPY;
    if n > cap then cap else n
  }

  function Minus(n: U64): (r: U64)
    ensures r == if n == 0 then 0 else W - n
  {
    (0 - n) % W
  }

  /** Direction of the prologue: down only when the source starts below an overlapping destination. */
  predicate Backward(move: bool, to: U64, from: U64, size: U64) {
    move && Va(from) < Va(to) && Va(Plus(from, size)) > Va(to)
  }

  // ---- one execution of each instruction, as a function of the schedule ----

  /** Forward prologue: registers stay in input format until it completes. */
  function UpPrologue(c: Cpu, to: U64, from: U64, size: U64, left: nat, sched: seq<Outcome>): (r: (Cpu, Status))
    requires c.Valid() && left <= size
    ensures r.0.Valid()
    decreases left
  {
    if left == 0 then (c.(d := Plus(to, size), s := Plus(from, size), n := Minus(size), flags := CLEAR), Done)
    else
      var c1 := c.(d := to, s := from, n := size);
      if sched == [] || sched[0] == Fault then (c1, Faulted)
      else
        var k := Covered(sched[0], CopyLimit(to, from, left, false));
        UpPrologue(c1.(mem := CopyBytes(c1.mem, to, from, k, false)),
                   Plus(to, k), Plus(from, k), size - k, left - k, sched[1..])
  }

  /** Backward prologue: only the size register moves. */
  function DownPrologue(c: Cpu, t: U64, f: U64, size: U64, left: nat, sched: seq<Outcome>): (r: (Cpu, Status))
    requires c.Valid() && left <= size
    ensures r.0.Valid()
    decreases left
  {
    if left == 0 then (c.(n := size, flags := CLEAR), Done)
    else
      var c1 := c.(n := size);
      if sched == [] || sched[0] == Fault then (c1, Faulted)
      else
        var k := Covered(sched[0], CopyLimit(t, f, left, true));
        DownPrologue(c1.(mem := CopyBytes(c1.mem, t, f, k, true)),
                     Less(t, k), Less(f, k), size - k, left - k, sched[1..])
  }

  function PrologueOf(move: bool, c: Cpu, sched: seq<Outcome>): (r: (Cpu, Status))
    requires c.Valid()
    ensures r.0.Valid()
  {
    var size := Cap(move, c.n);
    if !Backward(move, c.d, c.s, size) then
      UpPrologue(c, c.d, c.s, size, CopyLimit(c.d, c.s, size, false), sched)
    else
      var t, f := Plus(c.d, size - 1), Plus(c.s, size - 1);
      DownPrologue(c, t, f, size, CopyLimit(t, f, size, true), sched)
  }

  /** The middle runs while a page remains, the epilogue to zero; both fold progress into Xn. */
  function Tail(c: Cpu, stage: Stage, fwd: bool, to: U64, from: U64, size: U64, sched: seq<Outcome>): (r: (Cpu, Status))
    requires c.Valid()
    ensures r.0.Valid()
    decreases size
  {
    if !(if stage == Main then size >= PAGE else size > 0) then (c, Done)
    else if sched == [] || sched[0] == Fault then (c, Faulted)
    else
      var k := Covered(sched[0], CopyLimit(to, from, size, !fwd));
      var c1 := c.(mem := CopyBytes(c.mem, to, from, k, !fwd), n := if fwd then Minus(size - k) else size - k);
      Tail(c1, stage, fwd, Along(to, k, fwd), Along(from, k, fwd), size - k, sched[1..])
  }

  function TailOf(move: bool, stage: Stage, c: Cpu, sched: seq<Outcome>): (r: (Cpu, Status))
    requires c.Valid()
    ensures r.0.Valid()
  {
    if c.n == 0 then (c, Done)
    else if c.flags.c then (c, Mismatch)
    else
      var fwd := !move || c.n >= W / 2;
      var size := if fwd then Minus(c.n) else c.n;
      if stage == Epilogue && size >= PAGE then (c, Mismatch)
      else if fwd then Tail(c, stage, fwd, Plus(c.d, c.n), Plus(c.s, c.n), size, sched)
      else Tail(c, stage, fwd, Plus(c.d, size - 1), Plus(c.s, size - 1), size, sched)
  }

  function Exec(move: bool, stage: Stage, c: Cpu, sched: seq<Outcome>): (r: (Cpu, Status))
    requires c.Valid() && stage != End
    ensures r.0.Valid()
  {
    if stage == Prologue then PrologueOf(move, c, sched) else TailOf(move, stage, c, sched)
  }

  function Next(stage: Stage): Stage {
    match stage
    case Prologue => Main
    case Main => Epilogue
    case Epilogue => End
    case End => End
  }

  /** Any number of executions; one that faults is tried again, one that completes moves on. */
  function Run(move: bool, stage: Stage, c: Cpu, scheds: seq<seq<Outcome>>): (r: (Stage, Cpu, bool))
    requires c.Valid()
    ensures r.1.Valid()
    decreases |scheds|
  {
    if scheds == [] || stage == End then (stage, c, false)
    else
      var (c1, status) := Exec(move, stage, c, scheds[0]);
      match status
      case Done => Run(move, Next(stage), c1, scheds[1..])
      case Faulted => Run(move, stage, c1, scheds[1..])
      case Mismatch => (stage, c1, true)
  }

  // ---- what the registers mean between executions ----

  /** A copy of n bytes from s to d of a memory m0, in 56-bit addresses. */
  datatype Task = Task(m0: Memory, d: nat, s: nat, n: nat, move: bool) {
    /** No range wraps; a forced-forward copy does not start its source below an overlapping destination. */
    predicate Valid() {
      && |m0| == SPACE && d + n <= SPACE && s + n <= SPACE
      && (!move ==> d <= s || d - s >= n)
    }
  }

  /** Input format: the registers name what is left, [lo, hi) of the whole. */
  ghost predicate Input(t: Task, c: Cpu, lo: nat, hi: nat)
    requires t.Valid()
  {
    && c.Valid()
    && Copied(c.mem, t.m0, t.d, t.s, t.n, lo, hi)
    && Cap(t.move, c.n) == hi - lo
    && (lo < hi ==> Va(c.d) == t.d + lo && Va(c.s) == t.s + lo)
    && (UpSafe(t.d, t.s, t.n, hi) || (t.move && DownSafe(t.d, t.s, lo)))
  }

  /** Completed-prologue format: end addresses and a negative count going up, or input format going down. */
  ghost predicate Started(t: Task, c: Cpu, lo: nat, hi: nat)
    requires t.Valid()
  {
    && c.Valid()
    && Copied(c.mem, t.m0, t.d, t.s, t.n, lo, hi)
    && !c.flags.c
    && (lo == hi ==> c.n == 0)
    && (lo < hi ==> GoingUp(t, c, lo, hi) || GoingDown(t, c, lo, hi))
  }

  ghost predicate GoingUp(t: Task, c: Cpu, lo: nat, hi: nat) {
    && 0 < hi - lo <= CAP_COPY && c.n == W - (hi - lo)
    && Va(Plus(c.d, c.n)) == t.d + lo && Va(Plus(c.s, c.n)) == t.s + lo
    && UpSafe(t.d, t.s, t.n, hi)
  }

  ghost predicate GoingDown(t: Task, c: Cpu, lo: nat, hi: nat) {
    && t.move && lo == 0 && 0 < hi <= CAP_MOVE && c.n == hi
    && Va(c.d) == t.d && Va(c.s) == t.s
    && DownSafe(t.d, t.s, lo)
  }

  /** What holds before each instruction, over every run. */
  ghost predicate Invariant(t: Task, stage: Stage, c: Cpu, lo: nat, hi: nat)
    requires t.Valid()
  {
    match stage
    case Prologue => Input(t, c, lo, hi)
    case Main => Started(t, c, lo, hi)
    case Epilogue => Started(t, c, lo, hi) && hi - lo < PAGE
    case End => c.Valid() && lo == hi && Copied(c.mem, t.m0, t.d, t.s, t.n, lo, hi)
  }

  /** Some successful access was made. */
  predicate Progresses(sched: seq<Outcome>) {
    sched != [] && sched[0] != Fault
  }

  lemma PlusBack(a: U64, n: U64)
    requires n > 0
    ensures Minus(n) == W - n && Plus(Plus(a, n), Minus(n)) == a
  {
  }

  lemma {:induction false} UpPrologueKeeps(t: Task, c: Cpu, to: U64, from: U64, size: U64, left: nat,
                                           sched: seq<Outcome>, lo: nat, hi: nat) returns (x: nat)
    requires t.Valid() && c.Valid() && left <= size
    requires Copied(c.mem, t.m0, t.d, t.s, t.n, lo, hi) && size == hi - lo && size == Cap(t.move, size)
    requires lo < hi ==> Va(to) == t.d + lo && Va(from) == t.s + lo
    requires UpSafe(t.d, t.s, t.n, hi)
    ensures lo <= x <= hi
    ensures
      var r := UpPrologue(c, to, from, size, left, sched);
      match r.1
      case Done => Started(t, r.0, x, hi) && x >= lo + left
      case Faulted => Input(t, r.0, x, hi)
      case Mismatch => false
    ensures left > 0 && Progresses(sched) ==> x > lo
    decreases left
  {
    hide Copied, Va, Plus, Minus, Move, UpSafe, PageLimit;
    CopiedBounds(c.mem, t.m0, t.d, t.s, t.n, lo, hi);
    x := lo;
    if left == 0 {
      if size > 0 {
        PlusBack(to, size);
        PlusBack(from, size);
      }
    } else if Progresses(sched) {
      var k := Covered(sched[0], CopyLimit(to, from, left, false));
      CopyUp(c.mem, t.m0, t.d, t.s, t.n, lo, hi, k);
      if lo + k < hi {
        VaPlus(to, k);
        VaPlus(from, k);
      }
      var c1 := c.(d := to, s := from, n := size);
      x := UpPrologueKeeps(t, c1.(mem := CopyBytes(c1.mem, to, from, k, false)), Plus(to, k), Plus(from, k),
                           size - k, left - k, sched[1..], lo + k, hi);
    }
  }

  lemma {:induction false} DownPrologueKeeps(t: Task, c: Cpu, p: U64, f: U64, size: U64, left: nat,
                                             sched: seq<Outcome>) returns (y: nat)
    requires t.Valid() && c.Valid() && left <= size <= CAP_MOVE && t.move
    requires Copied(c.mem, t.m0, t.d, t.s, t.n, 0, size)
    requires Va(c.d) == t.d && Va(c.s) == t.s
    requires size > 0 ==> Va(p) == t.d + size - 1 && Va(f) == t.s + size - 1
    requires DownSafe(t.d, t.s, 0)
    ensures y <= size
    ensures
      var r := DownPrologue(c, p, f, size, left, sched);
      match r.1
      case Done => Started(t, r.0, 0, y)
      case Faulted => Input(t, r.0, 0, y)
      case Mismatch => false
    ensures left > 0 && Progresses(sched) ==> y < size
    decreases left
  {
    hide Copied, Va, Less, Minus, Move, DownSafe, PageLimitRev;
    CopiedBounds(c.mem, t.m0, t.d, t.s, t.n, 0, size);
    y := size;
    if left > 0 && Progresses(sched) {
      var k := Covered(sched[0], CopyLimit(p, f, left, true));
      CopyDown(c.mem, t.m0, t.d, t.s, t.n, 0, size, k);
      if k < size {
        VaLess(p, k);
        VaLess(f, k);
      }
      var c1 := c.(n := size);
      y := DownPrologueKeeps(t, c1.(mem := CopyBytes(c1.mem, p, f, k, true)), Less(p, k), Less(f, k),
                             size - k, left - k, sched[1..]);
    }
  }

  /** The direction test reads the overlap of what is left. */
  lemma DirectionIsSafe(t: Task, c: Cpu, lo: nat, hi: nat)
    requires t.Valid() && Input(t, c, lo, hi)
    ensures
      var size := Cap(t.move, c.n);
      if Backward(t.move, c.d, c.s, size) then lo == 0 < hi && t.move && DownSafe(t.d, t.s, 0)
      else UpSafe(t.d, t.s, t.n, hi)
  {
    var size := Cap(t.move, c.n);
    if lo < hi && t.s < t.d {
      VaPlus(c.s, size);
    }
    if lo == hi {
      assert Plus(c.s, 0) == c.s;
    }
  }

  lemma {:induction false} PrologueKeeps(t: Task, c: Cpu, sched: seq<Outcome>, lo: nat, hi: nat) returns (x: nat,
      y: nat)
    requires t.Valid() && Input(t, c, lo, hi)
    ensures x <= y && y - x <= hi - lo
    ensures
      var r := PrologueOf(t.move, c, sched);
      match r.1
      case Done => Started(t, r.0, x, y)
      case Faulted => Input(t, r.0, x, y)
      case Mismatch => false
    ensures lo < hi && Progresses(sched) ==> y - x < hi - lo
  {
    DirectionIsSafe(t, c, lo, hi);
    var size := Cap(t.move, c.n);
    if !Backward(t.move, c.d, c.s, size) {
      y := hi;
      x := UpPrologueKeeps(t, c, c.d, c.s, size, CopyLimit(c.d, c.s, size, false), sched, lo, hi);
    } else {
      x := 0;
      var p, f := Plus(c.d, size - 1), Plus(c.s, size - 1);
      VaPlus(c.d, size - 1);
      VaPlus(c.s, size - 1);
      y := DownPrologueKeeps(t, c, p, f, size, CopyLimit(p, f, size, true), sched);
    }
  }

  // ---- middle and epilogue ----

  /** A smaller count from the same end address starts k further on. */
  lemma PlusStep(e: U64, a: U64, size: U64, k: nat)
    requires 0 < size && k < size && Plus(e, W - size) == a
    ensures Plus(e, W - (size - k)) == Plus(a, k)
  {
  }

  lemma {:induction false} TailUpKeeps(t: Task, c: Cpu, stage: Stage, to: U64, from: U64, size: U64,
                                       sched: seq<Outcome>, lo: nat, hi: nat) returns (x: nat)
    requires t.Valid() && c.Valid() && !c.flags.c && (stage == Main || stage == Epilogue)
    requires Copied(c.mem, t.m0, t.d, t.s, t.n, lo, hi) && size == hi - lo <= CAP_COPY && c.n == Minus(size)
    requires lo < hi ==> Va(to) == t.d + lo && Va(from) == t.s + lo
    requires lo < hi ==> Plus(c.d, c.n) == to && Plus(c.s, c.n) == from
    requires UpSafe(t.d, t.s, t.n, hi)
    ensures lo <= x <= hi
    ensures
      var r := Tail(c, stage, true, to, from, size, sched);
      match r.1
      case Done => Started(t, r.0, x, hi) && (if stage == Main then hi - x < PAGE else x == hi)
      case Faulted => Started(t, r.0, x, hi)
      case Mismatch => false
    ensures (if stage == Main then size >= PAGE else size > 0) && Progresses(sched) ==> x > lo
    decreases size
  {
    hide Copied, Va, Plus, Minus, Move, UpSafe, PageLimit;
    CopiedBounds(c.mem, t.m0, t.d, t.s, t.n, lo, hi);
    x := lo;
    if (if stage == Main then size >= PAGE else size > 0) && Progresses(sched) {
      var k := Covered(sched[0], CopyLimit(to, from, size, false));
      CopyUp(c.mem, t.m0, t.d, t.s, t.n, lo, hi, k);
      if lo + k < hi {
        VaPlus(to, k);
        VaPlus(from, k);
        PlusStep(c.d, to, size, k);
        PlusStep(c.s, from, size, k);
      }
      x := TailUpKeeps(t, c.(mem := CopyBytes(c.mem, to, from, k, false), n := Minus(size - k)), stage,
                       Plus(to, k), Plus(from, k), size - k, sched[1..], lo + k, hi);
    }
  }

  lemma {:induction false} TailDownKeeps(t: Task, c: Cpu, stage: Stage, p: U64, f: U64, size: U64,
                                         sched: seq<Outcome>) returns (y: nat)
    requires t.Valid() && c.Valid() && !c.flags.c && (stage == Main || stage == Epilogue)
    requires Copied(c.mem, t.m0, t.d, t.s, t.n, 0, size) && size <= CAP_MOVE && c.n == size && t.move
    requires Va(c.d) == t.d && Va(c.s) == t.s
    requires size > 0 ==> Va(p) == t.d + size - 1 && Va(f) == t.s + size - 1
    requires DownSafe(t.d, t.s, 0)
    ensures y <= size
    ensures
      var r := Tail(c, stage, false, p, f, size, sched);
      match r.1
      case Done => Started(t, r.0, 0, y) && (if stage == Main then y < PAGE else y == 0)
      case Faulted => Started(t, r.0, 0, y)
      case Mismatch => false
    ensures (if stage == Main then size >= PAGE else size > 0) && Progresses(sched) ==> y < size
    decreases size
  {
    hide Copied, Va, Less, Move, DownSafe, PageLimitRev;
    CopiedBounds(c.mem, t.m0, t.d, t.s, t.n, 0, size);
    y := size;
    if (if stage == Main then size >= PAGE else size > 0) && Progresses(sched) {
      var k := Covered(sched[0], CopyLimit(p, f, size, true));
      CopyDown(c.mem, t.m0, t.d, t.s, t.n, 0, size, k);
      if k < size {
        VaLess(p, k);
        VaLess(f, k);
      }
      y := TailDownKeeps(t, c.(mem := CopyBytes(c.mem, p, f, k, true), n := size - k), stage,
                         Less(p, k), Less(f, k), size - k, sched[1..]);
    }
  }

  lemma {:induction false} TailKeeps(t: Task, stage: Stage, c: Cpu, sched: seq<Outcome>, lo: nat, hi: nat)
    returns (x: nat, y: nat)
    requires t.Valid() && Started(t, c, lo, hi) && (stage == Main || stage == Epilogue)
    requires stage == Epilogue ==> hi - lo < PAGE
    ensures x <= y && y - x <= hi - lo
    ensures
      var r := TailOf(t.move, stage, c, sched);
      match r.1
      case Done => Started(t, r.0, x, y) && (if stage == Main then y - x < PAGE else x == y)
      case Faulted => Started(t, r.0, x, y)
      case Mismatch => false
    ensures (if stage == Main then hi - lo >= PAGE else lo < hi) && Progresses(sched) ==> y - x < hi - lo
  {
    hide Copied, Va, Plus, UpSafe, Tail;
    CopiedBounds(c.mem, t.m0, t.d, t.s, t.n, lo, hi);
    x, y := lo, hi;
    if lo < hi {
      if GoingUp(t, c, lo, hi) {
        x := TailUpKeeps(t, c, stage, Plus(c.d, c.n), Plus(c.s, c.n), hi - lo, sched, lo, hi);
      } else {
        VaPlus(c.d, hi - 1);
        VaPlus(c.s, hi - 1);
        y := TailDownKeeps(t, c, stage, Plus(c.d, hi - 1), Plus(c.s, hi - 1), hi, sched);
      }
    }
  }

  // ---- the theorem ----

  /**
   Every execution keeps the invariant, never raises the mismatch exception, and
   never lets the remaining size grow; a successful access lowers it.
   */
  lemma {:induction false} ExecKeeps(t: Task, stage: Stage, c: Cpu, sched: seq<Outcome>, lo: nat, hi: nat)
    returns (x: nat, y: nat)
    requires t.Valid() && stage != End && Invariant(t, stage, c, lo, hi)
    ensures x <= y && y - x <= hi - lo
    ensures
      var r := Exec(t.move, stage, c, sched);
      match r.1
      case Done => Invariant(t, Next(stage), r.0, x, y)
      case Faulted => Invariant(t, stage, r.0, x, y)
      case Mismatch => false
    ensures Progresses(sched) && (if stage == Main then hi - lo >= PAGE else lo < hi) ==> y - x < hi - lo
  {
    hide Copied, PrologueOf, TailOf;
    CopiedBounds(c.mem, t.m0, t.d, t.s, t.n, lo, hi);
    if stage == Prologue {
      x, y := PrologueKeeps(t, c, sched, lo, hi);
    } else {
      x, y := TailKeeps(t, stage, c, sched, lo, hi);
    }
  }

  /** Starting registers for a task. */
  ghost predicate Starts(t: Task, c: Cpu)
    requires t.Valid()
  {
    c.Valid() && c.mem == t.m0 && Va(c.d) == t.d && Va(c.s) == t.s && Cap(t.move, c.n) == t.n
  }

  lemma StartsInvariant(t: Task, c: Cpu)
    requires t.Valid() && Starts(t, c)
    ensures Invariant(t, Prologue, c, 0, t.n)
  {
  }

  lemma {:induction false} RunKeeps(t: Task, stage: Stage, c: Cpu, scheds: seq<seq<Outcome>>, lo: nat, hi: nat)
    returns (x: nat, y: nat)
    requires t.Valid() && Invariant(t, stage, c, lo, hi)
    ensures
      var r := Run(t.move, stage, c, scheds);
      !r.2 && Invariant(t, r.0, r.1, x, y)
    decreases |scheds|
  {
    hide Copied, Exec;
    x, y := lo, hi;
    if scheds != [] && stage != End {
      x, y := ExecKeeps(t, stage, c, scheds[0], lo, hi);
      var r := Exec(t.move, stage, c, scheds[0]);
      x, y := RunKeeps(t, if r.1 == Done then Next(stage) else stage, r.0, scheds[1..], x, y);
    }
  }

  /**
   CPYP; CPYM; CPYE under every schedule of faults, re-executions, page chunks
   and single bytes: no mismatch exception, and once all three have completed
   memory is memmove of the original contents.
   */
  lemma {:induction false} CopyIsMemmove(t: Task, c: Cpu, scheds: seq<seq<Outcome>>)
    requires t.Valid() && Starts(t, c)
    ensures
      var r := Run(t.move, Prologue, c, scheds);
      && !r.2
      && (r.0 == End ==> r.1.mem == Move(t.m0, t.d, t.s, t.n))
  {
    hide Run, Move;
    StartsInvariant(t, c);
    var x, y := RunKeeps(t, Prologue, c, scheds, 0, t.n);
    var r := Run(t.move, Prologue, c, scheds);
    if r.0 == End {
      CopiedAll(r.1.mem, t.m0, t.d, t.s, t.n, x);
    }
  }

  // ---- completion ----

  predicate NoFault(sched: seq<Outcome>) {
    forall i :: 0 <= i < |sched| ==> sched[i] != Fault
  }

  lemma {:induction false} UpPrologueCompletes(c: Cpu, to: U64, from: U64, size: U64, left: nat, sched: seq<Outcome>)
    requires c.Valid() && left <= size && NoFault(sched) && left <= |sched|
    ensures UpPrologue(c, to, from, size, left, sched).1 == Done
    decreases left
  {
    hide CopyBytes, Plus, Less, Minus;
    if left > 0 {
      var k := Covered(sched[0], CopyLimit(to, from, left, false));
      UpPrologueCompletes(c.(d := to, s := from, n := size, mem := CopyBytes(c.mem, to, from, k, false)),
                          Plus(to, k), Plus(from, k), size - k, left - k, sched[1..]);
    }
  }

  lemma {:induction false} DownPrologueCompletes(c: Cpu, t: U64, f: U64, size: U64, left: nat, sched: seq<Outcome>)
    requires c.Valid() && left <= size && NoFault(sched) && left <= |sched|
    ensures DownPrologue(c, t, f, size, left, sched).1 == Done
    decreases left
  {
    hide CopyBytes, Plus, Less, Minus;
    if left > 0 {
      var k := Covered(sched[0], CopyLimit(t, f, left, true));
      DownPrologueCompletes(c.(n := size, mem := CopyBytes(c.mem, t, f, k, true)),
                            Less(t, k), Less(f, k), size - k, left - k, sched[1..]);
    }
  }

  lemma {:induction false} TailCompletes(c: Cpu, stage: Stage, fwd: bool, to: U64, from: U64, size: U64,
      sched: seq<Outcome>)
    requires c.Valid() && NoFault(sched) && size <= |sched|
    ensures Tail(c, stage, fwd, to, from, size, sched).1 == Done
    decreases size
  {
    hide CopyBytes, Plus, Less, Minus;
    if if stage == Main then size >= PAGE else size > 0 {
      var k := Covered(sched[0], CopyLimit(to, from, size, !fwd));
      TailCompletes(c.(mem := CopyBytes(c.mem, to, from, k, !fwd), n := if fwd then Minus(size - k) else size - k),
                    stage, fwd, Along(to, k, fwd), Along(from, k, fwd),
                    size - k, sched[1..]);
    }
  }

  /** An execution that meets no fault completes, within as many steps as bytes remain. */
  lemma {:induction false} ExecCompletes(t: Task, stage: Stage, c: Cpu, sched: seq<Outcome>, lo: nat, hi: nat)
    requires t.Valid() && stage != End && Invariant(t, stage, c, lo, hi)
    requires NoFault(sched) && hi - lo <= |sched|
    ensures Exec(t.move, stage, c, sched).1 == Done
  {
    hide Copied, UpPrologue, DownPrologue, Tail, Plus, Va;
    CopiedBounds(c.mem, t.m0, t.d, t.s, t.n, lo, hi);
    if stage == Prologue {
      DirectionIsSafe(t, c, lo, hi);
      var size := Cap(t.move, c.n);
      UpPrologueCompletes(c, c.d, c.s, size, CopyLimit(c.d, c.s, size, false), sched);
      if size > 0 {
        var p, f := Plus(c.d, size - 1), Plus(c.s, size - 1);
        DownPrologueCompletes(c, p, f, size, CopyLimit(p, f, size, true), sched);
      }
    } else if lo < hi {
      TailCompletes(c, stage, true, Plus(c.d, c.n), Plus(c.s, c.n), hi - lo, sched);
      TailCompletes(c, stage, false, Plus(c.d, hi - lo - 1), Plus(c.s, hi - lo - 1), hi - lo, sched);
    }
  }

  // ---- the instruction, step by step ----

  lemma {:induction false} StepLimit(to: U64, from: U64, size: nat, rev: bool, n: int, m: int)
    requires size > 0
    requires rev ==> n == to % PAGE + 1 && m == from % PAGE + 1
    requires
      !rev ==>
        n == (((to + PAGE) % W) / PAGE * PAGE - to) % W && m == (((from + PAGE) % W) / PAGE * PAGE - from) % W
    ensures
      var l := if m < n then m else n;
      n >= 1 && m >= 1 && Farthest(to, from, size, rev, if l > size then size else l)
  {
    hide OnPage, Farthest;
    PageLimitForm(to);
    PageLimitForm(from);
    var l := if m < n then m else n;
    CopyLimitIsFarthest(to, from, size, rev, if l > size then size else l);
  }

  lemma FarthestFits(to: U64, from: U64, size: nat, rev: bool, k: nat)
    requires Farthest(to, from, size, rev, k)
    ensures k >= 1 && (!rev ==> Va(to) + k <= SPACE && Va(from) + k <= SPACE)
    ensures rev ==> k <= Va(to) + 1 && k <= Va(from) + 1
  {
  }

  /** The step as the executions count it. */
  lemma {:induction false} StepCovers(o: Outcome, to: U64, from: U64, size: nat, rev: bool, k: nat)
    requires size > 0 && o != Fault && (o == One ==> k == 1) && (o == Chunk ==> Farthest(to, from, size, rev, k))
    ensures k == Covered(o, CopyLimit(to, from, size, rev))
  {
    hide Farthest, CopyLimit;
    CopyLimitIsFarthest(to, from, size, rev, k);
  }

  class CopyUnit {
    var mem: Memory
    var xd: U64
    var xs: U64
    var xn: U64
    var flags: Nzcv

    constructor (m: Memory, d: U64, s: U64, n: U64, f: Nzcv)
      requires |m| == SPACE
      ensures State() == Cpu(m, d, s, n, f)
    {
      mem, xd, xs, xn, flags := m, d, s, n, f;
    }

    function State(): Cpu
      reads this
    {
      Cpu(mem, xd, xs, xn, flags)
    }

    /** mops_copy_step: the farthest chunk on hits, else one byte; zero bytes means a fault was raised. */
    method CopyStep(o: Outcome, to: U64, from: U64, size: nat, rev: bool) returns (k: nat)
      requires |mem| == SPACE && size > 0
      modifies this`mem
      ensures |mem| == SPACE
      ensures k <= size && (k == 0 <==> o == Fault) && (k == 0 ==> mem == old(mem))
      ensures o == One ==> k == 1 && mem == Move(old(mem), Va(to), Va(from), 1)
      ensures o == Chunk ==> Farthest(to, from, size, rev, k)
      ensures o == Chunk && !rev ==> mem == Move(old(mem), Va(to), Va(from), k)
      ensures o == Chunk && rev ==> mem == Move(old(mem), Va(to) - (k - 1), Va(from) - (k - 1), k)
    {
      hide OnPage, Farthest;
      var n, m;
      if rev {
        n, m := to % PAGE + 1, from % PAGE + 1;
      } else {
        n, m := (((to + PAGE) % W) / PAGE * PAGE - to) % W, (((from + PAGE) % W) / PAGE * PAGE - from) % W;
      }
      StepLimit(to, from, size, rev, n, m);
      if m < n {
        n := m;
      }
      if n > size {
        n := size;
      }
      if o == Chunk {
        FarthestFits(to, from, size, rev, n);
        mem := if rev then Move(mem, Va(to) - (n - 1), Va(from) - (n - 1), n) else Move(mem, Va(to), Va(from), n);
        return n;
      }
      if o == Fault {
        return 0;
      }
      var byte := mem[Va(from)];
      assert mem[Va(to) := byte] == Move(mem, Va(to), Va(from), 1);
      mem := mem[Va(to) := byte];
      return 1;
    }

    method CpyPrologue(move: bool, sched: seq<Outcome>) returns (status: Status)
      requires State().Valid()
      modifies this
      ensures State().Valid()
      ensures (State(), status) == PrologueOf(move, old(State()), sched)
    {
      var to, from, size := xd, xs, Cap(move, xn);
      if !Backward(move, to, from, size) {
        status := LoopUp(to, from, size, CopyLimit(to, from, size, false), sched);
      } else {
        var t, f := Plus(to, size - 1), Plus(from, size - 1);
        status := LoopDown(t, f, size, CopyLimit(t, f, size, true), sched);
      }
    }

    method LoopUp(to0: U64, from0: U64, size0: U64, left0: nat, sched: seq<Outcome>) returns (status: Status)
      requires State().Valid() && left0 <= size0
      modifies this
      ensures State().Valid()
      ensures (State(), status) == UpPrologue(old(State()), to0, from0, size0, left0, sched)
    {
      hide Plus, Minus, Move, CopyLimit, Farthest;
      var to, from, i := to0, from0, 0;
      var left: nat := left0;
      var size: U64 := size0;
      while left != 0
        invariant State().Valid() && left <= size && i <= |sched|
        invariant UpPrologue(State(), to, from, size, left, sched[i..])
               == UpPrologue(old(State()), to0, from0, size0, left0, sched)
        decreases left
      {
        xd, xs, xn := to, from, size;
        if i == |sched| {
          return Faulted;
        }
        assert sched[i..][0] == sched[i] && sched[i..][1..] == sched[i + 1..];
        var k := CopyStep(sched[i], to, from, left, false);
        if k == 0 {
          return Faulted;
        }
        StepCovers(sched[i], to, from, left, false, k);
        to, from, size, left, i := Plus(to, k), Plus(from, k), size - k, left - k, i + 1;
      }
      xd, xs, xn, flags := Plus(to, size), Plus(from, size), Minus(size), CLEAR;
      status := Done;
    }

    method LoopDown(t0: U64, f0: U64, size0: U64, left0: nat, sched: seq<Outcome>) returns (status: Status)
      requires State().Valid() && left0 <= size0
      modifies this
      ensures State().Valid()
      ensures (State(), status) == DownPrologue(old(State()), t0, f0, size0, left0, sched)
    {
      hide Less, Move, CopyLimit, Farthest;
      var t, f, i := t0, f0, 0;
      var left: nat := left0;
      var size: U64 := size0;
      while left != 0
        invariant State().Valid() && left <= size && i <= |sched|
        invariant DownPrologue(State(), t, f, size, left, sched[i..])
               == DownPrologue(old(State()), t0, f0, size0, left0, sched)
        decreases left
      {
        xn := size;
        if i == |sched| {
          return Faulted;
        }
        assert sched[i..][0] == sched[i] && sched[i..][1..] == sched[i + 1..];
        var k := CopyStep(sched[i], t, f, left, true);
        if k == 0 {
          return Faulted;
        }
        StepCovers(sched[i], t, f, left, true, k);
        t, f, size, left, i := Less(t, k), Less(f, k), size - k, left - k, i + 1;
      }
      xn, flags := size, CLEAR;
      status := Done;
    }

    method CpyTail(move: bool, stage: Stage, sched: seq<Outcome>) returns (status: Status)
      requires State().Valid() && (stage == Main || stage == Epilogue)
      modifies this
      ensures State().Valid()
      ensures (State(), status) == TailOf(move, stage, old(State()), sched)
    {
      if xn == 0 {
        return Done;
      }
      if flags.c {
        return Mismatch;
      }
      var fwd := !move || xn >= W / 2;
      var to, from, size;
      if fwd {
        to, from, size := Plus(xd, xn), Plus(xs, xn), Minus(xn);
      } else {
        size := xn;
        to, from := Plus(xd, size - 1), Plus(xs, size - 1);
      }
      if stage == Epilogue && size >= PAGE {
        return Mismatch;
      }
      status := LoopTail(stage, fwd, to, from, size, sched);
    }

    method LoopTail(stage: Stage, fwd: bool, to0: U64, from0: U64, size0: U64,
        sched: seq<Outcome>) returns (status: Status)
      requires State().Valid() && (stage == Main || stage == Epilogue)
      modifies this
      ensures State().Valid()
      ensures (State(), status) == Tail(old(State()), stage, fwd, to0, from0, size0, sched)
    {
      hide Plus, Minus, Move, CopyLimit, Farthest;
      var to, from, i := to0, from0, 0;
      var size: U64 := size0;
      while if stage == Main then size >= PAGE else size > 0
        invariant State().Valid() && i <= |sched|
        invariant Tail(State(), stage, fwd, to, from, size, sched[i..])
               == Tail(old(State()), stage, fwd, to0, from0, size0, sched)
        decreases size
      {
        if i == |sched| {
          return Faulted;
        }
        assert sched[i..][0] == sched[i] && sched[i..][1..] == sched[i + 1..];
        var k := CopyStep(sched[i], to, from, size, !fwd);
        if k == 0 {
          return Faulted;
        }
        StepCovers(sched[i], to, from, size, !fwd, k);
        to, from, size, i := Along(to, k, fwd), Along(from, k, fwd), size - k, i + 1;
        xn := if fwd then Minus(size) else size;
      }
      status := Done;
    }
  }
}
