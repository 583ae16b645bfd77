/**
 The registers that CPYP, CPYM, CPYE and SETP, SETM, SETE leave, under every
 schedule and for every start, wrapping or not.
 */
module MopsRegisters {
  import opened Words
  import opened MopsMemory
  import opened MopsCopy
  import opened MopsSet

  lemma PlusTwice(a: U64, k: nat, m: nat)
    ensures Plus(Plus(a, k), m) == Plus(a, k + m)
  {
  }

  // ---- One prologue ----

  lemma {:induction false} UpLeaves(c: Cpu, to: U64, from: U64, size: U64, left: nat, sched: seq<Outcome>)
    requires c.Valid() && left <= size
    ensures
      var r := UpPrologue(c, to, from, size, left, sched);
      && (r.1 == Done ==>
            r.0.d == Plus(to, size) && r.0.s == Plus(from, size) && r.0.n == Minus(size - left) && r.0.flags == CLEAR)
      && (r.1 != Done ==>
            && r.1 == Faulted && r.0.n <= size
            && Plus(r.0.d, r.0.n) == Plus(to, size) && Plus(r.0.s, r.0.n) == Plus(from, size))
    decreases left
  {
    hide Plus, Minus, CopyBytes, CopyLimit;
    if left > 0 && Progresses(sched) {
      var k := Covered(sched[0], CopyLimit(to, from, left, false));
      var c1 := c.(d := to, s := from, n := size);
      PlusTwice(to, k, size - k);
      PlusTwice(from, k, size - k);
      UpLeaves(c1.(mem := CopyBytes(c1.mem, to, from, k, false)), Plus(to, k), Plus(from, k), size - k, left - k,
        sched[1..]);
    }
  }

  lemma {:induction false} DownLeaves(c: Cpu, t: U64, f: U64, size: U64, left: nat, sched: seq<Outcome>)
    requires c.Valid() && left <= size
    ensures
      var r := DownPrologue(c, t, f, size, left, sched);
      && r.0.d == c.d && r.0.s == c.s && r.0.n <= size && r.1 != Mismatch
      && (r.1 == Done ==> r.0.n == size - left && r.0.flags == CLEAR)
    decreases left
  {
    hide Less, CopyBytes, CopyLimit;
    if left > 0 && Progresses(sched) {
      var k := Covered(sched[0], CopyLimit(t, f, left, true));
      var c1 := c.(n := size);
      DownLeaves(c1.(mem := CopyBytes(c1.mem, t, f, k, true)), Less(t, k), Less(f, k), size - k, left - k, sched[1..]);
    }
  }

  /** Whether a prologue execution that begins with these registers goes backward. */
  predicate Back(move: bool, c: Cpu) {
    Backward(move, c.d, c.s, Cap(move, c.n))
  }

  /** The registers past the end of what is left. */
  function EndTo(move: bool, c: Cpu): U64 {
    Plus(c.d, Cap(move, c.n))
  }

  function EndFrom(move: bool, c: Cpu): U64 {
    Plus(c.s, Cap(move, c.n))
  }

  /** Forward, the ends stay where they are and are what completion leaves; backward, the starts do. */
  lemma {:induction false} PrologueLeaves(move: bool, c: Cpu, sched: seq<Outcome>)
    requires c.Valid()
    ensures
      var r := PrologueOf(move, c, sched);
      && r.1 != Mismatch && (r.1 == Faulted ==> Cap(move, r.0.n) <= Cap(move, c.n))
      && (Back(move, c) ==> r.0.d == c.d && r.0.s == c.s)
      && (r.1 == Done ==> r.0.flags == CLEAR)
      && (!Back(move, c) && r.1 == Done ==> r.0.d == EndTo(move, c) && r.0.s == EndFrom(move, c))
      && (!Back(move, c) && r.1 == Faulted ==>
            EndTo(move, r.0) == EndTo(move, c) && EndFrom(move, r.0) == EndFrom(move, c))
  {
    hide Plus, UpPrologue, DownPrologue, CopyLimit, Backward;
    var size := Cap(move, c.n);
    if !Back(move, c) {
      UpLeaves(c, c.d, c.s, size, CopyLimit(c.d, c.s, size, false), sched);
    } else {
      BackSize(move, c);
      var t, f := Plus(c.d, size - 1), Plus(c.s, size - 1);
      DownLeaves(c, t, f, size, CopyLimit(t, f, size, true), sched);
    }
  }

  lemma BackSize(move: bool, c: Cpu)
    requires Back(move, c)
    ensures Cap(move, c.n) > 0
  {
    assert Plus(c.s, 0) == c.s;
  }

  /** A prologue that completes has done what fits on the first pages, and leaves the rest as a count. */
  lemma {:induction false} PrologueDoes(move: bool, c: Cpu, sched: seq<Outcome>)
    requires c.Valid() && PrologueOf(move, c, sched).1 == Done
    ensures
      var r, size := PrologueOf(move, c, sched).0, Cap(move, c.n);
      && r.flags == CLEAR
      && (!Back(move, c) ==> r.n == Minus(size - CopyLimit(c.d, c.s, size, false)))
      && (Back(move, c) ==>
            size > 0 && r.n == size - CopyLimit(Plus(c.d, size - 1), Plus(c.s, size - 1), size, true))
  {
    hide Plus, UpPrologue, DownPrologue, CopyLimit, Backward, Minus;
    var size := Cap(move, c.n);
    if !Back(move, c) {
      UpLeaves(c, c.d, c.s, size, CopyLimit(c.d, c.s, size, false), sched);
    } else {
      BackSize(move, c);
      var t, f := Plus(c.d, size - 1), Plus(c.s, size - 1);
      DownLeaves(c, t, f, size, CopyLimit(t, f, size, true), sched);
    }
  }

  // ---- Main and epilogue ----

  /** With less than a page left the main instruction does nothing. */
  lemma {:induction false} MainSkips(move: bool, c: Cpu, sched: seq<Outcome>)
    requires c.Valid() && !c.flags.c && (if !move || c.n >= W / 2 then Minus(c.n) else c.n) < PAGE
    ensures TailOf(move, Main, c, sched) == (c, Done)
  {
    hide Plus;
  }

  lemma {:induction false} TailLeaves(c: Cpu, stage: Stage, fwd: bool, to: U64, from: U64, size: U64,
      sched: seq<Outcome>)
    requires c.Valid() && (stage == Main || stage == Epilogue)
    ensures
      var r := Tail(c, stage, fwd, to, from, size, sched);
      && r.0.d == c.d && r.0.s == c.s && r.0.flags == c.flags && r.1 != Mismatch
      && (stage == Epilogue && r.1 == Done && (size > 0 || c.n == 0) ==> r.0.n == 0)
    decreases size
  {
    hide CopyBytes, CopyLimit, Along;
    if (if stage == Main then size >= PAGE else size > 0) && Progresses(sched) {
      var k := Covered(sched[0], CopyLimit(to, from, size, !fwd));
      TailLeaves(c.(mem := CopyBytes(c.mem, to, from, k, !fwd), n := if fwd then Minus(size - k) else size - k), stage,
        fwd, Along(to, k, fwd), Along(from, k, fwd), size - k, sched[1..]);
    }
  }

  lemma {:induction false} TailOfLeaves(move: bool, stage: Stage, c: Cpu, sched: seq<Outcome>)
    requires c.Valid() && (stage == Main || stage == Epilogue)
    ensures
      var r := TailOf(move, stage, c, sched);
      && r.0.d == c.d && r.0.s == c.s && r.0.flags == c.flags
      && (stage == Epilogue && r.1 == Done ==> r.0.n == 0)
  {
    hide Plus, Tail;
    if c.n != 0 && !c.flags.c {
      var fwd := !move || c.n >= W / 2;
      var size := if fwd then Minus(c.n) else c.n;
      if fwd {
        TailLeaves(c, stage, fwd, Plus(c.d, c.n), Plus(c.s, c.n), size, sched);
      } else {
        TailLeaves(c, stage, fwd, Plus(c.d, size - 1), Plus(c.s, size - 1), size, sched);
      }
    }
  }

  /** After the prologue the address registers stay, and at the end nothing is left to do. */
  lemma {:induction false} AfterPrologue(move: bool, stage: Stage, c: Cpu, scheds: seq<seq<Outcome>>)
    requires c.Valid() && stage != Prologue && (stage == End ==> c.n == 0)
    ensures
      var r := Run(move, stage, c, scheds);
      r.1.d == c.d && r.1.s == c.s && r.1.flags == c.flags && (r.0 == End ==> r.1.n == 0)
    decreases |scheds|
  {
    hide TailOf;
    if scheds != [] && stage != End {
      TailOfLeaves(move, stage, c, scheds[0]);
      var r := TailOf(move, stage, c, scheds[0]);
      if r.1 == Done {
        AfterPrologue(move, Next(stage), r.0, scheds[1..]);
      } else if r.1 == Faulted {
        AfterPrologue(move, stage, r.0, scheds[1..]);
      }
    }
  }

  // ---- Whole runs ----

  /** The registers each prologue execution begins with, up to the one that completes. */
  function Begun(move: bool, c: Cpu, scheds: seq<seq<Outcome>>): (b: seq<Cpu>)
    requires c.Valid()
    ensures b != [] ==> b[0] == c
    decreases |scheds|
  {
    if scheds == [] then []
    else
      var r := PrologueOf(move, c, scheds[0]);
      [c] + if r.1 == Faulted then Begun(move, r.0, scheds[1..]) else []
  }

  /**
   Every run that gets past the prologue: nothing is left at the end, and the
   address registers are those of the execution that completed it, at their
   starts if it went backward and past its end if forward.
   */
  lemma {:induction false} RunLeaves(move: bool, c: Cpu, scheds: seq<seq<Outcome>>)
    requires c.Valid() && Run(move, Prologue, c, scheds).0 != Prologue
    ensures
      var r, b := Run(move, Prologue, c, scheds).1, Begun(move, c, scheds);
      && b != [] && r.flags == CLEAR && (Run(move, Prologue, c, scheds).0 == End ==> r.n == 0)
      && var p := b[|b| - 1];
         && r.d == (if Back(move, p) then p.d else EndTo(move, p))
         && r.s == (if Back(move, p) then p.s else EndFrom(move, p))
    decreases |scheds|
  {
    hide PrologueOf, Back, EndTo, EndFrom;
    PrologueLeaves(move, c, scheds[0]);
    var r := PrologueOf(move, c, scheds[0]);
    if r.1 == Done {
      AfterPrologue(move, Main, r.0, scheds[1..]);
    } else {
      RunLeaves(move, r.0, scheds[1..]);
    }
  }

  /** While prologue executions go forward, the ends of what is left stay. */
  lemma {:induction false} EndsStay(move: bool, c: Cpu, scheds: seq<seq<Outcome>>, i: nat)
    requires c.Valid() && i < |Begun(move, c, scheds)|
    requires forall j :: 0 <= j < i ==> !Back(move, Begun(move, c, scheds)[j])
    ensures
      var b := Begun(move, c, scheds);
      EndTo(move, b[i]) == EndTo(move, c) && EndFrom(move, b[i]) == EndFrom(move, c)
    decreases i
  {
    hide PrologueOf, Back, EndTo, EndFrom, Cap;
    if i > 0 {
      var r := PrologueOf(move, c, scheds[0]);
      var b, rest := Begun(move, c, scheds), Begun(move, r.0, scheds[1..]);
      assert !Back(move, b[0]);
      PrologueLeaves(move, c, scheds[0]);
      forall j | 0 <= j < i - 1 ensures !Back(move, rest[j]) {
        assert rest[j] == b[j + 1];
      }
      EndsStay(move, r.0, scheds[1..], i - 1);
    }
  }

  /** While they go backward, its starts do. */
  lemma {:induction false} StartsStay(move: bool, c: Cpu, scheds: seq<seq<Outcome>>, i: nat)
    requires c.Valid() && i < |Begun(move, c, scheds)|
    requires forall j :: 0 <= j < i ==> Back(move, Begun(move, c, scheds)[j])
    ensures
      var b := Begun(move, c, scheds);
      b[i].d == c.d && b[i].s == c.s && Cap(move, b[i].n) <= Cap(move, c.n)
    decreases i
  {
    hide PrologueOf, Back, EndTo, EndFrom, Cap;
    if i > 0 {
      var r := PrologueOf(move, c, scheds[0]);
      var b, rest := Begun(move, c, scheds), Begun(move, r.0, scheds[1..]);
      assert Back(move, b[0]);
      PrologueLeaves(move, c, scheds[0]);
      forall j | 0 <= j < i - 1 ensures Back(move, rest[j]) {
        assert rest[j] == b[j + 1];
      }
      StartsStay(move, r.0, scheds[1..], i - 1);
    }
  }

  // ---- Copies that do not wrap ----

  /** What has once gone forward goes forward when it is tried again. */
  lemma {:induction false} ForwardStays(t: Task, c: Cpu, sched: seq<Outcome>, lo: nat, hi: nat)
    requires t.Valid() && Input(t, c, lo, hi) && !Back(t.move, c) && PrologueOf(t.move, c, sched).1 == Faulted
    ensures !Back(t.move, PrologueOf(t.move, c, sched).0)
  {
    hide Copied, CopyLimit;
    DirectionIsSafe(t, c, lo, hi);
    var size := Cap(t.move, c.n);
    var left := CopyLimit(c.d, c.s, size, false);
    var x := UpPrologueKeeps(t, c, c.d, c.s, size, left, sched, lo, hi);
    var r := UpPrologue(c, c.d, c.s, size, left, sched);
    if x > lo {
      DirectionIsSafe(t, r.0, x, hi);
    }
  }

  lemma {:induction false} AllForward(t: Task, c: Cpu, scheds: seq<seq<Outcome>>, lo: nat, hi: nat, i: nat)
    requires t.Valid() && Input(t, c, lo, hi) && !Back(t.move, c) && i < |Begun(t.move, c, scheds)|
    ensures !Back(t.move, Begun(t.move, c, scheds)[i])
    decreases i
  {
    assert c.Valid();
    hide PrologueOf, Back, Input, Started;
    if i > 0 {
      var r := PrologueOf(t.move, c, scheds[0]);
      ForwardStays(t, c, scheds[0], lo, hi);
      var x, y := PrologueKeeps(t, c, scheds[0], lo, hi);
      AllForward(t, r.0, scheds[1..], x, y, i - 1);
    }
  }

  /** The first j prologue executions went backward, and the rest forward. */
  ghost predicate Turned(move: bool, b: seq<Cpu>, j: nat) {
    && j <= |b| && (forall i :: 0 <= i < j ==> Back(move, b[i])) && (forall i :: j <= i < |b| ==> !Back(move, b[i]))
  }

  /**
   The registers at the end of a copy. Nothing is left in Xn. If the prologue
   that completed went backward, the addresses are the ones given. If not, they
   are past what was left when it turned forward, which is the whole copy if it
   never went backward.
   */
  lemma {:induction false} CopyRegisters(t: Task, c: Cpu, scheds: seq<seq<Outcome>>, lo: nat, hi: nat) returns (j: nat)
    requires t.Valid() && Input(t, c, lo, hi) && Run(t.move, Prologue, c, scheds).0 == End
    ensures
      var r, b := Run(t.move, Prologue, c, scheds).1, Begun(t.move, c, scheds);
      && Turned(t.move, b, j) && r.n == 0
      && (j == |b| ==> r.d == c.d && r.s == c.s)
      && (j < |b| ==>
            var left := Cap(t.move, b[j].n);
            left <= Cap(t.move, c.n) && r.d == Plus(c.d, left) && r.s == Plus(c.s, left))
    decreases |scheds|
  {
    assert c.Valid();
    hide PrologueOf, Back, Input, Started, Plus, Run, Cap;
    if !Back(t.move, c) {
      j := 0;
      ForwardEnds(t, c, scheds, lo, hi);
    } else {
      hide Begun;
      var r := PrologueOf(t.move, c, scheds[0]);
      PrologueLeaves(t.move, c, scheds[0]);
      BegunStep(t.move, c, scheds);
      RunLeaves(t.move, c, scheds);
      if r.1 == Done {
        j := 1;
      } else {
        var x, y := PrologueKeeps(t, c, scheds[0], lo, hi);
        RunStep(t.move, c, scheds);
        j := CopyRegisters(t, r.0, scheds[1..], x, y);
        j := j + 1;
      }
    }
  }

  lemma BegunStep(move: bool, c: Cpu, scheds: seq<seq<Outcome>>)
    requires c.Valid() && scheds != []
    ensures
      var r := PrologueOf(move, c, scheds[0]);
      Begun(move, c, scheds) == [c] + if r.1 == Faulted then Begun(move, r.0, scheds[1..]) else []
  {
    hide PrologueOf;
  }

  lemma {:induction false} ForwardEnds(t: Task, c: Cpu, scheds: seq<seq<Outcome>>, lo: nat, hi: nat)
    requires t.Valid() && Input(t, c, lo, hi) && Run(t.move, Prologue, c, scheds).0 == End && !Back(t.move, c)
    ensures
      var r, b := Run(t.move, Prologue, c, scheds).1, Begun(t.move, c, scheds);
      && b != [] && b[0] == c && Turned(t.move, b, 0)
      && r.n == 0 && r.d == EndTo(t.move, c) && r.s == EndFrom(t.move, c)
  {
    assert c.Valid();
    hide PrologueOf, Back, Input, Run, EndTo, EndFrom;
    var b := Begun(t.move, c, scheds);
    RunLeaves(t.move, c, scheds);
    forall i | 0 <= i < |b| ensures !Back(t.move, b[i]) {
      AllForward(t, c, scheds, lo, hi, i);
    }
    EndsStay(t.move, c, scheds, |b| - 1);
  }

  lemma RunStep(move: bool, c: Cpu, scheds: seq<seq<Outcome>>)
    requires c.Valid() && scheds != [] && PrologueOf(move, c, scheds[0]).1 == Faulted
    ensures
      Run(move, Prologue, c, scheds) == Run(move, Prologue, PrologueOf(move, c, scheds[0]).0, scheds[1..])
  {
    hide PrologueOf;
  }

  /** From the start of the copy. */
  lemma {:induction false} CopyLeaves(t: Task, c: Cpu, scheds: seq<seq<Outcome>>) returns (j: nat)
    requires t.Valid() && Starts(t, c) && Run(t.move, Prologue, c, scheds).0 == End
    ensures
      var r, b := Run(t.move, Prologue, c, scheds).1, Begun(t.move, c, scheds);
      && Turned(t.move, b, j) && r.n == 0
      && (j == 0 ==> r.d == Plus(c.d, t.n) && r.s == Plus(c.s, t.n))
      && (j == |b| ==> r.d == c.d && r.s == c.s)
      && (0 < j < |b| ==>
            var left := Cap(t.move, b[j].n);
            left <= t.n && r.d == Plus(c.d, left) && r.s == Plus(c.s, left))
  {
    hide Run, Plus, Back, Input;
    StartsInvariant(t, c);
    RunLeaves(t.move, c, scheds);
    j := CopyRegisters(t, c, scheds, 0, t.n);
  }

  // ---- Sets ----

  lemma {:induction false} SetPrologueLeaves(c: SetCpu, v: Byte, to: U64, size: U64, left: nat, sched: seq<Outcome>)
    requires c.Valid() && left <= size
    ensures
      var r := SetPrologue(c, v, to, size, left, sched);
      && (r.1 == Done ==> r.0.d == Plus(to, size) && r.0.flags == CLEAR)
      && (r.1 != Done ==> r.1 == Faulted && r.0.n <= size && Plus(r.0.d, r.0.n) == Plus(to, size))
    decreases left
  {
    hide Plus, Minus, Fill, SetLimit;
    if left > 0 && Progresses(sched) {
      var k := Covered(sched[0], SetLimit(to, left));
      PlusTwice(to, k, size - k);
      SetPrologueLeaves(c.(d := to, n := size, mem := Fill(c.mem, Va(to), k, v)), v, Plus(to, k), size - k, left - k,
        sched[1..]);
    }
  }

  lemma {:induction false} SetTailLeaves(c: SetCpu, v: Byte, to: U64, size: U64, left: nat, sched: seq<Outcome>)
    requires c.Valid() && left <= size
    ensures
      var r := SetTail(c, v, to, size, left, sched);
      r.0.d == c.d && r.0.flags == c.flags && r.1 != Mismatch && (left == size > 0 && r.1 == Done ==> r.0.n == 0)
    decreases left
  {
    hide Plus, Fill, SetLimit;
    if left > 0 && Progresses(sched) {
      var k := Covered(sched[0], SetLimit(to, size));
      var c1 := c.(mem := Fill(c.mem, Va(to), k, v), n := Minus(size - k));
      SetTailLeaves(c1, v, Plus(to, k), size - k, if k >= left then 0 else left - k, sched[1..]);
    }
  }

  lemma {:induction false} SetAfterPrologue(stage: Stage, c: SetCpu, v: Byte, scheds: seq<seq<Outcome>>)
    requires c.Valid() && stage != Prologue && (stage == End ==> c.n == 0)
    ensures
      var r := SetRun(stage, c, v, scheds);
      r.1.d == c.d && r.1.flags == c.flags && (r.0 == End ==> r.1.n == 0)
    decreases |scheds|
  {
    hide SetTail, Plus;
    if scheds != [] && stage != End {
      if c.n != 0 && !c.flags.c {
        var size := Minus(c.n);
        SetTailLeaves(c, v, Plus(c.d, c.n), size, if stage == Main then size / PAGE * PAGE else size, scheds[0]);
      }
      var r := SetExec(stage, c, v, scheds[0]);
      if r.1 == Done {
        SetAfterPrologue(Next(stage), r.0, v, scheds[1..]);
      } else if r.1 == Faulted {
        SetAfterPrologue(stage, r.0, v, scheds[1..]);
      }
    }
  }

  /** The registers at the end of a set, for every start and schedule: past the last byte, and nothing left. */
  lemma {:induction false} SetLeaves(c: SetCpu, v: Byte, scheds: seq<seq<Outcome>>)
    requires c.Valid()
    ensures
      var r := SetRun(Prologue, c, v, scheds);
      && (r.0 != Prologue ==> r.1.d == Plus(c.d, Cap(false, c.n)) && r.1.flags == CLEAR)
      && (r.0 == End ==> r.1.n == 0)
    decreases |scheds|
  {
    hide SetPrologue, Plus, SetLimit;
    if scheds != [] {
      var size := Cap(false, c.n);
      SetPrologueLeaves(c, v, c.d, size, SetLimit(c.d, size), scheds[0]);
      var r := SetExec(Prologue, c, v, scheds[0]);
      if r.1 == Done {
        SetAfterPrologue(Main, r.0, v, scheds[1..]);
      } else {
        SetLeaves(r.0, v, scheds[1..]);
      }
    }
  }
}
