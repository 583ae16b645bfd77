/**
 The generic timer in deterministic mode: the cached deadline that lets most ticks
 skip the update, and the idle fast-forward. The count moves modulo 2^64.
 */
module Timer {
  import opened Binary
  import opened Pow2
  import opened Words
  import Gic

  const NEVER: int := 0xffff_ffff_ffff_ffff
  const PHYS: nat := 30
  const VIRT: nat := 27

  datatype Compare = Compare(ctl: bv64, cval: U64)

  datatype Machine = Machine(icount: U64, skip: U64, phys: Compare, virt: Compare, deadline: U64, gic: Gic.State)

  function Wrap(x: int): U64 {
    x % W
  }

  /** gt_count; the virtual offset is never written, so both counters agree. */
  function Count(m: Machine): U64 {
    Wrap(m.icount + m.skip)
  }

  predicate Armed(t: Compare) {
    t.ctl & 1 != 0 && t.ctl & 2 == 0
  }

  predicate Fires(t: Compare, count: U64) {
    Armed(t) && count >= t.cval
  }

  /** deadline_count: the earliest armed compare value. */
  function Deadline(m: Machine): U64 {
    var best: U64 := if Armed(m.phys) then m.phys.cval else NEVER;
    if Armed(m.virt) && m.virt.cval < best then m.virt.cval else best
  }

  predicate Sized(m: Machine) {
    Gic.Sized(m.gic)
  }

  /** timer_update */
  function Update(m: Machine): (r: Machine)
    requires Sized(m)
    ensures Sized(r)
  {
    var g := Gic.SetIrq(m.gic, PHYS, Fires(m.phys, Count(m)));
    m.(gic := Gic.SetIrq(g, VIRT, Fires(m.virt, Count(m))), deadline := Deadline(m))
  }

  /** timer_check, the per-tick path. */
  function Check(m: Machine): (r: Machine)
    requires Sized(m)
    ensures Sized(r)
  {
    if Count(m) >= m.deadline then Update(m) else m
  }

  /** Both timer lines as an unconditional update would drive them. */
  predicate LinesRight(m: Machine)
    requires Sized(m)
  {
    m.gic.line[PHYS] == Fires(m.phys, Count(m)) && m.gic.line[VIRT] == Fires(m.virt, Count(m))
  }

  predicate Asserted(m: Machine)
    requires Sized(m)
  {
    m.gic.line[PHYS] || m.gic.line[VIRT]
  }

  lemma {:induction false} SetIrqLine(g: Gic.State, intid: nat, level: bool)
    requires Gic.Sized(g) && intid < Gic.IRQS
    ensures Gic.SetIrq(g, intid, level).line == g.line[intid := level]
  {
    hide Gic.Best;
  }

  lemma {:induction false} UpdateRight(m: Machine)
    requires Sized(m)
    ensures LinesRight(Update(m)) && Update(m).deadline == Deadline(Update(m))
    ensures Count(Update(m)) == Count(m)
  {
    hide Fires, Gic.SetIrq, Armed;
    var g := Gic.SetIrq(m.gic, PHYS, Fires(m.phys, Count(m)));
    SetIrqLine(m.gic, PHYS, Fires(m.phys, Count(m)));
    SetIrqLine(g, VIRT, Fires(m.virt, Count(m)));
  }

  lemma ControlBits(ctl: bv64)
    ensures ctl & 1 != 0 <==> Odd(RightBy(Widened(ctl), 0))
    ensures ctl & 2 != 0 <==> Odd(RightBy(Widened(ctl), 1))
  {
  }

  /** ENABLE is bit 0 of the control register and IMASK bit 1. */
  lemma {:induction false} ArmedIs(t: Compare)
    ensures Armed(t) <==> Number(t.ctl) % 2 == 1 && Number(t.ctl) / 2 % 2 == 0
  {
    hide Odd, RightBy, Widened, Number, Down;
    ControlBits(t.ctl);
    RightIs(Widened(t.ctl), 0);
    RightIs(Widened(t.ctl), 1);
    DigitIs(t.ctl, 0);
    DigitIs(t.ctl, 1);
    P2Zero(0);
    P2Zero(1);
  }

  /** After an update a timer's line is up exactly when it is enabled, not masked and its compare value is reached. */
  lemma {:induction false} UpdateDrives(m: Machine)
    requires Sized(m)
    ensures
      var r, count, p, v := Update(m), (m.icount + m.skip) % W, Number(m.phys.ctl), Number(m.virt.ctl);
      && (r.gic.line[30] <==> p % 2 == 1 && p / 2 % 2 == 0 && count >= m.phys.cval)
      && (r.gic.line[27] <==> v % 2 == 1 && v / 2 % 2 == 0 && count >= m.virt.cval)
      && forall i :: 0 <= i < Gic.IRQS && i != 30 && i != 27 ==> r.gic.line[i] == m.gic.line[i]
  {
    hide Armed, Number, Gic.SetIrq;
    ArmedIs(m.phys);
    ArmedIs(m.virt);
    var g := Gic.SetIrq(m.gic, PHYS, Fires(m.phys, Count(m)));
    SetIrqLine(m.gic, PHYS, Fires(m.phys, Count(m)));
    SetIrqLine(g, VIRT, Fires(m.virt, Count(m)));
  }

  /** The deadline is the earliest compare value of a timer that can fire, and no earlier. */
  lemma {:induction false} DeadlineIs(m: Machine)
    ensures Armed(m.phys) ==> Deadline(m) <= m.phys.cval
    ensures Armed(m.virt) ==> Deadline(m) <= m.virt.cval
    ensures
      || Deadline(m) == NEVER
      || (Armed(m.phys) && Deadline(m) == m.phys.cval) || (Armed(m.virt) && Deadline(m) == m.virt.cval)
  {
    hide Armed;
  }

  /** Below the deadline nothing fires. */
  lemma {:induction false} QuietBelow(m: Machine, count: U64)
    ensures count < Deadline(m) ==> !Fires(m.phys, count) && !Fires(m.virt, count)
  {
    hide Armed;
  }

  // ---- The invariant ----

  /** The cache awaits a forced update or holds the earliest armed compare value. */
  predicate Tracked(m: Machine) {
    m.deadline == 0 || m.deadline == Deadline(m)
  }

  /** A line is up although the cached deadline is still ahead, so a tick will not look at it. */
  predicate Stale(m: Machine)
    requires Sized(m)
  {
    Count(m) < m.deadline && Asserted(m)
  }

  predicate Cached(m: Machine)
    requires Sized(m)
  {
    Tracked(m) && !Stale(m)
  }

  /** With a tracked deadline a tick leaves the lines right exactly when none is stale. */
  lemma {:induction false} TickRight(m: Machine)
    requires Sized(m) && Tracked(m)
    ensures LinesRight(Check(m)) <==> !Stale(m)
  {
    hide Fires, Deadline, Update, Count;
    UpdateRight(m);
    QuietBelow(m, Count(m));
  }

  /** The single compare of a tick leaves the lines an unconditional update would. */
  lemma {:induction false} CheckRight(m: Machine)
    requires Sized(m) && Cached(m)
    ensures LinesRight(Check(m)) && Check(m).gic.line == Update(m).gic.line && Cached(Check(m))
  {
    hide Fires, Deadline, Update;
    UpdateRight(m);
    UpdateCached(m);
    QuietBelow(m, Count(m));
    if Count(m) < m.deadline {
      UpdateLines(m);
      assert Update(m).gic.line == m.gic.line;
    }
  }

  lemma {:induction false} UpdateLines(m: Machine)
    requires Sized(m)
    ensures Update(m).gic.line == m.gic.line[PHYS := Fires(m.phys, Count(m))][VIRT := Fires(m.virt, Count(m))]
  {
    hide Fires, Gic.SetIrq;
    SetIrqLine(m.gic, PHYS, Fires(m.phys, Count(m)));
    SetIrqLine(Gic.SetIrq(m.gic, PHYS, Fires(m.phys, Count(m))), VIRT, Fires(m.virt, Count(m)));
  }

  lemma {:induction false} UpdateCached(m: Machine)
    requires Sized(m)
    ensures Cached(Update(m))
  {
    hide Fires, Deadline, Update;
    UpdateRight(m);
    QuietBelow(Update(m), Count(m));
  }

  // ---- Time passing ----

  function Retire(m: Machine, n: U64): Machine {
    m.(icount := Wrap(m.icount + n))
  }

  lemma {:induction false} RetireCount(m: Machine, n: U64)
    ensures Count(Retire(m, n)) == if Count(m) + n < W then Count(m) + n else Count(m) + n - W
  {
    WrapAdd(m.icount + n, m.skip);
    WrapAdd(m.icount + m.skip, n);
    WrapOnce(Count(m) + n);
  }

  lemma WrapAdd(a: int, b: int)
    requires a >= 0
    ensures Wrap(Wrap(a) + b) == Wrap(a + b)
  {
  }

  lemma WrapOnce(a: int)
    requires 0 <= a < 2 * W
    ensures Wrap(a) == if a < W then a else a - W
  {
  }

  /** The count wraps to below the deadline while a line is up. */
  predicate WrapsBelow(m: Machine, n: U64)
    requires Sized(m)
  {
    Count(m) + n >= W && Count(m) + n - W < m.deadline && Asserted(m)
  }

  /** Retiring leaves a stale line exactly in that case. */
  lemma {:induction false} RetireKeeps(m: Machine, n: U64)
    requires Sized(m) && Cached(m)
    ensures Cached(Retire(m, n)) <==> !WrapsBelow(m, n)
  {
    hide Count, Armed;
    RetireCount(m, n);
    CountBound(m);
  }

  /** So the tick after it drives the lines as an unconditional update would exactly when it does not happen. */
  lemma {:induction false} RetireThenTick(m: Machine, n: U64)
    requires Sized(m) && Cached(m)
    ensures LinesRight(Check(Retire(m, n))) <==> !WrapsBelow(m, n)
  {
    hide Count, Deadline, LinesRight, Check, WrapsBelow, Asserted;
    RetireKeeps(m, n);
    SameDeadline(m, Retire(m, n));
    TickRight(Retire(m, n));
  }

  lemma CountBound(m: Machine)
    ensures 0 <= Count(m) < W
  {
  }

  // ---- Idle fast-forward ----

  /** Ticks until a compare value is reached. */
  function Distance(t: Compare, count: U64): U64 {
    if t.cval <= count then 0 else t.cval - count
  }

  /** timer_next_deadline_ticks */
  function Remaining(m: Machine): U64 {
    var best: U64 := if Armed(m.phys) && Distance(m.phys, Count(m)) < NEVER then Distance(m.phys, Count(m)) else NEVER;
    if Armed(m.virt) && Distance(m.virt, Count(m)) < best then Distance(m.virt, Count(m)) else best
  }

  /** The clock part of machine_wait_for_event. */
  function FastForward(m: Machine, input: bool): Machine {
    if !m.gic.irq && !input && Remaining(m) != NEVER then m.(skip := Wrap(m.skip + Remaining(m))) else m
  }

  predicate AnyArmed(m: Machine) {
    Armed(m.phys) || Armed(m.virt)
  }

  /** Some armed timer is due in this many ticks, and none sooner; NEVER also when none is armed. */
  lemma {:induction false} RemainingIs(m: Machine)
    ensures AnyArmed(m) ==> Remaining(m) == if Deadline(m) <= Count(m) then 0 else Deadline(m) - Count(m)
    ensures !AnyArmed(m) ==> Remaining(m) == NEVER
  {
    hide Armed, Count;
    CountBound(m);
  }

  lemma {:induction false} SkipCount(m: Machine, n: U64)
    ensures Count(m.(skip := Wrap(m.skip + n))) == if Count(m) + n < W then Count(m) + n else Count(m) + n - W
  {
    WrapAdd(m.skip + n, m.icount);
    WrapAdd(m.icount + m.skip, n);
    WrapOnce(Count(m) + n);
  }

  /**
   A fast-forward lands on the nearest armed deadline, never past it and never
   backwards; the clock stands still when a timer is already due, when none is
   armed, and when the wait is interrupted.
   */
  lemma {:induction false} LandsOnDeadline(m: Machine, input: bool)
    ensures
      var m' := FastForward(m, input);
      Count(m') ==
        if m.gic.irq || input || !AnyArmed(m) || (Count(m) == 0 && Deadline(m) == NEVER) || Deadline(m) <= Count(m)
        then Count(m) else Deadline(m)
    ensures Count(m) <= Count(FastForward(m, input))
  {
    hide Armed, Count, Remaining, Deadline, AnyArmed;
    RemainingIs(m);
    SkipCount(m, Remaining(m));
    CountBound(m);
  }

  lemma {:induction false} FastForwardKeeps(m: Machine, input: bool)
    requires Sized(m) && Cached(m)
    ensures Sized(FastForward(m, input)) && Cached(FastForward(m, input))
  {
    hide Count, Armed, Remaining;
    LandsOnDeadline(m, input);
    SameDeadline(m, FastForward(m, input));
  }

  lemma SameDeadline(m: Machine, m': Machine)
    requires m'.phys == m.phys && m'.virt == m.virt
    ensures Deadline(m') == Deadline(m)
  {
  }

  // ---- Register writes ----

  datatype Register = Control | Value | TimerValue(value: int) | Other

  /** A CNT* write; TVAL counts from now, signed 32 bits. */
  function Programmed(m: Machine, t: Compare, r: Register, v: bv64, n: U64): Compare {
    match r
    case Control => t.(ctl := v)
    case Value => t.(cval := n)
    case TimerValue(offset) => t.(cval := Wrap(Count(m) + offset))
    case Other => t
  }

  function WriteRegister(m: Machine, virt: bool, r: Register, v: bv64, n: U64): (m': Machine)
    requires Sized(m)
    ensures Sized(m')
  {
    Update(
      if virt then m.(virt := Programmed(m, m.virt, r, v, n)) else m.(phys := Programmed(m, m.phys, r, v, n)))
  }

  /** A register write changes its own timer only: control, compare value, or a compare value that far from now. */
  lemma {:induction false} WriteSets(m: Machine, virt: bool, r: Register, v: bv64, n: U64)
    requires Sized(m)
    ensures
      var m' := WriteRegister(m, virt, r, v, n);
      var was, t := if virt then m.virt else m.phys, if virt then m'.virt else m'.phys;
      && m'.icount == m.icount && m'.skip == m.skip
      && (if virt then m'.phys == m.phys else m'.virt == m.virt)
      && (r.Control? ==> t.ctl == v && t.cval == was.cval)
      && (r.Value? ==> t.ctl == was.ctl && t.cval == n)
      && (r.TimerValue? ==> t.ctl == was.ctl && t.cval == (m.icount + m.skip + r.value) % W)
      && (r.Other? ==> t == was)
  {
    hide Gic.SetIrq, Fires, Deadline;
    if r.TimerValue? {
      WrapAdd(m.icount + m.skip, r.value);
    }
  }

  /** A timer set to go off in so many ticks does so then and not before. */
  lemma {:induction false} TimerValueCounts(m: Machine, virt: bool, ticks: nat, k: U64)
    requires Sized(m) && Armed(if virt then m.virt else m.phys) && Count(m) + ticks < W && k <= ticks
    ensures
      var m' := Retire(WriteRegister(m, virt, TimerValue(ticks), 0, 0), k);
      Fires(if virt then m'.virt else m'.phys, Count(m')) <==> k == ticks
  {
    hide Gic.SetIrq, Deadline, Armed;
    WriteSets(m, virt, TimerValue(ticks), 0, 0);
    var m1 := WriteRegister(m, virt, TimerValue(ticks), 0, 0);
    WrapAdd(m.icount + m.skip, ticks);
    WrapOnce(Count(m) + ticks);
    RetireCount(m1, k);
    SameArmed(if virt then m.virt else m.phys, if virt then m1.virt else m1.phys);
  }

  lemma SameArmed(t: Compare, u: Compare)
    requires t.ctl == u.ctl
    ensures Armed(t) == Armed(u)
  {
  }

  // ---- Runs ----

  datatype Op =
    | Retired(n: U64)
    | Wrote(virt: bool, r: Register, v: bv64, n: U64)
    | Waited(input: bool)
    | Ticked
    | Interrupts(op: Gic.Op)
    | Reset

  /** GIC accesses and other devices' lines; only the timer drives its own two, and only a machine reset resets. */
  predicate Possible(op: Op) {
    op.Interrupts? ==>
      && Gic.InRange(op.op) && !op.op.Reset?
      && (op.op.Line? ==> op.op.intid != PHYS && op.op.intid != VIRT)
  }

  function Step(m: Machine, op: Op): (r: Machine)
    requires Sized(m) && Possible(op)
    ensures Sized(r)
  {
    match op
    case Retired(n) => Retire(m, n)
    case Wrote(virt, r, v, n) => WriteRegister(m, virt, r, v, n)
    case Waited(input) => Check(FastForward(m, input))
    case Ticked => Check(m)
    case Interrupts(g) => m.(gic := Gic.Step(m.gic, g))
    case Reset => Start()
  }

  function Start(): (m: Machine)
    ensures Sized(m)
  {
    Machine(0, 0, Compare(0, 0), Compare(0, 0), 0, Gic.Start())
  }

  lemma {:induction false} GicKeepsLines(g: Gic.State, op: Gic.Op)
    requires Gic.Sized(g) && Gic.InRange(op) && !op.Reset?
    requires op.Line? ==> op.intid != PHYS && op.intid != VIRT
    ensures Gic.Step(g, op).line[PHYS] == g.line[PHYS] && Gic.Step(g, op).line[VIRT] == g.line[VIRT]
  {
    hide Gic.Best, Gic.Drive, Gic.Priorities, Gic.Configured;
    if op.Line? && 0 <= op.intid < Gic.IRQS {
      SetIrqLine(g, op.intid, op.level);
    }
  }

  lemma {:induction false} StepKeeps(m: Machine, op: Op)
    requires Sized(m) && Possible(op) && Cached(m)
    ensures Cached(Step(m, op)) <==> !(op.Retired? && WrapsBelow(m, op.n))
  {
    hide Count, Deadline, Update, Check, FastForward, Gic.Step, Programmed;
    match op
    case Retired(n) => RetireKeeps(m, n);
    case Wrote(virt, r, v, n) =>
      UpdateCached(if virt then m.(virt := Programmed(m, m.virt, r, v, n)) else m.(phys := Programmed(m, m.phys, r,
        v, n)));
    case Waited(input) =>
      FastForwardKeeps(m, input);
      CheckRight(FastForward(m, input));
    case Ticked => CheckRight(m);
    case Interrupts(g) =>
      GicKeepsLines(m.gic, g);
      SameDeadline(m, Step(m, op));
      SameCount(m, Step(m, op));
    case Reset =>
  }

  lemma SameCount(m: Machine, m': Machine)
    requires m'.icount == m.icount && m'.skip == m.skip
    ensures Count(m') == Count(m)
  {
  }

  predicate AllPossible(ops: seq<Op>) {
    forall k :: 0 <= k < |ops| ==> Possible(ops[k])
  }

  function Play(ops: seq<Op>): (m: Machine)
    requires AllPossible(ops)
    ensures Sized(m)
  {
    if ops == [] then Start() else Step(Play(ops[..|ops| - 1]), ops[|ops| - 1])
  }

  lemma {:induction false} StepTracks(m: Machine, op: Op)
    requires Sized(m) && Possible(op) && Tracked(m)
    ensures Tracked(Step(m, op))
  {
    hide Count, Deadline, Update, Gic.Step, Programmed, Remaining;
    match op
    case Retired(n) => SameDeadline(m, Retire(m, n));
    case Wrote(virt, r, v, n) =>
      UpdateRight(
        if virt then m.(virt := Programmed(m, m.virt, r, v, n)) else m.(phys := Programmed(m, m.phys, r, v, n)));
    case Waited(input) =>
      SameDeadline(m, FastForward(m, input));
      UpdateRight(FastForward(m, input));
    case Ticked => UpdateRight(m);
    case Interrupts(g) => SameDeadline(m, Step(m, op));
    case Reset =>
  }

  lemma {:induction false} RunTracks(ops: seq<Op>)
    requires AllPossible(ops)
    ensures Tracked(Play(ops))
  {
    hide Step, Possible, Tracked;
    if ops == [] {
      StartCached();
    } else {
      RunTracks(ops[..|ops| - 1]);
      StepTracks(Play(ops[..|ops| - 1]), ops[|ops| - 1]);
    }
  }

  /**
   In every run, wrapping or not, a tick drives both timer lines as an
   unconditional update would if and only if no line is up ahead of the cached
   deadline.
   */
  lemma {:induction false} TickIsUpdate(ops: seq<Op>)
    requires AllPossible(ops)
    ensures LinesRight(Check(Play(ops))) <==> !Stale(Play(ops))
    ensures !Stale(Play(ops)) ==> Check(Play(ops)).gic.line == Update(Play(ops)).gic.line
  {
    hide Step, Possible, Check, Update, LinesRight, Tracked, Stale, Play;
    RunTracks(ops);
    TickRight(Play(ops));
    if !Stale(Play(ops)) {
      CheckRight(Play(ops));
    }
  }

  /** Retirement k wraps the count to below the deadline under an asserted line. */
  predicate WrapsAt(ops: seq<Op>, k: nat)
    requires AllPossible(ops) && k < |ops|
  {
    ops[k].Retired? && WrapsBelow(Play(ops[..k]), ops[k].n)
  }

  /** And no line is ever so in a run none of whose retirements wraps below the deadline under an asserted line. */
  lemma {:induction false} RunKeeps(ops: seq<Op>)
    requires AllPossible(ops) && forall k :: 0 <= k < |ops| ==> !WrapsAt(ops, k)
    ensures Cached(Play(ops)) && LinesRight(Check(Play(ops)))
  {
    hide Step, Possible, WrapsBelow, Cached, LinesRight, Check;
    if ops == [] {
      StartCached();
    } else {
      var n := |ops| - 1;
      var rest := ops[..n];
      forall k | 0 <= k < n ensures !WrapsAt(rest, k) {
        assert rest[..k] == ops[..k] && !WrapsAt(ops, k);
      }
      RunKeeps(rest);
      assert !WrapsAt(ops, n);
      StepKeeps(Play(rest), ops[n]);
    }
    CheckRight(Play(ops));
  }

  lemma StartCached()
    ensures Cached(Start())
  {
  }

  lemma {:induction false} PlayStep(ops: seq<Op>, op: Op)
    requires AllPossible(ops) && Possible(op)
    ensures Play(ops + [op]) == Step(Play(ops), op)
  {
    hide Step, Possible;
    assert (ops + [op])[..|ops|] == ops;
  }

  /**
   A run that shows it can fail: arm the timer for the last count but one, wait
   for it, and retire two instructions.
   */
  lemma {:induction false} WrapLeavesLineUp() returns (ops: seq<Op>)
    ensures AllPossible(ops) && Stale(Play(ops)) && !LinesRight(Check(Play(ops)))
  {
    hide Update, Play, Armed, Check, LinesRight, Stale;
    var a, b := [Wrote(false, Value, 0, NEVER - 1)], [Wrote(false, Control, 1, 0)];
    var c := a + b + [Waited(false)];
    ops := c + [Retired(2)];
    EmptyPlay();
    PlayStep([], a[0]);
    assert [] + a == a;
    PlayStep(a, b[0]);
    PlayStep(a + b, Waited(false));
    PlayStep(c, Retired(2));
    UpdateParts(Start().(phys := Compare(0, NEVER - 1)));
    UpdateParts(Play(a).(phys := Compare(1, NEVER - 1)));
    GicQuiet(Start().(phys := Compare(0, NEVER - 1)));
    GicQuiet(Play(a).(phys := Compare(1, NEVER - 1)));
    RunTracks(a + b);
    LateWrap(Play(a + b));
    TickIsUpdate(ops);
  }

  /** With the interfaces off no timer update raises the CPU line. */
  lemma {:induction false} GicQuiet(m: Machine)
    requires Sized(m) && !m.gic.distributorOn && !m.gic.irq
    ensures !Update(m).gic.distributorOn && !Update(m).gic.irq
  {
    hide Fires;
    QuietLine(m.gic, PHYS, Fires(m.phys, Count(m)));
    QuietLine(Gic.SetIrq(m.gic, PHYS, Fires(m.phys, Count(m))), VIRT, Fires(m.virt, Count(m)));
  }

  lemma {:induction false} QuietLine(g: Gic.State, intid: nat, level: bool)
    requires Gic.Sized(g) && !g.distributorOn && !g.irq && intid < Gic.IRQS
    ensures !Gic.SetIrq(g, intid, level).distributorOn && !Gic.SetIrq(g, intid, level).irq
  {
  }

  lemma EmptyPlay()
    ensures Play([]) == Start()
  {
  }

  lemma UpdateParts(m: Machine)
    requires Sized(m)
    ensures Update(m).phys == m.phys && Update(m).virt == m.virt
    ensures Update(m).icount == m.icount && Update(m).skip == m.skip
  {
  }

  lemma {:induction false} LateWrap(m: Machine)
    requires Sized(m) && m.icount == 0 && m.skip == 0 && m.phys == Compare(1, NEVER - 1) && m.virt == Compare(0, 0)
    requires !m.gic.irq && Tracked(m)
    ensures Stale(Retire(Step(m, Waited(false)), 2))
  {
    hide Update;
    var f := FastForward(m, false);
    assert Armed(m.phys) && !Armed(m.virt);
    assert f.skip == NEVER - 1 && Count(f) == NEVER - 1;
    var u := Check(f);
    UpdateRight(f);
    UpdateParts(f);
    assert u == Update(f) && u.gic.line[PHYS];
    RetireCount(u, 2);
  }
}
