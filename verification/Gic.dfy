/**
 GICv2 distributor and CPU interface for one CPU: eligibility, the interrupt line
 that follows it, acknowledge and deactivation.
 */
module Gic {
  import opened Binary

  const IRQS: nat := 256
  const SPURIOUS: nat := 1023

  datatype State = State(
    enabled: seq<bool>,
    pending: seq<bool>,
    active: seq<bool>,
    line: seq<bool>,
    edge: seq<bool>,
    priority: seq<int>,
    distributorOn: bool,
    interfaceOn: bool,
    pmr: int,
    irq: bool)

  predicate Sized(g: State) {
    && |g.enabled| == IRQS && |g.pending| == IRQS && |g.active| == IRQS
    && |g.line| == IRQS && |g.edge| == IRQS && |g.priority| == IRQS
    && 0 <= g.pmr < 256
  }

  predicate Eligible(g: State, i: int)
    requires Sized(g)
  {
    && 0 <= i < IRQS && g.distributorOn && g.interfaceOn
    && g.enabled[i] && g.pending[i] && !g.active[i] && g.priority[i] < g.pmr
  }

  ghost predicate AnyEligible(g: State)
    requires Sized(g)
  {
    exists i :: Eligible(g, i)
  }

  /** Ahead in (priority, INTID) order. */
  predicate Ahead(g: State, i: int, j: int)
    requires Sized(g) && 0 <= i < IRQS && 0 <= j < IRQS
  {
    g.priority[i] < g.priority[j] || (g.priority[i] == g.priority[j] && i <= j)
  }

  /** b is the least eligible interrupt in that order, or SPURIOUS when there is none. */
  ghost predicate IsBest(g: State, b: int)
    requires Sized(g)
  {
    if b == SPURIOUS then !AnyEligible(g)
    else Eligible(g, b) && forall j :: Eligible(g, j) ==> Ahead(g, b, j)
  }

  lemma BestUnique(g: State, a: int, b: int)
    requires Sized(g) && IsBest(g, a) && IsBest(g, b)
    ensures a == b
  {
  }

  /** The least among the first n. */
  function BestBelow(g: State, n: nat): (b: nat)
    requires Sized(g) && n <= IRQS
    ensures b == SPURIOUS || (b < n && Eligible(g, b))
    ensures b == SPURIOUS ==> forall j :: 0 <= j < n ==> !Eligible(g, j)
    ensures b != SPURIOUS ==> forall j :: 0 <= j < n && Eligible(g, j) ==> Ahead(g, b, j)
  {
    if n == 0 then SPURIOUS
    else
      var b := BestBelow(g, n - 1);
      if Eligible(g, n - 1) && (b == SPURIOUS || g.priority[n - 1] < g.priority[b]) then n - 1 else b
  }

  function Best(g: State): (b: nat)
    requires Sized(g)
    ensures IsBest(g, b) && (b == SPURIOUS || b < IRQS)
  {
    BestBelow(g, IRQS)
  }

  /** gic_update */
  function Update(g: State): (r: State)
    requires Sized(g)
    ensures Sized(r)
  {
    g.(irq := Best(g) != SPURIOUS)
  }

  /** A rising edge pends an edge-triggered interrupt; a level-triggered one pends with its line. */
  predicate Pend(g: State, intid: nat, level: bool)
    requires Sized(g) && intid < IRQS
  {
    if g.edge[intid] then g.pending[intid] || (level && !g.line[intid]) else level
  }

  /** gic_set_irq, with its early return when pending does not move. */
  function SetIrq(g: State, intid: int, level: bool): (r: State)
    requires Sized(g)
    ensures Sized(r)
  {
    if intid < 0 || intid >= IRQS then g
    else
      var pend := Pend(g, intid, level);
      var g' := g.(line := g.line[intid := level]);
      if pend == g.pending[intid] then g' else Update(g'.(pending := g.pending[intid := pend]))
  }

  predicate BitAt(val: bv64, i: nat)
    requires i < 64
  {
    Odd(RightBy(Widened(val), i))
  }

  function ByteAt(val: bv64, i: nat): int
    requires i < 8
  {
    Low(ByBytes(Widened(val), i), 8)
  }

  /** One 32-bit bank register: every set bit drives its interrupt's flag to one value. */
  function Drive(s: seq<bool>, base: nat, val: bv64, to: bool): (r: seq<bool>)
    requires base + 32 <= |s|
    ensures |r| == |s|
  {
    seq(|s|, j requires 0 <= j < |s| => if base <= j < base + 32 && BitAt(val, j - base) then to else s[j])
  }

  function Priorities(s: seq<int>, base: nat, size: nat, val: bv64): (r: seq<int>)
    requires base + size <= |s| && size <= 8
    ensures |r| == |s|
  {
    seq(|s|, j requires 0 <= j < |s| => if base <= j < base + size then ByteAt(val, j - base) else s[j])
  }

  function Configured(s: seq<bool>, base: nat, val: bv64): (r: seq<bool>)
    requires base + 16 <= |s|
    ensures |r| == |s|
  {
    seq(|s|, j requires 0 <= j < |s| => if base <= j < base + 16 then BitAt(val, 2 * (j - base) + 1) else s[j])
  }

  /** Acknowledge: the state after reading IAR; the value read is Best. */
  function Acknowledge(g: State): (r: State)
    requires Sized(g)
    ensures Sized(r)
  {
    var b := Best(g);
    if b == SPURIOUS then g
    else
      Update(g.(active := g.active[b := true], pending := if g.edge[b] then g.pending[b := false] else g.pending))
  }

  datatype Op =
    | Line(intid: int, level: bool)
    | DistributorCtl(on: bool)
    | Enable(base: nat, val: bv64)
    | Disable(base: nat, val: bv64)
    | SetPending(base: nat, val: bv64)
    | ClearPending(base: nat, val: bv64)
    | SetActive(base: nat, val: bv64)
    | ClearActive(base: nat, val: bv64)
    | Priority(base: nat, size: nat, val: bv64)
    | Config(base: nat, val: bv64)
    | Ack
    | InterfaceCtl(on: bool)
    | Mask(pmr: int)
    | EndOfInterrupt(id: nat)
    | Reset

  /** Register accesses that stay within the 256 interrupts. */
  predicate InRange(op: Op) {
    match op
    case Enable(base, _) => base + 32 <= IRQS
    case Disable(base, _) => base + 32 <= IRQS
    case SetPending(base, _) => base + 32 <= IRQS
    case ClearPending(base, _) => base + 32 <= IRQS
    case SetActive(base, _) => base + 32 <= IRQS
    case ClearActive(base, _) => base + 32 <= IRQS
    case Priority(base, size, _) => size <= 8 && base + size <= IRQS
    case Config(base, _) => base + 16 <= IRQS
    case Mask(pmr) => 0 <= pmr < 256
    case _ => true
  }

  function Zeros(): (r: seq<bool>)
    ensures |r| == IRQS && forall i :: 0 <= i < IRQS ==> !r[i]
  {
    seq(IRQS, _ => false)
  }

  /** Power-on state; a machine reset also clears the CPU's line. */
  function Start(): (g: State)
    ensures Sized(g) && !AnyEligible(g) && !g.irq
  {
    State(Zeros(), Zeros(), Zeros(), Zeros(), Zeros(), seq(IRQS, _ => 0), false, false, 0, false)
  }

  /** A register write that ends in gic_update, before it. */
  function Written(g: State, op: Op): (r: State)
    requires Sized(g) && InRange(op)
    ensures Sized(r)
  {
    match op
    case DistributorCtl(on) => g.(distributorOn := on)
    case Enable(base, val) => g.(enabled := Drive(g.enabled, base, val, true))
    case Disable(base, val) => g.(enabled := Drive(g.enabled, base, val, false))
    case SetPending(base, val) => g.(pending := Drive(g.pending, base, val, true))
    case ClearPending(base, val) => g.(pending := Drive(g.pending, base, val, false))
    case ClearActive(base, val) => g.(active := Drive(g.active, base, val, false))
    case Priority(base, size, val) => g.(priority := Priorities(g.priority, base, size, val))
    case InterfaceCtl(on) => g.(interfaceOn := on)
    case Mask(pmr) => g.(pmr := pmr)
    case EndOfInterrupt(id) => if id < IRQS then g.(active := g.active[id := false]) else g
    case _ => g
  }

  function Step(g: State, op: Op): (r: State)
    requires Sized(g) && InRange(op)
    ensures Sized(r)
  {
    match op
    case Line(intid, level) => SetIrq(g, intid, level)
    case SetActive(base, val) => g.(active := Drive(g.active, base, val, true))
    case Config(base, val) => g.(edge := Configured(g.edge, base, val))
    case Ack => Acknowledge(g)
    case Reset => Start()
    case _ => Update(Written(g, op))
  }

  // ---- No lost interrupt ----

  ghost predicate Raised(g: State)
    requires Sized(g)
  {
    AnyEligible(g) ==> g.irq
  }

  ghost predicate Exact(g: State)
    requires Sized(g)
  {
    g.irq == AnyEligible(g)
  }

  lemma {:induction false} UpdateExact(g: State)
    requires Sized(g)
    ensures Exact(Update(g)) && Raised(Update(g))
  {
    hide Best, Eligible;
    var b := Best(g);
    SameEligible(g, Update(g));
  }

  /** Eligibility reads neither the raw lines, the trigger mode nor the CPU line. */
  lemma {:induction false} SameEligible(g: State, g': State)
    requires Sized(g) && Sized(g')
    requires g' == g.(line := g'.line, edge := g'.edge, irq := g'.irq)
    ensures AnyEligible(g') == AnyEligible(g)
  {
    forall i ensures Eligible(g', i) == Eligible(g, i) {
    }
  }

  /** The early return when pending does not move loses no update: nothing eligibility reads has changed. */
  lemma {:induction false} SetIrqKeeps(g: State, intid: int, level: bool)
    requires Sized(g)
    ensures Raised(g) ==> Raised(SetIrq(g, intid, level))
    ensures Exact(SetIrq(g, intid, level)) <==> Exact(g) || Refreshes(g, Line(intid, level))
  {
    hide Update, Eligible;
    if 0 <= intid < IRQS {
      var g' := g.(line := g.line[intid := level]);
      SameEligible(g, g');
      UpdateExact(g'.(pending := g.pending[intid := Pend(g, intid, level)]));
    }
  }

  /** Setting active bits can only take eligibility away. */
  lemma {:induction false} SetActiveKeeps(g: State, base: nat, val: bv64)
    requires Sized(g) && base + 32 <= IRQS && Raised(g)
    ensures Raised(g.(active := Drive(g.active, base, val, true)))
  {
    hide BitAt;
    var g' := g.(active := Drive(g.active, base, val, true));
    forall i | Eligible(g', i) ensures Eligible(g, i) {
    }
  }

  /** An ISACTIVER write sets the active bit of i. */
  predicate Activates(base: nat, val: bv64, i: int) {
    base <= i < base + 32 && BitAt(val, i - base)
  }

  /** The write leaves some eligible interrupt alone, if there is any. */
  ghost predicate Spares(g: State, base: nat, val: bv64)
    requires Sized(g)
  {
    AnyEligible(g) ==> exists i :: Eligible(g, i) && !Activates(base, val, i)
  }

  /** From an exact line an ISACTIVER write leaves an exact one in exactly that case. */
  lemma {:induction false} SetActiveExact(g: State, base: nat, val: bv64)
    requires Sized(g) && base + 32 <= IRQS && Raised(g)
    ensures Exact(Step(g, SetActive(base, val))) <==> Exact(g) && Spares(g, base, val)
  {
    hide BitAt;
    var g' := Step(g, SetActive(base, val));
    forall i ensures Eligible(g', i) <==> Eligible(g, i) && !Activates(base, val, i) {
    }
  }

  /** Whether the access ends in gic_update. */
  predicate Refreshes(g: State, op: Op)
    requires Sized(g)
  {
    match op
    case Line(intid, level) => 0 <= intid < IRQS && Pend(g, intid, level) != g.pending[intid]
    case SetActive(_, _) => false
    case Config(_, _) => false
    case Ack => Best(g) != SPURIOUS
    case _ => true
  }

  /** Whether it takes every eligible interrupt away without one. */
  ghost predicate Blinds(g: State, op: Op)
    requires Sized(g)
  {
    op.SetActive? && !Spares(g, op.base, op.val)
  }

  lemma {:induction false} StepKeeps(g: State, op: Op)
    requires Sized(g) && InRange(op) && Raised(g)
    ensures Raised(Step(g, op))
    ensures Exact(Step(g, op)) <==> Refreshes(g, op) || (Exact(g) && !Blinds(g, op))
  {
    hide Update, Written, Drive, Configured, SetIrq, Acknowledge, Raised, Exact, Spares, Pend;
    match op
    case Line(intid, level) => SetIrqKeeps(g, intid, level);
    case SetActive(base, val) =>
      SetActiveKeeps(g, base, val);
      SetActiveExact(g, base, val);
    case Config(base, val) => ConfigKeeps(g, base, val);
    case Ack => AckKeeps(g);
    case Reset => StartExact();
    case _ => UpdateExact(Written(g, op));
  }

  lemma {:induction false} ConfigKeeps(g: State, base: nat, val: bv64)
    requires Sized(g) && base + 16 <= IRQS && Raised(g)
    ensures
      var g' := g.(edge := Configured(g.edge, base, val));
      Raised(g') && (Exact(g') <==> Exact(g))
  {
    hide Configured, Eligible;
    SameEligible(g, g.(edge := Configured(g.edge, base, val)));
  }

  lemma {:induction false} AckKeeps(g: State)
    requires Sized(g) && Raised(g)
    ensures Raised(Acknowledge(g)) && (Exact(Acknowledge(g)) <==> Exact(g) || Best(g) != SPURIOUS)
  {
    hide Update, Eligible;
    var b := Best(g);
    if b != SPURIOUS {
      UpdateExact(g.(active := g.active[b := true], pending := if g.edge[b] then g.pending[b := false] else g.pending));
    }
  }

  predicate AllInRange(ops: seq<Op>) {
    forall k :: 0 <= k < |ops| ==> InRange(ops[k])
  }

  function Play(ops: seq<Op>): (g: State)
    requires AllInRange(ops)
    ensures Sized(g)
  {
    if ops == [] then Start() else Step(Play(ops[..|ops| - 1]), ops[|ops| - 1])
  }

  ghost predicate BlindsAt(ops: seq<Op>, k: int)
    requires AllInRange(ops)
  {
    0 <= k < |ops| && Blinds(Play(ops[..k]), ops[k])
  }

  predicate RefreshesAt(ops: seq<Op>, k: int)
    requires AllInRange(ops)
  {
    0 <= k < |ops| && Refreshes(Play(ops[..k]), ops[k])
  }

  /** Every access that blinds the line is followed by one that refreshes it. */
  ghost predicate Recovers(ops: seq<Op>)
    requires AllInRange(ops)
  {
    forall k :: BlindsAt(ops, k) ==> exists j :: k < j && RefreshesAt(ops, j)
  }

  /**
   No lost interrupt: after any run of in-range register accesses and line
   changes the CPU line is up whenever an interrupt is eligible. It is up exactly
   then if and only if every ISACTIVER write that left nothing eligible was
   followed by an access that re-evaluates the line.
   */
  lemma {:induction false} NoLostInterrupt(ops: seq<Op>)
    requires AllInRange(ops)
    ensures Raised(Play(ops))
    ensures Exact(Play(ops)) <==> Recovers(ops)
  {
    hide Step, InRange, Raised, Exact, Refreshes, Blinds, Recovers;
    if ops == [] {
      StartExact();
      NothingToRecover(ops);
    } else {
      var n := |ops| - 1;
      NoLostInterrupt(ops[..n]);
      StepKeeps(Play(ops[..n]), ops[n]);
      RecoversStep(ops, n);
    }
  }

  lemma NothingToRecover(ops: seq<Op>)
    requires ops == []
    ensures Recovers(ops)
  {
  }

  lemma {:induction false} SameAt(ops: seq<Op>, n: nat, k: int)
    requires AllInRange(ops) && n <= |ops| && k < n
    ensures BlindsAt(ops[..n], k) == BlindsAt(ops, k) && RefreshesAt(ops[..n], k) == RefreshesAt(ops, k)
  {
    hide Play, InRange, Blinds, Refreshes;
    if 0 <= k {
      assert ops[..n][..k] == ops[..k];
    }
  }

  lemma NotBoth(ops: seq<Op>, k: int)
    requires AllInRange(ops)
    ensures !(BlindsAt(ops, k) && RefreshesAt(ops, k)) && (BlindsAt(ops, k) || RefreshesAt(ops, k) ==> 0 <= k < |ops|)
  {
    hide Play, Spares;
  }

  lemma {:induction false} RecoversStep(ops: seq<Op>, n: nat)
    requires AllInRange(ops) && |ops| == n + 1
    ensures Recovers(ops) <==> RefreshesAt(ops, n) || (Recovers(ops[..n]) && !BlindsAt(ops, n))
  {
    hide Play, InRange, BlindsAt, RefreshesAt;
    var rest := ops[..n];
    forall k ensures k < n ==> BlindsAt(rest, k) == BlindsAt(ops, k) && RefreshesAt(rest, k) == RefreshesAt(ops, k) {
      if k < n {
        SameAt(ops, n, k);
      }
    }
    forall k ensures BlindsAt(ops, k) || RefreshesAt(ops, k) ==> k <= n && BlindsAt(ops, k) != RefreshesAt(ops, k) {
      NotBoth(ops, k);
    }
    forall k ensures BlindsAt(rest, k) || RefreshesAt(rest, k) ==> k < n {
      NotBoth(rest, k);
    }
  }

  lemma StartExact()
    ensures Raised(Start()) && Exact(Start())
  {
  }

  lemma {:induction false} PlayStep(ops: seq<Op>, op: Op)
    requires AllInRange(ops) && InRange(op)
    ensures Play(ops + [op]) == Step(Play(ops), op)
  {
    hide Step, InRange;
    assert (ops + [op])[..|ops|] == ops;
  }

  lemma UpdateFields(g: State)
    requires Sized(g)
    ensures Update(g) == g.(irq := Update(g).irq)
  {
  }

  /**
   A run that shows it: interrupt 30 enabled, its line raised, both interfaces on
   and the mask opened; then an ISACTIVER write takes it away and the CPU line
   stays up with nothing eligible.
   */
  lemma {:induction false} ActiveWriteLeavesLineUp() returns (ops: seq<Op>)
    ensures AllInRange(ops) && InRange(SetActive(0, 0x4000_0000))
    ensures Exact(Play(ops)) && !Exact(Play(ops + [SetActive(0, 0x4000_0000)]))
  {
    hide Update, Play, Exact, Raised, Recovers, Refreshes, Blinds, Eligible, Drive;
    var a, b := [Enable(0, 0x4000_0000)], [Line(30, true)];
    var d := a + b + [DistributorCtl(true)] + [InterfaceCtl(true)];
    ops := d + [Mask(1)];
    PlayNothing();
    assert [] + a == a;
    PlayStep([], a[0]);
    PlayStep(a, b[0]);
    PlayStep(a + b, DistributorCtl(true));
    PlayStep(a + b + [DistributorCtl(true)], InterfaceCtl(true));
    PlayStep(d, Mask(1));
    PlayStep(ops, SetActive(0, 0x4000_0000));
    EnabledThirty(Start());
    RaisedThirty(Play(a));
    OpenedThirty(Play(a + b));
    NoLostInterrupt(d);
    NoLostInterrupt(ops);
    StepKeeps(Play(d), Mask(1));
    assert Refreshes(Play(d), Mask(1)) by {
      MaskRefreshes(Play(d));
    }
    StepKeeps(Play(ops), SetActive(0, 0x4000_0000));
    TakesThirty(Play(ops));
  }

  lemma MaskRefreshes(g: State)
    requires Sized(g)
    ensures Refreshes(g, Mask(1))
  {
  }

  lemma {:induction false} EnabledThirty(g: State)
    requires g == Start()
    ensures
      var h := Step(g, Enable(0, 0x4000_0000));
      h.enabled[30] && h.(enabled := g.enabled, irq := false) == g
  {
    hide Update;
    UpdateFields(Written(g, Enable(0, 0x4000_0000)));
    assert BitAt(0x4000_0000, 30);
  }

  lemma {:induction false} RaisedThirty(g: State)
    requires Sized(g) && g.enabled[30] && g.(enabled := Zeros(), irq := false) == Start()
    ensures
      var h := Step(g, Line(30, true));
      && h.enabled[30] && h.pending == Zeros()[30 := true] && h.active == Zeros()
      && h.priority == Start().priority && h.pmr == 0
  {
    hide Update;
    UpdateFields(g.(line := g.line[30 := true], pending := g.pending[30 := true]));
  }

  /** Exactly interrupt 30 is eligible. */
  ghost predicate OnlyThirty(g: State)
    requires Sized(g)
  {
    forall i :: Eligible(g, i) <==> i == 30
  }

  lemma {:induction false} OpenedThirty(g: State)
    requires Sized(g) && g.enabled[30] && g.pending == Zeros()[30 := true] && g.active == Zeros()
    requires g.priority == Start().priority
    ensures OnlyThirty(Step(Step(Step(g, DistributorCtl(true)), InterfaceCtl(true)), Mask(1)))
  {
    hide Update;
    var h := Step(g, DistributorCtl(true));
    UpdateFields(g.(distributorOn := true));
    var j := Step(h, InterfaceCtl(true));
    UpdateFields(h.(interfaceOn := true));
    UpdateFields(j.(pmr := 1));
  }

  lemma {:induction false} TakesThirty(g: State)
    requires Sized(g) && OnlyThirty(g)
    ensures Blinds(g, SetActive(0, 0x4000_0000)) && !Refreshes(g, SetActive(0, 0x4000_0000))
  {
    hide Eligible;
    assert Eligible(g, 30);
    assert BitAt(0x4000_0000, 30);
  }

  lemma PlayNothing()
    ensures Play([]) == Start()
  {
  }

  // ---- Acknowledge ----

  /** What undoes an acknowledgement of i. */
  predicate Deactivates(op: Op, i: nat)
    requires i < IRQS
  {
    || op.Reset?
    || op == EndOfInterrupt(i)
    || (op.ClearActive? && op.base <= i < op.base + 32 && BitAt(op.val, i - op.base))
  }

  lemma {:induction false} StaysActive(g: State, op: Op, i: nat)
    requires Sized(g) && InRange(op) && i < IRQS && g.active[i] && !Deactivates(op, i)
    ensures Step(g, op).active[i]
  {
    hide BestBelow, BitAt, Priorities, Configured, IsBest, Eligible, Update;
    if op.Ack? || op.Line? {
      AckLineActive(g, op, i);
    } else if !op.SetActive? && !op.Config? {
      UpdateActive(Written(g, op));
    }
  }

  lemma {:induction false} AckLineActive(g: State, op: Op, i: nat)
    requires Sized(g) && InRange(op) && i < IRQS && g.active[i] && (op.Ack? || op.Line?)
    ensures Step(g, op).active[i]
  {
    hide Eligible, IsBest;
  }

  /** What takes a pending edge away: acknowledging it, clearing it, retriggering it by level, or a reset. */
  predicate Unpends(g: State, op: Op, i: nat)
    requires Sized(g) && i < IRQS
  {
    || op.Reset?
    || (op.Ack? && Best(g) == i)
    || (op.ClearPending? && op.base <= i < op.base + 32 && BitAt(op.val, i - op.base))
    || (op.Config? && op.base <= i < op.base + 16)
  }

  lemma {:induction false} StaysPending(g: State, op: Op, i: nat)
    requires Sized(g) && InRange(op) && i < IRQS && g.pending[i] && g.edge[i] && !Unpends(g, op, i)
    ensures Step(g, op).pending[i] && Step(g, op).edge[i]
  {
    hide BestBelow, BitAt, Priorities, IsBest, Eligible, Update;
    if op.Ack? || op.Line? {
      AckLinePending(g, op, i);
    } else if !op.SetActive? && !op.Config? {
      UpdateFields(Written(g, op));
    }
  }

  lemma {:induction false} AckLinePending(g: State, op: Op, i: nat)
    requires Sized(g) && InRange(op) && i < IRQS && g.pending[i] && g.edge[i] && (op.Ack? || op.Line?)
    requires !Unpends(g, op, i)
    ensures Step(g, op).pending[i] && Step(g, op).edge[i]
  {
    hide Eligible, IsBest;
  }

  lemma {:induction false} PendingThrough(ops: seq<Op>, a: nat, n: nat, i: nat)
    requires AllInRange(ops)
    requires a <= n <= |ops| && i < IRQS && Play(ops[..a]).pending[i] && Play(ops[..a]).edge[i]
    requires forall k :: a <= k < n ==> !Unpends(Play(ops[..k]), ops[k], i)
    ensures Play(ops[..n]).pending[i] && Play(ops[..n]).edge[i]
    decreases n
  {
    hide Step, InRange, Unpends;
    if a < n {
      PendingThrough(ops, a, n - 1, i);
      assert ops[..n][..n - 1] == ops[..n - 1];
      StaysPending(Play(ops[..n - 1]), ops[n - 1], i);
    }
  }

  /**
   A rising edge is latched: whatever the line and the registers do afterwards,
   the interrupt stays pending until it is acknowledged, cleared, reconfigured or
   reset, and as long as it is enabled, inactive and unmasked the CPU line is up.
   */
  lemma {:induction false} EdgeIsLatched(ops: seq<Op>, a: nat, i: nat)
    requires AllInRange(ops)
    requires a < |ops| && i < IRQS && ops[a] == Line(i, true)
    requires Play(ops[..a]).edge[i] && !Play(ops[..a]).line[i]
    requires forall k :: a < k < |ops| ==> !Unpends(Play(ops[..k]), ops[k], i)
    ensures Play(ops).pending[i]
    ensures
      var g := Play(ops);
      g.enabled[i] && !g.active[i] && g.priority[i] < g.pmr && g.distributorOn && g.interfaceOn ==> g.irq
  {
    hide InRange, Unpends, Step, Recovers, Play;
    PlayStep(ops[..a], ops[a]);
    assert ops[..a] + [ops[a]] == ops[..a + 1];
    EdgePends(Play(ops[..a]), i);
    PendingThrough(ops, a + 1, |ops|, i);
    assert ops[..|ops|] == ops;
    NoLostInterrupt(ops);
    var g := Play(ops);
    if g.enabled[i] && !g.active[i] && g.priority[i] < g.pmr && g.distributorOn && g.interfaceOn {
      assert Eligible(g, i);
    }
  }

  lemma {:induction false} EdgePends(g: State, i: nat)
    requires Sized(g) && i < IRQS && g.edge[i] && !g.line[i]
    ensures Step(g, Line(i, true)).pending[i] && Step(g, Line(i, true)).edge[i]
  {
    hide Eligible, IsBest;
  }

  /** Reading IAR takes the interrupt it returns: active, and no longer pending if edge-triggered; no other changes. */
  lemma {:induction false} AckActivates(g: State)
    requires Sized(g) && Best(g) != SPURIOUS
    ensures !g.active[Best(g)] && Acknowledge(g).active == g.active[Best(g) := true] && Acknowledge(g).active[Best(g)]
    ensures Acknowledge(g).pending == if g.edge[Best(g)] then g.pending[Best(g) := false] else g.pending
  {
    hide Update;
    UpdateActive(g.(active := g.active[Best(g) := true],
      pending := if g.edge[Best(g)] then g.pending[Best(g) := false] else g.pending));
  }

  lemma UpdateActive(g: State)
    requires Sized(g)
    ensures Update(g).active == g.active && Update(g).pending == g.pending
  {
  }

  lemma {:induction false} ActiveThrough(ops: seq<Op>, a: nat, n: nat, i: nat)
    requires AllInRange(ops)
    requires a <= n <= |ops| && i < IRQS && Play(ops[..a]).active[i]
    requires forall k :: a <= k < n ==> !Deactivates(ops[k], i)
    ensures Play(ops[..n]).active[i]
    decreases n
  {
    hide Step, InRange, Deactivates;
    if a < n {
      ActiveThrough(ops, a, n - 1, i);
      assert ops[..n][..n - 1] == ops[..n - 1];
      StaysActive(Play(ops[..n - 1]), ops[n - 1], i);
    }
  }

  /**
   IAR never returns the same interrupt twice without a deactivation of it or a
   reset in between.
   */
  lemma {:induction false} NeverTwice(ops: seq<Op>, a: nat, b: nat)
    requires AllInRange(ops)
    requires a < b < |ops| && ops[a] == Ack && ops[b] == Ack
    requires Best(Play(ops[..a])) != SPURIOUS && Best(Play(ops[..b])) == Best(Play(ops[..a]))
    ensures exists k :: a < k < b && Deactivates(ops[k], Best(Play(ops[..a])))
  {
    hide Best, InRange, Deactivates, Acknowledge, IsBest, Sized;
    var i := Best(Play(ops[..a]));
    AckActivates(Play(ops[..a]));
    assert ops[..a + 1][..a] == ops[..a];
    assert Play(ops[..a + 1]) == Step(Play(ops[..a]), Ack);
    AckActivates(Play(ops[..b]));
    if forall k :: a < k < b ==> !Deactivates(ops[k], i) {
      ActiveThrough(ops, a + 1, b, i);
    }
  }
}
