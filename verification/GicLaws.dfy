/**
 What each access of the GIC does, interrupt by interrupt, in terms of the number
 written; and that an ended level interrupt whose line is still up comes again.
 */
module GicLaws {
  import opened Pow2
  import opened Binary
  import opened Gic

  // ---- The number written ----

  /** Bit and byte of a register write. */
  lemma {:induction false} BitIs(val: bv64, i: nat)
    requires i < 64
    ensures BitAt(val, i) <==> Number(val) / P2(i) % 2 == 1
  {
    hide Odd, RightBy, Widened, Down, P2, Number;
    RightIs(Widened(val), i);
    DigitIs(val, i);
  }

  lemma {:induction false} ByteIs(val: bv64, i: nat)
    requires i < 8
    ensures ByteAt(val, i) == Number(val) / P2(8 * i) % 256
  {
    hide ByBytes, Widened, Down, P2, Number, Low;
    DownBytes(Widened(val), i);
    DigitsAre(val, 8 * i, 8);
    P2Small();
  }

  /** Interrupt i has a one in a write to the bank register that starts at base. */
  predicate Selected(base: nat, val: nat, i: nat) {
    base <= i < base + 32 && val / P2(i - base) % 2 == 1
  }

  lemma {:induction false} DriveIs(s: seq<bool>, base: nat, val: bv64, to: bool, i: nat)
    requires base + 32 <= |s| && i < |s|
    ensures Drive(s, base, val, to)[i] == if Selected(base, Number(val), i) then to else s[i]
  {
    hide BitAt, P2, Number;
    if base <= i < base + 32 {
      BitIs(val, i - base);
    }
  }

  // ---- Each access ----

  /** The same but for one table of flags and the CPU line. */
  predicate SameBut(g: State, h: State, table: nat) {
    && (table == 0 || h.enabled == g.enabled) && (table == 1 || h.pending == g.pending)
    && (table == 2 || h.active == g.active) && (table == 3 || h.edge == g.edge)
    && (table == 4 || h.priority == g.priority) && h.line == g.line
    && h.distributorOn == g.distributorOn && h.interfaceOn == g.interfaceOn && h.pmr == g.pmr
  }

  /** Set and clear writes touch the interrupts with a one, and no others. */
  lemma {:induction false} BankWrite(g: State, op: Op, i: nat)
    requires Sized(g) && InRange(op) && i < IRQS
    requires op.Enable? || op.Disable? || op.SetPending? || op.ClearPending? || op.SetActive? || op.ClearActive?
    ensures
      var h, hit := Step(g, op), Selected(op.base, Number(op.val), i);
      && (op.Enable? ==> SameBut(g, h, 0) && (h.enabled[i] <==> g.enabled[i] || hit))
      && (op.Disable? ==> SameBut(g, h, 0) && (h.enabled[i] <==> g.enabled[i] && !hit))
      && (op.SetPending? ==> SameBut(g, h, 1) && (h.pending[i] <==> g.pending[i] || hit))
      && (op.ClearPending? ==> SameBut(g, h, 1) && (h.pending[i] <==> g.pending[i] && !hit))
      && (op.SetActive? ==> SameBut(g, h, 2) && (h.active[i] <==> g.active[i] || hit))
      && (op.ClearActive? ==> SameBut(g, h, 2) && (h.active[i] <==> g.active[i] && !hit))
  {
    hide Update, Drive, Selected, Number;
    if !op.SetActive? {
      UpdateFields(Written(g, op));
    }
    DriveIs(g.enabled, op.base, op.val, true, i);
    DriveIs(g.enabled, op.base, op.val, false, i);
    DriveIs(g.pending, op.base, op.val, true, i);
    DriveIs(g.pending, op.base, op.val, false, i);
    DriveIs(g.active, op.base, op.val, true, i);
    DriveIs(g.active, op.base, op.val, false, i);
  }

  /** A priority write sets the bytes it covers, a configuration write the upper bit of each pair. */
  lemma {:induction false} FieldWrite(g: State, op: Op, i: nat)
    requires Sized(g) && InRange(op) && i < IRQS && (op.Priority? || op.Config?)
    ensures
      op.Priority? ==>
        && SameBut(g, Step(g, op), 4)
        && Step(g, op).priority[i] ==
           if op.base <= i < op.base + op.size then Number(op.val) / P2(8 * (i - op.base)) % 256 else g.priority[i]
    ensures
      op.Config? ==>
        && SameBut(g, Step(g, op), 3) && Step(g, op).irq == g.irq
        && Step(g, op).edge[i] ==
           if op.base <= i < op.base + 16 then Number(op.val) / P2(2 * (i - op.base) + 1) % 2 == 1 else g.edge[i]
  {
    hide Update, BitAt, ByteAt, P2, Number;
    if op.Priority? {
      UpdateFields(Written(g, op));
      if op.base <= i < op.base + op.size {
        ByteIs(op.val, i - op.base);
      }
    } else if op.base <= i < op.base + 16 {
      BitIs(op.val, 2 * (i - op.base) + 1);
    }
  }

  /** An EOIR write makes its interrupt inactive and leaves every other as it is. */
  lemma {:induction false} EndWrite(g: State, id: nat, i: nat)
    requires Sized(g) && i < IRQS
    ensures
      var h := Step(g, EndOfInterrupt(id));
      SameBut(g, h, 2) && (h.active[i] <==> g.active[i] && i != id)
  {
    hide Update;
    UpdateFields(Written(g, EndOfInterrupt(id)));
  }

  /** The enables and the mask. */
  lemma {:induction false} ControlWrite(g: State, op: Op)
    requires Sized(g) && InRange(op) && (op.DistributorCtl? || op.InterfaceCtl? || op.Mask?)
    ensures
      var h := Step(g, op);
      && h.enabled == g.enabled && h.pending == g.pending && h.active == g.active && h.line == g.line
      && h.edge == g.edge && h.priority == g.priority
      && h.distributorOn == (if op.DistributorCtl? then op.on else g.distributorOn)
      && h.interfaceOn == (if op.InterfaceCtl? then op.on else g.interfaceOn)
      && h.pmr == (if op.Mask? then op.pmr else g.pmr)
  {
    hide Update;
    UpdateFields(Written(g, op));
  }

  /** A line change moves its own line, and its own pending flag: with the level, or on a rising edge. */
  lemma {:induction false} LineChange(g: State, intid: nat, level: bool, i: nat)
    requires Sized(g) && intid < IRQS && i < IRQS
    ensures
      var h := Step(g, Line(intid, level));
      && h.line[i] == (if i == intid then level else g.line[i])
      && (i != intid ==> h.pending[i] == g.pending[i])
      && (i == intid && !g.edge[i] ==> h.pending[i] == level)
      && (i == intid && g.edge[i] ==> (h.pending[i] <==> g.pending[i] || (level && !g.line[i])))
      && h.enabled == g.enabled && h.active == g.active && h.edge == g.edge && h.priority == g.priority
      && h.distributorOn == g.distributorOn && h.interfaceOn == g.interfaceOn && h.pmr == g.pmr
  {
    hide Update;
    var g' := g.(line := g.line[intid := level]);
    UpdateFields(g'.(pending := g.pending[intid := Pend(g, intid, level)]));
  }

  /** Every access that re-evaluates leaves the CPU line up exactly when some interrupt is eligible. */
  lemma {:induction false} RefreshDecides(g: State, op: Op)
    requires Sized(g) && InRange(op) && Refreshes(g, op) && !op.Reset?
    ensures Exact(Step(g, op))
  {
    hide Update, Written, Drive, Configured, Exact, Pend, Best;
    match op
    case Line(intid, level) =>
      UpdateExact(g.(line := g.line[intid := level]).(pending := g.pending[intid := Pend(g, intid, level)]));
    case Ack =>
      var b := Best(g);
      UpdateExact(g.(active := g.active[b := true], pending := if g.edge[b] then g.pending[b := false] else g.pending));
    case SetActive(_, _) =>
    case Config(_, _) =>
    case Reset =>
    case _ => UpdateExact(Written(g, op));
  }

  /** Enabled, pending, inactive and above the mask, with both interfaces on. */
  predicate Waiting(g: State, j: int)
    requires Sized(g)
  {
    && 0 <= j < 256 && g.distributorOn && g.interfaceOn
    && g.enabled[j] && g.pending[j] && !g.active[j] && g.priority[j] < g.pmr
  }

  /** IAR returns the waiting interrupt of the lowest priority value, the lowest INTID among equals, or 1023. */
  lemma {:induction false} BestMeans(g: State)
    requires Sized(g)
    ensures Best(g) != 1023 ==> Waiting(g, Best(g))
    ensures
      forall j :: Waiting(g, j) ==>
        var b := Best(g);
        b < 256 && (g.priority[b] < g.priority[j] || (g.priority[b] == g.priority[j] && b <= j))
  {
    hide Best;
    forall j | Waiting(g, j) ensures Best(g) < 256 && Ahead(g, Best(g), j) {
      assert Eligible(g, j);
    }
  }

  // ---- A level interrupt comes again ----

  /** What takes a pending level interrupt away while it is being served. */
  predicate Lowers(op: Op, i: nat) {
    || op.Reset?
    || op == Line(i, false)
    || (op.ClearPending? && Selected(op.base, Number(op.val), i))
  }

  lemma {:induction false} StaysRaised(g: State, op: Op, i: nat)
    requires Sized(g) && InRange(op) && i < IRQS && g.pending[i] && g.active[i] && !Lowers(op, i)
    ensures Step(g, op).pending[i]
  {
    hide Update, Best, Drive, Priorities, Configured, Number, Selected, P2;
    if op.Ack? || op.Line? {
      AckLineRaised(g, op, i);
    } else if op.SetPending? || op.ClearPending? {
      BankWrite(g, op, i);
    } else if !op.SetActive? && !op.Config? {
      UpdateFields(Written(g, op));
    }
  }

  lemma {:induction false} AckLineRaised(g: State, op: Op, i: nat)
    requires Sized(g) && InRange(op) && i < IRQS && g.pending[i] && g.active[i] && (op.Ack? || op.Line?)
    requires op != Line(i, false)
    ensures Step(g, op).pending[i]
  {
    hide Update;
    if op.Ack? && Best(g) != SPURIOUS {
      AckActivates(g);
    } else if op.Line? && 0 <= op.intid < IRQS {
      LineChange(g, op.intid, op.level, i);
    }
  }

  lemma {:induction false} RaisedThrough(ops: seq<Op>, a: nat, n: nat, i: nat)
    requires AllInRange(ops) && a <= n <= |ops| && i < IRQS
    requires Play(ops[..a]).pending[i] && Play(ops[..a]).active[i]
    requires forall k :: a <= k < n ==> !Lowers(ops[k], i) && !Deactivates(ops[k], i)
    ensures Play(ops[..n]).pending[i] && Play(ops[..n]).active[i]
    decreases n
  {
    hide Step, InRange, Deactivates, Lowers;
    if a < n {
      RaisedThrough(ops, a, n - 1, i);
      assert ops[..n][..n - 1] == ops[..n - 1];
      StaysRaised(Play(ops[..n - 1]), ops[n - 1], i);
      StaysActive(Play(ops[..n - 1]), ops[n - 1], i);
    }
  }

  /**
   A level interrupt that was acknowledged and is ended while its line is still
   up is pending and inactive again: if it is enabled and not masked the CPU
   line is up, and IAR returns it exactly when no eligible one is ahead.
   */
  lemma {:induction false} LevelComesAgain(ops: seq<Op>, a: nat, b: nat)
    requires AllInRange(ops) && a < b && |ops| == b + 1 && ops[a] == Ack
    requires Best(Play(ops[..a])) != SPURIOUS && !Play(ops[..a]).edge[Best(Play(ops[..a]))]
    requires ops[b] == EndOfInterrupt(Best(Play(ops[..a])))
    requires
      forall k :: a < k < b ==> !Lowers(ops[k], Best(Play(ops[..a]))) && !Deactivates(ops[k], Best(Play(ops[..a])))
    ensures
      var i, g := Best(Play(ops[..a])), Play(ops);
      && g.pending[i] && !g.active[i]
      && (g.enabled[i] && g.priority[i] < g.pmr && g.distributorOn && g.interfaceOn ==>
            g.irq && (Best(g) == i <==> forall j :: Eligible(g, j) ==> Ahead(g, i, j)))
  {
    hide Step, InRange, Deactivates, Lowers, Best, Play, Recovers, Acknowledge;
    var g0 := Play(ops[..a]);
    var i := Best(g0);
    PlayStep(ops[..a], ops[a]);
    assert ops[..a] + [ops[a]] == ops[..a + 1];
    AckStep(g0);
    AckActivates(g0);
    RaisedThrough(ops, a + 1, b, i);
    PlayStep(ops[..b], ops[b]);
    assert ops[..b] + [ops[b]] == ops;
    EndWrite(Play(ops[..b]), i, i);
    NoLostInterrupt(ops);
    var g := Play(ops);
    if g.enabled[i] && g.priority[i] < g.pmr && g.distributorOn && g.interfaceOn {
      assert Eligible(g, i);
      BestIs(g, i);
    }
  }

  lemma AckStep(g: State)
    requires Sized(g)
    ensures Step(g, Ack) == Acknowledge(g)
    ensures Best(g) != SPURIOUS ==> g.pending[Best(g)]
  {
    hide Acknowledge;
  }

  lemma {:induction false} BestIs(g: State, i: nat)
    requires Sized(g) && Eligible(g, i)
    ensures Best(g) == i <==> forall j :: Eligible(g, j) ==> Ahead(g, i, j)
  {
    hide Best;
    if forall j :: Eligible(g, j) ==> Ahead(g, i, j) {
      BestUnique(g, Best(g), i);
    }
  }
}
