/** The GIC's arrays as the device updates them in place, each access as Gic says. */
module GicDevice {
  import opened Gic

  method DriveBank(a: array<bool>, base: nat, val: bv64, to: bool)
    requires base + 32 <= a.Length
    modifies a
    ensures a[..] == Drive(old(a[..]), base, val, to)
  {
    hide BitAt;
    for i := 0 to 32
      invariant forall j :: 0 <= j < a.Length ==>
        a[j] == if base <= j < base + i && BitAt(val, j - base) then to else old(a[j])
    {
      if BitAt(val, i) {
        a[base + i] := to;
      }
    }
  }

  class Device {
    const enabled: array<bool>
    const pending: array<bool>
    const active: array<bool>
    const line: array<bool>
    const edge: array<bool>
    const priority: array<int>
    var distributorOn: bool
    var interfaceOn: bool
    var pmr: int
    var irq: bool

    ghost predicate Valid()
      reads this
    {
      && enabled.Length == IRQS && pending.Length == IRQS && active.Length == IRQS
      && line.Length == IRQS && edge.Length == IRQS && priority.Length == IRQS
      && enabled != pending && enabled != active && enabled != line && enabled != edge
      && pending != active && pending != line && pending != edge
      && active != line && active != edge && line != edge
      && 0 <= pmr < 256
    }

    ghost function Now(): (g: State)
      requires Valid()
      reads this, enabled, pending, active, line, edge, priority
      ensures Sized(g)
    {
      State(enabled[..], pending[..], active[..], line[..], edge[..], priority[..], distributorOn, interfaceOn, pmr,
        irq)
    }

    constructor ()
      ensures Valid() && Now() == Start()
      ensures fresh(enabled) && fresh(pending) && fresh(active) && fresh(line) && fresh(edge) && fresh(priority)
    {
      enabled := new bool[IRQS](_ => false);
      pending := new bool[IRQS](_ => false);
      active := new bool[IRQS](_ => false);
      line := new bool[IRQS](_ => false);
      edge := new bool[IRQS](_ => false);
      priority := new int[IRQS](_ => 0);
      distributorOn, interfaceOn, pmr, irq := false, false, 0, false;
    }

    /** gic_best: one scan keeps the first interrupt of the best priority so far. */
    method FindBest() returns (best: nat)
      requires Valid()
      ensures best == Best(Now())
    {
      best := SPURIOUS;
      if !distributorOn || !interfaceOn {
        NoneWhenOff(Now(), IRQS);
        return;
      }
      var lead := 256;
      for i := 0 to IRQS
        invariant best == BestBelow(Now(), i)
        invariant lead == if best == SPURIOUS then 256 else priority[best]
      {
        if !enabled[i] || !pending[i] || active[i] {
          continue;
        }
        if priority[i] >= pmr {
          continue;
        }
        if priority[i] < lead {
          best, lead := i, priority[i];
        }
      }
    }

    /** gic_update */
    method Refresh()
      requires Valid()
      modifies this`irq
      ensures Valid() && Now() == Update(old(Now()))
    {
      hide Best;
      var b := FindBest();
      SameBest(Now(), b != SPURIOUS);
      irq := b != SPURIOUS;
    }

    /** gic_set_irq */
    method SetLine(intid: int, level: bool)
      requires Valid()
      modifies this`irq, line, pending
      ensures Valid() && Now() == SetIrq(old(Now()), intid, level)
    {
      hide Update;
      if intid < 0 || intid >= IRQS {
        return;
      }
      var pend := if edge[intid] then pending[intid] || (level && !line[intid]) else level;
      line[intid] := level;
      if pend == pending[intid] {
        return;
      }
      pending[intid] := pend;
      Refresh();
    }

    /** The IAR read. */
    method Acknowledge() returns (id: nat)
      requires Valid()
      modifies this`irq, active, pending
      ensures Valid() && id == Best(old(Now())) && Now() == Gic.Acknowledge(old(Now()))
    {
      hide Update, IsBest;
      id := FindBest();
      if id != SPURIOUS {
        active[id] := true;
        if edge[id] {
          pending[id] := false;
        }
        Refresh();
      }
    }

    /** The IPRIORITYR write. */
    method WritePriority(base: nat, size: nat, val: bv64)
      requires Valid() && size <= 8 && base + size <= IRQS
      modifies this`irq, priority
      ensures Valid() && Now() == Step(old(Now()), Priority(base, size, val))
    {
      hide Update, ByteAt;
      for i := 0 to size
        invariant irq == old(irq)
        invariant forall j :: 0 <= j < IRQS ==>
          priority[j] == if base <= j < base + i then ByteAt(val, j - base) else old(priority[j])
      {
        priority[base + i] := ByteAt(val, i);
      }
      assert priority[..] == Priorities(old(priority[..]), base, size, val);
      assert Now() == Written(old(Now()), Priority(base, size, val));
      Refresh();
    }

    /** The ICFGR write. */
    method WriteConfig(base: nat, val: bv64)
      requires Valid() && base + 16 <= IRQS
      modifies edge
      ensures Valid() && Now() == Step(old(Now()), Config(base, val))
    {
      hide BitAt;
      for i := 0 to 16
        invariant forall j :: 0 <= j < IRQS ==>
          edge[j] == if base <= j < base + i then BitAt(val, 2 * (j - base) + 1) else old(edge[j])
      {
        edge[base + i] := BitAt(val, 2 * i + 1);
      }
      assert edge[..] == Configured(old(edge[..]), base, val);
    }

    /** ISENABLER, ICENABLER, ISPENDR, ICPENDR, ISACTIVER and ICACTIVER writes. */
    method WriteBank(op: Op)
      requires Valid() && InRange(op)
      requires op.Enable? || op.Disable? || op.SetPending? || op.ClearPending? || op.SetActive? || op.ClearActive?
      modifies this`irq, enabled, pending, active
      ensures Valid() && Now() == Step(old(Now()), op)
    {
      hide Update, Drive;
      match op {
      case Enable(base, val) => DriveBank(enabled, base, val, true);
      case Disable(base, val) => DriveBank(enabled, base, val, false);
      case SetPending(base, val) => DriveBank(pending, base, val, true);
      case ClearPending(base, val) => DriveBank(pending, base, val, false);
      case SetActive(base, val) =>
        DriveBank(active, base, val, true);
        return;
      case ClearActive(base, val) => DriveBank(active, base, val, false);
      }
      assert Now() == Written(old(Now()), op);
      Refresh();
    }

    /** CTLR, PMR and EOIR writes. */
    method WriteControl(op: Op)
      requires Valid() && InRange(op)
      requires op.DistributorCtl? || op.InterfaceCtl? || op.Mask? || op.EndOfInterrupt?
      modifies this, active
      ensures Valid() && Now() == Step(old(Now()), op)
    {
      hide Update;
      match op {
      case DistributorCtl(on) => distributorOn := on;
      case InterfaceCtl(on) => interfaceOn := on;
      case Mask(p) => pmr := p;
      case EndOfInterrupt(id) =>
        if id < IRQS {
          active[id] := false;
        }
      }
      assert Now() == Written(old(Now()), op);
      Refresh();
    }
  }

  lemma {:induction false} NoneWhenOff(g: State, n: nat)
    requires Sized(g) && n <= IRQS && (!g.distributorOn || !g.interfaceOn)
    ensures BestBelow(g, n) == SPURIOUS
  {
  }

  lemma {:induction false} SameBest(g: State, irq: bool)
    requires Sized(g)
    ensures Best(g.(irq := irq)) == Best(g)
  {
    hide Best;
    var g' := g.(irq := irq);
    forall i ensures Eligible(g', i) == Eligible(g, i) {
    }
    BestUnique(g, Best(g), Best(g'));
  }
}
