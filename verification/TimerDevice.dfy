/** The timer's registers as the machine updates them in place, driving the GIC's lines. */
module TimerDevice {
  import opened Words
  import Gic
  import opened Timer
  import opened GicDevice

  class Clock {
    var icount: U64
    var skip: U64
    var phys: Compare
    var virt: Compare
    var deadline: U64
    const gic: Device

    ghost predicate Valid()
      reads this, gic
    {
      gic.Valid()
    }

    ghost function Now(): (m: Machine)
      requires Valid()
      reads this, gic, gic.enabled, gic.pending, gic.active, gic.line, gic.edge, gic.priority
      ensures Timer.Sized(m)
    {
      Machine(icount, skip, phys, virt, deadline, gic.Now())
    }

    constructor ()
      ensures Valid() && Now() == Timer.Start()
      ensures fresh(gic) && fresh(gic.enabled) && fresh(gic.pending) && fresh(gic.active)
      ensures fresh(gic.line) && fresh(gic.edge) && fresh(gic.priority)
    {
      gic := new Device();
      icount, skip, deadline := 0, 0, 0;
      phys, virt := Compare(0, 0), Compare(0, 0);
    }

    /** timer_update */
    method Update()
      requires Valid()
      modifies this`deadline, gic`irq, gic.line, gic.pending
      ensures Valid() && Now() == Timer.Update(old(Now()))
    {
      hide Gic.SetIrq, Fires, Armed, Count;
      var count := CountNow();
      gic.SetLine(PHYS, Fires(phys, count));
      gic.SetLine(VIRT, Fires(virt, count));
      deadline := NextDeadline();
    }

    /** gt_count, deterministic arm. */
    method CountNow() returns (count: U64)
      requires Valid()
      ensures count == Count(Now())
    {
      count := Wrap(icount + skip);
    }

    /** deadline_count */
    method NextDeadline() returns (best: U64)
      requires Valid()
      ensures best == Deadline(Now())
    {
      best := NEVER;
      if Armed(phys) {
        best := phys.cval;
      }
      if Armed(virt) && virt.cval < best {
        best := virt.cval;
      }
    }

    /** timer_check */
    method Check()
      requires Valid()
      modifies this`deadline, gic`irq, gic.line, gic.pending
      ensures Valid() && Now() == Timer.Check(old(Now()))
    {
      hide Timer.Update, Count;
      var count := CountNow();
      if count >= deadline {
        Update();
      }
    }

    /** The deterministic arm of machine_wait_for_event: skip to the nearest deadline, then tick. */
    method WaitForEvent(input: bool)
      requires Valid()
      modifies this`skip, this`deadline, gic`irq, gic.line, gic.pending
      ensures Valid() && Now() == Step(old(Now()), Waited(input))
    {
      hide Timer.Check, Count;
      var count := CountNow();
      var best: U64 := NEVER;
      if Armed(phys) && Distance(phys, count) < best {
        best := Distance(phys, count);
      }
      if Armed(virt) && Distance(virt, count) < best {
        best := Distance(virt, count);
      }
      if !gic.irq && !input && best != NEVER {
        skip := Wrap(skip + best);
      }
      Check();
    }
  }
}
