/**
 How many accesses fuse: the scan for a run on one base within one page and a
 register budget, the longest such run, and that it meets what fused code needs.
 */
module RunLength {
  import opened Ir
  import Allocator
  import opened GuestMemory
  import opened Probe
  import opened MemoryOps
  import opened FusedRuns

  /** A load or store with its signed offset, or any other operation. */
  datatype Item = Mem(op: MemOp, off: int) | Other

  // ---- Offsets as words ----

  /** The 64-bit word of an integer. */
  function Word(n: int): bv64
    decreases if n < 0 then -n else n
  {
    if n == 0 then 0 else if n > 0 then Plus(Word(n - 1), 1) else Less(Word(n + 1), 1)
  }

  lemma RawAgain(x: bv64)
    ensures Plus(x - 1, 1) == x
  {
    assert Plus(x - 1, 1) == (x - 1) + 1;
  }

  lemma LessIs(x: bv64, y: bv64)
    ensures Less(x, y) == x - y
  {
  }

  lemma {:induction false} WordStep(n: int)
    ensures Word(n + 1) == Plus(Word(n), 1)
  {
    hide Plus, Less;
    if n < 0 {
      LessIs(Word(n + 1), 1);
      RawAgain(Word(n + 1));
    }
  }

  lemma PlusNothing(x: bv64)
    ensures Plus(x, 0) == x
  {
  }

  lemma {:induction false} WordSum(n: int, d: nat)
    ensures Word(n + d) == Plus(Word(n), Word(d))
  {
    hide Plus, Less;
    if d == 0 {
      PlusNothing(Word(n));
    } else {
      WordSum(n, d - 1);
      WordStep(n + d - 1);
      Associates(Word(n), Word(d - 1), 1);
    }
  }

  function Number(x: bv64): int {
    x as int
  }

  predicate AtMost(x: bv64, y: bv64) {
    x <= y
  }

  lemma Successor(x: bv64)
    requires AtMost(x, 0xfff)
    ensures Number(Plus(x, 1)) == Number(x) + 1
  {
  }

  lemma SmallNumber(x: bv64)
    requires Number(x) <= 4095
    ensures AtMost(x, 0xfff)
  {
  }

  lemma ZeroNumber()
    ensures Number(0) == 0 && AtMost(0, 0xfff)
  {
  }

  lemma {:induction false} SmallWord(n: nat)
    requires n <= 4095
    ensures AtMost(Word(n), 0xfff) && Number(Word(n)) == n
  {
    hide Plus, Number, AtMost;
    if n == 0 {
      ZeroNumber();
    } else {
      SmallWord(n - 1);
      Successor(Word(n - 1));
      SmallNumber(Word(n));
    }
  }

  lemma NextAbove(a: bv64, b: bv64)
    requires AtMost(a, b) && AtMost(b, 0xfff)
    ensures AtMost(a, Plus(b, 1))
  {
  }

  lemma Reflexive(a: bv64)
    ensures AtMost(a, a)
  {
  }

  lemma {:induction false} Ordered(m: nat, n: nat)
    requires m <= n <= 4095
    ensures AtMost(Word(m), Word(n))
    decreases n - m
  {
    hide Plus, AtMost;
    if m == n {
      Reflexive(Word(m));
    } else {
      Ordered(m, n - 1);
      SmallWord(n - 1);
      NextAbove(Word(m), Word(n - 1));
    }
  }

  lemma InsideIs(x: bv64, y: bv64, e: bv64)
    requires AtMost(x, 0xfff) && AtMost(y, 0xfff) && AtMost(e, 0xfff) && AtMost(Plus(x, y), e)
    ensures Inside(x, y, e)
  {
  }

  /** Distances and sizes that fit as integers fit as words. */
  lemma {:induction false} InsideWord(d: nat, f: nat, e: nat)
    requires d + f <= e <= 4095
    ensures Inside(Word(d), Word(f), Word(e))
  {
    hide Plus, Word, AtMost, Inside, Number;
    SmallWord(d);
    SmallWord(f);
    SmallWord(e);
    Ordered(d + f, e);
    WordSum(d, f);
    InsideIs(Word(d), Word(f), Word(e));
  }

  lemma ShortIs(x: bv64)
    requires AtMost(x, 0xfff)
    ensures Short(x)
  {
  }

  function Size(szl: nat): (n: nat)
    ensures 1 <= n <= 8
  {
    if szl == 0 then 1 else if szl == 1 then 2 else if szl == 2 then 4 else 8
  }

  lemma Ones()
    ensures Plus(0, 1) == 1 && Plus(1, 1) == 2 && Plus(2, 1) == 3 && Plus(3, 1) == 4
    ensures Plus(4, 1) == 5 && Plus(5, 1) == 6 && Plus(6, 1) == 7
  {
  }

  lemma {:induction false} ExtraWord(szl: nat)
    ensures Extra(szl) == Word(Size(szl) - 1)
  {
    hide Plus, Less;
    Ones();
    assert Word(1) == 1 && Word(2) == 2 && Word(3) == 3;
    assert Word(4) == 4 && Word(5) == 5;
    assert Word(6) == 6 && Word(7) == 7;
  }

  // ---- Runs ----

  predicate ItemOk(x: Item) {
    x.Mem? ==> MemOpOk(x.op) && x.op.imm == Word(x.off)
  }

  predicate AllMem(run: seq<Item>) {
    forall t :: 0 <= t < |run| ==> run[t].Mem?
  }

  function Lo(run: seq<Item>): int
    requires run != [] && AllMem(run)
  {
    var n := |run| - 1;
    if n == 0 then run[0].off
    else
      var lo := Lo(run[..n]);
      if run[n].off < lo then run[n].off else lo
  }

  function End(x: Item): int
    requires x.Mem?
  {
    x.off + Size(x.op.szl)
  }

  function Hi(run: seq<Item>): int
    requires run != [] && AllMem(run)
  {
    var n := |run| - 1;
    if n == 0 then End(run[0])
    else
      var hi := Hi(run[..n]);
      if End(run[n]) > hi then End(run[n]) else hi
  }

  /** The register an access loads or stores. */
  function Register(op: MemOp): nat {
    if op.St? then op.b else op.dst
  }

  function Registers(run: seq<Item>): set<nat>
    requires AllMem(run)
  {
    set t | 0 <= t < |run| :: Register(run[t].op)
  }

  predicate Alike(x: Item, first: Item) {
    x.Mem? && first.Mem? && x.op.St? == first.op.St? && x.op.a == first.op.a
  }

  /** One kind and base, the base overwritten by the last load only, in a page's span, within the budget. */
  predicate Fusable(run: seq<Item>) {
    && run != [] && AllMem(run)
    && (forall t :: 0 <= t < |run| ==> Alike(run[t], run[0]))
    && (forall t :: 0 <= t < |run| - 1 ==> KeepsBase(run[t].op))
    && Hi(run) - Lo(run) <= 4096 && |Registers(run)| <= 6
  }

  lemma {:induction false} Bounds(run: seq<Item>, t: nat)
    requires run != [] && AllMem(run) && t < |run|
    ensures Lo(run) <= run[t].off && End(run[t]) <= Hi(run)
  {
    var n := |run| - 1;
    if t < n {
      Bounds(run[..n], t);
    }
  }

  function Ops(run: seq<Item>): (r: seq<MemOp>)
    requires AllMem(run)
  {
    seq(|run|, t requires 0 <= t < |run| => run[t].op)
  }

  lemma RawBack(x: bv64, y: bv64)
    ensures Minus(x + y, x) == y
  {
    assert Minus(x + y, x) == (x + y) - x;
  }

  lemma {:induction false} MinusPlus(x: bv64, y: bv64)
    ensures Minus(Plus(x, y), x) == y
  {
    hide Plus, Minus;
    PlusIs(x, y);
    RawBack(x, y);
  }

  lemma {:induction false} DistanceWord(op: MemOp, off: int, lo: int)
    requires op.imm == Word(off) && lo <= off
    ensures Distance(op, Word(lo)) == Word(off - lo)
  {
    hide Word, Plus, Minus;
    WordSum(lo, off - lo);
    MinusPlus(Word(lo), Word(off - lo));
  }

  lemma {:induction false} AccessFits(x: Item, first: Item, lo: int, hi: int)
    requires ItemOk(x) && Alike(x, first) && lo <= x.off && End(x) <= hi && hi - lo <= 4096
    ensures Fits(x.op, first.op, Word(lo), Word(hi - lo - 1))
  {
    hide Word, Inside, Distance, Extra;
    DistanceWord(x.op, x.off, lo);
    ExtraWord(x.op.szl);
    InsideWord(x.off - lo, Size(x.op.szl) - 1, hi - lo - 1);
  }

  /** A run the scan may fuse is one the generated code handles. */
  lemma {:induction false} FusableRunOk(run: seq<Item>)
    requires Fusable(run) && |run| <= 8 && forall t :: 0 <= t < |run| ==> ItemOk(run[t])
    ensures RunOk(Ops(run), Word(Lo(run)), Word(Hi(run) - Lo(run) - 1))
  {
    hide Word, Fits, Short, ItemOk, AtMost, Number, Lo, Hi, Registers;
    var lo, hi := Lo(run), Hi(run);
    Bounds(run, 0);
    SmallWord(hi - lo - 1);
    ShortIs(Word(hi - lo - 1));
    var ops := Ops(run);
    forall t | 0 <= t < |ops| ensures Fits(ops[t], ops[0], Word(lo), Word(hi - lo - 1)) {
      Bounds(run, t);
      assert Alike(run[t], run[0]);
      AccessFits(run[t], run[0], lo, hi);
    }
    forall t | 0 <= t < |ops| - 1 ensures KeepsBase(ops[t]) {
      assert KeepsBase(run[t].op);
    }
  }

  // ---- The scan ----

  lemma {:induction false} FusablePrefix(run: seq<Item>, n: nat)
    requires Fusable(run) && 1 <= n <= |run|
    ensures Fusable(run[..n])
    decreases |run|
  {
    if n == |run| {
      assert run[..n] == run;
    } else {
      var front := run[..|run| - 1];
      var last := run[|run| - 1];
      assert Alike(last, run[0]);
      assert forall t :: 0 <= t < |front| ==> front[t] == run[t];
      assert Registers(front) <= Registers(run) by {
        forall v | v in Registers(front) ensures v in Registers(run) {
          var t :| 0 <= t < |front| && Register(front[t].op) == v;
          assert run[t] == front[t];
        }
      }
      Allocator.Subset(Registers(front), Registers(run));
      FusablePrefix(front, n);
      assert front[..n] == run[..n];
    }
  }

  lemma {:induction false} Appended(run: seq<Item>, p: Item)
    requires run != [] && AllMem(run) && p.Mem?
    ensures AllMem(run + [p])
    ensures Lo(run + [p]) == (if p.off < Lo(run) then p.off else Lo(run))
    ensures Hi(run + [p]) == (if End(p) > Hi(run) then End(p) else Hi(run))
    ensures Registers(run + [p]) == Registers(run) + {Register(p.op)}
  {
    hide Register, End;
    var longer := run + [p];
    assert longer[..|longer| - 1] == run;
    forall v | v in Registers(run) ensures v in Registers(longer) {
      var t :| 0 <= t < |run| && Register(run[t].op) == v;
      assert longer[t] == run[t];
    }
    assert longer[|run|] == p;
    assert Register(p.op) in Registers(longer);
    forall v | v in Registers(longer) ensures v in Registers(run) + {Register(p.op)} {
      var t :| 0 <= t < |longer| && Register(longer[t].op) == v;
      assert longer[t] == if t < |run| then run[t] else p;
    }
  }

  /** What one more access must meet. */
  predicate Joins(run: seq<Item>, p: Item)
    requires run != [] && AllMem(run)
  {
    && Alike(p, run[0]) && KeepsBase(run[|run| - 1].op)
    && (if End(p) > Hi(run) then End(p) else Hi(run)) - (if p.off < Lo(run) then p.off else Lo(run)) <= 4096
    && |Registers(run) + {Register(p.op)}| <= 6
  }

  lemma {:induction false} JoinsIff(run: seq<Item>, p: Item)
    requires Fusable(run) && AllMem(run)
    ensures Fusable(run + [p]) <==> Joins(run, p)
  {
    hide Register, End, KeepsBase, Lo, Hi, Registers;
    var longer := run + [p];
    assert longer[0] == run[0] && longer[|run|] == p && longer[|run| - 1] == run[|run| - 1];
    if Fusable(longer) {
      assert Alike(longer[|run|], longer[0]);
      assert KeepsBase(longer[|run| - 1].op);
      Appended(run, p);
    }
    if Joins(run, p) {
      Appended(run, p);
      forall t | 0 <= t < |longer| - 1 ensures KeepsBase(longer[t].op) {
        if t < |run| - 1 {
          assert longer[t] == run[t];
        }
      }
      forall t | 0 <= t < |longer| ensures Alike(longer[t], longer[0]) {
        if t < |run| {
          assert Alike(run[t], run[0]) && longer[t] == run[t];
        }
      }
    }
  }

  /** The registers seen, each once. */
  ghost predicate Seen(seen: seq<nat>, rs: set<nat>) {
    |seen| == |rs| && forall r :: r in seen <==> r in rs
  }

  lemma {:induction false} One(x: Item)
    requires x.Mem?
    ensures Fusable([x]) && AllMem([x]) && Lo([x]) == x.off && Hi([x]) == End(x) && Registers([x]) == {Register(x.op)}
  {
    assert [x][0] == x;
    assert Registers([x]) == {Register(x.op)};
  }

  /** The n operations from the i-th on. */
  function Stretch(items: seq<Item>, i: nat, n: nat): seq<Item>
    requires i + n <= |items|
  {
    items[i..i + n]
  }

  lemma {:induction false} Longest(items: seq<Item>, i: nat, k: nat)
    requires i + k < |items| && k >= 1 && !Fusable(Stretch(items, i, k + 1))
    ensures forall n :: k < n && i + n <= |items| ==> !Fusable(Stretch(items, i, n))
  {
    hide Fusable;
    forall n | k < n && i + n <= |items| ensures !Fusable(Stretch(items, i, n)) {
      assert Stretch(items, i, n)[..k + 1] == Stretch(items, i, k + 1);
      if Fusable(Stretch(items, i, n)) {
        FusablePrefix(Stretch(items, i, n), k + 1);
      }
    }
  }

  lemma {:induction false} Scanned(items: seq<Item>, i: nat, k: nat)
    requires i + k < |items| && k >= 1
    ensures |Stretch(items, i, k)| == k && Stretch(items, i, k) + [items[i + k]] == Stretch(items, i, k + 1)
    ensures Stretch(items, i, k)[0] == items[i] && Stretch(items, i, k)[k - 1] == items[i + k - 1]
  {
  }

  lemma {:induction false} ScanStarts(items: seq<Item>, i: nat)
    requires i < |items| && items[i].Mem?
    ensures
      var run := Stretch(items, i, 1);
      && run != [] && Fusable(run) && AllMem(run) && Lo(run) == items[i].off && Hi(run) == End(items[i])
      && Seen([Register(items[i].op)], Registers(run))
  {
    hide Fusable, Registers;
    assert Stretch(items, i, 1) == [items[i]];
    One(items[i]);
    SeenFirst(Register(items[i].op));
  }

  /** jit_mem_run_len: the longest run, of at most eight. */
  method FindRun(items: seq<Item>, i: nat) returns (k: nat)
    requires i < |items|
    ensures 1 <= k <= 8 && i + k <= |items|
    ensures !items[i].Mem? ==> k == 1
    ensures items[i].Mem? ==> Fusable(Stretch(items, i, k))
    ensures items[i].Mem? ==> forall n :: k < n <= 8 && i + n <= |items| ==> !Fusable(Stretch(items, i, n))
  {
    hide Fusable, Lo, Hi, Registers, AllMem, Seen, Stretch, KeepsBase;
    k := 1;
    if !items[i].Mem? {
      return;
    }
    var o := items[i];
    var lo, hi := o.off, End(o);
    var seen := [Register(o.op)];
    ScanStarts(items, i);
    while i + k < |items| && k < 8
      invariant 1 <= k <= 8 && i + k <= |items|
      invariant Fusable(Stretch(items, i, k)) && Stretch(items, i, k) != [] && AllMem(Stretch(items, i, k))
      invariant lo == Lo(Stretch(items, i, k)) && hi == Hi(Stretch(items, i, k))
      invariant Seen(seen, Registers(Stretch(items, i, k)))
    {
      var p := items[i + k];
      ghost var run := Stretch(items, i, k);
      Scanned(items, i, k);
      JoinsIff(run, p);
      if !p.Mem? || p.op.St? != o.op.St? || p.op.a != o.op.a {
        Longest(items, i, k);
        break;
      }
      Previous(run, o, items[i + k - 1]);
      if o.op.Ld? && items[i + k - 1].op.dst == o.op.a {
        Longest(items, i, k);
        break;
      }
      var nlo := if p.off < lo then p.off else lo;
      var nhi := if End(p) > hi then End(p) else hi;
      if nhi - nlo > 4096 {
        Longest(items, i, k);
        break;
      }
      var r := Register(p.op);
      Budget(seen, Registers(run), r);
      if r !in seen {
        if |seen| >= 6 {
          Longest(items, i, k);
          break;
        }
        seen := seen + [r];
      }
      FusableBudget(run);
      Appended(run, p);
      lo, hi := nlo, nhi;
      k := k + 1;
    }
  }

  lemma FusableBudget(run: seq<Item>)
    requires Fusable(run)
    ensures |Registers(run)| <= 6
  {
  }

  lemma SeenFirst(r: nat)
    ensures Seen([r], {r})
  {
  }

  lemma Budget(seen: seq<nat>, rs: set<nat>, r: nat)
    requires Seen(seen, rs)
    ensures |seen| == |rs|
    ensures r in seen ==> rs + {r} == rs
    ensures r !in seen ==> Seen(seen + [r], rs + {r}) && |rs + {r}| == |seen| + 1
  {
  }

  lemma Previous(run: seq<Item>, o: Item, x: Item)
    requires Fusable(run) && run[0] == o && run[|run| - 1] == x
    ensures x.Mem? && o.Mem? && x.op.St? == o.op.St? && x.op.a == o.op.a
    ensures KeepsBase(x.op) <==> o.op.St? || x.op.dst != o.op.a
  {
    assert Alike(run[|run| - 1], run[0]);
  }
}
