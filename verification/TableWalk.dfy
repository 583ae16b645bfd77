/**
 The stage-1 table walk (EL1&0 regime, 4 KB granule) and the permission check.
 */
module TableWalk {
  import opened Binary
  import opened Words
  import opened LargePages

  datatype Access = Read | Write | Execute

  const TRANS_L0: nat := 0x04
  const ACCESS_L0: nat := 0x08
  const PERM_L3: nat := 0x0f
  const EXTERNAL: nat := 0x10

  const OUTPUT: bv64 := 0x0000_ffff_ffff_f000
  const PAGE: bv64 := 0xffff_ffff_ffff_f000

  datatype Word = BusError | Word(value: bv64)

  /** What a walk reads: the control registers and the descriptors in memory. */
  datatype Tables = Tables(tcr: bv64, ttbr0: bv64, ttbr1: bv64, read: bv64 -> Word)

  datatype Translation = Translation(paPage: bv64, ap: bv64, uxn: bool, pxn: bool)

  /** A fault status code, or a leaf: shift is 0 for a level-3 page, else the block's width in bits. */
  datatype Outcome = Fault(fsc: nat) | Found(t: Translation, shift: nat)

  predicate Bit(w: bv64, mask: bv64) {
    w & mask != 0
  }

  function Page(va: bv64): bv64 {
    va & PAGE
  }

  /** Regime select: the TTBR1 half. */
  predicate Upper(va: bv64) {
    Bit(va, 1 << 55)
  }

  predicate TopByteIgnored(tcr: bv64, upper: bool) {
    Bit(tcr, if upper then 1 << 38 else 1 << 37)
  }

  predicate Disabled(tcr: bv64, upper: bool) {
    Bit(tcr, if upper then 1 << 23 else 1 << 7)
  }

  /** Bits of an address in the region: 64 - TxSZ, with TxSZ clamped to 16..39. */
  function Width(tcr: bv64, upper: bool): (w: nat)
    ensures 25 <= w <= 48
  {
    var txsz := Number((if upper then tcr >> 16 else tcr) & 0x3f);
    64 - if txsz < 16 then 16 else if txsz > 39 then 39 else txsz
  }

  /** The bits above the region, without the tag byte when that is ignored. */
  function Checked(width: nat, tbi: bool): bv64
    requires 25 <= width <= 48
  {
    Trim(High(width), tbi)
  }

  function Up1(x: bv64): bv64 {
    x << 1
  }

  /** All ones shifted left by the width. */
  function High(width: nat): bv64
    requires 25 <= width <= 48
  {
    if width == 25 then ONES << 25 else Up1(High(width - 1))
  }

  function Trim(c: bv64, tbi: bool): bv64 {
    if tbi then c & UNTAGGED else c
  }

  /** They must sign-extend the region. */
  predicate InRange(tcr: bv64, va: bv64) {
    var up := Upper(va);
    var chk := Checked(Width(tcr, up), TopByteIgnored(tcr, up));
    Meet(va, chk) == if up then chk else 0
  }

  function StartLevel(width: nat): (level: nat)
    requires 25 <= width <= 48
    ensures level <= 2 && Shift(level) < width
  {
    4 - (width - 12 + 8) / 9
  }

  function Shift(level: nat): nat
    requires level <= 3
  {
    12 + 9 * (3 - level)
  }

  /** The level's 9-bit table index. */
  function Field(va: bv64, level: nat): bv64
    requires level <= 3
  {
    (match level
     case 0 => va >> 39
     case 1 => va >> 30
     case 2 => va >> 21
     case _ => va >> 12) & 0x1ff
  }

  /** Bits of the offset into a block of that level. */
  function OffsetMask(level: nat): bv64
    requires level <= 2
  {
    match level
    case 0 => (1 << 39) - 1
    case 1 => (1 << 30) - 1
    case _ => (1 << 21) - 1
  }

  function BlockPage(d: bv64, va: bv64, level: nat): bv64
    requires level <= 2
  {
    ((d & OUTPUT & !OffsetMask(level)) | (va & OffsetMask(level))) & PAGE
  }

  /** A descriptor is eight bytes. */
  function Eight(index: bv64): bv64 {
    index * 8
  }

  function At(table: bv64, index: bv64): bv64 {
    Plus64(table, Eight(index))
  }

  /** Address of the descriptor for va in a table. */
  function Slot(table: bv64, va: bv64, level: nat): bv64
    requires level <= 3
  {
    At(table, Field(va, level))
  }

  function Output(d: bv64): bv64 {
    d & OUTPUT
  }

  function Leaf(paPage: bv64, d: bv64): Translation {
    Translation(paPage, (d >> 6) & 3, Bit(d, 1 << 54), Bit(d, 1 << 53))
  }

  /** The loop over levels, from one level on. */
  function Descend(tb: Tables, va: bv64, table: bv64, level: nat): (r: Outcome)
    requires level <= 3
    ensures r.Found? ==> r.shift == 0 || (IsBlockShift(r.shift) && r.shift <= Shift(level))
    decreases 3 - level
  {
    match tb.read(Slot(table, va, level))
    case BusError => Fault(EXTERNAL)
    case Word(d) =>
      if !Bit(d, 1) then Fault(TRANS_L0 + level)
      else if !Bit(d, 2) && level == 3 then Fault(TRANS_L0 + level)
      else if Bit(d, 2) && level < 3 then Descend(tb, va, Output(d), level + 1)
      else if !Bit(d, 1 << 10) then Fault(ACCESS_L0 + level)
      else if level == 3 then Found(Leaf(Output(d), d), 0)
      else Found(Leaf(BlockPage(d, va, level), d), Shift(level))
  }

  function Walk(tb: Tables, va: bv64): (r: Outcome)
    ensures r.Found? && r.shift != 0 ==> IsBlockShift(r.shift)
  {
    var up := Upper(va);
    if Disabled(tb.tcr, up) || !InRange(tb.tcr, va) then Fault(TRANS_L0)
    else Descend(tb, va, Output(if up then tb.ttbr1 else tb.ttbr0), StartLevel(Width(tb.tcr, up)))
  }

  /** The loop form. */
  method WalkLoop(tb: Tables, va: bv64) returns (r: Outcome)
    ensures r == Walk(tb, va)
  {
    hide Bit, Upper, Disabled, InRange, Width, TopByteIgnored, Slot, Output, BlockPage, Leaf, StartLevel;
    var up := Upper(va);
    if Disabled(tb.tcr, up) || !InRange(tb.tcr, va) {
      return Fault(TRANS_L0);
    }
    var level: nat := StartLevel(Width(tb.tcr, up));
    var table := Output(if up then tb.ttbr1 else tb.ttbr0);
    while level <= 3
      invariant level <= 3
      invariant Walk(tb, va) == Descend(tb, va, table, level)
      decreases 3 - level
    {
      match tb.read(Slot(table, va, level))
      case BusError => return Fault(EXTERNAL);
      case Word(d) =>
        if !Bit(d, 1) {
          return Fault(TRANS_L0 + level);
        }
        if !Bit(d, 2) && level == 3 {
          return Fault(TRANS_L0 + level);
        }
        if Bit(d, 2) && level < 3 {
          table, level := Output(d), level + 1;
          continue;
        }
        if !Bit(d, 1 << 10) {
          return Fault(ACCESS_L0 + level);
        }
        return
          if level == 3 then Found(Leaf(Output(d), d), 0) else Found(Leaf(BlockPage(d, va, level), d), Shift(level));
    }
  }

  /** perm_ok_el: what a leaf lets each privilege do. */
  predicate PermOk(acc: Access, t: Translation, el0: bool) {
    var readable := t.ap & 3 == 1 || t.ap & 3 == 3 || !el0;
    var writable := t.ap & 3 == 1 || (t.ap & 3 == 0 && !el0);
    match acc
    case Read => readable
    case Write => writable
    case Execute => readable && !(if el0 then t.uxn else t.pxn)
  }

  predicate SameTag(a: bv64, b: bv64) {
    a >> 56 == b >> 56
  }

  /** The same block, and tags that the walk cannot tell apart. */
  predicate Fragment(tb: Tables, va: bv64, other: bv64, shift: nat) {
    SameBlock(other, va, shift) && (TopByteIgnored(tb.tcr, Upper(va)) || SameTag(other, va))
  }

  lemma FragmentSlot(va: bv64, other: bv64, shift: nat, level: nat, table: bv64)
    requires IsBlockShift(shift) && SameBlock(other, va, shift) && level <= 2 && shift <= Shift(level)
    ensures Slot(table, other, level) == Slot(table, va, level)
  {
    hide Field, SameBlock, At;
    FragmentField(va, other, shift, level);
  }

  lemma FragmentField(va: bv64, other: bv64, shift: nat, level: nat)
    requires IsBlockShift(shift) && SameBlock(other, va, shift) && level <= 2 && shift <= Shift(level)
    ensures Field(other, level) == Field(va, level)
  {
    if level == 0 {
    } else if level == 1 {
    } else {
    }
  }

  lemma FragmentUpper(va: bv64, other: bv64, shift: nat)
    requires IsBlockShift(shift) && SameBlock(other, va, shift)
    ensures Upper(other) == Upper(va)
  {
  }

  lemma FragmentRange(tb: Tables, va: bv64, other: bv64, shift: nat)
    requires IsBlockShift(shift) && Fragment(tb, va, other, shift)
    requires shift < Width(tb.tcr, Upper(va))
    ensures InRange(tb.tcr, other) == InRange(tb.tcr, va)
  {
    hide Checked, Upper, Meet, Width, TopByteIgnored, SameBlock, SameTag;
    FragmentUpper(va, other, shift);
    FragmentChecked(va, other, shift, Width(tb.tcr, Upper(va)), TopByteIgnored(tb.tcr, Upper(va)));
  }

  lemma High25()
    ensures High(25) == 0xffff_ffff_fe00_0000
  {
  }

  lemma High31()
    ensures High(31) == 0xffff_ffff_8000_0000
  {
    High25();
    assert High(26) == 0xffff_ffff_fc00_0000;
    assert High(27) == 0xffff_ffff_f800_0000;
    assert High(28) == 0xffff_ffff_f000_0000;
    assert High(29) == 0xffff_ffff_e000_0000;
    assert High(30) == 0xffff_ffff_c000_0000;
  }

  lemma High40()
    ensures High(40) == 0xffff_ff00_0000_0000
  {
    High31();
    assert High(32) == 0xffff_ffff_0000_0000;
    assert High(33) == 0xffff_fffe_0000_0000;
    assert High(34) == 0xffff_fffc_0000_0000;
    assert High(35) == 0xffff_fff8_0000_0000;
    assert High(36) == 0xffff_fff0_0000_0000;
    assert High(37) == 0xffff_ffe0_0000_0000;
    assert High(38) == 0xffff_ffc0_0000_0000;
    assert High(39) == 0xffff_ff80_0000_0000;
  }

  lemma Up21(x: bv64)
    requires x & 0x1f_ffff == 0
    ensures Up1(x) & 0x1f_ffff == 0
  {
  }

  lemma {:induction false} HighBits21(width: nat)
    requires 25 <= width <= 48
    ensures High(width) & 0x1f_ffff == 0
    decreases width
  {
    if width == 25 {
      High25();
    } else {
      hide Up1;
      HighBits21(width - 1);
      Up21(High(width - 1));
    }
  }

  lemma Outside21(c: bv64)
    requires c & 0x1f_ffff == 0
    ensures Within(c, BlockMask(21))
  {
  }

  lemma Up30(x: bv64)
    requires x & 0x3fff_ffff == 0
    ensures Up1(x) & 0x3fff_ffff == 0
  {
  }

  lemma {:induction false} HighBits30(width: nat)
    requires 31 <= width <= 48
    ensures High(width) & 0x3fff_ffff == 0
    decreases width
  {
    if width == 31 {
      High31();
    } else {
      hide Up1;
      HighBits30(width - 1);
      Up30(High(width - 1));
    }
  }

  lemma Outside30(c: bv64)
    requires c & 0x3fff_ffff == 0
    ensures Within(c, BlockMask(30))
  {
  }

  lemma Up39(x: bv64)
    requires x & 0x7f_ffff_ffff == 0
    ensures Up1(x) & 0x7f_ffff_ffff == 0
  {
  }

  lemma {:induction false} HighBits39(width: nat)
    requires 40 <= width <= 48
    ensures High(width) & 0x7f_ffff_ffff == 0
    decreases width
  {
    if width == 40 {
      High40();
    } else {
      hide Up1;
      HighBits39(width - 1);
      Up39(High(width - 1));
    }
  }

  lemma Outside39(c: bv64)
    requires c & 0x7f_ffff_ffff == 0
    ensures Within(c, BlockMask(39))
  {
  }

  /** The checked bits lie above every block the region can hold. */
  lemma {:induction false} CheckedWithin(shift: nat, width: nat)
    requires IsBlockShift(shift) && 25 <= width <= 48 && shift < width
    ensures Within(High(width), BlockMask(shift))
  {
    hide BlockMask, Within, High;
    if shift == 21 {
      HighBits21(width);
      Outside21(High(width));
    } else if shift == 30 {
      HighBits30(width);
      Outside30(High(width));
    } else {
      HighBits39(width);
      Outside39(High(width));
    }
  }

  lemma SameUnder(a: bv64, b: bv64, fine: bv64, c: bv64)
    requires Meet(NoTag(a), fine) == Meet(NoTag(b), fine) && Within(c, fine)
    ensures Meet(a, Trim(c, true)) == Meet(b, Trim(c, true))
    ensures SameTag(a, b) ==> Meet(a, c) == Meet(b, c)
  {
  }

  lemma {:induction false} FragmentChecked(va: bv64, other: bv64, shift: nat, width: nat, tbi: bool)
    requires IsBlockShift(shift) && SameBlock(other, va, shift) && (tbi || SameTag(other, va))
    requires 25 <= width <= 48 && shift < width
    ensures Meet(other, Checked(width, tbi)) == Meet(va, Checked(width, tbi))
  {
    hide BlockMask, Meet, NoTag, Within, High, SameTag;
    CheckedWithin(shift, width);
    SameUnder(other, va, BlockMask(shift), High(width));
  }

  /** Page of another address in the block that holds page p of va. */
  function Moved(p: bv64, other: bv64, shift: nat): bv64 {
    (p & !BlockOffset(shift)) | (other & BlockOffset(shift) & PAGE)
  }

  function BlockOffset(shift: nat): bv64 {
    if shift == 21 then (1 << 21) - 1 else if shift == 30 then (1 << 30) - 1 else (1 << 39) - 1
  }

  lemma MovedPage(d: bv64, va: bv64, other: bv64, level: nat)
    requires level <= 2
    ensures BlockPage(d, other, level) == Moved(BlockPage(d, va, level), other, Shift(level))
  {
    if level == 0 {
    } else if level == 1 {
    } else {
    }
  }

  lemma {:induction false} DescendFragment(tb: Tables, va: bv64, other: bv64, table: bv64, level: nat)
    requires level <= 3
    requires
      var r := Descend(tb, va, table, level);
      r.Found? && r.shift != 0 && SameBlock(other, va, r.shift)
    ensures
      var r := Descend(tb, va, table, level);
      Descend(tb, other, table, level) == Found(r.t.(paPage := Moved(r.t.paPage, other, r.shift)), r.shift)
    decreases 3 - level
  {
    hide Bit, SameBlock, Slot, Output, BlockPage, Moved, Shift;
    var r := Descend(tb, va, table, level);
    assert level < 3;
    FragmentSlot(va, other, r.shift, level, table);
    var d := tb.read(Slot(table, va, level)).value;
    if Bit(d, 2) {
      DescendFragment(tb, va, other, Output(d), level + 1);
    } else {
      MovedPage(d, va, other, level);
    }
  }

  /**
   One block descriptor serves all its 4 KB fragments: wherever a walk ends at a
   block, the walk of any other address in it ends there too, with the same
   rights and the same offset from the block.
   */
  lemma {:induction false} FragmentsShareTheWalk(tb: Tables, va: bv64, other: bv64)
    requires
      var r := Walk(tb, va);
      r.Found? && r.shift != 0 && Fragment(tb, va, other, r.shift)
    ensures
      var r := Walk(tb, va);
      Walk(tb, other) == Found(r.t.(paPage := Moved(r.t.paPage, other, r.shift)), r.shift)
  {
    hide Descend, InRange, Upper, Output, SameBlock, Disabled, Width, Moved;
    var r := Walk(tb, va);
    var up := Upper(va);
    FragmentUpper(va, other, r.shift);
    FragmentRange(tb, va, other, r.shift);
    DescendFragment(tb, va, other, Output(if up then tb.ttbr1 else tb.ttbr0), StartLevel(Width(tb.tcr, up)));
  }
}
