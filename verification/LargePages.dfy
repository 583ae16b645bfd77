/**
 The range that covers every block-mapped (2 MB, 1 GB, 512 GB) translation cached
 since the last full flush, kept so that a one-page invalidation inside any of
 them can escalate.
 */
module LargePages {
  import opened Words

  const UNTAGGED: bv64 := 0x00ff_ffff_ffff_ffff

  /** An aligned range: addresses that agree with base under mask. All-ones means none. */
  datatype Range = Range(base: bv64, mask: bv64)

  const NONE := Range(ONES, ONES)

  function NoTag(va: bv64): bv64 {
    va & UNTAGGED
  }

  function Meet(a: bv64, b: bv64): bv64 {
    a & b
  }

  predicate Inside(lp: Range, va: bv64) {
    Meet(NoTag(va), lp.mask) == lp.base
  }

  predicate IsBlockShift(shift: nat) {
    shift == 21 || shift == 30 || shift == 39
  }

  /** ~((1 << shift) - 1), without the tag byte. */
  function BlockMask(shift: nat): bv64 {
    if shift == 21 then 0x00ff_ffff_ffe0_0000
    else if shift == 30 then 0x00ff_ffff_c000_0000
    else 0x00ff_ff80_0000_0000
  }

  lemma BlockMaskForm()
    ensures BlockMask(21) == !((1 << 21) - 1) & UNTAGGED
    ensures BlockMask(30) == !((1 << 30) - 1) & UNTAGGED
    ensures BlockMask(39) == !((1 << 39) - 1) & UNTAGGED
  {
  }

  /** The same block-aligned region, whatever the tags. */
  predicate SameBlock(a: bv64, b: bv64, shift: nat) {
    Meet(NoTag(a), BlockMask(shift)) == Meet(NoTag(b), BlockMask(shift))
  }

  /** A mask of consecutive top bits: clearing a bit clears all below it. */
  predicate Aligned(m: bv64) {
    (m << 1) & UNTAGGED & !m == 0
  }

  /** Base within mask and untagged, unless there is no range yet. */
  predicate Valid(lp: Range) {
    lp == NONE || (Aligned(lp.mask) && lp.base & !lp.mask == 0 && lp.base & !UNTAGGED == 0)
  }

  lemma NoneIsEmpty(va: bv64)
    ensures !Inside(NONE, va)
  {
  }

  lemma BlockMaskAligned(shift: nat)
    requires IsBlockShift(shift)
    ensures Aligned(BlockMask(shift)) && BlockMask(shift) & !UNTAGGED == 0
  {
  }

  /** Every untagged bit of m is a bit of fine. */
  predicate Within(m: bv64, fine: bv64) {
    m & UNTAGGED & !fine == 0
  }

  function Double(m: bv64): bv64 {
    m << 1
  }

  function Key(m: bv64): bv64 {
    m & UNTAGGED
  }

  predicate Untagged(a: bv64) {
    a & !UNTAGGED == 0
  }

  lemma MeetAligned(a: bv64, b: bv64)
    requires Aligned(a) && Aligned(b)
    ensures Aligned(Meet(a, b)) && Within(Meet(a, b), a) && Within(Meet(a, b), b)
  {
  }

  lemma DoubleAligned(m: bv64, fine: bv64)
    requires Aligned(m)
    ensures Aligned(Double(m))
    ensures Within(m, fine) ==> Within(Double(m), fine)
  {
  }

  /** Widening an aligned mask keeps what agreed under the narrower one. */
  lemma Coarser(x: bv64, base: bv64, fine: bv64, m: bv64)
    requires Untagged(x) && Untagged(base) && Within(m, fine)
    requires Meet(x, fine) == Meet(base, fine)
    ensures Meet(x, m) == Meet(base, m)
  {
  }

  /** While two untagged bases differ under an aligned mask, shifting it drops a bit. */
  lemma DoubleShrinks(a: bv64, b: bv64, m: bv64)
    requires Aligned(m) && Untagged(a) && Untagged(b) && Meet(a, m) != Meet(b, m)
    ensures Key(Double(m)) < Key(m)
  {
    assert m & UNTAGGED != 0;
    assert (m << 1) & UNTAGGED != m & UNTAGGED;
  }

  lemma RangeFacts(lp: Range, va: bv64, shift: nat)
    requires Valid(lp) && IsBlockShift(shift)
    ensures lp != NONE ==> Aligned(lp.mask) && Untagged(lp.base) && lp.base != ONES && Meet(lp.base, lp.mask) == lp.base
    ensures Untagged(NoTag(va)) && Untagged(Meet(NoTag(va), BlockMask(shift)))
    ensures Meet(Meet(NoTag(va), BlockMask(shift)), BlockMask(shift)) == Meet(NoTag(va), BlockMask(shift))
  {
  }

  lemma RangeValid(base: bv64, m: bv64)
    requires Untagged(base) && Aligned(m)
    ensures Valid(Range(Meet(base, m), m)) && Range(Meet(base, m), m) != NONE
  {
  }

  /** A coarser mask under which both bases agree covers the old range and the block. */
  lemma {:induction false} CoversBoth(lp: Range, va: bv64, shift: nat, m: bv64, x: bv64)
    requires Valid(lp) && lp != NONE && IsBlockShift(shift)
    requires Within(m, lp.mask) && Within(m, BlockMask(shift))
    requires Meet(lp.base, m) == Meet(Meet(NoTag(va), BlockMask(shift)), m)
    ensures Inside(lp, x) || SameBlock(x, va, shift) ==> Inside(Range(Meet(lp.base, m), m), x)
  {
    hide NoTag, BlockMask, Within, Aligned, Untagged, Valid, Meet;
    RangeFacts(lp, va, shift);
    RangeFacts(lp, x, shift);
    if Inside(lp, x) {
      Coarser(NoTag(x), lp.base, lp.mask, m);
    }
    if SameBlock(x, va, shift) {
      Coarser(NoTag(x), Meet(NoTag(va), BlockMask(shift)), BlockMask(shift), m);
    }
  }

  /** The first block recorded is its own range. */
  lemma FirstBlock(va: bv64, shift: nat, x: bv64)
    requires IsBlockShift(shift)
    ensures SameBlock(x, va, shift) ==> Inside(Range(Meet(NoTag(va), BlockMask(shift)), BlockMask(shift)), x)
  {
  }

  /** The first doubling of m under which the bases agree. */
  function CoveringMask(base: bv64, bbase: bv64, m: bv64): (r: bv64)
    requires Untagged(base) && Untagged(bbase) && Aligned(m)
    ensures Aligned(r) && Meet(base, r) == Meet(bbase, r)
    decreases Key(m)
  {
    if Meet(base, m) == Meet(bbase, m) then m
    else
      DoubleShrinks(base, bbase, m);
      DoubleAligned(m, m);
      CoveringMask(base, bbase, Double(m))
  }

  /** The covering mask never keeps a bit the given one lacks. */
  lemma {:induction false} CoveringWithin(base: bv64, bbase: bv64, m: bv64, fine: bv64)
    requires Untagged(base) && Untagged(bbase) && Aligned(m) && Within(m, fine)
    ensures Within(CoveringMask(base, bbase, m), fine)
    decreases Key(m)
  {
    hide Within, Aligned, Untagged, Meet, Double, Key;
    if Meet(base, m) != Meet(bbase, m) {
      DoubleShrinks(base, bbase, m);
      DoubleAligned(m, m);
      DoubleAligned(m, fine);
      CoveringWithin(base, bbase, Double(m), fine);
    }
  }

  /** It is the narrowest: unless m itself will do, the bases differ one bit finer. */
  lemma {:induction false} CoveringIsSmallest(base: bv64, bbase: bv64, m: bv64) returns (prev: bv64)
    requires Untagged(base) && Untagged(bbase) && Aligned(m)
    ensures
      var r := CoveringMask(base, bbase, m);
      r == m || (Aligned(prev) && r == Double(prev) && Meet(base, prev) != Meet(bbase, prev))
    decreases Key(m)
  {
    hide Within, Aligned, Untagged, Meet, Double, Key;
    prev := m;
    if Meet(base, m) != Meet(bbase, m) {
      DoubleShrinks(base, bbase, m);
      DoubleAligned(m, m);
      prev := CoveringIsSmallest(base, bbase, Double(m));
      if CoveringMask(base, bbase, Double(m)) == Double(m) {
        prev := m;
      }
    }
  }

  /** The range after recording the block of va. */
  function Grown(lp: Range, va: bv64, shift: nat): (r: Range)
    requires Valid(lp) && IsBlockShift(shift)
  {
    var bmask := BlockMask(shift);
    var bbase := Meet(NoTag(va), bmask);
    if lp.base == ONES then Range(bbase, bmask)
    else
      RangeFacts(lp, va, shift);
      BlockMaskAligned(shift);
      MeetAligned(lp.mask, bmask);
      var m := CoveringMask(lp.base, bbase, Meet(lp.mask, bmask));
      Range(Meet(lp.base, m), m)
  }

  /** It covers everything it did, and the whole block. */
  lemma {:induction false} GrownCovers(lp: Range, va: bv64, shift: nat)
    requires Valid(lp) && IsBlockShift(shift)
    ensures Valid(Grown(lp, va, shift)) && Grown(lp, va, shift) != NONE
    ensures forall x :: Inside(lp, x) || SameBlock(x, va, shift) ==> Inside(Grown(lp, va, shift), x)
  {
    hide NoTag, BlockMask, Within, Aligned, Untagged, Meet, Double, Inside, SameBlock, Valid, CoveringMask;
    var bmask := BlockMask(shift);
    var bbase := Meet(NoTag(va), bmask);
    if lp.base == ONES {
      FirstRange(lp, va, shift);
    } else {
      RangeFacts(lp, va, shift);
      BlockMaskAligned(shift);
      MeetAligned(lp.mask, bmask);
      var m := CoveringMask(lp.base, bbase, Meet(lp.mask, bmask));
      CoveringWithin(lp.base, bbase, Meet(lp.mask, bmask), lp.mask);
      CoveringWithin(lp.base, bbase, Meet(lp.mask, bmask), bmask);
      RangeValid(lp.base, m);
      forall x
        ensures Inside(lp, x) || SameBlock(x, va, shift) ==> Inside(Range(Meet(lp.base, m), m), x)
      {
        CoversBoth(lp, va, shift, m, x);
      }
    }
  }

  lemma {:induction false} CoveringStep(base: bv64, bbase: bv64, m: bv64)
    requires Untagged(base) && Untagged(bbase) && Aligned(m)
    ensures Meet(base, m) == Meet(bbase, m) ==> CoveringMask(base, bbase, m) == m
    ensures
      Meet(base, m) != Meet(bbase, m) ==>
        && Aligned(Double(m)) && Key(Double(m)) < Key(m)
        && CoveringMask(base, bbase, Double(m)) == CoveringMask(base, bbase, m)
  {
    hide Aligned, Untagged, Meet, Double, Key;
    if Meet(base, m) != Meet(bbase, m) {
      DoubleShrinks(base, bbase, m);
      DoubleAligned(m, m);
    }
  }

  /** Shift the mask until the bases agree. */
  method Cover(base: bv64, bbase: bv64, first: bv64) returns (m: bv64)
    requires Untagged(base) && Untagged(bbase) && Aligned(first)
    ensures m == CoveringMask(base, bbase, first)
  {
    hide CoveringMask;
    m := first;
    while Meet(base, m) != Meet(bbase, m)
      invariant Aligned(m)
      invariant CoveringMask(base, bbase, m) == CoveringMask(base, bbase, first)
      decreases Key(m)
    {
      CoveringStep(base, bbase, m);
      m := Double(m);
    }
    CoveringStep(base, bbase, m);
  }

  /** lp_record: the loop reaches that range. */
  method Record(lp: Range, va: bv64, shift: nat) returns (r: Range)
    requires Valid(lp) && IsBlockShift(shift)
    ensures r == Grown(lp, va, shift)
  {
    hide NoTag, BlockMask, Within, Aligned, Untagged, Meet, Double, Key, Valid, CoveringMask;
    var bmask := BlockMask(shift);
    var bbase := Meet(NoTag(va), bmask);
    if lp.base == ONES {
      r := Range(bbase, bmask);
      return;
    }
    RangeFacts(lp, va, shift);
    BlockMaskAligned(shift);
    MeetAligned(lp.mask, bmask);
    var m := Cover(lp.base, bbase, Meet(lp.mask, bmask));
    r := Range(Meet(lp.base, m), m);
  }

  lemma {:induction false} FirstRange(lp: Range, va: bv64, shift: nat)
    requires Valid(lp) && lp.base == ONES && IsBlockShift(shift)
    ensures lp == NONE
    ensures
      var r := Range(Meet(NoTag(va), BlockMask(shift)), BlockMask(shift));
      && Valid(r) && r != NONE
      && (forall x :: SameBlock(x, va, shift) ==> Inside(r, x))
      && (forall x :: !Inside(lp, x))
  {
    hide NoTag, BlockMask, Within, Aligned, Untagged, Meet, Inside, SameBlock, Valid;
    NoneOnly(lp);
    BlockMaskAligned(shift);
    RangeFacts(lp, va, shift);
    RangeValid(Meet(NoTag(va), BlockMask(shift)), BlockMask(shift));
    forall x
      ensures SameBlock(x, va, shift) ==> Inside(Range(Meet(NoTag(va), BlockMask(shift)), BlockMask(shift)), x)
      ensures !Inside(NONE, x)
    {
      FirstBlock(va, shift, x);
      NoneIsEmpty(x);
    }
  }

  lemma NoneOnly(lp: Range)
    requires Valid(lp) && lp.base == ONES
    ensures lp == NONE
  {
  }
}
