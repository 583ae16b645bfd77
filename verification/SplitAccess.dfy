/**
 Data accesses of any size at any address: the split over two pages, the 16-byte
 forms with their shortcut, and that each is its bytes one after the other: the
 same places, the same first fault, the same caches.
 */
module SplitAccess {
  import opened TableWalk
  import opened Tlb
  import TlbRuns
  import Probe
  import opened Pow2

  // ---- Addresses ----

  const PAGE_BYTES: nat := 4096

  function Low12(va: bv64): bv12 {
    (va & 0xfff) as bv12
  }

  function Off(va: bv64): nat {
    Probe.Number(Low12(va))
  }

  function After(va: bv64): bv64 {
    va + 1
  }

  /** n bytes further on. */
  function Advance(va: bv64, n: nat): bv64
    decreases n
  {
    if n == 0 then va else Advance(After(va), n - 1)
  }

  lemma NextLow(va: bv64)
    ensures Low12(After(va)) == Low12(va) + 1
  {
  }

  lemma NextNumber(x: bv12)
    ensures Probe.Number(x + 1) == if Probe.Number(x) == 4095 then 0 else Probe.Number(x) + 1
  {
  }

  lemma TopNumber(x: bv12)
    ensures x == 0xfff <==> Probe.Number(x) == 4095
  {
  }

  lemma NextPage(va: bv64)
    requires Low12(va) != 0xfff
    ensures After(va) & 0xffff_ffff_ffff_f000 == va & 0xffff_ffff_ffff_f000
  {
  }

  /** The next byte is on the same page unless this is its last. */
  lemma {:induction false} NextByte(va: bv64)
    ensures Off(After(va)) == if Off(va) == PAGE_BYTES - 1 then 0 else Off(va) + 1
    ensures Off(va) < PAGE_BYTES - 1 ==> Page(After(va)) == Page(va) && Idx(After(va)) == Idx(va)
  {
    hide Low12, Probe.Number, After, Page, Idx;
    NextLow(va);
    NextNumber(Low12(va));
    TopNumber(Low12(va));
    if Off(va) < PAGE_BYTES - 1 {
      NextPage(va);
      Probe.PageBits(va);
      Probe.PageBits(After(va));
      TlbRuns.IdxOfPage(va);
      TlbRuns.IdxOfPage(After(va));
    }
  }

  lemma {:induction false} AdvanceOff(va: bv64, n: nat)
    requires Off(va) + n <= PAGE_BYTES
    ensures Off(Advance(va, n)) == if Off(va) + n == PAGE_BYTES then 0 else Off(va) + n
    decreases n
  {
    hide Off, After;
    if n > 0 {
      NextByte(va);
      if n > 1 {
        AdvanceOff(After(va), n - 1);
      }
    } else {
      OffSmall(va);
    }
  }

  lemma OffSmall(va: bv64)
    ensures Off(va) < PAGE_BYTES
  {
  }

  lemma {:induction false} AdvanceSum(va: bv64, a: nat, b: nat)
    ensures Advance(Advance(va, a), b) == Advance(va, a + b)
    decreases a
  {
    hide After;
    if a > 0 {
      AdvanceSum(After(va), a - 1, b);
    }
  }

  // ---- One access ----

  /** A byte of physical memory: its page, and the offset that is ored in. */
  datatype Place = Place(page: bv64, off: nat)

  /** All its bytes, in order; or those before the fault, with the address and status reported. */
  datatype Outcome = Ok(s: Caches, at: seq<Place>) | Stop(s: Caches, at: seq<Place>, va: bv64, fsc: nat)

  /** What the caller sees of it. */
  datatype Reply = Done | Raised(va: bv64, fsc: nat)

  function ReplyOf(o: Outcome): Reply {
    if o.Ok? then Done else Raised(o.va, o.fsc)
  }

  function Places(page: bv64, off: nat, n: nat): seq<Place>
    decreases n
  {
    if n == 0 then [] else [Place(page, off)] + Places(page, off + 1, n - 1)
  }

  /** What lies behind a physical page. */
  type Media = bv64 -> Medium

  /** mem_read and mem_write inside a page: the probe, else translate, access and refill. */
  function InPage(s: Caches, c: Cpu, tb: Tables, va: bv64, n: nat, acc: Access, media: Media): (o: Outcome)
    requires Sized(s)
  {
    if DataHit(s, c, va, acc) then Ok(s, Places(s.dtlb[Idx(va)].paPage, Off(va), n))
    else Slow(s, c, tb, va, n, acc, media)
  }

  function Slow(s: Caches, c: Cpu, tb: Tables, va: bv64, n: nat, acc: Access, media: Media): Outcome
    requires Sized(s)
  {
    var s' := Translated(s, c, tb, va, acc);
    TranslatedSized(s, c, tb, va, acc);
    match Tlb.Translate(s, c, tb, va, acc)
    case Abort(fsc) => Stop(s', [], va, fsc)
    case Address(pa) =>
      if !media(Page(pa)).ok then Stop(s', [], va, EXTERNAL)
      else Ok(DataFill(s', c, va, pa, media(Page(pa))), Places(Page(pa), Off(va), n))
  }

  lemma {:induction false} SlowSized(s: Caches, c: Cpu, tb: Tables, va: bv64, n: nat, acc: Access, media: Media)
    requires Sized(s)
    ensures Sized(InPage(s, c, tb, va, n, acc, media).s) && Sized(Slow(s, c, tb, va, n, acc, media).s)
  {
    hide Translated, Tlb.Translate, Tag, PermOk, DataHit, Idx, Page;
    TranslatedSized(s, c, tb, va, acc);
  }

  /** What lies behind the page an access translates to, if it does. */
  function Behind(s: Caches, c: Cpu, tb: Tables, va: bv64, acc: Access, media: Media): Medium
    requires Sized(s)
  {
    var r := Tlb.Translate(s, c, tb, va, acc);
    if r.Address? then media(Page(r.pa)) else media(0)
  }

  /** The caches end as the step of Tlb leaves them. */
  lemma {:induction false} AccessCaches(s: Caches, c: Cpu, tb: Tables, va: bv64, n: nat, acc: Access, media: Media)
    requires Sized(s)
    ensures
      InPage(s, c, tb, va, n, acc, media).s == Accessed(s, c, tb, va, acc, true, Behind(s, c, tb, va, acc, media))
    ensures Slow(s, c, tb, va, n, acc, media).s == Accessed(s, c, tb, va, acc, false, Behind(s, c, tb, va, acc, media))
  {
    hide Translated, Tlb.Translate, DataFill, DataHit, Idx, Page;
    TranslatedSized(s, c, tb, va, acc);
  }

  function Joined(o: Outcome, p: Outcome): Outcome {
    if p.Ok? then Ok(p.s, o.at + p.at) else p.(at := o.at + p.at)
  }

  /** mem_read and mem_write: an access over two pages under the MMU is its two parts. */
  function Touched(s: Caches, c: Cpu, tb: Tables, va: bv64, n: nat, acc: Access, media: Media): (o: Outcome)
    requires Sized(s)
    ensures Sized(o.s)
    decreases n
  {
    SlowSized(s, c, tb, va, n, acc, media);
    OffSmall(va);
    if Off(va) + n > PAGE_BYTES && c.mmu then
      var first := PAGE_BYTES - Off(va);
      var o := Touched(s, c, tb, va, first, acc, media);
      if o.Stop? then o else Joined(o, Touched(o.s, c, tb, Advance(va, first), n - first, acc, media))
    else if Off(va) + n <= PAGE_BYTES then InPage(s, c, tb, va, n, acc, media)
    else Slow(s, c, tb, va, n, acc, media)
  }

  /** mem_read128 and mem_write128: one probe and one copy, or the two halves. */
  function Touched128(s: Caches, c: Cpu, tb: Tables, va: bv64, acc: Access, media: Media): (o: Outcome)
    requires Sized(s)
    ensures Sized(o.s)
  {
    if Off(va) <= 0xff0 && DataHit(s, c, va, acc) then Ok(s, Places(s.dtlb[Idx(va)].paPage, Off(va), 16))
    else Halves(s, c, tb, va, acc, media)
  }

  function Halves(s: Caches, c: Cpu, tb: Tables, va: bv64, acc: Access, media: Media): (o: Outcome)
    requires Sized(s)
    ensures Sized(o.s)
  {
    var o := Touched(s, c, tb, va, 8, acc, media);
    if o.Stop? then o else Joined(o, Touched(o.s, c, tb, Advance(va, 8), 8, acc, media))
  }

  /** The bytes one after the other. */
  function Bytewise(s: Caches, c: Cpu, tb: Tables, va: bv64, n: nat, acc: Access, media: Media): (o: Outcome)
    requires Sized(s)
    ensures Sized(o.s)
    decreases n
  {
    if n == 0 then Ok(s, [])
    else
      SlowSized(s, c, tb, va, 1, acc, media);
      var o := InPage(s, c, tb, va, 1, acc, media);
      if o.Stop? then o else Joined(o, Bytewise(o.s, c, tb, After(va), n - 1, acc, media))
  }

  // ---- Inside a page ----

  /** An address once answered is answered from the cache. */
  lemma {:induction false} Answered(s: Caches, c: Cpu, tb: Tables, va: bv64, acc: Access)
    requires Sized(s) && c.mmu && Tlb.Translate(s, c, tb, va, acc).Address?
    ensures
      var s' := Translated(s, c, tb, va, acc);
      && Sized(s') && s'.dtlb == s.dtlb && s'.gen == s.gen && TlbHit(s', c, va, acc)
      && Page(Tlb.Translate(s, c, tb, va, acc).pa) == Page(s'.tlb[Idx(va)].t.paPage)
  {
    hide Idx, Page, PermOk, Walk, WithOffset;
    TranslatedSized(s, c, tb, va, acc);
    if TlbHit(s, c, va, acc) {
      TlbRuns.PageOfOffset(s.tlb[Idx(va)].t.paPage, va);
    } else {
      TlbRuns.PageOfOffset(Walk(tb, va).t.paPage, va);
    }
  }

  /** After a slow access the next byte finds the same page and leaves the caches as they are. */
  lemma {:induction false} NextAlike(s: Caches, c: Cpu, tb: Tables, va: bv64, n: nat, acc: Access, media: Media)
    requires Sized(s) && Off(va) < PAGE_BYTES - 1 && acc != Execute && !DataHit(s, c, va, acc)
    requires Slow(s, c, tb, va, 1, acc, media).Ok?
    ensures
      var o := Slow(s, c, tb, va, 1, acc, media);
      && Sized(o.s) && o.at == [o.at[0]]
      && InPage(o.s, c, tb, After(va), n, acc, media) == Ok(o.s, Places(o.at[0].page, Off(va) + 1, n))
  {
    hide Idx, Page, PermOk, Walk, WithOffset, Tag, After, Off, TlbHit, Translated, Tlb.Translate;
    SlowSized(s, c, tb, va, 1, acc, media);
    NextByte(va);
    Probe.SameTag(c, After(va), va, s.gen);
    TranslatedSized(s, c, tb, va, acc);
    OnePlace(Page(Tlb.Translate(s, c, tb, va, acc).pa), Off(va));
    if c.mmu {
      Answered(s, c, tb, va, acc);
      MappedNext(s, c, tb, va, n, acc, media);
    } else {
      StillTranslated(s, c, tb, va, acc);
      UnmappedNext(s, c, tb, va, n, acc, media);
    }
  }

  lemma OnePlace(page: bv64, off: nat)
    ensures Places(page, off, 1) == [Place(page, off)]
  {
    assert Places(page, off + 1, 0) == [];
  }

  /** Filling again changes nothing. */
  lemma {:induction false} FillAgain(s: Caches, c: Cpu, va: bv64, va': bv64, pa: bv64, pa': bv64, m: Medium)
    requires Sized(s) && Page(va') == Page(va) && Idx(va') == Idx(va) && Page(pa') == Page(pa)
    requires Tag(c, va', s.gen) == Tag(c, va, s.gen)
    ensures
      var t := DataFill(s, c, va, pa, m);
      Sized(t) && DataFill(t, c, va', pa', m) == t && t.tlb == s.tlb && t.gen == s.gen
  {
    hide Idx, Page, PermOk, Tag;
    var t := DataFill(s, c, va, pa, m);
    assert t.dtlb[Idx(va) := t.dtlb[Idx(va)]] == t.dtlb;
  }

  /** A probe of the slot just filled, or not filled. */
  lemma {:induction false} FilledProbe(s: Caches, c: Cpu, va: bv64, pa: bv64, m: Medium, acc: Access)
    requires Sized(s) && !DataHit(s, c, va, acc)
    ensures
      var t := DataFill(s, c, va, pa, m);
      DataHit(t, c, va, acc) ==> t.dtlb[Idx(va)].paPage == Page(pa)
  {
    hide Idx, Page, PermOk, Tag;
  }

  lemma {:induction false} MappedNext(s: Caches, c: Cpu, tb: Tables, va: bv64, n: nat, acc: Access, media: Media)
    requires Sized(s) && c.mmu && acc != Execute && !DataHit(s, c, va, acc) && Slow(s, c, tb, va, 1, acc, media).Ok?
    requires Off(va) < PAGE_BYTES - 1 && Tlb.Translate(s, c, tb, va, acc).Address?
    ensures
      var o := Slow(s, c, tb, va, 1, acc, media);
      var pa := Tlb.Translate(s, c, tb, va, acc).pa;
      Sized(o.s) && InPage(o.s, c, tb, After(va), n, acc, media) == Ok(o.s, Places(Page(pa), Off(va) + 1, n))
  {
    hide Idx, Page, PermOk, Walk, WithOffset, Tag, After, Off, DataFill, Translated;
    var s' := Translated(s, c, tb, va, acc);
    var pa, va' := Tlb.Translate(s, c, tb, va, acc).pa, After(va);
    Answered(s, c, tb, va, acc);
    NextByte(va);
    Probe.SameTag(c, va', va, s.gen);
    var m := media(Page(pa));
    var pa' := WithOffset(s'.tlb[Idx(va)].t.paPage, va');
    TlbRuns.PageOfOffset(s'.tlb[Idx(va)].t.paPage, va');
    FillAgain(s', c, va, va', pa, pa', m);
    FilledProbe(s', c, va, pa, m, acc);
    var t := DataFill(s', c, va, pa, m);
    assert TlbHit(t, c, va', acc);
    StillTranslated(t, c, tb, va', acc);
  }

  lemma StillTranslated(s: Caches, c: Cpu, tb: Tables, va: bv64, acc: Access)
    requires Sized(s) && (c.mmu ==> TlbHit(s, c, va, acc))
    ensures Translated(s, c, tb, va, acc) == s
    ensures
      Tlb.Translate(s, c, tb, va, acc) ==
        Address(if c.mmu then WithOffset(s.tlb[Idx(va)].t.paPage, va) else va)
  {
    hide Idx, Page, PermOk, Walk, WithOffset, TlbHit;
  }

  lemma {:induction false} UnmappedNext(s: Caches, c: Cpu, tb: Tables, va: bv64, n: nat, acc: Access, media: Media)
    requires Sized(s) && !c.mmu && acc != Execute && !DataHit(s, c, va, acc) && Slow(s, c, tb, va, 1, acc, media).Ok?
    requires Off(va) < PAGE_BYTES - 1
    ensures
      var o := Slow(s, c, tb, va, 1, acc, media);
      Sized(o.s) && InPage(o.s, c, tb, After(va), n, acc, media) == Ok(o.s, Places(Page(va), Off(va) + 1, n))
  {
    hide Idx, Page, PermOk, Tag, After, Off, DataFill, Translated, Tlb.Translate;
    StillTranslated(s, c, tb, va, acc);
    NextByte(va);
    Probe.SameTag(c, After(va), va, s.gen);
    var m := media(Page(va));
    FillAgain(s, c, va, After(va), va, After(va), m);
    FilledProbe(s, c, va, va, m, acc);
    var t := DataFill(s, c, va, va, m);
    StillTranslated(t, c, tb, After(va), acc);
  }

  lemma {:induction false} PeelHit(s: Caches, c: Cpu, tb: Tables, va: bv64, n: nat, acc: Access, media: Media)
    requires Sized(s) && n >= 2 && Off(va) < PAGE_BYTES - 1 && DataHit(s, c, va, acc)
    ensures
      InPage(s, c, tb, va, n, acc, media) ==
        Joined(InPage(s, c, tb, va, 1, acc, media), InPage(s, c, tb, After(va), n - 1, acc, media))
  {
    hide Idx, Page, Off, After, Tag, Slow;
    NextByte(va);
    Probe.SameTag(c, After(va), va, s.gen);
    OnePlace(s.dtlb[Idx(va)].paPage, Off(va));
  }

  lemma {:induction false} PeelMiss(s: Caches, c: Cpu, tb: Tables, va: bv64, n: nat, acc: Access, media: Media)
    requires Sized(s) && n >= 2 && Off(va) < PAGE_BYTES - 1 && acc != Execute && !DataHit(s, c, va, acc)
    ensures
      var o := Slow(s, c, tb, va, 1, acc, media);
      && Sized(o.s)
      && Slow(s, c, tb, va, n, acc, media) ==
           if o.Stop? then o else Joined(o, InPage(o.s, c, tb, After(va), n - 1, acc, media))
  {
    hide Idx, Page, Off, After, Tag, Translated, Tlb.Translate, DataFill, DataHit, InPage;
    SlowSized(s, c, tb, va, 1, acc, media);
    TranslatedSized(s, c, tb, va, acc);
    if Slow(s, c, tb, va, 1, acc, media).Ok? {
      OnePlace(Page(Tlb.Translate(s, c, tb, va, acc).pa), Off(va));
      NextAlike(s, c, tb, va, n - 1, acc, media);
    }
  }

  /** The first byte of an access inside a page, and the rest of it. */
  lemma {:induction false} Peel(s: Caches, c: Cpu, tb: Tables, va: bv64, n: nat, acc: Access, media: Media)
    requires Sized(s) && n >= 2 && Off(va) + n <= PAGE_BYTES && acc != Execute
    ensures
      var o := InPage(s, c, tb, va, 1, acc, media);
      && Sized(o.s)
      && InPage(s, c, tb, va, n, acc, media) ==
           if o.Stop? then o else Joined(o, InPage(o.s, c, tb, After(va), n - 1, acc, media))
  {
    hide Idx, Off, After, Slow, DataHit, Joined;
    SlowSized(s, c, tb, va, 1, acc, media);
    if DataHit(s, c, va, acc) {
      PeelHit(s, c, tb, va, n, acc, media);
    } else {
      PeelMiss(s, c, tb, va, n, acc, media);
    }
  }

  lemma {:induction false} InPageIsBytes(s: Caches, c: Cpu, tb: Tables, va: bv64, n: nat, acc: Access, media: Media)
    requires Sized(s) && n >= 1 && Off(va) + n <= PAGE_BYTES && acc != Execute
    ensures InPage(s, c, tb, va, n, acc, media) == Bytewise(s, c, tb, va, n, acc, media)
    decreases n
  {
    hide InPage, Off, After;
    SlowSized(s, c, tb, va, 1, acc, media);
    var o := InPage(s, c, tb, va, 1, acc, media);
    if n == 1 {
      JoinNothing(o);
      assert o.Ok? ==> Bytewise(o.s, c, tb, After(va), 0, acc, media) == Ok(o.s, []);
    } else {
      Peel(s, c, tb, va, n, acc, media);
      NextByte(va);
      InPageIsBytes(o.s, c, tb, After(va), n - 1, acc, media);
    }
  }

  lemma JoinNothing(o: Outcome)
    ensures o.Ok? ==> Joined(o, Ok(o.s, [])) == o
  {
  }

  lemma JoinAssociates(o: Outcome, p: Outcome, q: Outcome)
    ensures Joined(Joined(o, p), q) == Joined(o, Joined(p, q))
  {
    assert (o.at + p.at) + q.at == o.at + (p.at + q.at);
  }

  lemma {:induction false} BytesJoin(s: Caches, c: Cpu, tb: Tables, va: bv64, a: nat, b: nat, acc: Access, media: Media)
    requires Sized(s)
    ensures
      var o := Bytewise(s, c, tb, va, a, acc, media);
      Bytewise(s, c, tb, va, a + b, acc, media) ==
        if o.Stop? then o else Joined(o, Bytewise(o.s, c, tb, Advance(va, a), b, acc, media))
    decreases a
  {
    hide Sized, InPage, After, Joined, Bytewise;
    BytewiseNone(s, c, tb, va, acc, media);
    if a == 0 {
      NothingJoins(Bytewise(s, c, tb, va, b, acc, media), s);
    } else {
      SlowSized(s, c, tb, va, 1, acc, media);
      BytewiseStep(s, c, tb, va, a, acc, media);
      BytewiseStep(s, c, tb, va, a + b, acc, media);
      var o := InPage(s, c, tb, va, 1, acc, media);
      if o.Ok? {
        BytesJoin(o.s, c, tb, After(va), a - 1, b, acc, media);
        var p := Bytewise(o.s, c, tb, After(va), a - 1, acc, media);
        JoinedKind(o, p);
        if p.Ok? {
          JoinAssociates(o, p, Bytewise(p.s, c, tb, Advance(va, a), b, acc, media));
        }
      }
    }
  }

  lemma BytewiseNone(s: Caches, c: Cpu, tb: Tables, va: bv64, acc: Access, media: Media)
    requires Sized(s)
    ensures Bytewise(s, c, tb, va, 0, acc, media) == Ok(s, [])
  {
  }

  lemma BytewiseStep(s: Caches, c: Cpu, tb: Tables, va: bv64, n: nat, acc: Access, media: Media)
    requires Sized(s) && n > 0
    ensures
      var o := InPage(s, c, tb, va, 1, acc, media);
      && Sized(o.s)
      && Bytewise(s, c, tb, va, n, acc, media) ==
           if o.Stop? then o else Joined(o, Bytewise(o.s, c, tb, After(va), n - 1, acc, media))
  {
    hide InPage, After, Joined;
    SlowSized(s, c, tb, va, 1, acc, media);
  }

  lemma JoinedKind(o: Outcome, p: Outcome)
    ensures Joined(o, p).Ok? == p.Ok? && Joined(o, p).s == p.s
  {
  }

  lemma NothingJoins(o: Outcome, s: Caches)
    ensures Joined(Ok(s, []), o) == o
  {
  }

  /**
   An access of any size, under the MMU or inside a page, is its bytes one after
   the other: the same physical bytes in order, the same fault at the same
   address with the same bytes before it, and the same caches.
   */
  lemma {:induction false} TouchedIsBytes(s: Caches, c: Cpu, tb: Tables, va: bv64, n: nat, acc: Access, media: Media)
    requires Sized(s) && n >= 1 && (c.mmu || Off(va) + n <= PAGE_BYTES) && acc != Execute
    ensures Touched(s, c, tb, va, n, acc, media) == Bytewise(s, c, tb, va, n, acc, media)
    decreases n
  {
    hide InPage, Slow, Off, Advance, Bytewise;
    OffSmall(va);
    SlowSized(s, c, tb, va, n, acc, media);
    if Off(va) + n <= PAGE_BYTES {
      InPageIsBytes(s, c, tb, va, n, acc, media);
    } else {
      var first := PAGE_BYTES - Off(va);
      TouchedIsBytes(s, c, tb, va, first, acc, media);
      BytesJoin(s, c, tb, va, first, n - first, acc, media);
      var o := Touched(s, c, tb, va, first, acc, media);
      if o.Ok? {
        TouchedIsBytes(o.s, c, tb, Advance(va, first), n - first, acc, media);
      }
    }
  }

  /** The shortcut of the 16-byte forms is the two halves, whatever the caches hold. */
  lemma {:induction false} WideIsHalves(s: Caches, c: Cpu, tb: Tables, va: bv64, acc: Access, media: Media)
    requires Sized(s) && acc != Execute
    ensures Touched128(s, c, tb, va, acc, media) == Halves(s, c, tb, va, acc, media)
  {
    hide Off, Advance, Bytewise, Slow, DataHit, Idx, Places;
    if Off(va) <= 0xff0 && DataHit(s, c, va, acc) {
      AdvanceOff(va, 8);
      InPageIsBytes(s, c, tb, va, 16, acc, media);
      TouchedIsBytes(s, c, tb, va, 8, acc, media);
      BytesJoin(s, c, tb, va, 8, 8, acc, media);
      var o := Touched(s, c, tb, va, 8, acc, media);
      if o.Ok? {
        TouchedIsBytes(o.s, c, tb, Advance(va, 8), 8, acc, media);
      }
    }
  }

  /** And its sixteen bytes one after the other, under the MMU or inside a page. */
  lemma {:induction false} WideIsBytes(s: Caches, c: Cpu, tb: Tables, va: bv64, acc: Access, media: Media)
    requires Sized(s) && acc != Execute && (c.mmu || Off(va) + 16 <= PAGE_BYTES)
    ensures Touched128(s, c, tb, va, acc, media) == Bytewise(s, c, tb, va, 16, acc, media)
  {
    hide Off, Advance, Bytewise, Touched, Touched128;
    WideIsHalves(s, c, tb, va, acc, media);
    if Off(va) + 16 <= PAGE_BYTES {
      AdvanceOff(va, 8);
    }
    TouchedIsBytes(s, c, tb, va, 8, acc, media);
    BytesJoin(s, c, tb, va, 8, 8, acc, media);
    var o := Touched(s, c, tb, va, 8, acc, media);
    if o.Ok? {
      TouchedIsBytes(o.s, c, tb, Advance(va, 8), 8, acc, media);
    }
  }

  // ---- Values ----

  type Byte = x: int | 0 <= x < 256

  function Contents(ram: Place -> Byte, at: seq<Place>): (b: seq<Byte>)
    ensures |b| == |at|
  {
    seq(|at|, i requires 0 <= i < |at| => ram(at[i]))
  }

  /** Bytes as a little-endian number. */
  function Little(b: seq<Byte>): nat {
    if b == [] then 0 else b[0] + 256 * Little(b[1..])
  }

  /** The low n bytes of a value. */
  function Bytes(v: nat, n: nat): (b: seq<Byte>)
    ensures |b| == n
    decreases n
  {
    if n == 0 then [] else [v % 256] + Bytes(v / 256, n - 1)
  }

  /** Byte by byte, what is stored where. */
  datatype Written = Written(at: Place, byte: Byte)

  function Stores(at: seq<Place>, b: seq<Byte>): (w: seq<Written>)
    requires |at| <= |b|
    ensures |w| == |at|
  {
    seq(|at|, i requires 0 <= i < |at| => Written(at[i], b[i]))
  }

  /** What was stored comes back as the value's low bytes. */
  lemma {:induction false} LittleBytes(v: nat, n: nat)
    ensures Little(Bytes(v, n)) == v % P2(8 * n)
    decreases n
  {
    hide P2;
    P2Small();
    if n > 0 {
      LittleBytes(v / 256, n - 1);
      assert Bytes(v, n)[1..] == Bytes(v / 256, n - 1);
      DivP2P2(v, 8, 8 * (n - 1));
    } else {
      P2Zero(0);
    }
  }

  /** A split read's value: the low part, and the high part shifted past it. */
  lemma {:induction false} LittleJoin(a: seq<Byte>, b: seq<Byte>)
    ensures Little(a + b) == Little(a) + P2(8 * |a|) * Little(b)
    decreases |a|
  {
    hide P2;
    if a == [] {
      assert a + b == b;
      P2Zero(0);
    } else {
      assert (a + b)[0] == a[0] && (a + b)[1..] == a[1..] + b;
      LittleJoin(a[1..], b);
      P2Small();
      P2Add(8, 8 * (|a| - 1));
      Assoc(256, P2(8 * (|a| - 1)), Little(b));
    }
  }

  /** A value shifted right by n bytes. */
  function Past(v: nat, n: nat): nat
    decreases n
  {
    if n == 0 then v else Past(v / 256, n - 1)
  }

  lemma {:induction false} PastIs(v: nat, n: nat)
    ensures P2(8 * n) > 0 && Past(v, n) == v / P2(8 * n)
    decreases n
  {
    hide P2;
    P2Small();
    if n == 0 {
      P2Zero(0);
    } else {
      PastIs(v / 256, n - 1);
      DivP2P2(v, 8, 8 * (n - 1));
      P2Mono(0, 8 * n);
      P2Zero(0);
    }
  }

  /** A split write's bytes: those of the value, and of the value shifted past them. */
  lemma {:induction false} BytesSplit(v: nat, a: nat, b: nat)
    ensures Bytes(v, a + b) == Bytes(v, a) + Bytes(Past(v, a), b)
    decreases a
  {
    if a == 0 {
      assert Bytes(v, 0) + Bytes(v, b) == Bytes(v, b);
    } else {
      BytesSplit(v / 256, a - 1, b);
      assert [v % 256] + (Bytes(v / 256, a - 1) + Bytes(Past(v, a), b)) == Bytes(v, a) + Bytes(Past(v, a), b);
    }
  }

  lemma ContentsJoin(ram: Place -> Byte, a: seq<Place>, b: seq<Place>)
    ensures Contents(ram, a + b) == Contents(ram, a) + Contents(ram, b)
  {
  }

  lemma StoresJoin(a: seq<Place>, b: seq<Place>, x: seq<Byte>, y: seq<Byte>)
    requires |a| == |x| && |b| <= |y|
    ensures Stores(a + b, x + y) == Stores(a, x) + Stores(b, y)
  {
  }

  lemma FewerStores(a: seq<Place>, x: seq<Byte>, y: seq<Byte>)
    requires |a| <= |x|
    ensures Stores(a, x + y) == Stores(a, x)
  {
  }

  lemma {:induction false} PlacesMany(page: bv64, off: nat, n: nat)
    ensures |Places(page, off, n)| == n
    decreases n
  {
    if n > 0 {
      PlacesMany(page, off + 1, n - 1);
    }
  }

  lemma {:induction false} PageMany(s: Caches, c: Cpu, tb: Tables, va: bv64, n: nat, acc: Access, media: Media)
    requires Sized(s)
    ensures
      var o, p := InPage(s, c, tb, va, n, acc, media), Slow(s, c, tb, va, n, acc, media);
      && |o.at| == (if o.Ok? then n else 0)
      && |p.at| == (if p.Ok? then n else 0)
  {
    hide DataHit, Translated, Tlb.Translate, DataFill, Idx, Page, Off, Places;
    TranslatedSized(s, c, tb, va, acc);
    PlacesMany(s.dtlb[Idx(va)].paPage, Off(va), n);
    if Tlb.Translate(s, c, tb, va, acc).Address? {
      PlacesMany(Page(Tlb.Translate(s, c, tb, va, acc).pa), Off(va), n);
    }
  }

  /** All bytes of an access that completes, at most as many of one that does not. */
  lemma TouchedSplit(s: Caches, c: Cpu, tb: Tables, va: bv64, n: nat, acc: Access, media: Media)
    requires Sized(s) && c.mmu && Off(va) + n > PAGE_BYTES && Off(va) < PAGE_BYTES
    ensures
      var first := PAGE_BYTES - Off(va);
      var o := Touched(s, c, tb, va, first, acc, media);
      Touched(s, c, tb, va, n, acc, media) ==
        if o.Stop? then o else Joined(o, Touched(o.s, c, tb, Advance(va, first), n - first, acc, media))
  {
    hide Sized, InPage, Slow, Joined, Off, Advance;
  }

  lemma {:induction false} TouchedMany(s: Caches, c: Cpu, tb: Tables, va: bv64, n: nat, acc: Access, media: Media)
    requires Sized(s)
    ensures
      var o := Touched(s, c, tb, va, n, acc, media);
      |o.at| <= n && (o.Ok? ==> |o.at| == n)
    decreases n
  {
    hide Sized, InPage, Slow, Off, Advance;
    OffSmall(va);
    if Off(va) + n > PAGE_BYTES && c.mmu {
      hide Touched;
      TouchedSplit(s, c, tb, va, n, acc, media);
      var first := PAGE_BYTES - Off(va);
      TouchedMany(s, c, tb, va, first, acc, media);
      var o := Touched(s, c, tb, va, first, acc, media);
      if o.Ok? {
        TouchedMany(o.s, c, tb, Advance(va, first), n - first, acc, media);
      }
    } else {
      PageMany(s, c, tb, va, n, acc, media);
    }
  }
}
