/**
 The same caches as the tables the emulator updates in place; every operation
 leaves them as the corresponding step of Tlb says.
 */
module Mmu {
  import opened LargePages
  import opened TableWalk
  import opened Tlb
  import opened SplitAccess
  import opened Pow2

  class Mmu {
    const tlb: array<TlbEntry>
    const dtlb: array<DataEntry>
    const fetch: array<FetchEntry>
    var gen: bv32
    var lp: Range

    ghost predicate Valid()
      reads this
    {
      && tlb.Length == ENTRIES && dtlb.Length == ENTRIES && fetch.Length == 2
      && LargePages.Valid(lp)
    }

    ghost function State(): (s: Caches)
      requires Valid()
      reads this, tlb, dtlb, fetch
      ensures Sized(s)
    {
      Caches(tlb[..], dtlb[..], fetch[..], gen, lp)
    }

    constructor ()
      ensures Valid() && State() == Tlb.Start() && fresh(tlb) && fresh(dtlb) && fresh(fetch)
    {
      tlb := new TlbEntry[ENTRIES](_ => NO_TLB);
      dtlb := new DataEntry[ENTRIES](_ => NO_DATA);
      fetch := new FetchEntry[2](_ => NO_FETCH);
      gen := 1;
      lp := NONE;
    }

    method PurgeTlb()
      requires Valid()
      modifies tlb
      ensures tlb[..] == Empty(NO_TLB, ENTRIES)
    {
      hide LargePages.Valid;
      for i := 0 to ENTRIES
        invariant forall k :: 0 <= k < i ==> tlb[k] == NO_TLB
      {
        tlb[i] := NO_TLB;
      }
    }

    method PurgeData()
      requires Valid()
      modifies dtlb
      ensures dtlb[..] == Empty(NO_DATA, ENTRIES)
    {
      hide LargePages.Valid;
      for i := 0 to ENTRIES
        invariant forall k :: 0 <= k < i ==> dtlb[k] == NO_DATA
      {
        dtlb[i] := NO_DATA;
      }
    }

    method DropFetch()
      requires Valid()
      modifies fetch
      ensures fetch[..] == NoFetch(old(fetch[..]))
    {
      fetch[0] := fetch[0].(valid := false);
      fetch[1] := fetch[1].(valid := false);
    }

    /** tlb_flush_all */
    method FlushAll()
      requires Valid()
      modifies this, tlb, dtlb, fetch
      ensures Valid() && State() == Tlb.FlushAll(old(State()))
    {
      hide Next, SliceWraps, NoFetch;
      gen := Next(gen);
      if SliceWraps(gen) {
        PurgeData();
        if gen == 0 {
          PurgeTlb();
          gen := 1;
        }
      }
      lp := NONE;
      DropFetch();
    }

    /** tlb_flush_page */
    method FlushPage(va: bv64)
      requires Valid()
      modifies this, tlb, dtlb, fetch
      ensures Valid() && State() == Tlb.FlushPage(old(State()), va)
    {
      hide Inside, Tlb.FlushAll, NoFetch, Idx, LargePages.Valid;
      if Inside(lp, va) {
        FlushAll();
        return;
      }
      tlb[Idx(va)] := tlb[Idx(va)].(valid := false);
      dtlb[Idx(va)] := NO_DATA;
      DropFetch();
    }

    /** mmu_translate */
    method Translate(c: Cpu, tb: Tables, va: bv64, acc: Access) returns (r: Result)
      requires Valid()
      modifies this, tlb
      ensures Valid() && State() == Translated(old(State()), c, tb, va, acc)
      ensures r == Tlb.Translate(old(State()), c, tb, va, acc)
    {
      hide TableWalk.Walk, PermOk, Idx, Page, WithOffset, Grown, LargePages.Valid;
      if !c.mmu {
        return Address(va);
      }
      var el0 := Unprivileged(c);
      var e := tlb[Idx(va)];
      if e.valid && e.gen == gen && e.vaPage == Page(va) && e.el0 == el0 && PermOk(acc, e.t, el0) {
        return Address(WithOffset(e.t.paPage, va));
      }
      var w := WalkLoop(tb, va);
      if w.Fault? {
        return Abort(w.fsc);
      }
      FillEntry(c, va, w.t, w.shift);
      if !PermOk(acc, w.t, el0) {
        return Abort(PERM_L3);
      }
      return Address(WithOffset(w.t.paPage, va));
    }

    method FillEntry(c: Cpu, va: bv64, t: Translation, shift: nat)
      requires Valid() && (shift == 0 || IsBlockShift(shift))
      modifies this, tlb
      ensures Valid() && State() == Fill(old(State()), c, va, t, shift)
    {
      hide Idx, Page, Grown, LargePages.Valid;
      if shift != 0 {
        GrownCovers(lp, va, shift);
        lp := Record(lp, va, shift);
      }
      tlb[Idx(va)] := TlbEntry(true, gen, Page(va), Unprivileged(c), t);
    }

    /** dtlb_fill */
    method FillData(c: Cpu, va: bv64, pa: bv64, m: Medium)
      requires Valid()
      modifies dtlb
      ensures State() == DataFill(old(State()), c, va, pa, m)
    {
      hide Idx, Page, PermOk, Tag, LargePages.Valid;
      if m.watched || !m.ram {
        return;
      }
      var r, w := true, true;
      if c.mmu {
        var e := tlb[Idx(va)];
        if e.vaPage != Page(va) || e.el0 != Unprivileged(c) {
          return;
        }
        r := PermOk(Read, e.t, Unprivileged(c));
        w := PermOk(Write, e.t, Unprivileged(c));
      }
      if m.coded {
        w := false;
      }
      dtlb[Idx(va)] := DataEntry(Tag(c, va, gen), Page(pa), r, w);
    }

    /** The probe, unless the bytes run past the page, else translate, access and refill: where the bytes are. */
    method Access(c: Cpu, tb: Tables, va: bv64, n: nat, acc: Access, media: Media) returns (r: Reply, at: seq<Place>)
      requires Valid()
      modifies this, tlb, dtlb
      ensures Valid()
      ensures
        var s := old(State());
        var o :=
          if Off(va) + n <= PAGE_BYTES then InPage(s, c, tb, va, n, acc, media) else Slow(s, c, tb, va, n, acc, media);
        State() == o.s && r == ReplyOf(o) && at == o.at
      ensures
        var s := old(State());
        State() == Accessed(s, c, tb, va, acc, Off(va) + n <= PAGE_BYTES, Behind(s, c, tb, va, acc, media))
    {
      hide Idx, Page, PermOk, Tag, LargePages.Valid, Translated, Tlb.Translate, DataFill, Places, Off;
      AccessCaches(State(), c, tb, va, n, acc, media);
      var d := dtlb[Idx(va)];
      if Off(va) + n <= PAGE_BYTES && d.tag == Tag(c, va, gen) && (if acc == Write then d.w else d.r) {
        return Done, Places(d.paPage, Off(va), n);
      }
      var a := Translate(c, tb, va, acc);
      if a.Abort? {
        return Raised(va, a.fsc), [];
      }
      if !media(Page(a.pa)).ok {
        return Raised(va, EXTERNAL), [];
      }
      FillData(c, va, a.pa, media(Page(a.pa)));
      return Done, Places(Page(a.pa), Off(va), n);
    }

    /** mem_read: the value is that of the bytes at the places of the access, the split included. */
    method ReadBytes(c: Cpu, tb: Tables, va: bv64, n: nat, media: Media, ram: Place -> Byte)
      returns (r: Reply, at: seq<Place>, v: nat)
      requires Valid()
      modifies this, tlb, dtlb
      ensures Valid()
      ensures
        var o := Touched(old(State()), c, tb, va, n, Read, media);
        State() == o.s && r == ReplyOf(o) && at == o.at
      ensures r.Done? ==> v == Little(Contents(ram, at))
      decreases n
    {
      hide Off, Advance, InPage, Slow, LargePages.Valid, Little, Contents, P2;
      OffSmall(va);
      if Off(va) + n > PAGE_BYTES && c.mmu {
        var first := PAGE_BYTES - Off(va);
        TouchedMany(State(), c, tb, va, first, Read, media);
        var lo, hi, rest;
        r, at, lo := ReadBytes(c, tb, va, first, media, ram);
        if r.Raised? {
          return r, at, 0;
        }
        r, rest, hi := ReadBytes(c, tb, Advance(va, first), n - first, media, ram);
        ContentsJoin(ram, at, rest);
        LittleJoin(Contents(ram, at), Contents(ram, rest));
        at := at + rest;
        v := lo + P2(8 * first) * hi;
      } else {
        r, at := Access(c, tb, va, n, Read, media);
        v := Little(Contents(ram, at));
      }
    }

    /** mem_write: the bytes stored are the value's, as many as there are places. */
    method WriteBytes(c: Cpu, tb: Tables, va: bv64, n: nat, media: Media, val: nat)
      returns (r: Reply, ghost at: seq<Place>, stores: seq<Written>)
      requires Valid()
      modifies this, tlb, dtlb
      ensures Valid()
      ensures
        var o := Touched(old(State()), c, tb, va, n, Write, media);
        State() == o.s && r == ReplyOf(o) && at == o.at
      ensures |at| <= n && stores == Stores(at, Bytes(val, n))
      decreases n
    {
      hide Off, Advance, InPage, Slow, LargePages.Valid, Bytes, Past;
      OffSmall(va);
      TouchedMany(State(), c, tb, va, n, Write, media);
      if Off(va) + n > PAGE_BYTES && c.mmu {
        var first := PAGE_BYTES - Off(va);
        TouchedMany(State(), c, tb, va, first, Write, media);
        BytesSplit(val, first, n - first);
        var more;
        ghost var rest;
        r, at, stores := WriteBytes(c, tb, va, first, media, val);
        if r.Raised? {
          return;
        }
        r, rest, more := WriteBytes(c, tb, Advance(va, first), n - first, media, Past(val, first));
        StoresJoin(at, rest, Bytes(val, first), Bytes(Past(val, first), n - first));
        at := at + rest;
        stores := stores + more;
      } else {
        var places;
        r, places := Access(c, tb, va, n, Write, media);
        at := places;
        stores := Stores(places, Bytes(val, n));
      }
    }

    /** mem_read128: two words, by one probe and one copy or by halves. */
    method Read128(c: Cpu, tb: Tables, va: bv64, media: Media, ram: Place -> Byte)
      returns (r: Reply, at: seq<Place>, lo: nat, hi: nat)
      requires Valid()
      modifies this, tlb, dtlb
      ensures Valid()
      ensures
        var o := Touched128(old(State()), c, tb, va, Read, media);
        State() == o.s && r == ReplyOf(o) && at == o.at
      ensures r.Done? ==> |at| == 16 && lo == Little(Contents(ram, at[..8])) && hi == Little(Contents(ram, at[8..]))
    {
      hide Off, Advance, Touched, LargePages.Valid, Little, Contents, Tag, Idx, Places;
      var d := dtlb[Idx(va)];
      if Off(va) <= 0xff0 && d.tag == Tag(c, va, gen) && d.r {
        at := Places(d.paPage, Off(va), 16);
        PlacesMany(d.paPage, Off(va), 16);
        return Done, at, Little(Contents(ram, at[..8])), Little(Contents(ram, at[8..]));
      }
      TouchedMany(State(), c, tb, va, 8, Read, media);
      r, at, lo := ReadBytes(c, tb, va, 8, media, ram);
      hi := 0;
      if r.Done? {
        var rest;
        TouchedMany(State(), c, tb, Advance(va, 8), 8, Read, media);
        r, rest, hi := ReadBytes(c, tb, Advance(va, 8), 8, media, ram);
        assert (at + rest)[..8] == at && (at + rest)[8..] == rest;
        at := at + rest;
      }
    }

    /** mem_write128 */
    method Write128(c: Cpu, tb: Tables, va: bv64, media: Media, lo: nat, hi: nat)
      returns (r: Reply, ghost at: seq<Place>, stores: seq<Written>)
      requires Valid()
      modifies this, tlb, dtlb
      ensures Valid()
      ensures
        var o := Touched128(old(State()), c, tb, va, Write, media);
        State() == o.s && r == ReplyOf(o) && at == o.at
      ensures |at| <= 16 && stores == Stores(at, Bytes(lo, 8) + Bytes(hi, 8))
    {
      hide Off, Advance, Touched, LargePages.Valid, Bytes, Tag, Idx, Places;
      var d := dtlb[Idx(va)];
      if Off(va) <= 0xff0 && d.tag == Tag(c, va, gen) && d.w {
        at := Places(d.paPage, Off(va), 16);
        PlacesMany(d.paPage, Off(va), 16);
        return Done, at, Stores(Places(d.paPage, Off(va), 16), Bytes(lo, 8) + Bytes(hi, 8));
      }
      TouchedMany(State(), c, tb, va, 8, Write, media);
      r, at, stores := WriteBytes(c, tb, va, 8, media, lo);
      if r.Raised? {
        FewerStores(at, Bytes(lo, 8), Bytes(hi, 8));
        return;
      }
      ghost var rest;
      var more;
      r, rest, more := WriteBytes(c, tb, Advance(va, 8), 8, media, hi);
      StoresJoin(at, rest, Bytes(lo, 8), Bytes(hi, 8));
      at := at + rest;
      stores := stores + more;
    }

    /** mem_ifetch: the page an aligned fetch reads from. */
    method Fetch(c: Cpu, tb: Tables, va: bv64, backed: bool) returns (r: Result)
      requires Valid() && va & 3 == 0
      modifies this, tlb, fetch
      ensures Valid() && State() == Fetched(old(State()), c, tb, va, backed)
      ensures FetchHit(old(State()), c, va) ==> r == Address(WithOffset(old(State()).fetch[Which(c.el0)].paPage, va))
      ensures !FetchHit(old(State()), c, va) ==> r == Tlb.Translate(old(State()), c, tb, va, Execute)
    {
      hide Page, LargePages.Valid, Translated, Tlb.Translate, WithOffset;
      var f := fetch[Which(c.el0)];
      if f.valid && f.page == Page(va) && f.mmu == c.mmu {
        return Address(WithOffset(f.paPage, va));
      }
      r := Translate(c, tb, va, Execute);
      if r.Address? && backed {
        fetch[Which(c.el0)] := FetchEntry(true, Page(va), Page(r.pa), c.mmu);
      }
    }
  }
}
