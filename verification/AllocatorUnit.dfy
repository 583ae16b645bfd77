/** The allocator's tables and the emission cursor as the generator updates them in place. */
module AllocatorUnit {
  import opened Ir
  import opened HostCode
  import opened Allocator

  class Unit {
    const v2h: array<int>
    const h2v: array<int>
    const dirty: array<bool>
    const lru: array<nat>
    var stamp: nat
    var code: seq<Insn>

    ghost predicate Shaped()
      reads this
    {
      v2h.Length == VREGS && h2v.Length == HREGS && dirty.Length == VREGS && lru.Length == HREGS && v2h != h2v
    }

    ghost function Now(): Ra
      reads this, v2h, h2v, dirty, lru
    {
      Ra(v2h[..], h2v[..], dirty[..], lru[..], stamp)
    }

    ghost predicate Valid()
      reads this, v2h, h2v, dirty, lru
    {
      Shaped() && RaOk(Now())
    }

    constructor ()
      ensures Valid() && code == [] && fresh(v2h) && fresh(h2v) && fresh(dirty) && fresh(lru)
      ensures forall v :: 0 <= v < VREGS ==> v2h[v] == -1
    {
      v2h := new int[VREGS](_ => -1);
      h2v := new int[HREGS](_ => NOBODY);
      dirty := new bool[VREGS](_ => false);
      lru := new nat[HREGS](_ => 0);
      stamp := 0;
      code := [];
    }

    /** ra_alloc's scan. */
    method FindRegister() returns (h: nat)
      requires Valid()
      ensures h == Pick(Now(), 0, -1)
    {
      hide RaOk, Pick, Leads;
      ghost var ra := Now();
      var best, i := -1, 0;
      NoLeader(ra);
      while i < |POOL|
        invariant i <= |POOL| && Leads(ra, i, best) && (best == -1 || InPool(best))
        invariant Pick(ra, i, best) == Pick(ra, 0, -1)
      {
        PickStep(ra, i, best);
        h := POOL[i];
        if h2v[h] == NOBODY {
          return;
        }
        if best == -1 || lru[h] < lru[best] {
          best := h;
        }
        i := i + 1;
      }
      PickEnd(ra, best);
      h := best;
    }

    /** ra_alloc */
    method Take() returns (h: nat)
      requires Valid()
      modifies this`code, v2h, h2v, dirty
      ensures Valid() && h == Alloc(old(Now())).h && Now() == Alloc(old(Now())).ra
      ensures code == old(code) + Alloc(old(Now())).code
    {
      hide InPool, VregOk, HregOk, Pick;
      h := FindRegister();
      if h2v[h] == NOBODY {
        return;
      }
      HregPair(Now(), h);
      FreedOk(Now(), h);
      var v := h2v[h];
      if dirty[v] {
        code := code + [Store(h, v)];
      }
      h2v[h] := NOBODY;
      v2h[v] := -1;
      dirty[v] := false;
      assert Now() == Freed(old(Now()), h);
    }

    method BindTo(v: nat, h: nat, isDirty: bool)
      requires Valid() && v < VREGS && InPool(h) && (isDirty ==> v != ZERO)
      requires (h2v[h] == NOBODY && v2h[v] == -1) || (h2v[h] == v && v2h[v] == h)
      modifies this`stamp, v2h, h2v, dirty, lru
      ensures Valid() && Now() == Bind(old(Now()), v, h, isDirty)
    {
      hide InPool, VregOk, HregOk;
      v2h[v] := h;
      h2v[h] := v;
      dirty[v] := isDirty;
      stamp := stamp + 1;
      lru[h] := stamp;
      assert Now() == Bind(old(Now()), v, h, isDirty);
    }

    /** ra_use */
    method UseRegister(v: nat) returns (h: nat)
      requires Valid() && v < VREGS
      modifies this`stamp, this`code, v2h, h2v, dirty, lru
      ensures Valid() && h == Use(old(Now()), v).h && Now() == Use(old(Now()), v).ra
      ensures code == old(code) + Use(old(Now()), v).code
    {
      hide InPool, VregOk, HregOk, RaOk, Bind, Alloc, Fetch;
      if v2h[v] != -1 {
        MappedPair(Now(), v);
        h := v2h[v];
        BindTo(v, h, dirty[v]);
      } else {
        h := Take();
        code := code + [Fetch(h, v)];
        BindTo(v, h, false);
      }
    }

    /** ra_def */
    method DefineRegister(v: nat) returns (h: nat)
      requires Valid() && v < VREGS
      modifies this`stamp, this`code, v2h, h2v, dirty, lru
      ensures Valid() && h == Def(old(Now()), v).h && Now() == Def(old(Now()), v).ra
      ensures code == old(code) + Def(old(Now()), v).code
    {
      hide InPool, VregOk, HregOk, RaOk, Bind, Alloc;
      if v == ZERO {
        return 16;
      }
      if v2h[v] != -1 {
        MappedPair(Now(), v);
        h := v2h[v];
        BindTo(v, h, true);
      } else {
        h := Take();
        BindTo(v, h, true);
      }
    }

    /** sync_all */
    method SyncAll()
      requires Valid()
      modifies this`code, dirty
      ensures Valid() && Now() == Sync(old(Now()), 0).ra && code == old(code) + Sync(old(Now()), 0).code
    {
      hide InPool, RaOk, Sync;
      var v := 0;
      ghost var g := Sync(Now(), 0);
      while v < VREGS
        invariant Valid() && v <= VREGS
        invariant Sync(Now(), v).ra == g.ra && old(code) + g.code == code + Sync(Now(), v).code
      {
        ghost var ra := Now();
        SyncStep(ra, v);
        if v2h[v] != -1 && dirty[v] {
          code := code + [Store(v2h[v], v)];
          dirty[v] := false;
          assert Now() == ra.(dirty := ra.dirty[v := false]);
        }
        v := v + 1;
      }
      SyncEnd(Now());
    }
  }

  /** emit_imm64: count the chunks, seed from one, patch the rest. */
  method LoadConstant(rd: nat, v: bv64) returns (code: seq<Insn>)
    ensures code == Imm64(rd, v)
  {
    hide Chunk, Not16, Imm64, Differ, SeedFrom, Patches;
    var fill := ChooseFill(v);
    var s := ChooseSeed(v, fill);
    var seed := [if fill == 0xffff then Movn(rd, Not16(Chunk(v, s)), s) else Movz(rd, Chunk(v, s), s)];
    var low := PatchChunks(rd, v, fill, 0, s, seed);
    code := PatchChunks(rd, v, fill, s + 1, 4, low);
    Imm64Form(rd, v, fill, s, seed, low, code);
  }

  method ChooseFill(v: bv64) returns (fill: bv64)
    ensures fill == Background(v)
  {
    hide Chunk;
    var nz, nf := 0, 0;
    for hw := 0 to 4
      invariant nz == Differ(v, 0, hw) && nf == Differ(v, 0xffff, hw)
    {
      if Chunk(v, hw) != 0 {
        nz := nz + 1;
      }
      if Chunk(v, hw) != 0xffff {
        nf := nf + 1;
      }
    }
    fill := if nf < nz then 0xffff else 0;
  }

  method ChooseSeed(v: bv64, fill: bv64) returns (s: nat)
    ensures s <= 3 && s == SeedFrom(v, fill, 0)
  {
    hide Chunk;
    s := 0;
    while s != 3 && Chunk(v, s) == fill && (fill == 0 || Chunk(v, s + 1) != 0xffff)
      invariant s <= 3 && SeedFrom(v, fill, s) == SeedFrom(v, fill, 0)
    {
      s := s + 1;
    }
  }

  method PatchChunks(rd: nat, v: bv64, fill: bv64, lo: nat, hi: nat, before: seq<Insn>) returns (code: seq<Insn>)
    requires lo <= hi <= 4
    ensures code == before + Patches(rd, v, fill, lo, hi)
  {
    hide Chunk, Patches;
    code := before;
    for j := lo to hi
      invariant code + Patches(rd, v, fill, j, hi) == before + Patches(rd, v, fill, lo, hi)
    {
      PatchesStep(rd, v, fill, j, hi);
      ghost var rest := Patches(rd, v, fill, j + 1, hi);
      assert code + (Patch(rd, v, fill, j) + rest) == code + Patch(rd, v, fill, j) + rest;
      if Chunk(v, j) != fill {
        code := code + [MovK(true, rd, Chunk(v, j), j)];
      } else {
        assert code + [] == code;
      }
    }
    NoPatches(rd, v, fill, hi);
  }

  lemma PatchesStep(rd: nat, v: bv64, fill: bv64, j: nat, hi: nat)
    requires j < hi <= 4
    ensures Patches(rd, v, fill, j, hi) == Patch(rd, v, fill, j) + Patches(rd, v, fill, j + 1, hi)
  {
  }

  lemma NoPatches(rd: nat, v: bv64, fill: bv64, hi: nat)
    requires hi <= 4
    ensures Patches(rd, v, fill, hi, hi) == []
  {
  }

  lemma Imm64Form(rd: nat, v: bv64, fill: bv64, s: nat, seed: seq<Insn>, low: seq<Insn>, code: seq<Insn>)
    requires fill == Background(v) && s <= 3 && s == SeedFrom(v, fill, 0)
    requires seed == [if fill == 0xffff then Movn(rd, Not16(Chunk(v, s)), s) else Movz(rd, Chunk(v, s), s)]
    requires low == seed + Patches(rd, v, fill, 0, s) && code == low + Patches(rd, v, fill, s + 1, 4)
    ensures code == Imm64(rd, v)
  {
    hide Chunk, Not16, Differ, SeedFrom, Patches;
  }
}
