/**
 The host instructions the generator emits, as abstract instructions over the host
 registers, the guest registers' homes in memory and the two copies of NZCV; and
 the loading of a 64-bit constant.
 */
module HostCode {
  import opened Ir

  const HREGS: nat := 32

  datatype Insn =
    | Movz(rd: nat, imm: bv64, hw: nat)
    | Movn(rd: nat, imm: bv64, hw: nat)
    | MovK(w: bool, rd: nat, imm: bv64, hw: nat)
    | MovR(w: bool, rd: nat, rm: nat)
    | AluR(k: Kind, s: bool, w: bool, rd: nat, rn: nat, rm: nat)
    | AluI(k: Kind, s: bool, w: bool, rd: nat, rn: nat, imm: bv64)
    | Replay(code: nat, w: bool, rd: nat, rx: nat, ry: nat, rz: nat)
    | Select(choice: Choice, w: bool, rd: nat, rn: nat, rm: nat, cc: nat)
    | CompareR(negated: bool, w: bool, rn: nat, rm: nat, otherwise: Nzcv, cc: nat)
    | CompareI(negated: bool, w: bool, rn: nat, imm: bv64, otherwise: Nzcv, cc: nat)
    | Load(rt: nat, v: nat)
    | Store(rt: nat, v: nat)
    | SaveFlags
    | LoadFlags
    | AddIcount(n: bv64)
    | StorePc(rt: nat)

  /** Registers, host NZCV; then memory: homes and spill slots, the NZCV word, pc and icount. */
  datatype State = State(r: seq<bv64>, nz: Nzcv, homes: seq<bv64>, memNz: Nzcv, pc: bv64, icount: bv64)

  predicate StateOk(h: State) {
    |h.r| == HREGS && |h.homes| == VREGS
  }

  /** Register 31 reads as zero and discards writes. */
  function Read(h: State, n: nat): bv64
    requires StateOk(h) && n < HREGS
  {
    if n == 31 then 0 else h.r[n]
  }

  function Write(h: State, n: nat, x: bv64): (r: State)
    requires StateOk(h) && n < HREGS
    ensures StateOk(r)
  {
    if n == 31 then h else h.(r := h.r[n := x])
  }

  predicate InsnOk(i: Insn) {
    match i
    case Movz(rd, _, hw) => rd < HREGS && hw < 4
    case Movn(rd, _, hw) => rd < HREGS && hw < 4
    case MovK(_, rd, _, hw) => rd < HREGS && hw < 4
    case MovR(_, rd, rm) => rd < HREGS && rm < HREGS
    case AluR(_, _, _, rd, rn, rm) => rd < HREGS && rn < HREGS && rm < HREGS
    case AluI(_, _, _, rd, rn, imm) => rd < HREGS && rn < HREGS && Encodable(imm)
    case Replay(_, _, rd, rx, ry, rz) => rd < HREGS && rx < HREGS && ry < HREGS && rz < HREGS
    case Select(_, _, rd, rn, rm, _) => rd < HREGS && rn < HREGS && rm < HREGS
    case CompareR(_, _, rn, rm, _, _) => rn < HREGS && rm < HREGS
    case CompareI(_, _, rn, _, _, _) => rn < HREGS
    case Load(rt, v) => rt < HREGS && v < ZERO
    case Store(rt, v) => rt < HREGS && v < ZERO
    case StorePc(rt) => rt < HREGS
    case _ => true
  }

  /** An add/sub immediate: twelve bits, or twelve bits shifted by twelve. */
  predicate Encodable(imm: bv64) {
    imm & 0xffff_ffff_ffff_f000 == 0 || imm & 0xffff_ffff_ff00_0fff == 0
  }

  function Flip(x: bv64): bv64 {
    !x
  }

  function FlagWord(f: Nzcv): bv64 {
    (if f.n then 0x8000_0000 else 0) | (if f.z then 0x4000_0000 else 0) |
    (if f.c then 0x2000_0000 else 0) | (if f.v then 0x1000_0000 else 0)
  }

  function Exec(sem: Semantics, h: State, i: Insn): (r: State)
    requires StateOk(h) && InsnOk(i)
    ensures StateOk(r)
  {
    match i
    case Movz(rd, imm, hw) => Write(h, rd, Insert(0, imm, hw))
    case Movn(rd, imm, hw) => Write(h, rd, Flip(Insert(0, imm, hw)))
    case MovK(w, rd, imm, hw) => Write(h, rd, Fit(w, Insert(Read(h, rd), imm, hw)))
    case MovR(w, rd, rm) => Write(h, rd, Fit(w, Read(h, rm)))
    case AluR(k, s, w, rd, rn, rm) =>
      var x := Compute(k, w, Read(h, rn), Read(h, rm), h.nz.c);
      Write(if s then h.(nz := x.nz) else h, rd, x.value)
    case AluI(k, s, w, rd, rn, imm) =>
      var x := Compute(k, w, Read(h, rn), imm, h.nz.c);
      Write(if s then h.(nz := x.nz) else h, rd, x.value)
    case Replay(code, w, rd, rx, ry, rz) => Write(h, rd, sem(code, w, Read(h, rx), Read(h, ry), Read(h, rz)))
    case Select(choice, w, rd, rn, rm, cc) => Write(h, rd, Chosen(choice, w, Holds(cc, h.nz), Read(h, rn), Read(h, rm)))
    case CompareR(negated, w, rn, rm, otherwise, cc) =>
      h.(nz := Compared(negated, w, Holds(cc, h.nz), Read(h, rn), Read(h, rm), otherwise))
    case CompareI(negated, w, rn, imm, otherwise, cc) =>
      h.(nz := Compared(negated, w, Holds(cc, h.nz), Read(h, rn), imm, otherwise))
    case Load(rt, v) => Write(h, rt, h.homes[v])
    case Store(rt, v) => h.(homes := h.homes[v := Read(h, rt)])
    case SaveFlags => Write(h.(memNz := h.nz), 16, FlagWord(h.nz))
    case LoadFlags => Write(h.(nz := h.memNz), 16, FlagWord(h.memNz))
    case AddIcount(n) => Write(h.(icount := Plus(h.icount, n)), 16, Plus(h.icount, n))
    case StorePc(rt) => h.(pc := Read(h, rt))
  }

  predicate CodeOk(code: seq<Insn>) {
    forall i :: 0 <= i < |code| ==> InsnOk(code[i])
  }

  function Execute(sem: Semantics, h: State, code: seq<Insn>): (r: State)
    requires StateOk(h) && CodeOk(code)
    ensures StateOk(r)
    decreases |code|
  {
    if code == [] then h else Execute(sem, Exec(sem, h, code[0]), code[1..])
  }

  lemma {:induction false} ExecuteJoin(sem: Semantics, h: State, a: seq<Insn>, b: seq<Insn>)
    requires StateOk(h) && CodeOk(a) && CodeOk(b)
    ensures CodeOk(a + b) && Execute(sem, h, a + b) == Execute(sem, Execute(sem, h, a), b)
    decreases |a|
  {
    hide Exec, InsnOk, StateOk;
    if a == [] {
      assert a + b == b;
    } else {
      assert (a + b)[0] == a[0] && (a + b)[1..] == a[1..] + b;
      ExecuteJoin(sem, Exec(sem, h, a[0]), a[1..], b);
    }
  }

  lemma {:induction false} ExecuteOne(sem: Semantics, h: State, i: Insn)
    requires StateOk(h) && InsnOk(i)
    ensures CodeOk([i]) && Execute(sem, h, [i]) == Exec(sem, h, i)
  {
    hide Exec, InsnOk, StateOk;
    assert [i][1..] == [];
  }

  lemma ExecuteNone(sem: Semantics, s: State)
    requires StateOk(s)
    ensures Execute(sem, s, []) == s
  {
  }

  // ---- Loading a 64-bit constant ----

  function Lane0(v: bv64): bv64 {
    v & 0xffff
  }

  function Lane1(v: bv64): bv64 {
    (v >> 16) & 0xffff
  }

  function Lane2(v: bv64): bv64 {
    (v >> 32) & 0xffff
  }

  function Lane3(v: bv64): bv64 {
    (v >> 48) & 0xffff
  }

  function Chunks(v: bv64): (r: seq<bv64>)
    ensures |r| == 4
  {
    [Lane0(v), Lane1(v), Lane2(v), Lane3(v)]
  }

  function Chunk(v: bv64, hw: nat): bv64
    requires hw < 4
  {
    Chunks(v)[hw]
  }

  function Low16(x: bv64): bv64 {
    x & 0xffff
  }

  function Not16(x: bv64): bv64 {
    !x & 0xffff
  }

  /** Chunks that differ from a fill pattern. */
  function Differ(v: bv64, fill: bv64, n: nat): nat
    requires n <= 4
  {
    if n == 0 then 0 else Differ(v, fill, n - 1) + if Chunk(v, n - 1) != fill then 1 else 0
  }

  function Background(v: bv64): bv64 {
    if Differ(v, 0xffff, 4) < Differ(v, 0, 4) then 0xffff else 0
  }

  /** The seed skips leading fill chunks; over a ones background only one directly before a chunk that differs. */
  function SeedFrom(v: bv64, fill: bv64, hw: nat): (s: nat)
    requires hw <= 3
    ensures hw <= s <= 3
    decreases 3 - hw
  {
    if hw != 3 && Chunk(v, hw) == fill && (fill == 0 || Chunk(v, hw + 1) != 0xffff) then SeedFrom(v, fill, hw + 1)
    else hw
  }

  function Patch(rd: nat, v: bv64, fill: bv64, hw: nat): seq<Insn>
    requires hw < 4
  {
    if Chunk(v, hw) != fill then [MovK(true, rd, Chunk(v, hw), hw)] else []
  }

  function Patches(rd: nat, v: bv64, fill: bv64, lo: nat, hi: nat): (code: seq<Insn>)
    requires lo <= hi <= 4
    decreases hi - lo
  {
    if lo == hi then [] else Patch(rd, v, fill, lo) + Patches(rd, v, fill, lo + 1, hi)
  }

  /** emit_imm64 */
  function Imm64(rd: nat, v: bv64): seq<Insn> {
    var fill := Background(v);
    var s := SeedFrom(v, fill, 0);
    [if fill == 0xffff then Movn(rd, Not16(Chunk(v, s)), s) else Movz(rd, Chunk(v, s), s)]
    + Patches(rd, v, fill, 0, s) + Patches(rd, v, fill, s + 1, 4)
  }

  lemma SetLanes0(x: bv64, imm: bv64)
    ensures Lane0(Set0(x, imm)) == Low16(imm)
    ensures Lane1(Set0(x, imm)) == Lane1(x)
    ensures Lane2(Set0(x, imm)) == Lane2(x)
    ensures Lane3(Set0(x, imm)) == Lane3(x)
  {
  }

  lemma SetLanes1(x: bv64, imm: bv64)
    ensures Lane0(Set1(x, imm)) == Lane0(x)
    ensures Lane1(Set1(x, imm)) == Low16(imm)
    ensures Lane2(Set1(x, imm)) == Lane2(x)
    ensures Lane3(Set1(x, imm)) == Lane3(x)
  {
  }

  lemma SetLanes2(x: bv64, imm: bv64)
    ensures Lane0(Set2(x, imm)) == Lane0(x)
    ensures Lane1(Set2(x, imm)) == Lane1(x)
    ensures Lane2(Set2(x, imm)) == Low16(imm)
    ensures Lane3(Set2(x, imm)) == Lane3(x)
  {
  }

  lemma SetLanes3(x: bv64, imm: bv64)
    ensures Lane0(Set3(x, imm)) == Lane0(x)
    ensures Lane1(Set3(x, imm)) == Lane1(x)
    ensures Lane2(Set3(x, imm)) == Lane2(x)
    ensures Lane3(Set3(x, imm)) == Low16(imm)
  {
  }

  /** Inserting a field replaces that chunk alone. */
  lemma {:induction false} InsertChunks(x: bv64, imm: bv64, hw: nat)
    requires hw < 4
    ensures Chunks(Insert(x, imm, hw)) == Chunks(x)[hw := Low16(imm)]
  {
    hide Lane0, Lane1, Lane2, Lane3, Set0, Set1, Set2, Set3, Low16;
    if hw == 0 {
      SetLanes0(x, imm);
    } else if hw == 1 {
      SetLanes1(x, imm);
    } else if hw == 2 {
      SetLanes2(x, imm);
    } else {
      SetLanes3(x, imm);
    }
  }

  lemma ChunksDetermine(x: bv64, y: bv64)
    requires Lane0(x) == Lane0(y) && Lane1(x) == Lane1(y) && Lane2(x) == Lane2(y) && Lane3(x) == Lane3(y)
    ensures x == y
  {
  }

  lemma NotLanes(x: bv64)
    ensures Lane0(Flip(x)) == Not16(Lane0(x)) && Lane1(Flip(x)) == Not16(Lane1(x))
    ensures Lane2(Flip(x)) == Not16(Lane2(x)) && Lane3(Flip(x)) == Not16(Lane3(x))
  {
  }

  lemma ZeroLanes()
    ensures Lane0(0) == 0 && Lane1(0) == 0 && Lane2(0) == 0 && Lane3(0) == 0 && Not16(0) == 0xffff
  {
  }

  lemma LaneSmall(v: bv64)
    ensures Low16(Lane0(v)) == Lane0(v) && Low16(Lane1(v)) == Lane1(v)
    ensures Low16(Lane2(v)) == Lane2(v) && Low16(Lane3(v)) == Lane3(v)
  {
  }

  lemma {:induction false} ChunkSmall(v: bv64, j: nat)
    requires j < 4
    ensures Low16(Chunk(v, j)) == Chunk(v, j)
  {
    hide Lane0, Lane1, Lane2, Lane3, Low16;
    LaneSmall(v);
  }

  lemma NotTwice(c: bv64)
    ensures Not16(Low16(Not16(c))) == Low16(c)
  {
  }

  function Fill(fill: bv64): (r: seq<bv64>)
    ensures |r| == 4
  {
    [fill, fill, fill, fill]
  }

  lemma {:induction false} SeedZero(c: bv64, s: nat)
    requires s < 4 && Low16(c) == c
    ensures Chunks(Insert(0, c, s)) == Fill(0)[s := c]
  {
    hide Lane0, Lane1, Lane2, Lane3, Insert, Low16;
    ZeroLanes();
    InsertChunks(0, c, s);
  }

  lemma {:induction false} SeedOnes(c: bv64, s: nat)
    requires s < 4 && Low16(c) == c
    ensures Chunks(Flip(Insert(0, Not16(c), s))) == Fill(0xffff)[s := c]
  {
    hide Lane0, Lane1, Lane2, Lane3, Insert, Low16, Not16, Flip;
    var y := Insert(0, Not16(c), s);
    ZeroLanes();
    InsertChunks(0, Not16(c), s);
    NotTwice(c);
    NotChunks(y);
    Flipped(Chunks(y), Chunks(Flip(y)), s, Low16(Not16(c)), c);
  }

  lemma {:induction false} Flipped(y: seq<bv64>, r: seq<bv64>, s: nat, k: bv64, c: bv64)
    requires s < 4 && |y| == 4 && |r| == 4 && y == Fill(0)[s := k] && Not16(k) == c && Not16(0) == 0xffff
    requires forall j :: 0 <= j < 4 ==> r[j] == Not16(y[j])
    ensures r == Fill(0xffff)[s := c]
  {
    hide Not16, Fill;
    forall j | 0 <= j < 4 ensures r[j] == if j == s then c else 0xffff {
      FillAt(0, s, k, j);
    }
    Assembled(r, s, c, 0xffff);
  }

  lemma {:induction false} Assembled(r: seq<bv64>, s: nat, c: bv64, fill: bv64)
    requires s < 4 && |r| == 4 && forall j :: 0 <= j < 4 ==> r[j] == if j == s then c else fill
    ensures r == Fill(fill)[s := c]
  {
    hide Fill;
    forall j | 0 <= j < 4 ensures r[j] == Fill(fill)[s := c][j] {
      FillAt(fill, s, c, j);
    }
  }

  lemma {:induction false} NotChunks(y: bv64)
    ensures forall j :: 0 <= j < 4 ==> Chunks(Flip(y))[j] == Not16(Chunks(y)[j])
  {
    hide Lane0, Lane1, Lane2, Lane3, Not16, Flip;
    NotLanes(y);
  }

  /** The value after patching a register over a background. */
  function Patched(x: bv64, v: bv64, fill: bv64, lo: nat, hi: nat): bv64
    requires lo <= hi <= 4
    decreases hi - lo
  {
    if lo == hi then x
    else Patched(if Chunk(v, lo) != fill then Insert(x, Chunk(v, lo), lo) else x, v, fill, lo + 1, hi)
  }

  lemma {:induction false} PatchedChunk(x: bv64, v: bv64, fill: bv64, lo: nat, hi: nat, j: nat)
    requires lo <= hi <= 4 && j < 4
    requires lo <= j < hi ==> Chunk(x, j) == fill
    ensures Chunk(Patched(x, v, fill, lo, hi), j) == if lo <= j < hi then Chunk(v, j) else Chunk(x, j)
    decreases hi - lo
  {
    hide Chunks, Insert, Low16;
    if lo < hi {
      var y := if Chunk(v, lo) != fill then Insert(x, Chunk(v, lo), lo) else x;
      InsertChunks(x, Chunk(v, lo), lo);
      ChunkSmall(v, lo);
      PatchedChunk(y, v, fill, lo + 1, hi, j);
    }
  }

  lemma {:induction false} PatchesRun(sem: Semantics, h: State, rd: nat, v: bv64, fill: bv64, lo: nat, hi: nat)
    requires StateOk(h) && rd < 31 && lo <= hi <= 4
    ensures CodeOk(Patches(rd, v, fill, lo, hi))
    ensures Execute(sem, h, Patches(rd, v, fill, lo, hi)) == Write(h, rd, Patched(h.r[rd], v, fill, lo, hi))
    decreases hi - lo
  {
    hide Chunk, Insert, Exec, Write, InsnOk, StateOk;
    if lo < hi {
      var rest := Patches(rd, v, fill, lo + 1, hi);
      if Chunk(v, lo) != fill {
        var i := MovK(true, rd, Chunk(v, lo), lo);
        MovKRuns(sem, h, rd, Chunk(v, lo), lo);
        var y := Insert(h.r[rd], Chunk(v, lo), lo);
        Written(h, rd, y, Patched(y, v, fill, lo + 1, hi));
        ExecuteOne(sem, h, i);
        PatchesRun(sem, Exec(sem, h, i), rd, v, fill, lo + 1, hi);
        ExecuteJoin(sem, h, [i], rest);
      } else {
        PatchesRun(sem, h, rd, v, fill, lo + 1, hi);
        assert [] + rest == rest;
      }
    } else {
      Rewrite(h, rd);
    }
  }

  lemma MovKRuns(sem: Semantics, h: State, rd: nat, c: bv64, hw: nat)
    requires StateOk(h) && rd < 31 && hw < 4
    ensures |h.r| == HREGS && InsnOk(MovK(true, rd, c, hw))
    ensures Exec(sem, h, MovK(true, rd, c, hw)) == Write(h, rd, Insert(h.r[rd], c, hw))
  {
    hide Insert;
  }

  lemma Written(h: State, rd: nat, x: bv64, y: bv64)
    requires StateOk(h) && rd < 31
    ensures |Write(h, rd, x).r| == HREGS && Write(h, rd, x).r[rd] == x
    ensures Write(Write(h, rd, x), rd, y) == Write(h, rd, y)
  {
  }

  lemma Rewrite(h: State, rd: nat)
    requires StateOk(h) && rd < 31
    ensures |h.r| == HREGS && Write(h, rd, h.r[rd]) == h
  {
    assert h.r[rd := h.r[rd]] == h.r;
  }

  /** Whatever chunk seeds it, the patched register holds the constant. */
  lemma {:induction false} SeedThenPatches(x: bv64, v: bv64, fill: bv64, s: nat)
    requires s < 4 && Chunks(x) == Fill(fill)[s := Chunk(v, s)]
    ensures Patched(Patched(x, v, fill, 0, s), v, fill, s + 1, 4) == v
  {
    hide Chunks, Patched;
    var y := Patched(x, v, fill, 0, s);
    var z := Patched(y, v, fill, s + 1, 4);
    forall j | 0 <= j < 4 ensures Chunks(z)[j] == Chunks(v)[j] {
      FillAt(fill, s, Chunk(v, s), j);
      PatchedChunk(x, v, fill, 0, s, j);
      PatchedChunk(y, v, fill, s + 1, 4, j);
    }
    AllChunks(z, v);
  }

  lemma FillAt(fill: bv64, s: nat, c: bv64, j: nat)
    requires s < 4 && j < 4
    ensures Fill(fill)[s := c][j] == if j == s then c else fill
  {
  }

  lemma SeedRuns(sem: Semantics, h: State, rd: nat, x: bv64, i: Insn)
    requires StateOk(h) && rd < 31 && InsnOk(i)
    requires
      || (i.Movz? && i.rd == rd && x == Insert(0, i.imm, i.hw))
      || (i.Movn? && i.rd == rd && x == Flip(Insert(0, i.imm, i.hw)))
    ensures Exec(sem, h, i) == Write(h, rd, x)
  {
    hide Insert;
  }

  lemma {:induction false} AllChunks(x: bv64, y: bv64)
    requires forall j :: 0 <= j < 4 ==> Chunks(x)[j] == Chunks(y)[j]
    ensures x == y
  {
    hide Lane0, Lane1, Lane2, Lane3;
    assert Chunks(x)[0] == Chunks(y)[0] && Chunks(x)[1] == Chunks(y)[1];
    assert Chunks(x)[2] == Chunks(y)[2] && Chunks(x)[3] == Chunks(y)[3];
    ChunksDetermine(x, y);
  }

  /** The emitted sequence loads exactly that constant and changes nothing else. */
  lemma {:induction false} Imm64Loads(sem: Semantics, h: State, rd: nat, v: bv64)
    requires StateOk(h) && rd < 31
    ensures CodeOk(Imm64(rd, v)) && Execute(sem, h, Imm64(rd, v)) == Write(h, rd, v)
  {
    hide Chunk, Chunks, Insert, Differ, Patched, Patches, SeedFrom, Not16, Flip, Fill, Low16, Exec, StateOk, Write;
    var fill := Background(v);
    var s := SeedFrom(v, fill, 0);
    var c := Chunk(v, s);
    var i := if fill == 0xffff then Movn(rd, Not16(c), s) else Movz(rd, c, s);
    var x := if fill == 0xffff then Flip(Insert(0, Not16(c), s)) else Insert(0, c, s);
    ChunkSmall(v, s);
    if fill == 0xffff {
      SeedOnes(c, s);
    } else {
      SeedZero(c, s);
    }
    SeedRuns(sem, h, rd, x, i);
    SeedThenPatches(x, v, fill, s);
    var h1 := Exec(sem, h, i);
    var y := Patched(x, v, fill, 0, s);
    Written(h, rd, x, y);
    Written(h, rd, y, v);
    ExecuteOne(sem, h, i);
    PatchesRun(sem, h1, rd, v, fill, 0, s);
    var h2 := Execute(sem, h1, Patches(rd, v, fill, 0, s));
    PatchesRun(sem, h2, rd, v, fill, s + 1, 4);
    ExecuteJoin(sem, h, [i], Patches(rd, v, fill, 0, s));
    ExecuteJoin(sem, h, [i] + Patches(rd, v, fill, 0, s), Patches(rd, v, fill, s + 1, 4));
  }
}
