/**
 Memory, registers and the bounded steps of FEAT_MOPS. Memory is indexed by the
 56 address bits that translation uses (a tag byte above them selects nothing).
 */
module MopsMemory {
  import opened Words

  const SPACE: nat := 0x100_0000_0000_0000     // 2^56
  const PAGE: nat := 0x1000

  datatype Nzcv = Nzcv(n: bool, z: bool, c: bool, v: bool)

  const CLEAR: Nzcv := Nzcv(false, false, false, false)

  type Byte = x: int | 0 <= x < 256
  type Memory = m: seq<Byte> | |m| <= SPACE witness []

  /** The part of an address that selects memory. */
  function Va(a: U64): nat {
    a % SPACE
  }

  function Plus(a: U64, k: int): U64 {
    (a + k) % W
  }

  function Less(a: U64, k: nat): U64 {
    var j: int := k;
    Plus(a, -j)
  }

  /** k bytes further in the direction of travel. */
  function Along(a: U64, k: nat, fwd: bool): U64 {
    if fwd then Plus(a, k) else Less(a, k)
  }

  /** Bytes from an address to the end of its page, and back to its start. */
  function PageLimit(a: U64): (n: nat)
    ensures 1 <= n <= PAGE
    ensures Va(a) + n <= SPACE
  {
    PageOffset(a);
    PAGE - a % PAGE
  }

  function PageLimitRev(a: U64): (n: nat)
    ensures 1 <= n <= PAGE
    ensures n <= Va(a) + 1
  {
    PageOffset(a);
    a % PAGE + 1
  }

  lemma PageOffset(a: U64)
    ensures a % PAGE == Va(a) % PAGE
    ensures Va(a) + (PAGE - a % PAGE) <= SPACE
  {
    var q := a / SPACE;
    assert a == q * SPACE + Va(a);
    assert SPACE == 0x1000_0000_0000 * PAGE;
    var v := Va(a);
    assert a == (q * 0x1000_0000_0000 + v / PAGE) * PAGE + v % PAGE;
  }

  /** k bytes from an address, up or down, all lie on its page. */
  predicate OnPage(a: U64, k: nat, rev: bool): (r: bool)
    ensures r && !rev ==> Va(a) + k <= SPACE
    ensures r && rev ==> k <= Va(a) + 1
  {
    PageOffset(a);
    && k >= 1
    && if rev then k <= Va(a) + 1 && (Va(a) - (k - 1)) / PAGE == Va(a) / PAGE
       else (Va(a) + (k - 1)) / PAGE == Va(a) / PAGE
  }

  lemma OffsetStays(v: nat, k: nat)
    requires k >= 1
    ensures (v + (k - 1)) / PAGE == v / PAGE <==> v % PAGE + k <= PAGE
    ensures k <= v + 1 ==> ((v - (k - 1)) / PAGE == v / PAGE <==> k <= v % PAGE + 1)
  {
  }

  /** A limit is the most bytes that stay on the page. */
  lemma LimitIsMost(a: U64, k: nat, rev: bool)
    ensures OnPage(a, k, rev) <==> 1 <= k <= if rev then PageLimitRev(a) else PageLimit(a)
  {
    hide Va;
    PageOffset(a);
    if k >= 1 {
      OffsetStays(Va(a), k);
    }
  }

  /**
   Rounding up to the next page and subtracting is the distance to it, wrap and
   all; going down the offset and one is. Each is the most bytes that stay on the
   page in its direction.
   */
  lemma PageLimitForm(a: U64)
    ensures PageLimit(a) == (((a + PAGE) % W) / PAGE * PAGE - a) % W
    ensures forall k: nat :: OnPage(a, k, false) <==> 1 <= k <= (((a + PAGE) % W) / PAGE * PAGE - a) % W
    ensures forall k: nat :: OnPage(a, k, true) <==> 1 <= k <= a % PAGE + 1
  {
    var r := a % PAGE;
    assert a == a / PAGE * PAGE + r;
    if a + PAGE < W {
      assert (a + PAGE) / PAGE == a / PAGE + 1;
    } else {
      assert a / PAGE == W / PAGE - 1;
      assert (a + PAGE) % W == r;
    }
    hide OnPage;
    forall k: nat, rev: bool ensures OnPage(a, k, rev) <==> 1 <= k <= if rev then PageLimitRev(a) else PageLimit(a) {
      LimitIsMost(a, k, rev);
    }
  }

  lemma VaPlus(a: U64, k: int)
    requires 0 <= Va(a) + k < SPACE
    ensures Va(Plus(a, k)) == Va(a) + k
  {
    var q := a / SPACE;
    assert a == q * SPACE + Va(a);
    var t := Va(a) + k;
    assert a + k == q * SPACE + t && 0 <= q < 256;
    assert 0 <= a + k < W;
  }

  lemma VaLess(a: U64, k: nat)
    requires k <= Va(a)
    ensures Va(Less(a, k)) == Va(a) - k
  {
    var j: int := k;
    VaPlus(a, -j);
  }

  // ---- memory effects ----

  /** memmove: the destination takes the source's old bytes, overlapping or not. */
  function Move(m: Memory, d: nat, s: nat, n: nat): (r: Memory)
    requires d + n <= |m| && s + n <= |m|
    ensures |r| == |m|
    ensures forall a {:trigger r[a]} :: 0 <= a < |m| ==> r[a] == if d <= a < d + n then m[s + a - d] else m[a]
  {
    m[..d] + m[s..s + n] + m[d + n..]
  }

  /** memset. */
  function Fill(m: Memory, d: nat, n: nat, v: Byte): (r: Memory)
    requires d + n <= |m|
    ensures |r| == |m|
    ensures forall a {:trigger r[a]} :: 0 <= a < |m| ==> r[a] == if d <= a < d + n then v else m[a]
  {
    m[..d] + seq(n, i => v) + m[d + n..]
  }

  /**
   What an access met: a fault; a success through the slow path, one byte; or
   hits in the host-pointer cache, the whole step at once.
   */
  datatype Outcome = Fault | One | Chunk

  /** Bytes a successful step covers out of `n` it may. */
  function Covered(o: Outcome, n: nat): (k: nat)
    requires o != Fault && n >= 1
    ensures 1 <= k <= n
  {
    if o == One then 1 else n
  }

  /** How far a copy step may go: the ends of both pages, and what is left. */
  function CopyLimit(to: U64, from: U64, size: nat, rev: bool): (n: nat)
    ensures n <= size && (size > 0 ==> n >= 1)
    ensures !rev ==> Va(to) + n <= SPACE && Va(from) + n <= SPACE
    ensures rev ==> n <= Va(to) + 1 && n <= Va(from) + 1
  {
    var t := if rev then PageLimitRev(to) else PageLimit(to);
    var f := if rev then PageLimitRev(from) else PageLimit(from);
    var n := if f < t then f else t;
    if n > size then size else n
  }

  function SetLimit(to: U64, size: nat): (n: nat)
    ensures n <= size && (size > 0 ==> n >= 1)
    ensures Va(to) + n <= SPACE
  {
    var n := PageLimit(to);
    if n > size then size else n
  }

  /** The most bytes, of size, that leave neither page. */
  predicate Farthest(to: U64, from: U64, size: nat, rev: bool, k: nat) {
    && k <= size && OnPage(to, k, rev) && OnPage(from, k, rev)
    && (k == size || !OnPage(to, k + 1, rev) || !OnPage(from, k + 1, rev))
  }

  lemma {:induction false} CopyLimitIsFarthest(to: U64, from: U64, size: nat, rev: bool, k: nat)
    requires size > 0
    ensures Farthest(to, from, size, rev, k) <==> k == CopyLimit(to, from, size, rev)
  {
    hide OnPage, PageLimit, PageLimitRev;
    LimitIsMost(to, k, rev);
    LimitIsMost(from, k, rev);
    LimitIsMost(to, k + 1, rev);
    LimitIsMost(from, k + 1, rev);
  }

  lemma {:induction false} SetLimitIsFarthest(to: U64, size: nat, k: nat)
    requires size > 0
    ensures Farthest(to, to, size, false, k) <==> k == SetLimit(to, size)
  {
    hide OnPage, PageLimit, PageLimitRev;
    LimitIsMost(to, k, false);
    LimitIsMost(to, k + 1, false);
  }

  /** One copy step of k bytes; a reverse step's addresses are those of its last byte. */
  function CopyBytes(m: Memory, to: U64, from: U64, k: nat, rev: bool): (r: Memory)
    requires |m| == SPACE
    requires !rev ==> Va(to) + k <= SPACE && Va(from) + k <= SPACE
    requires rev ==> 1 <= k <= Va(to) + 1 && k <= Va(from) + 1
    ensures |r| == SPACE
  {
    if rev then Move(m, Va(to) - (k - 1), Va(from) - (k - 1), k) else Move(m, Va(to), Va(from), k)
  }

  // ---- partial progress ----

  /** Indices of [0, n) outside the window [lo, hi) have been copied; nothing else has changed. */
  ghost predicate Copied(m: Memory, m0: Memory, d: nat, s: nat, n: nat, lo: nat, hi: nat)
    requires |m0| == SPACE && d + n <= SPACE && s + n <= SPACE
  {
    && |m| == SPACE
    && lo <= hi <= n
    && forall a {:trigger m[a]} :: 0 <= a < SPACE ==>
         m[a] == if d <= a < d + n && !(lo <= a - d < hi) then m0[s + a - d] else m0[a]
  }

  lemma CopiedBounds(m: Memory, m0: Memory, d: nat, s: nat, n: nat, lo: nat, hi: nat)
    requires |m0| == SPACE && d + n <= SPACE && s + n <= SPACE && Copied(m, m0, d, s, n, lo, hi)
    ensures |m| == SPACE && lo <= hi <= n
  {
  }

  /** Working up from lo never reads a byte already written. */
  predicate UpSafe(d: nat, s: nat, n: nat, hi: nat) {
    (d <= s && hi == n) || d - s >= hi
  }

  /** Working down from hi never does. */
  predicate DownSafe(d: nat, s: nat, lo: nat) {
    s < d && lo == 0
  }

  /** The bytes still to be read are the original ones. */
  lemma SourceIntact(m: Memory, m0: Memory, d: nat, s: nat, n: nat, lo: nat, hi: nat, i: nat)
    requires |m0| == SPACE && d + n <= SPACE && s + n <= SPACE
    requires Copied(m, m0, d, s, n, lo, hi) && lo <= i < hi
    requires UpSafe(d, s, n, hi) || DownSafe(d, s, lo)
    ensures m[s + i] == m0[s + i]
  {
  }

  /** A forward step moves the lower edge. */
  lemma CopyUp(m: Memory, m0: Memory, d: nat, s: nat, n: nat, lo: nat, hi: nat, k: nat)
    requires |m0| == SPACE && d + n <= SPACE && s + n <= SPACE
    requires Copied(m, m0, d, s, n, lo, hi) && UpSafe(d, s, n, hi) && k <= hi - lo
    ensures Copied(Move(m, d + lo, s + lo, k), m0, d, s, n, lo + k, hi)
  {
    var r := Move(m, d + lo, s + lo, k);
    forall a | 0 <= a < SPACE
      ensures r[a] == if d <= a < d + n && !(lo + k <= a - d < hi) then m0[s + a - d] else m0[a]
    {
      if d + lo <= a < d + lo + k {
        SourceIntact(m, m0, d, s, n, lo, hi, a - d);
      }
    }
  }

  /** A backward step moves the upper edge. */
  lemma CopyDown(m: Memory, m0: Memory, d: nat, s: nat, n: nat, lo: nat, hi: nat, k: nat)
    requires |m0| == SPACE && d + n <= SPACE && s + n <= SPACE
    requires Copied(m, m0, d, s, n, lo, hi) && DownSafe(d, s, lo) && k <= hi - lo
    ensures Copied(Move(m, d + hi - k, s + hi - k, k), m0, d, s, n, lo, hi - k)
  {
    var r := Move(m, d + hi - k, s + hi - k, k);
    forall a | 0 <= a < SPACE
      ensures r[a] == if d <= a < d + n && !(lo <= a - d < hi - k) then m0[s + a - d] else m0[a]
    {
      if d + hi - k <= a < d + hi {
        SourceIntact(m, m0, d, s, n, lo, hi, a - d);
      }
    }
  }

  /** With nothing left the result is memmove of the original contents. */
  lemma CopiedAll(m: Memory, m0: Memory, d: nat, s: nat, n: nat, lo: nat)
    requires |m0| == SPACE && d + n <= SPACE && s + n <= SPACE
    requires Copied(m, m0, d, s, n, lo, lo)
    ensures m == Move(m0, d, s, n)
  {
    var r := Move(m0, d, s, n);
    forall a | 0 <= a < SPACE
      ensures m[a] == r[a]
    {
    }
  }
}
