/**
 Powers of two, the position of the top set bit, and the division facts that
 shifts and masks of unbounded naturals come down to.
 */
module Pow2 {

  function P2(n: nat): (r: nat)
    ensures r > 0
  {
    if n == 0 then 1 else 2 * P2(n - 1)
  }

  lemma {:induction false} P2Add(a: nat, b: nat)
    ensures P2(a + b) == P2(a) * P2(b)
  {
    if a != 0 {
      P2Add(a - 1, b);
      assert P2(a + b) == 2 * P2(a - 1 + b);
    }
  }

  lemma {:induction false} P2Mono(a: nat, b: nat)
    requires a <= b
    ensures P2(a) <= P2(b)
    ensures a < b ==> 2 * P2(a) <= P2(b)
  {
    if a < b {
      P2Mono(a, b - 1);
    }
  }

  lemma {:induction false} P2Lt(a: nat, b: nat)
    ensures P2(a) < P2(b) <==> a < b
  {
    if a < b {
      P2Mono(a, b);
    } else {
      P2Mono(b, a);
    }
  }

  lemma P2Zero(n: nat)
    ensures n == 0 ==> P2(n) == 1
    ensures n == 1 ==> P2(n) == 2
  {
    if n == 1 {
      assert P2(n - 1) == 1;
    }
  }

  lemma P2Small()
    ensures P2(1) == 2 && P2(2) == 4 && P2(8) == 256 && P2(10) == 1024 && P2(18) == 0x40000
  {
    assert P2(8) == 256 && P2(10) == 1024;
    P2Add(10, 8);
  }

  lemma P2Word()
    ensures P2(32) == 0x1_0000_0000
    ensures P2(64) == 0x1_0000_0000_0000_0000
  {
    P2Small();
    hide P2;
    P2Add(8, 8);
    P2Add(16, 16);
    P2Add(32, 32);
  }

  /** Index of the top set bit of a nonzero natural. */
  function Msb(x: nat): (k: nat)
    requires x > 0
    ensures P2(k) <= x < P2(k + 1)
  {
    if x == 1 then 0 else Msb(x / 2) + 1
  }

  lemma {:induction false} MsbUnique(x: nat, k: nat)
    requires P2(k) <= x < P2(k + 1)
    ensures x > 0 && Msb(x) == k
  {
    var j := Msb(x);
    P2Lt(j, k + 1);
    P2Lt(k, j + 1);
  }

  lemma MulBounds(lo: nat, x: nat, hi: nat, c: nat)
    requires lo <= x < hi && c > 0
    ensures lo * c <= x * c && x * c + c <= hi * c
  {
    MulMono(lo, x, c);
    MulMono(x + 1, hi, c);
  }

  /** Scaling by a power of two moves the top bit. */
  lemma {:induction false} MsbScale(x: nat, s: nat)
    requires x > 0
    ensures x * P2(s) > 0 && Msb(x * P2(s)) == Msb(x) + s
  {
    MsbBetween(x, x * P2(s), s);
  }

  /** The top bit of a number sits above the top bit of its quotient. */
  lemma {:induction false} MsbDiv(x: nat, s: nat)
    requires x / P2(s) > 0
    ensures x > 0 && Msb(x) == Msb(x / P2(s)) + s
  {
    DivMod(x, P2(s));
    MsbBetween(x / P2(s), x, s);
  }

  lemma {:induction false} MsbBetween(m: nat, x: nat, s: nat)
    requires m > 0 && m * P2(s) <= x < m * P2(s) + P2(s)
    ensures x > 0 && Msb(x) == Msb(m) + s
  {
    var k := Msb(m);
    MulBounds(P2(k), m, P2(k + 1), P2(s));
    assert P2(k + s) <= x < P2(k + s + 1) by {
      P2Add(k, s);
      P2Add(k + 1, s);
    }
    MsbUnique(x, k + s);
  }

  lemma MulMono(a: int, b: int, c: nat)
    requires a <= b
    ensures a * c <= b * c
  {
  }

  lemma Distrib(a: int, b: int, c: int)
    ensures (a + b) * c == a * c + b * c
    ensures (a - b) * c == a * c - b * c
  {
  }

  lemma Assoc(a: int, b: int, c: int)
    ensures (a * b) * c == a * (b * c) == (a * c) * b
  {
  }

  lemma DivMod(x: int, d: nat)
    requires d > 0
    ensures x == (x / d) * d + x % d
    ensures 0 <= x % d < d
  {
  }

  /** Quotient and remainder are the only such pair. */
  lemma DivUnique(x: int, d: nat, q: int, r: int)
    requires d > 0
    requires x == q * d + r && 0 <= r < d
    ensures x / d == q && x % d == r
  {
    var q0, r0 := x / d, x % d;
    assert x == q0 * d + r0;
    if q > q0 {
      MulMono(q0 + 1, q, d);
    } else if q < q0 {
      MulMono(q + 1, q0, d);
    }
  }

  lemma MulDiv(m: nat, d: nat)
    requires d > 0
    ensures (m * d) / d == m && (m * d) % d == 0
  {
    DivUnique(m * d, d, m, 0);
  }

  /** Two shifts in a row; the second remainder sits above the first. */
  lemma DivDiv(x: nat, a: nat, b: nat)
    requires a > 0 && b > 0
    ensures a * b > 0
    ensures x / (a * b) == (x / a) / b
    ensures x % (a * b) == ((x / a) % b) * a + x % a
  {
    var y := x / a;
    DivMod(x, a);
    DivMod(y, b);
    var r := (y % b) * a + x % a;
    MulMono(y % b + 1, b, a);
    assert (y % b + 1) * a == (y % b) * a + a;
    assert 0 <= (y % b) * a;
    assert y * a == (y / b) * b * a + (y % b) * a;
    assert (y / b) * b * a == (y / b) * (a * b);
    assert a * b > 0;
    DivUnique(x, a * b, y / b, r);
  }

  lemma {:induction false} DivP2P2(x: nat, a: nat, b: nat)
    ensures x / P2(a + b) == (x / P2(a)) / P2(b)
    ensures x % P2(a + b) == ((x / P2(a)) % P2(b)) * P2(a) + x % P2(a)
  {
    P2Add(a, b);
    DivDiv(x, P2(a), P2(b));
  }
}
