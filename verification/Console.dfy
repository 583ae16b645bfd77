/**
 virtio-console receive path: a circular FIFO of host input scattered over guest
 descriptor chains. The rings and descriptors do not change during a flush: the
 buffers lie outside them.
 */
module Console {

  const FIFO: nat := 1024

  type U16 = x: int | 0 <= x < 65536

  datatype Desc = Desc(gpa: int, len: nat, write: bool, more: bool, next: nat)

  /** One byte put into guest memory. */
  datatype Store = Store(addr: int, byte: bv8)

  /** One used-ring element: the head of a consumed chain and the bytes written to it. */
  datatype Used = Used(id: nat, len: nat)

  /** The driver's side: queue size, available index and ring, descriptors. */
  datatype Driver = Driver(ready: bool, availIdx: U16, ring: seq<nat>, desc: nat -> Desc)

  // ---- What a flush should do ----

  datatype Filled = Filled(stores: seq<Store>, rest: seq<bv8>)

  function At(gpa: int, bytes: seq<bv8>): (r: seq<Store>)
    ensures |r| == |bytes|
  {
    seq(|bytes|, i requires 0 <= i < |bytes| => Store(gpa + i, bytes[i]))
  }

  /** A buffer takes what fits of the queue's front; a read-only one takes nothing. */
  function FillBuffer(fifo: seq<bv8>, d: Desc): (r: Filled)
    ensures d.write && d.len > 0 && fifo != [] ==> |r.rest| < |fifo|
  {
    if !d.write then Filled([], fifo)
    else
      var k := if d.len < |fifo| then d.len else |fifo|;
      Filled(At(d.gpa, fifo[..k]), fifo[k..])
  }

  /** A chain, visiting at most n descriptors and none once the queue is empty. */
  function FillChain(fifo: seq<bv8>, desc: nat -> Desc, idx: nat, n: nat): Filled
    decreases n
  {
    if n == 0 then Filled([], fifo)
    else
      var d := desc(idx);
      var b := FillBuffer(fifo, d);
      if !d.more || b.rest == [] then b
      else
        var c := FillChain(b.rest, desc, d.next, n - 1);
        Filled(b.stores + c.stores, c.rest)
  }

  datatype Flushed = Flushed(stores: seq<Store>, used: seq<Used>, rest: seq<bv8>)

  /** Chains in the order offered, until the queue is empty or none is left. */
  function Deliver(fifo: seq<bv8>, desc: nat -> Desc, q: nat, heads: seq<nat>): Flushed
    decreases |heads|
  {
    if fifo == [] || heads == [] then Flushed([], [], fifo)
    else
      var c := FillChain(fifo, desc, heads[0], q);
      var f := Deliver(c.rest, desc, q, heads[1..]);
      Flushed(c.stores + f.stores, [Used(heads[0], |c.stores|)] + f.used, f.rest)
  }

  /** The available index n entries on, modulo 2^16. */
  function Advance(a: U16, n: nat): U16 {
    (a + n) % 65536
  }

  /** Its slot in a ring of q. */
  function Slot(a: U16, q: nat): (k: nat)
    requires q > 0
    ensures k < q
  {
    a % q
  }

  function Behind(last: U16, idx: U16): nat {
    (idx - last) % 65536
  }

  /** The heads the driver has offered and the device has not taken. */
  function Heads(ring: seq<nat>, last: U16, idx: U16): (r: seq<nat>)
    requires |ring| > 0
    decreases Behind(last, idx)
  {
    if last == idx then []
    else
      BehindStep(last, idx);
      [ring[Slot(last, |ring|)]] + Heads(ring, Advance(last, 1), idx)
  }

  lemma {:induction false} BehindStep(last: U16, idx: U16)
    requires last != idx
    ensures Behind(Advance(last, 1), idx) == Behind(last, idx) - 1
  {
  }

  // ---- What that promises ----

  function Bytes(stores: seq<Store>): (r: seq<bv8>)
    ensures |r| == |stores|
  {
    seq(|stores|, i requires 0 <= i < |stores| => stores[i].byte)
  }

  function Lengths(used: seq<Used>): nat {
    if used == [] then 0 else used[0].len + Lengths(used[1..])
  }

  lemma BytesJoin(a: seq<Store>, b: seq<Store>)
    ensures Bytes(a + b) == Bytes(a) + Bytes(b)
  {
  }

  lemma BytesAt(gpa: int, bytes: seq<bv8>)
    ensures Bytes(At(gpa, bytes)) == bytes
  {
  }

  lemma {:induction false} BufferConserves(fifo: seq<bv8>, d: Desc)
    ensures Bytes(FillBuffer(fifo, d).stores) + FillBuffer(fifo, d).rest == fifo
  {
    var k := if d.len < |fifo| then d.len else |fifo|;
    BytesAt(d.gpa, fifo[..k]);
  }

  lemma {:induction false} ChainConserves(fifo: seq<bv8>, desc: nat -> Desc, idx: nat, n: nat)
    ensures
      var c := FillChain(fifo, desc, idx, n);
      Bytes(c.stores) + c.rest == fifo
    decreases n
  {
    hide Bytes, FillBuffer;
    if n == 0 {
      BytesAt(0, []);
    } else {
      var d := desc(idx);
      var b := FillBuffer(fifo, d);
      BufferConserves(fifo, d);
      if d.more && b.rest != [] {
        ChainConserves(b.rest, desc, d.next, n - 1);
        var c := FillChain(b.rest, desc, d.next, n - 1);
        BytesJoin(b.stores, c.stores);
        assert Bytes(b.stores) + Bytes(c.stores) + c.rest == Bytes(b.stores) + (Bytes(c.stores) + c.rest);
      }
    }
  }

  /** Every byte goes to exactly one place: into buffers in order, or it stays queued. */
  lemma {:induction false} DeliverConserves(fifo: seq<bv8>, desc: nat -> Desc, q: nat, heads: seq<nat>)
    ensures
      var f := Deliver(fifo, desc, q, heads);
      Bytes(f.stores) + f.rest == fifo
    decreases |heads|
  {
    hide Bytes, FillChain;
    if fifo == [] || heads == [] {
      BytesAt(0, []);
    } else {
      var c := FillChain(fifo, desc, heads[0], q);
      ChainConserves(fifo, desc, heads[0], q);
      DeliverConserves(c.rest, desc, q, heads[1..]);
      var f := Deliver(c.rest, desc, q, heads[1..]);
      BytesJoin(c.stores, f.stores);
      assert Bytes(c.stores) + Bytes(f.stores) + f.rest == Bytes(c.stores) + (Bytes(f.stores) + f.rest);
    }
  }

  /**
   The published lengths add up to the bytes delivered; one element per head, in order, and heads are
   left only when the queue is empty.
   */
  lemma {:induction false} DeliverReports(fifo: seq<bv8>, desc: nat -> Desc, q: nat, heads: seq<nat>)
    ensures
      var f := Deliver(fifo, desc, q, heads);
      && Lengths(f.used) == |f.stores|
      && |f.used| <= |heads| && (forall k :: 0 <= k < |f.used| ==> f.used[k].id == heads[k])
      && (f.rest != [] ==> |f.used| == |heads|)
    decreases |heads|
  {
    hide FillChain;
    if fifo != [] && heads != [] {
      var c := FillChain(fifo, desc, heads[0], q);
      DeliverReports(c.rest, desc, q, heads[1..]);
      var f := Deliver(c.rest, desc, q, heads[1..]);
      assert ([Used(heads[0], |c.stores|)] + f.used)[1..] == f.used;
    }
  }

  /** Every store lies inside a writable buffer. */
  ghost predicate InBuffer(s: Store, desc: nat -> Desc) {
    exists i: nat :: Holds(desc(i), s.addr)
  }

  predicate Holds(d: Desc, addr: int) {
    d.write && d.gpa <= addr < d.gpa + d.len
  }

  lemma {:induction false} ChainInBuffers(fifo: seq<bv8>, desc: nat -> Desc, idx: nat, n: nat, k: nat)
    requires k < |FillChain(fifo, desc, idx, n).stores|
    ensures InBuffer(FillChain(fifo, desc, idx, n).stores[k], desc)
    decreases n
  {
    var d := desc(idx);
    var b := FillBuffer(fifo, d);
    if k < |b.stores| {
      assert Holds(desc(idx), b.stores[k].addr);
    } else {
      ChainInBuffers(b.rest, desc, d.next, n - 1, k - |b.stores|);
    }
  }

  lemma {:induction false} DeliverInBuffers(fifo: seq<bv8>, desc: nat -> Desc, q: nat, heads: seq<nat>, k: nat)
    requires k < |Deliver(fifo, desc, q, heads).stores|
    ensures InBuffer(Deliver(fifo, desc, q, heads).stores[k], desc)
    decreases |heads|
  {
    hide FillChain, InBuffer;
    var c := FillChain(fifo, desc, heads[0], q);
    if k < |c.stores| {
      ChainInBuffers(fifo, desc, heads[0], q, k);
    } else {
      DeliverInBuffers(c.rest, desc, q, heads[1..], k - |c.stores|);
    }
  }

  // ---- Where each byte goes ----

  /** The addresses of a buffer. */
  function Range(gpa: int, len: nat): (r: seq<int>)
    ensures |r| == len && forall k :: 0 <= k < len ==> r[k] == gpa + k
  {
    seq(len, k => gpa + k)
  }

  /** The writable bytes of a chain in order: those of at most n descriptors along its links. */
  function Room(desc: nat -> Desc, idx: nat, n: nat): seq<int>
    decreases n
  {
    if n == 0 then []
    else
      var d := desc(idx);
      (if d.write then Range(d.gpa, d.len) else []) + (if d.more then Room(desc, d.next, n - 1) else [])
  }

  function Least(a: nat, b: nat): nat {
    if a < b then a else b
  }

  /** Stores that put the front of a queue at the first addresses of a chain. */
  predicate Placed(stores: seq<Store>, room: seq<int>, fifo: seq<bv8>) {
    && |stores| == Least(|room|, |fifo|)
    && forall k :: 0 <= k < |stores| ==> stores[k] == Store(room[k], fifo[k])
  }

  lemma {:induction false} BufferPlaces(fifo: seq<bv8>, d: Desc)
    ensures
      var b := FillBuffer(fifo, d);
      && Placed(b.stores, if d.write then Range(d.gpa, d.len) else [], fifo)
      && b.rest == fifo[|b.stores|..]
  {
  }

  /** The k-th byte stored for a chain goes to its k-th writable byte, as many as it has or are queued. */
  lemma {:induction false} ChainPlaces(fifo: seq<bv8>, desc: nat -> Desc, idx: nat, n: nat)
    ensures
      var c := FillChain(fifo, desc, idx, n);
      Placed(c.stores, Room(desc, idx, n), fifo) && c.rest == fifo[|c.stores|..]
    decreases n
  {
    hide FillBuffer, Range;
    if n > 0 {
      var d := desc(idx);
      var b := FillBuffer(fifo, d);
      BufferPlaces(fifo, d);
      if d.more && b.rest != [] {
        ChainPlaces(b.rest, desc, d.next, n - 1);
        var c := FillChain(b.rest, desc, d.next, n - 1);
        PlacedJoin(b.stores, c.stores, if d.write then Range(d.gpa, d.len) else [], Room(desc, d.next, n - 1), fifo);
      }
    }
  }

  lemma {:induction false} PlacedJoin(a: seq<Store>, b: seq<Store>, r: seq<int>, s: seq<int>, fifo: seq<bv8>)
    requires Placed(a, r, fifo) && |a| < |fifo| && Placed(b, s, fifo[|a|..])
    ensures Placed(a + b, r + s, fifo) && fifo[|a|..][|b|..] == fifo[|a + b|..]
  {
  }

  /** Bytes published before the h-th head. */
  function Before(used: seq<Used>, h: nat): nat
    requires h <= |used|
  {
    Lengths(used[..h])
  }

  /**
   Head by head: each takes as many bytes as its chain has room for or are
   queued, the next ones in the queue's order, at the chain's own addresses; and
   none is taken once the queue is empty.
   */
  lemma {:induction false} DeliverPlaces(fifo: seq<bv8>, desc: nat -> Desc, q: nat, heads: seq<nat>, h: nat)
    requires h < |Deliver(fifo, desc, q, heads).used|
    ensures
      var f := Deliver(fifo, desc, q, heads);
      var room, from := Room(desc, if h < |heads| then heads[h] else 0, q), Before(f.used, h);
      && h < |heads| && from < |fifo| && f.used[h] == Used(heads[h], Least(|room|, |fifo| - from))
      && from + f.used[h].len <= |f.stores|
      && forall k :: 0 <= k < f.used[h].len ==> f.stores[from + k] == Store(room[k], fifo[from + k])
    decreases |heads|
  {
    hide FillChain, Room;
    var c := FillChain(fifo, desc, heads[0], q);
    ChainPlaces(fifo, desc, heads[0], q);
    var f := Deliver(fifo, desc, q, heads);
    if h > 0 {
      var g := Deliver(c.rest, desc, q, heads[1..]);
      DeliverPlaces(c.rest, desc, q, heads[1..], h - 1);
      assert f.used[..h] == [f.used[0]] + g.used[..h - 1];
      assert Before(f.used, h) == |c.stores| + Before(g.used, h - 1);
    }
  }

  /** The heads offered are the ring's entries from the last one taken to the index, around both ends. */
  lemma {:induction false} HeadsAre(ring: seq<nat>, last: U16, idx: U16, k: nat)
    requires |ring| > 0 && k < (idx - last) % 65536
    ensures |Heads(ring, last, idx)| == (idx - last) % 65536
    ensures Heads(ring, last, idx)[k] == ring[(last + k) % 65536 % |ring|]
  {
    hide Heads;
    HeadsCount(ring, last, idx);
    HeadAt(ring, last, idx, k);
  }

  lemma {:induction false} HeadAt(ring: seq<nat>, last: U16, idx: U16, k: nat)
    requires |ring| > 0 && k < |Heads(ring, last, idx)|
    ensures Heads(ring, last, idx)[k] == ring[Slot(Advance(last, k), |ring|)]
    decreases k
  {
    hide Behind, Advance, Slot;
    BehindStep(last, idx);
    AdvanceStep(last, k);
    if k > 0 {
      HeadAt(ring, Advance(last, 1), idx, k - 1);
    }
  }

  lemma AdvanceStep(a: U16, k: nat)
    ensures Advance(a, 0) == a && (k > 0 ==> Advance(Advance(a, 1), k - 1) == Advance(a, k))
  {
  }

  lemma {:induction false} HeadsCount(ring: seq<nat>, last: U16, idx: U16)
    requires |ring| > 0
    ensures |Heads(ring, last, idx)| == Behind(last, idx)
    decreases Behind(last, idx)
  {
    if last != idx {
      BehindStep(last, idx);
      HeadsCount(ring, Advance(last, 1), idx);
    }
  }

  // ---- The device ----

  /** What a ring holds between its indices. */
  function Ring(fifo: seq<bv8>, head: nat, tail: nat): (r: seq<bv8>)
    requires |fifo| == FIFO && head < FIFO && tail < FIFO
    ensures r == [] <==> head == tail
  {
    if head <= tail then fifo[head..tail] else fifo[head..] + fifo[..tail]
  }

  /** A run up to the wrap point is the front of the queue. */
  lemma {:induction false} RunOfRing(fifo: seq<bv8>, head: nat, tail: nat, c: nat)
    requires |fifo| == FIFO && head < FIFO && tail < FIFO && head != tail
    requires c <= if tail >= head then tail - head else FIFO - head
    ensures
      var q := Ring(fifo, head, tail);
      && c <= |q| && q[..c] == fifo[head..head + c]
      && Ring(fifo, if head + c == FIFO then 0 else head + c, tail) == q[c..]
  {
    if head + c == FIFO {
      assert fifo[head..] + fifo[..tail] == fifo[head..head + c] + fifo[..tail];
    }
  }

  /** A byte pushed where there is room goes last; a full ring holds one byte less than its size. */
  lemma {:induction false} PushOnRing(fifo: seq<bv8>, head: nat, tail: nat, ch: bv8)
    requires |fifo| == FIFO && head < FIFO && tail < FIFO
    ensures
      var q, next := Ring(fifo, head, tail), (tail + 1) % FIFO;
      && (|q| < FIFO - 1 <==> next != head)
      && (next != head ==> Ring(fifo[tail := ch], head, next) == q + [ch])
  {
  }

  class Receiver {
    const fifo: array<bv8>
    var head: nat
    var tail: nat
    var last: U16
    /** What the device has put in guest memory and published, so far. */
    var stores: seq<Store>
    var used: seq<Used>

    ghost predicate Valid()
      reads `head, `tail
    {
      fifo.Length == FIFO && head < FIFO && tail < FIFO
    }

    ghost function Queue(): (r: seq<bv8>)
      requires Valid()
      reads `head, `tail, fifo
      ensures r == [] <==> head == tail
    {
      Ring(fifo[..], head, tail)
    }

    constructor ()
      ensures Valid() && Queue() == [] && fresh(fifo) && stores == [] && used == [] && last == 0
    {
      fifo := new bv8[FIFO];
      head, tail, last := 0, 0, 0;
      stores, used := [], [];
    }

    /** rx_fifo_push: drops the byte when the ring is full. */
    method Push(ch: bv8)
      requires Valid()
      modifies this`tail, fifo
      ensures Valid() && Queue() == if |old(Queue())| < FIFO - 1 then old(Queue()) + [ch] else old(Queue())
    {
      PushOnRing(fifo[..], head, tail, ch);
      if (tail + 1) % FIFO == head {
        return;
      }
      fifo[tail] := ch;
      assert fifo[..] == old(fifo[..])[tail := ch];
      tail := (tail + 1) % FIFO;
    }

    /** One contiguous run out of the ring, at most want bytes. */
    method TakeRun(gpa: int, want: nat) returns (c: nat)
      requires Valid() && head != tail && want > 0
      modifies this`head, this`stores
      ensures Valid() && 0 < c <= want && c <= |old(Queue())| && Queue() == old(Queue())[c..]
      ensures stores == old(stores) + At(gpa, old(Queue())[..c])
    {
      hide At;
      var run := if tail >= head then tail - head else FIFO - head;
      c := if want > run then run else want;
      RunOfRing(fifo[..], head, tail, c);
      assert fifo[head..head + c] == fifo[..][head..head + c];
      stores := stores + At(gpa, fifo[head..head + c]);
      head := if head + c == FIFO then 0 else head + c;
    }

    /** One descriptor's buffer. */
    method Fill(d: Desc) returns (off: nat)
      requires Valid() && d.write
      modifies this`head, this`stores
      ensures
        var f := FillBuffer(old(Queue()), d);
        Valid() && stores == old(stores) + f.stores && Queue() == f.rest && off == |f.stores|
    {
      hide At, Receiver.Queue;
      off := 0;
      ghost var q0 := Queue();
      AtEmpty(d.gpa);
      while off < d.len && head != tail
        invariant Valid() && off <= d.len && off <= |q0| && Queue() == q0[off..]
        invariant stores == old(stores) + At(d.gpa, q0[..off])
        decreases |q0| - off
      {
        var c := TakeRun(d.gpa + off, d.len - off);
        AtJoin(d.gpa, q0[..off], q0[off..][..c]);
        assert q0[..off] + q0[off..][..c] == q0[..off + c];
        assert q0[off..][c..] == q0[off + c..];
        off := off + c;
      }
    }

    /** One chain, at most q descriptors of it. */
    method FillFrom(desc: nat -> Desc, hd: nat, q: nat) returns (written: nat)
      requires Valid() && q > 0
      modifies this`head, this`stores
      ensures
        var f := FillChain(old(Queue()), desc, hd, q);
        Valid() && stores == old(stores) + f.stores && Queue() == f.rest && written == |f.stores|
    {
      hide FillBuffer, FillChain, Receiver.Queue;
      written := 0;
      var n, idx := 0, hd;
      ghost var f := FillChain(Queue(), desc, hd, q);
      ghost var done: seq<Store> := [];
      while n < q
        invariant Valid() && n <= q && written == |done| && stores == old(stores) + done
        invariant f == After(done, FillChain(Queue(), desc, idx, q - n))
        decreases q - n
      {
        var d := desc(idx);
        ghost var b := FillBuffer(Queue(), d);
        ChainStep(done, Queue(), desc, idx, q - n);
        n := n + 1;
        if d.write {
          var c := Fill(d);
          written := written + c;
        } else {
          ReadOnly(Queue(), d);
        }
        done := done + b.stores;
        if !d.more || head == tail {
          return;
        }
        idx := d.next;
      }
      NoBudget(Queue(), desc, idx);
    }

    /** con_flush_rx; raised says whether the device then signals an interrupt. */
    method Flush(g: Driver) returns (raised: bool)
      requires Valid() && |g.ring| <= 256
      modifies this`head, this`stores, this`last, this`used
      ensures Valid()
      ensures
        !g.ready || g.ring == [] ==> Queue() == old(Queue()) && stores == old(stores) && used == old(used) && !raised
      ensures
        g.ready && g.ring != [] ==>
          var f := Deliver(old(Queue()), g.desc, |g.ring|, Heads(g.ring, old(last), g.availIdx));
          && stores == old(stores) + f.stores && used == old(used) + f.used && Queue() == f.rest
          && last == Advance(old(last), |f.used|) && raised == (f.used != [])
    {
      hide FillChain, Deliver, Heads, Behind, Joined, Advance, Slot, Receiver.Queue;
      raised := false;
      if !g.ready || g.ring == [] {
        return;
      }
      var q := |g.ring|;
      ghost var f := Deliver(Queue(), g.desc, q, Heads(g.ring, last, g.availIdx));
      ghost var wrote: seq<Store>, told: seq<Used> := [], [];
      NothingJoined(f);
      WrapStep(last, 0);
      while head != tail
        invariant Valid() && stores == old(stores) + wrote && used == old(used) + told
        invariant last == Advance(old(last), |told|) && raised == (told != [])
        invariant f == Joined(wrote, told, Deliver(Queue(), g.desc, q, Heads(g.ring, last, g.availIdx)))
        decreases Behind(last, g.availIdx)
      {
        HeadsStep(g.ring, last, g.availIdx);
        if last == g.availIdx {
          break;
        }
        var hd := g.ring[Slot(last, q)];
        ghost var heads := Heads(g.ring, last, g.availIdx);
        ghost var c := FillChain(Queue(), g.desc, hd, q);
        JoinedStep(wrote, told, Queue(), g.desc, q, heads);
        WrapStep(old(last), |told|);
        last := Advance(last, 1);
        var written := FillFrom(g.desc, hd, q);
        used := used + [Used(hd, written)];
        wrote, told := wrote + c.stores, told + [Used(hd, |c.stores|)];
        raised := true;
      }
      HeadsStep(g.ring, last, g.availIdx);
      DeliverDone(wrote, told, Queue(), g.desc, q, Heads(g.ring, last, g.availIdx));
    }
  }

  function After(done: seq<Store>, f: Filled): Filled {
    Filled(done + f.stores, f.rest)
  }

  lemma {:induction false} ChainStep(done: seq<Store>, fifo: seq<bv8>, desc: nat -> Desc, idx: nat, n: nat)
    requires n > 0
    ensures
      var d := desc(idx);
      var b := FillBuffer(fifo, d);
      After(done, FillChain(fifo, desc, idx, n)) ==
      if !d.more || b.rest == [] then After(done + b.stores, Filled([], b.rest))
      else After(done + b.stores, FillChain(b.rest, desc, d.next, n - 1))
  {
    hide FillBuffer;
  }

  lemma NoBudget(fifo: seq<bv8>, desc: nat -> Desc, idx: nat)
    ensures FillChain(fifo, desc, idx, 0) == Filled([], fifo)
  {
  }

  lemma NothingJoined(f: Flushed)
    ensures Joined([], [], f) == f
  {
  }

  lemma WrapStep(a: U16, n: nat)
    ensures Advance(Advance(a, n), 1) == Advance(a, n + 1) && Advance(a, 0) == a
  {
  }

  lemma {:induction false} HeadsStep(ring: seq<nat>, last: U16, idx: U16)
    requires |ring| > 0
    ensures last == idx ==> Heads(ring, last, idx) == []
    ensures
      last != idx ==>
        var next := Advance(last, 1);
        var heads := Heads(ring, last, idx);
        && Behind(next, idx) < Behind(last, idx)
        && heads != [] && heads[0] == ring[Slot(last, |ring|)] && heads[1..] == Heads(ring, next, idx)
  {
    hide Behind, Advance, Slot;
    if last != idx {
      BehindStep(last, idx);
    }
  }

  lemma {:induction false} DeliverDone(wrote: seq<Store>, told: seq<Used>, fifo: seq<bv8>, desc: nat -> Desc, q: nat,
      heads: seq<nat>)
    ensures
      fifo == [] || heads == [] ==> Joined(wrote, told, Deliver(fifo, desc, q, heads)) == Flushed(wrote, told, fifo)
  {
    hide FillChain;
  }

  function Joined(wrote: seq<Store>, told: seq<Used>, f: Flushed): Flushed {
    Flushed(wrote + f.stores, told + f.used, f.rest)
  }

  lemma {:induction false} JoinedStep(wrote: seq<Store>, told: seq<Used>, fifo: seq<bv8>, desc: nat -> Desc, q: nat,
      heads: seq<nat>)
    requires fifo != [] && heads != []
    ensures
      var c := FillChain(fifo, desc, heads[0], q);
      Joined(wrote, told, Deliver(fifo, desc, q, heads)) ==
      Joined(wrote + c.stores, told + [Used(heads[0], |c.stores|)], Deliver(c.rest, desc, q, heads[1..]))
  {
    hide FillChain;
  }

  lemma AtEmpty(gpa: int)
    ensures At(gpa, []) == []
  {
  }

  lemma AtJoin(gpa: int, a: seq<bv8>, b: seq<bv8>)
    ensures At(gpa, a) + At(gpa + |a|, b) == At(gpa, a + b)
  {
  }

  lemma ReadOnly(fifo: seq<bv8>, d: Desc)
    requires !d.write
    ensures FillBuffer(fifo, d) == Filled([], fifo)
  {
  }
}
