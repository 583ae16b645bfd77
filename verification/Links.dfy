/** Singly linked chains threaded through an array by index; every link points lower, so no chain is cyclic. */
module Links {
  import opened BlockTable

  predicate Down(next: seq<int>) {
    forall i :: 0 <= i < |next| ==> -1 <= next[i] < i
  }

  function Along(next: seq<int>, h: int): (r: seq<nat>)
    requires Down(next) && -1 <= h < |next|
    decreases h
  {
    if h == -1 then [] else [h] + Along(next, next[h])
  }

  lemma {:induction false} ChainBelow(next: seq<int>, h: int, x: nat)
    requires Down(next) && -1 <= h < |next| && x in Along(next, h)
    ensures x <= h
    decreases h
  {
    if x != h {
      ChainBelow(next, next[h], x);
    }
  }

  /** Later links do not matter to earlier chains. */
  lemma {:induction false} ChainPrefix(next: seq<int>, more: seq<int>, h: int)
    requires Down(next) && Down(more) && -1 <= h < |next| <= |more|
    requires forall i :: 0 <= i <= h ==> more[i] == next[i]
    ensures Along(more, h) == Along(next, h)
    decreases h
  {
    if h != -1 {
      ChainPrefix(next, more, next[h]);
    }
  }

  /** Nor do links of blocks that are not on the chain. */
  lemma {:induction false} ChainOther(next: seq<int>, p: nat, q: int, h: int)
    requires Down(next) && -1 <= h < |next| && p < |next| && -1 <= q < p && p !in Along(next, h)
    ensures Down(next[p := q]) && Along(next[p := q], h) == Along(next, h)
    decreases h
  {
    if h != -1 {
      ChainOther(next, p, q, next[h]);
    }
  }

  lemma {:induction false} WithoutAbsent(s: seq<nat>, i: nat)
    requires i !in s
    ensures Without(s, i) == s
  {
    if s != [] {
      WithoutAbsent(s[1..], i);
    }
  }

  /** Linking past a block removes it. */
  lemma {:induction false} ChainRemove(next: seq<int>, h: int, p: nat)
    requires Down(next) && -1 <= h < |next| && p in Along(next, h) && p < |next| && next[p] != -1
    ensures Down(next[p := next[next[p]]])
    ensures Along(next[p := next[next[p]]], h) == Without(Along(next, h), next[p])
    decreases h
  {
    var i := next[p];
    var next' := next[p := next[i]];
    if h == p {
      ChainPrefix(next, next', next[i]);
      HeadRemoved(next, i);
      assert Along(next, h) == [p] + Along(next, i);
    } else {
      ChainRemove(next, next[h], p);
      ChainBelow(next, next[h], p);
      assert h != i;
    }
  }

  /** So does moving the head past it. */
  lemma {:induction false} HeadRemoved(next: seq<int>, i: int)
    requires Down(next) && 0 <= i < |next|
    ensures Without(Along(next, i), i) == Along(next, next[i])
  {
    var rest := Along(next, next[i]);
    if i in rest {
      ChainBelow(next, next[i], i);
    }
    WithoutAbsent(rest, i);
    assert Along(next, i)[1..] == rest;
  }

  // ---- Edge lists ----

  /** A cell of the edge pool. */
  datatype Cell = Cell(edge: Edge, next: int)

  predicate EdgesDown(cells: seq<Cell>) {
    forall i :: 0 <= i < |cells| ==> -1 <= cells[i].next < i
  }

  function EdgeChain(cells: seq<Cell>, h: int): (r: seq<Edge>)
    requires EdgesDown(cells) && -1 <= h < |cells|
    decreases h
  {
    if h == -1 then [] else [cells[h].edge] + EdgeChain(cells, cells[h].next)
  }

  lemma {:induction false} EdgePrefix(cells: seq<Cell>, more: seq<Cell>, h: int)
    requires EdgesDown(cells) && EdgesDown(more) && cells <= more && -1 <= h < |cells|
    ensures EdgeChain(more, h) == EdgeChain(cells, h)
    decreases h
  {
    if h != -1 {
      EdgePrefix(cells, more, cells[h].next);
    }
  }
}
