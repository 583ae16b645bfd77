/** The indirect-branch cache and its dirty list as the dispatcher updates them in place. */
module JumpCache {
  import opened Words
  import opened BlockTable
  import opened Dispatcher

  class Cache {
    const entries: array<JEntry>
    const dirty: array<nat>
    var ndirty: nat

    ghost predicate Valid()
      reads this
    {
      entries.Length == JC_SIZE && dirty.Length == DIRTY_MAX && ndirty <= DIRTY_MAX + 1
    }

    constructor ()
      ensures Valid() && ndirty == 0 && fresh(entries) && fresh(dirty)
      ensures forall i :: 0 <= i < JC_SIZE ==> entries[i].tag == ONES
    {
      entries := new JEntry[JC_SIZE](_ => JEntry(ONES, -1));
      dirty := new nat[DIRTY_MAX](_ => 0);
      ndirty := 0;
    }

    /** jcache_purge */
    method Purge()
      requires Valid() && forall i :: 0 <= i < DIRTY_MAX ==> dirty[i] < JC_SIZE
      modifies this`ndirty, entries
      ensures Valid() && ndirty == 0 && entries[..] == Emptied(old(entries[..]), dirty[..], old(ndirty))
    {
      hide Clear;
      if ndirty <= DIRTY_MAX {
        ClearNone(entries[..]);
        for i := 0 to ndirty
          invariant ndirty == old(ndirty) && entries[..] == Clear(old(entries[..]), dirty[..i])
        {
          ClearNext(old(entries[..]), dirty[..], i);
          entries[dirty[i]] := entries[dirty[i]].(tag := ONES);
        }
        assert dirty[..][..ndirty] == dirty[..ndirty];
      } else {
        for i := 0 to JC_SIZE
          invariant ndirty == old(ndirty) && forall k :: 0 <= k < i ==> entries[k] == JEntry(ONES, -1)
        {
          entries[i] := JEntry(ONES, -1);
        }
      }
      ndirty := 0;
    }

    /** Fill the slot of pc and remember it, saturating the count. */
    method Fill(pc: bv64, tag: bv64, code: int)
      requires Valid()
      modifies this`ndirty, entries, dirty
      ensures Valid() && entries[..] == old(entries[..])[JcIdx(pc) := JEntry(tag, code)]
      ensures dirty[..] == if old(ndirty) < DIRTY_MAX then old(dirty[..])[old(ndirty) := JcIdx(pc)] else old(dirty[..])
      ensures ndirty == if old(ndirty) <= DIRTY_MAX then old(ndirty) + 1 else old(ndirty)
    {
      hide JcIdx;
      entries[JcIdx(pc)] := JEntry(tag, code);
      if ndirty < DIRTY_MAX {
        dirty[ndirty] := JcIdx(pc);
      }
      if ndirty <= DIRTY_MAX {
        ndirty := ndirty + 1;
      }
    }
  }

  lemma ClearNone(jcache: seq<JEntry>)
    ensures Clear(jcache, []) == jcache
  {
  }

  lemma {:induction false} ClearNext(jcache: seq<JEntry>, dirty: seq<nat>, i: nat)
    requires i < |dirty| && dirty[i] < |jcache|
    ensures
      var r := Clear(jcache, dirty[..i]);
      Clear(jcache, dirty[..i + 1]) == r[dirty[i] := r[dirty[i]].(tag := ONES)]
  {
    assert dirty[..i + 1][..i] == dirty[..i];
  }
}
