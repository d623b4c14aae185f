/** The checkpoint table: a fixed set of slots, each holding a rename map for one in-flight branch. */
module Checkpoints {
  import opened Bytes
  import opened RobTags
  import opened RenameModel

  datatype Checkpoint = Checkpoint(branchTag: Tag, map_: RenameMap)

  type Slots = seq<Option<Checkpoint>>

  function Occupied(slots: Slots): (n: nat)
    ensures n <= |slots|
  {
    if slots == [] then 0 else (if slots[0].Some? then 1 else 0) + Occupied(slots[1..])
  }

  lemma {:induction false} OccupiedUpdate(slots: Slots, k: nat, c: Option<Checkpoint>)
    requires k < |slots|
    ensures Occupied(slots[k := c]) ==
              Occupied(slots) + (if c.Some? then 1 else 0) - (if slots[k].Some? then 1 else 0)
  {
    if k == 0 {
      assert slots[0 := c][1..] == slots[1..];
    } else {
      assert slots[k := c][1..] == slots[1..][k - 1 := c];
      OccupiedUpdate(slots[1..], k - 1, c);
    }
  }

  /** The first empty slot, or the length if there is none. */
  function FirstFree(slots: Slots): (k: nat)
    ensures k <= |slots|
    ensures k < |slots| ==> slots[k].None?
    ensures forall i :: 0 <= i < k ==> slots[i].Some?
  {
    if slots == [] || slots[0].None? then 0 else 1 + FirstFree(slots[1..])
  }

  lemma {:induction false} FullIsOccupied(slots: Slots)
    ensures Occupied(slots) == |slots| <==> FirstFree(slots) == |slots|
  {
    if slots != [] {
      FullIsOccupied(slots[1..]);
    }
  }

  lemma {:induction false} EmptyIsFree(slots: Slots)
    requires forall k :: 0 <= k < |slots| ==> slots[k].None?
    ensures Occupied(slots) == 0
  {
    if slots != [] {
      EmptyIsFree(slots[1..]);
    }
  }

  /** The slots that survive a flush of everything newer than `keep`. */
  ghost predicate FlushedAfter(before: Slots, after: Slots, keep: Tag) {
    && |after| == |before|
    && (forall k :: 0 <= k < |before| ==>
          after[k] == if before[k].Some? && IsNewerThan(before[k].value.branchTag, keep) then None else before[k])
  }

  class CheckpointTable {
    var slots: Slots
    var count: nat

    ghost predicate Valid()
      reads this
    {
      count == Occupied(slots)
    }

    constructor (capacity: nat)
      ensures Valid() && |slots| == capacity
      ensures forall k :: 0 <= k < capacity ==> slots[k] == None
    {
      slots := seq(capacity, _ => None);
      count := 0;
      new;
      EmptyIsFree(slots);
    }

    function Capacity(): (n: nat)
      reads this
    {
      |slots|
    }

    predicate IsFull()
      reads this
    {
      count == |slots|
    }

    /** Takes the first empty slot; fails exactly when the table is full. The identifier keeps only
        the low eight bits of the slot number. */
    method Allocate(tag: Tag, m: RenameMap) returns (id: Option<nat>)
      requires Valid()
      modifies this
      ensures Valid()
      ensures id.None? <==> old(IsFull())
      ensures id.None? ==> slots == old(slots)
      ensures id.Some? ==>
                var k := FirstFree(old(slots));
                k < |old(slots)| && id.value == k % 256 && slots == old(slots)[k := Some(Checkpoint(tag, m))]
    {
      FullIsOccupied(slots);
      for i := 0 to |slots|
        invariant i <= FirstFree(slots)
      {
        if slots[i].None? {
          OccupiedUpdate(slots, i, Some(Checkpoint(tag, m)));
          slots := slots[i := Some(Checkpoint(tag, m))];
          count := count + 1;
          return Some(i % 256);
        }
      }
      return None;
    }

    /** No slot before `k` is taken for `tag`. */
    ghost predicate NoneBefore(k: int, tag: Tag)
      reads this
    {
      forall j :: 0 <= j < k && j < |slots| && slots[j].Some? ==> slots[j].value.branchTag != tag
    }

    /** The first checkpoint taken for `tag`. */
    method FindByTag(tag: Tag) returns (c: Option<Checkpoint>)
      ensures c.None? ==> forall k :: 0 <= k < |slots| && slots[k].Some? ==> slots[k].value.branchTag != tag
      ensures c.Some? ==> c.value.branchTag == tag && exists k :: 0 <= k < |slots| && slots[k] == c && NoneBefore(k, tag)
    {
      for i := 0 to |slots|
        invariant forall k :: 0 <= k < i && slots[k].Some? ==> slots[k].value.branchTag != tag
      {
        if slots[i].Some? && slots[i].value.branchTag == tag {
          return slots[i];
        }
      }
      return None;
    }

    method Free(id: nat)
      requires Valid()
      modifies this
      ensures Valid()
      ensures slots == if id < |old(slots)| then old(slots)[id := None] else old(slots)
    {
      if id < |slots| && slots[id].Some? {
        OccupiedUpdate(slots, id, None);
        slots := slots[id := None];
        count := count - 1;
      }
    }

    /** Frees the slots of branches newer than `keep`, and no others. */
    method FlushAfter(keep: Tag)
      requires Valid()
      modifies this
      ensures Valid() && FlushedAfter(old(slots), slots, keep)
    {
      for i := 0 to |slots|
        invariant Valid() && |slots| == |old(slots)|
        invariant FlushedAfter(old(slots)[..i], slots[..i], keep)
        invariant slots[i..] == old(slots)[i..]
      {
        if slots[i].Some? && IsNewerThan(slots[i].value.branchTag, keep) {
          OccupiedUpdate(slots, i, None);
          slots := slots[i := None];
          count := count - 1;
        }
      }
      assert slots[..|slots|] == slots && old(slots)[..|slots|] == old(slots);
    }

    method FlushAll()
      requires Valid()
      modifies this
      ensures Valid() && |slots| == |old(slots)|
      ensures forall k :: 0 <= k < |slots| ==> slots[k] == None
    {
      for i := 0 to |slots|
        invariant |slots| == |old(slots)|
        invariant forall k :: 0 <= k < i ==> slots[k] == None
      {
        slots := slots[i := None];
      }
      count := 0;
      EmptyIsFree(slots);
    }
  }

  /** Freeing the identifier that `Allocate` returned undoes the allocation exactly when the slot
      number fits in eight bits, that is, always for tables of at most 256 slots. Otherwise another
      slot is emptied and the new checkpoint stays. */
  method AllocateThenFree(t: CheckpointTable, tag: Tag, m: RenameMap)
    requires t.Valid() && !t.IsFull()
    modifies t
    ensures t.Valid()
    ensures t.slots == old(t.slots) <==> FirstFree(old(t.slots)) < 256
  {
    ghost var before := t.slots;
    ghost var k := FirstFree(before);
    var id := t.Allocate(tag, m);
    t.Free(id.value);
    if k < 256 {
      assert before[k := Some(Checkpoint(tag, m))][k := None] == before;
    } else {
      assert t.slots[k].Some?;
    }
  }
}
