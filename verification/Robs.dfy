/** The reorder buffer as a circular array, proved against the sequence of its entries. */
module Robs {
  import opened Bytes
  import opened RobTags
  import opened RenameModel

  datatype RobEntry = RobEntry(
    tag: Tag, instr: Instr, dst: nat, prev: nat, checkpointId: Option<nat>, valid: bool)

  const BLANK := RobEntry(0, Instr(0, false, false, false), 0, 0, None, false)

  /** Array index `i` places after `head`. */
  function Pos(head: nat, i: nat, cap: nat): (p: nat) {
    if head + i < cap then head + i else if head + i < 2 * cap then head + i - cap else 0
  }

  lemma {:induction false} ModOnce(x: nat, cap: nat)
    requires 0 < cap && x < 2 * cap
    ensures x % cap == if x < cap then x else x - cap
  {
    var q := x / cap;
    assert x == q * cap + x % cap;
    assert q > 1 ==> q * cap >= 2 * cap;
    assert q < 1 ==> q * cap <= 0;
  }

  lemma {:induction false} PosIsMod(head: nat, i: nat, cap: nat)
    requires head < cap && i <= cap
    ensures Pos(head, i, cap) == (head + i) % cap < cap
    ensures i < cap ==> (Pos(head, i, cap) + 1) % cap == Pos(head, i + 1, cap)
  {
    ModOnce(head + i, cap);
    ModOnce(Pos(head, i, cap) + 1, cap);
  }

  lemma {:induction false} PosIsInjective(head: nat, i: nat, j: nat, cap: nat)
    requires head < cap && i < j <= i + cap - 1 && j <= cap
    ensures Pos(head, i, cap) != Pos(head, j, cap)
  {
  }

  /** The `n` entries from `head` on, in program order. */
  ghost function Ring(entries: seq<RobEntry>, head: nat, n: nat): (s: seq<RobEntry>)
    requires n <= |entries| && (n > 0 ==> head < |entries|)
    ensures |s| == n
    ensures forall i :: 0 <= i < n ==> s[i] == entries[Pos(head, i, |entries|)]
  {
    seq(n, i requires 0 <= i < n => entries[Pos(head, i, |entries|)])
  }

  ghost predicate DistinctTags(s: seq<RobEntry>) {
    forall i, j :: 0 <= i < j < |s| ==> s[i].tag != s[j].tag
  }

  ghost predicate Holds(s: seq<RobEntry>, tag: Tag) {
    exists i :: 0 <= i < |s| && s[i].tag == tag
  }

  ghost predicate AllValid(s: seq<RobEntry>) {
    forall i :: 0 <= i < |s| ==> s[i].valid
  }

  /** The index knows exactly the tags in the buffer, and where they are. */
  ghost predicate Indexes(index: map<Tag, nat>, s: seq<RobEntry>, head: nat, cap: nat) {
    && (forall i :: 0 <= i < |s| ==> s[i].tag in index && index[s[i].tag] == Pos(head, i, cap))
    && (forall t :: t in index ==> Holds(s, t))
  }

  lemma {:induction false} RingPush(entries: seq<RobEntry>, head: nat, n: nat, e: RobEntry)
    requires head < |entries| && n < |entries|
    ensures Pos(head, n, |entries|) < |entries|
    ensures Ring(entries[Pos(head, n, |entries|) := e], head, n + 1) == Ring(entries, head, n) + [e]
  {
  }

  lemma {:induction false} RingUpdate(entries: seq<RobEntry>, head: nat, n: nat, k: nat, e: RobEntry)
    requires head < |entries| && k < n <= |entries|
    ensures Ring(entries[Pos(head, k, |entries|) := e], head, n) == Ring(entries, head, n)[k := e]
  {
    forall i | 0 <= i < n && i != k ensures Pos(head, i, |entries|) != Pos(head, k, |entries|) {
      if i < k {
        PosIsInjective(head, i, k, |entries|);
      } else {
        PosIsInjective(head, k, i, |entries|);
      }
    }
  }

  lemma {:induction false} RingPop(entries: seq<RobEntry>, head: nat, n: nat)
    requires head < |entries| && 0 < n <= |entries|
    ensures Pos(head, 1, |entries|) < |entries|
    ensures Pos(Pos(head, 1, |entries|), n - 1, |entries|) == Pos(head, n, |entries|)
    ensures Pos(head, 0, |entries|) == head
    ensures Ring(entries[head := entries[head].(valid := false)], Pos(head, 1, |entries|), n - 1) == Ring(entries, head, n)[1..]
  {
    var cap := |entries|;
    forall i | 0 <= i < n - 1
      ensures Pos(Pos(head, 1, cap), i, cap) == Pos(head, i + 1, cap) && Pos(head, i + 1, cap) != head
    {
      PosIsInjective(head, 0, i + 1, cap);
    }
  }

  lemma {:induction false} IndexPop(index: map<Tag, nat>, s: seq<RobEntry>, head: nat, cap: nat)
    requires head < cap && 0 < |s| <= cap && DistinctTags(s) && Indexes(index, s, head, cap)
    ensures Indexes(index - {s[0].tag}, s[1..], Pos(head, 1, cap), cap)
  {
    var rest := s[1..];
    forall i | 0 <= i < |rest| ensures rest[i].tag != s[0].tag && Pos(Pos(head, 1, cap), i, cap) == Pos(head, i + 1, cap) {
    }
    forall t | t in index && t != s[0].tag ensures Holds(rest, t) {
      var i :| 0 <= i < |s| && s[i].tag == t;
      assert rest[i - 1].tag == t;
    }
  }

  /** The index once the entries from `n` on have been removed. */
  ghost function TagsFrom(s: seq<RobEntry>, n: nat, m: nat): (r: set<Tag>) {
    set i | n <= i < m && i < |s| :: s[i].tag
  }

  lemma {:induction false} NoTags(s: seq<RobEntry>, n: nat)
    ensures TagsFrom(s, n, n) == {}
  {
  }

  lemma {:induction false} NextTags(s: seq<RobEntry>, n: nat, m: nat)
    requires n <= m < |s|
    ensures TagsFrom(s, n, m + 1) == TagsFrom(s, n, m) + {s[m].tag}
  {
  }

  lemma {:induction false} IndexPrefix(index: map<Tag, nat>, s: seq<RobEntry>, head: nat, cap: nat, n: nat)
    requires n <= |s| && DistinctTags(s) && Indexes(index, s, head, cap)
    ensures Indexes(index - TagsFrom(s, n, |s|), s[..n], head, cap)
  {
    forall t | t in index && t !in TagsFrom(s, n, |s|) ensures Holds(s[..n], t) {
      var i :| 0 <= i < |s| && s[i].tag == t;
      assert i < n && s[..n][i].tag == t;
    }
  }

  lemma {:induction false} IndexPush(index: map<Tag, nat>, s: seq<RobEntry>, head: nat, cap: nat, e: RobEntry)
    requires Indexes(index, s, head, cap) && !Holds(s, e.tag)
    ensures Indexes(index[e.tag := Pos(head, |s|, cap)], s + [e], head, cap)
  {
    var longer := s + [e];
    assert longer[|s|] == e;
    forall t | t in index ensures Holds(longer, t) {
      var i :| 0 <= i < |s| && s[i].tag == t;
      assert longer[i].tag == t;
    }
  }

  /** The array still holds the entries of `s` at distances below `n` and from `j` on. */
  ghost predicate Kept(entries: seq<RobEntry>, s: seq<RobEntry>, head: nat, n: nat, j: nat) {
    && head < |entries| && |s| <= |entries| && n <= j <= |s|
    && (forall i :: 0 <= i < n || j <= i < |s| ==>
          Pos(head, i, |entries|) < |entries| && entries[Pos(head, i, |entries|)] == s[i])
  }

  lemma {:induction false} KeptAll(entries: seq<RobEntry>, s: seq<RobEntry>, head: nat, n: nat)
    requires head < |entries| && n <= |s| <= |entries| && s == Ring(entries, head, |s|)
    ensures Kept(entries, s, head, n, n)
  {
  }

  lemma {:induction false} KeptStep(entries: seq<RobEntry>, s: seq<RobEntry>, head: nat, n: nat, j: nat, e: RobEntry)
    requires Kept(entries, s, head, n, j) && j < |s|
    ensures Pos(head, j, |entries|) < |entries| && entries[Pos(head, j, |entries|)] == s[j]
    ensures Kept(entries[Pos(head, j, |entries|) := e], s, head, n, j + 1)
  {
    var cap := |entries|;
    forall i | 0 <= i < n || j < i < |s| ensures Pos(head, i, cap) != Pos(head, j, cap) {
      if i < j {
        PosIsInjective(head, i, j, cap);
      } else {
        PosIsInjective(head, j, i, cap);
      }
    }
  }

  lemma {:induction false} KeptRing(entries: seq<RobEntry>, s: seq<RobEntry>, head: nat, n: nat, j: nat)
    requires Kept(entries, s, head, n, j)
    ensures Ring(entries, head, n) == s[..n]
  {
  }

  lemma {:induction false} SliceKeeps(s: seq<RobEntry>, lo: nat, hi: nat)
    requires lo <= hi <= |s| && DistinctTags(s) && AllValid(s)
    ensures DistinctTags(s[lo..hi]) && AllValid(s[lo..hi])
  {
  }

  lemma {:induction false} TagIsUnique(s: seq<RobEntry>, tag: Tag, k: nat)
    requires DistinctTags(s) && k < |s| && s[k].tag == tag
    ensures Holds(s, tag) && forall i :: 0 <= i < |s| && s[i].tag == tag ==> i == k
  {
  }

  lemma {:induction false} UpdateKeeps(index: map<Tag, nat>, s: seq<RobEntry>, head: nat, cap: nat, k: nat, e: RobEntry)
    requires DistinctTags(s) && AllValid(s) && Indexes(index, s, head, cap) && k < |s| && e.tag == s[k].tag && e.valid
    ensures DistinctTags(s[k := e]) && AllValid(s[k := e]) && Indexes(index, s[k := e], head, cap)
  {
    forall t | t in index
      ensures Holds(s[k := e], t)
    {
      var i :| 0 <= i < |s| && s[i].tag == t;
      assert s[k := e][i].tag == t;
    }
  }

  lemma {:induction false} PushKeeps(s: seq<RobEntry>, e: RobEntry)
    requires DistinctTags(s) && AllValid(s) && !Holds(s, e.tag) && e.valid
    ensures DistinctTags(s + [e]) && AllValid(s + [e])
  {
  }

  class Rob {
    var entries: seq<RobEntry>
    var head: nat
    var tail: nat
    var count: nat
    var nextTag: Tag
    var tagIndex: map<Tag, nat>

    ghost predicate Shaped()
      reads this
    {
      && count <= |entries|
      && (if |entries| == 0 then head == tail == 0 else head < |entries| && tail == Pos(head, count, |entries|))
    }

    ghost function Contents(): (s: seq<RobEntry>)
      requires Shaped()
      reads this
    {
      Ring(entries, head, count)
    }

    ghost predicate Valid()
      reads this
    {
      && Shaped() && DistinctTags(Contents()) && AllValid(Contents())
      && Indexes(tagIndex, Contents(), head, |entries|)
    }

    constructor (capacity: nat)
      ensures Valid() && Contents() == [] && |entries| == capacity && nextTag == 1
    {
      entries := seq(capacity, _ => BLANK);
      head, tail, count, nextTag := 0, 0, 0, 1;
      tagIndex := map[];
    }

    predicate IsFull()
      reads this
    {
      count == |entries|
    }

    /** The `i`-th entry in program order. */
    function Entry(i: nat): (e: RobEntry)
      requires Shaped() && i < count
      reads this
      ensures e == Contents()[i]
    {
      PosIsMod(head, i, |entries|);
      entries[(head + i) % |entries|]
    }

    method Allocate(instr: Instr, dst: nat, prev: nat) returns (tag: Option<Tag>)
      requires Valid() && !Holds(Contents(), nextTag)
      modifies this
      ensures Valid() && |entries| == |old(entries)|
      ensures tag.None? <==> old(IsFull())
      ensures tag.None? ==> Contents() == old(Contents()) && nextTag == old(nextTag)
      ensures tag.Some? ==>
                && tag.value == old(nextTag) && nextTag == NextTag(old(nextTag))
                && Contents() == old(Contents()) + [RobEntry(tag.value, instr, dst, prev, None, true)]
    {
      hide Indexes;
      hide Holds;
      if IsFull() {
        return None;
      }
      var e := RobEntry(nextTag, instr, dst, prev, None, true);
      RingPush(entries, head, count, e);
      IndexPush(tagIndex, Contents(), head, |entries|, e);
      PushKeeps(Contents(), e);
      PosIsMod(head, count, |entries|);
      nextTag := NextTag(nextTag);
      entries := entries[tail := e];
      tagIndex := tagIndex[e.tag := tail];
      tail := (tail + 1) % |entries|;
      count := count + 1;
      return Some(e.tag);
    }

    /** Notes the checkpoint slot of an in-flight branch. */
    method SetCheckpointId(tag: Tag, id: nat)
      requires Valid()
      modifies this`entries
      ensures Valid() && |entries| == |old(entries)|
      ensures forall i :: 0 <= i < count ==>
                Contents()[i] == if old(Contents())[i].tag == tag then old(Contents())[i].(checkpointId := Some(id)) else old(Contents())[i]
    {
      if tag in tagIndex && entries[tagIndex[tag]].valid {
        ghost var before := Contents();
        ghost var k :| 0 <= k < count && before[k].tag == tag;
        var e := entries[tagIndex[tag]].(checkpointId := Some(id));
        RingUpdate(entries, head, count, k, e);
        UpdateKeeps(tagIndex, before, head, |entries|, k, e);
        TagIsUnique(before, tag, k);
        entries := entries[tagIndex[tag] := e];
        assert Contents() == before[k := e];
      } else {
        assert !Holds(Contents(), tag);
      }
    }

    /** Removes the oldest entry. */
    method CommitHead() returns (e: Option<RobEntry>)
      requires Valid()
      modifies this
      ensures Valid() && |entries| == |old(entries)| && nextTag == old(nextTag)
      ensures e.None? <==> old(Contents()) == []
      ensures e.None? ==> Contents() == []
      ensures e.Some? ==> e.value == old(Contents())[0] && Contents() == old(Contents())[1..]
    {
      hide Pos;
      hide Indexes;
      if count == 0 {
        return None;
      }
      SliceKeeps(Contents(), 1, count);
      assert Contents()[1..count] == Contents()[1..];
      RingPop(entries, head, count);
      assert entries[head] == Contents()[0];
      IndexPop(tagIndex, Contents(), head, |entries|);
      PosIsMod(head, 1, |entries|);
      var committed := entries[head];
      tagIndex := tagIndex - {committed.tag};
      entries := entries[head := committed.(valid := false)];
      head := (head + 1) % |entries|;
      count := count - 1;
      return Some(committed);
    }

    method FlushAll()
      requires Valid()
      modifies this
      ensures Valid() && |entries| == |old(entries)| && nextTag == old(nextTag)
      ensures Contents() == []
    {
      for i := 0 to |entries|
        invariant |entries| == |old(entries)| && nextTag == old(nextTag)
      {
        entries := entries[i := entries[i].(valid := false)];
      }
      tagIndex := map[];
      head, tail, count := 0, 0, 0;
    }

    /** Whether `tag` is in flight. */
    method HasEntry(tag: Tag) returns (found: bool)
      requires Valid()
      ensures found <==> Holds(Contents(), tag)
    {
      if tag in tagIndex {
        ghost var k :| 0 <= k < count && Contents()[k].tag == tag;
        return entries[tagIndex[tag]].valid;
      }
      return false;
    }

    /** The tag just before `tag` in program order; none for the oldest entry or an absent one. */
    method PrevTagOf(tag: Tag) returns (prev: Option<Tag>)
      requires Valid()
      ensures prev.Some? ==> exists k :: 0 < k < count && Contents()[k].tag == tag && Contents()[k - 1].tag == prev.value
      ensures prev.None? ==> forall k :: 0 < k < count ==> Contents()[k].tag != tag
    {
      prev := None;
      for i := 0 to count
        invariant i == 0 ==> prev == None
        invariant i > 0 ==> prev == Some(Contents()[i - 1].tag)
        invariant forall k :: 0 <= k < i ==> Contents()[k].tag != tag
      {
        var e := Entry(i);
        if e.valid {
          if e.tag == tag {
            return prev;
          }
          prev := Some(e.tag);
        }
      }
      return None;
    }

    /** First loop of `flush_after`: where the entry tagged `tag` sits, and how far from the head. */
    method Locate(tag: Tag) returns (found: bool, idx: nat, k: nat)
      requires Valid()
      ensures found ==> k < count && Contents()[k].tag == tag && idx == Pos(head, k, |entries|)
      ensures !found ==> !Holds(Contents(), tag)
    {
      idx, k := head, 0;
      while k < count
        invariant k <= count
        invariant k < count ==> idx == Pos(head, k, |entries|)
        invariant forall i :: 0 <= i < k ==> Contents()[i].tag != tag
      {
        if entries[idx].tag == tag {
          return true, idx, k;
        }
        PosIsMod(head, k, |entries|);
        idx := (idx + 1) % |entries|;
        k := k + 1;
      }
      return false, idx, k;
    }

    /** Second loop of `flush_after`: drops the entries from the `n`-th on from array and index. */
    method Invalidate(start: nat, ghost n: nat)
      requires Valid() && 0 < n < count && start == Pos(head, n, |entries|)
      modifies this`entries, this`tagIndex
      ensures |entries| == |old(entries)|
      ensures tagIndex == old(tagIndex) - TagsFrom(old(Contents()), n, count)
      ensures Ring(entries, head, n) == old(Contents())[..n]
    {
      hide Pos;
      hide Indexes;
      hide Kept;
      hide TagsFrom;
      ghost var s := Contents();
      ghost var j := n;
      var removeIdx := start;
      NoTags(s, n);
      KeptAll(entries, s, head, n);
      while removeIdx != tail
        invariant n <= j <= count && removeIdx == Pos(head, j, |entries|) && |entries| == |old(entries)|
        invariant Kept(entries, s, head, n, j)
        invariant tagIndex == old(tagIndex) - TagsFrom(s, n, j)
        decreases count - j
      {
        PosIsMod(head, j, |entries|);
        KeptStep(entries, s, head, n, j, entries[removeIdx].(valid := false));
        NextTags(s, n, j);
        tagIndex := tagIndex - {entries[removeIdx].tag};
        entries := entries[removeIdx := entries[removeIdx].(valid := false)];
        removeIdx := (removeIdx + 1) % |entries|;
        j := j + 1;
      }
      if j < count {
        PosIsInjective(head, j, count, |entries|);
      }
      KeptRing(entries, s, head, n, j);
    }

    /** Third loop of `flush_after`: counts the entries from head to tail. */
    method Recount(ghost n: nat)
      requires 0 < n < |entries| && head < |entries| && tail == Pos(head, n, |entries|)
      requires AllValid(Ring(entries, head, n))
      modifies this`count
      ensures count == n
    {
      count := 0;
      var i := head;
      while i != tail
        invariant count <= n && i == Pos(head, count, |entries|)
        decreases n - count
      {
        assert count < n;
        PosIsMod(head, count, |entries|);
        assert Ring(entries, head, n)[count].valid;
        if entries[i].valid {
          count := count + 1;
        }
        i := (i + 1) % |entries|;
      }
      if count < n {
        PosIsInjective(head, count, n, |entries|);
      }
    }

    /** Keeps the entries up to and including `tag`; without effect if `tag` is not in flight. */
    method FlushAfter(tag: Tag)
      requires Valid()
      modifies this
      ensures Valid() && |entries| == |old(entries)| && nextTag == old(nextTag)
      ensures !Holds(old(Contents()), tag) ==> Contents() == old(Contents())
      ensures forall k :: 0 <= k < |old(Contents())| && old(Contents())[k].tag == tag ==> Contents() == old(Contents())[..k + 1]
    {
      hide Pos;
      hide Indexes;
      hide DistinctTags;
      hide AllValid;
      ghost var s := Contents();
      if count == 0 {
        return;
      }
      var found, idx, k := Locate(tag);
      if !found {
        return;
      }
      TagIsUnique(s, tag, k);
      PosIsMod(head, k, |entries|);
      var keepIdx := (idx + 1) % |entries|;
      if keepIdx == tail {
        if k + 1 < count {
          PosIsInjective(head, k + 1, count, |entries|);
        }
        assert s[..k + 1] == s;
        return;
      }
      SliceKeeps(s, 0, k + 1);
      IndexPrefix(tagIndex, s, head, |entries|, k + 1);
      Invalidate(keepIdx, k + 1);
      tail := keepIdx;
      Recount(k + 1);
    }
  }
}
