/** The out-of-order engine's rename state: circular ROB, wrapping tags, free list and checkpoint
    table, with the dispatch, commit and recovery steps of the source. Every step is proved to do
    what the ROB-walk machine `RenameModel` does; in particular the map restored from a checkpoint
    is the map the walk would rebuild. */
module O3Rename {
  import opened Bytes
  import opened RobTags
  import opened RenameModel
  import opened Checkpoints
  import opened Robs

  /** A buffer entry stands for an instruction of the model: same fields, tag for number. */
  ghost predicate Stands(e: RobEntry, u: Uop) {
    e.tag == TagOf(u.ord) && e.instr == u.instr && e.dst == u.dst && e.prev == u.prev
  }

  ghost predicate StandFor(es: seq<RobEntry>, us: seq<Uop>) {
    |es| == |us| && forall i :: 0 <= i < |es| ==> Stands(es[i], us[i])
  }

  /** All instructions in flight, and the next one, lie within the reach of the tag comparison. */
  ghost predicate InWindow(s: Model) {
    s.rob != [] ==> s.next - s.rob[0].ord <= WINDOW
  }

  /** Slots and branches in flight belong to each other one to one, and each snapshot is the
      committed map replayed up to and including its branch. */
  ghost predicate CheckpointsMatch(es: seq<RobEntry>, slots: Slots, s: Model) {
    && |es| == |s.rob| && |slots| <= 256
    && (forall i :: 0 <= i < |es| ==> (es[i].checkpointId.Some? <==> es[i].instr.isBranch && |slots| > 0))
    && (forall i {:trigger es[i].checkpointId} :: 0 <= i < |es| && es[i].checkpointId.Some? ==>
          var k := es[i].checkpointId.value;
          k < |slots| && slots[k] == Some(Checkpoint(es[i].tag, Replay(s.committed, s.rob[..i + 1]))))
    && (forall k :: 0 <= k < |slots| && slots[k].Some? ==>
          exists i :: 0 <= i < |es| && es[i].checkpointId == Some(k))
  }

  // ----- Tags stand for allocation numbers -----

  lemma {:induction false} TagsAreDistinct(es: seq<RobEntry>, s: Model, m: nat)
    requires StandFor(es, s.rob) && Ordered(s) && InWindow(s)
    requires s.rob != [] ==> m <= s.next && s.next - m <= WINDOW
    ensures forall i :: 0 <= i < |es| ==> (es[i].tag == TagOf(m) <==> s.rob[i].ord == m)
    ensures forall i :: 0 <= i < |es| ==> (IsNewerThan(es[i].tag, TagOf(m)) <==> s.rob[i].ord > m)
  {
    forall i | 0 <= i < |es|
      ensures es[i].tag == TagOf(m) <==> s.rob[i].ord == m
      ensures IsNewerThan(es[i].tag, TagOf(m)) <==> s.rob[i].ord > m
    {
      assert s.rob[0].ord <= s.rob[i].ord < s.next;
      LiveOrder(s.rob[i].ord, m);
      LiveOrder(m, s.rob[i].ord);
    }
  }

  // ----- The checkpoint relation, step by step -----

  lemma {:induction false} MatchPush(es: seq<RobEntry>, slots: Slots, s: Model, e: RobEntry, t: Model)
    requires CheckpointsMatch(es, slots, s)
    requires t.committed == s.committed && |t.rob| == |s.rob| + 1 && t.rob[..|s.rob|] == s.rob
    requires e.checkpointId == None && !(e.instr.isBranch && |slots| > 0)
    ensures CheckpointsMatch(es + [e], slots, t)
  {
    var longer := es + [e];
    assert forall m :: 0 <= m <= |es| ==> t.rob[..m] == s.rob[..m];
    forall k | 0 <= k < |slots| && slots[k].Some? ensures exists i :: 0 <= i < |longer| && longer[i].checkpointId == Some(k) {
      var i :| 0 <= i < |es| && es[i].checkpointId == Some(k);
      assert longer[i].checkpointId == Some(k);
    }
  }

  lemma {:induction false} MatchPushBranch(es: seq<RobEntry>, slots: Slots, s: Model, e: RobEntry, t: Model, k: nat)
    requires CheckpointsMatch(es, slots, s)
    requires t.committed == s.committed && |t.rob| == |s.rob| + 1 && t.rob[..|s.rob|] == s.rob
    requires k < |slots| && slots[k].None? && e.checkpointId == Some(k) && e.instr.isBranch
    requires t.rename == Replay(t.committed, t.rob)
    ensures CheckpointsMatch(es + [e], slots[k := Some(Checkpoint(e.tag, t.rename))], t)
  {
    var longer := es + [e];
    var more := slots[k := Some(Checkpoint(e.tag, t.rename))];
    assert t.rob[..|t.rob|] == t.rob;
    assert forall m :: 0 <= m <= |es| ==> t.rob[..m] == s.rob[..m];
    forall j | 0 <= j < |more| && more[j].Some? ensures exists i :: 0 <= i < |longer| && longer[i].checkpointId == Some(j) {
      if j == k {
        assert longer[|es|].checkpointId == Some(j);
      } else {
        var i :| 0 <= i < |es| && es[i].checkpointId == Some(j);
        assert longer[i].checkpointId == Some(j);
      }
    }
  }

  lemma {:induction false} EntryMatch(es: seq<RobEntry>, slots: Slots, s: Model, i: nat)
    requires CheckpointsMatch(es, slots, s) && i < |es|
    ensures |es| == |s.rob|
    ensures es[i].checkpointId.Some? <==> es[i].instr.isBranch && |slots| > 0
    ensures es[i].checkpointId.Some? ==> es[i].checkpointId.value < |slots| && slots[es[i].checkpointId.value].Some?
  {
  }

  lemma {:induction false} SlotMatch(es: seq<RobEntry>, slots: Slots, s: Model, k: nat)
    requires CheckpointsMatch(es, slots, s) && k < |slots| && slots[k].Some?
    ensures exists i :: 0 <= i < |es| && es[i].checkpointId == Some(k)
              && slots[k].value == Checkpoint(es[i].tag, Replay(s.committed, s.rob[..i + 1]))
  {
    var i :| 0 <= i < |es| && es[i].checkpointId == Some(k);
    assert slots[k].value == Checkpoint(es[i].tag, Replay(s.committed, s.rob[..i + 1]));
  }

  /** Two branches never share a slot. */
  lemma {:induction false} SlotsAreDistinct(es: seq<RobEntry>, slots: Slots, s: Model, i: nat, j: nat)
    requires CheckpointsMatch(es, slots, s) && DistinctTags(es) && i < j < |es|
    requires es[i].checkpointId.Some? && es[j].checkpointId.Some?
    ensures es[i].checkpointId != es[j].checkpointId
  {
  }

  function Vacate(slots: Slots, e: RobEntry): (r: Slots) {
    if e.checkpointId.Some? && e.checkpointId.value < |slots| then slots[e.checkpointId.value := None] else slots
  }

  /** The walk from the committed map does not notice that the oldest entry has retired. */
  lemma {:induction false} ReplayAfterCommit(s: Model, m: nat)
    requires Linked(s) && s.rob != [] && m < |s.rob|
    ensures Replay(Commit(s).committed, Commit(s).rob[..m]) == Replay(s.committed, s.rob[..m + 1])
  {
    assert s.rob[..m + 1][1..] == Commit(s).rob[..m];
  }

  lemma {:induction false} MatchCommit(es: seq<RobEntry>, slots: Slots, s: Model)
    requires CheckpointsMatch(es, slots, s) && DistinctTags(es) && es != [] && Linked(s)
    requires s.rob[0].instr == es[0].instr
    ensures CheckpointsMatch(es[1..], Vacate(slots, es[0]), Commit(s))
  {
    hide Replay;
    hide Linked;
    var rest := es[1..];
    var less := Vacate(slots, es[0]);
    var t := Commit(s);
    forall i {:trigger rest[i].checkpointId} | 0 <= i < |rest|
      ensures Replay(t.committed, t.rob[..i + 1]) == Replay(s.committed, s.rob[..i + 2])
      ensures rest[i].checkpointId.Some? ==> rest[i].checkpointId != es[0].checkpointId
    {
      ReplayAfterCommit(s, i + 1);
      if rest[i].checkpointId.Some? && es[0].checkpointId.Some? {
        SlotsAreDistinct(es, slots, s, 0, i + 1);
      }
    }
    forall k | 0 <= k < |less| && less[k].Some? ensures exists i :: 0 <= i < |rest| && rest[i].checkpointId == Some(k) {
      var i :| 0 <= i < |es| && es[i].checkpointId == Some(k);
      assert rest[i - 1].checkpointId == Some(k);
    }
  }

  lemma {:induction false} MatchDropLast(es: seq<RobEntry>, slots: Slots, s: Model)
    requires CheckpointsMatch(es, slots, s) && DistinctTags(es) && es != []
    ensures CheckpointsMatch(es[..|es| - 1], Vacate(slots, es[|es| - 1]), s.(rob := s.rob[..|es| - 1]))
  {
    var n := |es| - 1;
    var init := es[..n];
    var less := Vacate(slots, es[n]);
    forall i {:trigger init[i].checkpointId} | 0 <= i < n
      ensures s.rob[..n][..i + 1] == s.rob[..i + 1]
      ensures init[i].checkpointId.Some? ==> init[i].checkpointId != es[n].checkpointId
    {
      if init[i].checkpointId.Some? && es[n].checkpointId.Some? {
        SlotsAreDistinct(es, slots, s, i, n);
      }
    }
    forall k | 0 <= k < |less| && less[k].Some? ensures exists i :: 0 <= i < |init| && init[i].checkpointId == Some(k) {
      var i :| 0 <= i < |es| && es[i].checkpointId == Some(k);
      assert init[i].checkpointId == Some(k);
    }
  }

  /** The table is exactly as full as there are branches in flight. */
  lemma {:induction false} OccupancyIsBranches(es: seq<RobEntry>, slots: Slots, s: Model)
    requires CheckpointsMatch(es, slots, s) && DistinctTags(es) && |slots| > 0
    requires forall i :: 0 <= i < |es| ==> es[i].instr == s.rob[i].instr
    ensures Occupied(slots) == Branches(s.rob)
    decreases |es|, 1
  {
    if es == [] {
      EmptyIsFree(slots);
    } else {
      OccupancyStep(es, slots, s);
    }
  }

  lemma {:induction false} OccupancyStep(es: seq<RobEntry>, slots: Slots, s: Model)
    requires CheckpointsMatch(es, slots, s) && DistinctTags(es) && |slots| > 0 && es != []
    requires forall i :: 0 <= i < |es| ==> es[i].instr == s.rob[i].instr
    ensures Occupied(slots) == Branches(s.rob)
    decreases |es|, 0
  {
    hide CheckpointsMatch;
    var n := |es| - 1;
    EntryMatch(es, slots, s, n);
    MatchDropLast(es, slots, s);
    OccupancyIsBranches(es[..n], Vacate(slots, es[n]), s.(rob := s.rob[..n]));
    assert s.rob == s.rob[..n] + [s.rob[n]];
    BranchesAppend(s.rob[..n], [s.rob[n]]);
    if es[n].checkpointId.Some? {
      OccupiedUpdate(slots, es[n].checkpointId.value, None);
    }
  }

  /** Flushing by tag keeps the snapshots of the entries kept, and only those. */
  lemma {:induction false} MatchKeepFirst(es: seq<RobEntry>, slots: Slots, s: Model, n: nat, keep: Tag, after: Slots)
    requires CheckpointsMatch(es, slots, s) && n <= |es| && FlushedAfter(slots, after, keep)
    requires forall i :: 0 <= i < |es| ==> (IsNewerThan(es[i].tag, keep) <==> i >= n)
    ensures CheckpointsMatch(es[..n], after, KeepFirst(s, n))
  {
    var init := es[..n];
    assert forall m :: 0 <= m <= n ==> s.rob[..n][..m] == s.rob[..m];
    forall k | 0 <= k < |after| && after[k].Some? ensures exists i :: 0 <= i < |init| && init[i].checkpointId == Some(k) {
      var i :| 0 <= i < |es| && es[i].checkpointId == Some(k);
      assert slots[k].value.branchTag == es[i].tag;
      assert init[i].checkpointId == Some(k);
    }
  }

  lemma {:induction false} MatchNothing(slots: Slots, s: Model)
    requires |slots| <= 256 && s.rob == [] && forall k :: 0 <= k < |slots| ==> slots[k].None?
    ensures CheckpointsMatch([], slots, s)
  {
  }

  // ----- Reclaiming squashed registers -----

  lemma {:induction false} ReclaimAllSnoc(free: seq<nat>, uops: seq<Uop>, u: Uop)
    ensures ReclaimAll(free, uops + [u]) == Reclaim(ReclaimAll(free, uops), u.dst)
    decreases |uops|
  {
    if uops == [] {
      assert [u][1..] == [];
    } else {
      assert (uops + [u])[1..] == uops[1..] + [u];
      ReclaimAllSnoc(Reclaim(free, uops[0].dst), uops[1..], u);
    }
  }

  lemma {:induction false} ReclaimNothing(free: seq<nat>, uops: seq<Uop>)
    ensures uops == [] ==> ReclaimAll(free, uops) == free
  {
  }

  lemma {:induction false} ReclaimSlice(free: seq<nat>, uops: seq<Uop>, n: nat, i: nat)
    requires n <= i < |uops|
    ensures ReclaimAll(free, uops[n..n]) == free
    ensures ReclaimAll(free, uops[n..i + 1]) == Reclaim(ReclaimAll(free, uops[n..i]), uops[i].dst)
  {
    assert uops[n..i + 1] == uops[n..i] + [uops[i]];
    ReclaimAllSnoc(free, uops[n..i], uops[i]);
  }

  /** The entries to squash are those from the `n`-th on. */
  ghost predicate SquashedFrom(es: seq<RobEntry>, keep: Option<Tag>, n: nat) {
    forall i :: 0 <= i < |es| ==> (keep.None? || IsNewerThan(es[i].tag, keep.value) <==> i >= n)
  }

  // ----- What the steps do to the buffer, the map and the free list -----

  /** The destinations of the entries, in program order. */
  ghost function Destinations(es: seq<RobEntry>): (ps: seq<nat>) {
    if es == [] then [] else (if es[0].dst != 0 then [es[0].dst] else []) + Destinations(es[1..])
  }

  /** Each register is where its youngest writer in the buffer put it, or else where `base` has it. */
  ghost predicate InFlight(base: RenameMap, es: seq<RobEntry>, m: RenameMap) {
    Youngest(base, seq(|es|, i requires 0 <= i < |es| => Uop(0, es[i].instr, es[i].dst, es[i].prev)), m)
  }

  /** Entries have left at the end, their destinations are free again, and the map is that of the entries left. */
  ghost predicate Squashed(es: seq<RobEntry>, left: seq<RobEntry>, committed: RenameMap, map_: RenameMap, free: seq<nat>, after: seq<nat>) {
    left <= es && after == free + Destinations(es[|left|..]) && InFlight(committed, left, map_)
  }

  /** What is left ends with the entry tagged `tag`, or is nothing if there is none. */
  ghost predicate KeptThrough(es: seq<RobEntry>, tag: Tag, left: seq<RobEntry>) {
    && (forall k :: 0 <= k < |es| && es[k].tag == tag ==> left == es[..k + 1])
    && (!Holds(es, tag) ==> left == [])
  }

  /** What is left ends just before the entry tagged `tag`, or is nothing if there is none. */
  ghost predicate KeptBefore(es: seq<RobEntry>, tag: Tag, left: seq<RobEntry>) {
    && (forall k :: 0 <= k < |es| && es[k].tag == tag ==> left == es[..k])
    && (!Holds(es, tag) ==> left == [])
  }

  lemma {:induction false} ReclaimedAre(free: seq<nat>, es: seq<RobEntry>, us: seq<Uop>)
    requires StandFor(es, us)
    ensures ReclaimAll(free, us) == free + Destinations(es)
    decreases |es|
  {
    hide Stands;
    if es == [] {
      ReclaimNothing(free, us);
    } else {
      StandForTail(es, us);
      hide StandFor;
      var d := if es[0].dst != 0 then [es[0].dst] else [];
      assert Reclaim(free, us[0].dst) == free + d;
      ReclaimedAre(free + d, es[1..], us[1..]);
      assert ReclaimAll(free, us) == ReclaimAll(free + d, us[1..]);
      assert free + d + Destinations(es[1..]) == free + (d + Destinations(es[1..]));
    }
  }

  lemma {:induction false} StandForTail(es: seq<RobEntry>, us: seq<Uop>)
    requires StandFor(es, us) && es != []
    ensures StandFor(es[1..], us[1..]) && es[0].dst == us[0].dst && us != []
  {
    assert Stands(es[0], us[0]);
    forall i | 0 <= i < |es| - 1 ensures Stands(es[1..][i], us[1..][i]) {
      assert Stands(es[i + 1], us[i + 1]);
    }
  }

  lemma {:induction false} InFlightIs(base: RenameMap, es: seq<RobEntry>, us: seq<Uop>)
    requires StandFor(es, us) && DstsMatch(us)
    ensures InFlight(base, es, Replay(base, us))
  {
    hide Replay;
    hide Writes;
    ReplayIsYoungest(base, us);
    var m := Replay(base, us);
    var vs := seq(|es|, i requires 0 <= i < |es| => Uop(0, es[i].instr, es[i].dst, es[i].prev));
    forall r | 0 <= r < ARCH_REGS
      ensures Placed(base, vs, m, r)
    {
      assert Placed(base, us, m, r);
      if i :| LastWriter(us, r, i) && m[r] == us[i].dst {
        assert LastWriter(vs, r, i);
      }
    }
  }

  lemma {:induction false} SquashedIs(es: seq<RobEntry>, s: Model, cfg: Config, n: nat)
    requires StandFor(es, s.rob) && Inv(s, cfg) && n <= |es|
    ensures Squashed(es, es[..n], s.committed, KeepFirst(s, n).rename, s.free, KeepFirst(s, n).free)
  {
    hide Inv;
    hide Replay;
    hide Destinations;
    hide InFlight;
    hide ReclaimAll;
    PartsStand(es, s, cfg, n);
    ReclaimedAre(s.free, es[n..], s.rob[n..]);
    InFlightIs(s.committed, es[..n], s.rob[..n]);
  }

  lemma {:induction false} PartsStand(es: seq<RobEntry>, s: Model, cfg: Config, n: nat)
    requires StandFor(es, s.rob) && Inv(s, cfg) && n <= |es|
    ensures StandFor(es[..n], s.rob[..n]) && StandFor(es[n..], s.rob[n..]) && DstsMatch(s.rob[..n])
  {
    hide Conserved;
  }

  lemma {:induction false} KeptThroughIs(es: seq<RobEntry>, tag: Tag, n: nat)
    requires DistinctTags(es) && n <= |es| && (Holds(es, tag) <==> n > 0) && (n > 0 ==> es[n - 1].tag == tag)
    ensures KeptThrough(es, tag, es[..n])
  {
  }

  lemma {:induction false} KeptBeforeIs(es: seq<RobEntry>, tag: Tag, k: nat)
    requires k <= |es| && forall i :: 0 <= i < |es| ==> (es[i].tag == tag <==> i == k)
    ensures KeptBefore(es, tag, es[..if k < |es| then k else 0])
  {
  }

  /** The instruction entered the buffer at its end, with tag `tag` and the first free register if it needs one; the
      map has that register where the instruction writes, and the entry remembers what it had there. */
  ghost predicate Admitted(i: Instr, tag: Tag, es: seq<RobEntry>, after: seq<RobEntry>, m: RenameMap, m': RenameMap, free: seq<nat>, free': seq<nat>) {
    && EndsWith(i, es, after)
    && (var e := after[|es|];
        && e.tag == tag
        && free == (if i.NeedsDst() then [e.dst] else []) + free'
        && Redirected(i, e.dst, m, m')
        && forall r :: 0 <= r < ARCH_REGS && Writes(i, r) ==> e.prev == m[r])
  }

  ghost predicate EndsWith(i: Instr, es: seq<RobEntry>, after: seq<RobEntry>) {
    |after| == |es| + 1 && after[..|es|] == es && after[|es|].instr == i
  }

  /** The oldest entry left; the committed map has its destination where it writes, and what the map had there is free. */
  ghost predicate RetiredFrom(es: seq<RobEntry>, after: seq<RobEntry>, m: RenameMap, m': RenameMap, free: seq<nat>, free': seq<nat>) {
    && es != [] && after == es[1..]
    && Redirected(es[0].instr, es[0].dst, m, m')
    && (!es[0].instr.NeedsDst() ==> free' == free)
    && (forall r :: 0 <= r < ARCH_REGS && Writes(es[0].instr, r) ==> free' == free + [m[r]])
  }

  lemma {:induction false} RetiredIs(es: seq<RobEntry>, s: Model, cfg: Config)
    requires StandFor(es, s.rob) && Inv(s, cfg) && es != []
    ensures RetiredFrom(es, es[1..], s.committed, Commit(s).committed, s.free, Commit(s).free)
  {
    hide Inv;
    hide Commit;
    assert Stands(es[0], s.rob[0]);
    CommitEffect(s, cfg);
  }

  lemma {:induction false} RefusedIs(s: Model, cfg: Config, i: Instr)
    requires Inv(s, cfg) && i.Decodable() && !Room(s, cfg, i)
    ensures var t := RenameModel.Dispatch(s, cfg, i); t.rob == s.rob && t.rename == s.rename && multiset(t.free) == multiset(s.free)
  {
    hide Inv;
    hide RenameModel.Dispatch;
    DispatchEffect(s, cfg, i);
  }

  lemma {:induction false} AdmittedIs(es: seq<RobEntry>, after: seq<RobEntry>, s: Model, cfg: Config, i: Instr)
    requires Inv(s, cfg) && i.Decodable() && Room(s, cfg, i)
    requires es <= after && |es| == |s.rob| && StandFor(after, RenameModel.Dispatch(s, cfg, i).rob)
    ensures var t := RenameModel.Dispatch(s, cfg, i);
            Admitted(i, TagOf(s.next), es, after, s.rename, t.rename, s.free, t.free)
  {
    hide Inv;
    hide RenameModel.Dispatch;
    hide TagOf;
    DispatchEffect(s, cfg, i);
    assert Stands(after[|es|], RenameModel.Dispatch(s, cfg, i).rob[|es|]);
  }

  lemma {:induction false} FlushKeepsNothing(es: seq<RobEntry>, s: Model, cfg: Config)
    requires StandFor(es, s.rob) && Inv(s, cfg)
    ensures Squashed(es, [], s.committed, s.committed, s.free, RenameModel.Flush(s).free)
  {
    hide Inv;
    hide Squashed;
    hide ReclaimAll;
    SquashedIs(es, s, cfg, 0);
    assert es[..0] == [] && s.rob[..0] == [] && s.rob[0..] == s.rob;
    ReplayNothing(s.committed);
  }

  lemma {:induction false} FaultKeepsNothing(es: seq<RobEntry>, s: Model, cfg: Config)
    requires StandFor(es, s.rob) && Inv(s, cfg)
    ensures Squashed(es, [], s.committed, Fault(s).rename, s.free, Fault(s).free)
  {
    hide Inv;
    hide Squashed;
    FlushKeepsNothing(es, s, cfg);
    if s.rob == [] {
      RenameIsReplay(s, cfg);
    }
  }

  // ----- The engine -----

  class Engine {
    const rob: Rob
    const checkpoints: CheckpointTable
    var renameMap: RenameMap
    var committedMap: RenameMap
    var freeList: seq<nat>
    ghost const cfg: Config
    ghost var model: Model

    /** The engine shows the model's maps and free list, its ROB holds the model's instructions,
        and its checkpoints are snapshots of the model's walk. */
    ghost predicate Valid()
      reads this, rob, checkpoints
    {
      && rob.Valid() && checkpoints.Valid()
      && |rob.entries| == cfg.robSize && |checkpoints.slots| == cfg.checkpoints <= 256
      && Inv(model, cfg) && InWindow(model)
      && renameMap == model.rename && committedMap == model.committed && freeList == model.free
      && rob.nextTag == TagOf(model.next)
      && StandFor(rob.Contents(), model.rob)
      && CheckpointsMatch(rob.Contents(), checkpoints.slots, model)
    }

    constructor (robSize: nat, slots: nat, prfSize: nat)
      requires ARCH_REGS <= prfSize <= PHYS_REGS && slots <= 256
      ensures Valid() && fresh(rob) && fresh(checkpoints)
      ensures cfg == Config(robSize, slots, prfSize) && model == Initial(cfg)
      ensures rob.Contents() == [] && renameMap == committedMap && forall r :: 0 <= r < ARCH_REGS ==> renameMap[r] == r
      ensures |freeList| == prfSize - ARCH_REGS && forall i :: 0 <= i < |freeList| ==> freeList[i] == ARCH_REGS + i
    {
      rob := new Rob(robSize);
      checkpoints := new CheckpointTable(slots);
      cfg := Config(robSize, slots, prfSize);
      model := Initial(Config(robSize, slots, prfSize));
      renameMap := seq(ARCH_REGS, i => i);
      committedMap := seq(ARCH_REGS, i => i);
      freeList := FreeAtReset(prfSize);
      new;
      InitialInv(cfg);
      MatchNothing(checkpoints.slots, model);
    }

    /** The ROB walk: `rebuild_rename_map`. */
    method RebuildRenameMap(ghost uops: seq<Uop>)
      requires rob.Shaped() && StandFor(rob.Contents(), uops)
      modifies this`renameMap
      ensures renameMap == Replay(committedMap, uops)
    {
      ghost var es := rob.Contents();
      renameMap := committedMap;
      for i := 0 to rob.count
        invariant rob.Contents() == es
        invariant renameMap == Replay(committedMap, uops[..i])
      {
        var e := rob.Entry(i);
        assert uops[..i + 1] == uops[..i] + [uops[i]];
        ReplaySnoc(committedMap, uops[..i], uops[i]);
        if e.instr.regWrite && e.instr.rd != 0 {
          renameMap := Set(renameMap, e.instr.rd, false, e.dst);
        } else if e.instr.fpWrite {
          renameMap := Set(renameMap, e.instr.rd, true, e.dst);
        }
      }
      assert uops[..|uops|] == uops;
    }

    /** Returns the destination registers of the entries newer than `keep`, or of all entries. */
    method ReclaimSquashed(keep: Option<Tag>, ghost uops: seq<Uop>, ghost n: nat)
      requires rob.Shaped() && StandFor(rob.Contents(), uops) && n <= |uops|
      requires SquashedFrom(rob.Contents(), keep, n)
      modifies this`freeList
      ensures freeList == ReclaimAll(old(freeList), uops[n..])
    {
      hide IsNewerThan;
      hide ReclaimAll;
      ghost var es := rob.Contents();
      for i := 0 to rob.count
        invariant rob.Contents() == es
        invariant i <= n ==> freeList == old(freeList)
        invariant i > n ==> freeList == ReclaimAll(old(freeList), uops[n..i])
      {
        var e := rob.Entry(i);
        if keep.None? || IsNewerThan(e.tag, keep.value) {
          ReclaimSlice(old(freeList), uops, n, i);
          freeList := if e.dst != 0 then freeList + [e.dst] else freeList;
        }
      }
      assert uops[n..|uops|] == uops[n..];
      ReclaimNothing(old(freeList), uops[n..]);
    }

    /** Last part of dispatch: the entry `e` is in the ROB; update the map and, for a branch, take a
        snapshot of the updated map. */
    method Enter(e: RobEntry, ghost es: seq<RobEntry>, ghost before: Model)
      requires rob.Valid() && checkpoints.Valid() && |checkpoints.slots| <= 256
      requires rob.Contents() == es + [e] && e.checkpointId == None
      requires CheckpointsMatch(es, checkpoints.slots, before)
      requires e.instr.isBranch ==> checkpoints.Capacity() == 0 || !checkpoints.IsFull()
      requires Entered(before, model, e) && model.rename == Replay(model.committed, model.rob)
      requires renameMap == before.rename
      modifies this`renameMap, rob`entries, checkpoints
      ensures rob.Valid() && checkpoints.Valid()
      ensures |rob.entries| == |old(rob.entries)| && |checkpoints.slots| == |old(checkpoints.slots)|
      ensures renameMap == model.rename
      ensures |rob.Contents()| == |es| + 1 && rob.Contents()[..|es|] == es
      ensures rob.Contents()[|es|].(checkpointId := None) == e
      ensures CheckpointsMatch(rob.Contents(), checkpoints.slots, model)
    {
      hide CheckpointsMatch;
      hide Indexes;
      hide AllValid;
      hide Replay;
      if e.instr.NeedsDst() {
        renameMap := Set(renameMap, e.instr.rd, e.instr.fpWrite, e.dst);
      }
      if e.instr.isBranch && checkpoints.Capacity() > 0 {
        ghost var slots := checkpoints.slots;
        var id := checkpoints.Allocate(e.tag, renameMap);
        rob.SetCheckpointId(e.tag, id.value);
        LastTagIsNew(es, e);
        MatchPushBranch(es, slots, before, e.(checkpointId := id), model, id.value);
        assert rob.Contents() == es + [e.(checkpointId := id)];
      } else {
        MatchPush(es, checkpoints.slots, before, e, model);
      }
    }

    /** Middle part of dispatch: takes an ROB entry, or gives the register back if there is none. */
    method Insert(i: Instr, dst: nat, prev: nat)
      requires rob.Valid() && checkpoints.Valid() && |rob.entries| == cfg.robSize && |checkpoints.slots| == cfg.checkpoints <= 256
      requires Inv(model, cfg) && InWindow(model) && StandFor(rob.Contents(), model.rob)
      requires CheckpointsMatch(rob.Contents(), checkpoints.slots, model)
      requires renameMap == model.rename && committedMap == model.committed && rob.nextTag == TagOf(model.next)
      requires i.isBranch && checkpoints.Capacity() > 0 ==> !checkpoints.IsFull()
      requires var next := RenameModel.Dispatch(model, cfg, i);
               && Inv(next, cfg) && InWindow(next)
               && next == Inserted(model, cfg, i, dst, prev, freeList)
      modifies this, rob, checkpoints
      ensures Valid() && model == RenameModel.Dispatch(old(model), cfg, i)
      ensures old(rob.Contents()) <= rob.Contents()
    {
      hide NextTag;
      hide InWindow;
      hide Inv;
      hide CheckpointsMatch;
      hide Indexes;
      hide DistinctTags;
      hide AllValid;
      hide RenameModel.Dispatch;
      hide Replay;
      hide Branches;
      hide Ring;
      ghost var es, before := rob.Contents(), model;
      NextTagIsFresh(es, model, cfg);
      NextTagOf(model.next);
      var tag := rob.Allocate(i, dst, prev);
      model := RenameModel.Dispatch(model, cfg, i);
      if tag.None? {
        freeList := Reclaim(freeList, dst);
        MatchSame(es, checkpoints.slots, before, model);
      } else {
        RenameIsReplay(model, cfg);
        Enter(RobEntry(tag.value, i, dst, prev, None, true), es, before);
        StandForPush(es, before.rob, rob.Contents(), model.rob);
      }
    }

    /** Rename and dispatch: `rename_stage` for one instruction. */
    method Dispatch(i: Instr)
      requires Valid() && i.Decodable()
      requires InWindow(RenameModel.Dispatch(model, cfg, i))
      modifies this, rob, checkpoints
      ensures Valid() && model == RenameModel.Dispatch(old(model), cfg, i) && committedMap == old(committedMap)
      ensures !old(HasRoom(i)) ==>
                rob.Contents() == old(rob.Contents()) && renameMap == old(renameMap) && multiset(freeList) == multiset(old(freeList))
      ensures old(HasRoom(i)) ==>
                Admitted(i, old(rob.nextTag), old(rob.Contents()), rob.Contents(), old(renameMap), renameMap, old(freeList), freeList)
    {
      hide Inv;
      hide CheckpointsMatch;
      hide Indexes;
      hide AllValid;
      hide DistinctTags;
      hide Ring;
      hide Branches;
      hide TagOf;
      hide Stands;
      hide InWindow;
      hide Admitted;
      hide HasRoom;
      hide Room;
      ghost var es, before := rob.Contents(), model;
      RoomIs(this, i);
      DispatchInv(model, cfg, i);
      if i.isBranch && checkpoints.Capacity() > 0 && checkpoints.IsFull() {
        return;
      }
      var dst, prev := 0, 0;
      if i.NeedsDst() {
        if freeList == [] {
          return;
        }
        dst, freeList := freeList[0], freeList[1..];
        prev := renameMap[Slot(i.rd, i.fpWrite)];
      }
      Insert(i, dst, prev);
      if Room(before, cfg, i) {
        AdmittedIs(es, rob.Contents(), before, cfg, i);
      } else {
        RefusedIs(before, cfg, i);
        assert rob.Contents() == rob.Contents()[..|es|];
      }
    }

    /** A free ROB entry, a free register if one is needed, and a free checkpoint slot for a branch if there are any. */
    ghost predicate HasRoom(i: Instr)
      reads this, rob, checkpoints
    {
      && rob.count < |rob.entries|
      && (i.NeedsDst() ==> freeList != [])
      && (i.isBranch && |checkpoints.slots| > 0 ==> exists k :: 0 <= k < |checkpoints.slots| && checkpoints.slots[k].None?)
    }

    /** Retirement of the oldest entry, as the commit stage does it for a completed instruction. */
    method Retire()
      requires Valid()
      modifies this, rob, checkpoints
      ensures Valid() && model == Commit(old(model)) && renameMap == old(renameMap)
      ensures old(rob.Contents()) == [] ==> rob.Contents() == [] && committedMap == old(committedMap) && freeList == old(freeList)
      ensures old(rob.Contents()) != [] ==>
                RetiredFrom(old(rob.Contents()), rob.Contents(), old(committedMap), committedMap, old(freeList), freeList)
    {
      hide RetiredFrom;
      hide Branches;
      hide Inv;
      hide CheckpointsMatch;
      hide Indexes;
      hide AllValid;
      ghost var es, slots, before := rob.Contents(), checkpoints.slots, model;
      CommitInv(model, cfg);
      var head := rob.CommitHead();
      if head.Some? {
        var e := head.value;
        HeadFacts(es, slots, before, cfg);
        RetiredIs(es, before, cfg);
        if e.instr.fpWrite {
          if e.prev != e.dst {
            freeList := Reclaim(freeList, e.prev);
          }
          committedMap := Set(committedMap, e.instr.rd, true, e.dst);
        } else if e.instr.regWrite && e.instr.rd != 0 {
          if e.prev != e.dst {
            freeList := Reclaim(freeList, e.prev);
          }
          committedMap := Set(committedMap, e.instr.rd, false, e.dst);
        }
        if e.checkpointId.Some? {
          checkpoints.Free(e.checkpointId.value);
        }
        model := Commit(model);
      }
    }

    /** Full flush: everything in flight is squashed and the committed map restored. */
    method Flush()
      requires Valid()
      modifies this, rob, checkpoints
      ensures Valid() && model == RenameModel.Flush(old(model))
      ensures committedMap == old(committedMap)
      ensures Squashed(old(rob.Contents()), rob.Contents(), committedMap, renameMap, old(freeList), freeList)
      ensures rob.Contents() == []
    {
      hide Inv;
      FlushInv(model, cfg);
      FlushKeepsNothing(rob.Contents(), model, cfg);
      ReclaimSquashed(None, model.rob, 0);
      assert model.rob[0..] == model.rob;
      renameMap := committedMap;
      rob.FlushAll();
      checkpoints.FlushAll();
      model := RenameModel.Flush(model);
    }

    /** The oldest entry has faulted: it is popped, its register reclaimed, the rest flushed. */
    method FaultHead()
      requires Valid()
      modifies this, rob, checkpoints
      ensures Valid() && model == Fault(old(model))
      ensures committedMap == old(committedMap)
      ensures Squashed(old(rob.Contents()), rob.Contents(), committedMap, renameMap, old(freeList), freeList)
      ensures rob.Contents() == []
    {
      hide Squashed;
      hide ReclaimAll;
      hide Inv;
      hide CheckpointsMatch;
      hide Indexes;
      ghost var us := model.rob;
      FaultInv(model, cfg);
      FaultKeepsNothing(rob.Contents(), model, cfg);
      var head := rob.CommitHead();
      if head.Some? {
        freeList := Reclaim(freeList, head.value.dst);
        ReclaimSquashed(None, us[1..], 0);
        assert us[1..][0..] == us[1..];
        renameMap := committedMap;
        rob.FlushAll();
        checkpoints.FlushAll();
        model := Fault(model);
        MatchNothing(checkpoints.slots, model);
      }
    }

    /** First part of recovery: the entries newer than `keepTag` leave the ROB and their registers are freed. If the
        kept instruction is no longer there, all do. */
    method SquashNewer(keepTag: Tag, ghost n: nat)
      requires rob.Valid() && StandFor(rob.Contents(), model.rob) && n <= |model.rob|
      requires SquashedFrom(rob.Contents(), Some(keepTag), n)
      requires Holds(rob.Contents(), keepTag) <==> n > 0
      requires n > 0 ==> rob.Contents()[n - 1].tag == keepTag
      modifies this`freeList, rob
      ensures rob.Valid() && |rob.entries| == |old(rob.entries)| && rob.nextTag == old(rob.nextTag)
      ensures rob.Contents() == old(rob.Contents())[..n]
      ensures freeList == ReclaimAll(old(freeList), model.rob[n..])
    {
      var inRob := rob.HasEntry(keepTag);
      if inRob {
        ReclaimSquashed(Some(keepTag), model.rob, n);
        rob.FlushAfter(keepTag);
      } else {
        ReclaimSquashed(None, model.rob, n);
        rob.FlushAll();
      }
    }

    /** The map of the entries left: from the checkpoint of `keepTag` if there is one, else by a walk. */
    method RestoreMap(keepTag: Tag, ghost es: seq<RobEntry>, ghost before: Model, ghost keep: nat)
      requires rob.Shaped() && StandFor(rob.Contents(), before.rob[..Survivors(before, keep)])
      requires CheckpointsMatch(es, checkpoints.slots, before) && StandFor(es, before.rob) && InWindow(before) && Inv(before, cfg)
      requires keepTag == TagOf(keep) && Resolvable(before, keep) && committedMap == before.committed
      modifies this`renameMap
      ensures renameMap == Replay(before.committed, before.rob[..Survivors(before, keep)])
    {
      hide Inv;
      hide CheckpointsMatch;
      hide Replay;
      hide TagOf;
      hide InWindow;
      hide Resolvable;
      if checkpoints.Capacity() > 0 {
        var found := checkpoints.FindByTag(keepTag);
        if found.Some? {
          SnapshotIsReplay(es, checkpoints.slots, before, cfg, keep, found.value);
          renameMap := found.value.map_;
          return;
        }
      }
      RebuildRenameMap(before.rob[..Survivors(before, keep)]);
    }

    /** Recovery after a mispredicted branch or a serializing instruction: squash everything newer
        than `keepTag` and restore the map, from its checkpoint if there is one, else by a walk. */
    method Recover(keepTag: Tag, ghost keep: nat)
      requires Valid() && keepTag == TagOf(keep) && Resolvable(model, keep)
      modifies this, rob, checkpoints
      ensures Valid() && model == Step(old(model), cfg, RecoverOp(keep))
      ensures committedMap == old(committedMap)
      ensures Squashed(old(rob.Contents()), rob.Contents(), committedMap, renameMap, old(freeList), freeList)
      ensures KeptThrough(old(rob.Contents()), keepTag, rob.Contents())
    {
      hide Squashed;
      hide KeptThrough;
      hide SquashedFrom;
      hide Stands;
      hide TagOf;
      hide Holds;
      hide Pos;
      hide Occupied;
      hide InWindow;
      hide Fault;
      hide Inv;
      hide CheckpointsMatch;
      hide Indexes;
      hide AllValid;
      hide Replay;
      hide DistinctTags;
      hide Ring;
      hide Branches;
      hide ReclaimAll;
      hide IsNewerThan;
      ghost var es, slots, before := rob.Contents(), checkpoints.slots, model;
      ghost var n := Survivors(model, keep);
      RecoverFacts(es, slots, model, cfg, keep);
      SquashedIs(es, model, cfg, n);
      KeptThroughIs(es, keepTag, n);
      StepInv(model, cfg, RecoverOp(keep));
      SquashNewer(keepTag, n);
      RestoreMap(keepTag, es, before, keep);
      model := KeepFirst(model, n);
      if checkpoints.Capacity() > 0 {
        checkpoints.FlushAfter(keepTag);
      }
      MatchKeepFirst(es, slots, before, n, keepTag, checkpoints.slots);
    }

    /** Squashes everything after the first `n` entries, the last of them tagged `keepTag` (none: all
        entries), and rebuilds the map by a walk. */
    method WalkBack(keepTag: Option<Tag>, ghost n: nat)
      requires Valid() && n <= |model.rob| && SquashedFrom(rob.Contents(), keepTag, n)
      requires if keepTag.Some? then n > 0 && rob.Contents()[n - 1].tag == keepTag.value else n == 0
      requires Inv(KeepFirst(model, n), cfg)
      modifies this, rob, checkpoints
      ensures Valid() && model == KeepFirst(old(model), n)
      ensures rob.Contents() == old(rob.Contents())[..n]
    {
      hide Inv;
      hide CheckpointsMatch;
      hide Indexes;
      hide Replay;
      ghost var es, slots, before := rob.Contents(), checkpoints.slots, model;
      model := KeepFirst(before, n);
      PrefixFacts(es, before, n);
      ReclaimSquashed(keepTag, before.rob, n);
      if keepTag.Some? {
        rob.FlushAfter(keepTag.value);
        checkpoints.FlushAfter(keepTag.value);
        MatchKeepFirst(es, slots, before, n, keepTag.value, checkpoints.slots);
      } else {
        rob.FlushAll();
        checkpoints.FlushAll();
        MatchNothing(checkpoints.slots, model);
      }
      assert rob.Contents() == es[..n];
      RebuildRenameMap(model.rob);
    }

    /** Memory-order violation: the offending load and everything newer are squashed. */
    method Violation(loadTag: Tag, ghost load: nat)
      requires Valid() && loadTag == TagOf(load) && Comparable(model, load)
      modifies this, rob, checkpoints
      ensures Valid() && model == Step(old(model), cfg, ViolationOp(load))
      ensures committedMap == old(committedMap)
      ensures Squashed(old(rob.Contents()), rob.Contents(), committedMap, renameMap, old(freeList), freeList)
      ensures KeptBefore(old(rob.Contents()), loadTag, rob.Contents())
    {
      hide Squashed;
      hide KeptBefore;
      hide Inv;
      hide CheckpointsMatch;
      hide Indexes;
      hide AllValid;
      hide SquashedFrom;
      hide IndexOf;
      hide TagOf;
      ghost var es := rob.Contents();
      ghost var k := IndexOf(model.rob, load);
      ViolationFacts(es, model, cfg, load);
      SquashedIs(es, model, cfg, if k < |es| then k else 0);
      KeptBeforeIs(es, loadTag, k);
      StepInv(model, cfg, ViolationOp(load));
      var keepTag := rob.PrevTagOf(loadTag);
      assert rob.Contents() == es && |es| == |model.rob|;
      PrevIsNeighbour(es, loadTag, k, keepTag);
      WalkBack(keepTag, if k < |es| then k else 0);
    }

    /** One step of any kind. */
    method Perform(op: Op)
      requires Valid() && Enabled(model, cfg, op)
      modifies this, rob, checkpoints
      ensures Valid() && model == Step(old(model), cfg, op)
      ensures old(op.DispatchOp? && HasRoom(op.instr)) ==> EndsWith(op.instr, old(rob.Contents()), rob.Contents())
      ensures old(op.DispatchOp? && !HasRoom(op.instr)) ==> rob.Contents() == old(rob.Contents())
      ensures op.CommitOp? ==> rob.Contents() == if old(rob.Contents()) == [] then [] else old(rob.Contents())[1..]
      ensures op.FlushOp? || op.FaultOp? ==> rob.Contents() == []
      ensures op.RecoverOp? ==> KeptThrough(old(rob.Contents()), TagOf(op.keep), rob.Contents())
      ensures op.ViolationOp? ==> KeptBefore(old(rob.Contents()), TagOf(op.load), rob.Contents())
    {
      hide Valid;
      hide Squashed;
      hide KeptThrough;
      hide KeptBefore;
      hide Redirected;
      hide TagOf;
      match op
      case DispatchOp(i) => Dispatch(i);
      case CommitOp => Retire();
      case FlushOp => Flush();
      case FaultOp => FaultHead();
      case RecoverOp(keep) => Recover(TagOf(keep), keep);
      case ViolationOp(load) => Violation(TagOf(load), load);
    }

    /** Every run: the engine ends where the ROB-walk machine ends, and no register is aliased. */
    method Execute(ops: seq<Op>)
      requires Valid() && AllEnabled(model, cfg, ops)
      modifies this, rob, checkpoints
      ensures Valid() && model == Run(old(model), cfg, ops)
      ensures renameMap == model.rename && committedMap == model.committed && freeList == model.free
      ensures renameMap == Replay(committedMap, model.rob) && Unaliased(model)
      ensures InFlight(committedMap, rob.Contents(), renameMap)
    {
      hide InFlight;
      hide Valid;
      hide Step;
      hide Enabled;
      hide Unaliased;
      hide KeptThrough;
      hide KeptBefore;
      for i := 0 to |ops|
        invariant Valid() && AllEnabled(model, cfg, ops[i..])
        invariant Run(model, cfg, ops[i..]) == Run(old(model), cfg, ops)
      {
        assert ops[i..][1..] == ops[i + 1..];
        Perform(ops[i]);
      }
      EngineShows(this);
    }
  }

  /** `ord` lies within reach of the tag comparison for everything in flight. */
  ghost predicate Comparable(s: Model, ord: nat) {
    s.rob != [] ==> ord <= s.next && s.next - ord <= WINDOW
  }

  /** The instruction to keep is in flight, or has just been committed. */
  ghost predicate Resolvable(s: Model, keep: nat) {
    Comparable(s, keep) && (IndexOf(s.rob, keep) == |s.rob| ==> forall i :: 0 <= i < |s.rob| ==> keep < s.rob[i].ord)
  }

  ghost predicate Enabled(s: Model, cfg: Config, op: Op) {
    match op
    case DispatchOp(i) => i.Decodable() && InWindow(RenameModel.Dispatch(s, cfg, i))
    case RecoverOp(keep) => Resolvable(s, keep)
    case ViolationOp(load) => Comparable(s, load)
    case _ => true
  }

  ghost predicate AllEnabled(s: Model, cfg: Config, ops: seq<Op>)
    decreases |ops|
  {
    ops == [] || (Enabled(s, cfg, ops[0]) && AllEnabled(Step(s, cfg, ops[0]), cfg, ops[1..]))
  }

  ghost function Survivors(s: Model, keep: nat): (n: nat)
    ensures n <= |s.rob|
  {
    var k := IndexOf(s.rob, keep);
    if k < |s.rob| then k + 1 else 0
  }

  lemma {:induction false} RecoverFacts(es: seq<RobEntry>, slots: Slots, s: Model, cfg: Config, keep: nat)
    requires StandFor(es, s.rob) && InWindow(s) && Inv(s, cfg) && Resolvable(s, keep)
    ensures Holds(es, TagOf(keep)) <==> Survivors(s, keep) > 0
    ensures Survivors(s, keep) > 0 ==> es[Survivors(s, keep) - 1].tag == TagOf(keep)
    ensures SquashedFrom(es, Some(TagOf(keep)), Survivors(s, keep))
    ensures StandFor(es[..Survivors(s, keep)], s.rob[..Survivors(s, keep)])
    ensures InWindow(KeepFirst(s, Survivors(s, keep)))
  {
    TagsAreDistinct(es, s, keep);
  }

  lemma {:induction false} PrevIsNeighbour(es: seq<RobEntry>, tag: Tag, k: nat, prev: Option<Tag>)
    requires k <= |es| && forall i :: 0 <= i < |es| ==> (es[i].tag == tag <==> i == k)
    requires prev.Some? ==> exists j :: 0 < j < |es| && es[j].tag == tag && es[j - 1].tag == prev.value
    requires prev.None? ==> forall j :: 0 < j < |es| ==> es[j].tag != tag
    ensures prev.Some? <==> 0 < k < |es|
    ensures prev.Some? ==> es[k - 1].tag == prev.value
    ensures prev.None? ==> SquashedFrom(es, None, 0)
  {
    if k < |es| {
      assert es[k].tag == tag;
    }
  }

  lemma {:induction false} PrefixFacts(es: seq<RobEntry>, s: Model, n: nat)
    requires StandFor(es, s.rob) && InWindow(s) && n <= |es|
    ensures StandFor(es[..n], s.rob[..n]) && InWindow(KeepFirst(s, n))
  {
  }

  lemma {:induction false} ViolationFacts(es: seq<RobEntry>, s: Model, cfg: Config, load: nat)
    requires StandFor(es, s.rob) && InWindow(s) && Inv(s, cfg) && Comparable(s, load)
    ensures var k := IndexOf(s.rob, load);
            && (forall i :: 0 <= i < |es| ==> (es[i].tag == TagOf(load) <==> i == k))
            && (0 < k < |es| ==> SquashedFrom(es, Some(es[k - 1].tag), k))
  {
    hide Conserved;
    TagsAreDistinct(es, s, load);
    var k := IndexOf(s.rob, load);
    if 0 < k < |es| {
      TagsAreDistinct(es, s, s.rob[k - 1].ord);
      assert Stands(es[k - 1], s.rob[k - 1]);
    }
  }

  /** The heart of the matter: a checkpoint found for the kept branch is the replay of the committed
      map over the entries that survive. */
  lemma {:induction false} SnapshotIsReplay(es: seq<RobEntry>, slots: Slots, s: Model, cfg: Config, keep: nat, c: Checkpoint)
    requires CheckpointsMatch(es, slots, s) && StandFor(es, s.rob) && InWindow(s) && Inv(s, cfg) && Resolvable(s, keep)
    requires c.branchTag == TagOf(keep) && exists k :: 0 <= k < |slots| && slots[k] == Some(c)
    ensures c.map_ == Replay(s.committed, s.rob[..Survivors(s, keep)])
  {
    hide CheckpointsMatch;
    var k :| 0 <= k < |slots| && slots[k] == Some(c);
    SlotMatch(es, slots, s, k);
    TagsAreDistinct(es, s, keep);
  }

  /** The model once registers have been chosen: either the ROB takes the instruction or the
      destination goes back to the free list. */
  ghost function Inserted(s: Model, cfg: Config, i: Instr, dst: nat, prev: nat, rest: seq<nat>): (r: Model) {
    if |s.rob| == cfg.robSize then s.(free := Reclaim(rest, dst))
    else s.(rename := Renamed(s.rename, i, dst),
            rob := s.rob + [Uop(s.next, i, dst, prev)],
            free := rest,
            next := s.next + 1)
  }

  /** The model after `e` has been dispatched. */
  ghost predicate Entered(before: Model, after: Model, e: RobEntry) {
    && after.committed == before.committed
    && |after.rob| == |before.rob| + 1 && after.rob[..|before.rob|] == before.rob
    && after.rename == Renamed(before.rename, e.instr, e.dst)
  }

  lemma {:induction false} LastTagIsNew(es: seq<RobEntry>, e: RobEntry)
    requires DistinctTags(es + [e])
    ensures forall i :: 0 <= i < |es| ==> es[i].tag != e.tag
  {
    var all := es + [e];
    forall i | 0 <= i < |es| ensures es[i].tag != e.tag {
      assert all[i].tag != all[|es|].tag;
    }
  }

  lemma {:induction false} StandForPush(es: seq<RobEntry>, us: seq<Uop>, es': seq<RobEntry>, us': seq<Uop>)
    requires StandFor(es, us) && |es'| == |es| + 1 && |us'| == |us| + 1
    requires es'[..|es|] == es && us'[..|us|] == us && Stands(es'[|es|], us'[|us|])
    ensures StandFor(es', us')
  {
    forall i | 0 <= i < |es| ensures Stands(es'[i], us'[i]) {
      assert es'[i] == es'[..|es|][i] && us'[i] == us'[..|us|][i];
    }
  }

  lemma {:induction false} MatchSame(es: seq<RobEntry>, slots: Slots, s: Model, t: Model)
    requires CheckpointsMatch(es, slots, s) && t.committed == s.committed && t.rob == s.rob
    ensures CheckpointsMatch(es, slots, t)
  {
  }

  lemma {:induction false} NextTagIsFresh(es: seq<RobEntry>, s: Model, cfg: Config)
    requires StandFor(es, s.rob) && InWindow(s) && Inv(s, cfg)
    ensures !Holds(es, TagOf(s.next))
  {
    TagsAreDistinct(es, s, s.next);
  }

  /** What retiring the head needs to know of it. */
  lemma {:induction false} HeadFacts(es: seq<RobEntry>, slots: Slots, s: Model, cfg: Config)
    requires CheckpointsMatch(es, slots, s) && DistinctTags(es) && es != [] && StandFor(es, s.rob) && Inv(s, cfg)
    ensures CheckpointsMatch(es[1..], Vacate(slots, es[0]), Commit(s))
    ensures es[0].checkpointId.Some? ==> es[0].checkpointId.value < |slots|
    ensures StandFor(es[1..], Commit(s).rob)
    ensures InWindow(s) ==> InWindow(Commit(s))
  {
    assert Stands(es[0], s.rob[0]);
    MatchCommit(es, slots, s);
  }

  lemma {:induction false} RenameIsReplay(s: Model, cfg: Config)
    requires Inv(s, cfg)
    ensures s.rename == Replay(s.committed, s.rob)
  {
  }

  /** The engine sees in its own fields whether there is room. */
  lemma {:induction false} RoomIs(g: Engine, i: Instr)
    requires g.Valid()
    ensures g.HasRoom(i) <==> Room(g.model, g.cfg, i)
    ensures i.isBranch && g.checkpoints.Capacity() > 0 && g.checkpoints.IsFull() ==> !g.HasRoom(i)
    ensures i.NeedsDst() && g.freeList == [] ==> !g.HasRoom(i)
    ensures |g.checkpoints.slots| > 0 ==> (g.checkpoints.IsFull() <==> Branches(g.model.rob) == g.cfg.checkpoints)
  {
    hide Inv;
    hide InWindow;
    hide CheckpointsMatch;
    hide Branches;
    FullMeansBranches(g);
    FullHasNoEmpty(g.checkpoints.slots);
  }

  lemma {:induction false} FullHasNoEmpty(slots: Slots)
    ensures Occupied(slots) == |slots| <==> forall k :: 0 <= k < |slots| ==> slots[k].Some?
  {
    if slots != [] {
      FullHasNoEmpty(slots[1..]);
      assert forall k :: 1 <= k < |slots| ==> slots[k] == slots[1..][k - 1];
    }
  }

  /** What a valid engine holds at any time. */
  lemma {:induction false} EngineShows(g: Engine)
    requires g.Valid()
    ensures g.renameMap == g.model.rename && g.committedMap == g.model.committed && g.freeList == g.model.free
    ensures g.renameMap == Replay(g.committedMap, g.model.rob) && Unaliased(g.model)
    ensures InFlight(g.committedMap, g.rob.Contents(), g.renameMap)
  {
    RenameIsReplay(g.model, g.cfg);
    NeverAliased(g.model, g.cfg);
    hide Unaliased;
    hide InFlight;
    hide CheckpointsMatch;
    hide Conserved;
    hide Replay;
    InFlightIs(g.committedMap, g.rob.Contents(), g.model.rob);
  }

  lemma {:induction false} FullMeansBranches(g: Engine)
    requires g.Valid()
    ensures |g.checkpoints.slots| > 0 ==> (g.checkpoints.IsFull() <==> Branches(g.model.rob) == g.cfg.checkpoints)
  {
    if |g.checkpoints.slots| > 0 {
      OccupancyIsBranches(g.rob.Contents(), g.checkpoints.slots, g.model);
    }
  }
}
