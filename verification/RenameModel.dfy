/** Register renaming with recovery by ROB walk: the simple machine that the checkpointed engine
    (`O3Rename`) is proved to implement.

    Instructions are numbered by allocation, without wrap-around, and recovery always rebuilds the
    speculative map from the committed one. On this machine the physical registers are conserved
    and never aliased, in every run.
 */
module RenameModel {
  const ARCH_REGS := 64

  /** A physical register number has 16 bits. */
  const PHYS_REGS := 0x1_0000

  /** The two rename tables side by side: `x0..x31` at 0..31, `f0..f31` at 32..63. */
  type RenameMap = m: seq<nat> | |m| == ARCH_REGS witness seq(ARCH_REGS, i => i)

  type RegIdx = r: int | 0 <= r < 32

  function Slot(rd: RegIdx, fp: bool): (s: nat)
    ensures s < ARCH_REGS
  {
    if fp then 32 + rd else rd
  }

  /** `RenameMap::set`; `x0` stays where it is. */
  function Set(m: RenameMap, rd: RegIdx, fp: bool, p: nat): (r: RenameMap) {
    if !fp && rd == 0 then m else m[Slot(rd, fp) := p]
  }

  /** What renaming needs to know of an instruction. */
  datatype Instr = Instr(rd: RegIdx, regWrite: bool, fpWrite: bool, isBranch: bool) {
    predicate NeedsDst() { (regWrite && rd != 0) || fpWrite }

    /** The decoder never asks for both an integer and a floating-point result. */
    predicate Decodable() { !(regWrite && fpWrite) }
  }

  /** An in-flight instruction; `ord` counts allocations since reset. */
  datatype Uop = Uop(ord: nat, instr: Instr, dst: nat, prev: nat)

  /** Dispatch-time update of the speculative map. */
  function Renamed(m: RenameMap, i: Instr, dst: nat): (r: RenameMap) {
    if i.NeedsDst() then Set(m, i.rd, i.fpWrite, dst) else m
  }

  /** The update `rebuild_rename_map` re-applies for a surviving entry. */
  function Reapplied(m: RenameMap, i: Instr, dst: nat): (r: RenameMap) {
    if i.regWrite && i.rd != 0 then Set(m, i.rd, false, dst)
    else if i.fpWrite then Set(m, i.rd, true, dst)
    else m
  }

  /** The update of the committed map at retirement. */
  function Retired(m: RenameMap, i: Instr, dst: nat): (r: RenameMap) {
    if i.fpWrite then Set(m, i.rd, true, dst)
    else if i.regWrite && i.rd != 0 then Set(m, i.rd, false, dst)
    else m
  }

  /** The three sites test the two write flags in different orders; they agree on every map and
      destination exactly when not both flags name a register. */
  lemma {:induction false} SitesAgree(i: Instr)
    ensures (forall m: RenameMap, p: nat :: Reapplied(m, i, p) == Renamed(m, i, p)) <==>
              !(i.regWrite && i.rd != 0 && i.fpWrite)
    ensures forall m: RenameMap, p: nat :: Retired(m, i, p) == Renamed(m, i, p)
  {
    if i.regWrite && i.rd != 0 && i.fpWrite {
      var m: RenameMap := seq(ARCH_REGS, _ => 0);
      assert Reapplied(m, i, 1)[i.rd] != Renamed(m, i, 1)[i.rd];
    }
  }

  function Replay(m: RenameMap, uops: seq<Uop>): (r: RenameMap)
    decreases |uops|
  {
    if uops == [] then m else Replay(Reapplied(m, uops[0].instr, uops[0].dst), uops[1..])
  }

  lemma {:induction false} ReplaySnoc(m: RenameMap, uops: seq<Uop>, u: Uop)
    ensures Replay(m, uops + [u]) == Reapplied(Replay(m, uops), u.instr, u.dst)
    decreases |uops|
  {
    if uops == [] {
      assert [u][1..] == [];
    } else {
      assert (uops + [u])[1..] == uops[1..] + [u];
      ReplaySnoc(Reapplied(m, uops[0].instr, uops[0].dst), uops[1..], u);
    }
  }

  /** The instruction gives architectural register `r` a new value. */
  predicate Writes(i: Instr, r: int) {
    if i.fpWrite then r == 32 + i.rd else i.regWrite && i.rd != 0 && r == i.rd
  }

  ghost predicate LastWriter(uops: seq<Uop>, r: int, i: int) {
    0 <= i < |uops| && Writes(uops[i].instr, r) && forall j :: i < j < |uops| ==> !Writes(uops[j].instr, r)
  }

  /** In `m` each register is where its youngest writer in flight put it, or where `base` has it if there is none. */
  ghost predicate Youngest(base: RenameMap, uops: seq<Uop>, m: RenameMap) {
    forall r :: 0 <= r < ARCH_REGS ==> Placed(base, uops, m, r)
  }

  ghost predicate Placed(base: RenameMap, uops: seq<Uop>, m: RenameMap, r: int)
    requires 0 <= r < ARCH_REGS
  {
    || (m[r] == base[r] && forall j :: 0 <= j < |uops| ==> !Writes(uops[j].instr, r))
    || (exists i :: LastWriter(uops, r, i) && m[r] == uops[i].dst)
  }

  lemma {:induction false} ReplayIsYoungest(base: RenameMap, uops: seq<Uop>)
    requires forall i :: 0 <= i < |uops| ==> uops[i].instr.Decodable()
    ensures Youngest(base, uops, Replay(base, uops))
    decreases |uops|
  {
    hide Replay;
    if uops == [] {
      ReplayNothing(base);
    } else {
      var n := |uops| - 1;
      var front, u := uops[..n], uops[n];
      assert uops == front + [u];
      ReplayIsYoungest(base, front);
      ReplaySnoc(base, front, u);
      YoungestSnoc(base, front, Replay(base, front), u);
    }
  }

  lemma {:induction false} ReplayNothing(base: RenameMap)
    ensures Replay(base, []) == base
  {
  }

  lemma {:induction false} ReappliedAt(m: RenameMap, i: Instr, dst: nat, r: int)
    requires i.Decodable() && 0 <= r < ARCH_REGS
    ensures Reapplied(m, i, dst)[r] == if Writes(i, r) then dst else m[r]
  {
  }

  lemma {:induction false} YoungestSnoc(base: RenameMap, uops: seq<Uop>, m: RenameMap, u: Uop)
    requires Youngest(base, uops, m) && u.instr.Decodable()
    ensures Youngest(base, uops + [u], Reapplied(m, u.instr, u.dst))
  {
    hide Reapplied;
    hide Writes;
    var all, m' := uops + [u], Reapplied(m, u.instr, u.dst);
    forall r | 0 <= r < ARCH_REGS
      ensures Placed(base, all, m', r)
    {
      ReappliedAt(m, u.instr, u.dst, r);
      assert Placed(base, uops, m, r);
      if Writes(u.instr, r) {
        assert LastWriter(all, r, |uops|);
      } else if i :| LastWriter(uops, r, i) && m[r] == uops[i].dst {
        assert LastWriter(all, r, i);
      }
    }
  }

  // ----- The machine -----

  datatype Model = Model(
    committed: RenameMap,
    rename: RenameMap,
    rob: seq<Uop>,
    free: seq<nat>,
    next: nat)

  /** Sizes: ROB entries, checkpoint slots (0 disables them), physical registers. */
  datatype Config = Config(robSize: nat, checkpoints: nat, prfSize: nat)

  function Reclaim(free: seq<nat>, p: nat): (r: seq<nat>) {
    if p != 0 then free + [p] else free
  }

  function ReclaimAll(free: seq<nat>, uops: seq<Uop>): (r: seq<nat>)
    decreases |uops|
  {
    if uops == [] then free else ReclaimAll(Reclaim(free, uops[0].dst), uops[1..])
  }

  function Branches(uops: seq<Uop>): (n: nat) {
    if uops == [] then 0 else (if uops[0].instr.isBranch then 1 else 0) + Branches(uops[1..])
  }

  /** Rename and dispatch of one instruction. A branch waits for a checkpoint slot, and a full ROB
      sends the register just taken to the back of the free list. */
  function Dispatch(s: Model, cfg: Config, i: Instr): (r: Model) {
    if i.isBranch && cfg.checkpoints > 0 && Branches(s.rob) == cfg.checkpoints then s
    else if i.NeedsDst() && s.free == [] then s
    else
      var dst := if i.NeedsDst() then s.free[0] else 0;
      var prev := if i.NeedsDst() then s.rename[Slot(i.rd, i.fpWrite)] else 0;
      var rest := if i.NeedsDst() then s.free[1..] else s.free;
      if |s.rob| == cfg.robSize then s.(free := Reclaim(rest, dst))
      else s.(rename := Renamed(s.rename, i, dst),
              rob := s.rob + [Uop(s.next, i, dst, prev)],
              free := rest,
              next := s.next + 1)
  }

  /** Retirement of the oldest entry. */
  function Commit(s: Model): (r: Model) {
    if s.rob == [] then s
    else
      var u := s.rob[0];
      s.(committed := Retired(s.committed, u.instr, u.dst),
         rob := s.rob[1..],
         free := if u.instr.NeedsDst() && u.prev != u.dst then Reclaim(s.free, u.prev) else s.free)
  }

  /** Full flush: trap, interrupt, MRET/SRET. */
  function Flush(s: Model): (r: Model) {
    s.(rename := s.committed, rob := [], free := ReclaimAll(s.free, s.rob))
  }

  /** The oldest entry faults: it leaves the ROB, its register is reclaimed, the rest is flushed. */
  function Fault(s: Model): (r: Model) {
    if s.rob == [] then s
    else Flush(s.(rob := s.rob[1..], free := Reclaim(s.free, s.rob[0].dst)))
  }

  /** Keeps the first `n` entries and rebuilds the speculative map from the committed one. */
  function KeepFirst(s: Model, n: nat): (r: Model)
    requires n <= |s.rob|
  {
    s.(rename := Replay(s.committed, s.rob[..n]), rob := s.rob[..n], free := ReclaimAll(s.free, s.rob[n..]))
  }

  /** Position of the entry numbered `ord`, or the length if it is not in flight. */
  function IndexOf(uops: seq<Uop>, ord: nat): (k: nat)
    ensures k <= |uops|
    ensures k < |uops| ==> uops[k].ord == ord
    ensures forall i :: 0 <= i < k ==> uops[i].ord != ord
  {
    if uops == [] || uops[0].ord == ord then 0 else 1 + IndexOf(uops[1..], ord)
  }

  datatype Op =
    | DispatchOp(instr: Instr)
    | CommitOp
    | FlushOp
    | FaultOp
    | RecoverOp(keep: nat)      // squash everything younger than `keep`
    | ViolationOp(load: nat)    // squash `load` and everything younger

  function Step(s: Model, cfg: Config, op: Op): (r: Model) {
    match op
    case DispatchOp(i) => Dispatch(s, cfg, i)
    case CommitOp => Commit(s)
    case FlushOp => Flush(s)
    case FaultOp => Fault(s)
    case RecoverOp(keep) =>
      var k := IndexOf(s.rob, keep);
      KeepFirst(s, if k < |s.rob| then k + 1 else 0)
    case ViolationOp(load) =>
      var k := IndexOf(s.rob, load);
      KeepFirst(s, if k < |s.rob| then k else 0)
  }

  function Run(s: Model, cfg: Config, ops: seq<Op>): (r: Model)
    decreases |ops|
  {
    if ops == [] then s else Run(Step(s, cfg, ops[0]), cfg, ops[1..])
  }

  /** `FreeList::new`: the numbers from 64 on, each cut to 16 bits. */
  function FreeAtReset(prfSize: nat): (free: seq<nat>)
    requires prfSize >= ARCH_REGS
  {
    seq(prfSize - ARCH_REGS, i requires i >= 0 => (ARCH_REGS + i) % PHYS_REGS)
  }

  function Initial(cfg: Config): (s: Model)
    requires cfg.prfSize >= ARCH_REGS
  {
    var identity := seq(ARCH_REGS, i => i);
    Model(identity, identity, [], FreeAtReset(cfg.prfSize), 0)
  }

  // ----- The invariant -----

  ghost predicate Ordered(s: Model) {
    && (forall i, j :: 0 <= i < j < |s.rob| ==> s.rob[i].ord < s.rob[j].ord)
    && (forall i :: 0 <= i < |s.rob| ==> s.rob[i].ord < s.next)
  }

  /** Every entry that writes a register remembers the mapping it replaced. */
  ghost predicate OldLinks(s: Model) {
    forall i :: 0 <= i < |s.rob| && s.rob[i].instr.NeedsDst() ==>
      s.rob[i].prev == Replay(s.committed, s.rob[..i])[Slot(s.rob[i].instr.rd, s.rob[i].instr.fpWrite)]
  }

  ghost predicate DstsMatch(uops: seq<Uop>) {
    forall i :: 0 <= i < |uops| ==>
      uops[i].instr.Decodable() && (uops[i].dst == 0 <==> !uops[i].instr.NeedsDst())
  }

  ghost function Dsts(uops: seq<Uop>): (m: multiset<nat>) {
    if uops == [] then multiset{}
    else (if uops[0].dst != 0 then multiset{uops[0].dst} else multiset{}) + Dsts(uops[1..])
  }

  /** Each of the registers below `n` once. */
  ghost function Registers(n: nat): (m: multiset<nat>)
    ensures forall p: nat :: m[p] == if p < n then 1 else 0
    ensures |m| == n
  {
    if n == 0 then multiset{} else
      var top: nat := n - 1;
      Registers(top) + multiset{top}
  }

  /** Each physical register is in exactly one place: the free list, the committed map, or the
      destination of an in-flight instruction. */
  ghost predicate Conserved(s: Model, prfSize: nat) {
    multiset(s.free) + multiset(s.committed) + Dsts(s.rob) == Registers(prfSize)
  }

  ghost predicate Linked(s: Model) {
    && OldLinks(s) && DstsMatch(s.rob)
    && s.rename == Replay(s.committed, s.rob)
    && s.committed[0] == 0
  }

  ghost predicate Sized(s: Model, cfg: Config) {
    && |s.rob| <= cfg.robSize
    && (cfg.checkpoints > 0 ==> Branches(s.rob) <= cfg.checkpoints)
  }

  ghost predicate Inv(s: Model, cfg: Config) {
    Ordered(s) && Linked(s) && Conserved(s, cfg.prfSize) && Sized(s, cfg)
  }

  // ----- Every step keeps the invariant -----

  lemma {:induction false} DstsAppend(a: seq<Uop>, b: seq<Uop>)
    ensures Dsts(a + b) == Dsts(a) + Dsts(b)
    decreases |a|
  {
    if a == [] {
      assert a + b == b;
    } else {
      assert (a + b)[1..] == a[1..] + b;
      DstsAppend(a[1..], b);
    }
  }

  lemma {:induction false} ReclaimAllCollects(free: seq<nat>, uops: seq<Uop>)
    ensures multiset(ReclaimAll(free, uops)) == multiset(free) + Dsts(uops)
    decreases |uops|
  {
    if uops != [] {
      ReclaimAllCollects(Reclaim(free, uops[0].dst), uops[1..]);
    }
  }

  lemma {:induction false} BranchesAppend(a: seq<Uop>, b: seq<Uop>)
    ensures Branches(a + b) == Branches(a) + Branches(b)
    decreases |a|
  {
    if a == [] {
      assert a + b == b;
    } else {
      assert (a + b)[1..] == a[1..] + b;
      BranchesAppend(a[1..], b);
    }
  }

  lemma {:induction false} SetMoves(m: RenameMap, k: nat, p: nat)
    requires k < ARCH_REGS
    ensures multiset(m[k := p]) == multiset(m) - multiset{m[k]} + multiset{p}
  {
  }

  lemma {:induction false} InitialInv(cfg: Config)
    requires ARCH_REGS <= cfg.prfSize <= PHYS_REGS
    ensures Inv(Initial(cfg), cfg)
  {
    var s := Initial(cfg);
    var all := s.committed + s.free;
    assert forall i :: 0 <= i < |all| ==> all[i] == i;
    IdentityCount(all);
    assert multiset(all) == multiset(s.committed) + multiset(s.free);
  }

  lemma {:induction false} IdentityCount(all: seq<nat>)
    requires forall i :: 0 <= i < |all| ==> all[i] == i
    ensures multiset(all) == Registers(|all|)
  {
    if |all| > 0 {
      var top: nat := |all| - 1;
      assert all == all[..top] + [top];
      IdentityCount(all[..top]);
    }
  }

  lemma {:induction false} FreeIsNonZero(s: Model, n: nat)
    requires Conserved(s, n) && s.committed[0] == 0 && s.free != []
    ensures s.free[0] != 0
  {
    assert Registers(n)[0] <= 1;
    assert s.free[0] in multiset(s.free);
    assert s.committed[0] in multiset(s.committed);
  }

  /** Taking the first free register: into flight, or back to the end of the list. */
  lemma {:induction false} TakeFirst(free: seq<nat>)
    requires free != []
    ensures multiset(free) == multiset{free[0]} + multiset(free[1..])
    ensures multiset(free[1..] + [free[0]]) == multiset(free)
  {
    assert free == [free[0]] + free[1..];
  }

  lemma {:induction false} DstsPush(rob: seq<Uop>, u: Uop)
    ensures Dsts(rob + [u]) == Dsts(rob) + if u.dst != 0 then multiset{u.dst} else multiset{}
  {
    DstsAppend(rob, [u]);
    DstsHead([u]);
    assert [u][1..] == [];
  }

  lemma {:induction false} DispatchConserves(s: Model, cfg: Config, i: Instr)
    requires Conserved(s, cfg.prfSize) && s.committed[0] == 0
    ensures Conserved(Dispatch(s, cfg, i), cfg.prfSize)
  {
    hide Renamed;
    var r := Dispatch(s, cfg, i);
    if i.NeedsDst() && s.free != [] {
      FreeIsNonZero(s, cfg.prfSize);
      TakeFirst(s.free);
    }
    if r.next != s.next {
      DstsPush(s.rob, r.rob[|s.rob|]);
    }
  }

  lemma {:induction false} DispatchLinks(s: Model, cfg: Config, i: Instr)
    requires Linked(s) && Conserved(s, cfg.prfSize) && i.Decodable()
    ensures Linked(Dispatch(s, cfg, i))
  {
    hide Replay;
    var r := Dispatch(s, cfg, i);
    if r.next != s.next {
      var u := r.rob[|s.rob|];
      if i.NeedsDst() {
        FreeIsNonZero(s, cfg.prfSize);
      }
      ReplaySnoc(s.committed, s.rob, u);
      assert r.rob == s.rob + [u] && s.rob[..|s.rob|] == s.rob;
      PushLinks(s, r, u);
    }
  }

  /** Old mappings stay linked when an entry that remembers its own is added. */
  lemma {:induction false} PushLinks(s: Model, r: Model, u: Uop)
    requires OldLinks(s) && r.committed == s.committed && r.rob == s.rob + [u]
    requires u.instr.NeedsDst() ==> u.prev == Replay(s.committed, s.rob)[Slot(u.instr.rd, u.instr.fpWrite)]
    ensures OldLinks(r)
  {
    assert r.rob[..|s.rob|] == s.rob;
    forall i | 0 <= i < |s.rob|
      ensures r.rob[i] == s.rob[i] && r.rob[..i] == s.rob[..i]
    {
    }
  }

  lemma {:induction false} DispatchInv(s: Model, cfg: Config, i: Instr)
    requires Inv(s, cfg) && i.Decodable()
    ensures Inv(Dispatch(s, cfg, i), cfg)
  {
    hide Conserved;
    DispatchConserves(s, cfg, i);
    DispatchLinks(s, cfg, i);
    var r := Dispatch(s, cfg, i);
    if r.next != s.next {
      BranchesAppend(s.rob, [r.rob[|s.rob|]]);
    }
  }

  /** The oldest entry displaces the committed mapping of its register. */
  lemma {:induction false} HeadIsReplaced(s: Model)
    requires Linked(s) && s.rob != []
    ensures var i := s.rob[0].instr; i.NeedsDst() ==> s.rob[0].prev == s.committed[Slot(i.rd, i.fpWrite)]
  {
    assert s.rob[..0] == [];
  }

  lemma {:induction false} DstsHead(uops: seq<Uop>)
    requires uops != []
    ensures Dsts(uops) == (if uops[0].dst != 0 then multiset{uops[0].dst} else multiset{}) + Dsts(uops[1..])
  {
  }

  /** The register that leaves the committed map is freed, the one that was in flight takes its place. */
  lemma {:induction false} Recycles(free: multiset<nat>, committed: multiset<nat>, rest: multiset<nat>, prev: nat, dst: nat)
    requires prev in committed
    ensures (free + multiset{prev}) + (committed - multiset{prev} + multiset{dst}) + rest == free + committed + (multiset{dst} + rest)
  {
  }

  lemma {:induction false} CommitConserves(s: Model, n: nat)
    requires Linked(s) && Conserved(s, n) && s.rob != []
    ensures Conserved(Commit(s), n)
  {
    hide OldLinks;
    var u := s.rob[0];
    HeadIsReplaced(s);
    DstsHead(s.rob);
    if u.instr.NeedsDst() {
      var k := Slot(u.instr.rd, u.instr.fpWrite);
      CommittedNonZero(s, n, k);
      CommittedNotInFlight(s, n, k);
      SetMoves(s.committed, k, u.dst);
      assert u.prev in multiset(s.committed);
      Recycles(multiset(s.free), multiset(s.committed), Dsts(s.rob[1..]), u.prev, u.dst);
    }
  }

  lemma {:induction false} CommittedNotInFlight(s: Model, n: nat, k: nat)
    requires Conserved(s, n) && s.rob != [] && s.rob[0].dst != 0 && k < ARCH_REGS
    ensures s.committed[k] != s.rob[0].dst
  {
    assert Registers(n)[s.committed[k]] <= 1;
    assert s.committed[k] in multiset(s.committed);
    assert s.rob[0].dst in Dsts(s.rob);
  }

  /** Only `x0` is mapped to register 0. */
  lemma {:induction false} CommittedNonZero(s: Model, n: nat, k: nat)
    requires Conserved(s, n) && s.committed[0] == 0 && 0 < k < ARCH_REGS
    ensures s.committed[k] != 0
  {
    assert Registers(n)[0] <= 1;
    if s.committed[k] == 0 {
      TwiceInSeq(s.committed, 0, k);
    }
  }

  lemma {:induction false} CommitLinks(s: Model)
    requires Linked(s) && s.rob != []
    ensures Linked(Commit(s))
  {
    var r := Commit(s);
    assert s.rob == [s.rob[0]] + r.rob;
    forall k | 0 <= k < |r.rob|
      ensures r.rob[k] == s.rob[k + 1] && Replay(r.committed, r.rob[..k]) == Replay(s.committed, s.rob[..k + 1])
    {
      assert s.rob[..k + 1][1..] == r.rob[..k];
    }
  }

  lemma {:induction false} CommitInv(s: Model, cfg: Config)
    requires Inv(s, cfg)
    ensures Inv(Commit(s), cfg)
  {
    if s.rob != [] {
      CommitConserves(s, cfg.prfSize);
      CommitLinks(s);
    }
  }

  lemma {:induction false} KeepFirstLinks(s: Model, n: nat)
    requires Linked(s) && n <= |s.rob|
    ensures Linked(KeepFirst(s, n))
  {
    assert forall k :: 0 <= k <= n ==> s.rob[..n][..k] == s.rob[..k];
  }

  lemma {:induction false} KeepFirstInv(s: Model, cfg: Config, n: nat)
    requires Inv(s, cfg) && n <= |s.rob|
    ensures Inv(KeepFirst(s, n), cfg)
  {
    hide Linked;
    hide Registers;
    hide Dsts;
    hide Branches;
    hide ReclaimAll;
    hide Replay;
    KeepFirstLinks(s, n);
    assert s.rob == s.rob[..n] + s.rob[n..];
    DstsAppend(s.rob[..n], s.rob[n..]);
    BranchesAppend(s.rob[..n], s.rob[n..]);
    ReclaimAllCollects(s.free, s.rob[n..]);
  }

  lemma {:induction false} FlushInv(s: Model, cfg: Config)
    requires Inv(s, cfg)
    ensures Inv(Flush(s), cfg) && Flush(s) == KeepFirst(s, 0)
  {
    KeepFirstInv(s, cfg, 0);
    assert s.rob[0..] == s.rob && s.rob[..0] == [];
  }

  lemma {:induction false} FaultInv(s: Model, cfg: Config)
    requires Inv(s, cfg)
    ensures Inv(Fault(s), cfg) && Fault(s) == Flush(s)
  {
    FlushInv(s, cfg);
  }

  lemma {:induction false} StepInv(s: Model, cfg: Config, op: Op)
    requires Inv(s, cfg) && (op.DispatchOp? ==> op.instr.Decodable())
    ensures Inv(Step(s, cfg, op), cfg)
  {
    hide Inv;
    match op
    case DispatchOp(i) => DispatchInv(s, cfg, i);
    case CommitOp => CommitInv(s, cfg);
    case FlushOp => FlushInv(s, cfg);
    case FaultOp => FaultInv(s, cfg);
    case RecoverOp(keep) =>
      var k := IndexOf(s.rob, keep);
      KeepFirstInv(s, cfg, if k < |s.rob| then k + 1 else 0);
    case ViolationOp(load) =>
      var k := IndexOf(s.rob, load);
      KeepFirstInv(s, cfg, if k < |s.rob| then k else 0);
  }

  ghost predicate AllDecodable(ops: seq<Op>) {
    forall i :: 0 <= i < |ops| && ops[i].DispatchOp? ==> ops[i].instr.Decodable()
  }

  lemma {:induction false} RunInv(s: Model, cfg: Config, ops: seq<Op>)
    requires Inv(s, cfg) && AllDecodable(ops)
    ensures Inv(Run(s, cfg, ops), cfg)
    decreases |ops|
  {
    if ops != [] {
      StepInv(s, cfg, ops[0]);
      RunInv(Step(s, cfg, ops[0]), cfg, ops[1..]);
    }
  }

  // ----- What the invariant means for the program -----

  lemma {:induction false} ReplayWithin(m: RenameMap, uops: seq<Uop>)
    requires DstsMatch(uops)
    ensures multiset(Replay(m, uops)) <= multiset(m) + Dsts(uops)
    decreases |uops|
  {
    if uops != [] {
      var u := uops[0];
      var next := Reapplied(m, u.instr, u.dst);
      if u.instr.NeedsDst() {
        SetMoves(m, Slot(u.instr.rd, u.instr.fpWrite), u.dst);
      }
      ReplayWithin(next, uops[1..]);
    }
  }

  /** No two architectural registers share a physical one, no mapped register is free, and `x0`
      stays on register 0. */
  ghost predicate Unaliased(s: Model) {
    && (forall i, j :: 0 <= i < j < ARCH_REGS ==> s.rename[i] != s.rename[j])
    && (forall i :: 0 <= i < ARCH_REGS ==> s.rename[i] !in s.free)
    && (forall i, j :: 0 <= i < j < |s.free| ==> s.free[i] != s.free[j])
  }

  lemma {:induction false} TwiceInSeq(q: seq<nat>, i: nat, j: nat)
    requires i < j < |q| && q[i] == q[j]
    ensures multiset(q)[q[i]] >= 2
  {
    assert q == q[..i] + [q[i]] + q[i + 1..j] + [q[j]] + q[j + 1..];
  }

  lemma {:induction false} NeverAliased(s: Model, cfg: Config)
    requires Inv(s, cfg)
    ensures Unaliased(s)
  {
    ReplayWithin(s.committed, s.rob);
    var all := Registers(cfg.prfSize);
    assert multiset(s.free) + multiset(s.rename) <= all;
    UnaliasedWithin(s, all);
  }

  lemma {:induction false} UnaliasedWithin(s: Model, all: multiset<nat>)
    requires multiset(s.free) + multiset(s.rename) <= all
    requires forall p: nat :: all[p] <= 1
    ensures Unaliased(s)
  {
    forall i, j | 0 <= i < j < ARCH_REGS ensures s.rename[i] != s.rename[j] {
      assert all[s.rename[i]] <= 1;
      if s.rename[i] == s.rename[j] {
        TwiceInSeq(s.rename, i, j);
      }
    }
    forall i | 0 <= i < ARCH_REGS ensures s.rename[i] !in s.free {
      assert all[s.rename[i]] <= 1;
      assert s.rename[i] in multiset(s.rename);
      assert multiset(s.free)[s.rename[i]] == 0;
    }
    forall i, j | 0 <= i < j < |s.free| ensures s.free[i] != s.free[j] {
      assert all[s.free[i]] <= 1;
      if s.free[i] == s.free[j] {
        TwiceInSeq(s.free, i, j);
      }
    }
  }

  /** After a full flush exactly the registers that the committed map does not hold are free, each once. */
  lemma {:induction false} FlushLeaksNothing(s: Model, cfg: Config)
    requires Inv(s, cfg)
    ensures |Flush(s).free| + ARCH_REGS == cfg.prfSize
    ensures forall p: nat :: p < cfg.prfSize ==> (p in Flush(s).free <==> p !in Flush(s).committed)
    ensures forall p: nat :: multiset(Flush(s).free)[p] <= 1
  {
    FlushInv(s, cfg);
    var r := Flush(s);
    assert |multiset(r.free) + multiset(r.committed) + Dsts(r.rob)| == cfg.prfSize;
    forall p: nat
      ensures multiset(r.free)[p] + multiset(r.committed)[p] == if p < cfg.prfSize then 1 else 0
    {
      assert (multiset(r.free) + multiset(r.committed) + Dsts(r.rob))[p] == Registers(cfg.prfSize)[p];
    }
    assert forall p: nat :: p in r.free <==> multiset(r.free)[p] > 0;
    assert forall p: nat :: p in r.committed <==> multiset(r.committed)[p] > 0;
  }

  lemma {:induction false} RenameIsYoungest(s: Model, cfg: Config)
    requires Inv(s, cfg)
    ensures Youngest(s.committed, s.rob, s.rename)
  {
    hide Youngest;
    hide Replay;
    hide Conserved;
    hide OldLinks;
    ReplayIsYoungest(s.committed, s.rob);
  }

  // ----- What dispatch and retirement do -----

  /** There is room in the buffer, a register if one is needed, and a checkpoint slot for a branch that needs one. */
  ghost predicate Room(s: Model, cfg: Config, i: Instr) {
    && |s.rob| < cfg.robSize
    && (i.NeedsDst() ==> s.free != [])
    && (i.isBranch && cfg.checkpoints > 0 ==> Branches(s.rob) != cfg.checkpoints)
  }

  /** In `after`, the registers that `i` writes are at `dst` and all others where `before` has them. */
  ghost predicate Redirected(i: Instr, dst: nat, before: RenameMap, after: RenameMap) {
    forall r :: 0 <= r < ARCH_REGS ==> after[r] == if Writes(i, r) then dst else before[r]
  }

  /** Without room an instruction changes nothing but the order of the free registers. With room it enters at the end
      of the buffer with the first free register for its destination, and remembers the register it hides. */
  lemma {:induction false} DispatchEffect(s: Model, cfg: Config, i: Instr)
    requires Inv(s, cfg) && i.Decodable()
    ensures var t := Dispatch(s, cfg, i);
            && t.committed == s.committed
            && (!Room(s, cfg, i) ==> t.rob == s.rob && t.rename == s.rename && multiset(t.free) == multiset(s.free))
            && (Room(s, cfg, i) ==>
                  && t.rob == s.rob + [Uop(s.next, i, t.rob[|s.rob|].dst, t.rob[|s.rob|].prev)]
                  && t.free == (if i.NeedsDst() then s.free[1..] else s.free)
                  && t.rob[|s.rob|].dst == (if i.NeedsDst() then s.free[0] else 0)
                  && Redirected(i, t.rob[|s.rob|].dst, s.rename, t.rename)
                  && forall r :: 0 <= r < ARCH_REGS && Writes(i, r) ==> t.rob[|s.rob|].prev == s.rename[r])
  {
    hide Branches;
    hide OldLinks;
    hide DstsMatch;
    hide Replay;
    if i.NeedsDst() && s.free != [] {
      FreeIsNonZero(s, cfg.prfSize);
      TakeFirst(s.free);
    }
  }

  /** Retiring the oldest entry puts its destination into the committed map and frees exactly the register that the
      map held for it; the speculative map does not change. */
  lemma {:induction false} CommitEffect(s: Model, cfg: Config)
    requires Inv(s, cfg) && s.rob != []
    ensures var i, t := s.rob[0].instr, Commit(s);
            && t.rob == s.rob[1..] && t.rename == s.rename
            && Redirected(i, s.rob[0].dst, s.committed, t.committed)
            && (!i.NeedsDst() ==> t.free == s.free)
            && (forall r :: 0 <= r < ARCH_REGS && Writes(i, r) ==> t.free == s.free + [s.committed[r]])
  {
    hide Ordered;
    hide Sized;
    var u := s.rob[0];
    assert s.rob[..0] == [] && Replay(s.committed, []) == s.committed;
    if u.instr.NeedsDst() {
      HiddenIsOther(s, cfg);
    }
  }

  /** The register hidden by the oldest entry is neither its own nor register 0. */
  lemma {:induction false} HiddenIsOther(s: Model, cfg: Config)
    requires Inv(s, cfg) && s.rob != [] && s.rob[0].instr.NeedsDst()
    ensures var slot := Slot(s.rob[0].instr.rd, s.rob[0].instr.fpWrite);
            s.committed[slot] != s.rob[0].dst && s.committed[slot] != 0
  {
    hide OldLinks;
    hide Replay;
    hide Ordered;
    hide Sized;
    var slot := Slot(s.rob[0].instr.rd, s.rob[0].instr.fpWrite);
    var p := s.committed[slot];
    assert Registers(cfg.prfSize)[p] <= 1;
    assert p in multiset(s.committed);
    assert s.rob[0].dst in Dsts(s.rob);
    if p == 0 {
      TwiceInSeq(s.committed, 0, slot);
    }
  }

  /** In every run from reset, with a register file that 16 bits can number: the speculative map is what a ROB walk
      would rebuild, registers are never aliased, and a flush at any point leaves no register lost. */
  lemma {:induction false} EveryRunIsSound(cfg: Config, ops: seq<Op>)
    requires ARCH_REGS <= cfg.prfSize <= PHYS_REGS && AllDecodable(ops)
    ensures var s := Run(Initial(cfg), cfg, ops);
            && s.rename == Replay(s.committed, s.rob)
            && Youngest(s.committed, s.rob, s.rename)
            && Unaliased(s)
            && |Flush(s).free| + ARCH_REGS == cfg.prfSize
            && (forall p: nat :: p < cfg.prfSize ==> (p in Flush(s).free <==> p !in Flush(s).committed))
  {
    InitialInv(cfg);
    RunInv(Initial(cfg), cfg, ops);
    RenameIsYoungest(Run(Initial(cfg), cfg, ops), cfg);
    NeverAliased(Run(Initial(cfg), cfg, ops), cfg);
    FlushLeaksNothing(Run(Initial(cfg), cfg, ops), cfg);
  }

  /** No run aliases a register, if and only if 16 bits can number them all: otherwise register 0, which holds `x0`,
      is in the free list from the start. */
  lemma {:induction false} SoundIffNumbered(cfg: Config)
    requires cfg.prfSize >= ARCH_REGS
    ensures (forall ops :: AllDecodable(ops) ==> Unaliased(Run(Initial(cfg), cfg, ops))) <==> cfg.prfSize <= PHYS_REGS
    ensures cfg.prfSize > PHYS_REGS ==> Initial(cfg).rename[0] in Initial(cfg).free
  {
    hide Unaliased;
    if cfg.prfSize <= PHYS_REGS {
      forall ops | AllDecodable(ops)
        ensures Unaliased(Run(Initial(cfg), cfg, ops))
      {
        EveryRunIsSound(cfg, ops);
      }
    } else {
      WrapsToZero(cfg);
      assert Run(Initial(cfg), cfg, []) == Initial(cfg) && AllDecodable([]);
    }
  }

  lemma {:induction false} WrapsToZero(cfg: Config)
    requires cfg.prfSize > PHYS_REGS
    ensures Initial(cfg).rename[0] in Initial(cfg).free && !Unaliased(Initial(cfg))
  {
    assert FreeAtReset(cfg.prfSize)[PHYS_REGS - ARCH_REGS] == 0;
  }
}
