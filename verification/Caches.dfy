/** The cache simulator and the inclusive hierarchy built from four of them, on addresses. */
module Caches {
  import opened Bytes
  import opened CacheModel
  import opened HierarchyModel

  /** The line numbers of a list of addresses. */
  function Lines(addrs: seq<nat>, lineBytes: nat): (r: seq<nat>)
    requires lineBytes > 0
  {
    seq(|addrs|, i requires 0 <= i < |addrs| => addrs[i] / lineBytes)
  }

  lemma {:induction false} LinesAppend(a: seq<nat>, b: seq<nat>, lineBytes: nat)
    requires lineBytes > 0
    ensures Lines(a + b, lineBytes) == Lines(a, lineBytes) + Lines(b, lineBytes)
  {
  }

  function InLines(x: Choice, lineBytes: nat): (r: Choice)
    requires lineBytes > 0
  {
    x.(prefetches := Lines(x.prefetches, lineBytes))
  }

  class Cache {
    const lineBytes: nat
    const ways: nat
    const enabled: bool
    const latency: nat
    var sets: Sets

    ghost function Value(): (l: Level)
      reads this
    {
      Level(sets, ways, enabled, latency)
    }

    ghost predicate Valid()
      reads this
    {
      lineBytes > 0 && Ok(Value())
    }

    constructor (lineBytes: nat, numSets: nat, ways: nat, enabled: bool, latency: nat)
      requires lineBytes > 0 && numSets > 0 && ways > 0
      ensures Valid() && Held(Value()) == iset{}
      ensures this.lineBytes == lineBytes && this.ways == ways && this.enabled == enabled && this.latency == latency
    {
      this.lineBytes, this.ways, this.enabled, this.latency := lineBytes, ways, enabled, latency;
      sets := seq(numSets, _ => seq(ways, _ => Line(0, false, false)));
    }

    /** Position of the line of `addr` in its set, or the number of ways. */
    method FindWay(addr: nat) returns (w: nat)
      requires Valid()
      ensures w == WayOf(sets, addr / lineBytes)
    {
      var setIndex := SetOf(addr / lineBytes, |sets|);
      TagOfAddress(addr, lineBytes, |sets|);
      var tag := addr / (lineBytes * |sets|);
      w := 0;
      while w < ways
        invariant w <= ways && forall k :: 0 <= k < w ==> !Matches(sets[setIndex][k], tag)
      {
        if sets[setIndex][w].valid && sets[setIndex][w].tag == tag {
          break;
        }
        w := w + 1;
      }
    }

    /** `install_line_tracked`; the replacement policy chooses `way`. */
    method InstallTracked(addr: nat, isWrite: bool, way: nat) returns (evicted: seq<nat>)
      requires Valid() && enabled && way < ways && addr / lineBytes !in Held(Value())
      modifies this
      ensures Valid() && Value() == Touch(old(Value()), addr / lineBytes, isWrite, way)
      ensures Lines(evicted, lineBytes) == TouchDrops(old(Value()), addr / lineBytes, way)
    {
      var n := addr / lineBytes;
      var setIndex := SetOf(n, |sets|);
      TouchIs(Value(), n, isWrite, way);
      TagOfAddress(addr, lineBytes, |sets|);
      var tag := addr / (lineBytes * |sets|);
      evicted := [];
      if sets[setIndex][way].valid {
        var victimAddr := sets[setIndex][way].tag * (lineBytes * |sets|) + setIndex * lineBytes;
        VictimAddress(sets[setIndex][way].tag, setIndex, lineBytes, |sets|);
        evicted := [victimAddr];
      }
      hide TagOf;
      hide SetOf;
      hide LineAt;
      sets := sets[setIndex := sets[setIndex][way := Line(tag, true, isWrite)]];
    }

    /** `access_tracked_split`. */
    method Access(addr: nat, isWrite: bool, way: nat) returns (hit: bool, evicted: seq<nat>)
      requires Valid() && way < ways
      modifies this
      ensures Valid() && Value() == Touch(old(Value()), addr / lineBytes, isWrite, way)
      ensures Lines(evicted, lineBytes) == TouchDrops(old(Value()), addr / lineBytes, way)
      ensures hit <==> addr / lineBytes in old(Held(Value()))
    {
      TouchIs(Value(), addr / lineBytes, isWrite, way);
      evicted := [];
      if !enabled {
        return false, [];
      }
      var w := FindWay(addr);
      hit := w < ways;
      if hit {
        if isWrite {
          var s := SetOf(addr / lineBytes, |sets|);
          sets := sets[s := sets[s][w := sets[s][w].(dirty := true)]];
        }
      } else {
        evicted := InstallTracked(addr, isWrite, way);
      }
    }

    /** `install_prefetches`; the last target is held afterwards, and every line given up is reported. */
    method InstallPrefetches(x: Choice) returns (evicted: seq<nat>)
      requires Valid() && Fits(Value(), InLines(x, lineBytes))
      modifies this
      ensures Valid() && Value() == Prefetch(old(Value()), InLines(x, lineBytes), |x.prefetches|)
      ensures Lines(evicted, lineBytes) == PrefetchDrops(old(Value()), InLines(x, lineBytes), |x.prefetches|)
      ensures x.prefetches != [] ==> x.prefetches[|x.prefetches| - 1] / lineBytes in Held(Value())
    {
      ghost var l, xs := Value(), InLines(x, lineBytes);
      evicted := [];
      for i := 0 to |x.prefetches|
        invariant Valid() && Value() == Prefetch(l, xs, i)
        invariant Lines(evicted, lineBytes) == PrefetchDrops(l, xs, i)
      {
        var target := x.prefetches[i];
        var w := FindWay(target);
        assert xs.prefetches[i] == target / lineBytes;
        hide Ok;
        if w == ways {
          var ev := InstallTracked(target, false, x.prefetchWay(i));
          LinesAppend(evicted, ev, lineBytes);
          evicted := evicted + ev;
        }
      }
      PrefetchIs(l, xs, |xs.prefetches|);
    }

    method InvalidateLine(addr: nat) returns (found: bool)
      requires Valid()
      modifies this
      ensures Valid() && sets == Invalidate(old(sets), addr / lineBytes)
      ensures found <==> addr / lineBytes in old(Held(Value()))
    {
      InvalidateIs(sets, ways, addr / lineBytes);
      if !enabled {
        assert addr / lineBytes !in Contents(sets);
        return false;
      }
      var w := FindWay(addr);
      found := w < ways;
      if found {
        var s := SetOf(addr / lineBytes, |sets|);
        sets := sets[s := sets[s][w := sets[s][w].(valid := false, dirty := false)]];
      }
    }

    /** Drop a list of evicted lines. */
    method DropAll(evictions: seq<nat>)
      requires Valid()
      modifies this
      ensures Valid() && Value() == Drop(old(Value()), Lines(evictions, lineBytes))
    {
      ghost var l, ns := Value(), Lines(evictions, lineBytes);
      for i := 0 to |evictions|
        invariant Valid() && Value() == Without(l, ns, i)
      {
        var found := InvalidateLine(evictions[i]);
      }
    }
  }

  class Hierarchy {
    const l1i: Cache
    const l1d: Cache
    const l2: Cache
    const l3: Cache

    ghost predicate Valid()
      reads this, l1i, l1d, l2, l3
    {
      && l1i != l1d && l1i != l2 && l1i != l3 && l1d != l2 && l1d != l3 && l2 != l3
      && l1i.Valid() && l1d.Valid() && l2.Valid() && l3.Valid() && l2.enabled
      && l1i.lineBytes == l2.lineBytes && l1d.lineBytes == l2.lineBytes && l3.lineBytes == l2.lineBytes
    }

    ghost function State(): (s: Levels)
      reads this, l1i, l1d, l2, l3
    {
      Levels(l1i.Value(), l1d.Value(), l2.Value(), l3.Value())
    }

    constructor (l1i: Cache, l1d: Cache, l2: Cache, l3: Cache)
      requires l1i != l1d && l1i != l2 && l1i != l3 && l1d != l2 && l1d != l3 && l2 != l3
      requires l1i.Valid() && l1d.Valid() && l2.Valid() && l3.Valid() && l2.enabled
      requires l1i.lineBytes == l2.lineBytes && l1d.lineBytes == l2.lineBytes && l3.lineBytes == l2.lineBytes
      requires Held(l1i.Value()) == iset{} && Held(l1d.Value()) == iset{}
      ensures this.l1i == l1i && this.l1d == l1d && this.l2 == l2 && this.l3 == l3
      ensures Valid() && Inclusive(State())
    {
      this.l1i, this.l1d, this.l2, this.l3 := l1i, l1d, l2, l3;
    }

    /** One level's part of an access: the line, then its prefetches. */
    method AccessLevel(c: Cache, addr: nat, isWrite: bool, x: Choice) returns (hit: bool, evictions: seq<nat>)
      requires c.Valid() && Fits(c.Value(), InLines(x, c.lineBytes))
      modifies c
      ensures c.Valid() && c.Value() == Own(old(c.Value()), addr / c.lineBytes, isWrite, InLines(x, c.lineBytes))
      ensures Lines(evictions, c.lineBytes) == OwnDrops(old(c.Value()), addr / c.lineBytes, isWrite, InLines(x, c.lineBytes))
      ensures hit <==> addr / c.lineBytes in old(Held(c.Value()))
    {
      hit, evictions := c.Access(addr, isWrite, x.way);
      var more := c.InstallPrefetches(x);
      LinesAppend(evictions, more, c.lineBytes);
      evictions := evictions + more;
    }

    method AccessL2(addr: nat, isWrite: bool, x: Choice) returns (hit: bool)
      requires Valid() && Fits(l2.Value(), InLines(x, l2.lineBytes))
      modifies l1i, l1d, l2
      ensures Valid() && State() == Second(old(State()), addr / l2.lineBytes, isWrite, InLines(x, l2.lineBytes))
      ensures hit <==> addr / l2.lineBytes in old(Held(l2.Value()))
    {
      var evictions;
      hit, evictions := AccessLevel(l2, addr, isWrite, x);
      l1d.DropAll(evictions);
      l1i.DropAll(evictions);
    }

    method AccessL3(addr: nat, isWrite: bool, x: Choice) returns (hit: bool)
      requires Valid() && Fits(l3.Value(), InLines(x, l3.lineBytes))
      modifies l1i, l1d, l2, l3
      ensures Valid() && State() == Third(old(State()), addr / l3.lineBytes, isWrite, InLines(x, l3.lineBytes))
      ensures hit <==> addr / l3.lineBytes in old(Held(l3.Value()))
    {
      var evictions;
      hit, evictions := AccessLevel(l3, addr, isWrite, x);
      l2.DropAll(evictions);
      l1d.DropAll(evictions);
      l1i.DropAll(evictions);
    }

    /** `simulate_l1d_miss_latency`, which is also how every access goes on below the first level. */
    method BelowL1(addr: nat, isWrite: bool, x2: Choice, x3: Choice, dram: nat) returns (penalty: nat)
      requires Valid() && Fits(l2.Value(), InLines(x2, l2.lineBytes)) && Fits(l3.Value(), InLines(x3, l2.lineBytes))
      modifies l1i, l1d, l2, l3
      ensures Valid() && State() == Below(old(State()), addr / l2.lineBytes, isWrite, InLines(x2, l2.lineBytes), InLines(x3, l2.lineBytes))
      ensures penalty == Penalty(old(State()), addr / l2.lineBytes, dram)
      ensures Paid(old(State()), addr / l2.lineBytes, dram, penalty)
    {
      hide Paid;
      PenaltyIsPaid(State(), addr / l2.lineBytes, dram);
      hide Second;
      hide Third;
      SecondSparesThird(State(), addr / l2.lineBytes, isWrite, InLines(x2, l2.lineBytes));
      penalty := l2.latency;
      var hit := AccessL2(addr, isWrite, x2);
      if hit {
        return;
      }
      if l3.enabled {
        penalty := penalty + l3.latency;
        hit := AccessL3(addr, isWrite, x3);
        if hit {
          return;
        }
      }
      penalty := penalty + dram;
    }

    /** The first-level part: a miss takes the line in at once. */
    method AccessL1(addr: nat, kind: Kind, x: Choice) returns (hit: bool)
      requires Valid() && Fits(First(State(), kind), InLines(x, l2.lineBytes))
      modifies l1i, l1d
      ensures Valid()
      ensures var s := old(State());
              State() == WithFirst(s, kind, Own(First(s, kind), addr / l2.lineBytes, kind == Write, InLines(x, l2.lineBytes)))
      ensures hit <==> addr / l2.lineBytes in Held(First(old(State()), kind))
    {
      var evictions;
      if kind == Fetch {
        hit, evictions := AccessLevel(l1i, addr, false, x);
      } else {
        hit, evictions := AccessLevel(l1d, addr, kind == Write, x);
      }
    }

    /** `simulate_memory_access` under the inclusive policy. */
    method SimulateMemoryAccess(addr: nat, kind: Kind, x1: Choice, x2: Choice, x3: Choice, dram: nat) returns (penalty: nat)
      requires Valid() && Sensible(State(), FullEvent(addr, kind, x1, x2, x3, l2.lineBytes))
      modifies l1i, l1d, l2, l3
      ensures Valid() && State() == Step(old(State()), FullEvent(addr, kind, x1, x2, x3, l2.lineBytes))
      ensures penalty ==
        if addr / l2.lineBytes in Held(First(old(State()), kind)) then 0 else Penalty(old(State()), addr / l2.lineBytes, dram)
      ensures addr / l2.lineBytes !in Held(First(old(State()), kind)) ==> Paid(old(State()), addr / l2.lineBytes, dram, penalty)
    {
      hide Paid;
      PenaltyIsPaid(State(), addr / l2.lineBytes, dram);
      hide Ok;
      hide Lines;
      hide Penalty;
      ghost var s := State();
      var hit := AccessL1(addr, kind, x1);
      if hit {
        return 0;
      }
      PenaltyIsBelow(s, State(), addr / l2.lineBytes, dram);
      penalty := BelowL1(addr, kind == Write, x2, x3, dram);
    }

    method Perform(a: Access) returns (penalty: nat)
      requires Valid() && Sensible(State(), InEvent(a, l2.lineBytes))
      modifies l1i, l1d, l2, l3
      ensures Valid() && State() == Step(old(State()), InEvent(a, l2.lineBytes))
      ensures penalty == CostOf(old(State()), a, l2.lineBytes)
      ensures a.Demand? && a.addr / l2.lineBytes in Held(First(old(State()), a.kind)) ==> penalty == 0
      ensures a.Pending? || a.addr / l2.lineBytes !in Held(First(old(State()), a.kind)) ==>
                Paid(old(State()), a.addr / l2.lineBytes, a.dram, penalty)
    {
      hide Paid;
      hide Penalty;
      match a
      case Demand(addr, kind, x1, x2, x3, dram) => penalty := SimulateMemoryAccess(addr, kind, x1, x2, x3, dram);
      case Pending(addr, kind, x2, x3, dram) => penalty := BelowL1(addr, kind == Write, x2, x3, dram);
    }
  }

  function FullEvent(addr: nat, kind: Kind, x1: Choice, x2: Choice, x3: Choice, lineBytes: nat): (e: Event)
    requires lineBytes > 0
  {
    Full(addr / lineBytes, kind, InLines(x1, lineBytes), InLines(x2, lineBytes), InLines(x3, lineBytes))
  }

  /** A full access, or a first-level miss going on by itself, with the memory latency it would see. */
  datatype Access =
    | Demand(addr: nat, kind: Kind, x1: Choice, x2: Choice, x3: Choice, dram: nat)
    | Pending(addr: nat, kind: Kind, x2: Choice, x3: Choice, dram: nat)

  function InEvent(a: Access, lineBytes: nat): (e: Event)
    requires lineBytes > 0
  {
    match a
    case Demand(addr, kind, x1, x2, x3, _) => FullEvent(addr, kind, x1, x2, x3, lineBytes)
    case Pending(addr, kind, x2, x3, _) => Miss(addr / lineBytes, kind, InLines(x2, lineBytes), InLines(x3, lineBytes))
  }

  function InEvents(accesses: seq<Access>, lineBytes: nat): (es: seq<Event>)
    requires lineBytes > 0
  {
    seq(|accesses|, i requires 0 <= i < |accesses| => InEvent(accesses[i], lineBytes))
  }

  /** What an access costs: a full one nothing on a first-level hit, all others what `Paid` says. */
  ghost function CostOf(s: Levels, a: Access, lineBytes: nat): (p: nat)
    requires AllOk(s) && lineBytes > 0
  {
    if a.Demand? then Cost(s, a.addr / lineBytes, a.kind, a.dram) else Penalty(s, a.addr / lineBytes, a.dram)
  }

  /** The costs of the first `k` accesses, each in the state that the ones before have left. */
  ghost function CostOfAll(s: Levels, accesses: seq<Access>, lineBytes: nat, k: nat): (p: nat)
    requires AllOk(s) && lineBytes > 0 && k <= |accesses| && Allowed(s, InEvents(accesses, lineBytes))
  {
    if k == 0 then 0
    else CostOfAll(s, accesses, lineBytes, k - 1) + CostOf(Run(s, InEvents(accesses, lineBytes)[..k - 1]), accesses[k - 1], lineBytes)
  }

  lemma {:induction false} CostNext(s: Levels, accesses: seq<Access>, lineBytes: nat, k: nat)
    requires AllOk(s) && lineBytes > 0 && k <= |accesses| && Allowed(s, InEvents(accesses, lineBytes))
    ensures CostOfAll(s, accesses, lineBytes, 0) == 0
    ensures k < |accesses| ==>
      CostOfAll(s, accesses, lineBytes, k + 1) ==
        CostOfAll(s, accesses, lineBytes, k) + CostOf(Run(s, InEvents(accesses, lineBytes)[..k]), accesses[k], lineBytes)
  {
    hide CostOf;
    hide Run;
    hide Ok;
  }

  /** Every sequence of accesses goes the way of the model. */
  method PerformAll(h: Hierarchy, accesses: seq<Access>) returns (cycles: nat)
    requires h.Valid() && Allowed(h.State(), InEvents(accesses, h.l2.lineBytes))
    modifies h.l1i, h.l1d, h.l2, h.l3
    ensures h.Valid() && h.State() == Run(old(h.State()), InEvents(accesses, h.l2.lineBytes))
    ensures cycles == CostOfAll(old(h.State()), accesses, h.l2.lineBytes, |accesses|)
  {
    hide Ok;
    hide InEvent;
    hide CostOf;
    hide CostOfAll;
    hide Held;
    hide Paid;
    hide First;
    ghost var s, es := h.State(), InEvents(accesses, h.l2.lineBytes);
    cycles := 0;
    CostNext(s, accesses, h.l2.lineBytes, 0);
    for k := 0 to |accesses|
      invariant h.Valid() && h.State() == Run(s, es[..k]) && cycles == CostOfAll(s, accesses, h.l2.lineBytes, k)
    {
      assert es[..k + 1][..k] == es[..k];
      CostNext(s, accesses, h.l2.lineBytes, k);
      StaysSensible(s, h.State(), es[k]);
      var p := h.Perform(accesses[k]);
      cycles := cycles + p;
    }
    assert es[..|es|] == es;
  }

  /** From an inclusive state a sequence of accesses stays inclusive throughout if and only if none of them lets a
      first-level prefetch escape. */
  method Simulate(h: Hierarchy, accesses: seq<Access>) returns (cycles: nat)
    requires h.Valid() && Allowed(h.State(), InEvents(accesses, h.l2.lineBytes)) && Inclusive(h.State())
    modifies h.l1i, h.l1d, h.l2, h.l3
    ensures h.Valid() && h.State() == Run(old(h.State()), InEvents(accesses, h.l2.lineBytes))
    ensures cycles == CostOfAll(old(h.State()), accesses, h.l2.lineBytes, |accesses|)
    ensures var s, es := old(h.State()), InEvents(accesses, h.l2.lineBytes);
            (forall k :: 0 <= k <= |es| ==> InclusiveAt(s, es, k)) <==> (forall k :: 0 <= k < |es| ==> !EscapesAt(s, es, k))
    ensures (forall i :: 0 <= i < |accesses| && accesses[i].Demand? ==> accesses[i].x1.prefetches == []) ==> Inclusive(h.State())
  {
    ghost var s, es := h.State(), InEvents(accesses, h.l2.lineBytes);
    RunExact(s, es);
    if forall i :: 0 <= i < |accesses| && accesses[i].Demand? ==> accesses[i].x1.prefetches == [] {
      NoPrefetchRun(s, es);
    }
    hide Ok;
    hide Run;
    hide InEvents;
    hide Inclusive;
    hide InclusiveAt;
    hide EscapesAt;
    hide Sensible;
    hide CostOfAll;
    cycles := PerformAll(h, accesses);
  }
}
