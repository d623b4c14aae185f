/** Four cache levels as a value: what one access does to all of them, and exactly when the first level stays
    inside the second. */
module HierarchyModel {
  import opened Bytes
  import opened CacheModel

  datatype Level = Level(sets: Sets, ways: nat, enabled: bool, latency: nat)

  /** A disabled level holds nothing. */
  ghost predicate Ok(l: Level) {
    Shape(l.sets, l.ways) && Unique(l.sets) && (!l.enabled ==> Contents(l.sets) == iset{})
  }

  ghost function Held(l: Level): (r: iset<nat>)
    requires Ok(l)
  {
    Contents(l.sets)
  }

  ghost function Set(ns: seq<nat>): (r: iset<nat>) { iset n | n in ns }

  lemma {:induction false} SetAppend(a: seq<nat>, b: seq<nat>)
    ensures Set(a + b) == Set(a) + Set(b)
  {
  }

  lemma {:induction false} InSet(ns: seq<nat>, i: nat)
    requires i < |ns|
    ensures ns[i] in Set(ns)
  {
  }

  lemma {:induction false} SetNone()
    ensures Set([]) == iset{}
  {
  }

  // ----- One level -----

  /** `access_tracked_split` for line `n`, and the first half of a prefetch. */
  ghost function Touch(l: Level, n: nat, write: bool, way: nat): (r: Level)
    requires Ok(l) && way < l.ways
  {
    if !l.enabled then l
    else if Holds(l.sets, n) then (if write then l.(sets := Mark(l.sets, n)) else l)
    else l.(sets := Install(l.sets, n, way, write))
  }

  /** The lines that reports as evicted. */
  ghost function TouchDrops(l: Level, n: nat, way: nat): (r: seq<nat>)
    requires Ok(l) && way < l.ways
  {
    if !l.enabled || Holds(l.sets, n) then []
    else match Victim(l.sets, n, way) case None => [] case Some(v) => [v]
  }

  lemma {:induction false} TouchIs(l: Level, n: nat, write: bool, way: nat)
    requires Ok(l) && way < l.ways
    ensures Ok(Touch(l, n, write, way))
    ensures l.enabled ==> Held(Touch(l, n, write, way)) == Held(l) - Set(TouchDrops(l, n, way)) + iset{n}
    ensures Set(TouchDrops(l, n, way)) <= Held(l) - iset{n}
    ensures n in Held(l) ==> TouchDrops(l, n, way) == []
  {
    if l.enabled {
      if Holds(l.sets, n) {
        MarkIs(l.sets, l.ways, SetOf(n, |l.sets|), WayOf(l.sets, n));
      } else {
        InstallIs(l.sets, l.ways, n, way, write);
      }
    }
    hide Shape;
    hide Unique;
    hide Holds;
  }

  /** What replacement policy and prefetcher (after the shared filter) contribute to one level. */
  datatype Choice = Choice(way: nat, prefetches: seq<nat>, prefetchWay: nat -> nat)

  ghost predicate Fits(l: Level, x: Choice) {
    x.way < l.ways && (l.enabled || x.prefetches == []) && forall k :: x.prefetchWay(k) < l.ways
  }

  /** `install_prefetches` for the first `k` of the targets, and the lines it reports. */
  ghost function Prefetch(l: Level, x: Choice, k: nat): (r: Level)
    requires Ok(l) && Fits(l, x) && k <= |x.prefetches|
    ensures Ok(r) && r == l.(sets := r.sets)
  {
    if k == 0 then l
    else
      var before := Prefetch(l, x, k - 1);
      TouchIs(before, x.prefetches[k - 1], false, x.prefetchWay(k - 1));
      Touch(before, x.prefetches[k - 1], false, x.prefetchWay(k - 1))
  }

  ghost function PrefetchDrops(l: Level, x: Choice, k: nat): (r: seq<nat>)
    requires Ok(l) && Fits(l, x) && k <= |x.prefetches|
  {
    if k == 0 then []
    else PrefetchDrops(l, x, k - 1) + TouchDrops(Prefetch(l, x, k - 1), x.prefetches[k - 1], x.prefetchWay(k - 1))
  }

  /** Prefetches add at most their targets, report all they drop, and the last target is there afterwards. */
  lemma {:induction false} PrefetchIs(l: Level, x: Choice, k: nat)
    requires Ok(l) && Fits(l, x) && k <= |x.prefetches|
    ensures Held(Prefetch(l, x, k)) <= Held(l) + Set(x.prefetches)
    ensures Held(l) <= Held(Prefetch(l, x, k)) + Set(PrefetchDrops(l, x, k))
    ensures Set(PrefetchDrops(l, x, k)) <= Held(l) + Set(x.prefetches)
    ensures k > 0 ==> x.prefetches[k - 1] in Held(Prefetch(l, x, k))
    decreases k
  {
    hide Ok;
    hide Touch;
    hide TouchDrops;
    hide Set;
    if k > 0 {
      PrefetchIs(l, x, k - 1);
      var before, n, w := Prefetch(l, x, k - 1), x.prefetches[k - 1], x.prefetchWay(k - 1);
      TouchIs(before, n, false, w);
      SetAppend(PrefetchDrops(l, x, k - 1), TouchDrops(before, n, w));
      InSet(x.prefetches, k - 1);
      hide Prefetch;
      hide PrefetchDrops;
    } else {
      SetNone();
    }
  }

  /** Access and prefetches of one level. */
  ghost function Own(l: Level, n: nat, write: bool, x: Choice): (r: Level)
    requires Ok(l) && Fits(l, x)
    ensures Ok(r) && r == l.(sets := r.sets)
  {
    TouchIs(l, n, write, x.way);
    Prefetch(Touch(l, n, write, x.way), x, |x.prefetches|)
  }

  ghost function OwnDrops(l: Level, n: nat, write: bool, x: Choice): (r: seq<nat>)
    requires Ok(l) && Fits(l, x)
  {
    TouchIs(l, n, write, x.way);
    TouchDrops(l, n, x.way) + PrefetchDrops(Touch(l, n, write, x.way), x, |x.prefetches|)
  }

  lemma {:induction false} OwnIs(l: Level, n: nat, write: bool, x: Choice)
    requires Ok(l) && Fits(l, x)
    ensures Held(Own(l, n, write, x)) <= Held(l) + Set(x.prefetches) + iset{n}
    ensures n in Held(l) ==> Held(Own(l, n, write, x)) <= Held(l) + Set(x.prefetches)
    ensures l.enabled ==> Held(l) + iset{n} <= Held(Own(l, n, write, x)) + Set(OwnDrops(l, n, write, x))
    ensures x.prefetches != [] ==> x.prefetches[|x.prefetches| - 1] in Held(Own(l, n, write, x))
    ensures x.prefetches == [] ==> OwnDrops(l, n, write, x) == TouchDrops(l, n, x.way) && Own(l, n, write, x) == Touch(l, n, write, x.way)
  {
    TouchIs(l, n, write, x.way);
    PrefetchIs(Touch(l, n, write, x.way), x, |x.prefetches|);
    SetAppend(TouchDrops(l, n, x.way), PrefetchDrops(Touch(l, n, write, x.way), x, |x.prefetches|));
  }

  lemma {:induction false} OwnAlone(l: Level, n: nat, write: bool, x: Choice)
    requires Ok(l) && Fits(l, x) && x.prefetches == []
    ensures Set(OwnDrops(l, n, write, x)) <= Held(l) - iset{n}
    ensures l.enabled ==> Held(Own(l, n, write, x)) == Held(l) - Set(OwnDrops(l, n, write, x)) + iset{n}
  {
    OwnIs(l, n, write, x);
    TouchIs(l, n, write, x.way);
  }

  /** `invalidate_line` for the first `k` of the lines. */
  ghost function Without(l: Level, ns: seq<nat>, k: nat): (r: Level)
    requires Ok(l) && k <= |ns|
    ensures Ok(r) && r == l.(sets := r.sets) && Held(r) == Held(l) - Set(ns[..k])
  {
    if k == 0 then l
    else
      var before := Without(l, ns, k - 1);
      InvalidateIs(before.sets, before.ways, ns[k - 1]);
      assert ns[..k] == ns[..k - 1] + [ns[k - 1]];
      before.(sets := Invalidate(before.sets, ns[k - 1]))
  }

  ghost function Drop(l: Level, ns: seq<nat>): (r: Level)
    requires Ok(l)
    ensures Ok(r) && r == l.(sets := r.sets) && Held(r) == Held(l) - Set(ns)
  {
    assert ns[..|ns|] == ns;
    Without(l, ns, |ns|)
  }

  // ----- All levels -----

  datatype Levels = Levels(l1i: Level, l1d: Level, l2: Level, l3: Level)

  ghost predicate AllOk(s: Levels) { Ok(s.l1i) && Ok(s.l1d) && Ok(s.l2) && Ok(s.l3) && s.l2.enabled }

  /** Accesses change what is held, not how the levels are built. */
  predicate SameBuild(s: Levels, r: Levels) {
    && r.l1i == s.l1i.(sets := r.l1i.sets) && r.l1d == s.l1d.(sets := r.l1d.sets)
    && r.l2 == s.l2.(sets := r.l2.sets) && r.l3 == s.l3.(sets := r.l3.sets)
  }

  /** The second level holds whatever the first holds. */
  ghost predicate Inclusive(s: Levels)
    requires AllOk(s)
  {
    Held(s.l1i) <= Held(s.l2) && Held(s.l1d) <= Held(s.l2)
  }

  /** The same, but for the lines in `except`. */
  ghost predicate InclusiveBut(s: Levels, except: iset<nat>)
    requires AllOk(s)
  {
    Held(s.l1i) <= Held(s.l2) + except && Held(s.l1d) <= Held(s.l2) + except
  }

  /** Access to the second level, with back-invalidation of what it reports. */
  ghost function Second(s: Levels, n: nat, write: bool, x: Choice): (r: Levels)
    requires AllOk(s) && Fits(s.l2, x)
    ensures AllOk(r) && SameBuild(s, r)
  {
    var d := OwnDrops(s.l2, n, write, x);
    s.(l2 := Own(s.l2, n, write, x), l1d := Drop(s.l1d, d), l1i := Drop(s.l1i, d))
  }

  /** Access to the third level, with back-invalidation of all levels above. */
  ghost function Third(s: Levels, n: nat, write: bool, x: Choice): (r: Levels)
    requires AllOk(s) && Fits(s.l3, x)
    ensures AllOk(r) && SameBuild(s, r)
  {
    var d := OwnDrops(s.l3, n, write, x);
    s.(l3 := Own(s.l3, n, write, x), l2 := Drop(s.l2, d), l1d := Drop(s.l1d, d), l1i := Drop(s.l1i, d))
  }

  /** The third level is asked when it exists and the second did not have the line. */
  ghost predicate ReachesThird(s: Levels, n: nat)
    requires AllOk(s)
  {
    s.l3.enabled && n !in Held(s.l2)
  }

  /** `simulate_l1d_miss_latency`, which is also how every access goes on below the first level. */
  ghost function Below(s: Levels, n: nat, write: bool, x2: Choice, x3: Choice): (r: Levels)
    requires AllOk(s) && Fits(s.l2, x2) && Fits(s.l3, x3)
    ensures AllOk(r) && SameBuild(s, r)
  {
    var s2 := Second(s, n, write, x2);
    if ReachesThird(s, n) then Third(s2, n, write, x3) else s2
  }

  datatype Kind = Fetch | Read | Write

  /** A full access, or the part below the first level that a pending miss runs on its own. */
  datatype Event =
    | Full(n: nat, kind: Kind, x1: Choice, x2: Choice, x3: Choice)
    | Miss(n: nat, kind: Kind, x2: Choice, x3: Choice)

  function First(s: Levels, kind: Kind): (l: Level) { if kind == Fetch then s.l1i else s.l1d }

  function WithFirst(s: Levels, kind: Kind, l: Level): (r: Levels) { if kind == Fetch then s.(l1i := l) else s.(l1d := l) }

  ghost predicate Sensible(s: Levels, e: Event) {
    Fits(s.l2, e.x2) && Fits(s.l3, e.x3) && (e.Full? ==> Fits(First(s, e.kind), e.x1))
  }

  /** The first level after its own part of an access. */
  ghost function Taken(s: Levels, e: Event): (l: Level)
    requires AllOk(s) && e.Full? && Sensible(s, e)
    ensures Ok(l)
  {
    Own(First(s, e.kind), e.n, e.kind == Write, e.x1)
  }

  /** `simulate_memory_access` under the inclusive policy. */
  ghost function Step(s: Levels, e: Event): (r: Levels)
    requires AllOk(s) && Sensible(s, e)
    ensures AllOk(r) && SameBuild(s, r)
  {
    if e.Miss? then Below(s, e.n, e.kind == Write, e.x2, e.x3)
    else
      var s1 := WithFirst(s, e.kind, Taken(s, e));
      if e.n in Held(First(s, e.kind)) then s1 else Below(s1, e.n, e.kind == Write, e.x2, e.x3)
  }

  /** Cycles an access costs below the first level, by the first cache that has the line. */
  ghost function Penalty(s: Levels, n: nat, dram: nat): (p: nat)
    requires AllOk(s)
  {
    if n in Held(s.l2) then s.l2.latency
    else if !s.l3.enabled then s.l2.latency + dram
    else if n in Held(s.l3) then s.l2.latency + s.l3.latency
    else s.l2.latency + s.l3.latency + dram
  }

  lemma {:induction false} PenaltyIsBelow(s: Levels, r: Levels, n: nat, dram: nat)
    requires AllOk(s) && AllOk(r) && r.l2 == s.l2 && r.l3 == s.l3
    ensures Penalty(r, n, dram) == Penalty(s, n, dram)
  {
  }

  // ----- What an access costs -----

  /** `p` is what is paid below the first level: every level asked its latency, and memory its own if no cache had the
      line. */
  ghost predicate Paid(s: Levels, n: nat, dram: nat, p: nat)
    requires AllOk(s)
  {
    && (n in Held(s.l2) ==> p == s.l2.latency)
    && (n !in Held(s.l2) && n in Held(s.l3) ==> p == s.l2.latency + s.l3.latency)
    && (n !in Held(s.l2) && n !in Held(s.l3) && s.l3.enabled ==> p == s.l2.latency + s.l3.latency + dram)
    && (n !in Held(s.l2) && n !in Held(s.l3) && !s.l3.enabled ==> p == s.l2.latency + dram)
  }

  lemma {:induction false} PenaltyIsPaid(s: Levels, n: nat, dram: nat)
    requires AllOk(s)
    ensures Paid(s, n, dram, Penalty(s, n, dram))
  {
  }

  /** Memory is waited for exactly when neither the second nor the third level has the line. */
  lemma {:induction false} MemoryIsLast(s: Levels, n: nat)
    requires AllOk(s)
    ensures (forall d: nat, e: nat :: Penalty(s, n, d) == Penalty(s, n, e)) <==> n in Held(s.l2) || n in Held(s.l3)
  {
    PenaltyIsPaid(s, n, 0);
    PenaltyIsPaid(s, n, 1);
    if n in Held(s.l2) || n in Held(s.l3) {
      forall d: nat, e: nat
        ensures Penalty(s, n, d) == Penalty(s, n, e)
      {
        PenaltyIsPaid(s, n, d);
        PenaltyIsPaid(s, n, e);
      }
    } else {
      hide Penalty;
      assert Penalty(s, n, 0) != Penalty(s, n, 1);
    }
  }

  /** A full access costs nothing on a first-level hit. */
  ghost function Cost(s: Levels, n: nat, kind: Kind, dram: nat): (p: nat)
    requires AllOk(s)
  {
    if n in Held(First(s, kind)) then 0 else Penalty(s, n, dram)
  }

  /** Once an access has brought the line in, the next is free while the first level still has it, and no dearer than the
      first one was while the second level has it. */
  lemma {:induction false} AgainIsNoDearer(s: Levels, e: Event, d1: nat, d2: nat)
    requires AllOk(s) && Sensible(s, e) && e.Full?
    ensures var r := Step(s, e);
            && (e.n in Held(First(r, e.kind)) ==> Cost(r, e.n, e.kind, d2) == 0)
            && (e.n !in Held(First(s, e.kind)) && e.n in Held(r.l2) ==> Cost(r, e.n, e.kind, d2) <= Cost(s, e.n, e.kind, d1))
  {
    hide Held;
    hide Ok;
    hide Step;
    var r := Step(s, e);
    assert SameBuild(s, r);
  }

  /** Without prefetches the line asked for is in the first level afterwards: asking again is free. */
  lemma {:induction false} AgainIsFree(s: Levels, e: Event, dram: nat)
    requires AllOk(s) && Sensible(s, e) && e.Full? && First(s, e.kind).enabled
    requires e.x1.prefetches == [] && e.x2.prefetches == [] && e.x3.prefetches == []
    ensures e.n in Held(First(Step(s, e), e.kind)) && Cost(Step(s, e), e.n, e.kind, dram) == 0
  {
    hide Ok;
    hide Own;
    hide OwnDrops;
    hide Drop;
    hide Penalty;
    OwnAlone(First(s, e.kind), e.n, e.kind == Write, e.x1);
    OwnAlone(s.l2, e.n, e.kind == Write, e.x2);
    OwnAlone(s.l3, e.n, e.kind == Write, e.x3);
  }

  /** A miss without prefetches brings the line into every level that was asked. */
  lemma {:induction false} MissFills(s: Levels, n: nat, write: bool, x2: Choice, x3: Choice)
    requires AllOk(s) && Fits(s.l2, x2) && Fits(s.l3, x3) && x2.prefetches == [] && x3.prefetches == []
    ensures n in Held(Below(s, n, write, x2, x3).l2)
    ensures ReachesThird(s, n) ==> n in Held(Below(s, n, write, x2, x3).l3)
    ensures !ReachesThird(s, n) ==> Below(s, n, write, x2, x3).l3 == s.l3
  {
    hide Ok;
    hide Own;
    hide OwnDrops;
    hide Drop;
    OwnAlone(s.l2, n, write, x2);
    OwnAlone(s.l3, n, write, x3);
  }

  // ----- Inclusion -----

  /** If all that the second level lost is reported, a first level cleared of it stays included. */
  lemma {:induction false} NothingEscapes(l1: iset<nat>, before: iset<nat>, after: iset<nat>, except: iset<nat>, n: iset<nat>, lost: iset<nat>)
    requires l1 <= before + except + n && before + n <= after + lost
    ensures l1 - lost <= after + except
  {
  }

  lemma {:induction false} SecondKeeps(s: Levels, n: nat, write: bool, x: Choice, except: iset<nat>)
    requires AllOk(s) && Fits(s.l2, x) && InclusiveBut(s, except + iset{n})
    ensures InclusiveBut(Second(s, n, write, x), except)
  {
    OwnIs(s.l2, n, write, x);
    var d := Set(OwnDrops(s.l2, n, write, x));
    var after := Held(Own(s.l2, n, write, x));
    NothingEscapes(Held(s.l1d), Held(s.l2), after, except, iset{n}, d);
    NothingEscapes(Held(s.l1i), Held(s.l2), after, except, iset{n}, d);
  }

  lemma {:induction false} ThirdKeeps(s: Levels, n: nat, write: bool, x: Choice, except: iset<nat>)
    requires AllOk(s) && Fits(s.l3, x) && InclusiveBut(s, except)
    ensures InclusiveBut(Third(s, n, write, x), except)
  {
  }

  lemma {:induction false} BelowKeeps(s: Levels, n: nat, write: bool, x2: Choice, x3: Choice, except: iset<nat>)
    requires AllOk(s) && Fits(s.l2, x2) && Fits(s.l3, x3) && InclusiveBut(s, except + iset{n})
    ensures InclusiveBut(Below(s, n, write, x2, x3), except)
  {
    hide InclusiveBut;
    SecondKeeps(s, n, write, x2, except);
    if ReachesThird(s, n) {
      assert Second(s, n, write, x2).l3 == s.l3 by { SecondSparesThird(s, n, write, x2); }
      ThirdKeeps(Second(s, n, write, x2), n, write, x3, except);
    }
  }

  lemma {:induction false} SecondSparesThird(s: Levels, n: nat, write: bool, x: Choice)
    requires AllOk(s) && Fits(s.l2, x)
    ensures Second(s, n, write, x).l3 == s.l3
  {
  }

  // ----- Exactly when inclusion survives an access -----

  /** All that the levels below take from the first level. */
  ghost function Lost(s: Levels, e: Event): (r: iset<nat>)
    requires AllOk(s) && Sensible(s, e)
  {
    Set(OwnDrops(s.l2, e.n, e.kind == Write, e.x2))
    + if ReachesThird(s, e.n) then Set(OwnDrops(s.l3, e.n, e.kind == Write, e.x3)) else iset{}
  }

  lemma {:induction false} BelowIs(s: Levels, e: Event)
    requires AllOk(s) && Sensible(s, e)
    ensures var r := Below(s, e.n, e.kind == Write, e.x2, e.x3);
            && Held(r.l1i) == Held(s.l1i) - Lost(s, e) && Held(r.l1d) == Held(s.l1d) - Lost(s, e)
            && Held(r.l2) <= Held(Own(s.l2, e.n, e.kind == Write, e.x2)) <= Held(r.l2) + Lost(s, e)
  {
    hide Own;
    hide OwnDrops;
    hide Drop;
  }

  /** A line of the first level has its copy in the second, or is taken from the first before the access ends. */
  ghost predicate Backed(s: Levels, e: Event, t: nat)
    requires AllOk(s) && e.Full? && Sensible(s, e)
  {
    if e.n in Held(First(s, e.kind)) then t in Held(s.l2)
    else t in Held(Own(s.l2, e.n, e.kind == Write, e.x2)) || t in Lost(s, e)
  }

  /** A line that the first level's own prefetch leaves there alone. */
  ghost predicate Escapes(s: Levels, e: Event, t: nat)
    requires AllOk(s) && Sensible(s, e)
  {
    e.Full? && t in e.x1.prefetches && t in Held(Taken(s, e)) && !Backed(s, e, t)
  }

  lemma {:induction false} HitExact(s: Levels, e: Event)
    requires AllOk(s) && Inclusive(s) && e.Full? && Sensible(s, e) && e.n in Held(First(s, e.kind))
    ensures Inclusive(Step(s, e)) <==> forall t :: !Escapes(s, e, t)
  {
    OwnIs(First(s, e.kind), e.n, e.kind == Write, e.x1);
    assert Held(Taken(s, e)) <= Held(s.l2) + Set(e.x1.prefetches);
    assert forall t :: Escapes(s, e, t) <==> t in e.x1.prefetches && t in Held(Taken(s, e)) && t !in Held(s.l2);
    hide Taken;
  }

  /** Of what a miss leaves in the first level, only its prefetches can be without a copy. */
  lemma {:induction false} OnlyPrefetches(first: iset<nat>, other: iset<nat>, second: iset<nat>, n: nat, pf: iset<nat>,
                                          own1: iset<nat>, own2: iset<nat>, lost: iset<nat>, after: iset<nat>, t: nat)
    requires first <= second && other <= second && own1 <= first + pf + iset{n} && second + iset{n} <= own2 + lost
    requires after <= own2 <= after + lost
    ensures t in pf && t in own1 && !(t in own2 || t in lost) <==> (t in own1 - lost || t in other - lost) && t !in after
  {
  }

  function Other(s: Levels, kind: Kind): (l: Level) { if kind == Fetch then s.l1d else s.l1i }

  lemma {:induction false} MissIs(s: Levels, e: Event)
    requires AllOk(s) && e.Full? && Sensible(s, e) && e.n !in Held(First(s, e.kind))
    ensures var r := Step(s, e);
            && Held(First(r, e.kind)) == Held(Taken(s, e)) - Lost(s, e) && Held(Other(r, e.kind)) == Held(Other(s, e.kind)) - Lost(s, e)
            && Held(r.l2) <= Held(Own(s.l2, e.n, e.kind == Write, e.x2)) <= Held(r.l2) + Lost(s, e)
  {
    var s1 := WithFirst(s, e.kind, Taken(s, e));
    BelowIs(s1, e);
    assert Lost(s1, e) == Lost(s, e);
    hide Lost;
  }

  lemma {:induction false} MissLeaves(s: Levels, e: Event, t: nat)
    requires AllOk(s) && Inclusive(s) && e.Full? && Sensible(s, e) && e.n !in Held(First(s, e.kind))
    ensures var r := Step(s, e);
            Escapes(s, e, t) <==> (t in Held(r.l1i) || t in Held(r.l1d)) && t !in Held(r.l2)
  {
    var lost, own2, r := Lost(s, e), Held(Own(s.l2, e.n, e.kind == Write, e.x2)), Step(s, e);
    MissIs(s, e);
    OwnIs(First(s, e.kind), e.n, e.kind == Write, e.x1);
    OwnIs(s.l2, e.n, e.kind == Write, e.x2);
    assert t in Set(e.x1.prefetches) <==> t in e.x1.prefetches;
    assert Held(s.l2) + iset{e.n} <= own2 + lost;
    hide Step;
    OnlyPrefetches(Held(First(s, e.kind)), Held(Other(s, e.kind)), Held(s.l2), e.n, Set(e.x1.prefetches), Held(Taken(s, e)), own2, lost, Held(r.l2), t);
  }

  /** Whatever the caches hold and whatever policies and prefetchers choose, an access keeps inclusion if and only
      if no line of the first level's own prefetches escapes. */
  lemma {:induction false} StepExact(s: Levels, e: Event)
    requires AllOk(s) && Inclusive(s) && Sensible(s, e)
    ensures Inclusive(Step(s, e)) <==> forall t :: !Escapes(s, e, t)
  {
    if e.Miss? {
      BelowKeeps(s, e.n, e.kind == Write, e.x2, e.x3, iset{});
      hide Below;
    } else if e.n in Held(First(s, e.kind)) {
      HitExact(s, e);
    } else {
      forall t: nat
        ensures var r := Step(s, e); Escapes(s, e, t) <==> (t in Held(r.l1i) || t in Held(r.l1d)) && t !in Held(r.l2)
      {
        MissLeaves(s, e, t);
      }
      hide Escapes;
      hide Step;
      hide Ok;
    }
  }

  /** Without a first-level prefetch nothing escapes. */
  lemma {:induction false} NoPrefetchKeeps(s: Levels, e: Event)
    requires AllOk(s) && Inclusive(s) && Sensible(s, e) && (e.Full? ==> e.x1.prefetches == [])
    ensures Inclusive(Step(s, e))
  {
    StepExact(s, e);
  }

  /** On a hit, one prefetched line keeps inclusion if and only if the second level already has it. */
  lemma {:induction false} OneOnHit(s: Levels, e: Event, t: nat)
    requires AllOk(s) && Inclusive(s) && e.Full? && Sensible(s, e) && e.n in Held(First(s, e.kind)) && e.x1.prefetches == [t]
    ensures Inclusive(Step(s, e)) <==> t in Held(s.l2)
  {
    hide Own;
    StepExact(s, e);
    OwnIs(First(s, e.kind), e.n, e.kind == Write, e.x1);
    assert Escapes(s, e, t) <==> t !in Held(s.l2);
  }

  lemma {:induction false} BackedOnMiss(s: Levels, e: Event, t: nat)
    requires AllOk(s) && e.Full? && Sensible(s, e) && e.n !in Held(First(s, e.kind)) && e.x2.prefetches == []
    ensures Backed(s, e, t) <==>
      t in Held(s.l2) || t == e.n || (ReachesThird(s, e.n) && t in OwnDrops(s.l3, e.n, e.kind == Write, e.x3))
  {
    OwnAlone(s.l2, e.n, e.kind == Write, e.x2);
  }

  /** On a miss without second-level prefetches, it does so if and only if the second level has the line, or it is the
      line asked for, or the third level is asked and gives it up. */
  lemma {:induction false} OneOnMiss(s: Levels, e: Event, t: nat)
    requires AllOk(s) && Inclusive(s) && e.Full? && Sensible(s, e) && e.n !in Held(First(s, e.kind))
    requires e.x1.prefetches == [t] && e.x2.prefetches == []
    ensures Inclusive(Step(s, e)) <==>
      t in Held(s.l2) || t == e.n || (ReachesThird(s, e.n) && t in OwnDrops(s.l3, e.n, e.kind == Write, e.x3))
  {
    hide Backed;
    StepExact(s, e);
    OwnIs(First(s, e.kind), e.n, e.kind == Write, e.x1);
    BackedOnMiss(s, e, t);
    assert Escapes(s, e, t) <==> !Backed(s, e, t);
  }

  // ----- Runs -----

  lemma {:induction false} StaysSensible(s: Levels, r: Levels, e: Event)
    requires SameBuild(s, r) && Sensible(s, e)
    ensures Sensible(r, e)
  {
  }

  ghost predicate Allowed(s: Levels, es: seq<Event>) { AllOk(s) && forall i :: 0 <= i < |es| ==> Sensible(s, es[i]) }

  ghost function Run(s: Levels, es: seq<Event>): (r: Levels)
    requires Allowed(s, es)
    ensures AllOk(r) && SameBuild(s, r)
    decreases |es|
  {
    if es == [] then s
    else
      var before := Run(s, es[..|es| - 1]);
      StaysSensible(s, before, es[|es| - 1]);
      Step(before, es[|es| - 1])
  }

  /** Access `k` of a run lets a line escape. */
  ghost predicate EscapesAt(s: Levels, es: seq<Event>, k: nat)
    requires Allowed(s, es) && k < |es|
  {
    StaysSensible(s, Run(s, es[..k]), es[k]);
    exists t :: Escapes(Run(s, es[..k]), es[k], t)
  }

  ghost predicate InclusiveAt(s: Levels, es: seq<Event>, k: nat)
    requires Allowed(s, es) && k <= |es|
  {
    Inclusive(Run(s, es[..k]))
  }

  lemma {:induction false} NextExact(s: Levels, es: seq<Event>, k: nat)
    requires Allowed(s, es) && k < |es| && InclusiveAt(s, es, k)
    ensures InclusiveAt(s, es, k + 1) <==> !EscapesAt(s, es, k)
  {
    assert es[..k + 1][..k] == es[..k];
    StaysSensible(s, Run(s, es[..k]), es[k]);
    StepExact(Run(s, es[..k]), es[k]);
  }

  lemma {:induction false} InclusiveUpTo(s: Levels, es: seq<Event>, k: nat)
    requires Allowed(s, es) && Inclusive(s) && k <= |es| && forall j :: 0 <= j < k ==> !EscapesAt(s, es, j)
    ensures InclusiveAt(s, es, k)
  {
    if k > 0 {
      InclusiveUpTo(s, es, k - 1);
      NextExact(s, es, k - 1);
    }
  }

  /** A run keeps inclusion after every one of its accesses if and only if none of them lets a line escape. */
  lemma {:induction false} RunExact(s: Levels, es: seq<Event>)
    requires Allowed(s, es) && Inclusive(s)
    ensures (forall k :: 0 <= k <= |es| ==> InclusiveAt(s, es, k)) <==> (forall k :: 0 <= k < |es| ==> !EscapesAt(s, es, k))
  {
    if forall k :: 0 <= k < |es| ==> !EscapesAt(s, es, k) {
      forall k | 0 <= k <= |es|
        ensures InclusiveAt(s, es, k)
      {
        InclusiveUpTo(s, es, k);
      }
    }
    if forall k :: 0 <= k <= |es| ==> InclusiveAt(s, es, k) {
      forall k | 0 <= k < |es|
        ensures !EscapesAt(s, es, k)
      {
        NextExact(s, es, k);
      }
    }
  }

  /** Runs without first-level prefetches keep inclusion. */
  lemma {:induction false} NoPrefetchRun(s: Levels, es: seq<Event>)
    requires Allowed(s, es) && Inclusive(s) && forall i :: 0 <= i < |es| && es[i].Full? ==> es[i].x1.prefetches == []
    ensures Inclusive(Run(s, es))
    decreases |es|
  {
    if es != [] {
      var front := es[..|es| - 1];
      NoPrefetchRun(s, front);
      StaysSensible(s, Run(s, front), es[|es| - 1]);
      NoPrefetchKeeps(Run(s, front), es[|es| - 1]);
    }
  }

  lemma {:induction false} NothingLost(s: Levels, e: Event)
    requires AllOk(s) && Held(s.l2) == Held(s.l3) == iset{} && Sensible(s, e) && e.x2.prefetches == e.x3.prefetches == []
    ensures Lost(s, e) == iset{}
  {
    OwnAlone(s.l2, e.n, e.kind == Write, e.x2);
    OwnAlone(s.l3, e.n, e.kind == Write, e.x3);
  }

  lemma {:induction false} EmptyFills(s: Levels, e: Event)
    requires AllOk(s) && Held(s.l1i) == Held(s.l1d) == Held(s.l2) == Held(s.l3) == iset{}
    requires e.Full? && Sensible(s, e) && First(s, e.kind).enabled
    requires e.x1.prefetches == e.x2.prefetches == e.x3.prefetches == []
    ensures var r := Step(s, e); Held(First(r, e.kind)) == iset{e.n} && Held(r.l2) == iset{e.n}
  {
    hide Step;
    hide Own;
    hide Lost;
    hide Fits;
    MissIs(s, e);
    NothingLost(s, e);
    EmptyTakes(First(s, e.kind), e.n, e.kind == Write, e.x1);
    EmptyTakes(s.l2, e.n, e.kind == Write, e.x2);
  }

  lemma {:induction false} EmptyTakes(l: Level, n: nat, write: bool, x: Choice)
    requires Ok(l) && l.enabled && Held(l) == iset{} && Fits(l, x) && x.prefetches == []
    ensures Held(Own(l, n, write, x)) == iset{n}
  {
    OwnAlone(l, n, write, x);
  }

  /** From empty caches two accesses are enough to lose inclusion: fetch a line, then hit it while the first level
      prefetches any other. */
  lemma {:induction false} TwoAccessesBreak(s: Levels, e: Event, f: Event, t: nat)
    requires AllOk(s) && Held(s.l1i) == Held(s.l1d) == Held(s.l2) == Held(s.l3) == iset{}
    requires e.Full? && f.Full? && Sensible(s, e) && Sensible(s, f) && First(s, e.kind).enabled
    requires e.kind == f.kind && e.n == f.n != t
    requires e.x1.prefetches == e.x2.prefetches == e.x3.prefetches == [] && f.x1.prefetches == [t]
    ensures var r := Step(s, e); Sensible(r, f) && Inclusive(r) && !Inclusive(Step(r, f))
  {
    var r := Step(s, e);
    StaysSensible(s, r, f);
    NoPrefetchKeeps(s, e);
    EmptyFills(s, e);
    OneOnHit(r, f, t);
  }
}
