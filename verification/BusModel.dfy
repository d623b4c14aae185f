/** Devices on the system bus and the hint-free way to find the one behind an address. */
module BusModel {
  import opened Bytes

  /** A device, with the byte writes it has received in order: whatever it does with them, devices with
      equal ranges and equal writes are in equal states. */
  datatype Device = Device(name: string, base: nat, size: nat, written: seq<(nat, u8)>)

  const HTIF := "HTIF"
  const RAM := "DRAM"

  datatype Hit = Hit(index: nat, offset: nat)

  predicate Covers(d: Device, raw: nat) { d.base <= raw < d.base + d.size }

  /** First device called `name`, from position `i` on. */
  function Position(ds: seq<Device>, name: string, i: nat): (r: Option<nat>)
    requires i <= |ds|
    ensures r.Some? ==> i <= r.value < |ds| && ds[r.value].name == name && forall k :: i <= k < r.value ==> ds[k].name != name
    ensures r.None? ==> forall k :: i <= k < |ds| ==> ds[k].name != name
    decreases |ds| - i
  {
    if i == |ds| then None else if ds[i].name == name then Some(i) else Position(ds, name, i + 1)
  }

  /** First device from position `i` on whose range holds `raw`. */
  function Scan(ds: seq<Device>, raw: nat, i: nat): (r: Option<nat>)
    requires i <= |ds|
    ensures r.Some? ==> i <= r.value < |ds| && Covers(ds[r.value], raw) && forall k :: i <= k < r.value ==> !Covers(ds[k], raw)
    ensures r.None? ==> forall k :: i <= k < |ds| ==> !Covers(ds[k], raw)
    decreases |ds| - i
  {
    if i == |ds| then None else if Covers(ds[i], raw) then Some(i) else Scan(ds, raw, i + 1)
  }

  predicate InHtif(ds: seq<Device>, raw: nat) {
    var h := Position(ds, HTIF, 0);
    h.Some? && Covers(ds[h.value], raw)
  }

  /** The device that answers for `raw`: the host interface where it lies, any other device elsewhere. */
  predicate IsOwner(ds: seq<Device>, raw: nat, i: nat) {
    i < |ds| && Covers(ds[i], raw) && (InHtif(ds, raw) ==> Position(ds, HTIF, 0) == Some(i))
  }

  /** The lookup without any memory of earlier accesses. */
  function Lookup(ds: seq<Device>, raw: nat): (r: Option<nat>)
    ensures r.Some? ==> IsOwner(ds, raw, r.value)
    ensures r.None? ==> forall k :: 0 <= k < |ds| ==> !Covers(ds[k], raw)
  {
    if InHtif(ds, raw) then Position(ds, HTIF, 0) else Scan(ds, raw, 0)
  }

  /** `find_device`: host interface, then the device used last, then RAM, then the scan. */
  function Find(ds: seq<Device>, last: nat, raw: nat): (r: Option<nat>)
    ensures r.Some? ==> IsOwner(ds, raw, r.value)
    ensures r.None? ==> forall k :: 0 <= k < |ds| ==> !Covers(ds[k], raw)
  {
    var ram := Position(ds, RAM, 0);
    if InHtif(ds, raw) then Position(ds, HTIF, 0)
    else if last < |ds| && Covers(ds[last], raw) then Some(last)
    else if ram.Some? && Covers(ds[ram.value], raw) then ram
    else Scan(ds, raw, 0)
  }

  // ----- When the shortcuts do no harm -----

  function Max(x: nat, y: nat): (r: nat) { if x > y then x else y }

  function Min(x: nat, y: nat): (r: nat) { if x < y then x else y }

  /** The addresses two devices share are none, or all in the range of the host interface. */
  predicate Apart(ds: seq<Device>, d: Device, e: Device) {
    var lo, hi := Max(d.base, e.base), Min(d.base + d.size, e.base + e.size);
    var h := Position(ds, HTIF, 0);
    hi <= lo || (h.Some? && ds[h.value].base <= lo && hi <= ds[h.value].base + ds[h.value].size)
  }

  ghost predicate Settled(ds: seq<Device>) { forall i, j :: 0 <= i < j < |ds| ==> Apart(ds, ds[i], ds[j]) }

  /** Two devices that are apart share no address outside the host interface. */
  lemma {:induction false} ApartShareNothing(ds: seq<Device>, d: Device, e: Device, raw: nat)
    requires Apart(ds, d, e) && Covers(d, raw) && Covers(e, raw)
    ensures InHtif(ds, raw)
  {
  }

  /** Two devices that are not apart share the first or the last of their common addresses outside it. */
  lemma {:induction false} SharedAddress(ds: seq<Device>, d: Device, e: Device) returns (raw: nat)
    requires !Apart(ds, d, e)
    ensures Covers(d, raw) && Covers(e, raw) && !InHtif(ds, raw)
  {
    var lo, hi := Max(d.base, e.base), Min(d.base + d.size, e.base + e.size);
    raw := if InHtif(ds, lo) then hi - 1 else lo;
  }

  lemma {:induction false} OwnerIsUnique(ds: seq<Device>, raw: nat, i: nat, j: nat)
    requires Settled(ds) && IsOwner(ds, raw, i) && IsOwner(ds, raw, j)
    ensures i == j
  {
    hide Covers;
    if i < j {
      ApartShareNothing(ds, ds[i], ds[j], raw);
    } else if j < i {
      ApartShareNothing(ds, ds[j], ds[i], raw);
    }
  }

  /** Whatever device a shortcut offers, if it covers the address and the host interface does not, it is
      the one the full lookup finds. */
  lemma {:induction false} ShortcutIsLookup(ds: seq<Device>, raw: nat, i: nat)
    requires Settled(ds) && IsOwner(ds, raw, i)
    ensures Lookup(ds, raw) == Some(i)
  {
    if Lookup(ds, raw).Some? {
      OwnerIsUnique(ds, raw, i, Lookup(ds, raw).value);
    }
  }

  /** The device used last is found again wherever it covers the address outside the host interface. */
  lemma {:induction false} HintWins(ds: seq<Device>, last: nat, raw: nat)
    requires last < |ds| && Covers(ds[last], raw) && !InHtif(ds, raw)
    ensures Find(ds, last, raw) == Some(last)
  {
  }

  /** `find_device` gives the answer of the hint-free lookup for every address and whatever the hint, if and only
      if every two devices are apart. */
  lemma {:induction false} HintsAreHarmless(ds: seq<Device>)
    ensures (forall last: nat, raw: nat :: Find(ds, last, raw) == Lookup(ds, raw)) <==> Settled(ds)
  {
    if Settled(ds) {
      forall last: nat, raw: nat
        ensures Find(ds, last, raw) == Lookup(ds, raw)
      {
        FindIsLookup(ds, last, raw);
      }
    } else {
      var i, j :| 0 <= i < j < |ds| && !Apart(ds, ds[i], ds[j]);
      var raw := SharedAddress(ds, ds[i], ds[j]);
      HintWins(ds, i, raw);
      HintWins(ds, j, raw);
      assert Find(ds, i, raw) != Find(ds, j, raw);
    }
  }

  lemma {:induction false} FindIsLookup(ds: seq<Device>, last: nat, raw: nat)
    requires Settled(ds)
    ensures Find(ds, last, raw) == Lookup(ds, raw)
  {
    if Find(ds, last, raw).Some? {
      ShortcutIsLookup(ds, raw, Find(ds, last, raw).value);
    }
  }

  // ----- When no history of accesses does harm -----

  /** The hint after one access. */
  function NextHint(ds: seq<Device>, last: nat, raw: nat): (r: nat) {
    var found := Find(ds, last, raw);
    if found.Some? then found.value else last
  }

  function HintAfter(ds: seq<Device>, last: nat, raws: seq<nat>): (r: nat)
    decreases |raws|
  {
    if raws == [] then last else HintAfter(ds, NextHint(ds, last, raws[0]), raws[1..])
  }

  /** A hint that accesses can leave behind: the one set by a registration, or a device that answers somewhere. */
  ghost predicate Reached(ds: seq<Device>, h: nat) { h == 0 || exists raw :: Lookup(ds, raw) == Some(h) }

  /** The device answers nowhere: earlier devices and the host interface hide it. */
  ghost predicate Idle(ds: seq<Device>, i: nat) { forall raw :: Lookup(ds, raw) != Some(i) }

  ghost predicate ApartFromEarlier(ds: seq<Device>, i: nat)
    requires i < |ds|
  {
    forall j :: 0 <= j < i ==> Apart(ds, ds[j], ds[i])
  }

  /** Every device that shares addresses with an earlier one is hidden altogether; and if RAM does, which has its own
      shortcut, then only the first device answers anywhere. */
  ghost predicate Steady(ds: seq<Device>) {
    && (forall i :: 0 <= i < |ds| ==> ApartFromEarlier(ds, i) || Idle(ds, i))
    && (var ram := Position(ds, RAM, 0); ram.Some? && !ApartFromEarlier(ds, ram.value) ==> forall i :: 0 < i < |ds| ==> Idle(ds, i))
  }

  lemma {:induction false} SettledIsSteady(ds: seq<Device>)
    requires Settled(ds)
    ensures Steady(ds)
  {
  }

  /** Outside the host interface the lookup takes the first device that covers the address. */
  lemma {:induction false} LookupIsFirst(ds: seq<Device>, raw: nat, i: nat)
    requires i < |ds| && Covers(ds[i], raw) && !InHtif(ds, raw)
    ensures Lookup(ds, raw).Some? && Lookup(ds, raw).value <= i
  {
  }

  /** A device that shares an address with an earlier one outside the host interface is not apart from it. */
  lemma {:induction false} SharingIsNotApart(ds: seq<Device>, j: nat, i: nat, raw: nat)
    requires j < i < |ds| && Covers(ds[j], raw) && Covers(ds[i], raw) && !InHtif(ds, raw)
    ensures !ApartFromEarlier(ds, i)
  {
    if Apart(ds, ds[j], ds[i]) {
      ApartShareNothing(ds, ds[j], ds[i], raw);
    }
  }

  /** A device that a hint can name answers for all its addresses outside the host interface. */
  lemma {:induction false} ReachedOwns(ds: seq<Device>, h: nat, raw: nat)
    requires Steady(ds) && Reached(ds, h) && h < |ds| && Covers(ds[h], raw) && !InHtif(ds, raw)
    ensures Lookup(ds, raw) == Some(h)
  {
    hide ApartFromEarlier;
    LookupIsFirst(ds, raw, h);
    var k := Lookup(ds, raw).value;
    if k < h {
      SharingIsNotApart(ds, k, h, raw);
    }
  }

  /** From a hint that can be reached, `find_device` is the lookup. */
  lemma {:induction false} FindFromReached(ds: seq<Device>, h: nat, raw: nat)
    requires Steady(ds) && Reached(ds, h)
    ensures Find(ds, h, raw) == Lookup(ds, raw) && Reached(ds, NextHint(ds, h, raw))
  {
    var ram := Position(ds, RAM, 0);
    if !InHtif(ds, raw) {
      if h < |ds| && Covers(ds[h], raw) {
        ReachedOwns(ds, h, raw);
      } else if ram.Some? && Covers(ds[ram.value], raw) {
        RamIsLookup(ds, h, raw);
      }
    }
  }

  lemma {:induction false} ReachedIsNotIdle(ds: seq<Device>, h: nat)
    requires Reached(ds, h)
    ensures h == 0 || (h < |ds| && !Idle(ds, h))
  {
  }

  lemma {:induction false} RamIsLookup(ds: seq<Device>, h: nat, raw: nat)
    requires Steady(ds) && Reached(ds, h) && !InHtif(ds, raw) && !(h < |ds| && Covers(ds[h], raw))
    requires Position(ds, RAM, 0).Some? && Covers(ds[Position(ds, RAM, 0).value], raw)
    ensures Lookup(ds, raw) == Position(ds, RAM, 0)
  {
    var m := Position(ds, RAM, 0).value;
    LookupIsFirst(ds, raw, m);
    var k := Lookup(ds, raw).value;
    if k < m {
      SharingIsNotApart(ds, k, m, raw);
      ReachedIsNotIdle(ds, k);
      ReachedIsNotIdle(ds, h);
    }
  }

  lemma {:induction false} HistoryIsReached(ds: seq<Device>, last: nat, raws: seq<nat>)
    requires Steady(ds) && Reached(ds, last)
    ensures Reached(ds, HintAfter(ds, last, raws))
    decreases |raws|
  {
    if raws != [] {
      FindFromReached(ds, last, raws[0]);
      HistoryIsReached(ds, NextHint(ds, last, raws[0]), raws[1..]);
    }
  }

  /** After every history of accesses the answer is that of the lookup. */
  ghost predicate Harmless(ds: seq<Device>) {
    forall raws: seq<nat>, raw: nat :: Find(ds, HintAfter(ds, 0, raws), raw) == Lookup(ds, raw)
  }

  /** If histories do no harm, neither does any hint that one of them leaves. */
  lemma {:induction false} HarmlessFrom(ds: seq<Device>, h: nat, raw: nat)
    requires Harmless(ds) && Reached(ds, h)
    ensures Find(ds, h, raw) == Lookup(ds, raw)
  {
    if h == 0 {
      assert HintAfter(ds, 0, []) == 0;
    } else {
      var at :| Lookup(ds, at) == Some(h);
      assert Find(ds, HintAfter(ds, 0, []), at) == Some(h);
      assert HintAfter(ds, 0, [at]) == HintAfter(ds, h, [at][1..]) == h;
    }
  }

  lemma {:induction false} HarmlessHidesOrParts(ds: seq<Device>, i: nat)
    requires Harmless(ds) && i < |ds|
    ensures ApartFromEarlier(ds, i) || Idle(ds, i)
  {
    if !ApartFromEarlier(ds, i) && !Idle(ds, i) {
      var j :| 0 <= j < i && !Apart(ds, ds[j], ds[i]);
      var raw := SharedAddress(ds, ds[j], ds[i]);
      HarmlessFrom(ds, i, raw);
      HintWins(ds, i, raw);
      LookupIsFirst(ds, raw, j);
    }
  }

  lemma {:induction false} HarmlessRam(ds: seq<Device>, i: nat)
    requires Harmless(ds) && Position(ds, RAM, 0).Some? && !ApartFromEarlier(ds, Position(ds, RAM, 0).value) && 0 < i
    ensures Idle(ds, i)
  {
    hide Harmless;
    hide Apart;
    if !Idle(ds, i) {
      var m := Position(ds, RAM, 0).value;
      var j :| 0 <= j < m && !Apart(ds, ds[j], ds[m]);
      var raw := SharedAddress(ds, ds[j], ds[m]);
      LookupIsFirst(ds, raw, j);
      HarmlessFrom(ds, 0, raw);
      HarmlessFrom(ds, i, raw);
    }
  }

  /** `find_device` gives the answer of the hint-free lookup after every history of accesses, if and only if every
      device that shares addresses with an earlier one is hidden, and RAM only if all but the first are. */
  lemma {:induction false} HistoriesAreHarmless(ds: seq<Device>)
    ensures Harmless(ds) <==> Steady(ds)
  {
    if Steady(ds) {
      forall raws: seq<nat>, raw: nat
        ensures Find(ds, HintAfter(ds, 0, raws), raw) == Lookup(ds, raw)
      {
        HistoryIsReached(ds, 0, raws);
        FindFromReached(ds, HintAfter(ds, 0, raws), raw);
      }
    }
    if Harmless(ds) {
      hide Idle;
      forall i | 0 <= i < |ds|
        ensures ApartFromEarlier(ds, i) || Idle(ds, i)
      {
        HarmlessHidesOrParts(ds, i);
      }
      if Position(ds, RAM, 0).Some? && !ApartFromEarlier(ds, Position(ds, RAM, 0).value) {
        forall i | 0 < i < |ds|
          ensures Idle(ds, i)
        {
          HarmlessRam(ds, i);
        }
      }
    }
  }

  /** Two devices that share the address `raw`, of which the second also has `at` to itself: before and after an access
      to `at` different devices answer for `raw`. */
  lemma {:induction false} OverlapBreaksShortcut(d: Device, e: Device, raw: nat, at: nat)
    requires d.name != HTIF && e.name != HTIF && Covers(d, raw) && Covers(e, raw) && Covers(e, at) && !Covers(d, at)
    ensures Find([d, e], HintAfter([d, e], 0, []), raw) == Some(0) && Find([d, e], HintAfter([d, e], 0, [at]), raw) == Some(1)
    ensures !Harmless([d, e])
  {
    var ds := [d, e];
    assert Position(ds, HTIF, 0) == None;
    HintWins(ds, 0, raw);
    HintWins(ds, 1, raw);
    assert Find(ds, 0, at) == Some(1);
    assert HintAfter(ds, 0, [at]) == HintAfter(ds, 1, [at][1..]) == 1;
    assert Lookup(ds, raw) == Some(0);
  }

  /** An overlap alone does no harm: a device inside an earlier one is never a hint. */
  lemma {:induction false} InnerIsHarmless(d: Device, e: Device)
    requires d.name != HTIF && e.name != HTIF && d.base <= e.base && e.base + e.size <= d.base + d.size
    ensures Harmless([d, e]) && (e.size > 0 ==> !Settled([d, e]))
  {
    var ds := [d, e];
    assert Position(ds, HTIF, 0) == None;
    forall raw
      ensures Lookup(ds, raw) != Some(1)
    {
    }
    assert Idle(ds, 1) && ApartFromEarlier(ds, 0);
    HistoriesAreHarmless(ds);
    assert e.size > 0 ==> !Apart(ds, ds[0], ds[1]);
  }

  // ----- A layout rule that is enough -----

  /** Two devices overlap only if one of them is the host interface. */
  predicate Compatible(d: Device, e: Device) {
    d.base + d.size <= e.base || e.base + e.size <= d.base || d.name == HTIF || e.name == HTIF
  }

  /** There is one host interface at most; it may lie over others, and no other two devices overlap. */
  ghost predicate Layout(ds: seq<Device>) {
    && (forall i, j :: 0 <= i < j < |ds| ==> Compatible(ds[i], ds[j]))
    && (forall i, j :: 0 <= i < j < |ds| ==> ds[i].name != HTIF || ds[j].name != HTIF)
  }

  lemma {:induction false} LayoutIsSettled(ds: seq<Device>)
    requires Layout(ds)
    ensures Settled(ds)
  {
    forall i, j | 0 <= i < j < |ds|
      ensures Apart(ds, ds[i], ds[j])
    {
      assert Compatible(ds[i], ds[j]);
      var h := Position(ds, HTIF, 0);
      if ds[i].name == HTIF {
        assert h == Some(i);
      } else if ds[j].name == HTIF {
        assert h == Some(j);
      }
    }
  }

  // ----- Registration -----

  /** Stable insertion by base address. */
  function Insert(ds: seq<Device>, d: Device): (r: seq<Device>) {
    if ds == [] || ds[|ds| - 1].base <= d.base then ds + [d]
    else Insert(ds[..|ds| - 1], d) + [ds[|ds| - 1]]
  }

  /** Stable sort by base address. */
  function SortByBase(ds: seq<Device>): (r: seq<Device>)
    decreases |ds|
  {
    if ds == [] then [] else Insert(SortByBase(ds[..|ds| - 1]), ds[|ds| - 1])
  }

  ghost predicate Sorted(ds: seq<Device>) { forall i, j :: 0 <= i < j < |ds| ==> ds[i].base <= ds[j].base }

  lemma {:induction false} InsertPlaces(ds: seq<Device>, d: Device) returns (p: nat)
    ensures p <= |ds| && Insert(ds, d) == ds[..p] + [d] + ds[p..]
    ensures p < |ds| ==> d.base < ds[p].base
    ensures p > 0 ==> ds[p - 1].base <= d.base
    decreases |ds|
  {
    if ds == [] || ds[|ds| - 1].base <= d.base {
      p := |ds|;
    } else {
      var front := ds[..|ds| - 1];
      p := InsertPlaces(front, d);
      assert front[..p] == ds[..p] && ds[p..] == front[p..] + [ds[|ds| - 1]];
    }
  }

  lemma {:induction false} InsertSorts(ds: seq<Device>, d: Device)
    requires Sorted(ds)
    ensures Sorted(Insert(ds, d))
  {
    var p := InsertPlaces(ds, d);
  }

  lemma {:induction false} SortedIsKept(ds: seq<Device>)
    requires Sorted(ds)
    ensures SortByBase(ds) == ds
    decreases |ds|
  {
    if ds != [] {
      SortedIsKept(ds[..|ds| - 1]);
      var front, d := ds[..|ds| - 1], ds[|ds| - 1];
      assert front == [] || front[|front| - 1].base <= d.base;
    }
  }

  /** Registering one more device on a sorted bus only moves the later ones up by one place. */
  lemma {:induction false} SortAfterPush(ds: seq<Device>, d: Device)
    requires Sorted(ds)
    ensures SortByBase(ds + [d]) == Insert(ds, d) && Sorted(SortByBase(ds + [d]))
  {
    assert (ds + [d])[..|ds|] == ds;
    SortedIsKept(ds);
    InsertSorts(ds, d);
  }

  /** The new device stands behind those with a lower or equal base and before those with a higher one; the others keep
      their order. */
  ghost predicate PlacedAt(ds: seq<Device>, after: seq<Device>, d: Device, p: nat) {
    && p <= |ds| && after == ds[..p] + [d] + ds[p..]
    && (forall k :: 0 <= k < p ==> ds[k].base <= d.base) && (forall k :: p <= k < |ds| ==> d.base < ds[k].base)
  }

  lemma {:induction false} InsertIsPlaced(ds: seq<Device>, d: Device)
    requires Sorted(ds)
    ensures exists p: nat :: PlacedAt(ds, Insert(ds, d), d, p)
  {
    var p := InsertPlaces(ds, d);
    hide Insert;
    assert forall k :: 0 <= k < p ==> ds[k].base <= ds[p - 1].base;
    assert forall k :: p <= k < |ds| ==> ds[p].base <= ds[k].base;
    assert PlacedAt(ds, Insert(ds, d), d, p);
  }

  lemma {:induction false} InsertKeepsLayout(ds: seq<Device>, d: Device)
    requires Layout(ds + [d])
    ensures Layout(Insert(ds, d))
  {
    hide Compatible;
    var p := InsertPlaces(ds, d);
    var all, r := ds + [d], Insert(ds, d);
    forall k | 0 <= k < |r|
      ensures r[k] == all[Came(k, p, |ds|)]
    {
      assert k > p ==> r[k] == ds[p..][k - p - 1];
    }
    forall i, j | 0 <= i < j < |r|
      ensures Compatible(r[i], r[j]) && (r[i].name != HTIF || r[j].name != HTIF)
    {
      PairFits(all, Came(i, p, |ds|), Came(j, p, |ds|));
    }
  }

  /** Where the device at position `k` was before one of the last place moved to `p`. */
  function Came(k: nat, p: nat, last: nat): (r: nat)
    requires p <= last && k <= last
    ensures r <= last
  {
    if k < p then k else if k == p then last else k - 1
  }

  /** A device that fits the layout rule can be registered. */
  lemma {:induction false} InsertSettles(ds: seq<Device>, d: Device)
    requires Layout(ds + [d])
    ensures Settled(Insert(ds, d)) && Steady(Insert(ds, d))
  {
    hide Layout;
    InsertKeepsLayout(ds, d);
    LayoutIsSettled(Insert(ds, d));
    SettledIsSteady(Insert(ds, d));
  }

  lemma {:induction false} PairFits(ds: seq<Device>, a: nat, b: nat)
    requires Layout(ds) && a < |ds| && b < |ds| && a != b
    ensures Compatible(ds[a], ds[b]) && (ds[a].name != HTIF || ds[b].name != HTIF)
  {
    CompatibleBothWays(ds[a], ds[b]);
    var lo, hi := if a < b then a else b, if a < b then b else a;
    assert Compatible(ds[lo], ds[hi]);
  }

  lemma {:induction false} CompatibleBothWays(d: Device, e: Device)
    ensures Compatible(d, e) <==> Compatible(e, d)
  {
  }

  // ----- Writes -----

  function Append(d: Device, offset: nat, data: seq<u8>): (r: Device)
    decreases |data|
  {
    if data == [] then d else Append(d.(written := d.written + [(offset, data[0])]), offset + 1, data[1..])
  }

  function Stamped(offset: nat, data: seq<u8>): (r: seq<(nat, u8)>) {
    seq(|data|, k requires 0 <= k < |data| => (offset + k, data[k]))
  }

  /** The bytes arrive in order, at consecutive offsets, and nothing else of the device changes. */
  lemma {:induction false} AppendIs(d: Device, offset: nat, data: seq<u8>)
    ensures Append(d, offset, data) == d.(written := d.written + Stamped(offset, data))
    decreases |data|
  {
    if data == [] {
      assert d.written + [] == d.written;
    } else {
      var d' := d.(written := d.written + [(offset, data[0])]);
      AppendIs(d', offset + 1, data[1..]);
      var more, rest := Stamped(offset, data), Stamped(offset + 1, data[1..]);
      assert more == [(offset, data[0])] + rest;
      assert d'.written + rest == d.written + more;
    }
  }

  /** Device `i` has received the byte `v` for the bus address `raw`; the other devices have received nothing. */
  ghost predicate Received(ds: seq<Device>, after: seq<Device>, i: nat, raw: nat, v: u8) {
    && i < |ds| && Covers(ds[i], raw)
    && after == ds[i := ds[i].(written := ds[i].written + [(raw - ds[i].base, v)])]
  }

  function WriteByte(ds: seq<Device>, raw: nat, v: u8): (r: seq<Device>) {
    match Lookup(ds, raw)
    case None => ds
    case Some(i) => ds[i := Append(ds[i], raw - ds[i].base, [v])]
  }

  /** The bytes one after another through the bus. */
  function WriteBytes(ds: seq<Device>, raw: nat, data: seq<u8>): (r: seq<Device>)
    decreases |data|
  {
    if data == [] then ds else WriteBytes(WriteByte(ds, raw, data[0]), raw + 1, data[1..])
  }

  /** The devices' names and ranges. */
  ghost predicate SameMap(ds: seq<Device>, es: seq<Device>) {
    |ds| == |es| && forall i :: 0 <= i < |ds| ==> ds[i].name == es[i].name && ds[i].base == es[i].base && ds[i].size == es[i].size
  }

  lemma {:induction false} PositionSameMap(ds: seq<Device>, es: seq<Device>, name: string, i: nat)
    requires SameMap(ds, es) && i <= |ds|
    ensures Position(ds, name, i) == Position(es, name, i)
    decreases |ds| - i
  {
    if i < |ds| {
      PositionSameMap(ds, es, name, i + 1);
    }
  }

  lemma {:induction false} ScanSameMap(ds: seq<Device>, es: seq<Device>, raw: nat, i: nat)
    requires SameMap(ds, es) && i <= |ds|
    ensures Scan(ds, raw, i) == Scan(es, raw, i)
    decreases |ds| - i
  {
    if i < |ds| {
      ScanSameMap(ds, es, raw, i + 1);
    }
  }

  lemma {:induction false} LookupSameMap(ds: seq<Device>, es: seq<Device>, raw: nat)
    requires SameMap(ds, es)
    ensures Lookup(ds, raw) == Lookup(es, raw) && InHtif(ds, raw) == InHtif(es, raw)
  {
    PositionSameMap(ds, es, "HTIF", 0);
    ScanSameMap(ds, es, raw, 0);
  }

  lemma {:induction false} AppendKeepsMap(d: Device, offset: nat, data: seq<u8>)
    ensures var r := Append(d, offset, data);
            r.name == d.name && r.base == d.base && r.size == d.size && |r.written| == |d.written| + |data|
    decreases |data|
  {
    if data != [] {
      AppendKeepsMap(d.(written := d.written + [(offset, data[0])]), offset + 1, data[1..]);
    }
  }

  lemma {:induction false} ByteKeepsMap(ds: seq<Device>, raw: nat, v: u8)
    ensures SameMap(ds, WriteByte(ds, raw, v))
    ensures forall i :: 0 <= i < |ds| ==>
      |WriteByte(ds, raw, v)[i].written| == |ds[i].written| + if Lookup(ds, raw) == Some(i) then 1 else 0
  {
    match Lookup(ds, raw)
    case None =>
    case Some(i) => AppendKeepsMap(ds[i], raw - ds[i].base, [v]);
  }

  /** As long as one device answers, byte after byte is one write of that device. */
  lemma {:induction false} BytesInOneDevice(ds: seq<Device>, raw: nat, data: seq<u8>, i: nat)
    requires i < |ds| && ds[i].base <= raw
    requires forall k :: raw <= k < raw + |data| ==> Lookup(ds, k) == Some(i)
    ensures WriteBytes(ds, raw, data) == ds[i := Append(ds[i], raw - ds[i].base, data)]
    decreases |data|
  {
    if data == [] {
      assert ds[i := ds[i]] == ds;
    } else {
      var off := raw - ds[i].base;
      assert Lookup(ds, raw) == Some(i);
      ByteKeepsMap(ds, raw, data[0]);
      var ds' := WriteByte(ds, raw, data[0]);
      forall k | raw + 1 <= k < raw + 1 + |data[1..]|
        ensures Lookup(ds', k) == Some(i)
      {
        LookupSameMap(ds, ds', k);
      }
      BytesInOneDevice(ds', raw + 1, data[1..], i);
      OneByte(ds[i], off, data[0]);
    }
  }

  lemma {:induction false} OneByte(d: Device, offset: nat, v: u8)
    ensures Append(d, offset, [v]) == d.(written := d.written + [(offset, v)])
  {
  }

  /** A byte that another device answers for reaches that device. */
  lemma {:induction false} BytesReach(ds: seq<Device>, raw: nat, data: seq<u8>, k: nat, h: nat)
    requires h < |ds|
    ensures |WriteBytes(ds, raw, data)| == |ds| && |WriteBytes(ds, raw, data)[h].written| >= |ds[h].written|
    ensures k < |data| && Lookup(ds, raw + k) == Some(h) ==> |WriteBytes(ds, raw, data)[h].written| > |ds[h].written|
    decreases |data|
  {
    hide Lookup;
    if data != [] {
      var ds' := WriteByte(ds, raw, data[0]);
      ByteKeepsMap(ds, raw, data[0]);
      if k == 0 {
        BytesReach(ds', raw + 1, data[1..], 0, h);
      } else {
        LookupSameMap(ds, ds', raw + k);
        BytesReach(ds', raw + 1, data[1..], k - 1, h);
      }
    }
  }

  /** `load_binary_at`: one write if the whole blob fits the device found for its first byte. */
  function LoadBinary(ds: seq<Device>, raw: nat, data: seq<u8>): (r: seq<Device>) {
    match Lookup(ds, raw)
    case None => WriteBytes(ds, raw, data)
    case Some(i) =>
      var offset := raw - ds[i].base;
      if offset + |data| <= ds[i].size then ds[i := Append(ds[i], offset, data)] else WriteBytes(ds, raw, data)
  }

  /** The blob starts in another device, fits it, and runs into the host interface. */
  predicate Crosses(ds: seq<Device>, raw: nat, n: nat) {
    && !InHtif(ds, raw) && Lookup(ds, raw).Some?
    && (var d := ds[Lookup(ds, raw).value]; raw - d.base + n <= d.size)
    && exists k :: raw <= k < raw + n && InHtif(ds, k)
  }

  /** Loading a blob is writing its bytes one by one, for every blob and address, exactly when it does not
      run into the host interface from outside. */
  lemma {:induction false} LoadIsBytewise(ds: seq<Device>, raw: nat, data: seq<u8>)
    requires Steady(ds)
    ensures LoadBinary(ds, raw, data) == WriteBytes(ds, raw, data) <==> !Crosses(ds, raw, |data|)
  {
    if Lookup(ds, raw).Some? {
      var i := Lookup(ds, raw).value;
      if raw - ds[i].base + |data| <= ds[i].size {
        if Crosses(ds, raw, |data|) {
          var k :| raw <= k < raw + |data| && InHtif(ds, k);
          var h := Position(ds, HTIF, 0).value;
          BytesReach(ds, raw, data, k - raw, h);
          assert Lookup(ds, k) == Some(h) && h != i;
          assert LoadBinary(ds, raw, data)[h] == ds[h];
        } else {
          forall k | raw <= k < raw + |data|
            ensures Lookup(ds, k) == Some(i)
          {
            if !InHtif(ds, k) {
              ReachedOwns(ds, i, k);
            }
          }
          BytesInOneDevice(ds, raw, data, i);
        }
      }
    }
  }
}
