/** The bus with its shortcuts: the last device used, and the positions of RAM and host interface. */
module SystemBus {
  import opened Bytes
  import opened BusModel

  class Bus {
    var devices: seq<Device>
    var lastDeviceIdx: nat
    var ramIdx: Option<nat>
    var htifIdx: Option<nat>

    /** The stored positions are right. */
    ghost predicate Indexed()
      reads this
    {
      ramIdx == Position(devices, RAM, 0) && htifIdx == Position(devices, HTIF, 0)
    }

    /** The layout is one on which no history does harm, and the hint is one that accesses can leave. */
    ghost predicate Valid()
      reads this
    {
      Indexed() && Steady(devices) && Sorted(devices) && Reached(devices, lastDeviceIdx)
    }

    constructor ()
      ensures Valid() && devices == []
    {
      devices, lastDeviceIdx, ramIdx, htifIdx := [], 0, None, None;
    }

    method AddDevice(dev: Device)
      requires Valid() && Steady(Insert(devices, dev))
      modifies this
      ensures Valid() && devices == Insert(old(devices), dev)
      ensures exists p: nat :: PlacedAt(old(devices), devices, dev, p)
    {
      hide PlacedAt;
      InsertIsPlaced(devices, dev);
      hide Insert;
      hide SortByBase;
      hide HTIF;
      hide RAM;
      SortAfterPush(devices, dev);
      devices := SortByBase(devices + [dev]);
      ramIdx := Position(devices, RAM, 0);
      htifIdx := Position(devices, HTIF, 0);
      lastDeviceIdx := 0;
    }

    method IsValidAddress(raw: nat) returns (valid: bool)
      requires Indexed()
      ensures valid <==> Lookup(devices, raw).Some?
      ensures valid <==> exists i :: 0 <= i < |devices| && Covers(devices[i], raw)
    {
      if ramIdx.Some? {
        var d := devices[ramIdx.value];
        if raw >= d.base && raw < d.base + d.size {
          assert Covers(devices[ramIdx.value], raw);
          return true;
        }
      }
      for i := 0 to |devices|
        invariant forall k :: 0 <= k < i ==> !Covers(devices[k], raw)
      {
        var d := devices[i];
        if raw >= d.base && raw < d.base + d.size {
          assert Covers(devices[i], raw);
          return true;
        }
      }
      return false;
    }

    /** `find_device`: on the layouts on which no history does harm, the answer of the hint-free lookup. */
    method FindDevice(raw: nat) returns (r: Option<Hit>)
      requires Indexed()
      modifies this`lastDeviceIdx
      ensures r == HitOf(devices, raw, Find(devices, old(lastDeviceIdx), raw))
      ensures lastDeviceIdx == NextHint(devices, old(lastDeviceIdx), raw)
      ensures Settled(devices) || (Steady(devices) && Reached(devices, old(lastDeviceIdx))) ==>
                r == HitOf(devices, raw, Lookup(devices, raw))
      ensures Steady(devices) && Reached(devices, old(lastDeviceIdx)) ==> Reached(devices, lastDeviceIdx)
      ensures r.Some? ==> IsOwner(devices, raw, r.value.index) && r.value.offset == raw - devices[r.value.index].base
      ensures r.None? ==> forall k :: 0 <= k < |devices| ==> !Covers(devices[k], raw)
    {
      hide Settled;
      hide Reached;
      hide Find;
      hide NextHint;
      if Settled(devices) {
        FindIsLookup(devices, lastDeviceIdx, raw);
      }
      if Steady(devices) && Reached(devices, lastDeviceIdx) {
        FindFromReached(devices, lastDeviceIdx, raw);
      }
      r := SearchDevices(raw);
    }

    /** The four branches. */
    method SearchDevices(raw: nat) returns (r: Option<Hit>)
      requires Indexed()
      modifies this`lastDeviceIdx
      ensures r == HitOf(devices, raw, Find(devices, old(lastDeviceIdx), raw))
      ensures lastDeviceIdx == NextHint(devices, old(lastDeviceIdx), raw)
    {
      if htifIdx.Some? {
        var d := devices[htifIdx.value];
        if raw >= d.base && raw < d.base + d.size {
          lastDeviceIdx := htifIdx.value;
          return Some(Hit(htifIdx.value, raw - d.base));
        }
      }
      assert !InHtif(devices, raw);
      if lastDeviceIdx < |devices| {
        var d := devices[lastDeviceIdx];
        if raw >= d.base && raw < d.base + d.size {
          return Some(Hit(lastDeviceIdx, raw - d.base));
        }
      }
      if ramIdx.Some? {
        var d := devices[ramIdx.value];
        if raw >= d.base && raw < d.base + d.size {
          lastDeviceIdx := ramIdx.value;
          return Some(Hit(ramIdx.value, raw - d.base));
        }
      }
      for i := 0 to |devices|
        invariant forall k :: 0 <= k < i ==> !Covers(devices[k], raw)
        invariant lastDeviceIdx == old(lastDeviceIdx)
      {
        var d := devices[i];
        if raw >= d.base && raw < d.base + d.size {
          lastDeviceIdx := i;
          return Some(Hit(i, raw - d.base));
        }
      }
      return None;
    }

    method WriteU8(raw: nat, v: u8)
      requires Valid()
      modifies this
      ensures Valid() && devices == WriteByte(old(devices), raw, v)
      ensures if Lookup(old(devices), raw).None? then devices == old(devices)
              else Received(old(devices), devices, Lookup(old(devices), raw).value, raw, v)
    {
      hide Steady;
      hide Sorted;
      ByteKeepsMap(devices, raw, v);
      var r := FindDevice(raw);
      WriteKeepsValid(devices, WriteByte(devices, raw, v), lastDeviceIdx);
      if r.Some? {
        var d := devices[r.value.index];
        OneByte(d, r.value.offset, v);
        devices := devices[r.value.index := d.(written := d.written + [(r.value.offset, v)])];
      }
    }

    method LoadBinaryAt(data: seq<u8>, raw: nat)
      requires Valid()
      modifies this
      ensures Valid() && devices == LoadBinary(old(devices), raw, data)
      ensures !Crosses(old(devices), raw, |data|) ==> devices == WriteBytes(old(devices), raw, data)
    {
      hide Steady;
      hide Position;
      hide Scan;
      hide InHtif;
      hide Append;
      hide Crosses;
      hide WriteBytes;
      LoadIsBytewise(devices, raw, data);
      var r := FindDevice(raw);
      if r.Some? {
        var d := devices[r.value.index];
        if r.value.offset + |data| <= d.size {
          AppendKeepsMap(d, r.value.offset, data);
          var d' := WriteDevice(d, r.value.offset, data);
          WriteKeepsValid(devices, devices[r.value.index := d'], lastDeviceIdx);
          devices := devices[r.value.index := d'];
          return;
        }
      }
      LoadBytes(data, raw);
    }

    method LoadBytes(data: seq<u8>, raw: nat)
      requires Valid()
      modifies this
      ensures Valid() && devices == WriteBytes(old(devices), raw, data)
    {
      hide WriteByte;
      ghost var ds := devices;
      var i := 0;
      while i < |data|
        invariant i <= |data| && Valid()
        invariant WriteBytes(devices, raw + i, data[i..]) == WriteBytes(ds, raw, data)
      {
        assert data[i..][1..] == data[i + 1..];
        WriteU8(raw + i, data[i]);
        i := i + 1;
      }
    }

    /** `write_bytes` of a device. */
    method WriteDevice(d0: Device, offset: nat, data: seq<u8>) returns (d: Device)
      ensures d == Append(d0, offset, data)
    {
      d := d0;
      var i := 0;
      while i < |data|
        invariant i <= |data|
        invariant Append(d, offset + i, data[i..]) == Append(d0, offset, data)
      {
        assert data[i..][1..] == data[i + 1..];
        d := d.(written := d.written + [(offset + i, data[i])]);
        i := i + 1;
      }
    }
  }

  /** Device and offset for an answer of the lookup. */
  function HitOf(ds: seq<Device>, raw: nat, i: Option<nat>): (h: Option<Hit>)
    requires i.Some? ==> i.value < |ds| && Covers(ds[i.value], raw)
  {
    match i case None => None case Some(k) => Some(Hit(k, raw - ds[k].base))
  }

  lemma {:induction false} WriteKeepsValid(ds: seq<Device>, es: seq<Device>, last: nat)
    requires SameMap(ds, es) && Steady(ds) && Sorted(ds) && Reached(ds, last)
    ensures Steady(es) && Sorted(es) && Reached(es, last)
    ensures Position(ds, RAM, 0) == Position(es, RAM, 0) && Position(ds, HTIF, 0) == Position(es, HTIF, 0)
  {
    hide Position;
    PositionSameMap(ds, es, RAM, 0);
    PositionSameMap(ds, es, HTIF, 0);
    forall raw
      ensures Lookup(ds, raw) == Lookup(es, raw)
    {
      LookupSameMap(ds, es, raw);
    }
    forall i | 0 <= i < |es|
      ensures ApartFromEarlier(ds, i) <==> ApartFromEarlier(es, i)
    {
      assert forall j :: 0 <= j < i ==> (Apart(ds, ds[j], ds[i]) <==> Apart(es, es[j], es[i]));
    }
    assert forall i :: 0 <= i < |es| ==> (Idle(ds, i) <==> Idle(es, i));
  }

  datatype Access = Add(dev: Device) | Read(raw: nat) | Write(raw: nat, v: u8) | Load(data: seq<u8>, at: nat)

  /** Devices after an access, by the hint-free lookup. */
  function After(ds: seq<Device>, a: Access): (r: seq<Device>) {
    match a
    case Add(dev) => Insert(ds, dev)
    case Read(_) => ds
    case Write(raw, v) => WriteByte(ds, raw, v)
    case Load(data, at) => LoadBinary(ds, at, data)
  }

  ghost function AfterAll(ds: seq<Device>, accesses: seq<Access>): (r: seq<Device>)
    decreases |accesses|
  {
    if accesses == [] then ds else AfterAll(After(ds, accesses[0]), accesses[1..])
  }

  /** Every device added along the way leaves a layout on which no history does harm. */
  ghost predicate Fitting(ds: seq<Device>, accesses: seq<Access>)
    decreases |accesses|
  {
    accesses != [] ==>
      && (accesses[0].Add? ==> Steady(Insert(ds, accesses[0].dev)))
      && Fitting(After(ds, accesses[0]), accesses[1..])
  }

  /** The answer to an access, by the hint-free lookup; only reads have one. */
  ghost function Answer(ds: seq<Device>, a: Access): (r: seq<Option<Hit>>) {
    if a.Read? then [HitOf(ds, a.raw, Lookup(ds, a.raw))] else []
  }

  ghost function Answers(ds: seq<Device>, accesses: seq<Access>): (r: seq<Option<Hit>>)
    decreases |accesses|
  {
    if accesses == [] then [] else Answer(ds, accesses[0]) + Answers(After(ds, accesses[0]), accesses[1..])
  }

  method Perform(bus: Bus, a: Access) returns (answer: seq<Option<Hit>>)
    requires bus.Valid() && (a.Add? ==> Steady(Insert(bus.devices, a.dev)))
    modifies bus
    ensures bus.Valid() && bus.devices == After(old(bus.devices), a) && answer == Answer(old(bus.devices), a)
  {
    hide LoadBinary;
    answer := [];
    match a
    case Add(dev) => bus.AddDevice(dev);
    case Read(raw) =>
      var hit := bus.FindDevice(raw);
      answer := [hit];
    case Write(raw, v) => bus.WriteU8(raw, v);
    case Load(data, at) => bus.LoadBinaryAt(data, at);
  }

  /** No history of accesses makes the shortcuts answer differently from the hint-free lookup. */
  method Replay(bus: Bus, accesses: seq<Access>) returns (answers: seq<Option<Hit>>)
    requires bus.Valid() && Fitting(bus.devices, accesses)
    modifies bus
    ensures bus.Valid() && bus.devices == AfterAll(old(bus.devices), accesses)
    ensures answers == Answers(old(bus.devices), accesses)
  {
    hide Steady;
    hide Sorted;
    hide Position;
    hide Insert;
    hide After;
    hide Answer;
    ghost var ds := bus.devices;
    answers := [];
    var i := 0;
    while i < |accesses|
      invariant i <= |accesses| && bus.Valid()
      invariant Fitting(bus.devices, accesses[i..])
      invariant AfterAll(bus.devices, accesses[i..]) == AfterAll(ds, accesses)
      invariant answers + Answers(bus.devices, accesses[i..]) == Answers(ds, accesses)
    {
      assert accesses[i..][1..] == accesses[i + 1..];
      var answer := Perform(bus, accesses[i]);
      answers := answers + answer;
      i := i + 1;
    }
  }
}
