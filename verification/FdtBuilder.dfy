/** The builder of `dtb.rs`, method by method, and the proof that any tree written through it is
    what a parser of the format reads back. */
module FdtBuilder {
  import opened Bytes
  import opened FdtFormat

  lemma {:induction false} Be32Mod(v: nat)
    ensures Be32(v % U32) == Be32(v)
  {
    Be32Shifted(v, v % U32, v / U32);
  }

  lemma {:induction false} Be32Shifted(v: nat, w: nat, q: nat)
    requires v == q * U32 + w
    ensures Be32(w) == Be32(v)
  {
    var v1, w1, q1 := v / 256, w / 256, q * 0x100_0000;
    LowByte(v, w, q1);
    var v2, w2, q2 := v1 / 256, w1 / 256, q * 0x1_0000;
    LowByte(v1, w1, q2);
    LowByte(v2, w2, q * 0x100);
  }

  /** Adding a multiple of 256 changes the quotient alone. */
  lemma {:induction false} LowByte(v: nat, w: nat, k: nat)
    requires v == k * 256 + w
    ensures v % 256 == w % 256 && v / 256 == k + w / 256
  {
  }

  lemma {:induction false} Be32Congruent(a: nat, b: nat)
    requires a % U32 == b % U32
    ensures Be32(a) == Be32(b)
  {
    Be32Mod(a);
    Be32Mod(b);
  }

  lemma {:induction false} OffsetOfNew(names: seq<Name>, name: Name)
    requires name !in names
    ensures Offset(names, name) == |Pool(names)|
  {
    if names != [] {
      OffsetOfNew(names[1..], name);
    }
  }

  lemma {:induction false} OffsetIsStable(names: seq<Name>, more: seq<Name>, name: Name)
    requires name in names
    ensures Offset(names + more, name) == Offset(names, name)
  {
    if names[0] != name {
      assert (names + more)[1..] == names[1..] + more;
      OffsetIsStable(names[1..], more, name);
    }
  }

  lemma {:induction false} OffsetSnoc(names: seq<Name>, name: Name)
    requires name !in names
    ensures Offset(names + [name], name) == |Pool(names)|
  {
    if names != [] {
      assert (names + [name])[1..] == names[1..] + [name];
      OffsetSnoc(names[1..], name);
    }
  }

  /** The dedup table as a list of names, and the offsets it hands out. */
  ghost function NamesOf(table: seq<(Name, nat)>): (names: seq<Name>)
    ensures |names| == |table|
    ensures forall k :: 0 <= k < |table| ==> names[k] == table[k].0
  {
    seq(|table|, k requires 0 <= k < |table| => table[k].0)
  }

  /** Every name is stored once, and its entry holds where it starts in the strings block. */
  ghost predicate TableOk(table: seq<(Name, nat)>) {
    var names := NamesOf(table);
    && (forall i, j :: 0 <= i < j < |names| ==> names[i] != names[j])
    && (forall k :: 0 <= k < |table| ==> table[k].1 == Offset(names, names[k]) % U32)
  }

  lemma {:induction false} TableGrows(table: seq<(Name, nat)>, name: Name)
    requires TableOk(table) && name !in NamesOf(table)
    ensures NamesOf(table + [(name, |Pool(NamesOf(table))| % U32)]) == NamesOf(table) + [name]
    ensures TableOk(table + [(name, |Pool(NamesOf(table))| % U32)])
  {
    var names := NamesOf(table);
    var grown := table + [(name, |Pool(names)| % U32)];
    assert NamesOf(grown) == names + [name];
    OffsetSnoc(names, name);
    forall k | 0 <= k < |table| ensures grown[k].1 == Offset(names + [name], names[k]) % U32 {
      OffsetIsStable(names, [name], names[k]);
    }
  }

  // ----- Trees under construction -----

  /** The nodes that are open, outermost first; the first one stands for the blob itself and holds
      what is complete at top level. */
  type Open = o: seq<Node> | |o| > 0 witness [Node([], [])]

  /** Adds an item to the innermost open node. */
  ghost function Append(open: Open, item: Item): (r: Open) {
    var n := |open| - 1;
    open[n := Node(open[n].name, open[n].items + [item])]
  }

  ghost function Push(open: Open, name: Name): (r: Open) { open + [Node(name, [])] }

  /** Closes the innermost node. */
  ghost function Pop(open: Open): (r: Open)
    requires |open| > 1
  {
    Append(open[..|open| - 1], Sub(open[|open| - 1]))
  }

  /** The bytes written so far, and the names collected so far. */
  ghost function Layout(open: Open, names: seq<Name>): (bs: seq<u8>)
    decreases |open|
  {
    var own := ItemsBytes(open[0].items, names);
    if |open| == 1 then own
    else own + (BeginBytes(open[1].name) + Layout(open[1..], ItemsNames(open[0].items, names)))
  }

  ghost function LayoutNames(open: Open, names: seq<Name>): (r: seq<Name>)
    decreases |open|
  {
    var own := ItemsNames(open[0].items, names);
    if |open| == 1 then own else LayoutNames(open[1..], own)
  }

  /** Adds several items to the innermost open node. */
  ghost function AppendAll(open: Open, items: seq<Item>): (r: Open) {
    var n := |open| - 1;
    open[n := Node(open[n].name, open[n].items + items)]
  }

  lemma {:induction false} AppendNone(open: Open)
    ensures AppendAll(open, []) == open
  {
    var n := |open| - 1;
    assert open[n].items + [] == open[n].items;
  }

  lemma {:induction false} AppendMore(open: Open, item: Item, more: seq<Item>)
    ensures AppendAll(Append(open, item), more) == AppendAll(open, [item] + more)
  {
    var n := |open| - 1;
    assert open[n].items + [item] + more == open[n].items + ([item] + more);
  }

  /** Opening a node, filling it and closing it adds one item to the node around it. */
  lemma {:induction false} NodeIsItem(open: Open, name: Name, items: seq<Item>)
    ensures Pop(AppendAll(Push(open, name), items)) == Append(open, Sub(Node(name, items)))
  {
    var filled := AppendAll(Push(open, name), items);
    assert [] + items == items;
    assert filled[..|open|] == open;
  }

  lemma {:induction false} ItemsSnoc(items: seq<Item>, item: Item, names: seq<Name>)
    ensures ItemsNames(items + [item], names) == ItemNames(item, ItemsNames(items, names))
    ensures ItemsBytes(items + [item], names) == ItemsBytes(items, names) + ItemBytes(item, ItemsNames(items, names))
    decreases |items|
  {
    var all := items + [item];
    if items == [] {
      assert all == [item] && all[1..] == [];
      assert ItemsBytes([], ItemNames(item, names)) == [];
    } else {
      assert all[1..] == items[1..] + [item];
      ItemsSnoc(items[1..], item, ItemNames(items[0], names));
    }
  }

  lemma {:induction false} LayoutDeep(open: Open, names: seq<Name>)
    requires |open| > 1
    ensures Layout(open, names) == ItemsBytes(open[0].items, names) + (BeginBytes(open[1].name) + Layout(open[1..], ItemsNames(open[0].items, names)))
    ensures LayoutNames(open, names) == LayoutNames(open[1..], ItemsNames(open[0].items, names))
  {
    hide BeginBytes;
    hide ItemsBytes;
    hide ItemsNames;
  }

  lemma {:induction false} AppendTail(open: Open, item: Item)
    requires |open| > 1
    ensures var r := Append(open, item);
            |r| == |open| && r[0] == open[0] && r[1].name == open[1].name && r[1..] == Append(open[1..], item)
  {
  }

  lemma {:induction false} LayoutAppend(open: Open, item: Item, names: seq<Name>)
    ensures Layout(Append(open, item), names) == Layout(open, names) + ItemBytes(item, LayoutNames(open, names))
    ensures LayoutNames(Append(open, item), names) == ItemNames(item, LayoutNames(open, names))
    decreases |open|
  {
    hide BeginBytes;
    hide ItemBytes;
    if |open| == 1 {
      ItemsSnoc(open[0].items, item, names);
    } else {
      hide Layout;
      hide LayoutNames;
      hide ItemsBytes;
      hide ItemsNames;
      hide Append;
      AppendTail(open, item);
      LayoutDeep(open, names);
      LayoutDeep(Append(open, item), names);
      LayoutAppend(open[1..], item, ItemsNames(open[0].items, names));
    }
  }

  lemma {:induction false} LayoutPush(open: Open, name: Name, names: seq<Name>)
    ensures Layout(Push(open, name), names) == Layout(open, names) + BeginBytes(name)
    ensures LayoutNames(Push(open, name), names) == LayoutNames(open, names)
    decreases |open|
  {
    hide BeginBytes;
    var all := Push(open, name);
    if |open| == 1 {
      assert all[1..] == [Node(name, [])];
      assert Layout([Node(name, [])], ItemsNames(open[0].items, names)) == [];
    } else {
      assert all[1..] == Push(open[1..], name);
      LayoutPush(open[1..], name, ItemsNames(open[0].items, names));
    }
  }

  lemma {:induction false} PopTail(open: Open)
    requires |open| > 2
    ensures |Pop(open)| == |open| - 1 && Pop(open)[0] == open[0] && Pop(open)[1] == Pop(open[1..])[0]
    ensures Pop(open)[1..] == Pop(open[1..])
  {
    var n, tail := |open|, open[1..];
    assert tail[..n - 2] == open[..n - 1][1..];
  }

  lemma {:induction false} LayoutPop(open: Open, names: seq<Name>)
    requires |open| > 1
    ensures Layout(Pop(open), names) == Layout(open, names) + EndBytes()
    ensures LayoutNames(Pop(open), names) == LayoutNames(open, names)
    decreases |open|
  {
    hide BeginBytes;
    if |open| == 2 {
      var own := open[0].items;
      assert open[1..] == [open[1]] && open[..1] == [open[0]];
      assert Pop(open) == [Node(open[0].name, own + [Sub(open[1])])];
      ItemsSnoc(own, Sub(open[1]), names);
    } else {
      PopTail(open);
      LayoutPop(open[1..], ItemsNames(open[0].items, names));
    }
  }

  class FdtBuilder {
    var structBuf: seq<u8>
    var stringsBuf: seq<u8>
    var stringOffsets: seq<(Name, nat)>
    /** The tree described by the calls so far. */
    ghost var open: Open

    ghost function Names(): (names: seq<Name>)
      reads this
    {
      NamesOf(stringOffsets)
    }

    ghost predicate TableValid()
      reads this
    {
      TableOk(stringOffsets) && stringsBuf == Pool(Names())
    }

    ghost predicate Valid()
      reads this
    {
      && TableValid() && |structBuf| % 4 == 0
      && structBuf == Layout(open, []) && Names() == LayoutNames(open, [])
    }

    constructor ()
      ensures Valid() && open == [Node([], [])]
    {
      structBuf, stringsBuf, stringOffsets := [], [], [];
      open := [Node([], [])];
    }

    method PushU32(val: nat)
      modifies this`structBuf
      ensures structBuf == old(structBuf) + Be32(val)
    {
      structBuf := structBuf + Be32(val);
    }

    /** The padding loop. */
    method Align()
      modifies this`structBuf
      ensures structBuf == old(structBuf) + Zeros(PadLen(|old(structBuf)|))
    {
      ghost var k := 0;
      while |structBuf| % 4 != 0
        invariant k <= PadLen(|old(structBuf)|) && structBuf == old(structBuf) + Zeros(k)
        decreases PadLen(|old(structBuf)|) - k
      {
        structBuf := structBuf + [0];
        k := k + 1;
        assert structBuf == old(structBuf) + Zeros(k);
      }
    }

    method BeginNode(name: Name)
      requires Valid()
      modifies this
      ensures Valid() && open == Push(old(open), name)
    {
      hide Layout;
      PushU32(FDT_BEGIN_NODE);
      structBuf := structBuf + name;
      structBuf := structBuf + [0];
      PadFrom(|old(structBuf)|, 4, |name| + 1);
      Align();
      assert structBuf == old(structBuf) + BeginBytes(name);
      LayoutPush(open, name, []);
      open := Push(open, name);
    }

    /** Closes the innermost node; only legal when one is open. */
    method EndNode()
      requires Valid() && |open| > 1
      modifies this
      ensures Valid() && open == Pop(old(open))
    {
      hide Layout;
      PushU32(FDT_END_NODE);
      LayoutPop(open, []);
      open := Pop(open);
    }

    /** Where `name` lies in the strings block; added at the end unless it is already there. */
    method StringOffset(name: Name) returns (off: nat)
      requires TableValid()
      modifies this`stringsBuf, this`stringOffsets
      ensures TableValid() && Names() == AddName(old(Names()), name)
      ensures off == Offset(old(Names()), name) % U32
    {
      for i := 0 to |stringOffsets|
        invariant name !in Names()[..i]
      {
        if stringOffsets[i].0 == name {
          assert Names()[i] == name;
          return stringOffsets[i].1;
        }
        assert Names()[..i + 1] == Names()[..i] + [Names()[i]];
      }
      assert Names()[..|stringOffsets|] == Names();
      OffsetOfNew(Names(), name);
      TableGrows(stringOffsets, name);
      PoolAppend(Names(), [name]);
      assert Pool([name]) == name + [0] + Pool([name][1..]);
      off := |stringsBuf| % U32;
      stringsBuf := stringsBuf + name;
      stringsBuf := stringsBuf + [0];
      stringOffsets := stringOffsets + [(name, off)];
    }

    /** Tag, length and name offset of a property, written before its value. */
    method PropHeader(name: Name, len: nat)
      requires TableValid()
      modifies this`structBuf, this`stringsBuf, this`stringOffsets
      ensures TableValid() && Names() == AddName(old(Names()), name)
      ensures structBuf == old(structBuf) + (Be32(FDT_PROP) + (Be32(len) + Be32(Offset(old(Names()), name))))
    {
      ghost var at := Offset(Names(), name);
      var off := StringOffset(name);
      Be32Mod(at);
      PushU32(FDT_PROP);
      PushU32(len);
      PushU32(off);
      assert structBuf == old(structBuf) + (Be32(FDT_PROP) + (Be32(len) + Be32(at)));
    }

    /** Once the bytes of a property have been written, the tree has one more item. */
    ghost method NoteProp(name: Name, data: seq<u8>, buf: seq<u8>, names: seq<Name>)
      requires TableValid() && Names() == AddName(names, name)
      requires |buf| % 4 == 0 && buf == Layout(open, []) && names == LayoutNames(open, [])
      requires structBuf == buf + PropBytes(Offset(names, name), data)
      modifies this`open
      ensures Valid() && open == Append(old(open), Prop(name, data))
    {
      hide Layout;
      hide LayoutNames;
      hide NamesOf;
      hide PropBytes;
      hide TableOk;
      PropAligned(Offset(names, name), data);
      LayoutAppend(open, Prop(name, data), []);
      open := Append(open, Prop(name, data));
    }

    method PropData(name: Name, data: seq<u8>)
      requires Valid()
      modifies this
      ensures Valid() && open == Append(old(open), Prop(name, data))
    {
      ghost var names := Names();
      PropHeader(name, |data|);
      structBuf := structBuf + data;
      PadFrom(|old(structBuf)|, 12, |data|);
      Align();
      assert structBuf == old(structBuf) + PropBytes(Offset(names, name), data);
      NoteProp(name, data, old(structBuf), names);
    }

    method PropU32(name: Name, val: nat)
      requires Valid()
      modifies this
      ensures Valid() && open == Append(old(open), Prop(name, Be32(val)))
    {
      ghost var names := Names();
      PropHeader(name, 4);
      PushU32(val);
      assert structBuf == old(structBuf) + PropBytes(Offset(names, name), Be32(val));
      NoteProp(name, Be32(val), old(structBuf), names);
    }

    method PropString(name: Name, val: seq<u8>)
      requires Valid()
      modifies this
      ensures Valid() && open == Append(old(open), Prop(name, val + [0]))
    {
      hide TableOk;
      hide Pool;
      hide ItemsBytes;
      hide Be32;
      ghost var names := Names();
      PropHeader(name, |val| + 1);
      structBuf := structBuf + val;
      structBuf := structBuf + [0];
      PadFrom(|old(structBuf)|, 12, |val| + 1);
      Align();
      assert structBuf == old(structBuf) + PropBytes(Offset(names, name), val + [0]);
      NoteProp(name, val + [0], old(structBuf), names);
    }

    method PropEmpty(name: Name)
      requires Valid()
      modifies this
      ensures Valid() && open == Append(old(open), Prop(name, []))
    {
      ghost var names := Names();
      PropHeader(name, 0);
      assert structBuf == old(structBuf) + PropBytes(Offset(names, name), []);
      NoteProp(name, [], old(structBuf), names);
    }

    /** `reg` for two address and two size cells: the high and low words of both numbers. */
    method PropReg22(addr: nat, size: nat)
      requires Valid()
      modifies this
      ensures Valid() && open == Append(old(open), Prop(REG, Reg22(addr, size)))
    {
      var data := Be32(addr / U32);
      data := data + Be32(addr % U32);
      data := data + Be32(size / U32);
      data := data + Be32(size % U32);
      PropData(REG, data);
    }

    /** `reg` for one address cell and no size cell. */
    method PropReg10(val: nat)
      requires Valid()
      modifies this
      ensures Valid() && open == Append(old(open), Prop(REG, Be32(val)))
    {
      PropData(REG, Be32(val));
    }

    /** Closes the structure block and puts header, reservation block and both blocks together. All
        sizes are 32-bit and wrap around. */
    method Finalize() returns (out: seq<u8>)
      requires Valid()
      modifies this
      ensures out == Blob(Layout(open, []) + Be32(FDT_END), Pool(LayoutNames(open, [])))
      ensures open == old(open)
    {
      hide Be32;
      hide Words;
      hide Header;
      PushU32(FDT_END);
      var structSize := |structBuf| % U32;
      var stringsSize := |stringsBuf| % U32;
      var structAt := HEADER_SIZE + MEMRSV_SIZE;
      var stringsAt := (structAt + structSize) % U32;
      var totalSize := (stringsAt + stringsSize) % U32;
      ghost var ws := [FDT_MAGIC, totalSize, structAt, stringsAt, HEADER_SIZE,
                       FDT_VERSION, FDT_LAST_COMP_VERSION, 0, stringsSize, structSize];
      out := Be32(FDT_MAGIC);
      out := out + Be32(totalSize);
      out := out + Be32(structAt);
      out := out + Be32(stringsAt);
      out := out + Be32(HEADER_SIZE);
      out := out + Be32(FDT_VERSION);
      out := out + Be32(FDT_LAST_COMP_VERSION);
      out := out + Be32(0);
      out := out + Be32(stringsSize);
      out := out + Be32(structSize);
      TenWords(ws);
      HeaderWraps(|structBuf|, |stringsBuf|);
      assert out == Words(Header(|structBuf|, |stringsBuf|));
      out := out + Zeros(MEMRSV_SIZE);
      out := out + structBuf;
      out := out + stringsBuf;
    }
  }

  const REG: Name := [114, 101, 103]

  function Reg22(addr: nat, size: nat): (data: seq<u8>) {
    Be32(addr / U32) + Be32(addr % U32) + Be32(size / U32) + Be32(size % U32)
  }

  lemma {:induction false} WordsCongruent(a: seq<nat>, b: seq<nat>)
    requires |a| == |b| && forall k :: 0 <= k < |a| ==> a[k] % U32 == b[k] % U32
    ensures Words(a) == Words(b)
  {
    if a != [] {
      Be32Congruent(a[0], b[0]);
      WordsCongruent(a[1..], b[1..]);
    }
  }

  lemma {:induction false} ModAdd(a: nat, b: nat)
    ensures (a + b % U32) % U32 == (a + b) % U32
  {
  }

  lemma {:induction false} StringsWrap(at: nat, len: nat)
    ensures (at + len % U32) % U32 == (at + len) % U32 && len % U32 % U32 == len % U32 && (at + len % U32) % U32 % U32 == (at + len) % U32
  {
    ModAdd(at, len);
  }

  lemma {:induction false} TotalWraps(at: nat, a: nat, b: nat)
    ensures ((at + a % U32) % U32 + b % U32) % U32 % U32 == (at + a + b) % U32
  {
    ModAdd(at, a);
    ModAdd(b % U32, at + a % U32);
    ModAdd(at + a % U32, b);
    ModAdd(at + b, a);
  }

  /** Wrapping 32-bit arithmetic gives the same header bytes as exact arithmetic. */
  lemma {:induction false} HeaderWraps(structLen: nat, stringsLen: nat)
    ensures var structSize, stringsSize := structLen % U32, stringsLen % U32;
            var stringsAt := (HEADER_SIZE + MEMRSV_SIZE + structSize) % U32;
            Words([FDT_MAGIC, (stringsAt + stringsSize) % U32, HEADER_SIZE + MEMRSV_SIZE, stringsAt, HEADER_SIZE,
                   FDT_VERSION, FDT_LAST_COMP_VERSION, 0, stringsSize, structSize]) == Words(Header(structLen, stringsLen))
  {
    hide Words;
    var structSize, stringsSize := structLen % U32, stringsLen % U32;
    var stringsAt := (HEADER_SIZE + MEMRSV_SIZE + structSize) % U32;
    var ws: seq<nat> := [FDT_MAGIC, (stringsAt + stringsSize) % U32, HEADER_SIZE + MEMRSV_SIZE, stringsAt, HEADER_SIZE,
                         FDT_VERSION, FDT_LAST_COMP_VERSION, 0, stringsSize, structSize];
    StringsWrap(HEADER_SIZE + MEMRSV_SIZE, structLen);
    StringsWrap(HEADER_SIZE + MEMRSV_SIZE + structLen, stringsLen);
    TotalWraps(HEADER_SIZE + MEMRSV_SIZE, structLen, stringsLen);
    WordsCongruent(ws, Header(structLen, stringsLen));
  }

  /** Whatever well-nested calls were made: if they describe one tree, the finished blob parses back
      to that tree, exactly when its names are free of NULs, properties precede subnodes and the blob stays
      below 4 GiB. */
  lemma {:induction false} FinishedBlobParses(root: Node)
    ensures var open: Open := [Node([], [Sub(root)])];
            var out := Blob(Layout(open, []) + Be32(FDT_END), Pool(LayoutNames(open, [])));
            && (ParseBlob(out) == Some(root) <==> NodeNulFree(root) && PropsFirst(root.items, true) && |out| < U32)
            && (NodeNulFree(root) && !PropsFirst(root.items, true) && |out| < U32 ==> ParseBlob(out) == None)
  {
    OneItem(Sub(root));
    RoundTrip(root);
  }

  lemma {:induction false} OneItem(item: Item)
    ensures ItemsBytes([item], []) == ItemBytes(item, []) && ItemsNames([item], []) == ItemNames(item, [])
  {
    hide ItemNames;
    var items := [item];
    assert items[1..] == [];
    assert ItemsBytes(items[1..], ItemNames(item, [])) == [];
  }

  /** Every tree can be written: the calls that describe it, in order. */
  method EmitItem(b: FdtBuilder, item: Item)
    requires b.Valid()
    modifies b
    ensures b.Valid() && b.open == Append(old(b.open), item)
    decreases item, 1
  {
    match item
    case Prop(name, data) =>
      b.PropData(name, data);
    case Sub(Node(name, items)) =>
      b.BeginNode(name);
      EmitItems(b, items);
      NodeIsItem(old(b.open), name, items);
      b.EndNode();
  }

  method EmitItems(b: FdtBuilder, items: seq<Item>)
    requires b.Valid()
    modifies b
    ensures b.Valid() && b.open == AppendAll(old(b.open), items)
    decreases items, 0
  {
    if items == [] {
      AppendNone(b.open);
    } else {
      EmitItem(b, items[0]);
      AppendMore(old(b.open), items[0], items[1..]);
      assert items == [items[0]] + items[1..];
      EmitItems(b, items[1..]);
    }
  }

  method Build(root: Node) returns (out: seq<u8>)
    ensures ParseBlob(out) == Some(root) <==> NodeNulFree(root) && PropsFirst(root.items, true) && |out| < U32
    ensures NodeNulFree(root) && !PropsFirst(root.items, true) && |out| < U32 ==> ParseBlob(out) == None
  {
    var b := new FdtBuilder();
    EmitItem(b, Sub(root));
    assert [] + [Sub(root)] == [Sub(root)];
    assert b.open == [Node([], [Sub(root)])];
    out := b.Finalize();
    FinishedBlobParses(root);
  }

  /** The builder takes begin, begin, end, property, end; the blob is then refused, whatever the names and the value. */
  method ChildThenProperty(child: Name, name: Name, data: seq<u8>) returns (out: seq<u8>)
    ensures ParseBlob(out) != Some(Node([], [Sub(Node(child, [])), Prop(name, data)]))
    ensures NulFree(child) && NulFree(name) && |out| < U32 ==> ParseBlob(out) == None
  {
    var root := Node([], [Sub(Node(child, [])), Prop(name, data)]);
    OutOfOrder(root);
    assert NulFree(child) ==> NodeNulFree(Node(child, []));
    out := Build(root);
  }

  lemma {:induction false} OutOfOrder(root: Node)
    requires |root.items| == 2 && root.items[0].Sub? && root.items[1].Prop?
    ensures !PropsFirst(root.items, true)
    ensures NulFree(root.name) && ItemNulFree(root.items[0]) && NulFree(root.items[1].name) ==> NodeNulFree(root)
  {
    var rest := root.items[1..];
    assert rest[0] == root.items[1] && rest[1..] == [];
    assert !PropsFirst(rest, false);
    assert ItemsNulFree(rest) <==> ItemNulFree(rest[0]) && ItemsNulFree(rest[1..]);
    assert ItemsNulFree(root.items) <==> ItemNulFree(root.items[0]) && ItemsNulFree(rest);
  }

  lemma {:induction false} PropAligned(off: nat, data: seq<u8>)
    ensures |PropBytes(off, data)| % 4 == 0
  {
    hide Be32;
    hide PadLen;
    hide Zeros;
    assert |PropBytes(off, data)| == 12 + (|data| + PadLen(|data|));
  }

  lemma {:induction false} PadFrom(base: nat, a: nat, n: nat)
    requires base % 4 == 0 && a % 4 == 0
    ensures PadLen(base + a + n) == PadLen(n)
  {
  }
}
