/** The flattened devicetree blob of chapter 5 of the Devicetree Specification v0.4: how the writer
    lays out a tree, an independent parser, and the proof that the parser undoes the layout. */
module FdtFormat {
  import opened Bytes

  const U32 := 0x1_0000_0000

  const FDT_MAGIC := 0xd00dfeed
  const FDT_VERSION := 17
  const FDT_LAST_COMP_VERSION := 16
  const FDT_BEGIN_NODE := 1
  const FDT_END_NODE := 2
  const FDT_PROP := 3
  const FDT_NOP := 4
  const FDT_END := 9

  const HEADER_SIZE := 40
  const MEMRSV_SIZE := 16

  type Name = seq<u8>

  /** Properties and subnodes in the order in which they were written. */
  datatype Item = Prop(name: Name, data: seq<u8>) | Sub(node: Node)

  datatype Node = Node(name: Name, items: seq<Item>)

  // ----- Words and padding -----

  /** `(v as u32).to_be_bytes()` */
  function Be32(v: nat): (bs: seq<u8>)
    ensures |bs| == 4
  {
    var v1 := v / 256;
    var v2 := v1 / 256;
    [v2 / 256 % 256, v2 % 256, v1 % 256, v % 256]
  }

  function Word(bs: seq<u8>): (v: nat)
    requires |bs| >= 4
  {
    256 * (256 * (256 * (bs[0] as int) + bs[1]) + bs[2]) + bs[3]
  }

  lemma {:induction false} WordValue(v: nat)
    ensures Word(Be32(v)) == v % U32
  {
    var v4 := v / 256 / 256 / 256 / 256;
    assert v == U32 * v4 + Word(Be32(v));
  }

  lemma {:induction false} WordOfBe32(v: nat, rest: seq<u8>)
    ensures Word(Be32(v) + rest) == v % U32
    ensures (Be32(v) + rest)[4..] == rest
  {
    WordValue(v);
  }

  function PadLen(n: nat): (k: nat)
    ensures k < 4 && (n + k) % 4 == 0
  {
    (4 - n % 4) % 4
  }

  function Zeros(k: nat): (bs: seq<u8>)
    ensures |bs| == k
  {
    seq(k, _ => 0)
  }

  // ----- Strings -----

  predicate NulFree(s: seq<u8>) { forall i :: 0 <= i < |s| ==> s[i] != 0 }

  /** The bytes up to the first NUL. */
  function CString(bs: seq<u8>): (r: Option<Name>)
    ensures r.Some? ==> NulFree(r.value) && |r.value| < |bs| && r.value == bs[..|r.value|]
  {
    if bs == [] then None
    else if bs[0] == 0 then Some([])
    else
      var r := CString(bs[1..]);
      if r.None? then None else Some([bs[0]] + r.value)
  }

  lemma {:induction false} CStringReads(s: Name, rest: seq<u8>)
    requires NulFree(s)
    ensures CString(s + [0] + rest) == Some(s)
  {
    var bs := s + [0] + rest;
    if s == [] {
      assert bs[0] == 0;
    } else {
      assert bs[0] == s[0];
      assert bs[1..] == s[1..] + [0] + rest;
      CStringReads(s[1..], rest);
      assert s == [s[0]] + s[1..];
    }
  }

  /** The strings block that holds `names`. */
  function Pool(names: seq<Name>): (bs: seq<u8>) {
    if names == [] then [] else names[0] + [0] + Pool(names[1..])
  }

  function AddName(names: seq<Name>, name: Name): (r: seq<Name>) {
    if name in names then names else names + [name]
  }

  /** Where `name` starts in the strings block once it has been added. */
  function Offset(names: seq<Name>, name: Name): (off: nat) {
    if names == [] || names[0] == name then 0 else |names[0]| + 1 + Offset(names[1..], name)
  }

  lemma {:induction false} PoolAppend(a: seq<Name>, b: seq<Name>)
    ensures Pool(a + b) == Pool(a) + Pool(b)
  {
    if a == [] {
      assert a + b == b;
    } else {
      assert (a + b)[1..] == a[1..] + b;
      PoolAppend(a[1..], b);
    }
  }

  lemma {:induction false} PoolHead(names: seq<Name>)
    requires names != []
    ensures Pool(names) == (names[0] + [0]) + Pool(names[1..])
  {
  }

  lemma {:induction false} PoolTail(names: seq<Name>, name: Name)
    requires names != [] && names[0] != name
    ensures Pool(AddName(names, name)) == (names[0] + [0]) + Pool(AddName(names[1..], name))
    ensures Offset(names, name) == |names[0]| + 1 + Offset(names[1..], name)
  {
    var all := AddName(names, name);
    assert all != [] && all[0] == names[0] && all[1..] == AddName(names[1..], name);
    PoolHead(all);
  }

  lemma {:induction false} OffsetHere(names: seq<Name>, name: Name, later: seq<u8>)
    requires NulFree(name) && (names == [] || names[0] == name)
    ensures Offset(names, name) == 0 && |Pool(AddName(names, name))| > 0
    ensures CString(Pool(AddName(names, name)) + later) == Some(name)
  {
    var all := AddName(names, name);
    PoolHead(all);
    assert Pool(all) + later == name + [0] + (Pool(all[1..]) + later);
    CStringReads(name, Pool(all[1..]) + later);
  }

  /** Names stay readable at the offset handed out for them, whatever is added later. */
  lemma {:induction false} OffsetReads(names: seq<Name>, name: Name, later: seq<u8>)
    requires NulFree(name)
    ensures Offset(names, name) < |Pool(AddName(names, name))|
    ensures CString((Pool(AddName(names, name)) + later)[Offset(names, name)..]) == Some(name)
  {
    hide CString;
    hide Offset;
    if names == [] || names[0] == name {
      OffsetHere(names, name, later);
    } else {
      PoolTail(names, name);
      OffsetReads(names[1..], name, later);
      SliceSkips(names[0] + [0], Pool(AddName(names[1..], name)), later, Offset(names[1..], name));
    }
  }

  lemma {:induction false} SliceSkips(head: seq<u8>, rest: seq<u8>, later: seq<u8>, at: nat)
    requires at <= |rest|
    ensures (head + rest + later)[|head| + at..] == (rest + later)[at..]
  {
  }

  // ----- Layout of a tree -----

  function BeginBytes(name: Name): (bs: seq<u8>) {
    Be32(FDT_BEGIN_NODE) + (name + [0] + Zeros(PadLen(|name| + 1)))
  }

  function PropBytes(off: nat, data: seq<u8>): (bs: seq<u8>) {
    Be32(FDT_PROP) + (Be32(|data|) + (Be32(off) + (data + Zeros(PadLen(|data|)))))
  }

  function EndBytes(): (bs: seq<u8>) { Be32(FDT_END_NODE) }

  function ItemsBytes(items: seq<Item>, names: seq<Name>): (bs: seq<u8>)
    decreases items
  {
    if items == [] then [] else ItemBytes(items[0], names) + ItemsBytes(items[1..], ItemNames(items[0], names))
  }

  function ItemBytes(item: Item, names: seq<Name>): (bs: seq<u8>)
    decreases item
  {
    match item
    case Prop(name, data) => PropBytes(Offset(names, name), data)
    case Sub(Node(name, items)) => BeginBytes(name) + (ItemsBytes(items, names) + EndBytes())
  }

  /** The string table after an item, or a sequence of items, has been written. */
  function ItemsNames(items: seq<Item>, names: seq<Name>): (r: seq<Name>)
    decreases items
  {
    if items == [] then names else ItemsNames(items[1..], ItemNames(items[0], names))
  }

  function ItemNames(item: Item, names: seq<Name>): (r: seq<Name>)
    decreases item
  {
    match item
    case Prop(name, _) => AddName(names, name)
    case Sub(Node(_, items)) => ItemsNames(items, names)
  }

  predicate NodeNulFree(n: Node)
    decreases n, 1
  {
    NulFree(n.name) && ItemsNulFree(n.items)
  }

  predicate ItemsNulFree(items: seq<Item>)
    decreases items, 0
  {
    items == [] || (ItemNulFree(items[0]) && ItemsNulFree(items[1..]))
  }

  predicate ItemNulFree(item: Item)
    decreases item, 2
  {
    match item
    case Prop(name, _) => NulFree(name)
    case Sub(node) => NodeNulFree(node)
  }

  /** In each node the properties come before the subnodes, as section 5.4.2 requires; `props` says whether
      properties may still come. */
  predicate PropsFirst(items: seq<Item>, props: bool)
    decreases items, 0
  {
    items == [] || (Fits(items[0], props) && PropsFirst(items[1..], props && items[0].Prop?))
  }

  predicate Fits(item: Item, props: bool)
    decreases item, 1
  {
    match item
    case Prop(_, _) => props
    case Sub(Node(_, items)) => PropsFirst(items, true)
  }

  // ----- The parser -----

  /** Reads items up to the END_NODE that closes them. */
  function ParseItems(bs: seq<u8>, strings: seq<u8>, props: bool): (r: Option<(seq<Item>, seq<u8>)>)
    ensures r.Some? ==> |r.value.1| < |bs| && ItemsNulFree(r.value.0) && PropsFirst(r.value.0, props)
    decreases |bs|
  {
    if |bs| < 4 then None
    else if Word(bs) == FDT_END_NODE then Some(([], bs[4..]))
    else if Word(bs) == FDT_NOP then ParseItems(bs[4..], strings, props)
    else if Word(bs) == FDT_PROP && props then ParseProp(bs[4..], strings)
    else if Word(bs) == FDT_BEGIN_NODE then ParseSub(bs[4..], strings)
    else None
  }

  function ParseProp(bs: seq<u8>, strings: seq<u8>): (r: Option<(seq<Item>, seq<u8>)>)
    ensures r.Some? ==> |r.value.1| < |bs| && ItemsNulFree(r.value.0) && PropsFirst(r.value.0, true)
    decreases |bs|
  {
    if |bs| < 8 then None
    else
      var len, off, body := Word(bs), Word(bs[4..]), bs[8..];
      if |body| < len + PadLen(len) || off >= |strings| then None
      else
        var name := CString(strings[off..]);
        var more := ParseItems(body[len + PadLen(len)..], strings, true);
        if name.None? || more.None? then None
        else
          var items := [Prop(name.value, body[..len])] + more.value.0;
          assert items[1..] == more.value.0;
          Some((items, more.value.1))
  }

  /** A subnode and what follows it, which are no more properties. */
  function ParseSub(bs: seq<u8>, strings: seq<u8>): (r: Option<(seq<Item>, seq<u8>)>)
    ensures r.Some? ==> |r.value.1| < |bs| && ItemsNulFree(r.value.0) && PropsFirst(r.value.0, false)
    decreases |bs|
  {
    var name := CString(bs);
    if name.None? then None
    else
      var skip := |name.value| + 1 + PadLen(|name.value| + 1);
      if |bs| < skip then None
      else
        var inner := ParseItems(bs[skip..], strings, true);
        if inner.None? then None
        else
          var more := ParseItems(inner.value.1, strings, false);
          if more.None? then None
          else
            var items := [Sub(Node(name.value, inner.value.0))] + more.value.0;
            assert items[1..] == more.value.0;
            Some((items, more.value.1))
  }

  // ----- Bytes known beforehand -----

  /** Words are written most significant byte first. */
  lemma {:induction false} BigEndian(v: nat)
    ensures Be32(v) == [v / 0x100_0000 % 0x100, v / 0x1_0000 % 0x100, v / 0x100 % 0x100, v % 0x100]
  {
    assert v / 256 / 256 == v / 0x1_0000;
    assert v / 256 / 256 / 256 == v / 0x100_0000;
  }

  lemma {:induction false} SmallWord(n: nat)
    requires n < 256
    ensures Be32(n) == [0, 0, 0, n]
  {
  }

  lemma {:induction false} MagicWord()
    ensures Be32(FDT_MAGIC) == [0xd0, 0x0d, 0xfe, 0xed]
  {
    BigEndian(FDT_MAGIC);
  }

  /** The structure block of a root with the single property `a`, of the one byte 7: begin node, empty name; property, its
      length, its name's offset, its value; end node; end. */
  lemma {:induction false} KnownStructure()
    ensures StructureBytes(Node([], [Prop([97], [7])])) ==
              [0, 0, 0, 1] + [0, 0, 0, 0] + [0, 0, 0, 3] + [0, 0, 0, 1] + [0, 0, 0, 0] + [7, 0, 0, 0] + [0, 0, 0, 2] + [0, 0, 0, 9]
    ensures StringsBytes(Node([], [Prop([97], [7])])) == [97, 0]
  {
    hide Be32;
    SmallWord(1);
    SmallWord(3);
    SmallWord(0);
    SmallWord(2);
    SmallWord(9);
    var items := [Prop([97], [7])];
    assert items[1..] == [];
    assert ItemsBytes(items[1..], ItemNames(items[0], [])) == [] && ItemsNames(items[1..], ItemNames(items[0], [])) == [[97]];
    assert [[97]][1..] == [] && Pool([]) == [];
    assert Pool([[97]]) == [97] + [0] + Pool([[97]][1..]);
  }

  /** Its header: magic number, total size 90, the places of structure, strings and reservations, versions 17 and 16, the
      boot processor, and the sizes of strings and structure. */
  lemma {:induction false} KnownHeader()
    ensures Words(Header(32, 2)) ==
              [0xd0, 0x0d, 0xfe, 0xed] + [0, 0, 0, 90] + [0, 0, 0, 56] + [0, 0, 0, 88] + [0, 0, 0, 40]
              + [0, 0, 0, 17] + [0, 0, 0, 16] + [0, 0, 0, 0] + [0, 0, 0, 2] + [0, 0, 0, 32]
  {
    hide Be32;
    TenWords(Header(32, 2));
    hide Words;
    MagicWord();
    SmallWord(90);
    SmallWord(56);
    SmallWord(88);
    SmallWord(40);
    SmallWord(17);
    SmallWord(16);
    SmallWord(0);
    SmallWord(2);
    SmallWord(32);
  }

  // ----- The parser undoes the layout -----

  lemma {:induction false} NamesGrow(items: seq<Item>, names: seq<Name>)
    ensures names <= ItemsNames(items, names)
    ensures Pool(names) <= Pool(ItemsNames(items, names))
    decreases items
  {
    if items != [] {
      NamesGrowItem(items[0], names);
      NamesGrow(items[1..], ItemNames(items[0], names));
      assert names <= ItemNames(items[0], names);
    }
    PoolGrows(names, ItemsNames(items, names));
  }

  lemma {:induction false} NamesGrowItem(item: Item, names: seq<Name>)
    ensures names <= ItemNames(item, names)
    decreases item
  {
    if item.Sub? {
      NamesGrow(item.node.items, names);
    }
  }

  lemma {:induction false} PoolGrows(names: seq<Name>, more: seq<Name>)
    requires names <= more
    ensures Pool(names) <= Pool(more)
  {
    assert more == names + more[|names|..];
    PoolAppend(names, more[|names|..]);
  }

  /** Puts one item in front of a parsed sequence. */
  function Front(item: Item, r: Option<(seq<Item>, seq<u8>)>): (s: Option<(seq<Item>, seq<u8>)>) {
    if r.None? then None else Some(([item] + r.value.0, r.value.1))
  }

  lemma {:induction false} ParsePropUndoes(name: Name, data: seq<u8>, names: seq<Name>, strings: seq<u8>, more: seq<u8>)
    requires NulFree(name) && |data| < U32 && |strings| < U32 && Pool(AddName(names, name)) <= strings
    ensures ParseItems(PropBytes(Offset(names, name), data) + more, strings, true) ==
              Front(Prop(name, data), ParseItems(more, strings, true))
    ensures ParseItems(PropBytes(Offset(names, name), data) + more, strings, false) == None
  {
    var pool := Pool(AddName(names, name));
    OffsetReads(names, name, strings[|pool|..]);
    assert strings == pool + strings[|pool|..];
    ParsePropAt(Offset(names, name), name, data, strings, more);
  }

  lemma {:induction false} ParsePropAt(off: nat, name: Name, data: seq<u8>, strings: seq<u8>, more: seq<u8>)
    requires |data| < U32 && off < |strings| < U32 && CString(strings[off..]) == Some(name)
    ensures ParseItems(PropBytes(off, data) + more, strings, true) == Front(Prop(name, data), ParseItems(more, strings, true))
    ensures ParseItems(PropBytes(off, data) + more, strings, false) == None
  {
    hide CString;
    hide Be32;
    hide Word;
    hide ParseItems;
    hide ParseProp;
    hide PropBytes;
    hide Zeros;
    var body := data + Zeros(PadLen(|data|)) + more;
    var lens := Be32(|data|) + (Be32(off) + body);
    PropLayout(off, data, more);
    WordOfBe32(FDT_PROP, lens);
    WordOfBe32(|data|, Be32(off) + body);
    WordOfBe32(off, body);
    assert lens[8..] == lens[4..][4..];
    ParsePropReads(lens, strings, off, data, body, more, name);
    ParseDispatch(Be32(FDT_PROP) + lens, strings);
  }

  lemma {:induction false} PropLayout(off: nat, data: seq<u8>, more: seq<u8>)
    ensures PropBytes(off, data) + more ==
              Be32(FDT_PROP) + (Be32(|data|) + (Be32(off) + (data + Zeros(PadLen(|data|)) + more)))
  {
  }

  /** The first word decides what is parsed. */
  lemma {:induction false} ParseDispatch(bs: seq<u8>, strings: seq<u8>)
    requires |bs| >= 4
    ensures Word(bs) == FDT_PROP ==> ParseItems(bs, strings, true) == ParseProp(bs[4..], strings) && ParseItems(bs, strings, false) == None
    ensures Word(bs) == FDT_BEGIN_NODE ==> forall props :: ParseItems(bs, strings, props) == ParseSub(bs[4..], strings)
    ensures Word(bs) == FDT_END_NODE ==> forall props :: ParseItems(bs, strings, props) == Some(([], bs[4..]))
  {
  }

  lemma {:induction false} ParsePropReads(bs: seq<u8>, strings: seq<u8>, off: nat, data: seq<u8>, body: seq<u8>, more: seq<u8>, name: Name)
    requires |bs| >= 8 && Word(bs) == |data| && Word(bs[4..]) == off && bs[8..] == body
    requires body == data + Zeros(PadLen(|data|)) + more
    requires off < |strings| && CString(strings[off..]) == Some(name)
    ensures ParseProp(bs, strings) == Front(Prop(name, data), ParseItems(more, strings, true))
  {
    assert body[|data| + PadLen(|data|)..] == more;
    assert body[..|data|] == data;
  }

  /** What the parser makes of an item written before `more`: it refuses one that is out of order. */
  function FrontIfFits(item: Item, props: bool, r: Option<(seq<Item>, seq<u8>)>): (s: Option<(seq<Item>, seq<u8>)>) {
    if Fits(item, props) then Front(item, r) else None
  }

  lemma {:induction false} ParseSubUndoes(item: Item, names: seq<Name>, strings: seq<u8>, more: seq<u8>, props: bool)
    requires item.Sub? && ItemNulFree(item) && |ItemBytes(item, names)| < U32 && |strings| < U32
    requires Pool(ItemNames(item, names)) <= strings
    ensures ParseItems(ItemBytes(item, names) + more, strings, props) == FrontIfFits(item, props, ParseItems(more, strings, false))
    decreases item, 1
  {
    hide ParseSub;
    var Sub(Node(name, inner)) := item;
    ParseItemsUndoes(inner, names, strings, more, true);
    var content := ItemsBytes(inner, names) + (EndBytes() + more);
    var bs := name + [0] + (Zeros(PadLen(|name| + 1)) + content);
    SubLayout(name, inner, names, more);
    WordOfBe32(FDT_BEGIN_NODE, bs);
    ParseDispatch(Be32(FDT_BEGIN_NODE) + bs, strings);
    ParseSubReads(name, content, strings);
  }

  lemma {:induction false} SubLayout(name: Name, inner: seq<Item>, names: seq<Name>, more: seq<u8>)
    ensures ItemBytes(Sub(Node(name, inner)), names) + more ==
              Be32(FDT_BEGIN_NODE) + (name + [0] + (Zeros(PadLen(|name| + 1)) + (ItemsBytes(inner, names) + (EndBytes() + more))))
  {
  }

  lemma {:induction false} ParseSubReads(name: Name, content: seq<u8>, strings: seq<u8>)
    requires NulFree(name)
    ensures var inner := ParseItems(content, strings, true);
            ParseSub(name + [0] + (Zeros(PadLen(|name| + 1)) + content), strings) ==
              if inner.None? then None else Front(Sub(Node(name, inner.value.0)), ParseItems(inner.value.1, strings, false))
  {
    hide CString;
    var bs := name + [0] + (Zeros(PadLen(|name| + 1)) + content);
    CStringReads(name, Zeros(PadLen(|name| + 1)) + content);
    assert bs[|name| + 1 + PadLen(|name| + 1)..] == content;
  }

  lemma {:induction false} ParseItemUndoes(item: Item, names: seq<Name>, strings: seq<u8>, more: seq<u8>, props: bool)
    requires ItemNulFree(item) && |ItemBytes(item, names)| < U32 && |strings| < U32
    requires Pool(ItemNames(item, names)) <= strings
    ensures ParseItems(ItemBytes(item, names) + more, strings, props) ==
              FrontIfFits(item, props, ParseItems(more, strings, props && item.Prop?))
    decreases item, 2
  {
    if item.Prop? {
      ParsePropUndoes(item.name, item.data, names, strings, more);
    } else {
      ParseSubUndoes(item, names, strings, more, props);
    }
  }

  /** The parser gives back any list written, if it is in order, and refuses it if not. */
  lemma {:induction false} ParseItemsUndoes(items: seq<Item>, names: seq<Name>, strings: seq<u8>, rest: seq<u8>, props: bool)
    requires ItemsNulFree(items) && |ItemsBytes(items, names)| < U32 && |strings| < U32
    requires Pool(ItemsNames(items, names)) <= strings
    ensures ParseItems(ItemsBytes(items, names) + (EndBytes() + rest), strings, props) ==
              if PropsFirst(items, props) then Some((items, rest)) else None
    decreases items, 0
  {
    hide Be32;
    hide Fits;
    var tail := EndBytes() + rest;
    if items == [] {
      assert ItemsBytes(items, names) + tail == tail;
      WordOfBe32(FDT_END_NODE, rest);
      ParseDispatch(tail, strings);
    } else {
      var next := ItemNames(items[0], names);
      var more := ItemsBytes(items[1..], next) + tail;
      assert ItemsBytes(items, names) + tail == ItemBytes(items[0], names) + more;
      ParseItemsUndoes(items[1..], next, strings, rest, props && items[0].Prop?);
      NamesGrow(items[1..], next);
      ParseItemUndoes(items[0], names, strings, more, props);
      assert items == [items[0]] + items[1..];
    }
  }

  // ----- The whole blob -----

  function Words(ws: seq<nat>): (bs: seq<u8>)
    ensures |bs| == 4 * |ws|
  {
    if ws == [] then [] else Be32(ws[0]) + Words(ws[1..])
  }

  lemma {:induction false} WordAt(ws: seq<nat>, k: nat, rest: seq<u8>)
    requires k < |ws|
    ensures Word((Words(ws) + rest)[4 * k..]) == ws[k] % U32
  {
    var bs := Words(ws) + rest;
    var tail := Words(ws[1..]) + rest;
    assert bs == Be32(ws[0]) + tail;
    WordOfBe32(ws[0], tail);
    if k == 0 {
      assert bs[0..] == bs;
    } else {
      WordAt(ws[1..], k - 1, rest);
      assert bs[4 * k..] == tail[4 * (k - 1)..];
    }
  }

  lemma {:induction false} TenWords(ws: seq<nat>)
    requires |ws| == 10
    ensures Words(ws) == Be32(ws[0]) + Be32(ws[1]) + Be32(ws[2]) + Be32(ws[3]) + Be32(ws[4])
                         + Be32(ws[5]) + Be32(ws[6]) + Be32(ws[7]) + Be32(ws[8]) + Be32(ws[9])
  {
    FiveWords(ws[..5]);
    FiveWords(ws[5..]);
    assert ws == ws[..5] + ws[5..];
    WordsAppend(ws[..5], ws[5..]);
  }

  lemma {:induction false} FiveWords(ws: seq<nat>)
    requires |ws| == 5
    ensures Words(ws) == Be32(ws[0]) + Be32(ws[1]) + Be32(ws[2]) + Be32(ws[3]) + Be32(ws[4])
  {
    assert ws[1..][1..] == ws[2..];
    assert ws[2..][1..] == ws[3..];
    assert ws[3..][1..] == ws[4..];
    assert ws[4..][1..] == [];
    assert Words([]) == [];
    assert Words(ws[4..]) == Be32(ws[4]);
    assert Words(ws[3..]) == Be32(ws[3]) + Words(ws[4..]);
    assert Words(ws[2..]) == Be32(ws[2]) + Words(ws[3..]);
    assert Words(ws[1..]) == Be32(ws[1]) + Words(ws[2..]);
  }

  lemma {:induction false} WordsAppend(a: seq<nat>, b: seq<nat>)
    ensures Words(a + b) == Words(a) + Words(b)
  {
    if a == [] {
      assert a + b == b;
    } else {
      assert (a + b)[1..] == a[1..] + b;
      WordsAppend(a[1..], b);
    }
  }

  /** The structure block of `root`, closed by FDT_END, and its strings block. */
  function StructureBytes(root: Node): (bs: seq<u8>) {
    ItemBytes(Sub(root), []) + Be32(FDT_END)
  }

  function StringsBytes(root: Node): (bs: seq<u8>) {
    Pool(ItemNames(Sub(root), []))
  }

  /** The header fields, before reduction to 32 bits. */
  function Header(structSize: nat, stringsSize: nat): (ws: seq<nat>) {
    var structAt := HEADER_SIZE + MEMRSV_SIZE;
    [FDT_MAGIC, structAt + structSize + stringsSize, structAt, structAt + structSize, HEADER_SIZE,
     FDT_VERSION, FDT_LAST_COMP_VERSION, 0, stringsSize, structSize]
  }

  function Blob(structure: seq<u8>, strings: seq<u8>): (bs: seq<u8>)
    ensures |bs| == HEADER_SIZE + MEMRSV_SIZE + |structure| + |strings|
  {
    Words(Header(|structure|, |strings|)) + Zeros(MEMRSV_SIZE) + structure + strings
  }

  /** The memory reservation block ends with an all-zero entry. */
  predicate ReservationsEnd(bs: seq<u8>)
    decreases |bs|
  {
    |bs| >= 16 && (bs[..16] == Zeros(16) || ReservationsEnd(bs[16..]))
  }

  /** One root node, then FDT_END, then nothing. */
  function ParseRoot(bs: seq<u8>, strings: seq<u8>): (r: Option<Node>)
    ensures r.Some? ==> NodeNulFree(r.value) && PropsFirst(r.value.items, true)
    decreases |bs|
  {
    if |bs| < 4 then None
    else if Word(bs) == FDT_NOP then ParseRoot(bs[4..], strings)
    else if Word(bs) != FDT_BEGIN_NODE then None
    else
      var name := CString(bs[4..]);
      if name.None? then None
      else
        var skip := 4 + |name.value| + 1 + PadLen(|name.value| + 1);
        if |bs| < skip then None
        else
          var inner := ParseItems(bs[skip..], strings, true);
          if inner.None? || |inner.value.1| != 4 || Word(inner.value.1) != FDT_END then None
          else Some(Node(name.value, inner.value.0))
  }

  function ParseBlob(b: seq<u8>): (r: Option<Node>)
    ensures r.Some? ==> NodeNulFree(r.value) && PropsFirst(r.value.items, true) && |b| < U32
  {
    if |b| < HEADER_SIZE || Word(b) != FDT_MAGIC || Word(b[4..]) != |b| then None
    else if Word(b[20..]) < FDT_VERSION || Word(b[24..]) > FDT_VERSION then None
    else
      var structAt, stringsAt, rsvAt := Word(b[8..]), Word(b[12..]), Word(b[16..]);
      var stringsSize, structSize := Word(b[32..]), Word(b[36..]);
      if structAt % 4 != 0 || rsvAt % 8 != 0 || rsvAt > structAt then None
      else if structAt + structSize > |b| || stringsAt + stringsSize > |b| then None
      else if !ReservationsEnd(b[rsvAt..structAt]) then None
      else ParseRoot(b[structAt..structAt + structSize], b[stringsAt..stringsAt + stringsSize])
  }

  lemma {:induction false} ParseRootUndoes(root: Node)
    requires NodeNulFree(root) && |StructureBytes(root)| < U32 && |StringsBytes(root)| < U32
    ensures ParseRoot(StructureBytes(root), StringsBytes(root)) == if PropsFirst(root.items, true) then Some(root) else None
  {
    var strings := StringsBytes(root);
    ParseItemsUndoes(root.items, [], strings, Be32(FDT_END), true);
    SubLayout(root.name, root.items, [], Be32(FDT_END));
    WordOfBe32(FDT_END, []);
    assert Be32(FDT_END) + [] == Be32(FDT_END);
    ParseRootReads(root.name, ItemsBytes(root.items, []) + (EndBytes() + Be32(FDT_END)), strings);
  }

  lemma {:induction false} ParseRootReads(name: Name, content: seq<u8>, strings: seq<u8>)
    requires NulFree(name)
    ensures var inner := ParseItems(content, strings, true);
            ParseRoot(Be32(FDT_BEGIN_NODE) + (name + [0] + (Zeros(PadLen(|name| + 1)) + content)), strings) ==
              if inner.None? || |inner.value.1| != 4 || Word(inner.value.1) != FDT_END then None else Some(Node(name, inner.value.0))
  {
    hide Be32;
    hide Word;
    hide CString;
    hide ParseItems;
    hide NulFree;
    hide Zeros;
    var body := name + [0] + (Zeros(PadLen(|name| + 1)) + content);
    var bs := Be32(FDT_BEGIN_NODE) + body;
    WordOfBe32(FDT_BEGIN_NODE, body);
    CStringReads(name, Zeros(PadLen(|name| + 1)) + content);
    assert bs[4 + |name| + 1 + PadLen(|name| + 1)..] == content;
  }

  lemma {:induction false} HeaderReads(structure: seq<u8>, strings: seq<u8>)
    ensures var b := Blob(structure, strings);
            var ws := Header(|structure|, |strings|);
            && Word(b) == ws[0] % U32 && Word(b[4..]) == ws[1] % U32 && Word(b[8..]) == ws[2] % U32
            && Word(b[12..]) == ws[3] % U32 && Word(b[16..]) == ws[4] % U32 && Word(b[20..]) == ws[5] % U32
            && Word(b[24..]) == ws[6] % U32 && Word(b[32..]) == ws[8] % U32 && Word(b[36..]) == ws[9] % U32
  {
    var b := Blob(structure, strings);
    var ws := Header(|structure|, |strings|);
    var rest := Zeros(MEMRSV_SIZE) + structure + strings;
    assert b == Words(ws) + rest;
    HeaderLength(|structure|, |strings|);
    assert b[0..] == b;
    WordAt(ws, 0, rest);
    WordAt(ws, 1, rest);
    WordAt(ws, 2, rest);
    WordAt(ws, 3, rest);
    WordAt(ws, 4, rest);
    WordAt(ws, 5, rest);
    WordAt(ws, 6, rest);
    WordAt(ws, 8, rest);
    WordAt(ws, 9, rest);
  }

  lemma {:induction false} HeaderLength(structSize: nat, stringsSize: nat)
    ensures |Header(structSize, stringsSize)| == 10
  {
  }

  lemma {:induction false} BlobParts(structure: seq<u8>, strings: seq<u8>)
    ensures var b := Blob(structure, strings);
            && b[56..56 + |structure|] == structure
            && b[56 + |structure|..56 + |structure| + |strings|] == strings
            && b[40..56] == Zeros(16)
  {
  }

  /** Writing and parsing a tree gives the tree back exactly when no name contains a NUL, every node has its
      properties before its subnodes, and the blob is smaller than 4 GiB; a tree that is out of order and nothing
      else is refused. */
  lemma {:induction false} RoundTrip(root: Node)
    ensures var size := HEADER_SIZE + MEMRSV_SIZE + |StructureBytes(root)| + |StringsBytes(root)|;
            var parsed := ParseBlob(Blob(StructureBytes(root), StringsBytes(root)));
            && (parsed == Some(root) <==> NodeNulFree(root) && PropsFirst(root.items, true) && size < U32)
            && (NodeNulFree(root) && size < U32 && !PropsFirst(root.items, true) ==> parsed == None)
  {
    hide StructureBytes;
    hide StringsBytes;
    hide ParseRoot;
    hide Word;
    hide Words;
    hide Blob;
    hide PropsFirst;
    var structure, strings := StructureBytes(root), StringsBytes(root);
    if NodeNulFree(root) && HEADER_SIZE + MEMRSV_SIZE + |structure| + |strings| < U32 {
      HeaderReads(structure, strings);
      BlobParts(structure, strings);
      ParseRootUndoes(root);
      var b := Blob(structure, strings);
      assert b[40..56][..16] == Zeros(16);
    }
  }
}
