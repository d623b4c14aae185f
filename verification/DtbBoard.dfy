/** The devicetree of the simulated board, and what holds of it for every memory map. */
module DtbBoard {
  import opened Bytes
  import opened FdtFormat
  import opened FdtBuilder

  type u64 = x: int | 0 <= x < 0x1_0000_0000_0000_0000

  /** The configured addresses. */
  datatype Platform = Platform(
    ramBase: u64, ramSize: u64, uartBase: u64, diskBase: u64, clintBase: u64, sysconBase: u64)

  const RTC_BASE: u64 := 0x10_1000
  const PLIC_BASE: u64 := 0x0c00_0000
  const TIMEBASE := 10_000_000
  const CPU0_INTC := 1
  const PLIC := 2
  const SYSCON := 3

  function Str(s: string): (bs: Name)
    ensures |bs| == |s|
  {
    seq(|s|, i requires 0 <= i < |s| => s[i] as int % 256)
  }

  /** `{:x}` */
  function Hex(n: nat): (bs: Name)
    ensures |bs| > 0 && NulFree(bs)
  {
    if n < 16 then [HexDigit(n)] else Hex(n / 16) + [HexDigit(n % 16)]
  }

  function HexDigit(d: nat): (b: u8)
    requires d < 16
    ensures b != 0
  {
    if d < 10 then 48 + d else 87 + d
  }

  // ----- Property names -----

  datatype Key =
    | BootArgs | StdoutPath | InterruptCells | Compatible | DeviceType | Status | InterruptController | RiscvIsa
    | MmuType | AddressCells | SizeCells | TimebaseFrequency | ClockFrequency | Interrupts | RiscvNdev
    | RegOffset | RegValue | Ranges | Model
    | PhandleKey | InterruptParent | Regmap | InterruptsExtended

  function Spell(k: Key): (s: string) {
    match k
    case BootArgs => "bootargs"
    case StdoutPath => "stdout-path"
    case InterruptCells => "#interrupt-cells"
    case Compatible => "compatible"
    case DeviceType => "device_type"
    case Status => "status"
    case InterruptController => "interrupt-controller"
    case RiscvIsa => "riscv,isa"
    case MmuType => "mmu-type"
    case AddressCells => "#address-cells"
    case SizeCells => "#size-cells"
    case TimebaseFrequency => "timebase-frequency"
    case ClockFrequency => "clock-frequency"
    case Interrupts => "interrupts"
    case RiscvNdev => "riscv,ndev"
    case RegOffset => "offset"
    case RegValue => "value"
    case Ranges => "ranges"
    case Model => "model"
    case PhandleKey => "phandle"
    case InterruptParent => "interrupt-parent"
    case Regmap => "regmap"
    case InterruptsExtended => "interrupts-extended"
  }

  function Named(k: Key): (name: Name) { Str(Spell(k)) }

  /** Properties that neither define a phandle nor refer to one. */
  predicate Ordinary(k: Key) { !k.PhandleKey? && !k.InterruptParent? && !k.Regmap? && !k.InterruptsExtended? }

  predicate Plain(s: string) { |s| <= 30 && forall i :: 0 <= i < |s| ==> 0 < s[i] as int < 256 }

  lemma {:induction false} PlainIsNulFree(s: string)
    requires Plain(s)
    ensures NulFree(Str(s))
  {
  }

  lemma {:induction false} SpellIsPlain(k: Key)
    ensures Plain(Spell(k))
  {
    match k
    case BootArgs => PlainNames1();
    case StdoutPath => PlainNames1();
    case InterruptCells => PlainNames1();
    case Compatible => PlainNames1();
    case DeviceType => PlainNames1();
    case Status => PlainNames1();
    case InterruptController => PlainNames2();
    case RiscvIsa => PlainNames2();
    case MmuType => PlainNames2();
    case AddressCells => PlainNames2();
    case SizeCells => PlainNames2();
    case TimebaseFrequency => PlainNames2();
    case ClockFrequency => PlainNames3();
    case Interrupts => PlainNames3();
    case RiscvNdev => PlainNames3();
    case RegOffset => PlainNames3();
    case RegValue => PlainNames3();
    case Ranges => PlainNames3();
    case Model => PlainNames4();
    case PhandleKey => PlainNames4();
    case InterruptParent => PlainNames4();
    case Regmap => PlainNames4();
    case InterruptsExtended => PlainNames4();
  }

  lemma {:induction false} PlainNames1()
    ensures Plain("bootargs") && Plain("stdout-path") && Plain("#interrupt-cells") && Plain("compatible") && Plain("device_type") && Plain("status")
  {
  }

  lemma {:induction false} PlainNames2()
    ensures Plain("interrupt-controller") && Plain("riscv,isa") && Plain("mmu-type") && Plain("#address-cells") && Plain("#size-cells") && Plain("timebase-frequency")
  {
  }

  lemma {:induction false} PlainNames3()
    ensures Plain("clock-frequency") && Plain("interrupts") && Plain("riscv,ndev") && Plain("offset") && Plain("value") && Plain("ranges")
  {
  }

  lemma {:induction false} PlainNames4()
    ensures Plain("model") && Plain("phandle") && Plain("interrupt-parent") && Plain("regmap") && Plain("interrupts-extended")
  {
  }

  lemma {:induction false} NameIsPlain(k: Key)
    ensures NulFree(Named(k)) && |Named(k)| <= 30
  {
    hide Spell;
    SpellIsPlain(k);
    PlainIsNulFree(Spell(k));
  }

  function Length(k: Key): (n: nat) {
    match k
    case BootArgs => 8
    case StdoutPath => 11
    case InterruptCells => 16
    case Compatible => 10
    case DeviceType => 11
    case Status => 6
    case InterruptController => 20
    case RiscvIsa => 9
    case MmuType => 8
    case AddressCells => 14
    case SizeCells => 11
    case TimebaseFrequency => 18
    case ClockFrequency => 15
    case Interrupts => 10
    case RiscvNdev => 10
    case RegOffset => 6
    case RegValue => 5
    case Ranges => 6
    case Model => 5
    case PhandleKey => 7
    case InterruptParent => 16
    case Regmap => 6
    case InterruptsExtended => 19
  }

  lemma {:induction false} LengthIs(k: Key)
    ensures |Named(k)| == Length(k)
  {
  }

  lemma {:induction false} FirstLetters()
    ensures Named(InterruptCells)[0] != Named(InterruptParent)[0] && Named(Status)[0] != Named(Regmap)[0]
    ensures Named(RegOffset)[0] != Named(Regmap)[0] && Named(Ranges)[1] != Named(Regmap)[1]
  {
  }

  /** Lengths and first letters tell the other names from the four of phandles and links. */
  lemma {:induction false} LinkNamesDiffer(k: Key)
    ensures Ordinary(k) ==>
      Named(k) != Named(PhandleKey) && Named(k) != Named(InterruptParent) && Named(k) != Named(Regmap) && Named(k) != Named(InterruptsExtended)
  {
    LengthIs(k);
    LinkLengths();
    FirstLetters();
  }

  lemma {:induction false} LinkLengths()
    ensures |Named(PhandleKey)| == 7 && |Named(InterruptParent)| == 16 && |Named(Regmap)| == 6 && |Named(InterruptsExtended)| == 19
  {
    LengthIs(PhandleKey);
    LengthIs(InterruptParent);
    LengthIs(Regmap);
    LengthIs(InterruptsExtended);
  }

  // ----- The tree is small and its names are plain -----

  /** An upper bound for the bytes an item adds to both blocks. */
  function Weight(item: Item): (n: nat)
    decreases item
  {
    match item
    case Prop(name, data) => 16 + |name| + |data|
    case Sub(Node(name, items)) => 16 + |name| + ItemsWeight(items)
  }

  function ItemsWeight(items: seq<Item>): (n: nat)
    decreases items
  {
    if items == [] then 0 else Weight(items[0]) + ItemsWeight(items[1..])
  }

  lemma {:induction false} ItemsWeightBounds(items: seq<Item>, names: seq<Name>)
    ensures |ItemsBytes(items, names)| + |Pool(ItemsNames(items, names))| <= |Pool(names)| + ItemsWeight(items)
    decreases items
  {
    if items != [] {
      WeightBounds(items[0], names);
      ItemsWeightBounds(items[1..], ItemNames(items[0], names));
    }
  }

  lemma {:induction false} WeightBounds(item: Item, names: seq<Name>)
    ensures |ItemBytes(item, names)| + |Pool(ItemNames(item, names))| <= |Pool(names)| + Weight(item)
    decreases item
  {
    match item
    case Prop(name, data) =>
      if name !in names {
        PoolAppend(names, [name]);
        assert Pool([name]) == name + [0] + Pool([name][1..]);
      }
    case Sub(Node(name, items)) =>
      ItemsWeightBounds(items, names);
  }

  // ----- Cross references -----

  /** How often the property `t` occurs in an item. */
  function Count(item: Item, t: Item): (n: nat)
    decreases item
  {
    match item
    case Prop(_, _) => if item == t then 1 else 0
    case Sub(Node(_, items)) => CountAll(items, t)
  }

  function CountAll(items: seq<Item>, t: Item): (n: nat)
    decreases items
  {
    if items == [] then 0 else Count(items[0], t) + CountAll(items[1..], t)
  }

  function Phandle(h: nat): (i: Item) { Prop(Named(PhandleKey), Be32(h)) }

  /** The nodes that define phandle `h`, outermost first. */
  ghost function Owners(item: Item, h: nat): (ns: seq<Node>)
    decreases item
  {
    match item
    case Prop(_, _) => []
    case Sub(Node(name, items)) => (if Phandle(h) in items then [Node(name, items)] else []) + OwnersAll(items, h)
  }

  ghost function OwnersAll(items: seq<Item>, h: nat): (ns: seq<Node>)
    decreases items
  {
    if items == [] then [] else Owners(items[0], h) + OwnersAll(items[1..], h)
  }

  /** A property that refers to a node by phandle: interrupt parents name the PLIC, syscon users the
      syscon, extended interrupts the hart's interrupt controller. */
  predicate LinkOk(item: Item)
    requires item.Prop?
  {
    && (item.name == Named(InterruptParent) ==> item.data == Be32(PLIC))
    && (item.name == Named(Regmap) ==> item.data == Be32(SYSCON))
    && (item.name == Named(InterruptsExtended) ==>
          |item.data| == 16 && Word(item.data) == CPU0_INTC && Word(item.data[8..]) == CPU0_INTC)
  }

  /** Every property of the item, at any depth, is a correct link. */
  predicate Linked(item: Item)
    decreases item
  {
    match item
    case Prop(_, _) => LinkOk(item)
    case Sub(Node(_, items)) => forall i :: 0 <= i < |items| ==> Linked(items[i])
  }

  // ----- Checking the tree node by node -----

  /** The item has no NUL in a name, properties before subnodes, adds at most `m` bytes, and links correctly. */
  ghost predicate Tidy(item: Item, m: nat) { ItemNulFree(item) && Fits(item, true) && Weight(item) <= m && Linked(item) }

  /** Phandle `h` is defined in the item once if `own` has it, by the node given there, and not at all if not. */
  ghost predicate Defines(item: Item, h: nat, own: map<nat, Node>) {
    && Count(item, Phandle(h)) == (if h in own then 1 else 0)
    && (item.Sub? ==> Owners(item, h) == if h in own then [own[h]] else [])
  }

  ghost predicate Good(item: Item, m: nat, own: map<nat, Node>) {
    Tidy(item, m) && forall h: nat :: 1 <= h <= 3 ==> Defines(item, h, own)
  }

  // ----- The tree -----

  function Text(k: Key, value: Name): (i: Item)
    ensures i.Prop?
    ensures Ordinary(k) && |value| <= 120 ==> Good(i, 200, map[])
  {
    OrdinaryProp(k, value + [0]);
    Prop(Named(k), value + [0])
  }

  function Cell(k: Key, value: nat): (i: Item)
    ensures i.Prop?
    ensures Ordinary(k) || (k.InterruptParent? && value == PLIC) || (k.Regmap? && value == SYSCON) ==> Good(i, 200, map[])
    ensures k.PhandleKey? ==> i == Phandle(value)
  {
    OrdinaryProp(k, Be32(value));
    LinkProp(k, value);
    Prop(Named(k), Be32(value))
  }

  function Flag(k: Key): (i: Item)
    ensures i.Prop?
    ensures Ordinary(k) ==> Good(i, 200, map[])
  {
    OrdinaryProp(k, []);
    Prop(Named(k), [])
  }

  function Reg(addr: nat, size: nat): (i: Item)
    ensures i.Prop?
    ensures Good(i, 200, map[])
  {
    RegProp(Reg22(addr, size));
    Prop(REG, Reg22(addr, size))
  }

  /** Two interrupts of the hart's interrupt controller. */
  function HartInterrupts(a: nat, b: nat): (i: Item)
    ensures i.Prop?
    ensures Good(i, 200, map[])
  {
    HartLink(a, b);
    Prop(Named(InterruptsExtended), Be32(CPU0_INTC) + Be32(a) + Be32(CPU0_INTC) + Be32(b))
  }

  function Bootargs(p: Platform): (bs: Name) {
    Str("root=/dev/vda rw console=ttyS0 earlycon=uart8250,mmio,0x") + Hex(p.uartBase) + Str(" rootwait")
  }

  function Chosen(p: Platform): (n: Node) {
    Node(Str("chosen"), [Text(BootArgs, Bootargs(p)), Text(StdoutPath, Str("/soc/uart@") + Hex(p.uartBase))])
  }

  function HartIntc(): (n: Node) {
    Node(Str("interrupt-controller"),
         [Cell(InterruptCells, 1), Flag(InterruptController), Text(Compatible, Str("riscv,cpu-intc")),
          Cell(PhandleKey, CPU0_INTC)])
  }

  function Cpu0(): (n: Node) {
    Node(Str("cpu@0"),
         [Text(DeviceType, Str("cpu")), Prop(REG, Be32(0)), Text(Status, Str("okay")),
          Text(Compatible, Str("riscv")), Text(RiscvIsa, Str("rv64imafdc")), Text(MmuType, Str("riscv,sv39")),
          Sub(HartIntc())])
  }

  function Cpus(): (n: Node) {
    Node(Str("cpus"),
         [Cell(AddressCells, 1), Cell(SizeCells, 0), Cell(TimebaseFrequency, TIMEBASE), Sub(Cpu0())])
  }

  function Memory(p: Platform): (n: Node) {
    Node(Str("memory@") + Hex(p.ramBase), [Text(DeviceType, Str("memory")), Reg(p.ramBase, p.ramSize)])
  }

  function Clint(p: Platform): (n: Node) {
    Node(Str("clint@") + Hex(p.clintBase),
         [Text(Compatible, Str("riscv,clint0")), Reg(p.clintBase, 0x10000), HartInterrupts(3, 7)])
  }

  function Uart(p: Platform): (n: Node) {
    Node(Str("uart@") + Hex(p.uartBase),
         [Text(Compatible, Str("ns16550a")), Reg(p.uartBase, 0x100), Cell(ClockFrequency, 10_000_000),
          Cell(InterruptParent, PLIC), Cell(Interrupts, 10), Text(Status, Str("okay"))])
  }

  function Virtio(p: Platform): (n: Node) {
    Node(Str("virtio_mmio@") + Hex(p.diskBase),
         [Text(Compatible, Str("virtio,mmio")), Reg(p.diskBase, 0x1000), Cell(InterruptParent, PLIC),
          Cell(Interrupts, 1)])
  }

  function PlicNode(): (n: Node) {
    Node(Str("interrupt-controller@") + Hex(PLIC_BASE),
         [Text(Compatible, Str("riscv,plic0")), Reg(PLIC_BASE, 0x4000000), Cell(InterruptCells, 1),
          Flag(InterruptController), HartInterrupts(11, 9), Cell(RiscvNdev, 0x35), Cell(PhandleKey, PLIC)])
  }

  function Syscon(p: Platform): (n: Node) {
    Node(Str("syscon@") + Hex(p.sysconBase),
         [Text(Compatible, Str("syscon")), Reg(p.sysconBase, 0x1000), Cell(PhandleKey, SYSCON)])
  }

  /** Writes `value` to the syscon: power off and reboot. */
  function SysconAction(name: string, compatible: string, value: nat): (n: Node) {
    Node(Str(name),
         [Text(Compatible, Str(compatible)), Cell(Regmap, SYSCON), Cell(RegOffset, 0), Cell(RegValue, value)])
  }

  function Rtc(): (n: Node) {
    Node(Str("rtc@") + Hex(RTC_BASE),
         [Text(Compatible, Str("google,goldfish-rtc")), Reg(RTC_BASE, 0x1000), Cell(InterruptParent, PLIC),
          Cell(Interrupts, 11)])
  }

  function Soc(p: Platform): (n: Node) {
    Node(Str("soc"),
         [Cell(AddressCells, 2), Cell(SizeCells, 2), Text(Compatible, Str("simple-bus")), Flag(Ranges),
          Sub(Clint(p)), Sub(Uart(p)), Sub(Virtio(p)), Sub(PlicNode()), Sub(Syscon(p)),
          Sub(SysconAction("poweroff", "syscon-poweroff", 0x5555)),
          Sub(SysconAction("reboot", "syscon-reboot", 0x7777)), Sub(Rtc())])
  }

  function Board(p: Platform): (n: Node) {
    Node([], [Cell(AddressCells, 2), Cell(SizeCells, 2), Text(Compatible, Str("riscv-virtio")),
              Text(Model, Str("riscv-virtio,qemu")),
              Sub(Chosen(p)), Sub(Cpus()), Sub(Memory(p)), Sub(Soc(p))])
  }

  // ----- Single properties -----

  lemma {:induction false} OtherName(name: Name, data: seq<u8>)
    requires NulFree(name) && |name| <= 30 && |data| <= 150
    requires name != Named(PhandleKey) && name != Named(InterruptParent) && name != Named(Regmap) && name != Named(InterruptsExtended)
    ensures Good(Prop(name, data), 200, map[])
  {
  }

  lemma {:induction false} OrdinaryProp(k: Key, data: seq<u8>)
    ensures Ordinary(k) && |data| <= 150 ==> Good(Prop(Named(k), data), 200, map[])
  {
    NameIsPlain(k);
    LinkNamesDiffer(k);
    if Ordinary(k) && |data| <= 150 {
      OtherName(Named(k), data);
    }
  }

  lemma {:induction false} RegProp(data: seq<u8>)
    ensures |data| <= 150 ==> Good(Prop(REG, data), 200, map[])
  {
    LinkLengths();
    if |data| <= 150 {
      OtherName(REG, data);
    }
  }

  /** Stands for the node around a property that is not yet in one. */
  const NOWHERE := Node([], [])

  /** Equal words have equal bytes, so different phandles are different properties. */
  lemma {:induction false} Be32Differs(g: nat, h: nat)
    requires g < 256 && h < 256
    ensures Be32(g) == Be32(h) <==> g == h
  {
    assert Be32(g)[3] == g && Be32(h)[3] == h;
  }

  lemma {:induction false} PhandleItem(g: nat)
    requires 1 <= g <= 3
    ensures Good(Phandle(g), 200, map[g := NOWHERE])
  {
    NameIsPlain(PhandleKey);
    LinkLengths();
    forall h: nat | 1 <= h <= 3 ensures Be32(g) == Be32(h) <==> g == h {
      Be32Differs(g, h);
    }
  }

  lemma {:induction false} LinkProp(k: Key, value: nat)
    ensures (k.InterruptParent? && value == PLIC) || (k.Regmap? && value == SYSCON) ==> Good(Prop(Named(k), Be32(value)), 200, map[])
  {
    NameIsPlain(k);
    LinkLengths();
  }

  lemma {:induction false} HartLink(a: nat, b: nat)
    ensures Good(Prop(Named(InterruptsExtended), Be32(CPU0_INTC) + Be32(a) + Be32(CPU0_INTC) + Be32(b)), 200, map[])
  {
    NameIsPlain(InterruptsExtended);
    LinkLengths();
    hide Word;
    var tail := Be32(CPU0_INTC) + Be32(b);
    var data := Be32(CPU0_INTC) + Be32(a) + Be32(CPU0_INTC) + Be32(b);
    assert data == Be32(CPU0_INTC) + (Be32(a) + tail);
    assert data[8..] == tail;
    WordOfBe32(CPU0_INTC, Be32(a) + tail);
    WordOfBe32(CPU0_INTC, Be32(b));
  }

  // ----- Nodes -----

  /** Items of which the first `k` are properties and the others subnodes are in order. */
  lemma {:induction false} GroupedIsOrdered(items: seq<Item>, k: nat, props: bool)
    requires forall i :: 0 <= i < |items| ==> Fits(items[i], true) && (items[i].Prop? <==> i < k)
    requires k > 0 ==> props
    ensures PropsFirst(items, props)
    decreases |items|
  {
    if items != [] {
      var rest := items[1..];
      assert Fits(items[0], true);
      assert forall i :: 0 <= i < |rest| ==> rest[i] == items[i + 1];
      GroupedIsOrdered(rest, if k == 0 then 0 else k - 1, props && items[0].Prop?);
    }
  }

  lemma {:induction false} ItemsTidy(items: seq<Item>, m: nat)
    requires forall i :: 0 <= i < |items| ==> Tidy(items[i], m)
    ensures ItemsNulFree(items) && ItemsWeight(items) <= |items| * m
    decreases |items|
  {
    hide Linked;
    if items != [] {
      var rest := items[1..];
      ItemsTidy(rest, m);
      assert |items| * m == m + |rest| * m;
    }
  }

  /** If item `j` alone defines phandle `h`, so does the list. */
  lemma {:induction false} OneDefines(items: seq<Item>, h: nat, j: int, own: map<nat, Node>)
    requires h in own <==> 0 <= j < |items|
    requires forall i :: 0 <= i < |items| ==> Defines(items[i], h, if i == j then own else map[])
    ensures CountAll(items, Phandle(h)) == if h in own then 1 else 0
    ensures OwnersAll(items, h) == if h in own && items[j].Sub? then [own[h]] else []
    decreases |items|
  {
    if items != [] {
      var rest := items[1..];
      if j == 0 {
        OneDefines(rest, h, -1, map[]);
      } else {
        OneDefines(rest, h, j - 1, own);
      }
    }
  }

  lemma {:induction false} DefinedHere(items: seq<Item>, h: nat, j: int, own: map<nat, Node>)
    requires h in own <==> 0 <= j < |items|
    requires forall i :: 0 <= i < |items| ==> Defines(items[i], h, if i == j then own else map[])
    ensures Phandle(h) in items <==> h in own && items[j].Prop?
  {
    forall i | 0 <= i < |items| && items[i].Prop?
      ensures items[i] == Phandle(h) <==> i == j
    {
      assert Defines(items[i], h, if i == j then own else map[]);
    }
    assert forall i :: 0 <= i < |items| ==> items[i] == Phandle(h) ==> items[i].Prop? by { PhandleIsProp(h); }
  }

  lemma {:induction false} PhandleIsProp(h: nat)
    ensures Phandle(h).Prop?
  {
  }

  /** What item `i` of a node defines, seen from outside: a property counts for the node. */
  ghost function Lift(node: Node, i: int, own: map<nat, Node>): (r: map<nat, Node>) {
    if 0 <= i < |node.items| && node.items[i].Prop? then map h | h in own :: node else own
  }

  lemma {:induction false} NodeDefines(node: Node, h: nat, j: int, own: map<nat, Node>)
    requires h in own <==> 0 <= j < |node.items|
    requires forall i :: 0 <= i < |node.items| ==> Defines(node.items[i], h, if i == j then own else map[])
    ensures Defines(Sub(node), h, Lift(node, j, own))
  {
    OneDefines(node.items, h, j, own);
    DefinedHere(node.items, h, j, own);
  }

  /** A node of `k` properties and then subnodes whose items are good is good; the items `i1` and `i2` define the phandles. */
  lemma {:induction false} NodeGood(node: Node, k: nat, m: nat, n: nat, i1: int, own1: map<nat, Node>, i2: int, own2: map<nat, Node>, own: map<nat, Node>)
    requires own == Lift(node, i1, own1) + Lift(node, i2, own2)
    requires NulFree(node.name) && 16 + |node.name| + |node.items| * m <= n && i1 != i2 && own1.Keys !! own2.Keys
    requires (own1 != map[] ==> 0 <= i1 < |node.items|) && (own2 != map[] ==> 0 <= i2 < |node.items|)
    requires forall i :: 0 <= i < |node.items| ==> Good(node.items[i], m, if i == i1 then own1 else if i == i2 then own2 else map[])
    requires forall i :: 0 <= i < |node.items| ==> (node.items[i].Prop? <==> i < k)
    ensures Good(Sub(node), n, own)
  {
    hide Tidy;
    TidyNode(node, k, m, n);
    forall h: nat | 1 <= h <= 3
      ensures Defines(Sub(node), h, own)
    {
      var j, part := if h in own1 then i1 else if h in own2 then i2 else -1, if h in own1 then own1 else if h in own2 then own2 else map[];
      forall i | 0 <= i < |node.items|
        ensures Defines(node.items[i], h, if i == j then part else map[])
      {
        assert Good(node.items[i], m, if i == i1 then own1 else if i == i2 then own2 else map[]);
      }
      NodeDefines(node, h, j, part);
    }
  }

  lemma {:induction false} TidyNode(node: Node, k: nat, m: nat, n: nat)
    requires NulFree(node.name) && 16 + |node.name| + |node.items| * m <= n
    requires forall i :: 0 <= i < |node.items| ==> Tidy(node.items[i], m)
    requires forall i :: 0 <= i < |node.items| ==> (node.items[i].Prop? <==> i < k)
    ensures Tidy(Sub(node), n)
  {
    GroupedIsOrdered(node.items, k, true);
    ItemsTidy(node.items, m);
    assert forall i :: 0 <= i < |node.items| ==> Tidy(node.items[i], m) && Linked(node.items[i]);
  }

  /** The node names of the board. */
  lemma {:induction false} NodeNames()
    ensures NulFree(Str("chosen")) && NulFree(Str("cpu@0")) && NulFree(Str("cpus")) && NulFree(Str("memory@")) && NulFree(Str("soc"))
    ensures NulFree(Str("clint@")) && NulFree(Str("uart@")) && NulFree(Str("virtio_mmio@")) && NulFree(Str("interrupt-controller@"))
    ensures NulFree(Str("interrupt-controller")) && NulFree(Str("syscon@")) && NulFree(Str("rtc@"))
  {
    PlainNodeNames();
    hide Plain;
    forall s: string | Plain(s) ensures NulFree(Str(s)) {
      PlainIsNulFree(s);
    }
  }

  lemma {:induction false} PlainNodeNames()
    ensures Plain("chosen") && Plain("cpu@0") && Plain("cpus") && Plain("memory@") && Plain("soc") && Plain("clint@")
    ensures Plain("uart@") && Plain("virtio_mmio@") && Plain("interrupt-controller@") && Plain("interrupt-controller")
    ensures Plain("syscon@") && Plain("rtc@")
  {
  }

  function Pow16(k: nat): (n: nat)
    ensures n > 0
  {
    if k == 0 then 1 else 16 * Pow16(k - 1)
  }

  lemma {:induction false} HexLength(n: nat, k: nat)
    requires n < Pow16(k) && k > 0
    ensures |Hex(n)| <= k
  {
    if n >= 16 {
      HexLength(n / 16, k - 1);
    }
  }

  lemma {:induction false} HexIsShort(n: u64)
    ensures |Hex(n)| <= 16
  {
    assert Pow16(4) == 0x1_0000;
    assert Pow16(8) == 0x1_0000_0000;
    assert Pow16(12) == 0x1_0000_0000_0000;
    assert Pow16(16) == 0x1_0000_0000_0000_0000;
    HexLength(n, 16);
  }

  lemma {:induction false} GoodGrows(m: nat, n: nat)
    requires m <= n
    ensures forall i: Item, own: map<nat, Node> {:trigger Good(i, m, own)} :: Good(i, m, own) ==> Good(i, n, own)
  {
  }

  lemma {:induction false} ChosenGood(p: Platform)
    ensures Good(Sub(Chosen(p)), 1000, map[])
  {
    hide Good;
    hide Str;
    NodeNames();
    HexIsShort(p.uartBase);
    NodeGood(Chosen(p), 2, 200, 1000, -1, map[], -2, map[], map[]);
  }

  lemma {:induction false} HartIntcGood()
    ensures Good(Sub(HartIntc()), 1000, map[CPU0_INTC := HartIntc()])
  {
    hide Good;
    NodeNames();
    PhandleItem(CPU0_INTC);
    NodeGood(HartIntc(), 4, 200, 1000, 3, map[CPU0_INTC := NOWHERE], -2, map[], map[CPU0_INTC := HartIntc()]);
  }

  lemma {:induction false} Cpu0Good()
    ensures Good(Sub(Cpu0()), 8000, map[CPU0_INTC := HartIntc()])
  {
    hide Good;
    hide HartIntc;
    NodeNames();
    RegProp(Be32(0));
    HartIntcGood();
    GoodGrows(200, 1000);
    NodeGood(Cpu0(), 6, 1000, 8000, 6, map[CPU0_INTC := HartIntc()], -2, map[], map[CPU0_INTC := HartIntc()]);
  }

  lemma {:induction false} CpusGood()
    ensures Good(Sub(Cpus()), 40000, map[CPU0_INTC := HartIntc()])
  {
    hide Good;
    hide HartIntc;
    hide Cpu0;
    NodeNames();
    Cpu0Good();
    GoodGrows(200, 8000);
    NodeGood(Cpus(), 3, 8000, 40000, 3, map[CPU0_INTC := HartIntc()], -2, map[], map[CPU0_INTC := HartIntc()]);
  }

  lemma {:induction false} MemoryGood(p: Platform)
    ensures Good(Sub(Memory(p)), 1000, map[])
  {
    NodeNames();
    HexIsShort(p.ramBase);
    NodeGood(Memory(p), 2, 200, 1000, -1, map[], -2, map[], map[]);
  }

  lemma {:induction false} ClintGood(p: Platform)
    ensures Good(Sub(Clint(p)), 2000, map[])
  {
    hide Good;
    NodeNames();
    HexIsShort(p.clintBase);
    NodeGood(Clint(p), 3, 200, 2000, -1, map[], -2, map[], map[]);
  }

  lemma {:induction false} UartGood(p: Platform)
    ensures Good(Sub(Uart(p)), 2000, map[])
  {
    hide Good;
    NodeNames();
    HexIsShort(p.uartBase);
    NodeGood(Uart(p), 6, 200, 2000, -1, map[], -2, map[], map[]);
  }

  lemma {:induction false} VirtioGood(p: Platform)
    ensures Good(Sub(Virtio(p)), 2000, map[])
  {
    NodeNames();
    HexIsShort(p.diskBase);
    NodeGood(Virtio(p), 4, 200, 2000, -1, map[], -2, map[], map[]);
  }

  lemma {:induction false} PlicGood()
    ensures Good(Sub(PlicNode()), 2000, map[PLIC := PlicNode()])
  {
    hide Good;
    NodeNames();
    PhandleItem(PLIC);
    HexIsShort(PLIC_BASE);
    NodeGood(PlicNode(), 7, 200, 2000, 6, map[PLIC := NOWHERE], -2, map[], map[PLIC := PlicNode()]);
  }

  lemma {:induction false} SysconGood(p: Platform)
    ensures Good(Sub(Syscon(p)), 2000, map[SYSCON := Syscon(p)])
  {
    hide Good;
    NodeNames();
    PhandleItem(SYSCON);
    HexIsShort(p.sysconBase);
    NodeGood(Syscon(p), 3, 200, 2000, 2, map[SYSCON := NOWHERE], -2, map[], map[SYSCON := Syscon(p)]);
  }

  lemma {:induction false} SysconActionGood(name: string, compatible: string, value: nat)
    requires Plain(name) && |compatible| <= 100
    ensures Good(Sub(SysconAction(name, compatible, value)), 2000, map[])
  {
    PlainIsNulFree(name);
    NodeGood(SysconAction(name, compatible, value), 4, 200, 2000, -1, map[], -2, map[], map[]);
  }

  lemma {:induction false} RtcGood()
    ensures Good(Sub(Rtc()), 2000, map[])
  {
    hide Good;
    NodeNames();
    HexIsShort(RTC_BASE);
    NodeGood(Rtc(), 4, 200, 2000, -1, map[], -2, map[], map[]);
  }

  lemma {:induction false} SocGood(p: Platform)
    ensures Good(Sub(Soc(p)), 40000, map[PLIC := PlicNode(), SYSCON := Syscon(p)])
  {
    hide Good;
    hide Str;
    hide Clint;
    hide Uart;
    hide Virtio;
    hide PlicNode;
    hide Syscon;
    hide SysconAction;
    hide Rtc;
    NodeNames();
    ClintGood(p);
    UartGood(p);
    VirtioGood(p);
    PlicGood();
    SysconGood(p);
    SysconActionGood("poweroff", "syscon-poweroff", 0x5555);
    SysconActionGood("reboot", "syscon-reboot", 0x7777);
    RtcGood();
    GoodGrows(200, 2000);
    NodeGood(Soc(p), 4, 2000, 40000, 7, map[PLIC := PlicNode()], 8, map[SYSCON := Syscon(p)], map[PLIC := PlicNode(), SYSCON := Syscon(p)]);
  }

  /** The node each phandle is meant for. */
  function BoardOwners(p: Platform): (own: map<nat, Node>) {
    map[CPU0_INTC := HartIntc(), PLIC := PlicNode(), SYSCON := Syscon(p)]
  }

  /** For every memory map: names are plain, the tree is small, every reference by phandle names the controller meant,
      and the three phandles are defined once each, by the hart's interrupt controller, the PLIC and the syscon. */
  lemma {:induction false} BoardGood(p: Platform)
    ensures Good(Sub(Board(p)), 400000, BoardOwners(p))
  {
    hide Good;
    hide Str;
    hide Chosen;
    hide Cpus;
    hide Memory;
    hide Soc;
    hide HartIntc;
    hide PlicNode;
    hide Syscon;
    NodeNames();
    ChosenGood(p);
    CpusGood();
    MemoryGood(p);
    SocGood(p);
    GoodGrows(200, 40000);
    GoodGrows(1000, 40000);
    NodeGood(Board(p), 4, 40000, 400000, 5, map[CPU0_INTC := HartIntc()], 7, map[PLIC := PlicNode(), SYSCON := Syscon(p)], BoardOwners(p));
  }

  /** Each phandle of the board is held by the node it is meant for, and by no other. */
  lemma {:induction false} PhandleOwners(p: Platform)
    ensures Owners(Sub(Board(p)), CPU0_INTC) == [HartIntc()] && Owners(Sub(Board(p)), PLIC) == [PlicNode()]
    ensures Owners(Sub(Board(p)), SYSCON) == [Syscon(p)] && Linked(Sub(Board(p)))
  {
    hide Board;
    hide Phandle;
    hide PlicNode;
    BoardGood(p);
    var own := BoardOwners(p);
    assert Defines(Sub(Board(p)), CPU0_INTC, own) && Defines(Sub(Board(p)), PLIC, own) && Defines(Sub(Board(p)), SYSCON, own);
  }

  /** Reading the two cells of a `reg` property back gives the configured base and size. */
  lemma {:induction false} RegDecodes(addr: u64, size: u64)
    ensures var data := Reg22(addr, size);
            && |data| == 16
            && Word(data) * U32 + Word(data[4..]) == addr
            && Word(data[8..]) * U32 + Word(data[12..]) == size
  {
    hide Be32;
    hide Word;
    var a1, a0, s1, s0 := Be32(addr / U32), Be32(addr % U32), Be32(size / U32), Be32(size % U32);
    var data := Reg22(addr, size);
    assert data == a1 + (a0 + (s1 + s0));
    WordOfBe32(addr / U32, a0 + (s1 + s0));
    WordOfBe32(addr % U32, s1 + s0);
    assert data[4..] == a0 + (s1 + s0) && data[8..] == s1 + s0 && data[12..] == s0;
    WordOfBe32(size / U32, s0);
    WordOfBe32(size % U32, []);
    assert s0 + [] == s0;
  }
}
