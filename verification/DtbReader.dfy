/** What an operating system reads in the board's devicetree, in terms of the parsed tree alone: nodes by name, single
    properties by name, cells as numbers. */
module DtbReader {
  import opened Bytes
  import opened FdtFormat
  import opened FdtBuilder
  import opened DtbBoard

  // ----- Reading a node -----

  /** Item `i` is a property, and no other of the items has its name. */
  ghost predicate Single(items: seq<Item>, i: int) {
    && 0 <= i < |items| && items[i].Prop?
    && forall j :: 0 <= j < |items| && j != i && items[j].Prop? ==> items[j].name != items[i].name
  }

  /** Item `i` is the one property called `name`, and its value is `data`. */
  ghost predicate OnlyAt(items: seq<Item>, i: int, name: Name, data: seq<u8>) {
    Single(items, i) && items[i] == Prop(name, data)
  }

  /** The node has one property called `name`, with value `data`. */
  ghost predicate Only(n: Node, name: Name, data: seq<u8>) { exists i :: OnlyAt(n.items, i, name, data) }

  /** The value is the cells `ws`, 32 bits each, most significant byte first. */
  predicate CellsAre(data: seq<u8>, ws: seq<nat>) {
    |data| == 4 * |ws| && forall k :: 0 <= k < |ws| ==> Word(data[4 * k..]) == ws[k]
  }

  ghost predicate HasCells(n: Node, name: Name, ws: seq<nat>) { exists data :: Only(n, name, data) && CellsAre(data, ws) }

  ghost predicate HasText(n: Node, name: Name, value: Name) { Only(n, name, value + [0]) }

  /** Two address cells and two size cells. */
  ghost predicate HasRegion(n: Node, base: nat, size: nat) {
    HasCells(n, Str("reg"), [base / U32, base % U32, size / U32, size % U32])
  }

  function DigitValue(b: u8): (v: int) {
    if 48 <= b <= 57 then b as int - 48 else if 97 <= b <= 102 then b as int - 87 else -1
  }

  /** The number written in lower-case hexadecimal digits, if it is one. */
  function HexValue(s: Name): (r: Option<int>) {
    if s == [] then Some(0)
    else
      var high, d := HexValue(s[..|s| - 1]), DigitValue(s[|s| - 1]);
      if high.None? || d < 0 then None else Some(16 * high.value + d)
  }

  /** The name is `prefix` with `base` for unit address. */
  predicate NamedAt(name: Name, prefix: string, base: nat) {
    Str(prefix) <= name && name != Str(prefix) && HexValue(name[|prefix|..]) == Some(base)
  }

  ghost predicate HasChild(n: Node, c: Node) { Sub(c) in n.items }

  /** A device node under `n`: name, unit address, one `reg` with that address, and what drivers match it by. */
  ghost predicate Device(n: Node, c: Node, prefix: string, base: nat, size: nat, compatible: string) {
    && HasChild(n, c) && NamedAt(c.name, prefix, base) && HasRegion(c, base, size)
    && HasText(c, Str("compatible"), Str(compatible))
  }

  /** The node is wired to line `line` of the interrupt controller with phandle `parent`. */
  ghost predicate Wired(c: Node, parent: nat, line: nat) {
    HasCells(c, Str("interrupt-parent"), [parent]) && HasCells(c, Str("interrupts"), [line])
  }

  ghost predicate Cellular(n: Node, address: nat, size: nat) {
    HasCells(n, Str("#address-cells"), [address]) && HasCells(n, Str("#size-cells"), [size])
  }

  // ----- Reading the board -----

  ghost predicate MemoryRead(root: Node, p: Platform) {
    exists c :: && HasChild(root, c) && NamedAt(c.name, "memory@", p.ramBase) && HasRegion(c, p.ramBase, p.ramSize)
                && HasText(c, Str("device_type"), Str("memory"))
  }

  ghost predicate CpusRead(root: Node) {
    exists cpus, cpu, intc ::
      && HasChild(root, cpus) && HasChild(cpus, cpu) && HasChild(cpu, intc)
      && cpus.name == Str("cpus") && cpu.name == Str("cpu@0") && intc.name == Str("interrupt-controller")
      && Cellular(cpus, 1, 0) && HasCells(cpus, Str("timebase-frequency"), [10_000_000])
      && HasCells(cpu, Str("reg"), [0]) && HasText(cpu, Str("riscv,isa"), Str("rv64imafdc")) && HasText(cpu, Str("mmu-type"), Str("riscv,sv39"))
      && HasCells(intc, Str("#interrupt-cells"), [1]) && HasCells(intc, Str("phandle"), [1])
      && HasText(intc, Str("compatible"), Str("riscv,cpu-intc")) && Only(intc, Str("interrupt-controller"), [])
  }

  /** The core-local interrupter: lines 3 and 7 of the hart's controller. */
  ghost predicate ClintRead(soc: Node, p: Platform) {
    exists c :: Device(soc, c, "clint@", p.clintBase, 0x1_0000, "riscv,clint0") && HasCells(c, Str("interrupts-extended"), [1, 3, 1, 7])
  }

  /** The interrupt controller of the devices: lines 11 and 9 of the hart's controller. */
  ghost predicate PlicRead(soc: Node) {
    exists c ::
      && Device(soc, c, "interrupt-controller@", 0xc00_0000, 0x400_0000, "riscv,plic0")
      && HasCells(c, Str("interrupts-extended"), [1, 11, 1, 9]) && HasCells(c, Str("phandle"), [2])
      && HasCells(c, Str("#interrupt-cells"), [1]) && HasCells(c, Str("riscv,ndev"), [53]) && Only(c, Str("interrupt-controller"), [])
  }

  ghost predicate UartRead(root: Node, soc: Node, p: Platform) {
    exists c ::
      && Device(soc, c, "uart@", p.uartBase, 0x100, "ns16550a") && Wired(c, 2, 10)
      && HasCells(c, Str("clock-frequency"), [10_000_000]) && ConsoleIs(root, c)
  }

  /** The standard output named in `/chosen` is this node of `/soc`. */
  ghost predicate ConsoleIs(root: Node, c: Node) {
    exists chosen :: HasChild(root, chosen) && chosen.name == Str("chosen") && HasText(chosen, Str("stdout-path"), Str("/soc/") + c.name)
  }

  ghost predicate DiskRead(soc: Node, p: Platform) {
    exists c :: Device(soc, c, "virtio_mmio@", p.diskBase, 0x1000, "virtio,mmio") && Wired(c, 2, 1)
  }

  ghost predicate ClockRead(soc: Node) {
    exists c :: Device(soc, c, "rtc@", 0x10_1000, 0x1000, "google,goldfish-rtc") && Wired(c, 2, 11)
  }

  ghost predicate SysconRead(soc: Node, p: Platform) {
    exists c :: Device(soc, c, "syscon@", p.sysconBase, 0x1000, "syscon") && HasCells(c, Str("phandle"), [3])
  }

  /** Writing `value` at offset 0 of the node with phandle 3. */
  ghost predicate ActionRead(soc: Node, name: string, compatible: string, value: nat) {
    exists c ::
      && HasChild(soc, c) && c.name == Str(name) && HasText(c, Str("compatible"), Str(compatible))
      && HasCells(c, Str("regmap"), [3]) && HasCells(c, Str("offset"), [0]) && HasCells(c, Str("value"), [value])
  }

  ghost predicate SocRead(root: Node, soc: Node, p: Platform) {
    && HasChild(root, soc) && soc.name == Str("soc") && Cellular(soc, 2, 2) && Only(soc, Str("ranges"), [])
    && ClintRead(soc, p) && UartRead(root, soc, p) && DiskRead(soc, p) && PlicRead(soc) && SysconRead(soc, p) && ClockRead(soc)
    && ActionRead(soc, "poweroff", "syscon-poweroff", 0x5555) && ActionRead(soc, "reboot", "syscon-reboot", 0x7777)
  }

  ghost predicate BoardRead(root: Node, p: Platform) {
    && root.name == [] && Cellular(root, 2, 2) && MemoryRead(root, p) && CpusRead(root)
    && exists soc :: SocRead(root, soc, p)
  }

  // ----- Hexadecimal -----

  lemma {:induction false} DigitReads(d: nat)
    requires d < 16
    ensures DigitValue(HexDigit(d)) == d
  {
  }

  lemma {:induction false} ValueSnoc(s: Name, b: u8)
    ensures HexValue(s + [b]) == if HexValue(s).None? || DigitValue(b) < 0 then None else Some(16 * HexValue(s).value + DigitValue(b))
  {
    hide DigitValue;
    assert (s + [b])[..|s|] == s;
  }

  lemma {:induction false} HexReads(n: nat)
    ensures HexValue(Hex(n)) == Some(n)
  {
    hide HexValue;
    hide DigitValue;
    hide HexDigit;
    if n < 16 {
      DigitReads(n);
      ValueSnoc([], HexDigit(n));
      assert [] + [HexDigit(n)] == Hex(n);
      NothingReads();
    } else {
      HexReads(n / 16);
      DigitReads(n % 16);
      ValueSnoc(Hex(n / 16), HexDigit(n % 16));
    }
  }

  lemma {:induction false} NothingReads()
    ensures HexValue([]) == Some(0)
  {
  }

  lemma {:induction false} NameReads(prefix: string, base: nat)
    ensures NamedAt(Str(prefix) + Hex(base), prefix, base)
  {
    hide HexValue;
    HexReads(base);
    assert (Str(prefix) + Hex(base))[|prefix|..] == Hex(base);
  }

  // ----- Names -----

  function SecondLetter(k: Key): (c: int) {
    match k
    case BootArgs => 111
    case StdoutPath => 116
    case InterruptCells => 105
    case Compatible => 111
    case DeviceType => 101
    case Status => 116
    case InterruptController => 110
    case RiscvIsa => 105
    case MmuType => 109
    case AddressCells => 97
    case SizeCells => 115
    case TimebaseFrequency => 105
    case ClockFrequency => 108
    case Interrupts => 110
    case RiscvNdev => 105
    case RegOffset => 102
    case RegValue => 97
    case Ranges => 97
    case Model => 111
    case PhandleKey => 104
    case InterruptParent => 110
    case Regmap => 101
    case InterruptsExtended => 110
  }

  lemma {:induction false} SecondLetterIs(k: Key)
    ensures |Named(k)| > 1 && Named(k)[1] as int == SecondLetter(k)
  {
  }

  /** Length and second letter tell all property names apart. */
  lemma {:induction false} NamesDiffer(k: Key, l: Key)
    ensures k != l ==> Named(k) != Named(l)
    ensures Named(k) != REG
  {
    LengthIs(k);
    LengthIs(l);
    SecondLetterIs(k);
    SecondLetterIs(l);
    hide Named;
  }

  lemma {:induction false} AllNamesDiffer()
    ensures forall k: Key, l: Key :: k != l ==> Named(k) != Named(l)
    ensures forall k: Key :: Named(k) != REG
  {
    hide Named;
    forall k: Key, l: Key
      ensures k != l ==> Named(k) != Named(l)
    {
      NamesDiffer(k, l);
    }
    forall k: Key
      ensures Named(k) != REG
    {
      NamesDiffer(k, k);
    }
  }

  // ----- Single properties of a node -----

  lemma {:induction false} OneCell(v: nat)
    requires v < U32
    ensures CellsAre(Be32(v), [v])
  {
    hide Word;
    hide Be32;
    WordValue(v);
    assert Be32(v)[0..] == Be32(v);
  }

  lemma {:induction false} FourCells(a: nat, b: nat, c: nat, d: nat)
    requires a < U32 && b < U32 && c < U32 && d < U32
    ensures CellsAre(Be32(a) + Be32(b) + Be32(c) + Be32(d), [a, b, c, d])
  {
    hide Word;
    hide Be32;
    var data := Be32(a) + Be32(b) + Be32(c) + Be32(d);
    WordOfBe32(a, Be32(b) + Be32(c) + Be32(d));
    WordOfBe32(b, Be32(c) + Be32(d));
    WordOfBe32(c, Be32(d));
    WordValue(d);
    assert data[0..] == Be32(a) + (Be32(b) + Be32(c) + Be32(d));
    assert data[4..] == Be32(b) + (Be32(c) + Be32(d));
    assert data[8..] == Be32(c) + Be32(d);
    assert data[12..] == Be32(d);
  }

  lemma {:induction false} CellAt(n: Node, i: int, k: Key, v: nat)
    requires v < U32 && OnlyAt(n.items, i, Named(k), Be32(v))
    ensures HasCells(n, Str(Spell(k)), [v])
  {
    hide Be32;
    hide CellsAre;
    hide OnlyAt;
    OneCell(v);
    assert Only(n, Named(k), Be32(v));
  }

  lemma {:induction false} LinesAt(n: Node, i: int, a: nat, b: nat)
    requires a < U32 && b < U32 && OnlyAt(n.items, i, Named(InterruptsExtended), Be32(1) + Be32(a) + Be32(1) + Be32(b))
    ensures HasCells(n, Str("interrupts-extended"), [1, a, 1, b])
  {
    hide Be32;
    hide CellsAre;
    hide OnlyAt;
    FourCells(1, a, 1, b);
    assert Only(n, Named(InterruptsExtended), Be32(1) + Be32(a) + Be32(1) + Be32(b));
  }

  lemma {:induction false} TextAt(n: Node, i: int, k: Key, value: Name)
    requires OnlyAt(n.items, i, Named(k), value + [0])
    ensures HasText(n, Str(Spell(k)), value)
  {
  }

  lemma {:induction false} FlagAt(n: Node, i: int, k: Key)
    requires OnlyAt(n.items, i, Named(k), [])
    ensures Only(n, Str(Spell(k)), [])
  {
  }

  lemma {:induction false} RegionAt(n: Node, i: int, base: u64, size: u64)
    requires OnlyAt(n.items, i, REG, Reg22(base, size))
    ensures HasRegion(n, base, size)
  {
    hide Be32;
    hide CellsAre;
    hide OnlyAt;
    RegIsSpelled();
    FourCells(base / U32, base % U32, size / U32, size % U32);
    assert Only(n, REG, Reg22(base, size));
  }

  lemma {:induction false} RegIsSpelled()
    ensures Str("reg") == REG
  {
  }

  // ----- The properties of a node are told apart by their keys -----

  function KeyName(k: Option<Key>): (name: Name) { match k case None => REG case Some(key) => Named(key) }

  /** The first items of the node are properties with these keys, the others are subnodes. */
  ghost predicate Keyed(n: Node, ks: seq<Option<Key>>) {
    && |ks| <= |n.items|
    && (forall j :: 0 <= j < |ks| ==> n.items[j].Prop? && n.items[j].name == KeyName(ks[j]))
    && (forall j :: |ks| <= j < |n.items| ==> n.items[j].Sub?)
    && (forall i, j :: 0 <= i < j < |ks| ==> ks[i] != ks[j])
  }

  lemma {:induction false} PropsAre(n: Node, ks: seq<Option<Key>>)
    requires Keyed(n, ks)
    ensures forall i :: 0 <= i < |ks| ==> Single(n.items, i)
  {
    hide Named;
    AllNamesDiffer();
    forall i, j | 0 <= i < |ks| && 0 <= j < |n.items| && j != i && n.items[j].Prop?
      ensures n.items[j].name != n.items[i].name
    {
      assert ks[i] != ks[j];
    }
  }

  // ----- The nodes -----

  lemma {:induction false} DeviceIs(n: Node, c: Node, prefix: string, base: u64, size: u64, compatible: string)
    requires HasChild(n, c) && c.name == Str(prefix) + Hex(base)
    requires OnlyAt(c.items, 0, Named(Compatible), Str(compatible) + [0]) && OnlyAt(c.items, 1, REG, Reg22(base, size))
    ensures Device(n, c, prefix, base, size, compatible)
  {
    hide Str;
    hide Hex;
    hide HasRegion;
    hide HasText;
    hide NamedAt;
    NameReads(prefix, base);
    RegionAt(c, 1, base, size);
    TextAt(c, 0, Compatible, Str(compatible));
  }

  lemma {:induction false} WiredIs(c: Node, i: int, line: nat)
    requires line < U32 && OnlyAt(c.items, i, Named(InterruptParent), Be32(2)) && OnlyAt(c.items, i + 1, Named(Interrupts), Be32(line))
    ensures Wired(c, 2, line)
  {
    hide Str;
    hide HasCells;
    CellAt(c, i, InterruptParent, 2);
    CellAt(c, i + 1, Interrupts, line);
  }

  lemma {:induction false} MemoryIsRead(p: Platform, root: Node)
    requires HasChild(root, Memory(p))
    ensures MemoryRead(root, p)
  {
    hide Str;
    hide Hex;
    hide Be32;
    hide Named;
    hide HasText;
    hide HasCells;
    hide Good;
    hide Single;
    hide HasRegion;
    hide NamedAt;
    var c := Memory(p);
    PropsAre(c, [Some(DeviceType), None]);
    NameReads("memory@", p.ramBase);
    RegionAt(c, 1, p.ramBase, p.ramSize);
    TextAt(c, 0, DeviceType, Str("memory"));
  }

  lemma {:induction false} ClintIsRead(p: Platform, soc: Node)
    requires HasChild(soc, Clint(p))
    ensures ClintRead(soc, p)
  {
    hide Str;
    hide Hex;
    hide Be32;
    hide Named;
    hide HasText;
    hide HasCells;
    hide Good;
    hide Single;
    hide Device;
    var c := Clint(p);
    PropsAre(c, [Some(Compatible), None, Some(InterruptsExtended)]);
    DeviceIs(soc, c, "clint@", p.clintBase, 0x1_0000, "riscv,clint0");
    LinesAt(c, 2, 3, 7);
  }

  lemma {:induction false} UartIsRead(p: Platform, root: Node, soc: Node)
    requires HasChild(soc, Uart(p)) && HasChild(root, Chosen(p))
    ensures UartRead(root, soc, p)
  {
    hide Str;
    hide Hex;
    hide Be32;
    hide Named;
    hide HasText;
    hide HasCells;
    hide Good;
    hide Single;
    hide ConsoleIs;
    hide Wired;
    hide Chosen;
    hide Device;
    var c := Uart(p);
    PropsAre(c, [Some(Compatible), None, Some(ClockFrequency), Some(InterruptParent), Some(Interrupts), Some(Status)]);
    DeviceIs(soc, c, "uart@", p.uartBase, 0x100, "ns16550a");
    CellAt(c, 2, ClockFrequency, 10_000_000);
    WiredIs(c, 3, 10);
    ConsoleIsUart(p, root);
  }

  lemma {:induction false} ConsoleIsUart(p: Platform, root: Node)
    requires HasChild(root, Chosen(p))
    ensures ConsoleIs(root, Uart(p))
  {
    hide Hex;
    hide Named;
    hide HasText;
    hide Good;
    hide Single;
    hide Bootargs;
    var c := Chosen(p);
    PropsAre(c, [Some(BootArgs), Some(StdoutPath)]);
    PathIs(p);
    hide Str;
    hide Uart;
    TextAt(c, 1, StdoutPath, Str("/soc/uart@") + Hex(p.uartBase));
  }

  lemma {:induction false} PathIs(p: Platform)
    ensures Str("/soc/uart@") + Hex(p.uartBase) == Str("/soc/") + Uart(p).name
  {
    hide Hex;
    assert Str("/soc/uart@") == Str("/soc/") + Str("uart@");
  }

  lemma {:induction false} DiskIsRead(p: Platform, soc: Node)
    requires HasChild(soc, Virtio(p))
    ensures DiskRead(soc, p)
  {
    hide Str;
    hide Hex;
    hide Be32;
    hide Named;
    hide HasText;
    hide HasCells;
    hide Good;
    hide Single;
    hide Wired;
    hide Device;
    var c := Virtio(p);
    PropsAre(c, [Some(Compatible), None, Some(InterruptParent), Some(Interrupts)]);
    DeviceIs(soc, c, "virtio_mmio@", p.diskBase, 0x1000, "virtio,mmio");
    WiredIs(c, 2, 1);
  }

  lemma {:induction false} PlicKeyed()
    ensures Keyed(PlicNode(), [Some(Compatible), None, Some(InterruptCells), Some(InterruptController), Some(InterruptsExtended), Some(RiscvNdev), Some(PhandleKey)])
  {
    hide Str;
    hide Hex;
    hide Be32;
    hide Named;
    hide Good;
  }

  lemma {:induction false} PlicIsRead(soc: Node)
    requires HasChild(soc, PlicNode())
    ensures PlicRead(soc)
  {
    hide Str;
    hide Hex;
    hide Be32;
    hide Named;
    hide HasText;
    hide HasCells;
    hide Good;
    hide Single;
    hide Device;
    hide Keyed;
    PlicKeyed();
    var c := PlicNode();
    PropsAre(c, [Some(Compatible), None, Some(InterruptCells), Some(InterruptController), Some(InterruptsExtended), Some(RiscvNdev), Some(PhandleKey)]);
    DeviceIs(soc, c, "interrupt-controller@", PLIC_BASE, 0x400_0000, "riscv,plic0");
    CellAt(c, 2, InterruptCells, 1);
    LinesAt(c, 4, 11, 9);
    CellAt(c, 5, RiscvNdev, 53);
    CellAt(c, 6, PhandleKey, 2);
    FlagAt(c, 3, InterruptController);
  }

  lemma {:induction false} SysconIsRead(p: Platform, soc: Node)
    requires HasChild(soc, Syscon(p))
    ensures SysconRead(soc, p)
  {
    hide Str;
    hide Hex;
    hide Be32;
    hide Named;
    hide HasText;
    hide HasCells;
    hide Good;
    hide Single;
    hide Device;
    var c := Syscon(p);
    PropsAre(c, [Some(Compatible), None, Some(PhandleKey)]);
    DeviceIs(soc, c, "syscon@", p.sysconBase, 0x1000, "syscon");
    CellAt(c, 2, PhandleKey, 3);
  }

  lemma {:induction false} ClockIsRead(soc: Node)
    requires HasChild(soc, Rtc())
    ensures ClockRead(soc)
  {
    hide Str;
    hide Hex;
    hide Be32;
    hide Named;
    hide HasText;
    hide HasCells;
    hide Good;
    hide Single;
    hide Wired;
    hide Device;
    var c := Rtc();
    PropsAre(c, [Some(Compatible), None, Some(InterruptParent), Some(Interrupts)]);
    DeviceIs(soc, c, "rtc@", RTC_BASE, 0x1000, "google,goldfish-rtc");
    WiredIs(c, 2, 11);
  }

  lemma {:induction false} ActionIsRead(soc: Node, name: string, compatible: string, value: nat)
    requires value < U32 && HasChild(soc, SysconAction(name, compatible, value))
    ensures ActionRead(soc, name, compatible, value)
  {
    hide Str;
    hide Hex;
    hide Be32;
    hide Named;
    hide HasText;
    hide HasCells;
    hide Good;
    hide Single;
    var c := SysconAction(name, compatible, value);
    PropsAre(c, [Some(Compatible), Some(Regmap), Some(RegOffset), Some(RegValue)]);
    TextAt(c, 0, Compatible, Str(compatible));
    CellAt(c, 1, Regmap, 3);
    CellAt(c, 2, RegOffset, 0);
    CellAt(c, 3, RegValue, value);
  }

  lemma {:induction false} IntcIsRead()
    ensures var intc := HartIntc();
            && HasCells(intc, Str("#interrupt-cells"), [1]) && HasCells(intc, Str("phandle"), [1])
            && HasText(intc, Str("compatible"), Str("riscv,cpu-intc")) && Only(intc, Str("interrupt-controller"), [])
  {
    hide Str;
    hide Hex;
    hide Be32;
    hide Named;
    hide HasText;
    hide HasCells;
    hide Good;
    hide Single;
    var c := HartIntc();
    PropsAre(c, [Some(InterruptCells), Some(InterruptController), Some(Compatible), Some(PhandleKey)]);
    CellAt(c, 0, InterruptCells, 1);
    FlagAt(c, 1, InterruptController);
    TextAt(c, 2, Compatible, Str("riscv,cpu-intc"));
    CellAt(c, 3, PhandleKey, 1);
  }

  lemma {:induction false} HartIsRead()
    ensures var cpu := Cpu0();
            && cpu.name == Str("cpu@0") && HasChild(cpu, HartIntc())
            && HasCells(cpu, Str("reg"), [0]) && HasText(cpu, Str("riscv,isa"), Str("rv64imafdc")) && HasText(cpu, Str("mmu-type"), Str("riscv,sv39"))
  {
    hide Str;
    hide Hex;
    hide Be32;
    hide Named;
    hide HasText;
    hide HasCells;
    hide Good;
    hide Single;
    hide HartIntc;
    hide CellsAre;
    var c := Cpu0();
    PropsAre(c, [Some(DeviceType), None, Some(Status), Some(Compatible), Some(RiscvIsa), Some(MmuType)]);
    TextAt(c, 4, RiscvIsa, Str("rv64imafdc"));
    TextAt(c, 5, MmuType, Str("riscv,sv39"));
    RegCellAt(c, 1, 0);
    assert c.items[6] == Sub(HartIntc());
  }

  lemma {:induction false} RegCellAt(n: Node, i: int, v: nat)
    requires v < U32 && OnlyAt(n.items, i, REG, Be32(v))
    ensures HasCells(n, Str("reg"), [v])
  {
    hide Be32;
    hide CellsAre;
    hide OnlyAt;
    RegIsSpelled();
    OneCell(v);
    assert Only(n, REG, Be32(v));
  }

  lemma {:induction false} CpusAreRead(root: Node)
    requires HasChild(root, Cpus())
    ensures CpusRead(root)
  {
    hide Str;
    hide Hex;
    hide Be32;
    hide Named;
    hide HasText;
    hide HasCells;
    hide Good;
    hide Single;
    hide HartIntc;
    hide Cpu0;
    var c := Cpus();
    PropsAre(c, [Some(AddressCells), Some(SizeCells), Some(TimebaseFrequency)]);
    CellAt(c, 0, AddressCells, 1);
    CellAt(c, 1, SizeCells, 0);
    CellAt(c, 2, TimebaseFrequency, TIMEBASE);
    assert c.items[3] == Sub(Cpu0());
    HartIsRead();
    IntcIsRead();
    assert HartIntc().name == Str("interrupt-controller") by { IntcName(); }
  }

  lemma {:induction false} IntcName()
    ensures HartIntc().name == Str("interrupt-controller")
  {
  }

  lemma {:induction false} SocIsRead(p: Platform, root: Node)
    requires HasChild(root, Soc(p)) && HasChild(root, Chosen(p))
    ensures SocRead(root, Soc(p), p)
  {
    var soc := Soc(p);
    SocCells(p);
    SocChildren(p);
    hide Soc;
    hide Clint;
    hide Uart;
    hide Virtio;
    hide PlicNode;
    hide Syscon;
    hide SysconAction;
    hide Rtc;
    hide Chosen;
    hide Str;
    hide Cellular;
    hide HasChild;
    hide Only;
    hide ClintRead;
    hide UartRead;
    hide DiskRead;
    hide PlicRead;
    hide SysconRead;
    hide ClockRead;
    hide ActionRead;
    ClintIsRead(p, soc);
    UartIsRead(p, root, soc);
    DiskIsRead(p, soc);
    PlicIsRead(soc);
    SysconIsRead(p, soc);
    ActionIsRead(soc, "poweroff", "syscon-poweroff", 0x5555);
    ActionIsRead(soc, "reboot", "syscon-reboot", 0x7777);
    ClockIsRead(soc);
  }

  lemma {:induction false} SocCells(p: Platform)
    ensures Soc(p).name == Str("soc") && Cellular(Soc(p), 2, 2) && Only(Soc(p), Str("ranges"), [])
  {
    hide Str;
    hide Hex;
    hide Be32;
    hide Named;
    hide HasText;
    hide HasCells;
    hide Good;
    hide Single;
    hide Clint;
    hide Uart;
    hide Virtio;
    hide PlicNode;
    hide Syscon;
    hide SysconAction;
    hide Rtc;
    var c := Soc(p);
    PropsAre(c, [Some(AddressCells), Some(SizeCells), Some(Compatible), Some(Ranges)]);
    CellAt(c, 0, AddressCells, 2);
    CellAt(c, 1, SizeCells, 2);
    FlagAt(c, 3, Ranges);
  }

  lemma {:induction false} SocChildren(p: Platform)
    ensures var soc := Soc(p);
            && HasChild(soc, Clint(p)) && HasChild(soc, Uart(p)) && HasChild(soc, Virtio(p)) && HasChild(soc, PlicNode())
            && HasChild(soc, Syscon(p)) && HasChild(soc, Rtc())
            && HasChild(soc, SysconAction("poweroff", "syscon-poweroff", 0x5555))
            && HasChild(soc, SysconAction("reboot", "syscon-reboot", 0x7777))
  {
    hide Str;
    hide Named;
    hide Good;
    hide Clint;
    hide Uart;
    hide Virtio;
    hide PlicNode;
    hide Syscon;
    hide SysconAction;
    hide Rtc;
    var items := Soc(p).items;
    assert items[4] == Sub(Clint(p)) && items[5] == Sub(Uart(p)) && items[6] == Sub(Virtio(p)) && items[7] == Sub(PlicNode());
    assert items[8] == Sub(Syscon(p)) && items[11] == Sub(Rtc());
    assert items[9] == Sub(SysconAction("poweroff", "syscon-poweroff", 0x5555));
    assert items[10] == Sub(SysconAction("reboot", "syscon-reboot", 0x7777));
  }

  lemma {:induction false} RootCells(p: Platform)
    ensures var root := Board(p);
            && root.name == [] && Cellular(root, 2, 2)
            && HasChild(root, Chosen(p)) && HasChild(root, Cpus()) && HasChild(root, Memory(p)) && HasChild(root, Soc(p))
  {
    hide Str;
    hide Hex;
    hide Be32;
    hide Named;
    hide HasText;
    hide HasCells;
    hide Good;
    hide Single;
    hide Chosen;
    hide Cpus;
    hide Memory;
    hide Soc;
    var c := Board(p);
    PropsAre(c, [Some(AddressCells), Some(SizeCells), Some(Compatible), Some(Model)]);
    CellAt(c, 0, AddressCells, 2);
    CellAt(c, 1, SizeCells, 2);
    assert c.items[4] == Sub(Chosen(p)) && c.items[5] == Sub(Cpus()) && c.items[6] == Sub(Memory(p)) && c.items[7] == Sub(Soc(p));
  }

  /** The board's tree says of every configuration what an operating system needs to know of it. */
  lemma {:induction false} BoardIsRead(p: Platform)
    ensures BoardRead(Board(p), p)
  {
    RootCells(p);
    hide Board;
    hide Chosen;
    hide Cpus;
    hide Memory;
    hide Soc;
    hide Cellular;
    hide HasChild;
    hide MemoryRead;
    hide CpusRead;
    hide SocRead;
    var root := Board(p);
    MemoryIsRead(p, root);
    CpusAreRead(root);
    SocIsRead(p, root);
  }
}
