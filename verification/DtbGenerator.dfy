/** `generate_dtb`: the board's devicetree written through the builder. */
module DtbGenerator {
  import opened Bytes
  import opened FdtFormat
  import opened FdtBuilder
  import opened DtbBoard
  import opened DtbReader

  // ----- Emitting the nodes -----

  /** Everything of `node` has been written; one more `end_node` completes it. */
  lemma {:induction false} ClosesNode(before: Open, now: Open, node: Node)
    requires |now| == |before| + 1 && now[..|before|] == before
    requires now[|before|].name == node.name && now[|before|].items == node.items
    ensures Pop(now) == Append(before, Sub(node))
  {
  }

  method EmitChosen(b: FdtBuilder, p: Platform)
    requires b.Valid()
    modifies b
    ensures b.Valid() && b.open == Append(old(b.open), Sub(Chosen(p)))
  {
    hide FdtBuilder.Valid;
    hide Good;
    b.BeginNode(Str("chosen"));
    b.PropString(Named(BootArgs), Str("root=/dev/vda rw console=ttyS0 earlycon=uart8250,mmio,0x") + Hex(p.uartBase) + Str(" rootwait"));
    b.PropString(Named(StdoutPath), Str("/soc/uart@") + Hex(p.uartBase));
    ClosesNode(old(b.open), b.open, Chosen(p));
    b.EndNode();
  }

  method EmitHartIntc(b: FdtBuilder)
    requires b.Valid()
    modifies b
    ensures b.Valid() && b.open == Append(old(b.open), Sub(HartIntc()))
  {
    hide FdtBuilder.Valid;
    hide Good;
    b.BeginNode(Str("interrupt-controller"));
    b.PropU32(Named(InterruptCells), 1);
    b.PropEmpty(Named(InterruptController));
    b.PropString(Named(Compatible), Str("riscv,cpu-intc"));
    b.PropU32(Named(PhandleKey), CPU0_INTC);
    ClosesNode(old(b.open), b.open, HartIntc());
    b.EndNode();
  }

  method EmitCpu0(b: FdtBuilder)
    requires b.Valid()
    modifies b
    ensures b.Valid() && b.open == Append(old(b.open), Sub(Cpu0()))
  {
    hide FdtBuilder.Valid;
    hide Good;
    hide Be32;
    b.BeginNode(Str("cpu@0"));
    b.PropString(Named(DeviceType), Str("cpu"));
    b.PropReg10(0);
    b.PropString(Named(Status), Str("okay"));
    b.PropString(Named(Compatible), Str("riscv"));
    b.PropString(Named(RiscvIsa), Str("rv64imafdc"));
    b.PropString(Named(MmuType), Str("riscv,sv39"));
    EmitHartIntc(b);
    ClosesNode(old(b.open), b.open, Cpu0());
    b.EndNode();
  }

  method EmitCpus(b: FdtBuilder)
    requires b.Valid()
    modifies b
    ensures b.Valid() && b.open == Append(old(b.open), Sub(Cpus()))
  {
    hide FdtBuilder.Valid;
    hide Named;
    hide Good;
    hide Be32;
    b.BeginNode(Str("cpus"));
    b.PropU32(Named(AddressCells), 1);
    b.PropU32(Named(SizeCells), 0);
    b.PropU32(Named(TimebaseFrequency), TIMEBASE);
    EmitCpu0(b);
    ClosesNode(old(b.open), b.open, Cpus());
    b.EndNode();
  }

  method EmitMemory(b: FdtBuilder, p: Platform)
    requires b.Valid()
    modifies b
    ensures b.Valid() && b.open == Append(old(b.open), Sub(Memory(p)))
  {
    hide FdtBuilder.Valid;
    b.BeginNode(Str("memory@") + Hex(p.ramBase));
    b.PropString(Named(DeviceType), Str("memory"));
    b.PropReg22(p.ramBase, p.ramSize);
    ClosesNode(old(b.open), b.open, Memory(p));
    b.EndNode();
  }

  method EmitClint(b: FdtBuilder, p: Platform)
    requires b.Valid()
    modifies b
    ensures b.Valid() && b.open == Append(old(b.open), Sub(Clint(p)))
  {
    hide FdtBuilder.Valid;
    hide Good;
    b.BeginNode(Str("clint@") + Hex(p.clintBase));
    b.PropString(Named(Compatible), Str("riscv,clint0"));
    b.PropReg22(p.clintBase, 0x10000);
    b.PropData(Named(InterruptsExtended), Be32(CPU0_INTC) + Be32(3) + Be32(CPU0_INTC) + Be32(7));
    ClosesNode(old(b.open), b.open, Clint(p));
    b.EndNode();
  }

  method EmitUart(b: FdtBuilder, p: Platform)
    requires b.Valid()
    modifies b
    ensures b.Valid() && b.open == Append(old(b.open), Sub(Uart(p)))
  {
    hide FdtBuilder.Valid;
    hide Good;
    b.BeginNode(Str("uart@") + Hex(p.uartBase));
    b.PropString(Named(Compatible), Str("ns16550a"));
    b.PropReg22(p.uartBase, 0x100);
    b.PropU32(Named(ClockFrequency), 10_000_000);
    b.PropU32(Named(InterruptParent), PLIC);
    b.PropData(Named(Interrupts), Be32(10));
    b.PropString(Named(Status), Str("okay"));
    ClosesNode(old(b.open), b.open, Uart(p));
    b.EndNode();
  }

  method EmitVirtio(b: FdtBuilder, p: Platform)
    requires b.Valid()
    modifies b
    ensures b.Valid() && b.open == Append(old(b.open), Sub(Virtio(p)))
  {
    hide FdtBuilder.Valid;
    hide Be32;
    b.BeginNode(Str("virtio_mmio@") + Hex(p.diskBase));
    b.PropString(Named(Compatible), Str("virtio,mmio"));
    b.PropReg22(p.diskBase, 0x1000);
    b.PropU32(Named(InterruptParent), PLIC);
    b.PropData(Named(Interrupts), Be32(1));
    ClosesNode(old(b.open), b.open, Virtio(p));
    b.EndNode();
  }

  method EmitPlic(b: FdtBuilder)
    requires b.Valid()
    modifies b
    ensures b.Valid() && b.open == Append(old(b.open), Sub(PlicNode()))
  {
    hide FdtBuilder.Valid;
    hide Named;
    hide Good;
    hide Be32;
    b.BeginNode(Str("interrupt-controller@") + Hex(PLIC_BASE));
    b.PropString(Named(Compatible), Str("riscv,plic0"));
    b.PropReg22(PLIC_BASE, 0x4000000);
    b.PropU32(Named(InterruptCells), 1);
    b.PropEmpty(Named(InterruptController));
    b.PropData(Named(InterruptsExtended), Be32(CPU0_INTC) + Be32(11) + Be32(CPU0_INTC) + Be32(9));
    b.PropU32(Named(RiscvNdev), 0x35);
    b.PropU32(Named(PhandleKey), PLIC);
    ClosesNode(old(b.open), b.open, PlicNode());
    b.EndNode();
  }

  method EmitSyscon(b: FdtBuilder, p: Platform)
    requires b.Valid()
    modifies b
    ensures b.Valid() && b.open == Append(old(b.open), Sub(Syscon(p)))
  {
    hide FdtBuilder.Valid;
    hide Good;
    b.BeginNode(Str("syscon@") + Hex(p.sysconBase));
    b.PropString(Named(Compatible), Str("syscon"));
    b.PropReg22(p.sysconBase, 0x1000);
    b.PropU32(Named(PhandleKey), SYSCON);
    ClosesNode(old(b.open), b.open, Syscon(p));
    b.EndNode();
  }

  method EmitSysconAction(b: FdtBuilder, name: string, compatible: string, value: nat)
    requires b.Valid()
    modifies b
    ensures b.Valid() && b.open == Append(old(b.open), Sub(SysconAction(name, compatible, value)))
  {
    hide FdtBuilder.Valid;
    hide Good;
    b.BeginNode(Str(name));
    b.PropString(Named(Compatible), Str(compatible));
    b.PropU32(Named(Regmap), SYSCON);
    b.PropU32(Named(RegOffset), 0);
    b.PropU32(Named(RegValue), value);
    ClosesNode(old(b.open), b.open, SysconAction(name, compatible, value));
    b.EndNode();
  }

  method EmitRtc(b: FdtBuilder)
    requires b.Valid()
    modifies b
    ensures b.Valid() && b.open == Append(old(b.open), Sub(Rtc()))
  {
    hide FdtBuilder.Valid;
    hide Good;
    b.BeginNode(Str("rtc@") + Hex(RTC_BASE));
    b.PropString(Named(Compatible), Str("google,goldfish-rtc"));
    b.PropReg22(RTC_BASE, 0x1000);
    b.PropU32(Named(InterruptParent), PLIC);
    b.PropData(Named(Interrupts), Be32(11));
    ClosesNode(old(b.open), b.open, Rtc());
    b.EndNode();
  }

  method EmitSoc(b: FdtBuilder, p: Platform)
    requires b.Valid()
    modifies b
    ensures b.Valid() && b.open == Append(old(b.open), Sub(Soc(p)))
  {
    hide Ordinary;
    hide AddName;
    hide FdtBuilder.Valid;
    hide Str;
    hide Named;
    hide Clint;
    hide Uart;
    hide Virtio;
    hide PlicNode;
    hide Syscon;
    hide SysconAction;
    hide Rtc;
    b.BeginNode(Str("soc"));
    b.PropU32(Named(AddressCells), 2);
    b.PropU32(Named(SizeCells), 2);
    b.PropString(Named(Compatible), Str("simple-bus"));
    b.PropEmpty(Named(Ranges));
    EmitClint(b, p);
    EmitUart(b, p);
    EmitVirtio(b, p);
    EmitPlic(b);
    EmitSyscon(b, p);
    EmitSysconAction(b, "poweroff", "syscon-poweroff", 0x5555);
    EmitSysconAction(b, "reboot", "syscon-reboot", 0x7777);
    EmitRtc(b);
    ClosesNode(old(b.open), b.open, Soc(p));
    b.EndNode();
  }

  method EmitBoard(b: FdtBuilder, p: Platform)
    requires b.Valid()
    modifies b
    ensures b.Valid() && b.open == Append(old(b.open), Sub(Board(p)))
  {
    hide FdtBuilder.Valid;
    hide Good;
    hide Chosen;
    hide Cpus;
    hide Soc;
    b.BeginNode([]);
    b.PropU32(Named(AddressCells), 2);
    b.PropU32(Named(SizeCells), 2);
    b.PropString(Named(Compatible), Str("riscv-virtio"));
    b.PropString(Named(Model), Str("riscv-virtio,qemu"));
    EmitChosen(b, p);
    EmitCpus(b);
    EmitMemory(b, p);
    EmitSoc(b, p);
    ClosesNode(old(b.open), b.open, Board(p));
    b.EndNode();
  }

  // ----- generate_dtb -----

  /** The whole of `generate_dtb`: for every memory map the blob parses back to the board's tree, in which an operating
      system finds every device where the map has it. */
  method GenerateDtb(p: Platform) returns (out: seq<u8>)
    ensures ParseBlob(out) == Some(Board(p))
    ensures BoardRead(ParseBlob(out).value, p)
  {
    hide Board;
    hide ParseBlob;
    var b := new FdtBuilder();
    EmitBoard(b, p);
    assert [] + [Sub(Board(p))] == [Sub(Board(p))];
    assert b.open == [Node([], [Sub(Board(p))])];
    out := b.Finalize();
    FinishedBlobParses(Board(p));
    BoardIsSmall(p);
    hide BoardRead;
    BoardIsRead(p);
  }

  /** The board's tree meets the condition under which a blob parses. */
  lemma {:induction false} BoardIsSmall(p: Platform)
    ensures NodeNulFree(Board(p)) && PropsFirst(Board(p).items, true)
    ensures var open: Open := [Node([], [Sub(Board(p))])];
            |Blob(Layout(open, []) + Be32(FDT_END), Pool(LayoutNames(open, [])))| < U32
  {
    hide Board;
    BoardGood(p);
    OneItem(Sub(Board(p)));
    WeightBounds(Sub(Board(p)), []);
  }
}
