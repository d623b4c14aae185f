/** What every run of CSR writes, interrupt samplings, traps and returns keeps. */
module HartProps {
  import opened HartSpec
  import opened HartEffects
  import opened Bytes

  // ----- Legality over runs -----

  lemma {:induction false} RunIsLegal(h: Hart, divider: bv64, es: seq<Event>)
    requires Legal(h) && divider != 0 && forall e :: e in es ==> Possible(e)
    ensures Legal(Run(h, divider, es))
    decreases |es|
  {
    if es != [] {
      var front := es[..|es| - 1];
      RunIsLegal(h, divider, front);
      assert es[|es| - 1] in es;
      StepKeepsLegal(Run(h, divider, front), divider, es[|es| - 1]);
    }
  }

  // ----- Interrupt lines -----

  /** The machine-level pending bits show the lines. */
  predicate Shows(mip: Word, l: Lines) {
    (Has(mip, MTI) <==> l.timer) && (Has(mip, MSI) <==> l.software) && (Has(mip, MEI) <==> l.external)
  }

  /** The lines as last sampled. */
  function LastLines(es: seq<Event>, l: Lines): (r: Lines)
    decreases |es|
  {
    if es == [] then l
    else if es[|es| - 1].Sample? then es[|es| - 1].lines
    else LastLines(es[..|es| - 1], l)
  }

  lemma {:induction false} SampledShows(i: Interrupts, l: Lines, compare: bool, timer: bool)
    ensures Shows(Sampled(i, l, compare, timer), l)
  {
  }

  lemma {:induction false} MergeKeepsLines(mip: Word, v: Word, mideleg: Word, l: Lines)
    requires Shows(mip, l) && Within(mideleg, S_INTERRUPTS)
    ensures Shows(Merge(mip, v, S_INTERRUPTS), l) && Shows(MergeSsi(mip, v, mideleg), l) && Shows(SetIf(mip, STI, false), l)
  {
    ShowsSame(mip, Merge(mip, v, S_INTERRUPTS), l);
    ShowsSame(mip, MergeSsi(mip, v, mideleg), l);
    ShowsSame(mip, SetIf(mip, STI, false), l);
    PendingStaysInside(mip, v, mideleg);
    MergeStaysInside(mip, v, S_INTERRUPTS);
  }

  lemma {:induction false} ShowsSame(mip: Word, mip': Word, l: Lines)
    requires Shows(mip, l)
    ensures Without(mip', S_INTERRUPTS) == Without(mip, S_INTERRUPTS) ==> Shows(mip', l)
  {
    LinesOutside(mip, mip');
  }

  lemma {:induction false} LinesOutside(x: Word, y: Word)
    ensures Without(x, S_INTERRUPTS) == Without(y, S_INTERRUPTS) ==>
      (Has(x, MTI) <==> Has(y, MTI)) && (Has(x, MSI) <==> Has(y, MSI)) && (Has(x, MEI) <==> Has(y, MEI))
  {
    if Without(x, S_INTERRUPTS) == Without(y, S_INTERRUPTS) {
      SameOutside(x, y, S_INTERRUPTS, MTI);
      SameOutside(x, y, S_INTERRUPTS, MSI);
      SameOutside(x, y, S_INTERRUPTS, MEI);
    }
  }

  /** Words that agree outside `mask` agree on every bit outside it. */
  lemma {:induction false} SameOutside(x: Word, y: Word, mask: Word, bit: Word)
    requires Without(x, mask) == Without(y, mask) && bit.b & mask.b == 0
    ensures Has(x, bit) <==> Has(y, bit)
  {
    FieldOutside(x, mask, bit);
    FieldOutside(y, mask, bit);
    SameField(x, y, bit);
  }

  lemma {:induction false} FieldOutside(x: Word, mask: Word, bit: Word)
    requires bit.b & mask.b == 0
    ensures Field(Without(x, mask), bit) == Field(x, bit)
  {
  }

  lemma {:induction false} SameField(x: Word, y: Word, bit: Word)
    ensures Field(x, bit) == Field(y, bit) ==> (Has(x, bit) <==> Has(y, bit))
  {
  }

  lemma {:induction false} WriteKeepsLines(i: Interrupts, addr: int, v: Word, l: Lines)
    requires Shows(i.mip, l) && IrqLegal(i)
    ensures Shows(WriteIrq(i, addr, v).mip, l)
  {
    MergeKeepsLines(i.mip, v, i.mideleg, l);
    match addr
    case 0x104 =>
    case 0x144 =>
    case 0x14D =>
    case 0x303 =>
    case 0x304 =>
    case 0x344 =>
    case _ => assert WriteIrq(i, addr, v) == i;
  }

  lemma {:induction false} StepShows(h: Hart, divider: bv64, e: Event, l: Lines)
    requires Legal(h) && divider != 0 && Shows(h.irq.mip, l)
    ensures Shows(Step(h, divider, e).irq.mip, if e.Sample? then e.lines else l)
  {
    hide Sampled;
    hide IrqLegal;
    match e
    case WriteCsr(addr, v) => WriteKeepsLines(h.irq, addr, v, l);
    case Sample(x) => SampledShows(h.irq, x, Has(h.menvcfg, STCE), Due(h.counters, divider, h.stimecmp));
    case TakeTrap(c, epc) => assert Trap(h, c, epc).irq == h.irq;
    case ReturnM => assert Mret(h).irq == h.irq;
    case ReturnS => assert Sret(h).irq == h.irq;
    case RetireFp(_) =>
  }

  /** In every run MTIP, MSIP and MEIP equal the lines last sampled, whatever software writes. */
  lemma {:induction false} RunShowsLines(h: Hart, divider: bv64, es: seq<Event>, l: Lines)
    requires Legal(h) && divider != 0 && Shows(h.irq.mip, l) && forall e :: e in es ==> Possible(e)
    ensures Shows(Run(h, divider, es).irq.mip, LastLines(es, l))
    decreases |es|
  {
    hide Step;
    hide Shows;
    hide Possible;
    if es != [] {
      var front, e := es[..|es| - 1], es[|es| - 1];
      assert forall x :: x in front ==> x in es;
      RunShowsLines(h, divider, front, l);
      RunIsLegal(h, divider, front);
      StepShows(Run(h, divider, front), divider, e, LastLines(front, l));
    }
  }

  /** After a sampling, the supervisor's external interrupt is the line or software's own bit, and its timer
      interrupt is the comparison if that is enabled and as software left it if not. */
  lemma {:induction false} TickSetsSupervisorBits(i: Interrupts, l: Lines, compare: bool, timer: bool)
    ensures Has(Sampled(i, l, compare, timer), SEI) <==> l.supervisor || i.softSei
    ensures Has(Sampled(i, l, compare, timer), STI) <==> if compare then timer else Has(i.mip, STI)
    ensures Has(Sampled(i, l, compare, timer), SSI) <==> Has(i.mip, SSI)
  {
  }

  // ----- Supervisor writes -----

  predicate SupervisorAddress(addr: int) { 0x100 <= addr < 0x200 }

  function Without(x: Word, bits: Word): (r: Word) { W(x.b & !bits.b) }

  lemma {:induction false} MergeStaysInside(x: Word, v: Word, bits: Word)
    ensures Without(Merge(x, v, bits), bits) == Without(x, bits)
  {
  }

  lemma {:induction false} PendingStaysInside(mip: Word, v: Word, mideleg: Word)
    ensures Without(MergeSsi(mip, v, mideleg), S_INTERRUPTS) == Without(mip, S_INTERRUPTS)
    ensures Without(SetIf(mip, STI, false), S_INTERRUPTS) == Without(mip, S_INTERRUPTS)
  {
  }

  /** A write to a supervisor register leaves alone every machine register, the status bits outside the
      supervisor's, the enable bits not delegated and the machine-level pending bits. */
  lemma {:induction false} SupervisorWriteIsConfined(h: Hart, addr: int, v: Word)
    requires SupervisorAddress(addr)
    ensures var g := Write(h, addr, v);
      && g == h.(mstatus := g.mstatus, irq := g.irq, s := g.s, satp := g.satp, stimecmp := g.stimecmp)
      && Without(g.mstatus, S_WRITABLE) == Without(h.mstatus, S_WRITABLE)
      && g.irq.mideleg == h.irq.mideleg && g.irq.softSei == h.irq.softSei
      && Without(g.irq.mie, h.irq.mideleg) == Without(h.irq.mie, h.irq.mideleg)
      && Without(g.irq.mip, S_INTERRUPTS) == Without(h.irq.mip, S_INTERRUPTS)
  {
    MergeStaysInside(h.mstatus, v, S_WRITABLE);
    MergeStaysInside(h.irq.mie, v, h.irq.mideleg);
    PendingStaysInside(h.irq.mip, v, h.irq.mideleg);
    hide Without;
    hide Merge;
    hide MergeSsi;
    assert WriteBank(h.m, addr - 0x300, v) == h.m;
    assert WriteFloat(h.fp, addr, v) == h.fp;
    assert WriteCounters(h.counters, addr, v) == h.counters;
    if addr == SSTATUS {
      assert WriteIrq(h.irq, addr, v) == h.irq;
    } else if addr == SIE {
      assert WriteStatus(h.mstatus, addr, v) == h.mstatus;
    } else if addr == SIP {
      assert WriteStatus(h.mstatus, addr, v) == h.mstatus;
    } else if addr == STIMECMP {
      assert WriteStatus(h.mstatus, addr, v) == h.mstatus;
    } else {
      assert WriteStatus(h.mstatus, addr, v) == h.mstatus;
      assert WriteIrq(h.irq, addr, v) == h.irq;
    }
  }

  // ----- What the supervisor can see -----

  /** The part of the state behind the supervisor's registers, with the delegation that shapes it. */
  datatype View = View(status: Word, sie: Word, sip: Word, mideleg: Word, s: Bank, satp: Word, stimecmp: Word)

  function SView(h: Hart): (r: View) {
    View(Field(h.mstatus, S_VIEW), Field(h.irq.mie, h.irq.mideleg), Field(h.irq.mip, h.irq.mideleg), h.irq.mideleg, h.s, h.satp, h.stimecmp)
  }

  lemma {:induction false} SdIsDerived(x: Word, y: Word)
    requires WithSd(Field(x, S_VIEW)) == WithSd(Field(y, S_VIEW))
    ensures Field(x, S_VIEW) == Field(y, S_VIEW)
  {
  }

  lemma {:induction false} ReadsOf(h: Hart)
    ensures ReadSupervisor(h, SSTATUS) == WithSd(Field(h.mstatus, S_VIEW))
    ensures ReadSupervisor(h, SIE) == Field(h.irq.mie, h.irq.mideleg) && ReadSupervisor(h, SIP) == Field(h.irq.mip, h.irq.mideleg)
    ensures h.s == Bank(ReadSupervisor(h, STVEC), ReadSupervisor(h, SSCRATCH), ReadSupervisor(h, SEPC), ReadSupervisor(h, SCAUSE),
                        ReadSupervisor(h, STVAL), ReadSupervisor(h, SCOUNTEREN))
    ensures ReadSupervisor(h, SATP) == h.satp && ReadSupervisor(h, STIMECMP) == h.stimecmp
  {
    hide Field;
  }

  lemma {:induction false} ViewGivesRead(h: Hart, g: Hart, a: int)
    requires SView(h) == SView(g)
    ensures ReadSupervisor(h, a) == ReadSupervisor(g, a)
  {
  }

  /** Two harts read alike through every supervisor register exactly when their views are equal. */
  lemma {:induction false} ViewIsReads(h: Hart, g: Hart)
    requires h.irq.mideleg == g.irq.mideleg
    ensures SView(h) == SView(g) <==> forall a :: SupervisorAddress(a) ==> ReadSupervisor(h, a) == ReadSupervisor(g, a)
  {
    hide Field;
    hide ReadSupervisor;
    ReadsOf(h);
    ReadsOf(g);
    if SView(h) == SView(g) {
      forall a | SupervisorAddress(a)
        ensures ReadSupervisor(h, a) == ReadSupervisor(g, a)
      {
        ViewGivesRead(h, g, a);
      }
    }
    if forall a :: SupervisorAddress(a) ==> ReadSupervisor(h, a) == ReadSupervisor(g, a) {
      SdIsDerived(h.mstatus, g.mstatus);
    }
  }

  lemma {:induction false} StatusView(m: Word, v: Word)
    ensures Field(Merge(m, v, S_WRITABLE), S_VIEW) == Merge(Field(m, S_VIEW), v, S_WRITABLE)
  {
  }

  lemma {:induction false} MergeView(mie: Word, d: Word, v: Word)
    ensures Field(Merge(mie, v, d), d) == Field(v, d)
  {
  }

  lemma {:induction false} PendingView(mip: Word, d: Word, v: Word)
    ensures Field(MergeSsi(mip, v, d), d) == MergeSsi(Field(mip, d), v, d)
  {
  }

  lemma {:induction false} TimerView(mip: Word, d: Word)
    ensures Field(SetIf(mip, STI, false), d) == SetIf(Field(mip, d), STI, false)
  {
  }

  /** The new view is a function of the old one. */
  function WriteView(w: View, addr: int, v: Word): (r: View) {
    w.(status := if addr == SSTATUS then Merge(w.status, v, S_WRITABLE) else w.status,
       sie := if addr == SIE then Field(v, w.mideleg) else w.sie,
       sip := if addr == SIP then MergeSsi(w.sip, v, w.mideleg) else if addr == STIMECMP then SetIf(w.sip, STI, false) else w.sip,
       s := WriteBank(w.s, addr - 0x100, v),
       satp := if addr == SATP then LegalSatp(v) else w.satp,
       stimecmp := if addr == STIMECMP then v else w.stimecmp)
  }

  lemma {:induction false} WriteActsOnView(h: Hart, addr: int, v: Word)
    requires SupervisorAddress(addr)
    ensures SView(Write(h, addr, v)) == WriteView(SView(h), addr, v)
  {
    hide Field;
    hide Merge;
    hide LegalSatp;
    hide WriteFloat;
    hide WriteCounters;
    StatusView(h.mstatus, v);
    MergeView(h.irq.mie, h.irq.mideleg, v);
    PendingView(h.irq.mip, h.irq.mideleg, v);
    TimerView(h.irq.mip, h.irq.mideleg);
    if addr == SSTATUS {
      assert WriteIrq(h.irq, addr, v) == h.irq;
    } else {
      assert WriteStatus(h.mstatus, addr, v) == h.mstatus;
      if addr != SIE && addr != SIP && addr != STIMECMP {
        assert WriteIrq(h.irq, addr, v) == h.irq;
      }
    }
  }

  function WriteAll(h: Hart, ws: seq<(int, Word)>): (r: Hart)
    decreases |ws|
  {
    if ws == [] then h else WriteAll(Write(h, ws[0].0, ws[0].1), ws[1..])
  }

  /** Supervisor software cannot learn more than its view: harts with the same view still have the same
      view after any common sequence of writes to supervisor registers. */
  lemma {:induction false} NonInterference(h: Hart, g: Hart, ws: seq<(int, Word)>)
    requires SView(h) == SView(g) && forall i :: 0 <= i < |ws| ==> SupervisorAddress(ws[i].0)
    ensures SView(WriteAll(h, ws)) == SView(WriteAll(g, ws))
    decreases |ws|
  {
    hide WriteView;
    if ws != [] {
      WriteActsOnView(h, ws[0].0, ws[0].1);
      WriteActsOnView(g, ws[0].0, ws[0].1);
      NonInterference(Write(h, ws[0].0, ws[0].1), Write(g, ws[0].0, ws[0].1), ws[1..]);
    }
  }

  /** What `sstatus`, `sie` and `sip` read, with the delegation. */
  ghost predicate SameThree(h: Hart, g: Hart) {
    && h.irq.mideleg == g.irq.mideleg && ReadSupervisor(h, SSTATUS) == ReadSupervisor(g, SSTATUS)
    && ReadSupervisor(h, SIE) == ReadSupervisor(g, SIE) && ReadSupervisor(h, SIP) == ReadSupervisor(g, SIP)
  }

  lemma {:induction false} SameThreeIs(h: Hart, g: Hart)
    ensures SameThree(h, g) <==>
      var v, w := SView(h), SView(g); v.mideleg == w.mideleg && v.status == w.status && v.sie == w.sie && v.sip == w.sip
  {
    ReadsOf(h);
    ReadsOf(g);
    if ReadSupervisor(h, SSTATUS) == ReadSupervisor(g, SSTATUS) {
      SdIsDerived(h.mstatus, g.mstatus);
    }
  }

  lemma {:induction false} WriteKeepsThree(h: Hart, g: Hart, a: int, v: Word)
    requires SameThree(h, g) && (a == SSTATUS || a == SIE || a == SIP)
    ensures SameThree(Write(h, a, v), Write(g, a, v))
  {
    hide SameThree;
    hide SView;
    SameThreeIs(h, g);
    WriteActsOnView(h, a, v);
    WriteActsOnView(g, a, v);
    SameThreeIs(Write(h, a, v), Write(g, a, v));
  }

  /** Equal delegation and equal `sstatus`, `sie` and `sip` reads are kept by any common sequence of writes to
      those three, whatever the rest of the two states. */
  lemma {:induction false} ThreeRegisters(h: Hart, g: Hart, ws: seq<(int, Word)>)
    requires SameThree(h, g) && forall i :: 0 <= i < |ws| ==> ws[i].0 == SSTATUS || ws[i].0 == SIE || ws[i].0 == SIP
    ensures SameThree(WriteAll(h, ws), WriteAll(g, ws))
    decreases |ws|
  {
    if ws != [] {
      WriteKeepsThree(h, g, ws[0].0, ws[0].1);
      ThreeRegisters(Write(h, ws[0].0, ws[0].1), Write(g, ws[0].0, ws[0].1), ws[1..]);
    }
  }

  // ----- Traps and returns -----

  lemma {:induction false} WithoutSet(x: Word, bit: Word, on: bool, mask: Word)
    requires bit.b & !mask.b == 0
    ensures Without(SetIf(x, bit, on), mask) == Without(x, mask)
  {
  }

  lemma {:induction false} WithoutMerge(x: Word, y: Word, bits: Word, mask: Word)
    requires bits.b & !mask.b == 0
    ensures Without(Merge(x, y, bits), mask) == Without(x, mask)
  {
  }

  /** Neither trap nor return touches more than its own fields. */
  lemma {:induction false} MTrapFields(m: Word, from: Mode)
    ensures Without(MTrapStatus(m, from), W(0x2_1888)) == Without(m, W(0x2_1888))
  {
    var own := W(0x2_1888);
    assert ST_MPIE.b & !own.b == 0 && ST_MPP.b & !own.b == 0 && ST_MIE.b & !own.b == 0;
    var m1 := SetIf(m, ST_MPIE, Has(m, ST_MIE));
    var m2 := Merge(m1, ModeBits(from), ST_MPP);
    WithoutSet(m, ST_MPIE, Has(m, ST_MIE), own);
    WithoutMerge(m1, ModeBits(from), ST_MPP, own);
    WithoutSet(m2, ST_MIE, false, own);
  }

  lemma {:induction false} MretFields(m: Word)
    ensures Without(MretStatus(m), W(0x2_1888)) == Without(m, W(0x2_1888))
  {
    var own := W(0x2_1888);
    assert ST_MPIE.b & !own.b == 0 && ST_MPP.b & !own.b == 0 && ST_MIE.b & !own.b == 0 && ST_MPRV.b & !own.b == 0;
    var m1 := SetIf(m, ST_MIE, Has(m, ST_MPIE));
    var m2 := SetIf(m1, ST_MPIE, true);
    var m3 := SetIf(m2, ST_MPP, false);
    WithoutSet(m, ST_MIE, Has(m, ST_MPIE), own);
    WithoutSet(m1, ST_MPIE, true, own);
    WithoutSet(m2, ST_MPP, false, own);
    if ModeOf(m) == Machine {
      assert MretStatus(m) == m3;
    } else {
      WithoutSet(m3, ST_MPRV, false, own);
      assert MretStatus(m) == SetIf(m3, ST_MPRV, false);
    }
  }

  lemma {:induction false} STrapFields(m: Word, fromS: bool)
    ensures Without(STrapStatus(m, fromS), W(0x2_0122)) == Without(m, W(0x2_0122))
  {
    var own := W(0x2_0122);
    assert ST_SPIE.b & !own.b == 0 && ST_SPP.b & !own.b == 0 && ST_SIE.b & !own.b == 0;
    var m1 := SetIf(m, ST_SPIE, Has(m, ST_SIE));
    var m2 := SetIf(m1, ST_SPP, fromS);
    WithoutSet(m, ST_SPIE, Has(m, ST_SIE), own);
    WithoutSet(m1, ST_SPP, fromS, own);
    WithoutSet(m2, ST_SIE, false, own);
  }

  lemma {:induction false} SretFields(m: Word)
    ensures Without(SretStatus(m), W(0x2_0122)) == Without(m, W(0x2_0122))
  {
    var own := W(0x2_0122);
    assert ST_SPIE.b & !own.b == 0 && ST_SPP.b & !own.b == 0 && ST_SIE.b & !own.b == 0 && ST_MPRV.b & !own.b == 0;
    var m1 := SetIf(m, ST_SIE, Has(m, ST_SPIE));
    var m2 := SetIf(m1, ST_SPIE, true);
    var m3 := SetIf(m2, ST_SPP, false);
    WithoutSet(m, ST_SIE, Has(m, ST_SPIE), own);
    WithoutSet(m1, ST_SPIE, true, own);
    WithoutSet(m2, ST_SPP, false, own);
    WithoutSet(m3, ST_MPRV, false, own);
  }

  lemma {:induction false} MTrapSaves(m: Word, from: Mode)
    ensures ModeOf(MTrapStatus(m, from)) == from
    ensures Has(MTrapStatus(m, from), ST_MPIE) <==> Has(m, ST_MIE)
  {
  }

  lemma {:induction false} MretRestores(m: Word)
    ensures Has(MretStatus(m), ST_MIE) <==> Has(m, ST_MPIE)
  {
  }

  lemma {:induction false} STrapSaves(m: Word, fromS: bool)
    ensures Has(STrapStatus(m, fromS), ST_SPP) <==> fromS
    ensures Has(STrapStatus(m, fromS), ST_SPIE) <==> Has(m, ST_SIE)
  {
  }

  lemma {:induction false} SretRestores(m: Word)
    ensures Has(SretStatus(m), ST_SIE) <==> Has(m, ST_SPIE)
  {
  }

  lemma {:induction false} MretUndoesTrapStatus(m: Word, from: Mode)
    ensures var r := MretStatus(MTrapStatus(m, from));
            && ModeOf(MTrapStatus(m, from)) == from
            && (Has(r, ST_MIE) <==> Has(m, ST_MIE))
            && Without(r, W(0x2_1888)) == Without(m, W(0x2_1888))
  {
    MTrapSaves(m, from);
    MTrapFields(m, from);
    MretRestores(MTrapStatus(m, from));
    MretFields(MTrapStatus(m, from));
  }

  lemma {:induction false} SretUndoesTrapStatus(m: Word, fromS: bool)
    ensures var r := SretStatus(STrapStatus(m, fromS));
            && (Has(STrapStatus(m, fromS), ST_SPP) <==> fromS)
            && (Has(r, ST_SIE) <==> Has(m, ST_SIE))
            && Without(r, W(0x2_0122)) == Without(m, W(0x2_0122))
  {
    STrapSaves(m, fromS);
    STrapFields(m, fromS);
    SretRestores(STrapStatus(m, fromS));
    SretFields(STrapStatus(m, fromS));
  }

  lemma {:induction false} EvenPcIsItself(pc: Word)
    requires Even(pc)
    ensures EvenPc(pc) == pc
  {
  }

  function Return(h: Hart, to: Mode): (r: Hart) { if to == Supervisor then Sret(h) else Mret(h) }

  /** Returning from a trap resumes the interrupted mode at the interrupted instruction with interrupts enabled
      as before. */
  lemma {:induction false} ReturnUndoesTrap(h: Hart, c: Cause, epc: Word)
    requires Even(epc)
    ensures var t := Trap(h, c, epc);
            var r := Return(t, t.mode);
            && r.mode == h.mode && r.pc == epc
            && (Has(r.mstatus, ST_SIE) <==> Has(h.mstatus, ST_SIE)) && (Has(r.mstatus, ST_MIE) <==> Has(h.mstatus, ST_MIE))
            && r.irq == h.irq && r.satp == h.satp && r.fp == h.fp
  {
    hide MretStatus;
    hide SretStatus;
    hide STrapStatus;
    hide MTrapStatus;
    hide Has;
    hide ModeOf;
    hide EvenPc;
    hide CauseWord;
    hide Target;
    MretUndoesTrapStatus(h.mstatus, h.mode);
    SretUndoesTrapStatus(h.mstatus, h.mode == Supervisor);
    OtherEnable(SretStatus(STrapStatus(h.mstatus, h.mode == Supervisor)), h.mstatus);
    OtherEnable(MretStatus(MTrapStatus(h.mstatus, h.mode)), h.mstatus);
    EvenPcIsItself(epc);
    TargetOfMachine(h, c);
    if Target(h, c) == Supervisor {
      assert Trap(h, c, epc).mode == Supervisor;
    } else {
      assert Trap(h, c, epc).mode == Machine;
    }
  }

  lemma {:induction false} OtherEnable(r: Word, m: Word)
    ensures Without(r, W(0x2_1888)) == Without(m, W(0x2_1888)) ==> (Has(r, ST_SIE) <==> Has(m, ST_SIE))
    ensures Without(r, W(0x2_0122)) == Without(m, W(0x2_0122)) ==> (Has(r, ST_MIE) <==> Has(m, ST_MIE))
  {
  }

  /** A trap never lowers the privilege, and only the lower two modes hand traps to the supervisor. */
  lemma {:induction false} TargetOfMachine(h: Hart, c: Cause)
    ensures h.mode == Machine ==> Target(h, c) == Machine
    ensures Target(h, c) == Machine || Target(h, c) == Supervisor
  {
  }

  // ----- Choosing an interrupt -----

  const ORDER: seq<bv64> := [11, 3, 7, 9, 1, 5]

  function Irq(code: bv64): (c: Cause) { Cause(true, code, W(0)) }

  /** The mode an interrupt is destined for. */
  function Destination(h: Hart, code: bv64): (m: Mode) { if Has(h.irq.mideleg, CauseBit(code)) then Supervisor else Machine }

  function Rank(m: Mode): (r: nat) { match m case User => 0 case Supervisor => 1 case Machine => 2 }

  /** Pending, enabled, and destined for a higher mode or for this one with interrupts on. */
  predicate Takeable(h: Hart, code: bv64) {
    var to := Destination(h, code);
    && Has(h.irq.mip, CauseBit(code)) && Has(h.irq.mie, CauseBit(code))
    && (Rank(h.mode) < Rank(to) || (h.mode == to && Has(h.mstatus, if to == Machine then ST_MIE else ST_SIE)))
  }

  /** `check_interrupts`: the first one in the fixed order from position `i` on. */
  function Check(h: Hart, i: nat): (r: Option<bv64>)
    requires i <= 6
    ensures r.Some? ==> Takeable(h, r.value) && exists k :: i <= k < 6 && ORDER[k] == r.value && forall j :: i <= j < k ==> !Takeable(h, ORDER[j])
    ensures r.None? ==> forall j :: i <= j < 6 ==> !Takeable(h, ORDER[j])
    decreases 6 - i
  {
    if i == 6 then None else if Takeable(h, ORDER[i]) then Some(ORDER[i]) else Check(h, i + 1)
  }

  /** Sections 3.1.9 and 4.1.3: the interrupt is pending and enabled, and its mode is higher than this one or is this one
      with interrupts on. */
  predicate Deliverable(h: Hart, code: bv64) {
    && Bit(h.irq.mip, code) && Bit(h.irq.mie, code)
    && (if Bit(h.irq.mideleg, code) then h.mode == User || (h.mode == Supervisor && Bit(h.mstatus, 1))
        else h.mode != Machine || Bit(h.mstatus, 3))
  }

  lemma {:induction false} CauseBitIs(x: Word, code: bv64)
    ensures Has(x, CauseBit(code)) <==> Bit(x, code)
  {
  }

  lemma {:induction false} EnablesAre(m: Word)
    ensures (Has(m, ST_MIE) <==> Bit(m, 3)) && (Has(m, ST_SIE) <==> Bit(m, 1))
  {
  }

  lemma {:induction false} TakeableIs(h: Hart, code: bv64)
    ensures Takeable(h, code) <==> Deliverable(h, code)
  {
    hide Has;
    hide Bit;
    hide CauseBit;
    CauseBitIs(h.irq.mip, code);
    CauseBitIs(h.irq.mie, code);
    CauseBitIs(h.irq.mideleg, code);
    EnablesAre(h.mstatus);
  }

  /** The one chosen is deliverable and no other before it in the order machine external, software and timer, then
      supervisor external, software and timer; none is chosen exactly if none is deliverable. */
  lemma {:induction false} CheckChooses(h: Hart)
    ensures Check(h, 0) ==
      if Deliverable(h, 11) then Some(11) else if Deliverable(h, 3) then Some(3) else if Deliverable(h, 7) then Some(7)
      else if Deliverable(h, 9) then Some(9) else if Deliverable(h, 1) then Some(1) else if Deliverable(h, 5) then Some(5) else None
  {
    hide Takeable;
    hide Deliverable;
    assert ORDER == [11, 3, 7, 9, 1, 5];
    forall code: bv64
      ensures Takeable(h, code) <==> Deliverable(h, code)
    {
      TakeableIs(h, code);
    }
    assert Check(h, 6) == None;
    assert Check(h, 5) == if Takeable(h, 5) then Some(5) else None;
    assert Check(h, 4) == if Takeable(h, 1) then Some(1) else Check(h, 5);
    assert Check(h, 3) == if Takeable(h, 9) then Some(9) else Check(h, 4);
    assert Check(h, 2) == if Takeable(h, 7) then Some(7) else Check(h, 3);
    assert Check(h, 1) == if Takeable(h, 3) then Some(3) else Check(h, 2);
  }

  /** Section 3.1.9 of the RISC-V Privileged Architecture: among interrupts that can be taken, one destined
      for a higher mode goes first. */
  ghost predicate HighestFirst(h: Hart) {
    match Check(h, 0)
    case None => true
    case Some(code) => forall j :: 0 <= j < 6 && Takeable(h, ORDER[j]) ==> Rank(Destination(h, ORDER[j])) <= Rank(Destination(h, code))
  }

  /** No undelegated supervisor interrupt stands behind a delegated one in the order external, software,
      timer. */
  predicate DelegatesFromTheEnd(mideleg: Word) {
    (Has(mideleg, SEI) ==> Has(mideleg, SSI)) && (Has(mideleg, SSI) ==> Has(mideleg, STI))
  }

  lemma {:induction false} BitValues()
    ensures CauseBit(11) == MEI && CauseBit(3) == MSI && CauseBit(7) == MTI && CauseBit(9) == SEI && CauseBit(1) == SSI && CauseBit(5) == STI
  {
  }

  lemma {:induction false} MachineIsNotDelegated(d: Word)
    requires Within(d, S_INTERRUPTS)
    ensures !Has(d, MEI) && !Has(d, MSI) && !Has(d, MTI)
  {
  }

  lemma {:induction false} GoodDelegationSuffices(h: Hart)
    requires Within(h.irq.mideleg, S_INTERRUPTS) && DelegatesFromTheEnd(h.irq.mideleg)
    ensures HighestFirst(h)
  {
    hide Has;
    hide CauseBit;
    hide Within;
    hide Takeable;
    BitValues();
    MachineIsNotDelegated(h.irq.mideleg);
    match Check(h, 0)
    case None =>
    case Some(code) =>
      var k :| 0 <= k < 6 && ORDER[k] == code && forall j :: 0 <= j < k ==> !Takeable(h, ORDER[j]);
      forall j | 0 <= j < 6 && Takeable(h, ORDER[j])
        ensures Rank(Destination(h, ORDER[j])) <= Rank(Destination(h, code))
      {
        assert k <= j;
      }
  }

  /** Machine mode delegates `d`, enables and raises `pending`, and returns to user mode. */
  function Preparing(d: Word, pending: Word): (es: seq<Event>) {
    [WriteCsr(MIDELEG, d), WriteCsr(MIE, pending), WriteCsr(MIP, pending), ReturnM]
  }

  lemma {:induction false} FourSteps(h: Hart, divider: bv64, a: Event, b: Event, c: Event, d: Event)
    requires divider != 0
    ensures Run(h, divider, [a, b, c, d]) == Step(Step(Step(Step(h, divider, a), divider, b), divider, c), divider, d)
  {
    assert [a, b, c, d][..3] == [a, b, c] && [a, b, c][..2] == [a, b] && [a, b][..1] == [a] && [a][..0] == [];
    assert Run(h, divider, [a]) == Step(Run(h, divider, []), divider, a);
    assert Run(h, divider, [a, b]) == Step(Run(h, divider, [a]), divider, b);
    assert Run(h, divider, [a, b, c]) == Step(Run(h, divider, [a, b]), divider, c);
  }

  lemma {:induction false} InterruptWrites(i: Interrupts, d: Word, pending: Word)
    requires Within(d, S_INTERRUPTS) && Within(pending, S_INTERRUPTS) && i.mip == W(0)
    ensures Field(d, S_INTERRUPTS) == d && Field(pending, INTERRUPTS) == pending && Merge(i.mip, pending, S_INTERRUPTS) == pending
  {
  }

  lemma {:induction false} ResetReturnsToUser(direct: bool, misa: Word, pc: Word)
    ensures ModeOf(Reset(direct, misa, pc).mstatus) == User
  {
  }

  lemma {:induction false} WriteInterrupts(h: Hart, addr: int, v: Word)
    requires addr in [MIDELEG, MIE, MIP]
    ensures var g := Write(h, addr, v); g.irq == WriteIrq(h.irq, addr, v) && g.mode == h.mode && g.mstatus == h.mstatus
  {
  }

  /** After those four steps from reset the hart is in user mode with just the interrupts `pending` set and enabled. */
  lemma {:induction false} PreparedIs(start: Hart, divider: bv64, d: Word, pending: Word)
    requires divider != 0 && start.irq.mip == W(0) && ModeOf(start.mstatus) == User
    requires Within(d, S_INTERRUPTS) && Within(pending, S_INTERRUPTS)
    ensures var h := Run(start, divider, Preparing(d, pending));
            h.mode == User && h.irq == Interrupts(d, pending, pending, Has(pending, SEI))
  {
    FourSteps(start, divider, WriteCsr(MIDELEG, d), WriteCsr(MIE, pending), WriteCsr(MIP, pending), ReturnM);
    InterruptWrites(start.irq, d, pending);
    var h1 := Write(start, MIDELEG, d);
    WriteInterrupts(start, MIDELEG, d);
    var h2 := Write(h1, MIE, pending);
    WriteInterrupts(h1, MIE, pending);
    WriteInterrupts(h2, MIP, pending);
  }

  lemma {:induction false} TwoPending()
    ensures Within(W(0x202), S_INTERRUPTS) && Within(W(0x22), S_INTERRUPTS)
    ensures Has(W(0x202), SEI) && Has(W(0x202), SSI) && !Has(W(0x202), MEI) && !Has(W(0x202), MSI) && !Has(W(0x202), MTI)
    ensures Has(W(0x22), SSI) && Has(W(0x22), STI) && !Has(W(0x22), MEI) && !Has(W(0x22), MSI) && !Has(W(0x22), MTI) && !Has(W(0x22), SEI)
  {
  }

  /** In user mode with a delegated interrupt pending in front of an undelegated one, the lower mode is served first. */
  lemma {:induction false} DelegatedFirst(h: Hart)
    requires h.mode == User && !DelegatesFromTheEnd(h.irq.mideleg)
    requires var p := if Has(h.irq.mideleg, SEI) && !Has(h.irq.mideleg, SSI) then W(0x202) else W(0x22); h.irq.mip == p && h.irq.mie == p
    ensures !HighestFirst(h)
  {
    BitValues();
    TwoPending();
    assert ORDER == [11, 3, 7, 9, 1, 5];
    assert !Takeable(h, ORDER[0]) && !Takeable(h, ORDER[1]) && !Takeable(h, ORDER[2]);
    if Has(h.irq.mideleg, SEI) && !Has(h.irq.mideleg, SSI) {
      assert Takeable(h, ORDER[3]) && Takeable(h, ORDER[4]);
      assert Check(h, 0) == Some(9);
    } else {
      assert !Takeable(h, ORDER[3]) && Takeable(h, ORDER[4]) && Takeable(h, ORDER[5]);
      assert Check(h, 0) == Some(1);
    }
  }

  /** For every other delegation a run from reset leads to a state in which the lower mode is served first. */
  lemma {:induction false} BadDelegationFails(d: Word, direct: bool, misa: Word, pc: Word, divider: bv64) returns (es: seq<Event>)
    requires Within(d, S_INTERRUPTS) && !DelegatesFromTheEnd(d) && divider != 0
    ensures forall e :: e in es ==> Possible(e)
    ensures var h := Run(Reset(direct, misa, pc), divider, es); h.irq.mideleg == d && !HighestFirst(h)
  {
    hide Run;
    hide HighestFirst;
    hide DelegatesFromTheEnd;
    TwoPending();
    var pending := if Has(d, SEI) && !Has(d, SSI) then W(0x202) else W(0x22);
    es := Preparing(d, pending);
    var start := Reset(direct, misa, pc);
    ResetReturnsToUser(direct, misa, pc);
    PreparedIs(start, divider, d, pending);
    DelegatedFirst(Run(start, divider, es));
  }

  /** If a run leads to delegation `d`, the higher mode is served first there. */
  ghost predicate ServesFrom(start: Hart, divider: bv64, es: seq<Event>, d: Word)
    requires divider != 0
  {
    var h := Run(start, divider, es);
    h.irq.mideleg == d ==> HighestFirst(h)
  }

  /** The choice obeys the order of modes in every legal state, and in every state a run from reset leads to, exactly
      when the delegation does. */
  lemma {:induction false} OrderOfModes(d: Word, direct: bool, misa: Word, pc: Word, divider: bv64)
    requires Within(d, S_INTERRUPTS) && divider != 0 && Even(pc)
    ensures (forall h :: Legal(h) && h.irq.mideleg == d ==> HighestFirst(h)) <==> DelegatesFromTheEnd(d)
    ensures (forall es :: (forall e :: e in es ==> Possible(e)) ==> ServesFrom(Reset(direct, misa, pc), divider, es, d)) <==> DelegatesFromTheEnd(d)
  {
    hide Reset;
    var start := Reset(direct, misa, pc);
    ResetIsLegal(direct, misa, pc);
    if DelegatesFromTheEnd(d) {
      forall h | Legal(h) && h.irq.mideleg == d
        ensures HighestFirst(h)
      {
        LegalDelegation(h);
        GoodDelegationSuffices(h);
      }
      forall es: seq<Event> | forall e :: e in es ==> Possible(e)
        ensures ServesFrom(start, divider, es, d)
      {
        RunIsLegal(start, divider, es);
      }
    } else {
      var es := BadDelegationFails(d, direct, misa, pc, divider);
      assert !ServesFrom(start, divider, es, d);
      RunIsLegal(start, divider, es);
    }
  }

  lemma {:induction false} LegalDelegation(h: Hart)
    requires Legal(h)
    ensures Within(h.irq.mideleg, S_INTERRUPTS)
  {
  }

  lemma {:induction false} TrapMasks(m: Word, from: Mode, fromS: bool)
    ensures !Has(MTrapStatus(m, from), ST_MIE)
    ensures !Has(STrapStatus(m, fromS), ST_SIE)
  {
  }

  /** A chosen interrupt goes to the mode it was chosen for, and its handler starts masked: only an
      interrupt for a still higher mode can be taken next. */
  lemma {:induction false} TakenInterruptIsMasked(h: Hart, epc: Word)
    requires Check(h, 0).Some?
    ensures var code := Check(h, 0).value;
            var t := Trap(h, Irq(code), epc);
            && t.mode == Destination(h, code) && Rank(h.mode) <= Rank(t.mode)
            && (forall j :: 0 <= j < 6 && Takeable(t, ORDER[j]) ==> Rank(Destination(t, ORDER[j])) > Rank(t.mode))
  {
    hide TrapBank;
    hide Check;
    var code := Check(h, 0).value;
    var t := Trap(h, Irq(code), epc);
    assert Takeable(h, code);
    TrapMasks(h.mstatus, h.mode, h.mode == Supervisor);
    assert Target(h, Irq(code)) == Destination(h, code);
    if Destination(h, code) == Supervisor {
      assert t.mode == Supervisor && t.irq == h.irq;
    } else {
      assert t.mode == Machine && t.irq == h.irq;
    }
  }

  // ----- The other copy of the satp rule -----

  /** `Csrs::write` on satp. */
  function RegisterFileSatp(v: Word): (r: Word) {
    var mode := (v.b >> 60) & 0xF;
    var newMode: bv64 := if mode == 8 then 8 else 0;
    W((v.b & !((0xF as bv64) << 60)) | (newMode << 60))
  }

  lemma {:induction false} Sv39IsKept(v: Word)
    requires IsSv39(v)
    ensures RegisterFileSatp(v) == v
  {
  }

  lemma {:induction false} OtherBecomesBare(v: Word)
    requires !IsSv39(v)
    ensures RegisterFileSatp(v) == ToBare(v)
  {
  }

  lemma {:induction false} BareIsKept(v: Word)
    requires IsBare(v)
    ensures ToBare(v) == v
  {
  }

  lemma {:induction false} SatpRulesAgree(v: Word)
    ensures RegisterFileSatp(v) == LegalSatp(v)
  {
    hide RegisterFileSatp;
    hide IsSv39;
    hide IsBare;
    if IsSv39(v) {
      Sv39IsKept(v);
    } else {
      OtherBecomesBare(v);
      if IsBare(v) {
        BareIsKept(v);
      }
    }
  }
}
