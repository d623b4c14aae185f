/** What traps, returns, samplings and writes do to a hart, register by register and bit by bit, in the words of
    sections 3.1 and 4.1 of the RISC-V Privileged Architecture and without the functions that compute it. */
module HartEffects {
  import opened HartSpec

  /** Bit `k` of a register. */
  predicate Bit(x: Word, k: bv64) { (x.b >> (k & 63)) & 1 == 1 }

  /** Outside `bits` nothing changes. */
  predicate SameBut(x: Word, y: Word, bits: bv64) { x.b & !bits == y.b & !bits }

  /** The encoding of a mode. */
  function Level(m: Mode): (v: bv64) { match m case User => 0 case Supervisor => 1 case Machine => 3 }

  // ----- Traps -----

  /** The base in a vector register: the low two bits are its mode. */
  function BaseOf(tvec: bv64): (b: bv64) { tvec & 0xFFFF_FFFF_FFFF_FFFC }

  function Scaled(code: bv64): (v: bv64) { code << 2 }

  /** Four bytes per code behind it. */
  function FarOf(tvec: bv64, code: bv64): (pc: bv64) { Plus(BaseOf(tvec), Scaled(code)) }

  /** The cause register holds the code, and an interrupt sets the top bit. */
  predicate CauseIs(w: Word, c: Cause) { w.b == if c.interrupt then Topped(c.code) else c.code }

  function Topped(code: bv64): (v: bv64) { code | 0x8000_0000_0000_0000 }

  /** The handler starts at the base, an interrupt in vectored mode four bytes per code further. */
  predicate HandlerIs(pc: Word, tvec: Word, c: Cause) {
    pc.b == if Bit(tvec, 0) && c.interrupt then FarOf(tvec.b, c.code) else BaseOf(tvec.b)
  }

  /** Interrupts are off for the supervisor; what SIE was is in SPIE, and whether the trap came from there in SPP. */
  predicate StackedS(before: Word, after: Word, from: Mode) {
    && !Bit(after, 1) && (Bit(after, 5) <==> Bit(before, 1)) && (Bit(after, 8) <==> from == Supervisor)
    && SameBut(after, before, 0x122)
  }

  /** Interrupts are off for machine mode; what MIE was is in MPIE, and the mode the trap came from in MPP. */
  predicate StackedM(before: Word, after: Word, from: Mode) {
    && !Bit(after, 3) && (Bit(after, 7) <==> Bit(before, 3)) && (after.b >> 11) & 3 == Level(from)
    && SameBut(after, before, 0x1888)
  }

  /** The trap registers of one mode after a trap into it. */
  predicate BankTaken(before: Bank, after: Bank, c: Cause, epc: Word) {
    && CauseIs(after.cause, c) && after.epc == epc && after.tval == c.tval
    && after.tvec == before.tvec && after.scratch == before.scratch && after.counteren == before.counteren
  }

  /** Nothing changes outside status, trap registers, mode and program counter. */
  predicate RestKept(h: Hart, g: Hart) {
    && g.irq == h.irq && g.medeleg == h.medeleg && g.menvcfg == h.menvcfg && g.misa == h.misa && g.satp == h.satp
    && g.stimecmp == h.stimecmp && g.fp == h.fp && g.counters == h.counters
  }

  /** The trap goes to the supervisor exactly if it comes from below machine mode and its code is delegated. */
  predicate Delegated(h: Hart, c: Cause) {
    h.mode != Machine && Bit(if c.interrupt then h.irq.mideleg else h.medeleg, c.code)
  }

  predicate TrapTaken(h: Hart, g: Hart, c: Cause, epc: Word) {
    && RestKept(h, g)
    && (if Delegated(h, c) then
          && g.mode == Supervisor && BankTaken(h.s, g.s, c, epc) && g.m == h.m
          && HandlerIs(g.pc, h.s.tvec, c) && StackedS(h.mstatus, g.mstatus, h.mode)
        else
          && g.mode == Machine && BankTaken(h.m, g.m, c, epc) && g.s == h.s
          && HandlerIs(g.pc, h.m.tvec, c) && StackedM(h.mstatus, g.mstatus, h.mode))
  }

  lemma {:induction false} TopIs(code: bv64)
    ensures Interrupting(code) == Topped(code)
  {
  }

  lemma {:induction false} CauseWordIs(c: Cause)
    ensures CauseIs(CauseWord(c), c)
  {
    hide Topped;
    hide Interrupting;
    TopIs(c.code);
  }

  lemma {:induction false} VectoredIs(x: Word)
    ensures Bit(x, 0) <==> Has(x, W(1))
  {
  }

  lemma {:induction false} ScaledIs(code: bv64)
    ensures Times4(code) == Scaled(code)
  {
  }

  lemma {:induction false} EntryIs(tvec: bv64, code: bv64)
    ensures Entry(tvec, code) == FarOf(tvec, code)
  {
    hide Start;
    hide BaseOf;
    hide Times4;
    hide Scaled;
    hide Plus;
    BaseIs(tvec);
    ScaledIs(code);
  }

  lemma {:induction false} BaseIs(tvec: bv64)
    ensures Start(tvec) == BaseOf(tvec)
  {
  }

  lemma {:induction false} VectorIs(tvec: Word, c: Cause)
    ensures HandlerIs(Vector(tvec, c), tvec, c)
  {
    hide Has;
    hide Bit;
    hide FarOf;
    hide BaseOf;
    hide Entry;
    hide Start;
    VectoredIs(tvec);
    EntryIs(tvec.b, c.code);
    BaseIs(tvec.b);
  }

  lemma {:induction false} STrapSie(m: Word, fromS: bool)
    ensures !Bit(STrapStatus(m, fromS), 1)
  {
  }

  lemma {:induction false} STrapSpie(m: Word, fromS: bool)
    ensures Bit(STrapStatus(m, fromS), 5) <==> Bit(m, 1)
  {
  }

  lemma {:induction false} STrapSpp(m: Word, fromS: bool)
    ensures Bit(STrapStatus(m, fromS), 8) <==> fromS
  {
  }

  lemma {:induction false} STrapRest(m: Word, fromS: bool)
    ensures SameBut(STrapStatus(m, fromS), m, 0x122)
  {
  }

  lemma {:induction false} STrapStacks(m: Word, from: Mode)
    ensures StackedS(m, STrapStatus(m, from == Supervisor), from)
  {
    hide STrapStatus;
    hide Bit;
    hide SameBut;
    STrapSie(m, from == Supervisor);
    STrapSpie(m, from == Supervisor);
    STrapSpp(m, from == Supervisor);
    STrapRest(m, from == Supervisor);
  }

  lemma {:induction false} MTrapMie(m: Word, from: Mode)
    ensures !Bit(MTrapStatus(m, from), 3)
  {
  }

  lemma {:induction false} MTrapMpie(m: Word, from: Mode)
    ensures Bit(MTrapStatus(m, from), 7) <==> Bit(m, 3)
  {
  }

  lemma {:induction false} MTrapMpp(m: Word, from: Mode)
    ensures (MTrapStatus(m, from).b >> 11) & 3 == Level(from)
  {
  }

  lemma {:induction false} MTrapRest(m: Word, from: Mode)
    ensures SameBut(MTrapStatus(m, from), m, 0x1888)
  {
  }

  lemma {:induction false} MTrapStacks(m: Word, from: Mode)
    ensures StackedM(m, MTrapStatus(m, from), from)
  {
    hide MTrapStatus;
    hide Bit;
    hide SameBut;
    MTrapMie(m, from);
    MTrapMpie(m, from);
    MTrapMpp(m, from);
    MTrapRest(m, from);
  }

  lemma {:induction false} DelegationIs(d: Word, code: bv64)
    ensures Has(d, CauseBit(code)) <==> Bit(d, code)
  {
  }

  lemma {:induction false} TrapIsTaken(h: Hart, c: Cause, epc: Word)
    ensures TrapTaken(h, Trap(h, c, epc), c, epc)
  {
    hide CauseWord;
    hide CauseIs;
    hide Vector;
    hide HandlerIs;
    hide STrapStatus;
    hide MTrapStatus;
    hide StackedS;
    hide StackedM;
    hide Has;
    hide CauseBit;
    hide Bit;
    CauseWordIs(c);
    VectorIs(h.s.tvec, c);
    VectorIs(h.m.tvec, c);
    STrapStacks(h.mstatus, h.mode);
    MTrapStacks(h.mstatus, h.mode);
    DelegationIs(if c.interrupt then h.irq.mideleg else h.medeleg, c.code);
  }

  // ----- Returns -----

  /** Back to the mode in MPP: MIE is what MPIE was, MPIE is set, MPP is user mode, and only a return to machine mode
      keeps MPRV. */
  predicate UnstackedM(before: Word, after: Word) {
    && (Bit(after, 3) <==> Bit(before, 7)) && Bit(after, 7) && (after.b >> 11) & 3 == 0
    && (Bit(after, 17) <==> Bit(before, 17) && (before.b >> 11) & 3 == 3)
    && SameBut(after, before, 0x2_1888)
  }

  /** Back to the mode in SPP: SIE is what SPIE was, SPIE is set, SPP and MPRV are clear. */
  predicate UnstackedS(before: Word, after: Word) {
    && (Bit(after, 1) <==> Bit(before, 5)) && Bit(after, 5) && !Bit(after, 8) && !Bit(after, 17)
    && SameBut(after, before, 0x2_0122)
  }

  predicate ReturnedM(h: Hart, g: Hart) {
    && RestKept(h, g) && g.m == h.m && g.s == h.s && g.pc.b == h.m.epc.b & !1
    && Level(g.mode) == (h.mstatus.b >> 11) & 3 && UnstackedM(h.mstatus, g.mstatus)
  }

  predicate ReturnedS(h: Hart, g: Hart) {
    && RestKept(h, g) && g.m == h.m && g.s == h.s && g.pc.b == h.s.epc.b & !1
    && g.mode == (if Bit(h.mstatus, 8) then Supervisor else User) && UnstackedS(h.mstatus, g.mstatus)
  }

  lemma {:induction false} MretMie(m: Word)
    ensures Bit(MretStatus(m), 3) <==> Bit(m, 7)
  {
  }

  lemma {:induction false} MretMpie(m: Word)
    ensures Bit(MretStatus(m), 7)
  {
  }

  lemma {:induction false} MretMpp(m: Word)
    ensures (MretStatus(m).b >> 11) & 3 == 0
  {
  }

  lemma {:induction false} MachineMpp(m: Word)
    ensures m.b & 0x1800 == 0x1800 <==> (m.b >> 11) & 3 == 3
  {
  }

  lemma {:induction false} MprvStays(m: Word)
    ensures Bit(SetIf(SetIf(SetIf(m, ST_MIE, Has(m, ST_MPIE)), ST_MPIE, true), ST_MPP, false), 17) <==> Bit(m, 17)
  {
  }

  lemma {:induction false} MprvGoes(m: Word)
    ensures !Bit(SetIf(m, ST_MPRV, false), 17)
  {
  }

  lemma {:induction false} ModeIsLevel(m: Word)
    requires m.b & 0x1800 != 0x1000
    ensures Level(ModeOf(m)) == (m.b >> 11) & 3
  {
  }

  lemma {:induction false} SetIfRest(x: Word, bit: Word, on: bool, bits: bv64)
    requires bit.b & !bits == 0
    ensures SameBut(SetIf(x, bit, on), x, bits)
  {
  }

  lemma {:induction false} SameTwice(x: Word, y: Word, z: Word, bits: bv64)
    requires SameBut(x, y, bits) && SameBut(y, z, bits)
    ensures SameBut(x, z, bits)
  {
  }

  lemma {:induction false} MretRest(m: Word)
    ensures SameBut(MretStatus(m), m, 0x2_1888)
  {
    hide SetIf;
    hide Has;
    hide ModeOf;
    hide SameBut;
    var m1 := SetIf(m, ST_MIE, Has(m, ST_MPIE));
    var m2 := SetIf(m1, ST_MPIE, true);
    var m3 := SetIf(m2, ST_MPP, false);
    SetIfRest(m, ST_MIE, Has(m, ST_MPIE), 0x2_1888);
    SetIfRest(m1, ST_MPIE, true, 0x2_1888);
    SetIfRest(m2, ST_MPP, false, 0x2_1888);
    SetIfRest(m3, ST_MPRV, false, 0x2_1888);
    SameTwice(m2, m1, m, 0x2_1888);
    SameTwice(m3, m2, m, 0x2_1888);
    SameTwice(SetIf(m3, ST_MPRV, false), m3, m, 0x2_1888);
  }

  lemma {:induction false} MretMprv(m: Word)
    requires m.b & 0x1800 != 0x1000
    ensures Bit(MretStatus(m), 17) <==> Bit(m, 17) && (m.b >> 11) & 3 == 3
  {
    hide Bit;
    hide SetIf;
    hide Has;
    hide ModeOf;
    ModeIsLevel(m);
    MprvStays(m);
    MprvGoes(SetIf(SetIf(SetIf(m, ST_MIE, Has(m, ST_MPIE)), ST_MPIE, true), ST_MPP, false));
  }

  lemma {:induction false} MretUnstacks(m: Word)
    requires m.b & 0x1800 != 0x1000
    ensures UnstackedM(m, MretStatus(m))
  {
    hide MretStatus;
    hide Bit;
    hide SameBut;
    MretMie(m);
    MretMpie(m);
    MretMpp(m);
    MretMprv(m);
    MretRest(m);
  }

  lemma {:induction false} SretSie(m: Word)
    ensures Bit(SretStatus(m), 1) <==> Bit(m, 5)
  {
  }

  lemma {:induction false} SretSpie(m: Word)
    ensures Bit(SretStatus(m), 5)
  {
  }

  lemma {:induction false} SretSpp(m: Word)
    ensures !Bit(SretStatus(m), 8)
  {
  }

  lemma {:induction false} SretMprv(m: Word)
    ensures !Bit(SretStatus(m), 17)
  {
  }

  lemma {:induction false} SretRest(m: Word)
    ensures SameBut(SretStatus(m), m, 0x2_0122)
  {
  }

  lemma {:induction false} SppIs(m: Word)
    ensures Has(m, ST_SPP) <==> Bit(m, 8)
  {
  }

  lemma {:induction false} SretUnstacks(m: Word)
    ensures UnstackedS(m, SretStatus(m))
  {
    hide SretStatus;
    hide Bit;
    hide SameBut;
    SretSie(m);
    SretSpie(m);
    SretSpp(m);
    SretMprv(m);
    SretRest(m);
  }

  lemma {:induction false} LegalMode(h: Hart)
    requires Legal(h)
    ensures h.mstatus.b & 0x1800 != 0x1000
  {
    hide IrqLegal;
    hide BankLegal;
    hide MedelegLegal;
    hide SatpLegal;
    hide FloatLegal;
    hide Even;
  }

  lemma {:induction false} MretIsDone(h: Hart)
    requires Legal(h)
    ensures ReturnedM(h, Mret(h))
  {
    hide Legal;
    hide MretStatus;
    hide SretStatus;
    hide UnstackedM;
    hide UnstackedS;
    hide ModeOf;
    hide Has;
    hide Bit;
    LegalMode(h);
    ModeIsLevel(h.mstatus);
    MretUnstacks(h.mstatus);
  }

  lemma {:induction false} SretIsDone(h: Hart)
    requires Legal(h)
    ensures ReturnedS(h, Sret(h))
  {
    hide Legal;
    hide MretStatus;
    hide SretStatus;
    hide UnstackedM;
    hide UnstackedS;
    hide ModeOf;
    hide Has;
    hide Bit;
    SppIs(h.mstatus);
    SretUnstacks(h.mstatus);
  }

  // ----- Sampling -----

  function Counted(c: Counters): (r: Counters) { c.(cycles := W(c.cycles.b + 1)) }

  /** The machine's pending bits are the lines; SEIP is the line or software's bit; STIP is the comparison while that is
      on; the cycle counter goes on by one. */
  predicate TickDone(h: Hart, g: Hart, divider: bv64, l: Lines)
    requires divider != 0
  {
    && (Bit(g.irq.mip, 7) <==> l.timer) && (Bit(g.irq.mip, 3) <==> l.software) && (Bit(g.irq.mip, 11) <==> l.external)
    && (Bit(g.irq.mip, 9) <==> l.supervisor || h.irq.softSei)
    && (Bit(g.irq.mip, 5) <==> if Bit(h.menvcfg, 63) then Due(h.counters, divider, h.stimecmp) else Bit(h.irq.mip, 5))
    && SameBut(g.irq.mip, h.irq.mip, 0xAA8)
    && g == h.(irq := h.irq.(mip := g.irq.mip), counters := Counted(h.counters))
  }

  lemma {:induction false} SampledMachine(i: Interrupts, l: Lines, compare: bool, timer: bool)
    ensures var m := Sampled(i, l, compare, timer); (Bit(m, 7) <==> l.timer) && (Bit(m, 3) <==> l.software) && (Bit(m, 11) <==> l.external)
  {
  }

  lemma {:induction false} SampledSeip(i: Interrupts, l: Lines, compare: bool, timer: bool)
    ensures Bit(Sampled(i, l, compare, timer), 9) <==> l.supervisor || i.softSei
  {
  }

  lemma {:induction false} SampledStip(i: Interrupts, l: Lines, timer: bool)
    ensures Bit(Sampled(i, l, true, timer), 5) <==> timer
  {
  }

  lemma {:induction false} SampledNoStip(i: Interrupts, l: Lines, timer: bool)
    ensures Bit(Sampled(i, l, false, timer), 5) <==> Bit(i.mip, 5)
  {
  }

  lemma {:induction false} SampledRest(i: Interrupts, l: Lines, compare: bool, timer: bool)
    ensures SameBut(Sampled(i, l, compare, timer), i.mip, 0xAA8)
  {
    hide SetIf;
    hide SameBut;
    var m1 := SetIf(i.mip, MTI, l.timer);
    var m2 := SetIf(m1, MSI, l.software);
    var m3 := SetIf(m2, MEI, l.external);
    var m4 := SetIf(m3, SEI, l.supervisor || i.softSei);
    SetIfRest(i.mip, MTI, l.timer, 0xAA8);
    SetIfRest(m1, MSI, l.software, 0xAA8);
    SetIfRest(m2, MEI, l.external, 0xAA8);
    SetIfRest(m3, SEI, l.supervisor || i.softSei, 0xAA8);
    SetIfRest(m4, STI, timer, 0xAA8);
    SameTwice(m2, m1, i.mip, 0xAA8);
    SameTwice(m3, m2, i.mip, 0xAA8);
    SameTwice(m4, m3, i.mip, 0xAA8);
    SameTwice(SetIf(m4, STI, timer), m4, i.mip, 0xAA8);
  }

  lemma {:induction false} StceIs(x: Word)
    ensures Has(x, STCE) <==> Bit(x, 63)
  {
  }

  lemma {:induction false} CountIs(c: Counters)
    ensures NextCycle(c) == Counted(c)
  {
  }

  lemma {:induction false} TickIsDone(h: Hart, divider: bv64, l: Lines)
    requires divider != 0
    ensures TickDone(h, Tick(h, divider, l), divider, l)
  {
    hide Sampled;
    hide Bit;
    hide Has;
    hide SameBut;
    hide Due;
    hide NextCycle;
    hide Counted;
    CountIs(h.counters);
    var compare, timer := Has(h.menvcfg, STCE), Due(h.counters, divider, h.stimecmp);
    SampledMachine(h.irq, l, compare, timer);
    SampledSeip(h.irq, l, compare, timer);
    SampledStip(h.irq, l, timer);
    SampledNoStip(h.irq, l, timer);
    SampledRest(h.irq, l, compare, timer);
    StceIs(h.menvcfg);
  }

  // ----- Reading back what was written -----

  /** These registers hold any value. */
  lemma {:induction false} PlainReadsBack(h: Hart, divider: bv64, v: Word)
    requires divider != 0
    ensures Read(Write(h, MSCRATCH, v), divider, MSCRATCH) == v && Read(Write(h, SSCRATCH, v), divider, SSCRATCH) == v
    ensures Read(Write(h, MCAUSE, v), divider, MCAUSE) == v && Read(Write(h, SCAUSE, v), divider, SCAUSE) == v
    ensures Read(Write(h, MTVAL, v), divider, MTVAL) == v && Read(Write(h, STVAL, v), divider, STVAL) == v
    ensures Read(Write(h, STIMECMP, v), divider, STIMECMP) == v && Read(Write(h, MENVCFG, v), divider, MENVCFG) == v
    ensures Read(Write(h, MCYCLE, v), divider, MCYCLE) == v && Read(Write(h, MINSTRET, v), divider, MINSTRET) == v
  {
    hide LegalTvec;
    hide EvenPc;
    hide Low3;
    hide WriteStatus;
    hide WriteIrq;
    hide WriteFloat;
    hide LegalSatp;
    hide NoEcallM;
  }

  lemma {:induction false} ReturnAddressIs(v: Word)
    ensures EvenPc(v) == W(v.b & !1)
  {
  }

  /** Return addresses are even. */
  lemma {:induction false} ReturnAddress(h: Hart, divider: bv64, v: Word)
    requires divider != 0
    ensures Read(Write(h, MEPC, v), divider, MEPC) == W(v.b & !1)
    ensures Read(Write(h, SEPC, v), divider, SEPC) == W(v.b & !1)
  {
    hide LegalTvec;
    hide EvenPc;
    hide Low3;
    hide NoEcallM;
    hide Field;
    hide Merge;
    hide SetIf;
    hide MergeSsi;
    hide WriteStatus;
    hide WriteFloat;
    hide LegalSatp;
    ReturnAddressIs(v);
  }

  lemma {:induction false} CounterEnablesIs(v: Word)
    ensures Low3(v) == W(v.b & 7)
  {
  }

  /** Three counters can be enabled. */
  lemma {:induction false} CounterEnables(h: Hart, divider: bv64, v: Word)
    requires divider != 0
    ensures Read(Write(h, MCOUNTEREN, v), divider, MCOUNTEREN) == W(v.b & 7)
    ensures Read(Write(h, SCOUNTEREN, v), divider, SCOUNTEREN) == W(v.b & 7)
  {
    hide LegalTvec;
    hide EvenPc;
    hide Low3;
    hide NoEcallM;
    hide Field;
    hide Merge;
    hide SetIf;
    hide MergeSsi;
    hide WriteStatus;
    hide WriteFloat;
    hide LegalSatp;
    CounterEnablesIs(v);
  }

  lemma {:induction false} ExceptionDelegationIs(v: Word)
    ensures NoEcallM(v) == W(v.b & !0x800)
  {
  }

  /** A call from machine mode is not delegated. */
  lemma {:induction false} ExceptionDelegation(h: Hart, divider: bv64, v: Word)
    requires divider != 0
    ensures Read(Write(h, MEDELEG, v), divider, MEDELEG) == W(v.b & !0x800)
  {
    hide LegalTvec;
    hide EvenPc;
    hide Low3;
    hide NoEcallM;
    hide Field;
    hide Merge;
    hide SetIf;
    hide MergeSsi;
    hide WriteStatus;
    hide WriteFloat;
    hide LegalSatp;
    ExceptionDelegationIs(v);
  }

  lemma {:induction false} InterruptDelegationIs(v: Word)
    ensures Field(v, S_INTERRUPTS) == W(v.b & 0x222)
  {
  }

  /** Supervisor interrupts are delegated, machine interrupts are not. */
  lemma {:induction false} InterruptDelegation(h: Hart, divider: bv64, v: Word)
    requires divider != 0
    ensures Read(Write(h, MIDELEG, v), divider, MIDELEG) == W(v.b & 0x222)
  {
    hide LegalTvec;
    hide EvenPc;
    hide Low3;
    hide NoEcallM;
    hide Field;
    hide Merge;
    hide SetIf;
    hide MergeSsi;
    hide WriteStatus;
    hide WriteFloat;
    hide LegalSatp;
    InterruptDelegationIs(v);
  }

  lemma {:induction false} InterruptEnablesIs(v: Word)
    ensures Field(v, INTERRUPTS) == W(v.b & 0xAAA)
  {
  }

  /** There are six interrupts to enable. */
  lemma {:induction false} InterruptEnables(h: Hart, divider: bv64, v: Word)
    requires divider != 0
    ensures Read(Write(h, MIE, v), divider, MIE) == W(v.b & 0xAAA)
  {
    hide LegalTvec;
    hide EvenPc;
    hide Low3;
    hide NoEcallM;
    hide Field;
    hide Merge;
    hide SetIf;
    hide MergeSsi;
    hide WriteStatus;
    hide WriteFloat;
    hide LegalSatp;
    InterruptEnablesIs(v);
  }

  lemma {:induction false} TvecIs(v: Word)
    ensures LegalTvec(v) == if Bit(v, 1) then W(v.b & !3) else v
  {
  }

  /** Vector registers hold an address and one of two modes; the reserved modes become direct. */
  lemma {:induction false} VectorsReadBack(h: Hart, divider: bv64, v: Word)
    requires divider != 0
    ensures Read(Write(h, MTVEC, v), divider, MTVEC) == if Bit(v, 1) then W(v.b & !3) else v
    ensures Read(Write(h, STVEC, v), divider, STVEC) == if Bit(v, 1) then W(v.b & !3) else v
  {
    hide LegalTvec;
    hide EvenPc;
    hide Low3;
    hide NoEcallM;
    hide WriteStatus;
    hide WriteIrq;
    hide WriteFloat;
    hide LegalSatp;
    hide Bit;
    TvecIs(v);
  }

  /** No translation, or Sv39. */
  predicate KnownMode(v: Word) { v.b >> 60 == 0 || v.b >> 60 == 8 }

  function WithoutMode(v: Word): (r: Word) { W(v.b & 0x0FFF_FFFF_FFFF_FFFF) }

  lemma {:induction false} KnownSatp(v: Word)
    ensures SatpLegal(v) <==> KnownMode(v)
  {
  }

  lemma {:induction false} BareIs(v: Word)
    ensures ToBare(v) == WithoutMode(v)
  {
  }

  lemma {:induction false} SatpIs(v: Word)
    ensures LegalSatp(v) == if KnownMode(v) then v else WithoutMode(v)
  {
    hide SatpLegal;
    hide KnownMode;
    hide ToBare;
    hide WithoutMode;
    KnownSatp(v);
    BareIs(v);
  }

  /** Translation is off or Sv39; any other mode turns it off. */
  lemma {:induction false} SatpReadsBack(h: Hart, divider: bv64, v: Word)
    requires divider != 0
    ensures Read(Write(h, SATP, v), divider, SATP) == if KnownMode(v) then v else WithoutMode(v)
  {
    hide LegalSatp;
    hide KnownMode;
    hide WithoutMode;
    hide EvenPc;
    hide Low3;
    hide NoEcallM;
    hide WriteStatus;
    hide WriteIrq;
    hide WriteFloat;
    SatpIs(v);
  }

  predicate Agree(x: Word, y: Word, bits: bv64) { x.b & bits == y.b & bits }

  /** `old` outside `bits`, `v` within. */
  predicate TakesBits(r: Word, old_: Word, v: Word, bits: bv64) { Agree(r, v, bits) && Agree(r, old_, !bits) }

  lemma {:induction false} MipIn(x: Word, v: Word)
    ensures Agree(Merge(x, v, S_INTERRUPTS), v, 0x222)
  {
  }

  lemma {:induction false} MipOut(x: Word, v: Word)
    ensures Agree(Merge(x, v, S_INTERRUPTS), x, !0x222)
  {
  }

  lemma {:induction false} SeiIs(v: Word)
    ensures Has(v, SEI) <==> Bit(v, 9)
  {
  }

  /** Of the pending bits a machine write sets the supervisor's three, and software's own copy of SEIP. */
  lemma {:induction false} PendingReadsBack(h: Hart, divider: bv64, v: Word)
    requires divider != 0
    ensures TakesBits(Read(Write(h, MIP, v), divider, MIP), h.irq.mip, v, 0x222)
    ensures Write(h, MIP, v).irq.softSei == Bit(v, 9)
  {
    hide Merge;
    hide Agree;
    hide Has;
    hide Bit;
    MipIn(h.irq.mip, v);
    MipOut(h.irq.mip, v);
    SeiIs(v);
  }

  /** The value of a view: nothing outside `bits`. */
  predicate Shows(r: Word, v: Word, bits: bv64) { Agree(r, v, bits) && Agree(r, W(0), !bits) }

  lemma {:induction false} FieldIn(v: Word, bits: Word)
    ensures Agree(Field(v, bits), v, bits.b)
  {
  }

  lemma {:induction false} FieldOut(v: Word, bits: Word)
    ensures Agree(Field(v, bits), W(0), !bits.b)
  {
  }

  lemma {:induction false} MergedField(x: Word, v: Word, bits: Word)
    ensures Field(Merge(x, v, bits), bits) == Field(v, bits)
  {
  }

  /** Of the enables the supervisor writes and reads the delegated ones. */
  lemma {:induction false} SieReadsBack(h: Hart, divider: bv64, v: Word)
    requires divider != 0
    ensures Shows(Read(Write(h, SIE, v), divider, SIE), v, h.irq.mideleg.b)
  {
    hide Merge;
    hide Field;
    hide Agree;
    FieldIn(v, h.irq.mideleg);
    FieldOut(v, h.irq.mideleg);
    MergedField(h.irq.mie, v, h.irq.mideleg);
  }

  /** FS is dirty. */
  predicate DirtyFloat(x: Word) { (x.b >> 13) & 3 == 3 }

  function Mpp(x: Word): (p: bv64) { (x.b >> 11) & 3 }

  lemma {:induction false} MstatusIn(m: Word, v: Word)
    ensures Agree(WithSd(LegalMpp(Merge(m, v, M_WRITABLE))), v, 0x7E_61AA)
  {
  }

  lemma {:induction false} MstatusMpp(m: Word, v: Word)
    ensures Mpp(WithSd(LegalMpp(Merge(m, v, M_WRITABLE)))) == if Mpp(v) == 2 then 0 else Mpp(v)
  {
  }

  lemma {:induction false} MstatusSd(m: Word, v: Word)
    ensures Bit(WithSd(LegalMpp(Merge(m, v, M_WRITABLE))), 63) <==> DirtyFloat(v)
  {
  }

  lemma {:induction false} MstatusOut(m: Word, v: Word)
    ensures Agree(WithSd(LegalMpp(Merge(m, v, M_WRITABLE))), m, !0x8000_0000_007E_79AA)
  {
  }

  /** SIE, MIE, SPIE, MPIE, SPP, FS, MPRV, SUM, MXR, TVM, TW and TSR as written; the reserved mode becomes user mode; SD
      tells whether FS is dirty; nothing else changes. */
  lemma {:induction false} MstatusReadsBack(h: Hart, divider: bv64, v: Word)
    requires divider != 0
    ensures var r := Read(Write(h, MSTATUS, v), divider, MSTATUS);
            && Agree(r, v, 0x7E_61AA) && Mpp(r) == (if Mpp(v) == 2 then 0 else Mpp(v))
            && (Bit(r, 63) <==> DirtyFloat(v)) && Agree(r, h.mstatus, !0x8000_0000_007E_79AA)
  {
    hide Agree;
    hide Mpp;
    hide Bit;
    hide DirtyFloat;
    hide WithSd;
    hide LegalMpp;
    hide Merge;
    MstatusIn(h.mstatus, v);
    MstatusMpp(h.mstatus, v);
    MstatusSd(h.mstatus, v);
    MstatusOut(h.mstatus, v);
  }

  lemma {:induction false} SstatusIn(m: Word, v: Word)
    ensures Agree(WithSd(Field(Merge(m, v, S_WRITABLE), S_VIEW)), v, 0xC_6122)
  {
  }

  lemma {:induction false} SstatusUxl(m: Word, v: Word)
    ensures Agree(WithSd(Field(Merge(m, v, S_WRITABLE), S_VIEW)), m, 0x3_0000_0000)
  {
  }

  lemma {:induction false} SstatusSd(m: Word, v: Word)
    ensures Bit(WithSd(Field(Merge(m, v, S_WRITABLE), S_VIEW)), 63) <==> DirtyFloat(v)
  {
  }

  lemma {:induction false} SstatusOut(m: Word, v: Word)
    ensures Agree(WithSd(Field(Merge(m, v, S_WRITABLE), S_VIEW)), W(0), !0x8000_0003_000C_6122)
  {
  }

  /** SIE, SPIE, SPP, FS, SUM and MXR as written, UXL as it was, SD, and nothing else. */
  lemma {:induction false} SstatusReadsBack(h: Hart, divider: bv64, v: Word)
    requires divider != 0
    ensures var r := Read(Write(h, SSTATUS, v), divider, SSTATUS);
            && Agree(r, v, 0xC_6122) && Agree(r, h.mstatus, 0x3_0000_0000)
            && (Bit(r, 63) <==> DirtyFloat(v)) && Agree(r, W(0), !0x8000_0003_000C_6122)
  {
    hide Agree;
    hide Bit;
    hide DirtyFloat;
    hide WithSd;
    hide Field;
    hide Merge;
    SstatusIn(h.mstatus, v);
    SstatusUxl(h.mstatus, v);
    SstatusSd(h.mstatus, v);
    SstatusOut(h.mstatus, v);
  }

  lemma {:induction false} SipBit(x: Word, v: Word, d: Word)
    ensures Bit(Field(MergeSsi(x, v, d), d), 1) <==> Bit(v, 1) && Bit(d, 1)
  {
  }

  lemma {:induction false} SipOut(x: Word, v: Word, d: Word)
    ensures Agree(Field(MergeSsi(x, v, d), d), Field(x, d), !2)
  {
  }

  /** The supervisor writes its software interrupt, if that is delegated, and no other pending bit. */
  lemma {:induction false} SipReadsBack(h: Hart, divider: bv64, v: Word)
    requires divider != 0
    ensures var r := Read(Write(h, SIP, v), divider, SIP);
            (Bit(r, 1) <==> Bit(v, 1) && Bit(h.irq.mideleg, 1)) && Agree(r, Read(h, divider, SIP), !2)
  {
    hide Agree;
    hide Bit;
    hide Field;
    hide MergeSsi;
    SipBit(h.irq.mip, v, h.irq.mideleg);
    SipOut(h.irq.mip, v, h.irq.mideleg);
  }

  lemma {:induction false} FcsrBits(v: Word)
    ensures Fcsr(Float(W(v.b & 0x1F), W((v.b >> 5) & 7))) == W(v.b & 0xFF)
  {
  }

  lemma {:induction false} DirtyIs(m: Word)
    ensures DirtyFloat(Dirty(m)) && Agree(Dirty(m), m, !0x6000)
  {
  }

  /** Five flags, three bits of rounding mode, both in one; every write marks the unit dirty. */
  lemma {:induction false} FloatReadsBack(h: Hart, divider: bv64, v: Word)
    requires divider != 0
    ensures Read(Write(h, FFLAGS, v), divider, FFLAGS) == W(v.b & 0x1F)
    ensures Read(Write(h, FRM, v), divider, FRM) == W(v.b & 7)
    ensures Read(Write(h, FCSR, v), divider, FCSR) == W(v.b & 0xFF)
    ensures forall a :: a == FFLAGS || a == FRM || a == FCSR ==> DirtyFloat(Write(h, a, v).mstatus) && Agree(Write(h, a, v).mstatus, h.mstatus, !0x6000)
  {
    hide Agree;
    hide DirtyFloat;
    hide Dirty;
    hide Fcsr;
    FcsrBits(v);
    DirtyIs(h.mstatus);
  }

  /** The user counters show the machine's, and the time is the cycles by the divider. */
  lemma {:induction false} CountersRead(h: Hart, divider: bv64)
    requires divider != 0
    ensures Read(h, divider, CYCLE) == Read(h, divider, MCYCLE) == h.counters.cycles
    ensures Read(h, divider, INSTRET) == Read(h, divider, MINSTRET) == h.counters.instret
    ensures Read(h, divider, TIME) == Mtime(h.counters.cycles, divider)
  {
    hide Mtime;
    hide Fcsr;
  }

  function Both(x: Word, y: Word): (r: Word) { W(x.b | y.b) }

  lemma {:induction false} AccrueIs(f: Float, flags: Word)
    ensures Accrue(f, flags) == f.(flags := Both(f.flags, flags))
  {
  }

  /** The flags an instruction raises are added to those there are, and the unit is dirty. */
  lemma {:induction false} FlagsAccrue(h: Hart, flags: Word)
    ensures var g := RetireFloat(h, flags);
            && g.fp.flags == Both(h.fp.flags, flags) && g.fp.rm == h.fp.rm
            && DirtyFloat(g.mstatus) && Agree(g.mstatus, h.mstatus, !0x6000)
  {
    hide Agree;
    hide DirtyFloat;
    hide Dirty;
    hide Accrue;
    hide Both;
    AccrueIs(h.fp, flags);
    DirtyIs(h.mstatus);
  }
}
