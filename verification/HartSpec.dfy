/** Control and status registers of one hart, as the architecture sees them: the supervisor's
    `sstatus`, `sie` and `sip` are views, not registers of their own. */
module HartSpec {
  /** A 64-bit register value. */
  datatype Word = W(b: bv64)

  // Addresses
  const FFLAGS := 0x001
  const FRM := 0x002
  const FCSR := 0x003
  const SSTATUS := 0x100
  const SIE := 0x104
  const STVEC := 0x105
  const SCOUNTEREN := 0x106
  const SSCRATCH := 0x140
  const SEPC := 0x141
  const SCAUSE := 0x142
  const STVAL := 0x143
  const SIP := 0x144
  const STIMECMP := 0x14D
  const SATP := 0x180
  const MSTATUS := 0x300
  const MISA := 0x301
  const MEDELEG := 0x302
  const MIDELEG := 0x303
  const MIE := 0x304
  const MTVEC := 0x305
  const MCOUNTEREN := 0x306
  const MENVCFG := 0x30A
  const MSCRATCH := 0x340
  const MEPC := 0x341
  const MCAUSE := 0x342
  const MTVAL := 0x343
  const MIP := 0x344
  const MCYCLE := 0xB00
  const MINSTRET := 0xB02
  const CYCLE := 0xC00
  const TIME := 0xC01
  const INSTRET := 0xC02

  // Fields of mstatus
  const ST_SIE := W(0x2)
  const ST_MIE := W(0x8)
  const ST_SPIE := W(0x20)
  const ST_MPIE := W(0x80)
  const ST_SPP := W(0x100)
  const ST_MPP := W(0x1800)
  const ST_FS := W(0x6000)
  const ST_MPRV := W(0x2_0000)
  const ST_SUM := W(0x4_0000)
  const ST_MXR := W(0x8_0000)
  const ST_TVM := W(0x10_0000)
  const ST_TW := W(0x20_0000)
  const ST_TSR := W(0x40_0000)
  const ST_UXL := W(0x3_0000_0000)
  const ST_SXL := W(0xC_0000_0000)
  const ST_SD := W(0x8000_0000_0000_0000)

  /** UXL = SXL = 2. */
  const RV64 := W(0xA_0000_0000)

  /** SIE, MIE, SPIE, MPIE, SPP, MPP, FS, MPRV, SUM, MXR, TVM, TW and TSR. */
  const M_WRITABLE := W(0x7E_79AA)
  /** SIE, SPIE, SPP, FS, SUM and MXR. */
  const S_WRITABLE := W(0xC_6122)
  /** The same and UXL. */
  const S_VIEW := W(0x3_000C_6122)

  // Interrupt bits, the same in mip, mie and mideleg
  const SSI := W(0x2)
  const MSI := W(0x8)
  const STI := W(0x20)
  const MTI := W(0x80)
  const SEI := W(0x200)
  const MEI := W(0x800)
  const S_INTERRUPTS := W(0x222)
  const M_INTERRUPTS := W(0x888)
  const INTERRUPTS := W(0xAAA)

  const STCE := W(0x8000_0000_0000_0000)
  const CAUSE_INTERRUPT := W(0x8000_0000_0000_0000)

  datatype Mode = User | Supervisor | Machine

  /** The trap registers that machine and supervisor mode both have. */
  datatype Bank = Bank(tvec: Word, scratch: Word, epc: Word, cause: Word, tval: Word, counteren: Word)

  /** `softSei`: software holds the supervisor external interrupt pending. */
  datatype Interrupts = Interrupts(mideleg: Word, mie: Word, mip: Word, softSei: bool)

  datatype Float = Float(flags: Word, rm: Word)

  datatype Counters = Counters(cycles: Word, instret: Word)

  datatype Hart = Hart(
    mstatus: Word, irq: Interrupts, m: Bank, s: Bank, medeleg: Word, menvcfg: Word, misa: Word, satp: Word, stimecmp: Word,
    fp: Float, counters: Counters, mode: Mode, pc: Word)

  /** `bits` of `x` replaced by those of `y`. */
  function Merge(x: Word, y: Word, bits: Word): (r: Word) { W((x.b & !bits.b) | (y.b & bits.b)) }

  predicate Has(x: Word, bits: Word) { x.b & bits.b != 0 }

  predicate Within(x: Word, bits: Word) { x.b & !bits.b == 0 }

  function Field(x: Word, bits: Word): (r: Word) { W(x.b & bits.b) }

  function SetIf(x: Word, bit: Word, on: bool): (r: Word) { if on then W(x.b | bit.b) else W(x.b & !bit.b) }

  // ----- Legal values -----

  predicate StatusLegal(mstatus: Word) {
    Within(mstatus, W(0xF_007E_79AA)) && mstatus.b & 0xF_0000_0000 == RV64.b && mstatus.b & 0x1800 != 0x1000
  }

  predicate IsBare(satp: Word) { satp.b >> 60 == 0 }

  predicate IsSv39(satp: Word) { satp.b >> 60 == 8 }

  predicate SatpLegal(satp: Word) { IsBare(satp) || IsSv39(satp) }

  predicate IrqLegal(i: Interrupts) {
    && Within(i.mideleg, S_INTERRUPTS) && Within(i.mie, INTERRUPTS) && Within(i.mip, INTERRUPTS)
    && (i.softSei ==> Has(i.mip, SEI))
  }

  predicate Even(pc: Word) { pc.b & 1 == 0 }

  predicate TvecLegal(tvec: Word) { tvec.b & 3 <= 1 }

  predicate Small(x: Word) { x.b <= 7 }

  predicate BankLegal(b: Bank) { TvecLegal(b.tvec) && Even(b.epc) && Small(b.counteren) }

  predicate FloatLegal(f: Float) { f.flags.b <= 0x1F && f.rm.b <= 7 }

  predicate MedelegLegal(medeleg: Word) { !Has(medeleg, W(0x800)) }

  predicate Legal(h: Hart) {
    && StatusLegal(h.mstatus) && IrqLegal(h.irq) && BankLegal(h.m) && BankLegal(h.s)
    && MedelegLegal(h.medeleg) && SatpLegal(h.satp) && FloatLegal(h.fp) && Even(h.pc)
  }

  // ----- Reads -----

  predicate FsDirty(x: Word) { x.b & 0x6000 == 0x6000 }

  /** SD summarises FS. */
  function WithSd(x: Word): (r: Word) { SetIf(x, ST_SD, FsDirty(x)) }

  function ReadMachine(h: Hart, addr: int): (v: Word) {
    match addr
    case 0x300 => WithSd(h.mstatus)
    case 0x301 => h.misa
    case 0x302 => h.medeleg
    case 0x303 => h.irq.mideleg
    case 0x304 => h.irq.mie
    case 0x305 => h.m.tvec
    case 0x306 => h.m.counteren
    case 0x30A => h.menvcfg
    case 0x340 => h.m.scratch
    case 0x341 => h.m.epc
    case 0x342 => h.m.cause
    case 0x343 => h.m.tval
    case 0x344 => h.irq.mip
    case _ => W(0)
  }

  function ReadSupervisor(h: Hart, addr: int): (v: Word) {
    match addr
    case 0x100 => WithSd(Field(h.mstatus, S_VIEW))
    case 0x104 => Field(h.irq.mie, h.irq.mideleg)
    case 0x105 => h.s.tvec
    case 0x106 => h.s.counteren
    case 0x140 => h.s.scratch
    case 0x141 => h.s.epc
    case 0x142 => h.s.cause
    case 0x143 => h.s.tval
    case 0x144 => Field(h.irq.mip, h.irq.mideleg)
    case 0x14D => h.stimecmp
    case 0x180 => h.satp
    case _ => W(0)
  }

  function Fcsr(f: Float): (v: Word) { W((f.rm.b << 5) | f.flags.b) }

  function Mtime(cycles: Word, divider: bv64): (v: Word)
    requires divider != 0
  {
    W(cycles.b / divider)
  }

  function ReadUser(h: Hart, divider: bv64, addr: int): (v: Word)
    requires divider != 0
  {
    match addr
    case 0x001 => h.fp.flags
    case 0x002 => h.fp.rm
    case 0x003 => Fcsr(h.fp)
    case 0xC00 => h.counters.cycles
    case 0xB00 => h.counters.cycles
    case 0xC01 => Mtime(h.counters.cycles, divider)
    case 0xC02 => h.counters.instret
    case 0xB02 => h.counters.instret
    case _ => W(0)
  }

  function Read(h: Hart, divider: bv64, addr: int): (v: Word)
    requires divider != 0
  {
    if 0x100 <= addr < 0x200 then ReadSupervisor(h, addr)
    else if 0x300 <= addr < 0x400 then ReadMachine(h, addr)
    else ReadUser(h, divider, addr)
  }

  // ----- Writes -----

  /** Legal forms of the fields that do not take every value. */
  function LegalMpp(mstatus: Word): (r: Word) { if mstatus.b & 0x1800 == 0x1000 then W(mstatus.b & !0x1800) else mstatus }

  function LegalTvec(v: Word): (r: Word) { if v.b & 3 >= 2 then W(v.b & !3) else v }

  function ToBare(v: Word): (r: Word) { W(v.b & 0x0FFF_FFFF_FFFF_FFFF) }

  function LegalSatp(v: Word): (r: Word) { if SatpLegal(v) then v else ToBare(v) }

  /** A call from machine mode cannot be delegated. */
  function NoEcallM(v: Word): (r: Word) { W(v.b & !0x800) }

  function EvenPc(v: Word): (r: Word) { W(v.b & !1) }

  function Low3(v: Word): (r: Word) { W(v.b & 7) }

  function Dirty(mstatus: Word): (r: Word) { W(mstatus.b | 0x6000) }

  function WriteFloat(f: Float, addr: int, v: Word): (r: Float) {
    match addr
    case 0x001 => f.(flags := W(v.b & 0x1F))
    case 0x002 => f.(rm := Low3(v))
    case 0x003 => Float(W(v.b & 0x1F), W((v.b >> 5) & 7))
    case _ => f
  }

  /** The two banks lie at the same offsets from 0x100 and 0x300. */
  function WriteBank(b: Bank, offset: int, v: Word): (r: Bank) {
    match offset
    case 0x05 => b.(tvec := LegalTvec(v))
    case 0x06 => b.(counteren := Low3(v))
    case 0x40 => b.(scratch := v)
    case 0x41 => b.(epc := EvenPc(v))
    case 0x42 => b.(cause := v)
    case 0x43 => b.(tval := v)
    case _ => b
  }

  /** Of the pending bits, the supervisor writes SSIP alone, and only when it is delegated. */
  function MergeSsi(mip: Word, v: Word, mideleg: Word): (r: Word) { Merge(mip, v, Field(mideleg, SSI)) }

  function WriteIrq(i: Interrupts, addr: int, v: Word): (r: Interrupts) {
    match addr
    case 0x104 => i.(mie := Merge(i.mie, v, i.mideleg))
    case 0x144 => i.(mip := MergeSsi(i.mip, v, i.mideleg))
    case 0x14D => i.(mip := SetIf(i.mip, STI, false))
    case 0x303 => i.(mideleg := Field(v, S_INTERRUPTS))
    case 0x304 => i.(mie := Field(v, INTERRUPTS))
    case 0x344 => i.(mip := Merge(i.mip, v, S_INTERRUPTS), softSei := Has(v, SEI))
    case _ => i
  }

  function WriteStatus(mstatus: Word, addr: int, v: Word): (r: Word) {
    match addr
    case 0x001 => Dirty(mstatus)
    case 0x002 => Dirty(mstatus)
    case 0x003 => Dirty(mstatus)
    case 0x100 => Merge(mstatus, v, S_WRITABLE)
    case 0x300 => LegalMpp(Merge(mstatus, v, M_WRITABLE))
    case _ => mstatus
  }

  function WriteCounters(c: Counters, addr: int, v: Word): (r: Counters) {
    match addr
    case 0xB00 => c.(cycles := v)
    case 0xB02 => c.(instret := v)
    case _ => c
  }

  function Write(h: Hart, addr: int, v: Word): (r: Hart) {
    h.(mstatus := WriteStatus(h.mstatus, addr, v),
       irq := WriteIrq(h.irq, addr, v),
       m := WriteBank(h.m, addr - 0x300, v),
       s := WriteBank(h.s, addr - 0x100, v),
       medeleg := if addr == MEDELEG then NoEcallM(v) else h.medeleg,
       menvcfg := if addr == MENVCFG then v else h.menvcfg,
       satp := if addr == SATP then LegalSatp(v) else h.satp,
       stimecmp := if addr == STIMECMP then v else h.stimecmp,
       fp := WriteFloat(h.fp, addr, v),
       counters := WriteCounters(h.counters, addr, v))
  }

  // ----- Interrupt lines -----

  datatype Lines = Lines(timer: bool, software: bool, external: bool, supervisor: bool)

  /** `mip` after one sampling of the lines; `timer` is the supervisor's comparison, if it is enabled. */
  function Sampled(i: Interrupts, l: Lines, compare: bool, timer: bool): (mip: Word) {
    var m := SetIf(SetIf(SetIf(i.mip, MTI, l.timer), MSI, l.software), MEI, l.external);
    var s := SetIf(m, SEI, l.supervisor || i.softSei);
    if compare then SetIf(s, STI, timer) else s
  }

  /** The supervisor timer has run out. */
  predicate Due(c: Counters, divider: bv64, stimecmp: Word)
    requires divider != 0
  {
    Mtime(c.cycles, divider).b >= stimecmp.b
  }

  function NextCycle(c: Counters): (r: Counters) { c.(cycles := W(c.cycles.b + 1)) }

  function Tick(h: Hart, divider: bv64, l: Lines): (r: Hart)
    requires divider != 0
  {
    h.(irq := h.irq.(mip := Sampled(h.irq, l, Has(h.menvcfg, STCE), Due(h.counters, divider, h.stimecmp))),
       counters := NextCycle(h.counters))
  }

  // ----- Traps and returns -----

  /** A trap requested by software may have any code. */
  datatype Cause = Cause(interrupt: bool, code: bv64, tval: Word)

  function CauseWord(c: Cause): (w: Word) { W(if c.interrupt then Interrupting(c.code) else c.code) }

  function Interrupting(code: bv64): (v: bv64) { code | CAUSE_INTERRUPT.b }

  function Start(tvec: bv64): (pc: bv64) { tvec & !3 }

  function Plus(x: bv64, y: bv64): (v: bv64) { x + y }

  function Times4(code: bv64): (v: bv64) { 4 * code }

  /** Where a vectored interrupt enters. */
  function Entry(tvec: bv64, code: bv64): (pc: bv64) { Plus(Start(tvec), Times4(code)) }

  function Vector(tvec: Word, c: Cause): (pc: Word) {
    W(if Has(tvec, W(1)) && c.interrupt then Entry(tvec.b, c.code) else Start(tvec.b))
  }

  /** The delegation bit of a code; the shift takes the low six bits of the code. */
  function CauseBit(code: bv64): (w: Word) { W(1 << (code & 63)) }

  /** The mode that handles a cause. */
  function Target(h: Hart, c: Cause): (m: Mode) {
    if h.mode != Machine && Has(if c.interrupt then h.irq.mideleg else h.medeleg, CauseBit(c.code)) then Supervisor else Machine
  }

  /** A mode in the MPP field. */
  function ModeBits(m: Mode): (w: Word) { match m case User => W(0) case Supervisor => W(0x800) case Machine => W(0x1800) }

  function ModeOf(mstatus: Word): (m: Mode) {
    if mstatus.b & 0x1800 == 0 then User else if mstatus.b & 0x1800 == 0x800 then Supervisor else Machine
  }

  function STrapStatus(mstatus: Word, fromS: bool): (r: Word) {
    SetIf(SetIf(SetIf(mstatus, ST_SPIE, Has(mstatus, ST_SIE)), ST_SPP, fromS), ST_SIE, false)
  }

  function MTrapStatus(mstatus: Word, from: Mode): (r: Word) {
    SetIf(Merge(SetIf(mstatus, ST_MPIE, Has(mstatus, ST_MIE)), ModeBits(from), ST_MPP), ST_MIE, false)
  }

  function TrapBank(b: Bank, c: Cause, epc: Word): (r: Bank) { b.(cause := CauseWord(c), epc := epc, tval := c.tval) }

  function STrap(h: Hart, c: Cause, epc: Word): (r: Hart) {
    h.(mstatus := STrapStatus(h.mstatus, h.mode == Supervisor), s := TrapBank(h.s, c, epc), mode := Supervisor, pc := Vector(h.s.tvec, c))
  }

  function MTrap(h: Hart, c: Cause, epc: Word): (r: Hart) {
    h.(mstatus := MTrapStatus(h.mstatus, h.mode), m := TrapBank(h.m, c, epc), mode := Machine, pc := Vector(h.m.tvec, c))
  }

  function Trap(h: Hart, c: Cause, epc: Word): (r: Hart) {
    if Target(h, c) == Supervisor then STrap(h, c, epc) else MTrap(h, c, epc)
  }

  function MretStatus(mstatus: Word): (r: Word) {
    var m := SetIf(SetIf(SetIf(mstatus, ST_MIE, Has(mstatus, ST_MPIE)), ST_MPIE, true), ST_MPP, false);
    if ModeOf(mstatus) == Machine then m else SetIf(m, ST_MPRV, false)
  }

  function SretStatus(mstatus: Word): (r: Word) {
    SetIf(SetIf(SetIf(SetIf(mstatus, ST_SIE, Has(mstatus, ST_SPIE)), ST_SPIE, true), ST_SPP, false), ST_MPRV, false)
  }

  function Mret(h: Hart): (r: Hart) {
    h.(mstatus := MretStatus(h.mstatus), mode := ModeOf(h.mstatus), pc := EvenPc(h.m.epc))
  }

  function Sret(h: Hart): (r: Hart) {
    h.(mstatus := SretStatus(h.mstatus), mode := if Has(h.mstatus, ST_SPP) then Supervisor else User, pc := EvenPc(h.s.epc))
  }

  function Accrue(f: Float, flags: Word): (r: Float) { f.(flags := W(f.flags.b | flags.b)) }

  function RetireFloat(h: Hart, flags: Word): (r: Hart) {
    h.(fp := Accrue(h.fp, flags), mstatus := Dirty(h.mstatus))
  }

  // ----- Runs -----

  datatype Event =
    | WriteCsr(addr: int, v: Word)
    | Sample(lines: Lines)
    | TakeTrap(cause: Cause, epc: Word)
    | ReturnM
    | ReturnS
    | RetireFp(flags: Word)

  /** Instructions lie on even addresses, and an instruction raises flags within the five there are. */
  predicate Possible(e: Event) {
    (e.TakeTrap? ==> Even(e.epc)) && (e.RetireFp? ==> e.flags.b <= 0x1F)
  }

  function Step(h: Hart, divider: bv64, e: Event): (r: Hart)
    requires divider != 0
  {
    match e
    case WriteCsr(addr, v) => Write(h, addr, v)
    case Sample(l) => Tick(h, divider, l)
    case TakeTrap(c, epc) => Trap(h, c, epc)
    case ReturnM => Mret(h)
    case ReturnS => Sret(h)
    case RetireFp(flags) => RetireFloat(h, flags)
  }

  function Run(h: Hart, divider: bv64, es: seq<Event>): (r: Hart)
    requires divider != 0
    decreases |es|
  {
    if es == [] then h else Step(Run(h, divider, es[..|es| - 1]), divider, es[|es| - 1])
  }

  // ----- Legality is kept -----

  /** The state of a new hart; `direct` programs start with the floating point unit on. */
  function Reset(direct: bool, misa: Word, pc: Word): (h: Hart) {
    var bank := Bank(W(0), W(0), W(0), W(0), W(0), W(0));
    Hart(if direct then W(0xA_0000_2000) else W(0xA_0000_0000), Interrupts(W(0), W(0), W(0), false), bank, bank,
         W(0), W(0), misa, W(0), W(0xFFFF_FFFF_FFFF_FFFF), Float(W(0), W(0)), Counters(W(0), W(0)), Machine, pc)
  }

  lemma {:induction false} ResetIsLegal(direct: bool, misa: Word, pc: Word)
    requires Even(pc)
    ensures Legal(Reset(direct, misa, pc))
  {
  }

  lemma {:induction false} DirtyIsLegal(m: Word)
    requires StatusLegal(m)
    ensures StatusLegal(Dirty(m))
  {
  }

  lemma {:induction false} SstatusWriteIsLegal(m: Word, v: Word)
    requires StatusLegal(m)
    ensures StatusLegal(Merge(m, v, S_WRITABLE))
  {
  }

  lemma {:induction false} MstatusWriteIsLegal(m: Word, v: Word)
    requires StatusLegal(m)
    ensures StatusLegal(LegalMpp(Merge(m, v, M_WRITABLE)))
  {
  }

  lemma {:induction false} StatusStaysLegal(m: Word, addr: int, v: Word)
    requires StatusLegal(m)
    ensures StatusLegal(WriteStatus(m, addr, v)) && StatusLegal(Dirty(m))
  {
    DirtyIsLegal(m);
    SstatusWriteIsLegal(m, v);
    MstatusWriteIsLegal(m, v);
  }

  lemma {:induction false} TrapStatusIsLegal(m: Word, from: Mode)
    requires StatusLegal(m)
    ensures StatusLegal(STrapStatus(m, from == Supervisor)) && StatusLegal(MTrapStatus(m, from))
  {
  }

  lemma {:induction false} ReturnStatusIsLegal(m: Word)
    requires StatusLegal(m)
    ensures StatusLegal(MretStatus(m)) && StatusLegal(SretStatus(m))
  {
  }

  lemma {:induction false} BankStaysLegal(b: Bank, offset: int, v: Word)
    requires BankLegal(b)
    ensures BankLegal(WriteBank(b, offset, v))
  {
    BankForms(v);
    hide TvecLegal;
    hide Even;
    hide Small;
  }

  lemma {:induction false} BankForms(v: Word)
    ensures TvecLegal(LegalTvec(v)) && Even(EvenPc(v)) && Small(Low3(v))
  {
  }

  lemma {:induction false} IrqForms(mip: Word, mie: Word, mideleg: Word, v: Word)
    requires Within(mip, INTERRUPTS) && Within(mie, INTERRUPTS) && Within(mideleg, S_INTERRUPTS)
    ensures Within(Field(v, S_INTERRUPTS), S_INTERRUPTS) && Within(Field(v, INTERRUPTS), INTERRUPTS)
    ensures Within(Merge(mie, v, mideleg), INTERRUPTS)
    ensures Within(Merge(mip, v, S_INTERRUPTS), INTERRUPTS) && (Has(v, SEI) ==> Has(Merge(mip, v, S_INTERRUPTS), SEI))
    ensures Within(MergeSsi(mip, v, mideleg), INTERRUPTS) && (Has(mip, SEI) ==> Has(MergeSsi(mip, v, mideleg), SEI))
    ensures Within(SetIf(mip, STI, false), INTERRUPTS) && (Has(mip, SEI) ==> Has(SetIf(mip, STI, false), SEI))
  {
  }

  lemma {:induction false} IrqStaysLegal(i: Interrupts, addr: int, v: Word)
    requires IrqLegal(i)
    ensures IrqLegal(WriteIrq(i, addr, v))
  {
    hide Within;
    IrqForms(i.mip, i.mie, i.mideleg, v);
    match addr
    case 0x104 =>
    case 0x144 =>
    case 0x14D =>
    case 0x303 =>
    case 0x304 =>
    case 0x344 =>
    case _ => assert WriteIrq(i, addr, v) == i;
  }

  lemma {:induction false} FloatStaysLegal(f: Float, addr: int, v: Word)
    requires FloatLegal(f)
    ensures FloatLegal(WriteFloat(f, addr, v))
  {
    match addr
    case 0x001 =>
    case 0x002 =>
    case 0x003 =>
    case _ => assert WriteFloat(f, addr, v) == f;
  }

  lemma {:induction false} AccruedIsLegal(f: Float, v: Word)
    requires FloatLegal(f) && v.b <= 0x1F
    ensures FloatLegal(Accrue(f, v))
  {
  }

  lemma {:induction false} SatpIsLegal(v: Word)
    ensures SatpLegal(LegalSatp(v))
  {
    BareIsBare(v);
  }

  lemma {:induction false} BareIsBare(v: Word)
    ensures IsBare(ToBare(v))
  {
  }

  lemma {:induction false} MedelegIsLegal(v: Word)
    ensures MedelegLegal(NoEcallM(v))
  {
  }

  lemma {:induction false} WriteKeepsLegal(h: Hart, addr: int, v: Word)
    requires Legal(h)
    ensures Legal(Write(h, addr, v))
  {
    StatusStaysLegal(h.mstatus, addr, v);
    BankStaysLegal(h.m, addr - 0x300, v);
    BankStaysLegal(h.s, addr - 0x100, v);
    IrqStaysLegal(h.irq, addr, v);
    FloatStaysLegal(h.fp, addr, v);
    SatpIsLegal(v);
    MedelegIsLegal(v);
  }

  lemma {:induction false} SampledIsLegal(i: Interrupts, l: Lines, compare: bool, timer: bool)
    requires IrqLegal(i)
    ensures IrqLegal(i.(mip := Sampled(i, l, compare, timer)))
  {
  }

  lemma {:induction false} TickKeepsLegal(h: Hart, divider: bv64, l: Lines)
    requires Legal(h) && divider != 0
    ensures Legal(Tick(h, divider, l))
  {
    hide NextCycle;
    SampledIsLegal(h.irq, l, Has(h.menvcfg, STCE), Due(h.counters, divider, h.stimecmp));
  }

  lemma {:induction false} VectorIsEven(tvec: Word, c: Cause)
    ensures Even(Vector(tvec, c))
  {
  }

  lemma {:induction false} TrapBankIsLegal(b: Bank, c: Cause, epc: Word)
    requires BankLegal(b) && Even(epc)
    ensures BankLegal(TrapBank(b, c, epc))
  {
  }

  lemma {:induction false} TrapKeepsLegal(h: Hart, c: Cause, epc: Word)
    requires Legal(h) && Even(epc)
    ensures Legal(Trap(h, c, epc))
  {
    TrapStatusIsLegal(h.mstatus, h.mode);
    VectorIsEven(h.m.tvec, c);
    VectorIsEven(h.s.tvec, c);
    TrapBankIsLegal(h.m, c, epc);
    TrapBankIsLegal(h.s, c, epc);
    if Target(h, c) == Supervisor {
      assert Trap(h, c, epc).irq == h.irq;
    } else {
      assert Trap(h, c, epc).irq == h.irq;
    }
  }

  lemma {:induction false} ReturnsKeepLegal(h: Hart)
    requires Legal(h)
    ensures Legal(Mret(h)) && Legal(Sret(h))
  {
    ReturnStatusIsLegal(h.mstatus);
    BankForms(h.m.epc);
    BankForms(h.s.epc);
  }

  lemma {:induction false} RetireKeepsLegal(h: Hart, flags: Word)
    requires Legal(h) && flags.b <= 0x1F
    ensures Legal(RetireFloat(h, flags))
  {
    hide StatusLegal;
    hide FloatLegal;
    hide Accrue;
    hide Dirty;
    DirtyIsLegal(h.mstatus);
    AccruedIsLegal(h.fp, flags);
  }

  lemma {:induction false} StepKeepsLegal(h: Hart, divider: bv64, e: Event)
    requires Legal(h) && divider != 0 && Possible(e)
    ensures Legal(Step(h, divider, e))
  {
    hide Write;
    hide Tick;
    hide Trap;
    hide Mret;
    hide Sret;
    match e
    case WriteCsr(addr, v) => WriteKeepsLegal(h, addr, v);
    case Sample(l) => TickKeepsLegal(h, divider, l);
    case TakeTrap(c, epc) => TrapKeepsLegal(h, c, epc);
    case ReturnM => ReturnsKeepLegal(h);
    case ReturnS => ReturnsKeepLegal(h);
    case RetireFp(flags) => RetireKeepsLegal(h, flags);
  }
}
