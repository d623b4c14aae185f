/** The simulator's CSR file: `sstatus` is stored beside `mstatus` and every operation has to keep the
    two in step. */
module CpuCsr {
  import opened HartSpec
  import opened HartEffects
  import opened HartWrites

  // ----- The code's own bit arithmetic -----

  function And(x: Word, y: Word): (r: Word) { W(x.b & y.b) }

  function Or(x: Word, y: Word): (r: Word) { W(x.b | y.b) }

  function AndNot(x: Word, y: Word): (r: Word) { W(x.b & !y.b) }

  /** `mstatus` for a write of `val`, before MPP is clamped. */
  function Accepted(mstatus: Word, val: Word): (r: Word) { W((val.b & 0x7E_79AA) | (mstatus.b & 0xF_0000_0000)) }

  lemma {:induction false} AcceptedIsMerge(mstatus: Word, val: Word)
    requires StatusLegal(mstatus)
    ensures Accepted(mstatus, val) == Merge(mstatus, val, M_WRITABLE)
  {
  }

  predicate MppIsTwo(m: Word) { (m.b >> 11) & 3 == 2 }

  lemma {:induction false} MppIsField(m: Word)
    ensures MppIsTwo(m) <==> m.b & 0x1800 == 0x1000
  {
  }

  /** Set FS to dirty: clear, then set. */
  function SetDirty(x: Word): (r: Word) { W((x.b & !0x6000) | 0x6000) }

  lemma {:induction false} SetDirtyIsDirty(x: Word)
    ensures SetDirty(x) == Dirty(x)
  {
  }

  lemma {:induction false} DirtyInView(m: Word)
    ensures Dirty(Field(m, S_VIEW)) == Field(Dirty(m), S_VIEW)
  {
  }

  /** A return or trap of the supervisor as the code does it: on `sstatus`, then copied to `mstatus`. */
  function CopyBack(mstatus: Word, sstatus: Word): (r: Word) { Merge(mstatus, sstatus, W(0x122)) }

  function TrapSstatus(sstatus: Word, fromS: bool): (r: Word) {
    var s1 := SetIf(sstatus, ST_SPIE, Has(sstatus, ST_SIE));
    var s2 := SetIf(s1, ST_SPP, fromS);
    AndNot(s2, ST_SIE)
  }

  function SretSstatus(sstatus: Word): (r: Word) {
    var s1 := SetIf(sstatus, ST_SIE, Has(sstatus, ST_SPIE));
    AndNot(Or(s1, ST_SPIE), ST_SPP)
  }

  lemma {:induction false} HasInView(m: Word)
    ensures Has(Field(m, S_VIEW), ST_SIE) <==> Has(m, ST_SIE)
  {
  }

  lemma {:induction false} HasInViewPrevious(m: Word)
    ensures Has(Field(m, S_VIEW), ST_SPIE) <==> Has(m, ST_SPIE)
  {
  }

  lemma {:induction false} HasInViewMode(m: Word)
    ensures Has(Field(m, S_VIEW), ST_SPP) <==> Has(m, ST_SPP)
  {
  }

  /** Changing a bit of the view, in the view or in the whole. */
  lemma {:induction false} SetInView(m: Word, bit: Word, on: bool)
    requires bit == ST_SIE || bit == ST_SPIE || bit == ST_SPP
    ensures SetIf(Field(m, S_VIEW), bit, on) == Field(SetIf(m, bit, on), S_VIEW)
  {
  }

  lemma {:induction false} ClearIsSetFalse(x: Word, bit: Word)
    ensures AndNot(x, bit) == SetIf(x, bit, false)
    ensures Or(x, bit) == SetIf(x, bit, true)
  {
  }

  /** A word that differs from `m` in the copied bits alone is what copying its view gives. */
  lemma {:induction false} CopyBackIs(m: Word, n: Word)
    requires AndNot(n, W(0x122)) == AndNot(m, W(0x122))
    ensures CopyBack(m, Field(n, S_VIEW)) == n
  {
    hide And;
    CopyBits(m, n);
    CopiedIsVisible(n);
    SplitWord(n);
  }

  lemma {:induction false} CopyBits(m: Word, n: Word)
    ensures CopyBack(m, Field(n, S_VIEW)) == Or(AndNot(m, W(0x122)), And(Field(n, S_VIEW), W(0x122)))
  {
  }

  lemma {:induction false} CopiedIsVisible(n: Word)
    ensures And(n, W(0x122)) == And(Field(n, S_VIEW), W(0x122))
  {
  }

  lemma {:induction false} SplitWord(n: Word)
    ensures Or(AndNot(n, W(0x122)), And(n, W(0x122))) == n
  {
  }

  lemma {:induction false} SetOutsideCopied(x: Word, bit: Word, on: bool)
    requires bit == ST_SIE || bit == ST_SPIE || bit == ST_SPP
    ensures AndNot(SetIf(x, bit, on), W(0x122)) == AndNot(x, W(0x122))
  {
  }

  lemma {:induction false} TrapOnView(m: Word, fromS: bool)
    ensures TrapSstatus(Field(m, S_VIEW), fromS) == Field(STrapStatus(m, fromS), S_VIEW)
    ensures CopyBack(m, TrapSstatus(Field(m, S_VIEW), fromS)) == STrapStatus(m, fromS)
  {
    HasInView(m);
    var m1 := SetIf(m, ST_SPIE, Has(m, ST_SIE));
    var m2 := SetIf(m1, ST_SPP, fromS);
    SetInView(m, ST_SPIE, Has(m, ST_SIE));
    SetInView(m1, ST_SPP, fromS);
    SetInView(m2, ST_SIE, false);
    ClearIsSetFalse(Field(m2, S_VIEW), ST_SIE);
    SetOutsideCopied(m, ST_SPIE, Has(m, ST_SIE));
    SetOutsideCopied(m1, ST_SPP, fromS);
    SetOutsideCopied(m2, ST_SIE, false);
    CopyBackIs(m, STrapStatus(m, fromS));
  }

  lemma {:induction false} ReturnOnView(m: Word)
    ensures SretSstatus(Field(m, S_VIEW)) == Field(SretStatus(m), S_VIEW)
    ensures SetIf(CopyBack(m, SretSstatus(Field(m, S_VIEW))), ST_MPRV, false) == SretStatus(m)
  {
    hide AndNot;
    hide Or;
    HasInViewPrevious(m);
    var m1 := SetIf(m, ST_SIE, Has(m, ST_SPIE));
    var m2 := SetIf(m1, ST_SPIE, true);
    var m3 := SetIf(m2, ST_SPP, false);
    SetInView(m, ST_SIE, Has(m, ST_SPIE));
    SetInView(m1, ST_SPIE, true);
    SetInView(m2, ST_SPP, false);
    ClearIsSetFalse(Field(m1, S_VIEW), ST_SPIE);
    ClearIsSetFalse(Field(m2, S_VIEW), ST_SPP);
    MprvIsHidden(m3);
    SetOutsideCopied(m, ST_SIE, Has(m, ST_SPIE));
    SetOutsideCopied(m1, ST_SPIE, true);
    SetOutsideCopied(m2, ST_SPP, false);
    CopyBackIs(m, m3);
  }

  lemma {:induction false} MprvIsHidden(m: Word)
    ensures Field(SetIf(m, ST_MPRV, false), S_VIEW) == Field(m, S_VIEW)
  {
  }

  /** The machine fields changed by a trap or return lie outside the supervisor's view. */
  lemma {:induction false} MachineBitIsHidden(m: Word, bit: Word, on: bool)
    requires bit == ST_MIE || bit == ST_MPIE || bit == ST_MPRV
    ensures Field(SetIf(m, bit, on), S_VIEW) == Field(m, S_VIEW)
  {
  }

  lemma {:induction false} MppIsHidden(m: Word, v: Word)
    ensures Field(Merge(m, v, ST_MPP), S_VIEW) == Field(m, S_VIEW)
  {
  }

  lemma {:induction false} ViewOfTraps(m: Word, from: Mode)
    ensures Field(MTrapStatus(m, from), S_VIEW) == Field(m, S_VIEW)
  {
    var m1 := SetIf(m, ST_MPIE, Has(m, ST_MIE));
    var m2 := Merge(m1, ModeBits(from), ST_MPP);
    MachineBitIsHidden(m, ST_MPIE, Has(m, ST_MIE));
    MppIsHidden(m1, ModeBits(from));
    MachineBitIsHidden(m2, ST_MIE, false);
  }

  lemma {:induction false} ClearMppIsMerge(m: Word)
    ensures SetIf(m, ST_MPP, false) == Merge(m, W(0), ST_MPP)
  {
  }

  lemma {:induction false} ViewOfMret(m: Word)
    ensures Field(MretStatus(m), S_VIEW) == Field(m, S_VIEW)
  {
    var m1 := SetIf(m, ST_MIE, Has(m, ST_MPIE));
    var m2 := SetIf(m1, ST_MPIE, true);
    var m3 := SetIf(m2, ST_MPP, false);
    ClearMppIsMerge(m2);
    MachineBitIsHidden(m, ST_MIE, Has(m, ST_MPIE));
    MachineBitIsHidden(m1, ST_MPIE, true);
    MppIsHidden(m2, W(0));
    if ModeOf(m) == Machine {
      assert MretStatus(m) == m3;
    } else {
      MachineBitIsHidden(m3, ST_MPRV, false);
      assert MretStatus(m) == SetIf(m3, ST_MPRV, false);
    }
  }

  /** The mode test of the satp write. */
  predicate SatpModeKnown(v: Word) {
    var mode := (v.b >> 60) & 0xF;
    mode == 8 || mode == 0
  }

  lemma {:induction false} SatpCode(v: Word)
    ensures SatpModeKnown(v) <==> SatpLegal(v)
  {
    assert (v.b >> 60) & 0xF == v.b >> 60;
  }

  /** The code's way to SD: clear it, then set it when FS is dirty. */
  function ShowSd(x: Word): (r: Word) {
    var val := AndNot(x, ST_SD);
    if FsDirty(val) then Or(val, ST_SD) else val
  }

  lemma {:induction false} SdIsNotFs(x: Word)
    ensures FsDirty(AndNot(x, ST_SD)) <==> FsDirty(x)
  {
    assert (x.b & !0x8000_0000_0000_0000) & 0x6000 == x.b & 0x6000;
  }

  lemma {:induction false} SetCleared(x: Word)
    ensures Or(AndNot(x, ST_SD), ST_SD) == SetIf(x, ST_SD, true)
  {
  }

  lemma {:induction false} ShowSdIs(x: Word)
    ensures ShowSd(x) == WithSd(x)
  {
    SdIsNotFs(x);
    SetCleared(x);
    ClearIsSetFalse(x, ST_SD);
  }

  // ----- The machine -----

  class Cpu {
    const divider: bv64
    var mstatus: Word
    var sstatus: Word
    var irq: Interrupts
    var m: Bank
    var s: Bank
    var medeleg: Word
    var menvcfg: Word
    var misa: Word
    var satp: Word
    var stimecmp: Word
    var fp: Float
    var counters: Counters
    var mode: Mode
    var pc: Word

    ghost function State(): (h: Hart)
      reads this
    {
      Hart(mstatus, irq, m, s, medeleg, menvcfg, misa, satp, stimecmp, fp, counters, mode, pc)
    }

    /** The stored copy is the view of `mstatus`. */
    ghost predicate Coupled()
      reads this
    {
      divider != 0 && sstatus == Field(mstatus, S_VIEW)
    }

    ghost predicate Valid()
      reads this
    {
      Coupled() && Legal(State())
    }

    constructor (direct: bool, misa: Word, pc: Word, divider: bv64)
      requires Even(pc) && divider != 0
      ensures Valid() && State() == Reset(direct, misa, pc) && this.divider == divider
    {
      ResetIsLegal(direct, misa, pc);
      var h := Reset(direct, misa, pc);
      this.divider := divider;
      mstatus, sstatus := h.mstatus, Field(h.mstatus, S_VIEW);
      irq, m, s := h.irq, h.m, h.s;
      medeleg, menvcfg, this.misa, satp, stimecmp := h.medeleg, h.menvcfg, misa, h.satp, h.stimecmp;
      fp, counters, mode, this.pc := h.fp, h.counters, h.mode, pc;
    }

    /** Stores to `fflags`, `frm` and `fcsr`. */
    method WriteFp(addr: int, val: Word)
      requires Valid() && IsFp(addr)
      modifies this
      ensures Valid() && State() == Write(old(State()), addr, val)
    {
      hide Write;
      hide Legal;
      hide SetDirty;
      hide Dirty;
      hide Field;
      WriteKeepsLegal(State(), addr, val);
      WriteFpIs(State(), addr, val);
      SetDirtyIsDirty(mstatus);
      SetDirtyIsDirty(sstatus);
      DirtyInView(mstatus);
      if addr == FFLAGS {
        fp := fp.(flags := W(val.b & 0x1F));
      } else if addr == FRM {
        fp := fp.(rm := Low3(val));
      } else {
        fp := Float(W(val.b & 0x1F), W((val.b >> 5) & 7));
      }
      mstatus := SetDirty(mstatus);
      sstatus := SetDirty(sstatus);
    }

    method WriteMstatus(val: Word)
      requires Valid()
      modifies this
      ensures Valid() && State() == Write(old(State()), MSTATUS, val)
    {
      hide BankLegal;
      hide Even;
      hide FloatLegal;
      WriteKeepsLegal(State(), MSTATUS, val);
      WriteStatusIs(State(), MSTATUS, val);
      hide Write;
      AcceptedIsMerge(mstatus, val);
      MppIsField(Accepted(mstatus, val));
      hide Legal;
      hide Accepted;
      hide Merge;
      hide MppIsTwo;
      hide Field;
      mstatus := Accepted(mstatus, val);
      if MppIsTwo(mstatus) {
        mstatus := W(mstatus.b & !0x1800);
      }
      sstatus := Field(mstatus, S_VIEW);
    }

    method WriteSstatus(val: Word)
      requires Valid()
      modifies this
      ensures Valid() && State() == Write(old(State()), SSTATUS, val)
    {
      WriteKeepsLegal(State(), SSTATUS, val);
      WriteStatusIs(State(), SSTATUS, val);
      mstatus := Merge(mstatus, val, S_WRITABLE);
      sstatus := Field(mstatus, S_VIEW);
    }

    /** Delegation, enable and pending registers of both modes, and the timer comparand that clears a pending
        bit. */
    method WriteInterrupts(addr: int, val: Word)
      requires Valid() && addr in IRQ
      modifies this
      ensures Valid() && State() == Write(old(State()), addr, val)
    {
      hide Write;
      hide Legal;
      hide Merge;
      hide Field;
      hide SetIf;
      hide Has;
      hide MergeSsi;
      WriteKeepsLegal(State(), addr, val);
      WriteIrqIs(State(), addr, val);
      if addr == MIDELEG {
        irq := irq.(mideleg := Field(val, S_INTERRUPTS));
      } else if addr == MIE {
        irq := irq.(mie := Field(val, INTERRUPTS));
      } else if addr == MIP {
        irq := irq.(mip := Merge(irq.mip, val, S_INTERRUPTS));
        irq := irq.(softSei := Has(val, SEI));
      } else if addr == SIE {
        irq := irq.(mie := Merge(irq.mie, val, irq.mideleg));
      } else if addr == SIP {
        irq := irq.(mip := MergeSsi(irq.mip, val, irq.mideleg));
      } else {
        stimecmp := val;
        irq := irq.(mip := SetIf(irq.mip, STI, false));
      }
    }

    /** Trap registers of one mode, told apart by the base address. */
    method StoreBank(b: Bank, offset: int, val: Word) returns (r: Bank)
      ensures r == WriteBank(b, offset, val)
    {
      r := b;
      if offset == 0x05 {
        r := r.(tvec := if val.b & 3 >= 2 then W(val.b & !3) else val);
      } else if offset == 0x06 {
        r := r.(counteren := Low3(val));
      } else if offset == 0x40 {
        r := r.(scratch := val);
      } else if offset == 0x41 {
        r := r.(epc := EvenPc(val));
      } else if offset == 0x42 {
        r := r.(cause := val);
      } else if offset == 0x43 {
        r := r.(tval := val);
      }
    }

    method WriteSatp(val: Word)
      requires Valid()
      modifies this
      ensures Valid() && State() == Write(old(State()), SATP, val)
    {
      hide Write;
      hide Legal;
      hide Field;
      hide SatpModeKnown;
      hide SatpLegal;
      hide ToBare;
      WriteKeepsLegal(State(), SATP, val);
      WriteIs(State(), SATP, val);
      SatpCode(val);
      satp := if SatpModeKnown(val) then val else ToBare(val);
    }

    method WritePlain(addr: int, val: Word)
      requires Valid() && addr in PLAIN
      modifies this
      ensures Valid() && State() == Write(old(State()), addr, val)
    {
      hide Write;
      hide Legal;
      hide Field;
      hide NoEcallM;
      WriteKeepsLegal(State(), addr, val);
      WritePlainIs(State(), addr, val);
      if addr == MEDELEG {
        medeleg := NoEcallM(val);
      } else if addr == MENVCFG {
        menvcfg := val;
      } else if addr == MCYCLE {
        counters := counters.(cycles := val);
      } else {
        counters := counters.(instret := val);
      }
    }

    /** `csr_write`. */
    method CsrWrite(addr: int, val: Word)
      requires Valid()
      modifies this
      ensures Valid() && State() == Write(old(State()), addr, val)
    {
      hide Legal;
      hide Field;
      hide WriteBank;
      hide Write;
      ghost var h := State();
      WriteKeepsLegal(h, addr, val);
      if IsFp(addr) {
        WriteFp(addr, val);
      } else if addr == MSTATUS {
        WriteMstatus(val);
      } else if addr == SSTATUS {
        WriteSstatus(val);
      } else if addr in IRQ {
        WriteInterrupts(addr, val);
      } else if addr - 0x300 in BANK {
        m := StoreBank(m, addr - 0x300, val);
        WriteIs(h, addr, val);
      } else if addr - 0x100 in BANK {
        s := StoreBank(s, addr - 0x100, val);
        WriteIs(h, addr, val);
      } else if addr == SATP {
        WriteSatp(val);
      } else if addr in PLAIN {
        WritePlain(addr, val);
      } else {
        WriteIs(h, addr, val);
      }
    }

    method ReadStatus(addr: int) returns (v: Word)
      requires Valid() && (addr == MSTATUS || addr == SSTATUS)
      ensures v == Read(State(), divider, addr)
    {
      hide ShowSd;
      if addr == MSTATUS {
        ShowSdIs(mstatus);
        v := ShowSd(mstatus);
      } else {
        ShowSdIs(sstatus);
        v := ShowSd(sstatus);
      }
    }

    method ReadFp(addr: int) returns (v: Word)
      requires FloatLegal(fp) && divider != 0 && IsFp(addr)
      ensures v == Read(State(), divider, addr)
    {
      MaskedFlags(fp);
      MaskedRm(fp);
      if addr == FFLAGS {
        v := W(fp.flags.b & 0x1F);
      } else if addr == FRM {
        v := Low3(fp.rm);
      } else {
        v := W((Low3(fp.rm).b << 5) | W(fp.flags.b & 0x1F).b);
      }
    }

    method ReadMachineField(addr: int) returns (v: Word)
      requires addr != MSTATUS
      ensures v == ReadMachine(State(), addr)
    {
      v := match addr
        case 0x301 => misa
        case 0x302 => medeleg
        case 0x303 => irq.mideleg
        case 0x304 => irq.mie
        case 0x305 => m.tvec
        case 0x306 => m.counteren
        case 0x30A => menvcfg
        case 0x340 => m.scratch
        case 0x341 => m.epc
        case 0x342 => m.cause
        case 0x343 => m.tval
        case 0x344 => irq.mip
        case _ => W(0);
    }

    method ReadSupervisorField(addr: int) returns (v: Word)
      requires addr != SSTATUS
      ensures v == ReadSupervisor(State(), addr)
    {
      v := match addr
        case 0x104 => Field(irq.mie, irq.mideleg)
        case 0x105 => s.tvec
        case 0x106 => s.counteren
        case 0x140 => s.scratch
        case 0x141 => s.epc
        case 0x142 => s.cause
        case 0x143 => s.tval
        case 0x144 => Field(irq.mip, irq.mideleg)
        case 0x14D => stimecmp
        case 0x180 => satp
        case _ => W(0);
    }

    method ReadCounter(addr: int) returns (v: Word)
      requires divider != 0 && addr != FFLAGS && addr != FRM && addr != FCSR
      ensures v == ReadUser(State(), divider, addr)
    {
      v := match addr
        case 0xC00 => counters.cycles
        case 0xB00 => counters.cycles
        case 0xC01 => Mtime(counters.cycles, divider)
        case 0xC02 => counters.instret
        case 0xB02 => counters.instret
        case _ => W(0);
    }

    /** `csr_read`: the stored copies and masks give what the architecture shows. */
    method CsrRead(addr: int) returns (v: Word)
      requires Valid()
      ensures v == Read(State(), divider, addr)
    {
      assert FloatLegal(fp);
      hide ReadMachine;
      hide ReadUser;
      if addr == MSTATUS || addr == SSTATUS {
        v := ReadStatus(addr);
      } else if IsFp(addr) {
        v := ReadFp(addr);
      } else if 0x100 <= addr < 0x200 {
        v := ReadSupervisorField(addr);
      } else if 0x300 <= addr < 0x400 {
        v := ReadMachineField(addr);
      } else {
        v := ReadCounter(addr);
      }
    }

    /** The part of `pre_tick` that samples the lines and counts the cycle. */
    method PreTick(l: Lines)
      requires Valid()
      modifies this
      ensures Valid() && State() == Tick(old(State()), divider, l)
      ensures TickDone(old(State()), State(), divider, l)
    {
      hide TickDone;
      TickIsDone(State(), divider, l);
      TickKeepsLegal(State(), divider, l);
      assert irq.softSei ==> Has(irq.mip, SEI);
      hide Legal;
      hide Field;
      hide Due;
      var mip := SampleMachine(irq.mip, l);
      mip := SampleExternal(mip, l.supervisor);
      if Has(menvcfg, STCE) {
        mip := SetIf(mip, STI, Due(counters, divider, stimecmp));
      }
      irq := irq.(mip := mip);
      counters := NextCycle(counters);
    }

    method SampleMachine(mip0: Word, l: Lines) returns (mip: Word)
      ensures mip == SetIf(SetIf(SetIf(mip0, MTI, l.timer), MSI, l.software), MEI, l.external)
    {
      mip := mip0;
      if l.timer {
        mip := SetIf(mip, MTI, true);
      } else {
        mip := SetIf(mip, MTI, false);
      }
      if l.software {
        mip := SetIf(mip, MSI, true);
      } else {
        mip := SetIf(mip, MSI, false);
      }
      if l.external {
        mip := SetIf(mip, MEI, true);
      } else {
        mip := SetIf(mip, MEI, false);
      }
    }

    /** With the line low and software's bit set, the pending bit is left as it is. */
    method SampleExternal(mip0: Word, line: bool) returns (mip: Word)
      requires irq.softSei ==> Has(mip0, SEI)
      ensures mip == SetIf(mip0, SEI, line || irq.softSei)
    {
      SetAgain(mip0);
      mip := mip0;
      if line {
        mip := SetIf(mip, SEI, true);
      } else if !irq.softSei {
        mip := SetIf(mip, SEI, false);
      }
    }

    /** `trap`, outside direct mode; the state stays legal if the instruction lies on an even address. */
    method TakeTrap(c: Cause, epc: Word)
      requires Valid()
      modifies this
      ensures Coupled() && State() == Trap(old(State()), c, epc)
      ensures TrapTaken(old(State()), State(), c, epc)
      ensures Even(epc) ==> Valid()
    {
      hide TrapTaken;
      TrapIsTaken(State(), c, epc);
      if Even(epc) {
        TrapKeepsLegal(State(), c, epc);
      }
      TrapIs(State(), c, epc);
      if mode != Machine && Has(if c.interrupt then irq.mideleg else medeleg, CauseBit(c.code)) {
        EnterSupervisor(c, epc);
      } else {
        EnterMachine(c, epc);
      }
    }

    method EnterSupervisor(c: Cause, epc: Word)
      requires Coupled()
      modifies this
      ensures Coupled() && State() == STrap(old(State()), c, epc)
    {
      TrapOnView(mstatus, mode == Supervisor);
      hide Vector;
      hide CauseWord;
      hide STrapStatus;
      hide TrapSstatus;
      hide CopyBack;
      s := s.(cause := CauseWord(c), epc := epc, tval := c.tval);
      sstatus := TrapSstatus(sstatus, mode == Supervisor);
      mstatus := CopyBack(mstatus, sstatus);
      mode := Supervisor;
      pc := Vector(s.tvec, c);
    }

    method EnterMachine(c: Cause, epc: Word)
      requires Coupled()
      modifies this
      ensures Coupled() && State() == MTrap(old(State()), c, epc)
    {
      hide Field;
      hide Vector;
      hide Merge;
      hide ModeBits;
      ViewOfTraps(mstatus, mode);
      m := m.(cause := CauseWord(c), epc := epc, tval := c.tval);
      mstatus := if Has(mstatus, ST_MIE) then SetIf(mstatus, ST_MPIE, true) else SetIf(mstatus, ST_MPIE, false);
      mstatus := Merge(mstatus, ModeBits(mode), ST_MPP);
      mstatus := SetIf(mstatus, ST_MIE, false);
      mode := Machine;
      pc := Vector(m.tvec, c);
    }

    method DoMret()
      requires Valid()
      modifies this
      ensures Valid() && State() == Mret(old(State()))
      ensures ReturnedM(old(State()), State())
    {
      hide ReturnedM;
      hide Legal;
      MretIsDone(State());
      hide Field;
      hide SetIf;
      hide ModeOf;
      hide EvenPc;
      ReturnsKeepLegal(State());
      ViewOfMret(mstatus);
      pc := EvenPc(m.epc);
      mode := ModeOf(mstatus);
      mstatus := SetIf(mstatus, ST_MIE, Has(mstatus, ST_MPIE));
      mstatus := SetIf(mstatus, ST_MPIE, true);
      mstatus := SetIf(mstatus, ST_MPP, false);
      if mode != Machine {
        mstatus := SetIf(mstatus, ST_MPRV, false);
      }
    }

    method DoSret()
      requires Valid()
      modifies this
      ensures Valid() && State() == Sret(old(State()))
      ensures ReturnedS(old(State()), State())
    {
      hide ReturnedS;
      hide Legal;
      SretIsDone(State());
      hide Field;
      hide Merge;
      hide SretStatus;
      hide SretSstatus;
      hide CopyBack;
      hide SetIf;
      hide Has;
      hide EvenPc;
      ReturnsKeepLegal(State());
      ReturnOnView(mstatus);
      HasInViewMode(mstatus);
      ghost var h := State();
      pc := EvenPc(s.epc);
      mode := if Has(sstatus, ST_SPP) then Supervisor else User;
      sstatus := SretSstatus(sstatus);
      mstatus := SetIf(CopyBack(mstatus, sstatus), ST_MPRV, false);
    }

    /** A floating point instruction retires with the exceptions it raised. */
    method RetireFp(flags: Word)
      requires Valid() && flags.b <= 0x1F
      modifies this
      ensures Valid() && State() == RetireFloat(old(State()), flags)
    {
      hide Legal;
      hide Accrue;
      StepKeepsLegal(State(), divider, HartSpec.RetireFp(flags));
      SetDirtyIsDirty(mstatus);
      SetDirtyIsDirty(sstatus);
      DirtyInView(mstatus);
      fp := Accrue(fp, flags);
      mstatus := SetDirty(mstatus);
      sstatus := SetDirty(sstatus);
    }

    method Perform(e: Event)
      requires Valid() && Possible(e)
      modifies this
      ensures Valid() && State() == Step(old(State()), divider, e)
    {
      hide Tick;
      hide Trap;
      hide Mret;
      hide Sret;
      hide RetireFloat;
      match e
      case WriteCsr(addr, v) => CsrWrite(addr, v);
      case Sample(l) => PreTick(l);
      case TakeTrap(c, epc) => TakeTrap(c, epc);
      case ReturnM => DoMret();
      case ReturnS => DoSret();
      case RetireFp(flags) => RetireFp(flags);
    }

    /** Every run keeps the stored `sstatus` the view it should be, and goes as the architecture says. */
    method Execute(es: seq<Event>)
      requires Valid() && forall e :: e in es ==> Possible(e)
      modifies this
      ensures Valid() && State() == Run(old(State()), divider, es)
    {
      hide Legal;
      for i := 0 to |es|
        invariant Valid() && State() == Run(old(State()), divider, es[..i])
      {
        assert es[..i + 1][..i] == es[..i];
        assert es[i] in es;
        Perform(es[i]);
      }
      assert es[..|es|] == es;
    }
  }

  lemma {:induction false} TrapIs(h: Hart, c: Cause, epc: Word)
    ensures Trap(h, c, epc) ==
      if h.mode != Machine && Has(if c.interrupt then h.irq.mideleg else h.medeleg, CauseBit(c.code)) then STrap(h, c, epc) else MTrap(h, c, epc)
  {
    hide STrap;
    hide MTrap;
  }

  lemma {:induction false} SetAgain(x: Word)
    ensures Has(x, SEI) ==> SetIf(x, SEI, true) == x
  {
  }
}
