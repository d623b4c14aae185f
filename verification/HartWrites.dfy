/** What a single CSR write does and does not touch, and when writing back what was read changes nothing. */
module HartWrites {
  import opened HartSpec

  // ----- Which registers a write changes -----

  const BANK := [0x05, 0x06, 0x40, 0x41, 0x42, 0x43]
  const IRQ := [MIDELEG, MIE, MIP, SIE, SIP, STIMECMP]
  const PLAIN := [MEDELEG, MENVCFG, MCYCLE, MINSTRET]

  predicate IsFp(addr: int) { addr == FFLAGS || addr == FRM || addr == FCSR }

  predicate IsStatus(addr: int) { addr == MSTATUS || addr == SSTATUS }

  /** The addresses a write has an effect on. */
  predicate Writable(addr: int) {
    IsFp(addr) || IsStatus(addr) || addr in IRQ || addr - 0x300 in BANK || addr - 0x100 in BANK || addr == SATP || addr in PLAIN
  }

  /** Field by field, an address of another register leaves the field alone. */
  lemma {:induction false} FieldsKept(h: Hart, addr: int, v: Word)
    ensures !IsFp(addr) && !IsStatus(addr) ==> WriteStatus(h.mstatus, addr, v) == h.mstatus
    ensures addr !in IRQ ==> WriteIrq(h.irq, addr, v) == h.irq
    ensures addr - 0x300 !in BANK ==> WriteBank(h.m, addr - 0x300, v) == h.m
    ensures addr - 0x100 !in BANK ==> WriteBank(h.s, addr - 0x100, v) == h.s
    ensures !IsFp(addr) ==> WriteFloat(h.fp, addr, v) == h.fp
    ensures addr !in PLAIN ==> WriteCounters(h.counters, addr, v) == h.counters
  {
  }

  /** What a write changes, register by register; read-only and unknown registers, `misa` among them, ignore it. */
  lemma {:induction false} WriteIs(h: Hart, addr: int, v: Word)
    ensures IsFp(addr) ==> Write(h, addr, v) == h.(mstatus := Dirty(h.mstatus), fp := WriteFloat(h.fp, addr, v))
    ensures IsStatus(addr) ==> Write(h, addr, v) == h.(mstatus := WriteStatus(h.mstatus, addr, v))
    ensures addr in IRQ ==>
      Write(h, addr, v) == h.(irq := WriteIrq(h.irq, addr, v), stimecmp := if addr == STIMECMP then v else h.stimecmp)
    ensures addr - 0x300 in BANK ==> Write(h, addr, v) == h.(m := WriteBank(h.m, addr - 0x300, v))
    ensures addr - 0x100 in BANK ==> Write(h, addr, v) == h.(s := WriteBank(h.s, addr - 0x100, v))
    ensures addr == SATP ==> Write(h, addr, v) == h.(satp := LegalSatp(v))
    ensures addr in PLAIN ==>
      Write(h, addr, v) == h.(medeleg := if addr == MEDELEG then NoEcallM(v) else h.medeleg,
                              menvcfg := if addr == MENVCFG then v else h.menvcfg, counters := WriteCounters(h.counters, addr, v))
    ensures !Writable(addr) ==> Write(h, addr, v) == h
  {
    FieldsKept(h, addr, v);
    assert IsFp(addr) ==> WriteStatus(h.mstatus, addr, v) == Dirty(h.mstatus);
    hide WriteStatus;
    hide WriteIrq;
  }

  lemma {:induction false} WriteFpIs(h: Hart, addr: int, v: Word)
    requires IsFp(addr)
    ensures Write(h, addr, v) == h.(mstatus := Dirty(h.mstatus), fp := WriteFloat(h.fp, addr, v))
  {
    WriteIs(h, addr, v);
  }

  lemma {:induction false} WriteStatusIs(h: Hart, addr: int, v: Word)
    requires IsStatus(addr)
    ensures Write(h, addr, v) == h.(mstatus := WriteStatus(h.mstatus, addr, v))
  {
    WriteIs(h, addr, v);
  }

  lemma {:induction false} WriteIrqIs(h: Hart, addr: int, v: Word)
    requires addr in IRQ
    ensures Write(h, addr, v) == h.(irq := WriteIrq(h.irq, addr, v), stimecmp := if addr == STIMECMP then v else h.stimecmp)
  {
    WriteIs(h, addr, v);
  }

  lemma {:induction false} WritePlainIs(h: Hart, addr: int, v: Word)
    requires addr in PLAIN
    ensures Write(h, addr, v) == h.(medeleg := if addr == MEDELEG then NoEcallM(v) else h.medeleg,
                                    menvcfg := if addr == MENVCFG then v else h.menvcfg, counters := WriteCounters(h.counters, addr, v))
  {
    WriteIs(h, addr, v);
  }

  lemma {:induction false} WriteMip(h: Hart, v: Word)
    ensures Write(h, MIP, v) == h.(irq := h.irq.(mip := Merge(h.irq.mip, v, S_INTERRUPTS), softSei := Has(v, SEI)))
  {
    hide Merge;
    WriteIs(h, MIP, v);
  }

  lemma {:induction false} ReadMip(h: Hart, divider: bv64)
    requires divider != 0
    ensures Read(h, divider, MIP) == h.irq.mip
  {
  }

  /** The flags and rounding mode a legal state holds need no masking. */
  lemma {:induction false} MaskedFlags(f: Float)
    requires FloatLegal(f)
    ensures W(f.flags.b & 0x1F) == f.flags
  {
  }

  lemma {:induction false} MaskedRm(f: Float)
    requires FloatLegal(f)
    ensures Low3(f.rm) == f.rm
  {
  }

  // ----- Reads of other registers -----

  /** Registers that show the same state: status and floating point, interrupts, and the two counters. */
  function Group(addr: int): (g: int) {
    if addr in [FFLAGS, FRM, FCSR, SSTATUS, MSTATUS] then -1
    else if addr in [SIE, SIP, STIMECMP, MIDELEG, MIE, MIP] then -2
    else if addr in [MCYCLE, CYCLE, TIME] then -3
    else if addr in [MINSTRET, INSTRET] then -4
    else addr
  }

  lemma {:induction false} StatusFrame(h: Hart, divider: bv64, b: int, m: Word, f: Float)
    requires divider != 0 && Group(b) != -1
    ensures Read(h.(mstatus := m, fp := f), divider, b) == Read(h, divider, b)
  {
  }

  lemma {:induction false} IrqFrame(h: Hart, divider: bv64, b: int, i: Interrupts, t: Word)
    requires divider != 0 && Group(b) != -2
    ensures Read(h.(irq := i, stimecmp := t), divider, b) == Read(h, divider, b)
  {
  }

  lemma {:induction false} BankMFrame(h: Hart, divider: bv64, a: int, b: int, v: Word)
    requires divider != 0 && a - 0x300 in BANK && a != b
    ensures Read(h.(m := WriteBank(h.m, a - 0x300, v)), divider, b) == Read(h, divider, b)
  {
    hide WithSd;
  }

  lemma {:induction false} BankSFrame(h: Hart, divider: bv64, a: int, b: int, v: Word)
    requires divider != 0 && a - 0x100 in BANK && a != b
    ensures Read(h.(s := WriteBank(h.s, a - 0x100, v)), divider, b) == Read(h, divider, b)
  {
    hide WithSd;
  }

  lemma {:induction false} SatpFrame(h: Hart, divider: bv64, b: int, satp: Word)
    requires divider != 0 && b != SATP
    ensures Read(h.(satp := satp), divider, b) == Read(h, divider, b)
  {
  }

  lemma {:induction false} PlainFrame(h: Hart, divider: bv64, b: int, medeleg: Word, menvcfg: Word)
    requires divider != 0 && (medeleg == h.medeleg || b != MEDELEG) && (menvcfg == h.menvcfg || b != MENVCFG)
    ensures Read(h.(medeleg := medeleg, menvcfg := menvcfg), divider, b) == Read(h, divider, b)
  {
  }

  lemma {:induction false} CountersFrame(h: Hart, divider: bv64, b: int, c: Counters)
    requires divider != 0
    requires (c.cycles == h.counters.cycles || Group(b) != -3) && (c.instret == h.counters.instret || Group(b) != -4)
    ensures Read(h.(counters := c), divider, b) == Read(h, divider, b)
  {
    hide WithSd;
    hide Mtime;
  }

  /** A write changes no read outside its register's group. */
  lemma {:induction false} WriteFrame(h: Hart, divider: bv64, a: int, b: int, v: Word)
    requires divider != 0 && a >= 0 && Group(a) != Group(b)
    ensures Read(Write(h, a, v), divider, b) == Read(h, divider, b)
  {
    hide Write;
    hide Read;
    WriteIs(h, a, v);
    var g := Write(h, a, v);
    if IsFp(a) || IsStatus(a) {
      StatusFrame(h, divider, b, g.mstatus, g.fp);
    } else if a in IRQ {
      IrqFrame(h, divider, b, g.irq, g.stimecmp);
    } else if a - 0x300 in BANK {
      BankMFrame(h, divider, a, b, v);
    } else if a - 0x100 in BANK {
      BankSFrame(h, divider, a, b, v);
    } else if a == SATP {
      SatpFrame(h, divider, b, g.satp);
    } else if a == MEDELEG || a == MENVCFG {
      PlainFrame(h, divider, b, g.medeleg, g.menvcfg);
    } else if a in PLAIN {
      CountersFrame(h, divider, b, g.counters);
    }
  }

  // ----- Writing back what was read -----

  /** The states in which writing back what register `a` reads is without effect. */
  predicate Quiet(h: Hart, a: int) {
    if IsFp(a) then FsDirty(h.mstatus)
    else if a == MIP then Has(h.irq.mip, SEI) == h.irq.softSei
    else if a == STIMECMP then !Has(h.irq.mip, STI)
    else true
  }

  lemma {:induction false} SameStatus(m: Word)
    requires StatusLegal(m)
    ensures Merge(m, WithSd(m), M_WRITABLE) == m
  {
  }

  lemma {:induction false} SameMpp(m: Word)
    requires StatusLegal(m)
    ensures LegalMpp(m) == m
  {
  }

  lemma {:induction false} SameSstatus(m: Word)
    ensures Merge(m, WithSd(Field(m, S_VIEW)), S_WRITABLE) == m
  {
  }

  lemma {:induction false} SameMerge(x: Word, d: Word)
    ensures Merge(x, Field(x, d), d) == x
  {
  }

  lemma {:induction false} SameWhole(x: Word, d: Word)
    ensures Merge(x, x, d) == x
  {
  }

  lemma {:induction false} SameSsi(mip: Word, d: Word)
    ensures MergeSsi(mip, Field(mip, d), d) == mip
  {
  }

  lemma {:induction false} SameField(x: Word, bits: Word)
    requires Within(x, bits)
    ensures Field(x, bits) == x
  {
  }

  lemma {:induction false} SameTimer(mip: Word)
    ensures SetIf(mip, STI, false) == mip <==> !Has(mip, STI)
  {
  }

  lemma {:induction false} SameDirty(m: Word)
    ensures Dirty(m) == m <==> FsDirty(m)
  {
  }

  lemma {:induction false} SameTvec(v: Word)
    requires TvecLegal(v)
    ensures LegalTvec(v) == v
  {
  }

  lemma {:induction false} SamePc(v: Word)
    requires Even(v)
    ensures EvenPc(v) == v
  {
  }

  lemma {:induction false} SameSmall(v: Word)
    requires Small(v)
    ensures Low3(v) == v
  {
  }

  lemma {:induction false} SameMedeleg(v: Word)
    requires MedelegLegal(v)
    ensures NoEcallM(v) == v
  {
  }

  lemma {:induction false} SameFlags(f: Float)
    requires FloatLegal(f)
    ensures W(Fcsr(f).b & 0x1F) == f.flags
  {
  }

  lemma {:induction false} SameRm(f: Float)
    requires FloatLegal(f)
    ensures W((Fcsr(f).b >> 5) & 7) == f.rm
  {
  }

  lemma {:induction false} FpBack(f: Float, a: int)
    requires FloatLegal(f) && (IsFp(a))
    ensures WriteFloat(f, a, if a == FFLAGS then f.flags else if a == FRM then f.rm else Fcsr(f)) == f
  {
    MaskedFlags(f);
    MaskedRm(f);
    SameFlags(f);
    SameRm(f);
  }

  lemma {:induction false} BankBack(b: Bank, offset: int)
    requires BankLegal(b)
    ensures WriteBank(b, offset, ReadBank(b, offset)) == b
  {
    SameTvec(b.tvec);
    SamePc(b.epc);
    SameSmall(b.counteren);
    match offset
    case 0x05 =>
    case 0x06 =>
    case 0x40 =>
    case 0x41 =>
    case 0x42 =>
    case 0x43 =>
    case _ =>
  }

  function ReadBank(b: Bank, offset: int): (v: Word) {
    match offset
    case 0x05 => b.tvec
    case 0x06 => b.counteren
    case 0x40 => b.scratch
    case 0x41 => b.epc
    case 0x42 => b.cause
    case 0x43 => b.tval
    case _ => W(0)
  }

  lemma {:induction false} IrqBack(h: Hart, divider: bv64, a: int)
    requires IrqLegal(h.irq) && divider != 0 && a in IRQ
    ensures WriteIrq(h.irq, a, Read(h, divider, a)) == h.irq <==> Quiet(h, a)
  {
    hide Merge;
    hide LegalMpp;
    hide LegalTvec;
    hide Low3;
    hide Fcsr;
    hide FsDirty;
    SameField(h.irq.mideleg, S_INTERRUPTS);
    SameField(h.irq.mie, INTERRUPTS);
    SameMerge(h.irq.mie, h.irq.mideleg);
    SameSsi(h.irq.mip, h.irq.mideleg);
    SameWhole(h.irq.mip, S_INTERRUPTS);
    SameTimer(h.irq.mip);
    if a == MIP {
      assert WriteIrq(h.irq, a, h.irq.mip) == h.irq.(softSei := Has(h.irq.mip, SEI));
    }
  }

  lemma {:induction false} FpWriteBack(h: Hart, divider: bv64, a: int)
    requires FloatLegal(h.fp) && divider != 0 && IsFp(a)
    ensures Write(h, a, Read(h, divider, a)) == h <==> FsDirty(h.mstatus)
  {
    WriteIs(h, a, Read(h, divider, a));
    FpBack(h.fp, a);
    SameDirty(h.mstatus);
  }

  lemma {:induction false} StatusWriteBack(h: Hart, divider: bv64, a: int)
    requires StatusLegal(h.mstatus) && divider != 0 && IsStatus(a)
    ensures Write(h, a, Read(h, divider, a)) == h
  {
    WriteIs(h, a, Read(h, divider, a));
    SameStatus(h.mstatus);
    SameMpp(h.mstatus);
    SameSstatus(h.mstatus);
  }

  lemma {:induction false} IrqWriteBack(h: Hart, divider: bv64, a: int)
    requires IrqLegal(h.irq) && divider != 0 && a in IRQ
    ensures Write(h, a, Read(h, divider, a)) == h <==> Quiet(h, a)
  {
    var v := Read(h, divider, a);
    WriteIs(h, a, v);
    IrqBack(h, divider, a);
    assert a == STIMECMP ==> v == h.stimecmp;
    hide Quiet;
  }

  lemma {:induction false} BankWriteBack(h: Hart, divider: bv64, a: int)
    requires BankLegal(h.m) && BankLegal(h.s) && divider != 0 && (a - 0x300 in BANK || a - 0x100 in BANK)
    ensures Write(h, a, Read(h, divider, a)) == h
  {
    hide ReadBank;
    WriteIs(h, a, Read(h, divider, a));
    BankBack(h.m, a - 0x300);
    BankBack(h.s, a - 0x100);
    BankReads(h, divider, a);
  }

  lemma {:induction false} BankReads(h: Hart, divider: bv64, a: int)
    requires divider != 0
    ensures a - 0x300 in BANK ==> Read(h, divider, a) == ReadBank(h.m, a - 0x300)
    ensures a - 0x100 in BANK ==> Read(h, divider, a) == ReadBank(h.s, a - 0x100)
  {
  }

  lemma {:induction false} PlainWriteBack(h: Hart, divider: bv64, a: int)
    requires MedelegLegal(h.medeleg) && SatpLegal(h.satp) && divider != 0 && (a == SATP || a in PLAIN)
    ensures Write(h, a, Read(h, divider, a)) == h
  {
    WriteIs(h, a, Read(h, divider, a));
    SameMedeleg(h.medeleg);
  }

  /** Writing back the value read leaves the hart as it was in exactly the quiet states: `mip` mixes the interrupt
      line into the bit that software owns, `stimecmp` clears a pending bit, and the floating point registers
      mark the unit dirty. */
  lemma {:induction false} WriteBack(h: Hart, divider: bv64, a: int)
    requires Legal(h) && divider != 0
    ensures Write(h, a, Read(h, divider, a)) == h <==> Quiet(h, a)
  {
    hide StatusLegal;
    hide BankLegal;
    hide FloatLegal;
    hide MedelegLegal;
    if IsFp(a) {
      FpWriteBack(h, divider, a);
    } else if IsStatus(a) {
      StatusWriteBack(h, divider, a);
    } else if a in IRQ {
      IrqWriteBack(h, divider, a);
    } else if a - 0x300 in BANK || a - 0x100 in BANK {
      BankWriteBack(h, divider, a);
    } else if a == SATP || a in PLAIN {
      PlainWriteBack(h, divider, a);
    } else {
      WriteIs(h, a, Read(h, divider, a));
    }
  }

  // ----- Setting and clearing bits in mip -----

  /** The values `csrrs` and `csrrc` write for the value read. */
  function SetBits(x: Word, bits: Word): (r: Word) { W(x.b | bits.b) }

  function ClearBits(x: Word, bits: Word): (r: Word) { W(x.b & !bits.b) }

  /** Section 3.1.9 of the RISC-V Privileged Architecture: setting bits in `mip` sets the software bit if it was
      set or is among the bits. The code works on the value read, line included, and agrees exactly when the
      line adds nothing. */
  lemma {:induction false} SetBitsInMip(h: Hart, divider: bv64, bits: Word)
    requires IrqLegal(h.irq) && divider != 0
    ensures var g := Write(h, MIP, SetBits(Read(h, divider, MIP), bits));
            g.irq.softSei == (h.irq.softSei || Has(bits, SEI)) <==>
            !Has(h.irq.mip, SEI) || h.irq.softSei || Has(bits, SEI)
  {
    var v := SetBits(h.irq.mip, bits);
    ReadMip(h, divider);
    WriteMip(h, v);
    HasEither(h.irq.mip, bits);
  }

  lemma {:induction false} HasEither(x: Word, y: Word)
    ensures Has(SetBits(x, y), SEI) <==> Has(x, SEI) || Has(y, SEI)
  {
  }

  /** The same for clearing bits: the software bit stays set if it was and is not among them. */
  lemma {:induction false} ClearBitsInMip(h: Hart, divider: bv64, bits: Word)
    requires IrqLegal(h.irq) && divider != 0
    ensures var g := Write(h, MIP, ClearBits(Read(h, divider, MIP), bits));
            g.irq.softSei == (h.irq.softSei && !Has(bits, SEI)) <==>
            !Has(h.irq.mip, SEI) || h.irq.softSei || Has(bits, SEI)
  {
    var v := ClearBits(h.irq.mip, bits);
    ReadMip(h, divider);
    WriteMip(h, v);
    HasCleared(h.irq.mip, bits);
  }

  lemma {:induction false} HasCleared(x: Word, y: Word)
    ensures Has(ClearBits(x, y), SEI) <==> Has(x, SEI) && !Has(y, SEI)
  {
  }

  /** A reachable latch: one tick after reset with the supervisor line high, setting the software interrupt keeps the
      external one pending after the line has gone low. */
  lemma {:induction false} LineIsLatched(divider: bv64)
    requires divider != 0
    ensures var h := Tick(Reset(false, W(0), W(0)), divider, Lines(false, false, false, true));
            var g := Write(h, MIP, SetBits(Read(h, divider, MIP), SSI));
            Has(Tick(g, divider, Lines(false, false, false, false)).irq.mip, SEI) && !h.irq.softSei
  {
    hide SetBits;
    hide ClearBits;
    var r := Reset(false, W(0), W(0));
    var h := Tick(r, divider, Lines(false, false, false, true));
    var v := SetBits(h.irq.mip, SSI);
    SampledSei(r.irq, Lines(false, false, false, true), Has(r.menvcfg, STCE), Due(r.counters, divider, r.stimecmp));
    HasEither(h.irq.mip, SSI);
    ReadMip(h, divider);
    WriteMip(h, v);
    var g := Write(h, MIP, v);
    SampledSei(g.irq, Lines(false, false, false, false), Has(g.menvcfg, STCE), Due(g.counters, divider, g.stimecmp));
  }

  lemma {:induction false} SampledSei(i: Interrupts, l: Lines, compare: bool, timer: bool)
    ensures Has(Sampled(i, l, compare, timer), SEI) <==> l.supervisor || i.softSei
  {
  }

  // ----- The supervisor timer bit -----

  lemma {:induction false} MergedSti(mip: Word, v: Word)
    ensures Has(Merge(mip, v, S_INTERRUPTS), STI) <==> Has(v, STI)
  {
  }

  /** Sstc makes STIP read-only in `mip` while the comparison is enabled. A write keeps to that exactly when the
      comparison is off or the bit written is the one pending. */
  lemma {:induction false} TimerBitInMip(h: Hart, v: Word)
    ensures var g := Write(h, MIP, v);
            (Has(h.menvcfg, STCE) ==> (Has(g.irq.mip, STI) <==> Has(h.irq.mip, STI))) <==>
            !Has(h.menvcfg, STCE) || (Has(v, STI) <==> Has(h.irq.mip, STI))
  {
    WriteMip(h, v);
    MergedSti(h.irq.mip, v);
  }

  lemma {:induction false} ClearedSti(mip: Word)
    ensures !Has(SetIf(mip, STI, false), STI)
  {
  }

  /** Sstc leaves a STIP set by software alone while the comparison is off, and shows the comparison while it is on. A
      write to `stimecmp` keeps to the first exactly when no bit was pending, and to the second, before the next
      sampling, exactly when the new comparand lies ahead. */
  lemma {:induction false} TimerBitAndStimecmp(h: Hart, divider: bv64, v: Word)
    requires divider != 0
    ensures var g := Write(h, STIMECMP, v);
            && ((Has(g.irq.mip, STI) <==> Has(h.irq.mip, STI)) <==> !Has(h.irq.mip, STI))
            && ((Has(g.irq.mip, STI) <==> Due(g.counters, divider, g.stimecmp)) <==> !Due(h.counters, divider, v))
  {
    WriteIrqIs(h, STIMECMP, v);
    ClearedSti(h.irq.mip);
  }
}
