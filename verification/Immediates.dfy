/** Immediate fields of RISC-V instruction words: the decoder's bit scrambling against the encoding of
    section 2.3 of the RISC-V Unprivileged ISA. Signed 32-bit values are words in two's complement. */
module Immediates {
  type Word32 = bv32

  // ----- decode.rs -----

  /** Shift up and arithmetically down again: sign extension from 12, 13 and 21 bits. */
  function SignExtend12(v: Word32): (r: Word32) {
    var x := v << 20;
    if x & 0x8000_0000 != 0 then !((!x) >> 20) else x >> 20
  }

  function SignExtend13(v: Word32): (r: Word32) {
    var x := v << 19;
    if x & 0x8000_0000 != 0 then !((!x) >> 19) else x >> 19
  }

  function SignExtend21(v: Word32): (r: Word32) {
    var x := v << 11;
    if x & 0x8000_0000 != 0 then !((!x) >> 11) else x >> 11
  }

  function DecodeI(inst: Word32): (r: Word32) { if inst & 0x8000_0000 != 0 then !((!inst) >> 20) else inst >> 20 }

  function DecodeS(inst: Word32): (r: Word32) {
    var low := (inst >> 7) & 0x1F;
    var high := (inst >> 25) & 0x7F;
    SignExtend12((high << 5) | low)
  }

  function DecodeB(inst: Word32): (r: Word32) {
    var bit11 := (inst >> 7) & 1;
    var bits4_1 := (inst >> 8) & 0xF;
    var bits10_5 := (inst >> 25) & 0x3F;
    var bit12 := (inst >> 31) & 1;
    SignExtend13((bit12 << 12) | (bit11 << 11) | (bits10_5 << 5) | (bits4_1 << 1))
  }

  function DecodeU(inst: Word32): (r: Word32) { inst & 0xFFFF_F000 }

  function FieldJ(inst: Word32): (r: Word32) {
    var bits19_12 := (inst >> 12) & 0xFF;
    var bit11 := (inst >> 20) & 1;
    var bits10_1 := (inst >> 21) & 0x3FF;
    var bit20 := (inst >> 31) & 1;
    (bit20 << 20) | (bits19_12 << 12) | (bit11 << 11) | (bits10_1 << 1)
  }

  function DecodeJ(inst: Word32): (r: Word32) { SignExtend21(FieldJ(inst)) }

  // ----- The encoding: where each format keeps the bits of an immediate, over the bits `rest` of the others -----

  function EncodeI(imm: Word32, rest: Word32): (r: Word32) { ((imm & 0xFFF) << 20) | (rest & 0x000F_FFFF) }

  function EncodeS(imm: Word32, rest: Word32): (r: Word32) {
    (((imm >> 5) & 0x7F) << 25) | ((imm & 0x1F) << 7) | (rest & 0x01FF_F07F)
  }

  function EncodeB(imm: Word32, rest: Word32): (r: Word32) {
    (((imm >> 12) & 1) << 31) | (((imm >> 5) & 0x3F) << 25) | (((imm >> 1) & 0xF) << 8) | (((imm >> 11) & 1) << 7) | (rest & 0x01FF_F07F)
  }

  function EncodeU(imm: Word32, rest: Word32): (r: Word32) { (((imm >> 12) & 0xF_FFFF) << 12) | (rest & 0xFFF) }

  function EncodeJ(imm: Word32, rest: Word32): (r: Word32) {
    (((imm >> 20) & 1) << 31) | (((imm >> 1) & 0x3FF) << 21) | (((imm >> 11) & 1) << 20) | (((imm >> 12) & 0xFF) << 12) | (rest & 0xFFF)
  }

  // ----- Ranges -----

  /** `x`, read as a signed number, fits 12, 13 and 21 bits: the bits above are copies of the sign. */
  predicate InRange12(x: Word32) { x & 0xFFFF_F800 == 0 || x & 0xFFFF_F800 == 0xFFFF_F800 }

  predicate InRange13(x: Word32) { x & 0xFFFF_F000 == 0 || x & 0xFFFF_F000 == 0xFFFF_F000 }

  predicate InRange21(x: Word32) { x & 0xFFF0_0000 == 0 || x & 0xFFF0_0000 == 0xFFF0_0000 }

  lemma {:induction false} DecodedIRange(inst: Word32)
    ensures InRange12(DecodeI(inst))
  {
  }

  lemma {:induction false} DecodedSRange(inst: Word32)
    ensures InRange12(DecodeS(inst))
  {
  }

  lemma {:induction false} DecodedBRange(inst: Word32)
    ensures InRange13(DecodeB(inst))
  {
  }

  lemma {:induction false} DecodedBEven(inst: Word32)
    ensures DecodeB(inst) & 1 == 0
  {
  }

  lemma {:induction false} DecodedJRange(inst: Word32)
    ensures InRange21(DecodeJ(inst))
  {
  }

  lemma {:induction false} DecodedJEven(inst: Word32)
    ensures DecodeJ(inst) & 1 == 0
  {
  }

  // ----- The bits of the immediates, one by one -----

  /** Figure 2.4 of the RISC-V Unprivileged ISA, format by format: where the bits of the immediate come from; the bits above
      are copies of its sign (see the ranges). */
  lemma {:induction false} FieldOfI(inst: Word32)
    ensures DecodeI(inst) & 0xFFF == (inst >> 20) & 0xFFF
  {
  }

  lemma {:induction false} FieldsOfS(inst: Word32)
    ensures DecodeS(inst) & 0x1F == (inst >> 7) & 0x1F
    ensures (DecodeS(inst) >> 5) & 0x7F == (inst >> 25) & 0x7F
  {
  }

  lemma {:induction false} FieldsOfB(inst: Word32)
    ensures (DecodeB(inst) >> 1) & 0xF == (inst >> 8) & 0xF
    ensures (DecodeB(inst) >> 5) & 0x3F == (inst >> 25) & 0x3F
    ensures (DecodeB(inst) >> 11) & 1 == (inst >> 7) & 1
    ensures (DecodeB(inst) >> 12) & 1 == (inst >> 31) & 1
  {
  }

  lemma {:induction false} FieldsOfU(inst: Word32)
    ensures DecodeU(inst) >> 12 == inst >> 12
    ensures DecodeU(inst) & 0xFFF == 0
  {
  }

  lemma {:induction false} FieldsOfJ(inst: Word32)
    ensures (DecodeJ(inst) >> 1) & 0x3FF == (inst >> 21) & 0x3FF
    ensures (DecodeJ(inst) >> 11) & 1 == (inst >> 20) & 1
    ensures (DecodeJ(inst) >> 12) & 0xFF == (inst >> 12) & 0xFF
    ensures (DecodeJ(inst) >> 20) & 1 == (inst >> 31) & 1
  {
  }

  // ----- Encoding what was decoded gives the instruction back -----

  lemma {:induction false} EncodeDecodedI(inst: Word32)
    ensures EncodeI(DecodeI(inst), inst) == inst
  {
  }

  lemma {:induction false} EncodeDecodedS(inst: Word32)
    ensures EncodeS(DecodeS(inst), inst) == inst
  {
  }

  lemma {:induction false} EncodeDecodedB(inst: Word32)
    ensures EncodeB(DecodeB(inst), inst) == inst
  {
  }

  lemma {:induction false} EncodeDecodedU(inst: Word32)
    ensures EncodeU(DecodeU(inst), inst) == inst
  {
  }

  lemma {:induction false} EncodeDecodedJ(inst: Word32)
    ensures EncodeJ(DecodeJ(inst), inst) == inst
  {
    FieldJFits(inst);
    ExtendedKeepsBits(FieldJ(inst));
    EncodeJLow(DecodeJ(inst), inst);
    EncodeFieldJ(inst);
    hide EncodeJ;
    hide FieldJ;
    hide SignExtend21;
  }

  lemma {:induction false} FieldJFits(inst: Word32)
    ensures FieldJ(inst) & 0xFFE0_0000 == 0
  {
  }

  lemma {:induction false} ExtendedKeepsBits(v: Word32)
    requires v & 0xFFE0_0000 == 0
    ensures SignExtend21(v) & 0x1F_FFFF == v
  {
    if v & 0x10_0000 == 0 {
      ExtendPositive(v);
    } else {
      ExtendNegative(v);
    }
  }

  lemma {:induction false} ExtendPositive(v: Word32)
    requires v & 0xFFF0_0000 == 0
    ensures SignExtend21(v) == v
  {
  }

  lemma {:induction false} ExtendNegative(v: Word32)
    requires v & 0xFFF0_0000 == 0x10_0000
    ensures SignExtend21(v) == v | 0xFFF0_0000
  {
  }

  lemma {:induction false} EncodeJLow(imm: Word32, rest: Word32)
    ensures EncodeJ(imm, rest) == EncodeJ(imm & 0x1F_FFFF, rest)
  {
  }

  lemma {:induction false} EncodeFieldJ(inst: Word32)
    ensures EncodeJ(FieldJ(inst), inst) == inst
  {
  }

  // ----- Decoding what was encoded gives the immediate back -----

  lemma {:induction false} DecodeEncodedI(imm: Word32, rest: Word32)
    requires InRange12(imm)
    ensures DecodeI(EncodeI(imm, rest)) == imm
  {
  }

  lemma {:induction false} DecodeEncodedS(imm: Word32, rest: Word32)
    requires InRange12(imm)
    ensures DecodeS(EncodeS(imm, rest)) == imm
  {
  }

  lemma {:induction false} DecodeEncodedB(imm: Word32, rest: Word32)
    requires InRange13(imm) && imm & 1 == 0
    ensures DecodeB(EncodeB(imm, rest)) == imm
  {
  }

  lemma {:induction false} DecodeEncodedU(imm: Word32, rest: Word32)
    requires imm & 0xFFF == 0
    ensures DecodeU(EncodeU(imm, rest)) == imm
  {
  }

  lemma {:induction false} DecodeEncodedJ(imm: Word32, rest: Word32)
    requires InRange21(imm) && imm & 1 == 0
    ensures DecodeJ(EncodeJ(imm, rest)) == imm
  {
    FieldOfEncodedJ(imm, rest);
    ExtendLow(imm);
  }

  lemma {:induction false} FieldOfEncodedJ(imm: Word32, rest: Word32)
    requires imm & 1 == 0
    ensures FieldJ(EncodeJ(imm, rest)) == imm & 0x1F_FFFF
  {
  }

  lemma {:induction false} ExtendLow(imm: Word32)
    requires InRange21(imm)
    ensures SignExtend21(imm & 0x1F_FFFF) == imm
  {
    if imm & 0xFFF0_0000 == 0 {
      ExtendPositive(imm & 0x1F_FFFF);
    } else {
      ExtendNegative(imm & 0x1F_FFFF);
    }
  }
}
