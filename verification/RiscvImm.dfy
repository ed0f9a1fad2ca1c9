/**
 The immediates of RV32 instructions: how the decoder assembles them and what they encode, by the formats of
 section 2.3 of the RISC-V Instruction Set Manual, Volume I.
 */
module RiscvImm {

  // ---- Fields of an instruction word: `BITS(i, hi, lo)` ----

  function Bits31To20(i: bv32): bv32 { (i >> 20) & 0xfff }

  function Bits31To25(i: bv32): bv32 { (i >> 25) & 0x7f }

  function Bits31To12(i: bv32): bv32 { (i >> 12) & 0xf_ffff }

  function Bit31(i: bv32): bv32 { (i >> 31) & 1 }

  function Bits30To25(i: bv32): bv32 { (i >> 25) & 0x3f }

  function Bits30To21(i: bv32): bv32 { (i >> 21) & 0x3ff }

  function Bit20(i: bv32): bv32 { (i >> 20) & 1 }

  function Bits19To12(i: bv32): bv32 { (i >> 12) & 0xff }

  function Bits11To7(i: bv32): bv32 { (i >> 7) & 0x1f }

  function Bits11To8(i: bv32): bv32 { (i >> 8) & 0xf }

  function Bit7(i: bv32): bv32 { (i >> 7) & 1 }

  // ---- Sign extension, as far as it is kept in a 32-bit word: `SEXT(x, len)` ----

  function Extend1(x: bv32): bv32 { if x & 1 == 1 then 0xffff_ffff else 0 }

  function Extend7(x: bv32): bv32 { if x & 0x40 == 0x40 then x | 0xffff_ffc0 else x }

  function Extend12(x: bv32): bv32 { if x & 0x800 == 0x800 then x | 0xffff_f800 else x }

  function Extend20(x: bv32): bv32 { if x & 0x8_0000 == 0x8_0000 then x | 0xfff0_0000 else x }

  // ---- Immediates ----

  function ImmI(i: bv32): bv32 { Extend12(Bits31To20(i)) }

  function ImmS(i: bv32): bv32 { (Extend7(Bits31To25(i)) << 5) | Bits11To7(i) }

  function ImmU(i: bv32): bv32 { Extend20(Bits31To12(i)) << 12 }

  function JoinB(sign: bv32, bit7: bv32, bits30To25: bv32, bits11To8: bv32): bv32 {
    var imm12_11 := (sign << 1) | bit7;
    var imm12_5 := (imm12_11 << 6) | bits30To25;
    (imm12_5 << 4) | bits11To8
  }

  function ImmB(i: bv32): bv32 { JoinB(Extend1(Bit31(i)), Bit7(i), Bits30To25(i), Bits11To8(i)) }

  function JoinJ(sign: bv32, bits19To12: bv32, bit20: bv32, bits30To21: bv32): bv32 {
    var imm20_12 := (sign << 8) | bits19To12;
    var imm20_11 := (imm20_12 << 1) | bit20;
    (imm20_11 << 10) | bits30To21
  }

  function ImmJ(i: bv32): bv32 { JoinJ(Extend1(Bit31(i)), Bits19To12(i), Bit20(i), Bits30To21(i)) }

  /** The sign bit decides what is above the fields. */
  lemma {:induction false} SignIs(i: bv32)
    ensures Bit31(i) == 0 ==> Extend1(Bit31(i)) == 0
    ensures Bit31(i) == 1 ==> Extend1(Bit31(i)) == 0xffff_ffff
    ensures Bit31(i) == 0 || Bit31(i) == 1
  {
  }

  // ---- The formats ----

  /** `v` is the sign extension of its lowest 12, 13 or 21 bits. */
  predicate Fits12(v: bv32) { v & 0xffff_f800 == 0 || v & 0xffff_f800 == 0xffff_f800 }

  predicate Fits13(v: bv32) { v & 0xffff_f000 == 0 || v & 0xffff_f000 == 0xffff_f000 }

  predicate Fits21(v: bv32) { v & 0xfff0_0000 == 0 || v & 0xfff0_0000 == 0xfff0_0000 }

  function EncodeI(w: bv32, v: bv32): bv32 { (w & 0x000f_ffff) | (v << 20) }

  function EncodeS(w: bv32, v: bv32): bv32 { (w & 0x01ff_f07f) | ((v >> 5) << 25) | ((v & 0x1f) << 7) }

  function EncodeU(w: bv32, v: bv32): bv32 { (w & 0x0000_0fff) | (v & 0xffff_f000) }

  /** Bit 12 of the offset to bit 31, 10 to 5 to 30 to 25, 4 to 1 to 11 to 8, and 11 to bit 7. */
  function EncodeB(w: bv32, v: bv32): bv32 {
    (w & 0x01ff_f07f) | (((v >> 12) & 1) << 31) | (((v >> 5) & 0x3f) << 25)
    | (((v >> 1) & 0xf) << 8) | (((v >> 11) & 1) << 7)
  }

  /** Bit 20 of the offset to bit 31, 10 to 1 to 30 to 21, 11 to bit 20, and 19 to 12 stay. */
  function EncodeJ(w: bv32, v: bv32): bv32 {
    (w & 0x0000_0fff) | (((v >> 20) & 1) << 31) | (((v >> 1) & 0x3ff) << 21)
    | (((v >> 11) & 1) << 20) | (v & 0x000f_f000)
  }

  lemma {:induction false} RecoversI(w: bv32, v: bv32)
    requires Fits12(v)
    ensures ImmI(EncodeI(w, v)) == v && EncodeI(w, v) & 0x000f_ffff == w & 0x000f_ffff
  {
  }

  lemma {:induction false} RecoversS(w: bv32, v: bv32)
    requires Fits12(v)
    ensures ImmS(EncodeS(w, v)) == v && EncodeS(w, v) & 0x01ff_f07f == w & 0x01ff_f07f
  {
  }

  lemma {:induction false} ExtensionIs(x: bv32)
    ensures Extend20(x) == x || Extend20(x) == x | 0xfff0_0000
  {
  }

  lemma {:induction false} OnesAreHigh(x: bv32, y: bv32)
    requires y == x || y == x | 0xfff0_0000
    ensures y & 0xf_ffff == x & 0xf_ffff
  {
  }

  /** Sign extension keeps the twenty bits of the field. */
  lemma {:induction false} ExtensionKeeps(x: bv32)
    ensures Extend20(x) & 0xf_ffff == x & 0xf_ffff
  {
    hide Extend20;
    ExtensionIs(x);
    OnesAreHigh(x, Extend20(x));
  }

  lemma {:induction false} ShiftsOut(x: bv32, y: bv32)
    requires x & 0xf_ffff == y & 0xf_ffff
    ensures x << 12 == y << 12
  {
  }

  lemma {:induction false} HighBits(i: bv32)
    ensures Bits31To12(i) << 12 == i & 0xffff_f000
  {
  }

  /** Shifting by twelve drops what sign extension from 20 bits adds. */
  lemma {:induction false} ImmUIs(i: bv32)
    ensures ImmU(i) == i & 0xffff_f000
  {
    hide Extend20, Bits31To12;
    ExtensionKeeps(Bits31To12(i));
    ShiftsOut(Extend20(Bits31To12(i)), Bits31To12(i));
    HighBits(i);
  }

  lemma {:induction false} RecoversU(w: bv32, v: bv32)
    requires v & 0xfff == 0
    ensures ImmU(EncodeU(w, v)) == v && EncodeU(w, v) & 0xfff == w & 0xfff
  {
    ImmUIs(EncodeU(w, v));
    hide ImmU;
  }

  /** The branch sites shift the immediate left by one: every even offset of 13 bits is recovered. */
  lemma {:induction false} RecoversB(w: bv32, v: bv32)
    requires Fits13(v) && v & 1 == 0
    ensures ImmB(EncodeB(w, v)) << 1 == v && EncodeB(w, v) & 0x01ff_f07f == w & 0x01ff_f07f
  {
    hide EncodeB, Bit31, Bit7, Bits30To25, Bits11To8, Extend1, Fits13, JoinB, IsSignB;
    FieldsOfB(w, v);
    SignOfB(w, v);
    AssembledB(v, Extend1(Bit31(EncodeB(w, v))));
  }

  lemma {:induction false} FieldsOfB(w: bv32, v: bv32)
    ensures var e := EncodeB(w, v);
            && Bit31(e) == (v >> 12) & 1 && Bit7(e) == (v >> 11) & 1
            && Bits30To25(e) == (v >> 5) & 0x3f && Bits11To8(e) == (v >> 1) & 0xf
            && e & 0x01ff_f07f == w & 0x01ff_f07f
  {
  }

  /** `sign` is what sign extension puts above the fields of the offset `v`. */
  predicate IsSignB(sign: bv32, v: bv32) {
    (sign == 0 && v & 0xffff_f000 == 0) || (sign == 0xffff_ffff && v & 0xffff_f000 == 0xffff_f000)
  }

  lemma {:induction false} SignOfB(w: bv32, v: bv32)
    requires Fits13(v)
    ensures IsSignB(Extend1(Bit31(EncodeB(w, v))), v)
  {
    FieldsOfB(w, v);
    hide EncodeB;
    SignIs(EncodeB(w, v));
    hide Extend1, Bit31;
    if v & 0xffff_f000 == 0 {
      assert (v >> 12) & 1 == 0;
    } else {
      assert (v >> 12) & 1 == 1;
    }
  }

  lemma {:induction false} AssembledB(v: bv32, sign: bv32)
    requires v & 1 == 0
    requires IsSignB(sign, v)
    ensures JoinB(sign, (v >> 11) & 1, (v >> 5) & 0x3f, (v >> 1) & 0xf) << 1 == v
  {
  }

  /** And the jump site every even offset of 21 bits. */
  lemma {:induction false} RecoversJ(w: bv32, v: bv32)
    requires Fits21(v) && v & 1 == 0
    ensures ImmJ(EncodeJ(w, v)) << 1 == v && EncodeJ(w, v) & 0xfff == w & 0xfff
  {
    hide EncodeJ, Bit31, Bit20, Bits19To12, Bits30To21, Extend1, Fits21, JoinJ, IsSignJ;
    FieldsOfJ(w, v);
    SignOfJ(w, v);
    AssembledJ(v, Extend1(Bit31(EncodeJ(w, v))));
  }

  lemma {:induction false} FieldsOfJ(w: bv32, v: bv32)
    ensures var e := EncodeJ(w, v);
            && Bit31(e) == (v >> 20) & 1 && Bits19To12(e) == (v >> 12) & 0xff
            && Bit20(e) == (v >> 11) & 1 && Bits30To21(e) == (v >> 1) & 0x3ff
            && e & 0xfff == w & 0xfff
  {
  }

  /** `sign` is what sign extension puts above the fields of the offset `v`. */
  predicate IsSignJ(sign: bv32, v: bv32) {
    (sign == 0 && v & 0xfff0_0000 == 0) || (sign == 0xffff_ffff && v & 0xfff0_0000 == 0xfff0_0000)
  }

  lemma {:induction false} SignOfJ(w: bv32, v: bv32)
    requires Fits21(v)
    ensures IsSignJ(Extend1(Bit31(EncodeJ(w, v))), v)
  {
    FieldsOfJ(w, v);
    hide EncodeJ;
    SignIs(EncodeJ(w, v));
    hide Extend1, Bit31;
    if v & 0xfff0_0000 == 0 {
      assert (v >> 20) & 1 == 0;
    } else {
      assert (v >> 20) & 1 == 1;
    }
  }

  lemma {:induction false} AssembledJ(v: bv32, sign: bv32)
    requires v & 1 == 0
    requires IsSignJ(sign, v)
    ensures JoinJ(sign, (v >> 12) & 0xff, (v >> 11) & 1, (v >> 1) & 0x3ff) << 1 == v
  {
  }

  /** Each word is the encoding of the immediate that is decoded from it, and that immediate can be encoded. */
  lemma {:induction false} ReencodesI(w: bv32)
    ensures EncodeI(w, ImmI(w)) == w && Fits12(ImmI(w))
  {
  }

  lemma {:induction false} ReencodesS(w: bv32)
    ensures EncodeS(w, ImmS(w)) == w && Fits12(ImmS(w))
  {
  }

  lemma {:induction false} ReencodesU(w: bv32)
    ensures EncodeU(w, ImmU(w)) == w && ImmU(w) & 0xfff == 0
  {
    ImmUIs(w);
    hide ImmU;
  }

  lemma {:induction false} ReencodesB(w: bv32)
    ensures EncodeB(w, ImmB(w) << 1) == w && Fits13(ImmB(w) << 1)
  {
    SignIs(w);
    hide Extend1, JoinB, Bit31, Bit7, Bits30To25, Bits11To8, EncodeB, Fits13;
    DisassembledB(w, Extend1(Bit31(w)), ImmB(w) << 1);
  }

  lemma {:induction false} DisassembledB(w: bv32, sign: bv32, v: bv32)
    requires (sign == 0 && Bit31(w) == 0) || (sign == 0xffff_ffff && Bit31(w) == 1)
    requires v == JoinB(sign, Bit7(w), Bits30To25(w), Bits11To8(w)) << 1
    ensures EncodeB(w, v) == w && Fits13(v)
  {
    if sign == 0 {
      PositiveB(w, v);
    } else {
      NegativeB(w, v);
    }
    hide *;
  }

  lemma {:induction false} PositiveB(w: bv32, v: bv32)
    requires Bit31(w) == 0 && v == JoinB(0, Bit7(w), Bits30To25(w), Bits11To8(w)) << 1
    ensures EncodeB(w, v) == w && Fits13(v)
  {
  }

  lemma {:induction false} NegativeB(w: bv32, v: bv32)
    requires Bit31(w) == 1 && v == JoinB(0xffff_ffff, Bit7(w), Bits30To25(w), Bits11To8(w)) << 1
    ensures EncodeB(w, v) == w && Fits13(v)
  {
  }

  lemma {:induction false} ReencodesJ(w: bv32)
    ensures EncodeJ(w, ImmJ(w) << 1) == w && Fits21(ImmJ(w) << 1)
  {
    SignIs(w);
    hide Extend1, JoinJ, Bit31, Bit20, Bits19To12, Bits30To21, EncodeJ, Fits21;
    DisassembledJ(w, Extend1(Bit31(w)), ImmJ(w) << 1);
  }

  lemma {:induction false} DisassembledJ(w: bv32, sign: bv32, v: bv32)
    requires (sign == 0 && Bit31(w) == 0) || (sign == 0xffff_ffff && Bit31(w) == 1)
    requires v == JoinJ(sign, Bits19To12(w), Bit20(w), Bits30To21(w)) << 1
    ensures EncodeJ(w, v) == w && Fits21(v)
  {
  }

  // ---- Operands ----

  datatype Kind = R | I | S | B | U | J | N

  datatype Operands = Operands(rd: bv32, src1: bv32, src2: bv32, imm: bv32)

  /** Opcode and funct3. */
  function Key(i: bv32): bv32 { i & 0x707f }

  function Opcode(i: bv32): bv32 { i & 0x7f }

  function Funct3(i: bv32): bv32 { (i >> 12) & 7 }

  function Rs1(i: bv32): bv32 { (i >> 15) & 0x1f }

  function Rs2(i: bv32): bv32 { (i >> 20) & 0x1f }

  /** An instruction as it is written: its registers and its immediate, which is an offset in formats B and J. */
  datatype Fields = Fields(op: bv32, rd: bv32, funct3: bv32, rs1: bv32, rs2: bv32, funct7: bv32, imm: bv32)

  predicate IsReg(x: bv32) { x & 0xffff_ffe0 == 0 }

  predicate FieldsFit(f: Fields) {
    && IsReg(f.rd) && IsReg(f.rs1) && IsReg(f.rs2)
    && f.op & 0xffff_ff80 == 0 && f.funct3 & 0xffff_fff8 == 0 && f.funct7 & 0xffff_ff80 == 0
  }

  predicate ImmediateFits(k: Kind, v: bv32) {
    match k
    case I => Fits12(v)
    case S => Fits12(v)
    case B => Fits13(v) && v & 1 == 0
    case U => v & 0xfff == 0
    case J => Fits21(v) && v & 1 == 0
    case _ => true
  }

  predicate Encodable(k: Kind, f: Fields) { FieldsFit(f) && ImmediateFits(k, f.imm) }

  /** All fields but the immediate, as format R has them. */
  function Registers(f: Fields): bv32 {
    f.op | (f.rd << 7) | (f.funct3 << 12) | (f.rs1 << 15) | (f.rs2 << 20) | (f.funct7 << 25)
  }

  /** The word for an instruction. */
  function Assemble(k: Kind, f: Fields): bv32 {
    match k
    case I => EncodeI(Registers(f), f.imm)
    case S => EncodeS(Registers(f), f.imm)
    case B => EncodeB(Registers(f), f.imm)
    case U => EncodeU(Registers(f), f.imm)
    case J => EncodeJ(Registers(f), f.imm)
    case _ => Registers(f)
  }

  predicate HasRd(k: Kind) { k == R || k == I || k == U || k == J }

  predicate HasRs1(k: Kind) { k == R || k == I || k == S || k == B }

  predicate HasRs2(k: Kind) { k == R || k == S || k == B }

  lemma {:induction false} RegistersKept(f: Fields)
    requires FieldsFit(f)
    ensures var w := Registers(f); Bits11To7(w) == f.rd && Rs1(w) == f.rs1 && Rs2(w) == f.rs2
    ensures var w := Registers(f); Opcode(w) == f.op && Funct3(w) == f.funct3 && (w >> 25) & 0x7f == f.funct7
  {
  }

  lemma {:induction false} SameLow20(x: bv32, y: bv32)
    requires x & 0x000f_ffff == y & 0x000f_ffff
    ensures Bits11To7(x) == Bits11To7(y) && Rs1(x) == Rs1(y) && Key(x) == Key(y)
  {
  }

  lemma {:induction false} SameSources(x: bv32, y: bv32)
    requires x & 0x01ff_f07f == y & 0x01ff_f07f
    ensures Rs1(x) == Rs1(y) && Rs2(x) == Rs2(y) && Key(x) == Key(y)
  {
  }

  lemma {:induction false} SameLow12(x: bv32, y: bv32)
    requires x & 0xfff == y & 0xfff
    ensures Bits11To7(x) == Bits11To7(y) && Opcode(x) == Opcode(y)
  {
  }

  /** The immediates of formats B and J leave out bit 0. */
  function Doubled(x: bv32): bv32 { x << 1 }

  lemma {:induction false} ShowsI(w: bv32, v: bv32)
    requires ImmediateFits(I, v)
    ensures var e := EncodeI(w, v); Bits11To7(e) == Bits11To7(w) && Rs1(e) == Rs1(w) && ImmI(e) == v
    ensures Key(EncodeI(w, v)) == Key(w)
  {
    RecoversI(w, v);
    SameLow20(EncodeI(w, v), w);
    hide *;
  }

  lemma {:induction false} ShowsS(w: bv32, v: bv32)
    requires ImmediateFits(S, v)
    ensures var e := EncodeS(w, v); Rs1(e) == Rs1(w) && Rs2(e) == Rs2(w) && ImmS(e) == v
  {
    RecoversS(w, v);
    SameSources(EncodeS(w, v), w);
    hide *;
  }

  lemma {:induction false} ShowsB(w: bv32, v: bv32)
    requires ImmediateFits(B, v)
    ensures var e := EncodeB(w, v); Rs1(e) == Rs1(w) && Rs2(e) == Rs2(w) && Doubled(ImmB(e)) == v
    ensures Key(EncodeB(w, v)) == Key(w)
  {
    hide EncodeB, ImmB, Rs1, Rs2, Fits13, Key;
    RecoversB(w, v);
    SameSources(EncodeB(w, v), w);
  }

  lemma {:induction false} ShowsU(w: bv32, v: bv32)
    requires ImmediateFits(U, v)
    ensures var e := EncodeU(w, v); Bits11To7(e) == Bits11To7(w) && ImmU(e) == v
  {
    RecoversU(w, v);
    SameLow12(EncodeU(w, v), w);
    hide *;
  }

  lemma {:induction false} ShowsJ(w: bv32, v: bv32)
    requires ImmediateFits(J, v)
    ensures var e := EncodeJ(w, v); Bits11To7(e) == Bits11To7(w) && Doubled(ImmJ(e)) == v
    ensures Opcode(EncodeJ(w, v)) == Opcode(w)
  {
    hide EncodeJ, ImmJ, Bits11To7, Fits21, Opcode;
    RecoversJ(w, v);
    SameLow12(EncodeJ(w, v), w);
  }

  /** What the word of an instruction shows: its registers in their places, and its immediate. */
  predicate Shows(k: Kind, f: Fields, i: bv32) {
    && (HasRd(k) ==> Bits11To7(i) == f.rd)
    && (HasRs1(k) ==> Rs1(i) == f.rs1)
    && (HasRs2(k) ==> Rs2(i) == f.rs2)
    && match k
       case I => ImmI(i) == f.imm
       case S => ImmS(i) == f.imm
       case B => Doubled(ImmB(i)) == f.imm
       case U => ImmU(i) == f.imm
       case J => Doubled(ImmJ(i)) == f.imm
       case _ => true
  }

  /** In every format the word of an instruction shows its fields. */
  lemma {:induction false} AssembledShows(k: Kind, f: Fields)
    requires Encodable(k, f)
    ensures Shows(k, f, Assemble(k, f))
  {
    var w := Registers(f);
    RegistersKept(f);
    hide Registers, FieldsFit, Bits11To7, Rs1, Rs2, ImmI, ImmS, ImmB, ImmU, ImmJ, EncodeI, EncodeS, EncodeB, EncodeU,
      EncodeJ, ImmediateFits, Doubled;
    match k {
      case I => ShowsI(w, f.imm);
      case S => ShowsS(w, f.imm);
      case B => ShowsB(w, f.imm);
      case U => ShowsU(w, f.imm);
      case J => ShowsJ(w, f.imm);
      case _ =>
    }
  }

  /** The fields of any word. */
  function FieldsOf(k: Kind, i: bv32): Fields {
    var v := match k
      case I => ImmI(i)
      case S => ImmS(i)
      case B => Doubled(ImmB(i))
      case U => ImmU(i)
      case J => Doubled(ImmJ(i))
      case _ => 0;
    Fields(Opcode(i), Bits11To7(i), Funct3(i), Rs1(i), Rs2(i), (i >> 25) & 0x7f, v)
  }

  lemma {:induction false} RegistersBack(i: bv32, v: bv32)
    ensures var f := Fields(Opcode(i), Bits11To7(i), Funct3(i), Rs1(i), Rs2(i), (i >> 25) & 0x7f, v);
            Registers(f) == i && FieldsFit(f)
  {
  }

  /** Every word is an instruction of every format. */
  lemma {:induction false} EveryWord(k: Kind, i: bv32)
    ensures Encodable(k, FieldsOf(k, i)) && Assemble(k, FieldsOf(k, i)) == i
  {
    RegistersBack(i, FieldsOf(k, i).imm);
    hide Registers, FieldsFit, Bits11To7, Rs1, Rs2, ImmI, ImmS, ImmB, ImmU, ImmJ, EncodeI, EncodeS, EncodeB, EncodeU,
      EncodeJ, Fits12, Fits13, Fits21;
    match k {
      case I => ReencodesI(i);
      case S => ReencodesS(i);
      case B => ReencodesB(i); DoubledIsEven(ImmB(i));
      case U => ReencodesU(i);
      case J => ReencodesJ(i); DoubledIsEven(ImmJ(i));
      case _ =>
    }
  }

  lemma {:induction false} DoubledIsEven(x: bv32)
    ensures Doubled(x) & 1 == 0
  {
  }

  /** `o` has the values of the registers that the instruction names, and its immediate; what the format has not is as
      before. The immediates of formats B and J are still to be doubled. */
  predicate Read(k: Kind, f: Fields, gpr: bv32 -> bv32, before: Operands, o: Operands) {
    && (HasRd(k) ==> o.rd == f.rd)
    && o.src1 == (if HasRs1(k) then gpr(f.rs1) else before.src1)
    && o.src2 == (if HasRs2(k) then gpr(f.rs2) else before.src2)
    && (if k == B || k == J then Doubled(o.imm) else o.imm) == (if k == R || k == N then before.imm else f.imm)
  }

  /** What the switch over the formats takes from a word. */
  function OperandsOf(k: Kind, i: bv32, gpr: bv32 -> bv32, before: Operands): Operands {
    Operands(Bits11To7(i),
             if HasRs1(k) then gpr(Rs1(i)) else before.src1,
             if HasRs2(k) then gpr(Rs2(i)) else before.src2,
             match k
             case I => ImmI(i)
             case S => ImmS(i)
             case B => ImmB(i)
             case U => ImmU(i)
             case J => ImmJ(i)
             case _ => before.imm)
  }

  lemma {:induction false} OperandsRead(k: Kind, f: Fields, gpr: bv32 -> bv32, before: Operands)
    requires Encodable(k, f)
    ensures Read(k, f, gpr, before, OperandsOf(k, Assemble(k, f), gpr, before))
  {
    AssembledShows(k, f);
    hide ImmI, ImmS, ImmB, ImmU, ImmJ, Bits11To7, Rs1, Rs2, Assemble, Encodable, Doubled;
  }

  /** `decode_operand`, for whatever instruction of the format the word is. */
  method DecodeOperand(i: bv32, k: Kind, gpr: bv32 -> bv32, before: Operands) returns (o: Operands)
    ensures o == OperandsOf(k, i, gpr, before)
    ensures forall f :: Encodable(k, f) && Assemble(k, f) == i ==> Read(k, f, gpr, before, o)
  {
    hide ImmI, ImmS, ImmB, ImmU, ImmJ, Bits11To7, Rs1, Rs2, Assemble, Encodable, Read;
    var rs1, rs2 := Rs1(i), Rs2(i);
    o := before.(rd := Bits11To7(i));
    match k {
      case R => o := o.(src1 := gpr(rs1), src2 := gpr(rs2));
      case I => o := o.(src1 := gpr(rs1), imm := ImmI(i));
      case S => o := o.(src1 := gpr(rs1), src2 := gpr(rs2), imm := ImmS(i));
      case B => o := o.(src1 := gpr(rs1), src2 := gpr(rs2), imm := ImmB(i));
      case U => o := o.(imm := ImmU(i));
      case J => o := o.(imm := ImmJ(i));
      case N =>
    }
    assert o == OperandsOf(k, i, gpr, before);
    hide OperandsOf;
    forall f | Encodable(k, f) && Assemble(k, f) == i
      ensures Read(k, f, gpr, before, o)
    {
      OperandsRead(k, f, gpr, before);
    }
  }
}
