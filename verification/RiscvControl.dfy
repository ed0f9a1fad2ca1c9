/**
 The control transfers of RV32I as the interpreter executes them: the six conditional branches, `jal` and `jalr`.
 */
module RiscvControl {
  import opened Options
  import opened RiscvImm

  datatype Cond = Eq | Ne | Lt | Ge | Ltu | Geu

  /** A control transfer as it is written in assembly language. */
  datatype Transfer =
    | Branch(cond: Cond, rs1: bv32, rs2: bv32, offset: bv32)
    | Jal(rd: bv32, offset: bv32)
    | Jalr(rd: bv32, rs1: bv32, offset: bv32)

  function CodeOf(c: Cond): bv32 {
    match c
    case Eq => 0
    case Ne => 1
    case Lt => 4
    case Ge => 5
    case Ltu => 6
    case Geu => 7
  }

  function KindOf(t: Transfer): Kind {
    match t
    case Branch(_, _, _, _) => B
    case Jal(_, _) => J
    case Jalr(_, _, _) => I
  }

  function Written(t: Transfer): Fields {
    match t
    case Branch(c, rs1, rs2, offset) => Fields(0x63, 0, CodeOf(c), rs1, rs2, 0, offset)
    case Jal(rd, offset) => Fields(0x6f, rd, 0, 0, 0, 0, offset)
    case Jalr(rd, rs1, offset) => Fields(0x67, rd, 0, rs1, 0, 0, offset)
  }

  /** The operands have encodings. */
  predicate Legal(t: Transfer) { Encodable(KindOf(t), Written(t)) }

  function Code(t: Transfer): bv32 { Assemble(KindOf(t), Written(t)) }

  // ---- Meaning, as in section 2.5 of the RISC-V Instruction Set Manual, Volume I ----

  /** The number in a register when it is read as signed. */
  function Signed(x: bv32): int { if x < 0x8000_0000 then x as int else x as int - 0x1_0000_0000 }

  predicate Holds(c: Cond, x: bv32, y: bv32) {
    match c
    case Eq => x == y
    case Ne => x != y
    case Lt => Signed(x) < Signed(y)
    case Ge => Signed(x) >= Signed(y)
    case Ltu => x < y
    case Geu => x >= y
  }

  /** Register `r`. */
  function At(regs: seq<bv32>, r: bv32): bv32 { if r as nat < |regs| then regs[r] else 0 }

  function Reader(regs: seq<bv32>): bv32 -> bv32 { r => At(regs, r) }

  /** Destination and operands at the start of `decode_exec`. */
  const NOTHING := Operands(0, 0, 0, 0)

  /** The registers after writing `v` to `r`; register 0 stays 0. */
  function With(regs: seq<bv32>, r: bv32, v: bv32): seq<bv32> {
    if 0 < r as nat < |regs| then regs[r := v] else regs
  }

  /** Addresses wrap around. */
  function Sum(x: bv32, y: bv32): bv32 { x + y }

  function Even(x: bv32): bv32 { x & 0xffff_fffe }

  function NextPc(t: Transfer, pc: bv32, regs: seq<bv32>): bv32 {
    match t
    case Branch(c, rs1, rs2, offset) => if Holds(c, At(regs, rs1), At(regs, rs2)) then Sum(pc, offset) else Sum(pc, 4)
    case Jal(_, offset) => Sum(pc, offset)
    case Jalr(_, rs1, offset) => Even(Sum(At(regs, rs1), offset))
  }

  function After(t: Transfer, pc: bv32, regs: seq<bv32>): seq<bv32> {
    match t
    case Branch(_, _, _, _) => regs
    case Jal(rd, _) => With(regs, rd, Sum(pc, 4))
    case Jalr(rd, _, _) => With(regs, rd, Sum(pc, 4))
  }

  // ---- Dispatch ----

  function CondOf(i: bv32): Option<Cond> {
    if Key(i) == 0x0063 then Some(Eq)
    else if Key(i) == 0x1063 then Some(Ne)
    else if Key(i) == 0x4063 then Some(Lt)
    else if Key(i) == 0x5063 then Some(Ge)
    else if Key(i) == 0x6063 then Some(Ltu)
    else if Key(i) == 0x7063 then Some(Geu)
    else None
  }

  predicate IsJalr(i: bv32) { Key(i) == 0x0067 }

  predicate IsJal(i: bv32) { Opcode(i) == 0x6f }

  /** The control transfer that a word is. */
  function TransferOf(i: bv32): Option<Transfer> {
    if IsJalr(i) then Some(Jalr(Bits11To7(i), Rs1(i), ImmI(i)))
    else if CondOf(i).Some? then Some(Branch(CondOf(i).value, Rs1(i), Rs2(i), Doubled(ImmB(i))))
    else if IsJal(i) then Some(Jal(Bits11To7(i), Doubled(ImmJ(i))))
    else None
  }

  lemma {:induction false} KeyOfBranch(w: bv32, c: Cond)
    requires Opcode(w) == 0x63 && Funct3(w) == CodeOf(c)
    ensures CondOf(w) == Some(c) && !IsJalr(w)
  {
  }

  lemma {:induction false} KeyOfJump(w: bv32)
    ensures Opcode(w) == 0x6f ==> IsJal(w) && !IsJalr(w) && CondOf(w) == None
    ensures Opcode(w) == 0x67 && Funct3(w) == 0 ==> IsJalr(w)
  {
  }

  lemma {:induction false} BranchDecodes(t: Transfer)
    requires t.Branch? && Legal(t)
    ensures TransferOf(Code(t)) == Some(t)
  {
    hide FieldsFit, Rs1, Rs2, ImmB, EncodeB, Fits13, Doubled, IsJalr, Opcode, Funct3, RiscvImm.Registers, Key;
    var w := RiscvImm.Registers(Written(t));
    RegistersKept(Written(t));
    KeyOfBranch(w, t.cond);
    ShowsB(w, t.offset);
    SameKey(Code(t), w);
    hide CondOf;
  }

  lemma {:induction false} JalDecodes(t: Transfer)
    requires t.Jal? && Legal(t)
    ensures TransferOf(Code(t)) == Some(t)
  {
    hide FieldsFit, Bits11To7, ImmJ, EncodeJ, Fits21, Doubled, IsJalr, IsJal, CondOf, Opcode, RiscvImm.Registers;
    var w := RiscvImm.Registers(Written(t));
    RegistersKept(Written(t));
    ShowsJ(w, t.offset);
    KeyOfJump(Code(t));
  }

  lemma {:induction false} JalrDecodes(t: Transfer)
    requires t.Jalr? && Legal(t)
    ensures TransferOf(Code(t)) == Some(t)
  {
    hide FieldsFit, Bits11To7, Rs1, ImmI, EncodeI, Fits12, IsJalr, CondOf, Opcode, Funct3, RiscvImm.Registers, Key;
    var w := RiscvImm.Registers(Written(t));
    RegistersKept(Written(t));
    KeyOfJump(w);
    ShowsI(w, t.offset);
    SameKey(Code(t), w);
  }

  lemma {:induction false} SameKey(x: bv32, y: bv32)
    requires Key(x) == Key(y)
    ensures IsJalr(x) == IsJalr(y) && CondOf(x) == CondOf(y)
  {
  }

  /** The word of a control transfer is found to be it. */
  lemma {:induction false} CodeDecodes(t: Transfer)
    requires Legal(t)
    ensures TransferOf(Code(t)) == Some(t)
  {
    hide Legal, TransferOf, Code;
    match t {
      case Branch(_, _, _, _) => BranchDecodes(t);
      case Jal(_, _) => JalDecodes(t);
      case Jalr(_, _, _) => JalrDecodes(t);
    }
  }

  lemma {:induction false} BranchWord(i: bv32, c: Cond)
    requires CondOf(i) == Some(c)
    ensures var f := Fields(0x63, 0, CodeOf(c), Rs1(i), Rs2(i), 0, Doubled(ImmB(i)));
            FieldsFit(f) && RiscvImm.Registers(f) & 0x01ff_f07f == i & 0x01ff_f07f
  {
    hide ImmB, Doubled;
  }

  lemma {:induction false} JalWord(i: bv32)
    requires IsJal(i)
    ensures var f := Fields(0x6f, Bits11To7(i), 0, 0, 0, 0, Doubled(ImmJ(i)));
            FieldsFit(f) && RiscvImm.Registers(f) & 0xfff == i & 0xfff
  {
    hide ImmJ, Doubled;
  }

  lemma {:induction false} JalrWord(i: bv32)
    requires IsJalr(i)
    ensures var f := Fields(0x67, Bits11To7(i), 0, Rs1(i), 0, 0, ImmI(i));
            FieldsFit(f) && RiscvImm.Registers(f) & 0x000f_ffff == i & 0x000f_ffff
  {
    hide ImmI;
  }

  /** An encoding uses only the part of the other fields that its format has. */
  lemma {:induction false} EncodesSame(w: bv32, i: bv32, v: bv32)
    ensures w & 0x01ff_f07f == i & 0x01ff_f07f ==> EncodeB(w, v) == EncodeB(i, v)
    ensures w & 0xfff == i & 0xfff ==> EncodeJ(w, v) == EncodeJ(i, v)
    ensures w & 0x000f_ffff == i & 0x000f_ffff ==> EncodeI(w, v) == EncodeI(i, v)
  {
  }

  lemma {:induction false} BranchHasCode(i: bv32)
    requires !IsJalr(i) && CondOf(i).Some?
    ensures Legal(TransferOf(i).value) && Code(TransferOf(i).value) == i
  {
    var t := TransferOf(i).value;
    EncodesSame(RiscvImm.Registers(Written(t)), i, t.offset);
    BranchWord(i, t.cond);
    ReencodesB(i);
    DoubledIsEven(ImmB(i));
    hide FieldsFit, Rs1, Rs2, ImmI, ImmB, ImmJ, EncodeI, EncodeB, EncodeJ, Fits13, IsJalr, IsJal, CondOf, Bits11To7,
      RiscvImm.Registers;
  }

  lemma {:induction false} JalHasCode(i: bv32)
    requires !IsJalr(i) && CondOf(i).None? && IsJal(i)
    ensures Legal(TransferOf(i).value) && Code(TransferOf(i).value) == i
  {
    var t := TransferOf(i).value;
    EncodesSame(RiscvImm.Registers(Written(t)), i, t.offset);
    JalWord(i);
    ReencodesJ(i);
    DoubledIsEven(ImmJ(i));
    hide FieldsFit, Rs1, Rs2, ImmI, ImmB, ImmJ, EncodeI, EncodeB, EncodeJ, Fits21, IsJalr, IsJal, CondOf, Bits11To7,
      RiscvImm.Registers;
  }

  lemma {:induction false} JalrHasCode(i: bv32)
    requires IsJalr(i)
    ensures Legal(TransferOf(i).value) && Code(TransferOf(i).value) == i
  {
    var t := TransferOf(i).value;
    EncodesSame(RiscvImm.Registers(Written(t)), i, t.offset);
    JalrWord(i);
    ReencodesI(i);
    hide FieldsFit, Rs1, Rs2, ImmI, ImmB, ImmJ, EncodeI, EncodeB, EncodeJ, Fits12, IsJalr, IsJal, CondOf, Bits11To7,
      RiscvImm.Registers;
  }

  /** And what a word is found to be has operands with encodings, and that word. */
  lemma {:induction false} TransferHasCode(i: bv32)
    requires TransferOf(i).Some?
    ensures Legal(TransferOf(i).value) && Code(TransferOf(i).value) == i
  {
    if IsJalr(i) {
      JalrHasCode(i);
    } else if CondOf(i).Some? {
      BranchHasCode(i);
    } else {
      JalHasCode(i);
    }
    hide Legal, Code, IsJalr, IsJal, CondOf, Rs1, Rs2, Bits11To7, ImmI, ImmB, ImmJ, Doubled;
  }

  // ---- Execution ----

  class Hart {
    const gpr: array<bv32>
    var pc: bv32

    ghost predicate Valid()
      reads this, gpr
    {
      gpr.Length == 32 && gpr[0] == 0
    }

    constructor ()
      ensures Valid() && fresh(gpr)
    {
      gpr := new bv32[32](_ => 0);
      pc := 0x8000_0000;
    }

    /** `decode_operand` with the registers of this hart. */
    method ReadOperands(inst: bv32, k: Kind) returns (o: Operands)
      ensures o.rd == Bits11To7(inst)
      ensures HasRs1(k) ==> o.src1 == At(gpr[..], Rs1(inst))
      ensures HasRs2(k) ==> o.src2 == At(gpr[..], Rs2(inst))
      ensures (k == I ==> o.imm == ImmI(inst)) && (k == B ==> o.imm == ImmB(inst)) && (k == J ==> o.imm == ImmJ(inst))
    {
      hide At, ImmI, ImmS, ImmB, ImmU, ImmJ, Rs1, Rs2, Bits11To7, Encodable, Assemble, Read;
      o := DecodeOperand(inst, k, Reader(gpr[..]), NOTHING);
    }

    /** `R(rd) = v`, and the reset of register 0. */
    method WriteReg(rd: bv32, v: bv32)
      requires Valid() && IsReg(rd)
      modifies gpr
      ensures Valid() && gpr[..] == With(old(gpr[..]), rd, v)
    {
      RegBelow(rd);
      gpr[rd] := v;
      gpr[0] := 0;
    }

    /** The conditions of the six conditional branches. */
    method Taken(inst: bv32, src1: bv32, src2: bv32) returns (ok: bool, taken: bool)
      ensures ok <==> CondOf(inst).Some?
      ensures taken <==> ok && Holds(CondOf(inst).value, src1, src2)
    {
      hide Key, Signed;
      ok, taken := true, false;
      if Key(inst) == 0x0063 {
        taken := src1 == src2;
      } else if Key(inst) == 0x1063 {
        taken := src1 != src2;
      } else if Key(inst) == 0x4063 {
        taken := Signed(src1) < Signed(src2);
      } else if Key(inst) == 0x5063 {
        taken := Signed(src1) >= Signed(src2);
      } else if Key(inst) == 0x6063 {
        taken := src1 < src2;
      } else if Key(inst) == 0x7063 {
        taken := src1 >= src2;
      } else {
        ok := false;
      }
    }

    /** The patterns of the branches. */
    method ExecBranch(inst: bv32, snpc: bv32) returns (ok: bool, dnpc: bv32)
      ensures ok <==> CondOf(inst).Some?
      ensures dnpc ==
              if ok && Holds(CondOf(inst).value, At(gpr[..], Rs1(inst)), At(gpr[..], Rs2(inst)))
              then Sum(pc, Doubled(ImmB(inst))) else snpc
    {
      hide Key, CondOf, Holds, Sum, Doubled, At, ImmI, ImmS, ImmB, ImmU, ImmJ, Rs1, Rs2, Bits11To7;
      var taken;
      var o := ReadOperands(inst, B);
      ok, taken := Taken(inst, o.src1, o.src2);
      dnpc := snpc;
      if taken {
        dnpc := Sum(pc, Doubled(o.imm));
      }
    }

    /** The patterns from `jalr` to `jal` in `decode_exec`. A control transfer goes where it says and leaves the return
        address; other words are left to other patterns. */
    method DecodeExec(inst: bv32) returns (ok: bool)
      requires Valid()
      modifies this`pc, gpr
      ensures Valid() && (ok <==> exists t :: Legal(t) && Code(t) == inst)
      ensures forall t :: Legal(t) && Code(t) == inst ==>
                pc == NextPc(t, old(pc), old(gpr[..])) && gpr[..] == After(t, old(pc), old(gpr[..]))
      ensures !ok ==> pc == old(pc) && gpr[..] == old(gpr[..])
    {
      OneTransfer(inst);
      hide Legal, Code, IsJalr, CondOf, IsJal, Holds, Sum, Even, Doubled, At, With, ImmI, ImmS, ImmB, ImmU;
      hide ImmJ, Rs1, Rs2, Bits11To7, IsReg;
      var dnpc;
      if IsJalr(inst) {
        var o := ReadOperands(inst, I);
        RdIsReg(inst);
        dnpc := Even(Sum(o.src1, o.imm));
        WriteReg(o.rd, Sum(pc, 4));
        ok := true;
      } else {
        ok, dnpc := ExecBranch(inst, Sum(pc, 4));
        if !ok && IsJal(inst) {
          var o := ReadOperands(inst, J);
          RdIsReg(inst);
          dnpc := Sum(pc, Doubled(o.imm));
          WriteReg(o.rd, Sum(pc, 4));
          ok := true;
        }
      }
      if ok {
        pc := dnpc;
      }
    }
  }

  lemma {:induction false} RdIsReg(i: bv32)
    ensures IsReg(Bits11To7(i))
  {
  }

  lemma {:induction false} RegBelow(r: bv32)
    requires IsReg(r)
    ensures r as nat < 32
  {
  }

  /** A word is at most one control transfer, the one that it is found to be. */
  lemma {:induction false} OneTransfer(i: bv32)
    ensures (exists t :: Legal(t) && Code(t) == i) <==> TransferOf(i).Some?
    ensures forall t :: Legal(t) && Code(t) == i ==> TransferOf(i) == Some(t)
  {
    hide *;
    forall t | Legal(t) && Code(t) == i
      ensures TransferOf(i) == Some(t)
    {
      CodeDecodes(t);
    }
    if TransferOf(i).Some? {
      TransferHasCode(i);
    }
  }

  /** A call comes back: a jump to the address left in `rd` continues after the `jal`, exactly when that is even. */
  lemma {:induction false} CallReturns(rd: bv32, offset: bv32, pc: bv32, regs: seq<bv32>)
    requires 0 < rd as nat < |regs|
    ensures var call := Jal(rd, offset);
            NextPc(Jalr(0, rd, 0), NextPc(call, pc, regs), After(call, pc, regs)) == pc + 4 <==> pc & 1 == 0
  {
    EvenAddress(pc);
  }

  /** So does a call by `jalr`. */
  lemma {:induction false} IndirectCallReturns(rd: bv32, rs1: bv32, offset: bv32, pc: bv32, regs: seq<bv32>)
    requires 0 < rd as nat < |regs|
    ensures var call := Jalr(rd, rs1, offset);
            NextPc(Jalr(0, rd, 0), NextPc(call, pc, regs), After(call, pc, regs)) == pc + 4 <==> pc & 1 == 0
  {
    EvenAddress(pc);
  }

  function Opposite(c: Cond): Cond {
    match c
    case Eq => Ne
    case Ne => Eq
    case Lt => Ge
    case Ge => Lt
    case Ltu => Geu
    case Geu => Ltu
  }

  /** Of a branch and the branch on the opposite condition one goes to the offset and the other to the next
      instruction, and neither writes a register. */
  lemma {:induction false} OppositeBranches(c: Cond, rs1: bv32, rs2: bv32, offset: bv32, pc: bv32, regs: seq<bv32>)
    ensures var (b, o) := (Branch(c, rs1, rs2, offset), Branch(Opposite(c), rs1, rs2, offset));
            && {NextPc(b, pc, regs), NextPc(o, pc, regs)} == {pc + offset, pc + 4}
            && (c == Eq && At(regs, rs1) == At(regs, rs2) ==> NextPc(b, pc, regs) == pc + offset)
            && After(b, pc, regs) == After(o, pc, regs) == regs
  {
    hide At, Signed;
  }

  /** A word read as signed is the number in the signed range that it is modulo 2^32. */
  lemma {:induction false} SignedIs(x: bv32)
    ensures -0x8000_0000 <= Signed(x) < 0x8000_0000
    ensures Signed(x) == x as int || Signed(x) == x as int - 0x1_0000_0000
    ensures Signed(0x7fff_ffff) == 0x7fff_ffff && Signed(0x8000_0000) == -0x8000_0000
  {
  }

  lemma {:induction false} EvenAddress(pc: bv32)
    ensures (pc + 4) & 0xffff_fffe == pc + 4 <==> pc & 1 == 0
  {
  }

  /** The conditions come in pairs of which exactly one holds; for -1 and 1 the signed and the unsigned reading
      differ. */
  lemma {:induction false} ConditionsMean(x: bv32, y: bv32)
    ensures Holds(Eq, x, y) <==> !Holds(Ne, x, y)
    ensures Holds(Lt, x, y) <==> !Holds(Ge, x, y)
    ensures Holds(Ltu, x, y) <==> !Holds(Geu, x, y)
    ensures !Holds(Ne, x, x) && !Holds(Lt, x, x) && !Holds(Ltu, x, x)
    ensures Holds(Lt, 0xffff_ffff, 1) && !Holds(Lt, 1, 0xffff_ffff)
    ensures Holds(Ltu, 1, 0xffff_ffff) && !Holds(Ltu, 0xffff_ffff, 1)
  {
  }

  /** `beq x1, x2, 8`, `bne x1, x2, 8`, `blt x1, x2, 8`, `bge x1, x2, 8`, `bltu x5, x6, -4`, `bgeu x1, x2, 8`,
      `jal x1, 4` and `jalr x0, 0(x1)`. */
  lemma {:induction false} KnownCodes()
    ensures Code(Branch(Eq, 1, 2, 8)) == 0x0020_8463
    ensures Code(Branch(Ne, 1, 2, 8)) == 0x0020_9463 && Code(Branch(Lt, 1, 2, 8)) == 0x0020_c463
    ensures Code(Branch(Ge, 1, 2, 8)) == 0x0020_d463 && Code(Branch(Geu, 1, 2, 8)) == 0x0020_f463
    ensures Code(Branch(Ltu, 5, 6, 0xffff_fffc)) == 0xfe62_eee3
    ensures Code(Jal(1, 4)) == 0x0040_00ef
    ensures Code(Jalr(0, 1, 0)) == 0x0000_8067
  {
  }
}
