/**
 Concrete instruction words from the disassembler's unit tests, each worked
 through the model: the instruction it decodes to, its text at the test's
 program counter, its operand count, and the word it encodes back to.
 */
module Vectors {
  import opened Wrappers
  import opened Fields
  import Text
  import Registers
  import opened Opcodes
  import opened Decoder
  import Codec
  import InvalidWords
  import Rendering
  import Coprocessors

  /** A word whose primary field `p` is unmapped is invalid, and the cause prints `p` as two hex digits. */
  lemma UnmappedCause(w: Word, p: Bits6, cause: string)
    requires Primary(w) == p && PrimaryTable(p).Unmapped?
    requires "Invalid primary opcode 0x" + Text.FormatHex(p, 2) == cause
    ensures Decode(w) == Unresolved(w, cause)
  {
    Decoder.DecodeUnmapped(w);
  }

  /** A SPECIAL word whose function field `f` has no entry is invalid, and the cause prints `f`. */
  lemma SecondaryCause(w: Word, f: Bits6, cause: string)
    requires Primary(w) == 0 && Funct(w) == f && SecondaryTable(f).None?
    requires "Invalid secondary opcode 0x" + Text.FormatHex(f, 2) == cause
    ensures Decode(w) == Unresolved(w, cause)
  {
    Decoder.DecodeSecondary(w);
  }

  /** A REGIMM word whose discriminator `t` has no entry is invalid, and the cause prints `t`. */
  lemma BranchZeroCause(w: Word, t: Bits5, cause: string)
    requires Primary(w) == 1 && Rt(w) == t && BranchZeroTable(t).None?
    requires "Invalid bXXz discriminator 0x" + Text.FormatHex(t, 2) == cause
    ensures Decode(w) == Unresolved(w, cause)
  {
    Decoder.DecodeBranchZero(w);
  }

  lemma PrimaryOf(w: Word, p: Bits6)
    requires w / 0x400_0000 == p
    ensures Primary(w) == p
  {
  }

  /** The test's cause strings, each assembled from the decoder's prefix and the field's hex digits. */
  lemma Cause14()
    ensures "Invalid primary opcode 0x" + Text.FormatHex(0x14, 2) == "Invalid primary opcode 0x14"
  {
    assert Text.FormatHex(0x14, 2) == "14";
  }

  lemma Cause3F()
    ensures "Invalid primary opcode 0x" + Text.FormatHex(0x3f, 2) == "Invalid primary opcode 0x3F"
  {
    assert Text.FormatHex(0x3f, 2) == "3F";
  }

  lemma Cause01()
    ensures "Invalid secondary opcode 0x" + Text.FormatHex(0x01, 2) == "Invalid secondary opcode 0x01"
  {
    assert Text.FormatHex(0x01, 2) == "01";
  }

  lemma Cause08()
    ensures "Invalid bXXz discriminator 0x" + Text.FormatHex(0x08, 2) == "Invalid bXXz discriminator 0x08"
  {
    assert Text.FormatHex(0x08, 2) == "08";
  }

  lemma Cause10()
    ensures "Invalid cop branch type 0x" + Text.FormatHex(0x10, 0) == "Invalid cop branch type 0x10"
  {
    assert Text.FormatHex(0x10, 0) == "10";
  }

  lemma InvalidPrimaryVector(w: Word)
    requires w == 0x50123456
    ensures Decode(w) == Unresolved(w, "Invalid primary opcode 0x14")
  {
    PrimaryOf(w, 0x14);
    Cause14();
    UnmappedCause(w, 0x14, "Invalid primary opcode 0x14");
  }

  lemma AllOnesVector(w: Word)
    requires w == 0xffffffff
    ensures Decode(w) == Unresolved(w, "Invalid primary opcode 0x3F")
  {
    PrimaryOf(w, 0x3f);
    Cause3F();
    UnmappedCause(w, 0x3f, "Invalid primary opcode 0x3F");
  }

  lemma InvalidSecondaryVector(w: Word)
    requires w == 0x00876501
    ensures Decode(w) == Unresolved(w, "Invalid secondary opcode 0x01")
  {
    assert Primary(w) == 0 && Funct(w) == 1;
    Cause01();
    SecondaryCause(w, 1, "Invalid secondary opcode 0x01");
  }

  lemma InvalidBranchZeroVector(w: Word)
    requires w == 0x0408468a
    ensures Decode(w) == Unresolved(w, "Invalid bXXz discriminator 0x08")
  {
    assert Primary(w) == 1 && Rt(w) == 8;
    Cause08();
    BranchZeroCause(w, 8, "Invalid bXXz discriminator 0x08");
  }

  lemma InvalidCopBranchVector(w: Word)
    requires w == 0x41100000
    ensures Decode(w) == Unresolved(w, "Invalid cop branch type 0x10")
  {
    assert Primary(w) == 0x10 && ExecBit(w) == 0 && CopDiscriminator(w) == 8 && Rt(w) == 0x10;
    InvalidWords.InvalidCopBranchIff(0, w);
    Cause10();
  }

  lemma ImmediateTexts()
    ensures UnsignedImmText(5) == "0x5"
    ensures SignedImmText(-0x28) == "-0x28"
    ensures SignedImmText(-0x100) == "-0x100"
    ensures Text.FormatHex(0x118042f, 6) == "118042F"
  {
    HexFive();
    HexNegatives();
    HexCommand();
  }

  lemma HexFive()
    ensures UnsignedImmText(5) == "0x5"
  {
    assert Text.FormatHex(5, 0) == "5";
  }

  lemma HexNegatives()
    ensures SignedImmText(-0x28) == "-0x28"
    ensures SignedImmText(-0x100) == "-0x100"
  {
    assert Text.FormatHex(0x28, 0) == "28";
    assert Text.FormatHex(0x100, 0) == "100";
  }

  lemma HexCommand()
    ensures Text.FormatHex(0x118042f, 6) == "118042F"
  {
    assert Text.Digits(0x118042f, 16) == "118042F";
  }

  lemma CopNames()
    ensures CopName("mfc", 0, "") == "mfc0" && CopName("mfc", 3, "") == "mfc3"
    ensures CopName("lwc", 2, "") == "lwc2" && CopName("cop", 2, "") == "cop2"
  {
  }

  lemma CopInRegistry(n: CopId, op: Opcode)
    requires op in CopOpcodes(n)
    ensures op in Registry()
  {
  }

  lemma BranchAddress()
    ensures BranchTarget(0x800367c8, 3) == 0x800367D8
    ensures AddressText(0x800367D8) == "0x800367D8"
  {
    assert BranchTarget(0x800367c8, 3) == 0x800367c8 + 4 + 12;
    BranchDigits();
    AddressTexts();
    EightDigitAddress(0x800367D8, "800367D8", "0x800367D8");
  }

  lemma JumpAddress()
    ensures JumpTarget(0x80037EE8, 0x17ffb) == 0x8005FFEC
    ensures AddressText(0x8005FFEC) == "0x8005FFEC"
  {
    JumpPage();
    JumpDigits();
    AddressTexts();
    EightDigitAddress(0x8005FFEC, "8005FFEC", "0x8005FFEC");
  }

  lemma JumpPage()
    ensures PageBase(0x80037EE8) == 0x8000_0000
  {
    assert 0x80037EE8 % 0x1_0000_0000 == 0x80037EE8;
    assert 0x80037EE8 / 0x1000_0000 == 8;
  }

  /** An address whose digits fill exactly eight places prints without padding. */
  lemma EightDigitAddress(v: nat, s: string, t: string)
    requires Text.Digits(v, 16) == s && |s| == 8 && t == "0x" + s
    ensures AddressText(v) == t
  {
    assert Text.ZeroPad(s, 8) == s;
  }

  lemma AddressTexts()
    ensures "0x" + "800367D8" == "0x800367D8"
    ensures "0x" + "8005FFEC" == "0x8005FFEC"
  {
  }

  lemma BranchDigits()
    ensures Text.Digits(0x800367D8, 16) == "800367D8"
  {
    var c := Text.DigitChar(8);
    assert Text.Digits(0x8003, 16) == "8003";
    assert Text.Digits(0x800367D8, 16) == Text.Digits(0x800367D, 16) + [c];
  }

  lemma JumpDigits()
    ensures Text.Digits(0x8005FFEC, 16) == "8005FFEC"
  {
    assert Text.Digits(0x8005, 16) == "8005";
  }

  lemma AliasA1()
    ensures Registers.CpuByIndex()[5].alias == "a1"
  {
  }

  lemma AliasV0()
    ensures Registers.CpuByIndex()[2].alias == "v0"
  {
  }

  lemma AliasSp()
    ensures Registers.CpuByIndex()[29].alias == "sp"
  {
  }

  lemma AliasT5()
    ensures Registers.CpuByIndex()[13].alias == "t5"
  {
  }

  lemma AliasSr()
    ensures Registers.CopDatByIndex()[0][12].alias == "SR"
  {
    Registers.DataAliases(0, 12);
  }

  lemma AliasDatr10()
    ensures Registers.CopDatByIndex()[3][10].alias == "datR10"
  {
    Registers.DataAliases(3, 10);
    assert Text.Digits(10, 10) == Text.Digits(1, 10) + [Text.DigitChar(0)];
  }

  lemma AliasVz2()
    ensures Registers.CopDatByIndex()[2][5].alias == "VZ2"
  {
    Registers.DataAliases(2, 5);
  }

  lemma SllVector(w: Word)
    requires w == 0x00051140
    ensures Decode(w) == Resolved(Sll, Args(None, Some(Registers.CpuByIndex()[5]), Some(Registers.CpuByIndex()[2]), Some(5)))
    ensures Decode(w).ToString(0x80010000) == "sll v0, a1, 0x5" && Decode(w).ArgsNumber() == 3 && Decode(w).Encode() == w
  {
    var rt := Registers.CpuByIndex()[5];
    var rd := Registers.CpuByIndex()[2];
    var a := Args(None, Some(rt), Some(rd), Some(5));
    SllOperands(w, a);
    Codec.DecodeComplete(Sll, w);
    assert Codec.Unused(Sll.shape) == {Codec.RsField};
    Codec.DecodeThenEncodeExact(w);
    AliasA1();
    AliasV0();
    SllText(a, rt, rd);
  }

  lemma SllOperands(w: Word, a: Args)
    requires w == 0x00051140
    requires a == Args(None, Some(Registers.CpuByIndex()[5]), Some(Registers.CpuByIndex()[2]), Some(5))
    ensures Sll in Registry() && Matches(Sll, w) && DecodeArgs(Sll.shape, w) == a
    ensures Rs(w) == 0
  {
    assert Primary(w) == 0 && Funct(w) == 0 && Rs(w) == 0 && Rt(w) == 5 && Rd(w) == 2 && Shamt(w) == 5;
  }

  lemma SllText(a: Args, rt: Registers.Register, rd: Registers.Register)
    requires a == Args(None, Some(rt), Some(rd), Some(5))
    requires rt.alias == "a1" && rd.alias == "v0"
    ensures Disassemble(Sll, a, 0x80010000) == "sll v0, a1, 0x5"
  {
    ImmediateTexts();
    assert ArgsText(Sll.shape, a, 0x80010000) == "v0, a1, 0x5";
  }

  lemma JalrVector(w: Word)
    requires w == 0x0040f809
    ensures Decode(w) == Resolved(Jalr, Args(Some(Registers.CpuByIndex()[2]), None, Some(Registers.Ra), None))
    ensures Decode(w).ToString(0x80010000) == "jalr v0" && Decode(w).ArgsNumber() == 2 && Decode(w).Encode() == w
  {
    var rs := Registers.CpuByIndex()[2];
    var a := Args(Some(rs), None, Some(Registers.Ra), None);
    JalrOperands(w, a);
    Codec.DecodeComplete(Jalr, w);
    assert Codec.Unused(Jalr.shape) == {Codec.RtField, Codec.ShamtField};
    Codec.DecodeThenEncodeExact(w);
    AliasV0();
    JalrText(a, rs);
  }

  lemma JalrOperands(w: Word, a: Args)
    requires w == 0x0040f809
    requires a == Args(Some(Registers.CpuByIndex()[2]), None, Some(Registers.Ra), None)
    ensures Jalr in Registry() && Matches(Jalr, w) && DecodeArgs(Jalr.shape, w) == a
    ensures Rt(w) == 0 && Shamt(w) == 0
  {
    assert Primary(w) == 0 && Funct(w) == 9 && Rs(w) == 2 && Rt(w) == 0 && Rd(w) == 31 && Shamt(w) == 0;
  }

  lemma JalrText(a: Args, rs: Registers.Register)
    requires a == Args(Some(rs), None, Some(Registers.Ra), None)
    requires rs.alias == "v0"
    ensures Disassemble(Jalr, a, 0x80010000) == "jalr v0"
  {
    assert ArgsText(Jalr.shape, a, 0x80010000) == "v0";
  }

  lemma BltzVector(w: Word)
    requires w == 0x04400003
    ensures Decode(w) == Resolved(Bltz, Args(Some(Registers.CpuByIndex()[2]), None, None, Some(3)))
    ensures Decode(w).ToString(0x800367c8) == "bltz v0, 0x800367D8" && Decode(w).ArgsNumber() == 2 && Decode(w).Encode() == w
  {
    var rs := Registers.CpuByIndex()[2];
    var a := Args(Some(rs), None, None, Some(3));
    BltzOperands(w, a);
    Codec.DecodeComplete(Bltz, w);
    assert Codec.Unused(Bltz.shape) == {};
    Codec.DecodeThenEncodeExact(w);
    AliasV0();
    BltzText(a, rs);
  }

  lemma BltzOperands(w: Word, a: Args)
    requires w == 0x04400003
    requires a == Args(Some(Registers.CpuByIndex()[2]), None, None, Some(3))
    ensures Bltz in Registry() && Matches(Bltz, w) && DecodeArgs(Bltz.shape, w) == a
  {
    assert Primary(w) == 1 && Rs(w) == 2 && Rt(w) == 0 && Low16(w) == 3;
  }

  lemma BltzText(a: Args, rs: Registers.Register)
    requires a == Args(Some(rs), None, None, Some(3))
    requires rs.alias == "v0"
    ensures Disassemble(Bltz, a, 0x800367c8) == "bltz v0, 0x800367D8"
  {
    BltzArgsText(a, rs);
    BltzPieces();
  }

  lemma BltzArgsText(a: Args, rs: Registers.Register)
    requires a == Args(Some(rs), None, None, Some(3))
    requires rs.alias == "v0"
    ensures ArgsText(Bltz.shape, a, 0x800367c8) == "v0, 0x800367D8"
  {
    Rendering.BranchTextSplits(Bltz.shape, a, 0x800367c8);
    assert Rendering.BranchRegisters(Bltz.shape, a) == rs.Display() + ", ";
    BranchAddress();
    BltzPieces();
  }

  lemma BltzPieces()
    ensures "v0" + ", " + "0x800367D8" == "v0, 0x800367D8"
    ensures "bltz" + " " + "v0, 0x800367D8" == "bltz v0, 0x800367D8"
  {
  }

  lemma JumpVector(w: Word)
    requires w == 0x08017ffb
    ensures Decode(w) == Resolved(J, Args(None, None, None, Some(0x17ffb)))
    ensures Decode(w).ToString(0x80037EE8) == "j 0x8005FFEC" && Decode(w).ArgsNumber() == 1 && Decode(w).Encode() == w
  {
    var a := Args(None, None, None, Some(0x17ffb));
    JumpOperands(w, a);
    Codec.DecodeComplete(J, w);
    assert Codec.Unused(J.shape) == {};
    Codec.DecodeThenEncodeExact(w);
    JumpText(a);
  }

  lemma JumpOperands(w: Word, a: Args)
    requires w == 0x08017ffb
    requires a == Args(None, None, None, Some(0x17ffb))
    ensures J in Registry() && Matches(J, w) && DecodeArgs(J.shape, w) == a
  {
    assert Primary(w) == 2 && Low26(w) == 0x17ffb;
  }

  lemma JumpText(a: Args)
    requires a == Args(None, None, None, Some(0x17ffb))
    ensures Disassemble(J, a, 0x80037EE8) == "j 0x8005FFEC"
  {
    JumpArgsText(a, 0x80037EE8);
    PrefixName("j", ArgsText(J.shape, a, 0x80037EE8));
  }

  lemma JumpTargetAt(pc: int, imm: int)
    requires pc == 0x80037EE8 && imm == 0x17ffb
    ensures AddressText(JumpTarget(pc, imm)) == "0x8005FFEC"
  {
    JumpAddress();
  }

  lemma JumpArgsText(a: Args, pc: int)
    requires pc == 0x80037EE8 && a == Args(None, None, None, Some(0x17ffb))
    ensures ArgsText(J.shape, a, pc) == "0x8005FFEC"
  {
    JumpTargetAt(pc, a.imm.value);
    Rendering.JumpTargetText(pc, a.imm.value);
  }

  lemma PrefixName(name: string, t: string)
    requires name == "j" && t == "0x8005FFEC"
    ensures name + " " + t == "j 0x8005FFEC"
  {
  }

  lemma AddiVector(w: Word)
    requires w == 0x23bdffd8
    ensures Decode(w) == Resolved(Addi, Args(Some(Registers.CpuByIndex()[29]), Some(Registers.CpuByIndex()[29]), None, Some(-0x28)))
    ensures Decode(w).ToString(0x80036498) == "addi sp, sp, -0x28" && Decode(w).ArgsNumber() == 3 && Decode(w).Encode() == w
  {
    var sp := Registers.CpuByIndex()[29];
    var a := Args(Some(sp), Some(sp), None, Some(-0x28));
    AddiOperands(w, a);
    Codec.DecodeComplete(Addi, w);
    assert Codec.Unused(Addi.shape) == {};
    Codec.DecodeThenEncodeExact(w);
    AliasSp();
    AddiText(a, sp);
  }

  lemma AddiOperands(w: Word, a: Args)
    requires w == 0x23bdffd8
    requires a == Args(Some(Registers.CpuByIndex()[29]), Some(Registers.CpuByIndex()[29]), None, Some(-0x28))
    ensures Addi in Registry() && Matches(Addi, w) && DecodeArgs(Addi.shape, w) == a
  {
    assert Primary(w) == 8 && Rs(w) == 29 && Rt(w) == 29 && Low16(w) == 0xffd8;
    assert SignExtend16(0xffd8) == -0x28;
  }

  lemma AddiText(a: Args, sp: Registers.Register)
    requires a == Args(Some(sp), Some(sp), None, Some(-0x28))
    requires sp.alias == "sp"
    ensures Disassemble(Addi, a, 0x80036498) == "addi sp, sp, -0x28"
  {
    ImmediateTexts();
    assert ArgsText(Addi.shape, a, 0x80036498) == "sp, sp, -0x28";
  }

  lemma Mfc0Vector(w: Word)
    requires w == 0x400d6000
    ensures Decode(w) == Resolved(Mfc(0), Args(None, Some(Registers.CpuByIndex()[13]), Some(Registers.CopDatByIndex()[0][12]), None))
    ensures Decode(w).ToString(0x80036498) == "mfc0 t5, SR" && Decode(w).ArgsNumber() == 2 && Decode(w).Encode() == w
  {
    var rt := Registers.CpuByIndex()[13];
    var rd := Registers.CopDatByIndex()[0][12];
    var a := Args(None, Some(rt), Some(rd), None);
    Mfc0Decodes(w, a);
    Mfc0Encodes(w, a);
    AliasT5();
    AliasSr();
    Mfc0Text(a, rt, rd);
  }

  lemma TransferUnused(s: Shape)
    requires s.CopRegister?
    ensures Codec.Unused(s) == {Codec.ShamtField, Codec.FunctField}
  {
  }

  lemma Mfc0Encodes(w: Word, a: Args)
    requires w == 0x400d6000 && Decode(w) == Resolved(Mfc(0), a)
    ensures Encodable(Mfc(0).shape, a) && Decode(w).Encode() == w
  {
    Mfc0Clear(w, a);
    Codec.DecodeThenEncodeExact(w);
  }

  lemma Mfc0Clear(w: Word, a: Args)
    requires w == 0x400d6000 && Decode(w) == Resolved(Mfc(0), a)
    ensures var u := Codec.Unused(Decode(w).opcode.shape);
      && (Codec.RsField in u ==> Rs(w) == 0) && (Codec.RtField in u ==> Rt(w) == 0)
      && (Codec.RdField in u ==> Rd(w) == 0) && (Codec.ShamtField in u ==> Shamt(w) == 0)
      && (Codec.FunctField in u ==> Funct(w) == 0)
  {
    Mfc0Fields(w);
    TransferUnused(Mfc(0).shape);
  }

  lemma Mfc0Decodes(w: Word, a: Args)
    requires w == 0x400d6000
    requires a == Args(None, Some(Registers.CpuByIndex()[13]), Some(Registers.CopDatByIndex()[0][12]), None)
    ensures Decode(w) == Resolved(Mfc(0), a) && Shamt(w) == 0 && Funct(w) == 0
  {
    Mfc0Fields(w);
    Coprocessors.TransferOperands(0, w);
  }

  lemma Mfc0Fields(w: Word)
    requires w == 0x400d6000
    ensures Primary(w) == 0x10 && ExecBit(w) == 0 && CopDiscriminator(w) == 0
    ensures Rt(w) == 13 && Rd(w) == 12 && Shamt(w) == 0 && Funct(w) == 0
  {
  }

  lemma Mfc0Text(a: Args, rt: Registers.Register, rd: Registers.Register)
    requires a == Args(None, Some(rt), Some(rd), None)
    requires rt.alias == "t5" && rd.alias == "SR"
    ensures Disassemble(Mfc(0), a, 0x80036498) == "mfc0 t5, SR"
  {
    CopNames();
    assert ArgsText(Mfc(0).shape, a, 0x80036498) == "t5, SR";
  }

  lemma Mfc3Vector(w: Word)
    requires w == 0x4c0d5000
    ensures Decode(w) == Resolved(Mfc(3), Args(None, Some(Registers.CpuByIndex()[13]), Some(Registers.CopDatByIndex()[3][10]), None))
    ensures Decode(w).ToString(0x80036498) == "mfc3 t5, datR10" && Decode(w).ArgsNumber() == 2 && Decode(w).Encode() == w
  {
    var rt := Registers.CpuByIndex()[13];
    var rd := Registers.CopDatByIndex()[3][10];
    var a := Args(None, Some(rt), Some(rd), None);
    Mfc3Decodes(w, a);
    Mfc3Encodes(w, a);
    AliasT5();
    AliasDatr10();
    Mfc3Text(a, rt, rd);
  }

  lemma Mfc3Encodes(w: Word, a: Args)
    requires w == 0x4c0d5000 && Decode(w) == Resolved(Mfc(3), a)
    ensures Encodable(Mfc(3).shape, a) && Decode(w).Encode() == w
  {
    Mfc3Clear(w, a);
    Codec.DecodeThenEncodeExact(w);
  }

  lemma Mfc3Clear(w: Word, a: Args)
    requires w == 0x4c0d5000 && Decode(w) == Resolved(Mfc(3), a)
    ensures var u := Codec.Unused(Decode(w).opcode.shape);
      && (Codec.RsField in u ==> Rs(w) == 0) && (Codec.RtField in u ==> Rt(w) == 0)
      && (Codec.RdField in u ==> Rd(w) == 0) && (Codec.ShamtField in u ==> Shamt(w) == 0)
      && (Codec.FunctField in u ==> Funct(w) == 0)
  {
    Mfc3Fields(w);
    TransferUnused(Mfc(3).shape);
  }

  lemma Mfc3Decodes(w: Word, a: Args)
    requires w == 0x4c0d5000
    requires a == Args(None, Some(Registers.CpuByIndex()[13]), Some(Registers.CopDatByIndex()[3][10]), None)
    ensures Decode(w) == Resolved(Mfc(3), a) && Shamt(w) == 0 && Funct(w) == 0
  {
    Mfc3Fields(w);
    Coprocessors.TransferOperands(3, w);
  }

  lemma Mfc3Fields(w: Word)
    requires w == 0x4c0d5000
    ensures Primary(w) == 0x13 && ExecBit(w) == 0 && CopDiscriminator(w) == 0
    ensures Rt(w) == 13 && Rd(w) == 10 && Shamt(w) == 0 && Funct(w) == 0
  {
  }

  lemma Mfc3Text(a: Args, rt: Registers.Register, rd: Registers.Register)
    requires a == Args(None, Some(rt), Some(rd), None)
    requires rt.alias == "t5" && rd.alias == "datR10"
    ensures Disassemble(Mfc(3), a, 0x80036498) == "mfc3 t5, datR10"
  {
    CopNames();
    assert ArgsText(Mfc(3).shape, a, 0x80036498) == "t5, datR10";
  }

  lemma Lwc2Vector(w: Word)
    requires w == 0xc9a5ff00
    ensures Decode(w) == Resolved(Lwc(2), Args(Some(Registers.CpuByIndex()[13]), Some(Registers.CopDatByIndex()[2][5]), None, Some(-0x100)))
    ensures Decode(w).ToString(0x80020000) == "lwc2 VZ2, -0x100(t5)" && Decode(w).ArgsNumber() == 3 && Decode(w).Encode() == w
  {
    var rs := Registers.CpuByIndex()[13];
    var rt := Registers.CopDatByIndex()[2][5];
    var a := Args(Some(rs), Some(rt), None, Some(-0x100));
    Lwc2Fields(w);
    Coprocessors.LoadStoreOperands(2, w);
    assert Codec.Unused(Lwc(2).shape) == {};
    Codec.DecodeThenEncodeExact(w);
    AliasT5();
    AliasVz2();
    Lwc2Text(a, rs, rt);
  }

  lemma Lwc2Fields(w: Word)
    requires w == 0xc9a5ff00
    ensures Primary(w) == 0x32 && Rs(w) == 13 && Rt(w) == 5 && SignExtend16(Low16(w)) == -0x100
  {
    assert Low16(w) == 0xff00;
  }

  lemma Lwc2Text(a: Args, rs: Registers.Register, rt: Registers.Register)
    requires a == Args(Some(rs), Some(rt), None, Some(-0x100))
    requires rs.alias == "t5" && rt.alias == "VZ2"
    ensures Disassemble(Lwc(2), a, 0x80020000) == "lwc2 VZ2, -0x100(t5)"
  {
    ImmediateTexts();
    CopNames();
    assert ArgsText(Lwc(2).shape, a, 0x80020000) == "VZ2, -0x100(t5)";
  }

  lemma Cop2Vector(w: Word)
    requires w == 0x4b18042f
    ensures Decode(w) == Resolved(Cop(2), Args(None, None, None, Some(0x118042f)))
    ensures Decode(w).ToString(0x80020000) == "cop2 0x118042F" && Decode(w).ArgsNumber() == 1 && Decode(w).Encode() == w
  {
    var a := Args(None, None, None, Some(0x118042f));
    Cop2Operands(w, a);
    Codec.DecodeComplete(Cop(2), w);
    assert Codec.Unused(Cop(2).shape) == {};
    Codec.DecodeThenEncodeExact(w);
    Cop2Text(a);
  }

  lemma Cop2Operands(w: Word, a: Args)
    requires w == 0x4b18042f
    requires a == Args(None, None, None, Some(0x118042f))
    ensures Cop(2) in Registry() && Matches(Cop(2), w) && DecodeArgs(Cop(2).shape, w) == a
  {
    assert Primary(w) == 0x12 && ExecBit(w) == 1 && Low25(w) == 0x118042f;
    CopInRegistry(2, Cop(2));
  }

  lemma Cop2Text(a: Args)
    requires a == Args(None, None, None, Some(0x118042f))
    ensures Disassemble(Cop(2), a, 0x80020000) == "cop2 0x118042F"
  {
    ImmediateTexts();
    CopNames();
    assert ArgsText(Cop(2).shape, a, 0x80020000) == "0x118042F";
  }
}
