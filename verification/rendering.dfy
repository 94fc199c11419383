/**
 Properties of the disassembly text: immediates and addresses read back to
 the numbers they print, branch and jump targets follow the R3000 rules, and
 the two shapes with an optional operand (jalr and the exception opcodes)
 print it exactly when the source says they do.
 */
module Rendering {
  import opened Wrappers
  import opened Fields
  import opened Arithmetic
  import Text
  import Registers
  import opened Opcodes

  /** Reads back a hexadecimal immediate as the disassembler prints it: "0x" digits, or "-0x" digits. */
  function ParseImm(t: string): (r: Option<int>)
  {
    if |t| >= 4 && t[..3] == "-0x" && Text.AllDigits(t[3..], 16) then
      var m: int := Text.Value(t[3..], 16);
      Some(-m)
    else if |t| >= 3 && t[..2] == "0x" && Text.AllDigits(t[2..], 16) then
      Some(Text.Value(t[2..], 16))
    else
      None
  }

  lemma ParsePlain(t: string)
    requires |t| >= 3 && t[..2] == "0x" && Text.AllDigits(t[2..], 16)
    ensures ParseImm(t) == Some(Text.Value(t[2..], 16))
  {
    assert t[..3] != "-0x" by { assert t[0] == '0'; }
  }

  lemma ParseNegated(t: string)
    requires |t| >= 4 && t[..3] == "-0x" && Text.AllDigits(t[3..], 16)
    ensures ParseImm(t).Some? && ParseImm(t).value == -(Text.Value(t[3..], 16) as int)
  {
  }

  /** A signed immediate's text reads back to the immediate. */
  lemma SignedImmParses(v: int)
    ensures ParseImm(SignedImmText(v)) == Some(v)
  {
    var t := SignedImmText(v);
    if v >= 0 {
      ParsePlain(t);
    } else {
      ParseNegated(t);
    }
  }

  /** A non-negative unsigned immediate's text reads back to the immediate. */
  lemma UnsignedImmParses(v: int)
    requires v >= 0
    ensures ParseImm(UnsignedImmText(v)) == Some(v)
  {
    ParsePlain(UnsignedImmText(v));
  }

  /** An address's text reads back to the address, and has exactly eight digits for a 32-bit one. */
  lemma AddressParses(v: int)
    requires v >= 0
    ensures ParseImm(AddressText(v)) == Some(v)
    ensures v < 0x1_0000_0000 ==> |AddressText(v)| == 10
  {
    ParsePlain(AddressText(v));
  }

  /** The shapes whose text ends with a pc-relative branch target. */
  predicate RelativeBranch(s: Shape)
  {
    s.BranchZeroDiscriminated? || s.BranchCompare? || s.BranchZero? || s.CopBranch?
  }

  /** The last `|tail|` characters of `head + tail` are `tail`. */
  lemma SuffixOf(head: string, tail: string)
    ensures (head + tail)[|head + tail| - |tail|..] == tail
  {
  }

  /** The operand text of a relative branch: its registers, then the target address. */
  function BranchRegisters(s: Shape, a: Args): string
    requires RelativeBranch(s)
  {
    match s
    case BranchCompare => RegisterText(a.rs) + ", " + RegisterText(a.rt) + ", "
    case CopBranch(_, _) => ""
    case _ => RegisterText(a.rs) + ", "
  }

  lemma BranchTextSplits(s: Shape, a: Args, pc: int)
    requires RelativeBranch(s) && Renderable(s, a)
    ensures ArgsText(s, a, pc) == BranchRegisters(s, a) + AddressText(BranchTarget(pc, a.imm.value))
  {
    match s
    case BranchCompare =>
    case CopBranch(_, _) =>
    case BranchZero =>
    case BranchZeroDiscriminated(_) =>
  }

  /**
   A relative branch prints the address of the delay slot plus four times the
   offset, last; for a 32-bit target that is ten characters that read back to it.
   */
  lemma BranchTargetText(s: Shape, a: Args, pc: int)
    requires RelativeBranch(s) && Renderable(s, a)
    ensures var t := ArgsText(s, a, pc);
      var target := pc + 4 + a.imm.value * 4;
      && |t| >= 10
      && t[|t| - |AddressText(target)|..] == AddressText(target)
      && (0 <= target < 0x1_0000_0000 ==> ParseImm(t[|t| - 10..]) == Some(target))
  {
    var target := BranchTarget(pc, a.imm.value);
    BranchTextSplits(s, a, pc);
    SuffixOf(BranchRegisters(s, a), AddressText(target));
    if 0 <= target < 0x1_0000_0000 {
      AddressParses(target);
    }
  }

  lemma JumpTargetRegion(pc: Word, imm: int)
    requires 0 <= imm < 0x400_0000
    ensures var target := JumpTarget(pc, imm);
      && PageBase(pc) <= target < PageBase(pc) + 0x1000_0000
      && target / 0x1000_0000 == pc / 0x1000_0000
      && target % 4 == 0
  {
    var k := pc / 0x1000_0000;
    assert pc % 0x1_0000_0000 == pc;
    assert PageBase(pc) == k * 0x1000_0000;
    var target := k * 0x1000_0000 + imm * 4;
    assert JumpTarget(pc, imm) == target;
    DivUnique(target, 0x1000_0000, k, imm * 4);
    DivUnique(target, 4, k * 0x400_0000 + imm, 0);
  }

  /**
   An absolute jump prints the 26-bit word index placed in pc's 256 MiB region:
   the target stays in that region, is word aligned and reads back from the text.
   */
  lemma JumpTargetText(pc: Word, imm: int)
    requires 0 <= imm < 0x400_0000
    ensures var target := JumpTarget(pc, imm);
      && PageBase(pc) <= target < PageBase(pc) + 0x1000_0000
      && target / 0x1000_0000 == pc / 0x1000_0000
      && target % 4 == 0
      && ArgsText(JumpImmediate, Args(None, None, None, Some(imm)), pc) == AddressText(target)
      && ParseImm(AddressText(target)) == Some(target)
  {
    JumpTargetRegion(pc, imm);
    AddressParses(JumpTarget(pc, imm));
  }

  lemma JalrArgsText(a: Args, pc: int)
    ensures ArgsText(Jalr.shape, a, pc) ==
      if a.rd == Some(Registers.Ra) then RegisterText(a.rs) else RegisterText(a.rs) + ", " + RegisterText(a.rd)
  {
  }

  /** `jalr` prints its destination register unless it is ra, the one the short form implies. */
  lemma JalrOmitsRa(a: Args, pc: int)
    requires Canonical(Jalr.shape, a)
    ensures var rs := a.rs.value.Display();
      && (Disassemble(Jalr, a, pc) == "jalr " + rs <==> a.rd == Some(Registers.Ra))
      && (a.rd != Some(Registers.Ra) ==> Disassemble(Jalr, a, pc) == "jalr " + rs + ", " + a.rd.value.Display())
  {
    var rs := RegisterText(a.rs);
    Registers.CpuAliasNonEmpty(a.rs.value);
    JalrArgsText(a, pc);
    var t := Disassemble(Jalr, a, pc);
    assert t == "jalr " + ArgsText(Jalr.shape, a, pc);
    if a.rd != Some(Registers.Ra) {
      assert t == "jalr " + rs + ", " + RegisterText(a.rd);
      assert |t| > |"jalr " + rs|;
    }
  }

  lemma ExceptionArgsText(op: Opcode, a: Args, pc: int)
    requires op.shape.Secondary? && op.shape.form == Exception && a.imm.Some?
    ensures ArgsText(op.shape, a, pc) == if a.imm.value != 0 then UnsignedImmText(a.imm.value) else ""
  {
  }

  /** `syscall` and `break` print their 20-bit code unless it is zero, then they print the bare mnemonic. */
  lemma ExceptionCodeOptional(op: Opcode, a: Args, pc: int)
    requires op.shape.Secondary? && op.shape.form == Exception && Canonical(op.shape, a)
    ensures Disassemble(op, a, pc) == op.name <==> a.imm.value == 0
    ensures a.imm.value != 0 ==>
      var t := Disassemble(op, a, pc);
      && t == op.name + " " + UnsignedImmText(a.imm.value)
      && ParseImm(t[|op.name| + 1..]) == a.imm
  {
    ExceptionArgsText(op, a, pc);
    if a.imm.value != 0 {
      var u := UnsignedImmText(a.imm.value);
      var t := Disassemble(op, a, pc);
      assert t == op.name + " " + u;
      assert t[|op.name| + 1..] == u;
      UnsignedImmParses(a.imm.value);
    }
  }

  /**
   A load or store prints "rt, offset(rs)": its data register, the signed offset
   as a text that reads back to the immediate, and its base register in parentheses.
   */
  lemma LoadStoreText(s: Shape, a: Args, pc: int)
    requires (s.LoadStore? || s.CopLoadStore?) && Renderable(s, a)
    ensures var offset := SignedImmText(a.imm.value);
      && ArgsText(s, a, pc) == RegisterText(a.rt) + ", " + offset + "(" + RegisterText(a.rs) + ")"
      && ParseImm(offset) == a.imm
  {
    SignedImmParses(a.imm.value);
  }

  lemma CopExecuteArgsText(n: CopId, a: Args, pc: int)
    requires a.imm.Some?
    ensures ArgsText(CopExecute(n), a, pc) == "0x" + Text.FormatHex(a.imm.value, 6)
  {
  }

  /** A coprocessor command prints its 25-bit argument as six or more hex digits that read back to it. */
  lemma CopExecuteText(n: CopId, a: Args, pc: int)
    requires Canonical(CopExecute(n), a)
    ensures var t := ArgsText(CopExecute(n), a, pc);
      |t| >= 8 && ParseImm(t) == a.imm
  {
    CopExecuteArgsText(n, a, pc);
    var t := "0x" + Text.FormatHex(a.imm.value, 6);
    assert t[2..] == Text.FormatHex(a.imm.value, 6);
    ParsePlain(t);
  }
}
