/**
 The R3000 opcode set: one flat `Shape` per operand layout, the registry of
 every opcode the disassembler knows, and per shape the three operations an
 opcode offers: reading its operands out of a word, writing them back, and
 rendering them as assembly text.
 */
module Opcodes {
  import opened Wrappers
  import opened Fields
  import Text
  import Registers

  type Bits4 = n: nat | n < 16
  type Bits5 = n: nat | n < 32
  type Bits6 = n: nat | n < 64

  /** A coprocessor number, 0 to 3. */
  type CopId = n: nat | n < 4

  /** The operand layouts of the opcodes whose primary field is 0 (SPECIAL). */
  datatype RForm =
    | ShiftImm        // rd, rt, shift amount
    | ShiftReg        // rd, rt, rs
    | JumpReg         // rs
    | JumpAndLinkReg  // rs, rd
    | Exception       // 20-bit code
    | MoveFrom        // rd
    | MoveTo          // rs
    | MulDiv          // rs, rt
    | AluReg          // rd, rs, rt

  /** Which of a coprocessor's two register files an operand names. */
  datatype Catalog = DataRegisters | ControlRegisters

  /** How an opcode lays out its operands and which extra key fields identify it. */
  datatype Shape =
    | Secondary(form: RForm, code: Bits6)
    | BranchZeroDiscriminated(discriminator: Bits5)
    | JumpImmediate
    | BranchCompare
    | BranchZero
    | AluSignedImm
    | AluUnsignedImm
    | LoadUpperImm
    | LoadStore
    | CopRegister(cop: CopId, selector: Bits4, catalog: Catalog)
    | CopBranch(cop: CopId, branchType: Bits5)
    | CopExecute(cop: CopId)
    | CopLoadStore(cop: CopId)

  datatype Opcode = Opcode(name: string, primary: Bits6, shape: Shape)

  /** The operands of an instruction; a field the shape does not use stays absent. */
  datatype Args = Args(rs: Option<Register>, rt: Option<Register>, rd: Option<Register>, imm: Option<int>)

  type Register = Registers.Register

  const NoArgs: Args := Args(None, None, None, None)

  /** The coprocessor branch group sits under discriminator 8 of a coprocessor primary. */
  const CopBranchDiscriminator: Bits4 := 8

  // `And_`, `Or_` and `Break_` carry the trailing underscore the source gives
  // `and_`, `or_` and `break_`; their mnemonics are plain.
  const Sll := Opcode("sll", 0x00, Secondary(ShiftImm, 0x00))
  const Srl := Opcode("srl", 0x00, Secondary(ShiftImm, 0x02))
  const Sra := Opcode("sra", 0x00, Secondary(ShiftImm, 0x03))
  const Sllv := Opcode("sllv", 0x00, Secondary(ShiftReg, 0x04))
  const Srlv := Opcode("srlv", 0x00, Secondary(ShiftReg, 0x06))
  const Srav := Opcode("srav", 0x00, Secondary(ShiftReg, 0x07))
  const Jr := Opcode("jr", 0x00, Secondary(JumpReg, 0x08))
  const Jalr := Opcode("jalr", 0x00, Secondary(JumpAndLinkReg, 0x09))
  const Syscall := Opcode("syscall", 0x00, Secondary(Exception, 0x0c))
  const Break_ := Opcode("break", 0x00, Secondary(Exception, 0x0d))
  const Mfhi := Opcode("mfhi", 0x00, Secondary(MoveFrom, 0x10))
  const Mthi := Opcode("mthi", 0x00, Secondary(MoveTo, 0x11))
  const Mflo := Opcode("mflo", 0x00, Secondary(MoveFrom, 0x12))
  const Mtlo := Opcode("mtlo", 0x00, Secondary(MoveTo, 0x13))
  const Mult := Opcode("mult", 0x00, Secondary(MulDiv, 0x18))
  const Multu := Opcode("multu", 0x00, Secondary(MulDiv, 0x19))
  const Div := Opcode("div", 0x00, Secondary(MulDiv, 0x1a))
  const Divu := Opcode("divu", 0x00, Secondary(MulDiv, 0x1b))
  const Add := Opcode("add", 0x00, Secondary(AluReg, 0x20))
  const Addu := Opcode("addu", 0x00, Secondary(AluReg, 0x21))
  const Sub := Opcode("sub", 0x00, Secondary(AluReg, 0x22))
  const Subu := Opcode("subu", 0x00, Secondary(AluReg, 0x23))
  const And_ := Opcode("and", 0x00, Secondary(AluReg, 0x24))
  const Or_ := Opcode("or", 0x00, Secondary(AluReg, 0x25))
  const Xor := Opcode("xor", 0x00, Secondary(AluReg, 0x26))
  const Nor := Opcode("nor", 0x00, Secondary(AluReg, 0x27))
  const Slt := Opcode("slt", 0x00, Secondary(AluReg, 0x2a))
  const Sltu := Opcode("sltu", 0x00, Secondary(AluReg, 0x2b))

  const Bltz := Opcode("bltz", 0x01, BranchZeroDiscriminated(0x00))
  const Bgez := Opcode("bgez", 0x01, BranchZeroDiscriminated(0x01))
  const Bltzal := Opcode("bltzal", 0x01, BranchZeroDiscriminated(0x10))
  const Bgezal := Opcode("bgezal", 0x01, BranchZeroDiscriminated(0x11))

  const J := Opcode("j", 0x02, JumpImmediate)
  const Jal := Opcode("jal", 0x03, JumpImmediate)
  const Beq := Opcode("beq", 0x04, BranchCompare)
  const Bne := Opcode("bne", 0x05, BranchCompare)
  const Blez := Opcode("blez", 0x06, BranchZero)
  const Bgtz := Opcode("bgtz", 0x07, BranchZero)
  const Addi := Opcode("addi", 0x08, AluSignedImm)
  const Addiu := Opcode("addiu", 0x09, AluSignedImm)
  const Slti := Opcode("slti", 0x0a, AluSignedImm)
  const Sltiu := Opcode("sltiu", 0x0b, AluSignedImm)
  const Andi := Opcode("andi", 0x0c, AluUnsignedImm)
  const Ori := Opcode("ori", 0x0d, AluUnsignedImm)
  const Xori := Opcode("xori", 0x0e, AluUnsignedImm)
  const Lui := Opcode("lui", 0x0f, LoadUpperImm)
  const Lb := Opcode("lb", 0x20, LoadStore)
  const Lh := Opcode("lh", 0x21, LoadStore)
  const Lwl := Opcode("lwl", 0x22, LoadStore)
  const Lw := Opcode("lw", 0x23, LoadStore)
  const Lbu := Opcode("lbu", 0x24, LoadStore)
  const Lhu := Opcode("lhu", 0x25, LoadStore)
  const Lwr := Opcode("lwr", 0x26, LoadStore)
  const Sb := Opcode("sb", 0x28, LoadStore)
  const Sh := Opcode("sh", 0x29, LoadStore)
  const Swl := Opcode("swl", 0x2a, LoadStore)
  const Sw := Opcode("sw", 0x2b, LoadStore)
  const Swr := Opcode("swr", 0x2e, LoadStore)

  /** The primary opcode of coprocessor n's non-load/store group (COP0 is 0x10). */
  function CopPrimary(n: CopId): (p: Bits6)
    ensures 0x10 <= p < 0x14 && p - 0x10 == n
  {
    0x10 + n
  }

  /** Coprocessor `n`'s instance of a mnemonic family: the prefix, the digit n, the suffix. */
  function CopName(prefix: string, n: CopId, suffix: string): string
  {
    prefix + Text.Decimal(n) + suffix
  }

  function Mfc(n: CopId): Opcode { Opcode(CopName("mfc", n, ""), CopPrimary(n), CopRegister(n, 0x0, DataRegisters)) }
  function Cfc(n: CopId): Opcode { Opcode(CopName("cfc", n, ""), CopPrimary(n), CopRegister(n, 0x2, ControlRegisters)) }
  function Mtc(n: CopId): Opcode { Opcode(CopName("mtc", n, ""), CopPrimary(n), CopRegister(n, 0x4, DataRegisters)) }
  function Ctc(n: CopId): Opcode { Opcode(CopName("ctc", n, ""), CopPrimary(n), CopRegister(n, 0x6, ControlRegisters)) }
  function Bcf(n: CopId): Opcode { Opcode(CopName("bc", n, "f"), CopPrimary(n), CopBranch(n, 0)) }
  function Bct(n: CopId): Opcode { Opcode(CopName("bc", n, "t"), CopPrimary(n), CopBranch(n, 1)) }
  function Cop(n: CopId): Opcode { Opcode(CopName("cop", n, ""), CopPrimary(n), CopExecute(n)) }
  function Lwc(n: CopId): Opcode { Opcode(CopName("lwc", n, ""), 0x30 + n, CopLoadStore(n)) }
  function Swc(n: CopId): Opcode { Opcode(CopName("swc", n, ""), 0x38 + n, CopLoadStore(n)) }

  const SecondaryOpcodes: seq<Opcode> := [
    Sll, Srl, Sra, Sllv, Srlv, Srav, Jr, Jalr, Syscall, Break_, Mfhi, Mthi, Mflo, Mtlo,
    Mult, Multu, Div, Divu, Add, Addu, Sub, Subu, And_, Or_, Xor, Nor, Slt, Sltu
  ]

  const BranchZeroOpcodes: seq<Opcode> := [Bltz, Bgez, Bltzal, Bgezal]

  const PrimaryOpcodes: seq<Opcode> := [
    J, Jal, Beq, Bne, Blez, Bgtz, Addi, Addiu, Slti, Sltiu, Andi, Ori, Xori, Lui,
    Lb, Lh, Lwl, Lw, Lbu, Lhu, Lwr, Sb, Sh, Swl, Sw, Swr
  ]

  /** Every opcode bound to coprocessor `n`. */
  function CopOpcodes(n: CopId): seq<Opcode>
  {
    [Mfc(n), Cfc(n), Mtc(n), Ctc(n), Bcf(n), Bct(n), Cop(n), Lwc(n), Swc(n)]
  }

  /** Every opcode the disassembler knows. */
  function Registry(): seq<Opcode>
  {
    SecondaryOpcodes + BranchZeroOpcodes + PrimaryOpcodes
    + CopOpcodes(0) + CopOpcodes(1) + CopOpcodes(2) + CopOpcodes(3)
  }

  /** The number of operands an opcode of this shape reports. */
  function OperandCount(s: Shape): (n: nat)
    ensures 1 <= n <= 3
  {
    match s
    case Secondary(form, _) => (
      match form
      case ShiftImm => 3
      case ShiftReg => 3
      case JumpReg => 1
      case JumpAndLinkReg => 2
      case Exception => 1
      case MoveFrom => 1
      case MoveTo => 1
      case MulDiv => 2
      case AluReg => 3)
    case BranchZeroDiscriminated(_) => 2
    case JumpImmediate => 1
    case BranchCompare => 3
    case BranchZero => 2
    case AluSignedImm => 3
    case AluUnsignedImm => 3
    case LoadUpperImm => 2
    case LoadStore => 3
    case CopRegister(_, _, _) => 2
    case CopBranch(_, _) => 1
    case CopExecute(_) => 1
    case CopLoadStore(_) => 3
  }

  /** How many operands an argument set fills in. */
  function OperandsPresent(a: Args): nat
  {
    (if a.rs.Some? then 1 else 0) + (if a.rt.Some? then 1 else 0)
    + (if a.rd.Some? then 1 else 0) + (if a.imm.Some? then 1 else 0)
  }

  /**
   A shape's operand count is the number of operands its argument sets fill
   in; `syscall` and `break` carry their code even when it is zero.
   */
  lemma CanonicalCount(s: Shape, a: Args)
    requires Canonical(s, a)
    ensures OperandsPresent(a) == OperandCount(s)
  {
  }

  /** The general-purpose register a 5-bit field names. */
  function Cpu(i: Bits5): (r: Register)
    ensures r.index == Some(i) && Registers.IsCpu(r)
  {
    Registers.CpuByIndex()[i]
  }

  /** Coprocessor `n`'s data or control register file. */
  function CopRegisters(n: CopId, c: Catalog): (regs: seq<Register>)
    ensures |regs| == 32
    ensures forall i | 0 <= i < 32 :: regs[i].index == Some(i)
  {
    match c
    case DataRegisters => Registers.CopDatByIndex()[n]
    case ControlRegisters => Registers.CopCntByIndex()[n]
  }

  /** Entry `i` of coprocessor `n`'s `c` file, as an operand. */
  function CopOperandAt(n: CopId, c: Catalog, i: Bits5): (r: Option<Register>)
    ensures CopOperand(r, n, c) && r.value.index == Some(i)
  {
    Some(CopRegisters(n, c)[i])
  }

  /** A register operand that decoding could have produced from the general-purpose file. */
  predicate CpuOperand(r: Option<Register>)
  {
    r.Some? && Registers.IsCpu(r.value)
  }

  /** A register operand from coprocessor `n`'s `c` file. */
  predicate CopOperand(r: Option<Register>, n: CopId, c: Catalog)
  {
    r.Some? && Registers.InCatalog(r.value, CopRegisters(n, c))
  }

  predicate SignedImm16(i: Option<int>)
  {
    i.Some? && -0x8000 <= i.value < 0x8000
  }

  predicate UnsignedImm(i: Option<int>, bound: nat)
  {
    i.Some? && 0 <= i.value < bound
  }

  /**
   The operands decoding can produce for a shape: each used register comes from
   the catalog the shape reads, each immediate lies in the range its field can
   hold, and the fields the shape does not use are absent.
   */
  predicate Canonical(s: Shape, a: Args)
  {
    match s
    case Secondary(form, _) => (
      match form
      case ShiftImm => a.rs.None? && CpuOperand(a.rt) && CpuOperand(a.rd) && UnsignedImm(a.imm, 32)
      case ShiftReg => CpuOperand(a.rs) && CpuOperand(a.rt) && CpuOperand(a.rd) && a.imm.None?
      case JumpReg => CpuOperand(a.rs) && a.rt.None? && a.rd.None? && a.imm.None?
      case JumpAndLinkReg => CpuOperand(a.rs) && a.rt.None? && CpuOperand(a.rd) && a.imm.None?
      case Exception => a.rs.None? && a.rt.None? && a.rd.None? && UnsignedImm(a.imm, 0x10_0000)
      case MoveFrom => a.rs.None? && a.rt.None? && CpuOperand(a.rd) && a.imm.None?
      case MoveTo => CpuOperand(a.rs) && a.rt.None? && a.rd.None? && a.imm.None?
      case MulDiv => CpuOperand(a.rs) && CpuOperand(a.rt) && a.rd.None? && a.imm.None?
      case AluReg => CpuOperand(a.rs) && CpuOperand(a.rt) && CpuOperand(a.rd) && a.imm.None?)
    case BranchZeroDiscriminated(_) => CpuOperand(a.rs) && a.rt.None? && a.rd.None? && SignedImm16(a.imm)
    case JumpImmediate => a.rs.None? && a.rt.None? && a.rd.None? && UnsignedImm(a.imm, 0x400_0000)
    case BranchCompare => CpuOperand(a.rs) && CpuOperand(a.rt) && a.rd.None? && SignedImm16(a.imm)
    case BranchZero => CpuOperand(a.rs) && a.rt.None? && a.rd.None? && SignedImm16(a.imm)
    case AluSignedImm => CpuOperand(a.rs) && CpuOperand(a.rt) && a.rd.None? && SignedImm16(a.imm)
    case AluUnsignedImm => CpuOperand(a.rs) && CpuOperand(a.rt) && a.rd.None? && UnsignedImm(a.imm, 0x1_0000)
    case LoadUpperImm => a.rs.None? && CpuOperand(a.rt) && a.rd.None? && UnsignedImm(a.imm, 0x1_0000)
    case LoadStore => CpuOperand(a.rs) && CpuOperand(a.rt) && a.rd.None? && SignedImm16(a.imm)
    case CopRegister(n, _, c) => a.rs.None? && CpuOperand(a.rt) && CopOperand(a.rd, n, c) && a.imm.None?
    case CopBranch(_, _) => a.rs.None? && a.rt.None? && a.rd.None? && SignedImm16(a.imm)
    case CopExecute(_) => a.rs.None? && a.rt.None? && a.rd.None? && UnsignedImm(a.imm, 0x200_0000)
    case CopLoadStore(n) => CpuOperand(a.rs) && CopOperand(a.rt, n, DataRegisters) && a.rd.None? && SignedImm16(a.imm)
  }

  /**
   Reads the operands of a word laid out as `s`: register fields name catalog
   entries, 16-bit immediates are sign-extended for the signed shapes, and the
   wider immediates are read as unsigned fields.
   */
  function DecodeArgs(s: Shape, w: Word): (a: Args)
    ensures Canonical(s, a)
    ensures a.rs.Some? ==> a.rs.value.index == Some(Rs(w))
    ensures a.rt.Some? ==> a.rt.value.index == Some(Rt(w))
    ensures a.rd.Some? ==> a.rd.value.index == Some(Rd(w))
  {
    match s
    case Secondary(_, _) => SecondaryArgs(s, w)
    case JumpImmediate => Args(None, None, None, Some(Low26(w)))
    case CopRegister(_, _, _) => CoprocessorArgs(s, w)
    case CopBranch(_, _) => CoprocessorArgs(s, w)
    case CopExecute(_) => CoprocessorArgs(s, w)
    case CopLoadStore(_) => CoprocessorArgs(s, w)
    case _ => ImmediateArgs(s, w)
  }

  /** Decoding fills in exactly as many operands as the shape reports. */
  lemma DecodedCount(s: Shape, w: Word)
    ensures OperandCount(s) == OperandsPresent(DecodeArgs(s, w))
  {
    CanonicalCount(s, DecodeArgs(s, w));
  }

  /** The shapes with a 16-bit immediate in the low half and general-purpose registers above it. */
  predicate ImmediateShape(s: Shape)
  {
    s.BranchZeroDiscriminated? || s.BranchCompare? || s.BranchZero? || s.AluSignedImm?
    || s.AluUnsignedImm? || s.LoadUpperImm? || s.LoadStore?
  }

  /** The operands of an immediate-form word: only andi, ori, xori and lui read the immediate unsigned. */
  function ImmediateArgs(s: Shape, w: Word): (a: Args)
    requires ImmediateShape(s)
    ensures Canonical(s, a)
    ensures a.rs.Some? ==> a.rs.value.index == Some(Rs(w))
    ensures a.rt.Some? ==> a.rt.value.index == Some(Rt(w))
    ensures a.rd.None?
  {
    var rs, rt := Some(Cpu(Rs(w))), Some(Cpu(Rt(w)));
    var simm := Some(SignExtend16(Low16(w)));
    match s
    case BranchZeroDiscriminated(_) => Args(rs, None, None, simm)
    case BranchCompare => Args(rs, rt, None, simm)
    case BranchZero => Args(rs, None, None, simm)
    case AluSignedImm => Args(rs, rt, None, simm)
    case AluUnsignedImm => Args(rs, rt, None, Some(Low16(w)))
    case LoadUpperImm => Args(None, rt, None, Some(Low16(w)))
    case LoadStore => Args(rs, rt, None, simm)
  }

  /** The operands of a coprocessor word: register operands of coprocessor n come from its own catalogs. */
  function CoprocessorArgs(s: Shape, w: Word): (a: Args)
    requires s.CopRegister? || s.CopBranch? || s.CopExecute? || s.CopLoadStore?
    ensures Canonical(s, a)
    ensures a.rs.Some? ==> a.rs.value.index == Some(Rs(w))
    ensures a.rt.Some? ==> a.rt.value.index == Some(Rt(w))
    ensures a.rd.Some? ==> a.rd.value.index == Some(Rd(w))
  {
    match s
    case CopRegister(n, d, c) => CopRegisterArgs(n, d, c, w)
    case CopBranch(_, _) => Args(None, None, None, Some(SignExtend16(Low16(w))))
    case CopExecute(_) => Args(None, None, None, Some(Low25(w)))
    case CopLoadStore(n) => CopLoadStoreArgs(n, w)
  }

  /** A register transfer reads its general-purpose register from rt and its coprocessor register from rd. */
  function CopRegisterArgs(n: CopId, d: Bits4, c: Catalog, w: Word): (a: Args)
    ensures Canonical(CopRegister(n, d, c), a)
    ensures a.rt.value.index == Some(Rt(w)) && a.rd.value.index == Some(Rd(w))
  {
    Args(None, Some(Cpu(Rt(w))), CopOperandAt(n, c, Rd(w)), None)
  }

  /** lwc and swc read their base from rs and their coprocessor data register from rt. */
  function CopLoadStoreArgs(n: CopId, w: Word): (a: Args)
    ensures Canonical(CopLoadStore(n), a)
    ensures a.rs.value.index == Some(Rs(w)) && a.rt.value.index == Some(Rt(w))
  {
    Args(Some(Cpu(Rs(w))), CopOperandAt(n, DataRegisters, Rt(w)), None, Some(SignExtend16(Low16(w))))
  }

  /** The operands of a SPECIAL word, by the form of its opcode. */
  function SecondaryArgs(s: Shape, w: Word): (a: Args)
    requires s.Secondary?
    ensures Canonical(s, a)
    ensures a.rs.Some? ==> a.rs.value.index == Some(Rs(w))
    ensures a.rt.Some? ==> a.rt.value.index == Some(Rt(w))
    ensures a.rd.Some? ==> a.rd.value.index == Some(Rd(w))
  {
    var rs, rt, rd := Some(Cpu(Rs(w))), Some(Cpu(Rt(w))), Some(Cpu(Rd(w)));
    match s.form
    case ShiftImm => Args(None, rt, rd, Some(Shamt(w)))
    case ShiftReg => Args(rs, rt, rd, None)
    case JumpReg => Args(rs, None, None, None)
    case JumpAndLinkReg => Args(rs, None, rd, None)
    case Exception => Args(None, None, None, Some(Code20(w)))
    case MoveFrom => Args(None, None, rd, None)
    case MoveTo => Args(rs, None, None, None)
    case MulDiv => Args(rs, rt, None, None)
    case AluReg => Args(rs, rt, rd, None)
  }

  /** A register operand that can be encoded: present and carrying an index. */
  predicate Indexed(r: Option<Register>)
  {
    r.Some? && r.value.index.Some?
  }

  function Index(r: Option<Register>): nat
    requires Indexed(r)
  {
    r.value.index.value
  }

  /** An immediate that can be shifted into place: present and not negative. */
  predicate Natural(i: Option<int>)
  {
    i.Some? && i.value >= 0
  }

  /**
   The operands `encode` reads are there: each register it shifts into place
   has an index, each 16-bit immediate is present, and each immediate it shifts
   or ors without truncation is present and not negative.
   */
  predicate Encodable(s: Shape, a: Args)
  {
    match s
    case Secondary(form, _) => (
      match form
      case ShiftImm => Indexed(a.rt) && Indexed(a.rd) && Natural(a.imm)
      case ShiftReg => Indexed(a.rs) && Indexed(a.rt) && Indexed(a.rd)
      case JumpReg => Indexed(a.rs)
      case JumpAndLinkReg => Indexed(a.rs) && Indexed(a.rd)
      case Exception => Natural(a.imm)
      case MoveFrom => Indexed(a.rd)
      case MoveTo => Indexed(a.rs)
      case MulDiv => Indexed(a.rs) && Indexed(a.rt)
      case AluReg => Indexed(a.rs) && Indexed(a.rt) && Indexed(a.rd))
    case BranchZeroDiscriminated(_) => Indexed(a.rs) && a.imm.Some?
    case JumpImmediate => Natural(a.imm)
    case BranchCompare => Indexed(a.rs) && Indexed(a.rt) && a.imm.Some?
    case BranchZero => Indexed(a.rs) && a.imm.Some?
    case AluSignedImm => Indexed(a.rs) && Indexed(a.rt) && a.imm.Some?
    case AluUnsignedImm => Indexed(a.rs) && Indexed(a.rt) && a.imm.Some?
    case LoadUpperImm => Indexed(a.rt) && a.imm.Some?
    case LoadStore => Indexed(a.rs) && Indexed(a.rt) && a.imm.Some?
    case CopRegister(_, _, _) => Indexed(a.rt) && Indexed(a.rd)
    case CopBranch(_, _) => a.imm.Some?
    case CopExecute(_) => Natural(a.imm)
    case CopLoadStore(_) => Indexed(a.rs) && Indexed(a.rt) && a.imm.Some?
  }

  /** Every operand set decoding produces can be encoded. */
  lemma CanonicalEncodable(s: Shape, a: Args)
    requires Canonical(s, a)
    ensures Encodable(s, a)
  {
  }

  /** A 16-bit immediate as `ctypes.c_uint16` stores it: the value modulo 2^16. */
  function Imm16(i: Option<int>): (u: nat)
    requires i.Some?
    ensures u < 0x1_0000 && (u - i.value) % 0x1_0000 == 0
  {
    i.value % 0x1_0000
  }

  /** The operand bits of a word: each operand shifted to its field and or-ed in. */
  function EncodeArgs(s: Shape, a: Args): nat
    requires Encodable(s, a)
  {
    match s
    case Secondary(form, _) => (
      match form
      case ShiftImm => Or(Or(Index(a.rt) * 0x1_0000, Index(a.rd) * 0x800), a.imm.value * 0x40)
      case ShiftReg => Or(Or(Index(a.rs) * 0x20_0000, Index(a.rt) * 0x1_0000), Index(a.rd) * 0x800)
      case JumpReg => Index(a.rs) * 0x20_0000
      case JumpAndLinkReg => Or(Index(a.rs) * 0x20_0000, Index(a.rd) * 0x800)
      case Exception => a.imm.value * 0x40
      case MoveFrom => Index(a.rd) * 0x800
      case MoveTo => Index(a.rs) * 0x20_0000
      case MulDiv => Or(Index(a.rs) * 0x20_0000, Index(a.rt) * 0x1_0000)
      case AluReg => Or(Or(Index(a.rs) * 0x20_0000, Index(a.rt) * 0x1_0000), Index(a.rd) * 0x800))
    case BranchZeroDiscriminated(_) => Or(Index(a.rs) * 0x20_0000, Imm16(a.imm))
    case JumpImmediate => a.imm.value
    case BranchCompare => Or(Or(Index(a.rs) * 0x20_0000, Index(a.rt) * 0x1_0000), Imm16(a.imm))
    case BranchZero => Or(Index(a.rs) * 0x20_0000, Imm16(a.imm))
    case AluSignedImm => Or(Or(Index(a.rs) * 0x20_0000, Index(a.rt) * 0x1_0000), Imm16(a.imm))
    case AluUnsignedImm => Or(Or(Index(a.rs) * 0x20_0000, Index(a.rt) * 0x1_0000), Imm16(a.imm))
    case LoadUpperImm => Or(Index(a.rt) * 0x1_0000, Imm16(a.imm))
    case LoadStore => Or(Or(Index(a.rs) * 0x20_0000, Index(a.rt) * 0x1_0000), Imm16(a.imm))
    case CopRegister(_, _, _) => Or(Index(a.rt) * 0x1_0000, Index(a.rd) * 0x800)
    case CopBranch(_, _) => Imm16(a.imm)
    case CopExecute(_) => a.imm.value
    case CopLoadStore(_) => Or(Or(Index(a.rs) * 0x20_0000, Index(a.rt) * 0x1_0000), Imm16(a.imm))
  }

  /**
   The word for `op` applied to `a`: the primary field or-ed with the operand
   bits, then with the shape's own key bits (secondary code, bXXz
   discriminator, coprocessor discriminator and branch type, execute flag).
   */
  function Assemble(op: Opcode, a: Args): nat
    requires Encodable(op.shape, a)
  {
    var base := Or(op.primary * 0x400_0000, EncodeArgs(op.shape, a));
    match op.shape
    case Secondary(_, code) => Or(base, code)
    case BranchZeroDiscriminated(d) => Or(base, d * 0x1_0000)
    case CopRegister(_, d, _) => Or(base, d * 0x20_0000)
    case CopBranch(_, t) => Or(Or(base, CopBranchDiscriminator * 0x20_0000), t * 0x1_0000)
    case CopExecute(_) => Or(base, 0x200_0000)
    case _ => base
  }

  /** A register operand as an f-string prints it: its alias, or "None" when absent. */
  function RegisterText(r: Option<Register>): string
  {
    if r.None? then "None" else r.value.Display()
  }

  /** "0x" and the upper-case hexadecimal digits, the value's sign (if any) after the prefix. */
  function UnsignedImmText(v: int): (t: string)
    ensures |t| >= 3 && t[..2] == "0x"
    ensures v >= 0 ==> Text.AllDigits(t[2..], 16) && Text.Value(t[2..], 16) == v
  {
    var t := "0x" + Text.FormatHex(v, 0);
    assert t[2..] == Text.FormatHex(v, 0);
    t
  }

  /** A signed immediate: "0x" and its digits, or "-0x" and the digits of its magnitude. */
  function SignedImmText(v: int): (t: string)
    ensures |t| >= 3
    ensures v >= 0 ==> t[..2] == "0x" && Text.AllDigits(t[2..], 16) && Text.Value(t[2..], 16) == v
    ensures v < 0 ==> |t| >= 4 && t[..3] == "-0x" && Text.AllDigits(t[3..], 16) && Text.Value(t[3..], 16) == -v
  {
    if v >= 0 then UnsignedImmText(v)
    else
      var t := "-0x" + Text.FormatHex(-v, 0);
      assert t[3..] == Text.FormatHex(-v, 0);
      t
  }

  /** The address a relative branch at `pc` reaches: the delay slot plus the word offset. */
  function BranchTarget(pc: int, imm: int): int
  {
    pc + 4 + imm * 4
  }

  /** `pc & 0xF0000000`: the 256 MiB region of `pc`, reading `pc` as two's complement. */
  function PageBase(pc: int): (b: nat)
    ensures b % 0x1000_0000 == 0 && b < 0x1_0000_0000
    ensures 0 <= pc < 0x1_0000_0000 ==> b <= pc < b + 0x1000_0000
  {
    ((pc % 0x1_0000_0000) / 0x1000_0000) * 0x1000_0000
  }

  /** The address an absolute jump at `pc` reaches: the word index placed in pc's region. */
  function JumpTarget(pc: int, imm: int): int
  {
    PageBase(pc) + imm * 4
  }

  /** An address as `0x%08X` prints it: "0x" then at least eight upper-case hexadecimal digits. */
  function AddressText(v: int): (t: string)
    ensures |t| >= 10 && t[..2] == "0x"
    ensures v >= 0 ==> Text.AllDigits(t[2..], 16) && Text.Value(t[2..], 16) == v
    ensures 0 <= v < 0x1_0000_0000 ==> |t| == 10
  {
    var t := "0x" + Text.FormatHex(v, 8);
    assert t[2..] == Text.FormatHex(v, 8);
    EightDigits(v);
    t
  }

  lemma EightDigits(v: int)
    ensures 0 <= v < 0x1_0000_0000 ==> |Text.FormatHex(v, 8)| == 8
  {
    if 0 <= v < 0x1_0000_0000 {
      assert Text.Power(16, 8) == 0x1_0000_0000;
      Text.FormatHexWidth(v, 8);
    }
  }

  /** The immediate is present for every shape whose text prints it. */
  predicate Renderable(s: Shape, a: Args)
  {
    match s
    case Secondary(form, _) => (form.ShiftImm? || form.Exception?) ==> a.imm.Some?
    case CopRegister(_, _, _) => true
    case _ => a.imm.Some?
  }

  /** The operand text of an instruction of shape `s` at address `pc`. */
  function ArgsText(s: Shape, a: Args, pc: int): string
    requires Renderable(s, a)
  {
    var rs, rt, rd := RegisterText(a.rs), RegisterText(a.rt), RegisterText(a.rd);
    match s
    case Secondary(form, _) => (
      match form
      case ShiftImm => rd + ", " + rt + ", " + UnsignedImmText(a.imm.value)
      case ShiftReg => rd + ", " + rt + ", " + rs
      case JumpReg => rs
      case JumpAndLinkReg => if a.rd == Some(Registers.Ra) then rs else rs + ", " + rd
      case Exception => if a.imm.value != 0 then UnsignedImmText(a.imm.value) else ""
      case MoveFrom => rd
      case MoveTo => rs
      case MulDiv => rs + ", " + rt
      case AluReg => rd + ", " + rs + ", " + rt)
    case BranchZeroDiscriminated(_) => rs + ", " + AddressText(BranchTarget(pc, a.imm.value))
    case JumpImmediate => AddressText(JumpTarget(pc, a.imm.value))
    case BranchCompare => rs + ", " + rt + ", " + AddressText(BranchTarget(pc, a.imm.value))
    case BranchZero => rs + ", " + AddressText(BranchTarget(pc, a.imm.value))
    case AluSignedImm => rt + ", " + rs + ", " + SignedImmText(a.imm.value)
    case AluUnsignedImm => rt + ", " + rs + ", " + UnsignedImmText(a.imm.value)
    case LoadUpperImm => rt + ", " + UnsignedImmText(a.imm.value)
    case LoadStore => rt + ", " + SignedImmText(a.imm.value) + "(" + rs + ")"
    case CopRegister(_, _, _) => rt + ", " + rd
    case CopBranch(_, _) => AddressText(BranchTarget(pc, a.imm.value))
    case CopExecute(_) => "0x" + Text.FormatHex(a.imm.value, 6)
    case CopLoadStore(_) => rt + ", " + SignedImmText(a.imm.value) + "(" + rs + ")"
  }

  /** The disassembly: the mnemonic, then a space and the operand text unless that is empty. */
  function Disassemble(op: Opcode, a: Args, pc: int): (t: string)
    requires Renderable(op.shape, a)
    ensures |t| >= |op.name| && t[..|op.name|] == op.name
    ensures t == op.name <==> ArgsText(op.shape, a, pc) == ""
    ensures t != op.name ==> t == op.name + " " + ArgsText(op.shape, a, pc)
  {
    var args := ArgsText(op.shape, a, pc);
    if |args| > 0 then op.name + " " + args else op.name
  }

  /** A decoded instruction: a registry opcode with its operands, or an undecodable word and the reason. */
  datatype Instruction =
    | Resolved(opcode: Opcode, args: Args)
    | Unresolved(encoded: Word, cause: string)
  {
    predicate IsValid()
    {
      Resolved?
    }

    function Name(): string
    {
      if Resolved? then opcode.name else "invalid"
    }

    function ArgsNumber(): nat
    {
      if Resolved? then OperandCount(opcode.shape) else 0
    }

    /** The operands; an invalid instruction has none. */
    function Operands(): Args
    {
      if Resolved? then args else NoArgs
    }

    /** The primary field: the opcode's own, or the one read from the stored word. */
    function PrimaryOpcode(): nat
    {
      if Resolved? then opcode.primary else Primary(encoded)
    }

    function Encode(): nat
      requires Resolved? ==> Encodable(opcode.shape, args)
    {
      if Resolved? then Assemble(opcode, args) else encoded
    }

    function ToString(pc: int): string
      requires Resolved? ==> Renderable(opcode.shape, args)
    {
      if Resolved? then Disassemble(opcode, args, pc) else "invalid"
    }
  }
}
