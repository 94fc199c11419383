/**
 Instruction decoding: the primary field selects an opcode directly or one of
 three second-level tables (SPECIAL by bits 5:0, REGIMM by bits 20:16, and a
 coprocessor table by bit 25, bits 24:21 and, for branches, bits 20:16). A word
 no table maps decodes to an invalid instruction carrying a cause.
 */
module Decoder {
  import opened Wrappers
  import opened Fields
  import Text
  import opened Opcodes

  /** What the primary table holds for one primary field value. */
  datatype PrimaryEntry =
    | Direct(op: Opcode)
    | ViaSecondary
    | ViaBranchZero
    | ViaCoprocessor(cop: CopId)
    | Unmapped

  /** What a coprocessor's discriminator table holds. */
  datatype CopEntry =
    | CopTransfer(op: Opcode)
    | CopBranchGroup
    | CopReserved

  /** The shapes an opcode has when the primary field alone identifies it. */
  predicate DirectShape(s: Shape)
  {
    !s.Secondary? && !s.BranchZeroDiscriminated? && !s.CopRegister? && !s.CopBranch? && !s.CopExecute?
  }

  /** The key fields of `op` all hold in `w`: the word is an instance of the opcode. */
  predicate Matches(op: Opcode, w: Word)
  {
    Primary(w) == op.primary &&
    match op.shape
    case Secondary(_, code) => Funct(w) == code
    case BranchZeroDiscriminated(d) => Rt(w) == d
    case CopRegister(_, d, _) => ExecBit(w) == 0 && CopDiscriminator(w) == d
    case CopBranch(_, t) => ExecBit(w) == 0 && CopDiscriminator(w) == CopBranchDiscriminator && Rt(w) == t
    case CopExecute(_) => ExecBit(w) == 1
    case _ => true
  }

  function PrimaryTable(p: Bits6): (e: PrimaryEntry)
    ensures e.ViaSecondary? <==> p == 0x00
    ensures e.ViaBranchZero? <==> p == 0x01
    ensures e.ViaCoprocessor? <==> 0x10 <= p < 0x14
    ensures e.ViaCoprocessor? ==> p == CopPrimary(e.cop)
    ensures e.Direct? ==> e.op.primary == p && DirectShape(e.op.shape)
  {
    match p
    case 0x00 => ViaSecondary
    case 0x01 => ViaBranchZero
    case 0x02 => Direct(J)
    case 0x03 => Direct(Jal)
    case 0x04 => Direct(Beq)
    case 0x05 => Direct(Bne)
    case 0x06 => Direct(Blez)
    case 0x07 => Direct(Bgtz)
    case 0x08 => Direct(Addi)
    case 0x09 => Direct(Addiu)
    case 0x0a => Direct(Slti)
    case 0x0b => Direct(Sltiu)
    case 0x0c => Direct(Andi)
    case 0x0d => Direct(Ori)
    case 0x0e => Direct(Xori)
    case 0x0f => Direct(Lui)
    case 0x10 => ViaCoprocessor(0)
    case 0x11 => ViaCoprocessor(1)
    case 0x12 => ViaCoprocessor(2)
    case 0x13 => ViaCoprocessor(3)
    case 0x20 => Direct(Lb)
    case 0x21 => Direct(Lh)
    case 0x22 => Direct(Lwl)
    case 0x23 => Direct(Lw)
    case 0x24 => Direct(Lbu)
    case 0x25 => Direct(Lhu)
    case 0x26 => Direct(Lwr)
    case 0x28 => Direct(Sb)
    case 0x29 => Direct(Sh)
    case 0x2a => Direct(Swl)
    case 0x2b => Direct(Sw)
    case 0x2e => Direct(Swr)
    case 0x30 => Direct(Lwc(0))
    case 0x31 => Direct(Lwc(1))
    case 0x32 => Direct(Lwc(2))
    case 0x33 => Direct(Lwc(3))
    case 0x38 => Direct(Swc(0))
    case 0x39 => Direct(Swc(1))
    case 0x3a => Direct(Swc(2))
    case 0x3b => Direct(Swc(3))
    case _ => Unmapped
  }

  /** Every opcode the primary table holds directly is in the registry. */
  lemma DirectInRegistry(p: Bits6)
    requires PrimaryTable(p).Direct?
    ensures PrimaryTable(p).op in Registry()
  {
    var op := PrimaryTable(p).op;
    if p < 0x30 {
      assert op in PrimaryOpcodes;
    } else if p < 0x38 {
      assert op == Lwc(p - 0x30) && op in CopOpcodes(p - 0x30);
    } else {
      assert op == Swc(p - 0x38) && op in CopOpcodes(p - 0x38);
    }
  }

  /** The SPECIAL table, keyed by each opcode's own secondary code. */
  function SecondaryTable(f: Bits6): (r: Option<Opcode>)
    ensures r.Some? ==> r.value.primary == 0 && r.value.shape.Secondary? && r.value.shape.code == f
  {
    match f
    case 0x00 => Some(Sll)
    case 0x02 => Some(Srl)
    case 0x03 => Some(Sra)
    case 0x04 => Some(Sllv)
    case 0x06 => Some(Srlv)
    case 0x07 => Some(Srav)
    case 0x08 => Some(Jr)
    case 0x09 => Some(Jalr)
    case 0x0c => Some(Syscall)
    case 0x0d => Some(Break_)
    case 0x10 => Some(Mfhi)
    case 0x11 => Some(Mthi)
    case 0x12 => Some(Mflo)
    case 0x13 => Some(Mtlo)
    case 0x18 => Some(Mult)
    case 0x19 => Some(Multu)
    case 0x1a => Some(Div)
    case 0x1b => Some(Divu)
    case 0x20 => Some(Add)
    case 0x21 => Some(Addu)
    case 0x22 => Some(Sub)
    case 0x23 => Some(Subu)
    case 0x24 => Some(And_)
    case 0x25 => Some(Or_)
    case 0x26 => Some(Xor)
    case 0x27 => Some(Nor)
    case 0x2a => Some(Slt)
    case 0x2b => Some(Sltu)
    case _ => None
  }

  /** Every opcode the SPECIAL table holds is a SPECIAL registry opcode. */
  lemma SecondaryInRegistry(f: Bits6)
    ensures SecondaryTable(f).Some? ==> SecondaryTable(f).value in SecondaryOpcodes
  {
  }

  /** The REGIMM (bXXz) table, keyed by each opcode's own discriminator. */
  function BranchZeroTable(d: Bits5): (r: Option<Opcode>)
    ensures r.Some? ==> (r.value in BranchZeroOpcodes && r.value.primary == 1
      && r.value.shape == BranchZeroDiscriminated(d))
  {
    match d
    case 0x00 => Some(Bltz)
    case 0x01 => Some(Bgez)
    case 0x10 => Some(Bltzal)
    case 0x11 => Some(Bgezal)
    case _ => None
  }

  /** Coprocessor `n`'s table, keyed by each register-transfer opcode's own discriminator. */
  function CopTable(n: CopId, d: Bits4): (e: CopEntry)
    ensures e.CopTransfer? ==> (e.op in CopOpcodes(n) && e.op.primary == CopPrimary(n)
      && e.op.shape.CopRegister? && e.op.shape.cop == n && e.op.shape.selector == d)
    ensures e.CopBranchGroup? <==> d == CopBranchDiscriminator
  {
    match d
    case 0x0 => CopTransfer(Mfc(n))
    case 0x2 => CopTransfer(Cfc(n))
    case 0x4 => CopTransfer(Mtc(n))
    case 0x6 => CopTransfer(Ctc(n))
    case 0x8 => CopBranchGroup
    case _ => CopReserved
  }

  /** The cause text of an undecodable word: a fixed prefix ending in "0x", then the offending field in hex. */
  function Cause(prefix: string, field: nat, width: nat): string
  {
    prefix + Text.FormatHex(field, width)
  }

  /** An opcode applied to the operands it reads from `w`. */
  function Instantiate(op: Opcode, w: Word): (i: Instruction)
    ensures i.Resolved? && i.opcode == op && i.args == DecodeArgs(op.shape, w)
  {
    Resolved(op, DecodeArgs(op.shape, w))
  }

  /** A table slot: the opcode it holds applied to `w`, or invalid with `cause` when empty. */
  function FromSlot(slot: Option<Opcode>, w: Word, cause: string): (i: Instruction)
    ensures slot.Some? ==> i == Instantiate(slot.value, w)
    ensures slot.None? ==> i == Unresolved(w, cause)
  {
    match slot
    case Some(op) => Instantiate(op, w)
    case None => Unresolved(w, cause)
  }

  /** A coprocessor branch: type 0 is "branch if false", type 1 "branch if true". */
  function DecodeCopBranch(n: CopId, w: Word): (i: Instruction)
    ensures i.Resolved? ==> i.opcode in CopOpcodes(n) && i.opcode.shape == CopBranch(n, Rt(w))
    ensures i.Unresolved? <==> Rt(w) > 1
  {
    var t := Rt(w);
    if t == 0 then Instantiate(Bcf(n), w)
    else if t == 1 then Instantiate(Bct(n), w)
    else Unresolved(w, Cause("Invalid cop branch type 0x", t, 0))
  }

  /** A coprocessor's non-load/store primary: execute flag first, then the discriminator. */
  function DecodeCoprocessor(n: CopId, w: Word): (i: Instruction)
    ensures i.Resolved? ==> i.opcode in CopOpcodes(n) && i.opcode.primary == CopPrimary(n)
  {
    if ExecBit(w) == 1 then Instantiate(Cop(n), w)
    else
      match CopTable(n, CopDiscriminator(w))
      case CopTransfer(op) => Instantiate(op, w)
      case CopBranchGroup => DecodeCopBranch(n, w)
      case CopReserved => Unresolved(w, "")
  }

  /**
   Decodes a 32-bit word. Every word decodes: to a registry opcode whose key
   fields it carries, with the operands read from it, or to an invalid
   instruction that keeps the word.
   */
  function Decode(w: Word): (i: Instruction)
    ensures i.Unresolved? ==> i.encoded == w
    ensures i.Resolved? ==> i.opcode in Registry() && Matches(i.opcode, w) && i.args == DecodeArgs(i.opcode.shape, w)
  {
    match PrimaryTable(Primary(w))
    case Direct(op) => DirectInRegistry(Primary(w)); Instantiate(op, w)
    case ViaSecondary =>
      SecondaryInRegistry(Funct(w));
      FromSlot(SecondaryTable(Funct(w)), w, Cause("Invalid secondary opcode 0x", Funct(w), 2))
    case ViaBranchZero =>
      FromSlot(BranchZeroTable(Rt(w)), w, Cause("Invalid bXXz discriminator 0x", Rt(w), 2))
    case ViaCoprocessor(n) => DecodeCoprocessor(n, w)
    case Unmapped => Unresolved(w, Cause("Invalid primary opcode 0x", Primary(w), 2))
  }

  /** A word on coprocessor n's non-load/store primary decodes through that coprocessor's table. */
  lemma DecodeViaCoprocessor(n: CopId, w: Word)
    requires Primary(w) == CopPrimary(n)
    ensures Decode(w) == DecodeCoprocessor(n, w)
  {
    assert PrimaryTable(Primary(w)) == ViaCoprocessor(n);
  }

  /** A word whose primary field the table holds an opcode for decodes to that opcode. */
  lemma DecodeDirect(op: Opcode, w: Word)
    requires PrimaryTable(Primary(w)) == Direct(op)
    ensures Decode(w) == Instantiate(op, w)
  {
  }

  /** Decoding a word whose primary field is unmapped. */
  lemma DecodeUnmapped(w: Word)
    requires PrimaryTable(Primary(w)).Unmapped?
    ensures Decode(w) == Unresolved(w, "Invalid primary opcode 0x" + Text.FormatHex(Primary(w), 2))
  {
  }

  /** Decoding a SPECIAL word goes through the SPECIAL table. */
  lemma DecodeSecondary(w: Word)
    requires Primary(w) == 0
    ensures Decode(w) == FromSlot(SecondaryTable(Funct(w)), w, "Invalid secondary opcode 0x" + Text.FormatHex(Funct(w), 2))
  {
  }

  /** Decoding a REGIMM word goes through the bXXz table. */
  lemma DecodeBranchZero(w: Word)
    requires Primary(w) == 1
    ensures Decode(w) == FromSlot(BranchZeroTable(Rt(w)), w, "Invalid bXXz discriminator 0x" + Text.FormatHex(Rt(w), 2))
  {
    assert PrimaryTable(Primary(w)) == ViaBranchZero;
  }
}
