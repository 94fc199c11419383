/**
 How the coprocessor opcodes bind to coprocessor n: which primary field values
 select them, and which register catalog their register operands come from.
 */
module Coprocessors {
  import opened Wrappers
  import opened Fields
  import Registers
  import opened Opcodes
  import opened Decoder
  import Codec

  /** The coprocessor an opcode is bound to, if any (the `cop_id` of the coprocessor opcodes). */
  function CopOf(s: Shape): Option<CopId>
  {
    match s
    case CopRegister(n, _, _) => Some(n)
    case CopBranch(n, _) => Some(n)
    case CopExecute(n) => Some(n)
    case CopLoadStore(n) => Some(n)
    case _ => None
  }

  /** The primary field values that select coprocessor `n`: 0x10+n, and 0x30+n and 0x38+n for its loads and stores. */
  predicate CopPrimaryOf(p: int, n: CopId)
  {
    p == 0x10 + n || p == 0x30 + n || p == 0x38 + n
  }

  /** Every opcode of coprocessor n's group is bound to n and sits on one of n's primaries. */
  lemma CopGroupBinding(n: CopId, op: Opcode)
    requires op in CopOpcodes(n)
    ensures CopOf(op.shape) == Some(n) && CopPrimaryOf(op.primary, n)
    ensures op.shape.CopLoadStore? <==> op.primary != CopPrimary(n)
  {
  }

  /** The primary table binds an opcode it holds directly to coprocessor n only on n's load and store primaries. */
  lemma DirectBinding(p: Bits6)
    requires PrimaryTable(p).Direct?
    ensures CopOf(PrimaryTable(p).op.shape) ==
      if 0x30 <= p < 0x34 then Some(p - 0x30) else if 0x38 <= p < 0x3c then Some(p - 0x38) else None
  {
    if p < 0x30 {
      var op := PrimaryTable(p).op;
      assert op in PrimaryOpcodes;
      PrimaryOpcodesUnbound(op);
    }
  }

  /** No opcode of the primary list belongs to a coprocessor. */
  lemma PrimaryOpcodesUnbound(op: Opcode)
    requires op in PrimaryOpcodes
    ensures CopOf(op.shape).None?
  {
  }

  /**
   A decoded word is bound to coprocessor n exactly when its primary field is
   one of n's three primaries.
   */
  lemma DecodedBinding(n: CopId, w: Word)
    requires Decode(w).Resolved?
    ensures CopOf(Decode(w).opcode.shape) == Some(n) <==> CopPrimaryOf(Primary(w), n)
  {
    var p := Primary(w);
    match PrimaryTable(p)
    case Direct(op) =>
      DirectBinding(p);
    case ViaSecondary =>
    case ViaBranchZero =>
    case ViaCoprocessor(m) =>
      DecodeViaCoprocessor(m, w);
      CopGroupBinding(m, Decode(w).opcode);
  }

  /** Coprocessor n's transfer table entry for a register transfer word. */
  lemma TransferDecoded(n: CopId, w: Word)
    requires Primary(w) == CopPrimary(n) && ExecBit(w) == 0
    requires CopTable(n, CopDiscriminator(w)).CopTransfer?
    ensures Decode(w) == Instantiate(CopTable(n, CopDiscriminator(w)).op, w)
  {
    DecodeViaCoprocessor(n, w);
  }

  /**
   A register transfer of coprocessor n (bit 25 clear, discriminator 0, 2, 4 or 6)
   reads its general-purpose register from rt and its coprocessor register from
   rd: from n's data catalog for mfc and mtc, from n's control catalog for cfc and ctc.
   */
  lemma TransferOperands(n: CopId, w: Word)
    requires Primary(w) == CopPrimary(n) && ExecBit(w) == 0
    requires var d := CopDiscriminator(w); d == 0 || d == 2 || d == 4 || d == 6
    ensures Decode(w).Resolved?
    ensures var i, d := Decode(w), CopDiscriminator(w);
      && (d == 0 ==> i.opcode == Mfc(n))
      && (d == 2 ==> i.opcode == Cfc(n))
      && (d == 4 ==> i.opcode == Mtc(n))
      && (d == 6 ==> i.opcode == Ctc(n))
      && i.args == Args(None, Some(Cpu(Rt(w))),
        Some(CopRegisters(n, if d == 0 || d == 4 then DataRegisters else ControlRegisters)[Rd(w)]), None)
  {
    var d := CopDiscriminator(w);
    var op := CopTable(n, d).op;
    TransferDecoded(n, w);
    TransferArgs(n, d, op.shape.catalog, w);
  }

  lemma TransferArgs(n: CopId, d: Bits4, c: Catalog, w: Word)
    ensures DecodeArgs(CopRegister(n, d, c), w) == Args(None, Some(Cpu(Rt(w))), Some(CopRegisters(n, c)[Rd(w)]), None)
  {
    assert DecodeArgs(CopRegister(n, d, c), w) == CopRegisterArgs(n, d, c, w);
  }

  /**
   `lwc n` (primary 0x30+n) and `swc n` (primary 0x38+n) read their base from the
   general-purpose file and their data register from coprocessor n's data catalog.
   */
  lemma LoadStoreOperands(n: CopId, w: Word)
    requires Primary(w) == 0x30 + n || Primary(w) == 0x38 + n
    ensures Decode(w) == Resolved(
      if Primary(w) < 0x38 then Lwc(n) else Swc(n),
      Args(Some(Cpu(Rs(w))), Some(CopRegisters(n, DataRegisters)[Rt(w)]), None, Some(SignExtend16(Low16(w)))))
  {
    var op := if Primary(w) < 0x38 then Lwc(n) else Swc(n);
    assert PrimaryTable(Primary(w)) == Direct(op);
    DecodeDirect(op, w);
    LoadStoreArgs(n, w);
  }

  lemma LoadStoreArgs(n: CopId, w: Word)
    ensures DecodeArgs(CopLoadStore(n), w) ==
      Args(Some(Cpu(Rs(w))), Some(CopRegisters(n, DataRegisters)[Rt(w)]), None, Some(SignExtend16(Low16(w))))
  {
    assert DecodeArgs(CopLoadStore(n), w) == CopLoadStoreArgs(n, w);
  }
}
