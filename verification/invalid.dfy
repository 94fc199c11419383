/**
 Which words decode to an invalid instruction, with which cause, and how an
 invalid instruction behaves: it keeps its word, reports no operands and
 prints as "invalid".
 */
module InvalidWords {
  import opened Wrappers
  import opened Fields
  import Text
  import opened Opcodes
  import opened Decoder
  import Codec

  /** Every registry opcode's primary field selects something in the primary table. */
  lemma RegistryPrimaryMapped(op: Opcode)
    requires op in Registry()
    ensures !PrimaryTable(op.primary).Unmapped?
  {
    if op in SecondaryOpcodes {
      Codec.SecondaryKeyed(op);
    } else if op in BranchZeroOpcodes {
      Codec.BranchZeroKeyed(op);
    } else if op in PrimaryOpcodes {
      Codec.PrimaryKeyed(op);
    } else {
      var n: CopId :| op in CopOpcodes(n);
      Codec.CopKeyed(n, op);
    }
  }

  /** The primary table leaves a value unmapped exactly when no registry opcode has that primary field. */
  lemma UnmappedPrimaryIff(p: Bits6)
    ensures PrimaryTable(p).Unmapped? <==> forall op | op in Registry() :: op.primary != p
  {
    if PrimaryTable(p).Unmapped? {
      forall op | op in Registry() ensures op.primary != p {
        RegistryPrimaryMapped(op);
      }
    } else {
      var found: Opcode;
      match PrimaryTable(p) {
        case Direct(op) => DirectInRegistry(p); found := op;
        case ViaSecondary => found := Sll;
        case ViaBranchZero => found := Bltz;
        case ViaCoprocessor(n) => found := Mfc(n); assert found in CopOpcodes(n);
      }
      assert found in Registry() && found.primary == p;
    }
  }

  /** A word whose primary field no registry opcode has is invalid, and the cause names the field. */
  lemma InvalidPrimary(w: Word)
    requires forall op | op in Registry() :: op.primary != Primary(w)
    ensures Decode(w) == Unresolved(w, "Invalid primary opcode 0x" + Text.FormatHex(Primary(w), 2))
  {
    UnmappedPrimaryIff(Primary(w));
    DecodeUnmapped(w);
  }

  /** The SPECIAL table has no entry for `f` exactly when no SPECIAL opcode has function code `f`. */
  lemma SecondaryMissingIff(f: Bits6)
    ensures SecondaryTable(f).None? <==> forall op | op in SecondaryOpcodes :: op.shape.code != f
  {
    if SecondaryTable(f).Some? {
      SecondaryInRegistry(f);
    } else {
      forall op | op in SecondaryOpcodes ensures op.shape.code != f {
        Codec.SecondaryKeyed(op);
      }
    }
  }

  /** A SPECIAL word (primary 0) is invalid exactly when no SPECIAL opcode has its function code. */
  lemma InvalidSecondaryIff(w: Word)
    requires Primary(w) == 0
    ensures Decode(w).Unresolved? <==> forall op | op in SecondaryOpcodes :: op.shape.code != Funct(w)
    ensures Decode(w).Unresolved? ==>
      Decode(w).cause == "Invalid secondary opcode 0x" + Text.FormatHex(Funct(w), 2)
  {
    DecodeSecondary(w);
    SecondaryMissingIff(Funct(w));
  }

  /** The bXXz table has no entry for `d` exactly when no bXXz opcode has discriminator `d`. */
  lemma BranchZeroMissingIff(d: Bits5)
    ensures BranchZeroTable(d).None? <==> forall op | op in BranchZeroOpcodes :: op.shape.discriminator != d
  {
    if BranchZeroTable(d).None? {
      forall op | op in BranchZeroOpcodes ensures op.shape.discriminator != d {
        Codec.BranchZeroKeyed(op);
      }
    }
  }

  /** A REGIMM word (primary 1) is invalid exactly when no bXXz opcode has its rt discriminator. */
  lemma InvalidBranchZeroIff(w: Word)
    requires Primary(w) == 1
    ensures Decode(w).Unresolved? <==> forall op | op in BranchZeroOpcodes :: op.shape.discriminator != Rt(w)
    ensures Decode(w).Unresolved? ==>
      Decode(w).cause == "Invalid bXXz discriminator 0x" + Text.FormatHex(Rt(w), 2)
  {
    DecodeBranchZero(w);
    BranchZeroMissingIff(Rt(w));
  }

  /**
   A coprocessor branch word (primary 0x10+n, bit 25 clear, bits 24:21 = 8) is
   invalid exactly when its branch type is neither 0 nor 1.
   */
  lemma InvalidCopBranchIff(n: CopId, w: Word)
    requires Primary(w) == CopPrimary(n) && ExecBit(w) == 0 && CopDiscriminator(w) == CopBranchDiscriminator
    ensures Decode(w).Unresolved? <==> Rt(w) > 1
    ensures Decode(w).Unresolved? ==> Decode(w).cause == "Invalid cop branch type 0x" + Text.FormatHex(Rt(w), 0)
  {
    DecodeViaCoprocessor(n, w);
    assert CopTable(n, CopDiscriminator(w)) == CopBranchGroup;
    assert DecodeCoprocessor(n, w) == DecodeCopBranch(n, w);
  }

  /**
   A coprocessor word with bit 25 clear is invalid exactly when its discriminator
   is reserved (not 0, 2, 4, 6 or 8); the cause is then empty.
   */
  lemma InvalidCopDiscriminatorIff(n: CopId, w: Word)
    requires Primary(w) == CopPrimary(n) && ExecBit(w) == 0 && CopDiscriminator(w) != CopBranchDiscriminator
    ensures Decode(w).Unresolved? <==> CopDiscriminator(w) !in {0, 2, 4, 6}
    ensures Decode(w).Unresolved? ==> Decode(w).cause == ""
  {
    DecodeViaCoprocessor(n, w);
  }

  /** A coprocessor word with bit 25 set always decodes, to that coprocessor's execute command. */
  lemma CopExecuteAlwaysValid(n: CopId, w: Word)
    requires Primary(w) == CopPrimary(n) && ExecBit(w) == 1
    ensures Decode(w) == Resolved(Cop(n), Args(None, None, None, Some(Low25(w))))
  {
    DecodeViaCoprocessor(n, w);
  }

  /** Decoding succeeds exactly when some registry opcode's keys hold in the word. */
  lemma ValidIff(w: Word)
    ensures Decode(w).Resolved? <==> exists op | op in Registry() :: Matches(op, w)
  {
    if op :| op in Registry() && Matches(op, w) {
      Codec.DecodeComplete(op, w);
    }
  }

  /**
   An invalid instruction keeps its word: it encodes to it, reports the word's
   primary field, has no operands and prints as "invalid" at any address.
   */
  lemma InvalidBehaviour(w: Word, pc: int)
    requires Decode(w).Unresolved?
    ensures var i := Decode(w);
      && !i.IsValid() && i.Name() == "invalid" && i.ArgsNumber() == 0 && i.Operands() == NoArgs
      && i.Encode() == w && i.PrimaryOpcode() == Primary(w) && i.ToString(pc) == "invalid"
  {
  }

  /** A valid instruction reports its opcode's name, operand count and primary field. */
  lemma ValidBehaviour(w: Word)
    requires Decode(w).Resolved?
    ensures var i := Decode(w);
      && i.IsValid() && i.Name() == i.opcode.name && 1 <= i.ArgsNumber() <= 3
      && i.PrimaryOpcode() == Primary(w)
  {
  }
}
