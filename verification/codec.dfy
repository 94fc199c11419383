/**
 The two round trips of the codec. Encoding the operands of any registry
 opcode and decoding the word gives back that opcode and those operands; and
 encoding what a word decodes to gives back the word with the fields its
 opcode ignores cleared. Both go through `Layout`, the field-by-field picture
 of the word an opcode and its operands stand for.
 */
module Codec {
  import opened Wrappers
  import opened Fields
  import Registers
  import opened Opcodes
  import opened Decoder

  /** Every register operand of canonical operands has an index that fits a 5-bit field. */
  lemma OperandBounds(s: Shape, a: Args)
    requires Canonical(s, a)
    ensures a.rs.Some? ==> Indexed(a.rs) && Index(a.rs) < 32
    ensures a.rt.Some? ==> Indexed(a.rt) && Index(a.rt) < 32
    ensures a.rd.Some? ==> Indexed(a.rd) && Index(a.rd) < 32
  {
  }

  /**
   The word an opcode and its operands stand for, field by field: the primary,
   the key fields of the shape, each operand in its field and zero elsewhere.
   */
  function Layout(op: Opcode, a: Args): Word
    requires Canonical(op.shape, a)
  {
    OperandBounds(op.shape, a);
    var p := op.primary;
    match op.shape
    case Secondary(form, c) => (
      match form
      case ShiftImm => Pack(p, 0, Index(a.rt), Index(a.rd), a.imm.value, c)
      case ShiftReg => Pack(p, Index(a.rs), Index(a.rt), Index(a.rd), 0, c)
      case JumpReg => Pack(p, Index(a.rs), 0, 0, 0, c)
      case JumpAndLinkReg => Pack(p, Index(a.rs), 0, Index(a.rd), 0, c)
      case Exception => CodeWord(p, a.imm.value, c)
      case MoveFrom => Pack(p, 0, 0, Index(a.rd), 0, c)
      case MoveTo => Pack(p, Index(a.rs), 0, 0, 0, c)
      case MulDiv => Pack(p, Index(a.rs), Index(a.rt), 0, 0, c)
      case AluReg => Pack(p, Index(a.rs), Index(a.rt), Index(a.rd), 0, c))
    case BranchZeroDiscriminated(d) => Immediate(p, Index(a.rs), d, Imm16(a.imm))
    case JumpImmediate => JumpWord(p, a.imm.value)
    case BranchCompare => Immediate(p, Index(a.rs), Index(a.rt), Imm16(a.imm))
    case BranchZero => Immediate(p, Index(a.rs), 0, Imm16(a.imm))
    case AluSignedImm => Immediate(p, Index(a.rs), Index(a.rt), Imm16(a.imm))
    case AluUnsignedImm => Immediate(p, Index(a.rs), Index(a.rt), Imm16(a.imm))
    case LoadUpperImm => Immediate(p, 0, Index(a.rt), Imm16(a.imm))
    case LoadStore => Immediate(p, Index(a.rs), Index(a.rt), Imm16(a.imm))
    case CopRegister(_, d, _) => Pack(p, d, Index(a.rt), Index(a.rd), 0, 0)
    case CopBranch(_, t) => Immediate(p, CopBranchDiscriminator, t, Imm16(a.imm))
    case CopExecute(_) => ExecuteWord(p, a.imm.value)
    case CopLoadStore(_) => Immediate(p, Index(a.rs), Index(a.rt), Imm16(a.imm))
  }

  /** A general-purpose operand is the catalog entry its index names. */
  lemma CpuOperandRoundTrip(r: Option<Register>)
    requires CpuOperand(r)
    ensures Indexed(r) && Index(r) < 32 && Some(Cpu(Index(r))) == r
  {
  }

  /** A coprocessor operand is the entry its index names in the catalog it came from. */
  lemma CopOperandRoundTrip(r: Option<Register>, n: CopId, c: Catalog)
    requires CopOperand(r, n, c)
    ensures Indexed(r) && Index(r) < 32 && Some(CopRegisters(n, c)[Index(r)]) == r
  {
  }

  /** A signed 16-bit immediate survives its two's-complement field. */
  lemma SignedImmRoundTrip(i: Option<int>)
    requires SignedImm16(i)
    ensures Some(SignExtend16(Imm16(i))) == i
  {
    SignExtendTruncate(i.value);
  }

  /** An unsigned 16-bit immediate is its own field. */
  lemma UnsignedImmRoundTrip(i: Option<int>)
    requires UnsignedImm(i, 0x1_0000)
    ensures Imm16(i) == i.value
  {
  }

  lemma SecondaryLayoutDecodes(op: Opcode, a: Args)
    requires op.shape.Secondary? && Canonical(op.shape, a)
    ensures Matches(op, Layout(op, a))
    ensures DecodeArgs(op.shape, Layout(op, a)) == a
  {
    if a.rs.Some? { CpuOperandRoundTrip(a.rs); }
    if a.rt.Some? { CpuOperandRoundTrip(a.rt); }
    if a.rd.Some? { CpuOperandRoundTrip(a.rd); }
  }

  lemma ImmediateLayoutDecodes(op: Opcode, a: Args)
    requires Canonical(op.shape, a)
    requires op.shape.BranchZeroDiscriminated? || op.shape.BranchCompare? || op.shape.BranchZero?
      || op.shape.AluSignedImm? || op.shape.LoadStore? || op.shape.CopBranch?
    ensures Matches(op, Layout(op, a))
    ensures DecodeArgs(op.shape, Layout(op, a)) == a
  {
    if a.rs.Some? { CpuOperandRoundTrip(a.rs); }
    if a.rt.Some? { CpuOperandRoundTrip(a.rt); }
    SignedImmRoundTrip(a.imm);
  }

  lemma UnsignedLayoutDecodes(op: Opcode, a: Args)
    requires Canonical(op.shape, a)
    requires op.shape.AluUnsignedImm? || op.shape.LoadUpperImm?
    ensures Matches(op, Layout(op, a))
    ensures DecodeArgs(op.shape, Layout(op, a)) == a
  {
    if a.rs.Some? { CpuOperandRoundTrip(a.rs); }
    CpuOperandRoundTrip(a.rt);
    UnsignedImmRoundTrip(a.imm);
  }

  lemma CopLoadStoreLayoutDecodes(op: Opcode, a: Args)
    requires op.shape.CopLoadStore? && Canonical(op.shape, a)
    ensures Matches(op, Layout(op, a))
    ensures DecodeArgs(op.shape, Layout(op, a)) == a
  {
    CpuOperandRoundTrip(a.rs);
    CopOperandRoundTrip(a.rt, op.shape.cop, DataRegisters);
    SignedImmRoundTrip(a.imm);
  }

  lemma CopRegisterLayoutDecodes(op: Opcode, a: Args)
    requires op.shape.CopRegister? && Canonical(op.shape, a)
    ensures Matches(op, Layout(op, a))
    ensures DecodeArgs(op.shape, Layout(op, a)) == a
  {
    CpuOperandRoundTrip(a.rt);
    CopOperandRoundTrip(a.rd, op.shape.cop, op.shape.catalog);
    var w := Layout(op, a);
    assert w == Pack(op.primary, op.shape.selector, Index(a.rt), Index(a.rd), 0, 0);
    assert Rt(w) == Index(a.rt) && Rd(w) == Index(a.rd);
    Decompose(w);
  }

  /** Reading the layout back: the word carries the opcode's keys and decodes to the same operands. */
  lemma LayoutDecodes(op: Opcode, a: Args)
    requires Canonical(op.shape, a)
    ensures Matches(op, Layout(op, a))
    ensures DecodeArgs(op.shape, Layout(op, a)) == a
  {
    match op.shape
    case Secondary(_, _) => SecondaryLayoutDecodes(op, a);
    case AluUnsignedImm => UnsignedLayoutDecodes(op, a);
    case LoadUpperImm => UnsignedLayoutDecodes(op, a);
    case CopLoadStore(_) => CopLoadStoreLayoutDecodes(op, a);
    case CopRegister(_, _, _) => CopRegisterLayoutDecodes(op, a);
    case JumpImmediate =>
    case CopExecute(_) =>
    case _ => ImmediateLayoutDecodes(op, a);
  }

  /** The bits of a SPECIAL word once the function code is or-ed in last. */
  lemma SecondaryTail(p: nat, x: nat, c: nat)
    requires p < 64 && x < 0x400_0000 && x % 64 == 0 && c < 64
    ensures Or(Or(p * 0x400_0000, x), c) == p * 0x400_0000 + x + c
  {
    Pow2Constants();
    OrAt(p, 0x400_0000, 26, x);
    var q := p * 0x10_0000 + x / 64;
    assert q * 64 == p * 0x400_0000 + x;
    OrAt(q, 64, 6, c);
  }

  /** rs, rt and rd or-ed into their fields add. */
  lemma RegisterTriple(s: nat, t: nat, d: nat)
    requires s < 32 && t < 32 && d < 32
    ensures Or(Or(s * 0x20_0000, t * 0x1_0000), d * 0x800) == s * 0x20_0000 + t * 0x1_0000 + d * 0x800
  {
    RegisterPair(s, t);
    Pow2Constants();
    OrAt(s * 32 + t, 0x1_0000, 16, d * 0x800);
  }

  /** rs and rt or-ed into their fields add. */
  lemma RegisterPair(s: nat, t: nat)
    requires s < 32 && t < 32
    ensures Or(s * 0x20_0000, t * 0x1_0000) == s * 0x20_0000 + t * 0x1_0000
  {
    Pow2Constants();
    OrAt(s, 0x20_0000, 21, t * 0x1_0000);
  }

  /** rs and rd or-ed into their fields add. */
  lemma SourceDestination(s: nat, d: nat)
    requires s < 32 && d < 32
    ensures Or(s * 0x20_0000, d * 0x800) == s * 0x20_0000 + d * 0x800
  {
    Pow2Constants();
    OrAt(s, 0x20_0000, 21, d * 0x800);
  }

  /** rt, rd and a shift amount or-ed into their fields add. */
  lemma ShiftTriple(t: nat, d: nat, h: nat)
    requires t < 32 && d < 32 && h < 32
    ensures Or(Or(t * 0x1_0000, d * 0x800), h * 0x40) == t * 0x1_0000 + d * 0x800 + h * 0x40
  {
    Pow2Constants();
    OrAt(t, 0x1_0000, 16, d * 0x800);
    OrAt(t * 32 + d, 0x800, 11, h * 0x40);
  }

  /** rs, rt and a 16-bit immediate or-ed into their fields add. */
  lemma RegisterPairImmediate(s: nat, t: nat, u: nat)
    requires s < 32 && t < 32 && u < 0x1_0000
    ensures Or(Or(s * 0x20_0000, t * 0x1_0000), u) == s * 0x20_0000 + t * 0x1_0000 + u
  {
    RegisterPair(s, t);
    Pow2Constants();
    OrAt(s * 32 + t, 0x1_0000, 16, u);
  }

  /** The operand bits of `s` as a sum: each operand shifted to its field. */
  function OperandSum(s: Shape, a: Args): nat
    requires Canonical(s, a)
  {
    OperandBounds(s, a);
    match s
    case Secondary(form, _) => (
      match form
      case ShiftImm => Index(a.rt) * 0x1_0000 + Index(a.rd) * 0x800 + a.imm.value * 0x40
      case ShiftReg => Index(a.rs) * 0x20_0000 + Index(a.rt) * 0x1_0000 + Index(a.rd) * 0x800
      case JumpReg => Index(a.rs) * 0x20_0000
      case JumpAndLinkReg => Index(a.rs) * 0x20_0000 + Index(a.rd) * 0x800
      case Exception => a.imm.value * 0x40
      case MoveFrom => Index(a.rd) * 0x800
      case MoveTo => Index(a.rs) * 0x20_0000
      case MulDiv => Index(a.rs) * 0x20_0000 + Index(a.rt) * 0x1_0000
      case AluReg => Index(a.rs) * 0x20_0000 + Index(a.rt) * 0x1_0000 + Index(a.rd) * 0x800)
    case BranchZeroDiscriminated(_) => Index(a.rs) * 0x20_0000 + Imm16(a.imm)
    case JumpImmediate => a.imm.value
    case BranchZero => Index(a.rs) * 0x20_0000 + Imm16(a.imm)
    case LoadUpperImm => Index(a.rt) * 0x1_0000 + Imm16(a.imm)
    case CopRegister(_, _, _) => Index(a.rt) * 0x1_0000 + Index(a.rd) * 0x800
    case CopBranch(_, _) => Imm16(a.imm)
    case CopExecute(_) => a.imm.value
    case _ => Index(a.rs) * 0x20_0000 + Index(a.rt) * 0x1_0000 + Imm16(a.imm)
  }

  /** The ors of a SPECIAL operand encoding add, because every operand has a field of its own. */
  lemma SecondaryOperandsAdd(s: Shape, a: Args)
    requires s.Secondary? && Canonical(s, a)
    ensures Encodable(s, a) && EncodeArgs(s, a) == OperandSum(s, a) < 0x400_0000
  {
    OperandBounds(s, a);
    match s.form
    case ShiftImm => ShiftTriple(Index(a.rt), Index(a.rd), a.imm.value);
    case ShiftReg => RegisterTriple(Index(a.rs), Index(a.rt), Index(a.rd));
    case JumpAndLinkReg => SourceDestination(Index(a.rs), Index(a.rd));
    case MulDiv => RegisterPair(Index(a.rs), Index(a.rt));
    case AluReg => RegisterTriple(Index(a.rs), Index(a.rt), Index(a.rd));
    case _ =>
  }

  /** The operands of a SPECIAL word leave the function field clear. */
  lemma SecondaryAligned(s: Shape, a: Args)
    requires s.Secondary? && Canonical(s, a)
    ensures OperandSum(s, a) % 64 == 0
  {
    OperandBounds(s, a);
    var rs, rt, rd := if a.rs.Some? then Index(a.rs) else 0, if a.rt.Some? then Index(a.rt) else 0,
      if a.rd.Some? then Index(a.rd) else 0;
    var h := if a.imm.Some? && a.imm.value >= 0 then a.imm.value else 0;
    var y: nat := match s.form
      case ShiftImm => rt * 0x400 + rd * 0x20 + h
      case ShiftReg => rs * 0x8000 + rt * 0x400 + rd * 0x20
      case JumpReg => rs * 0x8000
      case JumpAndLinkReg => rs * 0x8000 + rd * 0x20
      case Exception => h
      case MoveFrom => rd * 0x20
      case MoveTo => rs * 0x8000
      case MulDiv => rs * 0x8000 + rt * 0x400
      case AluReg => rs * 0x8000 + rt * 0x400 + rd * 0x20;
    assert OperandSum(s, a) == y * 64;
  }

  /** The ors of any other operand encoding add. */
  lemma OtherOperandsAdd(s: Shape, a: Args)
    requires !s.Secondary? && Canonical(s, a)
    ensures Encodable(s, a) && EncodeArgs(s, a) == OperandSum(s, a) < 0x400_0000
  {
    OperandBounds(s, a);
    Pow2Constants();
    match s
    case BranchZeroDiscriminated(_) => OrAt(Index(a.rs), 0x20_0000, 21, Imm16(a.imm));
    case BranchZero => OrAt(Index(a.rs), 0x20_0000, 21, Imm16(a.imm));
    case LoadUpperImm => OrAt(Index(a.rt), 0x1_0000, 16, Imm16(a.imm));
    case CopRegister(_, _, _) => OrAt(Index(a.rt), 0x1_0000, 16, Index(a.rd) * 0x800);
    case JumpImmediate =>
    case CopBranch(_, _) =>
    case CopExecute(_) =>
    case BranchCompare => RegisterPairImmediate(Index(a.rs), Index(a.rt), Imm16(a.imm));
    case AluSignedImm => RegisterPairImmediate(Index(a.rs), Index(a.rt), Imm16(a.imm));
    case AluUnsignedImm => RegisterPairImmediate(Index(a.rs), Index(a.rt), Imm16(a.imm));
    case LoadStore => RegisterPairImmediate(Index(a.rs), Index(a.rt), Imm16(a.imm));
    case CopLoadStore(_) => RegisterPairImmediate(Index(a.rs), Index(a.rt), Imm16(a.imm));
  }

  lemma OperandsAdd(s: Shape, a: Args)
    requires Canonical(s, a)
    ensures Encodable(s, a) && EncodeArgs(s, a) == OperandSum(s, a) < 0x400_0000
  {
    if s.Secondary? { SecondaryOperandsAdd(s, a); } else { OtherOperandsAdd(s, a); }
  }

  /** Or-ing a 5-bit key into the field just above the low bits `y` of `w` places it there. */
  lemma InsertField(w: nat, q: nat, y: nat, d: nat, m: nat, k: nat)
    requires m == Pow2(k) && y < m && d < 32 && w == q * 32 * m + y
    ensures Or(w, d * m) == (q * 32 + d) * m + y
  {
    OrConcatAt(q * 32, y, d, 0, m, k);
    OrZero(y);
    Pow2Constants();
    OrAt(q, 32, 5, d);
  }

  /** Or-ing the execute flag into bit 25 below the primary field. */
  lemma InsertExecuteFlag(w: nat, p: nat, x: nat)
    requires x < 0x200_0000 && w == p * 0x400_0000 + x
    ensures Or(w, 0x200_0000) == p * 0x400_0000 + 0x200_0000 + x
  {
    Pow2Constants();
    OrConcatAt(p * 2, x, 1, 0, 0x200_0000, 25);
    OrZero(x);
    assert Pow2(1) == 2;
    OrAt(p, 2, 1, 1);
  }

  lemma SecondaryIsLayout(op: Opcode, a: Args)
    requires op.shape.Secondary? && Canonical(op.shape, a)
    ensures Encodable(op.shape, a) && Assemble(op, a) == Layout(op, a)
  {
    SecondaryOperandsAdd(op.shape, a);
    SecondaryAligned(op.shape, a);
    SecondaryTail(op.primary, OperandSum(op.shape, a), op.shape.code);
    SecondaryLayoutSum(op, a);
  }

  /** A SPECIAL layout is the primary, the operand bits and the function code, added. */
  lemma SecondaryLayoutSum(op: Opcode, a: Args)
    requires op.shape.Secondary? && Canonical(op.shape, a)
    ensures Layout(op, a) == op.primary * 0x400_0000 + OperandSum(op.shape, a) + op.shape.code
  {
    OperandBounds(op.shape, a);
  }

  lemma PlainIsLayout(op: Opcode, a: Args)
    requires DirectShape(op.shape) && Canonical(op.shape, a)
    ensures Encodable(op.shape, a) && Assemble(op, a) == Layout(op, a)
  {
    OperandsAdd(op.shape, a);
    Pow2Constants();
    OrAt(op.primary, 0x400_0000, 26, OperandSum(op.shape, a));
  }

  lemma BranchZeroIsLayout(op: Opcode, a: Args)
    requires op.shape.BranchZeroDiscriminated? && Canonical(op.shape, a)
    ensures Encodable(op.shape, a) && Assemble(op, a) == Layout(op, a)
  {
    OperandBounds(op.shape, a);
    OperandsAdd(op.shape, a);
    Pow2Constants();
    var p: nat, x := op.primary, OperandSum(op.shape, a);
    var base := Or(p * 0x400_0000, EncodeArgs(op.shape, a));
    OrAt(p, 0x400_0000, 26, x);
    InsertField(base, p * 32 + Index(a.rs), Imm16(a.imm), op.shape.discriminator, 0x1_0000, 16);
  }

  lemma CopRegisterIsLayout(op: Opcode, a: Args)
    requires op.shape.CopRegister? && Canonical(op.shape, a)
    ensures Encodable(op.shape, a) && Assemble(op, a) == Layout(op, a)
  {
    OperandBounds(op.shape, a);
    OperandsAdd(op.shape, a);
    Pow2Constants();
    var p: nat, x := op.primary, OperandSum(op.shape, a);
    var base := Or(p * 0x400_0000, EncodeArgs(op.shape, a));
    OrAt(p, 0x400_0000, 26, x);
    InsertField(base, p, x, op.shape.selector, 0x20_0000, 21);
  }

  lemma CopBranchIsLayout(op: Opcode, a: Args)
    requires op.shape.CopBranch? && Canonical(op.shape, a)
    ensures Encodable(op.shape, a) && Assemble(op, a) == Layout(op, a)
  {
    OperandsAdd(op.shape, a);
    Pow2Constants();
    var p: nat, x := op.primary, OperandSum(op.shape, a);
    var base := Or(p * 0x400_0000, EncodeArgs(op.shape, a));
    OrAt(p, 0x400_0000, 26, x);
    InsertField(base, p, x, CopBranchDiscriminator, 0x20_0000, 21);
    var keyed := Or(base, CopBranchDiscriminator * 0x20_0000);
    InsertField(keyed, p * 32 + CopBranchDiscriminator, x, op.shape.branchType, 0x1_0000, 16);
  }

  lemma CopExecuteIsLayout(op: Opcode, a: Args)
    requires op.shape.CopExecute? && Canonical(op.shape, a)
    ensures Encodable(op.shape, a) && Assemble(op, a) == Layout(op, a)
  {
    OperandsAdd(op.shape, a);
    Pow2Constants();
    var p: nat, x := op.primary, OperandSum(op.shape, a);
    var base := Or(p * 0x400_0000, EncodeArgs(op.shape, a));
    OrAt(p, 0x400_0000, 26, x);
    InsertExecuteFlag(base, p, x);
  }

  /** `encode` builds exactly the layout: the source's shifts and ors place each operand in its own field. */
  lemma AssembleIsLayout(op: Opcode, a: Args)
    requires Canonical(op.shape, a)
    ensures Encodable(op.shape, a) && Assemble(op, a) == Layout(op, a)
  {
    match op.shape
    case Secondary(_, _) => SecondaryIsLayout(op, a);
    case BranchZeroDiscriminated(_) => BranchZeroIsLayout(op, a);
    case CopRegister(_, _, _) => CopRegisterIsLayout(op, a);
    case CopBranch(_, _) => CopBranchIsLayout(op, a);
    case CopExecute(_) => CopExecuteIsLayout(op, a);
    case _ => PlainIsLayout(op, a);
  }

  /** The register fields of an R-type word, which a shape may leave unread. */
  datatype Field = RsField | RtField | RdField | ShamtField | FunctField

  /** The fields decoding ignores for a shape; encoding writes zeros there. */
  function Unused(s: Shape): set<Field>
  {
    match s
    case Secondary(form, _) => (
      match form
      case ShiftImm => {RsField}
      case ShiftReg => {ShamtField}
      case JumpReg => {RtField, RdField, ShamtField}
      case JumpAndLinkReg => {RtField, ShamtField}
      case Exception => {}
      case MoveFrom => {RsField, RtField, ShamtField}
      case MoveTo => {RtField, RdField, ShamtField}
      case MulDiv => {RdField, ShamtField}
      case AluReg => {ShamtField})
    case BranchZero => {RtField}
    case LoadUpperImm => {RsField}
    case CopRegister(_, _, _) => {ShamtField, FunctField}
    case _ => {}
  }

  /** `w` with the fields in `fs` set to zero and every other bit kept. */
  function Clear(w: Word, fs: set<Field>): (c: Word)
    ensures Primary(c) == Primary(w)
    ensures Rs(c) == (if RsField in fs then 0 else Rs(w))
    ensures Rt(c) == (if RtField in fs then 0 else Rt(w))
    ensures Rd(c) == (if RdField in fs then 0 else Rd(w))
    ensures Shamt(c) == (if ShamtField in fs then 0 else Shamt(w))
    ensures Funct(c) == (if FunctField in fs then 0 else Funct(w))
  {
    Pack(Primary(w),
      if RsField in fs then 0 else Rs(w),
      if RtField in fs then 0 else Rt(w),
      if RdField in fs then 0 else Rd(w),
      if ShamtField in fs then 0 else Shamt(w),
      if FunctField in fs then 0 else Funct(w))
  }

  /** Clearing changes nothing exactly when the cleared fields already hold zero. */
  lemma ClearKeepsZeros(w: Word, fs: set<Field>)
    ensures Clear(w, fs) == w <==>
      && (RsField in fs ==> Rs(w) == 0)
      && (RtField in fs ==> Rt(w) == 0)
      && (RdField in fs ==> Rd(w) == 0)
      && (ShamtField in fs ==> Shamt(w) == 0)
      && (FunctField in fs ==> Funct(w) == 0)
  {
    Decompose(w);
  }

  lemma SecondaryLayoutOfDecoded(op: Opcode, w: Word)
    requires op.shape.Secondary? && Matches(op, w)
    ensures Layout(op, DecodeArgs(op.shape, w)) == Clear(w, Unused(op.shape))
  {
    if op.shape.form.Exception? {
      Code20Sum(w);
      assert Layout(op, DecodeArgs(op.shape, w)) == CodeWord(Primary(w), Code20(w), Funct(w));
    }
  }

  lemma ImmediateLayoutOfDecoded(op: Opcode, w: Word)
    requires Matches(op, w)
    requires op.shape.BranchZeroDiscriminated? || op.shape.BranchCompare? || op.shape.BranchZero?
      || op.shape.AluSignedImm? || op.shape.LoadStore? || op.shape.CopLoadStore?
    ensures Layout(op, DecodeArgs(op.shape, w)) == Clear(w, Unused(op.shape))
  {
    var t := if op.shape.BranchZero? then 0 else Rt(w);
    assert Imm16(Some(SignExtend16(Low16(w)))) == Low16(w);
    assert Layout(op, DecodeArgs(op.shape, w)) == Immediate(Primary(w), Rs(w), t, Low16(w));
    Low16Sum(w);
    ImmediatePack(Primary(w), Rs(w), t, Rd(w), Shamt(w), Funct(w));
  }

  lemma JumpLayoutOfDecoded(op: Opcode, w: Word)
    requires op.shape.JumpImmediate? && Matches(op, w)
    ensures Layout(op, DecodeArgs(op.shape, w)) == Clear(w, Unused(op.shape))
  {
    Decompose(w);
  }

  lemma UnsignedLayoutOfDecoded(op: Opcode, w: Word)
    requires (op.shape.AluUnsignedImm? || op.shape.LoadUpperImm?) && Matches(op, w)
    ensures Layout(op, DecodeArgs(op.shape, w)) == Clear(w, Unused(op.shape))
  {
    var s := if op.shape.LoadUpperImm? then 0 else Rs(w);
    assert Imm16(Some(Low16(w))) == Low16(w);
    assert Layout(op, DecodeArgs(op.shape, w)) == Immediate(Primary(w), s, Rt(w), Low16(w));
    Low16Sum(w);
    ImmediatePack(Primary(w), s, Rt(w), Rd(w), Shamt(w), Funct(w));
  }

  lemma CopRegisterLayoutOfDecoded(op: Opcode, w: Word)
    requires op.shape.CopRegister? && Matches(op, w)
    ensures Layout(op, DecodeArgs(op.shape, w)) == Clear(w, Unused(op.shape))
  {
    CopSums(w);
    assert Rs(w) == op.shape.selector;
  }

  lemma CopExecuteLayoutOfDecoded(op: Opcode, w: Word)
    requires op.shape.CopExecute? && Matches(op, w)
    ensures Layout(op, DecodeArgs(op.shape, w)) == Clear(w, Unused(op.shape))
  {
    Decompose(w);
  }

  lemma CopBranchLayoutOfDecoded(op: Opcode, w: Word)
    requires op.shape.CopBranch? && Matches(op, w)
    ensures Layout(op, DecodeArgs(op.shape, w)) == Clear(w, Unused(op.shape))
  {
    CopSums(w);
    assert Rs(w) == CopBranchDiscriminator;
    assert Imm16(Some(SignExtend16(Low16(w)))) == Low16(w);
    assert Layout(op, DecodeArgs(op.shape, w)) == Immediate(Primary(w), Rs(w), Rt(w), Low16(w));
    Low16Sum(w);
    ImmediatePack(Primary(w), Rs(w), Rt(w), Rd(w), Shamt(w), Funct(w));
  }

  lemma LayoutOfDecoded(op: Opcode, w: Word)
    requires Matches(op, w)
    ensures Layout(op, DecodeArgs(op.shape, w)) == Clear(w, Unused(op.shape))
  {
    match op.shape
    case Secondary(_, _) => SecondaryLayoutOfDecoded(op, w);
    case CopBranch(_, _) => CopBranchLayoutOfDecoded(op, w);
    case JumpImmediate => JumpLayoutOfDecoded(op, w);
    case AluUnsignedImm => UnsignedLayoutOfDecoded(op, w);
    case LoadUpperImm => UnsignedLayoutOfDecoded(op, w);
    case CopRegister(_, _, _) => CopRegisterLayoutOfDecoded(op, w);
    case CopExecute(_) => CopExecuteLayoutOfDecoded(op, w);
    case _ => ImmediateLayoutOfDecoded(op, w);
  }

  /** Each SPECIAL opcode sits in the SPECIAL table under its own function code. */
  lemma SecondaryKeyed(op: Opcode)
    requires op in SecondaryOpcodes
    ensures op.primary == 0 && op.shape.Secondary? && SecondaryTable(op.shape.code) == Some(op)
  {
    if op in [Sll, Srl, Sra, Sllv, Srlv, Srav, Jr] { ShiftsKeyed(op); }
    else if op in [Jalr, Syscall, Break_, Mfhi, Mthi, Mflo, Mtlo] { SystemKeyed(op); }
    else if op in [Mult, Multu, Div, Divu, Add, Addu, Sub] { ArithmeticKeyed(op); }
    else { LogicKeyed(op); }
  }

  /** The SPECIAL table entries of the shifts and jr. */
  lemma ShiftsKeyed(op: Opcode)
    requires op in [Sll, Srl, Sra, Sllv, Srlv, Srav, Jr]
    ensures op.primary == 0 && op.shape.Secondary? && SecondaryTable(op.shape.code) == Some(op)
  {
  }

  /** The SPECIAL table entries of jalr, the exceptions and the HI/LO moves. */
  lemma SystemKeyed(op: Opcode)
    requires op in [Jalr, Syscall, Break_, Mfhi, Mthi, Mflo, Mtlo]
    ensures op.primary == 0 && op.shape.Secondary? && SecondaryTable(op.shape.code) == Some(op)
  {
  }

  /** The SPECIAL table entries of multiplication, division, add and sub. */
  lemma ArithmeticKeyed(op: Opcode)
    requires op in [Mult, Multu, Div, Divu, Add, Addu, Sub]
    ensures op.primary == 0 && op.shape.Secondary? && SecondaryTable(op.shape.code) == Some(op)
  {
  }

  /** The SPECIAL table entries of subu, the logic operations and the comparisons. */
  lemma LogicKeyed(op: Opcode)
    requires op in [Subu, And_, Or_, Xor, Nor, Slt, Sltu]
    ensures op.primary == 0 && op.shape.Secondary? && SecondaryTable(op.shape.code) == Some(op)
  {
  }

  /** Each REGIMM opcode sits in the bXXz table under its own discriminator. */
  lemma BranchZeroKeyed(op: Opcode)
    requires op in BranchZeroOpcodes
    ensures op.primary == 1 && op.shape.BranchZeroDiscriminated?
    ensures BranchZeroTable(op.shape.discriminator) == Some(op)
  {
  }

  /** Each opcode of the primary list sits in the primary table under its own primary. */
  lemma PrimaryKeyed(op: Opcode)
    requires op in PrimaryOpcodes
    ensures PrimaryTable(op.primary) == Direct(op)
  {
    if op in [J, Jal, Beq, Bne, Blez, Bgtz, Addi] { ControlKeyed(op); }
    else if op in [Addiu, Slti, Sltiu, Andi, Ori, Xori, Lui] { ImmediateKeyed(op); }
    else if op in [Lb, Lh, Lwl, Lw, Lbu, Lhu, Lwr] { LoadsKeyed(op); }
    else { StoresKeyed(op); }
  }

  /** The primary table entries of the jumps, the branches and addi. */
  lemma ControlKeyed(op: Opcode)
    requires op in [J, Jal, Beq, Bne, Blez, Bgtz, Addi]
    ensures PrimaryTable(op.primary) == Direct(op)
  {
  }

  /** The primary table entries of the other immediate arithmetic and lui. */
  lemma ImmediateKeyed(op: Opcode)
    requires op in [Addiu, Slti, Sltiu, Andi, Ori, Xori, Lui]
    ensures PrimaryTable(op.primary) == Direct(op)
  {
  }

  /** The primary table entries of the loads. */
  lemma LoadsKeyed(op: Opcode)
    requires op in [Lb, Lh, Lwl, Lw, Lbu, Lhu, Lwr]
    ensures PrimaryTable(op.primary) == Direct(op)
  {
  }

  /** The primary table entries of the stores. */
  lemma StoresKeyed(op: Opcode)
    requires op in [Sb, Sh, Swl, Sw, Swr]
    ensures PrimaryTable(op.primary) == Direct(op)
  {
  }

  /** A registry opcode is found again by decoding any word that carries its keys. */
  lemma DecodeComplete(op: Opcode, w: Word)
    requires op in Registry() && Matches(op, w)
    ensures Decode(w) == Resolved(op, DecodeArgs(op.shape, w))
  {
    if op in SecondaryOpcodes {
      SecondaryKeyed(op);
      DecodeSecondary(w);
    } else if op in BranchZeroOpcodes {
      BranchZeroKeyed(op);
      DecodeBranchZero(w);
    } else if op in PrimaryOpcodes {
      PrimaryKeyed(op);
      DecodeDirect(op, w);
    } else {
      var n: CopId :| op in CopOpcodes(n);
      CopDecodeComplete(n, op, w);
    }
  }

  /** Coprocessor `n`'s load/store opcodes sit directly in the primary table; the rest go through its own table. */
  lemma CopKeyed(n: CopId, op: Opcode)
    requires op in CopOpcodes(n)
    ensures op == Lwc(n) || op == Swc(n) ==> PrimaryTable(op.primary) == Direct(op)
    ensures op != Lwc(n) && op != Swc(n) ==> op.primary == CopPrimary(n) && PrimaryTable(op.primary) == ViaCoprocessor(n)
  {
  }

  /** The coprocessor part of `DecodeComplete`. */
  lemma CopDecodeComplete(n: CopId, op: Opcode, w: Word)
    requires op in CopOpcodes(n) && Matches(op, w)
    ensures Decode(w) == Resolved(op, DecodeArgs(op.shape, w))
  {
    if op.shape.CopLoadStore? {
      assert PrimaryTable(Primary(w)) == Direct(op);
      DecodeDirect(op, w);
    } else {
      DecodeViaCoprocessor(n, w);
      CopGroupDecodes(n, op, w);
    }
  }

  /** The opcodes of coprocessor n's own table are found again by that table. */
  lemma CopGroupDecodes(n: CopId, op: Opcode, w: Word)
    requires op in CopOpcodes(n) && !op.shape.CopLoadStore? && Matches(op, w)
    ensures DecodeCoprocessor(n, w) == Resolved(op, DecodeArgs(op.shape, w))
  {
    if op.shape.CopExecute? {
      assert op == Cop(n);
    } else if op.shape.CopBranch? {
      assert CopTable(n, CopDiscriminator(w)) == CopBranchGroup;
      assert op == if op.shape.branchType == 0 then Bcf(n) else Bct(n);
    } else {
      assert op in [Mfc(n), Cfc(n), Mtc(n), Ctc(n)];
      CopTransferKeyed(n, op, w);
    }
  }

  /** Each register transfer of coprocessor n sits in n's table under its own discriminator. */
  lemma CopTransferKeyed(n: CopId, op: Opcode, w: Word)
    requires op in [Mfc(n), Cfc(n), Mtc(n), Ctc(n)] && Matches(op, w)
    ensures CopTable(n, CopDiscriminator(w)) == CopTransfer(op)
  {
  }

  /** No word carries the keys of two different registry opcodes. */
  lemma MatchUnique(op1: Opcode, op2: Opcode, w: Word)
    requires op1 in Registry() && op2 in Registry()
    requires Matches(op1, w) && Matches(op2, w)
    ensures op1 == op2
  {
    DecodeComplete(op1, w);
    DecodeComplete(op2, w);
  }

  /**
   The encode-then-decode round trip: encoding a registry opcode with operands
   decoding could have produced gives a 32-bit word that decodes to that opcode
   and those operands.
   */
  lemma EncodeThenDecode(op: Opcode, a: Args)
    requires op in Registry() && Canonical(op.shape, a)
    ensures Encodable(op.shape, a) && Assemble(op, a) < 0x1_0000_0000
    ensures Decode(Assemble(op, a)) == Resolved(op, a)
  {
    AssembleIsLayout(op, a);
    LayoutDecodes(op, a);
    DecodeComplete(op, Layout(op, a));
  }

  /**
   The decode-then-encode round trip: re-encoding what a word decodes to gives
   the word back with the fields its opcode ignores cleared; an invalid word
   encodes as itself.
   */
  lemma DecodeThenEncode(w: Word)
    ensures var i := Decode(w);
      && (i.Resolved? ==> Encodable(i.opcode.shape, i.args))
      && (i.Resolved? ==> i.Encode() == Clear(w, Unused(i.opcode.shape)))
      && (i.Unresolved? ==> i.Encode() == w)
  {
    var i := Decode(w);
    if i.Resolved? {
      AssembleIsLayout(i.opcode, i.args);
      LayoutOfDecoded(i.opcode, w);
    }
  }

  /** A word whose unread fields are zero survives decoding and encoding unchanged. */
  lemma DecodeThenEncodeExact(w: Word)
    requires Decode(w).Resolved?
    requires var u := Unused(Decode(w).opcode.shape);
      && (RsField in u ==> Rs(w) == 0)
      && (RtField in u ==> Rt(w) == 0)
      && (RdField in u ==> Rd(w) == 0)
      && (ShamtField in u ==> Shamt(w) == 0)
      && (FunctField in u ==> Funct(w) == 0)
    ensures Encodable(Decode(w).opcode.shape, Decode(w).args) && Decode(w).Encode() == w
  {
    DecodeThenEncode(w);
    ClearKeepsZeros(w, Unused(Decode(w).opcode.shape));
  }
}
