# R3000 disassembler core and hex-editor cursor, in Dafny

This project models three pieces of a PlayStation (MIPS R3000) debugger front end:

- **The R3000 instruction codec** (`r3000/opcodes.py`). A 32-bit word is decoded
  by a table dispatch:
  - the primary field (bits 31:26) is read first;
  - SPECIAL words then dispatch on the function field (bits 5:0);
  - REGIMM words dispatch on the bXXz discriminator (bits 20:16);
  - coprocessor words test the execute flag (bit 25), then the discriminator
    (bits 24:21), then the branch type (bits 20:16).

  Every word decodes: to a registry opcode with its operands, or to an
  invalid instruction that keeps the word and names the offending field.
  Instructions re-encode to words and print as disassembly text against a
  program counter.
- **The register catalogs** (`r3000/registers.py`): the 32 general-purpose
  registers, and 32 data and 32 control registers for each of the four
  coprocessors, with their names, display aliases and indexes.
- **The hex editor's cursor and row arithmetic** (`ui/widgets/hex_editor_widget.py`):
  - `_Cursor`: a position, a selection anchor and a maximum position on a
    grid of rows, groups and nibbles; clamping; grid conversions; row bounds;
    and the byte-aligned selection snapping of `move_to`.
  - The row and maximum-position bookkeeping of `_Data`.

Modules, one concept each:

| module | file | contents |
|---|---|---|
| `Wrappers` | wrappers.dfy | `Option` |
| `Arithmetic` | arithmetic.dfy | uniqueness of Euclidean division |
| `Text` | text.dfy | Python's upper-case hex and decimal formatting, with the digit-value partner |
| `Registers` | registers.dfy | the register catalogs and the name/alias dictionaries |
| `Fields` | fields.dfy | 32-bit words, field extraction, sign extension, an exact model of `\|` on naturals |
| `Opcodes` | opcodes.dfy | the flat `Shape` datatype, the opcode registry, operand decoding, encoding and text |
| `Decoder` | decoder.dfy | the dispatch tables and `Decode` |
| `Codec` | codec.dfy | both round trips, completeness and uniqueness of the dispatch |
| `InvalidWords` | invalid.dfy | exactly which words are invalid, and their cause strings |
| `Rendering` | rendering.dfy | what the disassembly text says: immediates and addresses read back, branch/jump targets, `jalr`, `syscall`/`break` |
| `Coprocessors` | coprocessors.dfy | how the coprocessor opcodes bind to coprocessor n |
| `Vectors` | vectors.dfy | words from the codec's unit tests, worked through the model |
| `HexCursor` | hex_cursor.dfy | `_Cursor` |
| `HexData` | hex_data.dfy | `_Data` row arithmetic, and the anchor counterexample |
| `CursorExamples` | cursor_examples.dfy | the cursor cases of the editor's unit tests |

How the Python is represented:

- Words are naturals below 2^32. Python's `&`/`>>` field extraction is `/` and `%` by
  powers of two.
- Python's `|` is modelled exactly by `Fields.Or`. The proofs show that every
  or in `encode` adds disjoint fields.
- `ctypes.c_int16` and `c_uint16` are written out as sign extension and
  reduction modulo 2^16.
- Python's `//` and `%` floor. Every divisor here is positive, where flooring
  agrees with Dafny's Euclidean division.
- Targets and immediates are unbounded integers, as in Python.
- The execution context is reduced to the value of `pc`, passed as a parameter.
- `_Data.data_bytes` is reduced to its length.

`syscall` and `break` report one operand even when their code is 0 and the
text prints the bare mnemonic (`_OneArgMixin` in `r3000/opcodes.py`; the
cases at `r3000/tst/opcodes_test.py:19-20`): the code is an operand whether
or not it is printed, which `Opcodes.CanonicalCount` states for every shape.

## Model

| member | source | states |
|---|---|---|
| Registers.CpuByIndex | r3000/registers.py:34-47 | The CPU catalog has exactly 32 entries; entry i has index i, name "R" followed by i in decimal, and the i-th conventional alias |
| Registers.CopCatalog | r3000/registers.py:52-61 | A coprocessor catalog has 32 entries; entry i has index i and name "R{i+offset}"; its alias is the named one exactly where the map lists i, otherwise the fallback prefix ("datR" or "cntR") followed by i in decimal |
| Registers.CopDatByIndex | r3000/registers.py:72-85 | Four data catalogs of 32 entries each; entry i of every catalog has index i and name "R{i}" |
| Registers.CopCntByIndex | r3000/registers.py:86-96 | Four control catalogs of 32 entries each; entry i of every catalog has index i and name "R{i}" |
| Registers.DataAliases | r3000/registers.py:72-85 | Data register i of coprocessor n is aliased by the COP0/COP2 name table where that table lists i, and "datR{i}" everywhere else (all of COP1 and COP3) |
| Registers.ControlAliases | r3000/registers.py:86-96 | Control register i of coprocessor n is aliased by the COP2 name table where it lists i, and "cntR{i}" everywhere else |
| Registers.LookupLast | r3000/registers.py:48-49 | The last-wins dictionary built from a list: a hit carries the key and is in the list; a miss means no entry carries the key |
| Registers.LookupLastFinds | r3000/registers.py:48-49 | When no other entry shares its key, looking up an entry's key returns that entry |
| Registers.CpuAliasesUnique | r3000/registers.py:37-47 | No two CPU registers share an alias |
| Registers.CpuNamesUnique | r3000/registers.py:34-35 | No two CPU registers share a name |
| Registers.CpuByAliasInverts | r3000/registers.py:49 | `cpu_by_alias` inverts `cpu_by_index`: the alias of entry i finds entry i |
| Registers.CpuByNameInverts | r3000/registers.py:48 | `cpu_by_name` inverts `cpu_by_index`: "R{i}" finds entry i |
| Registers.CpuAliasNonEmpty | r3000/registers.py:10-11 | A CPU register displays as its alias, which has at least two characters |
| Registers.CpuAliasesFixed | r3000/registers.py:97-128 | zero is entry 0 named R0, sp is entry 29, ra is entry 31 named R31 |
| Registers.SpecialRegisters | r3000/registers.py:129-131 | pc, hi and lo carry no index, display as their names and are not CPU catalog entries |
| Text.Digits | r3000/opcodes.py:84-88 | Python's upper-case digit text of a natural: non-empty, only digits of the base, leading zero only for zero |
| Text.DigitsRoundTrip | r3000/opcodes.py:84-88 | The digit text reads back as the number it was made from |
| Text.DigitsLength | r3000/opcodes.py:76 | A value below base^k needs at most k digits |
| Text.ZeroPad | r3000/opcodes.py:76 | Zero padding to a width keeps the text as a suffix, only adds zeros, and reaches the width |
| Text.ZeroPadValue | r3000/opcodes.py:76 | Zero padding does not change the value the digits denote |
| Text.FormatHex | r3000/opcodes.py:789 | `{v:0wX}`: at least w characters; a non-negative value prints as hex digits reading back to v; a negative one as "-" then digits reading back to -v |
| Text.FormatHexWidth | r3000/opcodes.py:76 | A value below 16^w prints in exactly w digits |
| Text.DecimalInjective | r3000/registers.py:35 | Different numbers have different decimal text |
| Fields.Primary | r3000/opcodes.py:107-108 | The primary field is below 64 |
| Fields.Rs | r3000/opcodes.py:31-32 | The rs field is below 32 |
| Fields.Rt | r3000/opcodes.py:43-44 | The rt field is below 32 |
| Fields.Rd | r3000/opcodes.py:55-56 | The rd field is below 32 |
| Fields.Funct | r3000/opcodes.py:182-183 | The function field is below 64 |
| Fields.ExecBit | r3000/opcodes.py:448-449 | The execute flag is 0 or 1 |
| Fields.CopDiscriminator | r3000/opcodes.py:468-469 | The coprocessor discriminator is below 16 |
| Fields.Decompose | r3000/opcodes.py:31-68 | A word is exactly its six R-type fields stacked; the 16-, 20-, 25- and 26-bit fields are sums of the smaller ones |
| Fields.SignExtend16 | r3000/opcodes.py:63-64 | `c_int16`: the result lies in [-0x8000, 0x8000) and agrees with the field modulo 2^16 |
| Fields.SignExtendTruncate | r3000/opcodes.py:63-72 | A signed 16-bit value survives `c_uint16` truncation followed by `c_int16` sign extension |
| Fields.OrBounds | r3000/opcodes.py:104 | Bitwise or is at least each operand and at most their sum |
| Fields.OrDisjoint | r3000/opcodes.py:104 | Or-ing a value below 2^k into a multiple of 2^k adds them |
| Opcodes.CopPrimary | r3000/opcodes.py:438-441 | Coprocessor n's non-load/store primary is 0x10+n |
| Opcodes.OperandCount | r3000/opcodes.py:160-172 | Every shape reports between one and three operands |
| Opcodes.CanonicalCount | r3000/opcodes.py:160-172 | A shape's reported count is exactly the number of operands (rs, rt, rd, immediate) its argument sets fill in; `syscall`/`break` count their code even when it is zero |
| Opcodes.DecodedCount | r3000/opcodes.py:160-172 | Decoding a word as a shape fills in exactly as many operands as that shape reports |
| Opcodes.Cpu | r3000/opcodes.py:31-32 | A decoded general-purpose operand is a CPU catalog entry whose index is the field |
| Opcodes.CopRegisters | r3000/opcodes.py:579 | A coprocessor file has 32 entries, entry i with index i |
| Opcodes.DecodeArgs | r3000/opcodes.py:195-210 | Decoded operands are canonical for the shape, and each register operand's index is the field it was read from |
| Opcodes.CanonicalEncodable | r3000/opcodes.py:103-104 | Every operand set decoding produces can be encoded |
| Opcodes.Imm16 | r3000/opcodes.py:71-72 | `c_uint16`: the field is below 2^16 and congruent to the immediate |
| Opcodes.UnsignedImmText | r3000/opcodes.py:87-88 | "0x" followed by digits that read back to the value |
| Opcodes.SignedImmText | r3000/opcodes.py:83-84 | "0x" and digits of v when v >= 0, "-0x" and digits of -v otherwise, each reading back |
| Opcodes.PageBase | r3000/opcodes.py:357 | `pc & 0xF0000000` is a multiple of 2^28 below 2^32, and the start of pc's 256 MiB region |
| Opcodes.AddressText | r3000/opcodes.py:75-76 | `0x%08X`: "0x" and at least eight digits that read back to the address, exactly eight for a 32-bit address |
| Opcodes.Disassemble | r3000/opcodes.py:97-101 | The text starts with the mnemonic; it is the bare mnemonic exactly when the operand text is empty, else mnemonic, space, operand text |
| Decoder.PrimaryTable | r3000/opcodes.py:747-782 | Primary 0 goes to the SPECIAL table, 1 to the bXXz table, 0x10-0x13 to coprocessor tables; a direct entry has that primary |
| Decoder.DirectInRegistry | r3000/opcodes.py:750-756 | Every opcode the primary table holds directly is a registry opcode |
| Decoder.SecondaryTable | r3000/opcodes.py:795-797 | The SPECIAL table holds an opcode only under its own function code |
| Decoder.SecondaryInRegistry | r3000/opcodes.py:757-763 | Every opcode of the SPECIAL table is a registry opcode |
| Decoder.BranchZeroTable | r3000/opcodes.py:799-801 | The bXXz table holds an opcode only under its own discriminator |
| Decoder.CopTable | r3000/opcodes.py:803-808 | A transfer entry of coprocessor n is n's opcode with that discriminator; discriminator 8 and only it leads to the branch group |
| Decoder.DecodeCopBranch | r3000/opcodes.py:840-846 | A coprocessor branch decodes to n's branch opcode of that type, and is invalid exactly when the type exceeds 1 |
| Decoder.DecodeCoprocessor | r3000/opcodes.py:828-837 | A coprocessor primary decodes only to opcodes of that coprocessor's group |
| Decoder.Decode | r3000/opcodes.py:784-789 | Total decoding: an invalid result keeps the word; a valid one is a registry opcode whose key fields the word carries, with the operands read from the word |
| Decoder.DecodeDirect | r3000/opcodes.py:784-793 | A word whose primary field the table holds an opcode for decodes to that opcode with its operands |
| Decoder.DecodeViaCoprocessor | r3000/opcodes.py:765-772 | A word on primary 0x10+n decodes through coprocessor n's decoder |
| Decoder.DecodeUnmapped | r3000/opcodes.py:784-789 | An unmapped primary decodes as invalid with cause "Invalid primary opcode 0x" and two hex digits |
| Decoder.DecodeSecondary | r3000/opcodes.py:814-819 | A SPECIAL word decodes through the SPECIAL table with cause "Invalid secondary opcode 0x%02X" |
| Decoder.DecodeBranchZero | r3000/opcodes.py:821-826 | A REGIMM word decodes through the bXXz table with cause "Invalid bXXz discriminator 0x%02X" |
| Codec.LayoutDecodes | r3000/opcodes.py:189-519 | The field layout of canonical operands carries the opcode's keys and decodes back to those operands |
| Codec.AssembleIsLayout | r3000/opcodes.py:103-104 | `encode`'s shifts and ors place each operand in its own field |
| Codec.ClearKeepsZeros | r3000/opcodes.py:178-179 | Clearing changes a word exactly when some cleared field is non-zero |
| Codec.LayoutOfDecoded | r3000/opcodes.py:189-519 | The layout of a word's decoded operands is the word with the fields the shape ignores cleared |
| Codec.DecodeComplete | r3000/opcodes.py:791-812 | Every word carrying a registry opcode's keys decodes to that opcode |
| Codec.MatchUnique | r3000/opcodes.py:649-716 | No word carries the keys of two different registry opcodes |
| Codec.EncodeThenDecode | r3000/opcodes.py:103-104 | Encoding a registry opcode with decodable operands gives a 32-bit word that decodes to the same opcode and operands |
| Codec.DecodeThenEncode | r3000/opcodes.py:727-728 | Re-encoding a valid decode gives the word with the ignored fields cleared; an invalid decode gives the word itself |
| Codec.DecodeThenEncodeExact | r3000/opcodes.py:727-728 | A valid word whose ignored fields are zero re-encodes to itself |
| InvalidWords.RegistryPrimaryMapped | r3000/opcodes.py:747-782 | Every registry opcode's primary selects something in the primary table |
| InvalidWords.UnmappedPrimaryIff | r3000/opcodes.py:747-782 | A primary is unmapped exactly when no registry opcode has it |
| InvalidWords.InvalidPrimary | r3000/opcodes.py:784-789 | A word whose primary no registry opcode has is invalid with that cause |
| InvalidWords.SecondaryMissingIff | r3000/opcodes.py:795-797 | The SPECIAL table is empty at f exactly when no SPECIAL opcode has function code f |
| InvalidWords.InvalidSecondaryIff | r3000/opcodes.py:814-819 | A SPECIAL word is invalid exactly when no SPECIAL opcode has its function code, and the cause names it |
| InvalidWords.BranchZeroMissingIff | r3000/opcodes.py:799-801 | The bXXz table is empty at d exactly when no bXXz opcode has discriminator d |
| InvalidWords.InvalidBranchZeroIff | r3000/opcodes.py:821-826 | A REGIMM word is invalid exactly when no bXXz opcode has its discriminator, and the cause names it |
| InvalidWords.InvalidCopBranchIff | r3000/opcodes.py:840-846 | A coprocessor branch word is invalid exactly when its type exceeds 1, with cause "Invalid cop branch type 0x%X" |
| InvalidWords.InvalidCopDiscriminatorIff | r3000/opcodes.py:828-837 | A non-branch coprocessor word is invalid exactly when its discriminator is not 0, 2, 4 or 6, with an empty cause |
| InvalidWords.CopExecuteAlwaysValid | r3000/opcodes.py:829-831 | A coprocessor word with bit 25 set is always that coprocessor's command, carrying the low 25 bits |
| InvalidWords.ValidIff | r3000/opcodes.py:784-869 | Decoding succeeds exactly when some registry opcode's keys hold in the word |
| InvalidWords.InvalidBehaviour | r3000/opcodes.py:133-156 | An invalid instruction is not valid, is named "invalid", has no operands, prints "invalid", re-encodes to its word and reports the word's primary |
| InvalidWords.ValidBehaviour | r3000/opcodes.py:720-731 | A valid instruction reports its opcode's name, one to three operands and the word's primary |
| Rendering.SignedImmParses | r3000/opcodes.py:83-84 | The signed immediate text reads back to the immediate |
| Rendering.UnsignedImmParses | r3000/opcodes.py:87-88 | A non-negative unsigned immediate's text reads back to it |
| Rendering.AddressParses | r3000/opcodes.py:75-76 | An address's text reads back to it and has ten characters for a 32-bit address |
| Rendering.BranchTextSplits | r3000/opcodes.py:369-399 | A relative branch prints its registers, then the target pc + 4 + 4*imm |
| Rendering.BranchTargetText | r3000/opcodes.py:75-80 | A relative branch's text ends with the target address, which reads back to pc + 4 + 4*imm |
| Rendering.JumpTargetRegion | r3000/opcodes.py:357 | A jump target stays in pc's 256 MiB region and is word aligned |
| Rendering.JumpTargetText | r3000/opcodes.py:354-357 | A jump prints its target in pc's region, aligned, as text that reads back to it |
| Rendering.JalrOmitsRa | r3000/opcodes.py:272-275 | `jalr` prints only rs exactly when rd is ra, and "rs, rd" otherwise |
| Rendering.ExceptionArgsText | r3000/opcodes.py:287-290 | `syscall`/`break` operand text is the code in hex when non-zero, and empty for zero |
| Rendering.ExceptionCodeOptional | r3000/opcodes.py:287-290 | `syscall`/`break` print the bare mnemonic exactly when the code is zero, otherwise a code that reads back |
| Rendering.LoadStoreText | r3000/opcodes.py:213-216 | A load/store prints "rt, offset(rs)" with an offset that reads back to the immediate |
| Rendering.CopExecuteText | r3000/opcodes.py:508-511 | A coprocessor command prints at least six hex digits that read back to its 25-bit argument |
| Coprocessors.CopGroupBinding | r3000/opcodes.py:522-559 | Each of coprocessor n's opcodes is bound to n and sits on 0x10+n, 0x30+n or 0x38+n; only lwc/swc leave 0x10+n |
| Coprocessors.DirectBinding | r3000/opcodes.py:747-782 | A direct primary entry is bound to a coprocessor only on 0x30-0x33 and 0x38-0x3B, to p-0x30 or p-0x38 |
| Coprocessors.PrimaryOpcodesUnbound | r3000/opcodes.py:750-756 | No opcode of the primary list belongs to a coprocessor |
| Coprocessors.DecodedBinding | r3000/opcodes.py:626-631 | A decoded word is bound to coprocessor n exactly when its primary is one of n's three |
| Coprocessors.TransferOperands | r3000/opcodes.py:570-585 | mfc/mtc read rd from n's data catalog, cfc/ctc from n's control catalog, rt from the CPU file; discriminators 0/2/4/6 pick mfc/cfc/mtc/ctc |
| Coprocessors.LoadStoreOperands | r3000/opcodes.py:607-623 | lwc n and swc n read the base from the CPU file, the data register from n's data catalog and a sign-extended offset |
| Vectors.InvalidPrimaryVector | r3000/tst/opcodes_test.py:209 | 0x50123456 is invalid with cause "Invalid primary opcode 0x14" |
| Vectors.AllOnesVector | r3000/tst/opcodes_test.py:210 | 0xFFFFFFFF is invalid with cause "Invalid primary opcode 0x3F" |
| Vectors.InvalidSecondaryVector | r3000/tst/opcodes_test.py:211 | 0x00876501 is invalid with cause "Invalid secondary opcode 0x01" |
| Vectors.InvalidBranchZeroVector | r3000/tst/opcodes_test.py:212 | 0x0408468A is invalid with cause "Invalid bXXz discriminator 0x08" |
| Vectors.InvalidCopBranchVector | r3000/tst/opcodes_test.py:213 | 0x41100000 is invalid with cause "Invalid cop branch type 0x10" |
| Vectors.SllVector | r3000/tst/opcodes_test.py:10 | 0x00051140 decodes to sll with rt = CPU register 5, rd = CPU register 2 and shift 5, prints "sll v0, a1, 0x5", has 3 operands and re-encodes to itself |
| Vectors.JalrVector | r3000/tst/opcodes_test.py:17 | 0x0040F809 decodes to jalr with rs = CPU register 2 and rd = ra, prints "jalr v0", has 2 operands and re-encodes to itself |
| Vectors.BltzVector | r3000/tst/opcodes_test.py:41 | 0x04400003 decodes to bltz with rs = CPU register 2 and offset 3; at 0x800367C8 it prints "bltz v0, 0x800367D8", has 2 operands and re-encodes to itself |
| Vectors.JumpVector | r3000/tst/opcodes_test.py:45 | 0x08017FFB decodes to j with target field 0x17FFB; at pc 0x80037EE8, which the preceding bgezal case leaves set, it prints "j 0x8005FFEC", has 1 operand and re-encodes to itself |
| Vectors.AddiVector | r3000/tst/opcodes_test.py:51 | 0x23BDFFD8 decodes to addi with rs = rt = CPU register 29 and immediate -0x28, prints "addi sp, sp, -0x28", has 3 operands and re-encodes to itself |
| Vectors.Mfc0Vector | r3000/tst/opcodes_test.py:66 | 0x400D6000 decodes to mfc0 with rt = CPU register 13 and rd = coprocessor 0 data register 12, prints "mfc0 t5, SR", has 2 operands and re-encodes to itself |
| Vectors.Mfc3Vector | r3000/tst/opcodes_test.py:103 | 0x4C0D5000 decodes to mfc3 with rt = CPU register 13 and rd = coprocessor 3 data register 10, prints "mfc3 t5, datR10", has 2 operands and re-encodes to itself |
| Vectors.Lwc2Vector | r3000/tst/opcodes_test.py:161 | 0xC9A5FF00 decodes to lwc2 with base CPU register 13, coprocessor 2 data register 5 and offset -0x100, prints "lwc2 VZ2, -0x100(t5)", has 3 operands and re-encodes to itself |
| Vectors.Cop2Vector | r3000/tst/opcodes_test.py:157 | 0x4B18042F decodes to cop2 with command 0x118042F, prints "cop2 0x118042F", has 1 operand and re-encodes to itself |
| HexCursor.UpperClamped | ui/widgets/hex_editor_widget.py:282-283 | The result is at most p and at most the maximum, and is one of the two |
| HexCursor.Clamped | ui/widgets/hex_editor_widget.py:279-280 | The result lies in [0, max] when max >= 0; a p inside the range is kept; below it (or with an empty range) gives 0; above it gives max |
| HexCursor.ClampedNearest | ui/widgets/hex_editor_widget.py:279-283 | Clamping picks the point of [0, max] nearest to p |
| HexCursor.WithPosition | ui/widgets/hex_editor_widget.py:209-211 | Assigning the position clamps it and changes no other field |
| HexCursor.WithMaxPosition | ui/widgets/hex_editor_widget.py:221-224 | Assigning the maximum keeps the geometry, puts position and anchor in range, and keeps each that already fitted |
| HexCursor.RowPositionsSpan | ui/widgets/hex_editor_widget.py:234-237 | A row below the maximum spans its pir positions; a row the maximum cuts ends at the maximum; a row past it collapses onto the maximum |
| HexCursor.RowPositionsBelong | ui/widgets/hex_editor_widget.py:234-237 | Every position between a row's bounds lies in that row |
| HexCursor.CurrentRowContains | ui/widgets/hex_editor_widget.py:231-237 | An in-range position lies between the bounds of its current row |
| HexCursor.GridRoundTrip | ui/widgets/hex_editor_widget.py:239-251 | `grid_to_position(position_to_grid(p)) == p` exactly when p is not a row's end slot or rows are whole groups plus one |
| HexCursor.GridCanonical | ui/widgets/hex_editor_widget.py:239-248 | In a regular layout every position gets a nibble of one of the row's groups, or the past-the-group nibble of the last group exactly at the row's end |
| HexCursor.GridInverse | ui/widgets/hex_editor_widget.py:239-251 | In a regular layout a canonical coordinate converts to a position and back unchanged |
| HexCursor.NibbleShift | ui/widgets/hex_editor_widget.py:239-251 | Moving a coordinate's nibble by e moves the position by e |
| HexCursor.NibbleParity | ui/widgets/hex_editor_widget.py:266-274 | With byte-sized groups a nibble is odd exactly when the position is off a byte boundary |
| HexCursor.StepToBoundary | ui/widgets/hex_editor_widget.py:266-274 | One step either way from a position off a byte boundary lands on one, in the same row |
| HexCursor.SnapArithmetic | ui/widgets/hex_editor_widget.py:266-274 | With byte-sized groups the anchor snap steps back by one off a boundary and the target snap forward, else both keep the position |
| HexCursor.MoveToAsWritten | ui/widgets/hex_editor_widget.py:262-277 | The move keeps the geometry and the position in range; with the anchor it drops the selection at the clamped target; an existing selection keeps its anchor |
| HexCursor.MoveTo | ui/widgets/hex_editor_widget.py:262-277 | The corrected move: as above, and an in-range anchor stays in range |
| HexCursor.MoveToAgrees | ui/widgets/hex_editor_widget.py:262-277 | The corrected move equals the written one exactly when the written one leaves the anchor in range |
| HexCursor.MoveToSelects | ui/widgets/hex_editor_widget.py:264-275 | Extending a selection lands on the byte boundary one step along the travel (or the maximum); a new selection anchors one step behind |
| HexCursor.MoveToAsWrittenSelects | ui/widgets/hex_editor_widget.py:264-275 | Extending a selection as written lands on the byte boundary one step along the travel (or the maximum); an existing selection keeps its anchor, a new one anchors one step behind without clamping; this holds from any in-range position, including a selection whose anchor an earlier move left past the maximum |
| HexCursor.MoveBy | ui/widgets/hex_editor_widget.py:259-260 | Moving by a shift goes through the move as written: the geometry is kept and the position stays in range; with the anchor it leaves no selection and lands exactly shift away when the move is possible; without it an existing selection keeps its anchor |
| HexCursor.MoveBySelects | ui/widgets/hex_editor_widget.py:259-277 | Extending a selection by a shift (Shift with an arrow) lands on the byte boundary one step along the travel (or the maximum); an existing selection keeps its anchor, a new one anchors one step behind without clamping; this holds from any in-range position, including a selection whose anchor an earlier move left past the maximum |
| HexCursor.MoveByCorrected | ui/widgets/hex_editor_widget.py:259-260 | The corrected move by a shift: same position as the written one, and an in-range anchor stays in range |
| HexCursor.MoveByAgrees | ui/widgets/hex_editor_widget.py:259-277 | The corrected move by a shift equals the written one exactly when the written one leaves the anchor in range |
| HexCursor.CanMoveByIff | ui/widgets/hex_editor_widget.py:256-260 | A shift is possible exactly when moving by it with the anchor lands exactly shift away |
| HexData.UpdateFullRowsNumber | ui/widgets/hex_editor_widget.py:323-324 | The full rows are the largest count of rows the data fills; nothing else changes |
| HexData.UpdateRowsNumber | ui/widgets/hex_editor_widget.py:312-317 | Beyond one group the rows are the least count covering the data; otherwise one row; the counts agree with the size |
| HexData.RowsSplit | ui/widgets/hex_editor_widget.py:312-333 | Beyond one group the rows are the full rows plus one exactly when the last row is partial |
| HexData.UpdateBytesPerRow | ui/widgets/hex_editor_widget.py:319-321 | Bytes per row are groups per row times group size, and the full rows are recounted |
| HexData.NonFullRowBytes | ui/widgets/hex_editor_widget.py:332-333 | The partial row holds fewer bytes than a row, and full rows plus it make up the size |
| HexData.NonFullRowGroups | ui/widgets/hex_editor_widget.py:335-336 | The partial row's groups are the least count covering its bytes |
| HexData.NonFullRowGroupsBound | ui/widgets/hex_editor_widget.py:335-336 | The partial row has at most a row's groups, and none exactly when it holds no bytes |
| HexData.UpdateCursorData | ui/widgets/hex_editor_widget.py:326-330 | Only the cursor changes, and it ends within its new maximum |
| HexData.UpdateDataBytes | ui/widgets/hex_editor_widget.py:306-310 | New data changes only the size, the row counts and the cursor, and the row counts agree with the new size |
| HexData.SetGroupsPerRow | ui/widgets/hex_editor_widget.py:65-72 | Sets groups per row and optionally the group size, re-derives the cursor's row and group widths and the row counts, keeps size and cursor position |
| HexData.SetGroupsPerRowConfigures | ui/widgets/hex_editor_widget.py:65-72 | With a group size the layout is configured: byte-sized cursor groups, groups-per-row of them to a row |
| HexData.SetGroupsPerRowKeeps | ui/widgets/hex_editor_widget.py:65-72 | Without a group size a configured layout stays configured |
| HexData.SetColumnBytesCount | ui/widgets/hex_editor_widget.py:62-72 | The layout takes the requested group size and the most whole groups that fit the column (bytes count div group size); the size, cursor position, anchor and maximum are kept |
| HexData.MaxPositionPastEnd | ui/widgets/hex_editor_widget.py:326-330 | The maximum is one past the position right after the last byte |
| HexData.RowsExceedIff | ui/widgets/hex_editor_widget.py:312-330 | There are more rows than full rows exactly when a partial row holds bytes or there is no data |
| HexData.PartialRowMaximum | ui/widgets/hex_editor_widget.py:326-330 | With a partial row the maximum sits in that row, off every byte boundary |
| HexData.AnchorLeavesRange | ui/widgets/hex_editor_widget.py:262-277 | One byte in two one-byte groups: maximum 3; parked at 3, extending left leaves the written anchor at 4 and the corrected one at 3 |
| HexData.MoveByLeavesRange | ui/widgets/hex_editor_widget.py:259-277 | The same layout reached by keys: Ctrl+End (a move to the maximum with the anchor) parks the cursor on 3; Shift+Left (a move by -1 without the anchor) leaves the written anchor at 4 and the corrected one at 3 |
| CursorExamples.ClampExamples | tests/test_hex_editor_widget.py:21-26 | Positions 5 and -1 clamp to 4 and 0 |
| CursorExamples.RowPositionsExamples | tests/test_hex_editor_widget.py:28-33 | The four row bounds of the 56-byte layout |
| CursorExamples.PositionToGridExamples | tests/test_hex_editor_widget.py:35-42 | Grid coordinates of positions 0, 1, 3, 4, 16 and 17 |
| CursorExamples.GridToPositionExamples | tests/test_hex_editor_widget.py:44-47 | Positions 20 and 61 from their coordinates |
| CursorExamples.CanMoveByExamples | tests/test_hex_editor_widget.py:49-57 | Shifts 1, -1, 13 and -20 are possible from 20 of 33; 14 and -21 are not |
| CursorExamples.MoveWithAnchorExamples | tests/test_hex_editor_widget.py:59-71 | Moves to -1, 0, 5, 65, 66 and 67 with the anchor land on 0, 0, 5, 65, 66 and 66 and select nothing |
| CursorExamples.SelectionExamples | tests/test_hex_editor_widget.py:73-91 | The six selection cases: position and snapped anchor after starting a selection from anchors 1, 1, 2, 2, 3 and 29 |

## Left out

- The Qt widget: event handlers, painter, metrics, palette, blink timer, debugging prints, and the byte mutation marked TODO in `set_data`. These are GUI code with no arithmetic of the model's concern.
- `ui/main_window.py`, `ui/resources.py` and `main.py`: window chrome and start-up.
- The cursor's `visible` flag, which only the painter reads.
- `_Data.address` and the byte contents (`data_bytes`, `original_data_bytes`). Only their length enters the row arithmetic.
- `ExecutionContext` beyond the value of `pc`, and `RuntimeRegister`. The codec reads nothing else, and the register lists hold uncalled `instantiate` methods.
- The `None` branch of `Opcode.to_string` (`r3000/opcodes.py:99-100`). No shape's operand text is ever `None`.
- `OpcodeArgs.__str__` and the `cop2_datR*` module aliases. They are debugging and convenience names.
- The mixin and closure class machinery of the Python. The model keeps its result: a flat `Shape` per opcode and one registry sequence.
- `jalr`'s `args.rd is registers.ra`: Python's identity test is modelled as equality. This is the same thing for decoded operands, which are always catalog entries.
- Opcodes.EncodeArgs: requires each operand `encode` reads to be present, and each register operand to carry an index. The Python raises when one is missing. It also requires the immediates that are shifted or or-ed without truncation to be non-negative. A negative one would make a negative Python integer, which the model's naturals cannot represent, and decoding never produces one. Oversized non-negative operands are modelled, because `Fields.Or` is exact.
- Opcodes.ArgsText: requires the immediate to be present for shapes that print it. The Python raises on a missing immediate.
- Wrap-around of branch and jump targets. As in the Python, they are unbounded integers.
- HexData.SetColumnBytesCount: requires a group size of at least one and a column of at least one group. Without a group size the Python divides by `None` and raises; with a column narrower than a group it sets zero groups per row, and the following row arithmetic divides by zero.
- HexData.SetGroupsPerRow: requires a positive groups-per-row and a positive group size (the new one, or the current one when none is given), because zero bytes per row makes the Python divide by zero.
- HexData.SetGroupsPerRow: does not update the cursor's maximum. The Python leaves that to the next `update_data_bytes`, and so does the model.
- The maximum position the editor's test helper computes (`tests/test_hex_editor_widget.py:9-19`) has no `+ 1`, unlike `_Data.update_cursor_data`. The cursor examples use the maxima the tests configure; `HexData` uses the widget's formula.

## Findings

| source | as written | input that shows it | evidently intended | confidence | as-written member | corrected member |
|---|---|---|---|---|---|---|
| ui/widgets/hex_editor_widget.py:262-277 | `move_to(p, move_anchor=False)` snaps an odd-nibble anchor against the direction of travel and assigns it without clamping | Two one-byte groups per row, one byte of data: the maximum is 3 (odd nibble). Move to 3 with the anchor, then to 2 without it: the anchor becomes 4 > 3 | The anchor stays in [0, max], as every other assignment to it (`_clamp_position`) ensures | not executed | HexCursor.MoveToAsWritten (counterexample HexData.AnchorLeavesRange) | HexCursor.MoveTo (in range by its ensures; HexCursor.MoveToAgrees) |
| ui/widgets/hex_editor_widget.py:259-260 | `move_by(shift, move_anchor=False)` calls the written `move_to`, so Shift with an arrow key inherits the unclamped anchor | The same layout: Ctrl+End parks the cursor on 3, Shift+Left (shift -1) leaves the anchor on 4 > 3 | The anchor stays in [0, max] | not executed | HexCursor.MoveBy (counterexample HexData.MoveByLeavesRange) | HexCursor.MoveByCorrected (in range by its ensures; HexCursor.MoveByAgrees) |
