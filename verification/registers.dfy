/**
 The static register catalogs of the R3000: the 32 general-purpose (CPU)
 registers, 32 data and 32 control registers for each of the four
 coprocessors, and the index-less special registers pc, hi and lo.
 */
module Registers {
  import opened Wrappers
  import Text

  /** An immutable register description: canonical name, display alias and, for catalog entries, its index. */
  datatype Register = Register(name: string, alias: string, index: Option<nat>) {

    /** A register displays as its alias. */
    function Display(): string
    {
      alias
    }

    predicate HasIndex() {
      index.Some?
    }
  }

  const RegisterCount: nat := 32
  const CoprocessorCount: nat := 4

  /** The canonical name of catalog entry `i`: "R" followed by the decimal index. */
  function IndexedName(i: nat): string
  {
    "R" + Text.Decimal(i)
  }

  const CpuAliases: seq<string> := [
    "zero",
    "at",
    "v0", "v1",
    "a0", "a1", "a2", "a3",
    "t0", "t1", "t2", "t3", "t4", "t5", "t6", "t7",
    "s0", "s1", "s2", "s3", "s4", "s5", "s6", "s7",
    "t8", "t9",
    "k0", "k1",
    "gp", "sp", "fp", "ra"
  ]

  /** CPU register `i`: name "R{i}", the conventional MIPS alias, index i. */
  function CpuRegister(i: nat): Register
    requires i < RegisterCount
  {
    Register(IndexedName(i), CpuAliases[i], Some(i))
  }

  /** The CPU catalog, indexed by register number. */
  function CpuByIndex(): (c: seq<Register>)
    ensures |c| == RegisterCount
    ensures forall i | 0 <= i < RegisterCount ::
      c[i].index == Some(i) && c[i].name == IndexedName(i) && c[i].alias == CpuAliases[i]
  {
    seq(RegisterCount, i requires 0 <= i < RegisterCount => CpuRegister(i))
  }

  const Zero: Register := CpuRegister(0)
  const Ra: Register := CpuRegister(31)

  const Pc: Register := Register("pc", "pc", None)
  const Hi: Register := Register("hi", "hi", None)
  const Lo: Register := Register("lo", "lo", None)

  /**
   Builds one coprocessor catalog: entry i has index i, name "R{i+offset}", and
   the named alias when `named` lists i, otherwise the fallback `fallback` followed
   by i in decimal ("datR{i}" or "cntR{i}").
   */
  function CopCatalog(named: map<nat, string>, offset: nat, fallback: string): (c: seq<Register>)
    ensures |c| == RegisterCount
    ensures forall i | 0 <= i < RegisterCount ::
      && c[i].index == Some(i)
      && c[i].name == IndexedName(i + offset)
      && (i in named ==> c[i].alias == named[i])
      && (i !in named ==> c[i].alias == fallback + Text.Decimal(i))
  {
    seq(RegisterCount, i requires 0 <= i < RegisterCount =>
      Register(IndexedName(i + offset), if i in named then named[i] else fallback + Text.Decimal(i), Some(i)))
  }

  function CopDataCatalog(named: map<nat, string>): seq<Register>
  {
    CopCatalog(named, 0, "datR")
  }

  function CopControlCatalog(named: map<nat, string>): seq<Register>
  {
    CopCatalog(named, 0, "cntR")
  }

  const Cop0DataNames: map<nat, string> := map[
    3 := "BPC", 5 := "BDA", 6 := "TAR", 7 := "DCIC", 8 := "BadA", 9 := "BDAM", 11 := "BPCM", 12 := "SR",
    13 := "CAUSE", 14 := "EPC", 15 := "PRID"
  ]

  const Cop2DataNames: map<nat, string> := map[
    0 := "VXY0", 1 := "VZ0", 2 := "VXY1", 3 := "VZ1", 4 := "VXY2", 5 := "VZ2", 6 := "RGBC", 7 := "OTZ",
    8 := "IR0", 9 := "IR1", 10 := "IR2", 11 := "IR3", 12 := "SXY0", 13 := "SXY1", 14 := "SXY2", 15 := "SXYP",
    16 := "SZ0", 17 := "SZ1", 18 := "SZ2", 19 := "SZ3", 20 := "RGB0", 21 := "RGB1", 22 := "RGB2", 23 := "RES1",
    24 := "MAC0", 25 := "MAC1", 26 := "MAC2", 27 := "MAC3", 28 := "IRGB", 29 := "ORGB", 30 := "LZCS", 31 := "LZCR"
  ]

  const Cop2ControlNames: map<nat, string> := map[
    0 := "RT11_12", 1 := "RT13_21", 2 := "RT22_23", 3 := "RT31_32", 4 := "RT33", 5 := "TRX", 6 := "TRY",
    7 := "TRZ", 8 := "L11_12", 9 := "L13_21", 10 := "L22_23", 11 := "L31_32", 12 := "LL33", 13 := "RBK",
    14 := "GBK", 15 := "BBK", 16 := "LR1_2", 17 := "LR3_G1", 18 := "LG2_3", 19 := "LB1_2", 20 := "LB3",
    21 := "RFC", 22 := "GFC", 23 := "BFC", 24 := "OFX", 25 := "OFY", 26 := "H", 27 := "DQA", 28 := "DQB",
    29 := "ZFS3", 30 := "ZFS4", 31 := "FLAG"
  ]

  /** Data registers per coprocessor: COP0 and COP2 have named aliases, COP1 and COP3 only fallbacks. */
  function CopDatByIndex(): (c: seq<seq<Register>>)
    ensures |c| == CoprocessorCount
    ensures forall n | 0 <= n < CoprocessorCount :: |c[n]| == RegisterCount
    ensures forall n, i | 0 <= n < CoprocessorCount && 0 <= i < RegisterCount ::
      c[n][i].index == Some(i) && c[n][i].name == IndexedName(i)
  {
    [
      CopDataCatalog(Cop0DataNames),
      CopDataCatalog(map[]),
      CopDataCatalog(Cop2DataNames),
      CopDataCatalog(map[])
    ]
  }

  /** Control registers per coprocessor: only COP2 has named aliases. */
  function CopCntByIndex(): (c: seq<seq<Register>>)
    ensures |c| == CoprocessorCount
    ensures forall n | 0 <= n < CoprocessorCount :: |c[n]| == RegisterCount
    ensures forall n, i | 0 <= n < CoprocessorCount && 0 <= i < RegisterCount ::
      c[n][i].index == Some(i) && c[n][i].name == IndexedName(i)
  {
    [
      CopControlCatalog(map[]),
      CopControlCatalog(map[]),
      CopControlCatalog(Cop2ControlNames),
      CopControlCatalog(map[])
    ]
  }

  /** True when `r` is the entry of `catalog` at its own index. */
  predicate InCatalog(r: Register, catalog: seq<Register>)
  {
    r.index.Some? && r.index.value < |catalog| && catalog[r.index.value] == r
  }

  predicate IsCpu(r: Register)
  {
    InCatalog(r, CpuByIndex())
  }

  /**
   Dictionary lookup by a key projected from each entry, built by inserting the
   entries in catalog order, so that a later entry with the same key wins.
   */
  function LookupLast(regs: seq<Register>, key: Register -> string, k: string): (r: Option<Register>)
    ensures r.Some? ==> r.value in regs && key(r.value) == k
    ensures r.None? ==> forall i | 0 <= i < |regs| :: key(regs[i]) != k
  {
    if regs == [] then None
    else if key(regs[|regs| - 1]) == k then Some(regs[|regs| - 1])
    else LookupLast(regs[..|regs| - 1], key, k)
  }

  function CpuByName(name: string): Option<Register>
  {
    LookupLast(CpuByIndex(), (r: Register) => r.name, name)
  }

  function CpuByAlias(alias: string): Option<Register>
  {
    LookupLast(CpuByIndex(), (r: Register) => r.alias, alias)
  }

  /** Every CPU alias is different from every other. */
  lemma CpuAliasesUnique()
    ensures forall i, j | 0 <= i < j < RegisterCount :: CpuAliases[i] != CpuAliases[j]
  {
  }

  /** Every CPU name is different from every other, because decimal text is injective. */
  lemma CpuNamesUnique(i: nat, j: nat)
    requires i < RegisterCount && j < RegisterCount && i != j
    ensures CpuByIndex()[i].name != CpuByIndex()[j].name
  {
    if IndexedName(i) == IndexedName(j) {
      assert IndexedName(i)[1..] == Text.Decimal(i);
      assert IndexedName(j)[1..] == Text.Decimal(j);
      Text.DecimalInjective(i, j);
    }
  }

  /** With unique keys, the last-wins dictionary finds exactly the entry carrying the key. */
  lemma {:induction false} LookupLastFinds(regs: seq<Register>, key: Register -> string, i: nat)
    requires i < |regs|
    requires forall j | 0 <= j < |regs| && j != i :: key(regs[j]) != key(regs[i])
    ensures LookupLast(regs, key, key(regs[i])) == Some(regs[i])
    decreases |regs|
  {
    if i < |regs| - 1 {
      var prefix := regs[..|regs| - 1];
      assert forall j | 0 <= j < |prefix| && j != i :: key(prefix[j]) != key(prefix[i]) by {
        forall j | 0 <= j < |prefix| && j != i ensures key(prefix[j]) != key(prefix[i]) {
          assert prefix[j] == regs[j];
        }
      }
      LookupLastFinds(prefix, key, i);
    }
  }

  /** `cpu_by_alias` inverts `cpu_by_index`: looking up the alias of entry i returns entry i. */
  lemma CpuByAliasInverts(i: nat)
    requires i < RegisterCount
    ensures CpuByAlias(CpuByIndex()[i].alias) == Some(CpuByIndex()[i])
  {
    CpuAliasesUnique();
    var regs := CpuByIndex();
    var key := (r: Register) => r.alias;
    forall j | 0 <= j < |regs| && j != i ensures key(regs[j]) != key(regs[i]) {
      if j < i { assert CpuAliases[j] != CpuAliases[i]; } else { assert CpuAliases[i] != CpuAliases[j]; }
    }
    LookupLastFinds(regs, key, i);
  }

  /** `cpu_by_name` inverts `cpu_by_index`: looking up "R{i}" returns entry i. */
  lemma CpuByNameInverts(i: nat)
    requires i < RegisterCount
    ensures CpuByName(IndexedName(i)) == Some(CpuByIndex()[i])
  {
    var regs := CpuByIndex();
    var key := (r: Register) => r.name;
    forall j | 0 <= j < |regs| && j != i ensures key(regs[j]) != key(regs[i]) {
      CpuNamesUnique(i, j);
    }
    LookupLastFinds(regs, key, i);
  }

  /** Every CPU alias has at least two characters, so an operand never prints as nothing. */
  lemma CpuAliasNonEmpty(r: Register)
    requires IsCpu(r)
    ensures |r.Display()| >= 2
  {
    var i := r.index.value;
    assert r.alias == CpuAliases[i];
  }

  /** The named data aliases of coprocessor `n`: COP0 and COP2 have some, COP1 and COP3 none. */
  function DataNames(n: nat): map<nat, string>
  {
    if n == 0 then Cop0DataNames else if n == 2 then Cop2DataNames else map[]
  }

  /** The named control aliases of coprocessor `n`: only COP2 has some. */
  function ControlNames(n: nat): map<nat, string>
  {
    if n == 2 then Cop2ControlNames else map[]
  }

  /**
   A coprocessor data register shows its named alias exactly at the listed
   indexes and the fallback "datR{i}" everywhere else.
   */
  lemma DataAliases(n: nat, i: nat)
    requires n < CoprocessorCount && i < RegisterCount
    ensures CopDatByIndex()[n][i].alias ==
      if i in DataNames(n) then DataNames(n)[i] else "datR" + Text.Decimal(i)
  {
    var names := DataNames(n);
    assert CopDatByIndex()[n] == CopDataCatalog(names) by {
      if n == 0 {} else if n == 1 {} else if n == 2 {} else {}
    }
  }

  /**
   A coprocessor control register shows its named alias exactly at the listed
   indexes and the fallback "cntR{i}" everywhere else.
   */
  lemma ControlAliases(n: nat, i: nat)
    requires n < CoprocessorCount && i < RegisterCount
    ensures CopCntByIndex()[n][i].alias ==
      if i in ControlNames(n) then ControlNames(n)[i] else "cntR" + Text.Decimal(i)
  {
    var names := ControlNames(n);
    assert CopCntByIndex()[n] == CopControlCatalog(names) by {
      if n == 0 {} else if n == 1 {} else if n == 2 {} else {}
    }
  }

  /** The fixed CPU aliases the rest of the disassembler relies on. */
  lemma CpuAliasesFixed()
    ensures Zero == CpuByIndex()[0] && Zero.alias == "zero" && Zero.name == "R0"
    ensures CpuByIndex()[29].alias == "sp"
    ensures Ra == CpuByIndex()[31] && Ra.alias == "ra" && Ra.name == "R31"
  {
  }

  /** The special registers print as their names and carry no index; a catalog entry always has one. */
  lemma SpecialRegisters(r: Register)
    requires r in [Pc, Hi, Lo]
    ensures !r.HasIndex() && r.Display() == r.name
    ensures !IsCpu(r)
  {
  }
}
