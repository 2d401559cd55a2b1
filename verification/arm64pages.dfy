/** The ARM64 relocations that split an address between `adrp` and `add`. */
module Arm64Pages {
  import opened Bits
  import opened Results
  import opened AArch64

  /** `address`: the symbol plus the byte addend the immediate holds, as pages from `pc` (`adrp`) or bytes (`adr`). */
  function Address(insn: int, symbol: nat, pc: nat, page: bool): Result<int, Overflow>
  {
    var target := (symbol + Immediate21(insn)) % U64;
    if page then Encode(Adrp21, insn, Wrap(Page(target) - Page(pc), U64)) else Encode(Adr21, insn, Wrap(target - pc, U64))
  }

  /** `add_low12`: the low 12 bits of the value, added to the immediate that is there. */
  function AddLow12(insn: int, value: nat): int
  {
    Insert(insn, (value % PAGE + Field(insn, 0x400, PAGE)) % PAGE, 0x400, PAGE)
  }

  lemma AdrpReads(insn: int, symbol: nat, pc: nat)
    requires 0 <= insn < U32 && IsAdrp(insn) && symbol < U64 && Address(insn, symbol, pc, true).Ok?
    ensures var pages := Wrap(Page((symbol + Immediate21(insn)) % U64) - Page(pc), U64) / PAGE;
      Decode(Address(insn, symbol, pc, true).value) == AdrpInsn(Field(insn, 1, 32), pages)
  {
    var target := (symbol + Immediate21(insn)) % U64;
    var pages := Wrap(Page(target) - Page(pc), U64) / PAGE;
    hide Immediate21, SplitImmediate, Insert, Field;
    SplitImmediateFields(insn, pages);
  }

  lemma AddReads(insn: int, value: nat)
    requires 0 <= insn < U32 && IsAddImm64(insn)
    ensures Decode(AddLow12(insn, value))
         == AddInsn(Field(insn, 1, 32), Field(insn, 32, 32), (value % PAGE + Field(insn, 0x400, PAGE)) % PAGE)
  {
    var low := (value % PAGE + Field(insn, 0x400, PAGE)) % PAGE;
    AddFields(insn, low);
    NotAdrp(AddLow12(insn, value));
    hide Insert, Field;
    assert low % PAGE == low;
  }

  /** The low parts of a symbol and an addend add up to the low part of their sum. */
  lemma LowParts(symbol: nat, addend: int)
    ensures (symbol % PAGE + addend % PAGE) % PAGE == ((symbol + addend) % U64) % PAGE
  {
    var (s, a) := (symbol / PAGE, addend / PAGE);
    assert symbol + addend == (symbol % PAGE + addend % PAGE) + (s + a) * PAGE;
    ModAddMultiple(symbol % PAGE + addend % PAGE, s + a, PAGE);
    var k := (symbol + addend) / U64;
    assert symbol + addend == (symbol + addend) % U64 + (k * 0x10_0000_0000_0000) * PAGE;
    ModAddMultiple((symbol + addend) % U64, k * 0x10_0000_0000_0000, PAGE);
  }

  lemma PageSum(target: nat)
    requires target < U64
    ensures (Page(target) + target % PAGE) % U64 == target
  {
    DivModUnique(target, 0, target, U64);
  }

  lemma RunTwo(c: Cpu, i0: Decoded, i1: Decoded, c1: Cpu, c2: Cpu)
    requires Execute(c, i0) == Some(c1) && Execute(c1, i1) == Some(c2)
    ensures Run(c, [i0, i1]) == Some(c2)
  {
    assert [i0, i1][1..] == [i1] && [i1][1..] == [];
    assert Run(c1, [i1]) == Some(c2);
  }

  /**
    `PAGEBASE_REL21` on an `adrp` and `PAGEOFFSET_12A` on the `add` after it,
    holding the same addend, leave the symbol plus the addend in the register.
   */
  lemma PagePair(adrp: int, add: int, symbol: nat, cpu: Cpu)
    requires 0 <= adrp < U32 && IsAdrp(adrp) && 0 <= add < U32 && IsAddImm64(add)
    requires Field(add, 32, 32) == Field(adrp, 1, 32) && Field(add, 0x400, PAGE) == Immediate21(adrp) % PAGE
    requires symbol < U64 && 0 <= cpu.pc < U64 && Address(adrp, symbol, cpu.pc, true).Ok?
    ensures var words := [Address(adrp, symbol, cpu.pc, true).value, AddLow12(add, symbol)];
      var r := Run(cpu, [Decode(words[0]), Decode(words[1])]);
      r.Some? && Reg(r.value, Field(add, 1, 32)) == (symbol + Immediate21(adrp)) % U64
  {
    hide *;
    var target := (symbol + Immediate21(adrp)) % U64;
    var delta := Wrap(Page(target) - Page(cpu.pc), U64);
    var (d, e) := (Field(adrp, 1, 32), Field(add, 1, 32));
    AdrpReads(adrp, symbol, cpu.pc);
    AddReads(add, symbol);
    LowParts(symbol, Immediate21(adrp));
    AdrpSum(cpu.pc, target, delta);
    PageSum(target);
    var c1 := Cpu((cpu.pc + 4) % U64, cpu.x[d := Page(target)]);
    var c2 := Cpu((c1.pc + 4) % U64, c1.x[e := target]);
    TwoSteps(cpu, d, e, delta / PAGE, target, c1, c2);
    RunTwo(cpu, AdrpInsn(d, delta / PAGE), AddInsn(e, d, target % PAGE), c1, c2);
  }

  /** What the pair does to the registers. */
  lemma TwoSteps(cpu: Cpu, d: nat, e: nat, pages: int, target: nat, c1: Cpu, c2: Cpu)
    requires (Page(cpu.pc) + PAGE * pages) % U64 == Page(target) && (Page(target) + target % PAGE) % U64 == target
    requires c1 == Cpu((cpu.pc + 4) % U64, cpu.x[d := Page(target)]) && c2 == Cpu((c1.pc + 4) % U64, c1.x[e := target])
    ensures Execute(cpu, AdrpInsn(d, pages)) == Some(c1) && Execute(c1, AddInsn(e, d, target % PAGE)) == Some(c2)
    ensures Reg(c2, e) == target
  {
    hide Page;
  }
}
