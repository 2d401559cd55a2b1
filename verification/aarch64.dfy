/**
  The AArch64 instruction fields the PE/COFF backend packs, the
  range-extension thunk, and a machine that runs them.
 */
module AArch64 {
  import opened Bits
  import opened Results

  const PAGE: nat := 0x1000
  const BR_X16: nat := 0xd61f_0200
  const THUNK_WORDS: nat := 3

  function Page(address: int): int
  {
    address - address % PAGE
  }

  datatype Insn = Branch26 | Branch19 | Branch14 | Adr21 | Adrp21 | Add12

  /** The lowest bit's weight and the number of values of a branch immediate. */
  function BranchField(kind: Insn): (f: (nat, nat))
    ensures 0 < f.0 && 0 < f.1
  {
    match kind
    case Branch19 => (0x20, 0x8_0000)
    case Branch14 => (0x20, 0x4000)
    case _ => (1, 0x400_0000)
  }

  /** The split 21-bit immediate of `adr` and `adrp`: bits 5..24 high, 29..31 low. */
  function SplitImmediate(insn: int, value: int): int
  {
    Insert(Insert(insn, value / 4, 0x20, 0x8_0000), value % 4, 0x2000_0000, 4)
  }

  /** `Field::encode`. */
  function Encode(kind: Insn, insn: int, value: int): Result<int, Overflow>
  {
    match kind
    case Branch26 =>
      if value % 4 != 0 || !FitsSigned(value, 0x800_0000) then Err(Overflow)
      else Ok(Insert(insn, value / 4, 1, 0x400_0000))
    case Branch19 =>
      if value % 4 != 0 || !FitsSigned(value, 0x10_0000) then Err(Overflow)
      else Ok(Insert(insn, value / 4, 0x20, 0x8_0000))
    case Branch14 =>
      if value % 4 != 0 || !FitsSigned(value, 0x8000) then Err(Overflow)
      else Ok(Insert(insn, value / 4, 0x20, 0x4000))
    case Adr21 =>
      if !FitsSigned(value, 0x10_0000) then Err(Overflow)
      else Ok(SplitImmediate(insn, value))
    case Adrp21 =>
      if value % PAGE != 0 || !FitsSigned(value, U32) then Err(Overflow)
      else Ok(SplitImmediate(insn, value / PAGE))
    case Add12 =>
      Ok(Insert(insn, value, 0x400, PAGE))
  }

  function Adrp(rd: nat): nat { 0x9000_0000 + rd % 32 }

  function AddImm(rd: nat, rn: nat): nat { 0x9100_0000 + rd % 32 + (rn % 32) * 32 }

  /** `thunk`: `adrp x16, target; add x16, x16, :lo12:target; br x16`. */
  function Thunk(at: int, target: int): Result<seq<int>, Overflow>
  {
    var pages := Wrap(Page(target) - Page(at), U64);
    var first := Encode(Adrp21, Adrp(16), pages);
    var second := Encode(Add12, AddImm(16, 16), target);
    if first.Err? then Err(Overflow)
    else if second.Err? then Err(Overflow)
    else Ok([first.value, second.value, BR_X16])
  }

  // ---- The machine ----

  /** Program counter and general registers, all modulo 2^64. */
  datatype Cpu = Cpu(pc: int, x: map<nat, int>)

  function Reg(cpu: Cpu, n: nat): int
  {
    if n in cpu.x then cpu.x[n] else 0
  }

  predicate IsAdrp(insn: int)
  {
    Field(insn, 0x8000_0000, 2) == 1 && Field(insn, 0x100_0000, 32) == 0x10
  }

  predicate IsAddImm64(insn: int)
  {
    Field(insn, 0x40_0000, 0x400) == 0x244
  }

  predicate IsBr(insn: int)
  {
    Field(insn, 0x400, 0x40_0000) == 0x35_87c0 && Field(insn, 1, 32) == 0
  }

  /** The signed 21-bit immediate of `adr` and `adrp`. */
  function Immediate21(insn: int): int
  {
    Signed(4 * Field(insn, 0x20, 0x8_0000) + Field(insn, 0x2000_0000, 4), 0x20_0000)
  }

  datatype Decoded =
    | AdrpInsn(rd: nat, pages: int)
    | AddInsn(rd: nat, rn: nat, imm: nat)
    | BrInsn(rn: nat)
    | Unknown

  function Decode(insn: int): Decoded
  {
    if IsAdrp(insn) then AdrpInsn(Field(insn, 1, 32), Immediate21(insn))
    else if IsAddImm64(insn) then AddInsn(Field(insn, 1, 32), Field(insn, 32, 32), Field(insn, 0x400, PAGE))
    else if IsBr(insn) then BrInsn(Field(insn, 32, 32))
    else Unknown
  }

  function Execute(cpu: Cpu, insn: Decoded): Option<Cpu>
  {
    match insn
    case AdrpInsn(rd, pages) => Some(Cpu((cpu.pc + 4) % U64, cpu.x[rd := (Page(cpu.pc) + PAGE * pages) % U64]))
    case AddInsn(rd, rn, imm) => Some(Cpu((cpu.pc + 4) % U64, cpu.x[rd := (Reg(cpu, rn) + imm) % U64]))
    case BrInsn(rn) => Some(cpu.(pc := Reg(cpu, rn)))
    case Unknown => None
  }

  function DecodeAll(words: seq<int>): seq<Decoded>
  {
    seq(|words|, i requires 0 <= i < |words| => Decode(words[i]))
  }

  /** Straight-line execution; `None` at an instruction outside this fragment. */
  function Run(cpu: Cpu, insns: seq<Decoded>): Option<Cpu>
    decreases |insns|
  {
    if insns == [] then Some(cpu)
    else
      var next := Execute(cpu, insns[0]);
      if next.None? then None else Run(next.value, insns[1..])
  }

  /** How far a branch goes: its signed immediate, times four. */
  function Displacement(kind: Insn, insn: int): int
  {
    var (p, w) := BranchField(kind);
    4 * Signed(Field(insn, p, w), w)
  }

  /** Where a taken branch at `pc` goes. */
  function Destination(kind: Insn, insn: int, pc: int): int
  {
    (pc + Displacement(kind, insn)) % U64
  }

  // ---- Branches ----

  /** A packed branch goes exactly `value` bytes on, and nothing but its immediate changed. */
  lemma EncodedBranch(kind: Insn, insn: int, value: int, pc: int)
    requires kind.Branch26? || kind.Branch19? || kind.Branch14?
    requires Encode(kind, insn, value).Ok?
    ensures var w := Encode(kind, insn, value).value;
      && Destination(kind, w, pc) == (pc + value) % U64
      && var f := BranchField(kind);
         w - Field(w, f.0, f.1) * f.0 == insn - Field(insn, f.0, f.1) * f.0
  {
    var (p, w) := BranchField(kind);
    InsertSame(insn, value / 4, p, w);
    SignedOfMod(value / 4, w);
    assert value == 4 * (value / 4);
  }

  /** 128 MiB for `b` and `bl`, 1 MiB for `b.cond` and `cbz`, 32 KiB for `tbz`. */
  predicate InReach(kind: Insn, value: int)
  {
    value % 4 == 0 &&
      match kind
      case Branch26 => -128 * 1024 * 1024 <= value < 128 * 1024 * 1024
      case Branch19 => -1024 * 1024 <= value < 1024 * 1024
      case Branch14 => -32 * 1024 <= value < 32 * 1024
      case _ => false
  }

  /** A branch is packed exactly when it is within reach, and that is exactly when some instruction goes that far. */
  lemma BranchAccepted(kind: Insn, insn: int, value: int)
    requires kind.Branch26? || kind.Branch19? || kind.Branch14?
    ensures Encode(kind, insn, value).Ok? <==> InReach(kind, value)
    ensures InReach(kind, value) <==> exists word :: Displacement(kind, word) == value
  {
    var (p, w) := BranchField(kind);
    if InReach(kind, value) {
      var word := Insert(0, value / 4, p, w);
      InsertSame(0, value / 4, p, w);
      SignedOfMod(value / 4, w);
      assert Displacement(kind, word) == value;
    }
    forall word
      ensures InReach(kind, Displacement(kind, word))
    {
      assert 0 <= Field(word, p, w) < w;
    }
  }

  /** `adr` takes 1 MiB either way, `adrp` whole pages up to 4 GiB, the low twelve bits anything. */
  lemma AddressAccepted(insn: int, value: int)
    ensures Encode(Adr21, insn, value).Ok? <==> -1024 * 1024 <= value < 1024 * 1024
    ensures Encode(Adrp21, insn, value).Ok? <==> value % 4096 == 0 && -0x1_0000_0000 <= value < 0x1_0000_0000
    ensures Encode(Add12, insn, value).Ok?
  {
  }

  lemma EncodedBranchIsWord(kind: Insn, insn: int, value: int)
    requires kind.Branch26? || kind.Branch19? || kind.Branch14?
    requires Encode(kind, insn, value).Ok? && 0 <= insn < U32
    ensures 0 <= Encode(kind, insn, value).value < U32
  {
    match kind
    case Branch26 => InsertRange(insn, value / 4, 1, 0x400_0000, 64);
    case Branch19 => InsertRange(insn, value / 4, 0x20, 0x8_0000, 0x100);
    case Branch14 => InsertRange(insn, value / 4, 0x20, 0x4000, 0x2000);
  }

  // ---- Thunks ----

  lemma SplitImmediateFields(insn: int, value: int)
    requires 0 <= insn < U32 && FitsSigned(value, 0x10_0000)
    ensures var w := SplitImmediate(insn, value);
      && 0 <= w < U32
      && Immediate21(w) == value
      && Field(w, 1, 32) == Field(insn, 1, 32)
      && Field(w, 0x100_0000, 32) == Field(insn, 0x100_0000, 32)
      && Field(w, 0x8000_0000, 2) == Field(insn, 0x8000_0000, 2)
  {
    SplitImmediateRange(insn, value);
    SplitImmediateValue(insn, value);
    SplitImmediateKeeps(insn, value);
  }

  lemma SplitImmediateRange(insn: int, value: int)
    requires 0 <= insn < U32
    ensures 0 <= SplitImmediate(insn, value) < U32
  {
    InsertRange(insn, value / 4, 0x20, 0x8_0000, 0x100);
    InsertRange(Insert(insn, value / 4, 0x20, 0x8_0000), value % 4, 0x2000_0000, 4, 2);
  }

  lemma SplitImmediateValue(insn: int, value: int)
    requires FitsSigned(value, 0x10_0000)
    ensures Immediate21(SplitImmediate(insn, value)) == value
  {
    var y := Insert(insn, value / 4, 0x20, 0x8_0000);
    InsertSame(insn, value / 4, 0x20, 0x8_0000);
    InsertBelow(y, value % 4, 0x20, 0x8_0000, 0x20, 4);
    InsertSame(y, value % 4, 0x2000_0000, 4);
    assert Field(Insert(y, value % 4, 0x2000_0000, 4), 0x20, 0x8_0000) == (value / 4) % 0x8_0000;
    Immediate21Of(Insert(y, value % 4, 0x2000_0000, 4), value);
  }

  lemma SplitImmediateKeeps(insn: int, value: int)
    ensures var w := SplitImmediate(insn, value);
      && Field(w, 1, 32) == Field(insn, 1, 32)
      && Field(w, 0x100_0000, 32) == Field(insn, 0x100_0000, 32)
      && Field(w, 0x8000_0000, 2) == Field(insn, 0x8000_0000, 2)
  {
    var y := Insert(insn, value / 4, 0x20, 0x8_0000);
    var w := Insert(y, value % 4, 0x2000_0000, 4);
    assert Field(w, 1, 32) == Field(insn, 1, 32) by {
      InsertBelow(insn, value / 4, 1, 32, 1, 0x8_0000);
      InsertBelow(y, value % 4, 1, 32, 0x100_0000, 4);
    }
    assert Field(w, 0x100_0000, 32) == Field(insn, 0x100_0000, 32) by {
      InsertAbove(insn, value / 4, 0x20, 0x8_0000, 1, 32);
      InsertBelow(y, value % 4, 0x100_0000, 32, 1, 4);
    }
    assert Field(w, 0x8000_0000, 2) == Field(insn, 0x8000_0000, 2) by {
      InsertAbove(insn, value / 4, 0x20, 0x8_0000, 0x80, 2);
      InsertAbove(y, value % 4, 0x2000_0000, 4, 1, 2);
    }
  }

  lemma Immediate21Of(w: int, value: int)
    requires FitsSigned(value, 0x10_0000)
    requires Field(w, 0x20, 0x8_0000) == (value / 4) % 0x8_0000
    requires Field(w, 0x2000_0000, 4) == value % 4
    ensures Immediate21(w) == value
  {
    if value >= 0 {
      DivModUnique(value / 4, 0, value / 4, 0x8_0000);
    } else {
      DivModUnique(value / 4, -1, value / 4 + 0x8_0000, 0x8_0000);
    }
  }

  lemma AddFields(insn: int, value: int)
    requires 0 <= insn < U32
    ensures var w := Insert(insn, value, 0x400, PAGE);
      && 0 <= w < U32
      && Field(w, 0x400, PAGE) == value % PAGE
      && Field(w, 1, 32) == Field(insn, 1, 32)
      && Field(w, 32, 32) == Field(insn, 32, 32)
      && Field(w, 0x40_0000, 0x400) == Field(insn, 0x40_0000, 0x400)
  {
    InsertRange(insn, value, 0x400, PAGE, 0x400);
    InsertSame(insn, value, 0x400, PAGE);
    InsertBelow(insn, value, 1, 32, 32, PAGE);
    InsertBelow(insn, value, 32, 32, 1, PAGE);
    InsertAbove(insn, value, 0x400, PAGE, 1, 0x400);
  }

  lemma PageDelta(at: nat, target: nat)
    ensures (Page(target) - Page(at)) % PAGE == 0
    ensures Wrap(Page(target) - Page(at), U64) % PAGE == 0
  {
    var d := Page(target) - Page(at);
    assert d == (target / PAGE - at / PAGE) * PAGE;
    ModAddMultiple(0, target / PAGE - at / PAGE, PAGE);
    var w := Wrap(d, U64);
    WrapMod(d, U64);
    var k := (w - d) / U64;
    assert w == d + (k * 0x10_0000_0000_0000) * PAGE;
    ModAddMultiple(d, k * 0x10_0000_0000_0000, PAGE);
  }

  /** The words of a thunk, run at its address, leave control at the target and change only x16. */
  lemma ThunkReaches(at: nat, target: nat, cpu: Cpu)
    requires at < U64 && target < U64 && Thunk(at, target).Ok?
    requires cpu.pc == at
    ensures var words := Thunk(at, target).value;
      && |words| == THUNK_WORDS
      && (forall i :: 0 <= i < 3 ==> 0 <= words[i] < U32)
      && Run(cpu, DecodeAll(words)) == Some(Cpu(target, cpu.x[16 := target]))
  {
    var pages := Wrap(Page(target) - Page(at), U64);
    ThunkDecoded(at, target);
    AdrpSum(at, target, pages);
    RunThunk(cpu, target, pages / PAGE);
  }

  lemma RunThunk(cpu: Cpu, target: nat, pages: int)
    requires target < U64 && (Page(cpu.pc) + PAGE * pages) % U64 == Page(target)
    ensures Run(cpu, [AdrpInsn(16, pages), AddInsn(16, 16, target % PAGE), BrInsn(16)])
         == Some(Cpu(target, cpu.x[16 := target]))
  {
    var c1, c2 := ThunkStates(cpu, target, pages);
    RunThree(cpu, AdrpInsn(16, pages), AddInsn(16, 16, target % PAGE), BrInsn(16), c1, c2, Cpu(target, c2.x));
  }

  lemma ThunkStates(cpu: Cpu, target: nat, pages: int) returns (c1: Cpu, c2: Cpu)
    requires target < U64 && (Page(cpu.pc) + PAGE * pages) % U64 == Page(target)
    ensures Execute(cpu, AdrpInsn(16, pages)) == Some(c1)
    ensures Execute(c1, AddInsn(16, 16, target % PAGE)) == Some(c2)
    ensures Execute(c2, BrInsn(16)) == Some(Cpu(target, c2.x)) && c2.x == cpu.x[16 := target]
  {
    c1 := Cpu((cpu.pc + 4) % U64, cpu.x[16 := Page(target)]);
    c2 := Cpu((c1.pc + 4) % U64, c1.x[16 := target]);
    ExecuteAdd(c1, target);
  }

  lemma ExecuteAdd(cpu: Cpu, target: nat)
    requires target < U64 && Reg(cpu, 16) == Page(target)
    ensures Execute(cpu, AddInsn(16, 16, target % PAGE)) == Some(Cpu((cpu.pc + 4) % U64, cpu.x[16 := target]))
  {
    DivModUnique(target, 0, target, U64);
  }

  lemma RunThree(cpu: Cpu, i0: Decoded, i1: Decoded, i2: Decoded, c1: Cpu, c2: Cpu, c3: Cpu)
    requires Execute(cpu, i0) == Some(c1) && Execute(c1, i1) == Some(c2) && Execute(c2, i2) == Some(c3)
    ensures Run(cpu, [i0, i1, i2]) == Some(c3)
  {
    assert [i0, i1, i2][1..] == [i1, i2] && [i1, i2][1..] == [i2] && [i2][1..] == [];
    assert Run(c2, [i2]) == Some(c3);
    assert Run(c1, [i1, i2]) == Some(c3);
  }

  lemma ThunkDecoded(at: nat, target: nat)
    requires at < U64 && target < U64 && Thunk(at, target).Ok?
    ensures var words := Thunk(at, target).value;
      && |words| == THUNK_WORDS
      && (forall i :: 0 <= i < 3 ==> 0 <= words[i] < U32)
      && DecodeAll(words) == [AdrpInsn(16, Wrap(Page(target) - Page(at), U64) / PAGE),
                              AddInsn(16, 16, target % PAGE), BrInsn(16)]
  {
    DecodeAdrp(Wrap(Page(target) - Page(at), U64) / PAGE);
    DecodeAdd(target);
    DecodeBr();
  }

  lemma DecodeAdrp(imm: int)
    requires FitsSigned(imm, 0x10_0000)
    ensures 0 <= SplitImmediate(Adrp(16), imm) < U32
    ensures Decode(SplitImmediate(Adrp(16), imm)) == AdrpInsn(16, imm)
  {
    assert Field(Adrp(16), 1, 32) == 16 && Field(Adrp(16), 0x100_0000, 32) == 16;
    AdrpWithImmediate(Adrp(16), imm);
  }

  lemma AdrpWithImmediate(base: int, imm: int)
    requires 0 <= base < U32 && FitsSigned(imm, 0x10_0000)
    requires Field(base, 1, 32) == 16 && Field(base, 0x100_0000, 32) == 16 && Field(base, 0x8000_0000, 2) == 1
    ensures 0 <= SplitImmediate(base, imm) < U32
    ensures Decode(SplitImmediate(base, imm)) == AdrpInsn(16, imm)
  {
    SplitImmediateFields(base, imm);
  }

  lemma AdrpSum(pc: nat, target: nat, pages: int)
    requires target < U64 && pages == Wrap(Page(target) - Page(pc), U64)
    ensures (Page(pc) + PAGE * (pages / PAGE)) % U64 == Page(target)
  {
    PageDelta(pc, target);
    WrapMod(Page(target) - Page(pc), U64);
    ModEqual(Page(pc) + pages, Page(target), U64);
    DivModUnique(Page(target), 0, Page(target), U64);
  }

  lemma DecodeAdd(value: int)
    ensures 0 <= Insert(AddImm(16, 16), value, 0x400, PAGE) < U32
    ensures Decode(Insert(AddImm(16, 16), value, 0x400, PAGE)) == AddInsn(16, 16, value % PAGE)
  {
    var word := Insert(AddImm(16, 16), value, 0x400, PAGE);
    AddFields(AddImm(16, 16), value);
    NotAdrp(word);
  }

  lemma DecodeBr()
    ensures Decode(BR_X16) == BrInsn(16)
  {
  }

  lemma NotAdrp(insn: int)
    requires IsAddImm64(insn)
    ensures !IsAdrp(insn)
  {
    DivDiv(insn, 0x40_0000, 4);
  }

  /** A thunk is refused exactly when the target's page is 4 GiB or more away. */
  lemma ThunkAccepted(at: nat, target: nat)
    requires at < U64 && target < U64
    ensures Thunk(at, target).Ok? <==> FitsSigned(Wrap(Page(target) - Page(at), U64), U32)
  {
    PageDelta(at, target);
  }

  /** Between two addresses of a PE image no thunk is refused. */
  lemma ThunkInImage(at: nat, target: nat)
    requires at < U32 && target < U32
    ensures Thunk(at, target).Ok?
  {
    PageDelta(at, target);
    var d := Page(target) - Page(at);
    SignedOfMod(d, U64);
  }
}
