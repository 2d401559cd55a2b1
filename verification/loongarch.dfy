/**
  LoongArch address building: the page delta of the psABI, the instruction
  fields it is packed into, the 36-bit call pair, and a machine that runs
  the encoded sequences.
 */
module LoongArch {
  import opened Bits
  import opened Results

  function Page(address: int): int
  {
    address - address % 0x1000
  }

  /** `page_delta`: the value of the `pcalau12i` relocations, modulo 2^64. */
  function PageDelta(dest: nat, pc: nat): (delta: nat)
    ensures delta < U64
  {
    var r0 := (Page(dest) - Page(pc)) % U64;
    var r1 := if Field(dest, 0x800, 2) == 1 then (r0 + 0x1000 - U32) % U64 else r0;
    if Field(r1, 0x8000_0000, 2) == 1 then (r1 + U32) % U64 else r1
  }

  datatype Kind = Hi20 | Lo20 | Lo12 | Hi12

  /** `Field::encode` of the four unchecked fields. */
  function Encode(kind: Kind, insn: int, value: int): int
  {
    match kind
    case Hi20 => Insert(insn, Field(value, 0x1000, 0x10_0000), 32, 0x10_0000)
    case Lo20 => Insert(insn, Field(value, U32, 0x10_0000), 32, 0x10_0000)
    case Lo12 => Insert(insn, Field(value, 1, 0x1000), 0x400, 0x1000)
    case Hi12 => Insert(insn, Field(value, 0x10_0000_0000_0000, 0x1000), 0x400, 0x1000)
  }

  /** `call36`: a `pcaddu18i` and `jirl` pair reaching `value` bytes from the first. */
  function Call36(pcaddu18i: int, jirl: int, value: int): Result<(int, int), Overflow>
  {
    var adjusted := value + 0x2_0000;
    if value % 4 != 0 || !FitsSigned(adjusted, 0x20_0000_0000) then Err(Overflow)
    else Ok((Insert(pcaddu18i, Field(adjusted, 0x4_0000, 0x10_0000), 32, 0x10_0000),
             Insert(jirl, Field(value, 4, 0x1_0000), 0x400, 0x1_0000)))
  }

  // ---- The machine ----

  datatype Cpu = Cpu(pc: int, r: map<nat, int>)

  datatype Decoded =
    | Pcalau12i(rd: nat, si20: int)
    | AddiD(rd: nat, rj: nat, si12: int)
    | Lu32iD(rd: nat, si20: int)
    | Lu52iD(rd: nat, rj: nat, ui12: nat)
    | AddD(rd: nat, rj: nat, rk: nat)
    | Pcaddu18i(rd: nat, si20: int)
    | Jirl(rd: nat, rj: nat, offs16: int)
    | Unknown

  function Decode(insn: int): Decoded
  {
    var rd, rj := Field(insn, 1, 32), Field(insn, 32, 32);
    var op7, op10 := Field(insn, 0x200_0000, 0x80), Field(insn, 0x40_0000, 0x400);
    if op7 == 0x0d then Pcalau12i(rd, Signed(Field(insn, 32, 0x10_0000), 0x10_0000))
    else if op7 == 0x0b then Lu32iD(rd, Signed(Field(insn, 32, 0x10_0000), 0x10_0000))
    else if op7 == 0x0f then Pcaddu18i(rd, Signed(Field(insn, 32, 0x10_0000), 0x10_0000))
    else if op10 == 0x0b then AddiD(rd, rj, Signed(Field(insn, 0x400, 0x1000), 0x1000))
    else if op10 == 0x0c then Lu52iD(rd, rj, Field(insn, 0x400, 0x1000))
    else if Field(insn, 0x8000, 0x2_0000) == 0x21 then AddD(rd, rj, Field(insn, 0x400, 32))
    else if Field(insn, 0x400_0000, 0x40) == 0x13 then Jirl(rd, rj, Signed(Field(insn, 0x400, 0x1_0000), 0x1_0000))
    else Unknown
  }

  /** Register 0 reads as zero. */
  function Reg(cpu: Cpu, n: nat): int
  {
    if n != 0 && n in cpu.r then cpu.r[n] else 0
  }

  function Set(cpu: Cpu, rd: nat, value: int): Cpu
  {
    Cpu((cpu.pc + 4) % U64, cpu.r[rd := value % U64])
  }

  function Execute(cpu: Cpu, insn: Decoded): Option<Cpu>
  {
    match insn
    case Pcalau12i(rd, si20) => Some(Set(cpu, rd, Page(cpu.pc) + 0x1000 * si20))
    case AddiD(rd, rj, si12) => Some(Set(cpu, rd, Reg(cpu, rj) + si12))
    case Lu32iD(rd, si20) => Some(Set(cpu, rd, U32 * si20 + Reg(cpu, rd) % U32))
    case Lu52iD(rd, rj, ui12) => Some(Set(cpu, rd, 0x10_0000_0000_0000 * ui12 + Reg(cpu, rj) % 0x10_0000_0000_0000))
    case AddD(rd, rj, rk) => Some(Set(cpu, rd, Reg(cpu, rj) + Reg(cpu, rk)))
    case Pcaddu18i(rd, si20) => Some(Set(cpu, rd, cpu.pc + 0x4_0000 * si20))
    case Jirl(rd, rj, offs16) =>
      Some(Cpu((Reg(cpu, rj) + 4 * offs16) % U64, cpu.r[rd := (cpu.pc + 4) % U64]))
    case Unknown => None
  }

  function Run(cpu: Cpu, insns: seq<Decoded>): Option<Cpu>
    decreases |insns|
  {
    if insns == [] then Some(cpu)
    else
      var next := Execute(cpu, insns[0]);
      if next.None? then None else Run(next.value, insns[1..])
  }

  // ---- What packing leaves in the words ----

  predicate Is1RI20(insn: int, op7: nat, rd: nat)
  {
    Field(insn, 1, 32) == rd && Field(insn, 0x200_0000, 0x80) == op7
  }

  predicate Is2RI12(insn: int, op10: nat, rd: nat, rj: nat)
  {
    Field(insn, 1, 32) == rd && Field(insn, 32, 32) == rj && Field(insn, 0x40_0000, 0x400) == op10
  }

  lemma Packed1RI20(insn: int, v: nat, op7: nat, rd: nat)
    requires Is1RI20(insn, op7, rd) && v < 0x10_0000
    ensures Is1RI20(Insert(insn, v, 32, 0x10_0000), op7, rd)
    ensures Field(Insert(insn, v, 32, 0x10_0000), 32, 0x10_0000) == v
  {
    InsertSame(insn, v, 32, 0x10_0000);
    InsertBelow(insn, v, 1, 32, 1, 0x10_0000);
    InsertAbove(insn, v, 32, 0x10_0000, 1, 0x80);
  }

  lemma Packed2RI12(insn: int, v: nat, op10: nat, rd: nat, rj: nat)
    requires Is2RI12(insn, op10, rd, rj) && v < 0x1000
    ensures Is2RI12(Insert(insn, v, 0x400, 0x1000), op10, rd, rj)
    ensures Field(Insert(insn, v, 0x400, 0x1000), 0x400, 0x1000) == v
  {
    InsertSame(insn, v, 0x400, 0x1000);
    InsertBelow(insn, v, 1, 32, 32, 0x1000);
    InsertBelow(insn, v, 32, 32, 1, 0x1000);
    InsertAbove(insn, v, 0x400, 0x1000, 1, 0x400);
  }

  lemma Decode1RI20(w: int, op7: nat, rd: nat, v: nat)
    requires Is1RI20(w, op7, rd) && Field(w, 32, 0x10_0000) == v
    ensures op7 == 0x0d ==> Decode(w) == Pcalau12i(rd, Signed(v, 0x10_0000))
    ensures op7 == 0x0b ==> Decode(w) == Lu32iD(rd, Signed(v, 0x10_0000))
    ensures op7 == 0x0f ==> Decode(w) == Pcaddu18i(rd, Signed(v, 0x10_0000))
  {
  }

  lemma Decode2RI12(w: int, op10: nat, rd: nat, rj: nat, v: nat)
    requires Is2RI12(w, op10, rd, rj) && Field(w, 0x400, 0x1000) == v
    ensures op10 == 0x0b ==> Decode(w) == AddiD(rd, rj, Signed(v, 0x1000))
    ensures op10 == 0x0c ==> Decode(w) == Lu52iD(rd, rj, v)
  {
    OpcodeParts(w);
  }

  lemma OpcodeParts(w: int)
    ensures Field(w, 0x200_0000, 0x80) == Field(w, 0x40_0000, 0x400) / 8
  {
    DivDiv(w, 0x40_0000, 8);
    var y := w / 0x40_0000;
    assert y == (y / 0x400) * 0x400 + y % 0x400;
    DivModUnique(y / 8, y / 0x400, (y % 0x400) / 8, 0x80);
  }

  // ---- The two code models ----

  /** The page the low part is added to: `dest` rounded to the nearest page. */
  function RoundedPage(dest: nat): int
  {
    Page(dest + 0x800)
  }

  /** The value the normal model's `pcalau12i` has to hold. */
  function RoundedDelta(dest: nat, pc: nat): int
  {
    Wrap(RoundedPage(dest) - Page(pc), U64)
  }

  lemma RoundedPageIs(dest: nat)
    ensures RoundedPage(dest) == dest - Signed(dest % 0x1000, 0x1000)
    ensures Field(dest, 0x800, 2) == 1 <==> 2 * (dest % 0x1000) >= 0x1000
  {
    var q, l := dest / 0x1000, dest % 0x1000;
    if l < 0x800 {
      DivModUnique(dest, 2 * q, l, 0x800);
      DivModUnique(dest + 0x800, q, l + 0x800, 0x1000);
    } else {
      DivModUnique(dest, 2 * q + 1, l - 0x800, 0x800);
      DivModUnique(dest + 0x800, q + 1, l - 0x800, 0x1000);
    }
  }

  /** Adding or dropping multiples of 2^32 keeps the low half. */
  lemma DeltaParts(dest: nat, pc: nat)
    ensures var delta := PageDelta(dest, pc);
      && delta % 0x1000 == 0
      && (Signed(delta % U32, U32) + U32 * (delta / U32) + Signed(dest % 0x1000, 0x1000) % U32
          - (dest - Page(pc))) % U64 == 0
      && (delta - (RoundedPage(dest) - Page(pc))) % U32 == 0
  {
    var delta := PageDelta(dest, pc);
    var d := RoundedPage(dest) - Page(pc);
    var low := Signed(dest % 0x1000, 0x1000);
    var borrow := if Field(dest, 0x800, 2) == 1 then U32 else 0;
    RoundedPageIs(dest);
    assert low % U32 == low + borrow by { if low < 0 { DivModUnique(low, -1, low + U32, U32); } }
    var r1, k := DeltaBeforeCarry(dest, pc);
    assert r1 == d - borrow + U64 * k;
    var k' := DeltaCarry(r1, delta);
    assert delta == r1 + (if r1 % U32 >= 0x8000_0000 then U32 else 0) + U64 * k';
    CarryParts(r1, delta, k');
    DeltaMultiple(dest, pc, r1, k, borrow, delta, k');
    var sum := Signed(delta % U32, U32) + U32 * (delta / U32);
    assert sum == r1 + U64 * k';
    assert sum + low + borrow - (dest - Page(pc)) == 0 + (k + k') * U64;
    ModAddMultiple(0, k + k', U64);
  }

  lemma DeltaBeforeCarry(dest: nat, pc: nat) returns (r1: nat, k: int)
    ensures r1 < U64
    ensures PageDelta(dest, pc) == if Field(r1, 0x8000_0000, 2) == 1 then (r1 + U32) % U64 else r1
    ensures r1 == RoundedPage(dest) - Page(pc) - (if Field(dest, 0x800, 2) == 1 then U32 else 0) + U64 * k
  {
    var d0 := Page(dest) - Page(pc);
    var r0 := d0 % U64;
    var k0 := -(d0 / U64);
    assert r0 == d0 + U64 * k0;
    RoundedPageIs(dest);
    if Field(dest, 0x800, 2) == 1 {
      var t := r0 + 0x1000 - U32;
      r1 := t % U64;
      k := k0 - t / U64;
    } else {
      r1 := r0;
      k := k0;
    }
  }

  lemma DeltaCarry(r1: nat, delta: nat) returns (k: int)
    requires r1 < U64
    requires delta == if Field(r1, 0x8000_0000, 2) == 1 then (r1 + U32) % U64 else r1
    ensures delta == r1 + (if r1 % U32 >= 0x8000_0000 then U32 else 0) + U64 * k
  {
    assert Field(r1, 0x8000_0000, 2) == 1 <==> r1 % U32 >= 0x8000_0000;
    k := if Field(r1, 0x8000_0000, 2) == 1 then -((r1 + U32) / U64) else 0;
  }

  lemma CarryParts(r1: nat, delta: nat, k: int)
    requires delta == r1 + (if r1 % U32 >= 0x8000_0000 then U32 else 0) + U64 * k
    ensures delta % U32 == r1 % U32
    ensures Signed(delta % U32, U32) + U32 * (delta / U32) == r1 + U64 * k
  {
    var c := if r1 % U32 >= 0x8000_0000 then 1 else 0;
    assert delta == r1 + (c + U32 * k) * U32;
    ModAddMultiple(r1, c + U32 * k, U32);
  }

  lemma DeltaMultiple(dest: nat, pc: nat, r1: nat, k: int, borrow: int, delta: nat, k': int)
    requires borrow == 0 || borrow == U32
    requires r1 == RoundedPage(dest) - Page(pc) - borrow + U64 * k
    requires delta == r1 + (if r1 % U32 >= 0x8000_0000 then U32 else 0) + U64 * k'
    ensures delta % 0x1000 == 0
    ensures (delta - (RoundedPage(dest) - Page(pc))) % U32 == 0
  {
    var d := RoundedPage(dest) - Page(pc);
    var c := if r1 % U32 >= 0x8000_0000 then 1 else 0;
    var m := c - borrow / U32 + U32 * (k + k');
    assert delta - d == 0 + m * U32;
    ModAddMultiple(0, m, U32);
    var pages := (dest + 0x800) / 0x1000 - pc / 0x1000;
    assert d == 0x1000 * pages;
    assert delta == 0 + (pages + 0x10_0000 * m) * 0x1000;
    ModAddMultiple(0, pages + 0x10_0000 * m, 0x1000);
  }

  /** The five words of an extreme-model address, built for any registers `a` and `b`. */
  datatype Extreme = Extreme(hi20: int, lo12: int, lo20: int, hi12: int, sum: int)

  predicate IsExtreme(s: Extreme, a: nat, b: nat)
  {
    && 0 < a < 32 && 0 < b < 32 && a != b
    && Is1RI20(s.hi20, 0x0d, a)
    && Is2RI12(s.lo12, 0x0b, b, 0)
    && Is1RI20(s.lo20, 0x0b, b)
    && Is2RI12(s.hi12, 0x0c, b, b)
    && Decode(s.sum) == AddD(a, a, b)
  }

  /** The sequence after relocation: each word packed from the page delta, the low part from `dest`. */
  function Relocated(s: Extreme, dest: nat, pc: nat): Extreme
  {
    var delta := PageDelta(dest, pc);
    s.(hi20 := Encode(Hi20, s.hi20, delta), lo12 := Encode(Lo12, s.lo12, dest),
       lo20 := Encode(Lo20, s.lo20, delta), hi12 := Encode(Hi12, s.hi12, delta))
  }

  lemma RelocatedDecodes(s: Extreme, a: nat, b: nat, dest: nat, pc: nat)
    requires IsExtreme(s, a, b)
    ensures var t, delta := Relocated(s, dest, pc), PageDelta(dest, pc);
      && Decode(t.hi20) == Pcalau12i(a, Signed(Field(delta, 0x1000, 0x10_0000), 0x10_0000))
      && Decode(t.lo12) == AddiD(b, 0, Signed(dest % 0x1000, 0x1000))
      && Decode(t.lo20) == Lu32iD(b, Signed(Field(delta, U32, 0x10_0000), 0x10_0000))
      && Decode(t.hi12) == Lu52iD(b, b, Field(delta, 0x10_0000_0000_0000, 0x1000))
      && Decode(t.sum) == AddD(a, a, b)
  {
    var delta := PageDelta(dest, pc);
    Packed1RI20Decodes(s.hi20, 0x0d, a, Field(delta, 0x1000, 0x10_0000));
    Packed2RI12Decodes(s.lo12, 0x0b, b, 0, Field(dest, 1, 0x1000));
    Packed1RI20Decodes(s.lo20, 0x0b, b, Field(delta, U32, 0x10_0000));
    Packed2RI12Decodes(s.hi12, 0x0c, b, b, Field(delta, 0x10_0000_0000_0000, 0x1000));
  }

  lemma Packed1RI20Decodes(insn: int, op7: nat, rd: nat, v: nat)
    requires Is1RI20(insn, op7, rd) && v < 0x10_0000
    ensures op7 == 0x0d ==> Decode(Insert(insn, v, 32, 0x10_0000)) == Pcalau12i(rd, Signed(v, 0x10_0000))
    ensures op7 == 0x0b ==> Decode(Insert(insn, v, 32, 0x10_0000)) == Lu32iD(rd, Signed(v, 0x10_0000))
    ensures op7 == 0x0f ==> Decode(Insert(insn, v, 32, 0x10_0000)) == Pcaddu18i(rd, Signed(v, 0x10_0000))
  {
    Packed1RI20(insn, v, op7, rd);
    Decode1RI20(Insert(insn, v, 32, 0x10_0000), op7, rd, v);
  }

  lemma Packed2RI12Decodes(insn: int, op10: nat, rd: nat, rj: nat, v: nat)
    requires Is2RI12(insn, op10, rd, rj) && v < 0x1000
    ensures op10 == 0x0b ==> Decode(Insert(insn, v, 0x400, 0x1000)) == AddiD(rd, rj, Signed(v, 0x1000))
    ensures op10 == 0x0c ==> Decode(Insert(insn, v, 0x400, 0x1000)) == Lu52iD(rd, rj, v)
  {
    Packed2RI12(insn, v, op10, rd, rj);
    Decode2RI12(Insert(insn, v, 0x400, 0x1000), op10, rd, rj, v);
  }

  /** What `lu32i.d` and `lu52i.d` leave above the low part. */
  lemma HighHalf(delta: nat, low: int)
    requires delta < U64 && FitsSigned(low, 0x800)
    ensures var t0 := low % U64;
            var t1 := (U32 * Signed(Field(delta, U32, 0x10_0000), 0x10_0000) + t0 % U32) % U64;
            (0x10_0000_0000_0000 * Field(delta, 0x10_0000_0000_0000, 0x1000) + t1 % 0x10_0000_0000_0000) % U64
            == U32 * (delta / U32) + low % U32
  {
    var lo20, hi12 := Field(delta, U32, 0x10_0000), Field(delta, 0x10_0000_0000_0000, 0x1000);
    var h := delta / U32;
    DivDiv(delta, U32, 0x10_0000);
    assert h == 0x10_0000 * hi12 + lo20 by {
      DivModUnique(delta / 0x10_0000_0000_0000, 0, delta / 0x10_0000_0000_0000, 0x1000);
    }
    var t0 := low % U64;
    assert t0 % U32 == low % U32 by {
      var k := if low < 0 then 1 else 0;
      assert t0 == low + (k * U32) * U32;
      ModAddMultiple(low, k * U32, U32);
    }
    var l := low % U32;
    var t1 := (U32 * Signed(lo20, 0x10_0000) + l) % U64;
    assert t1 % 0x10_0000_0000_0000 == U32 * lo20 + l by {
      var j := if 2 * lo20 >= 0x10_0000 then 1 else 0;
      var s := U32 * Signed(lo20, 0x10_0000) + l;
      assert s == U32 * lo20 + l + (-j) * 0x10_0000_0000_0000;
      assert t1 == U32 * lo20 + l + (-j - 0x1000 * (s / U64)) * 0x10_0000_0000_0000;
      ModAddMultiple(U32 * lo20 + l, -j - 0x1000 * (s / U64), 0x10_0000_0000_0000);
      DivModUnique(U32 * lo20 + l, 0, U32 * lo20 + l, 0x10_0000_0000_0000);
    }
    var t2 := 0x10_0000_0000_0000 * hi12 + U32 * lo20 + l;
    DivModUnique(t2, 0, t2, U64);
  }

  lemma PageCount(delta: nat)
    requires delta % 0x1000 == 0
    ensures 0x1000 * Signed(Field(delta, 0x1000, 0x10_0000), 0x10_0000) == Signed(delta % U32, U32)
  {
    var n := delta / 0x1000;
    assert delta == 0x1000 * n && n == (n / 0x10_0000) * 0x10_0000 + n % 0x10_0000;
    DivModUnique(delta, n / 0x10_0000, 0x1000 * (n % 0x10_0000), U32);
  }

  /** The five-instruction sequence leaves exactly `dest` in `a`, for every 64-bit `pc` and `dest`. */
  lemma ExtremeReaches(s: Extreme, a: nat, b: nat, dest: nat, cpu: Cpu)
    requires IsExtreme(s, a, b) && dest < U64 && 0 <= cpu.pc < U64
    ensures var t := Relocated(s, dest, cpu.pc);
            var r := Run(cpu, [Decode(t.hi20), Decode(t.lo12), Decode(t.lo20), Decode(t.hi12), Decode(t.sum)]);
            r.Some? && Reg(r.value, a) == dest
  {
    var delta := PageDelta(dest, cpu.pc);
    RelocatedDecodes(s, a, b, dest, cpu.pc);
    hide Field, Signed, Run, Decode, PageDelta, Page, Relocated, Reg;
    ExtremeRun(cpu, a, b, Signed(Field(delta, 0x1000, 0x10_0000), 0x10_0000), Signed(dest % 0x1000, 0x1000),
               Signed(Field(delta, U32, 0x10_0000), 0x10_0000), Field(delta, 0x10_0000_0000_0000, 0x1000));
    ExtremeArithmetic(dest, cpu.pc);
  }

  lemma ExtremeArithmetic(dest: nat, pc: nat)
    requires dest < U64
    ensures var delta := PageDelta(dest, pc);
      var t1 := (U32 * Signed(Field(delta, U32, 0x10_0000), 0x10_0000)
                 + (Signed(dest % 0x1000, 0x1000) % U64) % U32) % U64;
      ((Page(pc) + 0x1000 * Signed(Field(delta, 0x1000, 0x10_0000), 0x10_0000)) % U64
       + (0x10_0000_0000_0000 * Field(delta, 0x10_0000_0000_0000, 0x1000) + t1 % 0x10_0000_0000_0000) % U64) % U64
      == dest
  {
    var delta := PageDelta(dest, pc);
    var low := Signed(dest % 0x1000, 0x1000);
    DeltaParts(dest, pc);
    PageCount(delta);
    HighHalf(delta, low);
    ExtremeSum(Page(pc) + Signed(delta % U32, U32), U32 * (delta / U32) + low % U32, dest);
  }

  lemma ExtremeSum(x: int, y: int, dest: nat)
    requires dest < U64 && (x + y - dest) % U64 == 0
    ensures (x % U64 + y) % U64 == dest
  {
    ModEqual(x + y, dest, U64);
    DivModUnique(dest, 0, dest, U64);
    assert x == (x / U64) * U64 + x % U64;
    ModAddMultiple(x % U64 + y, x / U64, U64);
  }

  lemma ExtremeRun(cpu: Cpu, a: nat, b: nat, hi20: int, low: int, lo20: int, hi12: nat)
    requires 0 < a && 0 < b && a != b
    ensures var r := Run(cpu, [Pcalau12i(a, hi20), AddiD(b, 0, low), Lu32iD(b, lo20), Lu52iD(b, b, hi12), AddD(a, a, b)]);
      var t1 := (U32 * lo20 + (low % U64) % U32) % U64;
      r.Some? && Reg(r.value, a)
        == ((Page(cpu.pc) + 0x1000 * hi20) % U64
            + (0x10_0000_0000_0000 * hi12 + t1 % 0x10_0000_0000_0000) % U64) % U64
  {
    hide Page, Run;
    var i := [Pcalau12i(a, hi20), AddiD(b, 0, low), Lu32iD(b, lo20), Lu52iD(b, b, hi12), AddD(a, a, b)];
    var c1 := Set(cpu, a, Page(cpu.pc) + 0x1000 * hi20);
    var c2 := Set(c1, b, 0 + low);
    var c3 := Set(c2, b, U32 * lo20 + Reg(c2, b) % U32);
    var c4 := Set(c3, b, 0x10_0000_0000_0000 * hi12 + Reg(c3, b) % 0x10_0000_0000_0000);
    var c5 := Set(c4, a, Reg(c4, a) + Reg(c4, b));
    RunFive(cpu, i, c1, c2, c3, c4, c5);
  }

  lemma RunFive(cpu: Cpu, i: seq<Decoded>, c1: Cpu, c2: Cpu, c3: Cpu, c4: Cpu, c5: Cpu)
    requires |i| == 5
    requires Execute(cpu, i[0]) == Some(c1) && Execute(c1, i[1]) == Some(c2) && Execute(c2, i[2]) == Some(c3)
    requires Execute(c3, i[3]) == Some(c4) && Execute(c4, i[4]) == Some(c5)
    ensures Run(cpu, i) == Some(c5)
  {
    assert Run(c4, i[4..]) == Some(c5) by { assert i[4..][1..] == []; }
    assert Run(c3, i[3..]) == Some(c5) by { assert i[3..][1..] == i[4..]; }
    assert Run(c2, i[2..]) == Some(c5) by { assert i[2..][1..] == i[3..]; }
    assert Run(c1, i[1..]) == Some(c5) by { assert i[1..][1..] == i[2..]; }
  }

  /** The two-instruction normal model reaches `dest` exactly when the rounded page delta fits 32 bits. */
  lemma NormalReaches(hi20: int, lo12: int, a: nat, dest: nat, cpu: Cpu)
    requires 0 < a < 32 && Is1RI20(hi20, 0x0d, a) && Is2RI12(lo12, 0x0b, a, a)
    requires dest < U64 && 0 <= cpu.pc < U64
    ensures var r := Run(cpu, [Decode(Encode(Hi20, hi20, PageDelta(dest, cpu.pc))), Decode(Encode(Lo12, lo12, dest))]);
      r.Some? && (Reg(r.value, a) == dest <==> FitsSigned(RoundedDelta(dest, cpu.pc), 0x8000_0000))
  {
    var pc := cpu.pc;
    var delta := PageDelta(dest, pc);
    var n, low := Signed(Field(delta, 0x1000, 0x10_0000), 0x10_0000), Signed(dest % 0x1000, 0x1000);
    assert Field(dest, 1, 0x1000) == dest % 0x1000;
    hide Field, Signed, Run, Decode, PageDelta, Page, RoundedDelta, Insert, Reg, Is1RI20, Is2RI12;
    Packed1RI20Decodes(hi20, 0x0d, a, Field(delta, 0x1000, 0x10_0000));
    Packed2RI12Decodes(lo12, 0x0b, a, a, Field(dest, 1, 0x1000));
    NormalRun(cpu, a, n, low);
    NormalArithmetic(dest, pc);
  }

  lemma NormalArithmetic(dest: nat, pc: nat)
    requires dest < U64
    ensures var n := Signed(Field(PageDelta(dest, pc), 0x1000, 0x10_0000), 0x10_0000);
      ((Page(pc) + 0x1000 * n) % U64 + Signed(dest % 0x1000, 0x1000)) % U64 == dest
      <==> FitsSigned(RoundedDelta(dest, pc), 0x8000_0000)
  {
    var delta := PageDelta(dest, pc);
    DeltaParts(dest, pc);
    PageCount(delta);
    NormalSum(Page(pc), Signed(delta % U32, U32), Signed(dest % 0x1000, 0x1000), dest, delta);
  }

  lemma NormalRun(cpu: Cpu, a: nat, n: int, low: int)
    requires 0 < a
    ensures var r := Run(cpu, [Pcalau12i(a, n), AddiD(a, a, low)]);
      r.Some? && Reg(r.value, a) == ((Page(cpu.pc) + 0x1000 * n) % U64 + low) % U64
  {
    var c1 := Set(cpu, a, Page(cpu.pc) + 0x1000 * n);
    RunTwo(cpu, Pcalau12i(a, n), AddiD(a, a, low), c1, Set(c1, a, Reg(c1, a) + low));
  }

  lemma RunTwo(cpu: Cpu, i0: Decoded, i1: Decoded, c1: Cpu, c2: Cpu)
    requires Execute(cpu, i0) == Some(c1) && Execute(c1, i1) == Some(c2)
    ensures Run(cpu, [i0, i1]) == Some(c2)
  {
    assert [i0, i1][1..] == [i1] && [i1][1..] == [];
    assert Run(c1, [i1]) == Some(c2);
  }

  lemma NormalSum(base: int, h: int, low: int, dest: nat, delta: nat)
    requires dest < U64 && low == Signed(dest % 0x1000, 0x1000)
    requires h == Signed(delta % U32, U32) && (delta - (RoundedPage(dest) - base)) % U32 == 0
    ensures ((base + h) % U64 + low) % U64 == dest <==> FitsSigned(Wrap(RoundedPage(dest) - base, U64), 0x8000_0000)
  {
    var d := RoundedPage(dest) - base;
    var w := Wrap(d, U64);
    RoundedPageIs(dest);
    WrapMod(d, U64);
    // h is the low half of d, sign-extended.
    ModEqual(delta, d, U32);
    assert h == Wrap(d, U32);
    LowHalfOfWrap(d);
    assert h == Wrap(w, U32);
    // The sum is dest exactly when h and d agree modulo 2^64.
    assert base + h == ((base + h) / U64) * U64 + (base + h) % U64;
    ModAddMultiple((base + h) % U64 + low, (base + h) / U64, U64);
    ModEqual(base + h + low, dest, U64);
    DivModUnique(dest, 0, dest, U64);
    assert base + h + low - dest == h - d;
    ModEqual(h, d, U64);
    assert ((base + h) % U64 + low) % U64 == dest <==> h % U64 == d % U64;
    ModEqual(h, w, U64);
    if FitsSigned(w, 0x8000_0000) {
      SignedOfMod(w, U32);
    } else if (h - w) % U64 == 0 {
      SignedOfMod(h, U64);
      SignedOfMod(w, U64);
    }
  }

  lemma LowHalfOfWrap(d: int)
    ensures Wrap(Wrap(d, U64), U32) == Wrap(d, U32)
    ensures FitsSigned(Wrap(d, U64), 0x8000_0000_0000_0000)
  {
    var w := Wrap(d, U64);
    WrapMod(d, U64);
    var k := (w - d) / U64;
    assert w == d + (U32 * k) * U32;
    ModAddMultiple(d, U32 * k, U32);
  }

  // ---- The 36-bit call ----

  predicate IsCallPair(pcaddu18i: int, jirl: int, a: nat, link: nat)
  {
    && 0 < a < 32
    && Is1RI20(pcaddu18i, 0x0f, a)
    && Field(jirl, 1, 32) == link && Field(jirl, 32, 32) == a && Field(jirl, 0x400_0000, 0x40) == 0x13
  }

  lemma PackedJirl(jirl: int, v: nat, a: nat, link: nat)
    requires Field(jirl, 1, 32) == link && Field(jirl, 32, 32) == a && Field(jirl, 0x400_0000, 0x40) == 0x13
    requires v < 0x1_0000
    ensures Decode(Insert(jirl, v, 0x400, 0x1_0000)) == Jirl(link, a, Signed(v, 0x1_0000))
  {
    var w := Insert(jirl, v, 0x400, 0x1_0000);
    InsertSame(jirl, v, 0x400, 0x1_0000);
    InsertBelow(jirl, v, 1, 32, 32, 0x1_0000);
    InsertBelow(jirl, v, 32, 32, 1, 0x1_0000);
    InsertAbove(jirl, v, 0x400, 0x1_0000, 1, 0x40);
    DecodeJirl(w, v, a, link);
  }

  lemma DecodeJirl(w: int, v: nat, a: nat, link: nat)
    requires Field(w, 1, 32) == link && Field(w, 32, 32) == a && Field(w, 0x400_0000, 0x40) == 0x13
    requires Field(w, 0x400, 0x1_0000) == v
    ensures Decode(w) == Jirl(link, a, Signed(v, 0x1_0000))
  {
    var y := w / 0x400_0000;
    DivDiv(w, 0x200_0000, 2);
    DivDiv(w, 0x40_0000, 16);
    DivDiv(w, 0x8000, 0x800);
    JirlOpcode(w / 0x200_0000, w / 0x40_0000, w / 0x8000);
  }

  lemma JirlOpcode(x7: int, x10: int, x17: int)
    requires (x7 / 2) % 0x40 == 0x13 && (x10 / 16) % 0x40 == 0x13 && (x17 / 0x800) % 0x40 == 0x13
    ensures x7 % 0x80 != 0x0d && x7 % 0x80 != 0x0b && x7 % 0x80 != 0x0f
    ensures x10 % 0x400 != 0x0b && x10 % 0x400 != 0x0c && x17 % 0x2_0000 != 0x21
  {
    HighOfMod(x7, 2, 0x40);
    HighOfMod(x10, 16, 0x40);
    HighOfMod(x17, 0x800, 0x40);
  }

  lemma HighOfMod(x: int, d: nat, w: nat)
    requires 0 < d && 0 < w
    ensures 0 < d * w && (x % (d * w)) / d == (x / d) % w
  {
    Split(x, d, w);
    var h, f, l := x / d / w, Field(x, d, w), x % d;
    LowPart(f, l, d, w);
    Distribute(h, w, f, d);
    DivModUnique(x, h, f * d + l, d * w);
    DivModUnique(f * d + l, f, l, d);
  }

  /** An accepted call goes `value` bytes on from the pair, for every value it accepts, and links past the pair. */
  lemma Call36Reaches(pcaddu18i: int, jirl: int, a: nat, link: nat, value: int, cpu: Cpu)
    requires IsCallPair(pcaddu18i, jirl, a, link) && Call36(pcaddu18i, jirl, value).Ok?
    ensures var (first, second) := Call36(pcaddu18i, jirl, value).value;
            var r := Run(cpu, [Decode(first), Decode(second)]);
            && r.Some? && r.value.pc == (cpu.pc + value) % U64
            && (link != 0 ==> Reg(r.value, link) == (cpu.pc + 8) % U64)
  {
    hide *;
    Call36Decodes(pcaddu18i, jirl, a, link, value);
    var (hi, lo) := (CallHigh(value), CallLow(value));
    Call36Run(cpu, a, link, hi, lo);
    CallFits(pcaddu18i, jirl, value);
    Call36Sum(value);
    assert 0x4_0000 * hi + 4 * lo == value;
  }

  /** The two immediates of a call, as the instructions read them. */
  function CallHigh(value: int): int
  {
    Signed(Field(value + 0x2_0000, 0x4_0000, 0x10_0000), 0x10_0000)
  }

  function CallLow(value: int): int
  {
    Signed(Field(value, 4, 0x1_0000), 0x1_0000)
  }

  lemma CallFits(pcaddu18i: int, jirl: int, value: int)
    ensures Call36(pcaddu18i, jirl, value).Ok? <==> value % 4 == 0 && FitsSigned(value + 0x2_0000, 0x20_0000_0000)
  {
    hide Field, Insert;
  }

  lemma Call36Decodes(pcaddu18i: int, jirl: int, a: nat, link: nat, value: int)
    requires IsCallPair(pcaddu18i, jirl, a, link) && Call36(pcaddu18i, jirl, value).Ok?
    ensures a > 0 && var (first, second) := Call36(pcaddu18i, jirl, value).value;
      Decode(first) == Pcaddu18i(a, CallHigh(value)) && Decode(second) == Jirl(link, a, CallLow(value))
  {
    var (hi, lo) := (Field(value + 0x2_0000, 0x4_0000, 0x10_0000), Field(value, 4, 0x1_0000));
    hide Field, Insert, Signed, Decode;
    Packed1RI20Decodes(pcaddu18i, 0x0f, a, hi);
    PackedJirl(jirl, lo, a, link);
  }

  /** The pair can go so far: a signed number of 256 KiB steps, and a signed number of words. */
  ghost predicate CallGoes(value: int)
  {
    exists hi: int, lo: int {:trigger Steps(hi, lo)} ::
      -0x8_0000 <= hi < 0x8_0000 && -0x8000 <= lo < 0x8000 && value == Steps(hi, lo)
  }

  function Steps(hi: int, lo: int): int
  {
    0x4_0000 * hi + 4 * lo
  }

  /** A call is accepted exactly when the pair can go that far: 128 GiB either way, less 128 KiB ahead and that much more behind. */
  lemma Call36Accepted(pcaddu18i: int, jirl: int, value: int)
    ensures Call36(pcaddu18i, jirl, value).Ok? <==> CallGoes(value)
    ensures CallGoes(value) <==> value % 4 == 0 && -0x20_0000_0000 - 0x2_0000 <= value < 0x20_0000_0000 - 0x2_0000
  {
    if value % 4 == 0 && FitsSigned(value + 0x2_0000, 0x20_0000_0000) {
      var hi := (value + 0x2_0000) / 0x4_0000;
      var lo := (value - 0x4_0000 * hi) / 4;
      assert value == Steps(hi, lo);
    }
    hide Insert, Field;
  }

  lemma Call36Run(cpu: Cpu, a: nat, link: nat, hi: int, lo: int)
    requires 0 < a
    ensures var r := Run(cpu, [Pcaddu18i(a, hi), Jirl(link, a, lo)]);
      && r.Some? && r.value.pc == (cpu.pc + (0x4_0000 * hi + 4 * lo)) % U64
      && (link != 0 ==> Reg(r.value, link) == (cpu.pc + 8) % U64)
  {
    var x := cpu.pc + 0x4_0000 * hi;
    var c1 := Set(cpu, a, x);
    var c2 := Cpu((x % U64 + 4 * lo) % U64, c1.r[link := (c1.pc + 4) % U64]);
    RunTwo(cpu, Pcaddu18i(a, hi), Jirl(link, a, lo), c1, c2);
    AddAfterMod(x, 4 * lo);
    AddAfterMod(cpu.pc + 4, 4);
  }

  lemma AddAfterMod(x: int, y: int)
    ensures (x % U64 + y) % U64 == (x + y) % U64
  {
    assert x == (x / U64) * U64 + x % U64;
    ModAddMultiple(x % U64 + y, x / U64, U64);
  }

  lemma Call36Sum(value: int)
    requires value % 4 == 0 && FitsSigned(value + 0x2_0000, 0x20_0000_0000)
    ensures 0x4_0000 * CallHigh(value) + 4 * CallLow(value) == value
  {
    var n := (value + 0x2_0000) / 0x4_0000;
    SignedOfMod(n, 0x10_0000);
    var rest := value - 0x4_0000 * n;
    assert FitsSigned(rest, 0x2_0000);
    assert value / 4 == rest / 4 + n * 0x1_0000;
    ModAddMultiple(rest / 4, n, 0x1_0000);
    SignedOfMod(rest / 4, 0x1_0000);
  }
}
