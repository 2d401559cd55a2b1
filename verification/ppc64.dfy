/**
  PowerPC64: the TOC-relative fields whose `addis` may become a `nop`, the
  call stubs and range-extension thunks, and a machine that runs them.
 */
module Ppc64 {
  import opened Bits
  import opened Results

  datatype EncodeError = TooFar | BadInstruction

  const NOP: nat := 0x6000_0000
  const STD_R2_24_R1: nat := 0xf841_0018
  const MTCTR_R12: nat := 0x7d89_03a6
  const BCTR: nat := 0x4e80_0420
  const TRAP: nat := 0x7fe0_0008

  function Lo(value: int): (r: nat) { value % U16 }

  function Ha(value: int): (r: nat) { ((value + 0x8000) / U16) % U16 }

  /** `ha_is_zero`, on the 64-bit value. */
  predicate HaIsZero(value: int)
  {
    (value + 0x8000) % U64 / U16 == 0
  }

  function Opcode(insn: int): nat { Field(insn, 0x400_0000, 64) }

  function Rt(insn: int): nat { Field(insn, 0x20_0000, 32) }

  function Ra(insn: int): nat { Field(insn, U16, 32) }

  predicate IsDqForm(insn: int)
  {
    var op := Opcode(insn);
    op == 6 || op == 56 || (op == 61 && insn % 4 == 1)
  }

  predicate IsUpdateForm(insn: int)
  {
    var op := Opcode(insn);
    || op in {33, 35, 41, 43, 49, 51, 37, 39, 45, 53, 55}
    || (op in {58, 62} && insn % 4 == 1)
  }

  /** How many values the low bits of a DS or DQ displacement keep for the form. */
  function FormValues(insn: int): (r: nat)
    ensures r == 4 || r == 16
  {
    if IsDqForm(insn) then 16 else 4
  }

  datatype Kind = HaToc | LoToc | LoDsToc | LoDsToAddi

  /** The low halfword of `insn` replaced. */
  function WithHalf(insn: int, half: int): int { Insert(insn, half, 1, U16) }

  /** The base register of `insn` replaced by the TOC pointer. */
  function WithTocBase(insn: int): int { Insert(insn, 2, U16, 32) }

  /** `Field::encode32` of the TOC-relative fields. */
  function Encode(kind: Kind, insn: int, value: int): Result<int, EncodeError>
  {
    match kind
    case HaToc =>
      if HaIsZero(value) then Ok(NOP)
      else if !FitsSigned(Wrap(value + 0x8000, U64), 0x8000_0000) then Err(TooFar)
      else Ok(WithHalf(insn, Ha(value)))
    case LoToc => EncodeLo(insn, value)
    case LoDsToc =>
      var m := FormValues(insn);
      if Lo(value) % m != 0 then Err(TooFar)
      else if HaIsZero(value) then
        if IsUpdateForm(insn) then Err(BadInstruction)
        else Ok(WithHalf(WithTocBase(insn), Lo(value) + insn % m))
      else Ok(WithHalf(insn, Lo(value) + insn % m))
    case LoDsToAddi =>
      if Opcode(insn) != 58 then Err(BadInstruction)
      else EncodeLo(Insert(insn, 14, 0x400_0000, 64), value)
  }

  function EncodeLo(insn: int, value: int): Result<int, EncodeError>
  {
    if HaIsZero(value) then
      if IsUpdateForm(insn) then Err(BadInstruction)
      else Ok(WithHalf(WithTocBase(insn), Lo(value)))
    else Ok(WithHalf(insn, Lo(value)))
  }

  // ---- The machine ----

  datatype Cpu = Cpu(pc: int, lr: int, ctr: int, r: map<nat, int>, mem: map<int, int>)

  /** A register as a base: number 0 reads as zero. */
  function Base(r: map<nat, int>, n: nat): int
  {
    if n != 0 && n in r then r[n] else 0
  }

  function Gpr(r: map<nat, int>, n: nat): int
  {
    if n in r then r[n] else 0
  }

  function Load(mem: map<int, int>, address: int): int
  {
    if address in mem then mem[address] else 0
  }

  /** The displacement a D-, DS- or DQ-form instruction adds to its base. */
  function Displacement(insn: int): int
  {
    var d := Field(insn, 1, U16);
    Signed(if IsSplitForm(insn) then d - d % FormValues(insn) else d, U16)
  }

  /** The opcodes whose displacement shares the halfword with form bits. */
  predicate IsSplitForm(insn: int)
  {
    Opcode(insn) in {6, 56, 57, 58, 61, 62}
  }

  /** The address a load or store names, or the sum an `addi` computes. */
  function Effective(r: map<nat, int>, insn: int): int
  {
    (Base(r, Ra(insn)) + Displacement(insn)) % U64
  }

  /** An `addis` or the `nop` that replaces it. */
  function RunHigh(r: map<nat, int>, insn: int): map<nat, int>
  {
    if insn == NOP then r
    else r[Rt(insn) := (Base(r, Ra(insn)) + U16 * Signed(Field(insn, 1, U16), U16)) % U64]
  }

  // ---- High and low halves ----

  lemma HaLo(value: int)
    requires FitsSigned(value + 0x8000, 0x8000_0000)
    ensures U16 * Signed(Ha(value), U16) + Signed(Lo(value), U16) == value
  {
    var n := (value + 0x8000) / U16;
    SignedOfMod(n, U16);
    ModAddMultiple(value - U16 * n, n, U16);
    SignedOfMod(value - U16 * n, U16);
  }

  /** The halves of every value `HaToc` accepts add up to it, and a zero `#ha` means a 16-bit value. */
  lemma TocHalves(value: int)
    requires FitsSigned(value, 0x8000_0000_0000_0000)
    ensures HaIsZero(value) ==> Signed(Lo(value), U16) == value
    ensures FitsSigned(Wrap(value + 0x8000, U64), 0x8000_0000)
        ==> (U16 * Signed(Ha(value), U16) + Signed(Lo(value), U16) - value) % U64 == 0
  {
    var s := value + 0x8000;
    var w := Wrap(s, U64);
    WrapMod(s, U64);
    if HaIsZero(value) {
      assert 0 <= s % U64 < U16;
      assert s == (s / U64) * U64 + s % U64;
      assert s / U64 == 0 by {
        if s < 0 { DivModUnique(s, -1, s + U64, U64); }
      }
      SignedOfMod(value, U16);
    }
    if FitsSigned(w, 0x8000_0000) {
      var k := (w - s) / U64;
      var v' := value + U64 * k;
      assert w == v' + 0x8000;
      HaLo(v');
      assert v' == value + (0x1_0000_0000_0000 * k) * U16;
      ModAddMultiple(value, 0x1_0000_0000_0000 * k, U16);
      ModAddMultiple(value + 0x8000, 0x1_0000_0000_0000 * k, U16);
      ModAddMultiple((value + 0x8000) / U16, 0x1_0000_0000 * k, U16);
      assert Ha(v') == Ha(value) && Lo(v') == Lo(value);
      ModAddMultiple(0, k, U64);
    }
  }

  // ---- What packing keeps ----

  lemma WithHalfKeeps(insn: int, half: int)
    ensures var w := WithHalf(insn, half);
      Opcode(w) == Opcode(insn) && Rt(w) == Rt(insn) && Ra(w) == Ra(insn) && Field(w, 1, U16) == half % U16
  {
    InsertSame(insn, half, 1, U16);
    InsertAbove(insn, half, 1, U16, 0x400, 64);
    InsertAbove(insn, half, 1, U16, 32, 32);
    InsertAbove(insn, half, 1, U16, 1, 32);
  }

  lemma WithTocBaseKeeps(insn: int)
    ensures var w := WithTocBase(insn);
      Opcode(w) == Opcode(insn) && Rt(w) == Rt(insn) && Ra(w) == 2 && Field(w, 1, U16) == Field(insn, 1, U16)
  {
    InsertSame(insn, 2, U16, 32);
    InsertAbove(insn, 2, U16, 32, 32, 64);
    InsertAbove(insn, 2, U16, 32, 1, 32);
    InsertBelow(insn, 2, 1, U16, 1, 32);
  }

  lemma AddiKeeps(insn: int)
    ensures var w := Insert(insn, 14, 0x400_0000, 64);
      Opcode(w) == 14 && Rt(w) == Rt(insn) && Ra(w) == Ra(insn)
  {
    InsertSame(insn, 14, 0x400_0000, 64);
    InsertBelow(insn, 14, 0x20_0000, 32, 1, 64);
    InsertBelow(insn, 14, U16, 32, 32, 64);
  }

  lemma LowBits(insn: int)
    ensures Field(insn, 1, U16) % 4 == insn % 4 && Field(insn, 1, U16) % 16 == insn % 16
  {
    var q := insn / U16;
    assert insn == q * U16 + insn % U16;
    ModAddMultiple(insn % U16, q * 0x1000, 16);
    ModAddMultiple(insn % U16, q * 0x4000, 4);
  }

  /** What one low half turns into, whichever way it is written. */
  lemma LowHalf(kind: Kind, insn: int, value: int)
    requires !kind.HaToc? && Encode(kind, insn, value).Ok?
    requires kind.LoToc? ==> !IsSplitForm(insn)
    requires kind.LoDsToc? ==> IsSplitForm(insn)
    ensures var w := Encode(kind, insn, value).value;
      && Rt(w) == Rt(insn)
      && Ra(w) == (if HaIsZero(value) then 2 else Ra(insn))
      && Opcode(w) == (if kind.LoDsToAddi? then 14 else Opcode(insn))
      && Displacement(w) == Signed(Lo(value), U16)
      && (kind.LoDsToc? ==> FormValues(w) == FormValues(insn) && w % FormValues(w) == insn % FormValues(insn))
  {
    match kind
    case LoToc => LowHalfPlain(insn, value);
    case LoDsToAddi =>
      AddiKeeps(insn);
      LowHalfPlain(Insert(insn, 14, 0x400_0000, 64), value);
    case LoDsToc =>
      var half := Lo(value) + insn % FormValues(insn);
      SplitHalf(value, insn);
      if HaIsZero(value) {
        WithTocBaseKeeps(insn);
        LowHalfSplit(insn, WithTocBase(insn), value, half);
      } else {
        LowHalfSplit(insn, insn, value, half);
      }
  }

  lemma LowHalfPlain(insn: int, value: int)
    requires EncodeLo(insn, value).Ok? && !IsSplitForm(insn)
    ensures var w := EncodeLo(insn, value).value;
      && Rt(w) == Rt(insn) && Opcode(w) == Opcode(insn)
      && Ra(w) == (if HaIsZero(value) then 2 else Ra(insn))
      && Displacement(w) == Signed(Lo(value), U16)
  {
    if HaIsZero(value) {
      WithTocBaseKeeps(insn);
      PlainWithHalf(WithTocBase(insn), Lo(value));
    } else {
      PlainWithHalf(insn, Lo(value));
    }
  }

  lemma PlainWithHalf(insn: int, half: nat)
    requires half < U16 && !IsSplitForm(insn)
    ensures var w := WithHalf(insn, half);
      && Opcode(w) == Opcode(insn) && Rt(w) == Rt(insn) && Ra(w) == Ra(insn)
      && Displacement(w) == Signed(half, U16)
  {
    WithHalfKeeps(insn, half);
    PlainDisplacement(WithHalf(insn, half), half);
  }

  lemma PlainDisplacement(w: int, half: nat)
    requires half < U16 && !IsSplitForm(w) && Field(w, 1, U16) == half % U16
    ensures Displacement(w) == Signed(half, U16)
  {
  }

  lemma SplitHalf(value: int, insn: int)
    requires Lo(value) % FormValues(insn) == 0
    ensures var m := FormValues(insn);
      var half := Lo(value) + insn % m;
      0 <= half < U16 && half - half % m == Lo(value) && half % m == insn % m
  {
    var m, lo := FormValues(insn), Lo(value);
    DivModUnique(lo + insn % m, lo / m, insn % m, m);
  }

  lemma LowHalfSplit(insn: int, base: int, value: int, half: nat)
    requires IsSplitForm(insn) && Opcode(base) == Opcode(insn) && Rt(base) == Rt(insn)
    requires half < U16 && half % FormValues(insn) == insn % FormValues(insn)
    requires half - half % FormValues(insn) == Lo(value)
    ensures var w := WithHalf(base, half);
      && Rt(w) == Rt(insn) && Ra(w) == Ra(base) && Opcode(w) == Opcode(insn)
      && FormValues(w) == FormValues(insn) && w % FormValues(w) == insn % FormValues(insn)
      && Displacement(w) == Signed(Lo(value), U16)
  {
    WithHalfKeeps(base, half);
    SplitDisplacement(WithHalf(base, half), insn, half);
  }

  lemma SplitDisplacement(w: int, insn: int, half: nat)
    requires IsSplitForm(insn) && Opcode(w) == Opcode(insn)
    requires half < U16 && Field(w, 1, U16) == half % U16 && half % FormValues(insn) == insn % FormValues(insn)
    ensures FormValues(w) == FormValues(insn) && w % FormValues(w) == insn % FormValues(insn)
    ensures Displacement(w) == Signed(half - half % FormValues(insn), U16)
  {
    LowBits(w);
    SameForm(w, insn, half);
  }

  lemma SameForm(w: int, insn: int, half: nat)
    requires Opcode(w) == Opcode(insn)
    requires half % FormValues(insn) == insn % FormValues(insn)
    requires half % 4 == w % 4 && half % 16 == w % 16
    ensures FormValues(w) == FormValues(insn)
  {
    Mod16Mod4(insn);
    Mod16Mod4(half);
  }

  lemma Mod16Mod4(x: int)
    ensures (x % 16) % 4 == x % 4
  {
  }

  // ---- The TOC rewrite preserves the address ----

  /**
    Whichever way a TOC-relative pair is written, the low instruction reaches
    the TOC base plus the value and keeps its target register and form.
   */
  lemma TocPairReaches(kind: Kind, addis: int, low: int, value: int, r: map<nat, int>, h: int, l: int)
    requires kind in {LoToc, LoDsToc, LoDsToAddi} && FitsSigned(value, 0x8000_0000_0000_0000)
    requires kind.LoToc? ==> !IsSplitForm(low)
    requires kind.LoDsToc? ==> IsSplitForm(low)
    requires Opcode(addis) == 15 && Ra(addis) == 2 && Rt(addis) == Ra(low) && Ra(low) != 0
    requires Encode(HaToc, addis, value) == Ok(h) && Encode(kind, low, value) == Ok(l)
    ensures Effective(RunHigh(r, h), l) == (Gpr(r, 2) + value) % U64
    ensures Rt(l) == Rt(low)
    ensures Opcode(l) == if kind.LoDsToAddi? then 14 else Opcode(low)
    ensures kind.LoDsToc? ==> l % FormValues(l) == low % FormValues(low)
  {
    LowHalf(kind, low, value);
    TocHigh(addis, value, r);
    EffectiveSum(Ra(low), l, value, r, RunHigh(r, h));
  }

  // ---- What is accepted ----

  /** A value a signed halfword holds: 32 KiB either way. */
  predicate NearToc(value: int)
  {
    -0x8000 <= value < 0x8000
  }

  /** A value an `addis` and a signed halfword make up: 65536 times one, plus the other. */
  ghost predicate PairHolds(value: int)
  {
    exists high: int, low: int {:trigger Pair(high, low)} :: NearToc(high) && NearToc(low) && value == Pair(high, low)
  }

  function Pair(high: int, low: int): int
  {
    U16 * high + low
  }

  lemma HaIsNear(value: int)
    requires FitsSigned(value, 0x8000_0000_0000_0000)
    ensures HaIsZero(value) <==> NearToc(value)
  {
    if 0 <= value + 0x8000 < U64 { SmallMod(value + 0x8000, U64); } else { DivModUnique(value + 0x8000, -1, value + 0x8000 + U64, U64); }
  }

  lemma PairIs(value: int)
    requires FitsSigned(value, 0x8000_0000_0000_0000)
    ensures PairHolds(value) <==> -0x8000_8000 <= value < 0x7fff_8000
    ensures FitsSigned(Wrap(value + 0x8000, U64), 0x8000_0000) <==> PairHolds(value)
  {
    if -0x8000_8000 <= value < 0x7fff_8000 {
      var high := (value + 0x8000) / U16;
      assert value == Pair(high, value - U16 * high);
    }
    if value + 0x8000 < 0x8000_0000_0000_0000 {
      SignedOfMod(value + 0x8000, U64);
    } else {
      DivModUnique(value + 0x8000, 0, value + 0x8000, U64);
    }
  }

  /**
    The high half is accepted exactly when a pair holds the value, and becomes a
    `nop` when a halfword does. The low halves are refused where the `addis` is
    gone and the instruction would update its base; the split form, besides, for
    values its form bits would cut.
   */
  lemma TocAccepted(insn: int, value: int)
    requires FitsSigned(value, 0x8000_0000_0000_0000)
    ensures Encode(HaToc, insn, value).Ok? <==> PairHolds(value)
    ensures NearToc(value) ==> Encode(HaToc, insn, value) == Ok(NOP)
    ensures Encode(LoToc, insn, value).Ok? <==> !(NearToc(value) && IsUpdateForm(insn))
    ensures Encode(LoDsToc, insn, value).Ok? <==> value % FormValues(insn) == 0 && !(NearToc(value) && IsUpdateForm(insn))
    ensures Encode(LoDsToAddi, insn, value).Ok? <==> Opcode(insn) == 58
  {
    InsertSame(insn, 14, 0x400_0000, 64);
    assert !IsUpdateForm(Insert(insn, 14, 0x400_0000, 64));
    HaIsNear(value);
    PairIs(value);
    LowRemainder(value, FormValues(insn));
    if NearToc(value) { assert value == Pair(0, value); }
    hide WithHalf, WithTocBase, IsUpdateForm, HaIsZero, PairHolds, IsDqForm;
  }

  lemma LowRemainder(value: int, m: nat)
    requires m == 4 || m == 16
    ensures Lo(value) % m == value % m
  {
    var (q, r) := (value / U16, value % U16);
    if m == 4 { ModAddMultiple(r, q * 0x4000, 4); assert value == r + q * 0x4000 * 4; }
    if m == 16 { ModAddMultiple(r, q * 0x1000, 16); assert value == r + q * 0x1000 * 16; }
  }

  /** A thunk is made exactly when a pair holds the distance from where it reads its place, a multiple of four for one through a slot. */
  lemma ThunkAccepted(at: nat, key: nat)
    ensures var (read, target) := (if (key / 2) % 2 == 1 then at + 12 else at + 8, key - key % 4);
      var distance := Wrap(target - read, U64);
      Thunk(at, key).Ok? <==> PairHolds(distance) && (key % 2 == 1 ==> distance % 4 == 0)
  {
    var (save, target) := ((key / 2) % 2 == 1, key - key % 4);
    var start := if save then (at + 4) % U64 else at;
    var read := if save then at + 12 else at + 8;
    PlaceRead(at, save);
    FromThere(target, (start + 8) % U64, read);
    hide PairHolds, Wrap, Ha, Lo;
    assert Thunk(at, key).Ok? <==> ThunkWords(at, key).Ok?;
  }

  lemma FromThere(target: int, place: nat, read: nat)
    requires place == read % U64
    ensures var distance := Wrap(target - read, U64);
      && Wrap(target - place, U64) == distance
      && (FitsSigned(Wrap(distance + 0x8000, U64), 0x8000_0000) <==> PairHolds(distance))
  {
    ModAddMultiple(target - read, read / U64, U64);
    assert target - place == target - read + read / U64 * U64;
    var distance := Wrap(target - read, U64);
    assert FitsSigned(distance, 0x8000_0000_0000_0000);
    PairIs(distance);
  }

  lemma PlaceRead(at: nat, save: bool)
    ensures var start := if save then (at + 4) % U64 else at;
      (start + 8) % U64 == (if save then at + 12 else at + 8) % U64
  {
    if save {
      ModAddMultiple((at + 4) % U64 + 8, (at + 4) / U64, U64);
      assert at + 12 == (at + 4) % U64 + 8 + (at + 4) / U64 * U64;
    }
  }

  /** A call stub is made exactly for the slots a pair holds at a multiple of four. */
  lemma PltCallAccepted(tocOffset: int)
    requires FitsSigned(tocOffset, 0x8000_0000_0000_0000)
    ensures PltCallStub(tocOffset).Ok? <==> PairHolds(tocOffset) && tocOffset % 4 == 0
  {
    PairIs(tocOffset);
    hide PairHolds, Wrap;
  }

  // ---- Exactly when the rewrite is right ----

  /** Whether the instruction is of the form the field is for, or its form bits and the value happen to allow it. */
  predicate RightForm(kind: Kind, insn: int, value: int)
  {
    var m := FormValues(insn);
    && (kind.LoToc? && IsSplitForm(insn) ==> insn % m == 0 && Lo(value) % m == 0)
    && (kind.LoDsToc? && !IsSplitForm(insn) ==> insn % m == 0)
  }

  /** The bits of a split form that are not displacement stay. */
  predicate FormKept(w: int, insn: int)
  {
    IsSplitForm(insn) ==> FormValues(w) == FormValues(insn) && w % FormValues(w) == insn % FormValues(insn)
  }

  /** The halfword a low field writes. */
  function LowWritten(kind: Kind, insn: int, value: int): int
  {
    Lo(value) + (if kind.LoDsToc? then insn % FormValues(insn) else 0)
  }

  lemma AnyLowHalf(kind: Kind, insn: int, value: int)
    requires kind.LoToc? || kind.LoDsToc?
    requires Encode(kind, insn, value).Ok?
    ensures var w := Encode(kind, insn, value).value;
      && Rt(w) == Rt(insn) && Opcode(w) == Opcode(insn) && Ra(w) == (if HaIsZero(value) then 2 else Ra(insn))
      && Field(w, 1, U16) == LowWritten(kind, insn, value) < U16
  {
    hide Insert, Field, Rt, Ra, Opcode, HaIsZero, FormValues, IsUpdateForm, WithHalf, WithTocBase;
    var half := LowWritten(kind, insn, value);
    if kind.LoDsToc? { SplitHalf(value, insn); }
    if HaIsZero(value) {
      WithTocBaseKeeps(insn);
      WithHalfKeeps(WithTocBase(insn), half);
    } else {
      WithHalfKeeps(insn, half);
    }
    assert half % U16 == half;
  }

  /** The displacement and the form are right exactly for the right form. */
  lemma LowHalfExact(kind: Kind, insn: int, value: int)
    requires !kind.HaToc? && Encode(kind, insn, value).Ok?
    ensures var w := Encode(kind, insn, value).value;
      Displacement(w) == Signed(Lo(value), U16) && (kind.LoDsToAddi? || FormKept(w, insn)) <==> RightForm(kind, insn, value)
  {
    var w := Encode(kind, insn, value).value;
    hide Encode, Opcode, WithHalf, WithTocBase;
    if kind.LoDsToAddi? || (kind.LoToc? <==> !IsSplitForm(insn)) {
      LowHalf(kind, insn, value);
    } else {
      AnyLowHalf(kind, insn, value);
      LowBits(w);
      if kind.LoToc? { SplitWithoutForm(w, insn, value); } else { PlainWithForm(w, insn, value); }
    }
  }

  /** A split form written as a plain one: its low bits become the value's. */
  lemma SplitWithoutForm(w: int, insn: int, value: int)
    requires IsSplitForm(insn) && Opcode(w) == Opcode(insn) && Field(w, 1, U16) == Lo(value)
    requires Lo(value) % 4 == w % 4 && Lo(value) % 16 == w % 16
    ensures Displacement(w) == Signed(Lo(value), U16) && FormKept(w, insn)
       <==> insn % FormValues(insn) == 0 && Lo(value) % FormValues(insn) == 0
  {
    var lo := Lo(value);
    hide Opcode, Field;
    SignedInjective(lo - lo % FormValues(w), lo);
    Mod16Mod4(insn);
    Mod16Mod4(lo);
  }

  /** A plain form written as a split one: the low bits it had are added to the value's. */
  lemma PlainWithForm(w: int, insn: int, value: int)
    requires !IsSplitForm(insn) && Opcode(w) == Opcode(insn)
    requires Field(w, 1, U16) == Lo(value) + insn % FormValues(insn) < U16
    ensures Displacement(w) == Signed(Lo(value), U16) && FormKept(w, insn) <==> insn % FormValues(insn) == 0
  {
    hide Opcode, Field, FormValues;
    SignedInjective(Lo(value) + insn % FormValues(insn), Lo(value));
  }

  lemma SignedInjective(a: int, b: int)
    requires 0 <= a < U16 && 0 <= b < U16
    ensures Signed(a, U16) == Signed(b, U16) <==> a == b
  {
  }

  /** Two small displacements name the same address only if they are the same. */
  lemma SameAddress(base: int, a: int, b: int)
    requires FitsSigned(a, U16) && FitsSigned(b, U16)
    ensures (base + a) % U64 == (base + b) % U64 <==> a == b
  {
    if (base + a) % U64 == (base + b) % U64 {
      var (p, q) := ((base + a) / U64, (base + b) / U64);
      assert base + a == p * U64 + (base + a) % U64 && base + b == q * U64 + (base + b) % U64;
      assert a - b == (p - q) * U64;
    }
  }

  /**
    For every pair that encodes, the low instruction reaches the TOC base plus
    the value with its form bits kept if and only if it is of the right form.
   */
  lemma TocPairExact(kind: Kind, addis: int, low: int, value: int, r: map<nat, int>, h: int, l: int)
    requires kind in {LoToc, LoDsToc, LoDsToAddi} && FitsSigned(value, 0x8000_0000_0000_0000)
    requires Opcode(addis) == 15 && Ra(addis) == 2 && Rt(addis) == Ra(low) && Ra(low) != 0
    requires Encode(HaToc, addis, value) == Ok(h) && Encode(kind, low, value) == Ok(l)
    ensures Effective(RunHigh(r, h), l) == (Gpr(r, 2) + value) % U64 && (kind.LoDsToAddi? || FormKept(l, low))
       <==> RightForm(kind, low, value)
  {
    LowHalfExact(kind, low, value);
    LowBase(kind, low, value);
    TocHigh(addis, value, r);
    hide Encode, Displacement, RightForm, FormKept, Opcode, Rt, HaIsZero, RunHigh;
    var (after, d) := (RunHigh(r, h), Signed(Lo(value), U16));
    TocSum(Ra(low), Ra(l), d, value, r, after);
    DisplacementFits(l);
    SameAddress(Base(after, Ra(l)), Displacement(l), d);
  }

  lemma LowBase(kind: Kind, insn: int, value: int)
    requires !kind.HaToc? && Encode(kind, insn, value).Ok?
    ensures var w := Encode(kind, insn, value).value;
      Rt(w) == Rt(insn) && Ra(w) == (if HaIsZero(value) then 2 else Ra(insn))
  {
    if kind.LoDsToAddi? { LowHalf(kind, insn, value); } else { AnyLowHalf(kind, insn, value); }
  }

  lemma DisplacementFits(w: int)
    ensures FitsSigned(Displacement(w), U16)
  {
    hide IsSplitForm, IsDqForm;
    var d := Field(w, 1, U16);
    assert 0 <= d - d % FormValues(w) <= d;
  }

  lemma LoadWords()
    ensures Opcode(0xe863_0000) == 58 && Opcode(0xe862_0002) == 58 && Ra(0xe862_0002) == 2
    ensures Field(0xe862_0002, 1, U16) == 2
    ensures WithHalf(WithTocBase(0xe863_0000), 2) == 0xe862_0002
  {
  }

  lemma WordLoadWords()
    ensures Opcode(0x8063_0002) == 32 && Opcode(0x8062_0006) == 32 && Ra(0x8062_0006) == 2
    ensures Field(0x8062_0006, 1, U16) == 6
    ensures WithHalf(WithTocBase(0x8063_0002), 6) == 0x8062_0006
  {
  }

  /** The plain field on `ld r3, 0(r3)`: for value 2 the pair reaches the TOC base itself, and the load becomes another instruction. */
  lemma PlainFieldOnLoad(r: map<nat, int>)
    ensures Encode(HaToc, 0x3c62_0000, 2) == Ok(NOP) && Encode(LoToc, 0xe863_0000, 2) == Ok(0xe862_0002)
    ensures Effective(RunHigh(r, NOP), 0xe862_0002) == Gpr(r, 2) % U64 != (Gpr(r, 2) + 2) % U64
    ensures 0xe863_0000 % FormValues(0xe863_0000) == 0 && 0xe862_0002 % FormValues(0xe862_0002) == 2
  {
    LoadWords();
    hide Opcode, Ra, WithHalf, WithTocBase, Field;
    SameAddress(Gpr(r, 2), 0, 2);
  }

  /** The split field on `lwz r3, 2(r3)` adds the offset that was there. */
  lemma SplitFieldOnPlain(r: map<nat, int>)
    ensures Encode(HaToc, 0x3c62_0000, 4) == Ok(NOP) && Encode(LoDsToc, 0x8063_0002, 4) == Ok(0x8062_0006)
    ensures Effective(RunHigh(r, NOP), 0x8062_0006) == (Gpr(r, 2) + 6) % U64 != (Gpr(r, 2) + 4) % U64
  {
    WordLoadWords();
    hide Opcode, Ra, WithHalf, WithTocBase, Field;
    SameAddress(Gpr(r, 2), 6, 4);
  }

  lemma EffectiveSum(x: nat, l: int, value: int, r: map<nat, int>, r': map<nat, int>)
    requires x != 0 && FitsSigned(value, 0x8000_0000_0000_0000) && Displacement(l) == Signed(Lo(value), U16)
    requires HaIsZero(value) || FitsSigned(Wrap(value + 0x8000, U64), 0x8000_0000)
    requires Ra(l) == if HaIsZero(value) then 2 else x
    requires r' == if HaIsZero(value) then r else r[x := (Gpr(r, 2) + U16 * Signed(Ha(value), U16)) % U64]
    ensures Effective(r', l) == (Gpr(r, 2) + value) % U64
  {
    TocSum(x, Ra(l), Displacement(l), value, r, r');
  }

  lemma TocHigh(addis: int, value: int, r: map<nat, int>)
    requires Opcode(addis) == 15 && Ra(addis) == 2 && Encode(HaToc, addis, value).Ok?
    ensures RunHigh(r, Encode(HaToc, addis, value).value)
         == if HaIsZero(value) then r else r[Rt(addis) := (Gpr(r, 2) + U16 * Signed(Ha(value), U16)) % U64]
    ensures HaIsZero(value) || FitsSigned(Wrap(value + 0x8000, U64), 0x8000_0000)
  {
    if !HaIsZero(value) {
      WithHalfKeeps(addis, Ha(value));
      NotNop(WithHalf(addis, Ha(value)));
    }
  }

  lemma TocSum(x: nat, ra: nat, d: int, value: int, r: map<nat, int>, r': map<nat, int>)
    requires x != 0 && FitsSigned(value, 0x8000_0000_0000_0000) && d == Signed(Lo(value), U16)
    requires HaIsZero(value) || FitsSigned(Wrap(value + 0x8000, U64), 0x8000_0000)
    requires ra == if HaIsZero(value) then 2 else x
    requires r' == if HaIsZero(value) then r else r[x := (Gpr(r, 2) + U16 * Signed(Ha(value), U16)) % U64]
    ensures (Base(r', ra) + d) % U64 == (Gpr(r, 2) + value) % U64
  {
    TocHalves(value);
    if !HaIsZero(value) {
      PairSum(Gpr(r, 2), U16 * Signed(Ha(value), U16), d, value);
    }
  }

  lemma NotNop(insn: int)
    requires Opcode(insn) == 15
    ensures insn != NOP
  {
  }

  lemma PairSum(base: int, h: int, l: int, value: int)
    requires (h + l - value) % U64 == 0
    ensures ((base + h) % U64 + l) % U64 == (base + value) % U64
  {
    var x := base + h;
    assert x == (x / U64) * U64 + x % U64;
    ModAddMultiple(x % U64 + l, x / U64, U64);
    ModEqual(base + h + l, base + value, U64);
  }

  // ---- Thunks and stubs ----

  datatype Insn =
    | Mflr(rt: nat)
    | Mtlr(rs: nat)
    | Mtctr(rs: nat)
    | BclNext
    | Addis(rt: nat, ra: nat, si: int)
    | Addi(rt: nat, ra: nat, si: int)
    | Ld(rt: nat, ra: nat, ds: int)
    | Std(rs: nat, ra: nat, ds: int)
    | Bctr
    | Unknown

  function Decode(insn: int): Insn
  {
    var op := Opcode(insn);
    if insn == 0x429f_0005 then BclNext
    else if insn == BCTR then Bctr
    else if op == 31 && Field(insn, 1, 0x20_0000) == 0x08_02a6 then Mflr(Rt(insn))
    else if op == 31 && Field(insn, 1, 0x20_0000) == 0x08_03a6 then Mtlr(Rt(insn))
    else if op == 31 && Field(insn, 1, 0x20_0000) == 0x09_03a6 then Mtctr(Rt(insn))
    else if op == 15 then Addis(Rt(insn), Ra(insn), Signed(Field(insn, 1, U16), U16))
    else if op == 14 then Addi(Rt(insn), Ra(insn), Signed(Field(insn, 1, U16), U16))
    else if op == 58 && insn % 4 == 0 then Ld(Rt(insn), Ra(insn), Displacement(insn))
    else if op == 62 && insn % 4 == 0 then Std(Rt(insn), Ra(insn), Displacement(insn))
    else Unknown
  }

  function Execute(c: Cpu, insn: Insn): Option<Cpu>
  {
    var next := c.(pc := (c.pc + 4) % U64);
    match insn
    case Mflr(rt) => Some(next.(r := c.r[rt := c.lr]))
    case Mtlr(rs) => Some(next.(lr := Gpr(c.r, rs)))
    case Mtctr(rs) => Some(next.(ctr := Gpr(c.r, rs)))
    case BclNext => Some(next.(lr := next.pc))
    case Addis(rt, ra, si) => Some(next.(r := c.r[rt := (Base(c.r, ra) + U16 * si) % U64]))
    case Addi(rt, ra, si) => Some(next.(r := c.r[rt := (Base(c.r, ra) + si) % U64]))
    case Ld(rt, ra, ds) => Some(next.(r := c.r[rt := Load(c.mem, (Base(c.r, ra) + ds) % U64)]))
    case Std(rs, ra, ds) => Some(next.(mem := c.mem[(Base(c.r, ra) + ds) % U64 := Gpr(c.r, rs)]))
    case Bctr => Some(c.(pc := c.ctr))
    case Unknown => None
  }

  function Run(c: Cpu, insns: seq<Insn>): Option<Cpu>
    decreases |insns|
  {
    if insns == [] then Some(c)
    else
      var next := Execute(c, insns[0]);
      if next.None? then None else Run(next.value, insns[1..])
  }

  lemma {:induction false} RunConcat(c: Cpu, a: seq<Insn>, b: seq<Insn>, mid: Cpu)
    requires Run(c, a) == Some(mid)
    ensures Run(c, a + b) == Run(mid, b)
    decreases |a|
  {
    if a == [] {
      assert a + b == b;
    } else {
      assert (a + b)[1..] == a[1..] + b;
      RunConcat(Execute(c, a[0]).value, a[1..], b, mid);
    }
  }

  lemma RunFour(c: Cpu, i: seq<Insn>, s1: Cpu, s2: Cpu, s3: Cpu, s4: Cpu)
    requires |i| == 4
    requires Execute(c, i[0]) == Some(s1) && Execute(s1, i[1]) == Some(s2)
    requires Execute(s2, i[2]) == Some(s3) && Execute(s3, i[3]) == Some(s4)
    ensures Run(c, i) == Some(s4)
  {
    assert i[3..][1..] == [] && i[2..][1..] == i[3..] && i[1..][1..] == i[2..];
    assert Run(s3, i[3..]) == Some(s4);
    assert Run(s2, i[2..]) == Some(s4);
    assert Run(s1, i[1..]) == Some(s4);
  }

  /** `thunk`: the words of a range-extension thunk, without the trailing `trap` padding. */
  function ThunkWords(at: nat, key: nat): Result<seq<int>, EncodeError>
  {
    var target := key - key % 4;
    var save, viaSlot := (key / 2) % 2 == 1, key % 2 == 1;
    var start := if save then (at + 4) % U64 else at;
    var offset := Wrap(target - (start + 8) % U64, U64);
    if !FitsSigned(Wrap(offset + 0x8000, U64), 0x8000_0000) then Err(TooFar)
    else if viaSlot && offset % 4 != 0 then Err(TooFar)
    else
      var low := if viaSlot then 0xe98c_0000 + Lo(offset) else 0x398c_0000 + Lo(offset);
      var body := [0x7d88_02a6, 0x429f_0005, 0x7d68_02a6, 0x7d88_03a6, 0x3d8b_0000 + Ha(offset), low, MTCTR_R12, BCTR];
      Ok(if save then [STD_R2_24_R1] + body else body)
  }

  /** `thunk`: always nine words, padded with `trap`. */
  function Thunk(at: nat, key: nat): Result<seq<int>, EncodeError>
  {
    var words := ThunkWords(at, key);
    if words.Err? then words else Ok((words.value + [TRAP])[..9])
  }

  /** `thunk` as it is built: nine traps, then the instructions written over them. */
  method BuildThunk(at: nat, key: nat) returns (r: Result<seq<int>, EncodeError>)
    ensures r == Thunk(at, key)
  {
    var words := ThunkWords(at, key);
    if words.Err? { return Err(words.error); }
    hide ThunkWords;
    ThunkLength(at, key);
    var slots := new int[9](_ => TRAP);
    for i := 0 to |words.value|
      invariant forall k :: 0 <= k < i ==> slots[k] == words.value[k]
      invariant forall k :: i <= k < 9 ==> slots[k] == TRAP
    {
      slots[i] := words.value[i];
    }
    var padded := (words.value + [TRAP])[..9];
    assert forall k :: 0 <= k < 9 ==> slots[..][k] == padded[k];
    assert slots[..] == padded;
    return Ok(slots[..]);
  }

  lemma ThunkLength(at: nat, key: nat)
    requires ThunkWords(at, key).Ok?
    ensures 8 <= |ThunkWords(at, key).value| <= 9
  {
  }

  function DecodeAll(words: seq<int>): seq<Insn>
  {
    seq(|words|, i requires 0 <= i < |words| => Decode(words[i]))
  }

  lemma FixedWords()
    ensures Decode(0x7d88_02a6) == Mflr(12) && Decode(0x7d68_02a6) == Mflr(11) && Decode(0x7d88_03a6) == Mtlr(12)
    ensures Decode(MTCTR_R12) == Mtctr(12) && Decode(STD_R2_24_R1) == Std(2, 1, 24)
    ensures Decode(0x429f_0005) == BclNext && Decode(BCTR) == Bctr
  {
    MoveWords();
    StdWord();
  }

  lemma MoveWords()
    ensures Decode(0x7d88_02a6) == Mflr(12) && Decode(0x7d68_02a6) == Mflr(11) && Decode(0x7d88_03a6) == Mtlr(12)
    ensures Decode(MTCTR_R12) == Mtctr(12)
  {
  }

  lemma StdWord()
    ensures Decode(STD_R2_24_R1) == Std(2, 1, 24)
  {
    assert Opcode(STD_R2_24_R1) == 62 && Field(STD_R2_24_R1, 1, U16) == 24;
  }

  lemma HighWordR11(half: nat)
    requires half < U16
    ensures Decode(0x3d8b_0000 + half) == Addis(12, 11, Signed(half, U16))
  {
    var w := 0x3d8b_0000 + half;
    DivModUnique(w, 0x3d8b, half, U16);
    DivDiv(w, U16, 0x400);
    DivDiv(w, U16, 32);
  }

  lemma HighWordR2(half: nat)
    requires half < U16
    ensures Decode(0x3d82_0000 + half) == Addis(12, 2, Signed(half, U16))
  {
    var w := 0x3d82_0000 + half;
    DivModUnique(w, 0x3d82, half, U16);
    DivDiv(w, U16, 0x400);
    DivDiv(w, U16, 32);
  }

  lemma HighWord(base: int, half: nat, ra: nat)
    requires half < U16 && ((base == 0x3d8b_0000 && ra == 11) || (base == 0x3d82_0000 && ra == 2))
    ensures Decode(base + half) == Addis(12, ra, Signed(half, U16))
  {
    if ra == 11 { HighWordR11(half); } else { HighWordR2(half); }
  }

  lemma AddiWord(half: nat)
    requires half < U16
    ensures Decode(0x398c_0000 + half) == Addi(12, 12, Signed(half, U16))
  {
    var w := 0x398c_0000 + half;
    DivModUnique(w, 0x398c, half, U16);
    DivDiv(w, U16, 0x400);
    DivDiv(w, U16, 32);
  }

  lemma LdWord(half: nat)
    requires half < U16 && half % 4 == 0
    ensures Decode(0xe98c_0000 + half) == Ld(12, 12, Signed(half, U16))
  {
    var w := 0xe98c_0000 + half;
    DivModUnique(w, 0xe98c, half, U16);
    DivDiv(w, U16, 0x400);
    DivDiv(w, U16, 32);
    ModAddMultiple(half, 0xe98c * 0x4000, 4);
  }

  /** The eight instructions after the optional `std`, run at `start`. */
  lemma BodyRuns(c: Cpu, offset: int, viaSlot: bool, target: nat)
    requires 0 <= c.pc < U64 && target < U64
    requires offset == Wrap(target - (c.pc + 8) % U64, U64)
    requires FitsSigned(Wrap(offset + 0x8000, U64), 0x8000_0000)
    ensures var low := if viaSlot then Ld(12, 12, Signed(Lo(offset), U16)) else Addi(12, 12, Signed(Lo(offset), U16));
      var r := Run(c, [Mflr(12), BclNext, Mflr(11), Mtlr(12), Addis(12, 11, Signed(Ha(offset), U16)), low, Mtctr(12), Bctr]);
      var dest := if viaSlot then Load(c.mem, target) else target;
      && r.Some? && r.value.pc == dest && r.value.ctr == dest && Gpr(r.value.r, 12) == dest
      && r.value.lr == c.lr && r.value.mem == c.mem
      && (forall n :: n != 11 && n != 12 ==> Gpr(r.value.r, n) == Gpr(c.r, n))
  {
    BodySum((c.pc + 8) % U64, offset, target);
    NextTwo(c.pc);
    BodyStates(c, Signed(Ha(offset), U16), Signed(Lo(offset), U16), viaSlot, target);
  }

  lemma BodyStates(c: Cpu, ha: int, lo: int, viaSlot: bool, target: nat)
    requires ((c.pc + 4) % U64 + 4) % U64 == (c.pc + 8) % U64
    requires (((c.pc + 8) % U64 + U16 * ha) % U64 + lo) % U64 == target
    ensures var low := if viaSlot then Ld(12, 12, lo) else Addi(12, 12, lo);
      var r := Run(c, [Mflr(12), BclNext, Mflr(11), Mtlr(12), Addis(12, 11, ha), low, Mtctr(12), Bctr]);
      var dest := if viaSlot then Load(c.mem, target) else target;
      && r.Some? && r.value.pc == dest && r.value.ctr == dest && Gpr(r.value.r, 12) == dest
      && r.value.lr == c.lr && r.value.mem == c.mem
      && (forall n :: n != 11 && n != 12 ==> Gpr(r.value.r, n) == Gpr(c.r, n))
  {
    var low := if viaSlot then Ld(12, 12, lo) else Addi(12, 12, lo);
    var s4 := ReadPc(c);
    var s8 := JumpTo(s4, ha, lo, low, viaSlot, target);
    var a, b := [Mflr(12), BclNext, Mflr(11), Mtlr(12)], [Addis(12, 11, ha), low, Mtctr(12), Bctr];
    RunConcat(c, a, b, s4);
    assert a + b == [Mflr(12), BclNext, Mflr(11), Mtlr(12), Addis(12, 11, ha), low, Mtctr(12), Bctr];
  }

  /** `bcl` reads the program counter through the link register, which is then put back. */
  lemma ReadPc(c: Cpu) returns (s4: Cpu)
    requires ((c.pc + 4) % U64 + 4) % U64 == (c.pc + 8) % U64
    ensures Run(c, [Mflr(12), BclNext, Mflr(11), Mtlr(12)]) == Some(s4)
    ensures s4.lr == c.lr && s4.ctr == c.ctr && s4.mem == c.mem
    ensures s4.r == c.r[12 := c.lr][11 := (c.pc + 8) % U64]
  {
    var here := (c.pc + 8) % U64;
    var s1 := c.(pc := (c.pc + 4) % U64, r := c.r[12 := c.lr]);
    var s2 := s1.(pc := here, lr := here);
    var s3 := s2.(pc := (here + 4) % U64, r := s2.r[11 := here]);
    s4 := s3.(pc := (s3.pc + 4) % U64, lr := c.lr);
    RunFour(c, [Mflr(12), BclNext, Mflr(11), Mtlr(12)], s1, s2, s3, s4);
  }

  lemma JumpTo(s: Cpu, ha: int, lo: int, low: Insn, viaSlot: bool, target: nat) returns (s4: Cpu)
    requires 11 in s.r && ((s.r[11] + U16 * ha) % U64 + lo) % U64 == target
    requires low == if viaSlot then Ld(12, 12, lo) else Addi(12, 12, lo)
    ensures Run(s, [Addis(12, 11, ha), low, Mtctr(12), Bctr]) == Some(s4)
    ensures s4.lr == s.lr && s4.mem == s.mem
    ensures var dest := if viaSlot then Load(s.mem, target) else target;
      s4.pc == dest && s4.ctr == dest && s4.r == s.r[12 := dest]
  {
    var dest := if viaSlot then Load(s.mem, target) else target;
    var x := (s.r[11] + U16 * ha) % U64;
    var s1 := s.(pc := (s.pc + 4) % U64, r := s.r[12 := x]);
    var s2 := s1.(pc := (s1.pc + 4) % U64, r := s1.r[12 := dest]);
    var s3 := s2.(pc := (s2.pc + 4) % U64, ctr := dest);
    s4 := s3.(pc := dest);
    LowStep(s1, low, viaSlot, x, lo, target);
    RunFour(s, [Addis(12, 11, ha), low, Mtctr(12), Bctr], s1, s2, s3, s4);
  }

  lemma NextTwo(p: int)
    ensures ((p + 4) % U64 + 4) % U64 == (p + 8) % U64
  {
    assert p + 4 == ((p + 4) / U64) * U64 + (p + 4) % U64;
    ModAddMultiple((p + 4) % U64 + 4, (p + 4) / U64, U64);
  }

  lemma LowStep(s: Cpu, low: Insn, viaSlot: bool, x: int, lo: int, target: int)
    requires low == if viaSlot then Ld(12, 12, lo) else Addi(12, 12, lo)
    requires 12 in s.r && s.r[12] == x && (x + lo) % U64 == target
    ensures Execute(s, low)
         == Some(s.(pc := (s.pc + 4) % U64, r := s.r[12 := if viaSlot then Load(s.mem, target) else target]))
  {
  }

  lemma BodySum(here: nat, offset: int, target: nat)
    requires target < U64 && offset == Wrap(target - here, U64)
    requires FitsSigned(Wrap(offset + 0x8000, U64), 0x8000_0000)
    ensures ((here + U16 * Signed(Ha(offset), U16)) % U64 + Signed(Lo(offset), U16)) % U64 == target
  {
    WrapRange(target - here);
    TocHalves(offset);
    PairSum(here, U16 * Signed(Ha(offset), U16), Signed(Lo(offset), U16), offset);
    WrapMod(target - here, U64);
    ModEqual(here + offset, target, U64);
    DivModUnique(target, 0, target, U64);
  }

  lemma WrapRange(v: int)
    ensures FitsSigned(Wrap(v, U64), 0x8000_0000_0000_0000)
  {
  }

  /**
    A thunk that was built runs to its destination: the word's contents for a
    via-slot key, the address itself otherwise. It leaves the destination in
    r12 and CTR, the link register as it was, and saves r2 if asked.
   */
  lemma ThunkReaches(at: nat, key: nat, c: Cpu)
    requires at < U64 && key < U64 && c.pc == at && ThunkWords(at, key).Ok?
    ensures var insns := DecodeAll(ThunkWords(at, key).value);
      var save, viaSlot, target := (key / 2) % 2 == 1, key % 2 == 1, key - key % 4;
      var mem := if save then c.mem[(Base(c.r, 1) + 24) % U64 := Gpr(c.r, 2)] else c.mem;
      var dest := if viaSlot then Load(mem, target) else target;
      var r := Run(c, insns);
      && r.Some? && r.value.pc == dest && r.value.ctr == dest && Gpr(r.value.r, 12) == dest
      && r.value.lr == c.lr && r.value.mem == mem
      && (forall n :: n != 11 && n != 12 ==> Gpr(r.value.r, n) == Gpr(c.r, n))
  {
    var save, viaSlot, target := (key / 2) % 2 == 1, key % 2 == 1, key - key % 4;
    var start := if save then (at + 4) % U64 else at;
    var offset := Wrap(target - (start + 8) % U64, U64);
    var low := if viaSlot then Ld(12, 12, Signed(Lo(offset), U16)) else Addi(12, 12, Signed(Lo(offset), U16));
    ThunkDecodes(at, key, offset, low);
    if save {
      SavingRuns(c, offset, viaSlot, target);
    } else {
      BodyRuns(c, offset, viaSlot, target);
    }
  }

  lemma SavingRuns(c: Cpu, offset: int, viaSlot: bool, target: nat)
    requires 0 <= c.pc < U64 && target < U64
    requires offset == Wrap(target - ((c.pc + 4) % U64 + 8) % U64, U64)
    requires FitsSigned(Wrap(offset + 0x8000, U64), 0x8000_0000)
    ensures var low := if viaSlot then Ld(12, 12, Signed(Lo(offset), U16)) else Addi(12, 12, Signed(Lo(offset), U16));
      var body := [Mflr(12), BclNext, Mflr(11), Mtlr(12), Addis(12, 11, Signed(Ha(offset), U16)), low, Mtctr(12), Bctr];
      var r := Run(c, [Std(2, 1, 24)] + body);
      var mem := c.mem[(Base(c.r, 1) + 24) % U64 := Gpr(c.r, 2)];
      var dest := if viaSlot then Load(mem, target) else target;
      && r.Some? && r.value.pc == dest && r.value.ctr == dest && Gpr(r.value.r, 12) == dest
      && r.value.lr == c.lr && r.value.mem == mem
      && (forall n :: n != 11 && n != 12 ==> Gpr(r.value.r, n) == Gpr(c.r, n))
  {
    var low := if viaSlot then Ld(12, 12, Signed(Lo(offset), U16)) else Addi(12, 12, Signed(Lo(offset), U16));
    var body := [Mflr(12), BclNext, Mflr(11), Mtlr(12), Addis(12, 11, Signed(Ha(offset), U16)), low, Mtctr(12), Bctr];
    var c1 := c.(pc := (c.pc + 4) % U64, mem := c.mem[(Base(c.r, 1) + 24) % U64 := Gpr(c.r, 2)]);
    BodyRuns(c1, offset, viaSlot, target);
    assert Run(c, [Std(2, 1, 24)]) == Some(c1) by { assert [Std(2, 1, 24)][1..] == []; }
    RunConcat(c, [Std(2, 1, 24)], body, c1);
  }

  lemma ThunkDecodes(at: nat, key: nat, offset: int, low: Insn)
    requires at < U64 && key < U64 && ThunkWords(at, key).Ok?
    requires offset == Wrap(key - key % 4 - ((if (key / 2) % 2 == 1 then (at + 4) % U64 else at) + 8) % U64, U64)
    requires low == if key % 2 == 1 then Ld(12, 12, Signed(Lo(offset), U16)) else Addi(12, 12, Signed(Lo(offset), U16))
    ensures var body := [Mflr(12), BclNext, Mflr(11), Mtlr(12), Addis(12, 11, Signed(Ha(offset), U16)), low, Mtctr(12), Bctr];
      DecodeAll(ThunkWords(at, key).value) == if (key / 2) % 2 == 1 then [Std(2, 1, 24)] + body else body
  {
    FixedWords();
    HighWord(0x3d8b_0000, Ha(offset), 11);
    if key % 2 == 1 {
      LoMultiple(offset);
      LdWord(Lo(offset));
    } else {
      AddiWord(Lo(offset));
    }
  }

  lemma LoMultiple(offset: int)
    requires offset % 4 == 0
    ensures Lo(offset) % 4 == 0
  {
    assert offset == (offset / U16) * U16 + Lo(offset);
    ModAddMultiple(Lo(offset), (offset / U16) * 0x4000, 4);
  }

  /** The padding never cuts or precedes the instructions. */
  lemma ThunkPadded(at: nat, key: nat)
    requires ThunkWords(at, key).Ok?
    ensures Thunk(at, key).Ok? && |Thunk(at, key).value| == 9
    ensures ThunkWords(at, key).value <= Thunk(at, key).value
  {
  }

  /** `plt_call_stub`. */
  function PltCallStub(tocOffset: int): Result<seq<int>, EncodeError>
  {
    if !FitsSigned(Wrap(tocOffset + 0x8000, U64), 0x8000_0000) || tocOffset % 4 != 0 then Err(TooFar)
    else Ok([STD_R2_24_R1, 0x3d82_0000 + Ha(tocOffset), 0xe98c_0000 + Lo(tocOffset), MTCTR_R12, BCTR])
  }

  /** A call stub saves r2 and jumps to the address stored `tocOffset` bytes from the TOC base. */
  lemma PltCallStubReaches(tocOffset: int, c: Cpu)
    requires FitsSigned(tocOffset, 0x8000_0000_0000_0000) && PltCallStub(tocOffset).Ok?
    ensures var r := Run(c, DecodeAll(PltCallStub(tocOffset).value));
      var mem := c.mem[(Base(c.r, 1) + 24) % U64 := Gpr(c.r, 2)];
      var dest := Load(mem, (Gpr(c.r, 2) + tocOffset) % U64);
      && r.Some? && r.value.pc == dest && r.value.ctr == dest && Gpr(r.value.r, 12) == dest
      && r.value.lr == c.lr && r.value.mem == mem && Gpr(r.value.r, 2) == Gpr(c.r, 2)
  {
    var ha, lo := Signed(Ha(tocOffset), U16), Signed(Lo(tocOffset), U16);
    StubDecodes(tocOffset);
    TocHalves(tocOffset);
    PairSum(Gpr(c.r, 2), U16 * ha, lo, tocOffset);
    StubRuns(c, ha, lo, (Gpr(c.r, 2) + tocOffset) % U64);
  }

  lemma StubRuns(c: Cpu, ha: int, lo: int, slot: int)
    requires ((Gpr(c.r, 2) + U16 * ha) % U64 + lo) % U64 == slot
    ensures var r := Run(c, [Std(2, 1, 24), Addis(12, 2, ha), Ld(12, 12, lo), Mtctr(12), Bctr]);
      var mem := c.mem[(Base(c.r, 1) + 24) % U64 := Gpr(c.r, 2)];
      var dest := Load(mem, slot);
      && r.Some? && r.value.pc == dest && r.value.ctr == dest && Gpr(r.value.r, 12) == dest
      && r.value.lr == c.lr && r.value.mem == mem && Gpr(r.value.r, 2) == Gpr(c.r, 2)
  {
    var mem := c.mem[(Base(c.r, 1) + 24) % U64 := Gpr(c.r, 2)];
    var dest := Load(mem, slot);
    var s1 := c.(pc := (c.pc + 4) % U64, mem := mem);
    var s2 := s1.(pc := (s1.pc + 4) % U64, r := c.r[12 := (Gpr(c.r, 2) + U16 * ha) % U64]);
    var s3 := s2.(pc := (s2.pc + 4) % U64, r := s2.r[12 := dest]);
    var s4 := s3.(pc := (s3.pc + 4) % U64, ctr := dest);
    StubSteps(c, ha, s1, s2);
    LowStep(s2, Ld(12, 12, lo), true, (Gpr(c.r, 2) + U16 * ha) % U64, lo, slot);
    StubEnds(s3, s4, dest);
    OtherRegisters(c.r, (Gpr(c.r, 2) + U16 * ha) % U64, dest);
    hide Execute, Run, Load, Base, Gpr;
    var a, b := [Std(2, 1, 24), Addis(12, 2, ha), Ld(12, 12, lo), Mtctr(12)], [Bctr];
    RunFour(c, a, s1, s2, s3, s4);
    RunConcat(c, a, b, s4);
    assert a + b == [Std(2, 1, 24), Addis(12, 2, ha), Ld(12, 12, lo), Mtctr(12), Bctr];
  }

  /** The save of r2 and the high half. */
  lemma StubSteps(c: Cpu, ha: int, s1: Cpu, s2: Cpu)
    requires s1 == c.(pc := (c.pc + 4) % U64, mem := c.mem[(Base(c.r, 1) + 24) % U64 := Gpr(c.r, 2)])
    requires s2 == s1.(pc := (s1.pc + 4) % U64, r := c.r[12 := (Gpr(c.r, 2) + U16 * ha) % U64])
    ensures Execute(c, Std(2, 1, 24)) == Some(s1) && Execute(s1, Addis(12, 2, ha)) == Some(s2)
  {
  }

  lemma StubEnds(s3: Cpu, s4: Cpu, dest: int)
    requires s4 == s3.(pc := (s3.pc + 4) % U64, ctr := dest) && 12 in s3.r && s3.r[12] == dest
    ensures Execute(s3, Mtctr(12)) == Some(s4) && Run(s4, [Bctr]) == Some(s4.(pc := dest))
  {
    assert [Bctr][1..] == [];
  }

  lemma OtherRegisters(r: map<nat, int>, x: int, dest: int)
    ensures Gpr(r[12 := x][12 := dest], 12) == dest && Gpr(r[12 := x][12 := dest], 2) == Gpr(r, 2)
  {
  }

  lemma StubDecodes(tocOffset: int)
    requires PltCallStub(tocOffset).Ok?
    ensures DecodeAll(PltCallStub(tocOffset).value)
         == [Std(2, 1, 24), Addis(12, 2, Signed(Ha(tocOffset), U16)), Ld(12, 12, Signed(Lo(tocOffset), U16)), Mtctr(12), Bctr]
  {
    FixedWords();
    HighWord(0x3d82_0000, Ha(tocOffset), 2);
    LoMultiple(tocOffset);
    LdWord(Lo(tocOffset));
  }
}
