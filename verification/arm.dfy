/**
  32-bit Arm and Thumb relocatable fields: packing a value and reading it
  back as the addend a relocation keeps there.
 */
module Arm {
  import opened Bits
  import opened Results
  import opened ArmGroups

  datatype Kind =
    | Branch24
    | ThumbBranch24
    | ThumbBranch19
    | ThumbBranch11
    | ThumbBranch8
    | Movw
    | Movt
    | ThumbMovw
    | ThumbMovt
    | Prel31
    | ThumbAdr
    | ThumbLdrLiteral
    | LdrGroup(group: nat)
    | LdrsGroup(group: nat)
    | AluGroup(group: nat, checked: bool)
    | ThumbPc8
    | ThumbJump6

  function Abs(value: int): nat { if value < 0 then -value else value }

  function Negated(negative: bool, x: int): int { if negative then -x else x }

  function ArmMov(insn: int, imm: int): int
  {
    Insert(Insert(insn, imm / 0x1000, 0x1_0000, 16), imm, 1, 0x1000)
  }

  function ThumbMov(insn: int, imm: int): int
  {
    Insert(Insert(ThumbMovHigh(insn, imm), imm / 0x100, 0x1000, 8), imm, 1, 256)
  }

  function ThumbMovHigh(insn: int, imm: int): int
  {
    Insert(Insert(insn, imm / 0x800, 0x400_0000, 2), imm / 0x1000, 0x1_0000, 16)
  }

  /** The first halfword of a Thumb `bl`: the sign and ten bits of the offset. */
  function BlHigh(insn: int, v: int): int
  {
    Insert(insn, 0xf000 + 0x400 * Field(v, 0x100_0000, 2) + Field(v, 0x1000, 0x400), 0x1_0000, 0x1_0000)
  }

  /** Bit `p` of the offset as a `bl` stores it: complemented and added to the sign. */
  function BlBit(v: int, p: nat): nat
    requires 0 < p
  {
    (1 + Field(v, p, 2) + Field(v, 0x100_0000, 2)) % 2
  }

  function Bl(insn: int, v: int): int
  {
    Insert(Insert(Insert(BlHigh(insn, v), BlBit(v, 0x80_0000), 0x2000, 2), BlBit(v, 0x40_0000), 0x800, 2), v / 2, 1, 0x800)
  }

  /** The two halfwords of a Thumb `b<cond>.w`. */
  function CondHigh(insn: int, v: int): int
  {
    Insert(Insert(insn, Field(v, 0x10_0000, 2), 0x400_0000, 2), Field(v, 0x1000, 64), 0x1_0000, 64)
  }

  function CondLow(v: int): int
  {
    0x8000 + 0x2000 * Field(v, 0x4_0000, 2) + 0x800 * Field(v, 0x8_0000, 2) + Field(v, 2, 0x800)
  }

  function Adr(insn: int, imm: nat, negative: bool): int
  {
    Insert(Insert(Insert(Insert(insn, if negative then 10 else 0, 0x10_0000, 16), imm / 0x800, 0x400_0000, 2),
                  imm / 0x100, 0x1000, 8), imm, 1, 256)
  }

  function Ldr(insn: int, imm: nat, negative: bool): int
  {
    Insert(Insert(insn, if negative then 0 else 1, 0x80_0000, 2), imm, 1, 0x1000)
  }

  function Ldrs(insn: int, imm: nat, negative: bool): int
  {
    Insert(Insert(Insert(insn, if negative then 0 else 1, 0x80_0000, 2), imm / 16, 0x100, 16), imm, 1, 16)
  }

  function Alu(insn: int, imm: nat, rotate: nat, negative: bool): int
  {
    Insert(Insert(Insert(insn, if negative then 1 else 2, 0x40_0000, 4), rotate, 0x100, 16), imm, 1, 256)
  }

  /** `Field::encode`. */
  function Encode(kind: Kind, insn: int, value: int): Result<int, Overflow>
  {
    match kind
    case Branch24 => if FitsSigned(value, 0x200_0000) then Ok(Insert(insn, value / 4, 1, 0x100_0000)) else Err(Overflow)
    case ThumbBranch24 => if FitsSigned(value, 0x100_0000) then Ok(Bl(insn, value)) else Err(Overflow)
    case ThumbBranch19 =>
      if FitsSigned(value, 0x10_0000) then Ok(Insert(CondHigh(insn, value), CondLow(value), 1, 0x1_0000)) else Err(Overflow)
    case ThumbBranch11 => if FitsSigned(value, 0x800) then Ok(Insert(insn, value / 2, 1, 0x800)) else Err(Overflow)
    case ThumbBranch8 => if FitsSigned(value, 0x100) then Ok(Insert(insn, value / 2, 1, 0x100)) else Err(Overflow)
    case Movw => Ok(ArmMov(insn, value % U16))
    case Movt => Ok(ArmMov(insn, Field(value, U16, U16)))
    case ThumbMovw => Ok(ThumbMov(insn, value % U16))
    case ThumbMovt => Ok(ThumbMov(insn, Field(value, U16, U16)))
    case Prel31 => if FitsSigned(value, 0x4000_0000) then Ok(Insert(insn, value, 1, 0x8000_0000)) else Err(Overflow)
    case ThumbAdr => if Abs(value) < 0x1000 then Ok(Adr(insn, Abs(value), value < 0)) else Err(Overflow)
    case ThumbLdrLiteral => if Abs(value) < 0x1000 then Ok(Ldr(insn, Abs(value), value < 0)) else Err(Overflow)
    case LdrGroup(group) =>
      if Abs(value) >= U32 then Err(Overflow)
      else
        var imm := Residual(Abs(value), group);
        if imm >= 0x1000 then Err(Overflow) else Ok(Ldr(insn, imm, value < 0))
    case LdrsGroup(group) =>
      if Abs(value) >= U32 then Err(Overflow)
      else
        var imm := Residual(Abs(value), group);
        if imm >= 0x100 then Err(Overflow) else Ok(Ldrs(insn, imm, value < 0))
    case AluGroup(group, checked) =>
      if Abs(value) >= U32 then Err(Overflow)
      else
        var residual := Residual(Abs(value), group);
        var (imm, rotate) := GroupImmediate(residual);
        if checked && NextResidual(residual) != 0 then Err(Overflow) else Ok(Alu(insn, imm, rotate, value < 0))
    case ThumbPc8 =>
      if 0 <= value <= 1020 && value % 4 == 0 then Ok(Insert(insn, value / 4, 1, 256)) else Err(Overflow)
    case ThumbJump6 =>
      if 0 <= value <= 126 && value % 2 == 0 then Ok(Insert(Insert(insn, value / 64, 0x200, 2), value / 2, 8, 32))
      else Err(Overflow)
  }

  function Split16(insn: int): int
  {
    0x1000 * Field(insn, 0x1_0000, 16) + 0x800 * Field(insn, 0x400_0000, 2) + 0x100 * Field(insn, 0x1000, 8) + Field(insn, 1, 256)
  }

  function BlOffset(insn: int): int
  {
    BlJoin(Field(insn, 0x400_0000, 2), Field(insn, 0x2000, 2), Field(insn, 0x800, 2), Field(insn, 0x1_0000, 0x400),
           Field(insn, 1, 0x800))
  }

  function BlJoin(s: nat, j1: nat, j2: nat, imm10: nat, imm11: nat): int
  {
    0x100_0000 * s + 0x80_0000 * ((1 + j1 + s) % 2) + 0x40_0000 * ((1 + j2 + s) % 2) + 0x1000 * imm10 + 2 * imm11
  }

  function CondOffset(insn: int): int
  {
    0x10_0000 * Field(insn, 0x400_0000, 2) + 0x8_0000 * Field(insn, 0x800, 2) + 0x4_0000 * Field(insn, 0x2000, 2)
    + 0x1000 * Field(insn, 0x1_0000, 64) + 2 * Field(insn, 1, 0x800)
  }

  /** `Field::decode`. */
  function Decode(kind: Kind, insn: int): int
  {
    match kind
    case Branch24 => Signed(4 * Field(insn, 1, 0x100_0000), 0x400_0000)
    case ThumbBranch24 => Signed(BlOffset(insn), 0x200_0000)
    case ThumbBranch19 => Signed(CondOffset(insn), 0x20_0000)
    case ThumbBranch11 => Signed(2 * Field(insn, 1, 0x800), 0x1000)
    case ThumbBranch8 => Signed(2 * Field(insn, 1, 0x100), 0x200)
    case Movw => Signed(0x1000 * Field(insn, 0x1_0000, 16) + Field(insn, 1, 0x1000), U16)
    case Movt => Signed(0x1000 * Field(insn, 0x1_0000, 16) + Field(insn, 1, 0x1000), U16)
    case ThumbMovw => Signed(Split16(insn), U16)
    case ThumbMovt => Signed(Split16(insn), U16)
    case Prel31 => Signed(Field(insn, 1, 0x8000_0000), 0x8000_0000)
    case ThumbAdr =>
      Negated(Field(insn, 0x10_0000, 16) != 0,
              0x800 * Field(insn, 0x400_0000, 2) + 0x100 * Field(insn, 0x1000, 8) + Field(insn, 1, 256))
    case ThumbLdrLiteral => Negated(Field(insn, 0x80_0000, 2) == 0, Field(insn, 1, 0x1000))
    case LdrGroup(_) => Negated(Field(insn, 0x80_0000, 2) == 0, Field(insn, 1, 0x1000))
    case LdrsGroup(_) => Negated(Field(insn, 0x80_0000, 2) == 0, 16 * Field(insn, 0x100, 16) + Field(insn, 1, 16))
    case AluGroup(_, _) => Negated(Field(insn, 0x40_0000, 2) == 1, RotateRight(Field(insn, 1, 256), 2 * Field(insn, 0x100, 16)))
    case ThumbPc8 => (4 * Field(insn, 1, 256) + 4) % 0x400 - 4
    case ThumbJump6 => 64 * Field(insn, 0x200, 2) + 2 * Field(insn, 8, 32)
  }

  // ---- Reading back ----

  /** What an accepted value reads back as: itself, up to the bits the field cannot hold. */
  function Meaning(kind: Kind, value: int): int
  {
    match kind
    case Branch24 => value - value % 4
    case ThumbBranch24 => value - value % 2
    case ThumbBranch19 => value - value % 2
    case ThumbBranch11 => value - value % 2
    case ThumbBranch8 => value - value % 2
    case Movw => Signed(value % U16, U16)
    case ThumbMovw => Signed(value % U16, U16)
    case Movt => Signed(Field(value, U16, U16), U16)
    case ThumbMovt => Signed(Field(value, U16, U16), U16)
    case ThumbPc8 => if value == 1020 then -4 else value
    case LdrGroup(group) => Negated(value < 0, if Abs(value) < U32 then Residual(Abs(value), group) else 0)
    case LdrsGroup(group) => Negated(value < 0, if Abs(value) < U32 then Residual(Abs(value), group) else 0)
    case AluGroup(group, _) => Negated(value < 0, if Abs(value) < U32 then Part(Abs(value), group) else 0)
    case _ => value
  }

  lemma BranchesRead(kind: Kind, insn: int, value: int)
    requires (kind.Branch24? || kind.ThumbBranch24? || kind.ThumbBranch19?) && Encode(kind, insn, value).Ok?
    ensures Decode(kind, Encode(kind, insn, value).value) == Meaning(kind, value)
  {
    hide Insert, Field, Bl, CondHigh, CondLow, Adr, Ldr, Ldrs, Alu, ArmMov, ThumbMov, Split16, BlOffset, CondOffset, Residual, Part, GroupImmediate, RotateRight;
    match kind
    case Branch24 =>
      InsertSame(insn, value / 4, 1, 0x100_0000);
      ScaledSigned(value / 4, 4, 0x100_0000);
    case ThumbBranch24 => BlReads(insn, value);
    case ThumbBranch19 => CondReads(insn, value);
  }

  lemma NarrowRead(kind: Kind, insn: int, value: int)
    requires (kind.ThumbBranch11? || kind.ThumbBranch8?) && Encode(kind, insn, value).Ok?
    ensures Decode(kind, Encode(kind, insn, value).value) == Meaning(kind, value)
  {
    hide Insert, Field, Bl, CondHigh, CondLow, Adr, Ldr, Ldrs, Alu, ArmMov, ThumbMov, Split16, BlOffset, CondOffset, Residual, Part, GroupImmediate, RotateRight;
    match kind
    case ThumbBranch11 =>
      InsertSame(insn, value / 2, 1, 0x800);
      ScaledSigned(value / 2, 2, 0x800);
    case ThumbBranch8 =>
      InsertSame(insn, value / 2, 1, 0x100);
      ScaledSigned(value / 2, 2, 0x100);
  }

  lemma Pc8Read(kind: Kind, insn: int, value: int)
    requires kind.ThumbPc8? && Encode(kind, insn, value).Ok?
    ensures Decode(kind, Encode(kind, insn, value).value) == Meaning(kind, value)
  {
    InsertSame(insn, value / 4, 1, 256);
    hide Insert, Field;
    DivModUnique(value / 4, 0, value / 4, 256);
  }

  lemma Jump6Read(kind: Kind, insn: int, value: int)
    requires kind.ThumbJump6? && Encode(kind, insn, value).Ok?
    ensures Decode(kind, Encode(kind, insn, value).value) == Meaning(kind, value)
  {
    Jump6Reads(insn, value);
    hide Insert, Field;
  }

  lemma MovesRead(kind: Kind, insn: int, value: int)
    requires (kind.Movw? || kind.Movt? || kind.ThumbMovw? || kind.ThumbMovt?) && Encode(kind, insn, value).Ok?
    ensures Decode(kind, Encode(kind, insn, value).value) == Meaning(kind, value)
  {
    hide Insert, Field, Bl, CondHigh, CondLow, Adr, Ldr, Ldrs, Alu, ArmMov, ThumbMov, Split16, BlOffset, CondOffset, Residual, Part, GroupImmediate, RotateRight;
    match kind
    case Movw => ArmMovReads(insn, value % U16);
    case Movt => ArmMovReads(insn, Field(value, U16, U16));
    case ThumbMovw => ThumbMovReads(insn, value % U16);
    case ThumbMovt => ThumbMovReads(insn, Field(value, U16, U16));
  }

  lemma OffsetsRead(kind: Kind, insn: int, value: int)
    requires (kind.Prel31? || kind.ThumbAdr? || kind.ThumbLdrLiteral?) && Encode(kind, insn, value).Ok?
    ensures Decode(kind, Encode(kind, insn, value).value) == Meaning(kind, value)
  {
    hide Insert, Field, Bl, CondHigh, CondLow, Adr, Ldr, Ldrs, Alu, ArmMov, ThumbMov, Split16, BlOffset, CondOffset, Residual, Part, GroupImmediate, RotateRight;
    match kind
    case Prel31 =>
      InsertSame(insn, value, 1, 0x8000_0000);
      SignedOfMod(value, 0x8000_0000);
    case ThumbAdr => AdrReads(insn, Abs(value), value < 0);
    case ThumbLdrLiteral => LdrReads(insn, Abs(value), value < 0);
  }

  lemma GroupsRead(kind: Kind, insn: int, value: int)
    requires (kind.LdrGroup? || kind.LdrsGroup? || kind.AluGroup?) && Encode(kind, insn, value).Ok?
    ensures Decode(kind, Encode(kind, insn, value).value) == Meaning(kind, value)
  {
    hide Insert, Field, Bl, CondHigh, CondLow, Adr, Ldr, Ldrs, Alu, ArmMov, ThumbMov, Split16, BlOffset, CondOffset, Residual, Part, GroupImmediate, RotateRight;
    match kind
    case LdrGroup(group) => LdrReads(insn, Residual(Abs(value), group), value < 0);
    case LdrsGroup(group) => LdrsReads(insn, Residual(Abs(value), group), value < 0);
    case AluGroup(group, _) =>
      PartTaken(Abs(value), group);
      AluReads(insn, GroupImmediate(Residual(Abs(value), group)).0, GroupImmediate(Residual(Abs(value), group)).1, value < 0);
  }

  /** Every field reads back what was packed into it. */
  lemma DecodeOfEncode(kind: Kind, insn: int, value: int)
    requires Encode(kind, insn, value).Ok?
    ensures Decode(kind, Encode(kind, insn, value).value) == Meaning(kind, value)
  {
    hide *;
    if kind.Branch24? || kind.ThumbBranch24? || kind.ThumbBranch19? {
      BranchesRead(kind, insn, value);
    } else if kind.ThumbBranch11? || kind.ThumbBranch8? {
      NarrowRead(kind, insn, value);
    } else if kind.ThumbPc8? {
      Pc8Read(kind, insn, value);
    } else if kind.ThumbJump6? {
      Jump6Read(kind, insn, value);
    } else if kind.Movw? || kind.Movt? || kind.ThumbMovw? || kind.ThumbMovt? {
      MovesRead(kind, insn, value);
    } else if kind.Prel31? || kind.ThumbAdr? || kind.ThumbLdrLiteral? {
      OffsetsRead(kind, insn, value);
    } else {
      GroupsRead(kind, insn, value);
    }
  }

  /** Fields that hold the value itself, or all of it but the bits below their scale. */
  predicate IsWhole(kind: Kind)
  {
    !kind.LdrGroup? && !kind.LdrsGroup? && !kind.AluGroup? && !kind.ThumbPc8?
  }

  /** Some instruction means the value. */
  ghost predicate Representable(kind: Kind, value: int)
  {
    exists word :: Decode(kind, word) == Meaning(kind, value)
  }

  /** Such a field takes exactly the values that some instruction of its kind means, scaled bits aside. */
  lemma AcceptedIfHeld(kind: Kind, insn: int, value: int)
    requires IsWhole(kind)
    ensures Encode(kind, insn, value).Ok? <==> Representable(kind, value)
  {
    if Encode(kind, insn, value).Ok? { DecodeOfEncode(kind, insn, value); }
    if word :| Decode(kind, word) == Meaning(kind, value) {
      DecodeRange(kind, word);
      RangeTaken(kind, insn, value);
    }
  }

  /** The values in reach of a kind: 32 MiB either way for an ARM branch, 16 MiB for a Thumb one. */
  predicate InRange(kind: Kind, value: int)
  {
    match kind
    case Branch24 => -32 * 1024 * 1024 <= value < 32 * 1024 * 1024
    case ThumbBranch24 => -16 * 1024 * 1024 <= value < 16 * 1024 * 1024
    case ThumbBranch19 => -1024 * 1024 <= value < 1024 * 1024
    case ThumbBranch11 => -2048 <= value < 2048
    case ThumbBranch8 => -256 <= value < 256
    case Prel31 => -0x4000_0000 <= value < 0x4000_0000
    case ThumbAdr => -4096 < value < 4096
    case ThumbLdrLiteral => -4096 < value < 4096
    case ThumbPc8 => 0 <= value <= 1020 && value % 4 == 0
    case ThumbJump6 => 0 <= value <= 126 && value % 2 == 0
    case _ => true
  }

  /** For these kinds and the one with the bias, acceptance is being in range. */
  lemma RangeTaken(kind: Kind, insn: int, value: int)
    requires IsWhole(kind) || kind.ThumbPc8?
    ensures Encode(kind, insn, value).Ok? <==> InRange(kind, value)
    ensures IsWhole(kind) ==> (InRange(kind, value) <==> InRange(kind, Meaning(kind, value)))
  {
    hide Insert, Field, Bl, CondHigh, CondLow, Adr, Ldr, ArmMov, ThumbMov;
  }

  lemma DecodeRange(kind: Kind, word: int)
    requires IsWhole(kind)
    ensures InRange(kind, Decode(kind, word))
  {
    hide Field;
  }

  lemma PartTaken(x: nat, group: nat)
    requires x < U32
    ensures var (imm, rotate) := GroupImmediate(Residual(x, group));
      imm < 256 && rotate < 16 && RotateRight(imm, 2 * rotate) == Part(x, group)
  {
    Pow2Values();
    GroupTaken(Residual(x, group), 32);
  }

  lemma ScaledSigned(v: int, s: nat, w: nat)
    requires 0 < s && 0 < w && w % 2 == 0 && FitsSigned(v, w / 2)
    ensures Signed(s * (v % w), s * w) == s * v
  {
    var h := w / 2;
    Halved(s, w, h);
    if v >= 0 {
      DivModUnique(v, 0, v, w);
      ScaledBelow(v, s, h);
    } else {
      DivModUnique(v, -1, v + w, w);
      ScaledAbove(v + w, s, h);
      Distributed(s, v, w);
    }
  }

  lemma Halved(s: nat, w: nat, h: nat)
    requires w == 2 * h
    ensures s * w == 2 * (s * h)
  {
  }

  lemma ScaledBelow(v: nat, s: nat, h: nat)
    requires v < h && 0 < s
    ensures s * v < s * h
  {
    MulMono(v + 1, h, s);
  }

  lemma ScaledAbove(v: nat, s: nat, h: nat)
    requires h <= v
    ensures s * h <= s * v
  {
    MulMono(h, v, s);
  }

  lemma Distributed(s: nat, v: int, w: nat)
    ensures s * (v + w) == s * v + s * w
  {
  }

  lemma ArmMovReads(insn: int, imm: nat)
    requires imm < U16
    ensures 0x1000 * Field(ArmMov(insn, imm), 0x1_0000, 16) + Field(ArmMov(insn, imm), 1, 0x1000) == imm
  {
    var y := Insert(insn, imm / 0x1000, 0x1_0000, 16);
    InsertSame(insn, imm / 0x1000, 0x1_0000, 16);
    InsertOther(y, imm, 1, 0x1000, 0x1_0000, 16);
    InsertSame(y, imm, 1, 0x1000);
    DivModUnique(imm / 0x1000, 0, imm / 0x1000, 16);
  }

  lemma ThumbMovReads(insn: int, imm: nat)
    requires imm < U16
    ensures Split16(ThumbMov(insn, imm)) == imm
  {
    hide Insert, Field;
    var y := ThumbMovHigh(insn, imm);
    var z := Insert(y, imm / 0x100, 0x1000, 8);
    ThumbMovHighFields(insn, imm);
    InsertOther(y, imm / 0x100, 0x1000, 8, 0x1_0000, 16);
    InsertOther(y, imm / 0x100, 0x1000, 8, 0x400_0000, 2);
    InsertSame(y, imm / 0x100, 0x1000, 8);
    ByteInserted(z, imm);
    Parts16(imm);
  }

  lemma ThumbMovHighFields(insn: int, imm: nat)
    ensures Field(ThumbMovHigh(insn, imm), 0x1_0000, 16) == (imm / 0x1000) % 16
    ensures Field(ThumbMovHigh(insn, imm), 0x400_0000, 2) == (imm / 0x800) % 2
  {
    hide Insert, Field;
    var x := Insert(insn, imm / 0x800, 0x400_0000, 2);
    InsertSame(insn, imm / 0x800, 0x400_0000, 2);
    InsertOther(x, imm / 0x1000, 0x1_0000, 16, 0x400_0000, 2);
    InsertSame(x, imm / 0x1000, 0x1_0000, 16);
  }

  lemma ByteInserted(z: int, imm: int)
    ensures var w := Insert(z, imm, 1, 256);
      && Field(w, 1, 256) == imm % 256 && Field(w, 0x1000, 8) == Field(z, 0x1000, 8)
      && Field(w, 0x1_0000, 16) == Field(z, 0x1_0000, 16) && Field(w, 0x400_0000, 2) == Field(z, 0x400_0000, 2)
      && Field(w, 0x10_0000, 16) == Field(z, 0x10_0000, 16)
  {
    hide Insert, Field;
    InsertSame(z, imm, 1, 256);
    InsertOther(z, imm, 1, 256, 0x1000, 8);
    InsertOther(z, imm, 1, 256, 0x1_0000, 16);
    InsertOther(z, imm, 1, 256, 0x400_0000, 2);
    InsertOther(z, imm, 1, 256, 0x10_0000, 16);
  }

  lemma Parts16(imm: nat)
    ensures imm < U16 ==>
      imm == 0x1000 * ((imm / 0x1000) % 16) + 0x800 * ((imm / 0x800) % 2) + 0x100 * ((imm / 0x100) % 8) + imm % 256
    ensures imm < 0x1000 ==> imm == 0x800 * ((imm / 0x800) % 2) + 0x100 * ((imm / 0x100) % 8) + imm % 256
  {
    Peel(imm, 1, 256);
    Peel(imm, 0x100, 8);
    Peel(imm, 0x800, 2);
  }

  lemma AdrReads(insn: int, imm: nat, negative: bool)
    requires imm < 0x1000
    ensures Decode(ThumbAdr, Adr(insn, imm, negative)) == Negated(negative, imm)
  {
    hide Insert, Field;
    var op := if negative then 10 else 0;
    var x := Insert(insn, op, 0x10_0000, 16);
    var y := Insert(x, imm / 0x800, 0x400_0000, 2);
    var z := Insert(y, imm / 0x100, 0x1000, 8);
    AdrOpcode(insn, op, imm);
    InsertSame(x, imm / 0x800, 0x400_0000, 2);
    InsertOther(y, imm / 0x100, 0x1000, 8, 0x400_0000, 2);
    InsertSame(y, imm / 0x100, 0x1000, 8);
    ByteInserted(z, imm);
    Parts16(imm);
  }

  lemma AdrOpcode(insn: int, op: nat, imm: nat)
    requires op < 16
    ensures Field(Insert(Insert(Insert(insn, op, 0x10_0000, 16), imm / 0x800, 0x400_0000, 2), imm / 0x100, 0x1000, 8),
                  0x10_0000, 16) == op
  {
    hide Insert, Field;
    var x := Insert(insn, op, 0x10_0000, 16);
    var y := Insert(x, imm / 0x800, 0x400_0000, 2);
    InsertSame(insn, op, 0x10_0000, 16);
    InsertOther(x, imm / 0x800, 0x400_0000, 2, 0x10_0000, 16);
    InsertOther(y, imm / 0x100, 0x1000, 8, 0x10_0000, 16);
  }

  lemma LdrReads(insn: int, imm: nat, negative: bool)
    requires imm < 0x1000
    ensures Negated(Field(Ldr(insn, imm, negative), 0x80_0000, 2) == 0, Field(Ldr(insn, imm, negative), 1, 0x1000))
         == Negated(negative, imm)
  {
    hide Insert, Field;
    var up := if negative then 0 else 1;
    var x := Insert(insn, up, 0x80_0000, 2);
    InsertSame(insn, up, 0x80_0000, 2);
    InsertOther(x, imm, 1, 0x1000, 0x80_0000, 2);
    InsertSame(x, imm, 1, 0x1000);
  }

  lemma LdrsReads(insn: int, imm: nat, negative: bool)
    requires imm < 0x100
    ensures var w := Ldrs(insn, imm, negative);
      Negated(Field(w, 0x80_0000, 2) == 0, 16 * Field(w, 0x100, 16) + Field(w, 1, 16)) == Negated(negative, imm)
  {
    LdrsFields(insn, imm, if negative then 0 else 1);
    Nibbles(imm);
  }

  lemma Nibbles(imm: nat)
    requires imm < 0x100
    ensures 16 * ((imm / 16) % 16) + imm % 16 == imm
  {
  }

  lemma LdrsFields(insn: int, imm: nat, up: nat)
    requires up < 2
    ensures var w := Insert(Insert(Insert(insn, up, 0x80_0000, 2), imm / 16, 0x100, 16), imm, 1, 16);
      Field(w, 0x80_0000, 2) == up && Field(w, 0x100, 16) == (imm / 16) % 16 && Field(w, 1, 16) == imm % 16
  {
    hide Insert, Field;
    var x := Insert(insn, up, 0x80_0000, 2);
    var y := Insert(x, imm / 16, 0x100, 16);
    var w := Insert(y, imm, 1, 16);
    assert Field(w, 0x80_0000, 2) == up by {
      InsertSame(insn, up, 0x80_0000, 2);
      InsertOther(x, imm / 16, 0x100, 16, 0x80_0000, 2);
      InsertOther(y, imm, 1, 16, 0x80_0000, 2);
    }
    assert Field(w, 0x100, 16) == (imm / 16) % 16 by {
      InsertSame(x, imm / 16, 0x100, 16);
      InsertOther(y, imm, 1, 16, 0x100, 16);
    }
    InsertSame(y, imm, 1, 16);
  }

  lemma AluReads(insn: int, imm: nat, rotate: nat, negative: bool)
    requires imm < 256 && rotate < 16
    ensures var w := Alu(insn, imm, rotate, negative);
      && Field(w, 1, 256) == imm && Field(w, 0x100, 16) == rotate
      && (Field(w, 0x40_0000, 2) == 1 <==> negative)
  {
    hide Insert, Field;
    var op := if negative then 1 else 2;
    var x := Insert(insn, op, 0x40_0000, 4);
    var y := Insert(x, rotate, 0x100, 16);
    var w := Insert(y, imm, 1, 256);
    assert Field(w, 0x40_0000, 2) == op % 2 by {
      AluOpcode(insn, op);
      InsertOther(x, rotate, 0x100, 16, 0x40_0000, 2);
      InsertOther(y, imm, 1, 256, 0x40_0000, 2);
    }
    assert Field(w, 0x100, 16) == rotate by {
      InsertSame(x, rotate, 0x100, 16);
      InsertOther(y, imm, 1, 256, 0x100, 16);
    }
    InsertSame(y, imm, 1, 256);
  }

  lemma AluOpcode(insn: int, op: nat)
    requires op < 4
    ensures Field(Insert(insn, op, 0x40_0000, 4), 0x40_0000, 2) == op % 2
  {
    var w := Insert(insn, op, 0x40_0000, 4);
    InsertSame(insn, op, 0x40_0000, 4);
    var q := w / 0x40_0000;
    assert q == (q / 4) * 4 + q % 4;
  }

  lemma Jump6Reads(insn: int, value: int)
    requires 0 <= value <= 126 && value % 2 == 0
    ensures Decode(ThumbJump6, Insert(Insert(insn, value / 64, 0x200, 2), value / 2, 8, 32)) == value
  {
    Jump6Fields(insn, value / 64, value / 2);
    Jump6Sum(value);
  }

  lemma Jump6Fields(insn: int, high: int, low: int)
    ensures var w := Insert(Insert(insn, high, 0x200, 2), low, 8, 32);
      Field(w, 0x200, 2) == high % 2 && Field(w, 8, 32) == low % 32
  {
    hide Insert, Field;
    var x := Insert(insn, high, 0x200, 2);
    assert Field(Insert(x, low, 8, 32), 0x200, 2) == high % 2 by {
      InsertSame(insn, high, 0x200, 2);
      InsertOther(x, low, 8, 32, 0x200, 2);
    }
    InsertSame(x, low, 8, 32);
  }

  lemma Jump6Sum(value: int)
    requires 0 <= value <= 126 && value % 2 == 0
    ensures 64 * ((value / 64) % 2) + 2 * ((value / 2) % 32) == value
  {
  }

  lemma CondReads(insn: int, v: int)
    requires FitsSigned(v, 0x10_0000)
    ensures Decode(ThumbBranch19, Insert(CondHigh(insn, v), CondLow(v), 1, 0x1_0000)) == v - v % 2
  {
    hide Insert, Field;
    var y := CondHigh(insn, v);
    var w := Insert(y, CondLow(v), 1, 0x1_0000);
    CondHighFields(insn, v);
    InsertOther(y, CondLow(v), 1, 0x1_0000, 0x400_0000, 2);
    InsertOther(y, CondLow(v), 1, 0x1_0000, 0x1_0000, 64);
    InsertSame(y, CondLow(v), 1, 0x1_0000);
    CondLowFields(w, v);
    CondSum(v);
  }

  lemma CondHighFields(insn: int, v: int)
    ensures Field(CondHigh(insn, v), 0x400_0000, 2) == Field(v, 0x10_0000, 2)
    ensures Field(CondHigh(insn, v), 0x1_0000, 64) == Field(v, 0x1000, 64)
  {
    TwoFields(insn, Field(v, 0x10_0000, 2), Field(v, 0x1000, 64));
  }

  lemma TwoFields(insn: int, s: nat, imm: nat)
    requires s < 2 && imm < 64
    ensures var w := Insert(Insert(insn, s, 0x400_0000, 2), imm, 0x1_0000, 64);
      Field(w, 0x400_0000, 2) == s && Field(w, 0x1_0000, 64) == imm
  {
    hide Insert, Field;
    var x := Insert(insn, s, 0x400_0000, 2);
    assert Field(Insert(x, imm, 0x1_0000, 64), 0x400_0000, 2) == s by {
      InsertSame(insn, s, 0x400_0000, 2);
      InsertOther(x, imm, 0x1_0000, 64, 0x400_0000, 2);
    }
    InsertSame(x, imm, 0x1_0000, 64);
  }

  lemma CondLowFields(w: int, v: int)
    requires Field(w, 1, 0x1_0000) == CondLow(v) % 0x1_0000
    ensures Field(w, 0x2000, 2) == Field(v, 0x4_0000, 2) && Field(w, 0x800, 2) == Field(v, 0x8_0000, 2)
    ensures Field(w, 1, 0x800) == Field(v, 2, 0x800)
  {
    HalfFields(w, CondLow(v));
    LowParts(1, 0, Field(v, 0x4_0000, 2), 0, Field(v, 0x8_0000, 2), Field(v, 2, 0x800));
  }

  /** The fields of a word's low half are those of the half. */
  lemma HalfFields(w: int, half: nat)
    requires half < 0x1_0000 && Field(w, 1, 0x1_0000) == half
    ensures Field(w, 0x2000, 2) == Field(half, 0x2000, 2) && Field(w, 0x800, 2) == Field(half, 0x800, 2)
    ensures Field(w, 1, 0x800) == Field(half, 1, 0x800)
  {
    var q := w / 0x1_0000;
    assert w == q * 0x1_0000 + half;
    ModAddMultiple(half, q * 8, 0x2000);
    ModAddMultiple(half / 0x2000, q * 4, 2);
    ModAddMultiple(half, q * 32, 0x800);
    ModAddMultiple(half / 0x800, q * 16, 2);
  }

  lemma LowParts(a: nat, b: nat, c: nat, d: nat, e: nat, f: nat)
    requires a < 2 && b < 2 && c < 2 && d < 2 && e < 2 && f < 0x800
    ensures var half := 0x8000 * a + 0x4000 * b + 0x2000 * c + 0x1000 * d + 0x800 * e + f;
      half < 0x1_0000 && Field(half, 0x2000, 2) == c && Field(half, 0x800, 2) == e && Field(half, 1, 0x800) == f
  {
    var half := 0x8000 * a + 0x4000 * b + 0x2000 * c + 0x1000 * d + 0x800 * e + f;
    FieldOfSum(2 * a + b, c, 0x1000 * d + 0x800 * e + f, 0x2000, 2);
    FieldOfSum(8 * a + 4 * b + 2 * c + d, e, f, 0x800, 2);
    FieldOfSum(16 * a + 8 * b + 4 * c + 2 * d + e, f, 0, 1, 0x800);
  }

  /** The five parts of a 21-bit offset. */
  lemma CondSum(v: int)
    requires FitsSigned(v, 0x10_0000)
    ensures Signed(0x10_0000 * Field(v, 0x10_0000, 2) + 0x8_0000 * Field(v, 0x8_0000, 2) + 0x4_0000 * Field(v, 0x4_0000, 2)
                   + 0x1000 * Field(v, 0x1000, 64) + 2 * Field(v, 2, 0x800), 0x20_0000) == v - v % 2
  {
    var u := if v < 0 then v + 0x20_0000 else v;
    var k := if v < 0 then 1 else 0;
    ShiftedFields(v, u, k);
    TopDown21(u);
  }

  lemma ShiftedFields(v: int, u: nat, k: nat)
    requires u == v + k * 0x20_0000
    ensures Field(v, 0x10_0000, 2) == Field(u, 0x10_0000, 2) && Field(v, 0x8_0000, 2) == Field(u, 0x8_0000, 2)
    ensures Field(v, 0x4_0000, 2) == Field(u, 0x4_0000, 2) && Field(v, 0x1000, 64) == Field(u, 0x1000, 64)
    ensures Field(v, 2, 0x800) == Field(u, 2, 0x800) && v % 2 == u % 2
  {
    FieldShift(v, k, 0x10_0000, 2, 1);
    FieldShift(v, k, 0x8_0000, 2, 2);
    FieldShift(v, k, 0x4_0000, 2, 4);
    FieldShift(v, k, 0x1000, 64, 8);
    FieldShift(v, k, 2, 0x800, 0x200);
    ModAddMultiple(v, k * 0x10_0000, 2);
  }

  /** Adding multiples of a number above a field does not change it. */
  lemma FieldShift(v: int, k: int, p: nat, w: nat, m: nat)
    requires 0 < p && 0 < w
    ensures Field(v + k * (p * w * m), p, w) == Field(v, p, w)
  {
    assert k * (p * w * m) == (k * m * w) * p;
    ModAddMultiple(v, k * m * w, p);
    ModAddMultiple(v / p, k * m, w);
  }

  lemma TopDown21(u: nat)
    requires u < 0x20_0000
    ensures 0x10_0000 * Field(u, 0x10_0000, 2) + 0x8_0000 * Field(u, 0x8_0000, 2) + 0x4_0000 * Field(u, 0x4_0000, 2)
          + 0x1000 * Field(u, 0x1000, 64) + 2 * Field(u, 2, 0x800) == u - u % 2
  {
    Peel(u, 2, 0x800);
    Peel(u, 0x1000, 64);
    Peel(u, 0x4_0000, 2);
    Peel(u, 0x8_0000, 2);
    DivModUnique(u / 0x10_0000, 0, u / 0x10_0000, 2);
  }

  /** A field and what is above it make up the shifted number. */
  lemma Peel(u: nat, p: nat, w: nat)
    requires 0 < p && 0 < w
    ensures 0 < p * w && u / p == (u / (p * w)) * w + Field(u, p, w)
  {
    DivDiv(u, p, w);
  }

  lemma BlReads(insn: int, v: int)
    requires FitsSigned(v, 0x100_0000)
    ensures Decode(ThumbBranch24, Bl(insn, v)) == v - v % 2
  {
    BlFields(insn, v);
    BlOffsetOf(Bl(insn, v), v);
    BlSum(v);
  }

  lemma BlOffsetOf(w: int, v: int)
    requires Field(w, 0x400_0000, 2) == Field(v, 0x100_0000, 2) && Field(w, 0x1_0000, 0x400) == Field(v, 0x1000, 0x400)
    requires Field(w, 0x2000, 2) == BlBit(v, 0x80_0000) && Field(w, 0x800, 2) == BlBit(v, 0x40_0000)
    requires Field(w, 1, 0x800) == Field(v, 2, 0x800)
    ensures BlOffset(w) == 0x100_0000 * Field(v, 0x100_0000, 2) + 0x80_0000 * Field(v, 0x80_0000, 2)
          + 0x40_0000 * Field(v, 0x40_0000, 2) + 0x1000 * Field(v, 0x1000, 0x400) + 2 * Field(v, 2, 0x800)
  {
    Joined(Field(v, 0x100_0000, 2), Field(v, 0x80_0000, 2), Field(v, 0x40_0000, 2), Field(v, 0x1000, 0x400), Field(v, 2, 0x800));
  }

  lemma Joined(s: nat, i1: nat, i2: nat, imm10: nat, imm11: nat)
    requires s < 2 && i1 < 2 && i2 < 2
    ensures BlJoin(s, (1 + i1 + s) % 2, (1 + i2 + s) % 2, imm10, imm11)
         == 0x100_0000 * s + 0x80_0000 * i1 + 0x40_0000 * i2 + 0x1000 * imm10 + 2 * imm11
  {
  }

  lemma BlFields(insn: int, v: int)
    ensures var w := Bl(insn, v);
      && Field(w, 0x400_0000, 2) == Field(v, 0x100_0000, 2) && Field(w, 0x1_0000, 0x400) == Field(v, 0x1000, 0x400)
      && Field(w, 0x2000, 2) == BlBit(v, 0x80_0000) && Field(w, 0x800, 2) == BlBit(v, 0x40_0000)
      && Field(w, 1, 0x800) == Field(v, 2, 0x800)
  {
    hide Insert, Field;
    var x := BlHigh(insn, v);
    var y := Insert(x, BlBit(v, 0x80_0000), 0x2000, 2);
    var z := Insert(y, BlBit(v, 0x40_0000), 0x800, 2);
    BlHighFields(insn, v);
    KeepsBlHigh(x, BlBit(v, 0x80_0000), 0x2000, 2);
    KeepsBlHigh(y, BlBit(v, 0x40_0000), 0x800, 2);
    KeepsBlHigh(z, v / 2, 1, 0x800);
    BlLowFields(x, v);
  }

  lemma KeepsBlHigh(x: int, v: int, p: nat, w: nat)
    requires (p == 0x2000 && w == 2) || (p == 0x800 && w == 2) || (p == 1 && w == 0x800)
    ensures Field(Insert(x, v, p, w), 0x400_0000, 2) == Field(x, 0x400_0000, 2)
    ensures Field(Insert(x, v, p, w), 0x1_0000, 0x400) == Field(x, 0x1_0000, 0x400)
  {
    hide Insert, Field;
    InsertOther(x, v, p, w, 0x400_0000, 2);
    InsertOther(x, v, p, w, 0x1_0000, 0x400);
  }

  lemma BlLowFields(x: int, v: int)
    ensures var y := Insert(x, BlBit(v, 0x80_0000), 0x2000, 2);
      var z := Insert(y, BlBit(v, 0x40_0000), 0x800, 2);
      var w := Insert(z, v / 2, 1, 0x800);
      && Field(w, 0x2000, 2) == BlBit(v, 0x80_0000) && Field(w, 0x800, 2) == BlBit(v, 0x40_0000)
      && Field(w, 1, 0x800) == Field(v, 2, 0x800)
  {
    BlLow(x, BlBit(v, 0x80_0000), BlBit(v, 0x40_0000), v / 2);
  }

  lemma BlLow(x: int, j1: nat, j2: nat, imm: int)
    requires j1 < 2 && j2 < 2
    ensures var w := Insert(Insert(Insert(x, j1, 0x2000, 2), j2, 0x800, 2), imm, 1, 0x800);
      Field(w, 0x2000, 2) == j1 && Field(w, 0x800, 2) == j2 && Field(w, 1, 0x800) == imm % 0x800
  {
    hide Insert, Field;
    var y := Insert(x, j1, 0x2000, 2);
    var z := Insert(y, j2, 0x800, 2);
    var w := Insert(z, imm, 1, 0x800);
    assert Field(w, 0x2000, 2) == j1 by {
      InsertSame(x, j1, 0x2000, 2);
      InsertOther(y, j2, 0x800, 2, 0x2000, 2);
      InsertOther(z, imm, 1, 0x800, 0x2000, 2);
    }
    assert Field(w, 0x800, 2) == j2 by {
      InsertSame(y, j2, 0x800, 2);
      InsertOther(z, imm, 1, 0x800, 0x800, 2);
    }
    InsertSame(z, imm, 1, 0x800);
  }

  lemma BlHighFields(insn: int, v: int)
    ensures Field(BlHigh(insn, v), 0x400_0000, 2) == Field(v, 0x100_0000, 2)
    ensures Field(BlHigh(insn, v), 0x1_0000, 0x400) == Field(v, 0x1000, 0x400)
  {
    var s, imm := Field(v, 0x100_0000, 2), Field(v, 0x1000, 0x400);
    var hi := 0xf000 + 0x400 * s + imm;
    var w := BlHigh(insn, v);
    InsertSame(insn, hi, 0x1_0000, 0x1_0000);
    var q := w / 0x1_0000;
    assert q == (q / 0x1_0000) * 0x1_0000 + hi;
    DivDiv(w, 0x1_0000, 0x400);
    DivModUnique(q, (q / 0x1_0000) * 64 + 60 + s, imm, 0x400);
    DivModUnique((q / 0x1_0000) * 64 + 60 + s, (q / 0x1_0000) * 32 + 30, s, 2);
  }

  /** The five parts of a 25-bit offset. */
  lemma BlSum(v: int)
    requires FitsSigned(v, 0x100_0000)
    ensures Signed(0x100_0000 * Field(v, 0x100_0000, 2) + 0x80_0000 * Field(v, 0x80_0000, 2) + 0x40_0000 * Field(v, 0x40_0000, 2)
                   + 0x1000 * Field(v, 0x1000, 0x400) + 2 * Field(v, 2, 0x800), 0x200_0000) == v - v % 2
  {
    var k := if v < 0 then 1 else 0;
    var u := v + k * 0x200_0000;
    FieldShift(v, k, 0x100_0000, 2, 1);
    FieldShift(v, k, 0x80_0000, 2, 2);
    FieldShift(v, k, 0x40_0000, 2, 4);
    FieldShift(v, k, 0x1000, 0x400, 8);
    FieldShift(v, k, 2, 0x800, 0x2000);
    ModAddMultiple(v, k * 0x100_0000, 2);
    TopDown25(u);
  }

  lemma TopDown25(u: nat)
    requires u < 0x200_0000
    ensures 0x100_0000 * Field(u, 0x100_0000, 2) + 0x80_0000 * Field(u, 0x80_0000, 2) + 0x40_0000 * Field(u, 0x40_0000, 2)
          + 0x1000 * Field(u, 0x1000, 0x400) + 2 * Field(u, 2, 0x800) == u - u % 2
  {
    Peel(u, 2, 0x800);
    Peel(u, 0x1000, 0x400);
    Peel(u, 0x40_0000, 2);
    Peel(u, 0x80_0000, 2);
    DivModUnique(u / 0x100_0000, 0, u / 0x100_0000, 2);
  }

  /** The one aligned value a field does not read back: Thumb's `PC8` uses its last code for -4. */
  lemma Pc8Bias(insn: int, value: int)
    requires Encode(ThumbPc8, insn, value).Ok?
    ensures Decode(ThumbPc8, Encode(ThumbPc8, insn, value).value) == value <==> value != 1020
  {
    DecodeOfEncode(ThumbPc8, insn, value);
  }

  // ---- Group sequences ----

  /** `add rN, pc, #G0; add rN, rN, #G1; ldr rD, [rN, #G2]` adds up to the value. */
  lemma GroupSequence(i0: int, i1: int, i2: int, value: int)
    requires Encode(AluGroup(0, false), i0, value).Ok? && Encode(AluGroup(1, false), i1, value).Ok?
    requires Encode(LdrGroup(2), i2, value).Ok?
    ensures Decode(AluGroup(0, false), Encode(AluGroup(0, false), i0, value).value)
          + Decode(AluGroup(1, false), Encode(AluGroup(1, false), i1, value).value)
          + Decode(LdrGroup(2), Encode(LdrGroup(2), i2, value).value) == value
  {
    DecodeOfEncode(AluGroup(0, false), i0, value);
    DecodeOfEncode(AluGroup(1, false), i1, value);
    DecodeOfEncode(LdrGroup(2), i2, value);
    ThreeParts(Abs(value));
  }

  lemma ThreeParts(value: nat)
    requires value < U32
    ensures Part(value, 0) + Part(value, 1) + Residual(value, 2) == value
    ensures Part(value, 0) + Part(value, 1) + Part(value, 2) + Residual(value, 3) == value
  {
    PartsAndResidual(value, 2);
    PartsAndResidual(value, 3);
    assert Parts(value, 2) == Parts(value, 1) + Part(value, 1);
    assert Parts(value, 1) == Parts(value, 0) + Part(value, 0);
  }

  /** A checked third `add` leaves nothing behind, so the three immediates alone add up to the value. */
  lemma CheckedSequence(i0: int, i1: int, i2: int, value: int)
    requires Encode(AluGroup(0, false), i0, value).Ok? && Encode(AluGroup(1, false), i1, value).Ok?
    requires Encode(AluGroup(2, true), i2, value).Ok?
    ensures Decode(AluGroup(0, false), Encode(AluGroup(0, false), i0, value).value)
          + Decode(AluGroup(1, false), Encode(AluGroup(1, false), i1, value).value)
          + Decode(AluGroup(2, true), Encode(AluGroup(2, true), i2, value).value) == value
  {
    DecodeOfEncode(AluGroup(0, false), i0, value);
    DecodeOfEncode(AluGroup(1, false), i1, value);
    DecodeOfEncode(AluGroup(2, true), i2, value);
    ThreeParts(Abs(value));
    assert Residual(Abs(value), 3) == 0;
  }
}
