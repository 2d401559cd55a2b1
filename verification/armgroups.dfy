/**
  The group relocations of A32: a value taken apart into rotated eight-bit
  immediates, most significant first.
 */
module ArmGroups {
  import opened Bits

  // ---- Shifts ----

  function Shr(v: nat, n: nat): nat
  {
    if n == 0 then v else Shr(v, n - 1) / 2
  }

  function Shl(v: int, n: nat): int
  {
    if n == 0 then v else 2 * Shl(v, n - 1)
  }

  /** The low `n` bits. */
  function LowBits(v: nat, n: nat): int
  {
    v - Shl(Shr(v, n), n)
  }

  lemma {:induction false} ShlParts(y: int, b: int, n: nat)
    ensures Shl(2 * y + b, n) == 2 * Shl(y, n) + Shl(b, n)
    ensures Shl(0, n) == 0 && Shl(1, n) == Pow2(n)
  {
    if n > 0 { ShlParts(y, b, n - 1); }
  }

  lemma {:induction false} LowBitsRange(v: nat, n: nat)
    ensures 0 <= LowBits(v, n) < Pow2(n) && LowBits(v, n) <= v
  {
    if n > 0 {
      LowBitsRange(v, n - 1);
      var x := Shr(v, n - 1);
      ShlParts(x / 2, x % 2, n - 1);
      assert x == 2 * (x / 2) + x % 2;
      ShlNat(Shr(v, n), n);
    } else {
      assert LowBits(v, 0) == 0;
    }
  }

  lemma {:induction false} ShlNat(v: nat, n: nat)
    ensures 0 <= Shl(v, n)
  {
    if n > 0 { ShlNat(v, n - 1); }
  }

  lemma {:induction false} ShrBound(v: nat, n: nat, k: nat)
    requires v < Pow2(k + n)
    ensures Shr(v, n) < Pow2(k)
    decreases n
  {
    if n > 0 {
      assert k + n == (k + 1) + (n - 1);
      ShrBound(v, n - 1, k + 1);
    }
  }

  lemma {:induction false} Pow2Mono(a: nat, b: nat)
    requires a <= b
    ensures Pow2(a) <= Pow2(b)
    decreases b
  {
    if a < b { Pow2Mono(a, b - 1); }
  }

  lemma Pow2Values()
    ensures Pow2(8) == 256 && Pow2(32) == U32
  {
    Pow2Add(2, 2);
    Pow2Add(4, 4);
    Pow2Add(8, 8);
    Pow2Add(16, 16);
  }

  // ---- Groups ----

  function BitLength(value: nat): nat
  {
    if value == 0 then 0 else 1 + BitLength(value / 2)
  }

  function EvenFloor(n: int): nat
  {
    if n <= 0 then 0 else n - n % 2
  }

  /** `value.leading_zeros() & !1`, of a 32-bit value. */
  function EvenZeros(value: nat): nat
  {
    EvenFloor(32 - BitLength(value))
  }

  lemma {:induction false} BitLengthBounds(value: nat, n: nat)
    ensures value < Pow2(BitLength(value))
    ensures 0 < value ==> 0 < BitLength(value) && Pow2(BitLength(value) - 1) <= value
    ensures value < Pow2(n) ==> BitLength(value) <= n
  {
    if value != 0 {
      BitLengthBounds(value / 2, if n == 0 then 0 else n - 1);
    }
  }

  /** Whether the leading group of a value starts below its first `e` bits. */
  predicate LeadsAt(value: nat, e: nat)
  {
    && e % 2 == 0 && e <= 32 && value < Pow2(32 - e)
    && (0 < value ==> e <= 30 && Pow2(30 - e) <= value)
  }

  lemma EvenZerosBounds(value: nat, n: nat)
    requires value < Pow2(n) && n <= 32 && n % 2 == 0
    ensures LeadsAt(value, EvenZeros(value)) && 32 - n <= EvenZeros(value)
  {
    BitLengthBounds(value, n);
    LengthLeads(value, BitLength(value), n);
  }

  lemma LengthLeads(value: nat, b: nat, n: nat)
    requires value < Pow2(b) && b <= n <= 32 && n % 2 == 0
    requires 0 < value ==> 0 < b && Pow2(b - 1) <= value
    ensures LeadsAt(value, EvenFloor(32 - b)) && 32 - n <= EvenFloor(32 - b)
  {
    if b % 2 == 0 {
      assert EvenFloor(32 - b) == 32 - b;
      assert 32 - (32 - b) == b && 30 - (32 - b) == b - 2;
      if 0 < value {
        Pow2Mono(b - 2, b - 1);
      }
    } else {
      assert EvenFloor(32 - b) == 31 - b;
      assert 32 - (31 - b) == b + 1 && 30 - (31 - b) == b - 1;
      Pow2Mono(b, b + 1);
    }
  }

  /** `next_residual`: what is left once the leading group is taken. */
  function NextResidual(value: nat): int
  {
    ResidualAt(value, EvenZeros(value))
  }

  function ResidualAt(value: nat, e: nat): int
  {
    if e >= 24 then 0 else LowBits(value, 24 - e)
  }

  /** `group_immediate`: the leading group as eight bits and a rotation in units of two bits. */
  function GroupImmediate(value: nat): (nat, nat)
  {
    ImmediateAt(value, EvenZeros(value))
  }

  function ImmediateAt(value: nat, e: nat): (nat, nat)
  {
    if e >= 24 then (value % 256, 0) else (Shr(value, 24 - e) % 256, (e + 8) / 2)
  }

  /** A 32-bit rotation. */
  function RotateRight(value: nat, turn: nat): int
    requires turn < 32
  {
    if turn == 0 then value else Shr(value, turn) + Shl(LowBits(value, turn), 32 - turn)
  }

  lemma RotateByte(imm: nat, turn: nat)
    requires imm < 256 && 8 <= turn < 32
    ensures RotateRight(imm, turn) == Shl(imm, 32 - turn)
  {
    Pow2Values();
    Pow2Mono(8, turn);
    ShrBound(imm, turn, 0);
    ShlParts(0, 0, turn);
  }

  /** A group and what is left add up to the value, fit their fields, and the rest is shorter and smaller. */
  lemma GroupTaken(value: nat, n: nat)
    requires value < Pow2(n) && n <= 32 && n % 2 == 0
    ensures var (imm, rotate) := GroupImmediate(value);
      && imm < 256 && rotate < 16
      && RotateRight(imm, 2 * rotate) + NextResidual(value) == value
    ensures 0 <= NextResidual(value) <= value
    ensures 0 < value ==> NextResidual(value) < value
    ensures 8 <= n ==> NextResidual(value) < Pow2(n - 8)
  {
    hide LeadsAt, ImmediateAt, RotateRight;
    EvenZerosBounds(value, n);
    GroupTakenAt(value, EvenZeros(value));
    if 8 <= n && EvenZeros(value) < 24 {
      Pow2Mono(24 - EvenZeros(value), n - 8);
    }
  }

  lemma GroupTakenAt(value: nat, e: nat)
    requires LeadsAt(value, e)
    ensures var (imm, rotate) := ImmediateAt(value, e);
      imm < 256 && rotate < 16 && RotateRight(imm, 2 * rotate) + ResidualAt(value, e) == value
    ensures 0 <= ResidualAt(value, e) <= value
    ensures 0 < value ==> ResidualAt(value, e) < value
    ensures e < 24 ==> ResidualAt(value, e) < Pow2(24 - e)
  {
    if e >= 24 {
      ByteLeft(value, e);
    } else {
      LeadingGroup(value, e);
      var imm, rotate := Shr(value, 24 - e), (e + 8) / 2;
      assert ImmediateAt(value, e) == (imm, rotate);
      assert RotateRight(imm, 2 * rotate) + ResidualAt(value, e) == value;
    }
  }

  lemma ByteLeft(value: nat, e: nat)
    requires 24 <= e <= 32 && value < Pow2(32 - e)
    ensures value < 256 && value % 256 == value && RotateRight(value, 0) == value
  {
    assert Pow2(8) == 256 by { Pow2Values(); }
    Pow2Mono(32 - e, 8);
  }

  lemma LeadingGroup(value: nat, e: nat)
    requires e % 2 == 0 && e < 24 && value < Pow2(32 - e)
    requires 0 < value ==> Pow2(30 - e) <= value
    ensures ImmediateAt(value, e) == (Shr(value, 24 - e), (e + 8) / 2) && Shr(value, 24 - e) < 256
    ensures 2 * ((e + 8) / 2) == e + 8
    ensures RotateRight(Shr(value, 24 - e), e + 8) + LowBits(value, 24 - e) == value
    ensures 0 <= LowBits(value, 24 - e) < Pow2(24 - e) && LowBits(value, 24 - e) <= value
    ensures 0 < value ==> LowBits(value, 24 - e) < value
  {
    Pow2Values();
    hide Pow2, RotateRight, Shr, Shl;
    assert 32 - e == 24 - e + 8;
    ShrBound(value, 24 - e, 8);
    LowBitsRange(value, 24 - e);
    RotateByte(Shr(value, 24 - e), e + 8);
    Pow2Mono(24 - e, 30 - e);
  }

  /** What is left after `group` groups. */
  function Residual(value: nat, group: nat): int
    requires value < U32
    ensures 0 <= Residual(value, group) <= value
    decreases group
  {
    if group == 0 then value
    else
      Pow2Values();
      GroupTaken(Residual(value, group - 1), 32);
      NextResidual(Residual(value, group - 1))
  }

  /** `group_residual`. */
  method GroupResidual(value: nat, group: nat) returns (left: int)
    requires value < U32
    ensures left == Residual(value, group)
  {
    left := value;
    for taken := 0 to group
      invariant left == Residual(value, taken)
    {
      left := NextResidual(left);
    }
  }

  /** Each group clears at least eight more bits, so nothing is left after four. */
  lemma {:induction false} ResidualBound(value: nat, group: nat, n: nat)
    requires value < U32 && n + 8 * group == 32
    ensures Residual(value, group) < Pow2(n)
    decreases group
  {
    if group == 0 {
      Pow2Values();
    } else {
      ResidualBound(value, group - 1, n + 8);
      GroupTaken(Residual(value, group - 1), n + 8);
    }
  }

  lemma FourGroups(value: nat)
    requires value < U32
    ensures Residual(value, 4) == 0
  {
    ResidualBound(value, 4, 0);
  }

  /** Groups are taken until nothing is left: a residual that is not zero strictly shrinks. */
  lemma ResidualShrinks(value: nat, group: nat)
    requires value < U32 && Residual(value, group) != 0
    ensures Residual(value, group + 1) < Residual(value, group)
  {
    Pow2Values();
    GroupTaken(Residual(value, group), 32);
  }

  /** The number the leading group of what is left after `group` groups stands for. */
  function Part(value: nat, group: nat): int
    requires value < U32
  {
    Pow2Values();
    GroupTaken(Residual(value, group), 32);
    var (imm, rotate) := GroupImmediate(Residual(value, group));
    RotateRight(imm, 2 * rotate)
  }

  function Parts(value: nat, groups: nat): int
    requires value < U32
  {
    if groups == 0 then 0 else Parts(value, groups - 1) + Part(value, groups - 1)
  }

  /** The parts taken and what is left add up to the value, however many groups are taken. */
  lemma {:induction false} PartsAndResidual(value: nat, groups: nat)
    requires value < U32
    ensures Parts(value, groups) + Residual(value, groups) == value
    decreases groups
  {
    if groups > 0 {
      PartsAndResidual(value, groups - 1);
      Pow2Values();
      GroupTaken(Residual(value, groups - 1), 32);
    }
  }
}
