/**
  Arm and Thumb range-extension thunks and the PLT entry, written into a
  buffer and run.
 */
module ArmThunks {
  import opened Bits
  import opened Bytes
  import opened Results
  import opened ArmGroups
  import Arm

  const BX_IP: nat := 0xe12f_ff1c
  const ADD_IP_IP_PC: nat := 0xe08c_c00f
  const THUMB_BX_IP: nat := 0x4760
  const THUMB_ADD_IP_PC: nat := 0x44fc

  function MovwIp(value: int): int { Arm.ArmMov(0xe300_c000, value % U16) }

  function MovtIp(value: int): int { Arm.ArmMov(0xe340_c000, Field(value, U16, U16)) }

  function ThumbMovwIp(value: int): int { Arm.ThumbMov(0xf240_0c00, value % U16) }

  function ThumbMovtIp(value: int): int { Arm.ThumbMov(0xf2c0_0c00, Field(value, U16, U16)) }

  /** A 32-bit Thumb instruction: the first halfword at the lower address. */
  function Thumb32(insn: int): (bytes: seq<Byte>)
    ensures |bytes| == 4
  {
    Le16(insn / U16) + Le16(insn)
  }

  function Zeros(n: nat): (z: seq<Byte>)
    ensures |z| == n && forall k :: 0 <= k < n ==> z[k] == 0
  {
    seq(n, _ => 0)
  }

  function A32Bytes(value: nat, pic: bool): (bytes: seq<Byte>)
    ensures |bytes| == 16
  {
    var moves := Le32(MovwIp(value)) + Le32(MovtIp(value));
    if pic then moves + Le32(ADD_IP_IP_PC) + Le32(BX_IP) + Zeros(0) else moves + Le32(BX_IP) + Zeros(4)
  }

  function ThumbBytes(value: nat, pic: bool): (bytes: seq<Byte>)
    ensures |bytes| == 16
  {
    var moves := Thumb32(ThumbMovwIp(value)) + Thumb32(ThumbMovtIp(value));
    if pic then moves + Le16(THUMB_ADD_IP_PC) + Le16(THUMB_BX_IP) + Zeros(4) else moves + Le16(THUMB_BX_IP) + Zeros(6)
  }

  /** What the moves load: the destination, or its distance from the PC the `add` reads. */
  function ThunkValue(address: nat, destination: nat, thumb: bool, pic: bool): nat
  {
    if pic then (destination - (address + (if thumb then 12 else 16))) % U32 else destination
  }

  /** The sixteen bytes of a thunk. */
  function ThunkBytes(address: nat, destination: nat, thumb: bool, pic: bool): (bytes: seq<Byte>)
    ensures |bytes| == 16
  {
    var value := ThunkValue(address, destination, thumb, pic);
    if thumb then ThumbBytes(value, pic) else A32Bytes(value, pic)
  }

  /** Writes `bytes` into a buffer at `at`: `write16`, `write32` and `write_thumb32` once the data is long enough. */
  method Write(out: array<Byte>, at: nat, bytes: seq<Byte>) returns (ok: bool)
    modifies out
    ensures ok <==> at + |bytes| <= out.Length
    ensures out[..] == if ok then Patched(old(out[..]), at, bytes) else old(out[..])
  {
    ok := at + |bytes| <= out.Length;
    if ok {
      for i := 0 to |bytes|
        invariant forall k :: 0 <= k < out.Length ==> out[k] == if at <= k < at + i then bytes[k - at] else old(out[k])
      {
        out[at + i] := bytes[i];
      }
      assert out[..] == Patched(old(out[..]), at, bytes);
    }
  }

  /** `write_thunk`. */
  method WriteThunk(out: array<Byte>, address: nat, destination: nat, thumb: bool, pic: bool)
    returns (r: Result<(), Overflow>)
    modifies out
    ensures r.Ok? <==> destination < U32 && address < U32 && 16 <= out.Length
    ensures r.Err? ==> out[..] == old(out[..])
    ensures r.Ok? ==> out[..] == ThunkBytes(address, destination, thumb, pic) + old(out[16..])
  {
    if destination >= U32 || address >= U32 || out.Length < 16 {
      return Err(Overflow);
    }
    for i := 0 to 16
      invariant out[i..] == old(out[i..])
      invariant forall k :: 0 <= k < i ==> out[k] == 0
    {
      out[i] := 0;
    }
    assert out[..] == [] + Zeros(16) + old(out[16..]);
    var value := ThunkValue(address, destination, thumb, pic);
    if thumb {
      WriteThumb(out, value, pic, old(out[16..]));
    } else {
      WriteA32(out, value, pic, old(out[16..]));
    }
    r := Ok(());
  }

  /** Writes `bytes` after what is `done`, over zeros. */
  method Append(out: array<Byte>, at: nat, bytes: seq<Byte>, ghost done: seq<Byte>, ghost rest: nat, ghost tail: seq<Byte>)
    requires at == |done| && out[..] == done + Zeros(|bytes| + rest) + tail
    modifies out
    ensures out[..] == done + bytes + Zeros(rest) + tail
  {
    ghost var before := out[..];
    assert |before| == at + |bytes| + rest + |tail|;
    var _ := Write(out, at, bytes);
    assert out[..] == Patched(before, at, bytes);
  }

  method WriteThumb(out: array<Byte>, value: nat, pic: bool, ghost tail: seq<Byte>)
    requires out[..] == [] + Zeros(16) + tail
    modifies out
    ensures out[..] == ThumbBytes(value, pic) + tail
  {
    var low, high := Thumb32(ThumbMovwIp(value)), Thumb32(ThumbMovtIp(value));
    Append(out, 0, low, [], 12, tail);
    Append(out, 4, high, low, 8, tail);
    if pic {
      Append(out, 8, Le16(THUMB_ADD_IP_PC), low + high, 6, tail);
      Append(out, 10, Le16(THUMB_BX_IP), low + high + Le16(THUMB_ADD_IP_PC), 4, tail);
    } else {
      Append(out, 8, Le16(THUMB_BX_IP), low + high, 6, tail);
    }
  }

  method WriteA32(out: array<Byte>, value: nat, pic: bool, ghost tail: seq<Byte>)
    requires out[..] == [] + Zeros(16) + tail
    modifies out
    ensures out[..] == A32Bytes(value, pic) + tail
  {
    var low, high := Le32(MovwIp(value)), Le32(MovtIp(value));
    Append(out, 0, low, [], 12, tail);
    Append(out, 4, high, low, 8, tail);
    if pic {
      Append(out, 8, Le32(ADD_IP_IP_PC), low + high, 4, tail);
      Append(out, 12, Le32(BX_IP), low + high + Le32(ADD_IP_IP_PC), 0, tail);
    } else {
      Append(out, 8, Le32(BX_IP), low + high, 4, tail);
    }
  }

  // ---- The machine: `ip` and the address branched to ----

  datatype Insn = SetLow(imm: nat) | SetHigh(imm: nat) | AddPc | BxIp | Unknown

  function DecodeA32(w: int): Insn
  {
    if w == BX_IP then BxIp
    else if w == ADD_IP_IP_PC then AddPc
    else if Field(w, 0x10_0000, 0x1000) == 0xe30 && Field(w, 0x1000, 16) == 12 then
      SetLow(0x1000 * Field(w, 0x1_0000, 16) + Field(w, 1, 0x1000))
    else if Field(w, 0x10_0000, 0x1000) == 0xe34 && Field(w, 0x1000, 16) == 12 then
      SetHigh(0x1000 * Field(w, 0x1_0000, 16) + Field(w, 1, 0x1000))
    else Unknown
  }

  /** A 32-bit Thumb move into `ip`; bit 26 and the low four bits of the first halfword are immediate bits. */
  function DecodeThumb32(w: int): Insn
  {
    var op := (Field(w, 0x800_0000, 32), Field(w, 0x10_0000, 64), Field(w, 0x8000, 2), Field(w, 0x100, 16));
    if op == (0x1e, 0x24, 0, 12) then SetLow(Arm.Split16(w))
    else if op == (0x1e, 0x2c, 0, 12) then SetHigh(Arm.Split16(w))
    else Unknown
  }

  function DecodeThumb16(h: nat): Insn
  {
    if h == THUMB_BX_IP then BxIp else if h == THUMB_ADD_IP_PC then AddPc else Unknown
  }

  /** The instruction at `at` and its size. A Thumb halfword of 0xe800 or more starts a 32-bit instruction. */
  function Fetch(bytes: seq<Byte>, thumb: bool, at: nat): (Insn, nat)
    requires at + 4 <= |bytes|
    ensures var (_, size) := Fetch(bytes, thumb, at); size == 2 || size == 4
  {
    if !thumb then (DecodeA32(Word32(bytes[at..at + 4])), 4)
    else
      var first := Word16(bytes[at..at + 2]);
      if first >= 0xe800 then (DecodeThumb32(U16 * first + Word16(bytes[at + 2..at + 4])), 4)
      else (DecodeThumb16(first), 2)
  }

  /** Where the code at `address` goes, starting at its byte `at` with `ip`; `None` if it leaves this fragment. */
  function RunFrom(bytes: seq<Byte>, address: nat, thumb: bool, at: nat, ip: nat): Option<nat>
    decreases |bytes| - at
  {
    if at + 4 > |bytes| then None
    else
      var (insn, size) := Fetch(bytes, thumb, at);
      match insn
      case SetLow(imm) => RunFrom(bytes, address, thumb, at + size, imm)
      case SetHigh(imm) => RunFrom(bytes, address, thumb, at + size, U16 * imm + ip % U16)
      case AddPc => RunFrom(bytes, address, thumb, at + size, (ip + address + at + (if thumb then 4 else 8)) % U32)
      case BxIp => Some(ip)
      case Unknown => None
  }

  lemma MoveWords(value: nat)
    requires value < U32
    ensures 0 <= MovwIp(value) < U32 && DecodeA32(MovwIp(value)) == SetLow(value % U16)
    ensures 0 <= MovtIp(value) < U32 && DecodeA32(MovtIp(value)) == SetHigh(value / U16)
  {
    MoveWord(0xe300_c000, value % U16);
    MoveWord(0xe340_c000, Field(value, U16, U16));
    DivModUnique(value / U16, 0, value / U16, U16);
  }

  lemma MoveWord(base: int, imm: nat)
    requires imm < U16 && (base == 0xe300_c000 || base == 0xe340_c000)
    ensures var w := Arm.ArmMov(base, imm);
      0 <= w < U32 && DecodeA32(w) == if base == 0xe300_c000 then SetLow(imm) else SetHigh(imm)
  {
    hide Insert, Field;
    Arm.ArmMovReads(base, imm);
    MoveFields(base, imm);
    MoveDecodes(Arm.ArmMov(base, imm), base, imm);
  }

  lemma MoveFields(base: int, imm: nat)
    requires 0 <= base < U32
    ensures var w := Arm.ArmMov(base, imm);
      && 0 <= w < U32 && Field(w, 0x10_0000, 0x1000) == Field(base, 0x10_0000, 0x1000)
      && Field(w, 0x1000, 16) == Field(base, 0x1000, 16)
  {
    hide Insert, Field;
    var x := Insert(base, imm / 0x1000, 0x1_0000, 16);
    var w := Insert(x, imm, 1, 0x1000);
    assert 0 <= w < U32 by {
      InsertRange(base, imm / 0x1000, 0x1_0000, 16, 0x1000);
      InsertRange(x, imm, 1, 0x1000, 0x10_0000);
    }
    assert Field(w, 0x10_0000, 0x1000) == Field(base, 0x10_0000, 0x1000) by {
      InsertOther(base, imm / 0x1000, 0x1_0000, 16, 0x10_0000, 0x1000);
      InsertOther(x, imm, 1, 0x1000, 0x10_0000, 0x1000);
    }
    assert Field(w, 0x1000, 16) == Field(base, 0x1000, 16) by {
      InsertOther(base, imm / 0x1000, 0x1_0000, 16, 0x1000, 16);
      InsertOther(x, imm, 1, 0x1000, 0x1000, 16);
    }
  }

  lemma MoveDecodes(w: int, base: int, imm: nat)
    requires base == 0xe300_c000 || base == 0xe340_c000
    requires Field(w, 0x10_0000, 0x1000) == Field(base, 0x10_0000, 0x1000) && Field(w, 0x1000, 16) == Field(base, 0x1000, 16)
    requires 0x1000 * Field(w, 0x1_0000, 16) + Field(w, 1, 0x1000) == imm
    ensures DecodeA32(w) == if base == 0xe300_c000 then SetLow(imm) else SetHigh(imm)
  {
    assert Field(BX_IP, 0x10_0000, 0x1000) == 0xe12 && Field(ADD_IP_IP_PC, 0x10_0000, 0x1000) == 0xe08;
    assert Field(base, 0x10_0000, 0x1000) == (if base == 0xe300_c000 then 0xe30 else 0xe34) && Field(base, 0x1000, 16) == 12;
  }

  lemma ThumbMoveWord(base: int, imm: nat)
    requires imm < U16 && (base == 0xf240_0c00 || base == 0xf2c0_0c00)
    ensures var w := Arm.ThumbMov(base, imm);
      && 0 <= w < U32 && w / U16 >= 0xe800
      && DecodeThumb32(w) == if base == 0xf240_0c00 then SetLow(imm) else SetHigh(imm)
  {
    Arm.ThumbMovReads(base, imm);
    ThumbMoveRange(base, imm);
    ThumbMoveFields(base, imm);
    ThumbMoveConcluded(Arm.ThumbMov(base, imm), base, imm);
  }

  lemma ThumbMoveFields(base: int, imm: nat)
    ensures var w := Arm.ThumbMov(base, imm);
      && Field(w, 0x800_0000, 32) == Field(base, 0x800_0000, 32) && Field(w, 0x10_0000, 64) == Field(base, 0x10_0000, 64)
      && Field(w, 0x8000, 2) == Field(base, 0x8000, 2) && Field(w, 0x100, 16) == Field(base, 0x100, 16)
  {
    hide Insert, Field;
    ThumbMoveKeeps(base, imm, 0x800_0000, 32);
    ThumbMoveKeeps(base, imm, 0x10_0000, 64);
    ThumbMoveKeeps(base, imm, 0x8000, 2);
    ThumbMoveKeeps(base, imm, 0x100, 16);
  }

  lemma ThumbMoveConcluded(w: int, base: int, imm: nat)
    requires 0 <= w < U32 && (base == 0xf240_0c00 || base == 0xf2c0_0c00) && Arm.Split16(w) == imm
    requires Field(w, 0x800_0000, 32) == Field(base, 0x800_0000, 32) && Field(w, 0x10_0000, 64) == Field(base, 0x10_0000, 64)
    requires Field(w, 0x8000, 2) == Field(base, 0x8000, 2) && Field(w, 0x100, 16) == Field(base, 0x100, 16)
    ensures w / U16 >= 0xe800 && DecodeThumb32(w) == if base == 0xf240_0c00 then SetLow(imm) else SetHigh(imm)
  {
    LongForm(w);
  }

  lemma ThumbMoveRange(base: int, imm: nat)
    requires 0 <= base < U32
    ensures 0 <= Arm.ThumbMov(base, imm) < U32
  {
    var x := Insert(base, imm / 0x800, 0x400_0000, 2);
    var y := Insert(x, imm / 0x1000, 0x1_0000, 16);
    var z := Insert(y, imm / 0x100, 0x1000, 8);
    InsertRange(base, imm / 0x800, 0x400_0000, 2, 32);
    InsertRange(x, imm / 0x1000, 0x1_0000, 16, 0x1000);
    InsertRange(y, imm / 0x100, 0x1000, 8, 0x2_0000);
    InsertRange(z, imm, 1, 256, 0x100_0000);
  }

  lemma ThumbMoveKeeps(base: int, imm: nat, p: nat, w: nat)
    requires 0 < p && 0 < w
    requires p % 0x800_0000 == 0 || 0x400_0000 % (p * w) == 0
    requires p % 0x10_0000 == 0 || 0x1_0000 % (p * w) == 0
    requires p % 0x8000 == 0 || 0x1000 % (p * w) == 0
    requires p % 256 == 0
    ensures Field(Arm.ThumbMov(base, imm), p, w) == Field(base, p, w)
  {
    hide Insert, Field;
    var x := Insert(base, imm / 0x800, 0x400_0000, 2);
    var y := Insert(x, imm / 0x1000, 0x1_0000, 16);
    var z := Insert(y, imm / 0x100, 0x1000, 8);
    assert Field(y, p, w) == Field(base, p, w) by {
      InsertOther(base, imm / 0x800, 0x400_0000, 2, p, w);
      InsertOther(x, imm / 0x1000, 0x1_0000, 16, p, w);
    }
    assert Field(Insert(z, imm, 1, 256), p, w) == Field(y, p, w) by {
      InsertOther(y, imm / 0x100, 0x1000, 8, p, w);
      InsertOther(z, imm, 1, 256, p, w);
    }
  }

  lemma LongForm(w: int)
    requires 0 <= w < U32 && Field(w, 0x800_0000, 32) == 0x1e
    ensures w / U16 >= 0xe800
  {
    DivModUnique(w / 0x800_0000, 0, w / 0x800_0000, 32);
    DivDiv(w, U16, 0x800);
  }

  lemma Thumb32Read(w: nat)
    requires w < U32 && w / U16 >= 0xe800
    ensures Word16(Thumb32(w)[..2]) == w / U16 && Word16(Thumb32(w)[2..]) == w % U16
  {
    assert Thumb32(w)[..2] == Le16(w / U16) && Thumb32(w)[2..] == Le16(w);
    Word16OfLe16(w / U16);
    assert Le16(w) == Le16(w % U16) by { HalfBytes(w); }
    Word16OfLe16(w % U16);
  }

  lemma HalfBytes(w: nat)
    ensures w % 256 == (w % U16) % 256 && (w / 0x100) % 256 == ((w % U16) / 0x100) % 256
  {
    var q := w / U16;
    assert w == (w % U16) + (q * 256) * 256;
    ModAddMultiple(w % U16, q * 256, 256);
    ModAddMultiple((w % U16) / 0x100, q, 256);
  }

  lemma FetchThumbMove(bytes: seq<Byte>, at: nat, w: nat)
    requires at + 4 <= |bytes| && w < U32 && w / U16 >= 0xe800 && bytes[at..at + 4] == Thumb32(w)
    ensures Fetch(bytes, true, at) == (DecodeThumb32(w), 4)
  {
    Thumb32Read(w);
    assert bytes[at..at + 2] == Thumb32(w)[..2] by { assert bytes[at..at + 2] == bytes[at..at + 4][..2]; }
    assert bytes[at + 2..at + 4] == Thumb32(w)[2..] by { assert bytes[at + 2..at + 4] == bytes[at..at + 4][2..]; }
  }

  lemma FetchThumb16(bytes: seq<Byte>, at: nat, h: nat)
    requires at + 4 <= |bytes| && h < 0xe800 && bytes[at..at + 2] == Le16(h)
    ensures Fetch(bytes, true, at) == (DecodeThumb16(h), 2)
  {
    Word16OfLe16(h);
  }

  lemma FetchA32(bytes: seq<Byte>, at: nat, w: nat)
    requires at + 4 <= |bytes| && w < U32 && bytes[at..at + 4] == Le32(w)
    ensures Fetch(bytes, false, at) == (DecodeA32(w), 4)
  {
    Word32OfLe32(w);
  }

  /** Each of the four forms, run at its address with any `ip`, branches exactly to the destination. */
  lemma ThunkReaches(address: nat, destination: nat, thumb: bool, pic: bool, ip: nat)
    requires address < U32 && destination < U32
    ensures RunFrom(ThunkBytes(address, destination, thumb, pic), address, thumb, 0, ip) == Some(destination)
  {
    BytesAre(address, destination, thumb, pic);
    hide RunFrom, ThunkBytes, ThunkValue;
    if thumb { ThumbReaches(address, destination, pic, ip); } else { A32Reaches(address, destination, pic, ip); }
  }

  lemma ThumbReaches(address: nat, destination: nat, pic: bool, ip: nat)
    requires address < U32 && destination < U32
    ensures RunFrom(ThumbBytes(ThunkValue(address, destination, true, pic), pic), address, true, 0, ip) == Some(destination)
  {
    var value := ThunkValue(address, destination, true, pic);
    if pic { PicSum(value, destination, address + 12); }
    hide RunFrom, Fetch, ThumbBytes, ThunkValue;
    ThumbFetches(value, pic);
    ThumbRuns(ThumbBytes(value, pic), address, value, pic, ip);
  }

  lemma A32Reaches(address: nat, destination: nat, pic: bool, ip: nat)
    requires address < U32 && destination < U32
    ensures RunFrom(A32Bytes(ThunkValue(address, destination, false, pic), pic), address, false, 0, ip) == Some(destination)
  {
    var value := ThunkValue(address, destination, false, pic);
    if pic { PicSum(value, destination, address + 16); }
    hide RunFrom, Fetch, A32Bytes, ThunkValue;
    A32Fetches(value, pic);
    A32Runs(A32Bytes(value, pic), address, value, pic, ip);
  }

  lemma BytesAre(address: nat, destination: nat, thumb: bool, pic: bool)
    ensures var value := ThunkValue(address, destination, thumb, pic);
      ThunkBytes(address, destination, thumb, pic) == if thumb then ThumbBytes(value, pic) else A32Bytes(value, pic)
  {
    hide ThunkValue, ThumbBytes, A32Bytes;
  }

  lemma PicSum(value: nat, destination: nat, pc: nat)
    requires destination < U32 && value == (destination - pc) % U32
    ensures (value + pc) % U32 == destination
  {
    var d := destination - pc;
    assert d == (d / U32) * U32 + value;
    ModAddMultiple(destination, -(d / U32), U32);
    DivModUnique(destination, 0, destination, U32);
  }

  lemma A32Fetches(value: nat, pic: bool)
    requires value < U32
    ensures var bytes := A32Bytes(value, pic);
      && Fetch(bytes, false, 0) == (SetLow(value % U16), 4) && Fetch(bytes, false, 4) == (SetHigh(value / U16), 4)
      && Fetch(bytes, false, 8) == (if pic then (AddPc, 4) else (BxIp, 4))
      && (pic ==> Fetch(bytes, false, 12) == (BxIp, 4))
  {
    var bytes := A32Bytes(value, pic);
    MoveWords(value);
    Slices(Le32(MovwIp(value)), Le32(MovtIp(value)), if pic then Le32(ADD_IP_IP_PC) else Le32(BX_IP),
           if pic then Le32(BX_IP) + Zeros(0) else Zeros(4), bytes);
    FetchA32(bytes, 0, MovwIp(value));
    FetchA32(bytes, 4, MovtIp(value));
    FetchA32(bytes, 8, if pic then ADD_IP_IP_PC else BX_IP);
    if pic { FetchA32(bytes, 12, BX_IP); }
  }

  lemma Slices(a: seq<Byte>, b: seq<Byte>, c: seq<Byte>, d: seq<Byte>, bytes: seq<Byte>)
    requires |a| == 4 && |b| == 4 && bytes == a + b + c + d
    ensures bytes[0..4] == a && bytes[4..8] == b && bytes[8..8 + |c|] == c && bytes[8 + |c|..] == d
  {
  }

  lemma A32Runs(bytes: seq<Byte>, address: nat, value: nat, pic: bool, ip: nat)
    requires value < U32 && |bytes| == 16
    requires Fetch(bytes, false, 0) == (SetLow(value % U16), 4) && Fetch(bytes, false, 4) == (SetHigh(value / U16), 4)
    requires Fetch(bytes, false, 8) == if pic then (AddPc, 4) else (BxIp, 4)
    requires pic ==> Fetch(bytes, false, 12) == (BxIp, 4)
    ensures RunFrom(bytes, address, false, 0, ip) == Some(if pic then (value + (address + 16)) % U32 else value)
  {
    var end := if pic then (value + (address + 16)) % U32 else value;
    if pic {
      assert RunFrom(bytes, address, false, 12, end) == Some(end);
    }
    assert RunFrom(bytes, address, false, 8, value) == Some(end);
    Halves(value);
    assert RunFrom(bytes, address, false, 4, value % U16) == Some(end);
  }

  lemma Halves(value: nat)
    ensures U16 * (value / U16) + (value % U16) % U16 == value
  {
  }

  lemma ThumbFetches(value: nat, pic: bool)
    requires value < U32
    ensures var bytes := ThumbBytes(value, pic);
      && Fetch(bytes, true, 0) == (SetLow(value % U16), 4) && Fetch(bytes, true, 4) == (SetHigh(value / U16), 4)
      && Fetch(bytes, true, 8) == (if pic then (AddPc, 2) else (BxIp, 2))
      && (pic ==> Fetch(bytes, true, 10) == (BxIp, 2))
  {
    var bytes := ThumbBytes(value, pic);
    ThumbMoveWord(0xf240_0c00, value % U16);
    ThumbMoveWord(0xf2c0_0c00, Field(value, U16, U16));
    DivModUnique(value / U16, 0, value / U16, U16);
    var tail := if pic then Le16(THUMB_BX_IP) + Zeros(4) else Zeros(6);
    var third := if pic then THUMB_ADD_IP_PC else THUMB_BX_IP;
    Slices(Thumb32(ThumbMovwIp(value)), Thumb32(ThumbMovtIp(value)), Le16(third), tail, bytes);
    FetchThumbMove(bytes, 0, ThumbMovwIp(value));
    FetchThumbMove(bytes, 4, ThumbMovtIp(value));
    FetchThumb16(bytes, 8, third);
    if pic {
      assert bytes[10..12] == bytes[10..][..2] == Le16(THUMB_BX_IP);
      FetchThumb16(bytes, 10, THUMB_BX_IP);
    }
  }

  lemma ThumbRuns(bytes: seq<Byte>, address: nat, value: nat, pic: bool, ip: nat)
    requires value < U32 && |bytes| == 16
    requires Fetch(bytes, true, 0) == (SetLow(value % U16), 4) && Fetch(bytes, true, 4) == (SetHigh(value / U16), 4)
    requires Fetch(bytes, true, 8) == if pic then (AddPc, 2) else (BxIp, 2)
    requires pic ==> Fetch(bytes, true, 10) == (BxIp, 2)
    ensures RunFrom(bytes, address, true, 0, ip) == Some(if pic then (value + (address + 12)) % U32 else value)
  {
    var end := if pic then (value + (address + 12)) % U32 else value;
    if pic {
      assert RunFrom(bytes, address, true, 10, end) == Some(end);
    }
    assert RunFrom(bytes, address, true, 8, value) == Some(end);
    Halves(value);
    assert RunFrom(bytes, address, true, 4, value % U16) == Some(end);
  }

  // ---- The PLT entry ----

  /** `plt_entry`: `add ip, pc, #…; add ip, ip, #…; ldr pc, [ip, #…]!`. */
  function PltEntry(entry: nat, slot: nat): Result<seq<int>, Overflow>
  {
    var offset := (slot - (entry + 8)) % U64;
    if offset >= 0x1000_0000 then Err(Overflow)
    else Ok([0xe28f_c600 + (offset / 0x10_0000) % 256, 0xe28c_ca00 + (offset / 0x1000) % 256, 0xe5bc_f000 + offset % 0x1000])
  }

  /** The slot address the three words at `entry` load the program counter from, if they are such an entry. */
  function PltSlot(words: seq<int>, entry: nat): Option<int>
    requires |words| == 3
  {
    var (w0, w1, w2) := (words[0], words[1], words[2]);
    if Field(w0, 0x1000, 0x10_0000) == 0xe28fc && Field(w1, 0x1000, 0x10_0000) == 0xe28cc && Field(w2, 0x1000, 0x10_0000) == 0xe5bcf then
      var ip := entry + 8 + RotateRight(Field(w0, 1, 256), 2 * Field(w0, 0x100, 16));
      Some(ip + RotateRight(Field(w1, 1, 256), 2 * Field(w1, 0x100, 16)) + Field(w2, 1, 0x1000))
    else None
  }

  /** For every accepted slot, the entry loads the program counter from exactly that slot (modulo 2^64). */
  lemma PltEntryReaches(entry: nat, slot: nat)
    requires entry < U64 && slot < U64 && PltEntry(entry, slot).Ok?
    ensures var s := PltSlot(PltEntry(entry, slot).value, entry);
      s.Some? && s.value % U64 == slot
  {
    var offset := (slot - (entry + 8)) % U64;
    var (a, b, c) := ((offset / 0x10_0000) % 256, (offset / 0x1000) % 256, offset % 0x1000);
    assert PltEntry(entry, slot) == Ok([0xe28f_c600 + a, 0xe28c_ca00 + b, 0xe5bc_f000 + c]);
    assert offset < 0x1000_0000;
    hide PltEntry, PltSlot;
    PltWords(entry, a, b, c);
    OffsetParts(offset);
    SlotSum(entry, slot, offset);
  }

  /** What the three words add up. */
  lemma PltWords(entry: nat, a: nat, b: nat, c: nat)
    requires a < 256 && b < 256 && c < 0x1000
    ensures PltSlot([0xe28f_c600 + a, 0xe28c_ca00 + b, 0xe5bc_f000 + c], entry) == Some(entry + 8 + 0x10_0000 * a + 0x1000 * b + c)
  {
    hide Field, RotateRight;
    AddWord(0xe28f_c600, a, 6);
    AddWord(0xe28c_ca00, b, 10);
    LastWord(c);
    Turned(a, 12);
    Turned(b, 20);
  }

  lemma LastWord(c: nat)
    requires c < 0x1000
    ensures Field(0xe5bc_f000 + c, 0x1000, 0x10_0000) == 0xe5bcf && Field(0xe5bc_f000 + c, 1, 0x1000) == c
  {
    DivModUnique(0xe5bc_f000 + c, 0xe5bcf, c, 0x1000);
  }

  lemma AddWord(base: int, imm: nat, rotate: nat)
    requires imm < 256 && ((base == 0xe28f_c600 && rotate == 6) || (base == 0xe28c_ca00 && rotate == 10))
    ensures Field(base + imm, 0x1000, 0x10_0000) == base / 0x1000 && Field(base + imm, 1, 256) == imm
    ensures Field(base + imm, 0x100, 16) == rotate
  {
    DivModUnique(base + imm, base / 0x1000, base % 0x1000 + imm, 0x1000);
    DivModUnique(base + imm, base / 0x100, imm, 0x100);
  }

  lemma Turned(imm: nat, turn: nat)
    requires imm < 256 && (turn == 12 || turn == 20)
    ensures RotateRight(imm, turn) == imm * (if turn == 12 then 0x10_0000 else 0x1000)
  {
    RotateByte(imm, turn);
    ShlValue(imm, 32 - turn);
    Pow2Add(4, 4);
    Pow2Add(8, 4);
    Pow2Add(12, 8);
  }

  lemma {:induction false} ShlValue(v: int, n: nat)
    ensures Shl(v, n) == v * Pow2(n)
  {
    if n > 0 {
      ShlValue(v, n - 1);
      assert v * (2 * Pow2(n - 1)) == 2 * (v * Pow2(n - 1));
    }
  }

  lemma OffsetParts(offset: nat)
    requires offset < 0x1000_0000
    ensures 0x10_0000 * ((offset / 0x10_0000) % 256) + 0x1000 * ((offset / 0x1000) % 256) + offset % 0x1000 == offset
  {
    Arm.Peel(offset, 0x1000, 256);
    DivModUnique(offset / 0x10_0000, 0, offset / 0x10_0000, 256);
  }

  lemma SlotSum(entry: nat, slot: nat, offset: nat)
    requires slot < U64 && offset == (slot - (entry + 8)) % U64
    ensures (entry + 8 + offset) % U64 == slot
  {
    var d := slot - (entry + 8);
    assert d == (d / U64) * U64 + offset;
    ModAddMultiple(slot, -(d / U64), U64);
    DivModUnique(slot, 0, slot, U64);
  }
}
