/** The bytes of a block of ARM64 thunks. */
module ThunkBlocks {
  import opened Bits
  import opened Bytes
  import opened Results
  import opened AArch64

  /** The three words of a thunk, as bytes. */
  function SlotBytes(address: nat, target: nat): (r: seq<Byte>)
    requires address < U32 && target < U32
    ensures |r| == 12
  {
    ThunkInImage(address, target);
    var words := Thunk(address, target).value;
    Le32(words[0]) + Le32(words[1]) + Le32(words[2])
  }

  predicate AllWords(targets: seq<nat>)
  {
    forall i :: 0 <= i < |targets| ==> targets[i] < U32
  }

  /** The first `k` thunks of a block placed at `rva`. */
  function BlockBytes(rva: nat, targets: seq<nat>, k: nat): (r: seq<Byte>)
    requires AllWords(targets) && k <= |targets|
    ensures |r| == 12 * k
  {
    if k == 0 then [] else BlockBytes(rva, targets, k - 1) + SlotBytes((rva + 12 * (k - 1)) % U32, targets[k - 1])
  }

  /** Writes a word if the data is long enough. */
  method WriteInsn(out: array<Byte>, at: nat, insn: int) returns (ok: bool)
    modifies out
    ensures ok <==> at + 4 <= out.Length
    ensures out[..] == if ok then Patched(old(out[..]), at, Le32(insn)) else old(out[..])
  {
    ok := at + 4 <= out.Length;
    if ok {
      var bytes := Le32(insn);
      for i := 0 to 4
        invariant out[..at] == old(out[..at]) && out[at..at + i] == bytes[..i] && out[at + i..] == old(out[at + i..])
      {
        out[at + i] := bytes[i];
      }
    }
  }

  /** `write_thunk` of aarch64: the three words one after the other. */
  method WriteThunk(out: array<Byte>, at: nat, address: nat, target: nat) returns (r: Result<(), Overflow>)
    requires address < U32 && target < U32
    modifies out
    ensures r.Ok? <==> at + 12 <= out.Length
    ensures r.Ok? ==> out[..] == Patched(old(out[..]), at, SlotBytes(address, target))
    ensures at <= out.Length ==> out[..at] == old(out[..at])
  {
    ThunkInImage(address, target);
    var words := Thunk(address, target);
    if words.Err? { return Err(Overflow); }
    hide Thunk, Le32;
    ghost var was := out[..];
    var ok := WriteInsn(out, at, words.value[0]);
    if !ok { return Err(Overflow); }
    ok := WriteInsn(out, at + 4, words.value[1]);
    if !ok { return Err(Overflow); }
    ok := WriteInsn(out, at + 8, words.value[2]);
    if !ok { return Err(Overflow); }
    ThreePatches(was, at, Le32(words.value[0]), Le32(words.value[1]), Le32(words.value[2]));
    return Ok(());
  }

  lemma ThreePatches(data: seq<Byte>, at: nat, a: seq<Byte>, b: seq<Byte>, c: seq<Byte>)
    requires |a| == 4 && |b| == 4 && |c| == 4 && at + 12 <= |data|
    ensures Patched(Patched(Patched(data, at, a), at + 4, b), at + 8, c) == Patched(data, at, a + b + c)
  {
  }

  lemma PatchedParts(data: seq<Byte>, at: nat, bytes: seq<Byte>)
    requires at + |bytes| <= |data|
    ensures Patched(data, at, bytes)[..at + |bytes|] == data[..at] + bytes
    ensures Patched(data, at, bytes)[at + |bytes|..] == data[at + |bytes|..]
  {
  }

  /** `render_block`: with room for the block it never fails. */
  method RenderBlock(out: array<Byte>, rva: nat, targets: seq<nat>) returns (r: Result<(), Overflow>)
    requires rva < U32 && AllWords(targets) && 12 * |targets| <= U32_MAX
    modifies out
    ensures r.Ok? <==> 12 * |targets| <= out.Length
    ensures r.Ok? ==> out[..] == BlockBytes(rva, targets, |targets|) + old(out[12 * |targets|..])
  {
    var offset := 0;
    hide SlotBytes, Patched;
    for i := 0 to |targets|
      invariant offset == 12 * i <= out.Length
      invariant out[..offset] == BlockBytes(rva, targets, i)
      invariant out[offset..] == old(out[offset..])
    {
      var address := (rva + offset) % U32;
      ghost var before := out[..];
      r := WriteThunk(out, offset, address, targets[i]);
      if r.Err? { return; }
      PatchedParts(before, offset, SlotBytes(address, targets[i]));
      offset := if offset + 12 > U32_MAX then U32_MAX else offset + 12;
    }
    assert out[..] == out[..offset] + out[offset..];
    return Ok(());
  }

  lemma {:induction false} SlotIn(rva: nat, targets: seq<nat>, k: nat, i: nat)
    requires AllWords(targets) && i < k <= |targets|
    ensures BlockBytes(rva, targets, k)[12 * i..12 * i + 12] == SlotBytes((rva + 12 * i) % U32, targets[i])
  {
    hide SlotBytes;
    var (rest, last) := (BlockBytes(rva, targets, k - 1), SlotBytes((rva + 12 * (k - 1)) % U32, targets[k - 1]));
    hide BlockBytes;
    if i == k - 1 {
      assert (rest + last)[|rest|..|rest| + 12] == last;
    } else {
      SlotIn(rva, targets, k - 1, i);
      Earlier(rest, last, 12 * i);
    }
  }

  lemma Earlier(rest: seq<Byte>, last: seq<Byte>, lo: nat)
    requires lo + 12 <= |rest|
    ensures (rest + last)[lo..lo + 12] == rest[lo..lo + 12]
  {
  }

  /** The instruction words of a thunk. */
  function ThunkWords(bytes: seq<Byte>): (r: seq<int>)
    requires |bytes| == 12
    ensures |r| == 3
  {
    [Word32(bytes[0..4]), Word32(bytes[4..8]), Word32(bytes[8..12])]
  }

  /** The instruction words at a slot. */
  function SlotWords(bytes: seq<Byte>, i: nat): (r: seq<int>)
    requires 12 * i + 12 <= |bytes|
    ensures |r| == 3
  {
    ThunkWords(bytes[12 * i..12 * i + 12])
  }

  lemma SlotBytesWords(address: nat, target: nat)
    requires address < U32 && target < U32
    ensures Thunk(address, target).Ok?
    ensures ThunkWords(SlotBytes(address, target)) == Thunk(address, target).value
  {
    ThunkInImage(address, target);
    ThunkReaches(address, target, Cpu(address, map[]));
    var words := Thunk(address, target).value;
    hide Thunk, Run, DecodeAll;
    Word32OfLe32(words[0]);
    Word32OfLe32(words[1]);
    Word32OfLe32(words[2]);
    hide Le32, Word32;
    var bytes := SlotBytes(address, target);
    assert bytes[0..4] == Le32(words[0]) && bytes[4..8] == Le32(words[1]) && bytes[8..12] == Le32(words[2]);
    assert words == [words[0], words[1], words[2]];
  }

  /** Slot `i` of a rendered block, run where it is placed, goes to target `i`. */
  lemma SlotReaches(rva: nat, targets: seq<nat>, i: nat, cpu: Cpu)
    requires AllWords(targets) && i < |targets| && rva + 12 * i < U32 && cpu.pc == rva + 12 * i
    ensures Run(cpu, DecodeAll(SlotWords(BlockBytes(rva, targets, |targets|), i))) == Some(Cpu(targets[i], cpu.x[16 := targets[i]]))
  {
    var address := rva + 12 * i;
    hide *;
    WordsAre(targets, i);
    SlotBytesWords(address, targets[i]);
    ThunkReaches(address, targets[i], cpu);
    BlockWords(rva, targets, i);
  }

  lemma WordsAre(targets: seq<nat>, i: nat)
    requires AllWords(targets) && i < |targets|
    ensures targets[i] < U32 < U64
  {
  }

  lemma BlockWords(rva: nat, targets: seq<nat>, i: nat)
    requires AllWords(targets) && i < |targets| && rva + 12 * i < U32
    ensures SlotWords(BlockBytes(rva, targets, |targets|), i) == ThunkWords(SlotBytes(rva + 12 * i, targets[i]))
  {
    hide *;
    WordsAre(targets, i);
    var (block, address) := (BlockBytes(rva, targets, |targets|), rva + 12 * i);
    SlotAt(rva, targets, i, address);
    SlotWordsAre(block, i, SlotBytes(address, targets[i]));
  }

  lemma SlotWordsAre(block: seq<Byte>, i: nat, slot: seq<Byte>)
    requires 12 * i + 12 <= |block| && slot == block[12 * i..12 * i + 12]
    ensures SlotWords(block, i) == ThunkWords(slot)
  {
  }

  lemma SlotAt(rva: nat, targets: seq<nat>, i: nat, address: nat)
    requires AllWords(targets) && i < |targets| && address == rva + 12 * i < U32
    ensures BlockBytes(rva, targets, |targets|)[12 * i..12 * i + 12] == SlotBytes(address, targets[i])
  {
    hide *;
    InRange(address);
    SlotIn(rva, targets, |targets|, i);
  }

  lemma InRange(address: nat)
    requires address < U32
    ensures address % U32 == address
  {
  }
}
