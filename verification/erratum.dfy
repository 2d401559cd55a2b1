/**
  The Cortex-A53 erratum 843419 scanner and its patches.

  Instruction words are bit-vectors here, so that the masks are those of the
  encoding tables.
 */
module Erratum843419 {
  import A64 = AArch64
  import opened Bits
  import opened Results

  predicate IsAdrp(insn: bv32) { insn & 0x9f00_0000 == 0x9000_0000 }

  predicate IsLoadStoreUnsigned(insn: bv32) { insn & 0x3b00_0000 == 0x3900_0000 }

  function DestinationRegister(insn: bv32): bv32 { insn & 0x1f }

  function BaseRegister(insn: bv32): bv32 { (insn >> 5) & 0x1f }

  predicate IsLoadStoreClass(insn: bv32) { insn & 0x0a00_0000 == 0x0800_0000 }

  predicate IsSt1MultipleOpcode(insn: bv32)
  {
    var op := insn & 0xf000;
    op == 0x2000 || op == 0x6000 || op == 0x7000 || op == 0xa000
  }

  predicate IsSt1SingleOpcode(insn: bv32)
  {
    var op := insn & 0x0040_e000;
    op == 0 || op == 0x4000 || op == 0x8000
  }

  predicate IsSt1Multiple(insn: bv32) { insn & 0xbfff_0000 == 0x0c00_0000 && IsSt1MultipleOpcode(insn) }

  predicate IsSt1MultiplePost(insn: bv32) { insn & 0xbfe0_0000 == 0x0c80_0000 && IsSt1MultipleOpcode(insn) }

  predicate IsSt1Single(insn: bv32) { insn & 0xbfff_0000 == 0x0d00_0000 && IsSt1SingleOpcode(insn) }

  predicate IsSt1SinglePost(insn: bv32) { insn & 0xbfe0_0000 == 0x0d80_0000 && IsSt1SingleOpcode(insn) }

  predicate IsSt1(insn: bv32)
  {
    IsSt1Multiple(insn) || IsSt1MultiplePost(insn) || IsSt1Single(insn) || IsSt1SinglePost(insn)
  }

  predicate IsLoadStoreExclusive(insn: bv32) { insn & 0x3f00_0000 == 0x0800_0000 }

  predicate IsLoadExclusive(insn: bv32) { insn & 0x3f40_0000 == 0x0840_0000 }

  predicate IsLoadLiteral(insn: bv32) { insn & 0x3b00_0000 == 0x1800_0000 }

  predicate IsStnp(insn: bv32) { insn & 0x3bc0_0000 == 0x2800_0000 }

  predicate IsStpPost(insn: bv32) { insn & 0x3bc0_0000 == 0x2880_0000 }

  predicate IsStpOffset(insn: bv32) { insn & 0x3bc0_0000 == 0x2900_0000 }

  predicate IsStpPre(insn: bv32) { insn & 0x3bc0_0000 == 0x2980_0000 }

  predicate IsStp(insn: bv32) { IsStpPost(insn) || IsStpOffset(insn) || IsStpPre(insn) }

  predicate IsLoadStoreUnscaled(insn: bv32) { insn & 0x3b00_0c00 == 0x3800_0000 }

  predicate IsLoadStorePost(insn: bv32) { insn & 0x3b20_0c00 == 0x3800_0400 }

  predicate IsLoadStoreUnprivileged(insn: bv32) { insn & 0x3b20_0c00 == 0x3800_0800 }

  predicate IsLoadStorePre(insn: bv32) { insn & 0x3b20_0c00 == 0x3800_0c00 }

  predicate IsLoadStoreRegisterOffset(insn: bv32) { insn & 0x3b20_0c00 == 0x3820_0800 }

  predicate IsSingleRegisterLoadStore(insn: bv32)
  {
    || IsLoadStoreUnscaled(insn)
    || IsLoadStorePost(insn)
    || IsLoadStoreUnprivileged(insn)
    || IsLoadStorePre(insn)
    || IsLoadStoreRegisterOffset(insn)
    || IsLoadStoreUnsigned(insn)
  }

  predicate IsNonStructureLoad(insn: bv32)
  {
    if IsLoadExclusive(insn) || IsLoadLiteral(insn) then true
    else if !IsSingleRegisterLoadStore(insn) then false
    else
      var size, vector, opc := (insn >> 30) & 3, (insn >> 26) & 1, (insn >> 22) & 3;
      opc != 0 && !(size == 0 && vector == 1 && opc == 2) && !(size == 3 && vector == 0 && opc == 2)
  }

  predicate HasWriteback(insn: bv32)
  {
    || IsLoadStorePre(insn)
    || IsLoadStorePost(insn)
    || IsStpPre(insn)
    || IsStpPost(insn)
    || IsSt1SinglePost(insn)
    || IsSt1MultiplePost(insn)
  }

  predicate LoadStoreWrites(insn: bv32, register: bv32)
  {
    || (IsNonStructureLoad(insn) && DestinationRegister(insn) == register)
    || (HasWriteback(insn) && BaseRegister(insn) == register)
  }

  predicate IsBranch(insn: bv32)
  {
    || insn & 0xfe00_0000 == 0xd600_0000
    || insn & 0xfe00_0000 == 0x5400_0000
    || insn & 0x7c00_0000 == 0x1400_0000
    || insn & 0x7c00_0000 == 0x3400_0000
  }

  /** `is_843419_sequence`. */
  predicate IsSequence(adrp: bv32, second: bv32, last: bv32)
  {
    && IsAdrp(adrp)
    && IsLoadStoreClass(second)
    && (|| IsLoadStoreExclusive(second)
        || IsLoadLiteral(second)
        || IsSingleRegisterLoadStore(second)
        || IsStp(second)
        || IsStnp(second)
        || IsSt1(second))
    && !LoadStoreWrites(second, DestinationRegister(adrp))
    && IsLoadStoreUnsigned(last)
    && BaseRegister(last) == DestinationRegister(adrp)
  }

  function WordAt(code: seq<bv8>, o: nat): bv32
    requires o + 4 <= |code|
  {
    (code[o] as bv32) | ((code[o + 1] as bv32) << 8) | ((code[o + 2] as bv32) << 16) | ((code[o + 3] as bv32) << 24)
  }

  /** The site of the sequence whose `adrp` is at `o`, if there is one within `end`. */
  function SequenceAt(code: seq<bv8>, o: nat, end: nat): seq<nat>
    requires end <= |code|
  {
    if end < o + 12 then []
    else if IsSequence(WordAt(code, o), WordAt(code, o + 4), WordAt(code, o + 8)) then [o + 8]
    else if end > o + 12 && !IsBranch(WordAt(code, o + 8)) && o + 16 <= |code|
            && IsSequence(WordAt(code, o), WordAt(code, o + 4), WordAt(code, o + 12)) then [o + 12]
    else []
  }

  predicate Aligned(address: nat, o: nat)
  {
    (address + o) % 4 == 0
  }

  /** Where in its page the byte `o` of code at `address` is. */
  function PageOffset(address: nat, o: nat): (r: nat)
    ensures r < 0x1000
  {
    (address + o) % 0x1000
  }

  predicate AtPageEnd(address: nat, o: nat)
  {
    PageOffset(address, o) == 0xff8 || PageOffset(address, o) == 0xffc
  }

  /** The naive scan: every word from `o` on, kept when its `adrp` would be at a page end. */
  function Naive(code: seq<bv8>, address: nat, o: nat, end: nat): seq<nat>
    requires end <= |code|
    decreases if o < end then end - o else 0
  {
    if o >= end then []
    else (if AtPageEnd(address, o) then SequenceAt(code, o, end) else []) + Naive(code, address, o + 4, end)
  }

  /** Words away from a page end contribute nothing, so they may be skipped. */
  lemma {:induction false} Skip(code: seq<bv8>, address: nat, o: nat, n: nat, end: nat)
    requires end <= |code|
    requires forall k :: 0 <= k < n ==> !AtPageEnd(address, o + 4 * k)
    ensures Naive(code, address, o, end) == Naive(code, address, o + 4 * n, end)
    decreases n
  {
    if n > 0 {
      assert !AtPageEnd(address, o + 4 * 0);
      forall k | 0 <= k < n - 1
        ensures !AtPageEnd(address, o + 4 + 4 * k)
      {
        assert !AtPageEnd(address, o + 4 * (k + 1));
      }
      Skip(code, address, o + 4, n - 1, end);
    }
  }

  /** Within `end - 12` of the end there is nothing left to find. */
  lemma {:induction false} Tail(code: seq<bv8>, address: nat, o: nat, end: nat)
    requires end <= |code| && end < o + 12
    ensures Naive(code, address, o, end) == []
    decreases if o < end then end - o else 0
  {
    if o < end { Tail(code, address, o + 4, end); }
  }

  lemma ToPageEnd(address: nat, o: nat, gap: nat)
    requires Aligned(address, o) && PageOffset(address, o) < 0xff8 && gap == 0xff8 - PageOffset(address, o)
    ensures gap == 4 * (gap / 4) && Aligned(address, o + gap) && PageOffset(address, o + gap) == 0xff8
    ensures forall k :: 0 <= k < gap / 4 ==> !AtPageEnd(address, o + 4 * k)
  {
    GapWords(address, o, gap);
    StillAligned(address, o, gap / 4);
    hide Aligned;
    var page, at := (address + o) / 0x1000, (address + o) % 0x1000;
    DivModUnique(address + (o + gap), page, 0xff8, 0x1000);
    forall k | 0 <= k < gap / 4
      ensures !AtPageEnd(address, o + 4 * k)
    {
      DivModUnique(address + (o + 4 * k), page, at + 4 * k, 0x1000);
    }
  }

  /** From an aligned place to the end of its page there are whole words. */
  lemma GapWords(address: nat, o: nat, gap: nat)
    requires Aligned(address, o) && PageOffset(address, o) < 0xff8 && gap == 0xff8 - PageOffset(address, o)
    ensures gap == 4 * (gap / 4)
  {
    var page, at := (address + o) / 0x1000, (address + o) % 0x1000;
    ModAddMultiple(at, 0x400 * page, 4);
    assert address + o == at + 0x400 * page * 4;
    assert at % 4 == 0;
  }

  lemma StillAligned(address: nat, o: nat, n: nat)
    requires Aligned(address, o)
    ensures Aligned(address, o + 4 * n)
  {
    ModAddMultiple(address + o, n, 4);
    assert address + (o + 4 * n) == address + o + n * 4;
  }

  /** `scan_843419`: skips from page end to page end and finds exactly what the naive scan finds. */
  method Scan(code: seq<bv8>, address: nat, start: nat, end: nat) returns (sites: seq<nat>)
    requires Aligned(address, start)
    ensures sites == Naive(code, address, start, if end < |code| then end else |code|)
  {
    hide SequenceAt, AtPageEnd, Aligned, PageOffset, Naive;
    var end := if end < |code| then end else |code|;
    sites := [];
    var offset := start;
    while offset < end
      invariant Aligned(address, offset)
      invariant sites + Naive(code, address, offset, end) == Naive(code, address, start, end)
      decreases if offset < end then end - offset else 0
    {
      offset := ToEnd(code, address, offset, end);
      if end < offset + 12 {
        break;
      }
      var found := FindAt(code, offset, end);
      AlignedPageEnd(address, offset);
      Found(code, address, offset, end, found);
      assert sites + (found + Naive(code, address, offset + 4, end)) == (sites + found) + Naive(code, address, offset + 4, end);
      sites := sites + found;
      offset := PastEnd(code, address, offset, end);
    }
    Tail(code, address, offset, end);
  }

  lemma Found(code: seq<bv8>, address: nat, o: nat, end: nat, found: seq<nat>)
    requires o < end <= |code| && AtPageEnd(address, o) && found == SequenceAt(code, o, end)
    ensures Naive(code, address, o, end) == found + Naive(code, address, o + 4, end)
  {
  }

  /** Advances to the next page offset of at least 0xff8. */
  method ToEnd(code: seq<bv8>, address: nat, offset: nat, ghost end: nat) returns (o: nat)
    requires end <= |code| && Aligned(address, offset)
    ensures offset <= o && Aligned(address, o) && PageOffset(address, o) >= 0xff8
    ensures Naive(code, address, o, end) == Naive(code, address, offset, end)
  {
    hide Naive, Aligned, PageOffset, AtPageEnd;
    o := offset;
    var pageOffset := PageOffset(address, offset);
    if pageOffset < 0xff8 {
      var gap := 0xff8 - pageOffset;
      ToPageEnd(address, offset, gap);
      Skip(code, address, offset, gap / 4, end);
      o := offset + gap;
    }
  }

  /** The next place to look at after a page end. */
  method PastEnd(code: seq<bv8>, address: nat, offset: nat, ghost end: nat) returns (o: nat)
    requires end <= |code| && Aligned(address, offset) && PageOffset(address, offset) >= 0xff8
    ensures offset < o && Aligned(address, o)
    ensures Naive(code, address, o, end) == Naive(code, address, offset + 4, end)
  {
    hide Naive, Aligned, PageOffset, AtPageEnd;
    AlignedPageEnd(address, offset);
    if PageOffset(address, offset) == 0xff8 {
      o := offset + 4;
    } else {
      ToNextPage(address, offset);
      Skip(code, address, offset + 4, 0x3fe, end);
      o := offset + 0xffc;
    }
  }

  /** What the scan records at one page end. */
  method FindAt(code: seq<bv8>, offset: nat, end: nat) returns (found: seq<nat>)
    requires offset + 12 <= end <= |code|
    ensures found == SequenceAt(code, offset, end)
  {
    var left := end - offset;
    var first, second, third := WordAt(code, offset), WordAt(code, offset + 4), WordAt(code, offset + 8);
    found := [];
    if IsSequence(first, second, third) {
      found := [offset + 8];
    } else if left > 12 && !IsBranch(third) && offset + 16 <= |code| {
      if IsSequence(first, second, WordAt(code, offset + 12)) {
        found := [offset + 12];
      }
    }
  }

  lemma AlignedPageEnd(address: nat, o: nat)
    requires Aligned(address, o) && PageOffset(address, o) >= 0xff8
    ensures AtPageEnd(address, o) && Aligned(address, o + 4)
    ensures PageOffset(address, o) == 0xff8 || PageOffset(address, o) == 0xffc
  {
    var at := (address + o) % 0x1000;
    assert at % 4 == 0 by { ModAddMultiple(at, 0x400 * ((address + o) / 0x1000), 4); }
  }

  lemma ToNextPage(address: nat, o: nat)
    requires PageOffset(address, o) == 0xffc
    ensures Aligned(address, o + 0xffc)
    ensures forall k :: 0 <= k < 0x3fe ==> !AtPageEnd(address, o + 4 + 4 * k)
  {
    var page := (address + o) / 0x1000;
    forall k | 0 <= k < 0x3fe
      ensures !AtPageEnd(address, o + 4 + 4 * k)
    {
      DivModUnique(address + (o + 4 + 4 * k), page + 1, 4 * k, 0x1000);
    }
    assert address + (o + 0xffc) == 0xff8 + (0x400 * (page + 1)) * 4;
    ModAddMultiple(0xff8, 0x400 * (page + 1), 4);
  }

  predicate Increasing(s: seq<nat>)
  {
    forall i, j :: 0 <= i < j < |s| ==> s[i] < s[j]
  }

  /** Sites come out in strictly increasing order: two sequences never share their last instruction. */
  lemma {:induction false} SitesIncrease(code: seq<bv8>, address: nat, o: nat, end: nat)
    requires end <= |code|
    ensures var s := Naive(code, address, o, end);
      && Increasing(s) && (forall i :: 0 <= i < |s| ==> o + 8 <= s[i])
      && (o + 12 <= end && IsLoadStoreClass(WordAt(code, o)) ==> forall i :: 0 <= i < |s| ==> o + 12 <= s[i])
    decreases if o < end then end - o else 0
  {
    hide SequenceAt, IsLoadStoreClass, WordAt, AtPageEnd;
    if o < end {
      var (first, rest) := (if AtPageEnd(address, o) then SequenceAt(code, o, end) else [], Naive(code, address, o + 4, end));
      SitesIncrease(code, address, o + 4, end);
      SequenceFacts(code, o, end);
      if first == [o + 12] && end < o + 16 { Tail(code, address, o + 4, end); }
      hide Naive;
      assert first != [] ==> forall i :: 0 <= i < |rest| ==> first[0] < rest[i];
      FirstIncreases(first, rest);
      assert forall i :: 0 <= i < |first + rest| ==> (first + rest)[i] == if i < |first| then first[i] else rest[i - |first|];
    }
  }

  lemma FirstIncreases(first: seq<nat>, rest: seq<nat>)
    requires |first| <= 1 && Increasing(rest) && (first != [] ==> forall i :: 0 <= i < |rest| ==> first[0] < rest[i])
    ensures Increasing(first + rest)
  {
  }

  lemma SequenceFacts(code: seq<bv8>, o: nat, end: nat)
    requires end <= |code|
    ensures SequenceAt(code, o, end) in {[], [o + 8], [o + 12]}
    ensures SequenceAt(code, o, end) != [] ==> o + 12 <= end && IsLoadStoreClass(WordAt(code, o + 4))
    ensures o + 12 <= end && IsLoadStoreClass(WordAt(code, o)) ==> SequenceAt(code, o, end) == []
  {
  }

  // ---- Patches ----

  const B: nat := 0x1400_0000

  /** `erratum_patch`: the moved instruction, then a branch back past the site. */
  function Patch(patch: nat, site: nat, moved: int): Result<seq<int>, Overflow>
  {
    var back := Wrap((site + 4) % U64 - (patch + 4) % U64, U64);
    var w := A64.Encode(A64.Branch26, B, back);
    if w.Err? then Err(Overflow) else Ok([moved, w.value])
  }

  /** `erratum_branch`: the jump that replaces the instruction at `site`. */
  function PatchBranch(site: nat, patch: nat): Result<int, Overflow>
  {
    A64.Encode(A64.Branch26, B, Wrap(patch - site, U64))
  }

  /** A plain `b`: the six bits of its opcode, and its immediate. */
  predicate IsPlainBranch(word: int)
  {
    0 <= word < U32 && Field(word, 0x400_0000, 64) == 5
  }

  lemma StillBranch(value: int)
    requires A64.Encode(A64.Branch26, B, value).Ok?
    ensures IsPlainBranch(A64.Encode(A64.Branch26, B, value).value)
  {
    A64.EncodedBranch(A64.Branch26, B, value, 0);
    var w := A64.Encode(A64.Branch26, B, value).value;
    hide A64.Encode, A64.Destination;
    assert Field(B, 1, 0x400_0000) == 0;
    DivModUnique(w, 5, Field(w, 1, 0x400_0000), 0x400_0000);
  }

  /** The site jumps to its patch, which runs the moved instruction and comes back right after the site. */
  lemma PatchRoundTrip(site: nat, patch: nat, moved: int)
    requires site < U64 && patch < U64 && Patch(patch, site, moved).Ok? && PatchBranch(site, patch).Ok?
    ensures IsPlainBranch(PatchBranch(site, patch).value)
    ensures A64.Destination(A64.Branch26, PatchBranch(site, patch).value, site) == patch
    ensures var words := Patch(patch, site, moved).value;
      |words| == 2 && words[0] == moved && IsPlainBranch(words[1])
      && A64.Destination(A64.Branch26, words[1], (patch + 4) % U64) == (site + 4) % U64
  {
    hide A64.Encode, A64.Destination, Wrap, IsPlainBranch;
    var there, back := Wrap(patch - site, U64), Wrap((site + 4) % U64 - (patch + 4) % U64, U64);
    A64.EncodedBranch(A64.Branch26, B, there, site);
    A64.EncodedBranch(A64.Branch26, B, back, (patch + 4) % U64);
    StillBranch(there);
    StillBranch(back);
    Arrives(site, patch);
    Arrives((patch + 4) % U64, (site + 4) % U64);
  }

  /** Both branches are made exactly when the patch and the site are within 128 MiB of each other, in whole words. */
  lemma PatchAccepted(site: nat, patch: nat, moved: int)
    ensures PatchBranch(site, patch).Ok? <==> A64.InReach(A64.Branch26, Wrap(patch - site, U64))
    ensures Patch(patch, site, moved).Ok? <==> A64.InReach(A64.Branch26, Wrap((site + 4) % U64 - (patch + 4) % U64, U64))
  {
    hide A64.Encode, A64.InReach, Wrap;
    A64.BranchAccepted(A64.Branch26, B, Wrap(patch - site, U64));
    A64.BranchAccepted(A64.Branch26, B, Wrap((site + 4) % U64 - (patch + 4) % U64, U64));
  }

  lemma Arrives(from: nat, to: nat)
    requires to < U64
    ensures (from + Wrap(to - from, U64)) % U64 == to
  {
    WrapMod(to - from, U64);
    ModEqual(from + Wrap(to - from, U64), to, U64);
    DivModUnique(to, 0, to, U64);
  }
}
