/** ARM64 branches under a layout: direct, through a thunk, or asking for one. */
module Branches {
  import opened Bits
  import opened Bytes
  import opened Results
  import opened ThunkPlan
  import AArch64
  import ThunkBlocks
  import opened LayoutModel
  import opened LayoutBuild
  import opened LayoutFinish
  import opened LayoutRecord
  import opened LayoutPlan
  import opened LayoutTheorems

  /** A branch relocation: its place in an input section, the instruction there, the symbol record it refers to. */
  datatype Branch = Branch(file: nat, section: nat, offset: nat, kind: AArch64.Insn, insn: nat, record: nat)

  /** The value of a file's symbol record under a layout, modulo 2^64. */
  type Symbols = (Layout, nat, nat) -> nat

  datatype Outcome = Patched(word: int) | Asked(request: Request) | NotPlaced | TooFar

  predicate IsBranch(kind: AArch64.Insn)
  {
    kind.Branch26? || kind.Branch19? || kind.Branch14?
  }

  /** A branch the linker may see: in a live section, with a 32-bit instruction. */
  predicate ValidBranch(b: Branch, files: seq<InFile>)
  {
    && IsBranch(b.kind) && b.insn < U32
    && IsLive(files, b.file, b.section)
    && b.offset + 4 <= SectionOf(files, b.file, b.section).value.size
  }

  /** `signed_field`, times four. */
  function Addend(b: Branch): int
  {
    var (p, w) := AArch64.BranchField(b.kind);
    4 * Signed(Field(b.insn, p, w), w)
  }

  function SiteOf(b: Branch): Site
  {
    (b.file, b.section)
  }

  /** The address of the branch. */
  function PcOf(l: Layout, b: Branch): nat
  {
    (InputRva(l, b.file, b.section) + b.offset) % U32
  }

  /** Where the branch should go: as far past its symbol as the instruction goes before it is patched. */
  function Goal(l: Layout, symbols: Symbols, b: Branch): int
  {
    symbols(l, b.file, b.record) + AArch64.Displacement(b.kind, b.insn)
  }

  lemma GoalIs(l: Layout, symbols: Symbols, b: Branch)
    ensures Goal(l, symbols, b) == symbols(l, b.file, b.record) + Addend(b)
  {
  }

  function KeyOf(b: Branch): ThunkTarget
  {
    ThunkTarget(b.record, Addend(b))
  }

  /** The branch sent to its symbol plus its addend. */
  function DirectWord(l: Layout, symbols: Symbols, b: Branch): Result<int, Overflow>
  {
    AArch64.Encode(b.kind, b.insn, Wrap(Wrap(symbols(l, b.file, b.record) + Addend(b), U64) - PcOf(l, b), U64))
  }

  /** Where a section's block was recorded. */
  function BlockStart(l: Layout, site: Site): nat
  {
    if site in l.thunkRvas then l.thunkRvas[site] else 0
  }

  /** The branch sent to slot `index` of its section's block. */
  function ThunkWord(l: Layout, b: Branch, index: nat): Result<int, Overflow>
  {
    var slot := if index * THUNK_SIZE > U32_MAX then U32_MAX else index * THUNK_SIZE;
    var thunk := (BlockStart(l, SiteOf(b)) + slot) % U32;
    AArch64.Encode(b.kind, b.insn, Wrap(thunk - PcOf(l, b), U64))
  }

  /** `branch`. */
  function Apply(l: Layout, symbols: Symbols, b: Branch): Outcome
  {
    match DirectWord(l, symbols, b)
    case Ok(word) => Patched(word)
    case Err(_) =>
      match IndexOf(l.thunks, SiteOf(b), KeyOf(b))
      case None => Asked(Request(SiteOf(b), KeyOf(b)))
      case Some(index) =>
        if SiteOf(b) !in l.thunkRvas then NotPlaced
        else
          match ThunkWord(l, b, index)
          case Ok(word) => Patched(word)
          case Err(_) => TooFar
  }

  /** The destinations of a block as the writer computes them: each symbol plus its addend, as 32 bits. */
  function BlockTargets(l: Layout, symbols: Symbols, site: Site): (r: seq<nat>)
    ensures |r| == |Block(l.thunks, site)| && ThunkBlocks.AllWords(r)
  {
    var block := Block(l.thunks, site);
    seq(|block|, i requires 0 <= i < |block| => (symbols(l, site.0, block[i].record) + block[i].addend) % U32)
  }

  /** The bytes the writer puts where the block was placed. */
  function BlockContents(l: Layout, symbols: Symbols, site: Site): (r: seq<Byte>)
    ensures |r| == 12 * |Block(l.thunks, site)|
  {
    var targets := BlockTargets(l, symbols, site);
    ThunkBlocks.BlockBytes(BlockStart(l, site), targets, |targets|)
  }

  /** The instructions of a slot of the block. */
  function SlotInsns(l: Layout, symbols: Symbols, site: Site, index: nat): seq<AArch64.Decoded>
  {
    var bytes := BlockContents(l, symbols, site);
    if 12 * index + 12 <= |bytes| then AArch64.DecodeAll(ThunkBlocks.SlotWords(bytes, index)) else []
  }

  // ---- Where blocks are ----

  /** The chunk is the site's block, with room for every slot, at the recorded address. */
  predicate IsBlockChunk(l: Layout, i: nat, c: nat, site: Site)
  {
    && IsChunk(l, i, c) && ChunkAt(l, i, c).piece == ThunkPiece(site.0, site.1)
    && ChunkSize(l, i, c) == THUNK_SIZE * |Block(l.thunks, site)|
    && site in l.thunkRvas && BlockStart(l, site) == ChunkRva(l, i, c)
  }

  /** The chunk of a block that is needed: right after its section, big enough, and recorded. */
  lemma BlockPlaced(l: Layout, recipe: seq<Step>, trailing: seq<string>, input: Input, site: Site) returns (i: nat, c: nat)
    requires IsLive(input.files, site.0, site.1) && Block(l.thunks, site) != [] && Accepted(l, recipe, trailing, input)
    ensures IsBlockChunk(l, i, c, site) && ChunkRva(l, i, c) + ChunkSize(l, i, c) <= U32_MAX
  {
    hide Accepted, Finished, InBounds, Target, IsRecorded;
    RecordsKept(l, recipe, trailing, input);
    var d;
    i, d := InputPlaced(l, recipe, trailing, input, site.0, site.1, SectionOf(input.files, site.0, site.1).value);
    c := d + 1;
    SectionLies(l, recipe, trailing, input, i);
    NothingSaturated(l, recipe, trailing, input, i);
    BlockAfter(SectionAt(l, i), recipe, input, d, site);
    ChunkInBounds(l, recipe, trailing, input, i, c);
    BlockRecorded(l, i, c, site);
  }

  lemma RecordsKept(l: Layout, recipe: seq<Step>, trailing: seq<string>, input: Input)
    requires Accepted(l, recipe, trailing, input)
    ensures l.thunks == input.blocks && AllBlocksRecorded(l.sections, l.thunkRvas)
  {
    hide Given, AddressesRight, OutputsRight, RvasOf, MarkersRight, AllBlocksRecorded;
  }

  lemma BlockAfter(out: OutSection, recipe: seq<Step>, input: Input, d: nat, site: Site)
    requires d < |out.chunks| && out.chunks[d].piece == InputPiece(site.0, site.1) && Block(input.blocks, site) != []
    requires InBounds(out) && Finished(out, recipe, input)
    ensures d + 1 < |out.chunks|
    ensures d + 1 < |out.chunks| && out.chunks[d + 1].piece == ThunkPiece(site.0, site.1)
      && out.chunks[d + 1].size == THUNK_SIZE * |Block(input.blocks, site)|
  {
    FinishedInputs(out, recipe, input);
    hide Finished, SitesDistinct, InputsWhole, StepsRise, Inputs, Divides, Ordered;
    FollowedByBlock(out.chunks, d, input.blocks);
    assert out.chunks[d + 1].offset + out.chunks[d + 1].size <= out.virtualSize;
  }

  lemma BlockRecorded(l: Layout, i: nat, c: nat, site: Site)
    requires IsChunk(l, i, c) && ChunkAt(l, i, c).piece == ThunkPiece(site.0, site.1) && ChunkRva(l, i, c) <= U32_MAX
    requires AllBlocksRecorded(l.sections, l.thunkRvas)
    ensures site in l.thunkRvas && BlockStart(l, site) == ChunkRva(l, i, c)
  {
    assert BlockAt(l.sections, i, c, site);
    SmallMod(ChunkRva(l, i, c), U32);
  }

  // ---- Asking for thunks ----

  /** A planned thunk is always placed, so no branch misses its block. */
  lemma NeverMissing(l: Layout, recipe: seq<Step>, trailing: seq<string>, input: Input, symbols: Symbols, b: Branch)
    requires ValidBranch(b, input.files) && Accepted(l, recipe, trailing, input)
    ensures !Apply(l, symbols, b).NotPlaced?
  {
    hide Accepted, DirectWord, ThunkWord;
    if IndexOf(l.thunks, SiteOf(b), KeyOf(b)).Some? {
      var i, c := BlockPlaced(l, recipe, trailing, input, SiteOf(b));
    }
  }

  // ---- Where branches go ----

  /** The branch goes straight to its symbol plus its addend. */
  predicate Direct(l: Layout, symbols: Symbols, b: Branch, word: int)
  {
    AArch64.Destination(b.kind, word, PcOf(l, b)) == Goal(l, symbols, b) % U64
  }

  /** Run from its address, a slot leaves control at the target with x16 the only register changed. */
  ghost predicate SlotEnds(l: Layout, symbols: Symbols, site: Site, index: nat, target: nat)
  {
    forall cpu: AArch64.Cpu :: cpu.pc == BlockStart(l, site) + 12 * index ==>
      AArch64.Run(cpu, SlotInsns(l, symbols, site, index)) == Some(AArch64.Cpu(target, cpu.x[16 := target]))
  }

  /** The branch goes to the slot of its section's block that is for it. */
  predicate ToSlot(l: Layout, b: Branch, word: int, index: nat)
  {
    && index < |Block(l.thunks, SiteOf(b))| && Block(l.thunks, SiteOf(b))[index] == KeyOf(b)
    && AArch64.Destination(b.kind, word, PcOf(l, b)) == BlockStart(l, SiteOf(b)) + 12 * index < U32
  }

  /** The branch goes to a slot, and the slot goes on to the low 32 bits of the symbol plus the addend. */
  ghost predicate Indirect(l: Layout, symbols: Symbols, b: Branch, word: int, index: nat)
  {
    ToSlot(l, b, word, index) && SlotEnds(l, symbols, SiteOf(b), index, Goal(l, symbols, b) % U32)
  }

  /** A patched word is an instruction that goes straight to the goal or through a slot. */
  ghost predicate Arrives(l: Layout, symbols: Symbols, b: Branch, outcome: Outcome, index: nat)
  {
    match outcome
    case Patched(word) => 0 <= word < U32 && (Direct(l, symbols, b, word) || Indirect(l, symbols, b, word, index))
    case _ => true
  }

  /** Every patched branch of an accepted layout goes to its symbol plus its addend, or through its thunk to the low 32 bits of it. */
  lemma BranchReaches(l: Layout, recipe: seq<Step>, trailing: seq<string>, input: Input, symbols: Symbols, b: Branch) returns (index: nat)
    requires ValidBranch(b, input.files) && Accepted(l, recipe, trailing, input)
    ensures Arrives(l, symbols, b, Apply(l, symbols, b), index)
  {
    index := 0;
    PatchedIsWord(l, symbols, b);
    var outcome := Apply(l, symbols, b);
    if outcome.Patched? {
      assert IsBranch(b.kind);
      index := PatchedBy(l, symbols, b, outcome.word);
      hide Accepted, Apply, DirectWord, ThunkWord, IndexOf, Direct, Indirect, ValidBranch;
      if DirectWord(l, symbols, b) == Ok(outcome.word) {
        DirectReaches(l, symbols, b);
      } else {
        ThroughThunk(l, recipe, trailing, input, symbols, b, index);
      }
    }
  }

  /** A patched word is the direct one or the one to the slot. */
  lemma PatchedBy(l: Layout, symbols: Symbols, b: Branch, word: int) returns (index: nat)
    requires Apply(l, symbols, b) == Patched(word)
    ensures DirectWord(l, symbols, b) == Ok(word)
      || (IndexOf(l.thunks, SiteOf(b), KeyOf(b)) == Some(index) && ThunkWord(l, b, index) == Ok(word))
  {
    hide DirectWord, ThunkWord, IndexOf;
    index := if IndexOf(l.thunks, SiteOf(b), KeyOf(b)).Some? then IndexOf(l.thunks, SiteOf(b), KeyOf(b)).value else 0;
  }

  lemma PatchedIsWord(l: Layout, symbols: Symbols, b: Branch)
    requires IsBranch(b.kind) && b.insn < U32
    ensures match Apply(l, symbols, b)
      case Patched(word) => 0 <= word < U32
      case _ => true
  {
    GoalIs(l, symbols, b);
    hide AArch64.Encode, IndexOf, Goal, PcOf, Addend;
    if DirectWord(l, symbols, b).Ok? {
      AArch64.EncodedBranchIsWord(b.kind, b.insn, Wrap(Wrap(Goal(l, symbols, b), U64) - PcOf(l, b), U64));
    } else if Apply(l, symbols, b).Patched? {
      var index := IndexOf(l.thunks, SiteOf(b), KeyOf(b)).value;
      var slot := if index * THUNK_SIZE > U32_MAX then U32_MAX else index * THUNK_SIZE;
      AArch64.EncodedBranchIsWord(b.kind, b.insn, Wrap((BlockStart(l, SiteOf(b)) + slot) % U32 - PcOf(l, b), U64));
    }
  }

  lemma DirectReaches(l: Layout, symbols: Symbols, b: Branch)
    requires IsBranch(b.kind)
    ensures match DirectWord(l, symbols, b)
      case Ok(word) => Direct(l, symbols, b, word)
      case Err(_) => true
  {
    GoalIs(l, symbols, b);
    hide AArch64.Encode, AArch64.Destination, Goal, PcOf, Addend;
    var value := Goal(l, symbols, b);
    var delta := Wrap(Wrap(value, U64) - PcOf(l, b), U64);
    if DirectWord(l, symbols, b).Ok? {
      AArch64.EncodedBranch(b.kind, b.insn, delta, PcOf(l, b));
      DeltaReaches(value, PcOf(l, b));
    }
  }

  lemma DeltaReaches(value: int, pc: int)
    ensures (pc + Wrap(Wrap(value, U64) - pc, U64)) % U64 == value % U64
  {
    WrapMod(value, U64);
    WrapMod(Wrap(value, U64) - pc, U64);
    ModEqual(pc + Wrap(Wrap(value, U64) - pc, U64), value, U64);
  }

  lemma ThroughThunk(l: Layout, recipe: seq<Step>, trailing: seq<string>, input: Input, symbols: Symbols, b: Branch, index: nat)
    requires ValidBranch(b, input.files) && IndexOf(l.thunks, SiteOf(b), KeyOf(b)) == Some(index)
    requires Accepted(l, recipe, trailing, input)
    ensures forall word :: ThunkWord(l, b, index) == Ok(word) ==> Indirect(l, symbols, b, word, index)
  {
    GoalIs(l, symbols, b);
    hide Accepted, ThunkWord, Addend, Goal, PcOf, SlotEnds, AArch64.Destination;
    var site := SiteOf(b);
    var i, c := BlockPlaced(l, recipe, trailing, input, site);
    SlotGoes(l, symbols, site, index);
    forall word | ThunkWord(l, b, index) == Ok(word)
      ensures Indirect(l, symbols, b, word, index)
    {
      SlotReached(l, b, index, word);
    }
  }

  /** The patched branch lands on its slot. */
  lemma SlotReached(l: Layout, b: Branch, index: nat, word: int)
    requires IsBranch(b.kind) && ThunkWord(l, b, index) == Ok(word) && BlockStart(l, SiteOf(b)) + 12 * index < U32
    ensures AArch64.Destination(b.kind, word, PcOf(l, b)) == BlockStart(l, SiteOf(b)) + 12 * index
  {
    hide AArch64.Encode, AArch64.Destination, PcOf;
    var (pc, thunk) := (PcOf(l, b), BlockStart(l, SiteOf(b)) + 12 * index);
    SlotAddress(thunk, pc);
    AArch64.EncodedBranch(b.kind, b.insn, Wrap(thunk - pc, U64), pc);
  }

  lemma SlotAddress(thunk: nat, pc: nat)
    requires thunk < U32
    ensures thunk % U32 == thunk && (pc + Wrap(thunk - pc, U64)) % U64 == thunk
  {
    WrapMod(thunk - pc, U64);
    ModEqual(pc + Wrap(thunk - pc, U64), thunk, U64);
  }

  lemma SlotGoes(l: Layout, symbols: Symbols, site: Site, index: nat)
    requires index < |Block(l.thunks, site)| && BlockStart(l, site) + 12 * index < U32
    ensures index < |Block(l.thunks, site)|
      && var key := Block(l.thunks, site)[index];
         SlotEnds(l, symbols, site, index, (symbols(l, site.0, key.record) + key.addend) % U32)
  {
    hide AArch64.Run, AArch64.DecodeAll, ThunkBlocks.BlockBytes, ThunkBlocks.SlotWords;
    var targets := BlockTargets(l, symbols, site);
    forall cpu: AArch64.Cpu | cpu.pc == BlockStart(l, site) + 12 * index
      ensures AArch64.Run(cpu, SlotInsns(l, symbols, site, index)) == Some(AArch64.Cpu(targets[index], cpu.x[16 := targets[index]]))
    {
      ThunkBlocks.SlotReaches(BlockStart(l, site), targets, index, cpu);
    }
  }

  // ---- What 32 bits leave of the goal ----

  /** A slot ends at one place. */
  lemma OneEnd(l: Layout, symbols: Symbols, site: Site, index: nat, a: nat, b: nat)
    requires SlotEnds(l, symbols, site, index, a) && SlotEnds(l, symbols, site, index, b)
    ensures a == b
  {
    hide AArch64.Run, SlotInsns;
    var cpu := AArch64.Cpu(BlockStart(l, site) + 12 * index, map[]);
    assert AArch64.Run(cpu, SlotInsns(l, symbols, site, index)) == Some(AArch64.Cpu(a, cpu.x[16 := a]));
  }

  lemma LowBits(x: int)
    ensures x % U32 == x % U64 <==> x % U64 < U32
  {
    var (q, r) := (x / U64, x % U64);
    assert x == r + (q * 0x1_0000_0000) * U32;
    ModAddMultiple(r, q * 0x1_0000_0000, U32);
    if r < U32 { SmallMod(r, U32); }
  }

  /** A thunk goes to the symbol plus the addend exactly when that is a 32-bit address. */
  lemma ThunkExact(l: Layout, symbols: Symbols, b: Branch, word: int, index: nat)
    requires Indirect(l, symbols, b, word, index)
    ensures SlotEnds(l, symbols, SiteOf(b), index, Goal(l, symbols, b) % U64) <==> Goal(l, symbols, b) % U64 < U32
  {
    hide SlotEnds, Goal, ToSlot;
    var goal := Goal(l, symbols, b);
    LowBits(goal);
    if SlotEnds(l, symbols, SiteOf(b), index, goal % U64) {
      OneEnd(l, symbols, SiteOf(b), index, goal % U64, goal % U32);
    }
  }

  // ---- Which branches are patched, and which ask for a thunk ----

  /** From the branch to an address, as a 64-bit difference. */
  function From(l: Layout, b: Branch, address: int): int
  {
    Wrap(address - PcOf(l, b), U64)
  }

  /** The address is as near as the instruction goes. */
  predicate Near(l: Layout, b: Branch, address: int)
  {
    AArch64.InReach(b.kind, From(l, b, address))
  }

  lemma WrapTwice(value: int, pc: int)
    ensures Wrap(Wrap(value, U64) - pc, U64) == Wrap(value - pc, U64)
  {
    WrapMod(value, U64);
    ModEqual(Wrap(value, U64) - pc, value - pc, U64);
  }

  lemma DirectNear(l: Layout, symbols: Symbols, b: Branch)
    requires IsBranch(b.kind)
    ensures DirectWord(l, symbols, b).Ok? <==> Near(l, b, Goal(l, symbols, b))
  {
    GoalIs(l, symbols, b);
    hide AArch64.Encode, AArch64.InReach, Goal, PcOf, Wrap, Addend;
    WrapTwice(Goal(l, symbols, b), PcOf(l, b));
    AArch64.BranchAccepted(b.kind, b.insn, From(l, b, Goal(l, symbols, b)));
  }

  lemma SlotNear(l: Layout, b: Branch, index: nat)
    requires IsBranch(b.kind) && BlockStart(l, SiteOf(b)) + 12 * index < U32
    ensures ThunkWord(l, b, index).Ok? <==> Near(l, b, BlockStart(l, SiteOf(b)) + 12 * index)
  {
    hide AArch64.Encode, AArch64.InReach, BlockStart, PcOf, Wrap;
    SmallMod(BlockStart(l, SiteOf(b)) + 12 * index, U32);
    AArch64.BranchAccepted(b.kind, b.insn, From(l, b, BlockStart(l, SiteOf(b)) + 12 * index));
  }

  /** The slot that is for the branch. */
  predicate IsSlot(l: Layout, b: Branch, index: nat)
  {
    index < |Block(l.thunks, SiteOf(b))| && Block(l.thunks, SiteOf(b))[index] == KeyOf(b)
  }

  function SlotRva(l: Layout, b: Branch, index: nat): nat
  {
    BlockStart(l, SiteOf(b)) + 12 * index
  }

  /**
    What a branch comes to. With its goal in reach it goes there. Otherwise it
    asks for a thunk if none is planned for it; goes through the slot that is for
    it if that is in reach; and is too far if not.
   */
  ghost predicate ComesTo(l: Layout, symbols: Symbols, b: Branch, outcome: Outcome, index: nat)
  {
    var near := Near(l, b, Goal(l, symbols, b));
    match outcome
    case Patched(word) =>
      && 0 <= word < U32
      && (if near then Direct(l, symbols, b, word) else Near(l, b, SlotRva(l, b, index)) && Indirect(l, symbols, b, word, index))
    case Asked(request) => !near && request == Request(SiteOf(b), KeyOf(b)) && KeyOf(b) !in Block(l.thunks, SiteOf(b))
    case TooFar => !near && IsSlot(l, b, index) && !Near(l, b, SlotRva(l, b, index))
    case NotPlaced => false
  }

  /** The slot of a planned thunk is in an accepted layout, and is the one looked up. */
  lemma SlotFound(l: Layout, recipe: seq<Step>, trailing: seq<string>, input: Input, b: Branch) returns (index: nat)
    requires ValidBranch(b, input.files) && Valid(l.thunks) && Accepted(l, recipe, trailing, input)
    ensures match IndexOf(l.thunks, SiteOf(b), KeyOf(b))
      case Some(i) => i == index && IsSlot(l, b, index) && SlotRva(l, b, index) < U32 && SiteOf(b) in l.thunkRvas
      case None => KeyOf(b) !in Block(l.thunks, SiteOf(b))
  {
    hide Accepted, Addend, ChunkRva, ChunkAt;
    index := 0;
    var site := SiteOf(b);
    if Block(l.thunks, site) != [] {
      var i, c := BlockPlaced(l, recipe, trailing, input, site);
      IndexAgrees(l.thunks, site, KeyOf(b));
      if KeyOf(b) in Block(l.thunks, site) { index := IndexOf(l.thunks, site, KeyOf(b)).value; }
    }
  }

  /** How a branch is applied, case by case. */
  lemma Applied(l: Layout, symbols: Symbols, b: Branch, index: nat)
    ensures match DirectWord(l, symbols, b)
      case Ok(word) => Apply(l, symbols, b) == Patched(word)
      case Err(_) =>
        && (IndexOf(l.thunks, SiteOf(b), KeyOf(b)) == None ==> Apply(l, symbols, b) == Asked(Request(SiteOf(b), KeyOf(b))))
        && (IndexOf(l.thunks, SiteOf(b), KeyOf(b)) == Some(index) && SiteOf(b) in l.thunkRvas ==>
              Apply(l, symbols, b) == match ThunkWord(l, b, index) case Ok(word) => Patched(word) case Err(_) => TooFar)
  {
    hide DirectWord, ThunkWord, IndexOf, KeyOf;
  }

  lemma NearComes(l: Layout, symbols: Symbols, b: Branch, index: nat)
    requires IsBranch(b.kind) && b.insn < U32 && Near(l, b, Goal(l, symbols, b))
    ensures ComesTo(l, symbols, b, Apply(l, symbols, b), index)
  {
    hide DirectWord, Direct, Near, Indirect, ThunkWord, Goal, IndexOf, IsBranch;
    PatchedIsWord(l, symbols, b);
    DirectNear(l, symbols, b);
    DirectReaches(l, symbols, b);
    Applied(l, symbols, b, index);
  }

  /** Every branch of an accepted layout comes to exactly that. */
  lemma BranchComesTo(l: Layout, recipe: seq<Step>, trailing: seq<string>, input: Input, symbols: Symbols, b: Branch) returns (index: nat)
    requires ValidBranch(b, input.files) && Valid(l.thunks) && Accepted(l, recipe, trailing, input)
    ensures ComesTo(l, symbols, b, Apply(l, symbols, b), index)
  {
    assert IsBranch(b.kind) && b.insn < U32;
    hide *;
    index := SlotFound(l, recipe, trailing, input, b);
    if Near(l, b, Goal(l, symbols, b)) {
      NearComes(l, symbols, b, index);
    } else {
      if IndexOf(l.thunks, SiteOf(b), KeyOf(b)).Some? { ThroughThunk(l, recipe, trailing, input, symbols, b, index); }
      FarComes(l, symbols, b, index);
    }
  }

  lemma FarComes(l: Layout, symbols: Symbols, b: Branch, index: nat)
    requires IsBranch(b.kind) && b.insn < U32 && !Near(l, b, Goal(l, symbols, b))
    requires match IndexOf(l.thunks, SiteOf(b), KeyOf(b))
      case Some(i) => i == index && IsSlot(l, b, index) && SlotRva(l, b, index) < U32 && SiteOf(b) in l.thunkRvas
      case None => KeyOf(b) !in Block(l.thunks, SiteOf(b))
    requires IndexOf(l.thunks, SiteOf(b), KeyOf(b)).Some? ==>
      forall word :: ThunkWord(l, b, index) == Ok(word) ==> Indirect(l, symbols, b, word, index)
    ensures ComesTo(l, symbols, b, Apply(l, symbols, b), index)
  {
    hide DirectWord, Direct, Near, Indirect, ThunkWord, Goal, IndexOf, IsBranch, Block, Apply, KeyOf, SiteOf, BlockStart;
    PatchedIsWord(l, symbols, b);
    DirectNear(l, symbols, b);
    Applied(l, symbols, b, index);
    if IndexOf(l.thunks, SiteOf(b), KeyOf(b)).Some? { SlotNear(l, b, index); }
  }
}
