/** Common symbols and the pseudo-relocation list. */
module LayoutCommons {
  import opened Bits
  import opened Results
  import opened Sorting
  import opened LayoutModel
  import opened LayoutPlace
  import opened LayoutBuild
  import opened LayoutAssign
  import opened LayoutFinish
  import opened LayoutPlan
  import opened LayoutTheorems
  import opened LayoutRecipe
  import opened LayoutRegions

  // ---- The values of common symbols ----

  lemma ZerosNext(chunks: seq<Chunk>, k: nat)
    requires k < |chunks|
    ensures ZeroChunks(chunks[..k + 1]) == ZeroChunks(chunks[..k]) + (if chunks[k].piece.Zero? then [chunks[k]] else [])
  {
    assert chunks[..k + 1] == chunks[..k] + [chunks[k]];
    InputsPush(chunks[..k], chunks[k]);
  }

  /** The zero chunks, collected. */
  method Zeros(chunks: seq<Chunk>) returns (zeros: seq<Chunk>)
    ensures zeros == ZeroChunks(chunks)
  {
    zeros := [];
    for c := 0 to |chunks|
      invariant zeros == ZeroChunks(chunks[..c])
    {
      ZerosNext(chunks, c);
      if chunks[c].piece.Zero? { zeros := zeros + [chunks[c]]; }
    }
    assert chunks[..|chunks|] == chunks;
  }

  /** The address of the `k`-th zero chunk of `.bss`. */
  function CommonRva(l: Layout, k: nat): Option<nat>
  {
    var i := IndexIn(Names(l.sections), ".bss");
    if i < |l.sections| && k < |ZeroChunks(l.sections[i].chunks)|
    then Some((l.sections[i].rva + ZeroChunks(l.sections[i].chunks)[k].offset) % U32) else None
  }

  /** `common_values`: the symbols take the zero chunks of `.bss` in turn. */
  method CommonValues(l: Layout, symbols: seq<nat>) returns (values: map<nat, nat>)
    requires NoDuplicates(symbols)
    ensures forall k :: 0 <= k < |symbols| ==>
      if CommonRva(l, k).Some? then symbols[k] in values && values[symbols[k]] == CommonRva(l, k).value else symbols[k] !in values
    ensures forall s :: s in values ==> s in symbols
  {
    values := map[];
    var i := IndexIn(Names(l.sections), ".bss");
    if i == |l.sections| { return; }
    var section := l.sections[i];
    var zeros := Zeros(section.chunks);
    var k := 0;
    while k < |symbols| && k < |zeros|
      invariant k <= |symbols| && k <= |zeros|
      invariant forall j :: 0 <= j < k ==> symbols[j] in values && values[symbols[j]] == (section.rva + zeros[j].offset) % U32
      invariant forall s :: s in values ==> s in symbols[..k]
    {
      values := values[symbols[k] := (section.rva + zeros[k].offset) % U32];
      k := k + 1;
    }
  }

  lemma {:induction false} ZeroAt(chunks: seq<Chunk>, k: nat) returns (c: nat)
    requires k < |ZeroChunks(chunks)|
    ensures c < |chunks| && chunks[c] == ZeroChunks(chunks)[k] && chunks[c].piece.Zero? && |ZeroChunks(chunks[..c])| == k
    decreases |chunks|
  {
    var last := |chunks| - 1;
    ZerosNext(chunks, last);
    assert chunks[..last + 1] == chunks;
    if k < |ZeroChunks(chunks[..last])| {
      c := ZeroAt(chunks[..last], k);
      assert chunks[..last][..c] == chunks[..c];
    } else {
      c := last;
    }
  }

  predicate NoInsertOf(steps: seq<Step>, name: string)
  {
    forall u :: 0 <= u < |steps| && steps[u].Insert? ==> steps[u].output != name
  }

  lemma NoBssInserts()
    ensures NoInsertOf(TextSteps(), ".bss") && NoInsertOf(DataSteps(), ".bss") && NoInsertOf(ReadOnlySteps(), ".bss")
    ensures NoInsertOf(CtorSteps(), ".bss") && NoInsertOf(OtherSteps(), ".bss")
  {
  }

  lemma NoBssInsertsMore()
    ensures NoInsertOf(CrtSteps(), ".bss") && NoInsertOf(IdataSteps(), ".bss") && NoInsertOf(TlsSteps(), ".bss")
  {
  }

  lemma BssHasNoMarker()
    ensures NoInserts(Recipe(), |Recipe()|, ".bss")
  {
    NoBssInserts();
    NoBssInsertsMore();
    hide Recipe, TextSteps, DataSteps, ReadOnlySteps, CtorSteps, CrtSteps, OtherSteps, IdataSteps, TlsSteps;
    StepsAre(0);
    forall t: nat | t < |Recipe()|
      ensures !InsertsAt(Recipe(), t, ".bss")
    {
      StepsAre(t);
    }
  }

  /** The zero chunks of `.bss` start with the commons. */
  lemma BssZeros(out: OutSection, input: Input)
    requires out.name == ".bss" && Finished(out, Recipe(), input)
    ensures CommonsIn(ZeroChunks(out.chunks), input.commons)
  {
    BssHasNoMarker();
    FinishedMeans(out, Recipe(), input);
    hide Recipe, Contributions, After, Finished, Inputs, NoInserts, AlignBefore;
  }

  /** The first of the chunks have these sizes and alignments, in order. */
  predicate CommonsIn(zeros: seq<Chunk>, commons: seq<Common>)
  {
    && |commons| <= |zeros|
    && forall i :: 0 <= i < |commons| ==> zeros[i].size == commons[i].size && AlignedTo(zeros[i].offset, Some(commons[i].align))
  }

  /** The chunk holds the `k`-th common symbol: a zero chunk of `.bss`, aligned and of its size. */
  predicate HoldsCommon(l: Layout, i: nat, c: nat, k: nat, common: Common)
  {
    && IsChunk(l, i, c) && SectionAt(l, i).name == ".bss"
    && ChunkAt(l, i, c).piece == Zero && ZerosBefore(l, i, c) == k
    && ChunkSize(l, i, c) == common.size && AlignedTo(ChunkAt(l, i, c).offset, Some(common.align))
  }

  /** How many zero chunks come before a chunk in its section. */
  function ZerosBefore(l: Layout, i: nat, c: nat): nat
  {
    if c <= |SectionAt(l, i).chunks| then |ZeroChunks(SectionAt(l, i).chunks[..c])| else 0
  }

  function CommonAt(input: Input, k: nat): Common
  {
    if k < |input.commons| then input.commons[k] else Common(0, 1)
  }

  /**
    Every common symbol with a size has its own zero chunk: aligned in the
    section, of the symbol's size, at the address it is given.
   */
  lemma CommonPlaced(l: Layout, input: Input, k: nat) returns (i: nat, c: nat)
    requires k < |input.commons| && (CommonAt(input, k).size > 0 || ".bss" in Names(l.sections)) && Laid(l, input)
    ensures HoldsCommon(l, i, c, k, CommonAt(input, k)) && CommonRva(l, k) == Some(ChunkRva(l, i, c))
  {
    hide Laid, Recipe, Finished, InBounds;
    if ".bss" !in Names(l.sections) { BssPresent(l, input, k); }
    i := IndexIn(Names(l.sections), ".bss");
    NameAt(l.sections, i);
    InLaid(l, input, i);
    BssZeros(l.sections[i], input);
    c := ZeroAt(l.sections[i].chunks, k);
    LaidInBounds(l, input, i, c);
  }

  lemma LaidInBounds(l: Layout, input: Input, i: nat, c: nat)
    requires IsChunk(l, i, c) && Laid(l, input)
    ensures ChunkRva(l, i, c) <= U32_MAX && ChunkRva(l, i, c) % U32 == ChunkRva(l, i, c)
  {
    hide Accepted, Recipe;
    ChunkInBounds(l, Recipe(), Trailing(), input, i, c);
  }

  /** A common symbol with a size keeps `.bss` in the image. */
  lemma BssPresent(l: Layout, input: Input, k: nat)
    requires k < |input.commons| && CommonAt(input, k).size > 0 && Laid(l, input)
    ensures ".bss" in Names(l.sections)
  {
    LaidParts(l, input);
    BssStep();
    var out := FinalSection(Recipe(), input, ".bss");
    FinalNamed(Recipe(), input, ".bss");
    StepsAre(0);
    assert Finished(out, Recipe(), input);
    hide Recipe, FinalSection, Finished, Laid, DroppedRight, AllWanted, Names, StepFrom;
    BssNotEmpty(out, input, k);
    RecipePresent(l.sections, input, 65);
  }

  lemma BssNotEmpty(out: OutSection, input: Input, k: nat)
    requires k < |input.commons| && CommonAt(input, k).size > 0 && out.name == ".bss" && Finished(out, Recipe(), input)
    ensures out.virtualSize > 0
  {
    BssZeros(out, input);
    FinishedInputs(out, Recipe(), input);
    hide Recipe, Finished, ThunksFollow, InputsWhole, StepsRise, Inputs, Divides;
    var c := ZeroAt(out.chunks, k);
  }

  /** Common symbols share bytes neither with each other nor with any other chunk of the image. */
  lemma CommonsDisjoint(l: Layout, input: Input, k: nat, j: nat, d: nat)
    requires k < |input.commons| && CommonAt(input, k).size > 0 && IsChunk(l, j, d)
    requires ChunkAt(l, j, d).piece == Zero && SectionAt(l, j).name == ".bss" ==> ZerosBefore(l, j, d) != k
    requires Laid(l, input)
    ensures CommonApart(l, k, CommonAt(input, k).size, ChunkRva(l, j, d), ChunkSize(l, j, d))
  {
    hide Recipe, Finished, Accepted;
    var i, c := CommonPlaced(l, input, k);
    ChunksDisjoint(l, Recipe(), Trailing(), input, i, c, j, d);
  }

  /** The `k`-th common, of `size` bytes, has an address, and shares no byte with `n` bytes at `rva`. */
  predicate CommonApart(l: Layout, k: nat, size: nat, rva: nat, n: nat)
  {
    match CommonRva(l, k)
    case Some(a) => Apart(a, size, rva, n)
    case None => false
  }

  predicate TwoApart(l: Layout, k: nat, m: nat, sizes: (nat, nat))
  {
    match (CommonRva(l, k), CommonRva(l, m))
    case (Some(a), Some(b)) => Apart(a, sizes.0, b, sizes.1)
    case _ => false
  }

  lemma TwoCommonsDisjoint(l: Layout, input: Input, k: nat, m: nat)
    requires k < |input.commons| && m < |input.commons| && k != m
    requires CommonAt(input, k).size > 0 && CommonAt(input, m).size > 0 && Laid(l, input)
    ensures TwoApart(l, k, m, (CommonAt(input, k).size, CommonAt(input, m).size))
  {
    hide Recipe, Finished, Accepted, Laid;
    var j, d := CommonPlaced(l, input, m);
    CommonsDisjoint(l, input, k, j, d);
  }

  // ---- The pseudo-relocation list ----

  /** The list starts with the bytes the linker reserved, inside the bounds its symbols name. */
  lemma PseudoReserved(l: Layout, input: Input) returns (i: nat, c: nat)
    requires input.pseudoSize > 0 && Laid(l, input)
    ensures IsChunk(l, i, c) && SectionAt(l, i).name == ".rdata"
    ensures ChunkAt(l, i, c).piece == Zero && ChunkSize(l, i, c) == input.pseudoSize
    ensures Within(l, PseudoStart, PseudoEnd, i, c)
  {
    PseudoMarkers();
    hide *;
    MarkerThere(l, input, PseudoStart);
    MarkerThere(l, input, PseudoEnd);
    var k;
    i, k := MarkerFound(l, input, PseudoStart);
    MarkIn(l, i, k);
    InLaid(l, input, i);
    c := PseudoChunk(SectionAt(l, i), input);
    ChunkHere(l, i, c);
    NamedRegion(l, input, PseudoStart, PseudoEnd, i, c);
  }

  lemma PseudoMarkers()
    ensures MarkerOutput(PseudoStart) == ".rdata" && MarkerOutput(PseudoEnd) == ".rdata" && HasWord(".rdata")
    ensures MarkerStep(PseudoStart) == 28 && MarkerStep(PseudoEnd) == 30
  {
  }

  lemma ChunkHere(l: Layout, i: nat, c: nat)
    requires i < |l.sections| && c < |SectionAt(l, i).chunks|
    ensures IsChunk(l, i, c) && ChunkAt(l, i, c) == SectionAt(l, i).chunks[c] && ChunkSize(l, i, c) == ChunkAt(l, i, c).size
  {
  }

  lemma PseudoChunk(out: OutSection, input: Input) returns (c: nat)
    requires out.name == ".rdata" && input.pseudoSize > 0 && Finished(out, Recipe(), input)
    ensures c < |out.chunks|
    ensures c < |out.chunks| && out.chunks[c].piece == Zero && out.chunks[c].size == input.pseudoSize && out.chunks[c].step == 28
  {
    MarkerInserted(PseudoStart);
    FinishedMarks(out, Recipe(), input);
    hide Recipe, Finished, Inputs, MarksAligned, MarkSteps;
    assert InsertsAt(Recipe(), 28, out.name) && Recipe()[28].marker == PseudoStart;
    assert Filled(out.chunks, 28, MarkerBytes(PseudoStart, Pointer(input)), Reserved(PseudoStart, input));
    c :| 0 <= c < |out.chunks| && out.chunks[c].step == 28 && out.chunks[c].piece == Zero && out.chunks[c].size == input.pseudoSize;
  }
}
