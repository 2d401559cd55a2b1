/** Safety of every accepted layout. */
module LayoutTheorems {
  import opened Bits
  import opened Results
  import opened ThunkPlan
  import opened LayoutModel
  import opened LayoutBuild
  import opened LayoutFinish
  import opened LayoutAddress
  import opened LayoutRecord
  import opened LayoutPlan

  // ---- Parts of a layout ----

  function SectionAt(l: Layout, i: nat): OutSection
  {
    if i < |l.sections| then l.sections[i] else NewSection("")
  }

  /** A chunk of the image, by section and position. */
  predicate IsChunk(l: Layout, i: nat, c: nat)
  {
    i < |l.sections| && c < |l.sections[i].chunks|
  }

  function ChunkAt(l: Layout, i: nat, c: nat): Chunk
  {
    if IsChunk(l, i, c) then l.sections[i].chunks[c] else Chunk(0, 0, Zero, NO_STEP)
  }

  function ChunkRva(l: Layout, i: nat, c: nat): nat
  {
    SectionAt(l, i).rva + ChunkAt(l, i, c).offset
  }

  function ChunkSize(l: Layout, i: nat, c: nat): nat
  {
    ChunkAt(l, i, c).size
  }

  predicate IsMark(l: Layout, i: nat, k: nat)
  {
    i < |l.sections| && k < |l.sections[i].marks|
  }

  function MarkAt(l: Layout, i: nat, k: nat): Mark
  {
    if IsMark(l, i, k) then l.sections[i].marks[k] else Mark(NO_STEP, 0)
  }

  /** The layout has an entry for the input section. */
  predicate IsRecorded(l: Layout, f: nat, s: nat)
  {
    f < |l.outputs| && 1 <= s <= |l.outputs[f]| && f < |l.rvas| && s <= |l.rvas[f]|
  }

  /** The output section of an input section. */
  function OutputOf(l: Layout, f: nat, s: nat): Option<nat>
  {
    if IsRecorded(l, f, s) then l.outputs[f][s - 1] else None
  }

  /** The recorded address of an input section. */
  function InputRva(l: Layout, f: nat, s: nat): nat
  {
    if IsRecorded(l, f, s) then l.rvas[f][s - 1] else 0
  }

  /** `n` bytes at `a` and `m` bytes at `b` share none. */
  predicate Apart(a: nat, n: nat, b: nat, m: nat)
  {
    a + n <= b || b + m <= a
  }

  predicate IsMultiple(x: int, m: int)
  {
    m > 0 && x % m == 0
  }

  // ---- Saturation never shows ----

  /** Where a section of an accepted layout lies. */
  lemma SectionLies(l: Layout, recipe: seq<Step>, trailing: seq<string>, input: Input, i: nat)
    requires i < |l.sections| && Accepted(l, recipe, trailing, input)
    ensures var s := SectionAt(l, i);
      && s.rva == RvaAt(l.sections, i, l.sizeOfHeaders, input.sectionAlignment)
      && 376 <= l.sizeOfHeaders <= s.rva && s.rva + s.virtualSize <= U32_MAX
      && Finished(s, recipe, input) && s.virtualSize > 0
      && l.sizeOfImage == EndRva(l.sections, l.sizeOfHeaders, input.sectionAlignment)
  {
    GivenRight(l.sections, recipe, trailing, input);
    hide Finished, RvaAt, FileAt, RawSize, Given, ImageOrdered, DroppedRight, RecordsRight;
    assert Fits(l.sections, i, l.sizeOfHeaders, input.fileAlignment, input.sectionAlignment);
    assert l.sections[i] == Addressed(l.sections, i, l.sizeOfHeaders, input.fileAlignment, input.sectionAlignment);
    HeadersFirst(l.sections, i, l.sizeOfHeaders, input.fileAlignment, input.sectionAlignment);
  }

  /** A name is that of one section only. */
  lemma SameSection(l: Layout, recipe: seq<Step>, trailing: seq<string>, input: Input, i: nat, j: nat)
    requires i < |l.sections| && j < |l.sections| && SectionAt(l, i).name == SectionAt(l, j).name
    requires Accepted(l, recipe, trailing, input)
    ensures i == j
  {
    GivenRight(l.sections, recipe, trailing, input);
    hide Given, AddressesRight, RecordsRight, ImageOrdered, DroppedRight, AllFinished, Names;
    NamedOnce(l.sections, i, j);
  }

  /** Chunks and marks of a section in order and in bounds. */
  ghost predicate InBounds(s: OutSection)
  {
    && s.virtualSize < U32_MAX
    && Packed(s.chunks, s.virtualSize)
    && StepsRise(s.chunks)
    && (forall k :: 0 <= k < |s.marks| ==> s.marks[k].offset <= s.virtualSize && Divides(s.marks[k], s.chunks))
  }

  /** No saturating addition reached its bound: the offsets are exact, and the chunks are in order and in bounds. */
  lemma NothingSaturated(l: Layout, recipe: seq<Step>, trailing: seq<string>, input: Input, i: nat)
    requires i < |l.sections| && Accepted(l, recipe, trailing, input)
    ensures InBounds(SectionAt(l, i))
  {
    hide Accepted, Finished, Divides, Packed, StepsRise;
    SectionLies(l, recipe, trailing, input, i);
    FinishedInputs(SectionAt(l, i), recipe, input);
  }

  /** Sections do not overlap in memory, nor the headers, nor leave the image. */
  lemma SectionsDisjoint(l: Layout, recipe: seq<Step>, trailing: seq<string>, input: Input, i: nat, j: nat)
    requires i < j < |l.sections| && Accepted(l, recipe, trailing, input)
    ensures var (s, t) := (SectionAt(l, i), SectionAt(l, j));
      l.sizeOfHeaders <= s.rva && s.rva + s.virtualSize <= t.rva && t.rva + t.virtualSize <= l.sizeOfImage
  {
    hide Accepted, Finished, RvaAt, AlignUp32;
    SectionLies(l, recipe, trailing, input, i);
    SectionLies(l, recipe, trailing, input, j);
    RvasRise(l.sections, i, j, l.sizeOfHeaders, input.sectionAlignment);
    RvasRise(l.sections, j, |l.sections|, l.sizeOfHeaders, input.sectionAlignment);
  }

  /** A chunk lies above the headers and below 4 GiB. */
  lemma ChunkInBounds(l: Layout, recipe: seq<Step>, trailing: seq<string>, input: Input, i: nat, c: nat)
    requires IsChunk(l, i, c) && Accepted(l, recipe, trailing, input)
    ensures 0 < l.sizeOfHeaders <= ChunkRva(l, i, c) && ChunkRva(l, i, c) + ChunkSize(l, i, c) <= U32_MAX
  {
    hide Accepted, Finished, RvaAt, Divides, StepsRise;
    SectionLies(l, recipe, trailing, input, i);
    NothingSaturated(l, recipe, trailing, input, i);
  }

  /** No two chunks of the image share a byte, whatever sections they are in. */
  lemma ChunksDisjoint(l: Layout, recipe: seq<Step>, trailing: seq<string>, input: Input, i: nat, c: nat, j: nat, d: nat)
    requires IsChunk(l, i, c) && IsChunk(l, j, d) && (i != j || c != d) && Accepted(l, recipe, trailing, input)
    ensures Apart(ChunkRva(l, i, c), ChunkSize(l, i, c), ChunkRva(l, j, d), ChunkSize(l, j, d))
    ensures 0 < l.sizeOfHeaders <= ChunkRva(l, i, c) && ChunkRva(l, i, c) + ChunkSize(l, i, c) <= U32_MAX
  {
    hide Accepted, Finished, RvaAt, Divides, StepsRise;
    SectionLies(l, recipe, trailing, input, i);
    SectionLies(l, recipe, trailing, input, j);
    NothingSaturated(l, recipe, trailing, input, i);
    NothingSaturated(l, recipe, trailing, input, j);
    if i < j {
      SectionsDisjoint(l, recipe, trailing, input, i, j);
    } else if j < i {
      SectionsDisjoint(l, recipe, trailing, input, j, i);
    }
  }

  /** Sections with contents have their own, aligned part of the file; the others have none. */
  lemma FilePartsDisjoint(l: Layout, recipe: seq<Step>, trailing: seq<string>, input: Input, i: nat, j: nat)
    requires i < j < |l.sections| && input.fileAlignment > 1 && Accepted(l, recipe, trailing, input)
    requires !SectionAt(l, i).IsBss() && !SectionAt(l, j).IsBss()
    ensures var (a, b) := (SectionAt(l, i), SectionAt(l, j));
      && l.sizeOfHeaders <= a.fileOffset && a.virtualSize <= a.rawSize
      && a.fileOffset + a.rawSize <= b.fileOffset && b.fileOffset + b.rawSize <= l.fileSize
      && IsMultiple(a.fileOffset, input.fileAlignment) && IsMultiple(a.rawSize, input.fileAlignment)
      && IsMultiple(b.fileOffset, input.fileAlignment) && b.fileOffset <= U32_MAX
  {
    hide Accepted, Finished, RvaAt, FileAt, RawSize, AlignUp32;
    var (n, h, m) := (|l.sections|, l.sizeOfHeaders, input.fileAlignment);
    AddressedAs(l, recipe, trailing, input, i);
    AddressedAs(l, recipe, trailing, input, j);
    HeadersFirst(l.sections, i, h, m, input.sectionAlignment);
    OffsetsRise(l.sections, i, j, h, m);
    OffsetsRise(l.sections, j, n, h, m);
    OffsetsAligned(l.sections, i, h, m);
    OffsetsAligned(l.sections, j, h, m);
    RawAligned(l.sections[i], m);
  }

  lemma AddressedAs(l: Layout, recipe: seq<Step>, trailing: seq<string>, input: Input, i: nat)
    requires i < |l.sections| && input.fileAlignment > 1 && Accepted(l, recipe, trailing, input)
    ensures var s := SectionAt(l, i);
      && IsMultiple(l.sizeOfHeaders, input.fileAlignment)
      && l.fileSize == EndOffset(l.sections, l.sizeOfHeaders, input.fileAlignment)
      && s.rawSize == RawSize(s, input.fileAlignment)
      && (if s.IsBss() then s.rawSize == 0 && s.fileOffset == 0
          else s.fileOffset == FileAt(l.sections, i, l.sizeOfHeaders, input.fileAlignment) <= U32_MAX && s.virtualSize <= s.rawSize <= U32_MAX)
  {
    hide Given, RecordsRight, RvaAt, FileAt;
    assert Fits(l.sections, i, l.sizeOfHeaders, input.fileAlignment, input.sectionAlignment);
    assert l.sections[i] == Addressed(l.sections, i, l.sizeOfHeaders, input.fileAlignment, input.sectionAlignment);
  }

  // ---- Every input section ----

  /** A live input section whose output survived is one chunk, whole, at the recorded address; any other was empty. */
  lemma InputPlaced(l: Layout, recipe: seq<Step>, trailing: seq<string>, input: Input, f: nat, s: nat, section: InSection) returns (i: nat, c: nat)
    requires SectionOf(input.files, f, s) == Some(section) && section.live && Accepted(l, recipe, trailing, input)
    ensures IsRecorded(l, f, s)
    ensures OutputOf(l, f, s).None? ==> section.size == 0 && BlockSize(input.blocks, (f, s)) == 0
    ensures OutputOf(l, f, s).Some? ==>
      && OutputOf(l, f, s) == Some(i) && SectionAt(l, i).name == Target(recipe, section.name)
      && IsWholeInput(l, i, c, f, s, section) && InputRva(l, f, s) == ChunkRva(l, i, c)
  {
    hide Accepted, Finished, BlockSize, FirstChunk, Target, OffsetOf;
    InputSlot(l, recipe, trailing, input, f, s, section);
    i, c := 0, 0;
    if OutputOf(l, f, s).Some? {
      i := OutputOf(l, f, s).value;
      SectionLies(l, recipe, trailing, input, i);
      c := InputHasChunk(l.sections[i], f, s, section, recipe, input);
      ChunkInBounds(l, recipe, trailing, input, i, c);
      FirstRva(l, i, c, f, s);
    }
  }

  /** The chunk is the whole input section. */
  predicate IsWholeInput(l: Layout, i: nat, c: nat, f: nat, s: nat, section: InSection)
  {
    IsChunk(l, i, c) && ChunkAt(l, i, c).piece == InputPiece(f, s) && ChunkSize(l, i, c) == section.size
  }

  lemma InputSlot(l: Layout, recipe: seq<Step>, trailing: seq<string>, input: Input, f: nat, s: nat, section: InSection)
    requires SectionOf(input.files, f, s) == Some(section) && section.live && Accepted(l, recipe, trailing, input)
    ensures IsRecorded(l, f, s)
    ensures OutputRight(l.sections, recipe, section, OutputOf(l, f, s), BlockSize(input.blocks, (f, s)))
    ensures InputRva(l, f, s) == RvaOf(l.sections, OutputOf(l, f, s), f, s)
  {
    hide Given, AddressesRight, OutputRight, RvaOf, BlockSize, MarkersRight, AllBlocksRecorded;
    assert FileRight(l.sections, recipe, f, input.files[f].sections.value, l.outputs[f], input.blocks);
    assert OutputRight(l.sections, recipe, input.files[f].sections.value[s - 1], l.outputs[f][s - 1], BlockSize(input.blocks, (f, s - 1 + 1)));
  }

  lemma FirstRva(l: Layout, i: nat, c: nat, f: nat, s: nat)
    requires IsChunk(l, i, c) && c == FirstChunk(l.sections[i].chunks, 0, f, s) && ChunkRva(l, i, c) <= U32_MAX
    ensures RvaOf(l.sections, Some(i), f, s) == ChunkRva(l, i, c)
  {
    hide FirstChunk;
    SmallMod(ChunkRva(l, i, c), U32);
  }

  /** The recorded address of a section with contents is that of the chunk that holds it. */
  lemma RecordedAt(l: Layout, recipe: seq<Step>, trailing: seq<string>, input: Input, i: nat, c: nat, f: nat, s: nat, section: InSection)
    requires IsChunk(l, i, c) && ChunkAt(l, i, c).piece == InputPiece(f, s)
    requires SectionOf(input.files, f, s) == Some(section) && section.live && section.size > 0
    requires Accepted(l, recipe, trailing, input)
    ensures InputRva(l, f, s) == ChunkRva(l, i, c)
  {
    var j, d := InputPlaced(l, recipe, trailing, input, f, s, section);
    GivenRight(l.sections, recipe, trailing, input);
    hide Accepted, SectionsRight, ImageOrdered, DroppedRight, InputRva, ChunkRva, Target, BlockSize;
    OneChunk(l.sections, recipe, input, i, c, j, d, f, s);
  }

  /** Different live sections with contents never share an address. */
  lemma InputsDisjoint(l: Layout, recipe: seq<Step>, trailing: seq<string>, input: Input, f: nat, s: nat, one: InSection, g: nat, t: nat, other: InSection)
    requires SectionOf(input.files, f, s) == Some(one) && one.live && one.size > 0
    requires SectionOf(input.files, g, t) == Some(other) && other.live && other.size > 0
    requires (f != g || s != t) && Accepted(l, recipe, trailing, input)
    ensures IsRecorded(l, f, s) && IsRecorded(l, g, t) && 0 < InputRva(l, f, s) && InputRva(l, f, s) + one.size <= U32_MAX
    ensures Apart(InputRva(l, f, s), one.size, InputRva(l, g, t), other.size)
  {
    hide Accepted;
    var i, c := InputPlaced(l, recipe, trailing, input, f, s, one);
    var j, d := InputPlaced(l, recipe, trailing, input, g, t, other);
    ChunksDisjoint(l, recipe, trailing, input, i, c, j, d);
  }

  // ---- Alignment ----

  /** Where the previous section ended. */
  function EndBefore(l: Layout, i: nat): nat
  {
    if i == 0 then l.sizeOfHeaders else SectionAt(l, i - 1).rva + SectionAt(l, i - 1).virtualSize
  }

  /** A section's RVA is aligned exactly when rounding up had room below 4 GiB, or was not needed. */
  lemma SectionAligned(l: Layout, recipe: seq<Step>, trailing: seq<string>, input: Input, i: nat)
    requires i < |l.sections| && input.sectionAlignment > 0 && Accepted(l, recipe, trailing, input)
    ensures IsMultiple(SectionAt(l, i).rva, input.sectionAlignment) <==>
      EndBefore(l, i) + (input.sectionAlignment - 1) <= U32_MAX || IsMultiple(EndBefore(l, i), input.sectionAlignment)
  {
    hide Accepted, Finished, AlignUp32;
    var m := input.sectionAlignment;
    SectionLies(l, recipe, trailing, input, i);
    if i > 0 { SectionLies(l, recipe, trailing, input, i - 1); }
    assert l.sections[i].rva == AlignUp32(EndBefore(l, i), m);
    AlignedExactly(EndBefore(l, i), m);
  }

  lemma AlignedExactly(value: nat, m: nat)
    requires m > 0
    ensures AlignUp32(value, m) % m == 0 <==> value + (m - 1) <= U32_MAX || value % m == 0
  {
    if m == 1 { assert value % 1 == 0; }
  }

  /**
    An input section's offset is a multiple of its alignment unless it starts
    within that alignment of 4 GiB; then its RVA is one exactly when the RVA of
    the output section is.
   */
  lemma InputAlignedExactly(l: Layout, recipe: seq<Step>, trailing: seq<string>, input: Input, i: nat, c: nat, f: nat, s: nat, section: InSection)
    requires IsChunk(l, i, c) && ChunkAt(l, i, c).piece == InputPiece(f, s)
    requires SectionOf(input.files, f, s) == Some(section) && section.align > 0 && Accepted(l, recipe, trailing, input)
    ensures IsMultiple(ChunkAt(l, i, c).offset, section.align) || ChunkAt(l, i, c).offset + section.align > U32
    ensures IsMultiple(ChunkAt(l, i, c).offset, section.align) ==>
      (IsMultiple(ChunkRva(l, i, c), section.align) <==> IsMultiple(SectionAt(l, i).rva, section.align))
  {
    hide Accepted, Finished, RvaAt, StepsRise, ThunksFollow, SitesDistinct, Inputs, Contributions, Ordered;
    SectionLies(l, recipe, trailing, input, i);
    FinishedInputs(l.sections[i], recipe, input);
    assert IsWhole(l.sections[i].chunks[c], input.files);
    var (rva, offset, align) := (l.sections[i].rva, l.sections[i].chunks[c].offset, section.align);
    if offset % align == 0 {
      ModAddMultiple(rva, offset / align, align);
      assert offset == offset / align * align;
    }
  }

  /** An input alignment that divides the section alignment is honoured wherever the section itself is aligned. */
  lemma InputAligned(l: Layout, recipe: seq<Step>, trailing: seq<string>, input: Input, i: nat, c: nat, f: nat, s: nat, section: InSection)
    requires IsChunk(l, i, c) && ChunkAt(l, i, c).piece == InputPiece(f, s)
    requires SectionOf(input.files, f, s) == Some(section) && section.align > 0
    requires IsMultiple(SectionAt(l, i).rva, input.sectionAlignment) && IsMultiple(input.sectionAlignment, section.align)
    requires Accepted(l, recipe, trailing, input)
    ensures IsMultiple(ChunkRva(l, i, c), section.align)
  {
    hide Accepted, Finished, RvaAt;
    var (rva, m, align) := (SectionAt(l, i).rva, input.sectionAlignment, section.align);
    InputAlignedExactly(l, recipe, trailing, input, i, c, f, s, section);
    SectionLies(l, recipe, trailing, input, i);
    ChunkInBounds(l, recipe, trailing, input, i, c);
    DividesThrough(rva, m, align);
    AtLeast(rva, align);
  }

  lemma AtLeast(x: nat, m: nat)
    requires x > 0 && m > 0 && x % m == 0
    ensures m <= x
  {
  }

  lemma DividesThrough(x: nat, m: nat, d: nat)
    requires m > 0 && d > 0 && x % m == 0 && m % d == 0
    ensures x % d == 0
  {
    var (q, r) := (x / m, m / d);
    assert x == q * m && m == r * d;
    assert q * (r * d) == (q * r) * d;
    ModAddMultiple(0, q * r, d);
  }

  // ---- Linker-named regions ----

  /** Between two marks of a section lie exactly the chunks of the steps from the first up to the second. */
  lemma Bracketed(l: Layout, recipe: seq<Step>, trailing: seq<string>, input: Input, i: nat, from: nat, to: nat, c: nat)
    requires IsChunk(l, i, c) && ChunkSize(l, i, c) > 0 && IsMark(l, i, from) && IsMark(l, i, to)
    requires Accepted(l, recipe, trailing, input)
    ensures var (a, chunk, b) := (MarkAt(l, i, from), ChunkAt(l, i, c), MarkAt(l, i, to));
      a.offset <= chunk.offset && chunk.offset + chunk.size <= b.offset <==> a.step <= chunk.step < b.step
  {
    NothingSaturated(l, recipe, trailing, input, i);
    hide Accepted, StepsRise;
    assert Divides(l.sections[i].marks[from], l.sections[i].chunks);
    assert Divides(l.sections[i].marks[to], l.sections[i].chunks);
  }
}
