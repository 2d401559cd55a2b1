/**
  The PE layout: inputs, the recipe of placement steps, and how one output
  section is drafted. Sizes and offsets are 32-bit and saturate, as in the
  source.
 */
module LayoutModel {
  import opened Bits
  import opened Bytes
  import opened Results
  import opened ThunkPlan

  // ---- The recipe ----

  datatype Sort = Unsorted | ByName | ByFile

  datatype Match = Exact(text: string) | Prefix(text: string)

  predicate Matches(pattern: Match, name: string)
  {
    match pattern
    case Exact(text) => name == text
    case Prefix(text) => text <= name
  }

  /** A position the linker names. */
  datatype Marker =
    | Etext | DataStart | DataEnd | PseudoStart | PseudoEnd | CtorHead | CtorTail | DtorHead | DtorTail
    | CrtXcStart | CrtXcEnd | CrtXiStart | CrtXiEnd | CrtXlStart | CrtXpStart | CrtXpEnd | CrtXtStart | CrtXtEnd
    | CrtXdStart | CrtXdEnd | IdataNull | IatStart | IatEnd | TlsStart | TlsEnd | SafeSehTable

  datatype Step =
    | Place(output: string, pattern: Match, sort: Sort)
    | Insert(output: string, marker: Marker)
    | Align(output: string, align: nat)
    | AlignWide(output: string, align: nat)

  // ---- Inputs ----

  datatype InSection = InSection(name: string, size: nat, align: nat, live: bool, code: bool, initialized: bool)

  /** An input file: the name it sorts by and, if it is a loaded object, its sections. */
  datatype InFile = InFile(sortName: string, sections: Option<seq<InSection>>)

  datatype Common = Common(size: nat, align: nat)

  /** A section the linker generates. */
  datatype Synthetic = Synthetic(name: string, size: nat, align: nat)

  datatype Input = Input(
    files: seq<InFile>,
    commons: seq<Common>,
    synthetic: seq<Synthetic>,
    pseudoSize: nat,
    blocks: Blocks,
    safeSehSize: nat,
    fileAlignment: nat,
    sectionAlignment: nat,
    pe32: bool)

  /** The input section with one-based number `section` of file `file`. */
  function SectionOf(files: seq<InFile>, file: nat, section: nat): Option<InSection>
  {
    if file < |files| && files[file].sections.Some? && 1 <= section <= |files[file].sections.value|
    then Some(files[file].sections.value[section - 1]) else None
  }

  predicate IsLive(files: seq<InFile>, file: nat, section: nat)
  {
    SectionOf(files, file, section).Some? && SectionOf(files, file, section).value.live
  }

  // ---- Rounding ----

  /** `align_up32`: up to a multiple of a power of two, or the value itself when that overflows. */
  function AlignUp32(value: nat, align: nat): (r: nat)
    ensures value <= r && (value <= U32_MAX ==> r <= U32_MAX)
  {
    if align <= 1 || value + (align - 1) > U32_MAX then value else RoundUp(value, align)
  }

  /** The least multiple of `align` from `value` on. */
  function RoundUp(value: nat, align: nat): (r: nat)
    requires 0 < align
    ensures value <= r < value + align && r % align == 0
  {
    RoundUpFacts(value, align);
    (value + (align - 1)) / align * align
  }

  lemma RoundUpFacts(value: nat, align: nat)
    requires 0 < align
    ensures var r := (value + (align - 1)) / align * align; value <= r < value + align && r % align == 0
  {
    var q := (value + (align - 1)) / align;
    assert value + (align - 1) == q * align + (value + (align - 1)) % align;
    ModAddMultiple(0, q, align);
    assert 0 + q * align == q * align;
  }

  /** `align_up64`, far from overflow. */
  function AlignUp64(value: nat, align: nat): (r: nat)
    ensures value <= r
  {
    if align <= 1 then value else RoundUp(value, align)
  }

  function AtLeast1(align: nat): (r: nat)
    ensures 1 <= r
  {
    if align == 0 then 1 else align
  }

  function SatAdd(a: nat, b: nat): (r: nat)
    ensures a <= U32_MAX ==> a <= r
    ensures r <= U32_MAX && (r < U32_MAX ==> r == a + b)
  {
    if a + b > U32_MAX then U32_MAX else a + b
  }

  /** Rounding either succeeds or starts within `align` of the end of the address space. */
  lemma AlignUp32Aligns(value: nat, align: nat)
    ensures 0 < align ==> AlignUp32(value, align) % align == 0 || AlignUp32(value, align) + align > U32
  {
    if align == 1 { assert value % 1 == 0; }
  }

  // ---- Chunks ----

  datatype Piece =
    | InputPiece(file: nat, section: nat)
    | Fill(bytes: seq<Byte>)
    | Zero
    | ThunkPiece(file: nat, section: nat)

  /** A placed piece of an output section. `step` is the recipe step that placed it, which the image does not hold. */
  datatype Chunk = Chunk(offset: nat, size: nat, piece: Piece, step: nat)

  /** The offset at which a recipe step that places nothing itself fell. */
  datatype Mark = Mark(step: nat, offset: nat)

  /** Contributions without a recipe step, and what follows them. */
  const NO_STEP: nat := U32_MAX

  /** A live input section of an output: the step that takes it, or none, and the sort mode of that step. */
  datatype Placed = Placed(step: nat, sort: Sort, file: nat, section: nat)

  /** The chunks are in order, do not overlap and end by `end`. */
  predicate Packed(chunks: seq<Chunk>, end: nat)
  {
    && (forall i :: 0 <= i < |chunks| ==> chunks[i].offset + chunks[i].size <= end)
    && (forall i, j :: 0 <= i < j < |chunks| ==> chunks[i].offset + chunks[i].size <= chunks[j].offset)
  }

  /** The input sections among the chunks, in order, each with the step that placed it. */
  function Inputs(chunks: seq<Chunk>): seq<(nat, nat, nat)>
    decreases |chunks|
  {
    if chunks == [] then []
    else
      var last := chunks[|chunks| - 1];
      Inputs(chunks[..|chunks| - 1]) + Placement(last)
  }

  function Placement(c: Chunk): seq<(nat, nat, nat)>
  {
    if c.piece.InputPiece? then [(c.step, c.piece.file, c.piece.section)] else []
  }

  function Placements(list: seq<Placed>): (r: seq<(nat, nat, nat)>)
    ensures |r| == |list|
  {
    seq(|list|, i requires 0 <= i < |list| => (list[i].step, list[i].file, list[i].section))
  }

  /** The zero chunks, in order. */
  function ZeroChunks(chunks: seq<Chunk>): seq<Chunk>
    decreases |chunks|
  {
    if chunks == [] then []
    else
      var last := chunks[|chunks| - 1];
      ZeroChunks(chunks[..|chunks| - 1]) + (if last.piece.Zero? then [last] else [])
  }

  // ---- Drafting one output section ----

  /** An output section as it is filled: its chunks, the offset reached, the markers and alignments passed. */
  datatype Draft = Draft(chunks: seq<Chunk>, offset: nat, marks: seq<Mark>)

  function Push(d: Draft, at: nat, size: nat, piece: Piece, step: nat): Draft
  {
    Draft(d.chunks + [Chunk(at, size, piece, step)], SatAdd(at, size), d.marks)
  }

  /** `push_input`: the section, aligned, and its thunk block right after it. */
  function PushInput(d: Draft, section: InSection, placed: Placed, blocks: Blocks): Draft
  {
    var d1 := Push(d, AlignUp32(d.offset, AtLeast1(section.align)), section.size, InputPiece(placed.file, placed.section), placed.step);
    var thunks := BlockSize(blocks, (placed.file, placed.section));
    if thunks == 0 then d1
    else Push(d1, AlignUp32(d1.offset, 4), thunks, ThunkPiece(placed.file, placed.section), placed.step)
  }

  /** `marker_bytes`, for pointers of `pointer` bytes. */
  function MarkerBytes(marker: Marker, pointer: nat): seq<Byte>
  {
    match marker
    case CtorHead => seq(pointer, _ => 0xff)
    case DtorHead => seq(pointer, _ => 0xff)
    case CtorTail => seq(pointer, _ => 0)
    case DtorTail => seq(pointer, _ => 0)
    case IdataNull => seq(20, _ => 0)
    case _ => []
  }

  /** The bytes the linker reserves after a marker. */
  function Reserved(marker: Marker, input: Input): nat
  {
    match marker
    case PseudoStart => input.pseudoSize
    case SafeSehTable => input.safeSehSize
    case _ => 0
  }

  /** An alignment step. */
  function PushAlign(d: Draft, align: nat, step: nat): Draft
  {
    var at := AlignUp32(d.offset, align);
    Draft(d.chunks, at, d.marks + [Mark(step, at)])
  }

  /** A marker, its bytes if any, and what is reserved there. */
  function PushMarker(d: Draft, bytes: seq<Byte>, reserved: nat, step: nat): Draft
  {
    var d0 := d.(marks := d.marks + [Mark(step, d.offset)]);
    var d1 := if bytes == [] then d0 else Push(d0, d0.offset, |bytes|, Fill(bytes), step);
    if reserved == 0 then d1 else Push(d1, d1.offset, reserved, Zero, step)
  }

  // ---- What a draft keeps ----

  /** Everything of earlier steps lies before the mark, the rest after. */
  predicate Divides(mark: Mark, chunks: seq<Chunk>)
  {
    forall i :: 0 <= i < |chunks| ==>
      if chunks[i].step < mark.step then chunks[i].offset + chunks[i].size <= mark.offset else mark.offset <= chunks[i].offset
  }

  predicate StepsBy(d: Draft, step: nat)
  {
    && (forall i :: 0 <= i < |d.chunks| ==> d.chunks[i].step <= step)
    && (forall k :: 0 <= k < |d.marks| ==> d.marks[k].step <= step)
  }

  /** Steps do not decrease along the chunks. */
  predicate StepsRise(chunks: seq<Chunk>)
  {
    forall i, j :: 0 <= i < j < |chunks| ==> chunks[i].step <= chunks[j].step
  }

  /** Chunks and marks are in order, unless the offset saturated. */
  predicate Ordered(d: Draft)
  {
    && d.offset <= U32_MAX
    && (d.offset < U32_MAX ==>
          && Packed(d.chunks, d.offset)
          && (forall k :: 0 <= k < |d.marks| ==> d.marks[k].offset <= d.offset && Divides(d.marks[k], d.chunks)))
  }

  /** A thunk block: of its section's size, 4-aligned unless at the end of the address space. */
  predicate IsBlock(c: Chunk, blocks: Blocks)
  {
    && c.piece.ThunkPiece?
    && c.size == BlockSize(blocks, (c.piece.file, c.piece.section)) > 0
    && (c.offset % 4 == 0 || c.offset + 4 > U32)
  }

  /** Each thunk block is right after its section, and each section with a plan has its block. */
  predicate ThunksFollow(chunks: seq<Chunk>, blocks: Blocks)
  {
    && (forall i :: 0 <= i < |chunks| && chunks[i].piece.ThunkPiece? ==>
          && i > 0
          && chunks[i - 1].piece == InputPiece(chunks[i].piece.file, chunks[i].piece.section)
          && IsBlock(chunks[i], blocks))
    && (forall i :: 0 <= i < |chunks| && NeedsBlock(chunks[i], blocks) ==>
          i + 1 < |chunks| && chunks[i + 1].piece == ThunkPiece(chunks[i].piece.file, chunks[i].piece.section))
  }

  predicate NeedsBlock(c: Chunk, blocks: Blocks)
  {
    c.piece.InputPiece? && BlockSize(blocks, (c.piece.file, c.piece.section)) > 0
  }

  /** An input chunk is a whole input section, aligned unless at the end of the address space. */
  predicate IsWhole(c: Chunk, files: seq<InFile>)
  {
    c.piece.InputPiece? ==>
      && SectionOf(files, c.piece.file, c.piece.section).Some?
      && var section := SectionOf(files, c.piece.file, c.piece.section).value;
         && c.size == section.size
         && (section.align > 0 ==> c.offset % section.align == 0 || c.offset + section.align > U32)
  }

  predicate InputsWhole(chunks: seq<Chunk>, files: seq<InFile>)
  {
    forall i :: 0 <= i < |chunks| ==> IsWhole(chunks[i], files)
  }

  /** The invariant of a draft. */
  ghost predicate Sound(d: Draft, input: Input)
  {
    && Ordered(d)
    && StepsRise(d.chunks)
    && ThunksFollow(d.chunks, input.blocks)
    && InputsWhole(d.chunks, input.files)
  }

  lemma PushOrdered(d: Draft, at: nat, size: nat, piece: Piece, step: nat)
    requires Ordered(d) && StepsBy(d, step) && d.offset <= at <= U32_MAX
    ensures var d' := Push(d, at, size, piece, step);
      Ordered(d') && StepsBy(d', step) && d.offset <= d'.offset
  {
    var d' := Push(d, at, size, piece, step);
    if d'.offset < U32_MAX {
      forall k | 0 <= k < |d'.marks|
        ensures d'.marks[k].offset <= d'.offset && Divides(d'.marks[k], d'.chunks)
      {
        assert Divides(d.marks[k], d.chunks);
      }
    }
  }

  lemma PushRise(d: Draft, at: nat, size: nat, piece: Piece, step: nat)
    requires StepsRise(d.chunks) && StepsBy(d, step)
    ensures StepsRise(Push(d, at, size, piece, step).chunks)
  {
  }

  lemma FollowOther(chunks: seq<Chunk>, c: Chunk, blocks: Blocks)
    requires ThunksFollow(chunks, blocks) && !c.piece.ThunkPiece? && !NeedsBlock(c, blocks)
    ensures ThunksFollow(chunks + [c], blocks)
  {
    hide BlockSize, IsBlock;
  }

  lemma FollowBlock(chunks: seq<Chunk>, c: Chunk, t: Chunk, blocks: Blocks)
    requires ThunksFollow(chunks, blocks)
    requires c.piece.InputPiece? && t.piece == ThunkPiece(c.piece.file, c.piece.section) && IsBlock(t, blocks)
    ensures ThunksFollow(chunks + [c] + [t], blocks)
  {
    hide BlockSize, IsBlock;
  }

  lemma PushSound(d: Draft, at: nat, size: nat, piece: Piece, step: nat, input: Input)
    requires Sound(d, input) && StepsBy(d, step) && d.offset <= at <= U32_MAX
    requires piece.Fill? || piece.Zero?
    ensures var d' := Push(d, at, size, piece, step);
      Sound(d', input) && StepsBy(d', step) && d.offset <= d'.offset
  {
    PushOrdered(d, at, size, piece, step);
    PushRise(d, at, size, piece, step);
    FollowOther(d.chunks, Chunk(at, size, piece, step), input.blocks);
  }

  /** The input section itself: all but its block. */
  lemma PushSectionSound(d: Draft, at: nat, section: InSection, placed: Placed, input: Input)
    requires Sound(d, input) && StepsBy(d, placed.step)
    requires SectionOf(input.files, placed.file, placed.section) == Some(section)
    requires at == AlignUp32(d.offset, AtLeast1(section.align))
    ensures var d' := Push(d, at, section.size, InputPiece(placed.file, placed.section), placed.step);
      && Ordered(d') && StepsRise(d'.chunks) && InputsWhole(d'.chunks, input.files)
      && StepsBy(d', placed.step) && d.offset <= d'.offset
  {
    AlignUp32Aligns(d.offset, AtLeast1(section.align));
    var piece := InputPiece(placed.file, placed.section);
    PushOrdered(d, at, section.size, piece, placed.step);
    PushRise(d, at, section.size, piece, placed.step);
    assert IsWhole(Chunk(at, section.size, piece, placed.step), input.files);
  }

  /** An input section and its block are pushed together, so that the block follows it at once. */
  lemma PushInputSound(d: Draft, section: InSection, placed: Placed, input: Input)
    requires Sound(d, input) && StepsBy(d, placed.step)
    requires SectionOf(input.files, placed.file, placed.section) == Some(section)
    ensures var d' := PushInput(d, section, placed, input.blocks);
      Sound(d', input) && StepsBy(d', placed.step) && d.offset <= d'.offset && d'.marks == d.marks
  {
    hide Ordered, StepsRise, ThunksFollow, InputsWhole, IsWhole, StepsBy, BlockSize, AlignUp32;
    var at := AlignUp32(d.offset, AtLeast1(section.align));
    var piece := InputPiece(placed.file, placed.section);
    var d1 := Push(d, at, section.size, piece, placed.step);
    PushSectionSound(d, at, section, placed, input);
    var thunks := BlockSize(input.blocks, (placed.file, placed.section));
    var c := Chunk(at, section.size, piece, placed.step);
    if thunks == 0 {
      FollowOther(d.chunks, c, input.blocks);
    } else {
      var at2 := AlignUp32(d1.offset, 4);
      AlignUp32Aligns(d1.offset, 4);
      var piece2 := ThunkPiece(placed.file, placed.section);
      var t := Chunk(at2, thunks, piece2, placed.step);
      PushOrdered(d1, at2, thunks, piece2, placed.step);
      PushRise(d1, at2, thunks, piece2, placed.step);
      FollowBlock(d.chunks, c, t, input.blocks);
      WholePush(d1.chunks, t, input.files);
    }
  }

  lemma WholePush(chunks: seq<Chunk>, c: Chunk, files: seq<InFile>)
    requires InputsWhole(chunks, files) && IsWhole(c, files)
    ensures InputsWhole(chunks + [c], files)
  {
  }

  lemma PushAlignSound(d: Draft, align: nat, step: nat, input: Input)
    requires Sound(d, input) && StepsBy(d, step)
    requires forall i :: 0 <= i < |d.chunks| ==> d.chunks[i].step < step
    ensures var d' := PushAlign(d, align, step);
      Sound(d', input) && StepsBy(d', step) && d.offset <= d'.offset
  {
    hide ThunksFollow, InputsWhole, StepsRise;
  }

  lemma PushMarkerSound(d: Draft, bytes: seq<Byte>, reserved: nat, step: nat, input: Input)
    requires Sound(d, input) && StepsBy(d, step)
    requires forall i :: 0 <= i < |d.chunks| ==> d.chunks[i].step < step
    ensures var d' := PushMarker(d, bytes, reserved, step);
      && Sound(d', input) && StepsBy(d', step) && d.offset <= d'.offset
      && d'.marks == d.marks + [Mark(step, d.offset)]
  {
    var d0 := d.(marks := d.marks + [Mark(step, d.offset)]);
    assert d.offset <= U32_MAX;
    hide Sound, StepsBy;
    var d1 := if bytes == [] then d0 else Push(d0, d0.offset, |bytes|, Fill(bytes), step);
    if bytes != [] { PushSound(d0, d0.offset, |bytes|, Fill(bytes), step, input); }
    if reserved != 0 { PushSound(d1, d1.offset, reserved, Zero, step, input); }
  }

  // ---- Which inputs the chunks hold ----

  lemma InputsPush(chunks: seq<Chunk>, c: Chunk)
    ensures Inputs(chunks + [c]) == Inputs(chunks) + Placement(c)
    ensures ZeroChunks(chunks + [c]) == ZeroChunks(chunks) + (if c.piece.Zero? then [c] else [])
  {
    assert (chunks + [c])[..|chunks|] == chunks;
  }

  lemma PushInputPairs(d: Draft, section: InSection, placed: Placed, blocks: Blocks)
    ensures Inputs(PushInput(d, section, placed, blocks).chunks) == Inputs(d.chunks) + [(placed.step, placed.file, placed.section)]
    ensures ZeroChunks(PushInput(d, section, placed, blocks).chunks) == ZeroChunks(d.chunks)
  {
    var at := AlignUp32(d.offset, AtLeast1(section.align));
    var c := Chunk(at, section.size, InputPiece(placed.file, placed.section), placed.step);
    var d1 := Push(d, at, section.size, c.piece, placed.step);
    InputsPush(d.chunks, c);
    var thunks := BlockSize(blocks, (placed.file, placed.section));
    InputsPush(d1.chunks, Chunk(AlignUp32(d1.offset, 4), thunks, ThunkPiece(placed.file, placed.section), placed.step));
  }

  lemma PushMarkerPairs(d: Draft, bytes: seq<Byte>, reserved: nat, step: nat)
    ensures Inputs(PushMarker(d, bytes, reserved, step).chunks) == Inputs(d.chunks)
  {
    var d0 := d.(marks := d.marks + [Mark(step, d.offset)]);
    var d1 := if bytes == [] then d0 else Push(d0, d0.offset, |bytes|, Fill(bytes), step);
    InputsPush(d0.chunks, Chunk(d0.offset, |bytes|, Fill(bytes), step));
    InputsPush(d1.chunks, Chunk(d1.offset, reserved, Zero, step));
  }
}
