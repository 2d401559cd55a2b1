/** How close the chunks of an output section are placed. */
module LayoutTight {
  import opened Bits
  import opened Bytes
  import opened Results
  import opened ThunkPlan
  import opened LayoutModel
  import opened LayoutPlace
  import opened LayoutBuild
  import opened LayoutFinish
  import opened LayoutAddress
  import opened LayoutPlan
  import opened LayoutTheorems

  function Max(a: nat, b: nat): nat
  {
    if a < b then b else a
  }

  /** Where the chunks so far end. */
  function EndOf(chunks: seq<Chunk>): nat
  {
    if chunks == [] then 0 else SatAdd(chunks[|chunks| - 1].offset, chunks[|chunks| - 1].size)
  }

  /** The last mark of a step before `t`, or the start. */
  function MarkBefore(marks: seq<Mark>, t: nat): nat
    decreases |marks|
  {
    if marks == [] then 0
    else if marks[|marks| - 1].step < t then marks[|marks| - 1].offset
    else MarkBefore(marks[..|marks| - 1], t)
  }

  function LastMark(marks: seq<Mark>): nat
  {
    if marks == [] then 0 else marks[|marks| - 1].offset
  }

  /** The place chunk `c` could start at: the end of the chunk before it, and the last mark or alignment of an earlier step. */
  function Floor(chunks: seq<Chunk>, marks: seq<Mark>, c: nat): nat
    requires c < |chunks|
  {
    Max(EndOf(chunks[..c]), MarkBefore(marks, chunks[c].step))
  }

  /** The alignment of what a chunk holds, if it is of an input. */
  function AlignOf(files: seq<InFile>, piece: Piece): nat
  {
    match piece
    case InputPiece(f, s) => if SectionOf(files, f, s).Some? then AtLeast1(SectionOf(files, f, s).value.align) else 1
    case _ => 4
  }

  predicate OfInput(piece: Piece)
  {
    piece.InputPiece? || piece.ThunkPiece?
  }

  /** Sections and thunk blocks are as low as their alignment lets them. */
  predicate Snug(chunks: seq<Chunk>, marks: seq<Mark>, files: seq<InFile>)
  {
    forall c :: 0 <= c < |chunks| && OfInput(chunks[c].piece) ==>
      chunks[c].offset == AlignUp32(Floor(chunks, marks, c), AlignOf(files, chunks[c].piece))
  }

  /** The offset reached is the end of what is there. */
  predicate AtTop(d: Draft)
  {
    d.offset == Max(EndOf(d.chunks), LastMark(d.marks)) && d.offset <= U32_MAX
  }

  predicate Tight(d: Draft, files: seq<InFile>)
  {
    Snug(d.chunks, d.marks, files) && AtTop(d)
  }

  predicate MarksBelow(marks: seq<Mark>, t: nat)
  {
    forall k :: 0 <= k < |marks| ==> marks[k].step < t
  }

  lemma BelowLastMark(marks: seq<Mark>, t: nat)
    requires MarksBelow(marks, t)
    ensures MarkBefore(marks, t) == LastMark(marks)
  {
  }

  lemma PushTop(d: Draft, at: nat, size: nat, piece: Piece, step: nat)
    requires AtTop(d) && d.offset <= at <= U32_MAX
    ensures AtTop(Push(d, at, size, piece, step)) && Push(d, at, size, piece, step).marks == d.marks
  {
  }

  lemma PushSnug(d: Draft, at: nat, size: nat, piece: Piece, step: nat, files: seq<InFile>)
    requires Tight(d, files) && (OfInput(piece) ==> MarksBelow(d.marks, step) && at == AlignUp32(d.offset, AlignOf(files, piece)))
    ensures Snug(Push(d, at, size, piece, step).chunks, d.marks, files)
  {
    var chunks := Push(d, at, size, piece, step).chunks;
    assert forall c :: 0 <= c < |d.chunks| ==> chunks[..c] == d.chunks[..c];
    assert chunks[..|d.chunks|] == d.chunks;
    if OfInput(piece) { BelowLastMark(d.marks, step); }
    hide MarkBefore, AlignUp32, AlignOf, EndOf;
  }

  lemma PushTight(d: Draft, at: nat, size: nat, piece: Piece, step: nat, files: seq<InFile>)
    requires Tight(d, files) && d.offset <= at <= U32_MAX
    requires OfInput(piece) ==> MarksBelow(d.marks, step) && at == AlignUp32(d.offset, AlignOf(files, piece))
    ensures Tight(Push(d, at, size, piece, step), files) && Push(d, at, size, piece, step).marks == d.marks
  {
    hide Snug, AtTop, MarksBelow, AlignUp32, AlignOf;
    TopSmall(d, files);
    PushSnug(d, at, size, piece, step, files);
    PushTop(d, at, size, piece, step);
  }

  lemma TopSmall(d: Draft, files: seq<InFile>)
    requires Tight(d, files)
    ensures AtTop(d) && d.offset <= U32_MAX
  {
    hide Snug;
  }

  lemma PushInputTight(d: Draft, section: InSection, placed: Placed, input: Input)
    requires SectionOf(input.files, placed.file, placed.section) == Some(section)
    requires Tight(d, input.files) && MarksBelow(d.marks, placed.step)
    ensures Tight(PushInput(d, section, placed, input.blocks), input.files) && PushInput(d, section, placed, input.blocks).marks == d.marks
  {
    hide Tight, MarksBelow, BlockSize, Push, AlignUp32;
    TopSmall(d, input.files);
    var (at, piece) := (AlignUp32(d.offset, AtLeast1(section.align)), InputPiece(placed.file, placed.section));
    PushTight(d, at, section.size, piece, placed.step, input.files);
    var d1 := Push(d, at, section.size, piece, placed.step);
    TopSmall(d1, input.files);
    var thunks := BlockSize(input.blocks, (placed.file, placed.section));
    PushTight(d1, AlignUp32(d1.offset, 4), thunks, ThunkPiece(placed.file, placed.section), placed.step, input.files);
  }

  lemma {:induction false} PushAllTight(d: Draft, list: seq<Placed>, step: nat, input: Input)
    requires Tight(d, input.files) && MarksBelow(d.marks, step) && forall i :: 0 <= i < |list| ==> list[i].step == step
    ensures Tight(PushAll(d, list, input), input.files) && PushAll(d, list, input).marks == d.marks
    decreases |list|
  {
    hide Tight, MarksBelow, PushInput, SectionOf;
    if list != [] {
      var (init, last) := (list[..|list| - 1], list[|list| - 1]);
      PushAllTight(d, init, step, input);
      var section := SectionOf(input.files, last.file, last.section);
      if section.Some? { PushInputTight(PushAll(d, init, input), section.value, last, input); }
    }
  }

  /** A mark at the top, or above it, of a step after all chunks. */
  lemma MarkTight(d: Draft, mark: Mark, files: seq<InFile>)
    requires Tight(d, files) && d.offset <= mark.offset <= U32_MAX && forall c :: 0 <= c < |d.chunks| ==> d.chunks[c].step <= mark.step
    ensures Tight(Draft(d.chunks, mark.offset, d.marks + [mark]), files)
  {
    var marks := d.marks + [mark];
    assert marks[..|d.marks|] == d.marks;
    forall c | 0 <= c < |d.chunks|
      ensures Floor(d.chunks, marks, c) == Floor(d.chunks, d.marks, c)
    {
      assert MarkBefore(marks, d.chunks[c].step) == MarkBefore(d.marks, d.chunks[c].step);
    }
    hide Floor, AlignUp32, AlignOf;
  }

  lemma AlignTight(d: Draft, align: nat, step: nat, files: seq<InFile>)
    requires Tight(d, files) && forall c :: 0 <= c < |d.chunks| ==> d.chunks[c].step <= step
    ensures Tight(PushAlign(d, align, step), files)
  {
    hide Tight;
    TopSmall(d, files);
    MarkTight(d, Mark(step, AlignUp32(d.offset, align)), files);
  }

  lemma MarkerTight(d: Draft, bytes: seq<Byte>, reserved: nat, step: nat, files: seq<InFile>)
    requires Tight(d, files) && forall c :: 0 <= c < |d.chunks| ==> d.chunks[c].step <= step
    ensures Tight(PushMarker(d, bytes, reserved, step), files)
  {
    hide Tight, Push;
    TopSmall(d, files);
    MarkTight(d, Mark(step, d.offset), files);
    var d0 := d.(marks := d.marks + [Mark(step, d.offset)]);
    assert d0 == Draft(d.chunks, d.offset, d.marks + [Mark(step, d.offset)]);
    TopSmall(d0, files);
    var d1 := if bytes == [] then d0 else Push(d0, d0.offset, |bytes|, Fill(bytes), step);
    PushTight(d0, d0.offset, |bytes|, Fill(bytes), step, files);
    TopSmall(d1, files);
    PushTight(d1, d1.offset, reserved, Zero, step, files);
  }

  lemma {:induction false} ZerosTight(d: Draft, zeros: seq<Common>, files: seq<InFile>)
    requires Tight(d, files)
    ensures Tight(PushZeros(d, zeros), files)
    decreases |zeros|
  {
    hide Tight, Push, AlignUp32;
    if zeros != [] {
      ZerosTight(d, zeros[..|zeros| - 1], files);
      var (rest, last) := (PushZeros(d, zeros[..|zeros| - 1]), zeros[|zeros| - 1]);
      TopSmall(rest, files);
      PushTight(rest, AlignUp32(rest.offset, AtLeast1(last.align)), last.size, Zero, NO_STEP, files);
    }
  }

  // ---- Whole sections ----

  lemma StepTight(d: Draft, recipe: seq<Step>, k: nat, name: string, list: seq<Placed>, input: Input)
    requires Tight(d, input.files) && StepsBelow(d, k) && ListFits(list, recipe, input.files)
    ensures Tight(OneStep(d, recipe, k, name, list, input), input.files)
  {
    StepFits(list, recipe, input.files, k);
    assert MarksBelow(d.marks, k);
    hide Tight, PushAlign, PushMarker, MarkerBytes, Reserved, OfStep, AlignmentAt, ListFits, PushAll;
    if InsertsAt(recipe, k, name) {
      MarkerTight(d, MarkerBytes(recipe[k].marker, Pointer(input)), Reserved(recipe[k].marker, input), k, input.files);
    } else if AlignmentAt(recipe, k, name, !input.pe32).Some? {
      AlignTight(d, AlignmentAt(recipe, k, name, !input.pe32).value, k, input.files);
    } else {
      PushAllTight(d, OfStep(list, k), k, input);
    }
  }

  lemma {:induction false} StepsTight(recipe: seq<Step>, k: nat, name: string, list: seq<Placed>, input: Input)
    requires k <= |recipe| && ListFits(list, recipe, input.files)
    ensures Tight(StepDraft(recipe, k, name, list, input), input.files)
  {
    hide *;
    StepDraftIs(recipe, k, name, list, input);
    if k == 0 {
      EmptyTight(input.files);
    } else {
      StepsTight(recipe, k - 1, name, list, input);
      StepDraftKeeps(recipe, k - 1, name, list, input);
      SteppedBelow(StepDraft(recipe, k - 1, name, list, input), recipe, k - 1, name, list, input);
      StepTight(StepDraft(recipe, k - 1, name, list, input), recipe, k - 1, name, list, input);
    }
  }

  lemma EmptyTight(files: seq<InFile>)
    ensures Tight(Draft([], 0, []), files)
  {
  }

  lemma SteppedBelow(d: Draft, recipe: seq<Step>, k: nat, name: string, list: seq<Placed>, input: Input)
    requires Stepped(d, recipe, k, name, list, input)
    ensures StepsBelow(d, k)
  {
    hide After, StepsBelow, Inputs, Placements, ZeroChunks, OffsetAligned;
  }

  lemma FinalTight(recipe: seq<Step>, name: string, align: nat, list: seq<Placed>, pending: seq<nat>, input: Input)
    requires ListFits(list, recipe, input.files)
    ensures Tight(FinalDraft(recipe, name, align, list, pending, input), input.files)
  {
    var d0 := StepDraft(recipe, |recipe|, name, list, input);
    StepsTight(recipe, |recipe|, name, list, input);
    StepDraftKeeps(recipe, |recipe|, name, list, input);
    StepFits(list, recipe, input.files, NO_STEP);
    assert |recipe| < NO_STEP;
    hide Tight, PushAll, PushZeros, OfStep, CommonsOf, WithAlign, StepDraft, ListFits, Stepped;
    SteppedBelow(d0, recipe, |recipe|, name, list, input);
    assert MarksBelow(d0.marks, NO_STEP);
    PushAllTight(d0, OfStep(list, NO_STEP), NO_STEP, input);
    var d1 := PushAll(d0, OfStep(list, NO_STEP), input);
    ZerosTight(d1, CommonsOf(name, input), input.files);
    ZerosTight(PushZeros(d1, CommonsOf(name, input)), WithAlign(pending, AtLeast1(align)), input.files);
  }

  lemma FinishedTight(out: OutSection, recipe: seq<Step>, input: Input)
    requires Finished(out, recipe, input)
    ensures Tight(DraftOf(out), input.files)
  {
    var (align, list, pending) := (AlignBefore(recipe, input, out.name), Contributions(recipe, input.files, out.name), PendingOf(input, out.name));
    ShortRecipe(out, recipe, input);
    FinishedDraft(out, recipe, input);
    hide *;
    ContributionsFit(recipe, input.files, out.name);
    FinalTight(recipe, out.name, align, list, pending, input);
  }

  lemma FinishedDraft(out: OutSection, recipe: seq<Step>, input: Input)
    requires Finished(out, recipe, input)
    ensures DraftOf(out) == FinalDraft(recipe, out.name, AlignBefore(recipe, input, out.name), Contributions(recipe, input.files, out.name),
                                       PendingOf(input, out.name), input)
  {
    hide FinalDraft, AlignBefore, Contributions, PendingOf, Highest, FlagsAfter, FromFiles, CommonsOf;
  }

  // ---- In an accepted layout ----

  /** Where the chunk before ends, and the last mark or alignment of an earlier step, whichever is higher. */
  function FloorAt(l: Layout, i: nat, c: nat): nat
  {
    if !IsChunk(l, i, c) then 0
    else
      var before := if c == 0 then 0 else ChunkAt(l, i, c - 1).offset + ChunkAt(l, i, c - 1).size;
      Max(before, MarkBefore(SectionAt(l, i).marks, ChunkAt(l, i, c).step))
  }

  /**
    No input section and no thunk block leaves room before it that its alignment
    does not ask for: it starts less than one alignment after what comes before,
    and where the address is a multiple already, or the next is past 4 GiB, right there.
   */
  lemma NoGaps(l: Layout, recipe: seq<Step>, trailing: seq<string>, input: Input, i: nat, c: nat)
    requires IsChunk(l, i, c) && OfInput(ChunkAt(l, i, c).piece) && Accepted(l, recipe, trailing, input)
    ensures var (floor, offset, align) := (FloorAt(l, i, c), ChunkAt(l, i, c).offset, AlignOf(input.files, ChunkAt(l, i, c).piece));
      floor <= offset < floor + align && (IsMultiple(floor, align) ==> offset == floor)
  {
    hide Accepted, Finished, InBounds, MarkBefore;
    SectionLies(l, recipe, trailing, input, i);
    NothingSaturated(l, recipe, trailing, input, i);
    FinishedTight(SectionAt(l, i), recipe, input);
    SnugAt(l, input, i, c);
  }

  lemma SnugAt(l: Layout, input: Input, i: nat, c: nat)
    requires IsChunk(l, i, c) && OfInput(ChunkAt(l, i, c).piece) && Tight(DraftOf(SectionAt(l, i)), input.files) && InBounds(SectionAt(l, i))
    ensures var (floor, offset, align) := (FloorAt(l, i, c), ChunkAt(l, i, c).offset, AlignOf(input.files, ChunkAt(l, i, c).piece));
      floor <= offset < floor + align && (IsMultiple(floor, align) ==> offset == floor)
  {
    var (chunks, marks) := (SectionAt(l, i).chunks, SectionAt(l, i).marks);
    hide MarkBefore, StepsRise, Divides;
    assert chunks[..c] != [] ==> chunks[..c][|chunks[..c]| - 1] == chunks[c - 1];
    assert Floor(chunks, marks, c) == FloorAt(l, i, c);
    UpTight(FloorAt(l, i, c), AlignOf(input.files, chunks[c].piece));
  }

  lemma UpTight(value: nat, align: nat)
    requires align > 0
    ensures value <= AlignUp32(value, align) < value + align
    ensures value % align == 0 ==> AlignUp32(value, align) == value
  {
    if value % align == 0 { RoundSame(value, align); }
    hide RoundUp;
  }

  lemma RoundSame(value: nat, align: nat)
    requires align > 0 && value % align == 0
    ensures RoundUp(value, align) == value
  {
    var q := value / align;
    DivModUnique(value + (align - 1), q, align - 1, align);
  }

  /** And a section ends where its last chunk does, or at its last mark. */
  lemma EndsAtTop(l: Layout, recipe: seq<Step>, trailing: seq<string>, input: Input, i: nat)
    requires i < |l.sections| && Accepted(l, recipe, trailing, input)
    ensures var s := SectionAt(l, i);
      s.virtualSize == Max(if s.chunks == [] then 0 else s.chunks[|s.chunks| - 1].offset + s.chunks[|s.chunks| - 1].size, LastMark(s.marks))
  {
    hide Accepted, Finished, Snug, StepsRise, Divides;
    SectionLies(l, recipe, trailing, input, i);
    NothingSaturated(l, recipe, trailing, input, i);
    FinishedTight(SectionAt(l, i), recipe, input);
  }

  /** Output sections, and the end of the image, come less than one section alignment after what is before them. */
  lemma SectionsClose(l: Layout, recipe: seq<Step>, trailing: seq<string>, input: Input, i: nat)
    requires i <= |l.sections| && Accepted(l, recipe, trailing, input)
    ensures var start := if i < |l.sections| then SectionAt(l, i).rva else l.sizeOfImage;
      EndBefore(l, i) <= start < EndBefore(l, i) + (if input.sectionAlignment > 0 then input.sectionAlignment else 1)
  {
    hide Accepted, Finished, AlignUp32;
    var m := input.sectionAlignment;
    if i < |l.sections| { SectionLies(l, recipe, trailing, input, i); } else { ImageEnds(l, recipe, trailing, input); }
    if i > 0 { SectionLies(l, recipe, trailing, input, i - 1); }
    assert RvaAt(l.sections, i, l.sizeOfHeaders, m) == AlignUp32(EndBefore(l, i), m);
    if m > 0 { UpTight(EndBefore(l, i), m); } else { UpNone(EndBefore(l, i)); }
  }

  lemma UpNone(value: nat)
    ensures AlignUp32(value, 0) == value
  {
  }

  lemma ImageEnds(l: Layout, recipe: seq<Step>, trailing: seq<string>, input: Input)
    requires Accepted(l, recipe, trailing, input)
    ensures l.sizeOfImage == RvaAt(l.sections, |l.sections|, l.sizeOfHeaders, input.sectionAlignment)
  {
    hide Given, RecordsRight, AllAddressed, RvaAt, EndOffset, AllFit;
  }

  /** How much of the file the sections up to `n` take. */
  function RawBefore(sections: seq<OutSection>, n: nat): nat
    requires n <= |sections|
  {
    if n == 0 then 0 else RawBefore(sections, n - 1) + sections[n - 1].rawSize
  }

  lemma {:induction false} FileAtIs(sections: seq<OutSection>, n: nat, headers: nat, alignment: nat)
    requires n <= |sections| && forall i :: 0 <= i < n ==> sections[i].rawSize == RawSize(sections[i], alignment)
    ensures FileAt(sections, n, headers, alignment) == headers + RawBefore(sections, n)
  {
    hide RawSize;
    if n > 0 { FileAtIs(sections, n - 1, headers, alignment); }
  }

  /** In the file, sections follow the headers and each other without a gap, each padded by less than one file alignment. */
  lemma FileClose(l: Layout, recipe: seq<Step>, trailing: seq<string>, input: Input, i: nat)
    requires i < |l.sections| && input.fileAlignment > 1 && Accepted(l, recipe, trailing, input)
    ensures var s := SectionAt(l, i);
      && (!s.IsBss() ==> s.fileOffset == l.sizeOfHeaders + RawBefore(l.sections, i) && s.virtualSize <= s.rawSize < s.virtualSize + input.fileAlignment)
      && l.fileSize == l.sizeOfHeaders + RawBefore(l.sections, |l.sections|)
  {
    hide Accepted, RawSize, FileAt, RawBefore;
    var (n, h, m) := (|l.sections|, l.sizeOfHeaders, input.fileAlignment);
    forall k | 0 <= k < n
      ensures l.sections[k].rawSize == RawSize(l.sections[k], m)
    {
      AddressedAs(l, recipe, trailing, input, k);
    }
    AddressedAs(l, recipe, trailing, input, i);
    FileAtIs(l.sections, i, h, m);
    FileAtIs(l.sections, n, h, m);
    RawTight(l.sections[i], m);
  }

  lemma RawTight(section: OutSection, m: nat)
    requires m > 1
    ensures !section.IsBss() ==> section.virtualSize <= RawSize(section, m) < section.virtualSize + m
  {
  }
}
