/** The zero chunks of an image: what markers reserve, the commons and the generated sections. */
module LayoutReserved {
  import opened Bits
  import opened Bytes
  import opened Results
  import opened ThunkPlan
  import opened LayoutModel
  import opened LayoutPlace
  import opened LayoutBuild
  import opened LayoutAssign
  import opened LayoutFinish
  import opened LayoutPlan
  import opened LayoutTheorems
  import opened LayoutRecipe
  import opened LayoutRegions

  // ---- What a step puts in by itself ----

  /** A chunk of bytes, or one of zeros. */
  predicate IsOwn(c: Chunk, t: nat, fill: bool)
  {
    c.step == t && if fill then c.piece.Fill? else c.piece == Zero
  }

  /** The chunks of bytes of step `t`, or its zero chunks, in order. */
  function OwnOf(chunks: seq<Chunk>, t: nat, fill: bool): seq<Chunk>
    decreases |chunks|
  {
    if chunks == [] then []
    else
      var last := chunks[|chunks| - 1];
      OwnOf(chunks[..|chunks| - 1], t, fill) + (if IsOwn(last, t, fill) then [last] else [])
  }

  lemma OwnPush(d: Draft, at: nat, size: nat, piece: Piece, step: nat, t: nat, fill: bool)
    ensures var c := Chunk(at, size, piece, step);
      OwnOf(Push(d, at, size, piece, step).chunks, t, fill) == OwnOf(d.chunks, t, fill) + (if IsOwn(c, t, fill) then [c] else [])
  {
    assert (d.chunks + [Chunk(at, size, piece, step)])[..|d.chunks|] == d.chunks;
  }

  lemma OwnPushInput(d: Draft, section: InSection, placed: Placed, blocks: Blocks, t: nat, fill: bool)
    ensures OwnOf(PushInput(d, section, placed, blocks).chunks, t, fill) == OwnOf(d.chunks, t, fill)
    ensures PushInput(d, section, placed, blocks).marks == d.marks
  {
    hide OwnOf, AlignUp32, Push, BlockSize;
    var at := AlignUp32(d.offset, AtLeast1(section.align));
    OwnPush(d, at, section.size, InputPiece(placed.file, placed.section), placed.step, t, fill);
    var d1 := Push(d, at, section.size, InputPiece(placed.file, placed.section), placed.step);
    var (at2, thunks) := (AlignUp32(d1.offset, 4), BlockSize(blocks, (placed.file, placed.section)));
    OwnPush(d1, at2, thunks, ThunkPiece(placed.file, placed.section), placed.step, t, fill);
    PushMarks(d, at, section.size, InputPiece(placed.file, placed.section), placed.step);
    PushMarks(d1, at2, thunks, ThunkPiece(placed.file, placed.section), placed.step);
  }

  lemma PushMarks(d: Draft, at: nat, size: nat, piece: Piece, step: nat)
    ensures Push(d, at, size, piece, step).marks == d.marks
  {
  }

  lemma {:induction false} OwnPushAll(d: Draft, list: seq<Placed>, input: Input, t: nat, fill: bool)
    ensures OwnOf(PushAll(d, list, input).chunks, t, fill) == OwnOf(d.chunks, t, fill)
    ensures PushAll(d, list, input).marks == d.marks
    decreases |list|
  {
    hide OwnOf, PushInput, SectionOf;
    if list != [] {
      var (init, last) := (list[..|list| - 1], list[|list| - 1]);
      OwnPushAll(d, init, input, t, fill);
      var section := SectionOf(input.files, last.file, last.section);
      if section.Some? { OwnPushInput(PushAll(d, init, input), section.value, last, input.blocks, t, fill); }
    }
  }

  /** Some mark of step `t` is at the offset. */
  predicate MarkedAt(marks: seq<Mark>, t: nat, offset: nat)
  {
    Mark(t, offset) in marks
  }

  /** One zero chunk of that size, or none for size 0. */
  predicate OneOf(zeros: seq<Chunk>, size: nat)
  {
    if size > 0 then |zeros| == 1 && zeros[0].size == size else zeros == []
  }

  /** One chunk of those bytes, where the marker is; or none for no bytes. */
  predicate OneFill(fills: seq<Chunk>, marks: seq<Mark>, t: nat, bytes: seq<Byte>)
  {
    if bytes == [] then fills == []
    else |fills| == 1 && fills[0].piece == Fill(bytes) && fills[0].size == |bytes| && MarkedAt(marks, t, fills[0].offset)
  }

  lemma OwnOfMarker(d: Draft, bytes: seq<Byte>, reserved: nat, step: nat, t: nat, fill: bool)
    ensures OwnOf(PushMarker(d, bytes, reserved, step).chunks, t, fill)
         == OwnOf(d.chunks, t, fill)
            + (if fill && t == step && bytes != [] then [Chunk(d.offset, |bytes|, Fill(bytes), step)] else [])
            + (if !fill && t == step && reserved > 0
               then [Chunk(if bytes == [] then d.offset else SatAdd(d.offset, |bytes|), reserved, Zero, step)] else [])
    ensures PushMarker(d, bytes, reserved, step).marks == d.marks + [Mark(step, d.offset)]
  {
    var d0 := d.(marks := d.marks + [Mark(step, d.offset)]);
    var d1 := if bytes == [] then d0 else Push(d0, d0.offset, |bytes|, Fill(bytes), step);
    OwnPush(d0, d0.offset, |bytes|, Fill(bytes), step, t, fill);
    OwnPush(d1, d1.offset, reserved, Zero, step, t, fill);
    hide OwnOf;
  }

  lemma OwnPushMarker(d: Draft, bytes: seq<Byte>, reserved: nat, step: nat, t: nat)
    ensures var d' := PushMarker(d, bytes, reserved, step);
      && (t != step ==> OwnOf(d'.chunks, t, true) == OwnOf(d.chunks, t, true) && OwnOf(d'.chunks, t, false) == OwnOf(d.chunks, t, false))
      && d'.marks == d.marks + [Mark(step, d.offset)]
      && (OwnOf(d.chunks, step, false) == [] ==> OneOf(OwnOf(d'.chunks, step, false), reserved))
      && (OwnOf(d.chunks, step, true) == [] ==> OneFill(OwnOf(d'.chunks, step, true), d'.marks, step, bytes))
  {
    hide OwnOf, PushMarker;
    OwnOfMarker(d, bytes, reserved, step, t, true);
    OwnOfMarker(d, bytes, reserved, step, t, false);
    OwnOfMarker(d, bytes, reserved, step, step, true);
    OwnOfMarker(d, bytes, reserved, step, step, false);
    assert Mark(step, d.offset) in d.marks + [Mark(step, d.offset)];
  }

  /** What step `t` reserves in the section `name`, and the bytes it inserts. */
  function ReservedAt(recipe: seq<Step>, t: nat, name: string, input: Input): nat
  {
    if InsertsAt(recipe, t, name) then Reserved(recipe[t].marker, input) else 0
  }

  function InsertedAt(recipe: seq<Step>, t: nat, name: string, input: Input): seq<Byte>
  {
    if InsertsAt(recipe, t, name) then MarkerBytes(recipe[t].marker, Pointer(input)) else []
  }

  /** The draft has of step `t` just what it reserves and inserts, if it is one of the first `k`. */
  predicate OwnFits(d: Draft, recipe: seq<Step>, k: nat, name: string, input: Input, t: nat)
  {
    && OneOf(OwnOf(d.chunks, t, false), if t < k then ReservedAt(recipe, t, name, input) else 0)
    && OneFill(OwnOf(d.chunks, t, true), d.marks, t, if t < k then InsertedAt(recipe, t, name, input) else [])
  }

  lemma MarksMore(fills: seq<Chunk>, marks: seq<Mark>, mark: Mark, t: nat, bytes: seq<Byte>)
    requires OneFill(fills, marks, t, bytes)
    ensures OneFill(fills, marks + [mark], t, bytes)
  {
  }

  lemma OwnNone(d: Draft, recipe: seq<Step>, k: nat, name: string, input: Input, t: nat)
    requires OwnFits(d, recipe, k, name, input, t) && k <= t
    ensures OwnOf(d.chunks, t, false) == [] && OwnOf(d.chunks, t, true) == []
  {
    hide OwnOf;
  }

  lemma OwnInsert(d: Draft, recipe: seq<Step>, k: nat, name: string, input: Input, t: nat)
    requires InsertsAt(recipe, k, name) && OwnFits(d, recipe, k, name, input, t)
    ensures OwnFits(PushInsert(d, recipe, k, name, input), recipe, k + 1, name, input, t)
  {
    var (bytes, reserved) := (MarkerBytes(recipe[k].marker, Pointer(input)), Reserved(recipe[k].marker, input));
    hide OwnOf, MarkerBytes, Reserved, PushMarker, MarkedAt, Pointer;
    OwnPushMarker(d, bytes, reserved, k, t);
    if t == k {
      OwnNone(d, recipe, k, name, input, k);
    } else {
      hide OneFill, OneOf;
      MarksMore(OwnOf(d.chunks, t, true), d.marks, Mark(k, d.offset), t, if t < k then InsertedAt(recipe, t, name, input) else []);
    }
  }

  lemma OwnSame(d: Draft, d': Draft, recipe: seq<Step>, k: nat, name: string, input: Input, t: nat)
    requires OwnFits(d, recipe, k, name, input, t) && !InsertsAt(recipe, k, name)
    requires OwnOf(d'.chunks, t, false) == OwnOf(d.chunks, t, false) && OwnOf(d'.chunks, t, true) == OwnOf(d.chunks, t, true)
    requires d'.marks == d.marks || exists mark :: d'.marks == d.marks + [mark]
    ensures OwnFits(d', recipe, k + 1, name, input, t)
  {
    assert t == k ==> ReservedAt(recipe, t, name, input) == 0 && InsertedAt(recipe, t, name, input) == [];
    hide OwnOf, OneOf, OneFill, ReservedAt, InsertedAt;
    if d'.marks != d.marks {
      var mark :| d'.marks == d.marks + [mark];
      MarksMore(OwnOf(d.chunks, t, true), d.marks, mark, t, if t < k then InsertedAt(recipe, t, name, input) else []);
    }
  }

  lemma OwnOneStep(d: Draft, recipe: seq<Step>, k: nat, name: string, list: seq<Placed>, input: Input, t: nat)
    requires OwnFits(d, recipe, k, name, input, t)
    ensures OwnFits(OneStep(d, recipe, k, name, list, input), recipe, k + 1, name, input, t)
  {
    var align := AlignmentAt(recipe, k, name, !input.pe32);
    hide OwnFits, PushInsert, PushAll, OfStep, AlignmentAt;
    if InsertsAt(recipe, k, name) {
      OwnInsert(d, recipe, k, name, input, t);
    } else {
      OwnPushAll(d, OfStep(list, k), input, t, false);
      OwnPushAll(d, OfStep(list, k), input, t, true);
      if align.Some? { assert PushAlign(d, align.value, k).marks == d.marks + [Mark(k, AlignUp32(d.offset, align.value))]; }
      OwnSame(d, OneStep(d, recipe, k, name, list, input), recipe, k, name, input, t);
    }
  }

  lemma {:induction false} OwnSteps(recipe: seq<Step>, k: nat, name: string, list: seq<Placed>, input: Input, t: nat)
    ensures OwnFits(StepDraft(recipe, k, name, list, input), recipe, k, name, input, t)
  {
    hide OneStep, ReservedAt, InsertedAt;
    if k > 0 {
      hide OwnFits;
      OwnSteps(recipe, k - 1, name, list, input, t);
      OwnOneStep(StepDraft(recipe, k - 1, name, list, input), recipe, k - 1, name, list, input, t);
    }
  }

  lemma {:induction false} OwnPushZeros(d: Draft, zeros: seq<Common>, t: nat, fill: bool) returns (more: seq<Chunk>)
    ensures OwnOf(PushZeros(d, zeros).chunks, t, fill) == OwnOf(d.chunks, t, fill) + more
    ensures if t == NO_STEP && !fill then ZerosAre(more, zeros) else more == []
    ensures PushZeros(d, zeros).marks == d.marks
    decreases |zeros|
  {
    more := [];
    hide OwnOf, Push, AlignUp32, AlignedTo;
    if zeros != [] {
      var (init, last) := (zeros[..|zeros| - 1], zeros[|zeros| - 1]);
      var before := OwnPushZeros(d, init, t, fill);
      var rest := PushZeros(d, init);
      var at := AlignUp32(rest.offset, AtLeast1(last.align));
      OwnPush(rest, at, last.size, Zero, NO_STEP, t, fill);
      PushMarks(rest, at, last.size, Zero, NO_STEP);
      var now := if t == NO_STEP && !fill then [Chunk(at, last.size, Zero, NO_STEP)] else [];
      more := before + now;
      ZeroAligned(rest.offset, last.align);
      assert zeros == init + [last];
      assert OwnOf(d.chunks, t, fill) + before + now == OwnOf(d.chunks, t, fill) + more;
    }
  }

  lemma ZeroAligned(offset: nat, align: nat)
    ensures AlignedTo(AlignUp32(offset, AtLeast1(align)), Some(align))
  {
    AlignUp32Aligns(offset, AtLeast1(align));
  }

  /** What a placed section holds besides inputs: what its markers reserve and insert, each at its step, and after all steps the commons and the generated parts. */
  lemma FinalOwn(out: OutSection, recipe: seq<Step>, input: Input, t: nat)
    requires Finished(out, recipe, input)
    ensures t < |recipe| ==>
      && OneOf(OwnOf(out.chunks, t, false), ReservedAt(recipe, t, out.name, input))
      && OneFill(OwnOf(out.chunks, t, true), out.marks, t, InsertedAt(recipe, t, out.name, input))
    ensures t == NO_STEP ==>
      && ZerosAre(OwnOf(out.chunks, t, false),
                  CommonsOf(out.name, input) + WithAlign(PendingOf(input, out.name), AtLeast1(AlignBefore(recipe, input, out.name))))
  {
    var (align, list) := (AlignBefore(recipe, input, out.name), Contributions(recipe, input.files, out.name));
    var (name, pending) := (out.name, PendingOf(input, out.name));
    hide *;
    FinishedChunks(out, recipe, input);
    ShortRecipe(out, recipe, input);
    OwnFinal(recipe, name, align, list, pending, input, t);
  }

  lemma FinishedChunks(out: OutSection, recipe: seq<Step>, input: Input)
    requires Finished(out, recipe, input)
    ensures var d := FinalDraft(recipe, out.name, AlignBefore(recipe, input, out.name), Contributions(recipe, input.files, out.name),
                                PendingOf(input, out.name), input);
      out.chunks == d.chunks && out.marks == d.marks
    ensures out.align == Highest(AlignBefore(recipe, input, out.name), CommonsOf(out.name, input), |CommonsOf(out.name, input)|)
  {
    hide FinalDraft, AlignBefore, Contributions, PendingOf, Highest, FlagsAfter, FromFiles, CommonsOf;
  }

  lemma OwnFinal(recipe: seq<Step>, name: string, align: nat, list: seq<Placed>, pending: seq<nat>, input: Input, t: nat)
    requires |recipe| < NO_STEP
    ensures var d := FinalDraft(recipe, name, align, list, pending, input);
      && (t < |recipe| ==> OneOf(OwnOf(d.chunks, t, false), ReservedAt(recipe, t, name, input))
                           && OneFill(OwnOf(d.chunks, t, true), d.marks, t, InsertedAt(recipe, t, name, input)))
      && (t == NO_STEP ==> ZerosAre(OwnOf(d.chunks, t, false), CommonsOf(name, input) + WithAlign(pending, AtLeast1(align))))
  {
    hide OwnOf, StepDraft, PushAll, PushZeros, OfStep, CommonsOf, WithAlign, AlignedTo, ReservedAt, InsertedAt, OneFill;
    var d0 := StepDraft(recipe, |recipe|, name, list, input);
    var d1 := PushAll(d0, OfStep(list, NO_STEP), input);
    var d2 := PushZeros(d1, CommonsOf(name, input));
    OwnSteps(recipe, |recipe|, name, list, input, t);
    OwnPushAll(d0, OfStep(list, NO_STEP), input, t, false);
    OwnPushAll(d0, OfStep(list, NO_STEP), input, t, true);
    var first := OwnPushZeros(d1, CommonsOf(name, input), t, false);
    var second := OwnPushZeros(d2, WithAlign(pending, AtLeast1(align)), t, false);
    var third := OwnPushZeros(d1, CommonsOf(name, input), t, true);
    var fourth := OwnPushZeros(d2, WithAlign(pending, AtLeast1(align)), t, true);
    var fills := OwnOf(d0.chunks, t, true);
    assert fills + [] == fills && fills + [] + [] == fills;
  }

  // ---- In an accepted layout ----

  lemma {:induction false} OwnHas(chunks: seq<Chunk>, t: nat, fill: bool, c: nat)
    requires c < |chunks| && IsOwn(chunks[c], t, fill)
    ensures |OwnOf(chunks[..c], t, fill)| < |OwnOf(chunks, t, fill)|
    ensures OwnOf(chunks, t, fill)[|OwnOf(chunks[..c], t, fill)|] == chunks[c]
    decreases |chunks|
  {
    hide IsOwn;
    if c < |chunks| - 1 {
      OwnHas(chunks[..|chunks| - 1], t, fill, c);
      assert chunks[..|chunks| - 1][..c] == chunks[..c];
    }
  }

  lemma {:induction false} OwnAre(chunks: seq<Chunk>, t: nat, fill: bool, k: nat) returns (c: nat)
    requires k < |OwnOf(chunks, t, fill)|
    ensures c < |chunks| && chunks[c] == OwnOf(chunks, t, fill)[k] && IsOwn(chunks[c], t, fill)
    decreases |chunks|
  {
    hide IsOwn;
    var (init, last) := (chunks[..|chunks| - 1], |chunks| - 1);
    if k < |OwnOf(init, t, fill)| { c := OwnAre(init, t, fill, k); } else { c := last; }
  }

  lemma {:induction false} OwnMore(chunks: seq<Chunk>, t: nat, fill: bool, c: nat, d: nat)
    requires c < d < |chunks| && IsOwn(chunks[c], t, fill)
    ensures |OwnOf(chunks[..c], t, fill)| < |OwnOf(chunks[..d], t, fill)|
  {
    assert chunks[..d][..c] == chunks[..c];
    OwnHas(chunks[..d], t, fill, c);
  }

  /** A chunk of bytes or of zeros of step `t`, or of none, in the section of that name. */
  predicate OwnIn(l: Layout, name: string, t: nat, fill: bool, i: nat, c: nat)
  {
    IsChunk(l, i, c) && SectionAt(l, i).name == name && IsOwn(ChunkAt(l, i, c), t, fill)
  }

  /** The section of that name holds these chunks of the step, one at most. */
  ghost predicate HoldsOwn(l: Layout, name: string, t: nat, fill: bool, own: seq<Chunk>)
  {
    && (forall i: nat, c: nat :: OwnIn(l, name, t, fill, i, c) ==> own == [ChunkAt(l, i, c)])
    && (forall i: nat, c: nat, j: nat, d: nat :: OwnIn(l, name, t, fill, i, c) && OwnIn(l, name, t, fill, j, d) ==> i == j && c == d)
    && (own != [] ==> exists i: nat, c: nat :: OwnIn(l, name, t, fill, i, c))
  }

  lemma OneOwn(chunks: seq<Chunk>, t: nat, fill: bool, c: nat)
    requires |OwnOf(chunks, t, fill)| <= 1 && c < |chunks| && IsOwn(chunks[c], t, fill)
    ensures OwnOf(chunks, t, fill) == [chunks[c]]
    ensures forall d :: 0 <= d < |chunks| && IsOwn(chunks[d], t, fill) ==> d == c
  {
    hide IsOwn;
    OwnHas(chunks, t, fill, c);
    forall d | 0 <= d < |chunks| && IsOwn(chunks[d], t, fill)
      ensures d == c
    {
      OwnHas(chunks, t, fill, d);
      hide OwnOf;
      if c < d { OwnMore(chunks, t, fill, c, d); }
      if d < c { OwnMore(chunks, t, fill, d, c); }
    }
  }

  lemma OwnNotEmpty(out: OutSection, recipe: seq<Step>, input: Input, t: nat, fill: bool)
    requires OwnOf(out.chunks, t, fill) != [] && OwnOf(out.chunks, t, fill)[0].size > 0 && Finished(out, recipe, input)
    ensures out.virtualSize > 0
  {
    FinishedOrdered(out, recipe, input);
    hide Finished, OwnOf;
    var c := OwnAre(out.chunks, t, fill, 0);
  }

  /** A section that is asked for and holds such a chunk is in the image. */
  lemma OwnPresent(l: Layout, recipe: seq<Step>, trailing: seq<string>, input: Input, name: string, t: nat, fill: bool)
    requires OwnOf(FinalSection(recipe, input, name).chunks, t, fill) != [] && OwnOf(FinalSection(recipe, input, name).chunks, t, fill)[0].size > 0
    requires name in FirstSeen(AllWanted(recipe, trailing, input)) && |recipe| < NO_STEP && Accepted(l, recipe, trailing, input)
    ensures name in Names(l.sections)
  {
    hide Accepted, Finished, Names, FirstSeen, AllWanted, FinalSection, OwnOf;
    DroppedOnes(l, recipe, trailing, input);
    FinalFinished(recipe, input, name);
    OwnNotEmpty(FinalSection(recipe, input, name), recipe, input, t, fill);
  }

  lemma DroppedOnes(l: Layout, recipe: seq<Step>, trailing: seq<string>, input: Input)
    requires Accepted(l, recipe, trailing, input)
    ensures DroppedRight(l.sections, AllWanted(recipe, trailing, input), recipe, input)
  {
    GivenRight(l.sections, recipe, trailing, input);
    hide Given, AddressesRight, RecordsRight, ImageOrdered, DroppedRight, SectionsRight, AllWanted;
  }

  lemma FinalFinished(recipe: seq<Step>, input: Input, name: string)
    requires |recipe| < NO_STEP
    ensures Finished(FinalSection(recipe, input, name), recipe, input) && FinalSection(recipe, input, name).name == name
  {
    FinalNamed(recipe, input, name);
    hide FinalSection;
  }

  lemma FinishedOrdered(out: OutSection, recipe: seq<Step>, input: Input)
    requires Finished(out, recipe, input)
    ensures out.virtualSize < U32_MAX ==> Packed(out.chunks, out.virtualSize)
  {
    FinishedInputs(out, recipe, input);
    hide Finished, Inputs, ThunksFollow, InputsWhole, StepsRise, Packed;
  }

  predicate NoneEmptyOwn(own: seq<Chunk>)
  {
    |own| <= 1 && (own != [] ==> own[0].size > 0)
  }

  /** The chunks of one step in a section of the image are those of the section as it is placed. */
  lemma OwnHeld(l: Layout, recipe: seq<Step>, trailing: seq<string>, input: Input, name: string, t: nat, fill: bool)
    requires NoneEmptyOwn(OwnOf(FinalSection(recipe, input, name).chunks, t, fill))
    requires OwnOf(FinalSection(recipe, input, name).chunks, t, fill) != [] ==> name in FirstSeen(AllWanted(recipe, trailing, input))
    requires |recipe| < NO_STEP && Accepted(l, recipe, trailing, input)
    ensures HoldsOwn(l, name, t, fill, OwnOf(FinalSection(recipe, input, name).chunks, t, fill))
  {
    hide Accepted, Finished, Names, FirstSeen, AllWanted, FinalSection, OwnOf, InBounds, IsOwn;
    forall i: nat, c: nat | OwnIn(l, name, t, fill, i, c)
      ensures OwnOf(FinalSection(recipe, input, name).chunks, t, fill) == [ChunkAt(l, i, c)]
      ensures forall j: nat, d: nat :: OwnIn(l, name, t, fill, j, d) ==> i == j && c == d
    {
      SectionLies(l, recipe, trailing, input, i);
      PlacedSame(l.sections[i], recipe, input);
      OneOwn(l.sections[i].chunks, t, fill, c);
      forall j: nat, d: nat | OwnIn(l, name, t, fill, j, d)
        ensures i == j && c == d
      {
        SameSection(l, recipe, trailing, input, i, j);
      }
    }
    if OwnOf(FinalSection(recipe, input, name).chunks, t, fill) != [] {
      OwnPresent(l, recipe, trailing, input, name, t, fill);
      var i := SectionNamed(l.sections, name);
      SectionLies(l, recipe, trailing, input, i);
      PlacedSame(l.sections[i], recipe, input);
      var c := OwnAre(l.sections[i].chunks, t, fill, 0);
      assert OwnIn(l, name, t, fill, i, c);
    }
  }

  // ---- What markers reserve ----

  /** A zero chunk of step `t`, or of none, in the section of that name. */
  predicate ZeroIn(l: Layout, name: string, t: nat, i: nat, c: nat)
  {
    IsChunk(l, i, c) && SectionAt(l, i).name == name && ChunkAt(l, i, c).piece == Zero && ChunkAt(l, i, c).step == t
  }

  /** The section of that name holds one zero chunk of the step, of `size` bytes; or none, for size 0. */
  ghost predicate Reserves(l: Layout, name: string, t: nat, size: nat)
  {
    && (forall i: nat, c: nat :: ZeroIn(l, name, t, i, c) ==> ChunkSize(l, i, c) == size > 0)
    && (forall i: nat, c: nat, j: nat, d: nat :: ZeroIn(l, name, t, i, c) && ZeroIn(l, name, t, j, d) ==> i == j && c == d)
    && (size > 0 ==> exists i: nat, c: nat :: ZeroIn(l, name, t, i, c))
  }

  lemma ReservesOwn(l: Layout, name: string, t: nat, size: nat, own: seq<Chunk>)
    requires HoldsOwn(l, name, t, false, own) && OneOf(own, size)
    ensures Reserves(l, name, t, size)
  {
    assert forall i: nat, c: nat {:trigger ZeroIn(l, name, t, i, c)} :: ZeroIn(l, name, t, i, c) <==> OwnIn(l, name, t, false, i, c);
    hide ZeroIn, OwnIn;
    if size > 0 {
      var i: nat, c: nat :| OwnIn(l, name, t, false, i, c);
      assert ZeroIn(l, name, t, i, c);
    }
  }

  lemma ReservesZeros(l: Layout, recipe: seq<Step>, trailing: seq<string>, input: Input, name: string, t: nat, size: nat)
    requires OneOf(OwnOf(FinalSection(recipe, input, name).chunks, t, false), size)
    requires size > 0 ==> name in FirstSeen(AllWanted(recipe, trailing, input))
    requires |recipe| < NO_STEP && Accepted(l, recipe, trailing, input)
    ensures Reserves(l, name, t, size)
  {
    hide Accepted, FirstSeen, AllWanted, FinalSection, OwnOf, HoldsOwn, Reserves;
    OwnHeld(l, recipe, trailing, input, name, t, false);
    ReservesOwn(l, name, t, size, OwnOf(FinalSection(recipe, input, name).chunks, t, false));
  }

  lemma PlacedSame(out: OutSection, recipe: seq<Step>, input: Input)
    requires Finished(out, recipe, input)
    ensures out.chunks == FinalSection(recipe, input, out.name).chunks && out.align == FinalSection(recipe, input, out.name).align
    ensures out.marks == FinalSection(recipe, input, out.name).marks
  {
    hide FinalSection;
  }

  /** What a marker reserves: one zero chunk of its step, of exactly that size; nothing where nothing is reserved. */
  lemma MarkerReserves(l: Layout, recipe: seq<Step>, trailing: seq<string>, input: Input, t: nat, output: string, marker: Marker)
    requires t < |recipe| && recipe[t] == Insert(output, marker) && |recipe| < NO_STEP && Accepted(l, recipe, trailing, input)
    ensures Reserves(l, output, t, if marker.PseudoStart? then input.pseudoSize else if marker.SafeSehTable? then input.safeSehSize else 0)
  {
    hide *;
    StepWanted(recipe, trailing, input, t);
    FinalFinished(recipe, input, output);
    FinalOwn(FinalSection(recipe, input, output), recipe, input, t);
    ReservedIs(recipe, t, output, marker, input);
    ReservesZeros(l, recipe, trailing, input, output, t, ReservedAt(recipe, t, output, input));
  }

  lemma ReservedIs(recipe: seq<Step>, t: nat, output: string, marker: Marker, input: Input)
    requires t < |recipe| && recipe[t] == Insert(output, marker)
    ensures ReservedAt(recipe, t, output, input)
         == if marker.PseudoStart? then input.pseudoSize else if marker.SafeSehTable? then input.safeSehSize else 0
  {
  }

  lemma SyntheticWanted(recipe: seq<Step>, trailing: seq<string>, input: Input, k: nat)
    requires k < |input.synthetic|
    ensures input.synthetic[k].name in FirstSeen(AllWanted(recipe, trailing, input))
  {
    hide FirstSeen, OfFiles, OfTrailing, OfRecipe;
    var wanted := AllWanted(recipe, trailing, input);
    var at := |wanted| - |input.synthetic| + k;
    assert wanted[at].name == input.synthetic[k].name;
    WantedSeen(wanted, at);
  }

  // ---- Generated sections ----

  /** The sizes asked for under a name: one, or none for size 0. */
  predicate Asks(input: Input, name: string, size: nat)
  {
    && PendingOf(input, name) == (if size > 0 then [size] else [])
    && (size > 0 ==> exists k :: 0 <= k < |input.synthetic| && input.synthetic[k].name == name)
  }

  /** A generated section: one zero chunk after all the steps, of exactly its size; none where none is asked for. */
  lemma SyntheticReserves(l: Layout, recipe: seq<Step>, trailing: seq<string>, input: Input, name: string, size: nat)
    requires name != ".bss" && Asks(input, name, size) && |recipe| < NO_STEP && Accepted(l, recipe, trailing, input)
    ensures Reserves(l, name, NO_STEP, size)
  {
    NoCommons(name, input);
    hide Accepted, FinalSection, Finished, AllWanted, FirstSeen, PendingOf, OwnOf, Reserves, AlignBefore, CommonsOf, AlignedTo;
    FinalFinished(recipe, input, name);
    FinalOwn(FinalSection(recipe, input, name), recipe, input, NO_STEP);
    if size > 0 {
      var k :| 0 <= k < |input.synthetic| && input.synthetic[k].name == name;
      SyntheticWanted(recipe, trailing, input, k);
    }
    ReservesZeros(l, recipe, trailing, input, name, NO_STEP, size);
  }

  lemma NoCommons(name: string, input: Input)
    requires name != ".bss"
    ensures CommonsOf(name, input) == []
  {
  }

  lemma {:induction false} AlignWithAtLeast(align: nat, synthetic: seq<Synthetic>, n: nat, name: string, k: nat)
    requires k < n <= |synthetic| && synthetic[k].name == name
    ensures synthetic[k].align <= AlignWith(align, synthetic, n, name)
  {
    if k < n - 1 { AlignWithAtLeast(align, synthetic, n - 1, name, k); }
  }

  /** It is aligned as its section, which is aligned at least as was asked for. */
  lemma SyntheticAligned(l: Layout, recipe: seq<Step>, trailing: seq<string>, input: Input, name: string, i: nat, c: nat, k: nat)
    requires name != ".bss" && k < |input.synthetic| && input.synthetic[k].name == name
    requires ZeroIn(l, name, NO_STEP, i, c) && Accepted(l, recipe, trailing, input)
    ensures AlignedTo(ChunkAt(l, i, c).offset, Some(SectionAt(l, i).align))
    ensures k < |input.synthetic| && input.synthetic[k].align <= SectionAt(l, i).align
  {
    NoCommons(name, input);
    AlignWithAtLeast(AlignAfter(input.files, FromFiles(recipe, input.files, |input.files|, name)), input.synthetic, |input.synthetic|, name, k);
    hide Accepted, FinalDraft, Finished, PendingOf, OwnOf, CommonsOf, AlignedTo, AlignAfter, FromFiles, Contributions, AlignWith;
    SectionLies(l, recipe, trailing, input, i);
    FinalOwn(l.sections[i], recipe, input, NO_STEP);
    FinishedChunks(l.sections[i], recipe, input);
    OwnHas(l.sections[i].chunks, NO_STEP, false, c);
    PositiveAlign(recipe, input, name);
  }

  lemma {:induction false} AlignAfterPositive(files: seq<InFile>, list: seq<Placed>)
    ensures AlignAfter(files, list) >= 1
    decreases |list|
  {
    if list != [] { AlignAfterPositive(files, list[..|list| - 1]); }
  }

  lemma {:induction false} AlignWithKeeps(align: nat, synthetic: seq<Synthetic>, n: nat, name: string)
    requires n <= |synthetic|
    ensures AlignWith(align, synthetic, n, name) >= align
  {
    if n > 0 { AlignWithKeeps(align, synthetic, n - 1, name); }
  }

  lemma PositiveAlign(recipe: seq<Step>, input: Input, name: string)
    ensures AlignBefore(recipe, input, name) >= 1
  {
    AlignAfterPositive(input.files, FromFiles(recipe, input.files, |input.files|, name));
    AlignWithKeeps(AlignAfter(input.files, FromFiles(recipe, input.files, |input.files|, name)), input.synthetic, |input.synthetic|, name);
    hide AlignAfter, AlignWith, FromFiles;
  }

  /** So nothing reserved reaches 4 GiB. */
  lemma ReservedSmall(l: Layout, recipe: seq<Step>, trailing: seq<string>, input: Input, name: string, t: nat, size: nat)
    requires Reserves(l, name, t, size) && Accepted(l, recipe, trailing, input)
    ensures size < U32_MAX
  {
    hide Accepted, Divides, StepsRise;
    if size > 0 {
      var i: nat, c: nat :| ZeroIn(l, name, t, i, c);
      NothingSaturated(l, recipe, trailing, input, i);
    }
  }

  // ---- What markers insert ----

  /** The words of a marker: how many bytes, and which: all ones head and nulls end a list of pointers, and a null descriptor the imports. */
  function WordOf(marker: Marker, pe32: bool): (nat, Byte)
  {
    var pointer := if pe32 then 4 else 8;
    match marker
    case CtorHead => (pointer, 0xff)
    case DtorHead => (pointer, 0xff)
    case CtorTail => (pointer, 0)
    case DtorTail => (pointer, 0)
    case IdataNull => (20, 0)
    case _ => (0, 0)
  }

  predicate AllBytes(bytes: seq<Byte>, n: nat, b: Byte)
  {
    |bytes| == n && forall i :: 0 <= i < n ==> bytes[i] == b
  }

  lemma MarkerBytesAre(marker: Marker, input: Input)
    ensures AllBytes(MarkerBytes(marker, Pointer(input)), WordOf(marker, input.pe32).0, WordOf(marker, input.pe32).1)
  {
  }

  /** A chunk of bytes of step `t` in the section of that name. */
  predicate FillIn(l: Layout, name: string, t: nat, i: nat, c: nat)
  {
    IsChunk(l, i, c) && SectionAt(l, i).name == name && ChunkAt(l, i, c).piece.Fill? && ChunkAt(l, i, c).step == t
  }

  /** It is `n` bytes `b`, and a mark of its step is where it starts. */
  predicate IsWord(l: Layout, i: nat, c: nat, t: nat, n: nat, b: Byte)
  {
    var chunk := ChunkAt(l, i, c);
    && chunk.piece.Fill? && chunk.size == n && AllBytes(chunk.piece.bytes, n, b)
    && MarkedAt(SectionAt(l, i).marks, t, chunk.offset)
  }

  /** The section of that name holds one such chunk of the step; or none, for no bytes. */
  ghost predicate HoldsWord(l: Layout, name: string, t: nat, n: nat, b: Byte)
  {
    && (forall i: nat, c: nat :: FillIn(l, name, t, i, c) ==> n > 0 && IsWord(l, i, c, t, n, b))
    && (forall i: nat, c: nat, j: nat, d: nat :: FillIn(l, name, t, i, c) && FillIn(l, name, t, j, d) ==> i == j && c == d)
    && (n > 0 ==> exists i: nat, c: nat :: FillIn(l, name, t, i, c))
  }

  lemma WordHeld(l: Layout, recipe: seq<Step>, trailing: seq<string>, input: Input, name: string, t: nat, bytes: seq<Byte>, n: nat, b: Byte)
    requires HoldsOwn(l, name, t, true, OwnOf(FinalSection(recipe, input, name).chunks, t, true)) && AllBytes(bytes, n, b)
    requires OneFill(OwnOf(FinalSection(recipe, input, name).chunks, t, true), FinalSection(recipe, input, name).marks, t, bytes)
    requires Accepted(l, recipe, trailing, input)
    ensures HoldsWord(l, name, t, n, b)
  {
    hide Accepted, FinalSection, OwnOf, MarkedAt, InBounds, Finished;
    assert forall i: nat, c: nat {:trigger FillIn(l, name, t, i, c)} :: FillIn(l, name, t, i, c) <==> OwnIn(l, name, t, true, i, c);
    hide OwnIn, AllBytes;
    forall i: nat, c: nat | FillIn(l, name, t, i, c)
      ensures n > 0 && IsWord(l, i, c, t, n, b)
    {
      SectionLies(l, recipe, trailing, input, i);
      PlacedSame(l.sections[i], recipe, input);
      AllLength(bytes, n, b);
    }
    AllLength(bytes, n, b);
    if n > 0 {
      var i: nat, c: nat :| OwnIn(l, name, t, true, i, c);
      assert FillIn(l, name, t, i, c);
    }
  }

  lemma AllLength(bytes: seq<Byte>, n: nat, b: Byte)
    requires AllBytes(bytes, n, b)
    ensures |bytes| == n
  {
  }

  /** What a marker inserts: one chunk of its step, right at the marker, of exactly those bytes; nothing where it inserts nothing. */
  lemma MarkerInserts(l: Layout, recipe: seq<Step>, trailing: seq<string>, input: Input, t: nat, output: string, marker: Marker)
    requires t < |recipe| && recipe[t] == Insert(output, marker) && |recipe| < NO_STEP && Accepted(l, recipe, trailing, input)
    ensures HoldsWord(l, output, t, WordOf(marker, input.pe32).0, WordOf(marker, input.pe32).1)
  {
    hide *;
    StepWanted(recipe, trailing, input, t);
    FinalFinished(recipe, input, output);
    FinalOwn(FinalSection(recipe, input, output), recipe, input, t);
    InsertedIs(recipe, t, output, marker, input);
    MarkerBytesAre(marker, input);
    FillNotEmpty(OwnOf(FinalSection(recipe, input, output).chunks, t, true), FinalSection(recipe, input, output).marks, t, InsertedAt(recipe, t, output, input));
    OwnHeld(l, recipe, trailing, input, output, t, true);
    var (n, b) := WordOf(marker, input.pe32);
    WordHeld(l, recipe, trailing, input, output, t, InsertedAt(recipe, t, output, input), n, b);
  }

  lemma InsertedIs(recipe: seq<Step>, t: nat, output: string, marker: Marker, input: Input)
    requires t < |recipe| && recipe[t] == Insert(output, marker)
    ensures InsertedAt(recipe, t, output, input) == MarkerBytes(marker, Pointer(input))
  {
  }

  lemma FillNotEmpty(fills: seq<Chunk>, marks: seq<Mark>, t: nat, bytes: seq<Byte>)
    requires OneFill(fills, marks, t, bytes)
    ensures NoneEmptyOwn(fills)
  {
  }

  // ---- The linker's own lists ----

  predicate AllRise(steps: seq<nat>)
  {
    forall i, j :: 0 <= i < j < |steps| ==> steps[i] < steps[j]
  }

  lemma {:induction false} MarkStepsRise(recipe: seq<Step>, k: nat, name: string, wide: bool)
    ensures AllRise(MarkSteps(recipe, k, name, wide))
    ensures forall i :: 0 <= i < |MarkSteps(recipe, k, name, wide)| ==> MarkSteps(recipe, k, name, wide)[i] < k
  {
    if k > 0 { MarkStepsRise(recipe, k - 1, name, wide); }
  }

  lemma OneStepMark(marks: seq<Mark>, i: nat, t: nat, offset: nat)
    requires AllRise(StepsOf(marks)) && i < |marks| && marks[i].step == t && MarkedAt(marks, t, offset)
    ensures marks[i].offset == offset
  {
    var j :| 0 <= j < |marks| && marks[j] == Mark(t, offset);
    assert StepsOf(marks)[i] == t && StepsOf(marks)[j] == t;
  }

  /** A section has one mark of a step. */
  lemma OneMark(out: OutSection, recipe: seq<Step>, input: Input, i: nat, t: nat, offset: nat)
    requires i < |out.marks| && out.marks[i].step == t && MarkedAt(out.marks, t, offset) && Finished(out, recipe, input)
    ensures i < |out.marks| && out.marks[i].offset == offset
  {
    hide *;
    FinishedMarks(out, recipe, input);
    MarkStepsRise(recipe, |recipe|, out.name, !input.pe32);
    OneStepMark(out.marks, i, t, offset);
  }

  /** The markers of the constructor lists and of the null import descriptor stand right at their words, which are there. */
  lemma WordAtMarker(l: Layout, input: Input, marker: Marker) returns (i: nat, c: nat)
    requires WordOf(marker, input.pe32).0 > 0 && Laid(l, input)
    ensures IsChunk(l, i, c) && SectionAt(l, i).name == MarkerOutput(marker)
    ensures IsWord(l, i, c, MarkerStep(marker), WordOf(marker, input.pe32).0, WordOf(marker, input.pe32).1)
    ensures MarkerRva(l, marker) == Some(ChunkRva(l, i, c))
  {
    WordsHere(marker, input);
    hide *;
    MarkerThere(l, input, marker);
    var k;
    i, k := MarkerFound(l, input, marker);
    var (t, n, b) := (MarkerStep(marker), WordOf(marker, input.pe32).0, WordOf(marker, input.pe32).1);
    RecipeInserts(l, input, marker);
    c := TheWord(l, input, MarkerOutput(marker), t, n, b, i, k);
  }

  lemma WordsHere(marker: Marker, input: Input)
    ensures WordOf(marker, input.pe32).0 > 0 ==> HasWord(MarkerOutput(marker))
  {
  }

  lemma RecipeInserts(l: Layout, input: Input, marker: Marker)
    requires Laid(l, input)
    ensures HoldsWord(l, MarkerOutput(marker), MarkerStep(marker), WordOf(marker, input.pe32).0, WordOf(marker, input.pe32).1)
  {
    MarkerInserted(marker);
    StepsAre(0);
    hide Recipe, Accepted, HoldsWord, MarkerOutput, MarkerStep, WordOf;
    MarkerInserts(l, Recipe(), Trailing(), input, MarkerStep(marker), MarkerOutput(marker), marker);
  }

  lemma TheWord(l: Layout, input: Input, name: string, t: nat, n: nat, b: Byte, i: nat, k: nat) returns (c: nat)
    requires HoldsWord(l, name, t, n, b) && n > 0 && Laid(l, input)
    requires IsMark(l, i, k) && MarkAt(l, i, k).step == t && SectionAt(l, i).name == name
    ensures IsChunk(l, i, c) && IsWord(l, i, c, t, n, b) && ChunkRva(l, i, c) == SectionAt(l, i).rva + MarkAt(l, i, k).offset
  {
    hide Laid, Recipe, Finished, InBounds, MarkedAt, AllBytes;
    var j: nat, d: nat :| FillIn(l, name, t, j, d);
    SameName(l, input, i, j);
    c := d;
    assert IsWord(l, i, c, t, n, b);
    InLaid(l, input, i);
    OneMark(SectionAt(l, i), Recipe(), input, k, t, ChunkAt(l, i, c).offset);
  }

  /** What the recipe aligns before a marker: the lists of pseudo-relocations and SafeSEH handlers by 4, the constructor lists by 8 where pointers are wide. */
  function MarkerAlign(marker: Marker, pe32: bool): nat
  {
    match marker
    case PseudoStart => 4
    case SafeSehTable => 4
    case CtorHead => if pe32 then 1 else 8
    case _ => 1
  }

  lemma StepBeforeIs(marker: Marker, wide: bool)
    requires MarkerAlign(marker, !wide) > 1
    ensures MarkerOutput(marker) == ".rdata" && HasWord(".rdata") && 0 < MarkerStep(marker) < |Recipe()|
    ensures AlignmentAt(Recipe(), MarkerStep(marker) - 1, ".rdata", wide) == Some(MarkerAlign(marker, !wide))
  {
    StepsAre(MarkerStep(marker) - 1);
    hide TextSteps, DataSteps, OtherSteps, IdataSteps, TlsSteps, Recipe;
  }

  /** Those markers are aligned in `.rdata`, unless that is past 4 GiB. */
  lemma MarkerAligned(l: Layout, input: Input, marker: Marker) returns (i: nat, k: nat)
    requires MarkerAlign(marker, input.pe32) > 1 && Laid(l, input)
    ensures IsMark(l, i, k) && SectionAt(l, i).name == ".rdata" && MarkerRva(l, marker) == Some(SectionAt(l, i).rva + MarkAt(l, i, k).offset)
    ensures AlignedTo(MarkAt(l, i, k).offset, Some(MarkerAlign(marker, input.pe32)))
  {
    StepBeforeIs(marker, !input.pe32);
    hide *;
    MarkerThere(l, input, marker);
    i, k := MarkerFound(l, input, marker);
    MarkerInserted(marker);
    AfterAlign(marker, MarkAt(l, i, k), input.pe32);
  }

  lemma AfterAlign(marker: Marker, mark: Mark, pe32: bool)
    requires mark.step == MarkerStep(marker) > 0 && InsertIs(marker) && MarkerOutput(marker) == ".rdata"
    requires AlignmentAt(Recipe(), MarkerStep(marker) - 1, ".rdata", !pe32) == Some(MarkerAlign(marker, pe32))
    requires MarkAligned(Recipe(), mark, MarkerOutput(marker), !pe32)
    ensures AlignedTo(mark.offset, Some(MarkerAlign(marker, pe32)))
  {
    hide Recipe, AlignmentAt, AlignedTo, MarkerStep, MarkerAlign, MarkerOutput;
  }
}
