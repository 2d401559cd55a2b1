/** Ordering the contributions of one output section and placing them. */
module LayoutPlace {
  import opened Bits
  import opened Bytes
  import opened Results
  import opened Sorting
  import opened ThunkPlan
  import opened LayoutModel

  // ---- The order of contributions ----

  function Text(name: string): (r: seq<int>)
    ensures |r| == |name|
  {
    seq(|name|, i requires 0 <= i < |name| => name[i] as int)
  }

  /** The part of a contribution's sort key its sort mode gives. */
  function KeyOf(files: seq<InFile>, p: Placed): seq<int>
  {
    match p.sort
    case Unsorted => []
    case ByName =>
      var section := SectionOf(files, p.file, p.section);
      if section.Some? then Text(section.value.name) else []
    case ByFile => if p.file < |files| then Text(files[p.file].sortName) else []
  }

  /** The key `(step, key, file, section)`, compared. */
  predicate NotAfter(files: seq<InFile>, a: Placed, b: Placed)
  {
    var (x, y) := (KeyOf(files, a), KeyOf(files, b));
    a.step < b.step || (a.step == b.step &&
      (if x != y then LexLe(x, y) else a.file < b.file || (a.file == b.file && a.section <= b.section)))
  }

  function Before(files: seq<InFile>): (Placed, Placed) -> bool
  {
    (a, b) => NotAfter(files, a, b)
  }

  lemma NotAfterTotal(files: seq<InFile>, a: Placed, b: Placed)
    ensures NotAfter(files, a, b) || NotAfter(files, b, a)
    ensures NotAfter(files, a, b) && NotAfter(files, b, a) ==> a.step == b.step && a.file == b.file && a.section == b.section
  {
    LexTotal(KeyOf(files, a), KeyOf(files, b));
  }

  lemma NotAfterTransitive(files: seq<InFile>, a: Placed, b: Placed, c: Placed)
    requires NotAfter(files, a, b) && NotAfter(files, b, c)
    ensures NotAfter(files, a, c)
  {
    hide KeyOf;
    var (x, y, z) := (KeyOf(files, a), KeyOf(files, b), KeyOf(files, c));
    if a.step == b.step == c.step && x != y && y != z {
      LexTransitive(x, y, z);
      LexTotal(x, y);
    }
  }

  lemma BeforeIsTotal(files: seq<InFile>)
    ensures TotalOrder(Before(files))
  {
    forall a, b
      ensures Before(files)(a, b) || Before(files)(b, a)
    {
      NotAfterTotal(files, a, b);
    }
    forall a, b, c | Before(files)(a, b) && Before(files)(b, c)
      ensures Before(files)(a, c)
    {
      NotAfterTransitive(files, a, b, c);
    }
  }

  /** `sort_contributions`. */
  function SortContributions(files: seq<InFile>, list: seq<Placed>): (r: seq<Placed>)
    ensures |r| == |list|
  {
    SortBy(list, Before(files))
  }

  // ---- Steps that place nothing ----

  /** The alignment a step asks of an output, if it is such a step. */
  function AlignmentAt(recipe: seq<Step>, t: nat, name: string, wide: bool): Option<nat>
  {
    if t >= |recipe| || recipe[t].output != name then None
    else
      match recipe[t]
      case Align(_, align) => Some(align)
      case AlignWide(_, align) => if wide then Some(align) else None
      case _ => None
  }

  predicate InsertsAt(recipe: seq<Step>, t: nat, name: string)
  {
    t < |recipe| && recipe[t].Insert? && recipe[t].output == name
  }

  predicate FallsAt(recipe: seq<Step>, t: nat, name: string, wide: bool)
  {
    InsertsAt(recipe, t, name) || AlignmentAt(recipe, t, name, wide).Some?
  }

  /** The first `k` steps that leave a mark in the section. */
  function MarkSteps(recipe: seq<Step>, k: nat, name: string, wide: bool): seq<nat>
  {
    if k == 0 then []
    else MarkSteps(recipe, k - 1, name, wide) + (if FallsAt(recipe, k - 1, name, wide) then [k - 1] else [])
  }

  function StepsOf(marks: seq<Mark>): (r: seq<nat>)
    ensures |r| == |marks|
  {
    seq(|marks|, i requires 0 <= i < |marks| => marks[i].step)
  }

  /** The markers of a section, out of its marks: name, section, offset. */
  function MarkersOf(recipe: seq<Step>, marks: seq<Mark>, at: nat): seq<(Marker, nat, nat)>
    decreases |marks|
  {
    if marks == [] then []
    else
      var last := marks[|marks| - 1];
      MarkersOf(recipe, marks[..|marks| - 1], at)
      + (if last.step < |recipe| && recipe[last.step].Insert? then [(recipe[last.step].marker, at, last.offset)] else [])
  }

  predicate AlignedTo(offset: nat, align: Option<nat>)
  {
    align.Some? && align.value > 0 ==> offset % align.value == 0 || offset + align.value > U32
  }

  /** A mark at an alignment, or right after one, is aligned. */
  predicate MarkAligned(recipe: seq<Step>, mark: Mark, name: string, wide: bool)
  {
    && AlignedTo(mark.offset, AlignmentAt(recipe, mark.step, name, wide))
    && (mark.step > 0 && InsertsAt(recipe, mark.step, name) ==> AlignedTo(mark.offset, AlignmentAt(recipe, mark.step - 1, name, wide)))
  }

  predicate MarksAligned(recipe: seq<Step>, marks: seq<Mark>, name: string, wide: bool)
  {
    forall i :: 0 <= i < |marks| ==> marks[i].step < |recipe| && MarkAligned(recipe, marks[i], name, wide)
  }

  /** Some chunk of step `t` holds the piece. */
  predicate Holds(chunks: seq<Chunk>, t: nat, piece: Piece, size: nat)
  {
    exists i :: 0 <= i < |chunks| && chunks[i].step == t && chunks[i].piece == piece && chunks[i].size == size
  }

  function Pointer(input: Input): nat
  {
    if input.pe32 then 4 else 8
  }

  /** What a marker inserts and reserves is there. */
  predicate Filled(chunks: seq<Chunk>, t: nat, bytes: seq<Byte>, reserved: nat)
  {
    (bytes != [] ==> Holds(chunks, t, Fill(bytes), |bytes|)) && (reserved > 0 ==> Holds(chunks, t, Zero, reserved))
  }

  predicate AllFilled(chunks: seq<Chunk>, recipe: seq<Step>, k: nat, name: string, input: Input)
  {
    forall t: nat :: t < k && InsertsAt(recipe, t, name) ==>
      Filled(chunks, t, MarkerBytes(recipe[t].marker, Pointer(input)), Reserved(recipe[t].marker, input))
  }

  predicate NoInserts(recipe: seq<Step>, k: nat, name: string)
  {
    forall t: nat :: t < k ==> !InsertsAt(recipe, t, name)
  }

  // ---- What a section comes to ----

  /** The first contribution of a step from `k` on. */
  function Cursor(list: seq<Placed>, k: nat): (r: nat)
    ensures r <= |list| && forall i :: 0 <= i < r ==> list[i].step < k
    ensures r < |list| ==> list[r].step >= k
    decreases |list|
  {
    if list == [] || list[0].step >= k then 0 else 1 + Cursor(list[1..], k)
  }

  /** The contributions of step `k`: in a list by rising step they are one run. */
  function OfStep(list: seq<Placed>, k: nat): seq<Placed>
  {
    var (from, to) := (Cursor(list, k), Cursor(list, k + 1));
    if from <= to then list[from..to] else []
  }

  /** The draft with each of a list of contributions pushed. */
  function PushAll(d: Draft, list: seq<Placed>, input: Input): Draft
    decreases |list|
  {
    if list == [] then d
    else
      var (rest, last) := (PushAll(d, list[..|list| - 1], input), list[|list| - 1]);
      var section := SectionOf(input.files, last.file, last.section);
      if section.Some? then PushInput(rest, section.value, last, input.blocks) else rest
  }

  /** A marker of the section, as step `k` inserts it. */
  function PushInsert(d: Draft, recipe: seq<Step>, k: nat, name: string, input: Input): Draft
  {
    if !InsertsAt(recipe, k, name) then d
    else PushMarker(d, MarkerBytes(recipe[k].marker, Pointer(input)), Reserved(recipe[k].marker, input), k)
  }

  /** The draft after one more step. */
  function OneStep(d: Draft, recipe: seq<Step>, k: nat, name: string, list: seq<Placed>, input: Input): Draft
  {
    var align := AlignmentAt(recipe, k, name, !input.pe32);
    if InsertsAt(recipe, k, name) then PushInsert(d, recipe, k, name, input)
    else if align.Some? then PushAlign(d, align.value, k)
    else if k < |recipe| && recipe[k].Place? then PushAll(d, OfStep(list, k), input)
    else d
  }

  /** The draft after the first `k` steps. */
  function StepDraft(recipe: seq<Step>, k: nat, name: string, list: seq<Placed>, input: Input): Draft
  {
    if k == 0 then Draft([], 0, []) else OneStep(StepDraft(recipe, k - 1, name, list, input), recipe, k - 1, name, list, input)
  }

  /** Zero chunks of the given sizes and alignments. */
  function PushZeros(d: Draft, zeros: seq<Common>): Draft
    decreases |zeros|
  {
    if zeros == [] then d
    else
      var (rest, last) := (PushZeros(d, zeros[..|zeros| - 1]), zeros[|zeros| - 1]);
      Push(rest, AlignUp32(rest.offset, AtLeast1(last.align)), last.size, Zero, NO_STEP)
  }

  /** The commons a section holds. */
  function CommonsOf(name: string, input: Input): seq<Common>
  {
    if name == ".bss" then input.commons else []
  }

  function WithAlign(sizes: seq<nat>, align: nat): (r: seq<Common>)
    ensures |r| == |sizes|
  {
    seq(|sizes|, i requires 0 <= i < |sizes| => Common(sizes[i], align))
  }

  /** The whole section: the steps, the contributions of no step, the commons, the generated sections. */
  function FinalDraft(recipe: seq<Step>, name: string, align: nat, list: seq<Placed>, pending: seq<nat>, input: Input): Draft
  {
    var placed := PushAll(StepDraft(recipe, |recipe|, name, list, input), OfStep(list, NO_STEP), input);
    PushZeros(PushZeros(placed, CommonsOf(name, input)), WithAlign(pending, AtLeast1(align)))
  }

  // ---- What the draft keeps ----

  /** The draft after the first `k` steps. */
  ghost predicate After(d: Draft, recipe: seq<Step>, k: nat, name: string, input: Input)
  {
    && Sound(d, input)
    && StepsOf(d.marks) == MarkSteps(recipe, k, name, !input.pe32)
    && MarksAligned(recipe, d.marks, name, !input.pe32)
    && AllFilled(d.chunks, recipe, k, name, input)
  }

  predicate StepsBelow(d: Draft, k: nat)
  {
    && (forall i :: 0 <= i < |d.chunks| ==> d.chunks[i].step < k)
    && (forall i :: 0 <= i < |d.marks| ==> d.marks[i].step < k)
  }

  /** The offset respects the alignment of the step before. */
  predicate OffsetAligned(recipe: seq<Step>, k: nat, name: string, wide: bool, offset: nat)
  {
    k > 0 ==> AlignedTo(offset, AlignmentAt(recipe, k - 1, name, wide))
  }

  /** What holds between two steps. */
  ghost predicate Between(d: Draft, recipe: seq<Step>, k: nat, name: string, input: Input)
  {
    After(d, recipe, k, name, input) && StepsBelow(d, k) && OffsetAligned(recipe, k, name, !input.pe32, d.offset)
  }

  lemma HoldsMore(chunks: seq<Chunk>, more: seq<Chunk>, t: nat, piece: Piece, size: nat)
    requires Holds(chunks, t, piece, size)
    ensures Holds(chunks + more, t, piece, size)
  {
    var i :| 0 <= i < |chunks| && chunks[i].step == t && chunks[i].piece == piece && chunks[i].size == size;
    assert (chunks + more)[i] == chunks[i];
  }

  lemma FilledMore(chunks: seq<Chunk>, more: seq<Chunk>, recipe: seq<Step>, k: nat, name: string, input: Input)
    requires AllFilled(chunks, recipe, k, name, input)
    ensures AllFilled(chunks + more, recipe, k, name, input)
  {
    hide MarkerBytes, Reserved, Holds;
    forall t: nat | t < k && InsertsAt(recipe, t, name)
      ensures Filled(chunks + more, t, MarkerBytes(recipe[t].marker, Pointer(input)), Reserved(recipe[t].marker, input))
    {
      var (bytes, reserved) := (MarkerBytes(recipe[t].marker, Pointer(input)), Reserved(recipe[t].marker, input));
      assert Filled(chunks, t, bytes, reserved);
      if bytes != [] { HoldsMore(chunks, more, t, Fill(bytes), |bytes|); }
      if reserved > 0 { HoldsMore(chunks, more, t, Zero, reserved); }
    }
  }

  lemma AlignStep(d: Draft, recipe: seq<Step>, k: nat, name: string, input: Input, align: nat)
    requires AlignmentAt(recipe, k, name, !input.pe32) == Some(align)
    requires Between(d, recipe, k, name, input)
    ensures Between(PushAlign(d, align, k), recipe, k + 1, name, input)
  {
    var d' := PushAlign(d, align, k);
    PushAlignSound(d, align, k, input);
    AlignUp32Aligns(d.offset, align);
    assert StepsOf(d'.marks) == StepsOf(d.marks) + [k];
    hide Sound, Filled, ZeroChunks, AlignUp32, AlignmentAt, AlignedTo;
    assert MarksAligned(recipe, d'.marks, name, !input.pe32);
  }

  lemma InsertStep(d: Draft, recipe: seq<Step>, k: nat, name: string, input: Input)
    requires InsertsAt(recipe, k, name)
    requires Between(d, recipe, k, name, input)
    ensures Between(PushInsert(d, recipe, k, name, input), recipe, k + 1, name, input)
    ensures Inputs(PushInsert(d, recipe, k, name, input).chunks) == Inputs(d.chunks)
  {
    var (bytes, reserved) := (MarkerBytes(recipe[k].marker, Pointer(input)), Reserved(recipe[k].marker, input));
    var d' := PushMarker(d, bytes, reserved, k);
    hide MarkerBytes, Reserved, AllFilled, MarksAligned, StepsOf, MarkSteps;
    assert StepsBy(d, k);
    PushMarkerSound(d, bytes, reserved, k, input);
    PushMarkerPairs(d, bytes, reserved, k);
    MarkerFilled(d, bytes, reserved, k);
    hide Sound, PushMarker;
    FilledMore(d.chunks, d'.chunks[|d.chunks|..], recipe, k, name, input);
    FilledNext(d'.chunks, recipe, k, name, input);
    MarksNext(d.marks, d.offset, recipe, k, name, !input.pe32);
  }

  lemma FilledNext(chunks: seq<Chunk>, recipe: seq<Step>, k: nat, name: string, input: Input)
    requires InsertsAt(recipe, k, name)
    requires Filled(chunks, k, MarkerBytes(recipe[k].marker, Pointer(input)), Reserved(recipe[k].marker, input))
    requires AllFilled(chunks, recipe, k, name, input)
    ensures AllFilled(chunks, recipe, k + 1, name, input)
  {
    hide Filled, MarkerBytes, Reserved, Pointer;
  }

  lemma MarksNext(marks: seq<Mark>, offset: nat, recipe: seq<Step>, k: nat, name: string, wide: bool)
    requires InsertsAt(recipe, k, name)
    requires StepsOf(marks) == MarkSteps(recipe, k, name, wide) && MarksAligned(recipe, marks, name, wide)
    requires OffsetAligned(recipe, k, name, wide, offset)
    ensures StepsOf(marks + [Mark(k, offset)]) == MarkSteps(recipe, k + 1, name, wide)
    ensures MarksAligned(recipe, marks + [Mark(k, offset)], name, wide)
    ensures forall o {:trigger OffsetAligned(recipe, k + 1, name, wide, o)} :: OffsetAligned(recipe, k + 1, name, wide, o)
  {
    assert AlignmentAt(recipe, k, name, wide).None?;
    assert StepsOf(marks + [Mark(k, offset)]) == StepsOf(marks) + [k];
    hide AlignmentAt, AlignedTo;
  }

  lemma MarkerFilled(d: Draft, bytes: seq<Byte>, reserved: nat, k: nat)
    ensures var d' := PushMarker(d, bytes, reserved, k);
      && Filled(d'.chunks, k, bytes, reserved)
      && |d.chunks| <= |d'.chunks| && d'.chunks == d.chunks + d'.chunks[|d.chunks|..]
  {
    var d' := PushMarker(d, bytes, reserved, k);
    var n := |d.chunks|;
    if bytes != [] {
      assert d'.chunks[n] == Chunk(d.offset, |bytes|, Fill(bytes), k);
    }
    if reserved > 0 {
      assert d'.chunks[|d'.chunks| - 1].piece == Zero;
    }
  }

  /** A step that does nothing more to this section. */
  lemma SkipStep(d: Draft, recipe: seq<Step>, k: nat, name: string, input: Input)
    requires !FallsAt(recipe, k, name, !input.pe32)
    requires After(d, recipe, k, name, input)
    ensures After(d, recipe, k + 1, name, input)
    ensures OffsetAligned(recipe, k + 1, name, !input.pe32, d.offset)
  {
    hide Sound, Filled, MarksAligned;
  }

  // ---- Contributions ----

  /** What the contributions of an output section satisfy: live, by rising step, each of a placing step or of none. */
  predicate ListFits(list: seq<Placed>, recipe: seq<Step>, files: seq<InFile>)
  {
    && |recipe| < NO_STEP
    && (forall i :: 0 <= i < |list| ==> IsLive(files, list[i].file, list[i].section))
    && (forall i :: 0 <= i < |list| ==> list[i].step == NO_STEP || (list[i].step < |recipe| && recipe[list[i].step].Place?))
    && (forall i, j :: 0 <= i < j < |list| ==> list[i].step <= list[j].step)
  }

  predicate Rising(list: seq<Placed>)
  {
    forall i, j :: 0 <= i < j < |list| ==> list[i].step <= list[j].step
  }

  lemma StepIsRun(list: seq<Placed>, k: nat)
    requires Rising(list)
    ensures Cursor(list, k) <= Cursor(list, k + 1) <= |list|
    ensures OfStep(list, k) == list[Cursor(list, k)..Cursor(list, k + 1)]
  {
  }

  /** Every contribution has a step: that of no step included. */
  lemma LastRun(list: seq<Placed>, recipe: seq<Step>, files: seq<InFile>)
    requires ListFits(list, recipe, files)
    ensures OfStep(list, NO_STEP) == list[Cursor(list, |recipe|)..]
  {
    var c := Cursor(list, |recipe|);
    if c < |list| { assert list[c].step == NO_STEP; }
    hide Cursor;
    CursorIs(list, NO_STEP, c);
    CursorIs(list, NO_STEP + 1, |list|);
    assert list[c..|list|] == list[c..];
  }

  lemma {:induction false} CursorIs(list: seq<Placed>, k: nat, c: nat)
    requires c <= |list| && (forall i :: 0 <= i < c ==> list[i].step < k) && (c < |list| ==> list[c].step >= k)
    ensures Cursor(list, k) == c
    decreases |list|
  {
    if c > 0 { CursorIs(list[1..], k, c - 1); }
  }

  lemma NoneAtStep(list: seq<Placed>, recipe: seq<Step>, files: seq<InFile>, k: nat)
    requires ListFits(list, recipe, files)
    requires k < |recipe| && !recipe[k].Place?
    ensures Cursor(list, k + 1) == Cursor(list, k)
  {
    var c := Cursor(list, k);
    if c < |list| { assert list[c].step != k; }
  }

  lemma PushInputExtends(d: Draft, section: InSection, placed: Placed, blocks: Blocks)
    ensures d.chunks <= PushInput(d, section, placed, blocks).chunks
  {
    hide BlockSize, AlignUp32;
  }

  lemma PlaceStep(d: Draft, recipe: seq<Step>, k: nat, name: string, section: InSection, placed: Placed, input: Input)
    requires SectionOf(input.files, placed.file, placed.section) == Some(section)
    requires After(d, recipe, k, name, input) && StepsBy(d, placed.step)
    ensures var d' := PushInput(d, section, placed, input.blocks);
      && After(d', recipe, k, name, input) && StepsBy(d', placed.step)
      && d'.marks == d.marks
      && Inputs(d'.chunks) == Inputs(d.chunks) + [(placed.step, placed.file, placed.section)]
      && ZeroChunks(d'.chunks) == ZeroChunks(d.chunks)
  {
    var d' := PushInput(d, section, placed, input.blocks);
    PushInputSound(d, section, placed, input);
    PushInputPairs(d, section, placed, input.blocks);
    PushInputExtends(d, section, placed, input.blocks);
    hide PushInput, Sound, Filled;
    FilledMore(d.chunks, d'.chunks[|d.chunks|..], recipe, k, name, input);
  }

  predicate AllAt(list: seq<Placed>, step: nat, files: seq<InFile>)
  {
    forall i :: 0 <= i < |list| ==> list[i].step == step && IsLive(files, list[i].file, list[i].section)
  }

  /** `d` is `d0` with the contributions of `list` added, in order, and nothing else changed. */
  ghost predicate Pushed(d: Draft, d0: Draft, list: seq<Placed>, step: nat, recipe: seq<Step>, k: nat, name: string, input: Input)
  {
    && After(d, recipe, k, name, input) && StepsBy(d, step) && d.marks == d0.marks
    && Inputs(d.chunks) == Inputs(d0.chunks) + Placements(list) && ZeroChunks(d.chunks) == ZeroChunks(d0.chunks)
  }

  lemma PushAllLast(d: Draft, init: seq<Placed>, last: Placed, input: Input)
    ensures var (rest, section) := (PushAll(d, init, input), SectionOf(input.files, last.file, last.section));
      PushAll(d, init + [last], input) == if section.Some? then PushInput(rest, section.value, last, input.blocks) else rest
  {
    assert (init + [last])[..|init|] == init;
    hide PushInput, SectionOf;
  }

  lemma PushedNone(d: Draft, step: nat, recipe: seq<Step>, k: nat, name: string, input: Input)
    requires After(d, recipe, k, name, input) && StepsBy(d, step)
    ensures Pushed(d, d, [], step, recipe, k, name, input)
  {
    hide After, StepsBy, Inputs, ZeroChunks;
    assert Inputs(d.chunks) + Placements([]) == Inputs(d.chunks);
  }

  lemma PushedNext(d: Draft, d0: Draft, list: seq<Placed>, last: Placed, section: InSection, recipe: seq<Step>, k: nat, name: string, input: Input)
    requires SectionOf(input.files, last.file, last.section) == Some(section)
    requires Pushed(d, d0, list, last.step, recipe, k, name, input)
    ensures Pushed(PushInput(d, section, last, input.blocks), d0, list + [last], last.step, recipe, k, name, input)
  {
    hide After, StepsBy, Inputs, ZeroChunks, PushInput, SectionOf;
    PlaceStep(d, recipe, k, name, section, last, input);
    assert Placements(list + [last]) == Placements(list) + [(last.step, last.file, last.section)];
    hide Placements;
  }

  /** Pushing the contributions of one step keeps everything and adds them in order. */
  lemma {:induction false} PushAllKeeps(d: Draft, list: seq<Placed>, step: nat, recipe: seq<Step>, k: nat, name: string, input: Input)
    requires AllAt(list, step, input.files)
    requires After(d, recipe, k, name, input) && StepsBy(d, step)
    ensures Pushed(PushAll(d, list, input), d, list, step, recipe, k, name, input)
    decreases |list|
  {
    if list == [] {
      PushedNone(d, step, recipe, k, name, input);
      hide Pushed, After, StepsBy;
    } else {
      var (init, last) := (list[..|list| - 1], list[|list| - 1]);
      assert list == init + [last];
      assert AllAt(init, step, input.files) && last.step == step && SectionOf(input.files, last.file, last.section).Some?;
      hide *;
      PushAllLast(d, init, last, input);
      PushAllKeeps(d, init, step, recipe, k, name, input);
      PushedNext(PushAll(d, init, input), d, init, last, SectionOf(input.files, last.file, last.section).value, recipe, k, name, input);
    }
  }

  lemma PlacementsSplit(list: seq<Placed>, from: nat, to: nat)
    requires from <= to <= |list|
    ensures Placements(list[..to]) == Placements(list[..from]) + Placements(list[from..to])
  {
  }

  /** What holds of the draft after `k` steps. */
  ghost predicate Stepped(d: Draft, recipe: seq<Step>, k: nat, name: string, list: seq<Placed>, input: Input)
  {
    && Between(d, recipe, k, name, input)
    && Inputs(d.chunks) == Placements(list[..Cursor(list, k)])
    && (NoInserts(recipe, k, name) ==> ZeroChunks(d.chunks) == [])
  }

  lemma StepFits(list: seq<Placed>, recipe: seq<Step>, files: seq<InFile>, k: nat)
    requires ListFits(list, recipe, files)
    ensures Rising(list) && AllAt(OfStep(list, k), k, files)
  {
    StepIsRun(list, k);
  }

  lemma PlaceKeeps(d: Draft, recipe: seq<Step>, k: nat, name: string, list: seq<Placed>, input: Input)
    requires k < |recipe| && recipe[k].Place?
    requires ListFits(list, recipe, input.files) && Stepped(d, recipe, k, name, list, input)
    ensures Stepped(PushAll(d, OfStep(list, k), input), recipe, k + 1, name, list, input)
  {
    StepFits(list, recipe, input.files, k);
    StepIsRun(list, k);
    assert StepsBy(d, k);
    assert !FallsAt(recipe, k, name, !input.pe32);
    hide After, Inputs, Placements, ZeroChunks, PushAll, FallsAt, ListFits, OffsetAligned, OfStep, Cursor, AllAt, Rising, StepsBelow, StepsBy, NoInserts;
    var d' := PushAll(d, OfStep(list, k), input);
    PushAllKeeps(d, OfStep(list, k), k, recipe, k, name, input);
    PlacementsSplit(list, Cursor(list, k), Cursor(list, k + 1));
    SkipStep(d', recipe, k, name, input);
    StepsByBelow(d', k);
    NoInsertsLess(recipe, k, name);
  }

  lemma StepsByBelow(d: Draft, k: nat)
    requires StepsBy(d, k)
    ensures StepsBelow(d, k + 1)
  {
  }

  lemma NoInsertsLess(recipe: seq<Step>, k: nat, name: string)
    ensures NoInserts(recipe, k + 1, name) ==> NoInserts(recipe, k, name)
  {
  }

  lemma OneStepKeeps(d: Draft, recipe: seq<Step>, k: nat, name: string, list: seq<Placed>, input: Input)
    requires k < |recipe|
    requires ListFits(list, recipe, input.files) && Stepped(d, recipe, k, name, list, input)
    ensures Stepped(OneStep(d, recipe, k, name, list, input), recipe, k + 1, name, list, input)
  {
    hide After, StepsBelow, OffsetAligned, Inputs, Placements, ZeroChunks, ListFits, PushAll, PushInsert, PushAlign, Cursor;
    if recipe[k].Place? {
      PlaceKeeps(d, recipe, k, name, list, input);
    } else {
      NoneAtStep(list, recipe, input.files, k);
      if InsertsAt(recipe, k, name) {
        InsertStep(d, recipe, k, name, input);
        assert !NoInserts(recipe, k + 1, name);
      } else if AlignmentAt(recipe, k, name, !input.pe32).Some? {
        AlignStep(d, recipe, k, name, input, AlignmentAt(recipe, k, name, !input.pe32).value);
        AlignChunks(d, AlignmentAt(recipe, k, name, !input.pe32).value, k);
      } else {
        SkipStep(d, recipe, k, name, input);
        BelowMore(d, k);
      }
    }
  }

  lemma AlignChunks(d: Draft, align: nat, step: nat)
    ensures PushAlign(d, align, step).chunks == d.chunks
  {
  }

  lemma BelowMore(d: Draft, k: nat)
    requires StepsBelow(d, k)
    ensures StepsBelow(d, k + 1)
  {
  }

  lemma {:induction false} StepDraftKeeps(recipe: seq<Step>, k: nat, name: string, list: seq<Placed>, input: Input)
    requires k <= |recipe| && ListFits(list, recipe, input.files)
    ensures Stepped(StepDraft(recipe, k, name, list, input), recipe, k, name, list, input)
  {
    hide *;
    StepDraftIs(recipe, k, name, list, input);
    if k == 0 {
      NothingStepped(recipe, name, list, input);
    } else {
      StepDraftKeeps(recipe, k - 1, name, list, input);
      OneStepKeeps(StepDraft(recipe, k - 1, name, list, input), recipe, k - 1, name, list, input);
    }
  }

  lemma StepDraftIs(recipe: seq<Step>, k: nat, name: string, list: seq<Placed>, input: Input)
    ensures StepDraft(recipe, k, name, list, input)
         == if k == 0 then Draft([], 0, []) else OneStep(StepDraft(recipe, k - 1, name, list, input), recipe, k - 1, name, list, input)
  {
    hide OneStep;
  }

  lemma NothingAfter(recipe: seq<Step>, name: string, input: Input)
    ensures Between(Draft([], 0, []), recipe, 0, name, input)
  {
    assert StepsOf([]) == [];
    hide Packed, Divides, IsBlock, NeedsBlock, IsWhole, MarkAligned, Filled, InsertsAt, AlignmentAt;
  }

  lemma NothingStepped(recipe: seq<Step>, name: string, list: seq<Placed>, input: Input)
    ensures Stepped(Draft([], 0, []), recipe, 0, name, list, input)
  {
    NothingAfter(recipe, name, input);
    var d := Draft([], 0, []);
    assert Cursor(list, 0) == 0;
    assert Placements(list[..0]) == [];
    hide Cursor, Placements, Between, NoInserts;
    assert Inputs(d.chunks) == Placements(list[..Cursor(list, 0)]) && ZeroChunks(d.chunks) == [];
    assert Between(d, recipe, 0, name, input);
  }

  // ---- Common symbols and generated sections ----

  /** The zero chunks have these sizes and alignments, in order. */
  predicate ZerosAre(chunks: seq<Chunk>, zeros: seq<Common>)
  {
    && |chunks| == |zeros|
    && forall i :: 0 <= i < |zeros| ==> chunks[i].size == zeros[i].size && AlignedTo(chunks[i].offset, Some(zeros[i].align))
  }

  lemma ZeroStep(d: Draft, recipe: seq<Step>, name: string, zero: Common, input: Input)
    requires After(d, recipe, |recipe|, name, input) && StepsBy(d, NO_STEP)
    ensures var at := AlignUp32(d.offset, AtLeast1(zero.align));
      var d' := Push(d, at, zero.size, Zero, NO_STEP);
      && After(d', recipe, |recipe|, name, input) && StepsBy(d', NO_STEP)
      && d'.marks == d.marks && Inputs(d'.chunks) == Inputs(d.chunks)
      && ZeroChunks(d'.chunks) == ZeroChunks(d.chunks) + [Chunk(at, zero.size, Zero, NO_STEP)]
      && AlignedTo(at, Some(zero.align))
  {
    var at := AlignUp32(d.offset, AtLeast1(zero.align));
    AlignUp32Aligns(d.offset, AtLeast1(zero.align));
    PushSound(d, at, zero.size, Zero, NO_STEP, input);
    InputsPush(d.chunks, Chunk(at, zero.size, Zero, NO_STEP));
    FilledMore(d.chunks, [Chunk(at, zero.size, Zero, NO_STEP)], recipe, |recipe|, name, input);
  }

  /** `d` is `d0` with the zero chunks added, in order, and nothing else changed. */
  ghost predicate Zeroed(d: Draft, d0: Draft, more: seq<Chunk>, zeros: seq<Common>, recipe: seq<Step>, name: string, input: Input)
  {
    && After(d, recipe, |recipe|, name, input) && StepsBy(d, NO_STEP) && d.marks == d0.marks
    && Inputs(d.chunks) == Inputs(d0.chunks)
    && ZeroChunks(d.chunks) == ZeroChunks(d0.chunks) + more && ZerosAre(more, zeros)
  }

  lemma ZeroedNext(d: Draft, d0: Draft, more: seq<Chunk>, zeros: seq<Common>, last: Common, recipe: seq<Step>, name: string, input: Input)
    requires Zeroed(d, d0, more, zeros, recipe, name, input)
    ensures var at := AlignUp32(d.offset, AtLeast1(last.align));
      Zeroed(Push(d, at, last.size, Zero, NO_STEP), d0, more + [Chunk(at, last.size, Zero, NO_STEP)], zeros + [last], recipe, name, input)
  {
    hide After, StepsBy, Inputs, ZeroChunks, Push, AlignUp32, AlignedTo;
    ZeroStep(d, recipe, name, last, input);
    var c := Chunk(AlignUp32(d.offset, AtLeast1(last.align)), last.size, Zero, NO_STEP);
    assert ZeroChunks(d0.chunks) + more + [c] == ZeroChunks(d0.chunks) + (more + [c]);
  }

  lemma ZeroedNone(d: Draft, recipe: seq<Step>, name: string, input: Input)
    requires After(d, recipe, |recipe|, name, input) && StepsBy(d, NO_STEP)
    ensures Zeroed(d, d, [], [], recipe, name, input)
  {
    hide After, StepsBy, Inputs, ZeroChunks;
    assert ZeroChunks(d.chunks) + [] == ZeroChunks(d.chunks);
  }

  /** Zero chunks are pushed in order, aligned, and nothing else changes. */
  lemma {:induction false} PushZerosKeeps(d: Draft, zeros: seq<Common>, recipe: seq<Step>, name: string, input: Input) returns (more: seq<Chunk>)
    requires After(d, recipe, |recipe|, name, input) && StepsBy(d, NO_STEP)
    ensures Zeroed(PushZeros(d, zeros), d, more, zeros, recipe, name, input)
    decreases |zeros|
  {
    more := [];
    if zeros == [] {
      ZeroedNone(d, recipe, name, input);
      hide Zeroed;
    } else {
      hide Zeroed, After, StepsBy, Push, AlignUp32;
      var (init, last) := (zeros[..|zeros| - 1], zeros[|zeros| - 1]);
      more := PushZerosKeeps(d, init, recipe, name, input);
      var rest := PushZeros(d, init);
      ZeroedNext(rest, d, more, init, last, recipe, name, input);
      more := more + [Chunk(AlignUp32(rest.offset, AtLeast1(last.align)), last.size, Zero, NO_STEP)];
      assert zeros == init + [last];
    }
  }

  /** Everything promised of a placed output section. */
  ghost predicate PlacedWell(d: Draft, recipe: seq<Step>, name: string, align: nat, list: seq<Placed>, pending: seq<nat>, input: Input)
  {
    && After(d, recipe, |recipe|, name, input)
    && Inputs(d.chunks) == Placements(list)
    && (NoInserts(recipe, |recipe|, name) ==>
          ZerosAre(ZeroChunks(d.chunks), CommonsOf(name, input) + WithAlign(pending, AtLeast1(align))))
  }

  /** A section holds its contributions in order, its markers, commons and generated parts. */
  lemma FinalPlaced(recipe: seq<Step>, name: string, align: nat, list: seq<Placed>, pending: seq<nat>, input: Input)
    requires ListFits(list, recipe, input.files)
    ensures PlacedWell(FinalDraft(recipe, name, align, list, pending, input), recipe, name, align, list, pending, input)
  {
    hide Pushed, Zeroed, PushAll, PushZeros, StepDraft, OfStep, ListFits, ZerosAre, CommonsOf, WithAlign, PlacedWell, After, StepsBy;
    var d0 := StepDraft(recipe, |recipe|, name, list, input);
    var d1 := AllPlaced(recipe, name, list, input);
    var first := PushZerosKeeps(d1, CommonsOf(name, input), recipe, name, input);
    var d2 := PushZeros(d1, CommonsOf(name, input));
    ZeroedAfter(d2, d1, first, CommonsOf(name, input), recipe, name, input);
    var second := PushZerosKeeps(d2, WithAlign(pending, AtLeast1(align)), recipe, name, input);
    FinalJoin(d1, d2, PushZeros(d2, WithAlign(pending, AtLeast1(align))), first, second, recipe, name, align, list, pending, input);
  }

  lemma ZeroedAfter(d: Draft, d0: Draft, more: seq<Chunk>, zeros: seq<Common>, recipe: seq<Step>, name: string, input: Input)
    requires Zeroed(d, d0, more, zeros, recipe, name, input)
    ensures After(d, recipe, |recipe|, name, input) && StepsBy(d, NO_STEP)
  {
    hide After, StepsBy, ZerosAre, Inputs, ZeroChunks;
  }

  /** The steps, and then the contributions of no step: that is all of them. */
  lemma AllPlaced(recipe: seq<Step>, name: string, list: seq<Placed>, input: Input) returns (d: Draft)
    requires ListFits(list, recipe, input.files)
    ensures d == PushAll(StepDraft(recipe, |recipe|, name, list, input), OfStep(list, NO_STEP), input)
    ensures After(d, recipe, |recipe|, name, input) && StepsBy(d, NO_STEP) && Inputs(d.chunks) == Placements(list)
    ensures NoInserts(recipe, |recipe|, name) ==> ZeroChunks(d.chunks) == []
  {
    var d0, rest := StepDraft(recipe, |recipe|, name, list, input), OfStep(list, NO_STEP);
    d := PushAll(d0, rest, input);
    StepDraftKeeps(recipe, |recipe|, name, list, input);
    LastRun(list, recipe, input.files);
    StepFits(list, recipe, input.files, NO_STEP);
    BelowLast(d0, recipe, list, input.files);
    hide After, StepsBy, Inputs, Placements, ZeroChunks, PushAll, StepDraft, OfStep, Cursor, ListFits, NoInserts, AllAt, OffsetAligned, StepsBelow, Rising;
    PushAllKeeps(d0, rest, NO_STEP, recipe, |recipe|, name, input);
    PlacementsSplit(list, Cursor(list, |recipe|), |list|);
    assert list[..|list|] == list && list[Cursor(list, |recipe|)..|list|] == list[Cursor(list, |recipe|)..];
  }

  lemma BelowLast(d: Draft, recipe: seq<Step>, list: seq<Placed>, files: seq<InFile>)
    requires ListFits(list, recipe, files)
    ensures StepsBelow(d, |recipe|) ==> StepsBy(d, NO_STEP)
  {
  }

  lemma FinalJoin(d1: Draft, d2: Draft, d: Draft, first: seq<Chunk>, second: seq<Chunk>, recipe: seq<Step>, name: string, align: nat, list: seq<Placed>, pending: seq<nat>, input: Input)
    requires Inputs(d1.chunks) == Placements(list)
    requires NoInserts(recipe, |recipe|, name) ==> ZeroChunks(d1.chunks) == []
    requires Zeroed(d2, d1, first, CommonsOf(name, input), recipe, name, input)
    requires Zeroed(d, d2, second, WithAlign(pending, AtLeast1(align)), recipe, name, input)
    ensures PlacedWell(d, recipe, name, align, list, pending, input)
  {
    hide After, StepsBy, Inputs, Placements, ZeroChunks, ZerosAre, CommonsOf, WithAlign, NoInserts;
    ZerosJoin(first, second, CommonsOf(name, input), WithAlign(pending, AtLeast1(align)));
    assert [] + first + second == first + second;
  }

  lemma ZerosJoin(a: seq<Chunk>, b: seq<Chunk>, x: seq<Common>, y: seq<Common>)
    requires ZerosAre(a, x) && ZerosAre(b, y)
    ensures ZerosAre(a + b, x + y)
  {
  }

  function Highest(align: nat, commons: seq<Common>, n: nat): (r: nat)
    requires n <= |commons|
    ensures align <= r && forall i :: 0 <= i < n ==> AtLeast1(commons[i].align) <= r
  {
    if n == 0 then align
    else
      var rest := Highest(align, commons, n - 1);
      if rest < AtLeast1(commons[n - 1].align) then AtLeast1(commons[n - 1].align) else rest
  }

  // ---- Placing a section ----

  lemma PushAllNext(d: Draft, list: seq<Placed>, from: nat, to: nat, input: Input)
    requires from <= to < |list|
    ensures var (rest, section) := (PushAll(d, list[from..to], input), SectionOf(input.files, list[to].file, list[to].section));
      PushAll(d, list[from..to + 1], input) == if section.Some? then PushInput(rest, section.value, list[to], input.blocks) else rest
  {
    hide *;
    assert list[from..to + 1] == list[from..to] + [list[to]];
    PushAllLast(d, list[from..to], list[to], input);
  }

  lemma PushZerosNext(d: Draft, zeros: seq<Common>, i: nat)
    requires i < |zeros|
    ensures var rest := PushZeros(d, zeros[..i]);
      PushZeros(d, zeros[..i + 1]) == Push(rest, AlignUp32(rest.offset, AtLeast1(zeros[i].align)), zeros[i].size, Zero, NO_STEP)
  {
    assert zeros[..i + 1][..i] == zeros[..i];
  }

  lemma MarkersNext(recipe: seq<Step>, marks: seq<Mark>, mark: Mark, at: nat)
    ensures MarkersOf(recipe, marks + [mark], at)
         == MarkersOf(recipe, marks, at)
            + (if mark.step < |recipe| && recipe[mark.step].Insert? then [(recipe[mark.step].marker, at, mark.offset)] else [])
  {
    assert (marks + [mark])[..|marks|] == marks;
  }

  /** The contributions of one step. */
  method PlaceGroup(input: Input, ghost recipe: seq<Step>, list: seq<Placed>, step: nat, from: nat, d0: Draft) returns (d: Draft, cursor: nat)
    requires ListFits(list, recipe, input.files) && from == Cursor(list, step)
    ensures cursor == Cursor(list, step + 1)
    ensures d == PushAll(d0, OfStep(list, step), input)
  {
    d, cursor := d0, from;
    assert list[from..from] == [] && PushAll(d0, [], input) == d0;
    ListRises(list, recipe, input.files);
    StepIsRun(list, step);
    ghost var to := Cursor(list, step + 1);
    hide *;
    CursorAt(list, step, from);
    while cursor < |list| && list[cursor].step == step
      invariant from <= cursor <= to <= |list|
      invariant cursor < |list| && list[cursor].step == step <==> cursor < to
      invariant d == PushAll(d0, list[from..cursor], input)
    {
      var placed := list[cursor];
      PushAllNext(d0, list, from, cursor, input);
      ListLive(list, recipe, input.files, cursor);
      d := PushInput(d, SectionOf(input.files, placed.file, placed.section).value, placed, input.blocks);
      cursor := cursor + 1;
      CursorAt(list, step, cursor);
    }
  }

  lemma ListRises(list: seq<Placed>, recipe: seq<Step>, files: seq<InFile>)
    requires ListFits(list, recipe, files)
    ensures Rising(list)
  {
  }

  lemma CursorAt(list: seq<Placed>, k: nat, c: nat)
    requires Rising(list) && Cursor(list, k) <= c <= Cursor(list, k + 1)
    ensures Cursor(list, k + 1) <= |list|
    ensures c < |list| && list[c].step == k <==> c < Cursor(list, k + 1)
  {
  }

  lemma ListLive(list: seq<Placed>, recipe: seq<Step>, files: seq<InFile>, i: nat)
    requires i < |list| && ListFits(list, recipe, files)
    ensures SectionOf(files, list[i].file, list[i].section).Some?
  {
  }

  /** The contributions no step matched: all that are left. */
  method PlaceRest(input: Input, ghost recipe: seq<Step>, list: seq<Placed>, from: nat, d0: Draft) returns (d: Draft)
    requires ListFits(list, recipe, input.files) && from == Cursor(list, |recipe|)
    ensures d == PushAll(d0, OfStep(list, NO_STEP), input)
  {
    d := d0;
    var cursor := from;
    assert list[from..from] == [] && PushAll(d0, [], input) == d0;
    LastRun(list, recipe, input.files);
    hide PushInput, SectionOf, Cursor, OfStep, PushAll, ListFits;
    while cursor < |list|
      invariant from <= cursor <= |list|
      invariant d == PushAll(d0, list[from..cursor], input)
    {
      var placed := list[cursor];
      PushAllNext(d0, list, from, cursor, input);
      ListLive(list, recipe, input.files, cursor);
      d := PushInput(d, SectionOf(input.files, placed.file, placed.section).value, placed, input.blocks);
      cursor := cursor + 1;
    }
    assert list[from..cursor] == list[from..];
  }

  /** The steps of the recipe over one output section. */
  method PlaceSteps(recipe: seq<Step>, input: Input, name: string, list: seq<Placed>, at: nat)
    returns (d: Draft, markers: seq<(Marker, nat, nat)>, cursor: nat)
    requires ListFits(list, recipe, input.files)
    ensures d == StepDraft(recipe, |recipe|, name, list, input) && markers == MarkersOf(recipe, d.marks, at)
    ensures cursor == Cursor(list, |recipe|)
  {
    d, markers, cursor := Draft([], 0, []), [], 0;
    assert MarkersOf(recipe, [], at) == [];
    assert Cursor(list, 0) == 0 && StepDraft(recipe, 0, name, list, input) == d;
    hide *;
    for k := 0 to |recipe|
      invariant d == StepDraft(recipe, k, name, list, input) && markers == MarkersOf(recipe, d.marks, at)
      invariant cursor == Cursor(list, k)
    {
      var step := recipe[k];
      StepDraftNext(recipe, k, name, list, input);
      if step.Place? {
        MarksSame(d, OfStep(list, k), input);
        d, cursor := PlaceGroup(input, recipe, list, k, cursor, d);
      } else {
        NoneAtStep(list, recipe, input.files, k);
        if step.Insert? && step.output == name {
          MarkersNext(recipe, d.marks, Mark(k, d.offset), at);
          MarkerMarks(d, MarkerBytes(step.marker, Pointer(input)), Reserved(step.marker, input), k);
          markers := markers + [(step.marker, at, d.offset)];
          d := PushMarker(d, MarkerBytes(step.marker, Pointer(input)), Reserved(step.marker, input), k);
        } else if (step.Align? && step.output == name) || (step.AlignWide? && !input.pe32 && step.output == name) {
          AlignMarks(recipe, d, step.align, k, at);
          d := PushAlign(d, step.align, k);
        }
      }
    }
  }

  lemma StepDraftNext(recipe: seq<Step>, k: nat, name: string, list: seq<Placed>, input: Input)
    requires k < |recipe|
    ensures var (step, d, d') := (recipe[k], StepDraft(recipe, k, name, list, input), StepDraft(recipe, k + 1, name, list, input));
      if step.Place? then d' == PushAll(d, OfStep(list, k), input)
      else if step.output != name then d' == d
      else if step.Insert? then d' == PushMarker(d, MarkerBytes(step.marker, Pointer(input)), Reserved(step.marker, input), k)
      else d' == if step.Align? || !input.pe32 then PushAlign(d, step.align, k) else d
  {
    hide PushMarker, PushAlign, PushAll, MarkerBytes, Reserved;
  }

  lemma AlignMarks(recipe: seq<Step>, d: Draft, align: nat, k: nat, at: nat)
    requires k < |recipe| && !recipe[k].Insert?
    ensures MarkersOf(recipe, PushAlign(d, align, k).marks, at) == MarkersOf(recipe, d.marks, at)
  {
    hide AlignUp32, MarkersOf;
    MarkersNext(recipe, d.marks, Mark(k, AlignUp32(d.offset, align)), at);
  }

  lemma MarkerMarks(d: Draft, bytes: seq<Byte>, reserved: nat, step: nat)
    ensures PushMarker(d, bytes, reserved, step).marks == d.marks + [Mark(step, d.offset)]
  {
  }

  lemma {:induction false} MarksSame(d: Draft, list: seq<Placed>, input: Input)
    ensures PushAll(d, list, input).marks == d.marks
    decreases |list|
  {
    if list != [] { MarksSame(d, list[..|list| - 1], input); }
    hide AlignUp32, BlockSize;
  }

  /** The common symbols, each aligned, as zero chunks. */
  method PlaceCommons(input: Input, align: nat, d0: Draft) returns (d: Draft, highest: nat)
    ensures d == PushZeros(d0, input.commons)
    ensures highest == Highest(align, input.commons, |input.commons|)
  {
    d, highest := d0, align;
    hide Push, AlignUp32;
    for i := 0 to |input.commons|
      invariant d == PushZeros(d0, input.commons[..i])
      invariant highest == Highest(align, input.commons, i)
    {
      PushZerosNext(d0, input.commons, i);
      var common := input.commons[i];
      var commonAlign := AtLeast1(common.align);
      if highest < commonAlign { highest := commonAlign; }
      d := Push(d, AlignUp32(d.offset, commonAlign), common.size, Zero, NO_STEP);
    }
    assert input.commons[..|input.commons|] == input.commons;
  }

  /** The generated sections, as zero chunks their bytes replace later. */
  method PlacePending(align: nat, pending: seq<nat>, d0: Draft) returns (d: Draft)
    requires align >= 1
    ensures d == PushZeros(d0, WithAlign(pending, align))
  {
    d := d0;
    ghost var zeros := WithAlign(pending, align);
    hide Push, AlignUp32;
    for i := 0 to |pending|
      invariant d == PushZeros(d0, zeros[..i])
    {
      PushZerosNext(d0, zeros, i);
      d := Push(d, AlignUp32(d.offset, align), pending[i], Zero, NO_STEP);
    }
    assert zeros[..|pending|] == zeros;
  }

  /** One output section: the recipe, the contributions of no step, the common symbols, the generated sections. */
  method PlaceSection(recipe: seq<Step>, input: Input, name: string, align: nat, list: seq<Placed>, pending: seq<nat>, at: nat)
    returns (d: Draft, markers: seq<(Marker, nat, nat)>, highest: nat)
    requires ListFits(list, recipe, input.files)
    ensures d == FinalDraft(recipe, name, align, list, pending, input) && PlacedWell(d, recipe, name, align, list, pending, input)
    ensures markers == MarkersOf(recipe, d.marks, at)
    ensures highest == Highest(align, CommonsOf(name, input), |CommonsOf(name, input)|)
  {
    FinalPlaced(recipe, name, align, list, pending, input);
    hide PlacedWell, StepDraft, PushAll, OfStep, MarkersOf, ListFits, Cursor;
    var cursor;
    d, markers, cursor := PlaceSteps(recipe, input, name, list, at);
    MarksSame(d, OfStep(list, NO_STEP), input);
    d := PlaceRest(input, recipe, list, cursor, d);
    highest := align;
    assert PushZeros(d, []) == d && Highest(align, [], 0) == align;
    ZeroMarks(d, CommonsOf(name, input));
    ZeroMarks(PushZeros(d, CommonsOf(name, input)), WithAlign(pending, AtLeast1(align)));
    hide PushZeros, Highest, WithAlign;
    if name == ".bss" {
      d, highest := PlaceCommons(input, align, d);
    }
    d := PlacePending(AtLeast1(align), pending, d);
  }

  lemma {:induction false} ZeroMarks(d: Draft, zeros: seq<Common>)
    ensures PushZeros(d, zeros).marks == d.marks
    decreases |zeros|
  {
    if zeros != [] { ZeroMarks(d, zeros[..|zeros| - 1]); }
  }
}
