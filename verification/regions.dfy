/** The regions the linker names, in every accepted layout of the recipe. */
module LayoutRegions {
  import opened Bits
  import opened Results
  import opened Sorting
  import opened LayoutModel
  import opened LayoutPlace
  import opened LayoutBuild
  import opened LayoutAssign
  import opened LayoutFinish
  import opened LayoutPlan
  import opened LayoutTheorems
  import opened LayoutRecipe

  /** An accepted layout of the linker's own recipe. */
  ghost predicate Laid(l: Layout, input: Input)
  {
    Accepted(l, Recipe(), Trailing(), input)
  }

  // ---- Looking a marker up ----

  /** The address of the first marker of a kind. */
  function MarkerFrom(markers: seq<(Marker, nat, nat)>, sections: seq<OutSection>, marker: Marker): Option<nat>
    decreases |markers|
  {
    if markers == [] then None
    else if markers[0].0 == marker then
      if markers[0].1 < |sections| then Some((sections[markers[0].1].rva + markers[0].2) % U32) else None
    else MarkerFrom(markers[1..], sections, marker)
  }

  function MarkerRva(l: Layout, marker: Marker): Option<nat>
  {
    MarkerFrom(l.markers, l.sections, marker)
  }

  lemma {:induction false} MarkerFromFinds(markers: seq<(Marker, nat, nat)>, sections: seq<OutSection>, marker: Marker) returns (x: (Marker, nat, nat))
    requires MarkerFrom(markers, sections, marker).Some?
    ensures x in markers && x.0 == marker && x.1 < |sections|
    ensures MarkerFrom(markers, sections, marker) == Some((sections[x.1].rva + x.2) % U32)
    decreases |markers|
  {
    if markers[0].0 == marker {
      x := markers[0];
    } else {
      x := MarkerFromFinds(markers[1..], sections, marker);
    }
  }

  /** A marker that is listed is found, if all that are listed have their section. */
  lemma {:induction false} MarkerFromSome(markers: seq<(Marker, nat, nat)>, sections: seq<OutSection>, x: (Marker, nat, nat))
    requires x in markers && forall y :: y in markers ==> y.1 < |sections|
    ensures MarkerFrom(markers, sections, x.0).Some?
    decreases |markers|
  {
    assert markers[0] in markers;
    if markers[0].0 != x.0 { MarkerFromSome(markers[1..], sections, x); }
  }

  lemma {:induction false} MarkStepsFall(recipe: seq<Step>, k: nat, name: string, wide: bool, t: nat)
    ensures t in MarkSteps(recipe, k, name, wide) <==> t < k && FallsAt(recipe, t, name, wide)
  {
    if k > 0 { MarkStepsFall(recipe, k - 1, name, wide, t); }
  }

  /** The marks of a section are where its markers and alignments fell, and no others. */
  lemma FinishedMarks(out: OutSection, recipe: seq<Step>, input: Input)
    requires Finished(out, recipe, input)
    ensures StepsOf(out.marks) == MarkSteps(recipe, |recipe|, out.name, !input.pe32)
    ensures MarksAligned(recipe, out.marks, out.name, !input.pe32) && AllFilled(out.chunks, recipe, |recipe|, out.name, input)
    ensures Inputs(out.chunks) == Placements(Contributions(recipe, input.files, out.name))
  {
    FinishedMeans(out, recipe, input);
    hide Finished, Sound, AllFilled, MarksAligned, StepsOf, MarkSteps, Inputs, Contributions;
  }

  lemma MarkFalls(out: OutSection, recipe: seq<Step>, input: Input, k: nat)
    requires k < |out.marks| && Finished(out, recipe, input)
    ensures k < |out.marks| && FallsAt(recipe, out.marks[k].step, out.name, !input.pe32)
    ensures k < |out.marks| && MarkAligned(recipe, out.marks[k], out.name, !input.pe32)
  {
    FinishedMarks(out, recipe, input);
    hide Finished, AllFilled, Inputs, MarkAligned;
    assert StepsOf(out.marks)[k] == out.marks[k].step;
    MarkStepsFall(recipe, |recipe|, out.name, !input.pe32, out.marks[k].step);
  }

  /** What is needed of one section of a layout. */
  lemma InLaid(l: Layout, input: Input, i: nat)
    requires i < |l.sections| && Laid(l, input)
    ensures var s := SectionAt(l, i);
      Finished(s, Recipe(), input) && 0 < s.rva && s.rva + s.virtualSize <= U32_MAX && InBounds(s)
  {
    hide Accepted, Recipe, Finished, InBounds;
    SectionLies(l, Recipe(), Trailing(), input, i);
    NothingSaturated(l, Recipe(), Trailing(), input, i);
  }

  lemma LaidParts(l: Layout, input: Input)
    requires Laid(l, input)
    ensures MarkersRight(l.markers, l.sections, Recipe())
    ensures NoDuplicates(Names(l.sections)) && ImageOrdered(l.sections, AllWanted(Recipe(), Trailing(), input))
    ensures DroppedRight(l.sections, AllWanted(Recipe(), Trailing(), input), Recipe(), input)
  {
    GivenRight(l.sections, Recipe(), Trailing(), input);
    hide Recipe, Given, ImageOrdered, DroppedRight, AddressesRight, AllFinished, NoDuplicates, Names, OutputsRight, MarkersRight, AllWanted;
  }

  /** A marker that is found is a mark of the section its step names. */
  lemma MarkerFound(l: Layout, input: Input, marker: Marker) returns (i: nat, k: nat)
    requires MarkerRva(l, marker).Some? && Laid(l, input)
    ensures IsMark(l, i, k) && MarkAt(l, i, k).step == MarkerStep(marker) && SectionAt(l, i).name == MarkerOutput(marker)
    ensures MarkAt(l, i, k).offset <= SectionAt(l, i).virtualSize
    ensures MarkerRva(l, marker) == Some(SectionAt(l, i).rva + MarkAt(l, i, k).offset)
    ensures MarkAligned(Recipe(), MarkAt(l, i, k), SectionAt(l, i).name, !input.pe32)
  {
    hide *;
    LaidParts(l, input);
    i, k := MarkFound(l, Recipe(), marker);
    var step := l.sections[i].marks[k].step;
    MarkerOnce(step);
    MarkerInserted(marker);
    InLaid(l, input, i);
    SectionIs(l, i);
    MarkFalls(l.sections[i], Recipe(), input, k);
    MarkIs(l, i, k, marker, Recipe(), !input.pe32);
  }

  lemma SectionIs(l: Layout, i: nat)
    requires i < |l.sections|
    ensures SectionAt(l, i) == l.sections[i]
  {
  }

  lemma MarkIs(l: Layout, i: nat, k: nat, marker: Marker, recipe: seq<Step>, wide: bool)
    requires i < |l.sections| && k < |l.sections[i].marks| && InsertIs(marker) && recipe == Recipe()
    requires l.sections[i].marks[k].step == MarkerStep(marker) && FallsAt(recipe, MarkerStep(marker), l.sections[i].name, wide)
    requires InBounds(SectionAt(l, i)) && SectionAt(l, i).rva + SectionAt(l, i).virtualSize <= U32_MAX
    requires MarkerRva(l, marker) == Some((l.sections[i].rva + l.sections[i].marks[k].offset) % U32)
    ensures SectionAt(l, i) == l.sections[i] && IsMark(l, i, k) && MarkAt(l, i, k) == l.sections[i].marks[k]
    ensures l.sections[i].name == MarkerOutput(marker) && l.sections[i].marks[k].offset <= l.sections[i].virtualSize
    ensures MarkerRva(l, marker) == Some(SectionAt(l, i).rva + MarkAt(l, i, k).offset)
  {
    hide Recipe, MarkerRva, MarkerStep, MarkerOutput, Packed, StepsRise, Divides;
  }

  lemma MarkFound(l: Layout, recipe: seq<Step>, marker: Marker) returns (i: nat, k: nat)
    requires MarkerRva(l, marker).Some? && MarkersRight(l.markers, l.sections, recipe)
    ensures i < |l.sections| && k < |l.sections[i].marks|
    ensures l.sections[i].marks[k].step < |recipe| && recipe[l.sections[i].marks[k].step].Insert?
    ensures recipe[l.sections[i].marks[k].step].marker == marker
    ensures MarkerRva(l, marker) == Some((l.sections[i].rva + l.sections[i].marks[k].offset) % U32)
  {
    var x := MarkerFromFinds(l.markers, l.sections, marker);
    i := x.1;
    var marks := l.sections[i].marks;
    k :| 0 <= k < |marks| && marks[k].step < |recipe| && recipe[marks[k].step].Insert?
      && recipe[marks[k].step].marker == marker && marks[k].offset == x.2;
  }

  // ---- Sections that are never dropped ----

  predicate HasWord(name: string)
  {
    name == ".rdata" || name == ".idata"
  }

  /** A section in which the linker always places something. */
  lemma WordKeeps(out: OutSection, input: Input)
    requires HasWord(out.name) && Finished(out, Recipe(), input)
    ensures out.virtualSize > 0
  {
    var marker := if out.name == ".rdata" then CtorHead else IdataNull;
    assert MarkerOutput(marker) == out.name;
    MarkerInserted(marker);
    WordBytes(Pointer(input));
    hide Recipe, Finished, MarkerBytes, MarkerStep, MarkerOutput, HasWord;
    FilledKeeps(out, Recipe(), input, MarkerStep(marker));
  }

  lemma WordBytes(pointer: nat)
    ensures pointer > 0 ==> MarkerBytes(CtorHead, pointer) != []
    ensures MarkerBytes(IdataNull, pointer) != []
  {
    if pointer > 0 { assert MarkerBytes(CtorHead, pointer)[0] == 0xff; }
    assert MarkerBytes(IdataNull, pointer)[0] == 0;
  }

  lemma FilledKeeps(out: OutSection, recipe: seq<Step>, input: Input, t: nat)
    requires InsertsAt(recipe, t, out.name) && MarkerBytes(recipe[t].marker, Pointer(input)) != [] && Finished(out, recipe, input)
    ensures out.virtualSize > 0
  {
    FinishedMarks(out, recipe, input);
    FinishedInputs(out, recipe, input);
    hide Finished, MarkerBytes, ThunksFollow, InputsWhole, StepsRise, Inputs, Reserved, Divides, MarksAligned, MarkSteps;
    var bytes := MarkerBytes(recipe[t].marker, Pointer(input));
    assert Filled(out.chunks, t, bytes, Reserved(recipe[t].marker, input));
    var i :| 0 <= i < |out.chunks| && out.chunks[i].step == t && out.chunks[i].piece == Fill(bytes) && out.chunks[i].size == |bytes|;
    assert out.virtualSize < U32_MAX ==> Packed(out.chunks, out.virtualSize);
  }

  lemma RecipeSeen(input: Input, t: nat)
    requires t < |Recipe()|
    ensures t < |Recipe()| && Recipe()[t].output in FirstSeen(AllWanted(Recipe(), Trailing(), input))
  {
    hide Recipe, FirstSeen, AllWanted;
    StepWanted(Recipe(), Trailing(), input, t);
  }

  /** A section of the recipe that is never empty is in every image. */
  lemma RecipePresent(sections: seq<OutSection>, input: Input, t: nat)
    requires t < |Recipe()| && FinalSection(Recipe(), input, Recipe()[t].output).virtualSize > 0
    requires DroppedRight(sections, AllWanted(Recipe(), Trailing(), input), Recipe(), input)
    ensures t < |Recipe()| && Recipe()[t].output in Names(sections)
  {
    RecipeSeen(input, t);
    hide Recipe, FinalSection, AllWanted, FirstSeen, Names;
  }

  lemma WordPresent(sections: seq<OutSection>, input: Input, marker: Marker)
    requires HasWord(MarkerOutput(marker))
    requires DroppedRight(sections, AllWanted(Recipe(), Trailing(), input), Recipe(), input)
    ensures MarkerOutput(marker) in Names(sections)
  {
    MarkerInserted(marker);
    StepsAre(0);
    var out := FinalSection(Recipe(), input, MarkerOutput(marker));
    FinalNamed(Recipe(), input, MarkerOutput(marker));
    hide Recipe, FinalSection, AllWanted, MarkerOutput, MarkerStep, DroppedRight, Names;
    WordKeeps(out, input);
    RecipePresent(sections, input, MarkerStep(marker));
  }

  /** So its markers always have an address. */
  lemma MarkerThere(l: Layout, input: Input, marker: Marker)
    requires HasWord(MarkerOutput(marker)) && Laid(l, input)
    ensures MarkerRva(l, marker).Some?
  {
    hide *;
    LaidParts(l, input);
    WordPresent(l.sections, input, marker);
    var i := SectionNamed(l.sections, MarkerOutput(marker));
    InLaid(l, input, i);
    FinishedMarks(SectionAt(l, i), Recipe(), input);
    MarkerInserted(marker);
    MarkerListed(l, input, marker, i);
  }

  lemma SectionNamed(sections: seq<OutSection>, name: string) returns (i: nat)
    requires name in Names(sections)
    ensures i < |sections| && sections[i].name == name
  {
    i :| 0 <= i < |sections| && Names(sections)[i] == name;
  }

  lemma MarkerListed(l: Layout, input: Input, marker: Marker, i: nat)
    requires i < |l.sections| && l.sections[i].name == MarkerOutput(marker) && InsertIs(marker)
    requires StepsOf(SectionAt(l, i).marks) == MarkSteps(Recipe(), |Recipe()|, SectionAt(l, i).name, !input.pe32)
    requires MarkersRight(l.markers, l.sections, Recipe())
    ensures MarkerRva(l, marker).Some?
  {
    var (marks, t) := (l.sections[i].marks, MarkerStep(marker));
    MarkStepsFall(Recipe(), |Recipe()|, l.sections[i].name, !input.pe32, t);
    hide Recipe, MarkerStep, MarkerOutput, MarkSteps;
    assert t in StepsOf(marks);
    var k :| 0 <= k < |marks| && StepsOf(marks)[k] == t;
    var x := (marker, i, marks[k].offset);
    assert marks[k].step == t && MarkedAs(Recipe(), marks, x.0, x.2);
    hide MarkedAs;
    MarkerFromSome(l.markers, l.sections, x);
  }

  // ---- Regions between two markers ----

  /** The chunk lies between the addresses of two markers. */
  predicate Within(l: Layout, start: Marker, end: Marker, i: nat, c: nat)
  {
    match (MarkerRva(l, start), MarkerRva(l, end))
    case (Some(a), Some(b)) => a <= ChunkRva(l, i, c) && ChunkRva(l, i, c) + ChunkSize(l, i, c) <= b
    case _ => false
  }

  /**
    A chunk with contents lies between two markers of one output section exactly
    when it is in that section and its step is from the first up to the second.
   */
  lemma NamedRegion(l: Layout, input: Input, start: Marker, end: Marker, i: nat, c: nat)
    requires IsChunk(l, i, c) && ChunkSize(l, i, c) > 0 && MarkerOutput(start) == MarkerOutput(end)
    requires MarkerRva(l, start).Some? && MarkerRva(l, end).Some? && Laid(l, input)
    ensures Within(l, start, end, i, c) <==>
      SectionAt(l, i).name == MarkerOutput(start) && MarkerStep(start) <= ChunkAt(l, i, c).step < MarkerStep(end)
  {
    hide *;
    var j, from := MarkerFound(l, input, start);
    var h, to := MarkerFound(l, input, end);
    MarkIn(l, j, from);
    MarkIn(l, h, to);
    ChunkIn(l, i, c);
    SameName(l, input, j, h);
    if i == j {
      LaidBracketed(l, input, i, from, to, c);
      WithinSection(l, start, end, i, c, from, to);
    } else {
      if SectionAt(l, i).name == SectionAt(l, j).name { SameName(l, input, i, j); }
      Outside(l, input, i, c, j);
      NotWithin(l, start, end, i, c, j, from, to);
    }
  }

  lemma MarkIn(l: Layout, i: nat, k: nat)
    requires IsMark(l, i, k)
    ensures i < |l.sections|
  {
  }

  lemma ChunkIn(l: Layout, i: nat, c: nat)
    requires IsChunk(l, i, c)
    ensures i < |l.sections|
  {
  }

  lemma WithinSection(l: Layout, start: Marker, end: Marker, i: nat, c: nat, from: nat, to: nat)
    requires MarkerRva(l, start) == Some(SectionAt(l, i).rva + MarkAt(l, i, from).offset)
    requires MarkerRva(l, end) == Some(SectionAt(l, i).rva + MarkAt(l, i, to).offset)
    ensures Within(l, start, end, i, c) <==>
      MarkAt(l, i, from).offset <= ChunkAt(l, i, c).offset && ChunkAt(l, i, c).offset + ChunkAt(l, i, c).size <= MarkAt(l, i, to).offset
  {
    hide MarkerRva, MarkAt, ChunkAt, SectionAt;
  }

  lemma NotWithin(l: Layout, start: Marker, end: Marker, i: nat, c: nat, j: nat, from: nat, to: nat)
    requires MarkerRva(l, start) == Some(SectionAt(l, j).rva + MarkAt(l, j, from).offset)
    requires MarkerRva(l, end) == Some(SectionAt(l, j).rva + MarkAt(l, j, to).offset) && MarkAt(l, j, to).offset <= SectionAt(l, j).virtualSize
    requires Apart(ChunkRva(l, i, c), ChunkSize(l, i, c), SectionAt(l, j).rva, SectionAt(l, j).virtualSize) && ChunkSize(l, i, c) > 0
    ensures !Within(l, start, end, i, c)
  {
    hide MarkerRva, MarkAt, ChunkRva, ChunkSize, SectionAt;
  }

  lemma LaidBracketed(l: Layout, input: Input, i: nat, from: nat, to: nat, c: nat)
    requires IsChunk(l, i, c) && ChunkSize(l, i, c) > 0 && IsMark(l, i, from) && IsMark(l, i, to) && Laid(l, input)
    ensures var (a, chunk, b) := (MarkAt(l, i, from), ChunkAt(l, i, c), MarkAt(l, i, to));
      a.offset <= chunk.offset && chunk.offset + chunk.size <= b.offset <==> a.step <= chunk.step < b.step
  {
    hide Accepted, Recipe;
    Bracketed(l, Recipe(), Trailing(), input, i, from, to, c);
  }

  lemma SameName(l: Layout, input: Input, i: nat, j: nat)
    requires i < |l.sections| && j < |l.sections| && SectionAt(l, i).name == SectionAt(l, j).name && Laid(l, input)
    ensures i == j
  {
    hide Recipe, Accepted;
    SameSection(l, Recipe(), Trailing(), input, i, j);
  }

  /** A chunk of one section is apart from every other section. */
  lemma Outside(l: Layout, input: Input, i: nat, c: nat, j: nat)
    requires IsChunk(l, i, c) && j < |l.sections| && i != j && Laid(l, input)
    ensures Apart(ChunkRva(l, i, c), ChunkSize(l, i, c), SectionAt(l, j).rva, SectionAt(l, j).virtualSize)
  {
    hide Accepted, Recipe, Finished, Divides;
    InLaid(l, input, i);
    if i < j { SectionsDisjoint(l, Recipe(), Trailing(), input, i, j); } else { SectionsDisjoint(l, Recipe(), Trailing(), input, j, i); }
  }

  /** A name's chunk is in the output and at the step its first matching step gives. */
  predicate PlacedByName(l: Layout, i: nat, c: nat, name: string)
  {
    match StepFrom(Recipe(), 0, name)
    case Some(t) => t < |Recipe()| && ChunkAt(l, i, c).step == t && SectionAt(l, i).name == Recipe()[t].output
    case None => ChunkAt(l, i, c).step == NO_STEP
  }

  lemma InputStep(l: Layout, input: Input, i: nat, c: nat, f: nat, s: nat)
    requires IsChunk(l, i, c) && ChunkAt(l, i, c).piece == InputPiece(f, s) && Laid(l, input)
    ensures IsLive(input.files, f, s) && PlacedByName(l, i, c, SectionName(input.files, f, s))
  {
    hide Laid, Recipe, Finished, InBounds, StepFrom;
    InLaid(l, input, i);
    InputChunkIs(l.sections[i], c, f, s, Recipe(), input);
  }

  /** The first step that matches the name is one of these, for this output. */
  predicate StepIn(name: string, from: nat, to: nat, output: string)
  {
    match StepFrom(Recipe(), 0, name)
    case Some(t) => from <= t < to && t < |Recipe()| && Recipe()[t].output == output
    case None => false
  }

  /** Step `t` alone, of it and the one before, places anything, and by this pattern. */
  predicate PlacesAlone(t: nat, pattern: Match)
  {
    && 0 < t < |Recipe()| && !Recipe()[t - 1].Place?
    && Recipe()[t].Place? && Recipe()[t].pattern == pattern
  }

  lemma MatchedAt(name: string, from: nat, t: nat, to: nat, output: string, pattern: Match)
    requires from + 1 == t && t + 1 == to && PlacesAlone(t, pattern) && StepIn(name, from, to, output)
    ensures Matches(pattern, name)
  {
    hide Recipe, Matches;
  }

  lemma InStep(l: Layout, i: nat, c: nat, name: string, from: nat, to: nat, output: string)
    requires PlacedByName(l, i, c, name) && to <= NO_STEP
    ensures SectionAt(l, i).name == output && from <= ChunkAt(l, i, c).step < to <==> StepIn(name, from, to, output)
  {
    hide Recipe, StepFrom, ChunkAt, SectionAt;
  }

  lemma StepBefore(marker: Marker)
    ensures MarkerStep(marker) <= NO_STEP
  {
  }

  /** Between two markers of a section that is never dropped lie exactly the sections of the steps between. */
  lemma RegionByStep(l: Layout, input: Input, start: Marker, end: Marker, output: string, i: nat, c: nat, f: nat, s: nat)
    requires MarkerOutput(start) == output && MarkerOutput(end) == output && HasWord(output)
    requires IsChunk(l, i, c) && ChunkSize(l, i, c) > 0 && ChunkAt(l, i, c).piece == InputPiece(f, s) && Laid(l, input)
    ensures IsLive(input.files, f, s)
    ensures Within(l, start, end, i, c) <==> StepIn(SectionName(input.files, f, s), MarkerStep(start), MarkerStep(end), output)
  {
    hide *;
    StepBefore(end);
    MarkerThere(l, input, start);
    MarkerThere(l, input, end);
    InputStep(l, input, i, c, f, s);
    InStep(l, i, c, SectionName(input.files, f, s), MarkerStep(start), MarkerStep(end), output);
    NamedRegion(l, input, start, end, i, c);
  }

  lemma IatPlaced()
    ensures PlacesAlone(76, Exact(".idata$5")) && Recipe()[76].output == ".idata"
  {
    StepsAre(75);
    StepsAre(76);
    hide Recipe, TextSteps, DataSteps, ReadOnlySteps, CtorSteps, CrtSteps, OtherSteps, TlsSteps;
  }

  predicate IsIatName(name: string)
  {
    name == ".idata$5"
  }

  lemma IatOnly(name: string)
    ensures StepIn(name, MarkerStep(IatStart), MarkerStep(IatEnd), ".idata") <==> IsIatName(name)
    ensures MarkerOutput(IatStart) == ".idata" && MarkerOutput(IatEnd) == ".idata"
  {
    assert MarkerStep(IatStart) == 75 && MarkerStep(IatEnd) == 77;
    assert MarkerOutput(IatStart) == ".idata" && MarkerOutput(IatEnd) == ".idata";
    IatPlaced();
    hide *;
    if StepIn(name, 75, 77, ".idata") { MatchedAt(name, 75, 76, 77, ".idata", Exact(".idata$5")); }
    if IsIatName(name) { IatIn(name); }
  }

  lemma IatIn(name: string)
    requires IsIatName(name)
    ensures StepIn(name, 75, 77, ".idata")
  {
    IatStep();
    IatPlaced();
    hide Recipe, StepFrom;
  }

  /** Between `__IAT_start__` and `__IAT_end__` lie exactly the `.idata$5` sections. */
  lemma ImportAddressTable(l: Layout, input: Input, i: nat, c: nat, f: nat, s: nat)
    requires IsChunk(l, i, c) && ChunkSize(l, i, c) > 0 && ChunkAt(l, i, c).piece == InputPiece(f, s) && Laid(l, input)
    ensures IsLive(input.files, f, s)
    ensures Within(l, IatStart, IatEnd, i, c) <==> IsIatName(SectionName(input.files, f, s))
  {
    assert HasWord(".idata");
    hide *;
    IatOnly(SectionName(input.files, f, s));
    RegionByStep(l, input, IatStart, IatEnd, ".idata", i, c, f, s);
  }

  /** The markers around a C runtime group: the TLS callbacks end where the pre-terminators start. */
  function CrtStart(c: char): Marker
  {
    if c == 'C' then CrtXcStart else if c == 'I' then CrtXiStart else if c == 'L' then CrtXlStart
    else if c == 'P' then CrtXpStart else if c == 'T' then CrtXtStart else CrtXdStart
  }

  function CrtEnd(c: char): Marker
  {
    if c == 'C' then CrtXcEnd else if c == 'I' then CrtXiEnd else if c == 'L' then CrtXpStart
    else if c == 'P' then CrtXpEnd else if c == 'T' then CrtXtEnd else CrtXdEnd
  }

  lemma CrtGroupMarks(c: char)
    requires c in "CILPTD"
    ensures MarkerStep(CrtStart(c)) == CrtGroup(c) - 1 && MarkerStep(CrtEnd(c)) == CrtGroup(c) + 1
    ensures MarkerOutput(CrtStart(c)) == MarkerOutput(CrtEnd(c)) == ".rdata" && 42 < CrtGroup(c) < 58
  {
  }

  lemma CrtGroupText(c: char)
    requires c in "CILPTD"
    ensures CrtSteps()[CrtGroup(c) - 42] == Place(".rdata", Prefix(".CRT$X" + [c]), ByName)
  {
    var text := CrtSteps()[CrtGroup(c) - 42].pattern.text;
    assert |text| == 7 && text[..6] == ".CRT$X" && text[6] == c;
    assert text == text[..6] + [text[6]];
  }

  lemma CrtPlaced(c: char)
    requires c in "CILPTD"
    ensures PlacesAlone(CrtGroup(c), Prefix(".CRT$X" + [c])) && Recipe()[CrtGroup(c)].output == ".rdata"
  {
    hide Recipe, TextSteps, DataSteps, ReadOnlySteps, CtorSteps, CrtSteps, OtherSteps, IdataSteps, TlsSteps, CrtGroup, MarkerStep;
    CrtGroupMarks(c);
    CrtGroupText(c);
    MarkerInserted(CrtStart(c));
    StepsAre(CrtGroup(c));
  }

  predicate InCrtGroup(x: char, name: string)
  {
    ".CRT$X" + [x] <= name
  }

  lemma CrtOnly(x: char, name: string)
    requires x in "CILPTD"
    ensures StepIn(name, MarkerStep(CrtStart(x)), MarkerStep(CrtEnd(x)), ".rdata") <==> InCrtGroup(x, name)
    ensures MarkerOutput(CrtStart(x)) == ".rdata" && MarkerOutput(CrtEnd(x)) == ".rdata"
  {
    CrtGroupMarks(x);
    CrtPlaced(x);
    hide *;
    var t := CrtGroup(x);
    if StepIn(name, t - 1, t + 1, ".rdata") { MatchedAt(name, t - 1, t, t + 1, ".rdata", Prefix(".CRT$X" + [x])); }
    if InCrtGroup(x, name) { CrtIn(x, name); }
  }

  lemma CrtIn(x: char, name: string)
    requires x in "CILPTD" && InCrtGroup(x, name)
    ensures 0 < CrtGroup(x) && StepIn(name, CrtGroup(x) - 1, CrtGroup(x) + 1, ".rdata")
  {
    assert name[..6] == ".CRT$X" && name[6] == x;
    CrtPlaced(x);
    hide Recipe, StepFrom, CrtGroup;
    CrtStep(name);
  }

  /** Between the markers of a C runtime group lie exactly the sections of that group. */
  lemma CrtRegion(l: Layout, input: Input, x: char, i: nat, c: nat, f: nat, s: nat)
    requires x in "CILPTD"
    requires IsChunk(l, i, c) && ChunkSize(l, i, c) > 0 && ChunkAt(l, i, c).piece == InputPiece(f, s) && Laid(l, input)
    ensures IsLive(input.files, f, s)
    ensures Within(l, CrtStart(x), CrtEnd(x), i, c) <==> InCrtGroup(x, SectionName(input.files, f, s))
  {
    assert HasWord(".rdata");
    hide *;
    CrtOnly(x, SectionName(input.files, f, s));
    RegionByStep(l, input, CrtStart(x), CrtEnd(x), ".rdata", i, c, f, s);
  }
}
