/** The whole layout, and what holds of every layout that is accepted. */
module LayoutPlan {
  import opened Results
  import opened Sorting
  import opened ThunkPlan
  import opened LayoutModel
  import opened LayoutPlace
  import opened LayoutBuild
  import opened LayoutAssign
  import opened LayoutAssemble
  import opened LayoutFinish
  import opened LayoutAddress
  import opened LayoutRecord

  /** The plan for the image. `outputs` gives the output section of each input section, if it has one. */
  datatype Layout = Layout(
    sections: seq<OutSection>,
    rvas: seq<seq<nat>>,
    outputs: seq<seq<Option<nat>>>,
    sizeOfHeaders: nat,
    sizeOfImage: nat,
    fileSize: nat,
    markers: seq<(Marker, nat, nat)>,
    thunks: Blocks,
    thunkRvas: map<Site, nat>)

  // ---- What an accepted layout satisfies ----

  /** Every section is placed as the recipe says, holds something, and is the only one of its name. */
  predicate SectionsRight(sections: seq<OutSection>, recipe: seq<Step>, input: Input)
  {
    NoDuplicates(Names(sections)) && NoneEmpty(sections) && AllFinished(sections, recipe, input)
  }

  predicate NoneEmpty(sections: seq<OutSection>)
  {
    forall i :: 0 <= i < |sections| ==> sections[i].virtualSize > 0
  }

  /** `a` was requested with a lower rank than `b`, or with the same and earlier. */
  predicate NameBefore(wanted: seq<Wanted>, a: string, b: string)
  {
    var (r, s) := (LowestRank(wanted, a), LowestRank(wanted, b));
    r < s || (r == s && IndexIn(FirstSeen(wanted), a) < IndexIn(FirstSeen(wanted), b))
  }

  predicate ImageOrdered(sections: seq<OutSection>, wanted: seq<Wanted>)
  {
    forall i, j :: 0 <= i < j < |sections| ==> NameBefore(wanted, sections[i].name, sections[j].name)
  }

  /** Every section asked for is in the image, or comes to nothing. */
  ghost predicate DroppedRight(sections: seq<OutSection>, wanted: seq<Wanted>, recipe: seq<Step>, input: Input)
  {
    && (forall name :: name in Names(sections) ==> name in FirstSeen(wanted))
    && (forall name :: name in FirstSeen(wanted) && name !in Names(sections) ==> EmptyOne(name, recipe, input))
  }

  predicate EmptyOne(name: string, recipe: seq<Step>, input: Input)
  {
    FinalSection(recipe, input, name).virtualSize == 0
  }

  /** The sections of the image before they have addresses. */
  ghost predicate Given(sections: seq<OutSection>, recipe: seq<Step>, trailing: seq<string>, input: Input)
  {
    && SectionsRight(sections, recipe, input)
    && ImageOrdered(sections, AllWanted(recipe, trailing, input))
    && DroppedRight(sections, AllWanted(recipe, trailing, input), recipe, input)
  }

  predicate AddressesRight(l: Layout, input: Input)
  {
    && AllFit(l.sections, input.pe32, input.fileAlignment, input.sectionAlignment)
    && AddressesAre(Addresses(l.sections, l.sizeOfHeaders, l.sizeOfImage, l.fileSize), l.sections,
                    input.pe32, input.fileAlignment, input.sectionAlignment)
  }

  /** A live input section is in the output section of its target, unless that was dropped, and then it was empty. */
  predicate OutputRight(sections: seq<OutSection>, recipe: seq<Step>, section: InSection, slot: Option<nat>, block: nat)
  {
    if !section.live then slot.None?
    else if slot.Some? then slot.value < |sections| && sections[slot.value].name == Target(recipe, section.name)
    else Target(recipe, section.name) !in Names(sections) && section.size == 0 && block == 0
  }

  predicate FileRight(sections: seq<OutSection>, recipe: seq<Step>, f: nat, list: seq<InSection>, slots: seq<Option<nat>>, blocks: Blocks)
  {
    && |slots| == |list|
    && forall s :: 0 <= s < |list| ==> OutputRight(sections, recipe, list[s], slots[s], BlockSize(blocks, (f, s + 1)))
  }

  predicate OutputsRight(sections: seq<OutSection>, outputs: seq<seq<Option<nat>>>, recipe: seq<Step>, input: Input)
  {
    && |outputs| == |input.files|
    && forall f :: 0 <= f < |input.files| ==>
         if input.files[f].sections.Some? then FileRight(sections, recipe, f, input.files[f].sections.value, outputs[f], input.blocks)
         else outputs[f] == []
  }

  /** The markers are those of the sections, each at its offset. */
  ghost predicate MarkersRight(markers: seq<(Marker, nat, nat)>, sections: seq<OutSection>, recipe: seq<Step>)
  {
    forall x :: x in markers <==> x.1 < |sections| && MarkedAs(recipe, sections[x.1].marks, x.0, x.2)
  }

  /** What is recorded of the inputs, the markers and the thunks. */
  ghost predicate RecordsRight(l: Layout, recipe: seq<Step>, input: Input)
  {
    && OutputsRight(l.sections, l.outputs, recipe, input)
    && RvasOf(l.sections, l.outputs, l.rvas)
    && MarkersRight(l.markers, l.sections, recipe)
    && AllBlocksRecorded(l.sections, l.thunkRvas)
    && l.thunks == input.blocks
  }

  ghost predicate Accepted(l: Layout, recipe: seq<Step>, trailing: seq<string>, input: Input)
  {
    Given(l.sections, recipe, trailing, input) && AddressesRight(l, input) && RecordsRight(l, recipe, input)
  }

  /** The sections, placed and in order, do not all fit in 32 bits. */
  ghost predicate TooBig(given: seq<OutSection>, recipe: seq<Step>, trailing: seq<string>, input: Input)
  {
    Given(given, recipe, trailing, input) && !AllFit(given, input.pe32, input.fileAlignment, input.sectionAlignment)
  }

  /** Accepted, or too big. */
  ghost predicate LaidOut(r: Result<Layout, Limit>, recipe: seq<Step>, trailing: seq<string>, input: Input)
  {
    match r
    case Ok(l) => Accepted(l, recipe, trailing, input)
    case Err(_) => exists given :: TooBig(given, recipe, trailing, input)
  }

  // ---- Kept sections ----

  function Chosen(sections: seq<OutSection>, keep: seq<nat>): (r: seq<OutSection>)
    ensures |r| == |keep|
  {
    seq(|keep|, i requires 0 <= i < |keep| => if keep[i] < |sections| then sections[keep[i]] else NewSection(""))
  }

  lemma KeptInRange(keep: seq<nat>, sections: seq<OutSection>, ranks: seq<nat>)
    requires Kept(keep, sections, ranks)
    ensures forall i :: 0 <= i < |keep| ==> keep[i] < |sections| && sections[keep[i]].virtualSize > 0
  {
    assert forall i :: 0 <= i < |keep| ==> keep[i] in keep;
  }

  lemma ChosenRight(keep: seq<nat>, sections: seq<OutSection>, ranks: seq<nat>, recipe: seq<Step>, input: Input)
    requires Kept(keep, sections, ranks) && NoDuplicates(Names(sections)) && AllFinished(sections, recipe, input)
    ensures SectionsRight(Chosen(sections, keep), recipe, input)
  {
    KeptInRange(keep, sections, ranks);
    var chosen := Chosen(sections, keep);
    hide Finished;
    forall i, j | 0 <= i < j < |chosen|
      ensures Names(chosen)[i] != Names(chosen)[j]
    {
      if chosen[i].name == chosen[j].name { NamedOnce(sections, keep[i], keep[j]); }
    }
  }

  lemma NamedOnce(sections: seq<OutSection>, i: nat, j: nat)
    requires i < |sections| && j < |sections| && sections[i].name == sections[j].name
    requires NoDuplicates(Names(sections))
    ensures i == j
  {
    NameAt(sections, i);
    NameAt(sections, j);
  }

  lemma ChosenOrdered(keep: seq<nat>, sections: seq<OutSection>, t: Tables, wanted: seq<Wanted>)
    requires Kept(keep, sections, t.ranks) && Reflects(t, wanted) && Names(sections) == Names(t.sections)
    ensures ImageOrdered(Chosen(sections, keep), wanted)
  {
    KeptInRange(keep, sections, t.ranks);
    var chosen := Chosen(sections, keep);
    forall i, j | 0 <= i < j < |chosen|
      ensures NameBefore(wanted, chosen[i].name, chosen[j].name)
    {
      var (a, b) := (keep[i], keep[j]);
      assert RankLe(t.ranks, a, b) && a != b;
      NameAt(sections, a);
      NameAt(sections, b);
      NameAt(t.sections, a);
      NameAt(t.sections, b);
      IndexUnique(Names(t.sections), a);
      IndexUnique(Names(t.sections), b);
      hide LowestRank, FirstSeen;
    }
  }

  // ---- Dropped sections ----

  /** A name of the builder's is in the image unless its section is empty. */
  lemma ChosenNames(keep: seq<nat>, sections: seq<OutSection>, ranks: seq<nat>, at: nat)
    requires Kept(keep, sections, ranks) && NoDuplicates(Names(sections)) && at < |sections|
    ensures sections[at].name in Names(Chosen(sections, keep)) <==> sections[at].virtualSize > 0
  {
    KeptInRange(keep, sections, ranks);
    var chosen := Chosen(sections, keep);
    if sections[at].virtualSize > 0 {
      assert at in keep;
      var i :| 0 <= i < |keep| && keep[i] == at;
      assert Names(chosen)[i] == sections[at].name;
    } else if sections[at].name in Names(chosen) {
      var i :| 0 <= i < |chosen| && Names(chosen)[i] == sections[at].name;
      hide Kept;
      NamedOnce(sections, at, keep[i]);
      assert false;
    }
  }

  lemma ChosenDropped(keep: seq<nat>, sections: seq<OutSection>, ranks: seq<nat>, wanted: seq<Wanted>, recipe: seq<Step>, input: Input)
    requires Kept(keep, sections, ranks) && NoDuplicates(Names(sections)) && AllFinished(sections, recipe, input)
    requires Names(sections) == FirstSeen(wanted)
    ensures DroppedRight(Chosen(sections, keep), wanted, recipe, input)
  {
    hide FinalSection, FirstSeen, Kept, NoDuplicates, Names, Chosen, AllFinished;
    forall name | name in Names(Chosen(sections, keep))
      ensures name in Names(sections)
    {
      ChosenNamed(keep, sections, ranks, name);
    }
    forall name | name in Names(sections) && name !in Names(Chosen(sections, keep))
      ensures EmptyOne(name, recipe, input)
    {
      NotChosen(keep, sections, ranks, recipe, input, name);
    }
  }

  lemma ChosenNamed(keep: seq<nat>, sections: seq<OutSection>, ranks: seq<nat>, name: string)
    requires Kept(keep, sections, ranks) && name in Names(Chosen(sections, keep))
    ensures name in Names(sections)
  {
    KeptInRange(keep, sections, ranks);
    var chosen := Chosen(sections, keep);
    var i :| 0 <= i < |chosen| && Names(chosen)[i] == name;
    NameAt(sections, keep[i]);
  }

  lemma NotChosen(keep: seq<nat>, sections: seq<OutSection>, ranks: seq<nat>, recipe: seq<Step>, input: Input, name: string)
    requires Kept(keep, sections, ranks) && NoDuplicates(Names(sections)) && AllFinished(sections, recipe, input)
    requires name in Names(sections) && name !in Names(Chosen(sections, keep))
    ensures EmptyOne(name, recipe, input)
  {
    var at :| 0 <= at < |sections| && Names(sections)[at] == name;
    assert sections[at].name == name && Finished(sections[at], recipe, input);
    hide FinalSection, Kept, NoDuplicates, Chosen, AllFinished, Names;
    ChosenNames(keep, sections, ranks, at);
  }

  /** What the chunks of a placed section satisfy. */
  lemma FinishedInputs(out: OutSection, recipe: seq<Step>, input: Input)
    requires Finished(out, recipe, input)
    ensures Inputs(out.chunks) == Placements(Contributions(recipe, input.files, out.name))
    ensures ThunksFollow(out.chunks, input.blocks) && InputsWhole(out.chunks, input.files) && StepsRise(out.chunks)
    ensures SitesDistinct(Inputs(out.chunks)) && Ordered(DraftOf(out))
  {
    FinishedMeans(out, recipe, input);
    ContributionsDistinct(recipe, input.files, out.name);
    hide Finished, Inputs, Placements, Contributions, ThunksFollow, InputsWhole, StepsRise, Ordered, AllFilled, MarksAligned;
  }

  function SectionName(files: seq<InFile>, f: nat, s: nat): string
  {
    var section := SectionOf(files, f, s);
    if section.Some? then section.value.name else ""
  }

  /** An input chunk is a live section of the files, in the output its name goes to, at its step. */
  lemma InputChunkIs(out: OutSection, c: nat, f: nat, s: nat, recipe: seq<Step>, input: Input)
    requires c < |out.chunks| && out.chunks[c].piece == InputPiece(f, s) && Finished(out, recipe, input)
    ensures IsLive(input.files, f, s) && Target(recipe, SectionName(input.files, f, s)) == out.name
    ensures c < |out.chunks| && out.chunks[c].step == PlacedAs(recipe, SectionName(input.files, f, s), f, s).step
  {
    FinishedInputs(out, recipe, input);
    InputAt(out.chunks, c);
    var list := Contributions(recipe, input.files, out.name);
    ContributionsAre(recipe, input.files, out.name);
    hide Contributions, Finished, Target, PlacedAs, Inputs, NotAfter;
    var k := |Inputs(out.chunks[..c])|;
    assert Placements(list)[k] == (list[k].step, list[k].file, list[k].section);
    assert list[k] in list;
  }

  /** And every live section whose name goes to the output has a chunk there, whole. */
  lemma InputHasChunk(out: OutSection, f: nat, s: nat, section: InSection, recipe: seq<Step>, input: Input) returns (c: nat)
    requires SectionOf(input.files, f, s) == Some(section) && section.live && Target(recipe, section.name) == out.name
    requires Finished(out, recipe, input)
    ensures c < |out.chunks| && out.chunks[c].piece == InputPiece(f, s) && out.chunks[c].size == section.size
    ensures c == FirstChunk(out.chunks, 0, f, s)
  {
    var p := InputListed(f, s, section, recipe, input, out.name);
    FinishedInputs(out, recipe, input);
    hide *;
    c := InputsHave(out.chunks, (p.step, f, s));
    WholeIs(out.chunks, c, f, s, section, input.files);
    var first := FirstChunk(out.chunks, 0, f, s);
    if first < c { UniqueChunk(out.chunks, first, c); }
  }

  lemma InputListed(f: nat, s: nat, section: InSection, recipe: seq<Step>, input: Input, name: string) returns (p: Placed)
    requires SectionOf(input.files, f, s) == Some(section) && section.live && Target(recipe, section.name) == name
    ensures (p.step, f, s) in Placements(Contributions(recipe, input.files, name))
  {
    p := PlacedAs(recipe, section.name, f, s);
    PlacedAsNames(recipe, section.name, f, s);
    ContributionsAre(recipe, input.files, name);
    hide Contributions, PlacedAs, Target, NotAfter, Before;
    var list := Contributions(recipe, input.files, name);
    var k :| 0 <= k < |list| && list[k] == p;
    assert Placements(list)[k] == (p.step, f, s);
  }

  lemma WholeIs(chunks: seq<Chunk>, c: nat, f: nat, s: nat, section: InSection, files: seq<InFile>)
    requires c < |chunks| && chunks[c].piece == InputPiece(f, s) && SectionOf(files, f, s) == Some(section) && InputsWhole(chunks, files)
    ensures c < |chunks| && chunks[c].size == section.size
  {
    assert IsWhole(chunks[c], files);
  }

  /** A section that needs a block is followed by it. */
  lemma FollowedByBlock(chunks: seq<Chunk>, c: nat, blocks: Blocks)
    requires c < |chunks| && NeedsBlock(chunks[c], blocks) && ThunksFollow(chunks, blocks)
    ensures c + 1 < |chunks| && chunks[c + 1].piece == ThunkPiece(chunks[c].piece.file, chunks[c].piece.section)
    ensures IsBlock(chunks[c + 1], blocks)
  {
    hide BlockSize, IsBlock;
  }

  /** An input section whose output comes to nothing is empty and has no block. */
  lemma DroppedEmpty(recipe: seq<Step>, input: Input, f: nat, s: nat, section: InSection)
    requires SectionOf(input.files, f, s) == Some(section) && section.live && |recipe| < NO_STEP
    requires EmptyOne(Target(recipe, section.name), recipe, input)
    ensures section.size == 0 && BlockSize(input.blocks, (f, s)) == 0
  {
    var out := FinalSection(recipe, input, Target(recipe, section.name));
    FinalNamed(recipe, input, Target(recipe, section.name));
    hide FinalSection, Target, BlockSize;
    var c := InputHasChunk(out, f, s, section, recipe, input);
    FinishedInputs(out, recipe, input);
    hide Finished;
    assert Packed(out.chunks, 0);
    if BlockSize(input.blocks, (f, s)) > 0 {
      FollowedByBlock(out.chunks, c, input.blocks);
      assert false;
    }
  }

  lemma SlotMoves(sections: seq<OutSection>, keep: seq<nat>, ranks: seq<nat>, remap: seq<Option<nat>>, recipe: seq<Step>, input: Input, f: nat, s: nat, section: InSection, slot: Option<nat>)
    requires SectionOf(input.files, f, s) == Some(section) && |recipe| < NO_STEP
    requires Kept(keep, sections, ranks) && |remap| == |sections| && RemapFits(remap, keep)
    requires SlotFits(Names(sections), recipe, section, slot)
    requires NoDuplicates(Names(sections)) && AllFinished(sections, recipe, input)
    ensures OutputRight(Chosen(sections, keep), recipe, section, Moved(remap, slot), BlockSize(input.blocks, (f, s)))
  {
    KeptInRange(keep, sections, ranks);
    hide Target, FinalSection, BlockSize, NoDuplicates;
    if section.live {
      var at := slot.value;
      NameAt(sections, at);
      ChosenNames(keep, sections, ranks, at);
      assert Finished(sections[at], recipe, input);
      if remap[at].None? {
        assert sections[at].virtualSize > 0 ==> at in keep;
        DroppedEmpty(recipe, input, f, s, section);
      }
    }
  }

  lemma OutputsMove(sections: seq<OutSection>, keep: seq<nat>, ranks: seq<nat>, remap: seq<Option<nat>>, recipe: seq<Step>, input: Input,
                    placements: seq<seq<Option<nat>>>, outputs: seq<seq<Option<nat>>>)
    requires Kept(keep, sections, ranks) && |remap| == |sections| && RemapFits(remap, keep) && |recipe| < NO_STEP
    requires FilesFit(Names(sections), recipe, input.files, |input.files|, placements) && SlotsMoved(remap, placements, outputs)
    requires NoDuplicates(Names(sections)) && AllFinished(sections, recipe, input)
    ensures OutputsRight(Chosen(sections, keep), outputs, recipe, input)
  {
    hide Kept, RemapFits, AllFinished, NoDuplicates, Names, Chosen, FileFits, FileRight, Moved;
    forall f | 0 <= f < |input.files| && input.files[f].sections.Some?
      ensures FileRight(Chosen(sections, keep), recipe, f, input.files[f].sections.value, outputs[f], input.blocks)
    {
      assert FileFits(Names(sections), recipe, input.files[f].sections.value, |input.files[f].sections.value|, placements[f]);
      FileMoves(sections, keep, ranks, remap, recipe, input, f, input.files[f].sections.value, placements[f], outputs[f]);
    }
  }

  lemma FileMoves(sections: seq<OutSection>, keep: seq<nat>, ranks: seq<nat>, remap: seq<Option<nat>>, recipe: seq<Step>, input: Input,
                  f: nat, list: seq<InSection>, slots: seq<Option<nat>>, moved: seq<Option<nat>>)
    requires f < |input.files| && input.files[f].sections == Some(list) && |recipe| < NO_STEP
    requires |moved| == |slots| && forall s :: 0 <= s < |slots| ==> moved[s] == Moved(remap, slots[s])
    requires FileFits(Names(sections), recipe, list, |list|, slots)
    requires Kept(keep, sections, ranks) && |remap| == |sections| && RemapFits(remap, keep)
    requires NoDuplicates(Names(sections)) && AllFinished(sections, recipe, input)
    ensures FileRight(Chosen(sections, keep), recipe, f, list, moved, input.blocks)
  {
    hide Kept, RemapFits, AllFinished, Target, BlockSize, Moved, NoDuplicates, Names, Chosen, OutputRight, SlotFits;
    forall s | 0 <= s < |list|
      ensures OutputRight(Chosen(sections, keep), recipe, list[s], moved[s], BlockSize(input.blocks, (f, s + 1)))
    {
      assert SlotFits(Names(sections), recipe, list[s], slots[s]);
      SlotMoves(sections, keep, ranks, remap, recipe, input, f, s + 1, list[s], slots[s]);
    }
  }

  // ---- Addresses do not disturb what was placed ----

  /** The sections are those, wherever they are put. */
  predicate SamePlaced(a: OutSection, b: OutSection)
  {
    b == a.(rva := b.rva, rawSize := b.rawSize, fileOffset := b.fileOffset)
  }

  predicate AllSamePlaced(a: seq<OutSection>, b: seq<OutSection>)
  {
    |a| == |b| && forall i :: 0 <= i < |a| ==> SamePlaced(a[i], b[i])
  }

  lemma GivenSame(a: seq<OutSection>, b: seq<OutSection>, recipe: seq<Step>, trailing: seq<string>, input: Input)
    requires Given(a, recipe, trailing, input) && AllSamePlaced(a, b) && Names(a) == Names(b)
    ensures Given(b, recipe, trailing, input)
  {
    hide FinalSection, NameBefore, AllWanted, FirstSeen, NoDuplicates, EmptyOne;
    assert forall i :: 0 <= i < |a| ==> a[i].name == b[i].name;
    forall i | 0 <= i < |b|
      ensures Finished(b[i], recipe, input)
    {
      assert Finished(a[i], recipe, input) && SamePlaced(a[i], b[i]);
    }
  }

  lemma SameSizes(a: seq<OutSection>, b: seq<OutSection>)
    requires AllSamePlaced(a, b)
    ensures |a| == |b| && forall i :: 0 <= i < |a| ==> a[i].virtualSize == b[i].virtualSize && a[i].flags == b[i].flags
  {
  }

  /** Whether sections fit does not depend on where they are. */
  lemma FitSame(a: seq<OutSection>, b: seq<OutSection>, pe32: bool, fileAlignment: nat, sectionAlignment: nat)
    requires AllSamePlaced(a, b) && AllFit(a, pe32, fileAlignment, sectionAlignment)
    ensures AllFit(b, pe32, fileAlignment, sectionAlignment)
  {
    SameSizes(a, b);
    hide AlignUp64, AlignUp32, SamePlaced, RvaAt, FileAt;
    var headers := HeadersOf(a, pe32, fileAlignment);
    forall k | 0 <= k < |b|
      ensures Fits(b, k, headers, fileAlignment, sectionAlignment)
    {
      assert Fits(a, k, headers, fileAlignment, sectionAlignment);
      AddressesSame(a, b, k, headers, fileAlignment, sectionAlignment);
    }
  }

  lemma AddressesStay(a: Addresses, given: seq<OutSection>, pe32: bool, fileAlignment: nat, sectionAlignment: nat)
    requires AddressesAre(a, given, pe32, fileAlignment, sectionAlignment)
    ensures AllSamePlaced(given, a.sections) && Names(a.sections) == Names(given)
    ensures AllFit(given, pe32, fileAlignment, sectionAlignment) ==>
      AllFit(a.sections, pe32, fileAlignment, sectionAlignment) && AddressesAre(a, a.sections, pe32, fileAlignment, sectionAlignment)
  {
    SameSizes(given, a.sections);
    if AllFit(given, pe32, fileAlignment, sectionAlignment) {
      FitSame(given, a.sections, pe32, fileAlignment, sectionAlignment);
      hide AlignUp64, AlignUp32, SamePlaced, RvaAt, FileAt, RawSize, Fits;
      forall i: nat | i <= |given|
        ensures RvaAt(a.sections, i, a.headers, sectionAlignment) == RvaAt(given, i, a.headers, sectionAlignment)
        ensures FileAt(a.sections, i, a.headers, fileAlignment) == FileAt(given, i, a.headers, fileAlignment)
      {
        AddressesSame(a.sections, given, i, a.headers, fileAlignment, sectionAlignment);
      }
      StayAddressed(a, given, fileAlignment, sectionAlignment);
    }
  }

  lemma StayAddressed(a: Addresses, given: seq<OutSection>, fileAlignment: nat, sectionAlignment: nat)
    requires AllAddressed(a.sections, given, |given|, a.headers, fileAlignment, sectionAlignment) && AllSamePlaced(given, a.sections)
    ensures |a.sections| == |given| && AllAddressed(a.sections, a.sections, |given|, a.headers, fileAlignment, sectionAlignment)
  {
    SameSizes(given, a.sections);
    hide RvaAt, FileAt, AlignUp64;
    forall i: nat | i < |given|
      ensures Fits(a.sections, i, a.headers, fileAlignment, sectionAlignment)
      ensures a.sections[i] == Addressed(a.sections, i, a.headers, fileAlignment, sectionAlignment)
    {
      AddressesSame(a.sections, given, i, a.headers, fileAlignment, sectionAlignment);
      assert Fits(given, i, a.headers, fileAlignment, sectionAlignment);
      assert a.sections[i] == Addressed(given, i, a.headers, fileAlignment, sectionAlignment);
    }
  }

  lemma OutputsSame(a: seq<OutSection>, b: seq<OutSection>, outputs: seq<seq<Option<nat>>>, recipe: seq<Step>, input: Input)
    requires OutputsRight(a, outputs, recipe, input) && Names(a) == Names(b)
    ensures OutputsRight(b, outputs, recipe, input)
  {
    hide Target, BlockSize;
    assert |Names(a)| == |a| && |Names(b)| == |b|;
    assert forall i :: 0 <= i < |a| ==> a[i].name == Names(a)[i] && b[i].name == Names(b)[i];
    hide Names;
    forall f | 0 <= f < |input.files| && input.files[f].sections.Some?
      ensures FileRight(b, recipe, f, input.files[f].sections.value, outputs[f], input.blocks)
    {
      assert FileRight(a, recipe, f, input.files[f].sections.value, outputs[f], input.blocks);
    }
  }

  // ---- Markers ----

  lemma {:induction false} MarkersMove(sections: seq<OutSection>, keep: seq<nat>, remap: seq<Option<nat>>, recipe: seq<Step>,
                                       markers: seq<(Marker, nat, nat)>, chosen: seq<OutSection>)
    requires |remap| == |sections| && RemapFits(remap, keep) && AllSamePlaced(Chosen(sections, keep), chosen)
    requires MarkersMoved(remap, AllMarkers(recipe, sections), markers)
    ensures MarkersRight(markers, chosen, recipe)
  {
    hide MarkedAs, AllMarkers;
    forall x: (Marker, nat, nat)
      ensures x in markers <==> x.1 < |chosen| && MarkedAs(recipe, chosen[x.1].marks, x.0, x.2)
    {
      if x in markers {
        var y :| y in AllMarkers(recipe, sections) && y.0 == x.0 && y.2 == x.2 && y.1 < |remap| && remap[y.1] == Some(x.1);
        AllMarkersHas(recipe, sections, y);
        assert SamePlaced(Chosen(sections, keep)[x.1], chosen[x.1]);
      } else if x.1 < |chosen| {
        assert SamePlaced(Chosen(sections, keep)[x.1], chosen[x.1]);
        var y := (x.0, keep[x.1], x.2);
        AllMarkersHas(recipe, sections, y);
        assert remap[keep[x.1]] == Some(x.1);
      }
    }
  }

  // ---- Thunk blocks ----

  /** No input section has two chunks, wherever they are. */
  lemma {:induction false} OneChunk(sections: seq<OutSection>, recipe: seq<Step>, input: Input, i: nat, c: nat, j: nat, d: nat, f: nat, s: nat)
    requires i < |sections| && c < |sections[i].chunks| && sections[i].chunks[c].piece == InputPiece(f, s)
    requires j < |sections| && d < |sections[j].chunks| && sections[j].chunks[d].piece == InputPiece(f, s)
    requires SectionsRight(sections, recipe, input)
    ensures i == j && c == d
  {
    assert Finished(sections[i], recipe, input) && Finished(sections[j], recipe, input);
    hide FinalSection, Target, PlacedAs, Inputs, ThunksFollow, InputsWhole, StepsRise;
    InputChunkIs(sections[i], c, f, s, recipe, input);
    InputChunkIs(sections[j], d, f, s, recipe, input);
    FinishedInputs(sections[i], recipe, input);
    NamedOnce(sections, i, j);
    if c < d { UniqueChunk(sections[i].chunks, c, d); }
    if d < c { UniqueChunk(sections[i].chunks, d, c); }
  }

  lemma BlockPreceded(sections: seq<OutSection>, recipe: seq<Step>, input: Input, i: nat, c: nat, site: Site)
    requires BlockAt(sections, i, c, site) && SectionsRight(sections, recipe, input)
    ensures i < |sections| && 0 < c < |sections[i].chunks| && sections[i].chunks[c - 1].piece == InputPiece(site.0, site.1)
  {
    assert Finished(sections[i], recipe, input);
    hide Finished, IsBlock, SectionsRight;
    BlockFollows(sections[i], c, site.0, site.1, recipe, input);
  }

  lemma BlockOnce(sections: seq<OutSection>, recipe: seq<Step>, input: Input, i: nat, c: nat, j: nat, d: nat, site: Site)
    requires BlockAt(sections, i, c, site) && BlockAt(sections, j, d, site) && SectionsRight(sections, recipe, input)
    ensures i == j && c == d
  {
    hide *;
    BlockPreceded(sections, recipe, input, i, c, site);
    BlockPreceded(sections, recipe, input, j, d, site);
    OneChunk(sections, recipe, input, i, c - 1, j, d - 1, site.0, site.1);
  }

  lemma BlocksAreUnique(sections: seq<OutSection>, recipe: seq<Step>, input: Input)
    requires SectionsRight(sections, recipe, input)
    ensures BlocksUnique(sections)
  {
    hide SectionsRight, BlockAt;
    forall i: nat, c: nat, j: nat, d: nat, site: Site {:trigger BlockAt(sections, i, c, site), BlockAt(sections, j, d, site)}
      | BlockAt(sections, i, c, site) && BlockAt(sections, j, d, site)
      ensures i == j && c == d
    {
      BlockOnce(sections, recipe, input, i, c, j, d, site);
    }
  }

  /** A thunk block comes right after its section. */
  lemma BlockFollows(out: OutSection, c: nat, f: nat, s: nat, recipe: seq<Step>, input: Input)
    requires c < |out.chunks| && out.chunks[c].piece == ThunkPiece(f, s) && Finished(out, recipe, input)
    ensures 0 < c < |out.chunks| && out.chunks[c - 1].piece == InputPiece(f, s) && IsBlock(out.chunks[c], input.blocks)
  {
    FinishedInputs(out, recipe, input);
    hide Finished;
  }

  // ---- The layout itself ----

  /** Assigns every live input section to an output section and gives each an RVA and a file offset. */
  method LayOut(recipe: seq<Step>, trailing: seq<string>, input: Input) returns (r: Result<Layout, Limit>)
    requires |recipe| < NO_STEP && |trailing| < NO_STEP - RANK_TRAILING
    ensures LaidOut(r, recipe, trailing, input)
  {
    var build, placements := Assemble(recipe, trailing, input);
    var t := Tables(build.sections, build.order, build.pending, build.ranks);
    assert t == build.State();
    ghost var wanted := AllWanted(recipe, trailing, input);
    assert Reflects(t, wanted) && Holding(t, recipe, input, |input.files|, 0, |input.synthetic|);
    assert TablesFit(t);
    hide *;
    var sections, found := PlaceAll(t, recipe, input);
    r := Arrange(recipe, trailing, input, t, placements, sections, found);
  }

  /** Drops the empty sections, puts the rest in image order, and gives addresses. */
  method Arrange(recipe: seq<Step>, ghost trailing: seq<string>, input: Input, t: Tables, placements: seq<seq<Option<nat>>>,
                 sections: seq<OutSection>, found: seq<(Marker, nat, nat)>)
    returns (r: Result<Layout, Limit>)
    requires |recipe| < NO_STEP && Names(sections) == Names(t.sections) && found == AllMarkers(recipe, sections)
    requires FilesFit(Names(sections), recipe, input.files, |input.files|, placements)
    requires TablesFit(t) && Reflects(t, AllWanted(recipe, trailing, input)) && AllFinished(sections, recipe, input)
    ensures LaidOut(r, recipe, trailing, input)
  {
    ghost var wanted := AllWanted(recipe, trailing, input);
    assert Names(sections) == FirstSeen(wanted) && |t.ranks| == |Names(sections)| == |sections| && NoDuplicates(Names(sections));
    hide *;
    var keep := Keep(sections, t.ranks);
    KeptInRange(keep, sections, t.ranks);
    var remap := Remap(keep, |sections|);
    var chosen := Chosen(sections, keep);
    var outputs := MoveSlots(remap, placements);
    var markers := MoveMarkers(remap, found);
    ChosenGiven(keep, sections, t, recipe, trailing, input);
    var a := AssignAddresses(chosen, input.pe32, input.fileAlignment, input.sectionAlignment);
    if a.Err? {
      TooBigIs(chosen, a.error, recipe, trailing, input);
      return Err(a.error);
    }
    var l := Record(recipe, trailing, input, t, placements, sections, keep, remap, outputs, markers, a.value);
    return Ok(l);
  }

  /** Records where everything of the image is. */
  method Record(recipe: seq<Step>, ghost trailing: seq<string>, input: Input, ghost t: Tables, ghost placements: seq<seq<Option<nat>>>,
                ghost sections: seq<OutSection>, ghost keep: seq<nat>, ghost remap: seq<Option<nat>>,
                outputs: seq<seq<Option<nat>>>, markers: seq<(Marker, nat, nat)>, a: Addresses)
    returns (l: Layout)
    requires |recipe| < NO_STEP && |remap| == |sections| && NoDuplicates(Names(sections)) && AllFinished(sections, recipe, input)
    requires Kept(keep, sections, t.ranks) && RemapFits(remap, keep) && Given(Chosen(sections, keep), recipe, trailing, input)
    requires FilesFit(Names(sections), recipe, input.files, |input.files|, placements) && SlotsMoved(remap, placements, outputs)
    requires MarkersMoved(remap, AllMarkers(recipe, sections), markers)
    requires AllFit(Chosen(sections, keep), input.pe32, input.fileAlignment, input.sectionAlignment)
    requires AddressesAre(a, Chosen(sections, keep), input.pe32, input.fileAlignment, input.sectionAlignment)
    ensures Accepted(l, recipe, trailing, input)
  {
    hide *;
    ghost var given := Chosen(sections, keep);
    var image := a.sections;
    AddressesStay(a, given, input.pe32, input.fileAlignment, input.sectionAlignment);
    GivenSame(given, image, recipe, trailing, input);
    GivenRight(image, recipe, trailing, input);
    BlocksAreUnique(image, recipe, input);
    var thunkRvas := RecordThunks(image);
    var rvas := RecordInputs(image, outputs);
    OutputsMove(sections, keep, t.ranks, remap, recipe, input, placements, outputs);
    OutputsSame(given, image, outputs, recipe, input);
    MarkersMove(sections, keep, remap, recipe, markers, image);
    l := Layout(image, rvas, outputs, a.headers, a.image, a.file, markers, input.blocks, thunkRvas);
    AcceptedIs(l, a, recipe, trailing, input);
  }

  lemma AcceptedIs(l: Layout, a: Addresses, recipe: seq<Step>, trailing: seq<string>, input: Input)
    requires l.sections == a.sections && l.sizeOfHeaders == a.headers && l.sizeOfImage == a.image && l.fileSize == a.file && l.thunks == input.blocks
    requires Given(l.sections, recipe, trailing, input)
    requires AllFit(a.sections, input.pe32, input.fileAlignment, input.sectionAlignment)
    requires AddressesAre(a, a.sections, input.pe32, input.fileAlignment, input.sectionAlignment)
    requires OutputsRight(l.sections, l.outputs, recipe, input) && RvasOf(l.sections, l.outputs, l.rvas)
    requires MarkersRight(l.markers, l.sections, recipe) && AllBlocksRecorded(l.sections, l.thunkRvas)
    ensures Accepted(l, recipe, trailing, input)
  {
    assert Addresses(l.sections, l.sizeOfHeaders, l.sizeOfImage, l.fileSize) == a;
    hide Given, AllFit, AddressesAre, OutputsRight, RvasOf, MarkersRight, AllBlocksRecorded;
  }

  lemma ChosenGiven(keep: seq<nat>, sections: seq<OutSection>, t: Tables, recipe: seq<Step>, trailing: seq<string>, input: Input)
    requires Kept(keep, sections, t.ranks) && NoDuplicates(Names(sections)) && AllFinished(sections, recipe, input)
    requires Reflects(t, AllWanted(recipe, trailing, input)) && Names(sections) == Names(t.sections) == FirstSeen(AllWanted(recipe, trailing, input))
    ensures Given(Chosen(sections, keep), recipe, trailing, input)
  {
    hide *;
    ChosenRight(keep, sections, t.ranks, recipe, input);
    ChosenOrdered(keep, sections, t, AllWanted(recipe, trailing, input));
    ChosenDropped(keep, sections, t.ranks, AllWanted(recipe, trailing, input), recipe, input);
    GivenIs(Chosen(sections, keep), recipe, trailing, input);
  }

  lemma GivenIs(sections: seq<OutSection>, recipe: seq<Step>, trailing: seq<string>, input: Input)
    requires SectionsRight(sections, recipe, input) && ImageOrdered(sections, AllWanted(recipe, trailing, input))
    requires DroppedRight(sections, AllWanted(recipe, trailing, input), recipe, input)
    ensures Given(sections, recipe, trailing, input)
  {
    hide SectionsRight, ImageOrdered, DroppedRight, AllWanted;
  }

  lemma GivenRight(sections: seq<OutSection>, recipe: seq<Step>, trailing: seq<string>, input: Input)
    requires Given(sections, recipe, trailing, input)
    ensures SectionsRight(sections, recipe, input) && ImageOrdered(sections, AllWanted(recipe, trailing, input))
    ensures DroppedRight(sections, AllWanted(recipe, trailing, input), recipe, input)
  {
    hide SectionsRight, ImageOrdered, DroppedRight, AllWanted;
  }

  lemma TooBigIs(given: seq<OutSection>, limit: Limit, recipe: seq<Step>, trailing: seq<string>, input: Input)
    requires Given(given, recipe, trailing, input) && !AllFit(given, input.pe32, input.fileAlignment, input.sectionAlignment)
    ensures LaidOut(Err(limit), recipe, trailing, input)
  {
    hide Given, AllFit;
    assert TooBig(given, recipe, trailing, input);
  }
}
