/** Placing every output section, dropping the empty ones and giving the rest their order. */
module LayoutFinish {
  import opened Results
  import opened Sorting
  import opened LayoutModel
  import opened LayoutPlace
  import opened LayoutBuild
  import opened LayoutAssign

  // ---- Sorted contributions ----

  /** The live input sections that go to `name`, in the order they are placed. */
  function Contributions(recipe: seq<Step>, files: seq<InFile>, name: string): seq<Placed>
  {
    SortContributions(files, FromFiles(recipe, files, |files|, name))
  }

  /** Sorted, without repetition, and exactly the live sections that go to `name`. */
  lemma ContributionsAre(recipe: seq<Step>, files: seq<InFile>, name: string)
    ensures var list := Contributions(recipe, files, name);
      && Sorted(list, Before(files)) && NoDuplicates(list)
      && forall p :: p in list <==>
           && IsLive(files, p.file, p.section)
           && Target(recipe, SectionOf(files, p.file, p.section).value.name) == name
           && p == PlacedAs(recipe, SectionOf(files, p.file, p.section).value.name, p.file, p.section)
  {
    var list := FromFiles(recipe, files, |files|, name);
    BeforeIsTotal(files);
    SortIsSorted(list, Before(files));
    FromFilesDistinct(recipe, files, |files|, name);
    SortKeepsDistinct(list, Before(files));
    forall p
      ensures p in Contributions(recipe, files, name) <==>
        && IsLive(files, p.file, p.section)
        && Target(recipe, SectionOf(files, p.file, p.section).value.name) == name
        && p == PlacedAs(recipe, SectionOf(files, p.file, p.section).value.name, p.file, p.section)
    {
      SortMember(list, Before(files), p);
      FromFilesHas(recipe, files, |files|, name, p);
    }
  }

  lemma PlacedAsFits(recipe: seq<Step>, name: string, file: nat, section: nat)
    ensures var p := PlacedAs(recipe, name, file, section);
      p.step == NO_STEP || (p.step < |recipe| && recipe[p.step].Place? && Matches(recipe[p.step].pattern, name))
  {
  }

  lemma ContributionsFit(recipe: seq<Step>, files: seq<InFile>, name: string)
    requires |recipe| < NO_STEP
    ensures ListFits(Contributions(recipe, files, name), recipe, files)
  {
    var list := Contributions(recipe, files, name);
    ContributionsAre(recipe, files, name);
    hide Contributions, NotAfter, Target, PlacedAs;
    forall i | 0 <= i < |list|
      ensures IsLive(files, list[i].file, list[i].section)
      ensures list[i].step == NO_STEP || (list[i].step < |recipe| && recipe[list[i].step].Place?)
    {
      assert list[i] in list;
      PlacedAsFits(recipe, SectionOf(files, list[i].file, list[i].section).value.name, list[i].file, list[i].section);
    }
    forall i, j | 0 <= i < j < |list|
      ensures list[i].step <= list[j].step
    {
      assert Before(files)(list[i], list[j]);
      NotAfterStep(files, list[i], list[j]);
    }
  }

  lemma NotAfterStep(files: seq<InFile>, a: Placed, b: Placed)
    requires NotAfter(files, a, b)
    ensures a.step <= b.step
  {
  }

  // ---- Placing ----

  /** An output section's alignment before commons are counted. */
  function AlignBefore(recipe: seq<Step>, input: Input, name: string): nat
  {
    AlignWith(AlignAfter(input.files, FromFiles(recipe, input.files, |input.files|, name)), input.synthetic, |input.synthetic|, name)
  }

  function DraftOf(out: OutSection): Draft
  {
    Draft(out.chunks, out.virtualSize, out.marks)
  }

  /** What an output section comes to, before it has addresses. */
  function FinalSection(recipe: seq<Step>, input: Input, name: string): OutSection
  {
    var (align, commons) := (AlignBefore(recipe, input, name), CommonsOf(name, input));
    var d := FinalDraft(recipe, name, align, Contributions(recipe, input.files, name), PendingOf(input, name), input);
    OutSection(name, FlagsAfter(input.files, name, FromFiles(recipe, input.files, |input.files|, name)),
               0, d.offset, 0, 0, d.chunks, Highest(align, commons, |commons|), d.marks)
  }

  function PendingOf(input: Input, name: string): seq<nat>
  {
    Sizes(input.synthetic, |input.synthetic|, name)
  }

  /** An output section with its contributions placed, at whatever address. */
  predicate Finished(out: OutSection, recipe: seq<Step>, input: Input)
  {
    && |recipe| < NO_STEP
    && out == FinalSection(recipe, input, out.name).(rva := out.rva, rawSize := out.rawSize, fileOffset := out.fileOffset)
  }

  lemma ShortRecipe(out: OutSection, recipe: seq<Step>, input: Input)
    requires Finished(out, recipe, input)
    ensures |recipe| < NO_STEP
  {
    hide FinalSection;
  }

  /** What holds of a placed section. */
  lemma FinishedMeans(out: OutSection, recipe: seq<Step>, input: Input)
    requires Finished(out, recipe, input)
    ensures PlacedWell(DraftOf(out), recipe, out.name, AlignBefore(recipe, input, out.name),
                       Contributions(recipe, input.files, out.name), PendingOf(input, out.name), input)
  {
    hide PlacedWell, FinalDraft, AlignBefore, Contributions, PendingOf, Highest, FlagsAfter, FromFiles;
    ContributionsFit(recipe, input.files, out.name);
    FinalPlaced(recipe, out.name, AlignBefore(recipe, input, out.name), Contributions(recipe, input.files, out.name), PendingOf(input, out.name), input);
  }

  predicate AllFinished(sections: seq<OutSection>, recipe: seq<Step>, input: Input)
  {
    forall i :: 0 <= i < |sections| ==> Finished(sections[i], recipe, input)
  }

  /** The markers of all output sections. */
  function AllMarkers(recipe: seq<Step>, sections: seq<OutSection>): seq<(Marker, nat, nat)>
    decreases |sections|
  {
    if sections == [] then []
    else
      var last := |sections| - 1;
      AllMarkers(recipe, sections[..last]) + MarkersOf(recipe, sections[last].marks, last)
  }

  /** Section `at` is placed: only the builder's entry `at` decides it. */
  method PlaceAt(t: Tables, at: nat, recipe: seq<Step>, input: Input) returns (out: OutSection, markers: seq<(Marker, nat, nat)>)
    requires |recipe| < NO_STEP && at < |t.sections| && Holding(t, recipe, input, |input.files|, 0, |input.synthetic|)
    ensures out == FinalSection(recipe, input, t.sections[at].name)
    ensures markers == MarkersOf(recipe, out.marks, at)
  {
    var before := t.sections[at];
    var list := SortContributions(input.files, t.order[at]);
    assert EntryHolds(t, at, recipe, input, |input.files|, 0, |input.synthetic|);
    EntryIs(t, at, recipe, input);
    ContributionsFit(recipe, input.files, before.name);
    hide AlignBefore, FlagsAfter, Contributions, PendingOf, Highest, FinalDraft, PlacedWell, Holding, EntryHolds, TablesFit, FromFiles, CommonsOf, MarkersOf;
    var d, highest;
    d, markers, highest := PlaceSection(recipe, input, before.name, before.align, list, t.pending[at], at);
    out := OutSection(before.name, before.flags, 0, d.offset, 0, 0, d.chunks, highest, d.marks);
  }

  lemma EntryIs(t: Tables, at: nat, recipe: seq<Step>, input: Input)
    requires TablesFit(t) && at < |t.sections|
    requires EntryHolds(t, at, recipe, input, |input.files|, 0, |input.synthetic|)
    ensures var name := t.sections[at].name;
      && t.sections[at].align == AlignBefore(recipe, input, name)
      && t.sections[at].flags == FlagsAfter(input.files, name, FromFiles(recipe, input.files, |input.files|, name))
      && SortContributions(input.files, t.order[at]) == Contributions(recipe, input.files, name)
      && t.pending[at] == PendingOf(input, name)
  {
    var name := t.sections[at].name;
    assert Got(recipe, input.files, |input.files|, 0, name) == FromFiles(recipe, input.files, |input.files|, name);
  }

  /** Every output section, in the builder's order. */
  method PlaceAll(t: Tables, recipe: seq<Step>, input: Input) returns (sections: seq<OutSection>, markers: seq<(Marker, nat, nat)>)
    requires |recipe| < NO_STEP && Holding(t, recipe, input, |input.files|, 0, |input.synthetic|)
    ensures Names(sections) == Names(t.sections) && AllFinished(sections, recipe, input)
    ensures markers == AllMarkers(recipe, sections)
  {
    sections, markers := [], [];
    hide Holding, FinalSection, MarkersOf;
    for at := 0 to |t.sections|
      invariant |sections| == at && markers == AllMarkers(recipe, sections)
      invariant forall i :: 0 <= i < at ==> sections[i] == FinalSection(recipe, input, t.sections[i].name) && sections[i].name == t.sections[i].name
    {
      var out, more := PlaceAt(t, at, recipe, input);
      assert (sections + [out])[..at] == sections;
      FinalNamed(recipe, input, t.sections[at].name);
      markers := markers + more;
      sections := sections + [out];
    }
  }

  lemma FinalNamed(recipe: seq<Step>, input: Input, name: string)
    ensures FinalSection(recipe, input, name).name == name
  {
    hide FinalDraft, AlignBefore, Contributions, PendingOf, Highest, FlagsAfter, FromFiles;
  }

  // ---- Which sections stay, and in what order ----

  predicate RankLe(ranks: seq<nat>, a: nat, b: nat)
  {
    a < |ranks| && b < |ranks| && (ranks[a] < ranks[b] || (ranks[a] == ranks[b] && a <= b))
  }

  /** The key `(rank, at)`; indices beyond the table come last. */
  function RankOrder(ranks: seq<nat>): (nat, nat) -> bool
  {
    (a: nat, b: nat) => RankLe(ranks, a, b) || (b >= |ranks| && (a < |ranks| || a <= b))
  }

  /** The sections that are not empty, by rank, then in the builder's order. */
  ghost predicate Kept(keep: seq<nat>, sections: seq<OutSection>, ranks: seq<nat>)
  {
    && NoDuplicates(keep)
    && (forall at: nat :: at in keep <==> at < |sections| && sections[at].virtualSize > 0)
    && (forall i, j :: 0 <= i < j < |keep| ==> RankLe(ranks, keep[i], keep[j]))
  }

  method Keep(sections: seq<OutSection>, ranks: seq<nat>) returns (keep: seq<nat>)
    requires |ranks| == |sections|
    ensures Kept(keep, sections, ranks)
  {
    var live: seq<nat> := [];
    for at := 0 to |sections|
      invariant NoDuplicates(live)
      invariant forall i: nat :: i in live <==> i < at && sections[i].virtualSize > 0
    {
      if sections[at].virtualSize > 0 {
        live := live + [at];
      }
    }
    keep := SortBy(live, RankOrder(ranks));
    SortIsSorted(live, RankOrder(ranks));
    SortKeepsDistinct(live, RankOrder(ranks));
    SortIsPermutation(live, RankOrder(ranks));
    forall i, j | 0 <= i < j < |keep|
      ensures RankLe(ranks, keep[i], keep[j])
    {
      assert keep[i] in keep && keep[j] in keep;
    }
  }

  /** For each builder index its place in the image, if it has one. */
  predicate RemapFits(remap: seq<Option<nat>>, keep: seq<nat>)
  {
    && (forall at :: 0 <= at < |remap| && remap[at].Some? ==> remap[at].value < |keep| && keep[remap[at].value] == at)
    && (forall i :: 0 <= i < |keep| ==> keep[i] < |remap| && remap[keep[i]] == Some(i))
  }

  method Remap(keep: seq<nat>, count: nat) returns (remap: seq<Option<nat>>)
    requires NoDuplicates(keep) && forall i :: 0 <= i < |keep| ==> keep[i] < count
    ensures |remap| == count && RemapFits(remap, keep)
  {
    remap := seq(count, _ => None);
    for i := 0 to |keep|
      invariant |remap| == count
      invariant forall at :: 0 <= at < count && remap[at].Some? ==> remap[at].value < i && keep[remap[at].value] == at
      invariant forall j :: 0 <= j < i ==> remap[keep[j]] == Some(j)
    {
      remap := remap[keep[i] := Some(i)];
    }
  }

  /** A placement, seen from the image. */
  function Moved(remap: seq<Option<nat>>, slot: Option<nat>): Option<nat>
  {
    if slot.Some? && slot.value < |remap| then remap[slot.value] else None
  }

  predicate SlotsMoved(remap: seq<Option<nat>>, placements: seq<seq<Option<nat>>>, outputs: seq<seq<Option<nat>>>)
  {
    && |outputs| == |placements|
    && forall f :: 0 <= f < |placements| ==> |outputs[f]| == |placements[f]| && forall s :: 0 <= s < |placements[f]| ==>
         outputs[f][s] == Moved(remap, placements[f][s])
  }

  method MoveSlots(remap: seq<Option<nat>>, placements: seq<seq<Option<nat>>>) returns (outputs: seq<seq<Option<nat>>>)
    ensures SlotsMoved(remap, placements, outputs)
  {
    outputs := [];
    for f := 0 to |placements|
      invariant |outputs| == f
      invariant forall g :: 0 <= g < f ==> |outputs[g]| == |placements[g]| && forall s :: 0 <= s < |placements[g]| ==>
        outputs[g][s] == Moved(remap, placements[g][s])
    {
      var slots := placements[f];
      for s := 0 to |slots|
        invariant |slots| == |placements[f]|
        invariant forall k :: 0 <= k < s ==> slots[k] == Moved(remap, placements[f][k])
        invariant forall k :: s <= k < |slots| ==> slots[k] == placements[f][k]
      {
        slots := slots[s := Moved(remap, slots[s])];
      }
      outputs := outputs + [slots];
    }
  }

  // ---- Markers of the image ----

  /** Some mark of the section is this marker's. */
  predicate MarkedAs(recipe: seq<Step>, marks: seq<Mark>, marker: Marker, offset: nat)
  {
    exists k :: 0 <= k < |marks| && marks[k].step < |recipe| && recipe[marks[k].step].Insert?
      && recipe[marks[k].step].marker == marker && marks[k].offset == offset
  }

  lemma {:induction false} MarkersOfHas(recipe: seq<Step>, marks: seq<Mark>, at: nat, x: (Marker, nat, nat))
    ensures x in MarkersOf(recipe, marks, at) <==> x.1 == at && MarkedAs(recipe, marks, x.0, x.2)
    decreases |marks|
  {
    if marks != [] {
      var init := marks[..|marks| - 1];
      var last := marks[|marks| - 1];
      assert marks == init + [last];
      MarkersOfHas(recipe, init, at, x);
      MarkedAsNext(recipe, init, last, x.0, x.2);
      hide MarkedAs;
    }
  }

  lemma MarkedAsNext(recipe: seq<Step>, init: seq<Mark>, last: Mark, marker: Marker, offset: nat)
    ensures MarkedAs(recipe, init + [last], marker, offset) <==>
      || MarkedAs(recipe, init, marker, offset)
      || (last.step < |recipe| && recipe[last.step].Insert? && recipe[last.step].marker == marker && last.offset == offset)
  {
    var marks := init + [last];
    if MarkedAs(recipe, init, marker, offset) {
      var k :| 0 <= k < |init| && init[k].step < |recipe| && recipe[init[k].step].Insert?
        && recipe[init[k].step].marker == marker && init[k].offset == offset;
      assert marks[k] == init[k];
    }
    assert marks[|init|] == last;
  }

  lemma {:induction false} AllMarkersHas(recipe: seq<Step>, sections: seq<OutSection>, x: (Marker, nat, nat))
    ensures x in AllMarkers(recipe, sections) <==> x.1 < |sections| && MarkedAs(recipe, sections[x.1].marks, x.0, x.2)
    decreases |sections|
  {
    hide MarkedAs, MarkersOf;
    if sections != [] {
      var last := |sections| - 1;
      AllMarkersHas(recipe, sections[..last], x);
      MarkersOfHas(recipe, sections[last].marks, last, x);
      var (rest, more) := (AllMarkers(recipe, sections[..last]), MarkersOf(recipe, sections[last].marks, last));
      assert x in rest + more <==> x in rest || x in more;
    }
  }

  /** The markers of dropped sections go; the others follow their section. */
  ghost predicate MarkersMoved(remap: seq<Option<nat>>, markers: seq<(Marker, nat, nat)>, moved: seq<(Marker, nat, nat)>)
  {
    forall x :: x in moved <==> exists y :: y in markers && y.0 == x.0 && y.2 == x.2 && y.1 < |remap| && remap[y.1] == Some(x.1)
  }

  method MoveMarkers(remap: seq<Option<nat>>, markers: seq<(Marker, nat, nat)>) returns (moved: seq<(Marker, nat, nat)>)
    ensures MarkersMoved(remap, markers, moved)
  {
    moved := [];
    for i := 0 to |markers|
      invariant MarkersMoved(remap, markers[..i], moved)
    {
      assert markers[..i + 1] == markers[..i] + [markers[i]];
      var (marker, at, offset) := markers[i];
      if at < |remap| && remap[at].Some? {
        moved := moved + [(marker, remap[at].value, offset)];
      }
    }
    assert markers[..|markers|] == markers;
  }
}
