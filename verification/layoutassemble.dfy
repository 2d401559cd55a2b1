/** Filling the builder: the known sections, the contributions of every file, the generated sections. */
module LayoutAssemble {
  import opened Bits
  import opened Results
  import opened LayoutModel
  import opened LayoutBuild
  import opened LayoutAssign

  /** Where an input section went: nowhere, unless it is live. */
  predicate SlotFits(names: seq<string>, recipe: seq<Step>, section: InSection, slot: Option<nat>)
  {
    if section.live then slot.Some? && slot.value < |names| && names[slot.value] == Target(recipe, section.name) else slot.None?
  }

  /** Output sections are only ever added at the end. */
  predicate Grown(names: seq<string>, names': seq<string>)
  {
    names <= names'
  }

  lemma GrownMore(a: seq<string>, b: seq<string>, c: seq<string>)
    requires Grown(a, b) && Grown(b, c)
    ensures Grown(a, c)
  {
  }

  predicate FileFits(names: seq<string>, recipe: seq<Step>, sections: seq<InSection>, n: nat, slots: seq<Option<nat>>)
  {
    && |slots| == |sections| && n <= |sections|
    && (forall i :: 0 <= i < n ==> SlotFits(names, recipe, sections[i], slots[i]))
    && (forall i :: n <= i < |slots| ==> slots[i].None?)
  }

  /** The placements of the first `f` files. */
  predicate FilesFit(names: seq<string>, recipe: seq<Step>, files: seq<InFile>, f: nat, placements: seq<seq<Option<nat>>>)
  {
    && |placements| == f <= |files|
    && forall g :: 0 <= g < f ==>
         if files[g].sections.Some? then FileFits(names, recipe, files[g].sections.value, |files[g].sections.value|, placements[g])
         else placements[g] == []
  }

  lemma FilesFitMore(names: seq<string>, names': seq<string>, recipe: seq<Step>, files: seq<InFile>, f: nat, placements: seq<seq<Option<nat>>>)
    requires FilesFit(names, recipe, files, f, placements) && Grown(names, names')
    ensures FilesFit(names', recipe, files, f, placements)
  {
    hide Target;
    forall g | 0 <= g < f && files[g].sections.Some?
      ensures FileFits(names', recipe, files[g].sections.value, |files[g].sections.value|, placements[g])
    {
      FileFitsMore(names, names', recipe, files[g].sections.value, |files[g].sections.value|, placements[g]);
    }
  }

  lemma FilesFitNext(names: seq<string>, recipe: seq<Step>, files: seq<InFile>, f: nat, placements: seq<seq<Option<nat>>>, slots: seq<Option<nat>>)
    requires FilesFit(names, recipe, files, f, placements) && f < |files|
    requires if files[f].sections.Some? then FileFits(names, recipe, files[f].sections.value, |files[f].sections.value|, slots) else slots == []
    ensures FilesFit(names, recipe, files, f + 1, placements + [slots])
  {
    hide FileFits;
  }

  lemma FileFitsMore(names: seq<string>, names': seq<string>, recipe: seq<Step>, sections: seq<InSection>, n: nat, slots: seq<Option<nat>>)
    requires FileFits(names, recipe, sections, n, slots) && Grown(names, names')
    ensures FileFits(names', recipe, sections, n, slots)
  {
    hide Target;
  }

  /** For each step done, the index of its output section. */
  predicate OutputsFit(names: seq<string>, recipe: seq<Step>, k: nat, outputs: seq<nat>)
  {
    && |outputs| == k <= |recipe|
    && forall i :: 0 <= i < k ==> outputs[i] < |names| && names[outputs[i]] == recipe[i].output
  }

  /** The state of the builder, all of it. */
  ghost predicate At(t: Tables, wanted: seq<Wanted>, recipe: seq<Step>, input: Input, f: nat, n: nat, k: nat)
  {
    Reflects(t, wanted) && Holding(t, recipe, input, f, n, k)
  }

  lemma AtContributed(t: Tables, at: nat, wanted: seq<Wanted>, recipe: seq<Step>, input: Input, f: nat, n: nat)
    requires Reached(input.files, f, n + 1) && TablesFit(t) && at < |t.sections|
    requires At(t, wanted, recipe, input, f, n, 0)
    requires var section := input.files[f].sections.value[n];
      section.live && Target(recipe, section.name) == t.sections[at].name
    ensures var section := input.files[f].sections.value[n];
      At(Contributed(t, at, PlacedAs(recipe, section.name, f, n + 1), section), wanted, recipe, input, f, n + 1, 0)
  {
    var section := input.files[f].sections.value[n];
    hide Reflects, Holding, Target, PlacedAs, Contributed;
    ContributedHolding(t, at, recipe, input, f, n);
    ContributedReflects(t, at, PlacedAs(recipe, section.name, f, n + 1), section, wanted);
  }

  /** A request for a section, seen from outside the builder. */
  method Ask(build: Builder, name: string, rank: nat, ghost wanted: seq<Wanted>, ghost recipe: seq<Step>, ghost input: Input, ghost f: nat, ghost n: nat, ghost k: nat)
    returns (at: nat)
    requires At(build.State(), wanted, recipe, input, f, n, k) && rank <= U32_MAX
    modifies build
    ensures At(build.State(), wanted + [Wanted(name, rank)], recipe, input, f, n, k)
    ensures Grown(Names(old(build.sections)), Names(build.sections))
    ensures at < |build.sections| && build.sections[at].name == name
    ensures build.State() == Requested(old(build.State()), name, rank)
  {
    ghost var t := build.State();
    RequestedHolding(t, name, rank, recipe, input, f, n, k);
    RequestedReflects(t, wanted, Wanted(name, rank));
    at := build.Section(name, rank);
    NameAt(build.sections, at);
  }

  /** Reserve the known output sections in recipe order. */
  method ReserveKnown(build: Builder, recipe: seq<Step>, ghost input: Input) returns (outputs: seq<nat>)
    requires At(build.State(), [], recipe, input, 0, 0, 0) && |recipe| < NO_STEP
    modifies build
    ensures At(build.State(), OfRecipe(recipe, |recipe|), recipe, input, 0, 0, 0)
    ensures OutputsFit(Names(build.sections), recipe, |recipe|, outputs)
  {
    outputs := [];
    assert OfRecipe(recipe, 0) == [];
    hide At, Names, Requested, OutputsFit, OfRecipe, Grown;
    for i := 0 to |recipe|
      invariant At(build.State(), OfRecipe(recipe, i), recipe, input, 0, 0, 0)
      invariant OutputsFit(Names(build.sections), recipe, i, outputs)
    {
      ghost var before := Names(build.sections);
      var at := Ask(build, recipe[i].output, i, OfRecipe(recipe, i), recipe, input, 0, 0, 0);
      OfRecipeNext(recipe, i);
      OutputsFitNext(before, build.sections, recipe, i, outputs, at);
      outputs := outputs + [at];
    }
  }

  lemma OfRecipeNext(recipe: seq<Step>, i: nat)
    requires i < |recipe|
    ensures OfRecipe(recipe, i + 1) == OfRecipe(recipe, i) + [Wanted(recipe[i].output, i)]
  {
  }

  lemma OfTrailingNext(wanted: seq<Wanted>, trailing: seq<string>, i: nat)
    requires i < |trailing|
    ensures wanted + OfTrailing(trailing, i + 1) == wanted + OfTrailing(trailing, i) + [Wanted(trailing[i], RANK_TRAILING + i)]
  {
  }

  lemma OutputsFitNext(names: seq<string>, sections: seq<OutSection>, recipe: seq<Step>, k: nat, outputs: seq<nat>, at: nat)
    requires OutputsFit(names, recipe, k, outputs) && Grown(names, Names(sections)) && k < |recipe|
    requires at < |sections| && sections[at].name == recipe[k].output
    ensures OutputsFit(Names(sections), recipe, k + 1, outputs + [at])
  {
    NameAt(sections, at);
  }

  /** Reserve the sections that close the image. */
  method ReserveTrailing(build: Builder, ghost wanted: seq<Wanted>, ghost recipe: seq<Step>, trailing: seq<string>, ghost input: Input)
    requires At(build.State(), wanted, recipe, input, 0, 0, 0) && |trailing| < NO_STEP - RANK_TRAILING
    modifies build
    ensures At(build.State(), wanted + OfTrailing(trailing, |trailing|), recipe, input, 0, 0, 0)
    ensures Grown(Names(old(build.sections)), Names(build.sections))
  {
    ghost var names := Names(build.sections);
    assert wanted + OfTrailing(trailing, 0) == wanted;
    hide At, Names, Requested, Grown, OfTrailing;
    for i := 0 to |trailing|
      invariant At(build.State(), wanted + OfTrailing(trailing, i), recipe, input, 0, 0, 0)
      invariant Grown(names, Names(build.sections))
    {
      ghost var before := Names(build.sections);
      var _ := Ask(build, trailing[i], RANK_TRAILING + i, wanted + OfTrailing(trailing, i), recipe, input, 0, 0, 0);
      OfTrailingNext(wanted, trailing, i);
      GrownMore(names, before, Names(build.sections));
    }
  }

  /** The output section of a live section: its step's, or the orphan named after it. */
  method Locate(build: Builder, ghost wanted: seq<Wanted>, recipe: seq<Step>, section: InSection, ghost input: Input, ghost f: nat, ghost n: nat, outputs: seq<nat>)
    returns (at: nat)
    requires section.live && At(build.State(), wanted, recipe, input, f, n, 0)
    requires OutputsFit(Names(build.sections), recipe, |recipe|, outputs)
    modifies build
    ensures At(build.State(), wanted + Orphan(recipe, section), recipe, input, f, n, 0)
    ensures Grown(Names(old(build.sections)), Names(build.sections))
    ensures at < |build.sections| && build.sections[at].name == Target(recipe, section.name)
  {
    SectionGoes(recipe, section, wanted);
    var step := StepFrom(recipe, 0, section.name);
    hide At, Names, OutputsFit, StepFrom, Target, Orphan, OrphanName, OrphanRank, Requested;
    if step.Some? {
      OutputAt(build.sections, recipe, outputs, step.value);
      at := outputs[step.value];
    } else {
      at := Ask(build, OrphanName(section.name), OrphanRank(OrphanName(section.name)), wanted, recipe, input, f, n, 0);
    }
  }

  /** One live section: it joins its output section. */
  method AssignSection(build: Builder, ghost wanted: seq<Wanted>, recipe: seq<Step>, input: Input, f: nat, n: nat, outputs: seq<nat>)
    returns (at: nat)
    requires Reached(input.files, f, n + 1) && input.files[f].sections.value[n].live
    requires At(build.State(), wanted, recipe, input, f, n, 0)
    requires OutputsFit(Names(build.sections), recipe, |recipe|, outputs)
    modifies build
    ensures At(build.State(), wanted + Orphan(recipe, input.files[f].sections.value[n]), recipe, input, f, n + 1, 0)
    ensures Grown(Names(old(build.sections)), Names(build.sections))
    ensures SlotFits(Names(build.sections), recipe, input.files[f].sections.value[n], Some(at))
  {
    var section := input.files[f].sections.value[n];
    hide At, Names, OutputsFit, Target, Orphan, PlacedAs, Contributed, Grown;
    at := Locate(build, wanted, recipe, section, input, f, n, outputs);
    AtContributed(build.State(), at, wanted + Orphan(recipe, section), recipe, input, f, n);
    NameAt(build.sections, at);
    build.Contribute(at, PlacedAs(recipe, section.name, f, n + 1), section);
  }

  lemma SectionGoes(recipe: seq<Step>, section: InSection, wanted: seq<Wanted>)
    requires section.live
    ensures var step := StepFrom(recipe, 0, section.name);
      && Target(recipe, section.name) == (if step.Some? then recipe[step.value].output else OrphanName(section.name))
      && wanted + Orphan(recipe, section)
         == (if step.Some? then wanted else wanted + [Wanted(OrphanName(section.name), OrphanRank(OrphanName(section.name)))])
  {
    hide OrphanName, OrphanRank;
  }

  lemma OutputAt(sections: seq<OutSection>, recipe: seq<Step>, outputs: seq<nat>, k: nat)
    requires OutputsFit(Names(sections), recipe, |recipe|, outputs) && k < |recipe|
    ensures k < |outputs| && outputs[k] < |sections| && sections[outputs[k]].name == recipe[k].output
  {
    NameAt(sections, outputs[k]);
  }

  /** What a live section requests by itself. */
  function Orphan(recipe: seq<Step>, section: InSection): seq<Wanted>
  {
    if section.live && StepFrom(recipe, 0, section.name).None?
    then [Wanted(OrphanName(section.name), OrphanRank(OrphanName(section.name)))] else []
  }

  lemma ContributedReflects(t: Tables, at: nat, placed: Placed, section: InSection, wanted: seq<Wanted>)
    requires Reflects(t, wanted) && at < |t.sections|
    ensures TablesFit(t) && Reflects(Contributed(t, at, placed, section), wanted)
  {
    var t' := Contributed(t, at, placed, section);
    assert Names(t'.sections) == Names(t.sections);
    hide FirstSeen, LowestRank;
  }

  lemma ReservingReflects(t: Tables, at: nat, size: nat, align: nat, wanted: seq<Wanted>)
    requires Reflects(t, wanted) && at < |t.sections|
    ensures TablesFit(t) && Reflects(Reserving(t, at, size, align), wanted)
  {
    var t' := Reserving(t, at, size, align);
    assert Names(t'.sections) == Names(t.sections);
    hide FirstSeen, LowestRank;
  }

  lemma OfSectionsNext(wanted: seq<Wanted>, recipe: seq<Step>, sections: seq<InSection>, n: nat)
    requires n < |sections|
    ensures wanted + OfSections(recipe, sections, n + 1) == wanted + OfSections(recipe, sections, n) + Orphan(recipe, sections[n])
  {
    hide OrphanName, OrphanRank, StepFrom;
    assert OfSections(recipe, sections, n + 1) == OfSections(recipe, sections, n) + Orphan(recipe, sections[n]);
  }

  method AssignFile(build: Builder, ghost wanted: seq<Wanted>, recipe: seq<Step>, input: Input, f: nat, outputs: seq<nat>)
    returns (slots: seq<Option<nat>>)
    requires f < |input.files| && input.files[f].sections.Some?
    requires At(build.State(), wanted, recipe, input, f, 0, 0)
    requires OutputsFit(Names(build.sections), recipe, |recipe|, outputs) && |recipe| < NO_STEP
    modifies build
    ensures var sections := input.files[f].sections.value;
      && At(build.State(), wanted + OfSections(recipe, sections, |sections|), recipe, input, f, |sections|, 0)
      && FileFits(Names(build.sections), recipe, sections, |sections|, slots)
    ensures Grown(Names(old(build.sections)), Names(build.sections))
  {
    var sections := input.files[f].sections.value;
    slots := seq(|sections|, _ => None);
    ghost var names := Names(build.sections);
    assert wanted + OfSections(recipe, sections, 0) == wanted;
    hide At, FileFits, OutputsFit, OfSections, Orphan, Names, SlotFits, Grown;
    for n := 0 to |sections|
      invariant At(build.State(), wanted + OfSections(recipe, sections, n), recipe, input, f, n, 0)
      invariant FileFits(Names(build.sections), recipe, sections, n, slots)
      invariant OutputsFit(Names(build.sections), recipe, |recipe|, outputs)
      invariant Grown(names, Names(build.sections))
    {
      ghost var so_far := wanted + OfSections(recipe, sections, n);
      OfSectionsNext(wanted, recipe, sections, n);
      if sections[n].live {
        ghost var before := Names(build.sections);
        var at := AssignSection(build, so_far, recipe, input, f, n, outputs);
        OutputsFitMore(before, Names(build.sections), recipe, |recipe|, outputs);
        FileFitsNext(before, Names(build.sections), recipe, sections, n, slots, Some(at));
        GrownMore(names, before, Names(build.sections));
        slots := slots[n := Some(at)];
      } else {
        SkipDead(build.State(), so_far, recipe, input, f, n, slots);
      }
    }
  }

  lemma FileFitsNext(names: seq<string>, names': seq<string>, recipe: seq<Step>, sections: seq<InSection>, n: nat, slots: seq<Option<nat>>, slot: Option<nat>)
    requires FileFits(names, recipe, sections, n, slots) && Grown(names, names') && n < |sections|
    requires SlotFits(names', recipe, sections[n], slot)
    ensures n < |slots| && FileFits(names', recipe, sections, n + 1, slots[n := slot])
  {
    FileFitsMore(names, names', recipe, sections, n, slots);
    hide SlotFits;
  }

  lemma SkipDead(t: Tables, wanted: seq<Wanted>, recipe: seq<Step>, input: Input, f: nat, n: nat, slots: seq<Option<nat>>)
    requires Reached(input.files, f, n + 1) && !input.files[f].sections.value[n].live
    requires At(t, wanted, recipe, input, f, n, 0)
    requires FileFits(Names(t.sections), recipe, input.files[f].sections.value, n, slots)
    ensures At(t, wanted + Orphan(recipe, input.files[f].sections.value[n]), recipe, input, f, n + 1, 0)
    ensures FileFits(Names(t.sections), recipe, input.files[f].sections.value, n + 1, slots)
  {
    var sections := input.files[f].sections.value;
    HoldingDead(t, recipe, input, f, n);
    assert wanted + Orphan(recipe, sections[n]) == wanted;
    hide Reflects, Holding;
    FileFitsNext(Names(t.sections), Names(t.sections), recipe, sections, n, slots, None);
    assert slots[n := None] == slots;
  }

  lemma OutputsFitMore(names: seq<string>, names': seq<string>, recipe: seq<Step>, k: nat, outputs: seq<nat>)
    requires OutputsFit(names, recipe, k, outputs) && Grown(names, names')
    ensures OutputsFit(names', recipe, k, outputs)
  {
  }

  /** Every live input section of every file. */
  method AssignFiles(build: Builder, ghost wanted: seq<Wanted>, recipe: seq<Step>, input: Input, outputs: seq<nat>)
    returns (placements: seq<seq<Option<nat>>>)
    requires At(build.State(), wanted, recipe, input, 0, 0, 0)
    requires OutputsFit(Names(build.sections), recipe, |recipe|, outputs) && |recipe| < NO_STEP
    modifies build
    ensures At(build.State(), wanted + OfFiles(recipe, input.files, |input.files|), recipe, input, |input.files|, 0, 0)
    ensures FilesFit(Names(build.sections), recipe, input.files, |input.files|, placements)
    ensures Grown(Names(old(build.sections)), Names(build.sections))
  {
    placements := [];
    ghost var names := Names(build.sections);
    assert wanted + OfFiles(recipe, input.files, 0) == wanted;
    hide At, FilesFit, FileFits, OutputsFit, OfSections, OfFiles, Names, Grown;
    for f := 0 to |input.files|
      invariant At(build.State(), wanted + OfFiles(recipe, input.files, f), recipe, input, f, 0, 0)
      invariant FilesFit(Names(build.sections), recipe, input.files, f, placements)
      invariant OutputsFit(Names(build.sections), recipe, |recipe|, outputs)
      invariant Grown(names, Names(build.sections))
    {
      ghost var so_far := wanted + OfFiles(recipe, input.files, f);
      OfFilesNext(wanted, recipe, input.files, f);
      if input.files[f].sections.None? {
        AtNextFile(build.State(), so_far, recipe, input, f);
        FilesFitNext(Names(build.sections), recipe, input.files, f, placements, []);
        placements := placements + [[]];
      } else {
        ghost var sections := input.files[f].sections.value;
        ghost var before := Names(build.sections);
        var slots := AssignFile(build, so_far, recipe, input, f, outputs);
        OutputsFitMore(before, Names(build.sections), recipe, |recipe|, outputs);
        FilesFitMore(before, Names(build.sections), recipe, input.files, f, placements);
        AtNextFile(build.State(), so_far + OfSections(recipe, sections, |sections|), recipe, input, f);
        GrownMore(names, before, Names(build.sections));
        FilesFitNext(Names(build.sections), recipe, input.files, f, placements, slots);
        placements := placements + [slots];
      }
    }
  }

  lemma OfFilesNext(wanted: seq<Wanted>, recipe: seq<Step>, files: seq<InFile>, f: nat)
    requires f < |files|
    ensures wanted + OfFiles(recipe, files, f + 1)
         == if files[f].sections.Some? then wanted + OfFiles(recipe, files, f) + OfSections(recipe, files[f].sections.value, |files[f].sections.value|)
            else wanted + OfFiles(recipe, files, f)
  {
    hide OfSections;
    var more := if files[f].sections.Some? then OfSections(recipe, files[f].sections.value, |files[f].sections.value|) else [];
    assert OfFiles(recipe, files, f + 1) == OfFiles(recipe, files, f) + more;
    assert wanted + (OfFiles(recipe, files, f) + more) == wanted + OfFiles(recipe, files, f) + more;
  }

  lemma AtNextFile(t: Tables, wanted: seq<Wanted>, recipe: seq<Step>, input: Input, f: nat)
    requires f < |input.files|
    requires At(t, wanted, recipe, input, f, if input.files[f].sections.Some? then |input.files[f].sections.value| else 0, 0)
    ensures At(t, wanted, recipe, input, f + 1, 0, 0)
  {
    HoldingFile(t, recipe, input, f);
  }

  /** The sections the linker generates. */
  method AddSynthetic(build: Builder, ghost wanted: seq<Wanted>, ghost recipe: seq<Step>, trailing: seq<string>, input: Input)
    requires At(build.State(), wanted, recipe, input, |input.files|, 0, 0)
    modifies build
    ensures At(build.State(), wanted + OfSynthetic(trailing, input.synthetic, |input.synthetic|), recipe, input, |input.files|, 0, |input.synthetic|)
    ensures Grown(Names(old(build.sections)), Names(build.sections))
  {
    ghost var names := Names(build.sections);
    assert wanted + OfSynthetic(trailing, input.synthetic, 0) == wanted;
    hide At, Names, Grown, OfSynthetic, Reserving, Requested;
    for k := 0 to |input.synthetic|
      invariant At(build.State(), wanted + OfSynthetic(trailing, input.synthetic, k), recipe, input, |input.files|, 0, k)
      invariant Grown(names, Names(build.sections))
    {
      var s := input.synthetic[k];
      var rank := if s.name in trailing then RANK_TRAILING else RANK_ORPHAN;
      ghost var so_far := wanted + OfSynthetic(trailing, input.synthetic, k);
      ghost var before := Names(build.sections);
      OfSyntheticNext(wanted, trailing, input.synthetic, k);
      var at := Ask(build, s.name, rank, so_far, recipe, input, |input.files|, 0, k);
      AtReserving(build.State(), at, so_far + [Wanted(s.name, rank)], recipe, input, k);
      build.Reserve(at, s.size, s.align);
      GrownMore(names, before, Names(build.sections));
    }
  }

  lemma OfSyntheticNext(wanted: seq<Wanted>, trailing: seq<string>, synthetic: seq<Synthetic>, k: nat)
    requires k < |synthetic|
    ensures wanted + OfSynthetic(trailing, synthetic, k + 1)
         == wanted + OfSynthetic(trailing, synthetic, k) + [Wanted(synthetic[k].name, if synthetic[k].name in trailing then RANK_TRAILING else RANK_ORPHAN)]
  {
  }

  lemma AtReserving(t: Tables, at: nat, wanted: seq<Wanted>, recipe: seq<Step>, input: Input, k: nat)
    requires k < |input.synthetic| && at < |t.sections| && t.sections[at].name == input.synthetic[k].name
    requires At(t, wanted, recipe, input, |input.files|, 0, k)
    ensures TablesFit(t)
    ensures At(Reserving(t, at, input.synthetic[k].size, input.synthetic[k].align), wanted, recipe, input, |input.files|, 0, k + 1)
  {
    ReservingReflects(t, at, input.synthetic[k].size, input.synthetic[k].align, wanted);
    ReservingHolding(t, at, recipe, input, k);
  }

  /** The builder with every contribution listed. */
  method Assemble(recipe: seq<Step>, trailing: seq<string>, input: Input) returns (build: Builder, placements: seq<seq<Option<nat>>>)
    requires |recipe| < NO_STEP && |trailing| < NO_STEP - RANK_TRAILING
    ensures fresh(build)
    ensures At(build.State(), AllWanted(recipe, trailing, input), recipe, input, |input.files|, 0, |input.synthetic|)
    ensures FilesFit(Names(build.sections), recipe, input.files, |input.files|, placements)
  {
    build := new Builder();
    assert At(build.State(), [], recipe, input, 0, 0, 0);
    hide At, FilesFit, OutputsFit, Names, OfRecipe, OfTrailing, OfFiles, OfSynthetic, Grown;
    var outputs := ReserveKnown(build, recipe, input);
    ghost var first := Names(build.sections);
    ReserveTrailing(build, OfRecipe(recipe, |recipe|), recipe, trailing, input);
    OutputsFitMore(first, Names(build.sections), recipe, |recipe|, outputs);
    ghost var known := OfRecipe(recipe, |recipe|) + OfTrailing(trailing, |trailing|);
    placements := AssignFiles(build, known, recipe, input, outputs);
    ghost var before := Names(build.sections);
    AddSynthetic(build, known + OfFiles(recipe, input.files, |input.files|), recipe, trailing, input);
    FilesFitMore(before, Names(build.sections), recipe, input.files, |input.files|, placements);
  }
}
