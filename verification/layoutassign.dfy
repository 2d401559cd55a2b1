/** Assigning every live input section to an output section. */
module LayoutAssign {
  import opened Bits
  import opened Sorting
  import opened LayoutModel
  import opened LayoutBuild

  // ---- Requests for output sections, in the order they are made ----

  datatype Wanted = Wanted(name: string, rank: nat)

  /** The names in order of first request. */
  function FirstSeen(wanted: seq<Wanted>): seq<string>
    decreases |wanted|
  {
    if wanted == [] then []
    else
      var (rest, last) := (FirstSeen(wanted[..|wanted| - 1]), wanted[|wanted| - 1]);
      if last.name in rest then rest else rest + [last.name]
  }

  /** Every name requested is seen. */
  lemma {:induction false} WantedSeen(wanted: seq<Wanted>, i: nat)
    requires i < |wanted|
    ensures wanted[i].name in FirstSeen(wanted)
    decreases |wanted|
  {
    if i < |wanted| - 1 { WantedSeen(wanted[..|wanted| - 1], i); }
  }

  /** The lowest rank a name was requested with. */
  function LowestRank(wanted: seq<Wanted>, name: string): nat
    decreases |wanted|
  {
    if wanted == [] then U32_MAX
    else
      var (rest, last) := (LowestRank(wanted[..|wanted| - 1], name), wanted[|wanted| - 1]);
      if last.name == name && last.rank < rest then last.rank else rest
  }

  /** The known debugging sections, in the order they follow `.reloc`. */
  function DebugOrder(): (r: seq<string>)
    ensures |r| == 27
  {
    [".stab", ".stabstr", ".debug_aranges", ".debug_pubnames", ".debug_info", ".debug_abbrev", ".debug_line",
     ".debug_frame", ".debug_str", ".debug_loc", ".debug_macinfo", ".debug_weaknames", ".debug_funcnames",
     ".debug_typenames", ".debug_varnames", ".debug_pubtypes", ".debug_ranges", ".debug_types", ".debug_addr",
     ".debug_line_str", ".debug_loclists", ".debug_macro", ".debug_names", ".debug_rnglists",
     ".debug_str_offsets", ".debug_sup", ".debug_gdb_scripts"]
  }

  /** Debugging sections close the image, compressed ones beside their plain form; other orphans follow the recipe's. */
  function OrphanRank(name: string): (r: nat)
    ensures r <= U32_MAX
  {
    hide DebugOrder;
    var plain := if ".zdebug" <= name then "." + name[2..] else name;
    var order := DebugOrder();
    var index := IndexIn(order, plain);
    if index < |order| then RANK_DEBUG + index
    else if ".debug" <= plain then RANK_DEBUG + |order|
    else RANK_ORPHAN
  }

  function OfRecipe(recipe: seq<Step>, k: nat): seq<Wanted>
    requires k <= |recipe|
  {
    seq(k, i requires 0 <= i < k => Wanted(recipe[i].output, i))
  }

  function OfTrailing(trailing: seq<string>, k: nat): seq<Wanted>
    requires k <= |trailing|
  {
    seq(k, i requires 0 <= i < k => Wanted(trailing[i], RANK_TRAILING + i))
  }

  /** What the orphans among the first `n` sections of a file request. */
  function OfSections(recipe: seq<Step>, sections: seq<InSection>, n: nat): seq<Wanted>
    requires n <= |sections|
  {
    if n == 0 then []
    else
      var rest := OfSections(recipe, sections, n - 1);
      var section := sections[n - 1];
      if section.live && StepFrom(recipe, 0, section.name).None?
      then rest + [Wanted(OrphanName(section.name), OrphanRank(OrphanName(section.name)))] else rest
  }

  function OfFiles(recipe: seq<Step>, files: seq<InFile>, f: nat): seq<Wanted>
    requires f <= |files|
  {
    if f == 0 then []
    else
      var sections := files[f - 1].sections;
      OfFiles(recipe, files, f - 1) + (if sections.Some? then OfSections(recipe, sections.value, |sections.value|) else [])
  }

  function OfSynthetic(trailing: seq<string>, synthetic: seq<Synthetic>, k: nat): seq<Wanted>
    requires k <= |synthetic|
  {
    seq(k, i requires 0 <= i < k => Wanted(synthetic[i].name, if synthetic[i].name in trailing then RANK_TRAILING else RANK_ORPHAN))
  }

  /** Everything requested while an image is laid out. */
  function AllWanted(recipe: seq<Step>, trailing: seq<string>, input: Input): seq<Wanted>
  {
    OfRecipe(recipe, |recipe|) + OfTrailing(trailing, |trailing|) + OfFiles(recipe, input.files, |input.files|)
    + OfSynthetic(trailing, input.synthetic, |input.synthetic|)
  }

  /** The output of every step is asked for. */
  lemma StepWanted(recipe: seq<Step>, trailing: seq<string>, input: Input, t: nat)
    requires t < |recipe|
    ensures recipe[t].output in FirstSeen(AllWanted(recipe, trailing, input))
  {
    hide FirstSeen, OfFiles, OfTrailing, OfSynthetic;
    var wanted := AllWanted(recipe, trailing, input);
    assert wanted[t] == Wanted(recipe[t].output, t);
    WantedSeen(wanted, t);
  }

  /** The tables have the requested sections, in order, with their ranks. */
  ghost predicate Reflects(t: Tables, wanted: seq<Wanted>)
  {
    && TablesFit(t)
    && Names(t.sections) == FirstSeen(wanted)
    && forall at :: 0 <= at < |t.ranks| ==> t.ranks[at] == LowestRank(wanted, t.sections[at].name)
  }

  lemma {:induction false} Unseen(wanted: seq<Wanted>, name: string)
    requires name !in FirstSeen(wanted)
    ensures LowestRank(wanted, name) == U32_MAX
    decreases |wanted|
  {
    if wanted != [] { Unseen(wanted[..|wanted| - 1], name); }
  }

  lemma WantedNext(wanted: seq<Wanted>, w: Wanted)
    ensures FirstSeen(wanted + [w]) == if w.name in FirstSeen(wanted) then FirstSeen(wanted) else FirstSeen(wanted) + [w.name]
    ensures forall name :: LowestRank(wanted + [w], name)
                        == if w.name == name && w.rank < LowestRank(wanted, name) then w.rank else LowestRank(wanted, name)
  {
    assert (wanted + [w])[..|wanted|] == wanted;
  }

  lemma RequestedReflects(t: Tables, wanted: seq<Wanted>, w: Wanted)
    requires Reflects(t, wanted) && w.rank <= U32_MAX
    ensures Reflects(Requested(t, w.name, w.rank), wanted + [w])
  {
    RequestedFits(t, w.name, w.rank);
    WantedNext(wanted, w);
    var t' := Requested(t, w.name, w.rank);
    var at := IndexIn(Names(t.sections), w.name);
    if at == |t.sections| { Unseen(wanted, w.name); }
    forall i | 0 <= i < |t'.ranks|
      ensures t'.ranks[i] == LowestRank(wanted + [w], t'.sections[i].name)
    {
      if i < |t.sections| {
        assert Names(t.sections)[i] == t.sections[i].name;
        if t.sections[i].name == w.name { IndexUnique(Names(t.sections), i); }
      }
    }
  }

  // ---- What the tables hold ----

  /** The contributions found in the first `f` files and the first `n` sections of the next. */
  ghost function Got(recipe: seq<Step>, files: seq<InFile>, f: nat, n: nat, name: string): seq<Placed>
    requires f <= |files|
    requires n > 0 ==> f < |files| && files[f].sections.Some? && n <= |files[f].sections.value|
  {
    FromFiles(recipe, files, f, name) + (if n > 0 then FromFile(recipe, files[f].sections.value, f, n, name) else [])
  }

  function Sizes(synthetic: seq<Synthetic>, k: nat, name: string): seq<nat>
    requires k <= |synthetic|
  {
    if k == 0 then []
    else Sizes(synthetic, k - 1, name) + (if synthetic[k - 1].name == name then [synthetic[k - 1].size] else [])
  }

  function AlignWith(align: nat, synthetic: seq<Synthetic>, k: nat, name: string): nat
    requires k <= |synthetic|
  {
    if k == 0 then align
    else
      var rest := AlignWith(align, synthetic, k - 1, name);
      if synthetic[k - 1].name == name && synthetic[k - 1].align > rest then synthetic[k - 1].align else rest
  }

  /** An output section with its contributions listed and nothing placed yet. */
  function Listed(name: string, files: seq<InFile>, list: seq<Placed>, synthetic: seq<Synthetic>, k: nat): OutSection
    requires k <= |synthetic|
  {
    NewSection(name).(align := AlignWith(AlignAfter(files, list), synthetic, k, name), flags := FlagsAfter(files, name, list))
  }

  predicate Reached(files: seq<InFile>, f: nat, n: nat)
  {
    f <= |files| && (n > 0 ==> f < |files| && files[f].sections.Some? && n <= |files[f].sections.value|)
  }

  /** Entry `at` holds the contributions found so far and the first `k` generated sections. */
  ghost predicate EntryHolds(t: Tables, at: nat, recipe: seq<Step>, input: Input, f: nat, n: nat, k: nat)
    requires TablesFit(t) && at < |t.sections| && Reached(input.files, f, n) && k <= |input.synthetic|
  {
    var name := t.sections[at].name;
    && t.order[at] == Got(recipe, input.files, f, n, name)
    && t.pending[at] == Sizes(input.synthetic, k, name)
    && t.sections[at] == Listed(name, input.files, t.order[at], input.synthetic, k)
  }

  ghost predicate Empty(recipe: seq<Step>, input: Input, f: nat, n: nat, k: nat, name: string)
    requires Reached(input.files, f, n) && k <= |input.synthetic|
  {
    Got(recipe, input.files, f, n, name) == [] && Sizes(input.synthetic, k, name) == []
  }

  ghost predicate Holding(t: Tables, recipe: seq<Step>, input: Input, f: nat, n: nat, k: nat)
  {
    && TablesFit(t) && Reached(input.files, f, n) && k <= |input.synthetic|
    && (forall at :: 0 <= at < |t.sections| ==> EntryHolds(t, at, recipe, input, f, n, k))
    && (forall name :: name !in Names(t.sections) ==> Empty(recipe, input, f, n, k, name))
  }

  lemma {:induction false} NoSizes(synthetic: seq<Synthetic>, k: nat, name: string, align: nat)
    requires k <= |synthetic| && Sizes(synthetic, k, name) == []
    ensures AlignWith(align, synthetic, k, name) == align
  {
    if k > 0 { NoSizes(synthetic, k - 1, name, align); }
  }

  lemma NameAt(sections: seq<OutSection>, at: nat)
    requires at < |sections|
    ensures Names(sections)[at] == sections[at].name && sections[at].name in Names(sections)
  {
    assert Names(sections)[at] == sections[at].name;
  }

  lemma RequestedHolding(t: Tables, name: string, rank: nat, recipe: seq<Step>, input: Input, f: nat, n: nat, k: nat)
    requires Holding(t, recipe, input, f, n, k)
    ensures Holding(Requested(t, name, rank), recipe, input, f, n, k)
  {
    RequestedFits(t, name, rank);
    var t' := Requested(t, name, rank);
    if name in Names(t.sections) {
      HoldingSame(t, t', recipe, input, f, n, k);
    } else {
      HoldingMore(t, t', name, recipe, input, f, n, k);
    }
  }

  lemma HoldingSame(t: Tables, t': Tables, recipe: seq<Step>, input: Input, f: nat, n: nat, k: nat)
    requires Holding(t, recipe, input, f, n, k) && TablesFit(t')
    requires t'.sections == t.sections && t'.order == t.order && t'.pending == t.pending
    ensures Holding(t', recipe, input, f, n, k)
  {
    hide Got, Sizes, Listed;
    forall at | 0 <= at < |t'.sections|
      ensures EntryHolds(t', at, recipe, input, f, n, k)
    {
      assert EntryHolds(t, at, recipe, input, f, n, k);
    }
  }

  lemma HoldingMore(t: Tables, t': Tables, name: string, recipe: seq<Step>, input: Input, f: nat, n: nat, k: nat)
    requires Holding(t, recipe, input, f, n, k) && TablesFit(t')
    requires name !in Names(t.sections) && Names(t'.sections) == Names(t.sections) + [name]
    requires t'.sections == t.sections + [NewSection(name)] && t'.order == t.order + [[]] && t'.pending == t.pending + [[]]
    ensures Holding(t', recipe, input, f, n, k)
  {
    hide Got, Sizes, Listed, Names, NoDuplicates, NewSection;
    forall at | 0 <= at < |t'.sections|
      ensures EntryHolds(t', at, recipe, input, f, n, k)
    {
      if at < |t.sections| {
        assert EntryHolds(t, at, recipe, input, f, n, k);
      } else {
        assert Empty(recipe, input, f, n, k, name);
        ListedNew(name, input, k);
        NewName(name);
      }
    }
    forall other | other !in Names(t'.sections)
      ensures Empty(recipe, input, f, n, k, other)
    {
      assert other !in Names(t.sections);
    }
  }

  lemma NewName(name: string)
    ensures NewSection(name).name == name
  {
  }

  lemma ListedNew(name: string, input: Input, k: nat)
    requires k <= |input.synthetic| && Sizes(input.synthetic, k, name) == []
    ensures Listed(name, input.files, [], input.synthetic, k) == NewSection(name)
  {
    NoSizes(input.synthetic, k, name, 1);
  }

  lemma GotNext(recipe: seq<Step>, files: seq<InFile>, f: nat, n: nat, name: string)
    requires Reached(files, f, n + 1)
    ensures var section := files[f].sections.value[n];
      Got(recipe, files, f, n + 1, name)
      == Got(recipe, files, f, n, name) + (if section.live && Target(recipe, section.name) == name then [PlacedAs(recipe, section.name, f, n + 1)] else [])
  {
    hide Target, PlacedAs, FromFiles;
  }

  lemma GotFile(recipe: seq<Step>, files: seq<InFile>, f: nat, name: string)
    requires f < |files|
    ensures Got(recipe, files, f + 1, 0, name)
         == if files[f].sections.Some? then Got(recipe, files, f, |files[f].sections.value|, name) else Got(recipe, files, f, 0, name)
  {
  }

  lemma HoldingFile(t: Tables, recipe: seq<Step>, input: Input, f: nat)
    requires f < |input.files|
    requires Holding(t, recipe, input, f, if input.files[f].sections.Some? then |input.files[f].sections.value| else 0, 0)
    ensures Holding(t, recipe, input, f + 1, 0, 0)
  {
    hide Got, Sizes, Listed;
    var n := if input.files[f].sections.Some? then |input.files[f].sections.value| else 0;
    forall at {:trigger t.order[at]} | 0 <= at < |t.sections|
      ensures EntryHolds(t, at, recipe, input, f + 1, 0, 0)
    {
      GotFile(recipe, input.files, f, t.sections[at].name);
      assert EntryHolds(t, at, recipe, input, f, n, 0);
    }
    forall name | name !in Names(t.sections)
      ensures Empty(recipe, input, f + 1, 0, 0, name)
    {
      GotFile(recipe, input.files, f, name);
      assert Empty(recipe, input, f, n, 0, name);
    }
  }

  /** A section that is not live adds nothing. */
  lemma HoldingDead(t: Tables, recipe: seq<Step>, input: Input, f: nat, n: nat)
    requires Reached(input.files, f, n + 1) && !input.files[f].sections.value[n].live
    requires Holding(t, recipe, input, f, n, 0)
    ensures Holding(t, recipe, input, f, n + 1, 0)
  {
    hide Got, Sizes, Listed;
    forall at {:trigger t.order[at]} | 0 <= at < |t.sections|
      ensures EntryHolds(t, at, recipe, input, f, n + 1, 0)
    {
      GotNext(recipe, input.files, f, n, t.sections[at].name);
      assert EntryHolds(t, at, recipe, input, f, n, 0);
    }
    forall name | name !in Names(t.sections)
      ensures Empty(recipe, input, f, n + 1, 0, name)
    {
      GotNext(recipe, input.files, f, n, name);
      assert Empty(recipe, input, f, n, 0, name);
    }
  }

  lemma AfterNext(files: seq<InFile>, name: string, list: seq<Placed>, p: Placed)
    requires SectionOf(files, p.file, p.section).Some?
    ensures var section := SectionOf(files, p.file, p.section).value;
      && FlagsAfter(files, name, list + [p]) == FlagsWith(FlagsAfter(files, name, list), section)
      && AlignAfter(files, list + [p]) == if section.align > AlignAfter(files, list) then section.align else AlignAfter(files, list)
  {
    assert (list + [p])[..|list|] == list;
  }

  lemma ContributedHolding(t: Tables, at: nat, recipe: seq<Step>, input: Input, f: nat, n: nat)
    requires Reached(input.files, f, n + 1) && Holding(t, recipe, input, f, n, 0) && at < |t.sections|
    requires var section := input.files[f].sections.value[n];
      section.live && Target(recipe, section.name) == t.sections[at].name
    ensures var section := input.files[f].sections.value[n];
      Holding(Contributed(t, at, PlacedAs(recipe, section.name, f, n + 1), section), recipe, input, f, n + 1, 0)
  {
    var section := input.files[f].sections.value[n];
    var placed := PlacedAs(recipe, section.name, f, n + 1);
    PlacedAsNames(recipe, section.name, f, n + 1);
    var t' := Contributed(t, at, placed, section);
    assert Names(t'.sections) == Names(t.sections);
    hide Got, Sizes, Target, PlacedAs;
    forall i {:trigger t.order[i]} | 0 <= i < |t'.sections|
      ensures EntryHolds(t', i, recipe, input, f, n + 1, 0)
    {
      GotNext(recipe, input.files, f, n, t.sections[i].name);
      assert EntryHolds(t, i, recipe, input, f, n, 0);
      NameAt(t.sections, i);
      NameAt(t.sections, at);
      if i == at { AfterNext(input.files, t.sections[i].name, t.order[i], placed); }
    }
    forall name | name !in Names(t.sections)
      ensures Empty(recipe, input, f, n + 1, 0, name)
    {
      GotNext(recipe, input.files, f, n, name);
      NameAt(t.sections, at);
      assert Empty(recipe, input, f, n, 0, name);
    }
  }

  lemma ReservingHolding(t: Tables, at: nat, recipe: seq<Step>, input: Input, k: nat)
    requires k < |input.synthetic| && Holding(t, recipe, input, |input.files|, 0, k) && at < |t.sections|
    requires t.sections[at].name == input.synthetic[k].name
    ensures Holding(Reserving(t, at, input.synthetic[k].size, input.synthetic[k].align), recipe, input, |input.files|, 0, k + 1)
  {
    var t' := Reserving(t, at, input.synthetic[k].size, input.synthetic[k].align);
    assert Names(t'.sections) == Names(t.sections);
    hide Got;
    forall i {:trigger t.order[i]} | 0 <= i < |t'.sections|
      ensures EntryHolds(t', i, recipe, input, |input.files|, 0, k + 1)
    {
      assert EntryHolds(t, i, recipe, input, |input.files|, 0, k);
      NameAt(t.sections, i);
      NameAt(t.sections, at);
    }
    forall name | name !in Names(t.sections)
      ensures Empty(recipe, input, |input.files|, 0, k + 1, name)
    {
      NameAt(t.sections, at);
      assert Empty(recipe, input, |input.files|, 0, k, name);
    }
  }
}
