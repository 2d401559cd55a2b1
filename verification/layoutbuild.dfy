/** The output sections under construction, and which input goes to which. */
module LayoutBuild {
  import opened Results
  import opened Sorting
  import opened LayoutModel

  // ---- Names and ranks ----

  /** The part of a name before its first `$`. */
  function OrphanName(name: string): (r: string)
    ensures r <= name && '$' !in r
    ensures r == name || name[|r|] == '$'
    decreases |name|
  {
    if name == "" || name[0] == '$' then "" else [name[0]] + OrphanName(name[1..])
  }

  /** The first step from `k` on that places `name`. */
  function StepFrom(recipe: seq<Step>, k: nat, name: string): (r: Option<nat>)
    requires k <= |recipe|
    ensures r.Some? ==> k <= r.value < |recipe| && recipe[r.value].Place? && Matches(recipe[r.value].pattern, name)
    ensures forall i :: k <= i < (if r.Some? then r.value else |recipe|) ==> !(recipe[i].Place? && Matches(recipe[i].pattern, name))
    decreases |recipe| - k
  {
    if k == |recipe| then None
    else if recipe[k].Place? && Matches(recipe[k].pattern, name) then Some(k)
    else StepFrom(recipe, k + 1, name)
  }

  /** The output section an input section name goes to. */
  function Target(recipe: seq<Step>, name: string): string
  {
    var step := StepFrom(recipe, 0, name);
    if step.Some? then recipe[step.value].output else OrphanName(name)
  }

  function PlacedAs(recipe: seq<Step>, name: string, file: nat, section: nat): Placed
  {
    var step := StepFrom(recipe, 0, name);
    if step.Some? then Placed(step.value, recipe[step.value].sort, file, section)
    else Placed(NO_STEP, if |OrphanName(name)| == |name| then Unsorted else ByName, file, section)
  }

  const RANK_ORPHAN: nat := 1000
  const RANK_TRAILING: nat := 2000
  const RANK_DEBUG: nat := 3000

  // ---- Contributions ----

  /** The live ones of the first `n` sections of file `f` that go to `name`, in order. */
  function FromFile(recipe: seq<Step>, sections: seq<InSection>, f: nat, n: nat, name: string): seq<Placed>
    requires n <= |sections|
  {
    if n == 0 then []
    else
      var rest := FromFile(recipe, sections, f, n - 1, name);
      var section := sections[n - 1];
      if section.live && Target(recipe, section.name) == name then rest + [PlacedAs(recipe, section.name, f, n)] else rest
  }

  /** The contributions to `name` of the first `f` files. */
  function FromFiles(recipe: seq<Step>, files: seq<InFile>, f: nat, name: string): seq<Placed>
    requires f <= |files|
  {
    if f == 0 then []
    else
      var rest := FromFiles(recipe, files, f - 1, name);
      var sections := files[f - 1].sections;
      if sections.Some? then rest + FromFile(recipe, sections.value, f - 1, |sections.value|, name) else rest
  }

  /** Exactly the live sections that go to `name` contribute to it. */
  lemma {:induction false} FromFileHas(recipe: seq<Step>, sections: seq<InSection>, f: nat, n: nat, name: string, p: Placed)
    requires n <= |sections|
    ensures p in FromFile(recipe, sections, f, n, name) <==>
      && p.file == f && 1 <= p.section <= n && sections[p.section - 1].live
      && Target(recipe, sections[p.section - 1].name) == name && p == PlacedAs(recipe, sections[p.section - 1].name, f, p.section)
  {
    hide Target, PlacedAs;
    if n > 0 {
      FromFileHas(recipe, sections, f, n - 1, name, p);
      var section := sections[n - 1];
      PlacedAsNames(recipe, section.name, f, n);
    }
  }

  lemma PlacedAsNames(recipe: seq<Step>, name: string, f: nat, n: nat)
    ensures PlacedAs(recipe, name, f, n).file == f && PlacedAs(recipe, name, f, n).section == n
  {
  }

  lemma {:induction false} FromFilesHas(recipe: seq<Step>, files: seq<InFile>, f: nat, name: string, p: Placed)
    requires f <= |files|
    ensures p in FromFiles(recipe, files, f, name) <==>
      && p.file < f && IsLive(files, p.file, p.section)
      && Target(recipe, SectionOf(files, p.file, p.section).value.name) == name
      && p == PlacedAs(recipe, SectionOf(files, p.file, p.section).value.name, p.file, p.section)
  {
    hide Target, PlacedAs;
    if f > 0 {
      FromFilesHas(recipe, files, f - 1, name, p);
      var sections := files[f - 1].sections;
      if sections.Some? { FromFileHas(recipe, sections.value, f - 1, |sections.value|, name, p); }
    }
  }

  lemma {:induction false} FromFileDistinct(recipe: seq<Step>, sections: seq<InSection>, f: nat, n: nat, name: string)
    requires n <= |sections|
    ensures NoDuplicates(FromFile(recipe, sections, f, n, name))
  {
    if n > 0 {
      FromFileDistinct(recipe, sections, f, n - 1, name);
      var p := PlacedAs(recipe, sections[n - 1].name, f, n);
      PlacedAsNames(recipe, sections[n - 1].name, f, n);
      FromFileHas(recipe, sections, f, n - 1, name, p);
      hide FromFile, Target, PlacedAs;
    }
  }

  lemma {:induction false} FromFilesDistinct(recipe: seq<Step>, files: seq<InFile>, f: nat, name: string)
    requires f <= |files|
    ensures NoDuplicates(FromFiles(recipe, files, f, name))
  {
    if f > 0 && files[f - 1].sections.Some? {
      FromFilesDistinct(recipe, files, f - 1, name);
      var sections := files[f - 1].sections.value;
      FromFileDistinct(recipe, sections, f - 1, |sections|, name);
      var (rest, more) := (FromFiles(recipe, files, f - 1, name), FromFile(recipe, sections, f - 1, |sections|, name));
      forall i, j | 0 <= i < |rest| && 0 <= j < |more|
        ensures rest[i] != more[j]
      {
        FromFilesHas(recipe, files, f - 1, name, rest[i]);
        FromFileHas(recipe, sections, f - 1, |sections|, name, more[j]);
      }
      hide Target, PlacedAs, FromFile;
      assert NoDuplicates(rest + more);
    } else if f > 0 {
      FromFilesDistinct(recipe, files, f - 1, name);
    }
  }

  // ---- Output sections ----

  /** `Characteristics`, as far as the layout reads them. */
  datatype Flags = Flags(code: bool, initialized: bool, uninitialized: bool)

  /** An output section. `marks` is where recipe steps fell in it, which the image does not hold. */
  datatype OutSection = OutSection(
    name: string,
    flags: Flags,
    rva: nat,
    virtualSize: nat,
    rawSize: nat,
    fileOffset: nat,
    chunks: seq<Chunk>,
    align: nat,
    marks: seq<Mark>)
  {
    predicate IsBss()
    {
      flags.uninitialized && !flags.initialized
    }
  }

  function FlagsFor(name: string): Flags
  {
    if name == ".text" then Flags(true, false, false)
    else if name == ".bss" then Flags(false, false, true)
    else Flags(false, true, false)
  }

  function FlagsWith(flags: Flags, section: InSection): Flags
  {
    var code := flags.code || section.code;
    Flags(code, flags.initialized || (code && section.initialized), flags.uninitialized)
  }

  /** The flags and the alignment a list of contributions gives. */
  function FlagsAfter(files: seq<InFile>, name: string, list: seq<Placed>): Flags
    decreases |list|
  {
    if list == [] then FlagsFor(name)
    else
      var last := list[|list| - 1];
      var flags := FlagsAfter(files, name, list[..|list| - 1]);
      var section := SectionOf(files, last.file, last.section);
      if section.Some? then FlagsWith(flags, section.value) else flags
  }

  function AlignAfter(files: seq<InFile>, list: seq<Placed>): nat
    decreases |list|
  {
    if list == [] then 1
    else
      var last := list[|list| - 1];
      var align := AlignAfter(files, list[..|list| - 1]);
      var section := SectionOf(files, last.file, last.section);
      if section.Some? && section.value.align > align then section.value.align else align
  }

  /** The section of a contribution. */
  function SectionBy(files: seq<InFile>, p: Placed): InSection
  {
    var section := SectionOf(files, p.file, p.section);
    if section.Some? then section.value else InSection("", 0, 0, false, false, false)
  }

  /** Some of the first `n` contributions is code. */
  predicate CodeBy(files: seq<InFile>, list: seq<Placed>, n: nat)
  {
    exists k :: 0 <= k < |list| && k < n && SectionBy(files, list[k]).code
  }

  /** A contribution of initialized data, with code among those up to it. */
  predicate DataWithCode(files: seq<InFile>, name: string, list: seq<Placed>, k: nat)
  {
    k < |list| && SectionBy(files, list[k]).initialized && (FlagsFor(name).code || CodeBy(files, list, k + 1))
  }

  /**
    The flags of a section: those of its name, code if any contribution is,
    and initialized data if some contribution is that no later than code came in.
    So a section of uninitialized data stays one exactly if none is.
   */
  lemma {:induction false} FlagsExact(files: seq<InFile>, name: string, list: seq<Placed>)
    ensures var flags := FlagsAfter(files, name, list);
      && (flags.code <==> FlagsFor(name).code || CodeBy(files, list, |list|))
      && (flags.initialized <==> FlagsFor(name).initialized || exists k: nat :: DataWithCode(files, name, list, k))
      && flags.uninitialized == FlagsFor(name).uninitialized
    decreases |list|
  {
    hide FlagsFor;
    if list != [] {
      var (init, last) := (list[..|list| - 1], |list| - 1);
      FlagsExact(files, name, init);
      CodeMore(files, init, list[last]);
      assert list == init + [list[last]];
      hide FlagsAfter, CodeBy;
      DataMore(files, name, init, list[last]);
      FlagsNext(files, name, init, list[last]);
    }
  }

  lemma FlagsNext(files: seq<InFile>, name: string, init: seq<Placed>, p: Placed)
    ensures var (before, section) := (FlagsAfter(files, name, init), SectionBy(files, p));
      FlagsAfter(files, name, init + [p]) == FlagsWith(before, section)
  {
    assert (init + [p])[..|init|] == init;
    hide FlagsFor;
  }

  lemma CodeMore(files: seq<InFile>, init: seq<Placed>, p: Placed)
    ensures CodeBy(files, init + [p], |init| + 1) <==> CodeBy(files, init, |init|) || SectionBy(files, p).code
    ensures forall n: nat :: n <= |init| ==> (CodeBy(files, init + [p], n) <==> CodeBy(files, init, n))
  {
    var list := init + [p];
    assert forall k :: 0 <= k < |init| ==> list[k] == init[k];
    assert list[|init|] == p;
    hide SectionBy;
    forall n: nat | n <= |init|
      ensures CodeBy(files, list, n) <==> CodeBy(files, init, n)
    {
      if CodeBy(files, init, n) {
        var k :| 0 <= k < |init| && k < n && SectionBy(files, init[k]).code;
        assert SectionBy(files, list[k]).code;
      }
    }
    if CodeBy(files, init, |init|) {
      var k :| 0 <= k < |init| && k < |init| && SectionBy(files, init[k]).code;
      assert SectionBy(files, list[k]).code;
    }
  }

  lemma DataMore(files: seq<InFile>, name: string, init: seq<Placed>, p: Placed)
    ensures (exists k: nat :: DataWithCode(files, name, init + [p], k)) <==>
      || (exists k: nat :: DataWithCode(files, name, init, k))
      || (SectionBy(files, p).initialized && (FlagsFor(name).code || CodeBy(files, init, |init|) || SectionBy(files, p).code))
  {
    CodeMore(files, init, p);
    var list := init + [p];
    assert forall k :: 0 <= k < |init| ==> list[k] == init[k];
    hide SectionBy, CodeBy, FlagsFor;
    if k: nat :| DataWithCode(files, name, init, k) { assert DataWithCode(files, name, list, k); }
    if k: nat :| DataWithCode(files, name, list, k) {
      if k < |init| { assert DataWithCode(files, name, init, k); }
    }
    if SectionBy(files, p).initialized && (FlagsFor(name).code || CodeBy(files, init, |init|) || SectionBy(files, p).code) {
      assert DataWithCode(files, name, list, |init|);
    }
  }

  /** The alignment of a section: the greatest of its contributions', and 1. */
  lemma {:induction false} AlignExact(files: seq<InFile>, list: seq<Placed>)
    ensures forall k :: 0 <= k < |list| ==> SectionBy(files, list[k]).align <= AlignAfter(files, list)
    ensures AlignAfter(files, list) == 1 || exists k :: 0 <= k < |list| && SectionBy(files, list[k]).align == AlignAfter(files, list)
    ensures AlignAfter(files, list) >= 1
    decreases |list|
  {
    if list != [] {
      var init := list[..|list| - 1];
      AlignExact(files, init);
      assert forall k :: 0 <= k < |init| ==> list[k] == init[k];
      hide SectionOf;
      if AlignAfter(files, list) == AlignAfter(files, init) && AlignAfter(files, init) != 1 {
        var k :| 0 <= k < |init| && SectionBy(files, init[k]).align == AlignAfter(files, init);
        assert SectionBy(files, list[k]).align == AlignAfter(files, list);
      }
    }
  }

  function NewSection(name: string): OutSection
  {
    OutSection(name, FlagsFor(name), 0, 0, 0, 0, [], 1, [])
  }

  // ---- The builder ----

  /** The builder's columns: one entry each per output section. */
  datatype Tables = Tables(sections: seq<OutSection>, order: seq<seq<Placed>>, pending: seq<seq<nat>>, ranks: seq<nat>)

  function Names(sections: seq<OutSection>): (r: seq<string>)
    ensures |r| == |sections|
  {
    seq(|sections|, i requires 0 <= i < |sections| => sections[i].name)
  }

  predicate TablesFit(t: Tables)
  {
    && |t.order| == |t.sections| && |t.pending| == |t.sections| && |t.ranks| == |t.sections|
    && NoDuplicates(Names(t.sections))
  }

  function IndexIn(names: seq<string>, name: string): (r: nat)
    ensures r <= |names| && name !in names[..r]
    ensures r < |names| <==> name in names
    ensures r < |names| ==> names[r] == name
    decreases |names|
  {
    if names == [] || names[0] == name then 0
    else
      assert names == [names[0]] + names[1..];
      1 + IndexIn(names[1..], name)
  }

  /** The tables once `name` is requested with a rank. */
  function Requested(t: Tables, name: string, rank: nat): Tables
    requires TablesFit(t)
  {
    var at := IndexIn(Names(t.sections), name);
    if at < |t.sections| then t.(ranks := t.ranks[at := if rank < t.ranks[at] then rank else t.ranks[at]])
    else Tables(t.sections + [NewSection(name)], t.order + [[]], t.pending + [[]], t.ranks + [rank])
  }

  class Builder {
    var sections: seq<OutSection>
    var order: seq<seq<Placed>>
    var pending: seq<seq<nat>>
    var ranks: seq<nat>

    ghost function State(): Tables
      reads this
    {
      Tables(sections, order, pending, ranks)
    }

    constructor ()
      ensures State() == Tables([], [], [], [])
    {
      sections, order, pending, ranks := [], [], [], [];
    }

    /** The index of the output section `name`, created with `rank` if missing; an existing one keeps its lower rank. */
    method Section(name: string, rank: nat) returns (at: nat)
      requires TablesFit(State())
      modifies this
      ensures TablesFit(State()) && State() == Requested(old(State()), name, rank)
      ensures at == IndexIn(Names(sections), name) < |sections|
      ensures Names(old(sections)) <= Names(sections)
    {
      RequestedFits(State(), name, rank);
      at := 0;
      while at < |sections|
        invariant at <= |sections|
        invariant forall i :: 0 <= i < at ==> sections[i].name != name
      {
        if sections[at].name == name {
          IndexUnique(Names(sections), at);
          ranks := ranks[at := if rank < ranks[at] then rank else ranks[at]];
          return;
        }
        at := at + 1;
      }
      sections := sections + [NewSection(name)];
      order := order + [[]];
      pending := pending + [[]];
      ranks := ranks + [rank];
      at := |sections| - 1;
      IndexUnique(Names(sections), at);
    }

    /** A contribution: listed, its alignment and flags joined to the section's. */
    method Contribute(at: nat, placed: Placed, section: InSection)
      requires TablesFit(State()) && at < |sections|
      modifies this
      ensures TablesFit(State()) && State() == Contributed(old(State()), at, placed, section)
      ensures Names(sections) == Names(old(sections))
    {
      order := order[at := order[at] + [placed]];
      var out := sections[at];
      sections := sections[at := out.(align := if section.align > out.align then section.align else out.align,
                                      flags := FlagsWith(out.flags, section))];
      assert Names(sections) == Names(old(sections));
    }

    /** A generated section: its size is pending, its alignment joined. */
    method Reserve(at: nat, size: nat, align: nat)
      requires TablesFit(State()) && at < |sections|
      modifies this
      ensures TablesFit(State()) && State() == Reserving(old(State()), at, size, align)
      ensures Names(sections) == Names(old(sections))
    {
      var out := sections[at];
      sections := sections[at := out.(align := if align > out.align then align else out.align)];
      pending := pending[at := pending[at] + [size]];
      assert Names(sections) == Names(old(sections));
    }
  }

  function Contributed(t: Tables, at: nat, placed: Placed, section: InSection): Tables
    requires TablesFit(t) && at < |t.sections|
  {
    var out := t.sections[at];
    t.(order := t.order[at := t.order[at] + [placed]],
       sections := t.sections[at := out.(align := if section.align > out.align then section.align else out.align,
                                         flags := FlagsWith(out.flags, section))])
  }

  function Reserving(t: Tables, at: nat, size: nat, align: nat): Tables
    requires TablesFit(t) && at < |t.sections|
  {
    var out := t.sections[at];
    t.(sections := t.sections[at := out.(align := if align > out.align then align else out.align)],
       pending := t.pending[at := t.pending[at] + [size]])
  }

  lemma IndexUnique(names: seq<string>, at: nat)
    requires NoDuplicates(names) && at < |names|
    ensures IndexIn(names, names[at]) == at
  {
    var i := IndexIn(names, names[at]);
    assert names[at] in names;
  }

  lemma RequestedFits(t: Tables, name: string, rank: nat)
    requires TablesFit(t)
    ensures var t' := Requested(t, name, rank);
      && TablesFit(t') && name in Names(t'.sections)
      && Names(t'.sections) == if name in Names(t.sections) then Names(t.sections) else Names(t.sections) + [name]
  {
    var t' := Requested(t, name, rank);
    var names := Names(t.sections);
    if name !in names {
      assert Names(t'.sections) == names + [name];
      assert forall i :: 0 <= i < |names| ==> names[i] in names;
    }
  }
}
