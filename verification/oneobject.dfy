/** Images of one object with one section: inputs on which an alignment or a thunk misses. */
module OneObject {
  import opened Bits
  import opened Results
  import opened Sorting
  import opened ThunkPlan
  import AArch64
  import opened LayoutModel
  import opened LayoutPlace
  import opened LayoutBuild
  import opened LayoutAssign
  import opened LayoutFinish
  import opened LayoutAddress
  import opened LayoutRecord
  import opened LayoutPlan
  import opened LayoutTheorems
  import opened LayoutRecipe
  import opened LayoutRegions
  import opened ImageOrder
  import Branches

  /** One object with one section, linked at the usual alignments. */
  function Single(section: InSection, blocks: Blocks): Input
  {
    Input([InFile("a.o", Some([section]))], [], [], 0, blocks, 0, 0x200, 0x1000, false)
  }

  // ---- What the steps do to a section without contributions ----

  predicate Small(step: Step)
  {
    && (step.Insert? ==> MarkerBytes(step.marker, 8) == [] || HasWord(step.output))
    && (!step.Place? && !step.Insert? ==> step.align <= 8)
    && (step.output == ".bss" ==> step.Place?)
  }

  predicate AllSmall(steps: seq<Step>)
  {
    forall u :: 0 <= u < |steps| ==> Small(steps[u])
  }

  lemma SmallEarly()
    ensures AllSmall(TextSteps()) && AllSmall(DataSteps()) && AllSmall(ReadOnlySteps()) && AllSmall(CtorSteps())
  {
  }

  lemma SmallCrt()
    ensures AllSmall(CrtSteps())
  {
  }

  lemma SmallLate()
    ensures AllSmall(OtherSteps()) && AllSmall(IdataSteps()) && AllSmall(TlsSteps())
  {
  }

  lemma StepsSmall(t: nat)
    requires t < 86
    ensures t < |Recipe()| && Small(Recipe()[t])
  {
    hide Small;
    StepsAre(t);
    SmallEarly();
    SmallCrt();
    SmallLate();
    hide Recipe, TextSteps, DataSteps, ReadOnlySteps, CtorSteps, CrtSteps, OtherSteps, IdataSteps, TlsSteps;
  }

  lemma SmallBytes(marker: Marker, input: Input)
    ensures |MarkerBytes(marker, 8)| <= 20
    ensures input.pseudoSize == input.safeSehSize == 0 ==> Reserved(marker, input) == 0
  {
  }

  lemma AlignedOffset(d: Draft, align: nat, step: nat)
    requires align <= 8
    ensures PushAlign(d, align, step).offset <= d.offset + 7
    ensures d.offset == 0 ==> PushAlign(d, align, step).offset == 0
  {
    if d.offset == 0 { ZeroAligned(align); }
  }

  lemma ZeroAligned(align: nat)
    ensures AlignUp32(0, align) == 0
  {
    if 0 < align { assert (align - 1) / align == 0; }
  }

  /** Without contributions a section has at most the linker's own words and their padding. */
  lemma {:induction false} BareDraft(input: Input, k: nat, name: string)
    requires k <= 86 && input.pseudoSize == input.safeSehSize == 0 && !input.pe32
    ensures StepDraft(Recipe(), k, name, [], input).offset <= 20 * k
    ensures !HasWord(name) ==> StepDraft(Recipe(), k, name, [], input).offset == 0
    decreases k
  {
    hide Recipe, OneStep;
    if k > 0 {
      BareDraft(input, k - 1, name);
      StepsSmall(k - 1);
      BareStep(StepDraft(Recipe(), k - 1, name, [], input), Recipe(), k - 1, name, input);
    }
  }

  lemma BareStep(d: Draft, recipe: seq<Step>, k: nat, name: string, input: Input)
    requires k < |recipe| && Small(recipe[k]) && input.pseudoSize == input.safeSehSize == 0 && !input.pe32
    ensures var d' := OneStep(d, recipe, k, name, [], input);
      d'.offset <= d.offset + 20 && (d.offset == 0 && !HasWord(name) ==> d'.offset == 0)
  {
    hide PushAlign, MarkerBytes, Reserved, HasWord, PushAll;
    assert OfStep([], k) == [] && Pointer(input) == 8;
    if recipe[k].Insert? {
      SmallBytes(recipe[k].marker, input);
    } else if !recipe[k].Place? {
      AlignedOffset(d, recipe[k].align, k);
    } else {
      assert PushAll(d, [], input) == d by { PushNone(d, input); }
    }
  }

  lemma PushNone(d: Draft, input: Input)
    ensures PushAll(d, [], input) == d
  {
  }

  // ---- The one contribution ----

  lemma OnlyOne(section: InSection, blocks: Blocks, name: string)
    requires section.live
    ensures Contributions(Recipe(), Single(section, blocks).files, name)
         == if Target(Recipe(), section.name) == name then [PlacedAs(Recipe(), section.name, 0, 1)] else []
  {
    hide Recipe, Target, PlacedAs, KeyOf, LexLe;
    var files := Single(section, blocks).files;
    var (list, p) := (files[0].sections.value, PlacedAs(Recipe(), section.name, 0, 1));
    assert FromFile(Recipe(), list, 0, 0, name) == [];
    assert FromFile(Recipe(), list, 0, 1, name) == if Target(Recipe(), section.name) == name then [p] else [];
    assert FromFiles(Recipe(), files, 0, name) == [];
    assert FromFiles(Recipe(), files, 1, name) == FromFile(Recipe(), list, 0, 1, name);
    assert SortBy([p], Before(files)) == [p];
  }

  /** The section pushed on an empty draft. */
  function Alone(section: InSection, step: nat, blocks: Blocks): Draft
  {
    PushInput(Draft([], 0, []), section, Placed(step, Unsorted, 0, 1), blocks)
  }

  lemma PushOne(d: Draft, p: Placed, section: InSection, input: Input)
    requires SectionOf(input.files, p.file, p.section) == Some(section)
    ensures PushAll(d, [p], input) == PushInput(d, section, p, input.blocks)
  {
    assert [p][..0] == [];
    PushNone(d, input);
    hide PushInput, SectionOf;
  }

  lemma SectionIs(section: InSection, blocks: Blocks)
    ensures SectionOf(Single(section, blocks).files, 0, 1) == Some(section)
  {
  }

  /** A step that places the section pushes it; every other step of a section without marks does nothing. */
  lemma PlaceStepIs(d: Draft, section: InSection, blocks: Blocks, step: nat, k: nat, name: string)
    requires k < 86 && step < 86 && !FallsAt(Recipe(), k, name, true)
    ensures var d' := OneStep(d, Recipe(), k, name, [Placed(step, Unsorted, 0, 1)], Single(section, blocks));
      k != step ==> d' == d
    ensures k == step && k < |Recipe()| && Recipe()[k].Place? ==>
      OneStep(d, Recipe(), k, name, [Placed(step, Unsorted, 0, 1)], Single(section, blocks)) == PushInput(d, section, Placed(step, Unsorted, 0, 1), blocks)
  {
    var (p, input) := (Placed(step, Unsorted, 0, 1), Single(section, blocks));
    PushNone(d, input);
    SectionIs(section, blocks);
    PushOne(d, p, section, input);
    hide Recipe, PushAll, PushInput, OfStep, Single;
  }

  /** `.bss` is not aligned and has no markers: it is the section alone. */
  lemma {:induction false} BssDraft(section: InSection, blocks: Blocks, k: nat)
    requires k <= 86
    ensures StepDraft(Recipe(), k, ".bss", [Placed(65, Unsorted, 0, 1)], Single(section, blocks))
         == if k <= 65 then Draft([], 0, []) else Alone(section, 65, blocks)
    decreases k
  {
    hide Recipe, OneStep, Single;
    if k > 0 {
      BssDraft(section, blocks, k - 1);
      StepsSmall(k - 1);
      BssStep();
      var d := StepDraft(Recipe(), k - 1, ".bss", [Placed(65, Unsorted, 0, 1)], Single(section, blocks));
      hide StepFrom, PushInput;
      PlaceStepIs(d, section, blocks, 65, k - 1, ".bss");
    }
  }

  /** `.text` is aligned to eight after its code. */
  lemma {:induction false} TextDraft(section: InSection, blocks: Blocks, k: nat)
    requires k <= 86
    ensures var (d, alone) := (StepDraft(Recipe(), k, ".text", [Placed(1, Unsorted, 0, 1)], Single(section, blocks)), Alone(section, 1, blocks));
      if k <= 1 then d == Draft([], 0, [])
      else d.chunks == alone.chunks && d.offset == if k <= 7 then alone.offset else AlignUp32(alone.offset, 8)
    decreases k
  {
    hide Recipe, OneStep, Single;
    if k > 0 {
      TextDraft(section, blocks, k - 1);
      TextFalls(k - 1);
      var list := [Placed(1, Unsorted, 0, 1)];
      var d := StepDraft(Recipe(), k - 1, ".text", list, Single(section, blocks));
      hide PushInput, AlignUp32;
      if k - 1 == 7 || k - 1 == 11 {
        TextFall(d, section, blocks, k - 1, list);
      } else {
        PlaceStepIs(d, section, blocks, 1, k - 1, ".text");
      }
    }
  }

  lemma TextFall(d: Draft, section: InSection, blocks: Blocks, k: nat, list: seq<Placed>)
    requires k == 7 || k == 11
    ensures OneStep(d, Recipe(), k, ".text", list, Single(section, blocks)).chunks == d.chunks
    ensures OneStep(d, Recipe(), k, ".text", list, Single(section, blocks)).offset == if k == 7 then AlignUp32(d.offset, 8) else d.offset
  {
    StepsAre(k);
    hide Recipe, DataSteps, ReadOnlySteps, CtorSteps, CrtSteps, OtherSteps, IdataSteps, TlsSteps, AlignUp32;
    assert Pointer(Single(section, blocks)) == 8;
  }

  predicate TextPlace()
  {
    1 < |Recipe()| && Recipe()[1] == Place(".text", Exact(".text"), Unsorted)
  }

  lemma TextFalls(k: nat)
    requires k < 86
    ensures FallsAt(Recipe(), k, ".text", true) <==> k == 7 || k == 11
    ensures TextPlace()
  {
    StepsAre(k);
    StepsAre(1);
    OutputsLast();
    hide Recipe, DataSteps, ReadOnlySteps, CtorSteps, CrtSteps, OtherSteps, IdataSteps, TlsSteps;
  }

  // ---- Sizes ----

  /** The section of a name is what the steps made of it: no commons, nothing generated. */
  lemma FinalIs(input: Input, name: string, list: seq<Placed>)
    requires list == Contributions(Recipe(), input.files, name) && input.commons == [] && input.synthetic == []
    requires OfStep(list, NO_STEP) == []
    ensures var (out, d) := (FinalSection(Recipe(), input, name), StepDraft(Recipe(), 86, name, list, input));
      out.name == name && out.virtualSize == d.offset && out.chunks == d.chunks
  {
    StepsAre(0);
    hide Recipe, StepDraft, Contributions, OfStep, FlagsAfter, FromFiles, AlignBefore, Highest;
    PushNone(StepDraft(Recipe(), 86, name, list, input), input);
    assert CommonsOf(name, input) == [] && PendingOf(input, name) == [];
    assert WithAlign([], AtLeast1(AlignBefore(Recipe(), input, name))) == [];
  }

  /** Any other section is empty, but for the two with the linker's words. */
  lemma OtherSize(section: InSection, blocks: Blocks, name: string)
    requires section.live && Target(Recipe(), section.name) != name
    ensures FinalSize(section, blocks, name) <= 1720 && (FinalSize(section, blocks, name) > 0 <==> HasWord(name))
  {
    var input := Single(section, blocks);
    OnlyOne(section, blocks, name);
    assert OfStep([], NO_STEP) == [];
    FinalIs(input, name, []);
    BareDraft(input, 86, name);
    StepsAre(0);
    hide Recipe, FinalSection, StepDraft, Target, Contributions, HasWord;
    if HasWord(name) { WordKeeps(FinalSection(Recipe(), input, name), input); }
  }

  lemma BssSection(section: InSection, blocks: Blocks)
    requires section.live && section.name == ".bss"
    ensures var (out, alone) := (FinalSection(Recipe(), Single(section, blocks), ".bss"), Alone(section, 65, blocks));
      Target(Recipe(), ".bss") == ".bss" && out.virtualSize == alone.offset
  {
    BssStep();
    OnlyOne(section, blocks, ".bss");
    var p := Placed(65, Unsorted, 0, 1);
    FinalIs(Single(section, blocks), ".bss", [p]);
    BssDraft(section, blocks, 86);
    hide Recipe, FinalSection, StepDraft, Contributions, StepFrom, Alone, Single;
  }

  lemma TextStep()
    ensures StepFrom(Recipe(), 0, ".text") == Some(1) && TextPlace()
  {
    TextFalls(1);
    StepsAre(0);
    hide Recipe, DataSteps, ReadOnlySteps, CtorSteps, CrtSteps, OtherSteps, IdataSteps, TlsSteps;
    assert ".init"[1] != ".text"[1];
    assert Matches(Recipe()[1].pattern, ".text") by { NameMatches(".text"); }
    StepIs(1, ".text");
  }

  lemma TextSection(section: InSection, blocks: Blocks)
    requires section.live && section.name == ".text"
    ensures var (out, alone) := (FinalSection(Recipe(), Single(section, blocks), ".text"), Alone(section, 1, blocks));
      Target(Recipe(), ".text") == ".text" && out.chunks == alone.chunks && out.virtualSize == AlignUp32(alone.offset, 8)
  {
    TextStep();
    OnlyOne(section, blocks, ".text");
    var p := Placed(1, Unsorted, 0, 1);
    FinalIs(Single(section, blocks), ".text", [p]);
    TextDraft(section, blocks, 86);
    hide Recipe, FinalSection, StepDraft, Contributions, StepFrom, Alone, Single, AlignUp32;
  }

  // ---- The three sections ----

  predicate OutputsBetween(steps: seq<Step>, from: nat)
  {
    forall u :: 0 <= u < |steps| ==>
      && (steps[u].output == ".text" <==> from + u < 12)
      && (steps[u].output == ".rdata" <==> 21 <= from + u < 62)
      && (steps[u].output == ".bss" <==> 65 <= from + u < 69)
      && (steps[u].output == ".idata" <==> 70 <= from + u < 80)
  }

  lemma OutputsLast()
    ensures OutputsBetween(CrtSteps(), 42) && OutputsBetween(OtherSteps(), 62) && OutputsBetween(IdataSteps(), 70)
    ensures OutputsBetween(TlsSteps(), 80)
  {
  }

  lemma OutputOf(t: nat)
    requires t < 86
    ensures t < |Recipe()|
    ensures t < |Recipe()| && (Recipe()[t].output == ".text" <==> t < 12) && (Recipe()[t].output == ".rdata" <==> 21 <= t < 62)
    ensures t < |Recipe()| && (Recipe()[t].output == ".bss" <==> 65 <= t < 69) && (Recipe()[t].output == ".idata" <==> 70 <= t < 80)
  {
    StepsAre(t);
    OutputsLast();
    hide Recipe, TextSteps, DataSteps, ReadOnlySteps, CtorSteps, CrtSteps, OtherSteps, IdataSteps, TlsSteps;
  }

  /** The first step of each of the sections met here. */
  function FirstStepOf(name: string): nat
  {
    if name == ".text" then 0 else if name == ".rdata" then 21 else if name == ".bss" then 65 else 70
  }

  predicate IsKnown(name: string)
  {
    name == ".text" || name == ".rdata" || name == ".bss" || name == ".idata"
  }

  lemma FirstOutputs(name: string)
    requires IsKnown(name)
    ensures FirstOutput(Recipe(), name) == FirstStepOf(name) < |Recipe()| && Recipe()[FirstStepOf(name)].output == name
  {
    StepsAre(0);
    hide Recipe, FirstOutput;
    OutputOf(FirstStepOf(name));
    if FirstOutput(Recipe(), name) < FirstStepOf(name) { NotBefore(name, FirstOutput(Recipe(), name)); }
  }

  lemma NotBefore(name: string, t: nat)
    requires IsKnown(name) && t < FirstStepOf(name)
    ensures t < |Recipe()| && Recipe()[t].output != name
  {
    OutputOf(t);
    hide Recipe;
  }

  /** The section that is not one of the linker's own. */
  predicate IsOwn(section: InSection, blocks: Blocks, own: string)
  {
    && (own == ".text" || own == ".bss") && section.live && Target(Recipe(), section.name) == own
    && FinalSize(section, blocks, own) > 0
  }

  /** The name and the size of a section, if there is one. */
  function NameIn(given: seq<OutSection>, i: nat): string
  {
    if i < |given| then given[i].name else ""
  }

  function SizeIn(given: seq<OutSection>, i: nat): nat
  {
    if i < |given| then given[i].virtualSize else 0
  }

  /** What the section of a name comes to. */
  function FinalSize(section: InSection, blocks: Blocks, name: string): nat
  {
    FinalSection(Recipe(), Single(section, blocks), name).virtualSize
  }

  lemma Present(given: seq<OutSection>, section: InSection, blocks: Blocks, own: string, name: string) returns (i: nat)
    requires IsKnown(name) && (name == own || HasWord(name)) && IsOwn(section, blocks, own)
    requires Given(given, Recipe(), Trailing(), Single(section, blocks))
    ensures i < |given| && NameIn(given, i) == name
  {
    GivenRight(given, Recipe(), Trailing(), Single(section, blocks));
    FirstOutputs(name);
    if name != own { OtherSize(section, blocks, name); }
    hide Recipe, FinalSection, Given, SectionsRight, ImageOrdered, DroppedRight, AllWanted, FirstOutput, Single, Target;
    RecipePresent(given, Single(section, blocks), FirstStepOf(name));
    i := SectionNamed(given, name);
  }

  lemma OneOfThree(given: seq<OutSection>, section: InSection, blocks: Blocks, own: string, i: nat)
    requires i < |given| && IsOwn(section, blocks, own) && Given(given, Recipe(), Trailing(), Single(section, blocks))
    ensures NameIn(given, i) == own || HasWord(NameIn(given, i))
    ensures SizeIn(given, i) == FinalSize(section, blocks, NameIn(given, i))
  {
    GivenRight(given, Recipe(), Trailing(), Single(section, blocks));
    assert Finished(given[i], Recipe(), Single(section, blocks)) && given[i].virtualSize > 0;
    if given[i].name != own { OtherSize(section, blocks, given[i].name); }
    hide Recipe, FinalSection, Given, SectionsRight, ImageOrdered, DroppedRight, Single, HasWord;
  }

  /** Names in the order of their first steps. */
  function ThreeNames(own: string): seq<string>
  {
    if own == ".text" then [".text", ".rdata", ".idata"] else [".rdata", ".bss", ".idata"]
  }

  lemma Ordered2(given: seq<OutSection>, section: InSection, blocks: Blocks, i: nat, j: nat)
    requires i < |given| && j < |given| && IsKnown(NameIn(given, i)) && IsKnown(NameIn(given, j))
    requires FirstStepOf(NameIn(given, i)) < FirstStepOf(NameIn(given, j))
    requires Given(given, Recipe(), Trailing(), Single(section, blocks))
    ensures i < j
  {
    GivenRight(given, Recipe(), Trailing(), Single(section, blocks));
    FirstOutputs(given[i].name);
    FirstOutputs(given[j].name);
    hide Recipe, Given, SectionsRight, ImageOrdered, DroppedRight, AllWanted, FirstOutput, Single, FirstStepOf;
    EarlierFirst(given, Single(section, blocks), i, j);
  }

  lemma SameNamed(given: seq<OutSection>, input: Input, i: nat, j: nat)
    requires i < |given| && j < |given| && NameIn(given, i) == NameIn(given, j) && Given(given, Recipe(), Trailing(), input)
    ensures i == j
  {
    GivenRight(given, Recipe(), Trailing(), input);
    hide Recipe, Given, ImageOrdered, DroppedRight, NoDuplicates, Names, AllFinished;
    NamedOnce(given, i, j);
  }

  function ByFirstStep(): (string, string) -> bool
  {
    (a, b) => FirstStepOf(a) < FirstStepOf(b)
  }

  lemma NamesRise(given: seq<OutSection>, section: InSection, blocks: Blocks, own: string, i: nat, j: nat)
    requires i < j < |given| && IsOwn(section, blocks, own) && Given(given, Recipe(), Trailing(), Single(section, blocks))
    ensures FirstStepOf(NameIn(given, i)) < FirstStepOf(NameIn(given, j))
  {
    hide *;
    OwnKnown(section, blocks, own);
    OneOfThree(given, section, blocks, own, i);
    OneOfThree(given, section, blocks, own, j);
    StepsDiffer(own, NameIn(given, i), NameIn(given, j));
    if NameIn(given, i) == NameIn(given, j) { SameNamed(given, Single(section, blocks), i, j); }
    if FirstStepOf(NameIn(given, j)) < FirstStepOf(NameIn(given, i)) { Ordered2(given, section, blocks, j, i); }
  }

  lemma OwnKnown(section: InSection, blocks: Blocks, own: string)
    requires IsOwn(section, blocks, own)
    ensures own == ".text" || own == ".bss"
  {
    hide Recipe, FinalSection, Target;
  }

  lemma StepsDiffer(own: string, a: string, b: string)
    requires own == ".text" || own == ".bss"
    requires (a == own || HasWord(a)) && (b == own || HasWord(b))
    ensures IsKnown(a) && IsKnown(b) && (a != b ==> FirstStepOf(a) != FirstStepOf(b))
  {
  }

  lemma NamesAre(given: seq<OutSection>, section: InSection, blocks: Blocks, own: string, name: string)
    requires IsOwn(section, blocks, own) && Given(given, Recipe(), Trailing(), Single(section, blocks))
    ensures name in Names(given) <==> name == own || HasWord(name)
  {
    assert name == own || HasWord(name) ==> IsKnown(name);
    hide Recipe, Given, Single, IsOwn, IsKnown, FinalSection, HasWord;
    if name in Names(given) {
      var i := SectionNamed(given, name);
      OneOfThree(given, section, blocks, own, i);
    }
    if name == own || HasWord(name) {
      var i := Present(given, section, blocks, own, name);
      NameAt(given, i);
    }
  }

  /** Whatever is laid out has the three sections, in this order. */
  lemma ThreeSections(given: seq<OutSection>, section: InSection, blocks: Blocks, own: string)
    requires IsOwn(section, blocks, own) && Given(given, Recipe(), Trailing(), Single(section, blocks))
    ensures Names(given) == ThreeNames(own)
  {
    ThreeRise(own, section, blocks);
    hide Recipe, Given, Single, IsOwn, HasWord, FirstStepOf, ThreeNames;
    forall name
      ensures name in Names(given) <==> name in ThreeNames(own)
    {
      NamesAre(given, section, blocks, own, name);
    }
    forall i, j | 0 <= i < j < |given|
      ensures ByFirstStep()(Names(given)[i], Names(given)[j])
    {
      NamesRise(given, section, blocks, own, i, j);
    }
    StrictlySortedUnique(Names(given), ThreeNames(own), ByFirstStep());
  }

  lemma ThreeRise(own: string, section: InSection, blocks: Blocks)
    requires IsOwn(section, blocks, own)
    ensures Sorted(ThreeNames(own), ByFirstStep())
    ensures forall name :: name in ThreeNames(own) <==> name == own || HasWord(name)
  {
    hide Recipe, FinalSection, Target;
  }

  /** The sizes of the three, the own one's given. */
  predicate ThreeSizes(given: seq<OutSection>, at: nat, size: nat)
  {
    && |given| == 3 && at < 3 && given[at].virtualSize == size
    && forall i :: 0 <= i < 3 && i != at ==> 0 < given[i].virtualSize <= 1720
  }

  lemma SizesAre(given: seq<OutSection>, section: InSection, blocks: Blocks, own: string, size: nat)
    requires IsOwn(section, blocks, own) && FinalSize(section, blocks, own) == size
    requires Given(given, Recipe(), Trailing(), Single(section, blocks))
    ensures Names(given) == ThreeNames(own) && ThreeSizes(given, if own == ".text" then 0 else 1, size)
  {
    hide *;
    OwnKnown(section, blocks, own);
    ThreeSections(given, section, blocks, own);
    ThreeAt(given, own);
    SizeIs(given, section, blocks, own, 0);
    SizeIs(given, section, blocks, own, 1);
    SizeIs(given, section, blocks, own, 2);
    SizesIn(given, if own == ".text" then 0 else 1, size);
  }

  lemma ThreeAt(given: seq<OutSection>, own: string)
    requires Names(given) == ThreeNames(own) && (own == ".text" || own == ".bss")
    ensures |given| == 3
    ensures (NameIn(given, 0) == own <==> own == ".text") && (NameIn(given, 1) == own <==> own == ".bss") && NameIn(given, 2) != own
  {
    assert |Names(given)| == 3;
    assert given[0].name == Names(given)[0] && given[1].name == Names(given)[1] && given[2].name == Names(given)[2];
    hide Names;
  }

  lemma SizesIn(given: seq<OutSection>, at: nat, size: nat)
    requires |given| == 3 && at < 2 && SizeIn(given, at) == size
    requires 0 < SizeIn(given, 1 - at) <= 1720 && 0 < SizeIn(given, 2) <= 1720
    ensures ThreeSizes(given, at, size)
  {
  }

  lemma SizeIs(given: seq<OutSection>, section: InSection, blocks: Blocks, own: string, i: nat)
    requires i < |given| && IsOwn(section, blocks, own) && Given(given, Recipe(), Trailing(), Single(section, blocks))
    ensures if NameIn(given, i) == own then SizeIn(given, i) == FinalSize(section, blocks, own) else 0 < SizeIn(given, i) <= 1720
  {
    OneOfThree(given, section, blocks, own, i);
    if NameIn(given, i) != own { OtherSize(section, blocks, NameIn(given, i)); }
    hide Recipe, FinalSection, Given, Target, Single, HasWord;
  }

  // ---- Their addresses ----

  lemma RvaNext(given: seq<OutSection>, k: nat, headers: nat, alignment: nat)
    requires k < |given|
    ensures RvaAt(given, k + 1, headers, alignment) == AlignUp32(RvaAt(given, k, headers, alignment) + given[k].virtualSize, alignment)
    ensures RvaAt(given, 0, headers, alignment) == AlignUp32(headers, alignment)
  {
  }

  lemma ThreeHeaders(given: seq<OutSection>, fileAlignment: nat)
    requires |given| == 3 && fileAlignment == 0x200
    ensures HeadersOf(given, false, fileAlignment) == 512
  {
    assert HeaderSize(|given|, false) == 512;
  }

  /** Where the three end up if they are within 32 bits: they fit. */
  lemma ThreeFit(given: seq<OutSection>, at: nat, size: nat, fileAlignment: nat, sectionAlignment: nat)
    requires ThreeSizes(given, at, size) && size <= 0xFFFF_D001 && fileAlignment == 0x200
    requires forall k :: 0 <= k < 3 ==> RvaAt(given, k, 512, sectionAlignment) + given[k].virtualSize <= U32_MAX
    ensures AllFit(given, false, fileAlignment, sectionAlignment)
  {
    ThreeHeaders(given, fileAlignment);
    forall k: nat | k < 3
      ensures RawSize(given[k], fileAlignment) <= U32_MAX && FileAt(given, k, 512, fileAlignment) <= U32_MAX
    {
      hide RawSize;
      assert FileAt(given, 0, 512, fileAlignment) == 512;
      assert FileAt(given, 1, 512, fileAlignment) == 512 + RawSize(given[0], fileAlignment);
      assert FileAt(given, 2, 512, fileAlignment) == 512 + RawSize(given[0], fileAlignment) + RawSize(given[1], fileAlignment);
    }
    hide RvaAt, FileAt, RawSize, HeadersOf;
  }

  // ---- A section that ends just below 4 GiB ----

  /** A `.bss` of 0xffffd001 bytes. */
  function BigBss(): Input
  {
    Single(BssOfBig(), map[])
  }

  function BssOfBig(): InSection
  {
    InSection(".bss", 0xFFFF_D001, 1, true, false, false)
  }

  lemma BigBssGiven(given: seq<OutSection>)
    requires Given(given, Recipe(), Trailing(), BigBss())
    ensures Names(given) == [".rdata", ".bss", ".idata"] && ThreeSizes(given, 1, 0xFFFF_D001)
  {
    var section := BssOfBig();
    BssSection(section, map[]);
    assert BlockSize(map[], (0, 1)) == 0;
    assert Alone(section, 65, map[]).offset == 0xFFFF_D001;
    hide Recipe, FinalSection, Given, Target, Alone;
    SizesAre(given, section, map[], ".bss", 0xFFFF_D001);
    hide ThreeSizes;
  }

  lemma BigBssRvas(given: seq<OutSection>, headers: nat, alignment: nat)
    requires ThreeSizes(given, 1, 0xFFFF_D001) && headers == 512 && alignment == 0x1000
    ensures RvaAt(given, 0, headers, alignment) == 0x1000 && RvaAt(given, 1, headers, alignment) == 0x2000
    ensures RvaAt(given, 2, headers, alignment) == 0xFFFF_F001
  {
    RvaNext(given, 0, headers, alignment);
    RvaNext(given, 1, headers, alignment);
    hide AlignUp32, RvaAt;
  }

  /** The third section is `.idata`, at an address that is no multiple of the alignment. */
  predicate IdataUnaligned(l: Layout)
  {
    && |l.sections| == 3 && l.sections[2].name == ".idata" && l.sections[2].rva == 0xFFFF_F001
    && !IsMultiple(l.sections[2].rva, BigBss().sectionAlignment)
  }

  /** Every accepted layout of it puts `.idata` at an unaligned address. */
  lemma AlwaysUnaligned(l: Layout)
    requires Laid(l, BigBss())
    ensures IdataUnaligned(l)
  {
    BssIsSingle();
    hide *;
    LaidSingle(l, BssOfBig(), map[]);
    BigBssGiven(l.sections);
    ThreeAre(l.sections, 1, 0xFFFF_D001);
    ThreeHeaders(l.sections, 0x200);
    BigBssRvas(l.sections, l.sizeOfHeaders, 0x1000);
    SectionRva(l, BigBss(), 2);
    UnalignedIs(l);
  }

  lemma BssIsSingle()
    ensures BigBss() == Single(BssOfBig(), map[]) && BigBss().sectionAlignment == 0x1000
  {
  }

  lemma UnalignedIs(l: Layout)
    requires |l.sections| == 3 && SectionAt(l, 2).rva == 0xFFFF_F001 && Names(l.sections) == [".rdata", ".bss", ".idata"]
    ensures IdataUnaligned(l)
  {
    assert l.sections[2].name == Names(l.sections)[2];
  }

  lemma LaidSingle(l: Layout, section: InSection, blocks: Blocks)
    requires Laid(l, Single(section, blocks))
    ensures Given(l.sections, Recipe(), Trailing(), Single(section, blocks)) && l.sizeOfHeaders == HeadersOf(l.sections, false, 0x200)
    ensures l.thunks == blocks && AllBlocksRecorded(l.sections, l.thunkRvas)
  {
    hide Recipe, Given, HeadersOf, AllAddressed, EndRva, EndOffset, AllFit, OutputsRight, RvasOf, MarkersRight, AllBlocksRecorded;
  }

  lemma SectionRva(l: Layout, input: Input, i: nat)
    requires i < |l.sections| && Laid(l, input)
    ensures SectionAt(l, i).rva == RvaAt(l.sections, i, l.sizeOfHeaders, input.sectionAlignment)
  {
    hide Recipe, Accepted;
    SectionLies(l, Recipe(), Trailing(), input, i);
  }

  lemma BigBssFits(given: seq<OutSection>)
    ensures !TooBig(given, Recipe(), Trailing(), BigBss())
  {
    hide Recipe, Given, AllFit, RvaAt;
    if TooBig(given, Recipe(), Trailing(), BigBss()) {
      BigBssGiven(given);
      BigBssRvas(given, 512, 0x1000);
      ThreeFit(given, 1, 0xFFFF_D001, 0x200, 0x1000);
      assert false;
    }
  }

  /** And it is accepted. */
  method LayOutBigBss() returns (l: Layout)
    ensures Laid(l, BigBss()) && IdataUnaligned(l)
  {
    StepsAre(0);
    hide Recipe, TooBig, Accepted, BigBss;
    var r := LayOut(Recipe(), Trailing(), BigBss());
    forall given
      ensures !TooBig(given, Recipe(), Trailing(), BigBss())
    {
      BigBssFits(given);
    }
    l := r.value;
    AlwaysUnaligned(l);
  }

  // ---- A section aligned beyond its output section, whose branch needs a thunk ----

  /** A `.text` of 128 MiB, 8192-aligned, with one thunk planned: for symbol record 0 and the addend -4. */
  function BigText(): Input
  {
    Single(TextOfBig(), BigPlan())
  }

  function TextOfBig(): InSection
  {
    InSection(".text", 0x800_0000, 0x2000, true, true, true)
  }

  function BigPlan(): Blocks
  {
    map[(0, 1) := [ThunkTarget(0, -4)]]
  }

  lemma BigAlone()
    ensures var d := Alone(TextOfBig(), 1, BigPlan());
      && d.chunks == [Chunk(0, 0x800_0000, InputPiece(0, 1), 1), Chunk(0x800_0000, 12, ThunkPiece(0, 1), 1)]
      && AlignUp32(d.offset, 8) == 0x800_0010
  {
    assert BlockSize(BigPlan(), (0, 1)) == 12;
    ZeroAligned(0x2000);
    hide AlignUp32, BlockSize;
  }

  lemma BigTextGiven(given: seq<OutSection>)
    requires Given(given, Recipe(), Trailing(), BigText())
    ensures Names(given) == [".text", ".rdata", ".idata"] && ThreeSizes(given, 0, 0x800_0010)
    ensures given != [] && given[0].chunks == Alone(TextOfBig(), 1, BigPlan()).chunks
  {
    TextSection(TextOfBig(), BigPlan());
    BigAlone();
    hide Recipe, FinalSection, Target, Alone, AlignUp32;
    GivenRight(given, Recipe(), Trailing(), BigText());
    hide Given, SectionsRight, ImageOrdered, DroppedRight;
    SizesAre(given, TextOfBig(), BigPlan(), ".text", 0x800_0010);
    assert given[0].name == Names(given)[0] && Finished(given[0], Recipe(), BigText());
    hide ThreeSizes;
  }

  lemma BigTextRvas(given: seq<OutSection>, headers: nat, alignment: nat)
    requires ThreeSizes(given, 0, 0x800_0010) && headers == 512 && alignment == 0x1000
    ensures RvaAt(given, 0, headers, alignment) == 0x1000 && RvaAt(given, 1, headers, alignment) == 0x800_2000
    ensures RvaAt(given, 2, headers, alignment) == 0x800_3000
  {
    RvaNext(given, 0, headers, alignment);
    RvaNext(given, 1, headers, alignment);
    hide AlignUp32, RvaAt;
  }

  /** The section and its block are where they must be in every accepted layout. */
  predicate BigPlaces(l: Layout)
  {
    && SectionAt(l, 0).rva == 0x1000
    && IsChunk(l, 0, 0) && ChunkAt(l, 0, 0) == Chunk(0, 0x800_0000, InputPiece(0, 1), 1)
    && IsChunk(l, 0, 1) && ChunkAt(l, 0, 1) == Chunk(0x800_0000, 12, ThunkPiece(0, 1), 1)
  }

  lemma BigPlaced(l: Layout)
    requires Laid(l, BigText())
    ensures BigPlaces(l)
  {
    assert BigText() == Single(TextOfBig(), BigPlan()) && BigText().sectionAlignment == 0x1000;
    hide *;
    LaidSingle(l, TextOfBig(), BigPlan());
    BigTextGiven(l.sections);
    BigAlone();
    ThreeAre(l.sections, 0, 0x800_0010);
    ThreeHeaders(l.sections, 0x200);
    BigTextRvas(l.sections, l.sizeOfHeaders, 0x1000);
    SectionRva(l, BigText(), 0);
    BigPlacesAre(l);
  }

  lemma ThreeAre(given: seq<OutSection>, at: nat, size: nat)
    requires ThreeSizes(given, at, size)
    ensures |given| == 3
  {
  }

  lemma BigPlacesAre(l: Layout)
    requires |l.sections| == 3 && SectionAt(l, 0).rva == 0x1000
    requires l.sections[0].chunks == [Chunk(0, 0x800_0000, InputPiece(0, 1), 1), Chunk(0x800_0000, 12, ThunkPiece(0, 1), 1)]
    ensures BigPlaces(l)
  {
  }

  /** The input section is at no multiple of its alignment, though its output section is aligned as asked. */
  predicate TextMisaligned(l: Layout)
  {
    && IsMultiple(SectionAt(l, 0).rva, BigText().sectionAlignment)
    && IsWholeInput(l, 0, 0, 0, 1, TextOfBig()) && !IsMultiple(ChunkRva(l, 0, 0), TextOfBig().align)
  }

  /** The alignment is honoured in no accepted layout. */
  lemma InputMisaligned(l: Layout)
    requires Laid(l, BigText())
    ensures TextMisaligned(l)
  {
    hide *;
    BigPlaced(l);
    MisalignedIs(l);
  }

  lemma MisalignedIs(l: Layout)
    requires BigPlaces(l)
    ensures TextMisaligned(l)
  {
    assert 0x1000 % 0x2000 != 0;
  }

  /** A `bl` near the end of the section, whose immediate holds -4. */
  function FarBranch(): Branches.Branch
  {
    Branches.Branch(0, 1, 0x7FF_FFF0, AArch64.Branch26, 0x97FF_FFFF, 0)
  }

  /** Every symbol is absolute zero. */
  function ZeroSymbols(): Branches.Symbols
  {
    (l: Layout, f: nat, r: nat) => 0
  }

  lemma FarGoal(l: Layout)
    ensures Branches.Goal(l, ZeroSymbols(), FarBranch()) == -4 && Branches.KeyOf(FarBranch()) == ThunkTarget(0, -4)
    ensures -4 % U32 == 0xFFFF_FFFC && -4 % U64 == U64 - 4
  {
  }

  predicate BigRecorded(l: Layout)
  {
    InputRva(l, 0, 1) == 0x1000
  }

  lemma BigInput(l: Layout)
    requires Laid(l, BigText()) && BigPlaces(l)
    ensures BigRecorded(l)
  {
    SectionIs(TextOfBig(), BigPlan());
    hide Accepted, Recipe, InputRva;
    RecordedAt(l, Recipe(), Trailing(), BigText(), 0, 0, 0, 1, TextOfBig());
  }

  /** Where the branch is, where its slot is, and the plan. */
  predicate FarPlaces(l: Layout)
  {
    && Branches.PcOf(l, FarBranch()) == 0x800_0FF0 && l.thunks == BigPlan()
    && (0, 1) in l.thunkRvas && Branches.BlockStart(l, (0, 1)) == 0x800_1000
  }

  lemma FarPlaced(l: Layout)
    requires Laid(l, BigText())
    ensures FarPlaces(l)
  {
    BigIsSingle();
    hide *;
    LaidSingle(l, TextOfBig(), BigPlan());
    BigPlaced(l);
    BigInput(l);
    FarPlacesAre(l);
  }

  lemma BigIsSingle()
    ensures BigText() == Single(TextOfBig(), BigPlan())
  {
  }

  lemma FarPlacesAre(l: Layout)
    requires BigPlaces(l) && BigRecorded(l) && l.thunks == BigPlan() && AllBlocksRecorded(l.sections, l.thunkRvas)
    ensures FarPlaces(l)
  {
    hide AllBlocksRecorded, InputRva, BigPlan;
    Branches.BlockRecorded(l, 0, 1, (0, 1));
  }

  /** The direct branch cannot go back 128 MiB, and the slot is 16 bytes ahead. */
  lemma FarWords(l: Layout)
    requires FarPlaces(l)
    ensures Branches.DirectWord(l, ZeroSymbols(), FarBranch()).Err?
    ensures Branches.ThunkWord(l, FarBranch(), 0) == Ok(0x9400_0004)
    ensures IndexOf(l.thunks, (0, 1), ThunkTarget(0, -4)) == Some(0)
  {
    FarGoal(l);
    hide Branches.Goal, Branches.PcOf, Branches.BlockStart;
    FarDirect();
    FarThunk();
    hide AArch64.Encode;
    assert Position([ThunkTarget(0, -4)], ThunkTarget(0, -4)) == Some(0);
  }

  lemma FarDirect()
    ensures AArch64.Encode(AArch64.Branch26, 0x97FF_FFFF, Wrap(Wrap(-4, U64) - 0x800_0FF0, U64)).Err?
  {
  }

  lemma FarThunk()
    ensures AArch64.Encode(AArch64.Branch26, 0x97FF_FFFF, Wrap(0x800_1000 - 0x800_0FF0, U64)) == Ok(0x9400_0004)
  {
  }

  /** The branch is patched to go through its thunk, and ends at 0xfffffffc instead of four below zero. */
  ghost predicate FarMisses(l: Layout)
  {
    var goal := Branches.Goal(l, ZeroSymbols(), FarBranch());
    && Branches.Apply(l, ZeroSymbols(), FarBranch()) == Branches.Patched(0x9400_0004)
    && Branches.Indirect(l, ZeroSymbols(), FarBranch(), 0x9400_0004, 0)
    && Branches.SlotEnds(l, ZeroSymbols(), (0, 1), 0, 0xFFFF_FFFC) && !Branches.SlotEnds(l, ZeroSymbols(), (0, 1), 0, goal % U64)
  }

  lemma ThunkMisses(l: Layout)
    requires Laid(l, BigText())
    ensures FarMisses(l)
  {
    hide *;
    FarPlaced(l);
    FarThrough(l);
    FarApplied(l);
    FarEnds(l);
  }

  lemma FarThrough(l: Layout)
    requires FarPlaces(l) && Laid(l, BigText())
    ensures Branches.Indirect(l, ZeroSymbols(), FarBranch(), 0x9400_0004, 0)
  {
    FarWords(l);
    FarGoal(l);
    FarValid();
    hide Recipe, Accepted, FarPlaces, FarBranch, ZeroSymbols, BigText, Branches.DirectWord, Branches.ThunkWord, Branches.Goal, Branches.Indirect, Branches.ValidBranch, IndexOf;
    Branches.ThroughThunk(l, Recipe(), Trailing(), BigText(), ZeroSymbols(), FarBranch(), 0);
  }

  predicate FarPatched(l: Layout)
  {
    Branches.Apply(l, ZeroSymbols(), FarBranch()) == Branches.Patched(0x9400_0004)
  }

  lemma FarApplied(l: Layout)
    requires FarPlaces(l)
    ensures FarPatched(l)
  {
    FarWords(l);
    FarGoal(l);
    FarValid();
    hide FarBranch, ZeroSymbols, Branches.DirectWord, Branches.ThunkWord, IndexOf, Branches.BlockStart, Branches.PcOf, BigPlan;
  }

  lemma FarEnds(l: Layout)
    requires FarPatched(l) && Branches.Indirect(l, ZeroSymbols(), FarBranch(), 0x9400_0004, 0)
    ensures FarMisses(l)
  {
    FarGoal(l);
    FarValid();
    Branches.ThunkExact(l, ZeroSymbols(), FarBranch(), 0x9400_0004, 0);
    hide FarBranch, ZeroSymbols, Branches.Apply, Branches.Goal, Branches.SlotEnds, Branches.ToSlot;
  }

  lemma FarValid()
    ensures Branches.ValidBranch(FarBranch(), BigText().files) && Branches.SiteOf(FarBranch()) == (0, 1)
  {
  }

  lemma BigTextFits(given: seq<OutSection>)
    ensures !TooBig(given, Recipe(), Trailing(), BigText())
  {
    hide Recipe, Given, AllFit, RvaAt;
    if TooBig(given, Recipe(), Trailing(), BigText()) {
      BigTextGiven(given);
      BigTextRvas(given, 512, 0x1000);
      ThreeFit(given, 0, 0x800_0010, 0x200, 0x1000);
      assert false;
    }
  }

  /** This input is accepted too. */
  method LayOutBigText() returns (l: Layout)
    ensures Laid(l, BigText())
  {
    StepsAre(0);
    hide Recipe, TooBig, Accepted, BigText;
    var r := LayOut(Recipe(), Trailing(), BigText());
    forall given
      ensures !TooBig(given, Recipe(), Trailing(), BigText())
    {
      BigTextFits(given);
    }
    l := r.value;
  }
}
