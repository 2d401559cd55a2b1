/** The order of the output sections of an image. */
module ImageOrder {
  import opened Bits
  import opened Results
  import opened Sorting
  import opened LayoutModel
  import opened LayoutBuild
  import opened LayoutAssign
  import opened LayoutPlan
  import opened LayoutTheorems
  import opened LayoutRecipe
  import opened LayoutRegions

  /** No request for the name has a rank below `r`. */
  predicate RanksFrom(wanted: seq<Wanted>, name: string, r: nat)
  {
    forall i :: 0 <= i < |wanted| && wanted[i].name == name ==> wanted[i].rank >= r
  }

  lemma {:induction false} LowestAtLeast(wanted: seq<Wanted>, name: string, r: nat)
    requires RanksFrom(wanted, name, r) && r <= U32_MAX
    ensures LowestRank(wanted, name) >= r
    decreases |wanted|
  {
    if wanted != [] { LowestAtLeast(wanted[..|wanted| - 1], name, r); }
  }

  lemma {:induction false} LowestAtMost(wanted: seq<Wanted>, i: nat)
    requires i < |wanted|
    ensures LowestRank(wanted, wanted[i].name) <= wanted[i].rank
    decreases |wanted|
  {
    if i < |wanted| - 1 { LowestAtMost(wanted[..|wanted| - 1], i); }
  }

  lemma OrphansLate(name: string)
    ensures OrphanRank(name) >= RANK_ORPHAN
  {
    hide DebugOrder, IndexIn;
  }

  lemma {:induction false} SectionsLate(recipe: seq<Step>, sections: seq<InSection>, n: nat, name: string)
    requires n <= |sections|
    ensures RanksFrom(OfSections(recipe, sections, n), name, RANK_ORPHAN)
  {
    hide OrphanRank;
    if n > 0 {
      SectionsLate(recipe, sections, n - 1, name);
      OrphansLate(OrphanName(sections[n - 1].name));
    }
  }

  lemma {:induction false} FilesLate(recipe: seq<Step>, files: seq<InFile>, f: nat, name: string)
    requires f <= |files|
    ensures RanksFrom(OfFiles(recipe, files, f), name, RANK_ORPHAN)
  {
    if f > 0 {
      FilesLate(recipe, files, f - 1, name);
      var sections := files[f - 1].sections;
      if sections.Some? { SectionsLate(recipe, sections.value, |sections.value|, name); }
    }
  }

  /** The first step with this output. */
  function FirstOutput(recipe: seq<Step>, name: string): (r: nat)
    ensures r <= |recipe| && (r < |recipe| ==> recipe[r].output == name)
    ensures forall i :: 0 <= i < r ==> recipe[i].output != name
    decreases |recipe|
  {
    if recipe == [] || recipe[0].output == name then 0 else 1 + FirstOutput(recipe[1..], name)
  }

  /** A section of the recipe ranks by its first step; every other one after all of those. */
  lemma RankOfName(recipe: seq<Step>, trailing: seq<string>, input: Input, name: string)
    requires |recipe| <= RANK_ORPHAN
    ensures var (rank, first) := (LowestRank(AllWanted(recipe, trailing, input), name), FirstOutput(recipe, name));
      if first < |recipe| then rank == first else rank >= RANK_ORPHAN
  {
    var wanted := AllWanted(recipe, trailing, input);
    var (a, b) := (OfRecipe(recipe, |recipe|), OfTrailing(trailing, |trailing|));
    var (c, d) := (OfFiles(recipe, input.files, |input.files|), OfSynthetic(trailing, input.synthetic, |input.synthetic|));
    var first := FirstOutput(recipe, name);
    FilesLate(recipe, input.files, |input.files|, name);
    assert RanksFrom(a, name, first);
    assert RanksFrom(b, name, RANK_ORPHAN) && RanksFrom(d, name, RANK_ORPHAN);
    hide OfRecipe, OfTrailing, OfFiles, OfSynthetic, LowestRank;
    assert wanted == a + b + c + d;
    if first < |recipe| {
      assert a[first] == Wanted(name, first) by { OfRecipeAt(recipe, first); }
      assert wanted[first] == a[first];
      LowestAtMost(wanted, first);
      Joined(a, b, c, d, name, first);
      LowestAtLeast(wanted, name, first);
    } else {
      assert RanksFrom(a, name, RANK_ORPHAN) by { NotInRecipe(recipe, name); }
      Joined(a, b, c, d, name, RANK_ORPHAN);
      LowestAtLeast(wanted, name, RANK_ORPHAN);
    }
  }

  lemma OfRecipeAt(recipe: seq<Step>, i: nat)
    requires i < |recipe|
    ensures |OfRecipe(recipe, |recipe|)| == |recipe| && OfRecipe(recipe, |recipe|)[i] == Wanted(recipe[i].output, i)
  {
  }

  lemma NotInRecipe(recipe: seq<Step>, name: string)
    requires FirstOutput(recipe, name) == |recipe|
    ensures RanksFrom(OfRecipe(recipe, |recipe|), name, RANK_ORPHAN)
  {
  }

  lemma Joined(a: seq<Wanted>, b: seq<Wanted>, c: seq<Wanted>, d: seq<Wanted>, name: string, r: nat)
    requires RanksFrom(a, name, r) && r <= RANK_ORPHAN
    requires RanksFrom(b, name, RANK_ORPHAN) && RanksFrom(c, name, RANK_ORPHAN) && RanksFrom(d, name, RANK_ORPHAN)
    ensures RanksFrom(a + b + c + d, name, r)
  {
  }

  /** Of two sections of one image, the one of the earlier step comes first. */
  lemma EarlierFirst(sections: seq<OutSection>, input: Input, i: nat, j: nat)
    requires i < |sections| && j < |sections| && FirstOutput(Recipe(), sections[i].name) < FirstOutput(Recipe(), sections[j].name)
    requires ImageOrdered(sections, AllWanted(Recipe(), Trailing(), input))
    ensures i < j
  {
    StepsAre(0);
    hide *;
    RankOfName(Recipe(), Trailing(), input, sections[i].name);
    RankOfName(Recipe(), Trailing(), input, sections[j].name);
    if i >= j { RanksRise(sections, AllWanted(Recipe(), Trailing(), input), j, i); }
  }

  lemma RanksRise(sections: seq<OutSection>, wanted: seq<Wanted>, i: nat, j: nat)
    requires i <= j < |sections| && ImageOrdered(sections, wanted)
    ensures i <= j < |sections| && LowestRank(wanted, sections[i].name) <= LowestRank(wanted, sections[j].name)
  {
    hide LowestRank, FirstSeen;
    if i < j { assert NameBefore(wanted, sections[i].name, sections[j].name); }
  }

  /** The image keeps the recipe's order: its sections by first step, before every other section. */
  lemma RecipeSectionsFirst(l: Layout, input: Input, i: nat, j: nat)
    requires i < |l.sections| && j < |l.sections| && Laid(l, input)
    requires FirstOutput(Recipe(), SectionAt(l, i).name) < FirstOutput(Recipe(), SectionAt(l, j).name)
    ensures i < j
  {
    LaidParts(l, input);
    hide Laid, Recipe, FirstOutput, DroppedRight, ImageOrdered, MarkersRight, AllWanted;
    EarlierFirst(l.sections, input, i, j);
  }

  // ---- The sections the recipe does not name ----

  /** A debugging section, which the loader does not map. */
  predicate IsDebug(name: string)
  {
    ".debug" <= name || ".zdebug" <= name || name == ".stab" || name == ".stabstr"
  }

  predicate StartsDebug(name: string)
  {
    |name| >= 6 && name[..6] == ".debug"
  }

  lemma DebugStarts1(k: nat)
    requires 2 <= k < 14
    ensures StartsDebug(DebugOrder()[k])
  {
  }

  lemma DebugStarts2(k: nat)
    requires 14 <= k < 27
    ensures StartsDebug(DebugOrder()[k])
  {
  }

  lemma StabsFirst()
    ensures DebugOrder()[0] == ".stab" && DebugOrder()[1] == ".stabstr"
  {
  }

  lemma KnownDebug(name: string)
    requires name in DebugOrder()
    ensures IsDebug(name)
  {
    var k :| 0 <= k < 27 && DebugOrder()[k] == name;
    if 2 <= k < 14 { DebugStarts1(k); }
    if 14 <= k { DebugStarts2(k); }
    StabsFirst();
    hide DebugOrder;
    if k >= 2 { Starts(name); }
  }

  lemma Starts(name: string)
    ensures StartsDebug(name) <==> ".debug" <= name
  {
  }

  /** The name of the plain form of a compressed section. */
  function Plain(name: string): string
  {
    if ".zdebug" <= name then "." + name[2..] else name
  }

  lemma PlainDebug(name: string)
    ensures ".zdebug" <= name ==> ".debug" <= Plain(name)
    ensures !(".zdebug" <= name) ==> Plain(name) == name
  {
    if ".zdebug" <= name {
      assert name[..7] == ".zdebug";
      assert forall k :: 2 <= k < 7 ==> name[k] == ".zdebug"[k];
      assert Plain(name)[..6] == ".debug";
    }
  }

  /** A name is that of a debugging section if its plain form is a known one, or starts as one. */
  lemma DebugPlain(name: string)
    ensures IsDebug(name) <==> Plain(name) in DebugOrder() || ".debug" <= Plain(name)
  {
    PlainDebug(name);
    if Plain(name) in DebugOrder() { KnownDebug(Plain(name)); }
    StabsKnown(name);
    hide DebugOrder, Plain;
  }

  lemma StabsKnown(name: string)
    ensures name == ".stab" || name == ".stabstr" ==> name in DebugOrder()
  {
    StabsFirst();
    hide DebugOrder;
    assert DebugOrder()[0] in DebugOrder() && DebugOrder()[1] in DebugOrder();
  }

  lemma RankAt(name: string)
    ensures var index := IndexIn(DebugOrder(), Plain(name));
      OrphanRank(name) == if index < 27 then 3000 + index else if ".debug" <= Plain(name) then 3027 else 1000
  {
    assert |DebugOrder()| == 27;
    hide DebugOrder;
  }

  /** Debugging sections rank from 3000 on, all other orphans 1000. */
  lemma RankOfOrphan(name: string)
    ensures if IsDebug(name) then 3000 <= OrphanRank(name) <= 3027 else OrphanRank(name) == 1000
  {
    hide *;
    DebugPlain(name);
    RankAt(name);
    assert |DebugOrder()| == 27;
  }

  /** Some live input section that no step takes goes to an output of that name. */
  ghost predicate Claimed(recipe: seq<Step>, files: seq<InFile>, name: string)
  {
    exists f: nat, s: nat :: Claims(recipe, files, f, s, name)
  }

  predicate Claims(recipe: seq<Step>, files: seq<InFile>, f: nat, s: nat, name: string)
  {
    match SectionOf(files, f, s)
    case Some(section) => section.live && StepFrom(recipe, 0, section.name).None? && OrphanName(section.name) == name
    case None => false
  }

  predicate ClaimsAt(recipe: seq<Step>, sections: seq<InSection>, s: nat, name: string)
  {
    s < |sections| && sections[s].live && StepFrom(recipe, 0, sections[s].name).None? && OrphanName(sections[s].name) == name
  }

  lemma {:induction false} SectionsClaim(recipe: seq<Step>, sections: seq<InSection>, n: nat, w: Wanted)
    requires n <= |sections|
    ensures w in OfSections(recipe, sections, n) <==>
      w.rank == OrphanRank(w.name) && exists s: nat :: s < n && ClaimsAt(recipe, sections, s, w.name)
  {
    hide OrphanRank, StepFrom, OrphanName;
    if n > 0 {
      SectionsClaim(recipe, sections, n - 1, w);
      var (rest, section) := (OfSections(recipe, sections, n - 1), sections[n - 1]);
      var one := Wanted(OrphanName(section.name), OrphanRank(OrphanName(section.name)));
      assert w in rest + [one] <==> w in rest || w == one;
      assert ClaimsAt(recipe, sections, n - 1, w.name) <==> section.live && StepFrom(recipe, 0, section.name).None? && OrphanName(section.name) == w.name;
    }
  }

  /** What the files ask for: a section of that rank for each name that is claimed. */
  lemma {:induction false} FilesClaim(recipe: seq<Step>, files: seq<InFile>, n: nat, w: Wanted)
    requires n <= |files|
    ensures w in OfFiles(recipe, files, n) <==> w.rank == OrphanRank(w.name) && exists f: nat, s: nat :: f < n && Claims(recipe, files, f, s, w.name)
  {
    hide OrphanRank, StepFrom, OrphanName, OfSections;
    if n > 0 {
      FilesClaim(recipe, files, n - 1, w);
      var (sections, rest) := (files[n - 1].sections, OfFiles(recipe, files, n - 1));
      if sections.Some? {
        var more := OfSections(recipe, sections.value, |sections.value|);
        SectionsClaim(recipe, sections.value, |sections.value|, w);
        assert w in rest + more <==> w in rest || w in more;
        ClaimsHere(recipe, files, n - 1, sections.value, w.name);
      } else {
        assert rest + [] == rest;
        NoClaims(recipe, files, n - 1, w.name);
      }
    }
  }

  lemma NoClaims(recipe: seq<Step>, files: seq<InFile>, f: nat, name: string)
    requires f < |files| && files[f].sections == None
    ensures forall s: nat :: !Claims(recipe, files, f, s, name)
  {
  }

  lemma ClaimsHere(recipe: seq<Step>, files: seq<InFile>, f: nat, sections: seq<InSection>, name: string)
    requires f < |files| && files[f].sections == Some(sections)
    ensures (exists s: nat :: Claims(recipe, files, f, s, name)) <==> exists s: nat :: s < |sections| && ClaimsAt(recipe, sections, s, name)
  {
    hide StepFrom, OrphanName;
    if exists s: nat :: Claims(recipe, files, f, s, name) {
      var s: nat :| Claims(recipe, files, f, s, name);
      assert ClaimsAt(recipe, sections, s - 1, name);
    }
    if s: nat :| s < |sections| && ClaimsAt(recipe, sections, s, name) {
      assert Claims(recipe, files, f, s + 1, name);
    }
  }

  /** What asks for an output section, and with what rank. */
  ghost predicate AskedBy(recipe: seq<Step>, trailing: seq<string>, input: Input, w: Wanted)
  {
    || (w.rank < |recipe| && recipe[w.rank].output == w.name)
    || (2000 <= w.rank < 2000 + |trailing| && trailing[w.rank - 2000] == w.name)
    || (w.rank == OrphanRank(w.name) && Claimed(recipe, input.files, w.name))
    || (w.rank == (if w.name in trailing then 2000 else 1000) && Generated(input, w.name))
  }

  predicate Generated(input: Input, name: string)
  {
    exists k :: 0 <= k < |input.synthetic| && input.synthetic[k].name == name
  }

  lemma RecipeAsks(recipe: seq<Step>, w: Wanted)
    ensures w in OfRecipe(recipe, |recipe|) <==> w.rank < |recipe| && recipe[w.rank].output == w.name
  {
    if w.rank < |recipe| && recipe[w.rank].output == w.name { assert OfRecipe(recipe, |recipe|)[w.rank] == w; }
  }

  lemma TrailingAsks(trailing: seq<string>, w: Wanted)
    ensures w in OfTrailing(trailing, |trailing|) <==> 2000 <= w.rank < 2000 + |trailing| && trailing[w.rank - 2000] == w.name
  {
    if 2000 <= w.rank < 2000 + |trailing| && trailing[w.rank - 2000] == w.name { assert OfTrailing(trailing, |trailing|)[w.rank - 2000] == w; }
  }

  lemma SyntheticAsks(trailing: seq<string>, input: Input, w: Wanted)
    ensures w in OfSynthetic(trailing, input.synthetic, |input.synthetic|)
       <==> w.rank == (if w.name in trailing then 2000 else 1000) && Generated(input, w.name)
  {
    var list := OfSynthetic(trailing, input.synthetic, |input.synthetic|);
    if w.rank == (if w.name in trailing then 2000 else 1000) && Generated(input, w.name) {
      var k :| 0 <= k < |input.synthetic| && input.synthetic[k].name == w.name;
      assert list[k] == w;
    }
  }

  lemma FilesAsk(recipe: seq<Step>, files: seq<InFile>, w: Wanted)
    ensures w in OfFiles(recipe, files, |files|) <==> w.rank == OrphanRank(w.name) && Claimed(recipe, files, w.name)
  {
    FilesClaim(recipe, files, |files|, w);
    hide OrphanRank, OfFiles, StepFrom, OrphanName;
    if f: nat, s: nat :| Claims(recipe, files, f, s, w.name) { assert f < |files|; }
  }

  lemma AllAsked(recipe: seq<Step>, trailing: seq<string>, input: Input, w: Wanted)
    ensures w in AllWanted(recipe, trailing, input) <==> AskedBy(recipe, trailing, input, w)
  {
    RecipeAsks(recipe, w);
    TrailingAsks(trailing, w);
    FilesAsk(recipe, input.files, w);
    SyntheticAsks(trailing, input, w);
    hide OfRecipe, OfTrailing, OfFiles, OfSynthetic, OrphanRank, Claimed, Generated;
    InFour(OfRecipe(recipe, |recipe|), OfTrailing(trailing, |trailing|), OfFiles(recipe, input.files, |input.files|),
           OfSynthetic(trailing, input.synthetic, |input.synthetic|), w);
  }

  lemma InFour(a: seq<Wanted>, b: seq<Wanted>, c: seq<Wanted>, d: seq<Wanted>, w: Wanted)
    ensures w in a + b + c + d <==> w in a || w in b || w in c || w in d
  {
  }

  /** The rank of a section is the lowest it is asked for with. */
  lemma RankLowest(wanted: seq<Wanted>, name: string, r: nat)
    requires r <= U32_MAX && Wanted(name, r) in wanted && forall w :: w in wanted && w.name == name ==> r <= w.rank
    ensures LowestRank(wanted, name) == r
  {
    var i :| 0 <= i < |wanted| && wanted[i] == Wanted(name, r);
    LowestAtMost(wanted, i);
    LowestAtLeast(wanted, name, r);
  }

  lemma {:induction false} SeenWanted(wanted: seq<Wanted>, name: string)
    requires name in FirstSeen(wanted)
    ensures exists w :: w in wanted && w.name == name
    decreases |wanted|
  {
    var (init, last) := (wanted[..|wanted| - 1], wanted[|wanted| - 1]);
    if name in FirstSeen(init) {
      SeenWanted(init, name);
      var w :| w in init && w.name == name;
      assert w in wanted;
    } else {
      assert last in wanted;
    }
  }

  /** A section the recipe does not name, nor the list that closes the image, and that is no debugging section: 1000. */
  lemma RankOther(recipe: seq<Step>, trailing: seq<string>, input: Input, name: string)
    requires FirstOutput(recipe, name) == |recipe| && name !in trailing && !IsDebug(name)
    requires name in FirstSeen(AllWanted(recipe, trailing, input))
    ensures LowestRank(AllWanted(recipe, trailing, input), name) == 1000
  {
    RankOfOrphan(name);
    hide AllWanted, FirstSeen, LowestRank, OrphanRank, IsDebug, Claimed, Generated;
    SeenWanted(AllWanted(recipe, trailing, input), name);
    var w :| w in AllWanted(recipe, trailing, input) && w.name == name;
    forall w | w in AllWanted(recipe, trailing, input) && w.name == name
      ensures w.rank == 1000
    {
      AllAsked(recipe, trailing, input, w);
    }
    RankLowest(AllWanted(recipe, trailing, input), name, 1000);
  }

  lemma ClaimedAsks(recipe: seq<Step>, trailing: seq<string>, input: Input, name: string)
    requires Claimed(recipe, input.files, name) && !IsDebug(name)
    ensures Wanted(name, 1000) in AllWanted(recipe, trailing, input)
  {
    RankOfOrphan(name);
    hide AllWanted, OrphanRank, IsDebug, Claimed, Generated;
    AllAsked(recipe, trailing, input, Wanted(name, 1000));
  }

  lemma ClosingAsks(recipe: seq<Step>, trailing: seq<string>, input: Input, i: nat)
    requires i < |trailing|
    ensures Wanted(trailing[i], 2000 + i) in AllWanted(recipe, trailing, input)
  {
    hide AllWanted, OrphanRank, Claimed, Generated;
    AllAsked(recipe, trailing, input, Wanted(trailing[i], 2000 + i));
  }

  lemma ClosingRanks(recipe: seq<Step>, trailing: seq<string>, input: Input, w: Wanted)
    requires FirstOutput(recipe, w.name) == |recipe| && w.name in trailing && !IsDebug(w.name) && w in AllWanted(recipe, trailing, input)
    ensures w.rank >= if Claimed(recipe, input.files, w.name) then 1000 else 2000
  {
    RankOfOrphan(w.name);
    hide AllWanted, OrphanRank, IsDebug, Claimed, Generated;
    AllAsked(recipe, trailing, input, w);
  }

  /** A section of the list that closes the image: 1000 if an input claims it, otherwise 2000 or more. */
  lemma RankTrailing(recipe: seq<Step>, trailing: seq<string>, input: Input, name: string)
    requires FirstOutput(recipe, name) == |recipe| && name in trailing && !IsDebug(name) && |trailing| < 1000
    ensures var rank := LowestRank(AllWanted(recipe, trailing, input), name);
      if Claimed(recipe, input.files, name) then rank == 1000 else 2000 <= rank < 3000
  {
    assert U32_MAX >= 2000;
    hide *;
    var wanted := AllWanted(recipe, trailing, input);
    forall w | w in wanted && w.name == name
      ensures w.rank >= if Claimed(recipe, input.files, name) then 1000 else 2000
    {
      ClosingRanks(recipe, trailing, input, w);
    }
    if Claimed(recipe, input.files, name) {
      ClaimedAsks(recipe, trailing, input, name);
      RankLowest(wanted, name, 1000);
    } else {
      var i :| 0 <= i < |trailing| && trailing[i] == name;
      ClosingAsks(recipe, trailing, input, i);
      var k := At(wanted, Wanted(name, 2000 + i));
      LowestAtMost(wanted, k);
      AllAtLeast(wanted, name, 2000);
    }
  }

  lemma At(wanted: seq<Wanted>, w: Wanted) returns (k: nat)
    requires w in wanted
    ensures k < |wanted| && wanted[k] == w
  {
    k :| 0 <= k < |wanted| && wanted[k] == w;
  }

  lemma AllAtLeast(wanted: seq<Wanted>, name: string, r: nat)
    requires r <= U32_MAX && forall w :: w in wanted && w.name == name ==> w.rank >= r
    ensures LowestRank(wanted, name) >= r
  {
    LowestAtLeast(wanted, name, r);
  }

  /** A debugging section that the linker does not generate: its own rank, 3000 or more. */
  lemma RankDebug(recipe: seq<Step>, trailing: seq<string>, input: Input, name: string)
    requires FirstOutput(recipe, name) == |recipe| && name !in trailing && IsDebug(name) && !Generated(input, name)
    requires name in FirstSeen(AllWanted(recipe, trailing, input))
    ensures LowestRank(AllWanted(recipe, trailing, input), name) == OrphanRank(name) >= 3000
  {
    RankOfOrphan(name);
    hide AllWanted, FirstSeen, LowestRank, OrphanRank, IsDebug, Claimed, Generated;
    SeenWanted(AllWanted(recipe, trailing, input), name);
    var w :| w in AllWanted(recipe, trailing, input) && w.name == name;
    forall w | w in AllWanted(recipe, trailing, input) && w.name == name
      ensures w.rank == OrphanRank(name)
    {
      AllAsked(recipe, trailing, input, w);
    }
    RankLowest(AllWanted(recipe, trailing, input), name, OrphanRank(name));
  }

  // ---- Which of them close the image ----

  lemma {:induction false} SeenPrefix(a: seq<Wanted>, b: seq<Wanted>)
    ensures FirstSeen(a) <= FirstSeen(a + b)
    decreases |b|
  {
    if b == [] {
      assert a + b == a;
    } else {
      var (init, last) := (b[..|b| - 1], |a + b| - 1);
      SeenPrefix(a, init);
      assert (a + b)[..last] == a + init;
    }
  }

  /** A name that is asked for in the first part comes before one that is not. */
  lemma SeenBefore(a: seq<Wanted>, b: seq<Wanted>, x: string, y: string)
    requires x in FirstSeen(a) && y !in FirstSeen(a)
    ensures IndexIn(FirstSeen(a + b), x) < IndexIn(FirstSeen(a + b), y)
  {
    SeenPrefix(a, b);
    var (s, t) := (FirstSeen(a), FirstSeen(a + b));
    hide FirstSeen;
    var i :| 0 <= i < |s| && s[i] == x;
    IndexAtMost(t, i);
    forall k | 0 <= k < |s|
      ensures t[k] != y
    {
      assert t[k] == s[k];
    }
  }

  lemma IndexAtMost(names: seq<string>, i: nat)
    requires i < |names|
    ensures IndexIn(names, names[i]) <= i
    decreases |names|
  {
    if i > 0 && names[0] != names[i] { IndexAtMost(names[1..], i - 1); }
  }

  /** No output of the recipe starts as `.rsrc`, `.reloc` or a debugging section does. */
  predicate OutputElsewhere(step: Step)
  {
    var o := step.output;
    |o| > 2 && !(o[1] == 'r' && (o[2] == 's' || o[2] == 'e')) && !(o[1] == 'd' && o[2] == 'e') && o[1] != 'z' && o[1] != 's'
  }

  /** Nor does a pattern take `.rsrc` or a group of it. */
  predicate PatternElsewhere(step: Step)
  {
    step.Place? ==> |step.pattern.text| > 2 && !(step.pattern.text[1] == 'r' && step.pattern.text[2] == 's')
  }

  predicate Elsewhere(steps: seq<Step>)
  {
    forall u :: 0 <= u < |steps| ==> OutputElsewhere(steps[u]) && PatternElsewhere(steps[u])
  }

  lemma TextOutputs()
    ensures forall u :: 0 <= u < |TextSteps()| ==> OutputElsewhere(TextSteps()[u])
  {
  }

  lemma TextPatterns()
    ensures forall u :: 0 <= u < |TextSteps()| ==> PatternElsewhere(TextSteps()[u])
  {
  }

  lemma TextElsewhere()
    ensures Elsewhere(TextSteps())
  {
    TextOutputs();
    TextPatterns();
    hide TextSteps, OutputElsewhere, PatternElsewhere;
  }

  lemma DataOutputs()
    ensures forall u :: 0 <= u < |DataSteps()| ==> OutputElsewhere(DataSteps()[u])
  {
  }

  lemma DataPatterns()
    ensures forall u :: 0 <= u < |DataSteps()| ==> PatternElsewhere(DataSteps()[u])
  {
  }

  lemma DataElsewhere()
    ensures Elsewhere(DataSteps())
  {
    DataOutputs();
    DataPatterns();
    hide DataSteps, OutputElsewhere, PatternElsewhere;
  }

  lemma ReadOnlyOutputs()
    ensures forall u :: 0 <= u < |ReadOnlySteps()| ==> OutputElsewhere(ReadOnlySteps()[u])
  {
  }

  lemma ReadOnlyPatterns()
    ensures forall u :: 0 <= u < |ReadOnlySteps()| ==> PatternElsewhere(ReadOnlySteps()[u])
  {
  }

  lemma ReadOnlyElsewhere()
    ensures Elsewhere(ReadOnlySteps())
  {
    ReadOnlyOutputs();
    ReadOnlyPatterns();
    hide ReadOnlySteps, OutputElsewhere, PatternElsewhere;
  }

  lemma CtorOutputs()
    ensures forall u :: 0 <= u < |CtorSteps()| ==> OutputElsewhere(CtorSteps()[u])
  {
  }

  lemma CtorPatterns()
    ensures forall u :: 0 <= u < |CtorSteps()| ==> PatternElsewhere(CtorSteps()[u])
  {
  }

  lemma CtorElsewhere()
    ensures Elsewhere(CtorSteps())
  {
    CtorOutputs();
    CtorPatterns();
    hide CtorSteps, OutputElsewhere, PatternElsewhere;
  }

  lemma CrtOutputs()
    ensures forall u :: 0 <= u < |CrtSteps()| ==> OutputElsewhere(CrtSteps()[u])
  {
  }

  lemma CrtPatterns()
    ensures forall u :: 0 <= u < |CrtSteps()| ==> PatternElsewhere(CrtSteps()[u])
  {
  }

  lemma CrtElsewhere()
    ensures Elsewhere(CrtSteps())
  {
    CrtOutputs();
    CrtPatterns();
    hide CrtSteps, OutputElsewhere, PatternElsewhere;
  }

  lemma OtherElsewhere()
    ensures Elsewhere(OtherSteps())
  {
  }

  lemma IdataElsewhere()
    ensures Elsewhere(IdataSteps())
  {
  }

  lemma TlsElsewhere()
    ensures Elsewhere(TlsSteps())
  {
  }

  lemma RecipeElsewhere(t: nat)
    requires t < |Recipe()|
    ensures OutputElsewhere(Recipe()[t]) && PatternElsewhere(Recipe()[t])
  {
    assert |Recipe()| == 86 by { StepsAre(0); }
    StepsAre(t);
    TextElsewhere();
    DataElsewhere();
    ReadOnlyElsewhere();
    CtorElsewhere();
    CrtElsewhere();
    OtherElsewhere();
    IdataElsewhere();
    TlsElsewhere();
    hide Recipe, TextSteps, DataSteps, ReadOnlySteps, CtorSteps, CrtSteps, OtherSteps, IdataSteps, TlsSteps, OutputElsewhere, PatternElsewhere;
  }

  lemma {:induction false} FirstIs(recipe: seq<Step>, name: string)
    requires forall t :: 0 <= t < |recipe| ==> recipe[t].output != name
    ensures FirstOutput(recipe, name) == |recipe|
    decreases |recipe|
  {
    if recipe != [] { FirstIs(recipe[1..], name); }
  }

  predicate Closing(name: string)
  {
    name == ".rsrc" || name == ".reloc"
  }

  lemma TrailingIs(name: string)
    ensures name in Trailing() <==> Closing(name)
    ensures |Trailing()| == 2
  {
    assert Trailing()[0] == ".rsrc" && Trailing()[1] == ".reloc";
  }

  lemma ClosingStarts(name: string)
    requires Closing(name)
    ensures |name| > 2 && name[1] == 'r' && (name[2] == 's' || name[2] == 'e')
  {
  }

  lemma DebugStarts(name: string)
    requires IsDebug(name)
    ensures |name| > 2 && ((name[1] == 'd' && name[2] == 'e') || name[1] == 'z' || name[1] == 's')
  {
    if ".debug" <= name { assert name[1] == ".debug"[1] && name[2] == ".debug"[2]; }
    if ".zdebug" <= name { assert name[1] == ".zdebug"[1]; }
  }

  /** The recipe names neither the sections that close the image nor debugging sections, and those are different. */
  lemma NotInTheRecipe(name: string)
    requires Closing(name) || IsDebug(name)
    ensures FirstOutput(Recipe(), name) == |Recipe()| == 86
    ensures !(Closing(name) && IsDebug(name))
  {
    if Closing(name) { ClosingStarts(name); }
    if IsDebug(name) { DebugStarts(name); }
    StepsAre(0);
    hide Recipe, Closing, IsDebug;
    forall t: nat | 0 <= t < |Recipe()|
      ensures Recipe()[t].output != name
    {
      RecipeElsewhere(t);
    }
    FirstIs(Recipe(), name);
  }

  function RankOf(input: Input, name: string): nat
  {
    LowestRank(AllWanted(Recipe(), Trailing(), input), name)
  }

  /** The rank of a section that is asked for, by what it is. */
  lemma RankKnown(input: Input, name: string)
    requires name in FirstSeen(AllWanted(Recipe(), Trailing(), input))
    ensures var rank := RankOf(input, name);
      if Closing(name) then if Claimed(Recipe(), input.files, name) then rank == 1000 else 2000 <= rank < 3000
      else if IsDebug(name) then !Generated(input, name) ==> rank == OrphanRank(name) >= 3000
      else rank == if FirstOutput(Recipe(), name) < 86 then FirstOutput(Recipe(), name) else 1000
  {
    StepsAre(0);
    TrailingIs(name);
    assert |Recipe()| == 86 && |Trailing()| == 2 && RANK_ORPHAN == 1000;
    assert RankOf(input, name) == LowestRank(AllWanted(Recipe(), Trailing(), input), name);
    hide *;
    if Closing(name) {
      NotInTheRecipe(name);
      RankTrailing(Recipe(), Trailing(), input, name);
    } else if IsDebug(name) {
      NotInTheRecipe(name);
      if !Generated(input, name) { RankDebug(Recipe(), Trailing(), input, name); }
    } else {
      RankOfName(Recipe(), Trailing(), input, name);
      if FirstOutput(Recipe(), name) == 86 { RankOther(Recipe(), Trailing(), input, name); }
    }
  }

  lemma InWanted(l: Layout, input: Input, i: nat)
    requires i < |l.sections| && Laid(l, input)
    ensures i < |l.sections| && l.sections[i].name in FirstSeen(AllWanted(Recipe(), Trailing(), input))
  {
    LaidParts(l, input);
    hide Laid, MarkersRight, NoDuplicates, ImageOrdered, AllWanted, FirstSeen;
    NameAt(l.sections, i);
  }

  /** Of two sections of an image, one of lower rank comes first; and of two of one rank, the one asked for first. */
  lemma ByRank(l: Layout, input: Input, i: nat, j: nat)
    requires i < |l.sections| && j < |l.sections| && Laid(l, input)
    ensures i < |l.sections| && j < |l.sections| && var (a, b, seen) := (l.sections[i].name, l.sections[j].name, FirstSeen(AllWanted(Recipe(), Trailing(), input)));
      && (RankOf(input, a) < RankOf(input, b) ==> i < j)
      && (RankOf(input, a) == RankOf(input, b) && IndexIn(seen, a) < IndexIn(seen, b) ==> i < j)
  {
    hide *;
    LaidParts(l, input);
    OrderIs(l.sections, AllWanted(Recipe(), Trailing(), input), i, j);
    BeforeIs(input, l.sections[i].name, l.sections[j].name);
  }

  lemma BeforeIs(input: Input, a: string, b: string)
    ensures var (wanted, r, s) := (AllWanted(Recipe(), Trailing(), input), RankOf(input, a), RankOf(input, b));
      NameBefore(wanted, a, b) <==> r < s || (r == s && IndexIn(FirstSeen(wanted), a) < IndexIn(FirstSeen(wanted), b))
  {
    hide AllWanted, LowestRank, FirstSeen;
  }

  lemma OrderIs(sections: seq<OutSection>, wanted: seq<Wanted>, i: nat, j: nat)
    requires i < |sections| && j < |sections| && ImageOrdered(sections, wanted)
    ensures NameBefore(wanted, sections[i].name, sections[j].name) ==> i < j
  {
    hide LowestRank, FirstSeen;
    if j < i { assert NameBefore(wanted, sections[j].name, sections[i].name); }
  }

  /** A section that is no part of the recipe, does not close the image and holds no debugging information. */
  predicate IsOrphan(name: string)
  {
    FirstOutput(Recipe(), name) == |Recipe()| && !Closing(name) && !IsDebug(name)
  }

  /**
    `.rsrc` and `.reloc` come after an orphan section of the image exactly
    unless a live input section that no step takes goes to them; then they come
    before all orphans.
   */
  lemma ClosingExact(l: Layout, input: Input, i: nat, j: nat)
    requires i < |l.sections| && j < |l.sections| && Closing(SectionAt(l, i).name) && IsOrphan(SectionAt(l, j).name) && Laid(l, input)
    ensures if Claimed(Recipe(), input.files, SectionAt(l, i).name) then i < j else j < i
  {
    var (a, b) := (l.sections[i].name, l.sections[j].name);
    StepsAre(0);
    assert |Recipe()| == 86 && !Closing(b) && !IsDebug(b) && FirstOutput(Recipe(), b) == 86;
    hide *;
    SectionIs(l, i);
    SectionIs(l, j);
    InWanted(l, input, i);
    InWanted(l, input, j);
    RankKnown(input, a);
    RankKnown(input, b);
    ByRank(l, input, i, j);
    ByRank(l, input, j, i);
    ClosingSeen(input, a, b);
  }

  /** What is asked for before the files are looked at. */
  function FirstPart(): seq<Wanted>
  {
    OfRecipe(Recipe(), |Recipe()|) + OfTrailing(Trailing(), |Trailing()|)
  }

  lemma FirstAsks(w: Wanted)
    ensures w in FirstPart() ==> FirstOutput(Recipe(), w.name) < |Recipe()| || Closing(w.name)
    ensures Closing(w.name) ==> exists r :: Wanted(w.name, r) in FirstPart()
  {
    var (a, b) := (OfRecipe(Recipe(), |Recipe()|), OfTrailing(Trailing(), |Trailing()|));
    RecipeAsks(Recipe(), w);
    TrailingAsks(Trailing(), w);
    TrailingIs(w.name);
    assert w in a + b <==> w in a || w in b;
    if Closing(w.name) {
      var k :| 0 <= k < |Trailing()| && Trailing()[k] == w.name;
      TrailingAsks(Trailing(), Wanted(w.name, 2000 + k));
      assert Wanted(w.name, 2000 + k) in a + b;
    }
    hide OfRecipe, OfTrailing, Recipe, Trailing, Closing;
    if w.rank < |Recipe()| && Recipe()[w.rank].output == w.name { FirstAtMost(Recipe(), w.rank); }
  }

  lemma FirstAtMost(recipe: seq<Step>, t: nat)
    requires t < |recipe|
    ensures FirstOutput(recipe, recipe[t].output) <= t
    decreases |recipe|
  {
    if t > 0 && recipe[0].output != recipe[t].output { FirstAtMost(recipe[1..], t - 1); }
  }

  lemma FirstSeenIn(x: string)
    ensures x in FirstSeen(FirstPart()) ==> FirstOutput(Recipe(), x) < |Recipe()| || Closing(x)
    ensures Closing(x) ==> x in FirstSeen(FirstPart())
  {
    hide *;
    if x in FirstSeen(FirstPart()) {
      SeenWanted(FirstPart(), x);
      var w :| w in FirstPart() && w.name == x;
      FirstAsks(w);
    }
    FirstAsks(Wanted(x, 0));
    if Closing(x) {
      var r :| Wanted(x, r) in FirstPart();
      var k := At(FirstPart(), Wanted(x, r));
      WantedSeen(FirstPart(), k);
    }
  }

  /** A section of compiled resources: `.rsrc`, or a `$` group of it. */
  predicate IsResource(name: string)
  {
    |name| >= 5 && name[..5] == ".rsrc" && (|name| == 5 || name[5] == '$')
  }

  /** No step of the recipe takes it. */
  lemma ResourceOrphan(name: string)
    requires IsResource(name)
    ensures StepFrom(Recipe(), 0, name).None? && OrphanName(name) == ".rsrc" && Closing(".rsrc")
  {
    assert name[1] == ".rsrc"[1] == 'r' && name[2] == ".rsrc"[2] == 's';
    ResourceBase(name);
    hide Recipe, OrphanName;
    forall t: nat | t < |Recipe()| && Recipe()[t].Place?
      ensures !Matches(Recipe()[t].pattern, name)
    {
      RecipeElsewhere(t);
    }
    hide Matches;
  }

  lemma {:induction false} OrphanNameIs(name: string, k: nat)
    requires k <= |name| && (forall i :: 0 <= i < k ==> name[i] != '$') && (k < |name| ==> name[k] == '$')
    ensures OrphanName(name) == name[..k]
    decreases |name|
  {
    if k > 0 {
      OrphanNameIs(name[1..], k - 1);
      assert name[..k] == [name[0]] + name[1..][..k - 1];
    }
  }

  lemma ResourceBase(name: string)
    requires IsResource(name)
    ensures OrphanName(name) == ".rsrc"
  {
    assert forall k :: 0 <= k < 5 ==> name[k] == ".rsrc"[k] != '$';
    hide OrphanName;
    OrphanNameIs(name, 5);
  }

  /** So in an image of any input with live resources, `.rsrc` does not close it: it comes before every orphan section. */
  lemma ResourcesEarly(l: Layout, input: Input, f: nat, s: nat, section: InSection, i: nat, j: nat)
    requires SectionOf(input.files, f, s) == Some(section) && section.live && IsResource(section.name)
    requires i < |l.sections| && j < |l.sections| && SectionAt(l, i).name == ".rsrc" && IsOrphan(SectionAt(l, j).name) && Laid(l, input)
    ensures i < j
  {
    ResourceOrphan(section.name);
    var name := SectionAt(l, i).name;
    assert Claims(Recipe(), input.files, f, s, name) && Closing(name);
    hide *;
    ClaimedBy(input.files, f, s, name);
    ClosingExact(l, input, i, j);
  }

  lemma ClaimedBy(files: seq<InFile>, f: nat, s: nat, name: string)
    requires Claims(Recipe(), files, f, s, name)
    ensures Claimed(Recipe(), files, name)
  {
    hide Claims;
  }

  /** The closing sections are asked for before any orphan. */
  lemma ClosingSeen(input: Input, a: string, b: string)
    requires Closing(a) && IsOrphan(b)
    ensures var seen := FirstSeen(AllWanted(Recipe(), Trailing(), input)); IndexIn(seen, a) < IndexIn(seen, b)
  {
    FirstSeenIn(a);
    FirstSeenIn(b);
    hide FirstSeen, OfFiles, OfSynthetic, OfRecipe, OfTrailing, Recipe, Trailing, Closing;
    var rest := OfFiles(Recipe(), input.files, |input.files|) + OfSynthetic(Trailing(), input.synthetic, |input.synthetic|);
    assert AllWanted(Recipe(), Trailing(), input) == FirstPart() + rest;
    SeenBefore(FirstPart(), rest, a, b);
  }

  /** Debugging sections come after everything else. */
  lemma DebugLast(l: Layout, input: Input, i: nat, j: nat)
    requires i < |l.sections| && j < |l.sections| && IsDebug(SectionAt(l, i).name) && !IsDebug(SectionAt(l, j).name)
    requires !Generated(input, SectionAt(l, i).name) && Laid(l, input)
    ensures j < i
  {
    var (a, b) := (l.sections[i].name, l.sections[j].name);
    hide *;
    SectionIs(l, i);
    SectionIs(l, j);
    InWanted(l, input, i);
    InWanted(l, input, j);
    NotInTheRecipe(a);
    RankKnown(input, a);
    RankKnown(input, b);
    ByRank(l, input, j, i);
  }

  /** And of two of them the one of the lower rank among them first: a known one before one that is not, known ones in their order. */
  lemma DebugOrdered(l: Layout, input: Input, i: nat, j: nat)
    requires i < |l.sections| && j < |l.sections| && IsDebug(SectionAt(l, i).name) && IsDebug(SectionAt(l, j).name)
    requires DebugLess(SectionAt(l, i).name, SectionAt(l, j).name)
    requires !Generated(input, SectionAt(l, i).name) && !Generated(input, SectionAt(l, j).name) && Laid(l, input)
    ensures i < j
  {
    var (a, b) := (l.sections[i].name, l.sections[j].name);
    DebugLessRank(a, b);
    hide *;
    SectionIs(l, i);
    SectionIs(l, j);
    InWanted(l, input, i);
    InWanted(l, input, j);
    NotInTheRecipe(a);
    NotInTheRecipe(b);
    RankKnown(input, a);
    RankKnown(input, b);
    ByRank(l, input, i, j);
  }

  /** The plain forms of both are known, in this order; or only that of the first is. */
  predicate DebugLess(a: string, b: string)
  {
    exists k: nat :: k < 27 && DebugOrder()[k] == Plain(a) && forall m :: 0 <= m <= k ==> DebugOrder()[m] != Plain(b)
  }

  lemma DebugLessRank(a: string, b: string)
    requires DebugLess(a, b) && IsDebug(b)
    ensures OrphanRank(a) < OrphanRank(b)
  {
    DebugPlain(b);
    RankAt(a);
    RankAt(b);
    assert |DebugOrder()| == 27;
    hide DebugOrder, IsDebug, Plain, OrphanRank;
    var k: nat :| k < 27 && DebugOrder()[k] == Plain(a) && forall m :: 0 <= m <= k ==> DebugOrder()[m] != Plain(b);
    IndexAtMost(DebugOrder(), k);
  }

  /** As in the order of GNU ld's scripts. */
  lemma DebugNames()
    ensures DebugLess(".debug_aranges", ".debug_info") && Plain(".zdebug_info") == ".debug_info"
  {
    var (a, b) := (".debug_aranges", ".debug_info");
    assert DebugOrder()[0] == ".stab" && DebugOrder()[1] == ".stabstr" && DebugOrder()[2] == a;
    assert a[7] != b[7] && ".stab"[1] != b[1] && ".stabstr"[1] != b[1];
    assert ".zdebug_info"[2..] == "debug_info";
    assert a[1] != ".zdebug"[1] && b[1] != ".zdebug"[1];
    hide DebugOrder;
    assert forall m :: 0 <= m <= 2 ==> DebugOrder()[m] != Plain(b);
  }
}
