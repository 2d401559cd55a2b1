/** The order of the input sections inside an output section of an accepted layout. */
module LayoutOrder {
  import opened Results
  import opened Sorting
  import opened LayoutModel
  import opened LayoutPlace
  import opened LayoutBuild
  import opened LayoutFinish
  import opened LayoutRecord
  import opened LayoutPlan
  import opened LayoutTheorems
  import opened LayoutRecipe
  import opened LayoutRegions

  // ---- Names in order ----

  /** They agree before place `k`; there `a` ends or has the lower character. */
  predicate LessAt(a: string, b: string, k: nat)
  {
    k <= |a| && k < |b| && a[..k] == b[..k] && (k == |a| || a[k] < b[k])
  }

  /** `a` comes before `b` in a dictionary. */
  ghost predicate NameLess(a: string, b: string)
  {
    exists k: nat :: LessAt(a, b, k)
  }

  lemma LessNext(a: string, b: string, k: nat)
    requires a != "" && b != "" && a[0] == b[0]
    ensures LessAt(a, b, k + 1) <==> LessAt(a[1..], b[1..], k)
  {
    if k < |a| && k + 1 < |b| {
      assert a[..k + 1] == [a[0]] + a[1..][..k] && b[..k + 1] == [b[0]] + b[1..][..k];
      assert a[1..k + 1] == a[..k + 1][1..] && b[1..k + 1] == b[..k + 1][1..];
    }
  }

  lemma LessTail(a: string, b: string)
    requires a != "" && b != "" && a[0] == b[0]
    ensures NameLess(a, b) <==> NameLess(a[1..], b[1..])
  {
    if NameLess(a, b) {
      var k: nat :| LessAt(a, b, k);
      LessNext(a, b, k - 1);
    }
    if NameLess(a[1..], b[1..]) {
      var k: nat :| LessAt(a[1..], b[1..], k);
      LessNext(a, b, k);
    }
  }

  lemma SameStart(a: string, b: string, k: nat)
    requires LessAt(a, b, k)
    ensures k > 0 ==> a != "" && b != "" && a[0] == b[0]
  {
    if k > 0 { assert a[..k][0] == b[..k][0]; }
  }

  lemma LessFirst(a: string, b: string)
    requires a == "" || b == "" || a[0] != b[0]
    ensures NameLess(a, b) <==> b != "" && (a == "" || a[0] < b[0])
  {
    forall k: nat | LessAt(a, b, k)
      ensures k == 0
    {
      SameStart(a, b, k);
    }
    if b != "" && (a == "" || a[0] < b[0]) { assert LessAt(a, b, 0); }
  }

  lemma TextTail(a: string)
    requires a != ""
    ensures Text(a) != [] && Text(a)[0] == a[0] as int && Text(a)[1..] == Text(a[1..])
  {
  }

  lemma TextEmpty(a: string)
    ensures Text(a) == [] <==> a == ""
  {
    assert |Text(a)| == |a|;
  }

  /** The order of the keys is that of the names. */
  lemma {:induction false} TextOrder(a: string, b: string)
    ensures Text(a) == Text(b) <==> a == b
    ensures LexLe(Text(a), Text(b)) <==> a == b || NameLess(a, b)
    decreases |a|
  {
    TextEmpty(a);
    TextEmpty(b);
    if a != "" { TextTail(a); }
    if b != "" { TextTail(b); }
    hide Text, NameLess;
    if a != "" && b != "" && a[0] == b[0] {
      TextOrder(a[1..], b[1..]);
      LessTail(a, b);
      assert a == [a[0]] + a[1..] && b == [b[0]] + b[1..];
      assert Text(a) == [Text(a)[0]] + Text(a)[1..] && Text(b) == [Text(b)[0]] + Text(b)[1..];
    } else {
      LessFirst(a, b);
    }
  }

  // ---- Which of two sections comes first ----

  predicate PlaceLess(f: nat, s: nat, g: nat, t: nat)
  {
    f < g || (f == g && s < t)
  }

  /** By name, then by file and section. */
  ghost predicate ThenPlace(a: string, b: string, f: nat, s: nat, g: nat, t: nat)
  {
    NameLess(a, b) || (a == b && PlaceLess(f, s, g, t))
  }

  function FileName(files: seq<InFile>, f: nat): string
  {
    if f < |files| then files[f].sortName else ""
  }

  /**
    The sections of an earlier step come first; within a step its sort mode
    decides, then file and section; those of no step come last, by name. A name
    without a `$` is a prefix of the others that go to its output.
   */
  ghost predicate ComesFirst(recipe: seq<Step>, files: seq<InFile>, a: string, f: nat, s: nat, b: string, g: nat, t: nat)
  {
    match (StepFrom(recipe, 0, a), StepFrom(recipe, 0, b))
    case (Some(i), Some(j)) => i < j || (i == j && InStepFirst(recipe[i], files, a, f, s, b, g, t))
    case (Some(_), None) => true
    case (None, Some(_)) => false
    case (None, None) => ThenPlace(a, b, f, s, g, t)
  }

  ghost predicate InStepFirst(step: Step, files: seq<InFile>, a: string, f: nat, s: nat, b: string, g: nat, t: nat)
  {
    match step
    case Place(_, _, ByName) => ThenPlace(a, b, f, s, g, t)
    case Place(_, _, ByFile) => ThenPlace(FileName(files, f), FileName(files, g), f, s, g, t)
    case _ => PlaceLess(f, s, g, t)
  }

  /** The keys of two contributions of one output compare as that says. */
  lemma KeyOrder(recipe: seq<Step>, files: seq<InFile>, f: nat, s: nat, one: InSection, g: nat, t: nat, other: InSection)
    requires SectionOf(files, f, s) == Some(one) && SectionOf(files, g, t) == Some(other) && (f != g || s != t)
    requires |recipe| < NO_STEP && Target(recipe, one.name) == Target(recipe, other.name)
    ensures NotAfter(files, PlacedAs(recipe, one.name, f, s), PlacedAs(recipe, other.name, g, t))
       <==> ComesFirst(recipe, files, one.name, f, s, other.name, g, t)
  {
    var (p, q) := (PlacedAs(recipe, one.name, f, s), PlacedAs(recipe, other.name, g, t));
    var (i, j) := (StepFrom(recipe, 0, one.name), StepFrom(recipe, 0, other.name));
    if i.None? && j.None? {
      OrphanKeys(recipe, files, f, s, one, g, t, other);
    } else if i == j {
      var (a, b) := if recipe[i.value].sort == ByFile then (files[f].sortName, files[g].sortName) else (one.name, other.name);
      TextOrder(a, b);
      hide Text, StepFrom, NameLess, LexLe;
    }
  }

  lemma OrphanKeys(recipe: seq<Step>, files: seq<InFile>, f: nat, s: nat, one: InSection, g: nat, t: nat, other: InSection)
    requires SectionOf(files, f, s) == Some(one) && SectionOf(files, g, t) == Some(other) && (f != g || s != t)
    requires StepFrom(recipe, 0, one.name).None? && StepFrom(recipe, 0, other.name).None?
    requires OrphanName(one.name) == OrphanName(other.name)
    ensures NotAfter(files, PlacedAs(recipe, one.name, f, s), PlacedAs(recipe, other.name, g, t))
       <==> ThenPlace(one.name, other.name, f, s, g, t)
  {
    var (p, q) := (PlacedAs(recipe, one.name, f, s), PlacedAs(recipe, other.name, g, t));
    var (a, b, base) := (one.name, other.name, OrphanName(one.name));
    TextOrder(a, b);
    TextEmpty(a);
    TextEmpty(b);
    hide Text, StepFrom, OrphanName;
    if |base| == |a| < |b| {
      assert LessAt(a, b, |a|);
    } else if |base| == |b| < |a| {
      assert LessAt(b, a, |b|);
      LexTotal(KeyOf(files, p), KeyOf(files, q));
      NotBoth(a, b);
    }
  }

  lemma NotBoth(a: string, b: string)
    ensures !(NameLess(a, b) && NameLess(b, a)) && (a == b ==> !NameLess(a, b))
    ensures a == b || NameLess(a, b) || NameLess(b, a)
  {
    TextOrder(a, b);
    TextOrder(b, a);
    LexTotal(Text(a), Text(b));
  }

  // ---- Chunks in the order of their keys ----

  /** The contribution an input chunk comes from, and its place in the list. */
  lemma ListedAt(out: OutSection, recipe: seq<Step>, input: Input, c: nat, f: nat, s: nat, section: InSection) returns (k: nat)
    requires c < |out.chunks| && out.chunks[c].piece == InputPiece(f, s) && SectionOf(input.files, f, s) == Some(section)
    requires Finished(out, recipe, input)
    ensures c < |out.chunks| && k == |Inputs(out.chunks[..c])| && Placement(out.chunks[c]) != []
    ensures var list := Contributions(recipe, input.files, out.name);
      k < |list| && list[k] == PlacedAs(recipe, section.name, f, s)
  {
    var list := Contributions(recipe, input.files, out.name);
    FinishedInputs(out, recipe, input);
    InputAt(out.chunks, c);
    ContributionsAre(recipe, input.files, out.name);
    hide Contributions, Finished, Target, PlacedAs, Inputs, Before, Sorted, NoDuplicates, Ordered, StepsRise, ThunksFollow, InputsWhole, SitesDistinct;
    k := |Inputs(out.chunks[..c])|;
    assert Placements(list)[k] == (list[k].step, list[k].file, list[k].section);
    assert list[k] in list;
  }

  lemma ListInOrder(recipe: seq<Step>, files: seq<InFile>, name: string, k: nat, m: nat)
    requires k < m < |Contributions(recipe, files, name)|
    ensures k < m < |Contributions(recipe, files, name)| && NotAfter(files, Contributions(recipe, files, name)[k], Contributions(recipe, files, name)[m])
  {
    ContributionsAre(recipe, files, name);
    hide Contributions, NotAfter, NoDuplicates;
    assert Before(files)(Contributions(recipe, files, name)[k], Contributions(recipe, files, name)[m]);
  }

  /** Of two input chunks of a section, the first is that of the contribution that may not come after the other. */
  lemma {:induction false} ChunksInOrder(out: OutSection, recipe: seq<Step>, input: Input, c: nat, d: nat, f: nat, s: nat, one: InSection, g: nat, t: nat, other: InSection)
    requires c < d < |out.chunks| && out.chunks[c].piece == InputPiece(f, s) && out.chunks[d].piece == InputPiece(g, t)
    requires SectionOf(input.files, f, s) == Some(one) && SectionOf(input.files, g, t) == Some(other)
    requires Finished(out, recipe, input)
    ensures NotAfter(input.files, PlacedAs(recipe, one.name, f, s), PlacedAs(recipe, other.name, g, t))
  {
    hide *;
    var k := ListedAt(out, recipe, input, c, f, s, one);
    var m := ListedAt(out, recipe, input, d, g, t, other);
    InputsNext(out.chunks, c);
    InputsPrefix(out.chunks, c + 1, d);
    assert k < m;
    ListInOrder(recipe, input.files, out.name, k, m);
  }

  lemma PackedLess(l: Layout, i: nat, c: nat, d: nat)
    requires i < |l.sections| && c < d < |l.sections[i].chunks| && InBounds(SectionAt(l, i))
    ensures ChunkRva(l, i, c) + ChunkSize(l, i, c) <= ChunkRva(l, i, d)
  {
    hide StepsRise, Divides;
  }

  /** The output of both, if it is one, and the chunks of the two sections in it. */
  lemma SameOutput(l: Layout, recipe: seq<Step>, trailing: seq<string>, input: Input, f: nat, s: nat, one: InSection, g: nat, t: nat, other: InSection)
    returns (i: nat, c: nat, d: nat)
    requires SectionOf(input.files, f, s) == Some(one) && one.live && one.size > 0
    requires SectionOf(input.files, g, t) == Some(other) && other.live && other.size > 0
    requires Target(recipe, one.name) == Target(recipe, other.name) && Accepted(l, recipe, trailing, input)
    ensures OutputOf(l, f, s) == OutputOf(l, g, t) == Some(i)
    ensures IsWholeInput(l, i, c, f, s, one) && InputRva(l, f, s) == ChunkRva(l, i, c)
    ensures IsWholeInput(l, i, d, g, t, other) && InputRva(l, g, t) == ChunkRva(l, i, d)
    ensures InBounds(SectionAt(l, i)) && Finished(SectionAt(l, i), recipe, input)
  {
    var j: nat;
    hide *;
    i, c := InputPlaced(l, recipe, trailing, input, f, s, one);
    j, d := InputPlaced(l, recipe, trailing, input, g, t, other);
    ChunkSection(l, i, c, f, s, one);
    ChunkSection(l, j, d, g, t, other);
    SameSection(l, recipe, trailing, input, i, j);
    SectionLies(l, recipe, trailing, input, i);
    NothingSaturated(l, recipe, trailing, input, i);
  }

  lemma ChunkSection(l: Layout, i: nat, c: nat, f: nat, s: nat, section: InSection)
    requires IsWholeInput(l, i, c, f, s, section)
    ensures i < |l.sections| && c < |l.sections[i].chunks| && SectionAt(l, i) == l.sections[i]
    ensures l.sections[i].chunks[c].piece == InputPiece(f, s) && ChunkSize(l, i, c) == section.size
  {
  }

  /**
    Two live sections with contents that go to one output are in one, and of
    the two the lower address is that of the one that comes first.
   */
  lemma InOrder(l: Layout, recipe: seq<Step>, trailing: seq<string>, input: Input, f: nat, s: nat, one: InSection, g: nat, t: nat, other: InSection)
    requires SectionOf(input.files, f, s) == Some(one) && one.live && one.size > 0
    requires SectionOf(input.files, g, t) == Some(other) && other.live && other.size > 0
    requires (f != g || s != t) && Target(recipe, one.name) == Target(recipe, other.name) && Accepted(l, recipe, trailing, input)
    ensures OutputOf(l, f, s) == OutputOf(l, g, t) && OutputOf(l, f, s).Some?
    ensures if ComesFirst(recipe, input.files, one.name, f, s, other.name, g, t)
            then InputRva(l, f, s) + one.size <= InputRva(l, g, t) else InputRva(l, g, t) + other.size <= InputRva(l, f, s)
  {
    hide *;
    var i, c, d := SameOutput(l, recipe, trailing, input, f, s, one, g, t, other);
    ChunkSection(l, i, c, f, s, one);
    ChunkSection(l, i, d, g, t, other);
    ShortRecipe(SectionAt(l, i), recipe, input);
    KeyOrder(recipe, input.files, f, s, one, g, t, other);
    KeyOrder(recipe, input.files, g, t, other, f, s, one);
    OneFirst(input.files, PlacedAs(recipe, one.name, f, s), PlacedAs(recipe, other.name, g, t), recipe, one.name, f, s, other.name, g, t);
    if c < d {
      ChunksInOrder(SectionAt(l, i), recipe, input, c, d, f, s, one, g, t, other);
      PackedLess(l, i, c, d);
    } else {
      assert c != d;
      ChunksInOrder(SectionAt(l, i), recipe, input, d, c, g, t, other, f, s, one);
      PackedLess(l, i, d, c);
    }
  }

  lemma OneFirst(files: seq<InFile>, p: Placed, q: Placed, recipe: seq<Step>, a: string, f: nat, s: nat, b: string, g: nat, t: nat)
    requires p == PlacedAs(recipe, a, f, s) && q == PlacedAs(recipe, b, g, t) && (f != g || s != t)
    ensures !(NotAfter(files, p, q) && NotAfter(files, q, p))
  {
    PlacedAsNames(recipe, a, f, s);
    PlacedAsNames(recipe, b, g, t);
    hide NotAfter, PlacedAs;
    NotAfterTotal(files, p, q);
  }

  // ---- The orders the recipe asks for ----

  /** The character after a section name of three to five letters is a `$`. */
  predicate Dollar(text: string)
  {
    (|text| > 4 && text[4] == '$') || (|text| > 5 && text[5] == '$') || (|text| > 6 && text[6] == '$')
  }

  predicate Numbered(text: string)
  {
    |text| == 7 && text[6] == '.' && text[3] == 'o'
  }

  predicate IsTable(text: string)
  {
    |text| > 6 && text[6] == '$'
  }

  /** Prefixes of names with a `$`, and of the numbered `.ctors.` and `.dtors.`, go by name, the `.idata$` tables by file,
      everything else as it comes. */
  predicate SortFits(step: Step)
  {
    match step
    case Place(_, Exact(text), sort) => sort == if IsTable(text) then ByFile else Unsorted
    case Place(_, Prefix(text), sort) => sort == if Dollar(text) || Numbered(text) then ByName else Unsorted
    case _ => true
  }

  predicate AllSortFit(steps: seq<Step>)
  {
    forall u :: 0 <= u < |steps| ==> SortFits(steps[u])
  }

  lemma TextSorts()
    ensures AllSortFit(TextSteps())
  {
  }

  lemma DataSorts()
    ensures AllSortFit(DataSteps())
  {
  }

  lemma ReadOnlySorts()
    ensures AllSortFit(ReadOnlySteps())
  {
  }

  lemma CtorSorts()
    ensures AllSortFit(CtorSteps())
  {
  }

  lemma CrtSorts()
    ensures AllSortFit(CrtSteps())
  {
  }

  lemma OtherSorts()
    ensures AllSortFit(OtherSteps())
  {
  }

  lemma IdataSorts()
    ensures AllSortFit(IdataSteps())
  {
  }

  lemma TlsSorts()
    ensures AllSortFit(TlsSteps())
  {
  }

  /** Every step of the recipe sorts as its pattern says. */
  lemma RecipeSorts(t: nat)
    requires t < |Recipe()|
    ensures SortFits(Recipe()[t])
  {
    assert |Recipe()| == 86 by { StepsAre(0); }
    StepsAre(t);
    TextSorts();
    DataSorts();
    ReadOnlySorts();
    CtorSorts();
    CrtSorts();
    OtherSorts();
    IdataSorts();
    TlsSorts();
    hide Recipe, TextSteps, DataSteps, ReadOnlySteps, CtorSteps, CrtSteps, OtherSteps, IdataSteps, TlsSteps, SortFits;
  }

  /** `.text`, and the names that start with `.text$`. */
  predicate IsText(name: string)
  {
    name == ".text" || (|name| > 5 && name[..5] == ".text" && name[5] == '$')
  }

  lemma TextNames(name: string)
    requires IsText(name)
    ensures var t := if |name| == 5 then 1 else 2;
      && TextSteps()[t].Place? && TextSteps()[t].output == ".text" && Matches(TextSteps()[t].pattern, name)
      && TextSteps()[t].sort == if |name| == 5 then Unsorted else ByName
    ensures forall u :: 0 <= u < (if |name| == 5 then 1 else 2) ==> !Matches(TextSteps()[u].pattern, name)
  {
    assert name[1] == ".text"[1] == 't' && ".init"[1] == 'i';
    if |name| > 5 {
      var text := TextSteps()[2].pattern.text;
      assert |text| == 6 && text[..5] == ".text" && text[5] == '$';
      assert text == text[..5] + [text[5]] && name[..6] == name[..5] + [name[5]];
    }
  }

  /** They go to steps 1 and 2. */
  lemma TextSteps12(name: string)
    requires IsText(name)
    ensures StepFrom(Recipe(), 0, name) == Some(if |name| == 5 then 1 else 2)
    ensures |Recipe()| == 86 && Recipe()[1].Place? && Recipe()[1].sort == Unsorted && Recipe()[2].Place? && Recipe()[2].sort == ByName
    ensures Target(Recipe(), name) == ".text"
  {
    var t := if |name| == 5 then 1 else 2;
    TextNames(name);
    TextModes();
    StepsAre(t);
    StepsAre(1);
    StepsAre(2);
    hide TextSteps, DataSteps, ReadOnlySteps, CtorSteps, CrtSteps, OtherSteps, IdataSteps, TlsSteps, Recipe, Matches, IsText;
    forall u: nat | 0 <= u < t && Recipe()[u].Place?
      ensures !Matches(Recipe()[u].pattern, name)
    {
      StepsAre(u);
    }
    StepIs(t, name);
  }

  lemma TextModes()
    ensures TextSteps()[1].Place? && TextSteps()[1].sort == Unsorted && TextSteps()[2].Place? && TextSteps()[2].sort == ByName
  {
  }

  lemma TextFirst(files: seq<InFile>, a: string, f: nat, s: nat, b: string, g: nat, t: nat)
    requires IsText(a) && IsText(b)
    ensures Target(Recipe(), a) == Target(Recipe(), b)
    ensures ComesFirst(Recipe(), files, a, f, s, b, g, t) <==> ThenPlace(a, b, f, s, g, t)
  {
    TextSteps12(a);
    TextSteps12(b);
    hide Recipe, StepFrom, TextSteps;
    ShortFirst(a, b);
  }

  /** `.text` is less than every other of the names. */
  lemma ShortFirst(a: string, b: string)
    requires IsText(a) && IsText(b)
    ensures |a| == 5 && |b| > 5 ==> NameLess(a, b)
    ensures |a| > 5 && |b| == 5 ==> !NameLess(a, b) && a != b
    ensures |a| == 5 && |b| == 5 ==> a == b && !NameLess(a, b)
  {
    if |a| == 5 && |b| > 5 { assert LessAt(a, b, 5); }
    if |a| > 5 && |b| == 5 { assert LessAt(b, a, 5); }
    NotBoth(a, b);
  }

  /** The sections of `.text` and its `$` groups lie in the order of their names. */
  lemma TextOrdered(l: Layout, input: Input, f: nat, s: nat, one: InSection, g: nat, t: nat, other: InSection)
    requires SectionOf(input.files, f, s) == Some(one) && one.live && one.size > 0 && IsText(one.name)
    requires SectionOf(input.files, g, t) == Some(other) && other.live && other.size > 0 && IsText(other.name)
    requires (f != g || s != t) && Laid(l, input)
    ensures OutputOf(l, f, s) == OutputOf(l, g, t)
    ensures if ThenPlace(one.name, other.name, f, s, g, t)
            then InputRva(l, f, s) + one.size <= InputRva(l, g, t) else InputRva(l, g, t) + other.size <= InputRva(l, f, s)
  {
    hide Recipe, Accepted, ThenPlace, ComesFirst, IsText, Target;
    TextFirst(input.files, one.name, f, s, other.name, g, t);
    InOrder(l, Recipe(), Trailing(), input, f, s, one, g, t, other);
  }

  lemma CrtPlaces(c: char, t: nat)
    requires c in "CILPTD" && t == CrtGroup(c)
    ensures 42 <= t < 62 && CrtSteps()[t - 42].Place? && CrtSteps()[t - 42].sort == ByName && CrtSteps()[t - 42].output == ".rdata"
  {
  }

  lemma CrtPlace(c: char)
    requires c in "CILPTD"
    ensures var t := CrtGroup(c);
      |Recipe()| == 86 && t < 86 && Recipe()[t].Place? && Recipe()[t].sort == ByName && Recipe()[t].output == ".rdata"
  {
    CrtPlaces(c, CrtGroup(c));
    StepsAre(CrtGroup(c));
    hide Recipe, CrtGroup, TextSteps, DataSteps, ReadOnlySteps, CtorSteps, CrtSteps, OtherSteps, IdataSteps, TlsSteps;
  }

  /** By group, in the order C, I, L, P, T, D; in a group by name. */
  ghost predicate CrtFirst(a: string, f: nat, s: nat, b: string, g: nat, t: nat)
  {
    IsCrtName(a) && IsCrtName(b) &&
      (CrtGroup(a[6]) < CrtGroup(b[6]) || (CrtGroup(a[6]) == CrtGroup(b[6]) && ThenPlace(a, b, f, s, g, t)))
  }

  lemma CrtComesFirst(files: seq<InFile>, a: string, f: nat, s: nat, b: string, g: nat, t: nat)
    requires IsCrtName(a) && IsCrtName(b)
    ensures Target(Recipe(), a) == Target(Recipe(), b)
    ensures ComesFirst(Recipe(), files, a, f, s, b, g, t) <==> CrtFirst(a, f, s, b, g, t)
  {
    CrtStep(a);
    CrtStep(b);
    CrtPlace(a[6]);
    CrtPlace(b[6]);
    hide Recipe, StepFrom, CrtGroup, ThenPlace;
  }

  /** The C runtime's sections lie in the order of their groups, and in a group in the order of their names. */
  lemma CrtOrdered(l: Layout, input: Input, f: nat, s: nat, one: InSection, g: nat, t: nat, other: InSection)
    requires SectionOf(input.files, f, s) == Some(one) && one.live && one.size > 0 && IsCrtName(one.name)
    requires SectionOf(input.files, g, t) == Some(other) && other.live && other.size > 0 && IsCrtName(other.name)
    requires (f != g || s != t) && Laid(l, input)
    ensures OutputOf(l, f, s) == OutputOf(l, g, t)
    ensures if CrtFirst(one.name, f, s, other.name, g, t)
            then InputRva(l, f, s) + one.size <= InputRva(l, g, t) else InputRva(l, g, t) + other.size <= InputRva(l, f, s)
  {
    hide Recipe, Accepted, ComesFirst, CrtFirst, IsCrtName, Target;
    CrtComesFirst(input.files, one.name, f, s, other.name, g, t);
    InOrder(l, Recipe(), Trailing(), input, f, s, one, g, t, other);
  }

  lemma IatSorts()
    ensures 76 < |Recipe()| && Recipe()[76].Place? && Recipe()[76].sort == ByFile
  {
    IdataFive();
    StepsAre(76);
    hide Recipe, TextSteps, DataSteps, ReadOnlySteps, CtorSteps, CrtSteps, OtherSteps, IdataSteps, TlsSteps;
  }

  /** The entries of the import address table lie in the order of the names of their files. */
  lemma IatOrdered(l: Layout, input: Input, f: nat, s: nat, one: InSection, g: nat, t: nat, other: InSection)
    requires SectionOf(input.files, f, s) == Some(one) && one.live && one.size > 0 && one.name == ".idata$5"
    requires SectionOf(input.files, g, t) == Some(other) && other.live && other.size > 0 && other.name == ".idata$5"
    requires (f != g || s != t) && Laid(l, input)
    ensures OutputOf(l, f, s) == OutputOf(l, g, t)
    ensures if ThenPlace(FileName(input.files, f), FileName(input.files, g), f, s, g, t)
            then InputRva(l, f, s) + one.size <= InputRva(l, g, t) else InputRva(l, g, t) + other.size <= InputRva(l, f, s)
  {
    IatSorts();
    IatStep();
    hide Recipe, StepFrom, Accepted, ThenPlace, Target;
    InOrder(l, Recipe(), Trailing(), input, f, s, one, g, t, other);
  }
}
