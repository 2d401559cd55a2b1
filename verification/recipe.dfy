/** The recipe of the linker and the sections that close the image. */
module LayoutRecipe {
  import opened Results
  import opened LayoutModel
  import opened LayoutBuild

  /** The recipe, in output order. */
  function Recipe(): seq<Step>
  {
    TextSteps() + DataSteps() + RdataSteps() + OtherSteps() + IdataSteps() + TlsSteps()
  }

  function Trailing(): seq<string>
  {
    [".rsrc", ".reloc"]
  }

  function TextSteps(): (r: seq<Step>)
    ensures |r| == 12
  {
    [
      Place(".text", Exact(".init"), Unsorted),
      Place(".text", Exact(".text"), Unsorted),
      Place(".text", Prefix(".text$"), ByName),
      Place(".text", Prefix(".text."), Unsorted),
      Place(".text", Prefix(".gnu.linkonce.t."), Unsorted),
      Place(".text", Exact(".glue_7t"), Unsorted),
      Place(".text", Exact(".glue_7"), Unsorted),
      AlignWide(".text", 8),
      Place(".text", Exact(".fini"), Unsorted),
      Place(".text", Exact(".gcc_exc"), Unsorted),
      Place(".text", Exact(".gcc_except_table"), Unsorted),
      Insert(".text", Etext)
    ]
  }

  function DataSteps(): (r: seq<Step>)
    ensures |r| == 9
  {
    [
      Insert(".data", DataStart),
      Place(".data", Exact(".data"), Unsorted),
      Place(".data", Exact(".data2"), Unsorted),
      Place(".data", Prefix(".data$"), ByName),
      Place(".data", Prefix(".data."), Unsorted),
      Place(".data", Prefix(".gnu.linkonce.d."), Unsorted),
      Place(".data", Exact(".jcr"), Unsorted),
      Insert(".data", DataEnd),
      Place(".data", Exact(".data_cygwin_nocopy"), Unsorted)
    ]
  }

  function RdataSteps(): seq<Step>
  {
    ReadOnlySteps() + CtorSteps() + CrtSteps()
  }

  function ReadOnlySteps(): (r: seq<Step>)
    ensures |r| == 10
  {
    [
      Place(".rdata", Exact(".rdata"), Unsorted),
      Place(".rdata", Prefix(".rdata$"), ByName),
      Place(".rdata", Prefix(".rdata."), Unsorted),
      Place(".rdata", Exact(".rodata"), Unsorted),
      Place(".rdata", Prefix(".rodata."), Unsorted),
      Place(".rdata", Prefix(".gnu.linkonce.r."), Unsorted),
      Align(".rdata", 4),
      Insert(".rdata", PseudoStart),
      Place(".rdata", Exact(".rdata_runtime_pseudo_reloc"), Unsorted),
      Insert(".rdata", PseudoEnd)
    ]
  }

  function CtorSteps(): (r: seq<Step>)
    ensures |r| == 11
  {
    [
      AlignWide(".rdata", 8),
      Insert(".rdata", CtorHead),
      Place(".rdata", Exact(".ctors"), Unsorted),
      Place(".rdata", Exact(".ctor"), Unsorted),
      Place(".rdata", Prefix(".ctors."), ByName),
      Insert(".rdata", CtorTail),
      Insert(".rdata", DtorHead),
      Place(".rdata", Exact(".dtors"), Unsorted),
      Place(".rdata", Exact(".dtor"), Unsorted),
      Place(".rdata", Prefix(".dtors."), ByName),
      Insert(".rdata", DtorTail)
    ]
  }

  function CrtSteps(): (r: seq<Step>)
    ensures |r| == 20
  {
    [
      Insert(".rdata", CrtXcStart),
      Place(".rdata", Prefix(".CRT$XC"), ByName),
      Insert(".rdata", CrtXcEnd),
      Insert(".rdata", CrtXiStart),
      Place(".rdata", Prefix(".CRT$XI"), ByName),
      Insert(".rdata", CrtXiEnd),
      Insert(".rdata", CrtXlStart),
      Place(".rdata", Prefix(".CRT$XL"), ByName),
      Insert(".rdata", CrtXpStart),
      Place(".rdata", Prefix(".CRT$XP"), ByName),
      Insert(".rdata", CrtXpEnd),
      Insert(".rdata", CrtXtStart),
      Place(".rdata", Prefix(".CRT$XT"), ByName),
      Insert(".rdata", CrtXtEnd),
      Insert(".rdata", CrtXdStart),
      Place(".rdata", Prefix(".CRT$XD"), ByName),
      Insert(".rdata", CrtXdEnd),
      Place(".rdata", Prefix(".CRT$"), ByName),
      Align(".rdata", 4),
      Insert(".rdata", SafeSehTable)
    ]
  }

  function OtherSteps(): (r: seq<Step>)
    ensures |r| == 8
  {
    [
      Place(".eh_frame", Prefix(".eh_frame"), Unsorted),
      Place(".pdata", Prefix(".pdata"), Unsorted),
      Place(".xdata", Prefix(".xdata"), Unsorted),
      Place(".bss", Exact(".bss"), Unsorted),
      Place(".bss", Prefix(".bss$"), ByName),
      Place(".bss", Prefix(".bss."), Unsorted),
      Place(".bss", Prefix(".gnu.linkonce.b."), Unsorted),
      Place(".edata", Exact(".edata"), Unsorted)
    ]
  }

  function IdataSteps(): (r: seq<Step>)
    ensures |r| == 10
  {
    [
      Place(".idata", Exact(".idata$2"), ByFile),
      Place(".idata", Exact(".idata$3"), ByFile),
      Insert(".idata", IdataNull),
      AlignWide(".idata", 8),
      Place(".idata", Exact(".idata$4"), ByFile),
      Insert(".idata", IatStart),
      Place(".idata", Exact(".idata$5"), ByFile),
      Insert(".idata", IatEnd),
      Place(".idata", Exact(".idata$6"), ByFile),
      Place(".idata", Exact(".idata$7"), ByFile)
    ]
  }

  function TlsSteps(): (r: seq<Step>)
    ensures |r| == 6
  {
    [
      Insert(".tls", TlsStart),
      Place(".tls", Exact(".tls$AAA"), Unsorted),
      Place(".tls", Exact(".tls"), Unsorted),
      Place(".tls", Exact(".tls$"), Unsorted),
      Place(".tls", Prefix(".tls$"), ByName),
      Insert(".tls", TlsEnd)
    ]
  }

  // ---- Facts about the recipe ----

  /** The step that inserts a marker. */
  function MarkerStep(marker: Marker): nat
  {
    match marker
    case Etext => 11
    case DataStart => 12
    case DataEnd => 19
    case PseudoStart => 28
    case PseudoEnd => 30
    case CtorHead => 32
    case CtorTail => 36
    case DtorHead => 37
    case DtorTail => 41
    case CrtXcStart => 42
    case CrtXcEnd => 44
    case CrtXiStart => 45
    case CrtXiEnd => 47
    case CrtXlStart => 48
    case CrtXpStart => 50
    case CrtXpEnd => 52
    case CrtXtStart => 53
    case CrtXtEnd => 55
    case CrtXdStart => 56
    case CrtXdEnd => 58
    case SafeSehTable => 61
    case IdataNull => 72
    case IatStart => 75
    case IatEnd => 77
    case TlsStart => 80
    case TlsEnd => 85
  }

  /** Step `t` of the recipe, found in its group. */
  lemma StepsAre(t: nat)
    requires t < 86
    ensures |Recipe()| == 86
    ensures Recipe()[t] ==
      if t < 12 then TextSteps()[t] else if t < 21 then DataSteps()[t - 12]
      else if t < 31 then ReadOnlySteps()[t - 21] else if t < 42 then CtorSteps()[t - 31] else if t < 62 then CrtSteps()[t - 42]
      else if t < 70 then OtherSteps()[t - 62] else if t < 80 then IdataSteps()[t - 70] else TlsSteps()[t - 80]
  {
    hide TextSteps, DataSteps, ReadOnlySteps, CtorSteps, CrtSteps, OtherSteps, IdataSteps, TlsSteps;
    assert |RdataSteps()| == 41;
  }

  predicate MarkersAt(steps: seq<Step>, from: nat)
  {
    forall u :: 0 <= u < |steps| && steps[u].Insert? ==> MarkerStep(steps[u].marker) == from + u
  }

  lemma TextMarkers()
    ensures MarkersAt(TextSteps(), 0)
  {
  }

  lemma DataMarkers()
    ensures MarkersAt(DataSteps(), 12)
  {
  }

  lemma ReadOnlyMarkers()
    ensures MarkersAt(ReadOnlySteps(), 21)
  {
  }

  lemma CtorMarkers()
    ensures MarkersAt(CtorSteps(), 31)
  {
  }

  lemma OtherMarkers()
    ensures MarkersAt(OtherSteps(), 62)
  {
  }

  lemma IdataMarkers()
    ensures MarkersAt(IdataSteps(), 70)
  {
  }

  lemma TlsMarkers()
    ensures MarkersAt(TlsSteps(), 80)
  {
  }

  predicate MarkerAt(steps: seq<Step>, from: nat, u: nat)
  {
    u < |steps| && steps[u].Insert? ==> MarkerStep(steps[u].marker) == from + u
  }

  lemma CrtMarkersFirst(u: nat)
    requires u < 10
    ensures MarkerAt(CrtSteps(), 42, u)
  {
  }

  lemma CrtMarkersLast(u: nat)
    requires 10 <= u < 20
    ensures MarkerAt(CrtSteps(), 42, u)
  {
  }

  lemma CrtMarkers()
    ensures MarkersAt(CrtSteps(), 42)
  {
    hide CrtSteps, MarkerStep;
    forall u | 0 <= u < |CrtSteps()| && CrtSteps()[u].Insert?
      ensures MarkerStep(CrtSteps()[u].marker) == 42 + u
    {
      if u < 10 { CrtMarkersFirst(u); } else { CrtMarkersLast(u); }
    }
  }

  /** Every marker is inserted by one step only. */
  lemma MarkerOnce(t: nat)
    requires t < |Recipe()| && Recipe()[t].Insert?
    ensures MarkerStep(Recipe()[t].marker) == t
  {
    var n := |Recipe()|;
    assert n == 86 by { StepsAre(0); }
    StepsAre(t);
    TextMarkers();
    DataMarkers();
    ReadOnlyMarkers();
    CtorMarkers();
    CrtMarkers();
    OtherMarkers();
    IdataMarkers();
    TlsMarkers();
    hide Recipe, TextSteps, DataSteps, ReadOnlySteps, CtorSteps, CrtSteps, OtherSteps, IdataSteps, TlsSteps, MarkerStep;
  }

  /** The output section a marker is in. */
  function MarkerOutput(marker: Marker): string
  {
    match marker
    case Etext => ".text"
    case DataStart => ".data"
    case DataEnd => ".data"
    case IdataNull => ".idata"
    case IatStart => ".idata"
    case IatEnd => ".idata"
    case TlsStart => ".tls"
    case TlsEnd => ".tls"
    case _ => ".rdata"
  }

  predicate InsertIs(marker: Marker)
  {
    MarkerStep(marker) < |Recipe()| && Recipe()[MarkerStep(marker)] == Insert(MarkerOutput(marker), marker)
  }

  lemma EarlyInserted(marker: Marker)
    requires MarkerStep(marker) < 31
    ensures InsertIs(marker)
  {
    StepsAre(MarkerStep(marker));
    hide Recipe, CtorSteps, CrtSteps, OtherSteps, IdataSteps, TlsSteps;
  }

  lemma CtorInserted(marker: Marker)
    requires 31 <= MarkerStep(marker) < 42
    ensures InsertIs(marker)
  {
    StepsAre(MarkerStep(marker));
    hide Recipe, TextSteps, DataSteps, ReadOnlySteps, CrtSteps, OtherSteps, IdataSteps, TlsSteps;
  }

  lemma CrtInserted(marker: Marker)
    requires 42 <= MarkerStep(marker) < 62
    ensures InsertIs(marker)
  {
    StepsAre(MarkerStep(marker));
    hide Recipe, TextSteps, DataSteps, ReadOnlySteps, CtorSteps, OtherSteps, IdataSteps, TlsSteps;
  }

  lemma LateInserted(marker: Marker)
    requires 62 <= MarkerStep(marker)
    ensures InsertIs(marker)
  {
    StepsAre(MarkerStep(marker));
    hide Recipe, TextSteps, DataSteps, ReadOnlySteps, CtorSteps, CrtSteps, OtherSteps;
  }

  /** And every marker is. */
  lemma MarkerInserted(marker: Marker)
    ensures InsertIs(marker)
  {
    hide *;
    var t := MarkerStep(marker);
    if t < 31 { EarlyInserted(marker); } else if t < 42 { CtorInserted(marker); } else if t < 62 { CrtInserted(marker); } else { LateInserted(marker); }
  }

  // ---- Which step a name goes to ----

  predicate Unmatched(steps: seq<Step>, name: string)
  {
    forall u :: 0 <= u < |steps| && steps[u].Place? ==> !Matches(steps[u].pattern, name)
  }

  /** The patterns all differ from the name in its character `i`. */
  predicate DifferAt(steps: seq<Step>, i: nat, c: char)
  {
    forall u :: 0 <= u < |steps| && steps[u].Place? ==> |steps[u].pattern.text| > i && steps[u].pattern.text[i] != c
  }

  lemma DifferentUnmatched(steps: seq<Step>, name: string, i: nat)
    requires i < |name| && DifferAt(steps, i, name[i])
    ensures Unmatched(steps, name)
  {
  }

  lemma TextDiffers()
    ensures DifferAt(TextSteps(), 2, 'd') && DifferAt(TextSteps(), 1, 'C')
  {
  }

  lemma DataDiffers()
    ensures DifferAt(DataSteps(), 1, 'i') && DifferAt(DataSteps(), 1, 'C')
  {
  }

  lemma ReadOnlyDiffers()
    ensures DifferAt(ReadOnlySteps(), 1, 'i') && DifferAt(ReadOnlySteps(), 1, 'C')
  {
  }

  lemma CtorDiffers()
    ensures DifferAt(CtorSteps(), 1, 'i') && DifferAt(CtorSteps(), 1, 'C')
  {
  }

  lemma CrtDiffers()
    ensures DifferAt(CrtSteps(), 1, 'i')
  {
  }

  lemma OtherDiffers()
    ensures DifferAt(OtherSteps(), 1, 'i')
  {
  }

  lemma StepIs(t: nat, name: string)
    requires t < |Recipe()| && Recipe()[t].Place? && Matches(Recipe()[t].pattern, name)
    requires forall u :: 0 <= u < t && Recipe()[u].Place? ==> !Matches(Recipe()[u].pattern, name)
    ensures StepFrom(Recipe(), 0, name) == Some(t)
  {
    hide Recipe, Matches;
  }

  lemma IdataFive()
    ensures IdataSteps()[6] == Place(".idata", Exact(".idata$5"), ByFile)
    ensures forall u :: 0 <= u < 6 && IdataSteps()[u].Place? ==> !Matches(IdataSteps()[u].pattern, ".idata$5")
  {
    assert ".idata$2"[7] != ".idata$5"[7] && ".idata$3"[7] != ".idata$5"[7] && ".idata$4"[7] != ".idata$5"[7];
  }

  /** The import address table entries go to the step between the two table markers. */
  lemma IatStep()
    ensures StepFrom(Recipe(), 0, ".idata$5") == Some(76)
  {
    var name := ".idata$5";
    assert name[1] == 'i' && name[2] == 'd';
    TextDiffers();
    DataDiffers();
    ReadOnlyDiffers();
    CtorDiffers();
    CrtDiffers();
    OtherDiffers();
    IdataFive();
    StepsAre(76);
    hide TextSteps, DataSteps, ReadOnlySteps, CtorSteps, CrtSteps, OtherSteps, IdataSteps, TlsSteps, Recipe;
    DifferentUnmatched(TextSteps(), name, 2);
    DifferentUnmatched(DataSteps(), name, 1);
    DifferentUnmatched(ReadOnlySteps(), name, 1);
    DifferentUnmatched(CtorSteps(), name, 1);
    DifferentUnmatched(CrtSteps(), name, 1);
    DifferentUnmatched(OtherSteps(), name, 1);
    hide DifferAt, Matches;
    forall u: nat | 0 <= u < 76 && Recipe()[u].Place?
      ensures !Matches(Recipe()[u].pattern, name)
    {
      StepsAre(u);
    }
    assert Matches(Recipe()[76].pattern, name) by { NameMatches(name); }
    StepIs(76, name);
  }

  lemma NameMatches(name: string)
    ensures Matches(Exact(name), name)
  {
  }

  lemma OtherBss()
    ensures OtherSteps()[3] == Place(".bss", Exact(".bss"), Unsorted)
    ensures forall u :: 0 <= u < 3 ==> !Matches(OtherSteps()[u].pattern, ".bss")
  {
    assert ".eh_frame"[1] != ".bss"[1] && ".pdata"[1] != ".bss"[1] && ".xdata"[1] != ".bss"[1];
  }

  lemma NoneBss1()
    ensures DifferAt(TextSteps(), 1, 'b') && DifferAt(DataSteps(), 1, 'b')
  {
  }

  lemma NoneBss2()
    ensures DifferAt(ReadOnlySteps(), 1, 'b') && DifferAt(CtorSteps(), 1, 'b')
  {
  }

  lemma NoneBss3()
    ensures DifferAt(CrtSteps(), 1, 'b')
  {
  }

  lemma BssStep()
    ensures |Recipe()| == 86 && StepFrom(Recipe(), 0, ".bss") == Some(65) && Recipe()[65] == Place(".bss", Exact(".bss"), Unsorted)
  {
    var name := ".bss";
    assert name[1] == 'b';
    NoneBss1();
    NoneBss2();
    NoneBss3();
    OtherBss();
    StepsAre(65);
    hide TextSteps, DataSteps, ReadOnlySteps, CtorSteps, CrtSteps, OtherSteps, IdataSteps, TlsSteps, Recipe;
    DifferentUnmatched(TextSteps(), name, 1);
    DifferentUnmatched(DataSteps(), name, 1);
    DifferentUnmatched(ReadOnlySteps(), name, 1);
    DifferentUnmatched(CtorSteps(), name, 1);
    DifferentUnmatched(CrtSteps(), name, 1);
    hide DifferAt, Matches;
    forall u: nat | 0 <= u < 65 && Recipe()[u].Place?
      ensures !Matches(Recipe()[u].pattern, name)
    {
      StepsAre(u);
    }
    assert Matches(Recipe()[65].pattern, name) by { NameMatches(name); }
    StepIs(65, name);
  }

  /** The step of a `.CRT$X?` group. */
  function CrtGroup(c: char): nat
  {
    if c == 'C' then 43 else if c == 'I' then 46 else if c == 'L' then 49
    else if c == 'P' then 51 else if c == 'T' then 54 else if c == 'D' then 57 else 59
  }

  predicate IsCrtName(name: string)
  {
    |name| >= 7 && name[..6] == ".CRT$X" && name[6] in "CILPTD"
  }

  lemma CrtSteps1(name: string)
    requires IsCrtName(name)
    ensures var t := CrtGroup(name[6]) - 42;
      && CrtSteps()[t].Place? && CrtSteps()[t].output == ".rdata" && Matches(CrtSteps()[t].pattern, name)
  {
    assert name[0] == ".CRT$X"[0] && name[1] == ".CRT$X"[1] && name[2] == ".CRT$X"[2];
    assert name[3] == ".CRT$X"[3] && name[4] == ".CRT$X"[4] && name[5] == ".CRT$X"[5];
    var t := CrtGroup(name[6]) - 42;
    var text := CrtSteps()[t].pattern.text;
    assert |text| == 7 && text[..6] == ".CRT$X" && text[6] == name[6];
    assert text == text[..6] + [text[6]] && name[..7] == name[..6] + [name[6]];
  }

  lemma CrtSteps2(name: string)
    requires IsCrtName(name)
    ensures forall u :: 0 <= u < CrtGroup(name[6]) - 42 && CrtSteps()[u].Place? ==> !Matches(CrtSteps()[u].pattern, name)
  {
    forall u | 0 <= u < CrtGroup(name[6]) - 42 && CrtSteps()[u].Place?
      ensures !Matches(CrtSteps()[u].pattern, name)
    {
      assert |CrtSteps()[u].pattern.text| == 7 && CrtSteps()[u].pattern.text[6] != name[6];
    }
  }

  /** The sections of a C runtime group go to the step between the group's markers. */
  lemma CrtStep(name: string)
    requires IsCrtName(name)
    ensures StepFrom(Recipe(), 0, name) == Some(CrtGroup(name[6]))
  {
    assert name[1] == ".CRT$X"[1] == 'C';
    TextDiffers();
    DataDiffers();
    ReadOnlyDiffers();
    CtorDiffers();
    CrtSteps1(name);
    CrtSteps2(name);
    var t := CrtGroup(name[6]);
    StepsAre(t);
    hide TextSteps, DataSteps, ReadOnlySteps, CtorSteps, CrtSteps, OtherSteps, IdataSteps, TlsSteps, Recipe;
    DifferentUnmatched(TextSteps(), name, 1);
    DifferentUnmatched(DataSteps(), name, 1);
    DifferentUnmatched(ReadOnlySteps(), name, 1);
    DifferentUnmatched(CtorSteps(), name, 1);
    hide DifferAt, Matches;
    forall u: nat | 0 <= u < t && Recipe()[u].Place?
      ensures !Matches(Recipe()[u].pattern, name)
    {
      StepsAre(u);
    }
    StepIs(t, name);
  }
}
