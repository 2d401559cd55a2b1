/** The input decides the image: two accepted layouts of it have the same sections. */
module LayoutUnique {
  import opened Results
  import opened Sorting
  import opened ThunkPlan
  import opened LayoutModel
  import opened LayoutBuild
  import opened LayoutAssign
  import opened LayoutFinish
  import opened LayoutAddress
  import opened LayoutRecord
  import opened LayoutPlan

  /** A name kept in one layout is kept in the other. */
  lemma NameKept(a: seq<OutSection>, b: seq<OutSection>, wanted: seq<Wanted>, recipe: seq<Step>, input: Input, name: string)
    requires SectionsRight(a, recipe, input) && DroppedRight(a, wanted, recipe, input) && DroppedRight(b, wanted, recipe, input)
    requires name in Names(a)
    ensures name in Names(b)
  {
    KeptNotEmpty(a, recipe, input, name);
    hide SectionsRight, EmptyOne, FirstSeen;
  }

  lemma KeptNotEmpty(sections: seq<OutSection>, recipe: seq<Step>, input: Input, name: string)
    requires SectionsRight(sections, recipe, input) && name in Names(sections)
    ensures !EmptyOne(name, recipe, input)
  {
    hide FinalSection;
    var i :| 0 <= i < |sections| && Names(sections)[i] == name;
    assert Finished(sections[i], recipe, input);
  }

  function Earlier(wanted: seq<Wanted>): (string, string) -> bool
  {
    (a, b) => NameBefore(wanted, a, b)
  }

  lemma SameNames(a: seq<OutSection>, b: seq<OutSection>, recipe: seq<Step>, trailing: seq<string>, input: Input)
    requires Given(a, recipe, trailing, input) && Given(b, recipe, trailing, input)
    ensures Names(a) == Names(b)
  {
    var wanted := AllWanted(recipe, trailing, input);
    GivenRight(a, recipe, trailing, input);
    GivenRight(b, recipe, trailing, input);
    hide *;
    forall name
      ensures name in Names(a) <==> name in Names(b)
    {
      if name in Names(a) { NameKept(a, b, wanted, recipe, input, name); }
      if name in Names(b) { NameKept(b, a, wanted, recipe, input, name); }
    }
    StrictlySortedUnique(Names(a), Names(b), Earlier(wanted));
  }

  lemma SameSections(a: seq<OutSection>, b: seq<OutSection>, recipe: seq<Step>, trailing: seq<string>, input: Input)
    requires Given(a, recipe, trailing, input) && Given(b, recipe, trailing, input)
    ensures AllSamePlaced(a, b)
  {
    SameNames(a, b, recipe, trailing, input);
    GivenRight(a, recipe, trailing, input);
    GivenRight(b, recipe, trailing, input);
    hide FinalSection, NoDuplicates, Given, ImageOrdered, DroppedRight;
    assert |Names(a)| == |Names(b)|;
    forall i | 0 <= i < |a|
      ensures SamePlaced(a[i], b[i])
    {
      assert Names(a)[i] == Names(b)[i];
      assert Finished(a[i], recipe, input) && Finished(b[i], recipe, input);
    }
  }

  lemma SameAddressed(a: seq<OutSection>, b: seq<OutSection>, headers: nat, fileAlignment: nat, sectionAlignment: nat)
    requires AllSamePlaced(a, b)
    requires AllAddressed(a, a, |a|, headers, fileAlignment, sectionAlignment)
    requires AllAddressed(b, b, |b|, headers, fileAlignment, sectionAlignment)
    ensures a == b
  {
    hide Fits;
    forall i | 0 <= i < |a|
      ensures a[i] == b[i]
    {
      AddressesSame(a, b, i, headers, fileAlignment, sectionAlignment);
      hide RvaAt, FileAt;
      assert a[i] == Addressed(a, i, headers, fileAlignment, sectionAlignment);
      assert b[i] == Addressed(b, i, headers, fileAlignment, sectionAlignment);
    }
  }

  lemma SameAddresses(l: Layout, m: Layout, input: Input)
    requires AddressesRight(l, input) && AddressesRight(m, input) && AllSamePlaced(l.sections, m.sections)
    ensures l.sections == m.sections
    ensures l.sizeOfHeaders == m.sizeOfHeaders && l.sizeOfImage == m.sizeOfImage && l.fileSize == m.fileSize
  {
    hide AllAddressed, SamePlaced, RvaAt, FileAt, AlignUp64, AllFit;
    SameAddressed(l.sections, m.sections, l.sizeOfHeaders, input.fileAlignment, input.sectionAlignment);
  }

  // ---- What is recorded of the inputs ----

  /** The output section of an input section is decided by the names that are left. */
  lemma SameSlot(sections: seq<OutSection>, recipe: seq<Step>, section: InSection, a: Option<nat>, b: Option<nat>, block: nat)
    requires OutputRight(sections, recipe, section, a, block) && OutputRight(sections, recipe, section, b, block)
    requires NoDuplicates(Names(sections))
    ensures a == b
  {
    hide Target, NoDuplicates;
    if a.Some? { assert Names(sections)[a.value] in Names(sections); }
    if b.Some? { assert Names(sections)[b.value] in Names(sections); }
    hide Names;
    if a.Some? && b.Some? { NamedOnce(sections, a.value, b.value); }
  }

  lemma SameOutputs(sections: seq<OutSection>, a: seq<seq<Option<nat>>>, b: seq<seq<Option<nat>>>, recipe: seq<Step>, input: Input)
    requires OutputsRight(sections, a, recipe, input) && OutputsRight(sections, b, recipe, input)
    requires NoDuplicates(Names(sections))
    ensures a == b
  {
    hide FileRight, NoDuplicates, Names;
    forall f | 0 <= f < |input.files|
      ensures a[f] == b[f]
    {
      if input.files[f].sections.Some? {
        SameSlots(sections, recipe, f, input.files[f].sections.value, a[f], b[f], input.blocks);
      }
    }
  }

  lemma SameSlots(sections: seq<OutSection>, recipe: seq<Step>, f: nat, list: seq<InSection>, a: seq<Option<nat>>, b: seq<Option<nat>>, blocks: Blocks)
    requires FileRight(sections, recipe, f, list, a, blocks) && FileRight(sections, recipe, f, list, b, blocks)
    requires NoDuplicates(Names(sections))
    ensures a == b
  {
    hide OutputRight, NoDuplicates, BlockSize;
    forall s | 0 <= s < |list|
      ensures a[s] == b[s]
    {
      SameSlot(sections, recipe, list[s], a[s], b[s], BlockSize(blocks, (f, s + 1)));
    }
  }

  lemma SameRvas(sections: seq<OutSection>, outputs: seq<seq<Option<nat>>>, a: seq<seq<nat>>, b: seq<seq<nat>>)
    requires RvasOf(sections, outputs, a) && RvasOf(sections, outputs, b)
    ensures a == b
  {
    hide RvaOf;
    forall f | 0 <= f < |outputs|
      ensures a[f] == b[f]
    {
    }
  }

  lemma SameThunks(sections: seq<OutSection>, a: map<Site, nat>, b: map<Site, nat>)
    requires AllBlocksRecorded(sections, a) && AllBlocksRecorded(sections, b)
    ensures a == b
  {
    hide BlockRva;
    forall site
      ensures site in a <==> site in b
      ensures site in a ==> a[site] == b[site]
    {
      if site in a { SameThunk(sections, a, b, site); }
      if site in b { SameThunk(sections, b, a, site); }
    }
  }

  lemma SameThunk(sections: seq<OutSection>, a: map<Site, nat>, b: map<Site, nat>, site: Site)
    requires site in a && AllBlocksRecorded(sections, a) && AllBlocksRecorded(sections, b)
    ensures site in b && site in a && a[site] == b[site]
  {
    var i: nat, c: nat :| BlockAt(sections, i, c, site);
    assert a[site] == BlockRva(sections, i, c) && b[site] == BlockRva(sections, i, c);
  }

  lemma SameRecords(l: Layout, m: Layout, recipe: seq<Step>, input: Input)
    requires RecordsRight(l, recipe, input) && RecordsRight(m, recipe, input) && l.sections == m.sections
    requires NoDuplicates(Names(l.sections))
    ensures l.outputs == m.outputs && l.rvas == m.rvas && l.thunkRvas == m.thunkRvas && l.thunks == m.thunks
    ensures forall x :: x in l.markers <==> x in m.markers
  {
    hide OutputsRight, RvasOf, AllBlocksRecorded, NoDuplicates, Names, MarkedAs;
    SameOutputs(l.sections, l.outputs, m.outputs, recipe, input);
    SameRvas(l.sections, l.outputs, l.rvas, m.rvas);
    SameThunks(l.sections, l.thunkRvas, m.thunkRvas);
  }

  lemma AcceptedNames(l: Layout, recipe: seq<Step>, trailing: seq<string>, input: Input)
    requires Accepted(l, recipe, trailing, input)
    ensures Given(l.sections, recipe, trailing, input) && AddressesRight(l, input) && RecordsRight(l, recipe, input)
    ensures NoDuplicates(Names(l.sections)) && AllFit(l.sections, input.pe32, input.fileAlignment, input.sectionAlignment)
  {
    GivenRight(l.sections, recipe, trailing, input);
    hide Given, RecordsRight, AllFit, NoDuplicates, Names;
  }

  /** Two accepted layouts of an input are the same, but for the order in which markers are listed. */
  lemma LayoutDetermined(l: Layout, m: Layout, recipe: seq<Step>, trailing: seq<string>, input: Input)
    requires Accepted(l, recipe, trailing, input) && Accepted(m, recipe, trailing, input)
    ensures l == m.(markers := l.markers)
    ensures forall x :: x in l.markers <==> x in m.markers
  {
    AcceptedNames(l, recipe, trailing, input);
    AcceptedNames(m, recipe, trailing, input);
    hide *;
    SameSections(l.sections, m.sections, recipe, trailing, input);
    SameAddresses(l, m, input);
    SameRecords(l, m, recipe, input);
  }

  /** An input is either accepted or too big, never both. */
  lemma AcceptedOrTooBig(l: Layout, given: seq<OutSection>, recipe: seq<Step>, trailing: seq<string>, input: Input)
    requires Accepted(l, recipe, trailing, input)
    ensures !TooBig(given, recipe, trailing, input)
  {
    AcceptedNames(l, recipe, trailing, input);
    hide Given, AllFit, Accepted;
    if TooBig(given, recipe, trailing, input) {
      SameSections(l.sections, given, recipe, trailing, input);
      FitSame(l.sections, given, input.pe32, input.fileAlignment, input.sectionAlignment);
      assert false;
    }
  }
}
