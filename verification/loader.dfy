/** A loader that looks names up in an export directory, and what it finds in the linker's. */
module ExportLoader {
  import opened Bits
  import opened Bytes
  import opened Results
  import opened Sorting
  import opened Exports
  import opened ExportTable

  // ---- The loader ----

  /** The word at an address of a section loaded at `rva`. */
  function WordAt(section: seq<Byte>, rva: nat, at: nat): Option<nat>
  {
    if at < rva then None else ReadWord(section, at - rva)
  }

  function HalfAt(section: seq<Byte>, rva: nat, at: nat): Option<nat>
  {
    if at < rva || at - rva + 2 > |section| then None else Some(Word16(section[at - rva..at - rva + 2]))
  }

  function StringAt(section: seq<Byte>, rva: nat, at: nat): Option<seq<Byte>>
  {
    if at < rva then None else CString(section, at - rva)
  }

  /** The `k`-th name of the name pointer table. */
  function NameAt(section: seq<Byte>, rva: nat, table: nat, k: nat): Option<seq<Byte>>
  {
    var pointer := WordAt(section, rva, table + 4 * k);
    if pointer.None? then None else StringAt(section, rva, pointer.value)
  }

  /** Binary search of the name pointer table. */
  function Search(section: seq<Byte>, rva: nat, table: nat, name: seq<Byte>, lo: nat, hi: nat): Option<nat>
    requires lo <= hi
    decreases hi - lo
  {
    if lo == hi then None
    else
      var mid := (lo + hi) / 2;
      var found := NameAt(section, rva, table, mid);
      if found.None? then None
      else if found.value == name then Some(mid)
      else if LexLe(found.value, name) then Search(section, rva, table, name, mid + 1, hi)
      else Search(section, rva, table, name, lo, mid)
  }

  /** An export of its own, or the name of one in another DLL. */
  datatype Found = Own(rva: nat) | Forwarded(text: seq<Byte>)

  /** The address slot with an index; an address inside the directory's section is a forwarder. */
  function ReadSlot(section: seq<Byte>, rva: nat, eat: nat, index: nat): Option<Found>
  {
    var value := WordAt(section, rva, eat + 4 * index);
    if value.None? then None
    else if rva <= value.value < rva + |section| then
      var text := StringAt(section, rva, value.value);
      if text.None? then None else Some(Forwarded(text.value))
    else Some(Own(value.value))
  }

  /** `GetProcAddress` by name. */
  function ByNameLookup(section: seq<Byte>, rva: nat, name: seq<Byte>): Option<Found>
  {
    var (count, eat) := (WordAt(section, rva, rva + 24), WordAt(section, rva, rva + 28));
    var (names, ordinals) := (WordAt(section, rva, rva + 32), WordAt(section, rva, rva + 36));
    if count.None? || eat.None? || names.None? || ordinals.None? then None
    else
      var k := Search(section, rva, names.value, name, 0, count.value);
      if k.None? then None
      else
        var index := HalfAt(section, rva, ordinals.value + 2 * k.value);
        if index.None? then None else ReadSlot(section, rva, eat.value, index.value)
  }

  /** `GetProcAddress` by ordinal. */
  function ByOrdinalLookup(section: seq<Byte>, rva: nat, ordinal: nat): Option<Found>
  {
    var (base, slots, eat) := (WordAt(section, rva, rva + 16), WordAt(section, rva, rva + 20), WordAt(section, rva, rva + 28));
    if base.None? || slots.None? || eat.None? then None
    else if ordinal < base.value || ordinal - base.value >= slots.value then None
    else ReadSlot(section, rva, eat.value, ordinal - base.value)
  }

  // ---- Reading what was written ----

  lemma {:induction false} WordsSlice(list: seq<nat>, k: nat)
    requires k < |list|
    ensures Words(list)[4 * k..4 * k + 4] == Le32(list[k])
    decreases |list|
  {
    hide Le32;
    var init := list[..|list| - 1];
    if k < |init| {
      WordsSlice(init, k);
      Within(Words(init), Le32(list[|init|]), 4 * k, 4 * k + 4);
    }
  }

  lemma Within(a: seq<Byte>, b: seq<Byte>, lo: nat, hi: nat)
    requires lo <= hi <= |a|
    ensures (a + b)[lo..hi] == a[lo..hi]
  {
  }

  lemma {:induction false} HalvesSlice(list: seq<nat>, k: nat)
    requires k < |list|
    ensures Halves(list)[2 * k..2 * k + 2] == Le16(list[k])
    decreases |list|
  {
    hide Le16;
    var init := list[..|list| - 1];
    if k < |init| {
      HalvesSlice(init, k);
      Within(Halves(init), Le16(list[|init|]), 2 * k, 2 * k + 2);
    }
  }

  /** A written word reads back. */
  lemma WordReads(a: seq<Byte>, list: seq<nat>, c: seq<Byte>, k: nat)
    requires k < |list| && list[k] < U32
    ensures ReadWord(a + Words(list) + c, |a| + 4 * k) == Some(list[k])
  {
    hide Le32, Word32, Words, ReadWord;
    WordsSlice(list, k);
    Word32OfLe32(list[k]);
    var (lo, data) := (4 * k, a + Words(list) + c);
    WordIs(data, |a| + lo, Le32(list[k]));
  }

  lemma WordIs(data: seq<Byte>, at: nat, bytes: seq<Byte>)
    requires |bytes| == 4 && at + 4 <= |data| && data[at..at + 4] == bytes
    ensures ReadWord(data, at) == Some(Word32(bytes))
  {
  }

  lemma HalfReads(a: seq<Byte>, list: seq<nat>, c: seq<Byte>, k: nat)
    requires k < |list| && list[k] < U16
    ensures var data := a + Halves(list) + c;
      |a| + 2 * k + 2 <= |data| && Word16(data[|a| + 2 * k..|a| + 2 * k + 2]) == list[k]
  {
    HalvesSlice(list, k);
    Word16OfLe16(list[k]);
    hide Le16, Word16, Halves;
  }

  /** Every string of a flat list is where the ones before it end. */
  lemma FlatHas(texts: seq<seq<Byte>>, k: nat)
    requires k < |texts|
    ensures var (at, text) := (|Flat(texts[..k])|, texts[k]);
      at + |text| < |Flat(texts)| && Flat(texts)[at..at + |text|] == text && Flat(texts)[at + |text|] == 0
  {
    var (before, after) := (texts[..k], texts[k + 1..]);
    assert texts == before + [texts[k]] + after;
    FlatJoin(before + [texts[k]], after);
    FlatNext(before, texts[k]);
    hide Flat;
  }

  /** A string of the list reads back where the directory's pointers say. */
  lemma TextReads(a: seq<Byte>, texts: seq<seq<Byte>>, k: nat)
    requires k < |texts| && 0 !in texts[k]
    ensures CString(a + Flat(texts), |a| + |Flat(texts[..k])|) == Some(texts[k])
  {
    hide Flat, CString;
    FlatHas(texts, k);
    var (flat, lo, text) := (Flat(texts), |Flat(texts[..k])|, texts[k]);
    ShiftedOne(a, flat, lo, lo + |text|);
    CStringReads(a + flat, |a| + lo, text);
  }

  lemma ShiftedOne(a: seq<Byte>, b: seq<Byte>, lo: nat, hi: nat)
    requires lo <= hi < |b|
    ensures (a + b)[|a| + lo..|a| + hi] == b[lo..hi] && (a + b)[|a| + hi] == b[hi]
  {
  }

  // ---- Loadable tables ----

  /**
    What the planning leaves: names increasing and free of NULs, different
    ordinals from the base on, and a section that fits and holds no symbol.
   */
  ghost predicate Loadable(t: Table, addresses: Addresses, rva: nat)
  {
    && t.entries != [] && NamesIncrease(t.entries)
    && (forall i :: 0 <= i < |t.entries| ==> 0 !in t.entries[i].name)
    && (forall i :: 0 <= i < |t.entries| && t.entries[i].forwarder.Some? ==> 0 !in t.entries[i].forwarder.value)
    && (forall i :: 0 <= i < |t.entries| ==> t.base <= t.entries[i].ordinal < U16)
    && (forall i, j :: 0 <= i < j < |t.entries| ==> t.entries[i].ordinal != t.entries[j].ordinal)
    && rva + Total(t) <= U32_MAX
    && (forall s :: addresses(s).Some? ==> addresses(s).value < U32 && !(rva <= addresses(s).value < rva + Total(t)))
    && rva > 0
  }

  /** What export `i` stands for. */
  function Meant(t: Table, addresses: Addresses, i: nat): Found
    requires i < |t.entries|
  {
    var e := t.entries[i];
    if e.forwarder.Some? then Forwarded(e.forwarder.value)
    else if e.symbol.Some? && addresses(e.symbol.value).Some? then Own(addresses(e.symbol.value).value)
    else Own(0)
  }

  /** The five parts of a rendered table. */
  datatype Parts = Parts(directory: seq<Byte>, slots: seq<nat>, pointers: seq<nat>, ordinals: seq<nat>, texts: seq<seq<Byte>>)

  function PartsOf(t: Table, addresses: Addresses, rva: nat): Parts
  {
    var (n, strings) := (|Named(t.entries)|, PlacesOf(t, rva).strings);
    Parts(Words(Directory(t, rva)), AddressTable(t, addresses, strings, |t.entries|), NamePointers(t, strings, n), NameOrdinals(t, n), Texts(t))
  }

  function Join(p: Parts): seq<Byte>
  {
    p.directory + Words(p.slots) + Words(p.pointers) + Halves(p.ordinals) + Flat(p.texts)
  }

  lemma RenderedParts(t: Table, addresses: Addresses, rva: nat)
    requires t.entries != []
    ensures Rendered(t, addresses, rva) == Join(PartsOf(t, addresses, rva))
  {
    hide Words, Halves, Flat, AddressTable, NamePointers, NameOrdinals, Texts, Directory, PlacesOf;
  }

  /** Without overflow the places are sums. */
  lemma PlacesAre(t: Table, rva: nat)
    requires rva + Total(t) <= U32_MAX
    ensures var (p, s, n) := (PlacesOf(t, rva), Slots(t), |Named(t.entries)|);
      && p.eat == rva + 40 && p.names == rva + 40 + 4 * s && p.ordinals == p.names + 4 * n && p.strings == p.ordinals + 2 * n
      && OrZero(n) == n && s <= U32_MAX
  {
    hide Slots, Named, Flat, Texts;
  }

  lemma WordAtIs(section: seq<Byte>, rva: nat, at: nat)
    ensures WordAt(section, rva, rva + at) == ReadWord(section, at)
  {
  }

  lemma HalfAtIs(section: seq<Byte>, rva: nat, at: nat)
    requires at + 2 <= |section|
    ensures HalfAt(section, rva, rva + at) == Some(Word16(section[at..at + 2]))
  {
  }

  lemma StringAtIs(section: seq<Byte>, rva: nat, at: nat)
    ensures StringAt(section, rva, rva + at) == CString(section, at)
  {
  }

  /** The parts, by what they hold. */
  lemma PartsAre(t: Table, addresses: Addresses, rva: nat)
    ensures var (p, n, strings) := (PartsOf(t, addresses, rva), |Named(t.entries)|, PlacesOf(t, rva).strings);
      && p.directory == Words(Directory(t, rva)) && |p.directory| == 40
      && p.slots == AddressTable(t, addresses, strings, |t.entries|) && |p.slots| == Slots(t)
      && p.pointers == NamePointers(t, strings, n) && |p.pointers| == n
      && p.ordinals == NameOrdinals(t, n) && |p.ordinals| == n
      && p.texts == Texts(t)
  {
    hide Words, AddressTable, NamePointers, NameOrdinals, Texts, PlacesOf, Directory, Slots, Named;
  }

  lemma NameOrdinalIs(t: Table, k: nat)
    requires k < |Named(t.entries)|
    ensures NameOrdinals(t, |Named(t.entries)|)[k] == Index(t, Named(t.entries)[k]) < U16
  {
    hide Named;
  }

  lemma NamePointerIs(t: Table, strings: nat, k: nat)
    requires k < |Named(t.entries)|
    ensures NamePointers(t, strings, |Named(t.entries)|)[k] == StringRva(strings, StringsBefore(t, k)) < U32
  {
    hide Named, StringsBefore, Flat;
  }

  lemma SlotReads(p: Parts, k: nat)
    requires |p.directory| == 40 && k < |p.slots| && p.slots[k] < U32
    ensures ReadWord(Join(p), 40 + 4 * k) == Some(p.slots[k])
  {
    hide Words, Halves, Flat, ReadWord;
    WordReads(p.directory, p.slots, Words(p.pointers) + Halves(p.ordinals) + Flat(p.texts), k);
    assert p.directory + Words(p.slots) + (Words(p.pointers) + Halves(p.ordinals) + Flat(p.texts)) == Join(p);
  }

  lemma PointerReads(p: Parts, k: nat)
    requires |p.directory| == 40 && k < |p.pointers| && p.pointers[k] < U32
    ensures ReadWord(Join(p), 40 + 4 * |p.slots| + 4 * k) == Some(p.pointers[k])
  {
    hide Words, Halves, Flat, ReadWord;
    WordReads(p.directory + Words(p.slots), p.pointers, Halves(p.ordinals) + Flat(p.texts), k);
    assert p.directory + Words(p.slots) + Words(p.pointers) + (Halves(p.ordinals) + Flat(p.texts)) == Join(p);
  }

  lemma OrdinalReads(p: Parts, k: nat)
    requires |p.directory| == 40 && k < |p.ordinals| && p.ordinals[k] < U16
    ensures var at := 40 + 4 * |p.slots| + 4 * |p.pointers| + 2 * k;
      at + 2 <= |Join(p)| && Word16(Join(p)[at..at + 2]) == p.ordinals[k]
  {
    hide Words, Halves, Flat, Word16;
    HalfReads(p.directory + Words(p.slots) + Words(p.pointers), p.ordinals, Flat(p.texts), k);
  }

  lemma TextOfParts(p: Parts, k: nat)
    requires |p.directory| == 40 && k < |p.texts| && 0 !in p.texts[k]
    ensures CString(Join(p), 40 + 4 * |p.slots| + 4 * |p.pointers| + 2 * |p.ordinals| + |Flat(p.texts[..k])|) == Some(p.texts[k])
  {
    hide Words, Halves, Flat, CString;
    TextReads(p.directory + Words(p.slots) + Words(p.pointers) + Halves(p.ordinals), p.texts, k);
  }

  lemma DirectoryReads(words: seq<nat>, rest: seq<Byte>, k: nat)
    requires |words| == 10 && k < 10 && words[k] < U32
    ensures ReadWord(Words(words) + rest, 4 * k) == Some(words[k])
  {
    hide Words, ReadWord;
    WordReads([], words, rest, k);
    assert [] + Words(words) + rest == Words(words) + rest;
  }

  // ---- Address slots ----

  lemma IndexIs(t: Table, addresses: Addresses, rva: nat, k: nat)
    requires Loadable(t, addresses, rva) && k < |t.entries|
    ensures Index(t, t.entries[k]) == t.entries[k].ordinal - t.base < Slots(t)
  {
  }

  /** Every export has its own slot. */
  predicate OwnSlots(t: Table)
  {
    && (forall i :: 0 <= i < |t.entries| ==> Index(t, t.entries[i]) < Slots(t))
    && (forall i, j :: 0 <= i < j < |t.entries| ==> Index(t, t.entries[i]) != Index(t, t.entries[j]))
  }

  lemma SlotsOwned(t: Table, addresses: Addresses, rva: nat)
    requires Loadable(t, addresses, rva)
    ensures OwnSlots(t)
  {
    forall i | 0 <= i < |t.entries|
      ensures Index(t, t.entries[i]) == t.entries[i].ordinal - t.base < Slots(t)
    {
      IndexIs(t, addresses, rva, i);
    }
    hide Slots, Total, Index;
  }

  lemma {:induction false} TableHolds(t: Table, addresses: Addresses, strings: nat, n: nat, k: nat)
    requires OwnSlots(t) && k < n <= |t.entries|
    ensures AddressTable(t, addresses, strings, n)[Index(t, t.entries[k])] == Slot(t, addresses, strings, k)
  {
    hide Slots, Slot, Index;
    if k < n - 1 { TableHolds(t, addresses, strings, n - 1, k); }
  }

  lemma {:induction false} ForwardersPrefix(entries: seq<Export>, k: nat, n: nat)
    requires k <= n <= |entries|
    ensures Forwarders(entries[..k]) <= Forwarders(entries[..n])
    decreases n
  {
    if k < n {
      ForwardersPrefix(entries, k, n - 1);
      ForwardersNext(entries, n - 1);
    }
  }

  /** The forwarder of export `k` among the strings. */
  lemma ForwarderText(t: Table, k: nat)
    requires k < |t.entries| && t.entries[k].forwarder.Some?
    ensures var j := 1 + |Forwarders(t.entries[..k])|;
      && j < |Texts(t)| && Texts(t)[j] == t.entries[k].forwarder.value
      && Texts(t)[..j] == [t.dllName] + Forwarders(t.entries[..k])
  {
    ForwardersPrefix(t.entries, k + 1, |t.entries|);
    ForwardersNext(t.entries, k);
    assert t.entries[..|t.entries|] == t.entries;
    hide Forwarders, Named;
  }

  lemma FlatPrefix(texts: seq<seq<Byte>>, k: nat)
    requires k < |texts|
    ensures |Flat(texts[..k])| < |Flat(texts)|
  {
    FlatHas(texts, k);
  }

  lemma StringRvaIs(t: Table, rva: nat, k: nat, lead: nat)
    requires rva + Total(t) <= U32_MAX && k < |Texts(t)|
    requires lead == 40 + 4 * Slots(t) + 4 * |Named(t.entries)| + 2 * |Named(t.entries)|
    requires PlacesOf(t, rva).strings == rva + lead
    ensures StringRva(PlacesOf(t, rva).strings, Texts(t)[..k]) == rva + lead + |Flat(Texts(t)[..k])| < rva + Total(t)
  {
    FlatPrefix(Texts(t), k);
    hide Flat, Texts, Named, Slots, PlacesOf;
  }

  /** Where the string `k` of the table is, and that it reads back. */
  lemma TextOf(t: Table, addresses: Addresses, rva: nat, k: nat)
    requires t.entries != [] && rva + Total(t) <= U32_MAX && k < |Texts(t)| && 0 !in Texts(t)[k]
    ensures var at := StringRva(PlacesOf(t, rva).strings, Texts(t)[..k]);
      && rva <= at < rva + Total(t)
      && StringAt(Rendered(t, addresses, rva), rva, at) == Some(Texts(t)[k])
  {
    hide *;
    RenderedParts(t, addresses, rva);
    PartsAre(t, addresses, rva);
    PlacesAre(t, rva);
    var lead := 40 + 4 * Slots(t) + 4 * |Named(t.entries)| + 2 * |Named(t.entries)|;
    StringRvaIs(t, rva, k, lead);
    TextOfParts(PartsOf(t, addresses, rva), k);
    StringAtIs(Rendered(t, addresses, rva), rva, lead + |Flat(Texts(t)[..k])|);
  }

  lemma SlotFits(t: Table, addresses: Addresses, rva: nat, k: nat)
    requires Loadable(t, addresses, rva) && k < |t.entries|
    ensures Slot(t, addresses, PlacesOf(t, rva).strings, k) < U32
  {
    hide Total, PlacesOf, Flat, Forwarders;
  }

  lemma SlotWord(t: Table, addresses: Addresses, rva: nat, k: nat)
    requires Loadable(t, addresses, rva) && k < |t.entries|
    ensures WordAt(Rendered(t, addresses, rva), rva, rva + 40 + 4 * (t.entries[k].ordinal - t.base))
         == Some(Slot(t, addresses, PlacesOf(t, rva).strings, k))
  {
    hide Loadable, Slots, Words, Halves, Flat, AddressTable, NamePointers, NameOrdinals, Texts, Directory, PlacesOf, Rendered, Slot, Join, ReadWord, Index, OwnSlots;
    LoadableParts(t, addresses, rva, k);
    RenderedParts(t, addresses, rva);
    IndexIs(t, addresses, rva, k);
    SlotsOwned(t, addresses, rva);
    TableHolds(t, addresses, PlacesOf(t, rva).strings, |t.entries|, k);
    SlotFits(t, addresses, rva, k);
    SlotReads(PartsOf(t, addresses, rva), t.entries[k].ordinal - t.base);
  }

  lemma LoadableFits(t: Table, addresses: Addresses, rva: nat)
    requires Loadable(t, addresses, rva)
    ensures t.entries != [] && rva + Total(t) <= U32_MAX && NamesIncrease(t.entries)
  {
    hide Total;
  }

  lemma LoadableParts(t: Table, addresses: Addresses, rva: nat, k: nat)
    requires Loadable(t, addresses, rva) && k < |t.entries|
    ensures t.base <= t.entries[k].ordinal < U16 && rva + Total(t) <= U32_MAX && rva > 0
    ensures t.entries[k].forwarder.Some? ==> 0 !in t.entries[k].forwarder.value
    ensures 0 !in t.entries[k].name
    ensures t.entries[k].symbol.Some? && addresses(t.entries[k].symbol.value).Some? ==>
      var a := addresses(t.entries[k].symbol.value).value; a < U32 && !(rva <= a < rva + Total(t))
  {
    hide Total;
  }

  /** The slot of an export holds what the export stands for. */
  lemma SlotMeans(t: Table, addresses: Addresses, rva: nat, k: nat)
    requires Loadable(t, addresses, rva) && k < |t.entries|
    ensures t.base <= t.entries[k].ordinal
    ensures ReadSlot(Rendered(t, addresses, rva), rva, rva + 40, t.entries[k].ordinal - t.base) == Some(Meant(t, addresses, k))
  {
    hide Loadable, Rendered, PlacesOf, Total, Flat, Texts, WordAt, StringAt, Forwarders, Slots;
    LoadableParts(t, addresses, rva, k);
    RenderedLength(t, addresses, rva);
    SlotWord(t, addresses, rva, k);
    if t.entries[k].forwarder.Some? {
      ForwarderText(t, k);
      TextOf(t, addresses, rva, 1 + |Forwarders(t.entries[..k])|);
    }
  }

  // ---- Names ----

  /** The `k`-th name as the loader reads it. */
  lemma NameReads(t: Table, addresses: Addresses, rva: nat, k: nat)
    requires Loadable(t, addresses, rva) && k < |Named(t.entries)|
    ensures NameAt(Rendered(t, addresses, rva), rva, PlacesOf(t, rva).names, k) == Some(Named(t.entries)[k].name)
  {
    hide *;
    LoadableFits(t, addresses, rva);
    NameText(t, addresses, rva, k);
    TextOf(t, addresses, rva, 1 + |Forwarders(t.entries)| + k);
    RenderedParts(t, addresses, rva);
    PartsAre(t, addresses, rva);
    PlacesAre(t, rva);
    NamePointerIs(t, PlacesOf(t, rva).strings, k);
    PointerReads(PartsOf(t, addresses, rva), k);
    WordAtIs(Rendered(t, addresses, rva), rva, 40 + 4 * Slots(t) + 4 * k);
    NameAtIs(Rendered(t, addresses, rva), rva, PlacesOf(t, rva).names, k);
  }

  lemma NameText(t: Table, addresses: Addresses, rva: nat, k: nat)
    requires Loadable(t, addresses, rva) && k < |Named(t.entries)|
    ensures var j := 1 + |Forwarders(t.entries)| + k;
      && j < |Texts(t)| && Texts(t)[j] == Named(t.entries)[k].name && 0 !in Texts(t)[j]
      && Texts(t)[..j] == StringsBefore(t, k)
  {
    NamedAreEntries(t.entries, k);
    hide Forwarders, Named, Total;
  }

  lemma NameAtIs(section: seq<Byte>, rva: nat, table: nat, k: nat)
    ensures NameAt(section, rva, table, k)
         == (if WordAt(section, rva, table + 4 * k).None? then None else StringAt(section, rva, WordAt(section, rva, table + 4 * k).value))
  {
    hide WordAt, StringAt;
  }

  lemma {:induction false} NamedAreEntries(entries: seq<Export>, k: nat)
    requires k < |Named(entries)|
    ensures Named(entries)[k] in entries && !Named(entries)[k].noname
    decreases |entries|
  {
    if k < |Named(entries[..|entries| - 1])| { NamedAreEntries(entries[..|entries| - 1], k); }
  }

  lemma {:induction false} NamedHas(entries: seq<Export>, i: nat) returns (k: nat)
    requires i < |entries| && !entries[i].noname
    ensures k < |Named(entries)| && Named(entries)[k] == entries[i]
    decreases |entries|
  {
    if i < |entries| - 1 { k := NamedHas(entries[..|entries| - 1], i); } else { k := |Named(entries)| - 1; }
  }

  lemma {:induction false} NamedIncrease(entries: seq<Export>)
    requires NamesIncrease(entries)
    ensures NamesIncrease(Named(entries))
    decreases |entries|
  {
    if entries != [] {
      var (init, last) := (entries[..|entries| - 1], entries[|entries| - 1]);
      NamedIncrease(init);
      forall k | 0 <= k < |Named(init)|
        ensures LexLe(Named(init)[k].name, last.name) && Named(init)[k].name != last.name
      {
        NamedAreEntries(init, k);
      }
    }
  }

  /** Binary search over increasing names finds the one that is there, and nothing else. */
  lemma {:induction false} SearchFinds(section: seq<Byte>, rva: nat, table: nat, named: seq<Export>, name: seq<Byte>, lo: nat, hi: nat)
    requires lo <= hi <= |named| && NamesIncrease(named)
    requires forall k: nat :: k < |named| ==> NameAt(section, rva, table, k) == Some(named[k].name)
    requires forall k :: (0 <= k < lo || hi <= k < |named|) ==> named[k].name != name
    ensures var r := Search(section, rva, table, name, lo, hi);
      if r.Some? then r.value < |named| && named[r.value].name == name else forall k :: 0 <= k < |named| ==> named[k].name != name
    decreases hi - lo
  {
    hide NameAt;
    if lo < hi {
      var mid := (lo + hi) / 2;
      assert NameAt(section, rva, table, mid) == Some(named[mid].name);
      if named[mid].name != name {
        if LexLe(named[mid].name, name) {
          NotBefore(named, mid, name);
          SearchFinds(section, rva, table, named, name, mid + 1, hi);
        } else {
          NotAfter(named, mid, name);
          SearchFinds(section, rva, table, named, name, lo, mid);
        }
      }
    }
  }

  lemma NotBefore(named: seq<Export>, mid: nat, name: seq<Byte>)
    requires NamesIncrease(named) && mid < |named| && LexLe(named[mid].name, name) && named[mid].name != name
    ensures forall k :: 0 <= k <= mid ==> named[k].name != name
  {
    forall k | 0 <= k <= mid
      ensures named[k].name != name
    {
      LexTotal(named[mid].name, name);
    }
  }

  lemma NotAfter(named: seq<Export>, mid: nat, name: seq<Byte>)
    requires NamesIncrease(named) && mid < |named| && !LexLe(named[mid].name, name)
    ensures forall k :: mid <= k < |named| ==> named[k].name != name
  {
    LexReflexive(name);
  }

  /** The directory's own words. */
  lemma DirectoryIs(t: Table, addresses: Addresses, rva: nat, k: nat)
    requires Loadable(t, addresses, rva) && k < 10
    ensures WordAt(Rendered(t, addresses, rva), rva, rva + 4 * k) == Some(Directory(t, rva)[k])
  {
    hide Words, Halves, Flat, AddressTable, NamePointers, NameOrdinals, Texts, ReadWord, Named, Slots;
    assert t.entries != [];
    var p := PartsOf(t, addresses, rva);
    RenderedParts(t, addresses, rva);
    DirectoryFits(t, addresses, rva);
    var rest := Words(p.slots) + Words(p.pointers) + Halves(p.ordinals) + Flat(p.texts);
    assert Join(p) == p.directory + rest;
    DirectoryReads(Directory(t, rva), rest, k);
  }

  lemma DirectoryFits(t: Table, addresses: Addresses, rva: nat)
    requires Loadable(t, addresses, rva)
    ensures forall k :: 0 <= k < 10 ==> Directory(t, rva)[k] < U32
  {
    PlacesAre(t, rva);
    assert t.entries[0].ordinal < U16;
    hide Named, Flat, Texts, Slots;
  }

  // ---- What the loader finds ----

  lemma NameOrdinalReads(t: Table, addresses: Addresses, rva: nat, k: nat)
    requires Loadable(t, addresses, rva) && k < |Named(t.entries)|
    ensures HalfAt(Rendered(t, addresses, rva), rva, PlacesOf(t, rva).ordinals + 2 * k) == Some(Index(t, Named(t.entries)[k]))
  {
    hide *;
    LoadableFits(t, addresses, rva);
    RenderedParts(t, addresses, rva);
    PartsAre(t, addresses, rva);
    PlacesAre(t, rva);
    NameOrdinalIs(t, k);
    OrdinalReads(PartsOf(t, addresses, rva), k);
    HalfAtIs(Rendered(t, addresses, rva), rva, 40 + 4 * Slots(t) + 4 * |Named(t.entries)| + 2 * k);
  }

  /** Looking a name up finds its own export's address or forwarder; a name that is not exported is not found. */
  lemma LoaderFindsName(t: Table, addresses: Addresses, rva: nat, name: seq<Byte>)
    requires Loadable(t, addresses, rva)
    ensures var found := ByNameLookup(Rendered(t, addresses, rva), rva, name);
      && (forall i :: 0 <= i < |t.entries| && !t.entries[i].noname && t.entries[i].name == name ==> found == Some(Meant(t, addresses, i)))
      && ((forall i :: 0 <= i < |t.entries| && !t.entries[i].noname ==> t.entries[i].name != name) ==> found == None)
  {
    hide *;
    LoadableFits(t, addresses, rva);
    TablesAre(t, addresses, rva);
    SearchNamed(t, addresses, rva, name);
    var (section, p) := (Rendered(t, addresses, rva), PlacesOf(t, rva));
    ByNameIs(section, rva, name, |Named(t.entries)|, rva + 40, p.names, p.ordinals);
    var r := Search(section, rva, p.names, name, 0, |Named(t.entries)|);
    if r.Some? {
      FoundAt(t, addresses, rva, name, r.value);
    } else {
      NoneNamed(t.entries, name);
    }
  }

  lemma SearchNamed(t: Table, addresses: Addresses, rva: nat, name: seq<Byte>)
    requires Loadable(t, addresses, rva)
    ensures var (named, r) := (Named(t.entries), Search(Rendered(t, addresses, rva), rva, PlacesOf(t, rva).names, name, 0, |Named(t.entries)|));
      if r.Some? then r.value < |named| && named[r.value].name == name else forall k :: 0 <= k < |named| ==> named[k].name != name
  {
    hide *;
    LoadableFits(t, addresses, rva);
    NamedIncrease(t.entries);
    forall k: nat | k < |Named(t.entries)|
      ensures NameAt(Rendered(t, addresses, rva), rva, PlacesOf(t, rva).names, k) == Some(Named(t.entries)[k].name)
    {
      NameReads(t, addresses, rva, k);
    }
    SearchFinds(Rendered(t, addresses, rva), rva, PlacesOf(t, rva).names, Named(t.entries), name, 0, |Named(t.entries)|);
  }

  lemma NoneNamed(entries: seq<Export>, name: seq<Byte>)
    requires forall k :: 0 <= k < |Named(entries)| ==> Named(entries)[k].name != name
    ensures forall i :: 0 <= i < |entries| && !entries[i].noname ==> entries[i].name != name
  {
    forall i | 0 <= i < |entries| && !entries[i].noname
      ensures entries[i].name != name
    {
      var k := NamedHas(entries, i);
    }
  }

  lemma OneOfName(entries: seq<Export>, j: nat, name: seq<Byte>)
    requires NamesIncrease(entries) && j < |entries| && entries[j].name == name
    ensures forall i :: 0 <= i < |entries| && entries[i].name == name ==> i == j
  {
  }

  lemma TablesAre(t: Table, addresses: Addresses, rva: nat)
    requires Loadable(t, addresses, rva)
    ensures var (section, p) := (Rendered(t, addresses, rva), PlacesOf(t, rva));
      && WordAt(section, rva, rva + 24) == Some(|Named(t.entries)|)
      && WordAt(section, rva, rva + 28) == Some(rva + 40)
      && WordAt(section, rva, rva + 32) == Some(p.names)
      && WordAt(section, rva, rva + 36) == Some(p.ordinals)
      && WordAt(section, rva, rva + 16) == Some(t.base)
      && WordAt(section, rva, rva + 20) == Some(Slots(t))
  {
    hide *;
    LoadableFits(t, addresses, rva);
    PlacesAre(t, rva);
    DirectoryIs(t, addresses, rva, 4);
    DirectoryIs(t, addresses, rva, 5);
    DirectoryIs(t, addresses, rva, 6);
    DirectoryIs(t, addresses, rva, 7);
    DirectoryIs(t, addresses, rva, 8);
    DirectoryIs(t, addresses, rva, 9);
    DirectoryWords(t, rva);
  }

  lemma DirectoryWords(t: Table, rva: nat)
    ensures var (d, p) := (Directory(t, rva), PlacesOf(t, rva));
      && d[4] == t.base && d[5] == Slots(t) && d[6] == OrZero(|Named(t.entries)|)
      && d[7] == p.eat && d[8] == p.names && d[9] == p.ordinals
  {
    hide PlacesOf, Named, Slots;
  }

  lemma FoundAt(t: Table, addresses: Addresses, rva: nat, name: seq<Byte>, k: nat)
    requires Loadable(t, addresses, rva) && k < |Named(t.entries)| && Named(t.entries)[k].name == name
    requires Search(Rendered(t, addresses, rva), rva, PlacesOf(t, rva).names, name, 0, |Named(t.entries)|) == Some(k)
    ensures exists i :: 0 <= i < |t.entries| && !t.entries[i].noname && t.entries[i].name == name
    ensures forall i :: 0 <= i < |t.entries| && t.entries[i].name == name ==>
      ByNameLookup(Rendered(t, addresses, rva), rva, name) == Some(Meant(t, addresses, i))
  {
    hide *;
    LoadableFits(t, addresses, rva);
    TablesAre(t, addresses, rva);
    NamedAreEntries(t.entries, k);
    var (section, p) := (Rendered(t, addresses, rva), PlacesOf(t, rva));
    ByNameIs(section, rva, name, |Named(t.entries)|, rva + 40, p.names, p.ordinals);
    NameOrdinalReads(t, addresses, rva, k);
    var j :| 0 <= j < |t.entries| && t.entries[j] == Named(t.entries)[k];
    IndexIs(t, addresses, rva, j);
    SlotMeans(t, addresses, rva, j);
    OneOfName(t.entries, j, name);
  }

  lemma ByOrdinalIs(section: seq<Byte>, rva: nat, ordinal: nat, base: nat, slots: nat, eat: nat)
    requires WordAt(section, rva, rva + 16) == Some(base) && WordAt(section, rva, rva + 20) == Some(slots) && WordAt(section, rva, rva + 28) == Some(eat)
    requires base <= ordinal && ordinal - base < slots
    ensures ByOrdinalLookup(section, rva, ordinal) == ReadSlot(section, rva, eat, ordinal - base)
  {
    hide WordAt, ReadSlot;
  }

  lemma ByNameIs(section: seq<Byte>, rva: nat, name: seq<Byte>, count: nat, eat: nat, names: nat, ordinals: nat)
    requires WordAt(section, rva, rva + 24) == Some(count) && WordAt(section, rva, rva + 28) == Some(eat)
    requires WordAt(section, rva, rva + 32) == Some(names) && WordAt(section, rva, rva + 36) == Some(ordinals)
    ensures var k := Search(section, rva, names, name, 0, count);
      ByNameLookup(section, rva, name) ==
        if k.None? then None
        else if HalfAt(section, rva, ordinals + 2 * k.value).None? then None
        else ReadSlot(section, rva, eat, HalfAt(section, rva, ordinals + 2 * k.value).value)
  {
    hide WordAt, ReadSlot, HalfAt, Search;
  }

  /** Looking an export's ordinal up finds the same. */
  lemma LoaderFindsOrdinal(t: Table, addresses: Addresses, rva: nat, i: nat)
    requires Loadable(t, addresses, rva) && i < |t.entries|
    ensures ByOrdinalLookup(Rendered(t, addresses, rva), rva, t.entries[i].ordinal) == Some(Meant(t, addresses, i))
  {
    hide *;
    TablesAre(t, addresses, rva);
    IndexIs(t, addresses, rva, i);
    SlotMeans(t, addresses, rva, i);
    ByOrdinalIs(Rendered(t, addresses, rva), rva, t.entries[i].ordinal, t.base, Slots(t), rva + 40);
  }

  /** What else the directory says: nothing in the first three words, and the DLL's name. */
  lemma LoaderFindsDll(t: Table, addresses: Addresses, rva: nat)
    requires Loadable(t, addresses, rva) && 0 !in t.dllName
    ensures var section := Rendered(t, addresses, rva);
      && WordAt(section, rva, rva) == Some(0) && WordAt(section, rva, rva + 4) == Some(0) && WordAt(section, rva, rva + 8) == Some(0)
      && match WordAt(section, rva, rva + 12)
         case Some(pointer) => StringAt(section, rva, pointer) == Some(t.dllName)
         case None => false
  {
    FirstText(t);
    FirstWords(t, rva);
    hide *;
    LoadableFits(t, addresses, rva);
    DirectoryIs(t, addresses, rva, 0);
    DirectoryIs(t, addresses, rva, 1);
    DirectoryIs(t, addresses, rva, 2);
    DirectoryIs(t, addresses, rva, 3);
    TextOf(t, addresses, rva, 0);
  }

  lemma FirstText(t: Table)
    ensures 0 < |Texts(t)| && Texts(t)[0] == t.dllName && Texts(t)[..0] == []
  {
  }

  lemma FirstWords(t: Table, rva: nat)
    ensures var d := Directory(t, rva);
      d[0] == 0 && d[1] == 0 && d[2] == 0 && d[3] == StringRva(PlacesOf(t, rva).strings, [])
  {
    hide PlacesOf, Named, Slots, StringRva;
  }

  /** The slot of an ordinal that no export has. */
  lemma {:induction false} TableZero(t: Table, addresses: Addresses, strings: nat, n: nat, at: nat)
    requires n <= |t.entries| && at < Slots(t) && forall k :: 0 <= k < n ==> Index(t, t.entries[k]) != at
    ensures AddressTable(t, addresses, strings, n)[at] == 0
  {
    hide Slots, Slot, Index;
    if n > 0 { TableZero(t, addresses, strings, n - 1, at); }
  }

  lemma ZeroSlot(t: Table, addresses: Addresses, rva: nat, at: nat)
    requires Loadable(t, addresses, rva) && at < Slots(t)
    requires forall i :: 0 <= i < |t.entries| ==> t.entries[i].ordinal != t.base + at
    ensures ReadSlot(Rendered(t, addresses, rva), rva, rva + 40, at) == Some(Own(0))
  {
    hide Loadable, Slots, Words, Halves, Flat, AddressTable, NamePointers, NameOrdinals, Texts, Directory, PlacesOf, Rendered, Slot, Join, ReadWord, Index;
    forall k | 0 <= k < |t.entries|
      ensures Index(t, t.entries[k]) != at
    {
      IndexIs(t, addresses, rva, k);
    }
    LoadableFits(t, addresses, rva);
    LoadableParts(t, addresses, rva, 0);
    RenderedParts(t, addresses, rva);
    TableZero(t, addresses, PlacesOf(t, rva).strings, |t.entries|, at);
    SlotReads(PartsOf(t, addresses, rva), at);
  }

  predicate SomeAbove(entries: seq<Export>, ordinal: nat)
  {
    exists i :: 0 <= i < |entries| && ordinal < entries[i].ordinal
  }

  /** An ordinal of no export: address zero between the lowest and the highest, nothing outside. */
  lemma LoaderFindsNone(t: Table, addresses: Addresses, rva: nat, ordinal: nat)
    requires Loadable(t, addresses, rva) && forall i :: 0 <= i < |t.entries| ==> t.entries[i].ordinal != ordinal
    ensures ByOrdinalLookup(Rendered(t, addresses, rva), rva, ordinal)
         == if t.base <= ordinal && SomeAbove(t.entries, ordinal) then Some(Own(0)) else None
  {
    hide *;
    SlotsReach(t, addresses, rva, ordinal);
    TablesAre(t, addresses, rva);
    if t.base <= ordinal < t.base + Slots(t) {
      ZeroSlot(t, addresses, rva, ordinal - t.base);
      ByOrdinalIs(Rendered(t, addresses, rva), rva, ordinal, t.base, Slots(t), rva + 40);
    } else {
      ByOrdinalNone(Rendered(t, addresses, rva), rva, ordinal, t.base, Slots(t));
    }
  }

  lemma ByOrdinalNone(section: seq<Byte>, rva: nat, ordinal: nat, base: nat, slots: nat)
    requires WordAt(section, rva, rva + 16) == Some(base) && WordAt(section, rva, rva + 20) == Some(slots)
    requires !(base <= ordinal < base + slots)
    ensures ByOrdinalLookup(section, rva, ordinal) == None
  {
    hide WordAt, ReadSlot;
  }

  lemma {:induction false} HighestTaken(entries: seq<Export>, base: nat)
    requires entries != []
    ensures exists i :: 0 <= i < |entries| && entries[i].ordinal == HighestOrdinal(entries, base)
    decreases |entries|
  {
    var (init, last) := (entries[..|entries| - 1], |entries| - 1);
    if init != [] {
      HighestTaken(init, base);
      var i :| 0 <= i < |init| && init[i].ordinal == HighestOrdinal(init, base);
      assert entries[i] == init[i];
    }
    assert entries[last].ordinal == entries[last].ordinal;
  }

  /** The slots end at the highest ordinal. */
  lemma SlotsReach(t: Table, addresses: Addresses, rva: nat, ordinal: nat)
    requires Loadable(t, addresses, rva) && forall i :: 0 <= i < |t.entries| ==> t.entries[i].ordinal != ordinal
    ensures t.base <= ordinal ==>
      (ordinal < t.base + Slots(t) <==> SomeAbove(t.entries, ordinal))
  {
    HighestTaken(t.entries, t.base);
    hide Total, HighestOrdinal;
    var i :| 0 <= i < |t.entries| && t.entries[i].ordinal == HighestOrdinal(t.entries, t.base);
  }

  // ---- From requests to a loadable table ----

  function LowestOrdinal(entries: seq<Export>): (r: nat)
    ensures forall i :: 0 <= i < |entries| ==> r <= entries[i].ordinal
    ensures entries != [] ==> exists i :: 0 <= i < |entries| && entries[i].ordinal == r
    decreases |entries|
  {
    if entries == [] then 1
    else if |entries| == 1 then entries[0].ordinal
    else
      var (rest, last) := (LowestOrdinal(entries[..|entries| - 1]), entries[|entries| - 1].ordinal);
      if last < rest then last else rest
  }

  /**
    The tail of `plan`, for requests on which it ends: sort, drop repeated
    names, assign ordinals, take the lowest as the base.
   */
  method Plan(requests: seq<Export>, dllName: seq<Byte>) returns (t: Table)
    requires forall i :: 0 <= i < |requests| ==> requests[i].ordinal <= MAX_ORDINAL
    requires AssignAll(KeptOf(requests)).Some?
    ensures t.dllName == dllName && AssignAll(KeptOf(requests)) == Some(t.entries)
    ensures NamesIncrease(t.entries)
    ensures forall i :: 0 <= i < |t.entries| ==> 1 <= t.base <= t.entries[i].ordinal < U16
    ensures if t.entries == [] then t.base == 1 else exists i :: 0 <= i < |t.entries| && t.entries[i].ordinal == t.base
    ensures Roomy(KeptOf(requests)) <==> OrdinalsGiven(KeptOf(requests), t.entries, |KeptOf(requests)|)
    ensures DistinctOrdinals(t.entries) <==> DistinctOrdinals(KeptOf(requests)) && Roomy(KeptOf(requests))
  {
    var kept := SortedOnce(requests);
    KeptOrdinals(requests, kept);
    var entries := new Export[|kept|](i requires 0 <= i < |kept| => kept[i]);
    assert entries[..] == kept;
    AssignOrdinals(entries);
    OrdinalsExact(kept);
    PlannedFits(kept, entries[..]);
    hide AssignAll, Roomy, DistinctOrdinals, OrdinalsGiven, KeptOf;
    t := Table(entries[..], dllName, LowestOrdinal(entries[..]));
  }

  /** At most 65535 requests always end well. */
  lemma FewRequests(requests: seq<Export>)
    requires |requests| <= MAX_ORDINAL
    ensures Roomy(KeptOf(requests)) && AssignAll(KeptOf(requests)).Some?
  {
    KeptIs(requests);
    KeptFew(requests, KeptOf(requests));
    FewAreRoomy(KeptOf(requests));
    OrdinalsExact(KeptOf(requests));
  }

  lemma KeptOrdinals(requests: seq<Export>, kept: seq<Export>)
    requires NamesIncrease(kept) && forall name :: FirstNamed(kept, name) == FirstNamed(requests, name)
    requires forall i :: 0 <= i < |requests| ==> requests[i].ordinal <= MAX_ORDINAL
    ensures forall i :: 0 <= i < |kept| ==> kept[i] in requests && kept[i].ordinal <= MAX_ORDINAL
  {
    forall i | 0 <= i < |kept|
      ensures kept[i] in requests
    {
      OwnFirst(kept, i);
      FirstNamedIn(requests, kept[i].name);
    }
  }

  lemma {:induction false} OwnFirst(kept: seq<Export>, i: nat)
    requires NamesIncrease(kept) && i < |kept|
    ensures FirstNamed(kept, kept[i].name) == Some(kept[i])
    decreases |kept|
  {
    if i > 0 { OwnFirst(kept[1..], i - 1); }
  }

  lemma KeptFew(requests: seq<Export>, kept: seq<Export>)
    requires NamesIncrease(kept) && forall name :: FirstNamed(kept, name) == FirstNamed(requests, name)
    ensures |kept| <= |requests|
  {
    var (a, b) := (set e | e in kept, set e | e in requests);
    assert a <= b by { KeptIn(requests, kept); }
    SetSubset(a, b);
    SetOfDistinct(kept);
    SetOfList(requests);
  }

  lemma KeptIn(requests: seq<Export>, kept: seq<Export>)
    requires NamesIncrease(kept) && forall name :: FirstNamed(kept, name) == FirstNamed(requests, name)
    ensures forall e :: e in kept ==> e in requests
  {
    forall e | e in kept
      ensures e in requests
    {
      var i :| 0 <= i < |kept| && kept[i] == e;
      OwnFirst(kept, i);
      FirstNamedIn(requests, kept[i].name);
    }
  }

  lemma {:induction false} SetSubset(a: set<Export>, b: set<Export>)
    requires a <= b
    ensures |a| <= |b|
    decreases a
  {
    if a != {} {
      var x :| x in a;
      SetSubset(a - {x}, b - {x});
    }
  }

  lemma {:induction false} SetOfDistinct(s: seq<Export>)
    requires NamesIncrease(s)
    ensures |set e | e in s| == |s|
    decreases |s|
  {
    if s != [] {
      var (init, last) := (s[..|s| - 1], s[|s| - 1]);
      SetOfDistinct(init);
      assert (set e | e in s) == (set e | e in init) + {last};
    }
  }

  lemma {:induction false} SetOfList(s: seq<Export>)
    ensures |set e | e in s| <= |s|
    decreases |s|
  {
    if s != [] {
      var (init, last) := (s[..|s| - 1], s[|s| - 1]);
      SetOfList(init);
      assert (set e | e in s) == (set e | e in init) + {last};
    }
  }

  lemma PlannedFits(kept: seq<Export>, s: seq<Export>)
    requires NamesIncrease(kept) && AssignAll(kept) == Some(s)
    requires forall i :: 0 <= i < |kept| ==> kept[i].ordinal <= MAX_ORDINAL
    ensures NamesIncrease(s) && forall i :: 0 <= i < |s| ==> 1 <= s[i].ordinal < U16
    ensures DistinctOrdinals(s) <==> DistinctOrdinals(kept) && Roomy(kept)
  {
    PlannedRange(kept, s);
    PlannedNames(kept, s);
    PlannedDistinct(kept, s);
    hide *;
  }

  lemma PlannedRange(kept: seq<Export>, s: seq<Export>)
    requires AssignAll(kept) == Some(s)
    requires forall i :: 0 <= i < |kept| ==> kept[i].ordinal <= MAX_ORDINAL
    ensures |s| == |kept| && forall i :: 0 <= i < |s| ==> 1 <= s[i].ordinal < U16
  {
    OnlyOrdinals(kept, |kept|);
    hide AssignFirst, Roomy, OrdinalsGiven;
    forall i | 0 <= i < |s|
      ensures 1 <= s[i].ordinal < U16
    {
      if kept[i].ordinal == 0 { OrdinalsFit(kept, |kept|, i); }
    }
  }

  lemma PlannedNames(kept: seq<Export>, s: seq<Export>)
    requires NamesIncrease(kept) && AssignAll(kept) == Some(s)
    ensures |s| == |kept| && NamesIncrease(s)
  {
    OnlyOrdinals(kept, |kept|);
    hide AssignFirst, LexLe;
    assert forall i :: 0 <= i < |s| ==> s[i].name == kept[i].name;
  }

  lemma PlannedDistinct(kept: seq<Export>, s: seq<Export>)
    requires AssignAll(kept) == Some(s) && |s| == |kept|
    requires forall i :: 0 <= i < |s| ==> 1 <= s[i].ordinal < U16
    ensures DistinctOrdinals(s) <==> DistinctOrdinals(kept) && Roomy(kept)
  {
    OrdinalsExact(kept);
    if Roomy(kept) {
      OrdinalsDistinct(kept, s);
      hide *;
    } else {
      RunsOut(kept);
      NotDistinct(kept, s);
      hide *;
    }
  }

  lemma NotDistinct(kept: seq<Export>, s: seq<Export>)
    requires |s| == |kept| && Repeated(kept, s, |kept|) && forall i :: 0 <= i < |s| ==> 1 <= s[i].ordinal
    ensures !DistinctOrdinals(s)
  {
    var i, j :| 0 <= i < j < |kept| && kept[i].ordinal == 0 && kept[j].ordinal == 0 && s[i].ordinal == s[j].ordinal;
    assert s[i].ordinal != 0 && s[j].ordinal != 0;
  }
}
