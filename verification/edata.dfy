/** The export directory as bytes. */
module ExportTable {
  import opened Bits
  import opened Bytes
  import opened Results
  import opened Exports

  const DIRECTORY_SIZE: nat := 40

  datatype Table = Table(entries: seq<Export>, dllName: seq<Byte>, base: nat)

  /** Where a symbol is, if it is defined at an address. */
  type Addresses = seq<Byte> -> Option<nat>

  function Sat(n: nat): (r: nat)
    ensures r <= U32_MAX && (n <= U32_MAX ==> r == n)
  {
    if n > U32_MAX then U32_MAX else n
  }

  /** `u32::try_from(n).unwrap_or(0)`. */
  function OrZero(n: nat): (r: nat)
    ensures n <= U32_MAX ==> r == n
  {
    if n > U32_MAX then 0 else n
  }

  // ---- Parts of the table ----

  /** The exports with a name in the name pointer table. */
  function Named(entries: seq<Export>): (r: seq<Export>)
    ensures |r| <= |entries|
    decreases |entries|
  {
    if entries == [] then []
    else
      var last := entries[|entries| - 1];
      Named(entries[..|entries| - 1]) + (if last.noname then [] else [last])
  }

  function Forwarders(entries: seq<Export>): seq<seq<Byte>>
    decreases |entries|
  {
    if entries == [] then []
    else
      var last := entries[|entries| - 1];
      Forwarders(entries[..|entries| - 1]) + (if last.forwarder.Some? then [last.forwarder.value] else [])
  }

  /** Strings, each with the NUL that ends it. */
  function Flat(texts: seq<seq<Byte>>): seq<Byte>
    decreases |texts|
  {
    if texts == [] then [] else Flat(texts[..|texts| - 1]) + texts[|texts| - 1] + [0]
  }

  /** The names in the name pointer table, in order. */
  function NameTexts(t: Table): (r: seq<seq<Byte>>)
    ensures |r| == |Named(t.entries)|
  {
    var named := Named(t.entries);
    seq(|named|, i requires 0 <= i < |named| => named[i].name)
  }

  /** The strings of the table: the DLL's name, the forwarders, the names. */
  function Texts(t: Table): seq<seq<Byte>>
  {
    [t.dllName] + Forwarders(t.entries) + NameTexts(t)
  }

  function HighestOrdinal(entries: seq<Export>, base: nat): (r: nat)
    ensures entries == [] ==> r == base
    ensures forall i :: 0 <= i < |entries| ==> entries[i].ordinal <= r
    decreases |entries|
  {
    if entries == [] then base
    else if |entries| == 1 then entries[0].ordinal
    else
      var (rest, last) := (HighestOrdinal(entries[..|entries| - 1], base), entries[|entries| - 1].ordinal);
      if rest < last then last else rest
  }

  /** One address slot per ordinal in range. */
  function Slots(t: Table): nat
  {
    if t.entries == [] then 0
    else
      var high := HighestOrdinal(t.entries, t.base);
      (if high < t.base then 0 else high - t.base) + 1
  }

  function Words(list: seq<nat>): (r: seq<Byte>)
    ensures |r| == 4 * |list|
    decreases |list|
  {
    if list == [] then [] else Words(list[..|list| - 1]) + Le32(list[|list| - 1])
  }

  function Halves(list: seq<nat>): (r: seq<Byte>)
    ensures |r| == 2 * |list|
    decreases |list|
  {
    if list == [] then [] else Halves(list[..|list| - 1]) + Le16(list[|list| - 1])
  }

  // ---- Its size ----

  function StringSize(text: seq<Byte>): nat
  {
    Sat(OrZero(|text|) + 1)
  }

  /** Saturating sum of string sizes, from `start`. */
  function SumSizes(start: nat, texts: seq<seq<Byte>>): nat
    decreases |texts|
  {
    if texts == [] then start else Sat(SumSizes(start, texts[..|texts| - 1]) + StringSize(texts[|texts| - 1]))
  }

  /** `Exports::size`, with its saturating sums. */
  function Size(t: Table): nat
  {
    if t.entries == [] then 0
    else
      var names := OrZero(|Named(t.entries)|);
      var strings := SumSizes(StringSize(t.dllName), NameTexts(t) + Forwarders(t.entries));
      Sat(Sat(Sat(Sat(DIRECTORY_SIZE + Sat(Slots(t) * 4)) + Sat(names * 4)) + Sat(names * 2)) + strings)
  }

  // ---- Its contents ----

  /** Where the tables start. */
  datatype Places = Places(eat: nat, names: nat, ordinals: nat, strings: nat)

  function PlacesOf(t: Table, rva: nat): Places
  {
    var names := OrZero(|Named(t.entries)|);
    var eat := Sat(rva + DIRECTORY_SIZE);
    var nameTable := Sat(eat + Sat(Slots(t) * 4));
    var ordinalTable := Sat(nameTable + Sat(names * 4));
    Places(eat, nameTable, ordinalTable, Sat(ordinalTable + Sat(names * 2)))
  }

  /** Where the string after `before` lands. */
  function StringRva(strings: nat, before: seq<seq<Byte>>): nat
  {
    Sat(strings + OrZero(|Flat(before)|))
  }

  /** The address slot of export `k`: its forwarder's string, or its symbol's address. */
  function Slot(t: Table, addresses: Addresses, strings: nat, k: nat): nat
    requires k < |t.entries|
  {
    var e := t.entries[k];
    if e.forwarder.Some? then StringRva(strings, [t.dllName] + Forwarders(t.entries[..k]))
    else if e.symbol.Some? && addresses(e.symbol.value).Some? then addresses(e.symbol.value).value
    else 0
  }

  /** `wrapping_sub` on 16 bits. */
  function Index(t: Table, e: Export): nat
  {
    (e.ordinal - t.base) % U16
  }

  /** The export address table after the first `k` exports. */
  function AddressTable(t: Table, addresses: Addresses, strings: nat, k: nat): (r: seq<nat>)
    requires k <= |t.entries|
    ensures |r| == Slots(t)
  {
    if k == 0 then seq(Slots(t), _ => 0)
    else
      var table := AddressTable(t, addresses, strings, k - 1);
      var at := Index(t, t.entries[k - 1]);
      if at < |table| then table[at := Slot(t, addresses, strings, k - 1)] else table
  }

  function NamePointers(t: Table, strings: nat, k: nat): (r: seq<nat>)
    requires k <= |Named(t.entries)|
    ensures |r| == k
  {
    seq(k, i requires 0 <= i < k => StringRva(strings, StringsBefore(t, i)))
  }

  function NameOrdinals(t: Table, k: nat): (r: seq<nat>)
    requires k <= |Named(t.entries)|
    ensures |r| == k
  {
    seq(k, i requires 0 <= i < k => Index(t, Named(t.entries)[i]))
  }

  /** The words of `IMAGE_EXPORT_DIRECTORY`; the third holds two version numbers. */
  function Directory(t: Table, rva: nat): (r: seq<nat>)
    ensures |r| == 10
  {
    var p := PlacesOf(t, rva);
    [0, 0, 0, StringRva(p.strings, []), t.base, Slots(t), OrZero(|Named(t.entries)|), p.eat, p.names, p.ordinals]
  }

  /** `Exports::render`. */
  function Rendered(t: Table, addresses: Addresses, rva: nat): seq<Byte>
  {
    if t.entries == [] then []
    else
      var n := |Named(t.entries)|;
      var strings := PlacesOf(t, rva).strings;
      Words(Directory(t, rva)) + Words(AddressTable(t, addresses, strings, |t.entries|))
      + Words(NamePointers(t, strings, n)) + Halves(NameOrdinals(t, n)) + Flat(Texts(t))
  }

  lemma FlatNext(texts: seq<seq<Byte>>, text: seq<Byte>)
    ensures Flat(texts + [text]) == Flat(texts) + text + [0]
  {
    assert (texts + [text])[..|texts|] == texts;
  }

  lemma WordsNext(list: seq<nat>, word: nat)
    ensures Words(list + [word]) == Words(list) + Le32(word)
  {
    assert (list + [word])[..|list|] == list;
  }

  lemma HalvesNext(list: seq<nat>, half: nat)
    ensures Halves(list + [half]) == Halves(list) + Le16(half)
  {
    assert (list + [half])[..|list|] == list;
  }

  /** Appends words in a loop, as the writer does. */
  method WriteWords(list: seq<nat>) returns (bytes: seq<Byte>)
    ensures bytes == Words(list)
  {
    bytes := [];
    for i := 0 to |list|
      invariant bytes == Words(list[..i])
    {
      assert list[..i + 1] == list[..i] + [list[i]];
      WordsNext(list[..i], list[i]);
      bytes := bytes + Le32(list[i]);
    }
    assert list[..|list|] == list;
  }

  method WriteHalves(list: seq<nat>) returns (bytes: seq<Byte>)
    ensures bytes == Halves(list)
  {
    bytes := [];
    for i := 0 to |list|
      invariant bytes == Halves(list[..i])
    {
      assert list[..i + 1] == list[..i] + [list[i]];
      HalvesNext(list[..i], list[i]);
      bytes := bytes + Le16(list[i]);
    }
    assert list[..|list|] == list;
  }

  /** The symbols among the first `k` exports that are not defined. */
  predicate UndefinedAre(t: Table, addresses: Addresses, k: nat, undefined: seq<seq<Byte>>)
    requires k <= |t.entries|
  {
    && (forall i :: 0 <= i < k && t.entries[i].forwarder.None? && t.entries[i].symbol.Some? && addresses(t.entries[i].symbol.value).None? ==>
          t.entries[i].symbol.value in undefined)
    && (forall j :: 0 <= j < |undefined| ==> IsUndefined(t, addresses, k, undefined[j]))
  }

  predicate IsUndefined(t: Table, addresses: Addresses, k: nat, symbol: seq<Byte>)
    requires k <= |t.entries|
  {
    addresses(symbol).None? && exists i :: 0 <= i < k && t.entries[i].forwarder.None? && t.entries[i].symbol == Some(symbol)
  }

  /** The strings and the address table, export by export. */
  method WriteSlots(t: Table, addresses: Addresses, at: nat) returns (strings: seq<Byte>, table: seq<nat>, undefined: seq<seq<Byte>>)
    ensures strings == Flat([t.dllName] + Forwarders(t.entries))
    ensures table == AddressTable(t, addresses, at, |t.entries|)
    ensures UndefinedAre(t, addresses, |t.entries|, undefined)
  {
    strings := t.dllName + [0];
    FirstString(t);
    table := seq(Slots(t), _ => 0);
    undefined := [];
    assert UndefinedAre(t, addresses, 0, undefined);
    hide Slots, Flat, UndefinedAre;
    for k := 0 to |t.entries|
      invariant strings == Flat([t.dllName] + Forwarders(t.entries[..k]))
      invariant table == AddressTable(t, addresses, at, k)
      invariant UndefinedAre(t, addresses, k, undefined)
    {
      var value, missing := WriteSlot(t, addresses, at, k, strings);
      StringsNext(t, k);
      UndefinedNext(t, addresses, k, undefined, missing);
      if t.entries[k].forwarder.Some? {
        strings := strings + t.entries[k].forwarder.value + [0];
      }
      undefined := undefined + missing;
      if Index(t, t.entries[k]) < |table| { table := table[Index(t, t.entries[k]) := value]; }
    }
    assert t.entries[..|t.entries|] == t.entries;
  }

  /** One export's value, and its symbol if that is not defined. */
  method WriteSlot(t: Table, addresses: Addresses, at: nat, k: nat, strings: seq<Byte>) returns (value: nat, missing: seq<seq<Byte>>)
    requires k < |t.entries| && strings == Flat([t.dllName] + Forwarders(t.entries[..k]))
    ensures value == Slot(t, addresses, at, k)
    ensures missing == Missing(t.entries[k], addresses)
  {
    var e := t.entries[k];
    value, missing := 0, [];
    hide Flat, Forwarders;
    if e.forwarder.Some? {
      value := Sat(at + OrZero(|strings|));
    } else if e.symbol.Some? {
      if addresses(e.symbol.value).Some? { value := addresses(e.symbol.value).value; } else { missing := [e.symbol.value]; }
    }
  }

  function Missing(e: Export, addresses: Addresses): seq<seq<Byte>>
  {
    if e.forwarder.None? && e.symbol.Some? && addresses(e.symbol.value).None? then [e.symbol.value] else []
  }

  lemma FirstString(t: Table)
    ensures t.dllName + [0] == Flat([t.dllName] + Forwarders(t.entries[..0]))
  {
    FlatNext([], t.dllName);
    assert [] + [t.dllName] == [t.dllName] + Forwarders(t.entries[..0]);
  }

  lemma StringsNext(t: Table, k: nat)
    requires k < |t.entries|
    ensures Flat([t.dllName] + Forwarders(t.entries[..k + 1]))
         == Flat([t.dllName] + Forwarders(t.entries[..k])) + (if t.entries[k].forwarder.Some? then t.entries[k].forwarder.value + [0] else [])
  {
    ForwardersNext(t.entries, k);
    var before := [t.dllName] + Forwarders(t.entries[..k]);
    hide Flat, Forwarders;
    if t.entries[k].forwarder.Some? {
      var text := t.entries[k].forwarder.value;
      FlatNext(before, text);
      assert before + [text] == [t.dllName] + Forwarders(t.entries[..k + 1]);
      assert Flat(before) + (text + [0]) == Flat(before) + text + [0];
    } else {
      assert [t.dllName] + Forwarders(t.entries[..k + 1]) == before;
    }
  }

  lemma UndefinedNext(t: Table, addresses: Addresses, k: nat, undefined: seq<seq<Byte>>, missing: seq<seq<Byte>>)
    requires k < |t.entries| && UndefinedAre(t, addresses, k, undefined) && missing == Missing(t.entries[k], addresses)
    ensures UndefinedAre(t, addresses, k + 1, undefined + missing)
  {
    forall j | 0 <= j < |undefined + missing|
      ensures IsUndefined(t, addresses, k + 1, (undefined + missing)[j])
    {
      if j < |undefined| {
        assert IsUndefined(t, addresses, k, undefined[j]);
      }
    }
  }

  lemma ForwardersNext(entries: seq<Export>, k: nat)
    requires k < |entries|
    ensures Forwarders(entries[..k + 1]) == Forwarders(entries[..k]) + (if entries[k].forwarder.Some? then [entries[k].forwarder.value] else [])
  {
    assert entries[..k + 1][..k] == entries[..k];
  }

  /** The names' strings, pointers and ordinals. */
  method WriteNames(t: Table, at: nat, given: seq<Byte>) returns (strings: seq<Byte>, pointers: seq<nat>, ordinals: seq<nat>)
    requires given == Flat([t.dllName] + Forwarders(t.entries))
    ensures strings == Flat(Texts(t))
    ensures pointers == NamePointers(t, at, |Named(t.entries)|) && ordinals == NameOrdinals(t, |Named(t.entries)|)
  {
    var named := Named(t.entries);
    strings, pointers, ordinals := given, [], [];
    assert StringsBefore(t, 0) == [t.dllName] + Forwarders(t.entries);
    assert StringsBefore(t, |named|) == Texts(t);
    hide Flat, Named, Forwarders, Index, StringsBefore, Texts;
    for k := 0 to |named|
      invariant strings == Flat(StringsBefore(t, k))
      invariant pointers == NamePointers(t, at, k) && ordinals == NameOrdinals(t, k)
    {
      NamesNext(t, at, k);
      pointers := pointers + [Sat(at + OrZero(|strings|))];
      ordinals := ordinals + [Index(t, named[k])];
      strings := strings + named[k].name + [0];
    }
  }

  /** The strings before the `k`-th name. */
  function StringsBefore(t: Table, k: nat): seq<seq<Byte>>
    requires k <= |Named(t.entries)|
  {
    [t.dllName] + Forwarders(t.entries) + NameTexts(t)[..k]
  }

  lemma NamesNext(t: Table, at: nat, k: nat)
    requires k < |Named(t.entries)|
    ensures Flat(StringsBefore(t, k + 1)) == Flat(StringsBefore(t, k)) + Named(t.entries)[k].name + [0]
    ensures NamePointers(t, at, k + 1) == NamePointers(t, at, k) + [StringRva(at, StringsBefore(t, k))]
    ensures NameOrdinals(t, k + 1) == NameOrdinals(t, k) + [Index(t, Named(t.entries)[k])]
    ensures StringRva(at, StringsBefore(t, k)) == Sat(at + OrZero(|Flat(StringsBefore(t, k))|))
  {
    hide Flat, Forwarders, Named, Index;
    FlatNext(StringsBefore(t, k), Named(t.entries)[k].name);
    assert StringsBefore(t, k) + [Named(t.entries)[k].name] == StringsBefore(t, k + 1);
  }

  /** `Exports::render`: the bytes, and the symbols reported as undefined. */
  method Render(t: Table, addresses: Addresses, rva: nat) returns (out: seq<Byte>, undefined: seq<seq<Byte>>)
    ensures out == Rendered(t, addresses, rva)
    ensures t.entries != [] ==> UndefinedAre(t, addresses, |t.entries|, undefined)
  {
    out, undefined := [], [];
    if t.entries == [] { return; }
    var p := PlacesOf(t, rva);
    hide Words, Halves, Flat, Slots, PlacesOf, AddressTable, NamePointers, NameOrdinals, Forwarders, Named, Texts;
    var strings, table, pointers, ordinals;
    strings, table, undefined := WriteSlots(t, addresses, p.strings);
    strings, pointers, ordinals := WriteNames(t, p.strings, strings);
    out := WriteWords(Directory(t, rva));
    var more := WriteWords(table);
    out := out + more;
    more := WriteWords(pointers);
    out := out + more;
    more := WriteHalves(ordinals);
    out := out + more + strings;
  }

  // ---- The size is right ----

  lemma {:induction false} SumIsFlat(start: nat, texts: seq<seq<Byte>>)
    requires start + |Flat(texts)| <= U32_MAX
    ensures SumSizes(start, texts) == start + |Flat(texts)|
    decreases |texts|
  {
    if texts != [] {
      SumIsFlat(start, texts[..|texts| - 1]);
    }
  }

  lemma {:induction false} FlatJoin(a: seq<seq<Byte>>, b: seq<seq<Byte>>)
    ensures Flat(a + b) == Flat(a) + Flat(b)
    decreases |b|
  {
    if b == [] {
      assert a + b == a;
    } else {
      var (init, last) := (b[..|b| - 1], b[|b| - 1]);
      assert a + b == a + init + [last] && b == init + [last];
      FlatJoin(a, init);
      FlatNext(a + init, last);
      FlatNext(init, last);
    }
  }

  lemma FlatCounts(a: seq<seq<Byte>>, b: seq<seq<Byte>>, c: seq<seq<Byte>>)
    ensures |Flat(a + b + c)| == |Flat(a)| + |Flat(b)| + |Flat(c)| && |Flat(c + b)| == |Flat(c)| + |Flat(b)|
  {
    FlatJoin(a + b, c);
    FlatJoin(a, b);
    FlatJoin(c, b);
  }

  lemma TextsAre(t: Table)
    ensures Texts(t) == [t.dllName] + Forwarders(t.entries) + NameTexts(t)
    ensures |Flat([t.dllName])| == |t.dllName| + 1
  {
    FirstString(t);
    assert [t.dllName] + Forwarders(t.entries[..0]) == [t.dllName];
  }

  function Total(t: Table): nat
  {
    40 + 4 * Slots(t) + 4 * |Named(t.entries)| + 2 * |Named(t.entries)| + |Flat(Texts(t))|
  }

  lemma RenderedLength(t: Table, addresses: Addresses, rva: nat)
    requires t.entries != []
    ensures |Rendered(t, addresses, rva)| == Total(t)
  {
    hide Flat, Texts, Named, Slots, Words, Halves, PlacesOf, Forwarders, Directory;
  }

  lemma SizeIsTotal(t: Table)
    requires t.entries != [] && Total(t) <= U32_MAX
    ensures Size(t) == Total(t)
  {
    var (forwarders, names) := (Forwarders(t.entries), NameTexts(t));
    TextsAre(t);
    FlatCounts([t.dllName], forwarders, names);
    hide Flat, Forwarders, Named, NameTexts, Slots, Texts;
    SumIsFlat(|t.dllName| + 1, names + forwarders);
  }

  /** The size known before layout is the number of bytes rendered after it, exactly when that fits 32 bits. */
  lemma RenderedSize(t: Table, addresses: Addresses, rva: nat)
    ensures Size(t) == |Rendered(t, addresses, rva)| <==> |Rendered(t, addresses, rva)| <= U32_MAX
  {
    hide Total;
    if t.entries != [] {
      RenderedLength(t, addresses, rva);
      if Total(t) <= U32_MAX { SizeIsTotal(t); }
      assert Size(t) <= U32_MAX;
    }
  }
}
