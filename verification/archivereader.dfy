/** A reader of `ar` archives, and what it finds in the linker's. */
module ArchiveReader {
  import opened Bits
  import opened Bytes
  import opened Results
  import opened ImportArchive

  // ---- The reader ----

  predicate IsArchive(out: seq<Byte>)
  {
    |out| >= 8 && out[..8] == Ascii("!<arch>\n")
  }

  /** The bytes from `at` up to a slash. */
  function UntilSlash(data: seq<Byte>, at: nat): seq<Byte>
    decreases |data| - at
  {
    if at >= |data| || data[at] == SLASH then [] else [data[at]] + UntilSlash(data, at + 1)
  }

  /** A member's name, from its 16-byte field and the long-name table. */
  function ReadName(field: seq<Byte>, long: seq<Byte>): seq<Byte>
    requires |field| == 16
  {
    if field[0] == SLASH then UntilSlash(long, ParseDecimal(field[1..], 0)) else UntilSlash(field, 0)
  }

  /** The size in a member's header, if there is a header. */
  function ReadSize(out: seq<Byte>, at: nat): Option<nat>
  {
    if at + 60 <= |out| && out[at + 58..at + 60] == [0x60, 0x0a] then Some(ParseDecimal(out[at + 48..at + 58], 0)) else None
  }

  /** A member's data. */
  function ReadData(out: seq<Byte>, at: nat): Option<seq<Byte>>
  {
    var size := ReadSize(out, at);
    if size.Some? && at + 60 + size.value <= |out| then Some(out[at + 60..at + 60 + size.value]) else None
  }

  /** The long-name table, if the second member is one. */
  function ReadLong(out: seq<Byte>): seq<Byte>
  {
    var first := ReadSize(out, 8);
    if first.None? then []
    else
      var at := 8 + 60 + Pad(first.value);
      if at + 60 <= |out| && out[at] == SLASH && out[at + 1] == SLASH && ReadData(out, at).Some? then ReadData(out, at).value else []
  }

  datatype Entry = Entry(name: seq<Byte>, data: seq<Byte>)

  function ReadMember(out: seq<Byte>, at: nat): Option<Entry>
  {
    var data := ReadData(out, at);
    if data.None? || !IsArchive(out) then None else Some(Entry(ReadName(out[at..at + 16], ReadLong(out)), data.value))
  }

  /** The `i`-th of the NUL-terminated strings from `at` on. */
  function NthString(data: seq<Byte>, at: nat, i: nat): Option<seq<Byte>>
    decreases i
  {
    var first := CString(data, at);
    if first.None? || i == 0 then first else NthString(data, at + |first.value| + 1, i - 1)
  }

  /** Entry `i` of the symbol index: a symbol and its member's offset. */
  function ReadSymbol(out: seq<Byte>, i: nat): Option<(seq<Byte>, nat)>
  {
    var index := ReadData(out, 8);
    if index.None? || |index.value| < 4 || !IsArchive(out) then None
    else
      var count := Word32Be(index.value[0..4]);
      if i >= count || 4 + 4 * i + 4 > |index.value| then None
      else
        var name := NthString(index.value, 4 + 4 * count, i);
        if name.None? then None else Some((name.value, Word32Be(index.value[4 + 4 * i..4 + 4 * i + 4])))
  }

  // ---- Headers ----

  /** A text and the blanks that fill its column. */
  function Column(text: seq<Byte>, width: nat): (r: seq<Byte>)
    requires |text| <= width
    ensures |r| == width
  {
    text + Spaces(width - |text|)
  }

  /** Text put at the end of what a blank header has so far. */
  lemma PutNext(h: seq<Byte>, at: nat, text: seq<Byte>, next: nat)
    requires |h| == 60 && at + |text| <= next <= 60 && h[at..] == Spaces(60 - at)
    ensures Put(h, at, text)[..next] == h[..at] + Column(text, next - at) && Put(h, at, text)[next..] == Spaces(60 - next)
  {
    var (p, end) := (Put(h, at, text), at + |text|);
    PatchedSlice(h, at, text, 0, at);
    PatchedSlice(h, at, text, at, end);
    PatchedSlice(h, at, text, end, next);
    PatchedSlice(h, at, text, next, 60);
    assert p == Patched(h, at, text);
    hide Put, Patched;
    BlankSlice(h, at, end, next);
    BlankSlice(h, at, next, 60);
    assert p[..next] == p[0..at] + (p[at..end] + p[end..next]);
    assert p[next..] == p[next..60] && h[..at] == h[0..at];
  }

  lemma BlankSlice(h: seq<Byte>, at: nat, lo: nat, hi: nat)
    requires |h| == 60 && at <= lo <= hi <= 60 && h[at..] == Spaces(60 - at)
    ensures h[lo..hi] == Spaces(hi - lo)
  {
    assert forall k :: lo <= k < hi ==> h[k] == h[at..][k - at];
  }

  lemma HeaderTexts()
    ensures Ascii("0") == [0x30] && Ascii("644") == [0x36, 0x34, 0x34] && Ascii("`\n") == [0x60, 0x0a]
  {
  }

  /** The columns: name, time, owner, group, mode, size, and the two bytes that end a header. */
  function Columns(name: seq<Byte>, digits: seq<Byte>): (r: seq<Byte>)
    requires |name| <= 16 && |digits| <= 10
  {
    Column(name, 16) + Column(Ascii("0"), 12) + Column(Ascii("0"), 6) + Column(Ascii("0"), 6) + Column(Ascii("644"), 8)
    + Column(digits, 10) + Ascii("`\n")
  }

  /** A header is its columns. */
  lemma HeaderColumns(name: seq<Byte>, size: nat)
    requires |name| <= 16 && size < Power10(10)
    ensures |Decimal(size)| <= 10 && Header(name, size) == Columns(name, Decimal(size))
  {
    DecimalLength(size, 10);
    HeaderTexts();
    var (blank, digits) := (Spaces(60), Decimal(size));
    assert blank[0..] == Spaces(60) && blank[..0] == [];
    hide Put, Decimal, Column, Spaces, Power10;
    var h0 := Put(blank, 0, name);
    var h1 := Put(h0, 16, [0x30]);
    var h2 := Put(h1, 28, [0x30]);
    var h3 := Put(h2, 34, [0x30]);
    var h4 := Put(h3, 40, [0x36, 0x34, 0x34]);
    var h5 := Put(h4, 48, digits);
    var h6 := Put(h5, 58, [0x60, 0x0a]);
    PutNext(blank, 0, name, 16);
    PutNext(h0, 16, [0x30], 28);
    PutNext(h1, 28, [0x30], 34);
    PutNext(h2, 34, [0x30], 40);
    PutNext(h3, 40, [0x36, 0x34, 0x34], 48);
    PutNext(h4, 48, digits, 58);
    PutNext(h5, 58, [0x60, 0x0a], 60);
    FullColumn([0x60, 0x0a]);
    assert h6[..60] == h6 == Header(name, size);
    assert [] + Column(name, 16) == Column(name, 16);
  }

  lemma FullColumn(text: seq<Byte>)
    ensures Column(text, |text|) == text
  {
  }

  /** The name column. */
  lemma HeaderName(name: seq<Byte>, size: nat)
    requires |name| <= 16 && size < Power10(10)
    ensures Header(name, size)[..|name|] == name
    ensures forall k: nat :: |name| <= k < 16 ==> Header(name, size)[k] == SPACE
  {
    HeaderColumns(name, size);
    hide Header, Decimal, Power10, Ascii;
    var h := Header(name, size);
    assert forall k :: 0 <= k < 16 ==> h[k] == Column(name, 16)[k];
  }

  /** The size column holds the digits and spaces; two bytes end the header. */
  lemma HeaderSize(name: seq<Byte>, size: nat)
    requires |name| <= 16 && size < Power10(10)
    ensures Header(name, size)[58..60] == [0x60, 0x0a]
    ensures |Decimal(size)| <= 10
    ensures Header(name, size)[48..58] == Decimal(size) + Spaces(10 - |Decimal(size)|)
  {
    HeaderColumns(name, size);
    HeaderTexts();
    hide Header, Decimal, Power10, Ascii, Spaces;
    var h := Header(name, size);
    assert h[48..58] == Column(Decimal(size), 10);
  }

  // ---- A member where it is stored ----

  lemma ReadSizeIs(out: seq<Byte>, at: nat, digits: seq<Byte>, size: nat)
    requires at + 60 <= |out| && out[at + 58..at + 60] == [0x60, 0x0a]
    requires out[at + 48..at + 58] == digits && ParseDecimal(digits, 0) == size
    ensures ReadSize(out, at) == Some(size)
  {
    hide ParseDecimal;
  }

  lemma ReadDataIs(out: seq<Byte>, at: nat, data: seq<Byte>)
    requires ReadSize(out, at) == Some(|data|)
    requires at + 60 + |data| <= |out| && out[at + 60..at + 60 + |data|] == data
    ensures ReadData(out, at) == Some(data)
  {
    hide ReadSize;
  }

  lemma HeaderSlices(out: seq<Byte>, at: nat, header: seq<Byte>)
    requires |header| == 60 && at + 60 <= |out| && out[at..at + 60] == header
    ensures out[at + 58..at + 60] == header[58..60] && out[at + 48..at + 58] == header[48..58]
    ensures out[at] == header[0] && out[at + 1] == header[1] && out[at..at + 16] == header[..16]
  {
    SliceOf(out, at, 60, 58, 60);
    SliceOf(out, at, 60, 48, 58);
    SliceOf(out, at, 60, 0, 16);
    assert out[at] == header[0] && out[at + 1] == header[1];
  }

  /** Where a stored member with a well-formed header is, its data reads back. */
  lemma StoredReads(out: seq<Byte>, at: nat, name: seq<Byte>, data: seq<Byte>)
    requires |name| <= 16 && |data| < Power10(10)
    requires at + 60 + |data| <= |out|
    requires out[at..at + 60] == Header(name, |data|) && out[at + 60..at + 60 + |data|] == data
    ensures ReadSize(out, at) == Some(|data|) && ReadData(out, at) == Some(data)
  {
    hide *;
    var header := Header(name, |data|);
    HeaderSize(name, |data|);
    HeaderSlices(out, at, header);
    var blanks := Spaces(10 - |Decimal(|data|)|);
    SpacesStart(10 - |Decimal(|data|)|);
    DecimalReads(|data|, blanks);
    ReadSizeIs(out, at, Decimal(|data|) + blanks, |data|);
    ReadDataIs(out, at, data);
  }

  lemma SpacesStart(n: nat)
    ensures Spaces(n) == [] || Spaces(n)[0] < 0x30
  {
  }

  lemma SliceOf(out: seq<Byte>, at: nat, size: nat, lo: nat, hi: nat)
    requires at + size <= |out| && lo <= hi <= size
    ensures out[at..at + size][lo..hi] == out[at + lo..at + hi]
  {
    var (a, b) := (out[at..at + size][lo..hi], out[at + lo..at + hi]);
    assert |a| == |b|;
    assert forall k :: 0 <= k < |a| ==> a[k] == out[at + lo + k] == b[k];
    assert a == b;
  }

  // ---- What is found ----

  /** Member names a reader can tell apart from the special members, and sizes that fit their columns. */
  predicate Readable(members: seq<Member>)
  {
    && Indexable(members)
    && (forall k :: 0 <= k < |members| ==> members[k].name != [] && SLASH !in members[k].name)
    && (forall k :: 0 <= k < |members| ==> |members[k].data| < Power10(10))
    && (forall k, j :: 0 <= k < |members| && 0 <= j < |members[k].defines| ==> 0 !in members[k].defines[j])
    && |Index(members)| < Power10(10) && |LongNames(members, |members|)| < Power10(10)
  }

  lemma FirstPart(out: seq<Byte>, a: seq<Byte>, b: seq<Byte>)
    requires a + b <= out
    ensures a <= out
  {
    assert out[..|a + b|] == a + b;
    assert out[..|a|] == (a + b)[..|a|] == a;
  }

  lemma IndexFirst(members: seq<Member>)
    ensures Magic() + Stored([SLASH], Index(members)) <= Upto(members, |members|)
  {
    hide *;
    UptoPrefix(members, 0, |members|);
    UptoStarts(members);
    var (out, first) := (Upto(members, |members|), Magic() + Stored([SLASH], Index(members)));
    if LongNames(members, |members|) != [] {
      FirstPart(out, first, Stored([SLASH, SLASH], LongNames(members, |members|)));
    } else {
      assert first + [] == first;
    }
  }

  lemma StoredAt(out: seq<Byte>, before: seq<Byte>, name: seq<Byte>, data: seq<Byte>, at: nat)
    requires before + Stored(name, data) <= out && at == |before|
    ensures at + 60 + |data| <= |out|
    ensures out[at..at + 60] == Header(name, |data|) && out[at + 60..at + 60 + |data|] == data
  {
    hide *;
    StoredSlices(out, before, name, data);
  }

  /** The index is the first member. */
  lemma IndexPlaced(members: seq<Member>)
    ensures 68 + |Index(members)| <= |Upto(members, |members|)|
    ensures Upto(members, |members|)[8..68] == Header([SLASH], |Index(members)|)
    ensures Upto(members, |members|)[68..68 + |Index(members)|] == Index(members)
  {
    hide *;
    IndexFirst(members);
    StoredAt(Upto(members, |members|), Magic(), [SLASH], Index(members), 8);
  }

  /** Before it come the eight bytes every archive starts with. */
  lemma ArchiveStarts(members: seq<Member>)
    ensures IsArchive(Upto(members, |members|))
  {
    hide *;
    IndexFirst(members);
    FirstPart(Upto(members, |members|), Magic(), Stored([SLASH], Index(members)));
    MagicStarts(Upto(members, |members|));
  }

  lemma MagicText()
    ensures Magic() == Ascii("!<arch>\n")
  {
  }

  lemma MagicStarts(out: seq<Byte>)
    requires Magic() <= out
    ensures IsArchive(out)
  {
    MagicText();
    hide Magic, Ascii;
  }

  /** The long names, if there are any, are the second. */
  lemma LongPlaced(members: seq<Member>)
    requires LongNames(members, |members|) != []
    ensures var (out, long, at) := (Upto(members, |members|), LongNames(members, |members|), 8 + 60 + Pad(|Index(members)|));
      && at + 60 + |long| <= |out|
      && out[at..at + 60] == Header([SLASH, SLASH], |long|) && out[at + 60..at + 60 + |long|] == long
  {
    hide *;
    var (index, long) := (Index(members), LongNames(members, |members|));
    UptoPrefix(members, 0, |members|);
    UptoStarts(members);
    StoredSlices(Upto(members, |members|), Magic() + Stored([SLASH], index), [SLASH, SLASH], long);
  }

  lemma UptoStarts(members: seq<Member>)
    ensures var long := LongNames(members, |members|);
      Upto(members, 0) == Magic() + Stored([SLASH], Index(members)) + (if long == [] then [] else Stored([SLASH, SLASH], long))
  {
    hide Stored, Index, LongNames;
  }

  lemma SizesFit(members: seq<Member>)
    requires Readable(members)
    ensures |Index(members)| < Power10(10) && |LongNames(members, |members|)| < Power10(10)
  {
    hide Index, LongNames, Power10, Indexable;
  }

  lemma LongHeader(out: seq<Byte>, at: nat, long: seq<Byte>)
    requires |long| < Power10(10) && at + 60 + |long| <= |out|
    requires out[at..at + 60] == Header([SLASH, SLASH], |long|) && out[at + 60..at + 60 + |long|] == long
    ensures out[at] == SLASH && out[at + 1] == SLASH && ReadData(out, at) == Some(long)
  {
    hide Header, ReadData, Power10;
    HeaderName([SLASH, SLASH], |long|);
    HeaderSlices(out, at, Header([SLASH, SLASH], |long|));
    StoredReads(out, at, [SLASH, SLASH], long);
    assert Header([SLASH, SLASH], |long|)[..2][0] == SLASH && Header([SLASH, SLASH], |long|)[..2][1] == SLASH;
  }

  lemma ReadLongIs(out: seq<Byte>, indexSize: nat, long: seq<Byte>)
    requires ReadSize(out, 8) == Some(indexSize)
    requires var at := 8 + 60 + Pad(indexSize);
      at + 60 <= |out| && out[at] == SLASH && out[at + 1] == SLASH && ReadData(out, at) == Some(long)
    ensures ReadLong(out) == long
  {
    hide ReadSize, ReadData;
  }

  lemma ReadLongNone(out: seq<Byte>, indexSize: nat)
    requires ReadSize(out, 8) == Some(indexSize)
    requires var at := 8 + 60 + Pad(indexSize); at + 60 <= |out| ==> out[at] != SLASH
    ensures ReadLong(out) == []
  {
    hide ReadSize, ReadData;
  }

  /** The long-name table reads back; without one, no member is mistaken for it. */
  lemma LongReads(members: seq<Member>)
    requires Readable(members)
    ensures ReadLong(Upto(members, |members|)) == LongNames(members, |members|)
  {
    hide *;
    SizesFit(members);
    var (out, index, long) := (Upto(members, |members|), Index(members), LongNames(members, |members|));
    IndexPlaced(members);
    StoredReads(out, 8, [SLASH], index);
    if long != [] {
      LongPlaced(members);
      LongHeader(out, 8 + 60 + Pad(|index|), long);
      ReadLongIs(out, |index|, long);
    } else {
      NoLongRead(members);
      ReadLongNone(out, |index|);
    }
  }

  lemma FirstOffset(members: seq<Member>)
    requires LongNames(members, |members|) == []
    ensures Offset(members, 0) == 8 + 60 + Pad(|Index(members)|)
  {
    hide Index, LongNames, Symbols, IndexSize;
  }

  lemma EmptyEnds(members: seq<Member>)
    requires members == [] && LongNames(members, |members|) == []
    ensures |Upto(members, |members|)| == 8 + 60 + Pad(|Index(members)|) < 8 + 60 + Pad(|Index(members)|) + 60
  {
    FirstOffset(members);
    hide Index, LongNames, Upto, Offset;
  }

  lemma NamesClean(members: seq<Member>, k: nat)
    requires Readable(members) && k < |members|
    ensures SLASH !in members[k].name && members[k].name != [] && |members[k].data| < Power10(10)
  {
    hide Index, LongNames, Power10, Indexable;
  }

  lemma ShortHeader(members: seq<Member>, k: nat)
    requires k < |members| && |members[k].name| <= 15 && SLASH !in members[k].name && members[k].name != []
    requires |members[k].data| < Power10(10)
    ensures Header(NameField(members, k), |members[k].data|)[0] != SLASH
  {
    hide Header, LongNames, Decimal, Power10;
    var field := NameField(members, k);
    HeaderName(field, |members[k].data|);
    assert Header(field, |members[k].data|)[..|field|][0] == field[0] == members[k].name[0];
  }

  lemma NoLongRead(members: seq<Member>)
    requires Readable(members) && LongNames(members, |members|) == []
    ensures var (out, at) := (Upto(members, |members|), 8 + 60 + Pad(|Index(members)|));
      at + 60 <= |out| ==> out[at] != SLASH
  {
    hide *;
    if members != [] {
      FirstOffset(members);
      MemberPlaced(members, 0);
      NoLongMeansShort(members, |members|, 0);
      NamesClean(members, 0);
      ShortHeader(members, 0);
      HeaderSlices(Upto(members, |members|), Offset(members, 0), Header(NameField(members, 0), |members[0].data|));
    } else {
      EmptyEnds(members);
    }
  }

  lemma {:induction false} NoLongMeansShort(members: seq<Member>, n: nat, k: nat)
    requires k < n <= |members| && LongNames(members, n) == []
    ensures |members[k].name| <= 15
  {
    if k < n - 1 { NoLongMeansShort(members, n - 1, k); }
  }

  // ---- Names ----

  lemma {:induction false} UntilSlashReads(data: seq<Byte>, at: nat, text: seq<Byte>)
    requires SLASH !in text && at + |text| < |data| && data[at..at + |text|] == text && data[at + |text|] == SLASH
    ensures UntilSlash(data, at) == text
    decreases |text|
  {
    if text != [] {
      assert data[at] == data[at..at + |text|][0] == text[0];
      assert data[at + 1..at + 1 + |text[1..]|] == text[1..];
      UntilSlashReads(data, at + 1, text[1..]);
      assert text == [text[0]] + text[1..];
    }
  }

  lemma {:induction false} LongNamesPrefix(members: seq<Member>, k: nat, n: nat)
    requires k <= n <= |members|
    ensures LongNames(members, k) <= LongNames(members, n)
  {
    if k < n { LongNamesPrefix(members, k, n - 1); }
  }

  /** A long name is in the table where its field says. */
  lemma LongNameThere(members: seq<Member>, k: nat)
    requires k < |members| && |members[k].name| > 15
    ensures var (long, at, name) := (LongNames(members, |members|), |LongNames(members, k)|, members[k].name);
      at + |name| + 2 <= |long| && long[at..at + |name|] == name && long[at + |name|] == SLASH && long[at + |name| + 1] == NEWLINE
  {
    LongNamesPrefix(members, k + 1, |members|);
    var (long, before, name) := (LongNames(members, |members|), LongNames(members, k), members[k].name);
    assert LongNames(members, k + 1) == before + (name + [SLASH, NEWLINE]);
    hide LongNames;
    TailThere(long, before, name);
  }

  lemma TailThere(long: seq<Byte>, before: seq<Byte>, name: seq<Byte>)
    requires before + (name + [SLASH, NEWLINE]) <= long
    ensures |before| + |name| + 2 <= |long| && long[|before|..|before| + |name|] == name
    ensures long[|before| + |name|] == SLASH && long[|before| + |name| + 1] == NEWLINE
  {
    var whole := before + (name + [SLASH, NEWLINE]);
    assert long[..|whole|] == whole;
    assert long[|before|..|before| + |name|] == whole[|before|..|before| + |name|];
    assert long[|before| + |name|] == whole[|before| + |name|] && long[|before| + |name| + 1] == whole[|before| + |name| + 1];
  }

  lemma FieldFits(members: seq<Member>, k: nat)
    requires k < |members| && |LongNames(members, |members|)| < Power10(10)
    ensures |NameField(members, k)| <= 16
    ensures |members[k].name| > 15 ==> |Decimal(|LongNames(members, k)|)| <= 10
  {
    LongNamesPrefix(members, k, |members|);
    hide LongNames, Decimal, Power10;
    if |members[k].name| > 15 { DecimalLength(|LongNames(members, k)|, 10); }
  }

  /** The name field leads back to the member's name. */
  lemma NameReads(members: seq<Member>, k: nat, field: seq<Byte>)
    requires k < |members| && SLASH !in members[k].name && members[k].name != []
    requires |LongNames(members, |members|)| < Power10(10)
    requires |field| == 16 && NameField(members, k) <= field
    requires forall i: nat :: |NameField(members, k)| <= i < 16 ==> field[i] == SPACE
    ensures ReadName(field, LongNames(members, |members|)) == members[k].name
  {
    var name := members[k].name;
    FieldFits(members, k);
    hide Decimal, LongNames, UntilSlash, ParseDecimal, Power10;
    if |name| <= 15 {
      ShortReads(field, name);
    } else {
      LongNameThere(members, k);
      LongField(field, |LongNames(members, k)|);
      UntilSlashReads(LongNames(members, |members|), |LongNames(members, k)|, name);
    }
  }

  lemma ShortReads(field: seq<Byte>, name: seq<Byte>)
    requires |field| == 16 && name + [SLASH] <= field && SLASH !in name && name != []
    ensures field[0] != SLASH && UntilSlash(field, 0) == name
  {
    var whole := name + [SLASH];
    assert field[..|whole|] == whole;
    assert field[0] == whole[0] == name[0];
    assert field[|name|] == whole[|name|];
    assert field[0..0 + |name|] == name;
    UntilSlashReads(field, 0, name);
  }

  lemma LongField(field: seq<Byte>, n: nat)
    requires |field| == 16 && [SLASH] + Decimal(n) <= field
    requires forall i: nat :: 1 + |Decimal(n)| <= i < 16 ==> field[i] == SPACE
    ensures field[0] == SLASH && ParseDecimal(field[1..], 0) == n
  {
    hide Decimal, ParseDecimal;
    var d := Decimal(n);
    var whole := [SLASH] + d;
    assert field[..|whole|] == whole;
    assert field[0] == whole[0];
    assert field[1..1 + |d|] == whole[1..];
    assert field[1..] == d + Spaces(15 - |d|);
    SpacesStart(15 - |d|);
    DecimalReads(n, Spaces(15 - |d|));
  }

  lemma HeaderField(name: seq<Byte>, size: nat)
    requires |name| <= 16 && size < Power10(10)
    ensures name <= Header(name, size)[..16] && forall i: nat :: |name| <= i < 16 ==> Header(name, size)[..16][i] == SPACE
  {
    hide Header, Power10;
    HeaderName(name, size);
  }

  lemma ReadMemberIs(out: seq<Byte>, at: nat, name: seq<Byte>, data: seq<Byte>)
    requires ReadData(out, at) == Some(data) && at + 16 <= |out|
    requires ReadName(out[at..at + 16], ReadLong(out)) == name && IsArchive(out)
    ensures ReadMember(out, at) == Some(Entry(name, data))
  {
    hide ReadData, ReadName, ReadLong, IsArchive;
  }

  /** Reading at a member's offset gives the member. */
  lemma MemberReads(members: seq<Member>, k: nat)
    requires Readable(members) && k < |members|
    ensures ReadMember(Upto(members, |members|), Offset(members, k)) == Some(Entry(members[k].name, members[k].data))
  {
    hide *;
    var (out, at, field) := (Upto(members, |members|), Offset(members, k), NameField(members, k));
    SizesFit(members);
    NamesClean(members, k);
    MemberPlaced(members, k);
    FieldFits(members, k);
    StoredReads(out, at, field, members[k].data);
    LongReads(members);
    HeaderField(field, |members[k].data|);
    HeaderSlices(out, at, Header(field, |members[k].data|));
    NameReads(members, k, out[at..at + 16]);
    ArchiveStarts(members);
    ReadMemberIs(out, at, members[k].name, members[k].data);
  }

  // ---- The symbol index ----

  lemma {:induction false} IndexOffsetAt(members: seq<Member>, symbols: seq<(seq<Byte>, nat)>, i: nat)
    requires forall j :: 0 <= j < |symbols| ==> symbols[j].1 <= |members|
    requires i < |symbols|
    ensures IndexOffsets(members, symbols)[4 * i..4 * i + 4] == Be32(Offset(members, symbols[i].1))
    decreases |symbols|
  {
    hide Offset, Be32;
    var init := symbols[..|symbols| - 1];
    var (a, b) := (IndexOffsets(members, init), Be32(Offset(members, symbols[|init|].1)));
    if i < |init| {
      IndexOffsetAt(members, init, i);
    } else {
      assert (a + b)[|a|..|a| + 4] == b;
    }
  }

  lemma {:induction false} SymbolNamesPrefix(symbols: seq<(seq<Byte>, nat)>, k: nat, n: nat)
    requires k <= n <= |symbols|
    ensures SymbolNames(symbols[..k]) <= SymbolNames(symbols[..n])
    decreases n
  {
    if k < n {
      SymbolNamesPrefix(symbols, k, n - 1);
      SymbolNamesNext(symbols, n - 1);
    }
  }

  /** Name `j` of the index is where the names before it end. */
  lemma SymbolNameThere(head: seq<Byte>, symbols: seq<(seq<Byte>, nat)>, j: nat)
    requires j < |symbols| && 0 !in symbols[j].0
    ensures CString(head + SymbolNames(symbols), |head| + |SymbolNames(symbols[..j])|) == Some(symbols[j].0)
    ensures |SymbolNames(symbols[..j + 1])| == |SymbolNames(symbols[..j])| + |symbols[j].0| + 1
  {
    hide *;
    SymbolNamesPrefix(symbols, j + 1, |symbols|);
    SymbolNamesNext(symbols, j);
    assert symbols[..|symbols|] == symbols;
    var (names, start, text) := (SymbolNames(symbols), SymbolNames(symbols[..j]), symbols[j].0);
    Terminated(head, names, start, text);
    CStringReads(head + names, |head| + |start|, text);
  }

  lemma Terminated(head: seq<Byte>, names: seq<Byte>, before: seq<Byte>, text: seq<Byte>)
    requires before + text + [0] <= names
    ensures var (data, at) := (head + names, |head| + |before|);
      at + |text| < |data| && data[at..at + |text|] == text && data[at + |text|] == 0
  {
    var whole := before + text + [0];
    assert names[..|whole|] == whole;
    assert names[|before|..|before| + |text|] == whole[|before|..|before| + |text|];
    assert names[|before| + |text|] == whole[|before| + |text|];
    assert (head + names)[|head| + |before|..|head| + |before| + |text|] == names[|before|..|before| + |text|];
  }

  lemma {:induction false} NthSymbol(head: seq<Byte>, symbols: seq<(seq<Byte>, nat)>, j: nat, i: nat)
    requires j <= i < |symbols| && forall k :: 0 <= k < |symbols| ==> 0 !in symbols[k].0
    ensures NthString(head + SymbolNames(symbols), |head| + |SymbolNames(symbols[..j])|, i - j) == Some(symbols[i].0)
    decreases i - j
  {
    hide SymbolNames, CString;
    SymbolNameThere(head, symbols, j);
    if j < i { NthSymbol(head, symbols, j + 1, i); }
  }

  lemma {:induction false} SymbolsClean(members: seq<Member>, k: nat)
    requires Readable(members) && k <= |members|
    ensures forall i :: 0 <= i < |Symbols(members, k)| ==> 0 !in Symbols(members, k)[i].0
  {
    hide Indexable, Index, LongNames, Power10;
    if k > 0 { SymbolsClean(members, k - 1); }
  }

  lemma IndexFits(members: seq<Member>, i: nat)
    requires Readable(members) && i < |Symbols(members, |members|)|
    ensures var symbols := Symbols(members, |members|);
      symbols[i].1 < |members| && |symbols| < U32 && Offset(members, symbols[i].1) < U32
  {
    SymbolsBelong(members, |members|);
    hide Symbols, Offset, Index, LongNames, Power10;
  }

  lemma IndexParts(members: seq<Member>)
    ensures var symbols := Symbols(members, |members|);
      && (forall i :: 0 <= i < |symbols| ==> symbols[i].1 <= |members|)
      && Index(members) == Be32(|symbols|) + IndexOffsets(members, symbols) + SymbolNames(symbols)
  {
    SymbolsBelong(members, |members|);
    hide Symbols, IndexOffsets, SymbolNames, Be32;
  }

  /** The index's data, entry by entry. */
  lemma IndexEntry(members: seq<Member>, i: nat)
    requires Readable(members) && i < |Symbols(members, |members|)|
    ensures Symbols(members, |members|)[i].1 < |members|
    ensures var (index, symbols) := (Index(members), Symbols(members, |members|));
      && 4 + 4 * i + 4 <= |index| && Word32Be(index[0..4]) == |symbols|
      && Word32Be(index[4 + 4 * i..4 + 4 * i + 4]) == Offset(members, symbols[i].1)
      && NthString(index, 4 + 4 * |symbols|, i) == Some(symbols[i].0)
  {
    hide *;
    var symbols := Symbols(members, |members|);
    SymbolsBelong(members, |members|);
    SymbolsClean(members, |members|);
    IndexFits(members, i);
    IndexParts(members);
    BigEndianReads(|symbols|);
    BigEndianReads(Offset(members, symbols[i].1));
    IndexOffsetAt(members, symbols, i);
    NthSymbol(Be32(|symbols|) + IndexOffsets(members, symbols), symbols, 0, i);
    NoNames(symbols);
    IndexSlices(Be32(|symbols|), IndexOffsets(members, symbols), SymbolNames(symbols), i);
  }

  lemma NoNames(symbols: seq<(seq<Byte>, nat)>)
    ensures SymbolNames(symbols[..0]) == []
  {
  }

  lemma IndexSlices(count: seq<Byte>, offsets: seq<Byte>, names: seq<Byte>, i: nat)
    requires |count| == 4 && 4 * i + 4 <= |offsets|
    ensures (count + offsets + names)[0..4] == count
    ensures (count + offsets + names)[4 + 4 * i..4 + 4 * i + 4] == offsets[4 * i..4 * i + 4]
  {
  }

  lemma ReadSymbolIs(out: seq<Byte>, index: seq<Byte>, i: nat, count: nat, name: seq<Byte>, offset: nat)
    requires ReadData(out, 8) == Some(index) && i < count && IsArchive(out)
    requires 4 + 4 * i + 4 <= |index| && Word32Be(index[0..4]) == count
    requires Word32Be(index[4 + 4 * i..4 + 4 * i + 4]) == offset && NthString(index, 4 + 4 * count, i) == Some(name)
    ensures ReadSymbol(out, i) == Some((name, offset))
  {
    hide ReadData, Word32Be, NthString, IsArchive;
  }

  /** A symbol of the index names a member that defines it, and its offset leads to that member's name and data. */
  lemma SymbolReads(members: seq<Member>, i: nat)
    requires Readable(members) && i < |Symbols(members, |members|)|
    ensures var (out, s) := (Upto(members, |members|), Symbols(members, |members|)[i]);
      && s.1 < |members| && s.0 in members[s.1].defines
      && ReadSymbol(out, i) == Some((s.0, Offset(members, s.1)))
      && ReadMember(out, Offset(members, s.1)) == Some(Entry(members[s.1].name, members[s.1].data))
  {
    hide *;
    var (out, index, s) := (Upto(members, |members|), Index(members), Symbols(members, |members|)[i]);
    SymbolsBelong(members, |members|);
    SizesFit(members);
    IndexPlaced(members);
    StoredReads(out, 8, [SLASH], index);
    IndexEntry(members, i);
    ArchiveStarts(members);
    ReadSymbolIs(out, index, i, |Symbols(members, |members|)|, s.0, Offset(members, s.1));
    MemberReads(members, s.1);
  }

  /** Every symbol a member defines is in the index, with that member. */
  lemma {:induction false} SymbolListed(members: seq<Member>, n: nat, k: nat, j: nat) returns (i: nat)
    requires k < n <= |members| && j < |members[k].defines|
    ensures i < |Symbols(members, n)| && Symbols(members, n)[i] == (members[k].defines[j], k)
  {
    var rest := Symbols(members, n - 1);
    if k == n - 1 { i := |rest| + j; } else { i := SymbolListed(members, n - 1, k, j); }
  }
}
