/** The `ar` archive of an import library, and a reader of such archives. */
module ImportArchive {
  import opened Bits
  import opened Bytes
  import opened Results

  const SPACE: Byte := 0x20
  const SLASH: Byte := 0x2f
  const NEWLINE: Byte := 0x0a

  /** What goes into the archive as one file; `defines` is what the symbol index lists for it. */
  datatype Member = Member(name: seq<Byte>, data: seq<Byte>, defines: seq<seq<Byte>>)

  datatype ArchiveError = TooManySymbols | TooLarge

  function Magic(): (r: seq<Byte>)
    ensures |r| == 8
  {
    [0x21, 0x3c, 0x61, 0x72, 0x63, 0x68, 0x3e, 0x0a]
  }

  // ---- Numbers ----

  /** Decimal digits, as `to_string` gives them. */
  function Decimal(n: nat): (r: seq<Byte>)
    ensures |r| > 0
    decreases n
  {
    if n < 10 then [(0x30 + n) as Byte] else Decimal(n / 10) + [(0x30 + n % 10) as Byte]
  }

  function Be32(word: nat): (r: seq<Byte>)
    ensures |r| == 4
  {
    [(word / 0x100_0000) % 256, (word / 0x1_0000) % 256, (word / 0x100) % 256, word % 256]
  }

  function Word32Be(bytes: seq<Byte>): (r: nat)
    requires |bytes| == 4
  {
    var (b0: int, b1: int, b2: int, b3: int) := (bytes[0], bytes[1], bytes[2], bytes[3]);
    b3 + 0x100 * b2 + 0x1_0000 * b1 + 0x100_0000 * b0
  }

  lemma BigEndianReads(word: nat)
    requires word < U32
    ensures Word32Be(Be32(word)) == word
  {
    DivDiv(word, 0x100, 0x100);
    DivDiv(word, 0x1_0000, 0x100);
  }

  // ---- Headers ----

  function Spaces(n: nat): (r: seq<Byte>)
    ensures |r| == n
  {
    seq(n, _ => SPACE)
  }

  /** Text put over a header at a column, if it fits. */
  function Put(header: seq<Byte>, at: nat, text: seq<Byte>): (r: seq<Byte>)
    ensures |r| == |header|
  {
    if at + |text| <= |header| then Patched(header, at, text) else header
  }

  /** The deterministic header of a member: name, zero times and owners, mode 644, size. */
  function Header(name: seq<Byte>, size: nat): (r: seq<Byte>)
    ensures |r| == 60
  {
    var h0 := Put(Spaces(60), 0, name);
    var h1 := Put(h0, 16, [0x30]);
    var h2 := Put(h1, 28, [0x30]);
    var h3 := Put(h2, 34, [0x30]);
    var h4 := Put(h3, 40, [0x36, 0x34, 0x34]);
    var h5 := Put(h4, 48, Decimal(size));
    Put(h5, 58, [0x60, 0x0a])
  }

  /** The stored size of data: even. */
  function Pad(size: nat): (r: nat)
    ensures size <= r <= size + 1 && r % 2 == 0
  {
    size + size % 2
  }

  function Padding(size: nat): (r: seq<Byte>)
    ensures |r| == Pad(size) - size
  {
    if size % 2 == 0 then [] else [NEWLINE]
  }

  /** A member as stored. */
  function Stored(name: seq<Byte>, data: seq<Byte>): (r: seq<Byte>)
    ensures |r| == 60 + Pad(|data|)
  {
    Header(name, |data|) + data + Padding(|data|)
  }

  /** `push_member`. */
  method PushMember(out: seq<Byte>, name: seq<Byte>, data: seq<Byte>) returns (r: seq<Byte>)
    ensures r == out + Stored(name, data)
  {
    var header := Spaces(60);
    hide Decimal, Put;
    header := Put(header, 0, name);
    header := Put(header, 16, [0x30]);
    header := Put(header, 28, [0x30]);
    header := Put(header, 34, [0x30]);
    header := Put(header, 40, [0x36, 0x34, 0x34]);
    header := Put(header, 48, Decimal(|data|));
    header := Put(header, 58, [0x60, 0x0a]);
    r := out + header;
    r := r + data;
    if |data| % 2 != 0 { r := r + [NEWLINE]; }
  }

  // ---- Names and symbols ----

  /** The long-name member's data after the first `k` members. */
  function LongNames(members: seq<Member>, k: nat): seq<Byte>
    requires k <= |members|
  {
    if k == 0 then []
    else
      var name := members[k - 1].name;
      LongNames(members, k - 1) + (if |name| <= 15 then [] else name + [SLASH, NEWLINE])
  }

  /** What goes in the name field of member `k`. */
  function NameField(members: seq<Member>, k: nat): seq<Byte>
    requires k < |members|
  {
    var name := members[k].name;
    if |name| <= 15 then name + [SLASH] else [SLASH] + Decimal(|LongNames(members, k)|)
  }

  /** The symbols of the first `k` members, each with its member. */
  function Symbols(members: seq<Member>, k: nat): seq<(seq<Byte>, nat)>
    requires k <= |members|
  {
    if k == 0 then [] else Symbols(members, k - 1) + Defined(members[k - 1].defines, k - 1)
  }

  function Defined(defines: seq<seq<Byte>>, member: nat): (r: seq<(seq<Byte>, nat)>)
    ensures |r| == |defines|
  {
    seq(|defines|, i requires 0 <= i < |defines| => (defines[i], member))
  }

  /** The names of the symbol index, each with its NUL. */
  function SymbolNames(symbols: seq<(seq<Byte>, nat)>): seq<Byte>
    decreases |symbols|
  {
    if symbols == [] then [] else SymbolNames(symbols[..|symbols| - 1]) + symbols[|symbols| - 1].0 + [0]
  }

  function IndexSize(symbols: seq<(seq<Byte>, nat)>): nat
  {
    4 + 4 * |symbols| + |SymbolNames(symbols)|
  }

  /** Where member `k` starts. */
  function Offset(members: seq<Member>, k: nat): nat
    requires k <= |members|
  {
    if k == 0 then
      var long := LongNames(members, |members|);
      8 + 60 + Pad(IndexSize(Symbols(members, |members|))) + (if long == [] then 0 else 60 + Pad(|long|))
    else Offset(members, k - 1) + 60 + Pad(|members[k - 1].data|)
  }

  /** The big-endian member offsets of the symbols. */
  function IndexOffsets(members: seq<Member>, symbols: seq<(seq<Byte>, nat)>): (r: seq<Byte>)
    requires forall i :: 0 <= i < |symbols| ==> symbols[i].1 <= |members|
    ensures |r| == 4 * |symbols|
    decreases |symbols|
  {
    if symbols == [] then []
    else IndexOffsets(members, symbols[..|symbols| - 1]) + Be32(Offset(members, symbols[|symbols| - 1].1))
  }

  lemma {:induction false} SymbolsBelong(members: seq<Member>, k: nat)
    requires k <= |members|
    ensures forall i :: 0 <= i < |Symbols(members, k)| ==>
      var s := Symbols(members, k)[i]; s.1 < k && s.0 in members[s.1].defines
  {
    if k > 0 { SymbolsBelong(members, k - 1); }
  }

  /** The data of the symbol index member. */
  function Index(members: seq<Member>): (r: seq<Byte>)
    ensures |r| == IndexSize(Symbols(members, |members|))
  {
    SymbolsBelong(members, |members|);
    var symbols := Symbols(members, |members|);
    Be32(|symbols|) + IndexOffsets(members, symbols) + SymbolNames(symbols)
  }

  /** The archive up to member `k`. */
  function Upto(members: seq<Member>, k: nat): (r: seq<Byte>)
    requires k <= |members|
    ensures |r| == Offset(members, k)
  {
    if k == 0 then
      var long := LongNames(members, |members|);
      Magic() + Stored([SLASH], Index(members)) + (if long == [] then [] else Stored([SLASH, SLASH], long))
    else Upto(members, k - 1) + Stored(NameField(members, k - 1), members[k - 1].data)
  }

  /** Whether every symbol's member starts below 4 GiB. */
  predicate Indexable(members: seq<Member>)
  {
    SymbolsBelong(members, |members|);
    var symbols := Symbols(members, |members|);
    |symbols| < U32 && forall i :: 0 <= i < |symbols| ==> Offset(members, symbols[i].1) < U32
  }

  // ---- Building ----

  method Names(members: seq<Member>) returns (long: seq<Byte>, fields: seq<seq<Byte>>)
    ensures long == LongNames(members, |members|)
    ensures |fields| == |members| && forall k :: 0 <= k < |members| ==> fields[k] == NameField(members, k)
  {
    long, fields := [], [];
    for k := 0 to |members|
      invariant long == LongNames(members, k)
      invariant |fields| == k && forall j :: 0 <= j < k ==> fields[j] == NameField(members, j)
    {
      var name := members[k].name;
      if |name| <= 15 {
        fields := fields + [name + [SLASH]];
      } else {
        fields := fields + [[SLASH] + Decimal(|long|)];
        long := long + name;
        assert long + [SLASH, NEWLINE] == LongNames(members, k) + (name + [SLASH, NEWLINE]);
        long := long + [SLASH, NEWLINE];
      }
    }
  }

  method Offsets(members: seq<Member>, indexSize: nat, longSize: nat) returns (offsets: seq<nat>)
    requires indexSize == IndexSize(Symbols(members, |members|)) && longSize == |LongNames(members, |members|)|
    ensures |offsets| == |members| && forall k :: 0 <= k < |members| ==> offsets[k] == Offset(members, k)
  {
    var offset := 8 + 60 + Pad(indexSize);
    if longSize != 0 { offset := offset + 60 + Pad(longSize); }
    offsets := [];
    hide IndexSize, Symbols, LongNames, Pad;
    for k := 0 to |members|
      invariant offset == Offset(members, k)
      invariant |offsets| == k && forall j :: 0 <= j < k ==> offsets[j] == Offset(members, j)
    {
      offsets := offsets + [offset];
      offset := offset + 60 + Pad(|members[k].data|);
    }
  }

  lemma SymbolNamesNext(symbols: seq<(seq<Byte>, nat)>, k: nat)
    requires k < |symbols|
    ensures SymbolNames(symbols[..k + 1]) == SymbolNames(symbols[..k]) + symbols[k].0 + [0]
  {
    assert symbols[..k + 1][..k] == symbols[..k];
  }

  lemma IndexOffsetsNext(members: seq<Member>, symbols: seq<(seq<Byte>, nat)>, k: nat)
    requires forall i :: 0 <= i < |symbols| ==> symbols[i].1 <= |members|
    requires k < |symbols|
    ensures IndexOffsets(members, symbols[..k + 1]) == IndexOffsets(members, symbols[..k]) + Be32(Offset(members, symbols[k].1))
  {
    assert symbols[..k + 1][..k] == symbols[..k];
  }

  method SymbolList(members: seq<Member>) returns (symbols: seq<(seq<Byte>, nat)>)
    ensures symbols == Symbols(members, |members|)
  {
    symbols := [];
    for k := 0 to |members|
      invariant symbols == Symbols(members, k)
    {
      symbols := symbols + Defined(members[k].defines, k);
    }
  }

  method WriteIndex(members: seq<Member>, symbols: seq<(seq<Byte>, nat)>, offsets: seq<nat>) returns (r: Result<seq<Byte>, ArchiveError>)
    requires symbols == Symbols(members, |members|)
    requires |offsets| == |members| && forall k :: 0 <= k < |members| ==> offsets[k] == Offset(members, k)
    ensures r.Ok? <==> Indexable(members)
    ensures r.Ok? ==> r.value == Index(members)
  {
    SymbolsBelong(members, |members|);
    if |symbols| >= U32 { return Err(TooManySymbols); }
    var offsetsIndex := WriteOffsets(members, symbols, offsets);
    if offsetsIndex.Err? { return Err(TooLarge); }
    var names := WriteNames(symbols);
    return Ok(Be32(|symbols|) + offsetsIndex.value + names);
  }

  method WriteOffsets(members: seq<Member>, symbols: seq<(seq<Byte>, nat)>, offsets: seq<nat>) returns (r: Result<seq<Byte>, ArchiveError>)
    requires forall i :: 0 <= i < |symbols| ==> symbols[i].1 < |members|
    requires |offsets| == |members| && forall k :: 0 <= k < |members| ==> offsets[k] == Offset(members, k)
    ensures r.Ok? <==> forall i :: 0 <= i < |symbols| ==> Offset(members, symbols[i].1) < U32
    ensures r.Ok? ==> r.value == IndexOffsets(members, symbols)
  {
    var index := [];
    hide Offset, Be32;
    for i := 0 to |symbols|
      invariant index == IndexOffsets(members, symbols[..i])
      invariant forall j :: 0 <= j < i ==> Offset(members, symbols[j].1) < U32
    {
      var at := offsets[symbols[i].1];
      if at >= U32 { return Err(TooLarge); }
      IndexOffsetsNext(members, symbols, i);
      index := index + Be32(at);
    }
    assert symbols[..|symbols|] == symbols;
    return Ok(index);
  }

  method WriteNames(symbols: seq<(seq<Byte>, nat)>) returns (names: seq<Byte>)
    ensures names == SymbolNames(symbols)
  {
    names := [];
    for i := 0 to |symbols|
      invariant names == SymbolNames(symbols[..i])
    {
      SymbolNamesNext(symbols, i);
      names := names + symbols[i].0;
      names := names + [0];
    }
    assert symbols[..|symbols|] == symbols;
  }

  method NamesSize(symbols: seq<(seq<Byte>, nat)>) returns (size: nat)
    ensures size == IndexSize(symbols)
  {
    var sum := 0;
    for i := 0 to |symbols|
      invariant sum == |SymbolNames(symbols[..i])|
    {
      SymbolNamesNext(symbols, i);
      sum := sum + |symbols[i].0| + 1;
    }
    assert symbols[..|symbols|] == symbols;
    return 4 + 4 * |symbols| + sum;
  }

  /** `archive`: succeeds exactly when every symbol's offset fits 32 bits. */
  method Archive(members: seq<Member>) returns (r: Result<seq<Byte>, ArchiveError>)
    ensures r.Ok? <==> Indexable(members)
    ensures r.Ok? ==> r.value == Upto(members, |members|)
  {
    var long, fields := Names(members);
    var symbols := SymbolList(members);
    var indexSize := NamesSize(symbols);
    var offsets := Offsets(members, indexSize, |long|);
    var index := WriteIndex(members, symbols, offsets);
    if index.Err? { return Err(index.error); }
    hide Stored, Index, LongNames, NameField, Offset, Symbols, Indexable;
    var out := PushMember(Magic(), [SLASH], index.value);
    if long != [] {
      out := PushMember(out, [SLASH, SLASH], long);
    }
    for k := 0 to |members|
      invariant out == Upto(members, k)
    {
      out := PushMember(out, fields[k], members[k].data);
    }
    return Ok(out);
  }

  // ---- Where members are ----

  lemma {:induction false} UptoPrefix(members: seq<Member>, k: nat, n: nat)
    requires k <= n <= |members|
    ensures Upto(members, k) <= Upto(members, n)
  {
    hide *;
    if k < n {
      UptoPrefix(members, k, n - 1);
      UptoNext(members, n - 1);
    }
  }

  /** Every member's header is at the offset computed before it was written, and that is even. */
  lemma MemberPlaced(members: seq<Member>, k: nat)
    requires k < |members|
    ensures var (out, at, member) := (Upto(members, |members|), Offset(members, k), members[k]);
      && at % 2 == 0 && at + 60 + |member.data| <= |out|
      && out[at..at + 60] == Header(NameField(members, k), |member.data|)
      && out[at + 60..at + 60 + |member.data|] == member.data
  {
    hide *;
    UptoPrefix(members, k + 1, |members|);
    OffsetEven(members, k);
    UptoNext(members, k);
    StoredSlices(Upto(members, |members|), Upto(members, k), NameField(members, k), members[k].data);
  }

  /** A stored member's header and data, in any archive that continues it. */
  lemma StoredSlices(out: seq<Byte>, before: seq<Byte>, name: seq<Byte>, data: seq<Byte>)
    requires before + Stored(name, data) <= out
    ensures |before| + 60 + |data| <= |out|
    ensures out[|before|..|before| + 60] == Header(name, |data|)
    ensures out[|before| + 60..|before| + 60 + |data|] == data
  {
    hide Header, Padding;
    PrefixSlices(out, before, Header(name, |data|), data, Padding(|data|));
  }

  lemma UptoNext(members: seq<Member>, k: nat)
    requires k < |members|
    ensures Upto(members, k + 1) == Upto(members, k) + Stored(NameField(members, k), members[k].data)
  {
  }

  lemma PrefixSlices(out: seq<Byte>, before: seq<Byte>, header: seq<Byte>, data: seq<Byte>, padding: seq<Byte>)
    requires before + (header + data + padding) <= out
    ensures |before| + |header| + |data| <= |out|
    ensures out[|before|..|before| + |header|] == header
    ensures out[|before| + |header|..|before| + |header| + |data|] == data
  {
    var whole := before + (header + data + padding);
    assert out[..|whole|] == whole;
    assert out[|before|..|before| + |header|] == whole[|before|..|before| + |header|];
    assert out[|before| + |header|..|before| + |header| + |data|] == whole[|before| + |header|..|before| + |header| + |data|];
  }

  lemma {:induction false} OffsetEven(members: seq<Member>, k: nat)
    requires k <= |members|
    ensures Offset(members, k) % 2 == 0
  {
    hide IndexSize, Symbols, LongNames;
    if k > 0 { OffsetEven(members, k - 1); }
  }

  // ---- Reading headers ----

  /** The digits at the start of a field, as a number. */
  function ParseDecimal(field: seq<Byte>, value: nat): nat
    decreases |field|
  {
    if field == [] || field[0] < 0x30 || field[0] > 0x39 then value
    else ParseDecimal(field[1..], 10 * value + (field[0] - 0x30))
  }

  lemma {:induction false} DecimalReads(n: nat, rest: seq<Byte>)
    requires rest == [] || rest[0] < 0x30 || rest[0] > 0x39
    ensures ParseDecimal(Decimal(n) + rest, 0) == n
    decreases n
  {
    DecimalStep(n, rest, 0);
    ShiftZero(n);
  }

  /** What reading the digits of `n` after `value` comes to. */
  function Shift(value: nat, n: nat): nat
    decreases n
  {
    if n < 10 then 10 * value + n else 10 * Shift(value, n / 10) + n % 10
  }

  lemma {:induction false} ShiftZero(n: nat)
    ensures Shift(0, n) == n
    decreases n
  {
    if n >= 10 { ShiftZero(n / 10); }
  }

  lemma {:induction false} DecimalStep(n: nat, rest: seq<Byte>, value: nat)
    ensures ParseDecimal(Decimal(n) + rest, value) == ParseDecimal(rest, Shift(value, n))
    decreases n
  {
    if n < 10 {
      assert (Decimal(n) + rest)[1..] == rest;
    } else {
      var last: seq<Byte> := [(0x30 + n % 10) as Byte];
      DecimalStep(n / 10, last + rest, value);
      assert Decimal(n) + rest == Decimal(n / 10) + (last + rest);
      assert (last + rest)[1..] == rest;
    }
  }

  lemma {:induction false} DecimalLength(n: nat, digits: nat)
    requires n < Power10(digits) && digits > 0
    ensures |Decimal(n)| <= digits
    decreases digits
  {
    if n >= 10 { DecimalLength(n / 10, digits - 1); }
  }

  function Power10(n: nat): (r: nat)
    ensures r > 0
  {
    if n == 0 then 1 else 10 * Power10(n - 1)
  }
}
