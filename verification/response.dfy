/** Response files: splitting contents into arguments, and replacing `@file` arguments. */
module ResponseFiles {
  import opened Bytes
  import opened Results

  const BACKSLASH: Byte := 0x5c
  const QUOTE: Byte := 0x22
  const APOSTROPHE: Byte := 0x27
  const AT: Byte := 0x40

  predicate IsSpace(b: Byte)
  {
    b == 0x20 || b == 0x09 || b == 0x0a || b == 0x0d || b == 0x0b || b == 0x0c
  }

  /** The first position from `i` on that is not a space. */
  function SkipSpaces(s: seq<Byte>, i: nat): (r: nat)
    requires i <= |s|
    ensures i <= r <= |s| && (r < |s| ==> !IsSpace(s[r]))
    decreases |s| - i
  {
    if i == |s| || !IsSpace(s[i]) then i else SkipSpaces(s, i + 1)
  }

  // ---- GNU rules ----

  /** Inside an argument: which quotes are open, and whether a backslash came just before. */
  datatype Mode = Mode(single: bool, double: bool, escape: bool)

  const PLAIN: Mode := Mode(false, false, false)

  /** What one byte of an argument adds to it, and the mode after it. */
  function GnuByte(mode: Mode, b: Byte): (seq<Byte>, Mode)
  {
    if mode.escape then ([b], mode.(escape := false))
    else if b == BACKSLASH then ([], mode.(escape := true))
    else if mode.single then (if b == APOSTROPHE then ([], mode.(single := false)) else ([b], mode))
    else if mode.double then (if b == QUOTE then ([], mode.(double := false)) else ([b], mode))
    else if b == APOSTROPHE then ([], mode.(single := true))
    else if b == QUOTE then ([], mode.(double := true))
    else ([b], mode)
  }

  predicate GnuStops(mode: Mode, b: Byte)
  {
    IsSpace(b) && !mode.single && !mode.double && !mode.escape
  }

  /** The rest of an argument from `i` on, and where it ends. */
  function GnuArg(s: seq<Byte>, i: nat, mode: Mode): (r: (seq<Byte>, nat))
    requires i <= |s|
    ensures i <= r.1 <= |s|
    decreases |s| - i
  {
    if i == |s| || GnuStops(mode, s[i]) then ([], i)
    else
      var (emitted, next) := GnuByte(mode, s[i]);
      var rest := GnuArg(s, i + 1, next);
      (emitted + rest.0, rest.1)
  }

  /** The arguments from `i` on. */
  function Gnu(s: seq<Byte>, i: nat): seq<seq<Byte>>
    requires i <= |s|
    decreases |s| - i
  {
    var start := SkipSpaces(s, i);
    if start == |s| then []
    else
      var (arg, end) := GnuArg(s, start, PLAIN);
      assert GnuArg(s, start, PLAIN).1 >= start + 1;
      [arg] + Gnu(s, end)
  }

  /** What is already there, before an argument's rest. */
  function Before(arg: seq<Byte>, rest: (seq<Byte>, nat)): (seq<Byte>, nat)
  {
    (arg + rest.0, rest.1)
  }

  lemma BeforeNext(arg: seq<Byte>, emitted: seq<Byte>, rest: (seq<Byte>, nat))
    ensures Before(arg, Before(emitted, rest)) == Before(arg + emitted, rest)
    ensures Before([], rest) == rest
  {
    assert arg + (emitted + rest.0) == arg + emitted + rest.0;
    assert [] + rest.0 == rest.0;
  }

  lemma GnuNext(s: seq<Byte>, i: nat)
    requires i <= |s|
    ensures var start := SkipSpaces(s, i);
      Gnu(s, i) == if start == |s| then [] else [GnuArg(s, start, PLAIN).0] + Gnu(s, GnuArg(s, start, PLAIN).1)
    ensures SkipSpaces(s, i) < |s| ==> GnuArg(s, SkipSpaces(s, i), PLAIN).1 > i
  {
    hide GnuByte;
    var start := SkipSpaces(s, i);
  }

  /** `tokenize_gnu`. */
  method TokenizeGnu(contents: seq<Byte>) returns (args: seq<seq<Byte>>)
    ensures args == Gnu(contents, 0)
  {
    args := [];
    var i := 0;
    hide Gnu, GnuArg;
    while true
      invariant i <= |contents| && args + Gnu(contents, i) == Gnu(contents, 0)
      decreases |contents| - i
    {
      GnuNext(contents, i);
      ghost var from := i;
      while i < |contents| && IsSpace(contents[i])
        invariant from <= i <= |contents| && SkipSpaces(contents, i) == SkipSpaces(contents, from)
      {
        i := i + 1;
      }
      if i == |contents| {
        return;
      }
      var arg;
      arg, i := TokenGnu(contents, i);
      args := args + [arg];
    }
  }

  /** One argument: bytes are taken until a space outside quotes. */
  method TokenGnu(contents: seq<Byte>, start: nat) returns (arg: seq<Byte>, i: nat)
    requires start <= |contents|
    ensures (arg, i) == GnuArg(contents, start, PLAIN)
  {
    arg, i := [], start;
    var mode := PLAIN;
    BeforeNext([], [], GnuArg(contents, start, PLAIN));
    while i < |contents| && !GnuStops(mode, contents[i])
      invariant start <= i <= |contents|
      invariant Before(arg, GnuArg(contents, i, mode)) == GnuArg(contents, start, PLAIN)
      decreases |contents| - i
    {
      var byte := contents[i];
      ghost var (emitted, next) := GnuByte(mode, byte);
      BeforeNext(arg, emitted, GnuArg(contents, i + 1, next));
      assert arg + [] == arg;
      hide GnuArg, Before;
      i := i + 1;
      if mode.escape {
        mode := mode.(escape := false);
        arg := arg + [byte];
      } else if byte == BACKSLASH {
        mode := mode.(escape := true);
      } else if mode.single {
        if byte == APOSTROPHE { mode := mode.(single := false); } else { arg := arg + [byte]; }
      } else if mode.double {
        if byte == QUOTE { mode := mode.(double := false); } else { arg := arg + [byte]; }
      } else if byte == APOSTROPHE {
        mode := mode.(single := true);
      } else if byte == QUOTE {
        mode := mode.(double := true);
      } else {
        arg := arg + [byte];
      }
    }
    assert arg + [] == arg;
  }

  // ---- Windows rules ----

  /** The end of the run of backslashes at `i`. */
  function RunEnd(s: seq<Byte>, i: nat): (r: nat)
    requires i <= |s|
    ensures i <= r <= |s| && (forall k :: i <= k < r ==> s[k] == BACKSLASH) && (r < |s| ==> s[r] != BACKSLASH)
    decreases |s| - i
  {
    if i == |s| || s[i] != BACKSLASH then i else RunEnd(s, i + 1)
  }

  function Backslashes(n: nat): (r: seq<Byte>)
    ensures |r| == n
  {
    seq(n, _ => BACKSLASH)
  }

  /** What comes next at `i` inside an argument: the bytes it adds, where it ends, whether a quote is open then. */
  function WindowsStep(s: seq<Byte>, i: nat, quoted: bool): (r: (seq<Byte>, nat, bool))
    requires i < |s|
    ensures i < r.1 <= |s|
  {
    if s[i] == BACKSLASH then
      var end := RunEnd(s, i);
      var count := end - i;
      if end < |s| && s[end] == QUOTE then
        if count % 2 == 1 then (Backslashes(count / 2) + [QUOTE], end + 1, quoted) else (Backslashes(count / 2), end, quoted)
      else (Backslashes(count), end, quoted)
    else if s[i] == QUOTE then
      if quoted && i + 1 < |s| && s[i + 1] == QUOTE then ([QUOTE], i + 2, quoted) else ([], i + 1, !quoted)
    else ([s[i]], i + 1, quoted)
  }

  function WindowsArg(s: seq<Byte>, i: nat, quoted: bool): (r: (seq<Byte>, nat))
    requires i <= |s|
    ensures i <= r.1 <= |s|
    decreases |s| - i
  {
    if i == |s| || (IsSpace(s[i]) && !quoted) then ([], i)
    else
      var (emitted, next, open) := WindowsStep(s, i, quoted);
      var rest := WindowsArg(s, next, open);
      (emitted + rest.0, rest.1)
  }

  function Windows(s: seq<Byte>, i: nat): seq<seq<Byte>>
    requires i <= |s|
    decreases |s| - i
  {
    var start := SkipSpaces(s, i);
    if start == |s| then []
    else
      var (arg, end) := WindowsArg(s, start, false);
      assert WindowsArg(s, start, false).1 >= start + 1;
      [arg] + Windows(s, end)
  }

  lemma WindowsArgNext(s: seq<Byte>, i: nat, quoted: bool)
    requires i < |s| && !(IsSpace(s[i]) && !quoted)
    ensures var (emitted, next, open) := WindowsStep(s, i, quoted);
      WindowsArg(s, i, quoted) == Before(emitted, WindowsArg(s, next, open))
  {
    hide WindowsStep;
  }

  lemma WindowsNext(s: seq<Byte>, i: nat)
    requires i <= |s|
    ensures var start := SkipSpaces(s, i);
      Windows(s, i) == if start == |s| then [] else [WindowsArg(s, start, false).0] + Windows(s, WindowsArg(s, start, false).1)
    ensures SkipSpaces(s, i) < |s| ==> WindowsArg(s, SkipSpaces(s, i), false).1 > i
  {
    hide WindowsStep;
    var start := SkipSpaces(s, i);
    if start < |s| { WindowsArgNext(s, start, false); }
  }

  /** `tokenize_windows`. */
  method TokenizeWindows(contents: seq<Byte>) returns (args: seq<seq<Byte>>)
    ensures args == Windows(contents, 0)
  {
    args := [];
    var i := 0;
    hide Windows, WindowsArg;
    while true
      invariant i <= |contents| && args + Windows(contents, i) == Windows(contents, 0)
      decreases |contents| - i
    {
      WindowsNext(contents, i);
      ghost var from := i;
      while i < |contents| && IsSpace(contents[i])
        invariant from <= i <= |contents| && SkipSpaces(contents, i) == SkipSpaces(contents, from)
      {
        i := i + 1;
      }
      if i == |contents| {
        return;
      }
      var arg;
      arg, i := TokenWindows(contents, i);
      args := args + [arg];
    }
  }

  method TokenWindows(contents: seq<Byte>, start: nat) returns (arg: seq<Byte>, i: nat)
    requires start <= |contents|
    ensures (arg, i) == WindowsArg(contents, start, false)
  {
    arg, i := [], start;
    var quoted := false;
    BeforeNext([], [], WindowsArg(contents, start, false));
    while i < |contents| && !(IsSpace(contents[i]) && !quoted)
      invariant start <= i <= |contents|
      invariant Before(arg, WindowsArg(contents, i, quoted)) == WindowsArg(contents, start, false)
      decreases |contents| - i
    {
      WindowsArgNext(contents, i, quoted);
      ghost var (emitted, next, open) := WindowsStep(contents, i, quoted);
      BeforeNext(arg, emitted, WindowsArg(contents, next, open));
      hide WindowsArg, Before, WindowsStep;
      var more;
      more, i, quoted := StepWindows(contents, i, quoted);
      arg := arg + more;
    }
    assert arg + [] == arg;
  }

  /** One turn of the loop: a run of backslashes, a quote, or a plain byte. */
  method StepWindows(contents: seq<Byte>, at: nat, wasQuoted: bool) returns (more: seq<Byte>, i: nat, quoted: bool)
    requires at < |contents|
    ensures (more, i, quoted) == WindowsStep(contents, at, wasQuoted)
  {
    i, quoted, more := at, wasQuoted, [];
    var byte := contents[i];
    if byte == BACKSLASH {
      while i < |contents| && contents[i] == BACKSLASH
        invariant at <= i <= |contents| && RunEnd(contents, i) == RunEnd(contents, at)
      {
        i := i + 1;
      }
      var count := i - at;
      if i < |contents| && contents[i] == QUOTE {
        more := Backslashes(count / 2);
        if count % 2 == 1 {
          more := more + [QUOTE];
          i := i + 1;
        }
      } else {
        more := Backslashes(count);
      }
    } else if byte == QUOTE {
      if quoted && i + 1 < |contents| && contents[i + 1] == QUOTE {
        more := [QUOTE];
        i := i + 2;
      } else {
        quoted := !quoted;
        i := i + 1;
      }
    } else {
      more := [byte];
      i := i + 1;
    }
  }

  // ---- Text in its place ----

  /** The text stands at `i`. */
  predicate At(s: seq<Byte>, i: nat, text: seq<Byte>)
  {
    i + |text| <= |s| && s[i..i + |text|] == text
  }

  lemma AtSplit(s: seq<Byte>, i: nat, a: seq<Byte>, b: seq<Byte>)
    requires At(s, i, a + b)
    ensures At(s, i, a) && At(s, i + |a|, b)
  {
    assert s[i..i + |a|] == s[i..i + |a + b|][..|a|];
    assert s[i + |a|..i + |a| + |b|] == s[i..i + |a + b|][|a|..];
  }

  lemma AtByte(s: seq<Byte>, i: nat, text: seq<Byte>, k: nat)
    requires At(s, i, text) && k < |text|
    ensures s[i + k] == text[k]
  {
    assert s[i + k] == s[i..i + |text|][k];
  }

  lemma AtOne(s: seq<Byte>, i: nat, byte: Byte)
    requires At(s, i, [byte])
    ensures i < |s| && s[i] == byte
  {
    AtByte(s, i, [byte], 0);
  }

  /** What separates arguments: spaces, tabs, line ends, vertical tabs and form feeds, at least one. */
  predicate Blank(gap: seq<Byte>)
  {
    gap != [] && forall k :: 0 <= k < |gap| ==> IsBlank(gap[k])
  }

  predicate IsBlank(b: Byte)
  {
    b == 0x20 || 0x09 <= b <= 0x0d
  }

  /** Forms, each with a gap after it. */
  function Line(forms: seq<seq<Byte>>, gap: seq<Byte>): seq<Byte>
    decreases |forms|
  {
    if forms == [] then [] else forms[0] + gap + Line(forms[1..], gap)
  }

  /** An argument ends at the end or at a gap. */
  predicate Ends(s: seq<Byte>, i: nat)
  {
    i == |s| || (i < |s| && IsSpace(s[i]))
  }

  lemma GapSkipped(s: seq<Byte>, i: nat, gap: seq<Byte>)
    requires At(s, i, gap) && forall k :: 0 <= k < |gap| ==> IsBlank(gap[k])
    ensures SkipSpaces(s, i) == SkipSpaces(s, i + |gap|)
    decreases |gap|
  {
    if gap != [] {
      AtByte(s, i, gap, 0);
      assert gap == [gap[0]] + gap[1..];
      AtSplit(s, i, [gap[0]], gap[1..]);
      GapSkipped(s, i + 1, gap[1..]);
    }
  }

  lemma GapEnds(s: seq<Byte>, i: nat, gap: seq<Byte>)
    requires At(s, i, gap) && Blank(gap)
    ensures Ends(s, i) && SkipSpaces(s, i) == SkipSpaces(s, i + |gap|)
    ensures Gnu(s, i) == Gnu(s, i + |gap|) && Windows(s, i) == Windows(s, i + |gap|)
  {
    AtByte(s, i, gap, 0);
    GapSkipped(s, i, gap);
    GnuNext(s, i);
    GnuNext(s, i + |gap|);
    WindowsNext(s, i);
    WindowsNext(s, i + |gap|);
  }

  lemma NotSpace(s: seq<Byte>, i: nat)
    requires i < |s| && !IsSpace(s[i])
    ensures SkipSpaces(s, i) == i
  {
  }

  lemma LineSplit(s: seq<Byte>, i: nat, forms: seq<seq<Byte>>, gap: seq<Byte>)
    requires forms != [] && At(s, i, Line(forms, gap))
    ensures At(s, i, forms[0]) && At(s, i + |forms[0]|, gap) && At(s, i + |forms[0]| + |gap|, Line(forms[1..], gap))
    ensures |Line(forms, gap)| == |forms[0]| + |gap| + |Line(forms[1..], gap)|
  {
    AtSplit(s, i, forms[0] + gap, Line(forms[1..], gap));
    AtSplit(s, i, forms[0], gap);
  }

  // ---- Written arguments, GNU ----

  /** A byte as it stands, or after a backslash. */
  datatype Item = Raw(byte: Byte) | Kept(byte: Byte)

  /** A part of an argument: an item outside quotes, or items in double or single quotes. */
  datatype GnuPiece = Loose(item: Item) | InQuotes(double: bool, items: seq<Item>)

  function ItemText(item: Item): (r: seq<Byte>)
    ensures r != []
  {
    match item
    case Raw(b) => [b]
    case Kept(b) => [BACKSLASH, b]
  }

  function ItemsText(items: seq<Item>): seq<Byte>
    decreases |items|
  {
    if items == [] then [] else ItemText(items[0]) + ItemsText(items[1..])
  }

  function ItemsBytes(items: seq<Item>): seq<Byte>
    decreases |items|
  {
    if items == [] then [] else [items[0].byte] + ItemsBytes(items[1..])
  }

  function QuoteOf(double: bool): Byte
  {
    if double then QUOTE else APOSTROPHE
  }

  function PieceText(piece: GnuPiece): (r: seq<Byte>)
    ensures r != []
  {
    match piece
    case Loose(item) => ItemText(item)
    case InQuotes(double, items) => [QuoteOf(double)] + ItemsText(items) + [QuoteOf(double)]
  }

  function PieceBytes(piece: GnuPiece): seq<Byte>
  {
    match piece
    case Loose(item) => [item.byte]
    case InQuotes(_, items) => ItemsBytes(items)
  }

  function PiecesText(pieces: seq<GnuPiece>): (r: seq<Byte>)
    ensures pieces != [] ==> r != []
    decreases |pieces|
  {
    if pieces == [] then [] else PieceText(pieces[0]) + PiecesText(pieces[1..])
  }

  function PiecesBytes(pieces: seq<GnuPiece>): seq<Byte>
    decreases |pieces|
  {
    if pieces == [] then [] else PieceBytes(pieces[0]) + PiecesBytes(pieces[1..])
  }

  /** Backslashes are always escaped; in quotes only the closing quote is besides; outside both quotes and spaces are. */
  predicate ItemFits(item: Item, single: bool, double: bool)
  {
    match item
    case Kept(_) => true
    case Raw(b) => b != BACKSLASH && (if single then b != APOSTROPHE else if double then b != QUOTE else b != APOSTROPHE && b != QUOTE && !IsBlank(b))
  }

  predicate PieceFits(piece: GnuPiece)
  {
    match piece
    case Loose(item) => ItemFits(item, false, false)
    case InQuotes(double, items) => forall k :: 0 <= k < |items| ==> ItemFits(items[k], !double, double)
  }

  /** A written argument is not empty, and each of its pieces fits. */
  predicate GnuFits(pieces: seq<GnuPiece>)
  {
    pieces != [] && forall k :: 0 <= k < |pieces| ==> PieceFits(pieces[k])
  }

  lemma ItemReads(s: seq<Byte>, i: nat, single: bool, double: bool, item: Item)
    requires At(s, i, ItemText(item)) && ItemFits(item, single, double) && !(single && double)
    ensures GnuArg(s, i, Mode(single, double, false)) == Before([item.byte], GnuArg(s, i + |ItemText(item)|, Mode(single, double, false)))
  {
    AtByte(s, i, ItemText(item), 0);
    var mode := Mode(single, double, false);
    if item.Kept? {
      AtByte(s, i, ItemText(item), 1);
      var escaped := Mode(single, double, true);
      assert GnuByte(mode, s[i]) == ([], escaped);
      assert GnuByte(escaped, s[i + 1]) == ([s[i + 1]], mode);
      BeforeNext([], [s[i + 1]], GnuArg(s, i + 2, mode));
      assert [] + [s[i + 1]] == [s[i + 1]];
    } else {
      assert GnuByte(mode, s[i]) == ([s[i]], mode);
    }
  }

  lemma {:induction false} ItemsRead(s: seq<Byte>, i: nat, single: bool, double: bool, items: seq<Item>)
    requires At(s, i, ItemsText(items)) && !(single && double) && forall k :: 0 <= k < |items| ==> ItemFits(items[k], single, double)
    ensures GnuArg(s, i, Mode(single, double, false))
         == Before(ItemsBytes(items), GnuArg(s, i + |ItemsText(items)|, Mode(single, double, false)))
    decreases |items|
  {
    hide GnuArg, ItemText, ItemFits, Before, At;
    var mode := Mode(single, double, false);
    AtIn(s, i, ItemsText(items));
    if items == [] {
      BeforeNext([], [], GnuArg(s, i, mode));
    } else {
      var rest := items[1..];
      AtSplit(s, i, ItemText(items[0]), ItemsText(rest));
      ItemReads(s, i, single, double, items[0]);
      ItemsRead(s, i + |ItemText(items[0])|, single, double, rest);
      AtIn(s, i + |ItemText(items[0])|, ItemsText(rest));
      BeforeNext([items[0].byte], ItemsBytes(rest), GnuArg(s, i + |ItemsText(items)|, mode));
    }
  }

  lemma AtIn(s: seq<Byte>, i: nat, text: seq<Byte>)
    requires At(s, i, text)
    ensures i + |text| <= |s|
  {
  }

  lemma SegmentReads(s: seq<Byte>, i: nat, double: bool, items: seq<Item>)
    requires At(s, i, [QuoteOf(double)] + ItemsText(items) + [QuoteOf(double)])
    requires forall k :: 0 <= k < |items| ==> ItemFits(items[k], !double, double)
    ensures GnuArg(s, i, PLAIN) == Before(ItemsBytes(items), GnuArg(s, i + |ItemsText(items)| + 2, PLAIN))
    ensures i < |s| && s[i] == QuoteOf(double)
  {
    var (quote, text) := (QuoteOf(double), ItemsText(items));
    hide *;
    AtSplit(s, i, [quote] + text, [quote]);
    AtSplit(s, i, [quote], text);
    AtOne(s, i, quote);
    AtOne(s, i + 1 + |text|, quote);
    ItemsRead(s, i + 1, !double, double, items);
    QuotesRead(s, i, double, i + 1 + |text|, ItemsBytes(items));
  }

  lemma PieceReads(s: seq<Byte>, i: nat, piece: GnuPiece)
    requires At(s, i, PieceText(piece)) && PieceFits(piece)
    ensures GnuArg(s, i, PLAIN) == Before(PieceBytes(piece), GnuArg(s, i + |PieceText(piece)|, PLAIN))
    ensures i < |s| && !IsSpace(s[i])
  {
    AtByte(s, i, PieceText(piece), 0);
    hide At, GnuArg, Before, ItemsText, ItemsBytes;
    match piece
    case Loose(item) => ItemReads(s, i, false, false, item);
    case InQuotes(double, items) => SegmentReads(s, i, double, items);
  }

  /** The quotes open and close, and add nothing. */
  lemma QuotesRead(s: seq<Byte>, i: nat, double: bool, end: nat, bytes: seq<Byte>)
    requires i < end < |s| && s[i] == QuoteOf(double) && s[end] == QuoteOf(double)
    requires GnuArg(s, i + 1, Mode(!double, double, false)) == Before(bytes, GnuArg(s, end, Mode(!double, double, false)))
    ensures GnuArg(s, i, PLAIN) == Before(bytes, GnuArg(s, end + 1, PLAIN))
  {
    var mode := Mode(!double, double, false);
    assert GnuByte(PLAIN, s[i]) == ([], mode) && GnuByte(mode, s[end]) == ([], PLAIN);
    BeforeNext([], bytes, GnuArg(s, end, mode));
    BeforeNext(bytes, [], GnuArg(s, end + 1, PLAIN));
    assert [] + bytes == bytes && bytes + [] == bytes;
  }

  lemma {:induction false} PiecesRead(s: seq<Byte>, i: nat, pieces: seq<GnuPiece>)
    requires At(s, i, PiecesText(pieces)) && Ends(s, i + |PiecesText(pieces)|) && forall k :: 0 <= k < |pieces| ==> PieceFits(pieces[k])
    ensures GnuArg(s, i, PLAIN) == (PiecesBytes(pieces), i + |PiecesText(pieces)|)
    ensures pieces != [] ==> i < |s| && !IsSpace(s[i])
    decreases |pieces|
  {
    hide GnuArg, PieceText, PieceBytes, PieceFits, At, Ends;
    if pieces == [] {
      EndReads(s, i);
    } else {
      var rest := pieces[1..];
      AtSplit(s, i, PieceText(pieces[0]), PiecesText(rest));
      PieceReads(s, i, pieces[0]);
      PiecesRead(s, i + |PieceText(pieces[0])|, rest);
    }
  }

  lemma EndReads(s: seq<Byte>, i: nat)
    requires Ends(s, i)
    ensures GnuArg(s, i, PLAIN) == ([], i) && WindowsArg(s, i, false) == ([], i)
  {
  }

  function GnuTexts(args: seq<seq<GnuPiece>>): (r: seq<seq<Byte>>)
    ensures |r| == |args|
  {
    seq(|args|, i requires 0 <= i < |args| => PiecesText(args[i]))
  }

  function GnuMeanings(args: seq<seq<GnuPiece>>): (r: seq<seq<Byte>>)
    ensures |r| == |args|
  {
    seq(|args|, i requires 0 <= i < |args| => PiecesBytes(args[i]))
  }

  lemma GnuSplit(args: seq<seq<GnuPiece>>)
    requires args != []
    ensures GnuTexts(args) == [PiecesText(args[0])] + GnuTexts(args[1..])
    ensures GnuMeanings(args) == [PiecesBytes(args[0])] + GnuMeanings(args[1..])
  {
    hide PiecesText, PiecesBytes;
  }

  /** One argument, the gap after it, and the rest. */
  lemma GnuFirst(s: seq<Byte>, i: nat, first: seq<GnuPiece>, gap: seq<Byte>)
    requires GnuFits(first) && At(s, i, PiecesText(first)) && At(s, i + |PiecesText(first)|, gap) && Blank(gap)
    ensures i + |PiecesText(first)| + |gap| <= |s|
    ensures Gnu(s, i) == [PiecesBytes(first)] + Gnu(s, i + |PiecesText(first)| + |gap|)
  {
    hide Gnu, GnuArg, At, Blank, PiecesText, PiecesBytes, PieceFits;
    var end := i + |PiecesText(first)|;
    AtIn(s, end, gap);
    GapEnds(s, end, gap);
    PiecesRead(s, i, first);
    NotSpace(s, i);
    GnuNext(s, i);
  }

  lemma {:induction false} GnuLineReads(s: seq<Byte>, i: nat, args: seq<seq<GnuPiece>>, gap: seq<Byte>)
    requires At(s, i, Line(GnuTexts(args), gap)) && i + |Line(GnuTexts(args), gap)| == |s| && Blank(gap)
    requires forall k :: 0 <= k < |args| ==> GnuFits(args[k])
    ensures Gnu(s, i) == GnuMeanings(args)
    decreases |args|
  {
    hide Gnu, At, PiecesText, PiecesBytes, Blank, Line, GnuFits, GnuTexts, GnuMeanings;
    if args == [] {
      GnuEnd(s, i, args, gap);
    } else {
      GnuSplit(args);
      var form := PiecesText(args[0]);
      LineSplit(s, i, GnuTexts(args), gap);
      GnuFirst(s, i, args[0], gap);
      GnuLineReads(s, i + |form| + |gap|, args[1..], gap);
    }
  }

  lemma GnuEnd(s: seq<Byte>, i: nat, args: seq<seq<GnuPiece>>, gap: seq<Byte>)
    requires args == [] && i + |Line(GnuTexts(args), gap)| == |s|
    ensures Gnu(s, i) == GnuMeanings(args)
  {
  }

  /** Arguments written with any mix of escapes and quotes, and any gap between them, are read back as what they mean. */
  lemma GnuReads(args: seq<seq<GnuPiece>>, gap: seq<Byte>)
    requires Blank(gap) && forall k :: 0 <= k < |args| ==> GnuFits(args[k])
    ensures Gnu(Line(GnuTexts(args), gap), 0) == GnuMeanings(args)
  {
    var s := Line(GnuTexts(args), gap);
    assert s[0..|s|] == s;
    GnuLineReads(s, 0, args, gap);
  }

  /** One way to write any argument: every byte escaped, and quotes for the empty one. */
  function GnuForm(arg: seq<Byte>): (r: seq<GnuPiece>)
  {
    if arg == [] then [InQuotes(false, [])] else Escapes(arg)
  }

  function Escapes(arg: seq<Byte>): (r: seq<GnuPiece>)
    ensures |r| == |arg|
  {
    seq(|arg|, i requires 0 <= i < |arg| => Loose(Kept(arg[i])))
  }

  lemma {:induction false} EscapesMean(arg: seq<Byte>)
    ensures PiecesBytes(Escapes(arg)) == arg
    decreases |arg|
  {
    if arg != [] {
      EscapesMean(arg[1..]);
      assert Escapes(arg)[1..] == Escapes(arg[1..]);
      assert [arg[0]] + arg[1..] == arg;
    }
  }

  /** So every list of arguments can be written. */
  lemma GnuRoundTrip(args: seq<seq<Byte>>, gap: seq<Byte>)
    requires Blank(gap)
    ensures Gnu(Line(GnuTexts(seq(|args|, i requires 0 <= i < |args| => GnuForm(args[i]))), gap), 0) == args
  {
    var forms := seq(|args|, i requires 0 <= i < |args| => GnuForm(args[i]));
    forall k | 0 <= k < |args|
      ensures GnuFits(forms[k]) && PiecesBytes(forms[k]) == args[k]
    {
      if args[k] == [] { assert PiecesBytes([InQuotes(false, [])]) == []; } else { EscapesMean(args[k]); }
    }
    GnuReads(forms, gap);
    assert GnuMeanings(forms) == args;
  }

  // ---- Written arguments, Windows ----

  /** A byte after a run of backslashes; an escaped quote after a run of them; in quotes, a quote written as two. */
  datatype WindowsItem = Plain(run: nat, byte: Byte) | Escape(run: nat) | Pair(run: nat)

  /** A part of an argument: an item outside quotes, or a run of backslashes and items in quotes, with a run before the closing one. */
  datatype WindowsPiece = Free(item: WindowsItem) | Segment(lead: nat, items: seq<WindowsItem>, last: nat)

  function ItemForm(item: WindowsItem): (r: seq<Byte>)
    ensures r != []
  {
    match item
    case Plain(run, byte) => Backslashes(run) + [byte]
    case Escape(run) => Backslashes(2 * run + 1) + [QUOTE]
    case Pair(run) => Backslashes(2 * run) + [QUOTE, QUOTE]
  }

  function ItemMeans(item: WindowsItem): seq<Byte>
  {
    match item
    case Plain(run, byte) => Backslashes(run) + [byte]
    case Escape(run) => Backslashes(run) + [QUOTE]
    case Pair(run) => Backslashes(run) + [QUOTE]
  }

  predicate ItemGoes(item: WindowsItem, quoted: bool)
  {
    match item
    case Plain(_, byte) => byte != BACKSLASH && byte != QUOTE && (quoted || !IsBlank(byte))
    case Escape(_) => true
    case Pair(_) => quoted
  }

  function ItemsForm(items: seq<WindowsItem>): seq<Byte>
    decreases |items|
  {
    if items == [] then [] else ItemForm(items[0]) + ItemsForm(items[1..])
  }

  function ItemsMean(items: seq<WindowsItem>): seq<Byte>
    decreases |items|
  {
    if items == [] then [] else ItemMeans(items[0]) + ItemsMean(items[1..])
  }

  function PieceForm(piece: WindowsPiece): (r: seq<Byte>)
    ensures r != []
  {
    match piece
    case Free(item) => ItemForm(item)
    case Segment(lead, items, last) => Backslashes(2 * lead) + [QUOTE] + ItemsForm(items) + (Backslashes(2 * last) + [QUOTE])
  }

  function PieceMeans(piece: WindowsPiece): seq<Byte>
  {
    match piece
    case Free(item) => ItemMeans(item)
    case Segment(lead, items, last) => Backslashes(lead) + (ItemsMean(items) + Backslashes(last))
  }

  predicate PieceGoes(piece: WindowsPiece)
  {
    match piece
    case Free(item) => ItemGoes(item, false)
    case Segment(_, items, _) => forall k :: 0 <= k < |items| ==> ItemGoes(items[k], true)
  }

  /** An argument: its pieces, and a run of backslashes at the end. */
  datatype WindowsWritten = WindowsWritten(pieces: seq<WindowsPiece>, trail: nat)

  function PiecesForm(pieces: seq<WindowsPiece>, trail: nat): (r: seq<Byte>)
    ensures pieces != [] || trail > 0 ==> r != []
    decreases |pieces|
  {
    if pieces == [] then Backslashes(trail) else PieceForm(pieces[0]) + PiecesForm(pieces[1..], trail)
  }

  function PiecesMean(pieces: seq<WindowsPiece>, trail: nat): seq<Byte>
    decreases |pieces|
  {
    if pieces == [] then Backslashes(trail) else PieceMeans(pieces[0]) + PiecesMean(pieces[1..], trail)
  }

  /** A closing quote is not followed by an opening one, which would make a pair of it. */
  predicate Apart(pieces: seq<WindowsPiece>)
  {
    forall k :: 0 <= k < |pieces| - 1 ==> !(pieces[k].Segment? && pieces[k + 1].Segment? && pieces[k + 1].lead == 0)
  }

  predicate WindowsFits(arg: WindowsWritten)
  {
    && (arg.pieces != [] || arg.trail > 0) && Apart(arg.pieces)
    && forall k :: 0 <= k < |arg.pieces| ==> PieceGoes(arg.pieces[k])
  }

  lemma RunIs(s: seq<Byte>, i: nat, n: nat)
    requires At(s, i, Backslashes(n)) && (i + n < |s| ==> s[i + n] != BACKSLASH)
    ensures RunEnd(s, i) == i + n
  {
    forall k | i <= k < i + n
      ensures s[k] == BACKSLASH
    {
      AtByte(s, i, Backslashes(n), k - i);
    }
  }

  /** An even run of backslashes before a quote: half of them. */
  lemma EvenRun(s: seq<Byte>, i: nat, n: nat, quoted: bool)
    requires At(s, i, Backslashes(2 * n)) && i + 2 * n < |s| && s[i + 2 * n] == QUOTE
    ensures WindowsArg(s, i, quoted) == Before(Backslashes(n), WindowsArg(s, i + 2 * n, quoted))
  {
    if n == 0 {
      BeforeNext([], [], WindowsArg(s, i, quoted));
      assert Backslashes(0) == [];
    } else {
      AtByte(s, i, Backslashes(2 * n), 0);
      RunIs(s, i, 2 * n);
      assert WindowsStep(s, i, quoted) == (Backslashes(n), i + 2 * n, quoted);
      WindowsArgNext(s, i, quoted);
    }
  }

  /** An odd one: half of them, and the quote. */
  lemma OddRun(s: seq<Byte>, i: nat, n: nat, quoted: bool)
    requires At(s, i, Backslashes(2 * n + 1)) && i + 2 * n + 1 < |s| && s[i + 2 * n + 1] == QUOTE
    ensures WindowsArg(s, i, quoted) == Before(Backslashes(n) + [QUOTE], WindowsArg(s, i + 2 * n + 2, quoted))
  {
    AtByte(s, i, Backslashes(2 * n + 1), 0);
    RunIs(s, i, 2 * n + 1);
    assert WindowsStep(s, i, quoted) == (Backslashes(n) + [QUOTE], i + 2 * n + 2, quoted);
    WindowsArgNext(s, i, quoted);
  }

  /** A run before anything else stands for itself. */
  lemma FreeRun(s: seq<Byte>, i: nat, n: nat, quoted: bool)
    requires At(s, i, Backslashes(n)) && (i + n < |s| ==> s[i + n] != BACKSLASH && s[i + n] != QUOTE)
    ensures WindowsArg(s, i, quoted) == Before(Backslashes(n), WindowsArg(s, i + n, quoted))
  {
    if n == 0 {
      BeforeNext([], [], WindowsArg(s, i, quoted));
      assert Backslashes(0) == [];
    } else {
      AtByte(s, i, Backslashes(n), 0);
      RunIs(s, i, n);
      assert WindowsStep(s, i, quoted) == (Backslashes(n), i + n, quoted);
      WindowsArgNext(s, i, quoted);
    }
  }

  /** No quote stands at `i`. */
  predicate NoQuote(s: seq<Byte>, i: nat)
  {
    i < |s| ==> s[i] != QUOTE
  }

  /** A single quote opens or closes. */
  lemma QuoteStep(s: seq<Byte>, i: nat, quoted: bool)
    requires i < |s| && s[i] == QUOTE && (quoted ==> NoQuote(s, i + 1))
    ensures WindowsArg(s, i, quoted) == Before([], WindowsArg(s, i + 1, !quoted))
  {
    WindowsArgNext(s, i, quoted);
  }

  /** Two in quotes stand for one. */
  lemma PairStep(s: seq<Byte>, i: nat)
    requires i + 2 <= |s| && s[i] == QUOTE && s[i + 1] == QUOTE
    ensures WindowsArg(s, i, true) == Before([QUOTE], WindowsArg(s, i + 2, true))
  {
    WindowsArgNext(s, i, true);
  }

  lemma ByteStep(s: seq<Byte>, i: nat, quoted: bool)
    requires i < |s| && s[i] != BACKSLASH && s[i] != QUOTE && (quoted || !IsBlank(s[i]))
    ensures WindowsArg(s, i, quoted) == Before([s[i]], WindowsArg(s, i + 1, quoted))
  {
    WindowsArgNext(s, i, quoted);
  }

  lemma PlainReads(s: seq<Byte>, i: nat, quoted: bool, run: nat, byte: Byte)
    requires At(s, i, Backslashes(run) + [byte]) && byte != BACKSLASH && byte != QUOTE && (quoted || !IsBlank(byte))
    ensures WindowsArg(s, i, quoted) == Before(Backslashes(run) + [byte], WindowsArg(s, i + run + 1, quoted))
  {
    hide *;
    AtSplit(s, i, Backslashes(run), [byte]);
    AtOne(s, i + run, byte);
    FreeRun(s, i, run, quoted);
    ByteStep(s, i + run, quoted);
    BeforeNext(Backslashes(run), [byte], WindowsArg(s, i + run + 1, quoted));
  }

  lemma EscapeReads(s: seq<Byte>, i: nat, quoted: bool, run: nat)
    requires At(s, i, Backslashes(2 * run + 1) + [QUOTE])
    ensures WindowsArg(s, i, quoted) == Before(Backslashes(run) + [QUOTE], WindowsArg(s, i + 2 * run + 2, quoted))
  {
    hide *;
    AtSplit(s, i, Backslashes(2 * run + 1), [QUOTE]);
    AtOne(s, i + 2 * run + 1, QUOTE);
    OddRun(s, i, run, quoted);
  }

  lemma PairReads(s: seq<Byte>, i: nat, run: nat)
    requires At(s, i, Backslashes(2 * run) + [QUOTE, QUOTE])
    ensures WindowsArg(s, i, true) == Before(Backslashes(run) + [QUOTE], WindowsArg(s, i + 2 * run + 2, true))
  {
    hide *;
    AtSplit(s, i, Backslashes(2 * run), [QUOTE, QUOTE]);
    TwoQuotes(s, i + 2 * run);
    EvenRun(s, i, run, true);
    PairStep(s, i + 2 * run);
    BeforeNext(Backslashes(run), [QUOTE], WindowsArg(s, i + 2 * run + 2, true));
  }

  lemma TwoQuotes(s: seq<Byte>, i: nat)
    requires At(s, i, [QUOTE, QUOTE])
    ensures i + 2 <= |s| && s[i] == QUOTE && s[i + 1] == QUOTE
  {
    AtByte(s, i, [QUOTE, QUOTE], 0);
    AtByte(s, i, [QUOTE, QUOTE], 1);
  }

  lemma ItemFormReads(s: seq<Byte>, i: nat, quoted: bool, item: WindowsItem)
    requires At(s, i, ItemForm(item)) && ItemGoes(item, quoted)
    ensures WindowsArg(s, i, quoted) == Before(ItemMeans(item), WindowsArg(s, i + |ItemForm(item)|, quoted))
  {
    hide At, WindowsArg, Before, Backslashes, IsSpace;
    match item
    case Plain(run, byte) => PlainReads(s, i, quoted, run, byte);
    case Escape(run) => EscapeReads(s, i, quoted, run);
    case Pair(run) => PairReads(s, i, run);
  }

  lemma {:induction false} ItemsFormRead(s: seq<Byte>, i: nat, items: seq<WindowsItem>)
    requires At(s, i, ItemsForm(items)) && forall k :: 0 <= k < |items| ==> ItemGoes(items[k], true)
    ensures WindowsArg(s, i, true) == Before(ItemsMean(items), WindowsArg(s, i + |ItemsForm(items)|, true))
    decreases |items|
  {
    hide WindowsArg, ItemForm, ItemMeans, ItemGoes, Before, At;
    AtIn(s, i, ItemsForm(items));
    if items == [] {
      BeforeNext([], [], WindowsArg(s, i, true));
    } else {
      var rest := items[1..];
      AtSplit(s, i, ItemForm(items[0]), ItemsForm(rest));
      ItemFormReads(s, i, true, items[0]);
      ItemsFormRead(s, i + |ItemForm(items[0])|, rest);
      AtIn(s, i + |ItemForm(items[0])|, ItemsForm(rest));
      BeforeNext(ItemMeans(items[0]), ItemsMean(rest), WindowsArg(s, i + |ItemsForm(items)|, true));
    }
  }

  lemma NothingMore(text: seq<Byte>)
    ensures text + [] == text && [] + text == text
  {
  }

  lemma OpenReads(s: seq<Byte>, i: nat, n: nat)
    requires At(s, i, Backslashes(2 * n) + [QUOTE])
    ensures WindowsArg(s, i, false) == Before(Backslashes(n), WindowsArg(s, i + 2 * n + 1, true))
  {
    hide *;
    AtSplit(s, i, Backslashes(2 * n), [QUOTE]);
    AtOne(s, i + 2 * n, QUOTE);
    EvenRun(s, i, n, false);
    QuoteStep(s, i + 2 * n, false);
    BeforeNext(Backslashes(n), [], WindowsArg(s, i + 2 * n + 1, true));
    NothingMore(Backslashes(n));
  }

  lemma CloseReads(s: seq<Byte>, i: nat, n: nat)
    requires At(s, i, Backslashes(2 * n) + [QUOTE]) && NoQuote(s, i + 2 * n + 1)
    ensures WindowsArg(s, i, true) == Before(Backslashes(n), WindowsArg(s, i + 2 * n + 1, false))
  {
    hide *;
    AtSplit(s, i, Backslashes(2 * n), [QUOTE]);
    AtOne(s, i + 2 * n, QUOTE);
    EvenRun(s, i, n, true);
    QuoteStep(s, i + 2 * n, true);
    BeforeNext(Backslashes(n), [], WindowsArg(s, i + 2 * n + 1, false));
    NothingMore(Backslashes(n));
  }

  lemma SegmentFormReads(s: seq<Byte>, i: nat, lead: nat, items: seq<WindowsItem>, last: nat, to: nat)
    requires At(s, i, Backslashes(2 * lead) + [QUOTE]) && At(s, i + 2 * lead + 1, ItemsForm(items))
    requires to == i + 2 * lead + 1 + |ItemsForm(items)| && At(s, to, Backslashes(2 * last) + [QUOTE])
    requires (forall k :: 0 <= k < |items| ==> ItemGoes(items[k], true)) && NoQuote(s, to + 2 * last + 1)
    ensures to + 2 * last + 1 <= |s|
    ensures WindowsArg(s, i, false)
         == Before(Backslashes(lead) + (ItemsMean(items) + Backslashes(last)), WindowsArg(s, to + 2 * last + 1, false))
  {
    hide *;
    AtIn(s, to, Backslashes(2 * last) + [QUOTE]);
    OpenReads(s, i, lead);
    ItemsFormRead(s, i + 2 * lead + 1, items);
    CloseReads(s, to, last);
    var end := WindowsArg(s, to + 2 * last + 1, false);
    BeforeNext(ItemsMean(items), Backslashes(last), end);
    BeforeNext(Backslashes(lead), ItemsMean(items) + Backslashes(last), end);
  }

  lemma PieceFormReads(s: seq<Byte>, i: nat, piece: WindowsPiece)
    requires At(s, i, PieceForm(piece)) && PieceGoes(piece) && (piece.Segment? ==> NoQuote(s, i + |PieceForm(piece)|))
    ensures i + |PieceForm(piece)| <= |s|
    ensures WindowsArg(s, i, false) == Before(PieceMeans(piece), WindowsArg(s, i + |PieceForm(piece)|, false))
  {
    AtIn(s, i, PieceForm(piece));
    hide WindowsArg, ItemForm, ItemMeans, ItemGoes, Before, ItemsForm, ItemsMean, At, NoQuote, Backslashes;
    match piece
    case Free(item) => ItemFormReads(s, i, false, item);
    case Segment(lead, items, last) => SegmentTextReads(s, i, lead, items, last);
  }

  lemma SegmentTextReads(s: seq<Byte>, i: nat, lead: nat, items: seq<WindowsItem>, last: nat)
    requires At(s, i, Backslashes(2 * lead) + [QUOTE] + ItemsForm(items) + (Backslashes(2 * last) + [QUOTE]))
    requires (forall k :: 0 <= k < |items| ==> ItemGoes(items[k], true)) && NoQuote(s, i + 2 * lead + |ItemsForm(items)| + 2 * last + 2)
    ensures i + 2 * lead + |ItemsForm(items)| + 2 * last + 2 <= |s|
    ensures WindowsArg(s, i, false) == Before(Backslashes(lead) + (ItemsMean(items) + Backslashes(last)),
                                              WindowsArg(s, i + 2 * lead + |ItemsForm(items)| + 2 * last + 2, false))
  {
    hide *;
    var (open, close) := (Backslashes(2 * lead) + [QUOTE], Backslashes(2 * last) + [QUOTE]);
    AtSplit(s, i, open + ItemsForm(items), close);
    AtSplit(s, i, open, ItemsForm(items));
    SegmentFormReads(s, i, lead, items, last, i + |open| + |ItemsForm(items)|);
  }

  /** What follows a closing quote is no quote. */
  lemma StartsOther(s: seq<Byte>, i: nat, pieces: seq<WindowsPiece>, trail: nat)
    requires At(s, i, PiecesForm(pieces, trail)) && Ends(s, i + |PiecesForm(pieces, trail)|)
    requires pieces != [] ==> PieceGoes(pieces[0]) && !(pieces[0].Segment? && pieces[0].lead == 0)
    ensures NoQuote(s, i)
  {
    var form := PiecesForm(pieces, trail);
    if form != [] {
      AtByte(s, i, form, 0);
      if pieces != [] { assert form[0] == PieceForm(pieces[0])[0]; }
    }
  }

  lemma TrailReads(s: seq<Byte>, i: nat, trail: nat)
    requires At(s, i, Backslashes(trail)) && Ends(s, i + trail)
    ensures WindowsArg(s, i, false) == (Backslashes(trail), i + trail)
  {
    FreeRun(s, i, trail, false);
    EndReads(s, i + trail);
    assert Backslashes(trail) + [] == Backslashes(trail);
  }

  lemma {:induction false} PiecesFormRead(s: seq<Byte>, i: nat, pieces: seq<WindowsPiece>, trail: nat)
    requires At(s, i, PiecesForm(pieces, trail)) && Ends(s, i + |PiecesForm(pieces, trail)|)
    requires Apart(pieces) && forall k :: 0 <= k < |pieces| ==> PieceGoes(pieces[k])
    ensures WindowsArg(s, i, false) == (PiecesMean(pieces, trail), i + |PiecesForm(pieces, trail)|)
    decreases |pieces|
  {
    hide WindowsArg, PieceForm, PieceMeans, PieceGoes, At, Ends, NoQuote;
    if pieces == [] {
      TrailReads(s, i, trail);
    } else {
      var (form, rest) := (PieceForm(pieces[0]), pieces[1..]);
      AtSplit(s, i, form, PiecesForm(rest, trail));
      PiecesFormRead(s, i + |form|, rest, trail);
      if pieces[0].Segment? { StartsOther(s, i + |form|, rest, trail); }
      PieceFormReads(s, i, pieces[0]);
    }
  }

  lemma NotBlank(s: seq<Byte>, i: nat, arg: WindowsWritten)
    requires WindowsFits(arg) && At(s, i, PiecesForm(arg.pieces, arg.trail))
    ensures i < |s| && !IsSpace(s[i])
  {
    AtByte(s, i, PiecesForm(arg.pieces, arg.trail), 0);
    if arg.pieces != [] {
      assert PieceGoes(arg.pieces[0]) && PiecesForm(arg.pieces, arg.trail)[0] == PieceForm(arg.pieces[0])[0];
    }
  }

  function WindowsTexts(args: seq<WindowsWritten>): (r: seq<seq<Byte>>)
    ensures |r| == |args|
  {
    seq(|args|, i requires 0 <= i < |args| => PiecesForm(args[i].pieces, args[i].trail))
  }

  function WindowsMeanings(args: seq<WindowsWritten>): (r: seq<seq<Byte>>)
    ensures |r| == |args|
  {
    seq(|args|, i requires 0 <= i < |args| => PiecesMean(args[i].pieces, args[i].trail))
  }

  lemma WindowsSplit(args: seq<WindowsWritten>)
    requires args != []
    ensures WindowsTexts(args) == [PiecesForm(args[0].pieces, args[0].trail)] + WindowsTexts(args[1..])
    ensures WindowsMeanings(args) == [PiecesMean(args[0].pieces, args[0].trail)] + WindowsMeanings(args[1..])
  {
    hide PiecesForm, PiecesMean;
  }

  /** One argument, the gap after it, and the rest. */
  lemma WindowsFirst(s: seq<Byte>, i: nat, first: WindowsWritten, gap: seq<Byte>)
    requires WindowsFits(first) && At(s, i, PiecesForm(first.pieces, first.trail)) && At(s, i + |PiecesForm(first.pieces, first.trail)|, gap) && Blank(gap)
    ensures i + |PiecesForm(first.pieces, first.trail)| + |gap| <= |s|
    ensures Windows(s, i) == [PiecesMean(first.pieces, first.trail)] + Windows(s, i + |PiecesForm(first.pieces, first.trail)| + |gap|)
  {
    hide Windows, WindowsArg, At, Blank, PiecesForm, PiecesMean, Apart, PieceGoes;
    var end := i + |PiecesForm(first.pieces, first.trail)|;
    AtIn(s, end, gap);
    GapEnds(s, end, gap);
    PiecesFormRead(s, i, first.pieces, first.trail);
    NotBlank(s, i, first);
    NotSpace(s, i);
    WindowsNext(s, i);
  }

  lemma {:induction false} WindowsLineReads(s: seq<Byte>, i: nat, args: seq<WindowsWritten>, gap: seq<Byte>)
    requires At(s, i, Line(WindowsTexts(args), gap)) && i + |Line(WindowsTexts(args), gap)| == |s| && Blank(gap)
    requires forall k :: 0 <= k < |args| ==> WindowsFits(args[k])
    ensures Windows(s, i) == WindowsMeanings(args)
    decreases |args|
  {
    hide Windows, At, PiecesForm, PiecesMean, Blank, Line, WindowsFits, WindowsTexts, WindowsMeanings;
    if args == [] {
      WindowsEnd(s, i, args, gap);
    } else {
      WindowsSplit(args);
      var form := PiecesForm(args[0].pieces, args[0].trail);
      LineSplit(s, i, WindowsTexts(args), gap);
      WindowsFirst(s, i, args[0], gap);
      WindowsLineReads(s, i + |form| + |gap|, args[1..], gap);
    }
  }

  lemma WindowsEnd(s: seq<Byte>, i: nat, args: seq<WindowsWritten>, gap: seq<Byte>)
    requires args == [] && i + |Line(WindowsTexts(args), gap)| == |s|
    ensures Windows(s, i) == WindowsMeanings(args)
  {
  }

  /** Arguments written with any mix of backslashes, quotes and doubled quotes, and any gap between them, are read back as what they mean. */
  lemma WindowsReads(args: seq<WindowsWritten>, gap: seq<Byte>)
    requires Blank(gap) && forall k :: 0 <= k < |args| ==> WindowsFits(args[k])
    ensures Windows(Line(WindowsTexts(args), gap), 0) == WindowsMeanings(args)
  {
    var s := Line(WindowsTexts(args), gap);
    assert s[0..|s|] == s;
    WindowsLineReads(s, 0, args, gap);
  }

  /** An argument as items in quotes, and the run of backslashes at its end. */
  function ItemsOf(arg: seq<Byte>): (seq<WindowsItem>, nat)
    decreases |arg|
  {
    var run := RunEnd(arg, 0);
    if run == |arg| then ([], run)
    else
      var (rest, last) := ItemsOf(arg[run + 1..]);
      ([if arg[run] == QUOTE then Escape(run) else Plain(run, arg[run])] + rest, last)
  }

  /** One way to write any argument: in quotes, with runs of backslashes doubled before a quote and at the end. */
  function WindowsForm(arg: seq<Byte>): WindowsWritten
  {
    WindowsWritten([Segment(0, ItemsOf(arg).0, ItemsOf(arg).1)], 0)
  }

  lemma {:induction false} ItemsOfMean(arg: seq<Byte>)
    ensures ItemsMean(ItemsOf(arg).0) + Backslashes(ItemsOf(arg).1) == arg
    ensures forall k :: 0 <= k < |ItemsOf(arg).0| ==> ItemGoes(ItemsOf(arg).0[k], true)
    decreases |arg|
  {
    hide *;
    var run := RunEnd(arg, 0);
    if run == |arg| {
      ItemsOfEnd(arg);
      AllRun(arg, run);
      NothingMore(Backslashes(run));
    } else {
      ItemsOfMean(arg[run + 1..]);
      ItemMeansFirst(arg, run, ItemsOf(arg[run + 1..]).0, ItemsOf(arg[run + 1..]).1);
      ItemsOfIs(arg, run);
    }
  }

  lemma ItemsOfEnd(arg: seq<Byte>)
    requires RunEnd(arg, 0) == |arg|
    ensures ItemsOf(arg) == ([], |arg|) && ItemsMean([]) == []
  {
    hide RunEnd;
  }

  lemma AllRun(arg: seq<Byte>, run: nat)
    requires run == |arg| && forall k :: 0 <= k < run ==> arg[k] == BACKSLASH
    ensures Backslashes(run) == arg
  {
  }

  /** The item for a run of backslashes and what follows it. */
  function ItemAt(arg: seq<Byte>, run: nat): WindowsItem
    requires run < |arg|
  {
    if arg[run] == QUOTE then Escape(run) else Plain(run, arg[run])
  }

  lemma ItemsOfIs(arg: seq<Byte>, run: nat)
    requires run == RunEnd(arg, 0) < |arg|
    ensures ItemsOf(arg) == ([ItemAt(arg, run)] + ItemsOf(arg[run + 1..]).0, ItemsOf(arg[run + 1..]).1)
  {
    hide RunEnd;
  }

  lemma ItemMeansFirst(arg: seq<Byte>, run: nat, items: seq<WindowsItem>, last: nat)
    requires run < |arg| && arg[run] != BACKSLASH && (forall k :: 0 <= k < run ==> arg[k] == BACKSLASH)
    requires ItemsMean(items) + Backslashes(last) == arg[run + 1..]
    ensures ItemGoes(ItemAt(arg, run), true)
    ensures ItemsMean([ItemAt(arg, run)] + items) + Backslashes(last) == arg
  {
    var first := ItemAt(arg, run);
    assert ([first] + items)[1..] == items;
    assert ItemMeans(first) + arg[run + 1..] == arg;
    assert ItemMeans(first) + (ItemsMean(items) + Backslashes(last)) == ItemMeans(first) + ItemsMean(items) + Backslashes(last);
  }

  /** So every list of arguments can be written. */
  lemma WindowsRoundTrip(args: seq<seq<Byte>>, gap: seq<Byte>)
    requires Blank(gap)
    ensures Windows(Line(WindowsTexts(seq(|args|, i requires 0 <= i < |args| => WindowsForm(args[i]))), gap), 0) == args
  {
    var forms := seq(|args|, i requires 0 <= i < |args| => WindowsForm(args[i]));
    forall k | 0 <= k < |args|
      ensures WindowsFits(forms[k]) && PiecesMean(forms[k].pieces, 0) == args[k]
    {
      FormMeans(args[k]);
    }
    WindowsReads(forms, gap);
    assert WindowsMeanings(forms) == args;
  }

  lemma FormMeans(arg: seq<Byte>)
    ensures WindowsFits(WindowsForm(arg)) && PiecesMean(WindowsForm(arg).pieces, 0) == arg
  {
    ItemsOfMean(arg);
    hide ItemsOf, ItemsMean, ItemGoes;
    assert Backslashes(0) == [];
    var pieces := WindowsForm(arg).pieces;
    assert pieces[1..] == [] && PiecesMean(pieces[1..], 0) == [];
  }

  // ---- Expansion ----

  const MAX_DEPTH: nat := 64

  datatype Quoting = GnuQuoting | WindowsQuoting

  datatype ExpandError = TooDeep(arg: seq<Byte>) | Unreadable(name: seq<Byte>)

  /** A file's contents, if it can be read. */
  type Reader = seq<Byte> -> Option<seq<Byte>>

  function Tokens(contents: seq<Byte>, quoting: Quoting): seq<seq<Byte>>
  {
    if quoting.GnuQuoting? then Gnu(contents, 0) else Windows(contents, 0)
  }

  /** An argument that names a response file: an at sign and a name. */
  predicate NamesFile(arg: seq<Byte>)
  {
    |arg| > 1 && arg[0] == AT
  }

  /** `expand_into`, with the first error met. */
  function Expand(args: seq<seq<Byte>>, read: Reader, quoting: Quoting, depth: nat): Result<seq<seq<Byte>>, ExpandError>
    requires depth <= MAX_DEPTH
    decreases MAX_DEPTH - depth, |args|
  {
    if args == [] then Ok([])
    else
      var first := ExpandOne(args[0], read, quoting, depth);
      if first.Err? then first
      else
        var rest := Expand(args[1..], read, quoting, depth);
        if rest.Err? then rest else Ok(first.value + rest.value)
  }

  function ExpandOne(arg: seq<Byte>, read: Reader, quoting: Quoting, depth: nat): Result<seq<seq<Byte>>, ExpandError>
    requires depth <= MAX_DEPTH
    decreases MAX_DEPTH - depth, 0
  {
    if !NamesFile(arg) then Ok([arg])
    else if depth == MAX_DEPTH then Err(TooDeep(arg))
    else
      var contents := read(arg[1..]);
      if contents.None? then Err(Unreadable(arg[1..])) else Expand(Tokens(contents.value, quoting), read, quoting, depth + 1)
  }

  /** `expand_into`: appends to `out` argument by argument, until an error. */
  method ExpandInto(args: seq<seq<Byte>>, read: Reader, quoting: Quoting, depth: nat, out: seq<seq<Byte>>)
    returns (r: Result<seq<seq<Byte>>, ExpandError>)
    requires depth <= MAX_DEPTH
    ensures var e := Expand(args, read, quoting, depth);
      r == if e.Ok? then Ok(out + e.value) else e
    decreases MAX_DEPTH - depth
  {
    var done := out;
    hide Gnu, Windows;
    for i := 0 to |args|
      invariant Joined(out, Expand(args, read, quoting, depth)) == Joined(done, Expand(args[i..], read, quoting, depth))
    {
      var arg := args[i];
      assert args[i..][1..] == args[i + 1..] && args[i..][0] == arg;
      if !NamesFile(arg) {
        JoinNext(done, [arg], Expand(args[i + 1..], read, quoting, depth));
        done := done + [arg];
      } else {
        if depth >= MAX_DEPTH { return Err(TooDeep(arg)); }
        var contents := read(arg[1..]);
        if contents.None? { return Err(Unreadable(arg[1..])); }
        var tokens := Tokenize(contents.value, quoting);
        var nested := ExpandInto(tokens, read, quoting, depth + 1, done);
        if nested.Err? { return nested; }
        JoinNext(done, Expand(tokens, read, quoting, depth + 1).value, Expand(args[i + 1..], read, quoting, depth));
        done := nested.value;
      }
    }
    assert done + [] == done;
    return Ok(done);
  }

  method Tokenize(contents: seq<Byte>, quoting: Quoting) returns (args: seq<seq<Byte>>)
    ensures args == Tokens(contents, quoting)
  {
    if quoting.GnuQuoting? { args := TokenizeGnu(contents); } else { args := TokenizeWindows(contents); }
  }

  function Joined(out: seq<seq<Byte>>, r: Result<seq<seq<Byte>>, ExpandError>): Result<seq<seq<Byte>>, ExpandError>
  {
    if r.Ok? then Ok(out + r.value) else r
  }

  lemma JoinNext(out: seq<seq<Byte>>, first: seq<seq<Byte>>, rest: Result<seq<seq<Byte>>, ExpandError>)
    ensures Joined(out, Joined(first, rest)) == Joined(out + first, rest)
  {
    if rest.Ok? { assert out + (first + rest.value) == out + first + rest.value; }
  }

  /** Expanding two lists one after the other is expanding them together; the first error stands. */
  lemma {:induction false} ExpandDistributes(a: seq<seq<Byte>>, b: seq<seq<Byte>>, read: Reader, quoting: Quoting, depth: nat)
    requires depth <= MAX_DEPTH
    ensures var e := Expand(a, read, quoting, depth);
      Expand(a + b, read, quoting, depth) == if e.Ok? then Joined(e.value, Expand(b, read, quoting, depth)) else e
    decreases |a|
  {
    hide ExpandOne;
    if a == [] {
      assert a + b == b;
      var rest := Expand(b, read, quoting, depth);
      if rest.Ok? { assert [] + rest.value == rest.value; }
    } else {
      assert (a + b)[0] == a[0] && (a + b)[1..] == a[1..] + b;
      ExpandDistributes(a[1..], b, read, quoting, depth);
      var first := ExpandOne(a[0], read, quoting, depth);
      var rest := Expand(a[1..], read, quoting, depth);
      if first.Ok? && rest.Ok? { JoinNext(first.value, rest.value, Expand(b, read, quoting, depth)); }
    }
  }

  /** Every file named is readable, and names others at most `levels` deep. */
  predicate Nested(args: seq<seq<Byte>>, read: Reader, quoting: Quoting, levels: nat)
    decreases levels
  {
    forall i :: 0 <= i < |args| && NamesFile(args[i]) ==> NestedOne(args[i], read, quoting, levels)
  }

  predicate NestedOne(arg: seq<Byte>, read: Reader, quoting: Quoting, levels: nat)
    requires NamesFile(arg)
    decreases levels, 0
  {
    levels > 0 && read(arg[1..]).Some? && Nested(Tokens(read(arg[1..]).value, quoting), read, quoting, levels - 1)
  }

  /** The arguments with every file named replaced by what is in it, down to `levels`. */
  function Leaves(args: seq<seq<Byte>>, read: Reader, quoting: Quoting, levels: nat): seq<seq<Byte>>
    decreases levels, |args|
  {
    if args == [] then []
    else LeavesOf(args[0], read, quoting, levels) + Leaves(args[1..], read, quoting, levels)
  }

  function LeavesOf(arg: seq<Byte>, read: Reader, quoting: Quoting, levels: nat): seq<seq<Byte>>
    decreases levels, 0
  {
    if !NamesFile(arg) then [arg]
    else if levels == 0 || read(arg[1..]).None? then []
    else Leaves(Tokens(read(arg[1..]).value, quoting), read, quoting, levels - 1)
  }

  lemma NestedFirst(args: seq<seq<Byte>>, read: Reader, quoting: Quoting, levels: nat)
    requires args != []
    ensures Nested(args, read, quoting, levels)
       <==> (NamesFile(args[0]) ==> NestedOne(args[0], read, quoting, levels)) && Nested(args[1..], read, quoting, levels)
  {
    hide NestedOne, NamesFile;
    assert args == [args[0]] + args[1..];
    if Nested(args, read, quoting, levels) {
      assert forall i :: 0 <= i < |args[1..]| ==> args[1..][i] == args[i + 1];
    }
  }

  /** Expansion succeeds exactly when files are readable and at most 64 deep, and gives what is in them, in place. */
  lemma {:induction false} ExpandExact(args: seq<seq<Byte>>, read: Reader, quoting: Quoting, depth: nat)
    requires depth <= 64
    ensures Expand(args, read, quoting, depth).Ok? <==> Nested(args, read, quoting, 64 - depth)
    ensures Expand(args, read, quoting, depth).Ok? ==> Expand(args, read, quoting, depth).value == Leaves(args, read, quoting, 64 - depth)
    decreases 64 - depth, |args|
  {
    if args != [] {
      hide ExpandOne, Nested, LeavesOf, NamesFile, NestedOne;
      NestedFirst(args, read, quoting, 64 - depth);
      OneExact(args[0], read, quoting, depth);
      ExpandExact(args[1..], read, quoting, depth);
    } else {
      hide NestedOne, NamesFile;
    }
  }

  lemma {:induction false} OneExact(arg: seq<Byte>, read: Reader, quoting: Quoting, depth: nat)
    requires depth <= 64
    ensures var one := ExpandOne(arg, read, quoting, depth);
      && (one.Ok? <==> (NamesFile(arg) ==> NestedOne(arg, read, quoting, 64 - depth)))
      && (one.Ok? ==> one.value == LeavesOf(arg, read, quoting, 64 - depth))
    decreases 64 - depth, 0
  {
    if NamesFile(arg) && depth < 64 && read(arg[1..]).Some? {
      ExpandExact(Tokens(read(arg[1..]).value, quoting), read, quoting, depth + 1);
    }
    hide Tokens, Nested, NamesFile, Expand, Leaves;
  }

  predicate NoFiles(args: seq<seq<Byte>>)
  {
    forall i :: 0 <= i < |args| ==> !NamesFile(args[i])
  }

  /** What is left after expansion names no response file: only a bare at sign may start with one. */
  lemma {:induction false} ExpandLeavesNone(args: seq<seq<Byte>>, read: Reader, quoting: Quoting, depth: nat)
    requires depth <= MAX_DEPTH && Expand(args, read, quoting, depth).Ok?
    ensures NoFiles(Expand(args, read, quoting, depth).value)
    decreases MAX_DEPTH - depth, |args|
  {
    hide Tokens;
    if args != [] {
      ExpandLeavesNone(args[1..], read, quoting, depth);
      if NamesFile(args[0]) {
        ExpandLeavesNone(Tokens(read(args[0][1..]).value, quoting), read, quoting, depth + 1);
      }
    }
  }

  /** Arguments that name no file come out as they are: expanding again changes nothing. */
  lemma {:induction false} ExpandKeeps(args: seq<seq<Byte>>, read: Reader, quoting: Quoting, depth: nat)
    requires depth <= MAX_DEPTH && NoFiles(args)
    ensures Expand(args, read, quoting, depth) == Ok(args)
    decreases |args|
  {
    if args != [] {
      ExpandKeeps(args[1..], read, quoting, depth);
      assert args == [args[0]] + args[1..];
    }
  }

  /** Files that keep naming files never expand: any set of them closed under that fails, cyclic or not. */
  lemma {:induction false} CyclesFail(arg: seq<Byte>, files: set<seq<Byte>>, read: Reader, quoting: Quoting, depth: nat)
    requires depth <= MAX_DEPTH && NamesFile(arg) && arg[1..] in files
    requires forall f :: f in files && read(f).Some? ==>
      exists i :: 0 <= i < |Tokens(read(f).value, quoting)| && Continues(Tokens(read(f).value, quoting)[i], files)
    ensures ExpandOne(arg, read, quoting, depth).Err?
    decreases MAX_DEPTH - depth
  {
    hide Tokens;
    if depth < MAX_DEPTH && read(arg[1..]).Some? {
      var tokens := Tokens(read(arg[1..]).value, quoting);
      var i :| 0 <= i < |tokens| && Continues(tokens[i], files);
      CyclesFail(tokens[i], files, read, quoting, depth + 1);
      OneFails(tokens, i, read, quoting, depth + 1);
    }
  }

  predicate Continues(arg: seq<Byte>, files: set<seq<Byte>>)
  {
    NamesFile(arg) && arg[1..] in files
  }

  lemma {:induction false} OneFails(args: seq<seq<Byte>>, i: nat, read: Reader, quoting: Quoting, depth: nat)
    requires depth <= MAX_DEPTH && i < |args| && ExpandOne(args[i], read, quoting, depth).Err?
    ensures Expand(args, read, quoting, depth).Err?
    decreases i
  {
    hide ExpandOne;
    if i > 0 { OneFails(args[1..], i - 1, read, quoting, depth); }
  }
}
