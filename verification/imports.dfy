/** Import groups: how they are collected and named, and when the layout keeps two of them apart. */
module Imports {
  import opened Bytes
  import opened Sorting
  import ImportArchive
  import opened LayoutModel
  import opened LayoutPlace
  import LayoutBuild
  import LayoutFinish

  // ---- Collecting ----

  datatype Import = Import(symbol: seq<Byte>, data: bool)

  datatype DllGroup = DllGroup(dll: seq<Byte>, position: nat, imports: seq<Import>)

  /** ASCII lower case. */
  function Lower(text: seq<Byte>): (r: seq<Byte>)
    ensures |r| == |text|
  {
    seq(|text|, i requires 0 <= i < |text| => if 0x41 <= text[i] <= 0x5a then (text[i] + 0x20) as Byte else text[i])
  }

  predicate HasSymbol(imports: seq<Import>, symbol: seq<Byte>)
  {
    exists i :: 0 <= i < |imports| && imports[i].symbol == symbol
  }

  predicate DistinctSymbols(imports: seq<Import>)
  {
    forall i, j :: 0 <= i < j < |imports| ==> imports[i].symbol != imports[j].symbol
  }

  /** One group per DLL name whatever its case, one import per symbol. */
  predicate ValidGroups(groups: seq<DllGroup>)
  {
    && (forall i, j :: 0 <= i < j < |groups| ==> Lower(groups[i].dll) != Lower(groups[j].dll))
    && (forall i :: 0 <= i < |groups| ==> DistinctSymbols(groups[i].imports))
  }

  /** The first group of a DLL. */
  function GroupOf(groups: seq<DllGroup>, dll: seq<Byte>): (r: nat)
    ensures r <= |groups| && (r < |groups| ==> Lower(groups[r].dll) == Lower(dll))
    ensures forall i :: 0 <= i < r ==> Lower(groups[i].dll) != Lower(dll)
    decreases |groups|
  {
    if groups == [] || Lower(groups[0].dll) == Lower(dll) then 0 else 1 + GroupOf(groups[1..], dll)
  }

  /** The groups with one import recorded. */
  function Recorded(groups: seq<DllGroup>, dll: seq<Byte>, position: nat, one: Import): seq<DllGroup>
  {
    var at := GroupOf(groups, dll);
    if at == |groups| then groups + [DllGroup(dll, position, [one])]
    else if HasSymbol(groups[at].imports, one.symbol) then groups
    else groups[at := groups[at].(imports := groups[at].imports + [one])]
  }

  class Groups {
    var groups: seq<DllGroup>

    constructor ()
      ensures groups == []
    {
      groups := [];
    }

    /** Adds the import to its DLL's group, or to a new group after the others; a symbol the group has is left alone. */
    method Add(dll: seq<Byte>, position: nat, one: Import)
      requires ValidGroups(groups)
      modifies this
      ensures ValidGroups(groups) && groups == Recorded(old(groups), dll, position, one)
    {
      RecordedIsValid(groups, dll, position, one);
      var at := 0;
      while at < |groups| && Lower(groups[at].dll) != Lower(dll)
        invariant at <= |groups| && groups == old(groups)
        invariant forall i :: 0 <= i < at ==> Lower(groups[i].dll) != Lower(dll)
      {
        at := at + 1;
      }
      assert at == GroupOf(groups, dll);
      if at == |groups| {
        groups := groups + [DllGroup(dll, position, [])];
      }
      var group := groups[at];
      var known := false;
      for i := 0 to |group.imports|
        invariant known <==> exists k :: 0 <= k < i && group.imports[k].symbol == one.symbol
        invariant at < |groups| && groups[at] == group
        invariant groups == if GroupOf(old(groups), dll) == |old(groups)| then old(groups) + [DllGroup(dll, position, [])] else old(groups)
      {
        if group.imports[i].symbol == one.symbol { known := true; }
      }
      assert known <==> HasSymbol(group.imports, one.symbol);
      if !known {
        groups := groups[at := group.(imports := group.imports + [one])];
        if at == |old(groups)| { assert [] + [one] == [one]; }
      }
    }

    /** The generated objects, in order. */
    method Generate() returns (out: seq<Generated>)
      ensures out == OfGroups(groups, |groups|)
    {
      out := [];
      hide OfGroup;
      for g := 0 to |groups|
        invariant out == OfGroups(groups, g)
      {
        var more := GenerateGroup(groups[g]);
        out := out + more;
      }
    }
  }

  lemma RecordedIsValid(groups: seq<DllGroup>, dll: seq<Byte>, position: nat, one: Import)
    requires ValidGroups(groups)
    ensures ValidGroups(Recorded(groups, dll, position, one))
  {
    hide Lower;
    var at := GroupOf(groups, dll);
    var r := Recorded(groups, dll, position, one);
    assert |groups| <= |r| && forall i :: 0 <= i < |groups| ==> r[i].dll == groups[i].dll;
  }

  /** An import is recorded once, in its DLL's group; groups keep their order, DLL names and positions. */
  lemma RecordedKeeps(groups: seq<DllGroup>, dll: seq<Byte>, position: nat, one: Import)
    requires ValidGroups(groups)
    ensures var (r, at) := (Recorded(groups, dll, position, one), GroupOf(groups, dll));
      && at < |r| && HasSymbol(r[at].imports, one.symbol)
      && (forall i :: 0 <= i < |groups| ==> r[i].dll == groups[i].dll && r[i].position == groups[i].position)
      && (forall i :: 0 <= i < |groups| && i != at ==> r[i] == groups[i])
      && (at < |groups| ==> groups[at].imports <= r[at].imports)
      && Recorded(r, dll, position, one) == r
  {
    hide Lower;
    var (r, at) := (Recorded(groups, dll, position, one), GroupOf(groups, dll));
    var n := |r[at].imports|;
    if !(at < |groups| && HasSymbol(groups[at].imports, one.symbol)) { assert r[at].imports[n - 1].symbol == one.symbol; }
    assert GroupOf(r, dll) == at;
  }

  // ---- Names ----

  predicate IsAlphanumeric(b: Byte)
  {
    0x30 <= b <= 0x39 || 0x41 <= b <= 0x5a || 0x61 <= b <= 0x7a
  }

  /** `DllGroup::id`: the DLL name with an underscore for every other character. */
  function Id(dll: seq<Byte>): (r: seq<Byte>)
    ensures |r| == |dll| && IsId(r)
  {
    seq(|dll|, i requires 0 <= i < |dll| => if IsAlphanumeric(dll[i]) then dll[i] else 0x5f)
  }

  /** Characters an identifier has: all of them above the dot. */
  predicate IsId(id: seq<Byte>)
  {
    forall i :: 0 <= i < |id| ==> 0x30 <= id[i] <= 0x7a
  }

  function Zeros(n: nat): (r: seq<Byte>)
    ensures |r| == n
  {
    seq(n, _ => 0x30)
  }

  /** `{:05}`. */
  function Padded(n: nat): (r: seq<Byte>)
    ensures |r| >= 5
  {
    var digits := ImportArchive.Decimal(n);
    if |digits| < 5 then Zeros(5 - |digits|) + digits else digits
  }

  function HeadName(id: seq<Byte>): seq<Byte> { id + [0x68, 0x2e, 0x6f] }

  function ImportName(id: seq<Byte>, k: nat): seq<Byte> { id + [0x73] + Padded(k) + [0x2e, 0x6f] }

  function TailName(id: seq<Byte>): seq<Byte> { id + [0x74, 0x2e, 0x6f] }

  /** One of the names a group's objects get. */
  predicate IsName(id: seq<Byte>, name: seq<int>)
  {
    name == HeadName(id) || name == TailName(id) || IsImportName(id, name)
  }

  /** `id`, an `s`, digits, and the extension. */
  predicate IsImportName(id: seq<Byte>, name: seq<int>)
  {
    && |name| >= |id| + 8 && name[..|id|] == id && name[|id|] == 0x73
    && (forall i :: |id| < i < |name| - 2 ==> 0x30 <= name[i] <= 0x39)
    && name[|name| - 2] == 0x2e && name[|name| - 1] == 0x6f
  }

  lemma {:induction false} DecimalDigits(n: nat)
    ensures forall i :: 0 <= i < |ImportArchive.Decimal(n)| ==> 0x30 <= ImportArchive.Decimal(n)[i] <= 0x39
    decreases n
  {
    if n >= 10 { DecimalDigits(n / 10); }
  }

  lemma ImportNameIs(id: seq<Byte>, k: nat)
    ensures IsImportName(id, ImportName(id, k))
  {
    DecimalDigits(k);
    hide ImportArchive.Decimal;
    var (name, d) := (ImportName(id, k), Padded(k));
    assert forall i :: 0 <= i < |d| ==> 0x30 <= d[i] <= 0x39;
    assert name[..|id|] == id;
    forall i | |id| < i < |name| - 2
      ensures 0x30 <= name[i] <= 0x39
    {
      assert name[i] == d[i - |id| - 1];
    }
  }

  // ---- Generating ----

  /** A generated object: its file name, the symbols it defines, and its place among the inputs. */
  datatype Generated = Generated(name: seq<Byte>, defines: seq<seq<Byte>>, position: nat, ordinal: nat)

  /** `_head_` and the identifier. */
  function HeadSymbol(id: seq<Byte>): seq<Byte>
  {
    [0x5f, 0x68, 0x65, 0x61, 0x64, 0x5f] + id
  }

  /** The identifier between `__` and `_iname`. */
  function NameSymbol(id: seq<Byte>): seq<Byte>
  {
    [0x5f, 0x5f] + id + [0x5f, 0x69, 0x6e, 0x61, 0x6d, 0x65]
  }

  /** `__imp_` and the symbol; a code import also defines the symbol itself, as a thunk. */
  function Defines(one: Import): seq<seq<Byte>>
  {
    var pointer := [0x5f, 0x5f, 0x69, 0x6d, 0x70, 0x5f] + one.symbol;
    if one.data then [pointer] else [pointer, one.symbol]
  }

  /** The objects of one group: the head, one per import, the tail. */
  function OfGroup(group: DllGroup): (r: seq<Generated>)
    ensures |r| == |group.imports| + 2
  {
    var (id, n) := (Id(group.dll), |group.imports|);
    [Generated(HeadName(id), [HeadSymbol(id)], group.position, 0)]
    + seq(n, k requires 0 <= k < n => Generated(ImportName(id, k), Defines(group.imports[k]), group.position, k + 1))
    + [Generated(TailName(id), [NameSymbol(id)], group.position, n + 1)]
  }

  function OfGroups(groups: seq<DllGroup>, k: nat): seq<Generated>
    requires k <= |groups|
  {
    if k == 0 then [] else OfGroups(groups, k - 1) + OfGroup(groups[k - 1])
  }

  method GenerateGroup(group: DllGroup) returns (out: seq<Generated>)
    ensures out == OfGroup(group)
  {
    var id := Id(group.dll);
    var ordinal := 0;
    hide Id, HeadName, ImportName, TailName, HeadSymbol, NameSymbol, Defines;
    out := [Generated(HeadName(id), [HeadSymbol(id)], group.position, ordinal)];
    ordinal := ordinal + 1;
    for k := 0 to |group.imports|
      invariant ordinal == k + 1 == |out| && out[0] == OfGroup(group)[0]
      invariant forall j :: 1 <= j <= k ==> out[j] == Generated(ImportName(id, j - 1), Defines(group.imports[j - 1]), group.position, j)
    {
      out := out + [Generated(ImportName(id, k), Defines(group.imports[k]), group.position, ordinal)];
      ordinal := ordinal + 1;
    }
    out := out + [Generated(TailName(id), [NameSymbol(id)], group.position, ordinal)];
    assert out == OfGroup(group);
  }

  lemma GeneratedNames(group: DllGroup, k: nat)
    requires k < |OfGroup(group)|
    ensures IsName(Id(group.dll), OfGroup(group)[k].name)
    ensures OfGroup(group)[k].ordinal == k && OfGroup(group)[k].position == group.position
    ensures k == 0 ==> OfGroup(group)[k].name == HeadName(Id(group.dll))
    ensures k == |group.imports| + 1 ==> OfGroup(group)[k].name == TailName(Id(group.dll))
  {
    if 0 < k <= |group.imports| { ImportNameIs(Id(group.dll), k - 1); }
    hide Id, HeadName, TailName, ImportName, IsImportName;
  }

  /** The texts the names are made of. */
  lemma NameTexts()
    ensures Ascii("h.o") == [0x68, 0x2e, 0x6f] && Ascii("t.o") == [0x74, 0x2e, 0x6f] && Ascii("s") == [0x73] && Ascii(".o") == [0x2e, 0x6f]
  {
  }

  lemma SymbolTexts()
    ensures Ascii("_head_") == [0x5f, 0x68, 0x65, 0x61, 0x64, 0x5f] && Ascii("__imp_") == [0x5f, 0x5f, 0x69, 0x6d, 0x70, 0x5f]
    ensures Ascii("__") == [0x5f, 0x5f] && Ascii("_iname") == [0x5f, 0x69, 0x6e, 0x61, 0x6d, 0x65]
  {
  }

  /** What each object of a group is called and defines: `<id>h.o` the list head, `<id>sNNNNN.o` its import, `<id>t.o` the DLL's name. */
  lemma GeneratedAre(group: DllGroup, k: nat)
    requires k < |OfGroup(group)|
    ensures var (id, n, one) := (Id(group.dll), |group.imports|, OfGroup(group)[k]);
      if k == 0 then one.name == id + Ascii("h.o") && one.defines == [Ascii("_head_") + id]
      else if k == n + 1 then one.name == id + Ascii("t.o") && one.defines == [Ascii("__") + id + Ascii("_iname")]
      else
        var (pointer, symbol) := (Ascii("__imp_") + group.imports[k - 1].symbol, group.imports[k - 1].symbol);
        && one.name == id + Ascii("s") + Padded(k - 1) + Ascii(".o")
        && one.defines == if group.imports[k - 1].data then [pointer] else [pointer, symbol]
  {
    NameTexts();
    SymbolTexts();
    hide Id, Padded, Ascii;
  }

  /** The same letter, whatever its case, or the same other character. */
  predicate SameLetter(a: Byte, b: Byte)
  {
    a == b || (0x41 <= a <= 0x5a && b == a + 0x20) || (0x41 <= b <= 0x5a && a == b + 0x20)
  }

  /** DLL names that have one group: the same whatever the case of their letters. */
  lemma SameDll(a: seq<Byte>, b: seq<Byte>)
    ensures Lower(a) == Lower(b) <==> |a| == |b| && forall i :: 0 <= i < |a| ==> SameLetter(a[i], b[i])
  {
    assert |Lower(a)| == |a| && |Lower(b)| == |b|;
    if Lower(a) == Lower(b) {
      forall i | 0 <= i < |a|
        ensures SameLetter(a[i], b[i])
      {
        assert Lower(a)[i] == Lower(b)[i];
      }
    }
  }

  // ---- The order of names ----

  lemma {:induction false} SamePrefix(p: seq<int>, a: seq<int>, b: seq<int>)
    ensures LexLe(p + a, p + b) == LexLe(a, b)
    decreases |p|
  {
    if p == [] {
      assert p + a == a && p + b == b;
    } else {
      assert (p + a)[1..] == p[1..] + a && (p + b)[1..] == p[1..] + b;
      SamePrefix(p[1..], a, b);
    }
  }

  /** Between two strings that start with `p` there are only strings that do. */
  lemma {:induction false} BetweenPrefix(p: seq<int>, a: seq<int>, b: seq<int>, x: seq<int>)
    requires LexLe(p + a, x) && LexLe(x, p + b)
    ensures p <= x
    decreases |p|
  {
    if p != [] {
      assert (p + a)[1..] == p[1..] + a && (p + b)[1..] == p[1..] + b;
      assert x != [] && x[0] == p[0];
      BetweenPrefix(p[1..], a, b, x[1..]);
      assert p == [p[0]] + p[1..] && x == [x[0]] + x[1..];
    }
  }

  /** Whether a string lies between a group's head and tail, by what follows the identifier. */
  predicate Within(id: seq<Byte>, name: seq<int>)
  {
    LexLe(HeadName(id), name) && LexLe(name, TailName(id))
  }

  /** The part after the identifier decides. */
  lemma WithinRest(id: seq<Byte>, rest: seq<int>)
    ensures Within(id, id + rest) <==> LexLe([0x68, 0x2e, 0x6f], rest) && LexLe(rest, [0x74, 0x2e, 0x6f])
  {
    SamePrefix(id, [0x68, 0x2e, 0x6f], rest);
    SamePrefix(id, rest, [0x74, 0x2e, 0x6f]);
    hide LexLe;
  }

  /** What may follow: from `h.o` to `t.o`. */
  lemma RestWithin(rest: seq<int>)
    requires |rest| >= 2
    ensures rest[0] < 0x68 || rest[0] > 0x74 ==> !(LexLe([0x68, 0x2e, 0x6f], rest) && LexLe(rest, [0x74, 0x2e, 0x6f]))
    ensures 0x68 < rest[0] < 0x74 ==> LexLe([0x68, 0x2e, 0x6f], rest) && LexLe(rest, [0x74, 0x2e, 0x6f])
    ensures rest[0] == 0x68 && rest[1] > 0x2e ==> LexLe([0x68, 0x2e, 0x6f], rest) && LexLe(rest, [0x74, 0x2e, 0x6f])
    ensures rest[0] == 0x74 && rest[1] > 0x2e ==> !LexLe(rest, [0x74, 0x2e, 0x6f])
  {
    assert [0x68, 0x2e, 0x6f][1..] == [0x2e, 0x6f] && [0x74, 0x2e, 0x6f][1..] == [0x2e, 0x6f];
    assert LexLe([0x68, 0x2e, 0x6f], rest) <==> 0x68 < rest[0] || (0x68 == rest[0] && LexLe([0x2e, 0x6f], rest[1..]));
    assert LexLe(rest, [0x74, 0x2e, 0x6f]) <==> rest[0] < 0x74 || (rest[0] == 0x74 && LexLe(rest[1..], [0x2e, 0x6f]));
    assert rest[1..][0] == rest[1];
  }

  /** `b`'s identifier continues `a`'s with a letter from `h` to `s`. */
  predicate Splits(a: seq<Byte>, b: seq<Byte>)
  {
    |a| < |b| && b[..|a|] == a && 0x68 <= b[|a|] <= 0x73
  }

  /** Every name of a group lies between its head and tail. */
  lemma OwnNamesWithin(id: seq<Byte>, name: seq<int>)
    requires IsName(id, name)
    ensures Within(id, name)
  {
    var rest := name[|id|..];
    assert name == id + rest;
    WithinRest(id, rest);
    if IsImportName(id, name) {
      assert rest[0] == name[|id|] == 0x73;
      RestWithin(rest);
    } else {
      LexReflexive([0x68, 0x2e, 0x6f]);
      LexReflexive([0x74, 0x2e, 0x6f]);
    }
  }

  lemma NameStarts(id: seq<Byte>, name: seq<int>)
    requires IsName(id, name)
    ensures |name| >= |id| + 3 && name[..|id|] == id
    ensures name[|id|] == 0x68 || name[|id|] == 0x73 || name[|id|] == 0x74
    ensures if name[|id|] == 0x73 then 0x30 <= name[|id| + 1] <= 0x39 else name[|id| + 1] == 0x2e && |name| == |id| + 3
    ensures forall i :: |id| < i < |name| - 1 ==> 0x2e <= name[i] <= 0x39
    ensures name[|name| - 1] == 0x6f && name[|name| - 2] == 0x2e
  {
  }

  /**
    A name of another group lies between a group's head and tail exactly when
    that group's identifier continues this one's with a letter from `h` to `s`.
   */
  lemma OthersWithin(a: seq<Byte>, b: seq<Byte>, name: seq<int>)
    requires IsId(a) && IsId(b) && a != b && IsName(b, name)
    ensures Within(a, name) <==> Splits(a, b)
  {
    NameStarts(b, name);
    hide IsName, IsImportName;
    if a <= name {
      var rest := name[|a|..];
      assert name == a + rest;
      WithinRest(a, rest);
      if |a| <= |b| {
        assert a == name[..|a|] && name[..|b|] == b;
        assert b[..|a|] == a;
        assert |a| < |b|;
        assert rest[0] == name[|a|] == b[|a|];
        assert rest[1] == name[|a| + 1];
        assert |a| + 1 < |b| ==> rest[1] == b[|a| + 1];
        RestWithin(rest);
      } else {
        ShorterOutside(a, b, name, rest);
      }
    } else {
      if Within(a, name) {
        BetweenPrefix(a, [0x68, 0x2e, 0x6f], [0x74, 0x2e, 0x6f], name);
        assert false;
      }
      SplitsStarts(a, b, name);
    }
  }

  lemma SplitsStarts(a: seq<Byte>, b: seq<Byte>, name: seq<int>)
    requires |name| >= |b| && name[..|b|] == b
    ensures Splits(a, b) ==> a <= name
  {
    if Splits(a, b) { assert name[..|a|] == name[..|b|][..|a|]; }
  }

  /** Past the identifier a name has only digits, dots and the last letter, which is not where another identifier ends. */
  lemma ShorterOutside(a: seq<Byte>, b: seq<Byte>, name: seq<int>, rest: seq<int>)
    requires |a| > |b| && name == a + rest && |name| >= |b| + 3 && IsId(a)
    requires forall i :: |b| < i < |name| - 1 ==> 0x2e <= name[i] <= 0x39
    requires name[|name| - 2] == 0x2e
    ensures !LexLe([0x68, 0x2e, 0x6f], rest)
  {
    if |rest| >= 2 {
      assert rest[0] == name[|a|];
    } else {
      assert false;
    }
  }

  // ---- Groups in the layout ----

  function NameOf(files: seq<InFile>, p: Placed): seq<int>
  {
    if p.file < |files| then Text(files[p.file].sortName) else []
  }

  /** The name of one of the objects generated for the group. */
  predicate IsObject(group: DllGroup, name: seq<int>)
  {
    exists k :: 0 <= k < |OfGroup(group)| && OfGroup(group)[k].name == name
  }

  predicate HasNamed(files: seq<InFile>, list: seq<Placed>, step: nat, own: set<nat>, name: seq<int>)
  {
    exists i :: 0 <= i < |list| && list[i].step == step && list[i].file in own && NameOf(files, list[i]) == name
  }

  /** The files `own` are the group's objects, and the step has contributions of the head and of the tail. */
  predicate Linked(files: seq<InFile>, list: seq<Placed>, step: nat, own: set<nat>, group: DllGroup)
  {
    && (forall i :: 0 <= i < |list| && list[i].step == step && list[i].file in own ==> IsObject(group, NameOf(files, list[i])))
    && HasNamed(files, list, step, own, OfGroup(group)[0].name)
    && HasNamed(files, list, step, own, OfGroup(group)[|group.imports| + 1].name)
  }

  predicate SplitAt(list: seq<Placed>, step: nat, own: set<nat>, other: set<nat>, x: nat, y: nat, z: nat)
  {
    && x < y < z < |list| && list[x].step == list[z].step == step
    && list[x].file in own && list[y].file in other && list[z].file in own
  }

  /** A contribution of one group lies between two of another. */
  ghost predicate Interrupts(list: seq<Placed>, step: nat, own: set<nat>, other: set<nat>)
  {
    exists x: nat, y: nat, z: nat :: SplitAt(list, step, own, other, x, y, z)
  }

  predicate ByFileStep(list: seq<Placed>, step: nat)
  {
    forall i :: 0 <= i < |list| && list[i].step == step ==> list[i].sort == ByFile
  }

  /** The contributions of an output section are such a list, for every step sorted by file. */
  lemma ContributionsByFile(recipe: seq<Step>, files: seq<InFile>, name: string, step: nat)
    requires step < |recipe| < NO_STEP && recipe[step].Place? && recipe[step].sort == ByFile
    ensures var list := LayoutFinish.Contributions(recipe, files, name);
      Sorted(list, Before(files)) && ByFileStep(list, step)
  {
    var list := LayoutFinish.Contributions(recipe, files, name);
    LayoutFinish.ContributionsAre(recipe, files, name);
    hide LayoutFinish.Contributions, LayoutBuild.Target, NotAfter;
    forall i | 0 <= i < |list| && list[i].step == step
      ensures list[i].sort == ByFile
    {
      assert list[i] in list;
    }
  }

  /** Which of two contributions comes first. */
  lemma PlacesOrdered(files: seq<InFile>, list: seq<Placed>, step: nat, i: nat, j: nat)
    requires Sorted(list, Before(files)) && ByFileStep(list, step)
    requires i < |list| && j < |list| && list[i].step == list[j].step == step
    requires LexLe(NameOf(files, list[i]), NameOf(files, list[j]))
    requires NameOf(files, list[i]) != NameOf(files, list[j]) || list[i].file < list[j].file
    ensures i < j
  {
    if j < i {
      assert Before(files)(list[j], list[i]);
      LexTotal(NameOf(files, list[i]), NameOf(files, list[j]));
      assert false;
    }
  }

  lemma KeysOrdered(files: seq<InFile>, list: seq<Placed>, step: nat, i: nat, j: nat)
    requires Sorted(list, Before(files)) && ByFileStep(list, step)
    requires i < j < |list| && list[i].step == list[j].step == step
    ensures LexLe(NameOf(files, list[i]), NameOf(files, list[j]))
  {
    assert Before(files)(list[i], list[j]);
    LexReflexive(NameOf(files, list[i]));
  }

  lemma StepBetween(files: seq<InFile>, list: seq<Placed>, x: nat, y: nat, z: nat)
    requires Sorted(list, Before(files)) && x < y < z < |list| && list[x].step == list[z].step
    ensures list[y].step == list[x].step
  {
    assert Before(files)(list[x], list[y]) && Before(files)(list[y], list[z]);
  }

  lemma ObjectNamed(group: DllGroup, name: seq<int>)
    requires IsObject(group, name)
    ensures IsName(Id(group.dll), name)
  {
    var k :| 0 <= k < |OfGroup(group)| && OfGroup(group)[k].name == name;
    GeneratedNames(group, k);
  }

  /** Where the head and the tail of a group are. */
  lemma EndsOf(files: seq<InFile>, list: seq<Placed>, step: nat, own: set<nat>, group: DllGroup) returns (x: nat, z: nat)
    requires Linked(files, list, step, own, group)
    ensures x < |list| && list[x].step == step && list[x].file in own && NameOf(files, list[x]) == HeadName(Id(group.dll))
    ensures z < |list| && list[z].step == step && list[z].file in own && NameOf(files, list[z]) == TailName(Id(group.dll))
  {
    GeneratedNames(group, 0);
    GeneratedNames(group, |group.imports| + 1);
    hide Id, HeadName, TailName, NameOf, OfGroup, IsName;
    var (head, tail) := (OfGroup(group)[0].name, OfGroup(group)[|group.imports| + 1].name);
    x :| 0 <= x < |list| && list[x].step == step && list[x].file in own && NameOf(files, list[x]) == head;
    z :| 0 <= z < |list| && list[z].step == step && list[z].file in own && NameOf(files, list[z]) == tail;
  }

  /** What comes between two members is named between head and tail. */
  lemma SplitMeans(files: seq<InFile>, list: seq<Placed>, step: nat, g: DllGroup, h: DllGroup, own: set<nat>, other: set<nat>, x: nat, y: nat, z: nat)
    requires Sorted(list, Before(files)) && ByFileStep(list, step)
    requires Linked(files, list, step, own, g) && Linked(files, list, step, other, h)
    requires SplitAt(list, step, own, other, x, y, z)
    ensures Id(g.dll) == Id(h.dll) || Splits(Id(g.dll), Id(h.dll))
  {
    StepBetween(files, list, x, y, z);
    KeysOrdered(files, list, step, x, y);
    KeysOrdered(files, list, step, y, z);
    var (a, b) := (Id(g.dll), Id(h.dll));
    var (p, q, r) := (NameOf(files, list[x]), NameOf(files, list[y]), NameOf(files, list[z]));
    hide Id, IsName, Splits, HeadName, TailName, NameOf, OfGroup, IsObject, ByFileStep;
    ObjectNamed(g, p);
    ObjectNamed(g, r);
    ObjectNamed(h, q);
    hide Linked;
    OwnNamesWithin(a, p);
    OwnNamesWithin(a, r);
    LexTransitive(HeadName(a), p, q);
    LexTransitive(q, r, TailName(a));
    if a != b { OthersWithin(a, b, q); }
  }

  lemma SplitNamesDiffer(a: seq<Byte>, b: seq<Byte>, name: seq<int>)
    requires Splits(a, b) && IsId(b) && IsName(b, name)
    ensures name != HeadName(a) && name != TailName(a)
  {
    NameStarts(b, name);
    hide IsName, IsImportName;
    assert name[|a|] == b[|a|];
    if |a| + 1 < |b| { assert name[|a| + 1] == b[|a| + 1]; }
    assert HeadName(a)[|a| + 1] == 0x2e && TailName(a)[|a|] == 0x74;
  }

  /** A group whose identifier continues another's is wholly inside it. */
  lemma SplitsInside(files: seq<InFile>, list: seq<Placed>, step: nat, g: DllGroup, h: DllGroup, own: set<nat>, other: set<nat>, y: nat)
    requires Sorted(list, Before(files)) && ByFileStep(list, step)
    requires Linked(files, list, step, own, g) && Linked(files, list, step, other, h)
    requires Splits(Id(g.dll), Id(h.dll)) && y < |list| && list[y].step == step && list[y].file in other
    ensures exists x: nat, z: nat :: SplitAt(list, step, own, other, x, y, z)
  {
    var x, z := EndsOf(files, list, step, own, g);
    var (a, b, name) := (Id(g.dll), Id(h.dll), NameOf(files, list[y]));
    ObjectNamed(h, name);
    hide Linked, Id, NameOf, IsName, HeadName, TailName, ByFileStep;
    SplitNamesDiffer(a, b, name);
    OthersWithin(a, b, name);
    PlacesOrdered(files, list, step, x, y);
    PlacesOrdered(files, list, step, y, z);
    hide Splits;
    assert SplitAt(list, step, own, other, x, y, z);
  }

  lemma HeadBeforeTail(id: seq<Byte>)
    ensures LexLe(HeadName(id), TailName(id)) && HeadName(id) != TailName(id)
  {
    LexReflexive([0x74, 0x2e, 0x6f]);
    RestWithin([0x74, 0x2e, 0x6f]);
    SamePrefix(id, [0x68, 0x2e, 0x6f], [0x74, 0x2e, 0x6f]);
    assert HeadName(id)[|id|] == 0x68 && TailName(id)[|id|] == 0x74;
  }

  /** Of two groups with the same identifier, the one whose head has the lower file number is interrupted by the other's. */
  lemma SameIdInterrupts(files: seq<InFile>, list: seq<Placed>, step: nat, g: DllGroup, h: DllGroup, own: set<nat>, other: set<nat>)
    requires Sorted(list, Before(files)) && ByFileStep(list, step) && own !! other
    requires Linked(files, list, step, own, g) && Linked(files, list, step, other, h)
    requires Id(g.dll) == Id(h.dll)
    ensures Interrupts(list, step, own, other) || Interrupts(list, step, other, own)
  {
    var x, z := EndsOf(files, list, step, own, g);
    var u, w := EndsOf(files, list, step, other, h);
    HeadBeforeTail(Id(g.dll));
    LexReflexive(HeadName(Id(g.dll)));
    hide Linked, Id, NameOf, HeadName, TailName, ByFileStep;
    assert list[x].file != list[u].file;
    if list[x].file < list[u].file {
      PlacesOrdered(files, list, step, x, u);
      PlacesOrdered(files, list, step, u, z);
      assert SplitAt(list, step, own, other, x, u, z);
    } else {
      PlacesOrdered(files, list, step, u, x);
      PlacesOrdered(files, list, step, x, w);
      assert SplitAt(list, step, other, own, u, x, w);
    }
  }

  /** Between groups of different identifiers: one is interrupted by the other exactly when the other's
      identifier continues its own with a letter from `h` to `s`. */
  lemma InterruptedBy(files: seq<InFile>, list: seq<Placed>, step: nat, g: DllGroup, h: DllGroup, own: set<nat>, other: set<nat>)
    requires Sorted(list, Before(files)) && ByFileStep(list, step)
    requires Linked(files, list, step, own, g) && Linked(files, list, step, other, h)
    requires Id(g.dll) != Id(h.dll)
    ensures Interrupts(list, step, own, other) <==> Splits(Id(g.dll), Id(h.dll))
  {
    if Interrupts(list, step, own, other) {
      var x: nat, y: nat, z: nat :| SplitAt(list, step, own, other, x, y, z);
      SplitMeans(files, list, step, g, h, own, other, x, y, z);
    }
    if Splits(Id(g.dll), Id(h.dll)) {
      var u, w := EndsOf(files, list, step, other, h);
      SplitsInside(files, list, step, g, h, own, other, u);
    }
  }

  /** Sorting by file name keeps two groups apart exactly when their identifiers differ and neither
      continues the other with a letter from `h` to `s`. */
  lemma GroupsTogether(files: seq<InFile>, list: seq<Placed>, step: nat, g: DllGroup, h: DllGroup, own: set<nat>, other: set<nat>)
    requires Sorted(list, Before(files)) && ByFileStep(list, step) && own !! other
    requires Linked(files, list, step, own, g) && Linked(files, list, step, other, h)
    ensures var (a, b) := (Id(g.dll), Id(h.dll));
      !Interrupts(list, step, own, other) && !Interrupts(list, step, other, own)
      <==> a != b && !Splits(a, b) && !Splits(b, a)
  {
    hide Linked, Interrupts, Splits, Id;
    if Id(g.dll) == Id(h.dll) {
      SameIdInterrupts(files, list, step, g, h, own, other);
    } else {
      InterruptedBy(files, list, step, g, h, own, other);
      InterruptedBy(files, list, step, h, g, other, own);
    }
  }

  /** The smallest case: a DLL `x` is split by a DLL `xs`, all of whose names sort between its head and tail. */
  lemma GroupCanSplit(name: seq<int>)
    requires IsName(Id([0x78, 0x73]), name)
    ensures Within(Id([0x78]), name)
  {
    var (a, b) := (Id([0x78]), Id([0x78, 0x73]));
    assert a == [0x78] && b == [0x78, 0x73];
    assert b[..1] == a;
    hide IsName;
    OthersWithin(a, b, name);
  }

  /** Two DLLs with one identifier: `a-b` and `a.b`, different whatever the case. */
  lemma SameIdentifier()
    ensures var (a, b) := ([0x61, 0x2d, 0x62], [0x61, 0x2e, 0x62]);
      Id(a) == Id(b) == [0x61, 0x5f, 0x62] && Lower(a) != Lower(b)
  {
    assert Lower([0x61, 0x2d, 0x62])[1] != Lower([0x61, 0x2e, 0x62])[1];
  }

  // ---- Order inside a group ----

  /** The last `w` digits. */
  function PadTo(n: nat, w: nat): (r: seq<Byte>)
    ensures |r| == w
  {
    if w == 0 then [] else PadTo(n / 10, w - 1) + [(0x30 + n % 10) as Byte]
  }

  lemma {:induction false} PadZero(w: nat)
    ensures PadTo(0, w) == Zeros(w)
  {
    if w > 0 { PadZero(w - 1); }
  }

  lemma {:induction false} PadIsDecimal(n: nat, w: nat)
    requires n < ImportArchive.Power10(w) && w > 0
    ensures |ImportArchive.Decimal(n)| <= w
    ensures PadTo(n, w) == Zeros(w - |ImportArchive.Decimal(n)|) + ImportArchive.Decimal(n)
    decreases w
  {
    if n < 10 {
      PadZero(w - 1);
    } else {
      PadIsDecimal(n / 10, w - 1);
    }
  }

  lemma {:induction false} LexAppend(p: seq<Byte>, q: seq<Byte>, x: Byte, y: Byte)
    requires |p| == |q|
    ensures LexLe(p + [x], q + [y]) <==> if p == q then x <= y else LexLe(p, q)
    decreases |p|
  {
    if p == [] {
      assert LexLe([x][1..], [y][1..]);
    } else {
      assert (p + [x])[1..] == p[1..] + [x] && (q + [y])[1..] == q[1..] + [y];
      assert p == [p[0]] + p[1..] && q == [q[0]] + q[1..];
      LexAppend(p[1..], q[1..], x, y);
    }
  }

  lemma {:induction false} PadOrder(a: nat, b: nat, w: nat)
    requires a < b < ImportArchive.Power10(w)
    ensures LexLe(PadTo(a, w), PadTo(b, w)) && PadTo(a, w) != PadTo(b, w)
    decreases w
  {
    if w > 0 {
      var (p, q) := (PadTo(a / 10, w - 1), PadTo(b / 10, w - 1));
      var (x, y) := ((0x30 + a % 10) as Byte, (0x30 + b % 10) as Byte);
      LexAppend(p, q, x, y);
      LastDiffers(p, q, x, y);
      if a / 10 < b / 10 { PadOrder(a / 10, b / 10, w - 1); }
    }
  }

  lemma LastDiffers(p: seq<Byte>, q: seq<Byte>, x: Byte, y: Byte)
    requires |p| == |q|
    ensures p + [x] == q + [y] ==> p == q && x == y
  {
    if p + [x] == q + [y] {
      assert (p + [x])[..|p|] == p && (q + [y])[..|q|] == q && (p + [x])[|p|] == x && (q + [y])[|q|] == y;
    }
  }

  /** The head comes before every import and the tail after, however many there are. */
  lemma HeadAndTail(id: seq<Byte>, k: nat)
    ensures LexLe(HeadName(id), ImportName(id, k)) && LexLe(ImportName(id, k), TailName(id))
    ensures HeadName(id) != ImportName(id, k) && ImportName(id, k) != TailName(id)
  {
    ImportNameIs(id, k);
    OwnNamesWithin(id, ImportName(id, k));
    assert HeadName(id)[|id|] == 0x68 && TailName(id)[|id|] == 0x74 && ImportName(id, k)[|id|] == 0x73;
    hide ImportName, HeadName, TailName, LexLe;
  }

  /** Below 100000 the names of the imports are in order. */
  lemma OrderInGroup(id: seq<Byte>, k: nat, m: nat)
    requires k < m < 100000
    ensures LexLe(ImportName(id, k), ImportName(id, m)) && ImportName(id, k) != ImportName(id, m)
  {
    PadIs(k);
    PadIs(m);
    PadOrder5(k, m);
    hide ImportArchive.Decimal, Padded, PadTo, LexLe;
    NamesOrdered(id + [0x73], Padded(k), Padded(m), [0x2e, 0x6f]);
  }

  /** The five leading digits of a number that has more. */
  function Leading(n: nat): (r: nat)
    ensures r < 100000 && (n >= 100000 ==> 10000 <= r)
  {
    if n < 100000 then n else Leading(n / 10)
  }

  /** A number of more digits sorts by its five leading ones: before those of five digits that are greater, after the rest. */
  lemma LongNumbers(id: seq<Byte>, k: nat, m: nat)
    requires m < 100000 <= k
    ensures LexLe(ImportName(id, k), ImportName(id, m)) <==> Leading(k) < m
    ensures ImportName(id, k) != ImportName(id, m)
  {
    PadIs(m);
    var rest := LeadingDigits(k);
    PadIs(Leading(k));
    hide ImportArchive.Decimal, LexLe, Leading;
    var (p, q, end) := (PadTo(Leading(k), 5), PadTo(m, 5), [0x2e, 0x6f]);
    assert Padded(k) == p + rest;
    assert ImportName(id, k) == (id + [0x73]) + (p + (rest + end));
    assert ImportName(id, m) == (id + [0x73]) + (q + end);
    hide PadTo, Padded, ImportName;
    SamePrefix(id + [0x73], p + (rest + end), q + end);
    LeadingDecide(Leading(k), m, rest + end, end);
    assert |ImportName(id, k)| > |ImportName(id, m)|;
  }

  /** Equally long parts decide, unless they are the same. */
  lemma {:induction false} PartDecides(p: seq<Byte>, x: seq<Byte>, q: seq<Byte>, y: seq<Byte>)
    requires |p| == |q| && p != q
    ensures LexLe(p + x, q + y) <==> LexLe(p, q)
    decreases |p|
  {
    if p != [] {
      assert (p + x)[1..] == p[1..] + x && (q + y)[1..] == q[1..] + y;
      if p[0] == q[0] {
        assert p == [p[0]] + p[1..] && q == [q[0]] + q[1..];
        PartDecides(p[1..], x, q[1..], y);
      }
    }
  }

  lemma LeadingDecide(k: nat, m: nat, x: seq<Byte>, y: seq<Byte>)
    requires k < 100000 && m < 100000
    requires x != [] && y != [] && x[0] > y[0]
    ensures LexLe(PadTo(k, 5) + x, PadTo(m, 5) + y) <==> k < m
  {
    var (p, q) := (PadTo(k, 5), PadTo(m, 5));
    if k == m {
      SamePrefix(p, x, y);
    } else if k < m {
      PadOrder5(k, m);
      hide PadTo;
      PartDecides(p, x, q, y);
    } else {
      PadOrder5(m, k);
      LexTotal(p, q);
      hide PadTo;
      PartDecides(p, x, q, y);
    }
  }

  /** A number of more than five digits is written as its leading five and at least one more. */
  lemma {:induction false} LeadingDigits(n: nat) returns (rest: seq<Byte>)
    requires n >= 100000
    ensures Padded(n) == PadTo(Leading(n), 5) + rest
    ensures rest != [] && 0x30 <= rest[0]
  {
    if n < 1000000 {
      PadExact(n / 10);
      rest := [(0x30 + n % 10) as Byte];
      assert ImportArchive.Decimal(n) == ImportArchive.Decimal(n / 10) + rest;
      assert Leading(n) == n / 10;
    } else {
      var before := LeadingDigits(n / 10);
      rest := before + [(0x30 + n % 10) as Byte];
      assert ImportArchive.Decimal(n) == ImportArchive.Decimal(n / 10) + [(0x30 + n % 10) as Byte];
    }
  }

  /** Five digits need no padding. */
  lemma PadExact(n: nat)
    requires 10000 <= n < 100000
    ensures ImportArchive.Decimal(n) == PadTo(n, 5) == Padded(n)
  {
    PadIs(n);
    FiveDigits(n);
    assert Zeros(0) == [];
  }

  lemma FiveDigits(n: nat)
    requires 10000 <= n
    ensures |ImportArchive.Decimal(n)| >= 5
  {
    var (a, b, c, d) := (n / 10, n / 100, n / 1000, n / 10000);
    assert a / 10 == b && b / 10 == c && c / 10 == d;
    assert |ImportArchive.Decimal(d)| >= 1;
    assert |ImportArchive.Decimal(c)| >= 2;
    assert |ImportArchive.Decimal(b)| >= 3;
    assert |ImportArchive.Decimal(a)| >= 4;
  }

  /** Import 100000 sorts right after import 10000, before import 10001. */
  lemma HundredThousand(id: seq<Byte>)
    ensures LexLe(ImportName(id, 100000), ImportName(id, 10001)) && ImportName(id, 100000) != ImportName(id, 10001)
  {
    assert Leading(100000) == 10000;
    LongNumbers(id, 100000, 10001);
  }

  lemma PadIs(n: nat)
    requires n < 100000
    ensures Padded(n) == PadTo(n, 5)
  {
    assert ImportArchive.Power10(5) == 100000;
    PadIsDecimal(n, 5);
    if |ImportArchive.Decimal(n)| == 5 { assert Zeros(0) + ImportArchive.Decimal(n) == ImportArchive.Decimal(n); }
  }

  lemma PadOrder5(k: nat, m: nat)
    requires k < m < 100000
    ensures LexLe(PadTo(k, 5), PadTo(m, 5)) && PadTo(k, 5) != PadTo(m, 5)
  {
    assert ImportArchive.Power10(5) == 100000;
    PadOrder(k, m, 5);
  }

  lemma {:induction false} NamesOrdered(p: seq<Byte>, a: seq<Byte>, b: seq<Byte>, end: seq<Byte>)
    requires |a| == |b| && LexLe(a, b) && a != b
    ensures LexLe(p + a + end, p + b + end) && p + a + end != p + b + end
  {
    SuffixKeeps(a, b, end);
    SamePrefix(p, a + end, b + end);
    assert p + a + end == p + (a + end) && p + b + end == p + (b + end);
    assert (p + (a + end))[|p|..|p| + |a|] == a && (p + (b + end))[|p|..|p| + |b|] == b;
  }

  lemma {:induction false} SuffixKeeps(a: seq<Byte>, b: seq<Byte>, end: seq<Byte>)
    requires |a| == |b| && LexLe(a, b) && a != b
    ensures LexLe(a + end, b + end)
    decreases |a|
  {
    if a != [] {
      assert (a + end)[1..] == a[1..] + end && (b + end)[1..] == b[1..] + end;
      if a[0] == b[0] {
        assert a == [a[0]] + a[1..] && b == [b[0]] + b[1..];
        SuffixKeeps(a[1..], b[1..], end);
      }
    }
  }
}
