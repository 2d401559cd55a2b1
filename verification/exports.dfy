/** The exports of an image: sorted, one per name, every one with an ordinal. */
module Exports {
  import opened Bytes
  import opened Results
  import opened Sorting

  const MAX_ORDINAL: nat := 65535

  /** One symbol the image exports; ordinal 0 stands for none given. */
  datatype Export = Export(
    name: seq<Byte>,
    symbol: Option<seq<Byte>>,
    forwarder: Option<seq<Byte>>,
    ordinal: nat,
    noname: bool)

  // ---- Sorting and deduplication ----

  function ByName(): (Export, Export) -> bool
  {
    (a: Export, b: Export) => LexLe(a.name, b.name)
  }

  lemma ByNameTotal()
    ensures TotalOrder(ByName())
  {
    forall a: Export, b: Export
      ensures ByName()(a, b) || ByName()(b, a)
    {
      LexTotal(a.name, b.name);
    }
    forall a: Export, b: Export, c: Export | ByName()(a, b) && ByName()(b, c)
      ensures ByName()(a, c)
    {
      LexTransitive(a.name, b.name, c.name);
    }
  }

  /** `dedup_by` name: of neighbours with one name the first stays. */
  function Dedup(s: seq<Export>): seq<Export>
    decreases |s|
  {
    if s == [] then []
    else
      var rest := Dedup(s[..|s| - 1]);
      if rest != [] && rest[|rest| - 1].name == s[|s| - 1].name then rest else rest + [s[|s| - 1]]
  }

  method DedupByName(s: seq<Export>) returns (r: seq<Export>)
    ensures r == Dedup(s)
  {
    r := [];
    for i := 0 to |s|
      invariant r == Dedup(s[..i])
    {
      assert s[..i + 1][..i] == s[..i];
      if r == [] || r[|r| - 1].name != s[i].name {
        r := r + [s[i]];
      }
    }
    assert s[..|s|] == s;
  }

  /** Names strictly increase. */
  predicate NamesIncrease(s: seq<Export>)
  {
    forall i, j :: 0 <= i < j < |s| ==> LexLe(s[i].name, s[j].name) && s[i].name != s[j].name
  }

  /** The first export of a name in a list. */
  function FirstNamed(s: seq<Export>, name: seq<Byte>): Option<Export>
    decreases |s|
  {
    if s == [] then None else if s[0].name == name then Some(s[0]) else FirstNamed(s[1..], name)
  }

  lemma {:induction false} FirstNamedAppend(s: seq<Export>, x: Export, name: seq<Byte>)
    ensures FirstNamed(s + [x], name) == if FirstNamed(s, name).Some? then FirstNamed(s, name) else if x.name == name then Some(x) else None
    decreases |s|
  {
    if s == [] {
      assert FirstNamed([x][1..], name) == None;
    } else {
      assert (s + [x])[1..] == s[1..] + [x];
      FirstNamedAppend(s[1..], x, name);
    }
  }

  lemma {:induction false} FirstNamedIn(s: seq<Export>, name: seq<Byte>)
    ensures FirstNamed(s, name).Some? ==> FirstNamed(s, name).value in s && FirstNamed(s, name).value.name == name
    ensures FirstNamed(s, name).None? ==> forall x :: x in s ==> x.name != name
    decreases |s|
  {
    if s != [] { FirstNamedIn(s[1..], name); }
  }

  /** Deduplicating a sorted list leaves strictly increasing names. */
  lemma {:induction false} DedupIncreases(s: seq<Export>)
    requires Sorted(s, ByName())
    ensures NamesIncrease(Dedup(s))
    ensures s != [] ==> Dedup(s) != [] && Dedup(s)[|Dedup(s)| - 1].name == s[|s| - 1].name
    decreases |s|
  {
    if s != [] {
      var (init, last) := (s[..|s| - 1], s[|s| - 1]);
      var rest := Dedup(init);
      DedupIncreases(init);
      if init != [] {
        assert ByName()(s[|init| - 1], last);
        LastFits(rest, last);
      }
    }
  }

  /** Of each name the first stays. */
  lemma {:induction false} DedupKeepsFirst(s: seq<Export>, name: seq<Byte>)
    ensures FirstNamed(Dedup(s), name) == FirstNamed(s, name)
    decreases |s|
  {
    if s != [] {
      var (init, last) := (s[..|s| - 1], s[|s| - 1]);
      var rest := Dedup(init);
      DedupKeepsFirst(init, name);
      assert s == init + [last];
      FirstNamedAppend(init, last, name);
      FirstNamedAppend(rest, last, name);
      FirstNamedIn(rest, name);
      hide FirstNamed;
      if rest != [] && rest[|rest| - 1].name == last.name { assert rest[|rest| - 1] in rest; }
    }
  }

  lemma LastFits(rest: seq<Export>, last: Export)
    requires NamesIncrease(rest) && rest != [] && LexLe(rest[|rest| - 1].name, last.name)
    ensures rest[|rest| - 1].name != last.name ==> NamesIncrease(rest + [last])
  {
    var top := rest[|rest| - 1];
    forall i | 0 <= i < |rest|
      ensures LexLe(rest[i].name, last.name)
      ensures top.name != last.name ==> rest[i].name != last.name
    {
      if i < |rest| - 1 {
        LexTransitive(rest[i].name, top.name, last.name);
        if rest[i].name == last.name { LexTotal(rest[i].name, top.name); }
      }
    }
  }

  lemma {:induction false} FirstOfFilter(s: seq<Export>, name: seq<Byte>)
    ensures var f := Filter(s, (x: Export) => x.name == name);
      FirstNamed(s, name) == if f == [] then None else Some(f[0])
    decreases |s|
  {
    if s != [] { FirstOfFilter(s[1..], name); }
  }

  /** Sorted by name, one export per name. */
  function KeptOf(entries: seq<Export>): seq<Export>
  {
    Dedup(SortBy(entries, ByName()))
  }

  /** Names strictly increase, and of each the first given stays. */
  lemma KeptIs(entries: seq<Export>)
    ensures NamesIncrease(KeptOf(entries))
    ensures forall name :: FirstNamed(KeptOf(entries), name) == FirstNamed(entries, name)
  {
    var sorted := SortBy(entries, ByName());
    ByNameTotal();
    SortIsSorted(entries, ByName());
    DedupIncreases(sorted);
    forall name
      ensures FirstNamed(KeptOf(entries), name) == FirstNamed(entries, name)
    {
      DedupKeepsFirst(sorted, name);
      var p := (x: Export) => x.name == name;
      forall x, y | x in entries && y in entries && p(x) && p(y)
        ensures ByName()(x, y)
      {
        LexReflexive(x.name);
      }
      SortIsStable(entries, ByName(), p);
      FirstOfFilter(entries, name);
      FirstOfFilter(sorted, name);
    }
  }

  /** The tail of `plan`: sorted by name, one export per name, the first given. */
  method SortedOnce(entries: seq<Export>) returns (r: seq<Export>)
    ensures r == KeptOf(entries) && NamesIncrease(r)
    ensures forall name :: FirstNamed(r, name) == FirstNamed(entries, name)
  {
    var sorted := SortBy(entries, ByName());
    KeptIs(entries);
    r := DedupByName(sorted);
  }

  // ---- Ordinals ----

  /** The ordinals given explicitly. */
  function Explicit(s: seq<Export>): set<nat>
  {
    set i | 0 <= i < |s| && s[i].ordinal != 0 :: s[i].ordinal
  }

  /** The ordinals the first `k` exports without one were assigned. */
  function Assigned(given: seq<Export>, s: seq<Export>, k: nat): set<nat>
    requires |s| == |given| && k <= |s|
  {
    set i | 0 <= i < k && given[i].ordinal == 0 :: s[i].ordinal
  }

  predicate LowestFree(n: nat, taken: set<nat>)
  {
    1 <= n && n !in taken && forall m :: 1 <= m < n ==> m in taken
  }

  /** Only ordinals changed, and only where there was none; each new one is the lowest free. */
  predicate OrdinalsGiven(given: seq<Export>, s: seq<Export>, k: nat)
  {
    && |s| == |given| && k <= |s|
    && (forall i :: 0 <= i < |s| ==> s[i] == given[i].(ordinal := s[i].ordinal))
    && (forall i :: 0 <= i < |s| && (given[i].ordinal != 0 || i >= k) ==> s[i] == given[i])
    && (forall i :: 0 <= i < k && given[i].ordinal == 0 ==> LowestFree(s[i].ordinal, Explicit(given) + Assigned(given, s, i)))
  }

  // ---- What the loop does ----

  /** `saturating_add(1)` on 16 bits. */
  function Following(n: nat): nat
  {
    if n < MAX_ORDINAL then n + 1 else MAX_ORDINAL
  }

  /** The first ordinal from `next` on that is not used; none if the search never ends. */
  function NextFree(used: set<nat>, next: nat): (r: Option<nat>)
    requires 1 <= next <= MAX_ORDINAL
    ensures r.Some? ==> next <= r.value <= MAX_ORDINAL && r.value !in used && forall m :: next <= m < r.value ==> m in used
    ensures r.None? ==> forall m :: next <= m <= MAX_ORDINAL ==> m in used
    decreases MAX_ORDINAL - next
  {
    if next !in used then Some(next) else if next == MAX_ORDINAL then None else NextFree(used, next + 1)
  }

  /** The exports and the next ordinal to try once the first `k` are done; none if that never happens. */
  function AssignFirst(given: seq<Export>, k: nat): (r: Option<(seq<Export>, nat)>)
    requires k <= |given|
    ensures r.Some? ==> |r.value.0| == |given| && 1 <= r.value.1 <= MAX_ORDINAL
  {
    if k == 0 then Some((given, 1))
    else
      var before := AssignFirst(given, k - 1);
      if before.None? then None
      else if given[k - 1].ordinal != 0 then before
      else
        var (s, next) := before.value;
        var free := NextFree(Explicit(given), next);
        if free.None? then None else Some((s[k - 1 := s[k - 1].(ordinal := free.value)], Following(free.value)))
  }

  /** What `assign_ordinals` makes of the exports, if it ends. */
  function AssignAll(given: seq<Export>): Option<seq<Export>>
  {
    var r := AssignFirst(given, |given|);
    if r.None? then None else Some(r.value.0)
  }

  function UsedOf(s: seq<Export>): (r: seq<nat>)
    ensures forall x :: x in r <==> x in Explicit(s)
    ensures |r| <= |s| && (forall i :: 0 <= i < |s| && s[i].ordinal == 0 ==> |r| < |s|)
  {
    if s == [] then []
    else
      assert s == s[..|s| - 1] + [s[|s| - 1]];
      UsedOf(s[..|s| - 1]) + (if s[|s| - 1].ordinal != 0 then [s[|s| - 1].ordinal] else [])
  }

  /** `slice::binary_search` on a sorted list. */
  method Contains(used: seq<nat>, x: nat) returns (found: bool)
    requires forall i, j :: 0 <= i < j < |used| ==> used[i] <= used[j]
    ensures found <==> x in used
  {
    var lo, hi := 0, |used|;
    while lo < hi
      invariant lo <= hi <= |used|
      invariant forall i :: 0 <= i < lo ==> used[i] < x
      invariant forall i :: hi <= i < |used| ==> x < used[i]
    {
      var mid := (lo + hi) / 2;
      if used[mid] == x { return true; }
      if used[mid] < x { lo := mid + 1; } else { hi := mid; }
    }
    return false;
  }

  function Ascending(): (nat, nat) -> bool
  {
    (a: nat, b: nat) => a <= b
  }

  /** The explicit ordinals, sorted. */
  method UsedSorted(s: seq<Export>) returns (used: seq<nat>)
    ensures forall i, j :: 0 <= i < j < |used| ==> used[i] <= used[j]
    ensures forall x: nat :: x in used <==> x in Explicit(s)
  {
    var list := UsedOf(s);
    used := SortBy(list, Ascending());
    SortIsSorted(list, Ascending());
    forall x: nat
      ensures x in used <==> x in Explicit(s)
    {
      SortMember(list, Ascending(), x);
    }
    forall i, j | 0 <= i < j < |used|
      ensures used[i] <= used[j]
    {
      assert Ascending()(used[i], used[j]);
    }
  }

  lemma {:induction false} AssignFirstEarlier(given: seq<Export>, k: nat, n: nat)
    requires k <= n <= |given| && AssignFirst(given, n).Some?
    ensures AssignFirst(given, k).Some?
  {
    if k < n { AssignFirstEarlier(given, k, n - 1); }
  }

  lemma AssignFirstNext(given: seq<Export>, k: nat, s: seq<Export>, next: nat)
    requires k < |given| && AssignFirst(given, k) == Some((s, next))
    ensures given[k].ordinal != 0 ==> AssignFirst(given, k + 1) == Some((s, next))
    ensures given[k].ordinal == 0 ==>
      var free := NextFree(Explicit(given), next);
      AssignFirst(given, k + 1)
      == if free.None? then None else Some((s[k := s[k].(ordinal := free.value)], Following(free.value)))
  {
  }

  lemma NextFreeStep(used: set<nat>, next: nat)
    requires 1 <= next <= MAX_ORDINAL && next in used && NextFree(used, next).Some?
    ensures next < MAX_ORDINAL && NextFree(used, next + 1) == NextFree(used, next)
  {
  }

  lemma NextFreeHere(used: set<nat>, next: nat)
    requires 1 <= next <= MAX_ORDINAL && next !in used
    ensures NextFree(used, next) == Some(next)
  {
  }

  /** `assign_ordinals`, on any exports for which it ends. */
  method AssignOrdinals(entries: array<Export>)
    requires AssignAll(entries[..]).Some?
    modifies entries
    ensures Some(entries[..]) == AssignAll(old(entries[..]))
  {
    ghost var given := entries[..];
    var used := UsedSorted(entries[..]);
    var next: nat := 1;
    assert AssignFirst(given, 0) == Some((given, 1));
    hide AssignFirst, NextFree, Explicit;
    for k := 0 to entries.Length
      invariant 1 <= next <= MAX_ORDINAL && AssignFirst(given, k) == Some((entries[..], next))
      invariant forall i :: k <= i < entries.Length ==> entries[i] == given[i]
    {
      ghost var s := entries[..];
      ghost var first := next;
      AssignFirstNext(given, k, s, next);
      AssignFirstEarlier(given, k + 1, |given|);
      if entries[k].ordinal == 0 {
        var taken := Contains(used, next);
        while taken
          invariant entries[..] == s
          invariant 1 <= next <= MAX_ORDINAL && NextFree(Explicit(given), next) == NextFree(Explicit(given), first)
          invariant taken <==> next in Explicit(given)
          decreases MAX_ORDINAL - next, taken
        {
          NextFreeStep(Explicit(given), next);
          next := Following(next);
          taken := Contains(used, next);
        }
        NextFreeHere(Explicit(given), next);
        entries[k] := entries[k].(ordinal := next);
        assert entries[..] == s[k := s[k].(ordinal := next)];
        next := Following(next);
      }
    }
  }

  // ---- When it ends well ----

  /** How many of the first `k` exports have no ordinal. */
  function Autos(given: seq<Export>, k: nat): (r: nat)
    requires k <= |given|
    ensures r <= k
  {
    if k == 0 then 0 else Autos(given, k - 1) + (if given[k - 1].ordinal == 0 then 1 else 0)
  }

  /** How many of the ordinals up to `n` are free. */
  function FreeUpTo(used: set<nat>, n: nat): (r: nat)
    ensures r <= n
  {
    if n == 0 then 0 else FreeUpTo(used, n - 1) + (if n in used then 0 else 1)
  }

  /** There are as many free ordinals as exports without one. */
  predicate Roomy(given: seq<Export>)
  {
    Autos(given, |given|) <= FreeUpTo(Explicit(given), MAX_ORDINAL)
  }

  lemma {:induction false} AutosRise(given: seq<Export>, k: nat, n: nat)
    requires k <= n <= |given|
    ensures Autos(given, k) <= Autos(given, n)
  {
    if k < n { AutosRise(given, k, n - 1); }
  }

  lemma {:induction false} FreeRises(used: set<nat>, a: nat, b: nat)
    requires a <= b
    ensures FreeUpTo(used, a) <= FreeUpTo(used, b)
    ensures (forall m :: a < m <= b ==> m in used) ==> FreeUpTo(used, a) == FreeUpTo(used, b)
  {
    if a < b { FreeRises(used, a, b - 1); }
  }

  /** The export takes the one free ordinal after those below `next`; without one there are no more. */
  lemma NextFreeCounts(used: set<nat>, next: nat)
    requires 1 <= next <= MAX_ORDINAL
    ensures var free := NextFree(used, next);
      if free.Some? then FreeUpTo(used, free.value) == FreeUpTo(used, next - 1) + 1
      else FreeUpTo(used, MAX_ORDINAL) == FreeUpTo(used, next - 1)
  {
    var free := NextFree(used, next);
    if free.Some? { FreeRises(used, next - 1, free.value - 1); } else { FreeRises(used, next - 1, MAX_ORDINAL); }
  }

  /** Where the loop stands after `k` exports: either every free ordinal below `next` is taken, or the counter is stuck. */
  ghost predicate Standing(given: seq<Export>, s: seq<Export>, k: nat, next: nat)
    requires |s| == |given| && k <= |s| && 1 <= next <= MAX_ORDINAL
  {
    var (used, autos) := (Explicit(given), Autos(given, k));
    || (FreeUpTo(used, next - 1) == autos && AllBelow(Assigned(given, s, k), next))
    || (next == MAX_ORDINAL && MAX_ORDINAL in Assigned(given, s, k) && FreeUpTo(used, MAX_ORDINAL) <= autos
        && (FreeUpTo(used, MAX_ORDINAL) < autos ==> Repeated(given, s, k)))
  }

  /** No ordinal below `n` is free. */
  predicate AllTaken(taken: set<nat>, n: nat)
  {
    forall m :: 1 <= m < n ==> m in taken
  }

  predicate AllBelow(taken: set<nat>, n: nat)
  {
    forall m :: m in taken ==> m < n
  }

  /** Two exports without an ordinal were given the same one. */
  predicate Repeated(given: seq<Export>, s: seq<Export>, k: nat)
    requires |s| == |given| && k <= |s|
  {
    exists i, j :: 0 <= i < j < k && given[i].ordinal == 0 && given[j].ordinal == 0 && s[i].ordinal == s[j].ordinal
  }

  lemma AssignedSame(given: seq<Export>, s: seq<Export>, s': seq<Export>, k: nat)
    requires |s| == |given| == |s'| && k <= |s| && s[..k] == s'[..k]
    ensures Assigned(given, s, k) == Assigned(given, s', k)
  {
    assert forall i :: 0 <= i < k ==> s[i] == s[..k][i] == s'[..k][i] == s'[i];
  }

  lemma AssignedNext(given: seq<Export>, s: seq<Export>, k: nat)
    requires |s| == |given| && k < |s|
    ensures Assigned(given, s, k + 1) == Assigned(given, s, k) + (if given[k].ordinal == 0 then {s[k].ordinal} else {})
  {
  }

  lemma RepeatedSame(given: seq<Export>, s: seq<Export>, s': seq<Export>, k: nat)
    requires |s| == |given| == |s'| && k < |s| && s[..k] == s'[..k] && Repeated(given, s, k)
    ensures Repeated(given, s', k + 1)
  {
    var i, j :| 0 <= i < j < k && given[i].ordinal == 0 && given[j].ordinal == 0 && s[i].ordinal == s[j].ordinal;
    assert s'[i] == s'[..k][i] == s[i] && s'[j] == s'[..k][j] == s[j];
  }

  /** One export that takes ordinal `n`. */
  lemma StandingNext(given: seq<Export>, s: seq<Export>, k: nat, next: nat, n: nat)
    requires |s| == |given| && k < |s| && 1 <= next <= MAX_ORDINAL && Standing(given, s, k, next)
    requires given[k].ordinal == 0 && NextFree(Explicit(given), next) == Some(n)
    ensures Standing(given, s[k := s[k].(ordinal := n)], k + 1, Following(n))
  {
    var s' := s[k := s[k].(ordinal := n)];
    var used := Explicit(given);
    NextFreeCounts(used, next);
    AssignedSame(given, s, s', k);
    AssignedNext(given, s', k);
    hide NextFree, FreeUpTo, Assigned, Explicit;
    if FreeUpTo(used, next - 1) == Autos(given, k) && AllBelow(Assigned(given, s, k), next) {
    } else {
      assert n == MAX_ORDINAL;
      SecondLast(given, s, s', k);
    }
  }

  lemma SecondLast(given: seq<Export>, s: seq<Export>, s': seq<Export>, k: nat)
    requires |s| == |given| == |s'| && k < |s| && s[..k] == s'[..k]
    requires MAX_ORDINAL in Assigned(given, s, k) && given[k].ordinal == 0 && s'[k].ordinal == MAX_ORDINAL
    ensures Repeated(given, s', k + 1)
  {
    var i :| 0 <= i < k && given[i].ordinal == 0 && s[i].ordinal == MAX_ORDINAL;
    assert s'[i] == s'[..k][i] == s[..k][i];
  }

  lemma {:induction false} Stands(given: seq<Export>, k: nat)
    requires k <= |given| && AssignFirst(given, k).Some?
    ensures var (s, next) := AssignFirst(given, k).value; Standing(given, s, k, next)
  {
    if k > 0 {
      Stands(given, k - 1);
      var (s, next) := AssignFirst(given, k - 1).value;
      AssignFirstNext(given, k - 1, s, next);
      hide AssignFirst, NextFree, Standing;
      if given[k - 1].ordinal == 0 {
        StandingNext(given, s, k - 1, next, NextFree(Explicit(given), next).value);
      } else {
        StandingSkips(given, s, k - 1, next);
      }
    }
  }

  lemma StandingSkips(given: seq<Export>, s: seq<Export>, k: nat, next: nat)
    requires |s| == |given| && k < |s| && 1 <= next <= MAX_ORDINAL && Standing(given, s, k, next) && given[k].ordinal != 0
    ensures Standing(given, s, k + 1, next)
  {
    AssignedNext(given, s, k);
    assert Assigned(given, s, k + 1) == Assigned(given, s, k);
    if Repeated(given, s, k) { RepeatedSame(given, s, s, k); }
    hide FreeUpTo, Assigned, Explicit;
  }

  /** The loop ends unless the free ordinals run out while the last one is taken explicitly. */
  lemma {:induction false} EndsExactly(given: seq<Export>, k: nat)
    requires k <= |given|
    ensures AssignFirst(given, k).Some? <==>
      MAX_ORDINAL !in Explicit(given) || Autos(given, k) <= FreeUpTo(Explicit(given), MAX_ORDINAL)
  {
    var used := Explicit(given);
    if k > 0 {
      EndsExactly(given, k - 1);
      AutosRise(given, k - 1, k);
      if AssignFirst(given, k - 1).Some? {
        var (s, next) := AssignFirst(given, k - 1).value;
        AssignFirstNext(given, k - 1, s, next);
        Stands(given, k - 1);
        NextFreeCounts(used, next);
        if MAX_ORDINAL in used { NotStuck(given, s, k - 1, next); }
        if NextFree(used, next).Some? { FreeRises(used, NextFree(used, next).value, MAX_ORDINAL); }
        hide AssignFirst, FreeUpTo, Explicit;
      }
    }
  }

  /** With the last ordinal taken explicitly the counter is never stuck at it. */
  lemma NotStuck(given: seq<Export>, s: seq<Export>, k: nat, next: nat)
    requires k <= |given| && AssignFirst(given, k) == Some((s, next)) && MAX_ORDINAL in Explicit(given)
    ensures FreeUpTo(Explicit(given), next - 1) == Autos(given, k)
  {
    Stands(given, k);
    AssignedFree(given, k);
  }

  lemma {:induction false} AssignedFree(given: seq<Export>, k: nat)
    requires k <= |given| && AssignFirst(given, k).Some?
    ensures forall m :: m in Assigned(given, AssignFirst(given, k).value.0, k) ==> m !in Explicit(given)
    decreases k
  {
    if k > 0 {
      AssignedFree(given, k - 1);
      var (s, next) := AssignFirst(given, k - 1).value;
      var s' := AssignFirst(given, k).value.0;
      AssignFirstNext(given, k - 1, s, next);
      AssignedSame(given, s, s', k - 1);
      AssignedNext(given, s', k - 1);
      hide AssignFirst, Assigned, Explicit;
    }
  }

  /** Only ordinals of exports without one change. */
  lemma {:induction false} OnlyOrdinals(given: seq<Export>, k: nat)
    requires k <= |given| && AssignFirst(given, k).Some?
    ensures var s := AssignFirst(given, k).value.0;
      && (forall i :: 0 <= i < |s| ==> s[i] == given[i].(ordinal := s[i].ordinal))
      && (forall i :: 0 <= i < |s| && (given[i].ordinal != 0 || i >= k) ==> s[i] == given[i])
  {
    if k > 0 {
      OnlyOrdinals(given, k - 1);
      var (s, next) := AssignFirst(given, k - 1).value;
      AssignFirstNext(given, k - 1, s, next);
      hide AssignFirst, NextFree;
    }
  }

  /** With room, everything below the counter is taken and what is assigned lies below it, or at the end. */
  lemma {:induction false} AssignsLowest(given: seq<Export>, k: nat)
    requires k <= |given| && AssignFirst(given, k).Some?
    requires Autos(given, k) <= FreeUpTo(Explicit(given), MAX_ORDINAL)
    ensures var (s, next) := AssignFirst(given, k).value;
      && OrdinalsGiven(given, s, k)
      && AllTaken(Explicit(given) + Assigned(given, s, k), next)
  {
    if k == 0 {
    } else {
      AutosRise(given, k - 1, k);
      AssignsLowest(given, k - 1);
      Stands(given, k - 1);
      var (s, next) := AssignFirst(given, k - 1).value;
      AssignFirstNext(given, k - 1, s, next);
      hide AssignFirst, FreeUpTo, NextFree, Explicit;
      if given[k - 1].ordinal == 0 {
        TakesLowest(given, s, k - 1, next, NextFree(Explicit(given), next).value);
      } else {
        AssignedNext(given, s, k - 1);
        assert Assigned(given, s, k) == Assigned(given, s, k - 1);
      }
    }
  }

  lemma IsLowest(used: set<nat>, taken: set<nat>, next: nat, n: nat)
    requires 1 <= next <= MAX_ORDINAL && NextFree(used, next) == Some(n) && n !in taken
    requires AllTaken(used + taken, next)
    ensures LowestFree(n, used + taken)
  {
    hide NextFree;
  }

  lemma BelowFollowing(used: set<nat>, taken: set<nat>, next: nat, n: nat)
    requires 1 <= next <= MAX_ORDINAL && NextFree(used, next) == Some(n)
    requires AllTaken(used + taken, next)
    ensures AllTaken(used + (taken + {n}), Following(n))
  {
    hide NextFree;
    forall m | 1 <= m < Following(n)
      ensures m in used + (taken + {n})
    {
      if m < next { assert m in used + taken; }
    }
  }

  lemma GivenNext(given: seq<Export>, s: seq<Export>, k: nat, n: nat)
    requires |s| == |given| && k < |s| && OrdinalsGiven(given, s, k) && given[k].ordinal == 0
    requires LowestFree(n, Explicit(given) + Assigned(given, s, k))
    ensures OrdinalsGiven(given, s[k := s[k].(ordinal := n)], k + 1)
  {
    var s' := s[k := s[k].(ordinal := n)];
    hide LowestFree, Explicit;
    forall i | 0 <= i < k + 1 && given[i].ordinal == 0
      ensures LowestFree(s'[i].ordinal, Explicit(given) + Assigned(given, s', i))
    {
      AssignedSame(given, s, s', i);
    }
  }

  lemma TakesLowest(given: seq<Export>, s: seq<Export>, k: nat, next: nat, n: nat)
    requires |s| == |given| && k < |s| && 1 <= next <= MAX_ORDINAL && OrdinalsGiven(given, s, k) && Standing(given, s, k, next)
    requires Autos(given, k + 1) <= FreeUpTo(Explicit(given), MAX_ORDINAL)
    requires AllTaken(Explicit(given) + Assigned(given, s, k), next)
    requires given[k].ordinal == 0 && NextFree(Explicit(given), next) == Some(n)
    ensures var s' := s[k := s[k].(ordinal := n)];
      OrdinalsGiven(given, s', k + 1) && AllTaken(Explicit(given) + Assigned(given, s', k + 1), Following(n))
  {
    var s' := s[k := s[k].(ordinal := n)];
    var (used, taken) := (Explicit(given), Assigned(given, s, k));
    NextFreeCounts(used, next);
    FreeRises(used, n, MAX_ORDINAL);
    AssignedSame(given, s, s', k);
    AssignedNext(given, s', k);
    hide FreeUpTo, Explicit, Assigned, LowestFree;
    IsLowest(used, taken, next, n);
    GivenNext(given, s, k, n);
    BelowFollowing(used, taken, next, n);
  }

  /**
    The loop ends with every new ordinal the lowest free one if and only if
    there are enough free ordinals.
   */
  lemma OrdinalsExact(given: seq<Export>)
    ensures AssignAll(given).Some? && OrdinalsGiven(given, AssignAll(given).value, |given|) <==> Roomy(given)
  {
    EndsExactly(given, |given|);
    if Roomy(given) {
      AssignsLowest(given, |given|);
    } else if AssignAll(given).Some? && OrdinalsGiven(given, AssignAll(given).value, |given|) {
      RunsOut(given);
      hide AssignFirst, FreeUpTo;
      NoneRepeated(given, AssignAll(given).value);
      assert false;
    }
  }

  /** Without room the loop never ends, or gives one ordinal twice. */
  lemma RunsOut(given: seq<Export>)
    requires !Roomy(given)
    ensures if MAX_ORDINAL in Explicit(given) then AssignAll(given).None?
            else AssignAll(given).Some? && Repeated(given, AssignAll(given).value, |given|)
  {
    EndsExactly(given, |given|);
    if AssignAll(given).Some? {
      Stands(given, |given|);
      FreeRises(Explicit(given), AssignFirst(given, |given|).value.1 - 1, MAX_ORDINAL);
      hide AssignFirst, FreeUpTo, Explicit;
    }
  }

  lemma NoneRepeated(given: seq<Export>, s: seq<Export>)
    requires OrdinalsGiven(given, s, |given|)
    ensures |s| == |given| && !Repeated(given, s, |given|)
  {
    forall i, j | 0 <= i < j < |given| && given[i].ordinal == 0 && given[j].ordinal == 0
      ensures s[i].ordinal != s[j].ordinal
    {
      assert LowestFree(s[j].ordinal, Explicit(given) + Assigned(given, s, j));
      assert s[i].ordinal in Assigned(given, s, j);
    }
  }

  /** A plain list of 65536 exports gives the last ordinal twice. */
  lemma TooManyRepeat(given: seq<Export>)
    requires |given| > MAX_ORDINAL && forall i :: 0 <= i < |given| ==> given[i].ordinal == 0
    ensures AssignAll(given).Some? && Repeated(given, AssignAll(given).value, |given|)
  {
    assert Explicit(given) == {};
    AllAutos(given, |given|);
    RunsOut(given);
  }

  /** With the last ordinal explicit, 65535 others are one too many: the search for a free one never ends. */
  lemma TooManyHang(given: seq<Export>)
    requires |given| > MAX_ORDINAL && given[0].ordinal == MAX_ORDINAL && forall i :: 0 < i < |given| ==> given[i].ordinal == 0
    ensures AssignAll(given).None?
  {
    assert MAX_ORDINAL in Explicit(given);
    AllAutos(given, |given|);
    LastUsed(Explicit(given));
    RunsOut(given);
  }

  lemma LastUsed(used: set<nat>)
    requires MAX_ORDINAL in used
    ensures FreeUpTo(used, MAX_ORDINAL) < MAX_ORDINAL
  {
  }

  lemma {:induction false} AllAutos(given: seq<Export>, k: nat)
    requires k <= |given| && forall i :: 0 < i < |given| ==> given[i].ordinal == 0
    ensures Autos(given, k) >= k - (if k > 0 && given[0].ordinal != 0 then 1 else 0)
  {
    if k > 0 { AllAutos(given, k - 1); }
  }

  // ---- At most 65535 exports ----

  lemma {:induction false} FreeAndUsed(used: set<nat>, n: nat)
    ensures FreeUpTo(used, n) + |used| >= n
  {
    if n > 0 {
      if n in used {
        FreeAndUsed(used - {n}, n - 1);
        FreeWithout(used, n, n - 1);
      } else {
        FreeAndUsed(used, n - 1);
      }
    }
  }

  lemma {:induction false} FreeWithout(used: set<nat>, x: nat, n: nat)
    requires n < x
    ensures FreeUpTo(used - {x}, n) == FreeUpTo(used, n)
  {
    if n > 0 { FreeWithout(used, x, n - 1); }
  }

  lemma {:induction false} ExplicitFew(given: seq<Export>, k: nat)
    requires k <= |given|
    ensures |Explicit(given[..k])| + Autos(given, k) <= k
  {
    if k > 0 {
      ExplicitFew(given, k - 1);
      var (front, e) := (given[..k - 1], given[k - 1]);
      assert given[..k] == front + [e];
      if e.ordinal == 0 {
        assert Explicit(given[..k]) == Explicit(front);
      } else {
        assert Explicit(given[..k]) == Explicit(front) + {e.ordinal};
      }
    }
  }

  /** At most 65535 exports always have room. */
  lemma FewAreRoomy(given: seq<Export>)
    requires |given| <= MAX_ORDINAL
    ensures Roomy(given)
  {
    assert given[..|given|] == given;
    ExplicitFew(given, |given|);
    FreeAndUsed(Explicit(given), MAX_ORDINAL);
  }

  predicate DistinctOrdinals(s: seq<Export>)
  {
    forall i, j :: 0 <= i < j < |s| && s[i].ordinal != 0 && s[j].ordinal != 0 ==> s[i].ordinal != s[j].ordinal
  }

  /** Afterwards every export has an ordinal, and they are all different exactly when the explicit ones were. */
  lemma OrdinalsDistinct(given: seq<Export>, s: seq<Export>)
    requires OrdinalsGiven(given, s, |s|)
    ensures forall i :: 0 <= i < |s| ==> s[i].ordinal >= 1
    ensures DistinctOrdinals(s) <==> DistinctOrdinals(given)
  {
    forall i, j | 0 <= i < j < |s| && DistinctOrdinals(given)
      ensures s[i].ordinal != s[j].ordinal
    {
      if given[j].ordinal == 0 {
        assert LowestFree(s[j].ordinal, Explicit(given) + Assigned(given, s, j));
        OrdinalTaken(given, s, i, j);
      } else if given[i].ordinal == 0 {
        assert LowestFree(s[i].ordinal, Explicit(given) + Assigned(given, s, i));
        assert s[j].ordinal in Explicit(given);
      }
    }
    if DistinctOrdinals(s) {
      forall i, j | 0 <= i < j < |s| && given[i].ordinal != 0 && given[j].ordinal != 0
        ensures given[i].ordinal != given[j].ordinal
      {
        assert s[i] == given[i] && s[j] == given[j];
      }
    }
  }

  lemma OrdinalTaken(given: seq<Export>, s: seq<Export>, i: nat, j: nat)
    requires OrdinalsGiven(given, s, |s|) && i < j < |s|
    ensures s[i].ordinal in Explicit(given) + Assigned(given, s, j)
  {
    if given[i].ordinal != 0 {
      assert given[i].ordinal in Explicit(given);
    } else {
      assert s[i].ordinal in Assigned(given, s, j);
    }
  }

  /** The assignment is determined: the lowest free ordinal is one number. */
  lemma LowestFreeUnique(a: nat, b: nat, taken: set<nat>)
    requires LowestFree(a, taken) && LowestFree(b, taken)
    ensures a == b
  {
  }

  /** Giving every export the lowest free ordinal in turn has one outcome. */
  lemma {:induction false} OrdinalsUnique(given: seq<Export>, a: seq<Export>, b: seq<Export>, k: nat)
    requires OrdinalsGiven(given, a, |given|) && OrdinalsGiven(given, b, |given|) && k <= |given|
    ensures |a| == |b| == |given| && a[..k] == b[..k]
  {
    if k > 0 {
      OrdinalsUnique(given, a, b, k - 1);
      assert a[..k] == a[..k - 1] + [a[k - 1]] && b[..k] == b[..k - 1] + [b[k - 1]];
      if given[k - 1].ordinal == 0 {
        AssignedSame(given, a, b, k - 1);
        LowestFreeUnique(a[k - 1].ordinal, b[k - 1].ordinal, Explicit(given) + Assigned(given, a, k - 1));
      }
    }
  }

  /** No ordinal is out of range: every assigned one fits 16 bits. */
  lemma {:induction false} OrdinalsFit(given: seq<Export>, k: nat, i: nat)
    requires i < k <= |given| && AssignFirst(given, k).Some? && given[i].ordinal == 0
    ensures 1 <= AssignFirst(given, k).value.0[i].ordinal <= MAX_ORDINAL
  {
    var (s, next) := AssignFirst(given, k - 1).value;
    AssignFirstNext(given, k - 1, s, next);
    hide AssignFirst;
    if i < k - 1 { OrdinalsFit(given, k - 1, i); }
  }
}
