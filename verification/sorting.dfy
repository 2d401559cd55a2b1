/** Byte-string order, and stable sorting by an order given as a predicate. */
module Sorting {
  /** Lexicographic order of byte strings, as `Ord` for slices. */
  predicate LexLe(a: seq<int>, b: seq<int>)
    decreases |a|
  {
    || a == []
    || (b != [] && (a[0] < b[0] || (a[0] == b[0] && LexLe(a[1..], b[1..]))))
  }

  lemma {:induction false} LexTotal(a: seq<int>, b: seq<int>)
    ensures LexLe(a, b) || LexLe(b, a)
    ensures LexLe(a, b) && LexLe(b, a) ==> a == b
    decreases |a|
  {
    if a != [] && b != [] && a[0] == b[0] {
      LexTotal(a[1..], b[1..]);
      assert a == [a[0]] + a[1..] && b == [b[0]] + b[1..];
    }
  }

  lemma {:induction false} LexTransitive(a: seq<int>, b: seq<int>, c: seq<int>)
    requires LexLe(a, b) && LexLe(b, c)
    ensures LexLe(a, c)
    decreases |a|
  {
    if a != [] && a[0] == b[0] && b[0] == c[0] {
      LexTransitive(a[1..], b[1..], c[1..]);
    }
  }

  lemma LexReflexive(a: seq<int>)
    ensures LexLe(a, a)
  {
    LexTotal(a, a);
  }

  /** Total and transitive, as a sort needs. */
  ghost predicate TotalOrder<T(!new)>(le: (T, T) -> bool)
  {
    && (forall a, b :: le(a, b) || le(b, a))
    && (forall a, b, c :: le(a, b) && le(b, c) ==> le(a, c))
  }

  predicate Sorted<T>(s: seq<T>, le: (T, T) -> bool)
  {
    forall i, j :: 0 <= i < j < |s| ==> le(s[i], s[j])
  }

  predicate NoDuplicates<T(==)>(s: seq<T>)
  {
    forall i, j :: 0 <= i < j < |s| ==> s[i] != s[j]
  }

  /** `x` before the first element it may precede. */
  function InsertSorted<T>(x: T, s: seq<T>, le: (T, T) -> bool): (r: seq<T>)
    ensures |r| == |s| + 1
    decreases |s|
  {
    if s == [] || le(x, s[0]) then [x] + s else [s[0]] + InsertSorted(x, s[1..], le)
  }

  /** A stable sort: elements neither of which precedes the other keep their order. */
  function SortBy<T>(s: seq<T>, le: (T, T) -> bool): (r: seq<T>)
    ensures |r| == |s|
    decreases |s|
  {
    if s == [] then [] else InsertSorted(s[0], SortBy(s[1..], le), le)
  }

  lemma {:induction false} InsertMembers<T>(x: T, s: seq<T>, le: (T, T) -> bool)
    ensures forall y :: y in InsertSorted(x, s, le) <==> y == x || y in s
    ensures multiset(InsertSorted(x, s, le)) == multiset(s) + multiset{x}
    decreases |s|
  {
    if !(s == [] || le(x, s[0])) {
      InsertMembers(x, s[1..], le);
      assert s == [s[0]] + s[1..];
    }
  }

  lemma {:induction false} InsertIsSorted<T(!new)>(x: T, s: seq<T>, le: (T, T) -> bool)
    requires TotalOrder(le) && Sorted(s, le)
    ensures Sorted(InsertSorted(x, s, le), le)
    decreases |s|
  {
    if s == [] {
    } else if le(x, s[0]) {
      forall j | 0 <= j < |s|
        ensures le(x, s[j])
      {
        if j > 0 { assert le(s[0], s[j]); }
      }
    } else {
      InsertIsSorted(x, s[1..], le);
      InsertMembers(x, s[1..], le);
      var rest := InsertSorted(x, s[1..], le);
      forall j | 0 <= j < |rest|
        ensures le(s[0], rest[j])
      {
        assert rest[j] in rest;
        if rest[j] != x {
          var k :| 0 <= k < |s[1..]| && s[1..][k] == rest[j];
          assert le(s[0], s[k + 1]);
        }
      }
    }
  }

  lemma {:induction false} SortIsSorted<T(!new)>(s: seq<T>, le: (T, T) -> bool)
    requires TotalOrder(le)
    ensures Sorted(SortBy(s, le), le)
    decreases |s|
  {
    if s != [] {
      SortIsSorted(s[1..], le);
      InsertIsSorted(s[0], SortBy(s[1..], le), le);
    }
  }

  lemma {:induction false} SortIsPermutation<T>(s: seq<T>, le: (T, T) -> bool)
    ensures multiset(SortBy(s, le)) == multiset(s)
    ensures forall y :: y in SortBy(s, le) <==> y in s
    decreases |s|
  {
    if s != [] {
      SortIsPermutation(s[1..], le);
      InsertMembers(s[0], SortBy(s[1..], le), le);
      assert s == [s[0]] + s[1..];
    }
  }

  lemma SortMember<T>(s: seq<T>, le: (T, T) -> bool, y: T)
    ensures y in SortBy(s, le) <==> y in s
  {
    SortIsPermutation(s, le);
    assert y in multiset(s) <==> y in s;
    assert y in multiset(SortBy(s, le)) <==> y in SortBy(s, le);
  }

  lemma {:induction false} InsertKeepsDistinct<T>(x: T, s: seq<T>, le: (T, T) -> bool)
    requires NoDuplicates(s) && x !in s
    ensures NoDuplicates(InsertSorted(x, s, le))
    decreases |s|
  {
    if !(s == [] || le(x, s[0])) {
      var rest := InsertSorted(x, s[1..], le);
      InsertKeepsDistinct(x, s[1..], le);
      InsertMembers(x, s[1..], le);
      assert s[0] !in s[1..];
      assert forall j :: 0 <= j < |rest| ==> rest[j] in rest;
    }
  }

  lemma {:induction false} SortKeepsDistinct<T>(s: seq<T>, le: (T, T) -> bool)
    requires NoDuplicates(s)
    ensures NoDuplicates(SortBy(s, le))
    decreases |s|
  {
    if s != [] {
      SortKeepsDistinct(s[1..], le);
      SortIsPermutation(s[1..], le);
      InsertKeepsDistinct(s[0], SortBy(s[1..], le), le);
    }
  }

  /** A strictly sorted sequence is determined by its elements. */
  lemma {:induction false} StrictlySortedUnique<T(!new)>(a: seq<T>, b: seq<T>, lt: (T, T) -> bool)
    requires forall x, y :: lt(x, y) ==> !lt(y, x)
    requires Sorted(a, lt) && Sorted(b, lt)
    requires forall x :: x in a <==> x in b
    ensures a == b
    decreases |a|
  {
    if a == [] {
      HasElement(b);
    } else {
      assert a[0] in a;
      var j :| 0 <= j < |b| && b[j] == a[0];
      assert b[0] in b;
      var i :| 0 <= i < |a| && a[i] == b[0];
      assert a[0] == b[0];
      TailSameElements(a, b, lt);
      TailSameElements(b, a, lt);
      TailSorted(a, lt);
      TailSorted(b, lt);
      StrictlySortedUnique(a[1..], b[1..], lt);
      assert a == [a[0]] + a[1..] && b == [b[0]] + b[1..];
    }
  }

  lemma HasElement<T>(b: seq<T>)
    ensures b != [] ==> exists x :: x in b
  {
    if b != [] { assert b[0] in b; }
  }

  lemma TailSorted<T>(a: seq<T>, lt: (T, T) -> bool)
    requires Sorted(a, lt) && a != []
    ensures Sorted(a[1..], lt)
  {
    forall i, j | 0 <= i < j < |a[1..]|
      ensures lt(a[1..][i], a[1..][j])
    {
      assert lt(a[i + 1], a[j + 1]);
    }
  }

  lemma TailSameElements<T(!new)>(a: seq<T>, b: seq<T>, lt: (T, T) -> bool)
    requires forall x, y :: lt(x, y) ==> !lt(y, x)
    requires Sorted(a, lt) && a != [] && b != [] && a[0] == b[0]
    requires forall t :: t in a ==> t in b
    ensures forall t :: t in a[1..] ==> t in b[1..]
  {
    forall t | t in a[1..]
      ensures t in b[1..]
    {
      var i :| 0 <= i < |a[1..]| && a[1..][i] == t;
      assert a[i + 1] == t && lt(a[0], a[i + 1]);
      assert t in a;
      var k :| 0 <= k < |b| && b[k] == t;
      assert k > 0 && b[1..][k - 1] == t;
    }
  }

  /** The elements of `s` that satisfy `p`, in order. */
  function Filter<T>(s: seq<T>, p: T -> bool): seq<T>
    decreases |s|
  {
    if s == [] then [] else (if p(s[0]) then [s[0]] else []) + Filter(s[1..], p)
  }

  lemma {:induction false} FilterConcat<T>(s: seq<T>, t: seq<T>, p: T -> bool)
    ensures Filter(s + t, p) == Filter(s, p) + Filter(t, p)
    decreases |s|
  {
    if s == [] {
      assert s + t == t;
    } else {
      FilterConcat(s[1..], t, p);
      var head := if p(s[0]) then [s[0]] else [];
      assert (s + t)[1..] == s[1..] + t && (s + t)[0] == s[0];
      assert Filter(s + t, p) == head + Filter(s[1..] + t, p);
    }
  }

  lemma {:induction false} InsertIsStable<T>(x: T, s: seq<T>, le: (T, T) -> bool, p: T -> bool)
    requires p(x) ==> forall y :: y in s && p(y) ==> le(x, y)
    ensures Filter(InsertSorted(x, s, le), p) == Filter([x] + s, p)
    decreases |s|
  {
    if !(s == [] || le(x, s[0])) {
      InsertIsStable(x, s[1..], le, p);
      var rest := InsertSorted(x, s[1..], le);
      assert ([s[0]] + rest)[1..] == rest;
      assert ([x] + s)[1..] == s && ([x] + s[1..])[1..] == s[1..];
      assert p(x) ==> !p(s[0]);
    }
  }

  /** Sorting keeps the order of the elements of each class of ties. */
  lemma {:induction false} SortIsStable<T>(s: seq<T>, le: (T, T) -> bool, p: T -> bool)
    requires forall x, y :: x in s && y in s && p(x) && p(y) ==> le(x, y)
    ensures Filter(SortBy(s, le), p) == Filter(s, p)
    decreases |s|
  {
    if s != [] {
      var rest := SortBy(s[1..], le);
      assert forall y :: y in s[1..] ==> y in s;
      SortIsStable(s[1..], le, p);
      if p(s[0]) {
        forall y | y in rest && p(y)
          ensures le(s[0], y)
        {
          SortMember(s[1..], le, y);
          assert s == [s[0]] + s[1..];
        }
      }
      InsertIsStable(s[0], rest, le, p);
      assert ([s[0]] + rest)[1..] == rest;
    }
  }
}
