/** The sorting diagnostic sink, shared by the threads of a link. */
module Diagnostics {
  import opened Results
  import opened Sorting

  datatype Severity = Note | Warning | Error

  datatype Diagnostic = Diagnostic(severity: Severity, order: nat, message: string)

  /** The options in force, and how one diagnostic reads. */
  datatype Options = Options(noWarnings: bool, fatalWarnings: bool, limit: nat, render: Diagnostic -> string)

  const TOO_MANY: string := "too many errors emitted, stopping now (use --error-limit=0 to see all errors)"

  function ByOrder(): (Diagnostic, Diagnostic) -> bool
  {
    (a: Diagnostic, b: Diagnostic) => a.order <= b.order
  }

  /** What of a diagnostic reaches the buffer: nothing if warnings are off, an error if they are fatal. */
  function Admitted(o: Options, d: Diagnostic): Option<Diagnostic>
  {
    if d.severity.Warning? && o.noWarnings then None
    else if d.severity.Warning? && o.fatalWarnings then Some(d.(severity := Error))
    else Some(d)
  }

  // ---- Rendering ----

  /** Sorted diagnostics with `shown` errors before them, up to the limit. */
  function RenderFrom(o: Options, sorted: seq<Diagnostic>, shown: nat): string
    decreases |sorted|
  {
    if sorted == [] then ""
    else if sorted[0].severity.Error? && shown >= o.limit then o.render(Diagnostic(Error, 0xffff_ffff_ffff_ffff, TOO_MANY))
    else o.render(sorted[0]) + RenderFrom(o, sorted[1..], if sorted[0].severity.Error? then shown + 1 else shown)
  }

  function Rendered(o: Options, pending: seq<Diagnostic>): string
  {
    RenderFrom(o, SortBy(pending, ByOrder()), 0)
  }

  function Errors(list: seq<Diagnostic>): (r: nat)
    ensures r <= |list|
    decreases |list|
  {
    if list == [] then 0 else Errors(list[..|list| - 1]) + (if list[|list| - 1].severity.Error? then 1 else 0)
  }

  /** The sink of one thread at a time. */
  class Stderr {
    var pending: seq<Diagnostic>
    var errors: nat
    const options: Options

    constructor (o: Options)
      ensures pending == [] && errors == 0 && options == o
    {
      pending, errors, options := [], 0, o;
    }

    method Emit(d: Diagnostic)
      modifies this
      ensures pending == old(pending) + (if Admitted(options, d).Some? then [Admitted(options, d).value] else [])
      ensures errors - old(errors) == if Admitted(options, d).Some? && Admitted(options, d).value.severity.Error? then 1 else 0
    {
      var kept := d;
      if kept.severity.Warning? {
        if options.noWarnings { return; }
        if options.fatalWarnings { kept := kept.(severity := Error); }
      }
      if kept.severity.Error? { errors := errors + 1; }
      pending := pending + [kept];
    }

    /** `take_rendered`: sorts, renders up to the error limit, and empties the buffer; the count stays. */
    method TakeRendered() returns (text: string)
      modifies this
      ensures text == Rendered(options, old(pending)) && pending == [] && errors == old(errors)
    {
      var sorted := SortBy(pending, ByOrder());
      pending := [];
      text := "";
      var shown := 0;
      for i := 0 to |sorted|
        invariant text + RenderFrom(options, sorted[i..], shown) == RenderFrom(options, sorted, 0)
        invariant pending == [] && errors == old(errors)
      {
        assert sorted[i..][1..] == sorted[i + 1..];
        if sorted[i].severity.Error? {
          if shown >= options.limit {
            text := text + options.render(Diagnostic(Error, 0xffff_ffff_ffff_ffff, TOO_MANY));
            return;
          }
          shown := shown + 1;
        }
        text := text + options.render(sorted[i]);
      }
    }
  }

  /** Diagnostics one after the other, none left out. */
  function Texts(o: Options, list: seq<Diagnostic>): string
    decreases |list|
  {
    if list == [] then "" else o.render(list[0]) + Texts(o, list[1..])
  }

  lemma ErrorsFirst(d: Diagnostic, rest: seq<Diagnostic>)
    ensures Errors([d] + rest) == (if d.severity.Error? then 1 else 0) + Errors(rest)
    decreases |rest|
  {
    if rest == [] {
      assert [d][..0] == [];
    } else {
      ErrorsFirst(d, rest[..|rest| - 1]);
      assert ([d] + rest)[..|rest|] == [d] + rest[..|rest| - 1];
    }
  }

  /** The last message, in place of the error that is one too many. */
  function Stop(): Diagnostic
  {
    Diagnostic(Error, 0xffff_ffff_ffff_ffff, TOO_MANY)
  }

  /** Where the text is cut: before the first error with `limit` errors before it, if there is one. */
  predicate CutAt(sorted: seq<Diagnostic>, limit: nat, k: nat)
  {
    k < |sorted| && sorted[k].severity.Error? && Errors(sorted[..k]) == limit
  }

  lemma TextsFirst(o: Options, first: Diagnostic, rest: seq<Diagnostic>, shown: nat)
    ensures Texts(o, [first] + rest) == o.render(first) + Texts(o, rest)
    ensures RenderFrom(o, [first] + rest, shown)
         == if first.severity.Error? && shown >= o.limit then o.render(Stop())
            else o.render(first) + RenderFrom(o, rest, if first.severity.Error? then shown + 1 else shown)
  {
    assert ([first] + rest)[1..] == rest;
  }

  lemma CutNext(first: Diagnostic, rest: seq<Diagnostic>, limit: nat, j: nat)
    requires CutAt(rest, limit, j)
    ensures CutAt([first] + rest, limit + (if first.severity.Error? then 1 else 0), j + 1)
    ensures j + 1 <= |[first] + rest| && ([first] + rest)[..j + 1] == [first] + rest[..j]
  {
    ErrorsFirst(first, rest[..j]);
    assert ([first] + rest)[..j + 1] == [first] + rest[..j];
    hide Errors;
  }

  lemma CutFirst(first: Diagnostic, rest: seq<Diagnostic>)
    requires first.severity.Error?
    ensures CutAt([first] + rest, 0, 0) && Errors([first] + rest) > 0
  {
    ErrorsFirst(first, rest);
    assert ([first] + rest)[..0] == [];
  }

  lemma Concats(a: string, b: string, c: string)
    ensures a + (b + c) == a + b + c && "" + c == c
  {
  }

  predicate CutText(o: Options, sorted: seq<Diagnostic>, limit: nat, k: nat, text: string)
  {
    CutAt(sorted, limit, k) && text == Texts(o, sorted[..k]) + o.render(Stop())
  }

  lemma CutTextNext(o: Options, first: Diagnostic, rest: seq<Diagnostic>, limit: nat, j: nat, text: string)
    requires CutText(o, rest, limit, j, text)
    ensures CutText(o, [first] + rest, limit + (if first.severity.Error? then 1 else 0), j + 1, o.render(first) + text)
  {
    hide CutAt, Texts;
    CutNext(first, rest, limit, j);
    assert CutAt(rest, limit, j);
    CutIn(rest, limit, j);
    TextsFirst(o, first, rest[..j], 0);
    Concats(o.render(first), Texts(o, rest[..j]), o.render(Stop()));
  }

  lemma CutIn(sorted: seq<Diagnostic>, limit: nat, k: nat)
    requires CutAt(sorted, limit, k)
    ensures k < |sorted|
  {
  }

  lemma CutTextFirst(o: Options, first: Diagnostic, rest: seq<Diagnostic>)
    requires first.severity.Error?
    ensures CutText(o, [first] + rest, 0, 0, o.render(Stop())) && Errors([first] + rest) > 0
  {
    CutFirst(first, rest);
    assert ([first] + rest)[..0] == [];
    Concats("", "", o.render(Stop()));
    hide CutAt, Errors;
  }

  lemma {:induction false} RenderFromCut(o: Options, sorted: seq<Diagnostic>, shown: nat) returns (k: nat)
    requires shown <= o.limit
    ensures if shown + Errors(sorted) <= o.limit then RenderFrom(o, sorted, shown) == Texts(o, sorted)
            else CutText(o, sorted, o.limit - shown, k, RenderFrom(o, sorted, shown))
    decreases |sorted|
  {
    k := 0;
    if sorted != [] {
      hide *;
      var (first, rest) := (sorted[0], sorted[1..]);
      assert sorted == [first] + rest;
      ErrorsFirst(first, rest);
      TextsFirst(o, first, rest, shown);
      if first.severity.Error? && shown == o.limit {
        CutTextFirst(o, first, rest);
      } else {
        var more := if first.severity.Error? then shown + 1 else shown;
        k := RenderFromCut(o, rest, more);
        if more + Errors(rest) > o.limit {
          CutTextNext(o, first, rest, o.limit - more, k, RenderFrom(o, rest, more));
        }
        k := k + 1;
      }
    }
  }

  lemma {:induction false} ErrorsInserted(x: Diagnostic, s: seq<Diagnostic>)
    ensures Errors(InsertSorted(x, s, ByOrder())) == Errors([x]) + Errors(s)
    decreases |s|
  {
    ErrorsFirst(x, s);
    ErrorsFirst(x, []);
    assert [x] + [] == [x] && Errors([]) == 0;
    if s != [] && !ByOrder()(x, s[0]) {
      ErrorsInserted(x, s[1..]);
      ErrorsFirst(s[0], InsertSorted(x, s[1..], ByOrder()));
      ErrorsFirst(s[0], s[1..]);
      assert s == [s[0]] + s[1..];
    }
  }

  lemma {:induction false} ErrorsSorted(s: seq<Diagnostic>)
    ensures Errors(SortBy(s, ByOrder())) == Errors(s)
    decreases |s|
  {
    if s != [] {
      ErrorsSorted(s[1..]);
      ErrorsInserted(s[0], SortBy(s[1..], ByOrder()));
      ErrorsFirst(s[0], s[1..]);
      ErrorsFirst(s[0], []);
      assert s == [s[0]] + s[1..] && [s[0]] + [] == [s[0]];
    }
  }

  /**
    All the diagnostics in order if their errors are within the limit; otherwise
    those before the error that is one too many, and the message that stops.
   */
  lemma RenderCut(o: Options, pending: seq<Diagnostic>) returns (k: nat)
    ensures var sorted := SortBy(pending, ByOrder());
      if Errors(pending) <= o.limit then Rendered(o, pending) == Texts(o, sorted)
      else CutAt(sorted, o.limit, k) && Rendered(o, pending) == Texts(o, sorted[..k]) + o.render(Stop())
  {
    hide RenderFrom, Texts, Errors, SortBy;
    var sorted := SortBy(pending, ByOrder());
    ErrorsSorted(pending);
    k := RenderFromCut(o, sorted, 0);
  }

  // ---- Threads ----

  /** A thread's next diagnostic, and whether its error is already counted. */
  datatype Thread = Thread(at: nat, counted: bool)

  /** `log` is the buffer with the thread each diagnostic came from. */
  datatype Shared = Shared(log: seq<(nat, Diagnostic)>, errors: nat, threads: seq<Thread>)

  /** What each thread emits, in its order. */
  type Jobs = seq<seq<Diagnostic>>

  /** An atomic step of a thread: count the error, or push the diagnostic. */
  datatype Step = Count(thread: nat) | Push(thread: nat)

  predicate Runs(jobs: Jobs, s: Shared, t: nat)
  {
    |s.threads| == |jobs| && t < |jobs| && s.threads[t].at < |jobs[t]|
  }

  function IsError(o: Options, d: Diagnostic): bool
  {
    Admitted(o, d).Some? && Admitted(o, d).value.severity.Error?
  }

  /** `emit` in two steps: an error is counted before it is pushed. */
  predicate Enabled(o: Options, jobs: Jobs, s: Shared, step: Step)
  {
    && Runs(jobs, s, step.thread)
    && var d := jobs[step.thread][s.threads[step.thread].at];
       match step
       case Count(t) => IsError(o, d) && !s.threads[t].counted
       case Push(t) => IsError(o, d) ==> s.threads[t].counted
  }

  /** The state after a step, the same one if the step cannot be taken. */
  function Take(o: Options, jobs: Jobs, s: Shared, step: Step): Shared
  {
    if !Enabled(o, jobs, s, step) then s
    else
      var t := step.thread;
      match step
      case Count(_) => s.(errors := s.errors + 1, threads := s.threads[t := s.threads[t].(counted := true)])
      case Push(_) =>
        var d := Admitted(o, jobs[t][s.threads[t].at]);
        s.(log := s.log + (if d.Some? then [(t, d.value)] else []),
           threads := s.threads[t := Thread(s.threads[t].at + 1, false)])
  }

  function Init(jobs: Jobs): Shared
  {
    Shared([], 0, seq(|jobs|, _ => Thread(0, false)))
  }

  ghost predicate Run(o: Options, jobs: Jobs, states: seq<Shared>, steps: seq<Step>)
  {
    && |states| == |steps| + 1 && states[0] == Init(jobs)
    && forall i :: 0 <= i < |steps| ==> Enabled(o, jobs, states[i], steps[i]) && states[i + 1] == Take(o, jobs, states[i], steps[i])
  }

  predicate Finished(jobs: Jobs, s: Shared)
  {
    |s.threads| == |jobs| && forall t :: 0 <= t < |jobs| ==> s.threads[t].at == |jobs[t]|
  }

  function Pending(log: seq<(nat, Diagnostic)>): (r: seq<Diagnostic>)
    ensures |r| == |log|
  {
    seq(|log|, i requires 0 <= i < |log| => log[i].1)
  }

  // ---- Equal subsequences give equal text ----

  function HasOrder(k: nat): Diagnostic -> bool
  {
    (d: Diagnostic) => d.order == k
  }

  lemma {:induction false} FilterNone<T>(s: seq<T>, p: T -> bool)
    requires forall x :: x in s ==> !p(x)
    ensures Filter(s, p) == []
    decreases |s|
  {
    if s != [] { FilterNone(s[1..], p); }
  }

  lemma {:induction false} FilterMember<T>(s: seq<T>, p: T -> bool, x: T)
    ensures x in Filter(s, p) <==> x in s && p(x)
    decreases |s|
  {
    if s != [] {
      FilterMember(s[1..], p, x);
      assert s == [s[0]] + s[1..];
    }
  }

  /** A list sorted by order is determined by its subsequences of each order. */
  lemma {:induction false} SortedDetermined(a: seq<Diagnostic>, b: seq<Diagnostic>)
    requires Sorted(a, ByOrder()) && Sorted(b, ByOrder())
    requires forall k :: Filter(a, HasOrder(k)) == Filter(b, HasOrder(k))
    ensures a == b
    decreases |a| + |b|
  {
    if a == [] {
      if b != [] { FilterMember(b, HasOrder(b[0].order), b[0]); assert Filter(a, HasOrder(b[0].order)) == []; assert false; }
    } else {
      SameFirst(a, b);
      SameFirst(b, a);
      FirstEqual(a, b);
      forall k
        ensures Filter(a[1..], HasOrder(k)) == Filter(b[1..], HasOrder(k))
      {
        assert Filter(a, HasOrder(k)) == (if a[0].order == k then [a[0]] else []) + Filter(a[1..], HasOrder(k));
        assert Filter(b, HasOrder(k)) == (if b[0].order == k then [b[0]] else []) + Filter(b[1..], HasOrder(k));
        Cancel(if a[0].order == k then [a[0]] else [], Filter(a[1..], HasOrder(k)), Filter(b[1..], HasOrder(k)));
      }
      TailSorted(a, ByOrder());
      TailSorted(b, ByOrder());
      SortedDetermined(a[1..], b[1..]);
      assert a == [a[0]] + a[1..] && b == [b[0]] + b[1..];
    }
  }

  lemma Cancel(p: seq<Diagnostic>, a: seq<Diagnostic>, b: seq<Diagnostic>)
    requires p + a == p + b
    ensures a == b
  {
    assert (p + a)[|p|..] == a && (p + b)[|p|..] == b;
  }

  /** The other list is not empty, and starts no later. */
  lemma SameFirst(a: seq<Diagnostic>, b: seq<Diagnostic>)
    requires Sorted(b, ByOrder()) && (a != [] || b != [])
    requires forall k :: Filter(a, HasOrder(k)) == Filter(b, HasOrder(k))
    ensures a != [] ==> b != [] && b[0].order <= a[0].order
  {
    if a != [] {
      var k := a[0].order;
      FilterMember(a, HasOrder(k), a[0]);
      FilterMember(b, HasOrder(k), a[0]);
      assert Filter(a, HasOrder(k)) == Filter(b, HasOrder(k));
      var j :| 0 <= j < |b| && b[j] == a[0];
      if j > 0 { assert ByOrder()(b[0], b[j]); }
    }
  }

  lemma FirstEqual(a: seq<Diagnostic>, b: seq<Diagnostic>)
    requires a != [] && b != [] && a[0].order == b[0].order
    requires forall k :: Filter(a, HasOrder(k)) == Filter(b, HasOrder(k))
    ensures a[0] == b[0]
  {
    var k := a[0].order;
    assert Filter(a, HasOrder(k)) == [a[0]] + Filter(a[1..], HasOrder(k));
    assert Filter(b, HasOrder(k)) == [b[0]] + Filter(b[1..], HasOrder(k));
    assert Filter(a, HasOrder(k))[0] == a[0];
  }

  /** Buffers with the same diagnostics of each order, each in the same order, read the same. */
  lemma SameText(o: Options, a: seq<Diagnostic>, b: seq<Diagnostic>)
    requires forall k :: Filter(a, HasOrder(k)) == Filter(b, HasOrder(k))
    ensures Rendered(o, a) == Rendered(o, b)
  {
    SortIsSorted(a, ByOrder());
    SortIsSorted(b, ByOrder());
    forall k
      ensures Filter(SortBy(a, ByOrder()), HasOrder(k)) == Filter(SortBy(b, ByOrder()), HasOrder(k))
    {
      SortIsStable(a, ByOrder(), HasOrder(k));
      SortIsStable(b, ByOrder(), HasOrder(k));
    }
    SortedDetermined(SortBy(a, ByOrder()), SortBy(b, ByOrder()));
  }

  // ---- What the threads leave in the buffer ----

  /** The admitted ones of the first `n` diagnostics of a thread. */
  function AdmittedOf(o: Options, job: seq<Diagnostic>, n: nat): seq<Diagnostic>
    requires n <= |job|
  {
    if n == 0 then []
    else AdmittedOf(o, job, n - 1) + (if Admitted(o, job[n - 1]).Some? then [Admitted(o, job[n - 1]).value] else [])
  }

  function FromThread(log: seq<(nat, Diagnostic)>, t: nat): seq<Diagnostic>
    decreases |log|
  {
    if log == [] then []
    else FromThread(log[..|log| - 1], t) + (if log[|log| - 1].0 == t then [log[|log| - 1].1] else [])
  }

  /** Errors counted but not pushed yet. */
  function Counted(threads: seq<Thread>): nat
    decreases |threads|
  {
    if threads == [] then 0 else Counted(threads[..|threads| - 1]) + (if threads[|threads| - 1].counted then 1 else 0)
  }

  /** Each thread's diagnostics are in the buffer, in its order, as far as it got. */
  ghost predicate InOrder(o: Options, jobs: Jobs, s: Shared)
  {
    && |s.threads| == |jobs|
    && (forall t :: 0 <= t < |jobs| ==> s.threads[t].at <= |jobs[t]| && FromThread(s.log, t) == AdmittedOf(o, jobs[t], s.threads[t].at))
    && (forall i :: 0 <= i < |s.log| ==> s.log[i].0 < |jobs|)
  }

  /** The count is of the errors in the buffer and those about to be pushed. */
  ghost predicate CountFits(o: Options, jobs: Jobs, s: Shared)
  {
    && |s.threads| == |jobs|
    && (forall t :: 0 <= t < |jobs| && s.threads[t].counted ==> s.threads[t].at < |jobs[t]| && IsError(o, jobs[t][s.threads[t].at]))
    && s.errors == Errors(Pending(s.log)) + Counted(s.threads)
  }

  ghost predicate Inv(o: Options, jobs: Jobs, s: Shared)
  {
    InOrder(o, jobs, s) && CountFits(o, jobs, s)
  }

  lemma {:induction false} NoneCounted(threads: seq<Thread>)
    requires forall t :: 0 <= t < |threads| ==> !threads[t].counted
    ensures Counted(threads) == 0
    decreases |threads|
  {
    if threads != [] { NoneCounted(threads[..|threads| - 1]); }
  }

  lemma {:induction false} CountedAfter(threads: seq<Thread>, t: nat, now: Thread)
    requires t < |threads|
    ensures Counted(threads[t := now]) == Counted(threads) - (if threads[t].counted then 1 else 0) + (if now.counted then 1 else 0)
    decreases |threads|
  {
    var last := |threads| - 1;
    if t < last {
      assert threads[t := now][..last] == threads[..last][t := now];
      CountedAfter(threads[..last], t, now);
    } else {
      assert threads[t := now][..last] == threads[..last];
    }
  }

  lemma LogNext(log: seq<(nat, Diagnostic)>, t: nat, d: Diagnostic)
    ensures Pending(log + [(t, d)]) == Pending(log) + [d]
    ensures forall u :: FromThread(log + [(t, d)], u) == FromThread(log, u) + (if u == t then [d] else [])
    ensures Errors(Pending(log + [(t, d)])) == Errors(Pending(log)) + (if d.severity.Error? then 1 else 0)
  {
    assert (log + [(t, d)])[..|log|] == log;
    assert (Pending(log) + [d])[..|log|] == Pending(log);
  }

  lemma InitInv(o: Options, jobs: Jobs)
    ensures Inv(o, jobs, Init(jobs))
  {
    NoneCounted(Init(jobs).threads);
  }

  lemma CountKeeps(o: Options, jobs: Jobs, s: Shared, t: nat)
    requires Inv(o, jobs, s) && Enabled(o, jobs, s, Count(t))
    ensures Inv(o, jobs, Take(o, jobs, s, Count(t)))
  {
    CountedAfter(s.threads, t, s.threads[t].(counted := true));
    hide Errors, FromThread, AdmittedOf, Counted;
  }

  lemma FromThreadNext(log: seq<(nat, Diagnostic)>, t: nat, d: Option<Diagnostic>, u: nat)
    ensures FromThread(log + (if d.Some? then [(t, d.value)] else []), u)
         == FromThread(log, u) + (if d.Some? && u == t then [d.value] else [])
  {
    if d.Some? { LogNext(log, t, d.value); }
    assert log + [] == log && FromThread(log, u) + [] == FromThread(log, u);
  }

  lemma PushOrder(o: Options, jobs: Jobs, s: Shared, t: nat)
    requires InOrder(o, jobs, s) && Enabled(o, jobs, s, Push(t))
    ensures InOrder(o, jobs, Take(o, jobs, s, Push(t)))
  {
    var (d, s') := (Admitted(o, jobs[t][s.threads[t].at]), Take(o, jobs, s, Push(t)));
    hide FromThread, AdmittedOf, Admitted, IsError;
    forall u | 0 <= u < |jobs|
      ensures FromThread(s'.log, u) == AdmittedOf(o, jobs[u], s'.threads[u].at)
    {
      FromThreadNext(s.log, t, d, u);
    }
  }

  lemma PushCount(o: Options, jobs: Jobs, s: Shared, t: nat)
    requires CountFits(o, jobs, s) && Enabled(o, jobs, s, Push(t))
    ensures CountFits(o, jobs, Take(o, jobs, s, Push(t)))
  {
    var (d, s') := (Admitted(o, jobs[t][s.threads[t].at]), Take(o, jobs, s, Push(t)));
    CountedAfter(s.threads, t, s'.threads[t]);
    hide Errors, Counted, Pending, Admitted;
    if d.Some? { LogNext(s.log, t, d.value); } else { assert s.log + [] == s.log; }
  }

  lemma PushKeeps(o: Options, jobs: Jobs, s: Shared, t: nat)
    requires Inv(o, jobs, s) && Enabled(o, jobs, s, Push(t))
    ensures Inv(o, jobs, Take(o, jobs, s, Push(t)))
  {
    hide InOrder, CountFits, Take, Enabled;
    PushOrder(o, jobs, s, t);
    PushCount(o, jobs, s, t);
  }

  lemma {:induction false} RunKeeps(o: Options, jobs: Jobs, states: seq<Shared>, steps: seq<Step>, i: nat)
    requires Run(o, jobs, states, steps) && i < |states|
    ensures Inv(o, jobs, states[i])
  {
    hide Inv, Take, Enabled;
    if i == 0 {
      InitInv(o, jobs);
    } else {
      RunKeeps(o, jobs, states, steps, i - 1);
      if steps[i - 1].Count? {
        CountKeeps(o, jobs, states[i - 1], steps[i - 1].thread);
      } else {
        PushKeeps(o, jobs, states[i - 1], steps[i - 1].thread);
      }
    }
  }

  /** Every error of every thread. */
  function AllErrors(o: Options, jobs: Jobs, n: nat): nat
    requires n <= |jobs|
  {
    if n == 0 then 0 else AllErrors(o, jobs, n - 1) + Errors(AdmittedOf(o, jobs[n - 1], |jobs[n - 1]|))
  }

  function ErrorsBelow(log: seq<(nat, Diagnostic)>, n: nat): nat
    decreases |log|
  {
    if log == [] then 0
    else ErrorsBelow(log[..|log| - 1], n) + (if log[|log| - 1].0 < n && log[|log| - 1].1.severity.Error? then 1 else 0)
  }

  lemma ErrorsNext(list: seq<Diagnostic>, d: Diagnostic)
    ensures Errors(list + [d]) == Errors(list) + (if d.severity.Error? then 1 else 0)
  {
    assert (list + [d])[..|list|] == list;
  }

  lemma BelowNext(log: seq<(nat, Diagnostic)>, t: nat, d: Diagnostic, n: nat)
    ensures ErrorsBelow(log + [(t, d)], n) == ErrorsBelow(log, n) + (if t < n && d.severity.Error? then 1 else 0)
  {
    assert (log + [(t, d)])[..|log|] == log;
  }

  lemma ThreadErrorsNext(log: seq<(nat, Diagnostic)>, t: nat, d: Diagnostic, n: nat)
    ensures Errors(FromThread(log + [(t, d)], n)) == Errors(FromThread(log, n)) + (if t == n && d.severity.Error? then 1 else 0)
  {
    LogNext(log, t, d);
    ErrorsNext(FromThread(log, n), d);
    hide Errors, FromThread;
    assert FromThread(log, n) + [] == FromThread(log, n);
  }

  lemma {:induction false} NoneBelow(log: seq<(nat, Diagnostic)>)
    ensures ErrorsBelow(log, 0) == 0
    decreases |log|
  {
    if log != [] { NoneBelow(log[..|log| - 1]); }
  }

  lemma {:induction false} ErrorsByThread(log: seq<(nat, Diagnostic)>, n: nat)
    ensures ErrorsBelow(log, n + 1) == ErrorsBelow(log, n) + Errors(FromThread(log, n))
    decreases |log|
  {
    if log != [] {
      var (init, last) := (log[..|log| - 1], log[|log| - 1]);
      ErrorsByThread(init, n);
      assert log == init + [(last.0, last.1)];
      hide *;
      BelowNext(init, last.0, last.1, n);
      BelowNext(init, last.0, last.1, n + 1);
      ThreadErrorsNext(init, last.0, last.1, n);
    }
  }

  lemma {:induction false} ErrorsAll(log: seq<(nat, Diagnostic)>, n: nat)
    requires forall i :: 0 <= i < |log| ==> log[i].0 < n
    ensures ErrorsBelow(log, n) == Errors(Pending(log))
    decreases |log|
  {
    if log != [] {
      ErrorsAll(log[..|log| - 1], n);
      assert Pending(log)[..|log| - 1] == Pending(log[..|log| - 1]);
    }
  }

  lemma {:induction false} ErrorsSum(o: Options, jobs: Jobs, s: Shared, n: nat)
    requires Inv(o, jobs, s) && Finished(jobs, s) && n <= |jobs|
    ensures ErrorsBelow(s.log, n) == AllErrors(o, jobs, n)
  {
    hide Errors, FromThread, AdmittedOf, ErrorsBelow, CountFits;
    if n > 0 {
      ErrorsSum(o, jobs, s, n - 1);
      ErrorsByThread(s.log, n - 1);
    } else {
      NoneBelow(s.log);
    }
  }

  /** A diagnostic that makes the link fail: an error, or a warning where those are fatal and not turned off. */
  predicate Fails(o: Options, d: Diagnostic)
  {
    d.severity.Error? || (d.severity.Warning? && o.fatalWarnings && !o.noWarnings)
  }

  /** How many of the diagnostics make it fail. */
  function Failing(o: Options, list: seq<Diagnostic>): nat
    decreases |list|
  {
    if list == [] then 0 else Failing(o, list[..|list| - 1]) + (if Fails(o, list[|list| - 1]) then 1 else 0)
  }

  function AllFailing(o: Options, jobs: Jobs): nat
    decreases |jobs|
  {
    if jobs == [] then 0 else AllFailing(o, jobs[..|jobs| - 1]) + Failing(o, jobs[|jobs| - 1])
  }

  lemma {:induction false} ErrorsAdmitted(o: Options, job: seq<Diagnostic>, n: nat)
    requires n <= |job|
    ensures Errors(AdmittedOf(o, job, n)) == Failing(o, job[..n])
  {
    if n > 0 {
      var (rest, d) := (AdmittedOf(o, job, n - 1), Admitted(o, job[n - 1]));
      ErrorsAdmitted(o, job, n - 1);
      assert job[..n][..n - 1] == job[..n - 1];
      if d.Some? { ErrorsNext(rest, d.value); } else { assert rest + [] == rest; }
    }
  }

  lemma {:induction false} ErrorsFailing(o: Options, jobs: Jobs, n: nat)
    requires n <= |jobs|
    ensures AllErrors(o, jobs, n) == AllFailing(o, jobs[..n])
  {
    if n > 0 {
      ErrorsFailing(o, jobs, n - 1);
      ErrorsAdmitted(o, jobs[n - 1], |jobs[n - 1]|);
      assert jobs[..n][..n - 1] == jobs[..n - 1] && jobs[n - 1][..|jobs[n - 1]|] == jobs[n - 1];
    }
  }

  /** When every thread is done, the count is of every error emitted, whatever the schedule and the limit. */
  lemma ErrorCount(o: Options, jobs: Jobs, states: seq<Shared>, steps: seq<Step>)
    requires Run(o, jobs, states, steps) && Finished(jobs, states[|steps|])
    ensures states[|steps|].errors == AllFailing(o, jobs)
  {
    var s := states[|steps|];
    ErrorsFailing(o, jobs, |jobs|);
    assert jobs[..|jobs|] == jobs;
    RunKeeps(o, jobs, states, steps, |steps|);
    NoneCounted(s.threads);
    ErrorsAll(s.log, |jobs|);
    ErrorsSum(o, jobs, s, |jobs|);
  }

  /** Two finished runs whose diagnostics of each order come in the same order render the same text and count the same errors. */
  lemma ScheduleIndependent(o: Options, jobs: Jobs, a: seq<Shared>, x: seq<Step>, b: seq<Shared>, y: seq<Step>)
    requires Run(o, jobs, a, x) && Run(o, jobs, b, y)
    requires Finished(jobs, a[|x|]) && Finished(jobs, b[|y|])
    requires forall k :: Filter(Pending(a[|x|].log), HasOrder(k)) == Filter(Pending(b[|y|].log), HasOrder(k))
    ensures Rendered(o, Pending(a[|x|].log)) == Rendered(o, Pending(b[|y|].log))
    ensures a[|x|].errors == b[|y|].errors
  {
    SameText(o, Pending(a[|x|].log), Pending(b[|y|].log));
    ErrorCount(o, jobs, a, x);
    ErrorCount(o, jobs, b, y);
  }

  /** What of a thread's diagnostics is left when warnings are off: everything else, as it was. */
  function WithoutWarnings(list: seq<Diagnostic>): seq<Diagnostic>
    decreases |list|
  {
    if list == [] then []
    else WithoutWarnings(list[..|list| - 1]) + (if list[|list| - 1].severity.Warning? then [] else [list[|list| - 1]])
  }

  /** And when they are fatal: everything, warnings as errors. */
  function WarningsRaised(list: seq<Diagnostic>): (r: seq<Diagnostic>)
    ensures |r| == |list|
  {
    seq(|list|, i requires 0 <= i < |list| => if list[i].severity.Warning? then Diagnostic(Error, list[i].order, list[i].message) else list[i])
  }

  /** What reaches the buffer of a thread's diagnostics, for each way warnings are treated. */
  lemma {:induction false} AdmittedIs(o: Options, job: seq<Diagnostic>, n: nat)
    requires n <= |job|
    ensures AdmittedOf(o, job, n)
         == if o.noWarnings then WithoutWarnings(job[..n]) else if o.fatalWarnings then WarningsRaised(job[..n]) else job[..n]
  {
    if n > 0 {
      AdmittedIs(o, job, n - 1);
      assert job[..n][..n - 1] == job[..n - 1] && job[..n] == job[..n - 1] + [job[n - 1]];
      if !o.noWarnings && o.fatalWarnings {
        assert WarningsRaised(job[..n]) == WarningsRaised(job[..n - 1]) + [WarningsRaised(job[..n])[n - 1]];
      }
    }
  }

  /** A finished run leaves each thread's diagnostics so treated, in the thread's order. */
  lemma FinishedThreads(o: Options, jobs: Jobs, states: seq<Shared>, steps: seq<Step>, t: nat)
    requires Run(o, jobs, states, steps) && Finished(jobs, states[|steps|]) && t < |jobs|
    ensures FromThread(states[|steps|].log, t)
         == if o.noWarnings then WithoutWarnings(jobs[t]) else if o.fatalWarnings then WarningsRaised(jobs[t]) else jobs[t]
  {
    RunKeeps(o, jobs, states, steps, |steps|);
    AdmittedIs(o, jobs[t], |jobs[t]|);
    assert jobs[t][..|jobs[t]|] == jobs[t];
    hide AdmittedOf, WithoutWarnings, WarningsRaised, FromThread;
  }

  // ---- One thread per order ----

  /** Each order is emitted by one thread only. */
  predicate OwnOrders(jobs: Jobs)
  {
    forall t, u, i, j ::
      (0 <= t < |jobs| && 0 <= u < |jobs| && 0 <= i < |jobs[t]| && 0 <= j < |jobs[u]| && jobs[t][i].order == jobs[u][j].order)
      ==> t == u
  }

  lemma {:induction false} AdmittedFrom(o: Options, job: seq<Diagnostic>, n: nat, d: Diagnostic)
    requires n <= |job| && d in AdmittedOf(o, job, n)
    ensures exists i :: 0 <= i < |job| && job[i].order == d.order
    decreases n
  {
    if d in AdmittedOf(o, job, n - 1) { AdmittedFrom(o, job, n - 1, d); } else { assert job[n - 1].order == d.order; }
  }

  /** If all of an order come from one thread, they are that thread's, in its order. */
  lemma {:induction false} OrderOfThread(log: seq<(nat, Diagnostic)>, k: nat, t: nat)
    requires forall i :: 0 <= i < |log| && log[i].1.order == k ==> log[i].0 == t
    ensures Filter(Pending(log), HasOrder(k)) == Filter(FromThread(log, t), HasOrder(k))
    decreases |log|
  {
    if log != [] {
      var (init, last) := (log[..|log| - 1], log[|log| - 1]);
      OrderOfThread(init, k, t);
      assert log == init + [last] && last == (last.0, last.1);
      LogNext(init, last.0, last.1);
      hide Pending, FromThread;
      FilterConcat(Pending(init), [last.1], HasOrder(k));
      FilterConcat(FromThread(init, t), [last.1], HasOrder(k));
      FilterOne(last.1, k);
      var rest := Filter(Pending(init), HasOrder(k));
      assert rest + [] == rest && FromThread(init, t) + [] == FromThread(init, t);
    }
  }

  lemma FilterOne(d: Diagnostic, k: nat)
    ensures Filter([d], HasOrder(k)) == if d.order == k then [d] else []
  {
    assert [d][1..] == [];
  }

  lemma {:induction false} InThread(log: seq<(nat, Diagnostic)>, i: nat)
    requires i < |log|
    ensures log[i].1 in FromThread(log, log[i].0)
    decreases |log|
  {
    if i < |log| - 1 { InThread(log[..|log| - 1], i); }
  }

  /** All of an order in the buffer come from the one thread that emits it. */
  lemma OrderOwned(o: Options, jobs: Jobs, s: Shared, i: nat, j: nat)
    requires Inv(o, jobs, s) && OwnOrders(jobs) && i < |s.log| && j < |s.log| && s.log[i].1.order == s.log[j].1.order
    ensures s.log[i].0 == s.log[j].0
  {
    InThread(s.log, i);
    InThread(s.log, j);
    var (t, u) := (s.log[i].0, s.log[j].0);
    AdmittedFrom(o, jobs[t], s.threads[t].at, s.log[i].1);
    AdmittedFrom(o, jobs[u], s.threads[u].at, s.log[j].1);
  }

  /** The diagnostics of an order in a finished run do not depend on the run. */
  function OfOrder(o: Options, jobs: Jobs, k: nat, n: nat): seq<Diagnostic>
    requires n <= |jobs|
  {
    if n == 0 then []
    else
      var mine := Filter(AdmittedOf(o, jobs[n - 1], |jobs[n - 1]|), HasOrder(k));
      if mine != [] then mine else OfOrder(o, jobs, k, n - 1)
  }

  lemma {:induction false} OrderOf(o: Options, jobs: Jobs, s: Shared, k: nat, n: nat)
    requires Inv(o, jobs, s) && OwnOrders(jobs) && Finished(jobs, s) && n <= |jobs|
    requires forall i :: 0 <= i < |s.log| && s.log[i].1.order == k ==> s.log[i].0 < n
    ensures Filter(Pending(s.log), HasOrder(k)) == OfOrder(o, jobs, k, n)
  {
    if n == 0 {
      NoneOfOrder(s.log, k);
    } else {
      var t := n - 1;
      assert FromThread(s.log, t) == AdmittedOf(o, jobs[t], |jobs[t]|);
      hide Inv, Finished, OwnOrders, Pending, FromThread, AdmittedOf, Filter;
      if Filter(FromThread(s.log, t), HasOrder(k)) != [] {
        AllOfThread(o, jobs, s, k, t);
        OrderOfThread(s.log, k, t);
      } else {
        NoneOfThread(s.log, k, t);
        OrderOf(o, jobs, s, k, n - 1);
      }
    }
  }

  lemma NoneOfOrder(log: seq<(nat, Diagnostic)>, k: nat)
    requires forall i :: 0 <= i < |log| ==> log[i].1.order != k
    ensures Filter(Pending(log), HasOrder(k)) == []
  {
    FilterNone(Pending(log), HasOrder(k));
  }

  /** One of an order from a thread: then all are. */
  lemma AllOfThread(o: Options, jobs: Jobs, s: Shared, k: nat, t: nat)
    requires Inv(o, jobs, s) && OwnOrders(jobs) && Filter(FromThread(s.log, t), HasOrder(k)) != []
    ensures forall i :: 0 <= i < |s.log| && s.log[i].1.order == k ==> s.log[i].0 == t
  {
    var d := Filter(FromThread(s.log, t), HasOrder(k))[0];
    FilterMember(FromThread(s.log, t), HasOrder(k), d);
    FromLog(s.log, t, d);
    hide Inv, OwnOrders, FromThread, Filter;
    var j :| 0 <= j < |s.log| && s.log[j] == (t, d);
    forall i | 0 <= i < |s.log| && s.log[i].1.order == k
      ensures s.log[i].0 == t
    {
      OrderOwned(o, jobs, s, i, j);
    }
  }

  lemma NoneOfThread(log: seq<(nat, Diagnostic)>, k: nat, t: nat)
    requires Filter(FromThread(log, t), HasOrder(k)) == []
    ensures forall i :: 0 <= i < |log| && log[i].1.order == k ==> log[i].0 != t
  {
    forall i | 0 <= i < |log| && log[i].1.order == k
      ensures log[i].0 != t
    {
      InThread(log, i);
      FilterMember(FromThread(log, t), HasOrder(k), log[i].1);
    }
  }

  lemma {:induction false} FromLog(log: seq<(nat, Diagnostic)>, t: nat, d: Diagnostic)
    requires d in FromThread(log, t)
    ensures exists j :: 0 <= j < |log| && log[j] == (t, d)
    decreases |log|
  {
    var (init, last) := (log[..|log| - 1], log[|log| - 1]);
    if d in FromThread(init, t) {
      FromLog(init, t, d);
      var j :| 0 <= j < |init| && init[j] == (t, d);
      assert log[j] == (t, d);
    } else {
      assert log[|log| - 1] == (t, d);
    }
  }

  /** If each order is emitted by one thread, every schedule renders the same text and counts the same errors. */
  lemma OwnOrdersIndependent(o: Options, jobs: Jobs, a: seq<Shared>, x: seq<Step>, b: seq<Shared>, y: seq<Step>)
    requires Run(o, jobs, a, x) && Run(o, jobs, b, y) && OwnOrders(jobs)
    requires Finished(jobs, a[|x|]) && Finished(jobs, b[|y|])
    ensures Rendered(o, Pending(a[|x|].log)) == Rendered(o, Pending(b[|y|].log))
    ensures a[|x|].errors == b[|y|].errors
  {
    RunKeeps(o, jobs, a, x, |x|);
    RunKeeps(o, jobs, b, y, |y|);
    forall k
      ensures Filter(Pending(a[|x|].log), HasOrder(k)) == Filter(Pending(b[|y|].log), HasOrder(k))
    {
      OrderOf(o, jobs, a[|x|], k, |jobs|);
      OrderOf(o, jobs, b[|y|], k, |jobs|);
    }
    ScheduleIndependent(o, jobs, a, x, b, y);
  }
}
