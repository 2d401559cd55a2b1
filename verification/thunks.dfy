/**
  The ARM64 thunk plan: for each input section whose branches need thunks,
  the sorted targets of the block placed after it.
 */
module ThunkPlan {
  import opened Bits
  import opened Results
  import opened Sorting

  const THUNK_SIZE: nat := 12

  /** The symbol record a branch refers to and the addend its immediate held. */
  datatype ThunkTarget = ThunkTarget(record: nat, addend: int)

  /** An input section: its file and its one-based number. */
  type Site = (nat, nat)

  type Blocks = map<Site, seq<ThunkTarget>>

  datatype Request = Request(site: Site, target: ThunkTarget)

  predicate Less(a: ThunkTarget, b: ThunkTarget)
  {
    a.record < b.record || (a.record == b.record && a.addend < b.addend)
  }

  predicate Increasing(block: seq<ThunkTarget>)
  {
    forall i, j :: 0 <= i < j < |block| ==> Less(block[i], block[j])
  }

  /** Blocks are never empty and always strictly sorted. */
  predicate Valid(blocks: Blocks)
  {
    forall site :: site in blocks ==> blocks[site] != [] && Increasing(blocks[site])
  }

  function Block(blocks: Blocks, site: Site): seq<ThunkTarget>
  {
    if site in blocks then blocks[site] else []
  }

  /** `Thunks::block_size`, saturating as the source does. */
  function BlockSize(blocks: Blocks, site: Site): nat
  {
    var size := |Block(blocks, site)| * THUNK_SIZE;
    if size > U32_MAX then U32_MAX else size
  }

  /** `slice::binary_search` on a sorted block. */
  method BinarySearch(block: seq<ThunkTarget>, target: ThunkTarget) returns (found: bool, at: nat)
    requires Increasing(block)
    ensures at <= |block| && (found ==> at < |block| && block[at] == target)
    ensures !found ==> target !in block
    ensures forall i :: 0 <= i < at ==> Less(block[i], target)
    ensures !found ==> forall i :: at <= i < |block| ==> Less(target, block[i])
  {
    var lo, hi := 0, |block|;
    while lo < hi
      invariant lo <= hi <= |block|
      invariant forall i :: 0 <= i < lo ==> Less(block[i], target)
      invariant forall i :: hi <= i < |block| ==> Less(target, block[i])
    {
      var mid := (lo + hi) / 2;
      if block[mid] == target {
        return true, mid;
      } else if Less(block[mid], target) {
        lo := mid + 1;
      } else {
        hi := mid;
      }
    }
    return false, lo;
  }

  /** The index of `target` in a block, if it is there. */
  function Position(block: seq<ThunkTarget>, target: ThunkTarget): (r: Option<nat>)
    ensures r.Some? ==> r.value < |block| && block[r.value] == target
    ensures r.None? ==> target !in block
    decreases |block|
  {
    if block == [] then None
    else if block[|block| - 1] == target then Some(|block| - 1)
    else Position(block[..|block| - 1], target)
  }

  /** `Thunks::index_of`: the index must also fit 32 bits. */
  function IndexOf(blocks: Blocks, site: Site, target: ThunkTarget): Option<nat>
  {
    var at := Position(Block(blocks, site), target);
    if at.Some? && at.value < U32 then at else None
  }

  /** In a sorted block the index is the number of smaller targets, so any search finds the same one. */
  lemma PositionUnique(block: seq<ThunkTarget>, i: nat)
    requires Increasing(block) && i < |block|
    ensures Position(block, block[i]) == Some(i)
  {
    var p := Position(block, block[i]);
    assert block[i] in block;
  }

  /** One request: the target goes in its place unless it is there already. */
  function AddOne(blocks: Blocks, request: Request): Blocks
  {
    var block := Block(blocks, request.site);
    if request.target in block then blocks
    else blocks[request.site := Inserted(block, request.target)]
  }

  function Inserted(block: seq<ThunkTarget>, target: ThunkTarget): (r: seq<ThunkTarget>)
    ensures forall t :: t in r <==> t == target || t in block
    decreases |block|
  {
    if block == [] || Less(target, block[0]) then [target] + block
    else
      assert block == [block[0]] + block[1..];
      [block[0]] + Inserted(block[1..], target)
  }

  lemma {:induction false} InsertedIncreasing(block: seq<ThunkTarget>, target: ThunkTarget)
    requires Increasing(block) && target !in block
    ensures Increasing(Inserted(block, target))
    decreases |block|
  {
    if !(block == [] || Less(target, block[0])) {
      var rest := Inserted(block[1..], target);
      InsertedIncreasing(block[1..], target);
      forall j | 0 <= j < |rest|
        ensures Less(block[0], rest[j])
      {
        assert rest[j] in rest;
        if rest[j] != target {
          var k :| 0 <= k < |block[1..]| && block[1..][k] == rest[j];
          assert Less(block[0], block[k + 1]);
        }
      }
    }
  }

  /** Inserting where a binary search says is the same. */
  lemma {:induction false} InsertedAt(block: seq<ThunkTarget>, target: ThunkTarget, at: nat)
    requires at <= |block|
    requires forall i :: 0 <= i < at ==> Less(block[i], target)
    requires forall i :: at <= i < |block| ==> Less(target, block[i])
    ensures Inserted(block, target) == block[..at] + [target] + block[at..]
    decreases |block|
  {
    if at > 0 {
      InsertedAt(block[1..], target, at - 1);
      assert block[..at] == [block[0]] + block[1..][..at - 1] && block[at..] == block[1..][at - 1..];
    }
  }

  function AddAll(blocks: Blocks, requests: seq<Request>): Blocks
    decreases |requests|
  {
    if requests == [] then blocks else AddOne(AddAll(blocks, requests[..|requests| - 1]), requests[|requests| - 1])
  }

  /** The plan of a link: one mutable object, as the driver holds it. */
  class Thunks {
    var blocks: Blocks

    constructor ()
      ensures blocks == map[]
    {
      blocks := map[];
    }

    /** `Thunks::add`. */
    method Add(requests: seq<Request>) returns (changed: bool)
      requires Valid(blocks)
      modifies this
      ensures blocks == AddAll(old(blocks), requests) && Valid(blocks)
      ensures changed <==> exists i :: 0 <= i < |requests| && requests[i].target !in Block(old(blocks), requests[i].site)
    {
      changed := false;
      ghost var before := blocks;
      for i := 0 to |requests|
        invariant Valid(blocks) && blocks == AddAll(before, requests[..i])
        invariant changed <==> exists k :: 0 <= k < i && requests[k].target !in Block(before, requests[k].site)
      {
        assert requests[..i + 1][..i] == requests[..i];
        var isNew := AddRequest(requests[i]);
        NewAfter(before, requests, i);
        changed := changed || isNew;
      }
      assert requests[..|requests|] == requests;
    }

    /** `Thunks::index_of`: a binary search of the block. */
    method Find(site: Site, target: ThunkTarget) returns (index: Option<nat>)
      requires Valid(blocks)
      ensures index == IndexOf(blocks, site, target)
    {
      if site !in blocks { return None; }
      var found, at := BinarySearch(blocks[site], target);
      if found { PositionUnique(blocks[site], at); }
      return if found && at < U32 then Some(at) else None;
    }

    method AddRequest(request: Request) returns (isNew: bool)
      requires Valid(blocks)
      modifies this
      ensures blocks == AddOne(old(blocks), request) && Valid(blocks)
      ensures isNew <==> request.target !in Block(old(blocks), request.site)
    {
      var block := Block(blocks, request.site);
      var found, at := BinarySearch(block, request.target);
      isNew := !found;
      if isNew {
        InsertedAt(block, request.target, at);
        InsertedIncreasing(block, request.target);
        var block' := block[..at] + [request.target] + block[at..];
        assert block' != [];
        blocks := blocks[request.site := block'];
      }
    }
  }

  /** Whether the first requests hold a new one, taking one more into account. */
  lemma NewAfter(before: Blocks, requests: seq<Request>, i: nat)
    requires i < |requests|
    ensures (exists k :: 0 <= k < i + 1 && requests[k].target !in Block(before, requests[k].site))
       <==> ((exists k :: 0 <= k < i && requests[k].target !in Block(before, requests[k].site))
             || requests[i].target !in Block(AddAll(before, requests[..i]), requests[i].site))
  {
    var r := requests[i];
    AddAllTargets(before, requests[..i], r.site, r.target);
    if r.target !in Block(before, r.site) && r.target in Block(AddAll(before, requests[..i]), r.site) {
      assert Request(r.site, r.target) == r;
      var k :| 0 <= k < i && requests[..i][k] == r;
      assert requests[k] == r;
    }
  }

  /** What a plan holds: exactly what it held and what was asked for. */
  lemma {:induction false} AddAllTargets(blocks: Blocks, requests: seq<Request>, site: Site, target: ThunkTarget)
    ensures target in Block(AddAll(blocks, requests), site)
       <==> (target in Block(blocks, site) || Request(site, target) in requests)
    decreases |requests|
  {
    if requests != [] {
      var front, last := requests[..|requests| - 1], requests[|requests| - 1];
      AddAllTargets(blocks, front, site, target);
      assert requests == front + [last];
      if last.site == site {
        AddAllTargets(blocks, front, site, last.target);
      }
    }
  }

  lemma {:induction false} AddAllValid(blocks: Blocks, requests: seq<Request>)
    requires Valid(blocks)
    ensures Valid(AddAll(blocks, requests))
    decreases |requests|
  {
    if requests != [] {
      var front, last := requests[..|requests| - 1], requests[|requests| - 1];
      AddAllValid(blocks, front);
      var block := Block(AddAll(blocks, front), last.site);
      if last.target !in block {
        InsertedIncreasing(block, last.target);
        assert last.target in Inserted(block, last.target);
      }
    }
  }

  function Smaller(): (ThunkTarget, ThunkTarget) -> bool
  {
    (a, b) => Less(a, b)
  }

  /** A strictly sorted block is determined by its targets. */
  lemma BlockUnique(a: seq<ThunkTarget>, b: seq<ThunkTarget>)
    requires Increasing(a) && Increasing(b)
    requires forall t :: t in a <==> t in b
    ensures a == b
  {
    assert Sorted(a, Smaller()) && Sorted(b, Smaller());
    StrictlySortedUnique(a, b, Smaller());
  }

  /** Two valid plans that hold the same targets are the same plan. */
  lemma PlanUnique(p: Blocks, q: Blocks)
    requires Valid(p) && Valid(q)
    requires forall site, target :: target in Block(p, site) <==> target in Block(q, site)
    ensures p == q
  {
    forall site | site in p || site in q
      ensures site in p && site in q && p[site] == q[site]
    {
      if site in p { assert p[site][0] in Block(p, site); }
      if site in q { assert q[site][0] in Block(q, site); }
      BlockUnique(p[site], q[site]);
    }
    assert p.Keys == q.Keys;
  }

  /**
    The plan depends on the set of requests alone: any order, repetition or
    split of them into batches gives the same one.
   */
  lemma OrderInsensitive(blocks: Blocks, first: seq<Request>, second: seq<Request>, all: seq<Request>)
    requires Valid(blocks)
    requires forall r :: r in all <==> r in first || r in second
    ensures AddAll(AddAll(blocks, first), second) == AddAll(blocks, all)
  {
    var one, two := AddAll(AddAll(blocks, first), second), AddAll(blocks, all);
    AddAllValid(blocks, first);
    AddAllValid(AddAll(blocks, first), second);
    AddAllValid(blocks, all);
    forall site, target
      ensures target in Block(one, site) <==> target in Block(two, site)
    {
      AddAllTargets(AddAll(blocks, first), second, site, target);
      AddAllTargets(blocks, first, site, target);
      AddAllTargets(blocks, all, site, target);
    }
    PlanUnique(one, two);
  }

  /** Blocks only grow: what a plan holds it keeps, and no block gets smaller. */
  lemma {:induction false} BlocksGrow(blocks: Blocks, requests: seq<Request>, site: Site)
    ensures |Block(blocks, site)| <= |Block(AddAll(blocks, requests), site)|
    ensures BlockSize(blocks, site) <= BlockSize(AddAll(blocks, requests), site)
    ensures forall t :: t in Block(blocks, site) ==> t in Block(AddAll(blocks, requests), site)
    decreases |requests|
  {
    if requests != [] {
      var front, last := requests[..|requests| - 1], requests[|requests| - 1];
      BlocksGrow(blocks, front, site);
      var block := Block(AddAll(blocks, front), last.site);
      InsertedLength(block, last.target);
    }
  }

  lemma {:induction false} InsertedLength(block: seq<ThunkTarget>, target: ThunkTarget)
    ensures |Inserted(block, target)| == |block| + 1
    decreases |block|
  {
    if !(block == [] || Less(target, block[0])) { InsertedLength(block[1..], target); }
  }

  /** `index_of` finds exactly the targets of the block, each at its own slot within the block. */
  lemma IndexAgrees(blocks: Blocks, site: Site, target: ThunkTarget)
    requires Valid(blocks) && BlockSize(blocks, site) < U32_MAX
    ensures IndexOf(blocks, site, target).Some? <==> target in Block(blocks, site)
    ensures IndexOf(blocks, site, target).Some? ==>
      var i := IndexOf(blocks, site, target).value;
      i < |Block(blocks, site)| && Block(blocks, site)[i] == target && (i + 1) * THUNK_SIZE <= BlockSize(blocks, site)
    ensures BlockSize(blocks, site) == |Block(blocks, site)| * THUNK_SIZE
  {
  }
}
