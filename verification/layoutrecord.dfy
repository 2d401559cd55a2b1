/** Where the input sections and the thunk blocks of a laid-out image ended up. */
module LayoutRecord {
  import opened Bits
  import opened Results
  import opened Sorting
  import opened ThunkPlan
  import opened LayoutModel
  import opened LayoutBuild
  import opened LayoutFinish

  // ---- Chunks and the inputs they hold ----

  /** No input section is listed twice. */
  predicate SitesDistinct(list: seq<(nat, nat, nat)>)
  {
    forall i, j :: 0 <= i < j < |list| ==> (list[i].1, list[i].2) != (list[j].1, list[j].2)
  }

  lemma InputsNext(chunks: seq<Chunk>, k: nat)
    requires k < |chunks|
    ensures Inputs(chunks[..k + 1]) == Inputs(chunks[..k]) + Placement(chunks[k])
  {
    assert chunks[..k + 1] == chunks[..k] + [chunks[k]];
    InputsPush(chunks[..k], chunks[k]);
  }

  /** The inputs of a prefix are a prefix of the inputs. */
  lemma {:induction false} InputsPrefix(chunks: seq<Chunk>, k: nat, n: nat)
    requires k <= n <= |chunks|
    ensures Inputs(chunks[..k]) <= Inputs(chunks[..n])
    decreases n
  {
    if k < n {
      InputsPrefix(chunks, k, n - 1);
      InputsNext(chunks, n - 1);
    }
  }

  lemma InputAt(chunks: seq<Chunk>, c: nat)
    requires c < |chunks| && chunks[c].piece.InputPiece?
    ensures var k := |Inputs(chunks[..c])|;
      && k < |Inputs(chunks)|
      && Inputs(chunks)[k] == (chunks[c].step, chunks[c].piece.file, chunks[c].piece.section)
  {
    InputsNext(chunks, c);
    InputsPrefix(chunks, c + 1, |chunks|);
    assert chunks[..|chunks|] == chunks;
  }

  /** One chunk per input section. */
  lemma {:induction false} UniqueChunk(chunks: seq<Chunk>, c: nat, d: nat)
    requires SitesDistinct(Inputs(chunks)) && c < d < |chunks|
    requires chunks[c].piece.InputPiece? && chunks[d].piece.InputPiece?
    ensures chunks[c].piece != chunks[d].piece
  {
    InputAt(chunks, c);
    InputAt(chunks, d);
    InputsNext(chunks, c);
    InputsPrefix(chunks, c + 1, d);
    var (i, j) := (|Inputs(chunks[..c])|, |Inputs(chunks[..d])|);
    hide Inputs;
    assert i < j;
  }

  lemma {:induction false} InputsHave(chunks: seq<Chunk>, x: (nat, nat, nat)) returns (c: nat)
    requires x in Inputs(chunks)
    ensures c < |chunks| && chunks[c].piece == InputPiece(x.1, x.2) && chunks[c].step == x.0
    decreases |chunks|
  {
    var last := |chunks| - 1;
    InputsNext(chunks, last);
    assert chunks[..last + 1] == chunks;
    if x in Inputs(chunks[..last]) {
      c := InputsHave(chunks[..last], x);
    } else {
      c := last;
    }
  }

  lemma PlacementsDistinct(list: seq<Placed>)
    requires NoDuplicates(list)
    requires forall p, q :: p in list && q in list && p.file == q.file && p.section == q.section ==> p == q
    ensures SitesDistinct(Placements(list))
  {
    var places := Placements(list);
    forall i, j | 0 <= i < j < |places|
      ensures (places[i].1, places[i].2) != (places[j].1, places[j].2)
    {
      assert list[i] in list && list[j] in list;
    }
  }

  lemma ContributionsDistinct(recipe: seq<Step>, files: seq<InFile>, name: string)
    ensures SitesDistinct(Placements(Contributions(recipe, files, name)))
  {
    ContributionsAre(recipe, files, name);
    var list := Contributions(recipe, files, name);
    forall p, q | p in list && q in list && p.file == q.file && p.section == q.section
      ensures p == q
    {
    }
    PlacementsDistinct(list);
  }

  // ---- Looking a section up ----

  /** The first chunk from `k` on that holds the section. */
  function FirstChunk(chunks: seq<Chunk>, k: nat, file: nat, section: nat): (r: nat)
    requires k <= |chunks|
    ensures k <= r <= |chunks| && (r < |chunks| ==> chunks[r].piece == InputPiece(file, section))
    ensures forall c :: k <= c < r ==> chunks[c].piece != InputPiece(file, section)
    decreases |chunks| - k
  {
    if k == |chunks| || chunks[k].piece == InputPiece(file, section) then k else FirstChunk(chunks, k + 1, file, section)
  }

  /** The offset recorded for an input section of an output section. */
  function OffsetOf(chunks: seq<Chunk>, file: nat, section: nat): nat
  {
    var c := FirstChunk(chunks, 0, file, section);
    if c < |chunks| then chunks[c].offset else 0
  }

  method FindOffset(chunks: seq<Chunk>, file: nat, section: nat) returns (offset: nat)
    ensures offset == OffsetOf(chunks, file, section)
  {
    var c := 0;
    while c < |chunks|
      invariant c <= |chunks|
      invariant FirstChunk(chunks, 0, file, section) == FirstChunk(chunks, c, file, section)
    {
      if chunks[c].piece == InputPiece(file, section) { return chunks[c].offset; }
      c := c + 1;
    }
    return 0;
  }

  function RvaOf(sections: seq<OutSection>, slot: Option<nat>, file: nat, section: nat): nat
  {
    if slot.Some? && slot.value < |sections|
    then (sections[slot.value].rva + OffsetOf(sections[slot.value].chunks, file, section)) % U32 else 0
  }

  predicate RvasOf(sections: seq<OutSection>, outputs: seq<seq<Option<nat>>>, rvas: seq<seq<nat>>)
  {
    && |rvas| == |outputs|
    && forall f :: 0 <= f < |outputs| ==> |rvas[f]| == |outputs[f]| && forall s :: 0 <= s < |outputs[f]| ==>
         rvas[f][s] == RvaOf(sections, outputs[f][s], f, s + 1)
  }

  /** The address of every input section; zero for those that are nowhere. */
  method RecordInputs(sections: seq<OutSection>, outputs: seq<seq<Option<nat>>>) returns (rvas: seq<seq<nat>>)
    ensures RvasOf(sections, outputs, rvas)
  {
    rvas := [];
    hide OffsetOf;
    for f := 0 to |outputs|
      invariant RvasOf(sections, outputs[..f], rvas)
    {
      var file: seq<nat> := seq(|outputs[f]|, _ => 0);
      for s := 0 to |outputs[f]|
        invariant |file| == |outputs[f]|
        invariant forall k :: 0 <= k < s ==> file[k] == RvaOf(sections, outputs[f][k], f, k + 1)
        invariant forall k :: s <= k < |file| ==> file[k] == 0
      {
        var slot := outputs[f][s];
        if slot.Some? && slot.value < |sections| {
          var section := sections[slot.value];
          var offset := FindOffset(section.chunks, f, s + 1);
          file := file[s := (section.rva + offset) % U32];
        }
      }
      rvas := rvas + [file];
    }
    assert outputs[..|outputs|] == outputs;
  }

  // ---- Thunk blocks ----

  /** Chunk `c` of section `i` is the thunk block of a site. */
  predicate BlockAt(sections: seq<OutSection>, i: nat, c: nat, site: Site)
  {
    i < |sections| && c < |sections[i].chunks| && sections[i].chunks[c].piece == ThunkPiece(site.0, site.1)
  }

  ghost predicate BlocksUnique(sections: seq<OutSection>)
  {
    forall i: nat, c: nat, j: nat, d: nat, site: Site {:trigger BlockAt(sections, i, c, site), BlockAt(sections, j, d, site)} ::
      BlockAt(sections, i, c, site) && BlockAt(sections, j, d, site) ==> i == j && c == d
  }

  function BlockRva(sections: seq<OutSection>, i: nat, c: nat): nat
    requires i < |sections| && c < |sections[i].chunks|
  {
    (sections[i].rva + sections[i].chunks[c].offset) % U32
  }

  /** The recorded blocks are those of the first `n` sections and the first `k` chunks of the next. */
  ghost predicate BlocksRecorded(sections: seq<OutSection>, n: nat, k: nat, rvas: map<Site, nat>)
  {
    && (forall i: nat, c: nat, site: Site {:trigger BlockAt(sections, i, c, site)} ::
          BlockAt(sections, i, c, site) && (i < n || (i == n && c < k)) ==> site in rvas && rvas[site] == BlockRva(sections, i, c))
    && (forall site :: site in rvas ==> exists i: nat, c: nat :: BlockAt(sections, i, c, site))
  }

  ghost predicate AllBlocksRecorded(sections: seq<OutSection>, rvas: map<Site, nat>)
  {
    BlocksRecorded(sections, |sections|, 0, rvas)
  }

  method RecordThunks(sections: seq<OutSection>) returns (rvas: map<Site, nat>)
    requires BlocksUnique(sections)
    ensures AllBlocksRecorded(sections, rvas)
  {
    rvas := map[];
    for i := 0 to |sections|
      invariant BlocksRecorded(sections, i, 0, rvas)
    {
      var section := sections[i];
      for c := 0 to |section.chunks|
        invariant BlocksRecorded(sections, i, c, rvas)
      {
        if section.chunks[c].piece.ThunkPiece? {
          var site := (section.chunks[c].piece.file, section.chunks[c].piece.section);
          assert BlockAt(sections, i, c, site);
          rvas := rvas[site := (section.rva + section.chunks[c].offset) % U32];
        }
      }
    }
  }
}
