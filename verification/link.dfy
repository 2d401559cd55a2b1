/** The driver's loop: lay out, relocate, lay out again until nothing changes. */
module Link {
  import opened Bits
  import opened Results
  import opened ThunkPlan
  import opened LayoutModel
  import opened LayoutAddress
  import opened LayoutBuild
  import opened LayoutPlace
  import opened LayoutAssign
  import opened LayoutFinish
  import opened LayoutPlan
  import opened LayoutTheorems
  import opened LayoutReserved
  import opened Branches

  const MAX_LAYOUT_PASSES: nat := 12

  /**
    What a link is given: the recipe, the inputs, the ARM64 branches among the
    relocations, the values symbols have under a layout, and the sizes the
    encoded base relocations and pseudo-relocations have under a layout.
    `base` holds everything of a layout's input but what the loop decides.
   */
  datatype World = World(
    recipe: seq<Step>,
    trailing: seq<string>,
    base: Input,
    exportSize: nat,
    emitRelocs: bool,
    branches: seq<Branch>,
    symbols: Symbols,
    relocBytes: Layout -> nat,
    pseudoBytes: Layout -> nat)

  datatype LinkError = DoesNotFit(limit: Limit) | NotConverged

  /** A length as 32 bits, saturating. */
  function Length32(n: nat): nat
  {
    if n > U32_MAX then U32_MAX else n
  }

  /** The sizes relocating a layout comes to. */
  function WantedRelocs(w: World, l: Layout): nat
  {
    Length32(if w.emitRelocs then w.relocBytes(l) else 0)
  }

  function WantedPseudo(w: World, l: Layout): nat
  {
    Length32(w.pseudoBytes(l))
  }

  /** The layout's input for given sizes and thunks. */
  function InputFor(w: World, relocs: nat, pseudo: nat, blocks: Blocks): Input
  {
    var exports := if w.exportSize > 0 then [Synthetic(".edata", w.exportSize, 4)] else [];
    var bases := if w.emitRelocs && relocs > 0 then [Synthetic(".reloc", relocs, 4)] else [];
    w.base.(synthetic := exports + bases, pseudoSize := pseudo, blocks := blocks)
  }

  /** The recipe and the trailing sections are few enough to number, and every branch is one the linker may see. */
  ghost predicate ValidWorld(w: World)
  {
    && |w.recipe| < NO_STEP && |w.trailing| < NO_STEP - RANK_TRAILING
    && forall b :: b in w.branches ==> ValidBranch(b, w.base.files)
  }

  /** An accepted layout of the link's recipe. */
  ghost predicate LaidFor(w: World, l: Layout, input: Input)
  {
    Accepted(l, w.recipe, w.trailing, input)
  }

  /** What the branches ask for, in order. */
  function RequestsOf(l: Layout, symbols: Symbols, branches: seq<Branch>): seq<Request>
    decreases |branches|
  {
    if branches == [] then []
    else
      RequestsOf(l, symbols, branches[..|branches| - 1])
      + (match Apply(l, symbols, branches[|branches| - 1]) case Asked(request) => [request] case _ => [])
  }

  function Requests(w: World, l: Layout): seq<Request>
  {
    RequestsOf(l, w.symbols, w.branches)
  }

  /** Relocates the branches, collecting the thunks they ask for. */
  method Relocate(w: World, l: Layout) returns (requests: seq<Request>)
    ensures requests == Requests(w, l)
  {
    requests := [];
    hide Apply;
    for k := 0 to |w.branches|
      invariant requests == RequestsOf(l, w.symbols, w.branches[..k])
    {
      assert w.branches[..k + 1][..k] == w.branches[..k];
      var outcome := Apply(l, w.symbols, w.branches[k]);
      if outcome.Asked? { requests := requests + [outcome.request]; }
    }
    assert w.branches[..|w.branches|] == w.branches;
  }

  /** A request is one that a branch makes, and every one that a branch makes. */
  lemma {:induction false} RequestsAre(l: Layout, symbols: Symbols, branches: seq<Branch>, r: Request)
    ensures r in RequestsOf(l, symbols, branches) <==> exists b :: b in branches && Apply(l, symbols, b) == Asked(r)
    decreases |branches|
  {
    hide Apply;
    if branches != [] {
      var (init, last) := (branches[..|branches| - 1], branches[|branches| - 1]);
      RequestsAre(l, symbols, init, r);
      assert branches == init + [last];
    }
  }

  /** Every block of the first plan is in the second, no smaller. */
  ghost predicate Grown(a: Blocks, b: Blocks)
  {
    forall site, t :: t in Block(a, site) ==> t in Block(b, site)
  }

  ghost predicate NoneAsks(w: World, l: Layout)
  {
    forall b :: b in w.branches ==> !Apply(l, w.symbols, b).Asked?
  }

  /**
    A layout the image may be written from: accepted, with exactly the sizes
    that relocating this same layout comes to, and no branch asking for a thunk.
   */
  ghost predicate Settled(w: World, l: Layout)
  {
    LaidFor(w, l, InputFor(w, WantedRelocs(w, l), WantedPseudo(w, l), l.thunks)) && Valid(l.thunks) && NoneAsks(w, l)
  }

  predicate AnyWanted(blocks: Blocks, requests: seq<Request>)
  {
    exists i :: 0 <= i < |requests| && requests[i].target !in Block(blocks, requests[i].site)
  }

  /** A branch asks only for what is not planned; so if all that is asked for is planned, nothing is. */
  lemma NoneAsked(w: World, l: Layout, input: Input)
    requires ValidWorld(w) && input.files == w.base.files && Valid(l.thunks) && !AnyWanted(l.thunks, Requests(w, l))
    requires LaidFor(w, l, input)
    ensures NoneAsks(w, l)
  {
    hide LaidFor, Accepted, Apply, Valid, ValidBranch;
    forall b | b in w.branches
      ensures !Apply(l, w.symbols, b).Asked?
    {
      AskedOnce(w, l, input, b);
      if Apply(l, w.symbols, b).Asked? {
        AskedWanted(w, l, b, Apply(l, w.symbols, b).request);
        assert false;
      }
    }
  }

  lemma AskedWanted(w: World, l: Layout, b: Branch, r: Request)
    requires b in w.branches && Apply(l, w.symbols, b) == Asked(r) && r.target !in Block(l.thunks, r.site)
    ensures AnyWanted(l.thunks, Requests(w, l))
  {
    RequestsAre(l, w.symbols, w.branches, r);
    hide Apply, RequestsOf;
    var i :| 0 <= i < |Requests(w, l)| && Requests(w, l)[i] == r;
  }

  lemma AskedOnce(w: World, l: Layout, input: Input, b: Branch)
    requires ValidBranch(b, input.files) && Valid(l.thunks) && LaidFor(w, l, input)
    ensures match Apply(l, w.symbols, b)
      case Asked(r) => r.target !in Block(l.thunks, r.site)
      case _ => true
  {
    hide Apply, Accepted;
    var index := BranchComesTo(l, w.recipe, w.trailing, input, w.symbols, b);
  }

  /** The sections of such a layout do not fit 32 bits. */
  ghost predicate TooBigFor(w: World, relocs: nat, pseudo: nat, blocks: Blocks)
  {
    exists given :: TooBig(given, w.recipe, w.trailing, InputFor(w, relocs, pseudo, blocks))
  }

  /** A layout for the sizes and the plan, or none that fits. */
  ghost predicate OnceRight(w: World, relocs: nat, pseudo: nat, blocks: Blocks, r: Result<Layout, Limit>)
  {
    match r
    case Ok(l) => LaidFor(w, l, InputFor(w, relocs, pseudo, blocks)) && l.thunks == blocks
    case Err(_) => TooBigFor(w, relocs, pseudo, blocks)
  }

  /** One layout of the loop. */
  method LayOutOnce(w: World, relocs: nat, pseudo: nat, blocks: Blocks) returns (r: Result<Layout, Limit>)
    requires |w.recipe| < NO_STEP && |w.trailing| < NO_STEP - RANK_TRAILING
    ensures OnceRight(w, relocs, pseudo, blocks, r)
  {
    hide *;
    var input := InputFor(w, relocs, pseudo, blocks);
    r := LayOut(w.recipe, w.trailing, input);
    OnceIs(w, relocs, pseudo, blocks, r);
  }

  lemma OnceIs(w: World, relocs: nat, pseudo: nat, blocks: Blocks, r: Result<Layout, Limit>)
    requires LaidOut(r, w.recipe, w.trailing, InputFor(w, relocs, pseudo, blocks))
    ensures OnceRight(w, relocs, pseudo, blocks, r)
  {
    hide Accepted, TooBig;
    if r.Ok? { RecordsKept(r.value, w.recipe, w.trailing, InputFor(w, relocs, pseudo, blocks)); }
  }

  /** What one pass of the loop found. */
  datatype Pass = Pass(layout: Layout, relocs: nat, pseudo: nat, changed: bool)

  /** A pass from given sizes and a plan: its layout, what that layout needs, and whether anything differs. */
  ghost predicate PassRight(w: World, relocs: nat, pseudo: nat, blocks: Blocks, p: Pass)
  {
    && LaidFor(w, p.layout, InputFor(w, relocs, pseudo, blocks)) && p.layout.thunks == blocks
    && p.relocs == WantedRelocs(w, p.layout) && p.pseudo == WantedPseudo(w, p.layout)
    && (p.changed <==> (w.emitRelocs && p.relocs != relocs) || p.pseudo != pseudo || AnyWanted(blocks, Requests(w, p.layout)))
  }

  /** What a pass leaves: the plan with what was asked for; and a settled layout if nothing changed. */
  ghost predicate PassLeaves(w: World, relocs: nat, pseudo: nat, before: Blocks, after: Blocks, r: Result<Pass, Limit>)
  {
    match r
    case Ok(p) =>
      && PassRight(w, relocs, pseudo, before, p) && after == AddAll(before, Requests(w, p.layout))
      && (!p.changed ==> Settled(w, p.layout))
    case Err(_) => after == before && TooBigFor(w, relocs, pseudo, before)
  }

  /** One pass: lay out, relocate, plan the thunks asked for. */
  method OnePass(w: World, relocs: nat, pseudo: nat, thunks: Thunks) returns (r: Result<Pass, Limit>)
    requires ValidWorld(w) && Valid(thunks.blocks)
    modifies thunks
    ensures Valid(thunks.blocks) && PassLeaves(w, relocs, pseudo, old(thunks.blocks), thunks.blocks, r)
  {
    SmallWorld(w);
    hide *;
    ghost var blocks := thunks.blocks;
    var plan := LayOutOnce(w, relocs, pseudo, thunks.blocks);
    if plan.Err? {
      return Err(plan.error);
    }
    var l := plan.value;
    var requests := Relocate(w, l);
    var wanted, wantedPseudo := WantedRelocs(w, l), WantedPseudo(w, l);
    var moreThunks := thunks.Add(requests);
    var changed := (w.emitRelocs && wanted != relocs) || wantedPseudo != pseudo || moreThunks;
    PassIs(w, relocs, pseudo, blocks, Pass(l, wanted, wantedPseudo, changed), thunks.blocks);
    return Ok(Pass(l, wanted, wantedPseudo, changed));
  }

  lemma SmallWorld(w: World)
    requires ValidWorld(w)
    ensures |w.recipe| < NO_STEP && |w.trailing| < NO_STEP - RANK_TRAILING
  {
  }

  lemma PassIs(w: World, relocs: nat, pseudo: nat, blocks: Blocks, p: Pass, after: Blocks)
    requires ValidWorld(w) && Valid(blocks) && after == AddAll(blocks, Requests(w, p.layout))
    requires p.relocs == WantedRelocs(w, p.layout) && p.pseudo == WantedPseudo(w, p.layout)
    requires p.changed <==> (w.emitRelocs && p.relocs != relocs) || p.pseudo != pseudo || AnyWanted(blocks, Requests(w, p.layout))
    requires OnceRight(w, relocs, pseudo, blocks, Ok(p.layout))
    ensures PassLeaves(w, relocs, pseudo, blocks, after, Ok(p))
  {
    hide LaidFor, InputFor, WantedRelocs, WantedPseudo, AnyWanted, Requests, Settled, Valid, ValidWorld;
    if !p.changed { NothingNew(w, p.layout, relocs, pseudo); }
  }

  /** Nothing changed: then nothing was asked for at all, not even a thunk already planned. */
  lemma NothingNew(w: World, l: Layout, relocs: nat, pseudo: nat)
    requires ValidWorld(w) && Valid(l.thunks) && !AnyWanted(l.thunks, Requests(w, l))
    requires !(w.emitRelocs && WantedRelocs(w, l) != relocs) && WantedPseudo(w, l) == pseudo
    requires LaidFor(w, l, InputFor(w, relocs, pseudo, l.thunks))
    ensures Settled(w, l)
  {
    assert InputFor(w, WantedRelocs(w, l), pseudo, l.thunks) == InputFor(w, relocs, pseudo, l.thunks);
    assert InputFor(w, relocs, pseudo, l.thunks).files == w.base.files;
    hide LaidFor, Requests, InputFor, Valid, NoneAsks, ValidWorld, AnyWanted, WantedRelocs, WantedPseudo;
    NoneAsked(w, l, InputFor(w, relocs, pseudo, l.thunks));
  }

  // ---- The passes of a link ----

  /** The sizes and the plan that passes leave for the next: nothing at first. */
  function RelocsAfter(passes: seq<Pass>): nat
  {
    if passes == [] then 0 else passes[|passes| - 1].relocs
  }

  function PseudoAfter(passes: seq<Pass>): nat
  {
    if passes == [] then 0 else passes[|passes| - 1].pseudo
  }

  function PlanAfter(w: World, passes: seq<Pass>): Blocks
    decreases |passes|
  {
    if passes == [] then map[]
    else AddAll(PlanAfter(w, passes[..|passes| - 1]), Requests(w, passes[|passes| - 1].layout))
  }

  /** The last pass, if any, changed something. */
  predicate Going(passes: seq<Pass>)
  {
    passes == [] || passes[|passes| - 1].changed
  }

  /** The passes of a link: each from what the ones before left, and each but the last with a change. */
  ghost predicate Passes(w: World, passes: seq<Pass>)
    decreases |passes|
  {
    passes == [] ||
      var (init, last) := (passes[..|passes| - 1], passes[|passes| - 1]);
      Passes(w, init) && Going(init) && PassRight(w, RelocsAfter(init), PseudoAfter(init), PlanAfter(w, init), last)
  }

  lemma PassesNext(w: World, passes: seq<Pass>, p: Pass)
    ensures Passes(w, passes + [p]) <==>
      Passes(w, passes) && Going(passes) && PassRight(w, RelocsAfter(passes), PseudoAfter(passes), PlanAfter(w, passes), p)
    ensures RelocsAfter(passes + [p]) == p.relocs && PseudoAfter(passes + [p]) == p.pseudo && (Going(passes + [p]) <==> p.changed)
    ensures PlanAfter(w, passes + [p]) == AddAll(PlanAfter(w, passes), Requests(w, p.layout))
  {
    assert (passes + [p])[..|passes|] == passes;
    hide PassRight, AddAll, Requests;
  }

  /** The plan only grows from pass to pass. */
  lemma {:induction false} PlansGrow(w: World, earlier: seq<Pass>, later: seq<Pass>)
    requires earlier <= later
    ensures Grown(PlanAfter(w, earlier), PlanAfter(w, later))
    decreases |later|
  {
    hide AddAll, Requests;
    if |earlier| == |later| {
      assert earlier == later;
    } else {
      var last := |later| - 1;
      PlansGrow(w, earlier, later[..last]);
      GrowsBy(PlanAfter(w, later[..last]), Requests(w, later[last].layout));
    }
  }

  lemma GrowsBy(blocks: Blocks, requests: seq<Request>)
    ensures Grown(blocks, AddAll(blocks, requests))
  {
    forall site, t | t in Block(blocks, site)
      ensures t in Block(AddAll(blocks, requests), site)
    {
      AddAllTargets(blocks, requests, site, t);
    }
  }

  /** Some branch asked for the thunk under the layout of some pass. */
  ghost predicate WasAsked(w: World, passes: seq<Pass>, r: Request)
  {
    exists p, b :: p in passes && b in w.branches && Apply(p.layout, w.symbols, b) == Asked(r)
  }

  /** Every thunk planned was asked for by a branch under the layout of an earlier pass, and every one asked for is planned. */
  lemma {:induction false} PlannedWasAsked(w: World, passes: seq<Pass>, site: Site, target: ThunkTarget)
    ensures target in Block(PlanAfter(w, passes), site) <==> WasAsked(w, passes, Request(site, target))
    decreases |passes|
  {
    hide AddAll, Requests, Apply;
    if passes == [] {
      assert PlanAfter(w, passes) == map[] && !WasAsked(w, passes, Request(site, target));
    } else {
      hide WasAsked;
      var (init, last) := (passes[..|passes| - 1], passes[|passes| - 1]);
      assert passes == init + [last];
      PlannedWasAsked(w, init, site, target);
      AddAllTargets(PlanAfter(w, init), Requests(w, last.layout), site, target);
      AskedLast(w, init, last, Request(site, target));
      assert PlanAfter(w, passes) == AddAll(PlanAfter(w, init), Requests(w, last.layout));
    }
  }

  lemma AskedLast(w: World, init: seq<Pass>, last: Pass, r: Request)
    ensures WasAsked(w, init + [last], r) <==> WasAsked(w, init, r) || r in Requests(w, last.layout)
  {
    RequestsAre(last.layout, w.symbols, w.branches, r);
    hide Apply, RequestsOf;
    if r in Requests(w, last.layout) {
      var b :| b in w.branches && Apply(last.layout, w.symbols, b) == Asked(r);
      assert last in init + [last];
    }
  }

  /**
    How a link ends: with a pass that changed nothing, whose layout is settled;
    with a layout that does not fit; or when thirteen passes all changed something.
   */
  ghost predicate Ends(w: World, r: Result<Layout, LinkError>, passes: seq<Pass>)
  {
    && Passes(w, passes) && |passes| <= 13
    && match r
       case Ok(l) => LastIs(passes, l) && Settled(w, l)
       case Err(NotConverged) => |passes| == 13 && Going(passes)
       case Err(DoesNotFit(_)) => Going(passes) && TooBigFor(w, RelocsAfter(passes), PseudoAfter(passes), PlanAfter(w, passes))
  }

  predicate LastIs(passes: seq<Pass>, l: Layout)
  {
    passes != [] && passes[|passes| - 1].layout == l && !passes[|passes| - 1].changed
  }

  /** The loop before its next pass. */
  ghost predicate Looping(w: World, passes: seq<Pass>, relocs: nat, pseudo: nat, blocks: Blocks)
  {
    && Valid(blocks) && Passes(w, passes) && Going(passes)
    && relocs == RelocsAfter(passes) && pseudo == PseudoAfter(passes) && blocks == PlanAfter(w, passes)
  }

  lemma LoopNext(w: World, passes: seq<Pass>, relocs: nat, pseudo: nat, before: Blocks, after: Blocks, p: Pass)
    requires |passes| <= MAX_LAYOUT_PASSES && Valid(after)
    requires Looping(w, passes, relocs, pseudo, before) && PassLeaves(w, relocs, pseudo, before, after, Ok(p))
    ensures if !p.changed then Ends(w, Ok(p.layout), passes + [p])
            else Looping(w, passes + [p], p.relocs, p.pseudo, after)
                 && (|passes| == MAX_LAYOUT_PASSES ==> Ends(w, Err(NotConverged), passes + [p]))
  {
    PassesNext(w, passes, p);
    hide Passes, Going, PassRight, Settled, Valid, AddAll, Requests, PlanAfter, RelocsAfter, PseudoAfter;
  }

  /** The loop of `link_once`. */
  method LinkOnce(w: World) returns (r: Result<Layout, LinkError>, ghost passes: seq<Pass>)
    requires ValidWorld(w)
    ensures match r
      case Ok(l) => Settled(w, l)
      case Err(_) => true
    ensures Ends(w, r, passes)
  {
    var relocSize, pseudoSize, attempt := 0, 0, 0;
    var thunks := new Thunks();
    passes := [];
    hide *;
    while true
      invariant Looping(w, passes, relocSize, pseudoSize, thunks.blocks) && attempt == |passes| <= MAX_LAYOUT_PASSES
      decreases MAX_LAYOUT_PASSES - attempt
    {
      ghost var blocks := thunks.blocks;
      var pass := OnePass(w, relocSize, pseudoSize, thunks);
      if pass.Err? {
        return Err(DoesNotFit(pass.error)), passes;
      }
      LoopNext(w, passes, relocSize, pseudoSize, blocks, thunks.blocks, pass.value);
      attempt := attempt + 1;
      if !pass.value.changed {
        return Ok(pass.value.layout), passes + [pass.value];
      }
      if attempt > MAX_LAYOUT_PASSES {
        return Err(NotConverged), passes + [pass.value];
      }
      passes := passes + [pass.value];
      relocSize, pseudoSize := pass.value.relocs, pass.value.pseudo;
    }
  }

  /** It asks for nothing more. */
  ghost predicate Served(l: Layout, symbols: Symbols, b: Branch, index: nat)
  {
    !Apply(l, symbols, b).Asked? && ComesTo(l, symbols, b, Apply(l, symbols, b), index)
  }

  /**
    Every branch of a settled layout with its goal in reach goes to it, its
    symbol plus its addend. Every other has a thunk planned for it, and goes
    through that to the low 32 bits of its goal if the thunk is in reach; only
    a branch out of reach of both was reported too far.
   */
  lemma SettledBranches(w: World, l: Layout, b: Branch) returns (index: nat)
    requires b in w.branches && ValidWorld(w) && Settled(w, l)
    ensures Served(l, w.symbols, b, index)
  {
    var input := InputFor(w, WantedRelocs(w, l), WantedPseudo(w, l), l.thunks);
    assert ValidBranch(b, input.files) && !Apply(l, w.symbols, b).Asked?;
    hide Accepted, Apply, InputFor, Valid, ComesTo, ValidBranch;
    index := BranchComesTo(l, w.recipe, w.trailing, input, w.symbols, b);
  }

  // ---- The sizes of a settled layout ----

  lemma SizesNone(name: string)
    ensures Sizes([], 0, name) == []
  {
  }

  lemma SizesOne(s: Synthetic, other: string)
    ensures Sizes([s], 1, other) == if s.name == other then [s.size] else []
  {
    assert Sizes([s], 0, other) == [];
  }

  lemma SizesTwo(s: Synthetic, t: Synthetic, other: string)
    ensures Sizes([s, t], 2, other) == (if s.name == other then [s.size] else []) + (if t.name == other then [t.size] else [])
  {
    assert Sizes([s, t], 0, other) == [];
    assert Sizes([s, t], 1, other) == if s.name == other then [s.size] else [];
  }

  /** Of two generated sections with different names, each present if it has a size, each asks for its own. */
  lemma TwoAsk(input: Input, s: Synthetic, t: Synthetic)
    requires s.name != t.name
    requires input.synthetic == (if s.size > 0 then [s] else []) + (if t.size > 0 then [t] else [])
    ensures Asks(input, s.name, s.size) && Asks(input, t.name, t.size)
  {
    SizesNone(s.name);
    SizesNone(t.name);
    SizesOne(s, s.name);
    SizesOne(s, t.name);
    SizesOne(t, s.name);
    SizesOne(t, t.name);
    SizesTwo(s, t, s.name);
    SizesTwo(s, t, t.name);
    hide Sizes;
    var n := |input.synthetic|;
    if s.size > 0 {
      assert input.synthetic[0].name == s.name;
      if t.size > 0 { assert input.synthetic == [s, t]; } else { assert input.synthetic == [s]; }
    } else if t.size > 0 {
      assert input.synthetic == [t];
    } else {
      assert input.synthetic == [];
    }
    if t.size > 0 { assert input.synthetic[n - 1].name == t.name; }
  }

  /** Two generated sections at most, each with its own size. */
  lemma GeneratedAsk(w: World, relocs: nat, pseudo: nat, blocks: Blocks)
    ensures var input := InputFor(w, relocs, pseudo, blocks);
      Asks(input, ".edata", w.exportSize) && Asks(input, ".reloc", if w.emitRelocs then relocs else 0)
  {
    var (a, b) := (".edata", ".reloc");
    assert a != b by { assert a[1] != b[1]; }
    hide Asks;
    TwoAsk(InputFor(w, relocs, pseudo, blocks), Synthetic(a, w.exportSize, 4), Synthetic(b, if w.emitRelocs then relocs else 0, 4));
  }

  lemma GeneratedNames()
    ensures ".edata" != ".bss" && ".reloc" != ".bss"
  {
    assert ".edata"[1] != ".bss"[1] && ".reloc"[1] != ".bss"[1];
  }

  /** Some step of the recipe reserves the pseudo-relocations in that output. */
  predicate PseudoStep(recipe: seq<Step>, t: nat, output: string)
  {
    t < |recipe| && recipe[t] == Insert(output, PseudoStart)
  }

  /**
    A settled layout has room for exactly what relocating it gives: after the
    contents of `.reloc` one zero chunk of as many bytes as its base
    relocations take, after those of `.edata` one of the size of the export
    table, at the step of the pseudo-relocations one of their size; and none
    where there is nothing to hold.
   */
  lemma SettledSizes(w: World, l: Layout)
    requires |w.recipe| < NO_STEP && Settled(w, l)
    ensures Reserves(l, ".reloc", NO_STEP, if w.emitRelocs then w.relocBytes(l) else 0)
    ensures Reserves(l, ".edata", NO_STEP, w.exportSize)
    ensures forall t: nat, output: string :: PseudoStep(w.recipe, t, output) ==> Reserves(l, output, t, w.pseudoBytes(l))
  {
    var (relocs, pseudo) := (WantedRelocs(w, l), WantedPseudo(w, l));
    var input := InputFor(w, relocs, pseudo, l.thunks);
    assert input.pseudoSize == pseudo;
    GeneratedAsk(w, relocs, pseudo, l.thunks);
    GeneratedNames();
    hide InputFor, Accepted, Reserves, Asks, Settled;
    SettledMeans(w, l);
    SyntheticReserves(l, w.recipe, w.trailing, input, ".edata", w.exportSize);
    SyntheticReserves(l, w.recipe, w.trailing, input, ".reloc", if w.emitRelocs then relocs else 0);
    ReservedSmall(l, w.recipe, w.trailing, input, ".reloc", NO_STEP, if w.emitRelocs then relocs else 0);
    forall t: nat, output: string | PseudoStep(w.recipe, t, output)
      ensures Reserves(l, output, t, w.pseudoBytes(l))
    {
      MarkerReserves(l, w.recipe, w.trailing, input, t, output, PseudoStart);
      ReservedSmall(l, w.recipe, w.trailing, input, output, t, pseudo);
    }
  }

  /** The two sections the linker generates. */
  function GeneratedName(exports: bool): string
  {
    if exports then ".edata" else ".reloc"
  }

  lemma GeneratedFour(w: World, relocs: nat, pseudo: nat, blocks: Blocks, exports: bool)
    ensures var (input, name) := (InputFor(w, relocs, pseudo, blocks), GeneratedName(exports));
      name != ".bss" && AllFour(input) && Asks(input, name, if exports then w.exportSize else if w.emitRelocs then relocs else 0)
  {
    GeneratedAsk(w, relocs, pseudo, blocks);
    GeneratedNames();
    hide Asks;
  }

  /** Both start at a multiple of the alignment of their section, which is at least 4, unless that is past 4 GiB. */
  lemma SettledAligned(w: World, l: Layout, exports: bool, i: nat, c: nat)
    requires ZeroIn(l, GeneratedName(exports), NO_STEP, i, c) && |w.recipe| < NO_STEP && Settled(w, l)
    ensures AlignedTo(ChunkAt(l, i, c).offset, Some(SectionAt(l, i).align)) && SectionAt(l, i).align >= 4
  {
    hide *;
    var (relocs, pseudo) := (WantedRelocs(w, l), WantedPseudo(w, l));
    var input := InputFor(w, relocs, pseudo, l.thunks);
    GeneratedFour(w, relocs, pseudo, l.thunks, exports);
    SettledMeans(w, l);
    FourAligned(w, l, GeneratedName(exports), if exports then w.exportSize else if w.emitRelocs then relocs else 0, input, i, c);
  }

  predicate AllFour(input: Input)
  {
    forall k :: 0 <= k < |input.synthetic| ==> input.synthetic[k].align == 4
  }

  lemma FourAligned(w: World, l: Layout, name: string, size: nat, input: Input, i: nat, c: nat)
    requires name != ".bss" && Asks(input, name, size) && AllFour(input) && ZeroIn(l, name, NO_STEP, i, c)
    requires |w.recipe| < NO_STEP && Accepted(l, w.recipe, w.trailing, input)
    ensures AlignedTo(ChunkAt(l, i, c).offset, Some(SectionAt(l, i).align)) && SectionAt(l, i).align >= 4
  {
    hide Accepted, Asks, AlignedTo, ZeroIn;
    SyntheticReserves(l, w.recipe, w.trailing, input, name, size);
    SomeReserved(l, name, NO_STEP, size, i, c);
    AskedSomewhere(input, name, size);
    var k: nat :| k < |input.synthetic| && input.synthetic[k].name == name;
    SyntheticAligned(l, w.recipe, w.trailing, input, name, i, c, k);
  }

  lemma SettledMeans(w: World, l: Layout)
    requires Settled(w, l)
    ensures Accepted(l, w.recipe, w.trailing, InputFor(w, WantedRelocs(w, l), WantedPseudo(w, l), l.thunks))
  {
    hide Accepted, InputFor, WantedRelocs, WantedPseudo;
  }

  lemma SomeReserved(l: Layout, name: string, t: nat, size: nat, i: nat, c: nat)
    requires ZeroIn(l, name, t, i, c) && Reserves(l, name, t, size)
    ensures size > 0
  {
  }

  lemma AskedSomewhere(input: Input, name: string, size: nat)
    requires Asks(input, name, size) && size > 0
    ensures exists k: nat :: k < |input.synthetic| && input.synthetic[k].name == name
  {
    hide PendingOf;
  }
}
