# Verified models of the qld linker

A Dafny project about the linker's hardest parts. Each module models the code
of one component and proves what the component is for:

- **PE image layout** (`layout*.dfy`, `recipe.dfy`, `regions.dfy`, `commons.dfy`,
  `imageorder.dfy`, `order.dfy`, `reserved.dfy`, `tight.dfy`, `headers.dfy`, `oneobject.dfy`): input
  sections are assigned to the steps of a recipe, sorted, placed with 32-bit saturating
  arithmetic, empty outputs dropped, addresses and file offsets given. In every accepted
  layout nothing overlaps, nothing is lost, no saturation happened, sections come in the order
  their names and files ask for and as close as their alignment allows, the linker's own words
  and reservations are there, the regions it names hold exactly what their names say, and the
  input alone decides the result.
- **The relayout loop** (`thunks.dfy`, `thunkblocks.dfy`, `arm64pages.dfy`, `branches.dfy`, `link.dfy`):
  layout and relocation repeat until reserved sizes and ARM64 thunks settle. The
  image is written only from a settled layout, which holds exactly the room its relocations
  need, and in which every branch in reach goes to its symbol plus its addend, every other
  through a thunk to the low 32 bits of that, on a small AArch64 machine.
- **Instruction packing** (`aarch64.dfy`, `loongarch.dfy`, `ppc64.dfy`, `armgroups.dfy`,
  `arm.dfy`, `armthunks.dfy`): fields, address sequences, stubs and thunks, each
  run on a small machine model of the instructions involved. The fields are those of
  "ELF for the Arm 64-bit Architecture", "ELF for the Arm Architecture" (group
  relocations), the LoongArch ELF psABI and the 64-bit ELF V2 ABI.
- **The erratum 843419 scan** (`erratum.dfy`, `sequences.dfy`): the page-skipping scan against the
  naive one, and what it finds by the fields of the instructions, as encoded in section C4.1 of
  the Arm Architecture Reference Manual for A-profile.
- **Export directory** (`exports.dfy`, `edata.dfy`, `loader.dfy`): ordinals, rendering, and
  a loader that searches the rendered bytes ("The .edata Section" of the Microsoft PE
  Format specification).
- **Import libraries and groups** (`archive.dfy`, `archivereader.dfy`, `imports.dfy`): the `ar`
  archive against a reader, and when the layout keeps import groups apart.
- **Concurrent parts** (`fork.dfy`, `diag.dfy`): the `--fork` protocol and the sorting
  diagnostic sink as interleaved atomic steps.
- **Response files** (`response.dfy`): both tokenizers and the recursive expansion.

`bits.dfy`, `bytes.dfy`, `results.dfy` and `sorting.dfy` hold what the others share. Words
are integers with explicit fields, wrap-around and saturation; bit-vectors appear only
where the code tests masks. Loops and objects of the code are methods and classes with
the state they change; each is proved against a function or predicate, about which the
theorems are.

## What turned out false

- Rounding a 32-bit offset up returns its input when the sum overflows
  (src/coff/layout.rs:462-468), though its comment promises a multiple. An accepted layout can
  therefore have a section at an unaligned RVA. `OneObject.LayOutBigBss` lays out such an input,
  one object with a `.bss` that ends just below 4 GiB; `LayoutTheorems.SectionAligned` is the
  exact condition.
- An input section's alignment is honoured within its output section (src/coff/layout.rs:937-938),
  which is aligned to the section alignment only: `LayoutTheorems.InputAlignedExactly` is the
  exact condition, `OneObject.InputMisaligned` an 8192-aligned section at 0x1000.
- A branch through a thunk ends at the low 32 bits of symbol plus addend, because the writer
  truncates the destination (src/coff/write.rs:157-173). `Branches.ThunkExact` says when that is
  symbol plus addend: exactly when it is below 2^32. `OneObject.ThunkMisses` is an input on which
  it is not, an absolute symbol of value 0 and an addend of -4.
- `.rsrc` and `.reloc` do not always close the image, as the comments at src/coff/layout.rs:286 and
  825 say: an input section that no step takes lowers their rank to that of the orphans
  (src/coff/layout.rs:905-908), which they then precede. `ImageOrder.ClosingExact` is the exact
  condition, `ImageOrder.ResourcesEarly` the case of any input with live resources.
- The erratum scan's second instruction is not always one that leaves the register of the `adrp`
  alone, nor is every such one taken (src/arch/aarch64.rs:562-564): `ErratumSequences.SequenceExact`
  is the exact condition, `ErratumSequences.VectorMissed` a sequence that is missed and
  `ErratumSequences.StatusFound` one that is none.
- Import groups are not always contiguous, though the comment at src/coff/imports.rs:15-19 counts
  on their names' order. `Imports.GroupsTogether` gives the exact condition on two groups'
  identifiers; `Imports.GroupCanSplit` (`x` and `xs`) and `Imports.SameIdentifier` (`a-b` and
  `a.b`) are inputs that break it.
- Within a group the five padded digits order the imports only below 100000: `Imports.LongNumbers`
  compares a longer number with a shorter one, `Imports.HundredThousand` is an instance.
- Ordinal assignment (src/coff/edata.rs:499-517) repeats an ordinal or never ends when exports
  outnumber the free ordinals: `Exports.OrdinalsExact` is the exact condition, `Exports.RunsOut`
  says which of the two happens, `Exports.TooManyRepeat` and `Exports.TooManyHang` are inputs.
- A PPC64 TOC low half on an instruction of the other form (src/arch/ppc64.rs:385-405) is accepted
  but can compute a wrong address: `Ppc64.TocPairExact` is the exact condition,
  `Ppc64.PlainFieldOnLoad` and `Ppc64.SplitFieldOnPlain` are inputs.
- Thumb's 8-bit PC-relative field reads 1020 back as -4, by design: `Arm.Pc8Bias`.

## Model

| member | source | states |
|---|---|---|
| `AArch64.EncodedBranch` | src/arch/aarch64.rs:211-250 | A branch field that accepts a byte offset sends the branch exactly that far, and no bit outside the field changes. |
| `AArch64.BranchAccepted` | src/arch/aarch64.rs:211-227 | A branch field accepts a byte offset if and only if it is a multiple of four within 128 MiB (`b`, `bl`), 1 MiB (`b.cond`, `cbz`) or 32 KiB (`tbz`), and that is if and only if some instruction of the kind goes that far. |
| `AArch64.AddressAccepted` | src/arch/aarch64.rs:229-251 | `adr` accepts 1 MiB either way, `adrp` whole pages within 4 GiB, the low twelve bits anything. |
| `AArch64.ThunkReaches` | src/arch/aarch64.rs:816-839 | The three words of a thunk, run where the thunk is, leave control at the target with x16 the only register changed. |
| `AArch64.ThunkAccepted` | src/arch/aarch64.rs:816-821 | A thunk is refused if and only if the page distance does not fit the signed 33-bit range of `adrp`. |
| `AArch64.ThunkInImage` | src/coff/arm64.rs:103-123 | Between two addresses below 4 GiB a thunk is never refused. |
| `Arm64Pages.PagePair` | src/coff/arm64.rs:230-261 | A relocated `adrp` and `add` holding the same addend leave symbol plus addend in the register, whenever the `adrp` is accepted. |
| `ThunkBlocks.WriteThunk` | src/arch/aarch64.rs:828-839 | Writing a thunk succeeds exactly when the buffer has room, and changes those twelve bytes only. |
| `ThunkBlocks.RenderBlock` | src/coff/arm64.rs:109-123 | With 32-bit targets a block renders if and only if it fits the buffer; its bytes are the thunks of its targets in order and the rest of the buffer is untouched. |
| `ThunkBlocks.SlotReaches` | src/coff/arm64.rs:109-123 | Slot i of a rendered block, run at its address, goes to target i. |
| `ThunkPlan.BinarySearch` | src/coff/arm64.rs:84-101 | Binary search of a sorted block finds the target, or the one place it can be inserted. |
| `ThunkPlan.Thunks.Add` | src/coff/arm64.rs:81-92 | The plan becomes the old one with every request added, stays strictly sorted, and the result says whether any request was new. |
| `ThunkPlan.Thunks.AddRequest` | src/coff/arm64.rs:84-90 | One request is inserted in its place unless it is there. |
| `ThunkPlan.AddAllTargets` | src/coff/arm64.rs:81-92 | A block holds exactly what it held and what was asked for. |
| `ThunkPlan.PlanUnique` | src/coff/arm64.rs:53-57 | Two valid plans with the same targets are the same plan. |
| `ThunkPlan.OrderInsensitive` | src/coff/arm64.rs:81-92 | Any order, repetition or split into batches of the same requests gives the same plan. |
| `ThunkPlan.BlocksGrow` | src/coff/arm64.rs:81-92 | Adding requests never loses a target or shrinks a block. |
| `ThunkPlan.Thunks.Find` | src/coff/arm64.rs:94-100 | Binary search of a valid plan finds the index of a target, or that it has none. |
| `ThunkPlan.IndexAgrees` | src/coff/arm64.rs:72-101 | `index_of` answers exactly for the targets of the block, with an index whose slot is inside `block_size`. |
| `Erratum843419.Scan` | src/arch/aarch64.rs:588-629 | The page-skipping scan returns exactly what scanning every word and keeping those at page offsets 0xff8 and 0xffc returns; `ErratumSequences.SitesAre` says which sites those are. |
| `Erratum843419.SitesIncrease` | src/arch/aarch64.rs:566-629 | The sites found strictly increase, so none is reported twice: an `adrp` is never in the load/store class. |
| `ErratumSequences.SitesAre` | src/arch/aarch64.rs:588-629 | A site is returned if and only if some word at page offset 0xff8 or 0xffc starts three instructions that are a sequence and it is the third, or four whose third is no branch and it is the fourth. |
| `ErratumSequences.SequenceOf` | src/arch/aarch64.rs:562-581 | For all fields of an `adrp`, of a load or store of each class and of an access with an unsigned offset: they are a sequence if and only if the base of the last is the register of the `adrp` and the second is not taken to write it. |
| `ErratumSequences.SequenceDecodes` | src/arch/aarch64.rs:562-581 | Every three words that are a sequence are an `adrp`, a load or store and an unsigned-offset access with such fields. |
| `ErratumSequences.SequenceExact` | src/arch/aarch64.rs:562-581 | A sequence is `adrp xn`, a load or store that does not write `xn` in Armv8.0, an unsigned-offset access based on `xn`, exactly unless the second loads vector register n, prefetches with number n from a literal, or writes `xn` as the status of an exclusive store or the second of an exclusive pair. |
| `ErratumSequences.VectorMissed` | src/arch/aarch64.rs:518-551 | `adrp x0`, `ldr d0, [x1]`, `ldr x3, [x0, #8]` is not found. |
| `ErratumSequences.StatusFound` | src/arch/aarch64.rs:518-551 | `adrp x0`, `stxr w0, x1, [x2]`, `ldr x3, [x0, #8]` is found although `x0` is overwritten. |
| `ErratumSequences.FoundAccess` | src/arch/aarch64.rs:562-581 | After a found sequence that overlooks no write the last instruction accesses its scaled offset in the page the `adrp` named, whatever the second did otherwise. |
| `ErratumSequences.BranchDecodes` | src/arch/aarch64.rs:553-560 | What ends a four-word sequence is an immediate, compare-or-test, conditional or register branch. |
| `ErratumSequences.BranchFields` | src/arch/aarch64.rs:553-560 | And every branch of those forms ends it, whatever its fields. |
| `ErratumSequences.WordIs` | src/arch/aarch64.rs:154-161 | Instructions are read low byte first. |
| `Erratum843419.PatchRoundTrip` | src/arch/aarch64.rs:788-801 | The site gets a plain branch to its patch, which runs the moved instruction and branches back right after the site. |
| `Erratum843419.PatchAccepted` | src/arch/aarch64.rs:788-801 | Both branches are made if and only if patch and site are whole words within 128 MiB of each other. |
| `LoongArch.ExtremeReaches` | src/arch/loongarch.rs:99-117 | For all 64-bit `pc` and `dest` the relocated five-instruction sequence yields exactly `dest`. |
| `LoongArch.NormalReaches` | src/arch/loongarch.rs:326-345 | The two-instruction sequence yields `dest` if and only if the rounded page delta fits signed 32 bits. |
| `LoongArch.Call36Reaches` | src/arch/loongarch.rs:382-391 | An accepted call pair lands exactly the given distance from its first instruction and links past the second. |
| `LoongArch.Call36Accepted` | src/arch/loongarch.rs:382-391 | A call is accepted if and only if some pair goes that far: whole words, from 128 GiB and 128 KiB back to 128 GiB less 128 KiB ahead. |
| `Ppc64.TocHalves` | src/arch/ppc64.rs:87-108 | For every value `HaToc` accepts the adjusted halves add up to it, and a zero high half means a 16-bit value. |
| `Ppc64.TocAccepted` | src/arch/ppc64.rs:376-412 | The high half is accepted if and only if an `addis` and a signed halfword make up the value, and is a `nop` for a halfword; a low half is refused if and only if the `addis` is gone and the instruction would update its base, or the form's bits would cut the value, or it is to become `addi` and is no `ld`. |
| `Ppc64.TocPairReaches` | src/arch/ppc64.rs:376-412 | Whenever both halves encode and the low instruction is of the form its field is for, the pair computes TOC base plus value, whether the `addis` stays or becomes a `nop` with the base rewritten to r2, keeping target register and form bits. |
| `Ppc64.TocPairExact` | src/arch/ppc64.rs:376-412 | For every pair that encodes, whatever the low instruction, it computes TOC base plus value with the form bits kept if and only if `RightForm` holds: a plain field on a split-form word needs a low half that is a multiple of the form's size, a split field on a plain word needs zero in the bits it keeps. |
| `Ppc64.PlainFieldOnLoad` | src/arch/ppc64.rs:385-393 | `LoToc` of value 2 on `ld r3, 0(r3)` is accepted, gives another instruction, and the pair misses by 2. |
| `Ppc64.SplitFieldOnPlain` | src/arch/ppc64.rs:394-405 | `LoDsToc` of value 4 on `lwz r3, 2(r3)` is accepted and the pair misses by 2. |
| `Ppc64.ThunkReaches` | src/arch/ppc64.rs:684-720 | Every thunk that is built (plain, via slot, TOC-saving) runs to its destination with CTR and r12 holding it and the link register unchanged. |
| `Ppc64.ThunkAccepted` | src/arch/ppc64.rs:684-720 | A thunk is built if and only if a pair holds the distance from where it reads its own place, a multiple of four through a slot. |
| `Ppc64.ThunkPadded` | src/arch/ppc64.rs:711-720 | A thunk is nine words, the instructions first. |
| `Ppc64.BuildThunk` | src/arch/ppc64.rs:684-720 | Filling nine traps with the instructions gives exactly the specified thunk. |
| `Ppc64.PltCallStubReaches` | src/arch/ppc64.rs:635-650 | A call stub saves r2 and jumps to the address stored at its TOC offset. |
| `Ppc64.PltCallAccepted` | src/arch/ppc64.rs:635-650 | A call stub is made if and only if a pair holds the slot's offset and that is a multiple of four. |
| `ArmGroups.GroupResidual` | src/arch/arm.rs:396-412 | The loop computes what is left after the given number of groups. |
| `ArmGroups.GroupTaken` | src/arch/arm.rs:405-430 | A group's immediate and what is left add up to the value, and what is left is smaller and below 2^(n-8) for a value below 2^n, n even. |
| `ArmGroups.ResidualShrinks` | src/arch/arm.rs:396-412 | A residual that is not zero strictly shrinks with the next group. |
| `ArmGroups.PartsAndResidual` | src/arch/arm.rs:396-430 | For any number of groups, the parts taken and the residual add up to the value. |
| `ArmGroups.FourGroups` | src/arch/arm.rs:396-412 | After four groups nothing is left, for every 32-bit value. |
| `Arm.DecodeOfEncode` | src/arch/arm.rs:162-344 | Whatever a field accepts it reads back, up to the bits it cannot hold, for every kind of field. |
| `Arm.AcceptedIfHeld` | src/arch/arm.rs:162-344 | A field that holds its value whole accepts it if and only if some instruction means it, scaled bits aside. |
| `Arm.RangeTaken` | src/arch/arm.rs:162-344 | In numbers: 32 MiB for an ARM branch, 16 MiB, 1 MiB, 2 KiB and 256 bytes for the Thumb ones, and so on for every such field. |
| `Arm.Pc8Bias` | src/arch/arm.rs:226-232 | Among aligned values Thumb's `PC8` fails to read back exactly one, 1020, which reads back as -4. |
| `Arm.GroupSequence` | src/arch/arm.rs:299-343 | The encoded `add` G0, `add` G1, `ldr` G2 of one value decode to parts whose signed sum is that value. |
| `Arm.CheckedSequence` | src/arch/arm.rs:333-342 | A checked third `add` is accepted only when three groups hold the whole value. |
| `ArmThunks.WriteThunk` | src/arch/arm.rs:575-617 | Writing succeeds exactly when both addresses fit 32 bits and there is room; it writes the specified sixteen bytes and leaves the rest. |
| `ArmThunks.ThunkReaches` | src/arch/arm.rs:575-617 | Each of the four forms, run at its address, branches exactly to the destination modulo 2^32. |
| `ArmThunks.PltEntryReaches` | src/arch/arm.rs:648-659 | Every accepted PLT entry loads the program counter from exactly its slot. |
| `Sorting.SortIsStable` | src/coff/layout.rs:980-988 | Sorting by a key keeps the order of ties. |
| `Sorting.SortIsPermutation` | src/coff/layout.rs:980-988 | Sorting loses and adds nothing. |
| `LayoutModel.AlignUp32Aligns` | src/coff/layout.rs:462-468 | Rounding up yields a multiple, or a value within one alignment of 4 GiB, where the code returns its input. |
| `LayoutModel.PushInputSound` | src/coff/layout.rs:926-964 | Placing a section and its thunk block keeps chunks in order and apart, the section whole and aligned, and the block right after it. |
| `LayoutModel.PushMarkerSound` | src/coff/layout.rs:656-683 | A marker, its bytes and what is reserved after it keep the draft sound and divide the steps before it from those after. |
| `LayoutPlace.NotAfterTotal` | src/coff/layout.rs:968-988 | The sort key orders any two contributions, and only the same contribution ties with itself; `LayoutOrder.InOrder` says in which order sections come out. |
| `LayoutPlace.PlaceSteps` | src/coff/layout.rs:642-695 | Running the recipe over one output section gives exactly the draft `StepDraft` defines step by step, every marker at its offset, and stops before the contributions of no step. |
| `LayoutPlace.PlaceGroup` | src/coff/layout.rs:684-692 | A placing step pushes all contributions of its own step, in order, and no others. |
| `LayoutPlace.StepDraftKeeps` | src/coff/layout.rs:642-695 | After any number of steps the draft is in order, holds exactly the contributions of those steps, has a mark where each step fell, aligned where a step asks, and every marker's bytes and reservation. |
| `LayoutPlace.PlaceCommons` | src/coff/layout.rs:700-711 | The commons are pushed as `PushZeros` defines, and the section's alignment becomes the greatest of theirs and its own. |
| `LayoutPlace.PushZerosKeeps` | src/coff/layout.rs:700-717 | Commons and generated sections become zero chunks in order, each of its size and aligned, and nothing else changes. |
| `LayoutPlace.PlaceSection` | src/coff/layout.rs:636-723 | An output section is exactly `FinalDraft`; it holds its sorted contributions in order, marker bytes and reservations, commons and generated parts, in order and without overlap. |
| `LayoutBuild.Builder.Section` | src/coff/layout.rs:902-921 | An output section is found by name or appended; an existing one keeps its lower rank and nothing else changes. |
| `LayoutBuild.Builder.Contribute` | src/coff/layout.rs:587-604 | A contribution is listed and its alignment and flags joined; nothing else changes. |
| `LayoutBuild.FromFilesHas` | src/coff/layout.rs:540-606 | Exactly the live sections whose first matching step, or orphan name, is an output section contribute to it. |
| `LayoutBuild.FromFilesDistinct` | src/coff/layout.rs:540-606 | No contribution is listed twice. |
| `LayoutBuild.FlagsExact` | src/coff/layout.rs:591-603 | A section is code if its name or a contribution is; initialized data if its name is or some contribution is that comes no earlier than code; so `.bss` takes room in the file exactly if one is. |
| `LayoutBuild.AlignExact` | src/coff/layout.rs:591-591 | A section's alignment is the greatest of its contributions' and 1. |
| `LayoutAssemble.AssignSection` | src/coff/layout.rs:549-604 | One live section joins the output section of its first matching step or of its orphan name. |
| `LayoutAssemble.Assemble` | src/coff/layout.rs:519-624 | After all files and generated sections every output section lists exactly its contributions, and every placement points at the right one. |
| `LayoutFinish.ContributionsAre` | src/coff/layout.rs:633-635 | The sorted contributions are sorted, free of repetition and exactly the section's live inputs. |
| `LayoutFinish.PlaceAll` | src/coff/layout.rs:631-723 | Every output section is placed, and the markers are those of all sections. |
| `LayoutFinish.Keep` | src/coff/layout.rs:718-722 | Exactly the sections with a size stay, by rank and then by creation. |
| `LayoutFinish.Remap` | src/coff/layout.rs:723-726 | Old and new section indices correspond one to one. |
| `LayoutAddress.AssignAddresses` | src/coff/layout.rs:743-769 | Addresses are assigned if and only if every section fits 32 bits in memory and in the file; each starts at its predecessor's rounded end; otherwise the error is that of the first section that does not fit. |
| `LayoutRecord.RecordInputs` | src/coff/layout.rs:785-806 | Every input section's address is its output section's plus its chunk's offset, or zero. |
| `LayoutRecord.RecordThunks` | src/coff/layout.rs:771-783 | The recorded thunk blocks are exactly those among the chunks, at their addresses. |
| `LayoutRecord.UniqueChunk` | src/coff/layout.rs:793-799 | No two chunks of a section hold the same input, so the first found is the only one. |
| `LayoutPlan.LayOut` | src/coff/layout.rs:519-821 | A layout is accepted with every property below, order and tightness included, or the placed sections do not fit 32 bits. |
| `LayoutUnique.LayoutDetermined` | src/coff/layout.rs:519-821 | Two accepted layouts of one input are the same: sections chunk for chunk, addresses, output indices, recorded inputs and thunk blocks, and the same markers. |
| `LayoutUnique.AcceptedOrTooBig` | src/coff/layout.rs:743-769 | No input is both accepted and too big for 32 bits, so which of the two outcomes occurs is decided by the input. |
| `LayoutPlan.OneChunk` | src/coff/layout.rs:636-723 | No input section has two chunks anywhere in the image. |
| `LayoutPlan.DroppedEmpty` | src/coff/layout.rs:718-733 | An input section whose output is dropped has no bytes and no thunks. |
| `LayoutPlan.BlockFollows` | src/coff/layout.rs:949-963 | Every thunk block comes right after its input section, four-byte aligned unless at the end of the address space. |
| `LayoutTheorems.NothingSaturated` | src/coff/layout.rs:743-769 | No saturating addition reached its bound in an accepted layout: chunks are in bounds, in order and apart. |
| `LayoutTheorems.SectionsDisjoint` | src/coff/layout.rs:750-769 | Output sections overlap neither each other nor the headers, and end within the image size. |
| `LayoutTheorems.ChunksDisjoint` | src/coff/layout.rs:519-821 | No two chunks of an image share an address, whatever sections they are in. |
| `LayoutTheorems.FilePartsDisjoint` | src/coff/layout.rs:751-765 | Sections with contents have disjoint, file-aligned parts of the file that hold them whole. |
| `LayoutTheorems.InputPlaced` | src/coff/layout.rs:785-806 | A live section of a surviving output is one whole chunk at the recorded address; in a dropped one it was empty. |
| `LayoutTheorems.RecordedAt` | src/coff/layout.rs:785-806 | Wherever a chunk holds a live section with contents, that chunk's address is the one recorded. |
| `LayoutTheorems.InputsDisjoint` | src/coff/layout.rs:785-806 | Different live sections with contents never share an address. |
| `LayoutOrder.InOrder` | src/coff/layout.rs:968-989 | Of two live sections with contents that go to one output, the lower address is that of the earlier step; within a step that of the lexicographically lower section name, or file name, as the step sorts, then of the lower file and section number; sections of no step come last, by name. |
| `LayoutOrder.TextOrder` | src/coff/layout.rs:980-988 | The sort keys compare as names in a dictionary do. |
| `LayoutOrder.RecipeSorts` | src/coff/layout.rs:169-284 | Every step of the recipe sorts by name if its prefix has a `$` or is `.ctors.` or `.dtors.`, by file if it is an `.idata$` table, and not at all otherwise. |
| `LayoutOrder.CrtOrdered` | src/coff/layout.rs:236-253 | The `.CRT$X?` sections of an image come in the order C, I, L, P, T, D, and in a group by name: `.CRT$XCA` before `.CRT$XCZ` whatever the order of the inputs. |
| `LayoutOrder.TextOrdered` | src/coff/layout.rs:171-172 | `.text` and the `.text$` sections come in the order of their names. |
| `LayoutOrder.IatOrdered` | src/coff/layout.rs:274-274 | The `.idata$5` sections come in the order of the names of their files. |
| `LayoutTight.NoGaps` | src/coff/layout.rs:926-964 | No input section and no thunk block leaves more room before it than its alignment asks for: it starts less than one alignment after the previous chunk and the last mark, and right there if that is a multiple. |
| `LayoutTight.EndsAtTop` | src/coff/layout.rs:718-718 | An output section ends where its last chunk or its last mark does. |
| `LayoutTight.SectionsClose` | src/coff/layout.rs:750-769 | Each output section, and the end of the image, comes less than one section alignment after what is before it. |
| `LayoutTight.FileClose` | src/coff/layout.rs:751-765 | In the file sections follow the headers and each other without a gap, each padded by less than one file alignment. |
| `ImageHeaders.HeadersFit` | src/coff/layout.rs:743-749 | In an accepted layout the headers have room for the stub, the signature, both headers and the section table, with less than one file alignment to spare. |
| `ImageHeaders.WriteHeaders` | src/coff/write.rs:316-492 | The fields as they are written end where the layout reckons, the optional header has the size stated for it, and the checksum is at 216 in both forms. |
| `LayoutTheorems.SectionAligned` | src/coff/layout.rs:462-468 | A section's RVA is aligned if and only if rounding the previous end had room below 4 GiB or was not needed. |
| `OneObject.AlwaysUnaligned` | src/coff/layout.rs:462-468 | In every accepted layout of one object with a `.bss` of 0xffffd001 bytes, the third section is `.idata` at the unaligned address 0xfffff001. |
| `OneObject.LayOutBigBss` | src/coff/layout.rs:519-821 | That input is accepted: laying it out gives such an image. |
| `LayoutTheorems.InputAlignedExactly` | src/coff/layout.rs:937-938 | An input section's offset is a multiple of its alignment unless it starts within that alignment of 4 GiB, and then its RVA is one if and only if the RVA of its output section is. |
| `LayoutTheorems.InputAligned` | src/coff/layout.rs:937-938 | An input alignment that divides the section alignment is honoured in the RVA of every section that is itself aligned. |
| `OneObject.InputMisaligned` | src/coff/layout.rs:937-938 | In every accepted layout of one object with an 8192-aligned `.text` of 128 MiB, linked at a section alignment of 4096, that section is at 0x1000. |
| `LayoutTheorems.Bracketed` | src/coff/layout.rs:642-695 | Between two marks of a section lie exactly the chunks of the steps from the first up to the second. |
| `LayoutRecipe.MarkerOnce` | src/coff/layout.rs:169-284 | Every marker is inserted by one step of the recipe. |
| `LayoutRecipe.IatStep` | src/coff/layout.rs:273-275 | A section named `.idata$5` goes to the step between the import address table markers. |
| `LayoutRecipe.CrtStep` | src/coff/layout.rs:236-253 | A `.CRT$X?` section goes to the step of its own group. |
| `LayoutRegions.NamedRegion` | src/coff/layout.rs:434-447 | A chunk with contents lies between two markers of an output section if and only if it is in that section and its step is between theirs. |
| `LayoutRegions.MarkerThere` | src/coff/layout.rs:650-656 | Every marker of `.rdata` and `.idata` has an address in every accepted layout of the recipe, because the linker's own words keep those sections. |
| `LayoutRegions.ImportAddressTable` | src/coff/layout.rs:273-275 | Between `__IAT_start__` and `__IAT_end__` lie exactly the `.idata$5` sections. |
| `LayoutRegions.CrtRegion` | src/coff/layout.rs:236-252 | Between the markers of a C runtime group lie exactly that group's sections. |
| `LayoutCommons.CommonValues` | src/coff/link.rs:848-870 | Common symbols get the addresses of the zero chunks of `.bss` in turn. |
| `LayoutCommons.CommonPlaced` | src/coff/link.rs:848-870 | Every common symbol with a size has its own zero chunk of that size, at the address it is given. |
| `LayoutCommons.CommonsDisjoint` | src/coff/layout.rs:700-711 | A common symbol shares no byte with any other chunk of the image. |
| `LayoutCommons.TwoCommonsDisjoint` | src/coff/layout.rs:700-711 | Two common symbols share no byte. |
| `LayoutCommons.PseudoReserved` | src/coff/layout.rs:666-683 | The reserved pseudo-relocation list lies inside the bounds its symbols name. |
| `LayoutReserved.MarkerReserves` | src/coff/layout.rs:666-683 | In the image a marker's step holds one zero chunk of exactly the size reserved there, the pseudo-relocations' or the SafeSEH table's, and none where nothing is reserved. |
| `LayoutReserved.MarkerInserts` | src/coff/layout.rs:656-665 | A marker's step holds exactly the bytes it inserts, right at the marker: a pointer of ones at the head of a constructor list, a null pointer at its tail, 20 zero bytes after the import descriptors, nothing anywhere else. |
| `LayoutReserved.WordAtMarker` | src/coff/layout.rs:1004-1013 | The address of each such marker is that of its word, which is in every accepted layout. |
| `LayoutReserved.MarkerAligned` | src/coff/layout.rs:217-254 | In `.rdata` the lists of pseudo-relocations and SafeSEH handlers are 4-aligned and, where pointers are wide, the constructor lists 8-aligned, unless that is past 4 GiB. |
| `LayoutReserved.SyntheticReserves` | src/coff/layout.rs:609-624 | A section the linker generates has one zero chunk of exactly its size after all steps, and none without a size. |
| `ImageOrder.RecipeSectionsFirst` | src/coff/layout.rs:523-538 | Output sections of the recipe come in recipe order, before all others. |
| `ImageOrder.ClosingExact` | src/coff/layout.rs:286-287 | `.rsrc` and `.reloc` come after an orphan section of the image if and only if no live input section that no step takes goes to them; otherwise before every orphan. |
| `ImageOrder.ResourcesEarly` | src/coff/layout.rs:824-826 | In an image of any input with a live `.rsrc` or `.rsrc$` section, `.rsrc` comes before every orphan section. |
| `ImageOrder.DebugLast` | src/coff/layout.rs:827-887 | Debugging sections come after all others. |
| `ImageOrder.DebugOrdered` | src/coff/layout.rs:831-887 | Known debugging sections come in the listed order, compressed ones ranked as their plain form, and the others after them. |
| `ImageOrder.DebugNames` | src/coff/layout.rs:1028-1031 | `.debug_aranges` precedes `.debug_info` in it, and `.zdebug_info` ranks as `.debug_info`. |
| `Branches.BlockPlaced` | src/coff/layout.rs:771-783 | Every planned block of a live section is placed, at the recorded address, with room for all its slots. |
| `Branches.BranchComesTo` | src/coff/arm64.rs:186-226 | In an accepted layout a branch is patched to go to its goal if and only if that is in reach; otherwise it asks for a thunk if and only if none is planned for it, goes through its slot if that is in reach, and is reported too far only when both are out of reach. |
| `Branches.NeverMissing` | src/coff/arm64.rs:216-221 | No branch finds its planned block unplaced. |
| `Branches.BranchReaches` | src/coff/arm64.rs:186-226 | Every patched branch is a 32-bit word that goes straight to symbol plus addend modulo 2^64, or to its slot of its section's block, whose words go on to symbol plus addend modulo 2^32. |
| `Branches.ThunkExact` | src/coff/write.rs:157-173 | A thunk goes to symbol plus addend modulo 2^64 if and only if that is below 2^32. |
| `OneObject.ThunkMisses` | src/coff/write.rs:157-173 | In every accepted layout of a `.text` of 128 MiB, a `bl` at its end whose immediate holds -4, to an absolute symbol of value 0, is patched to go through its thunk and ends at 0xfffffffc. |
| `OneObject.LayOutBigText` | src/coff/layout.rs:519-821 | That input is accepted. |
| `Link.Relocate` | src/coff/link.rs:334-334 | Relocating collects exactly the thunks the branches ask for. |
| `Link.OnePass` | src/coff/link.rs:264-368 | A pass lays out with the given sizes and plan, reports what that layout needs and whether anything differs, and adds what was asked to the plan; if nothing differs its layout is settled, with the sizes of `Link.SettledSizes`. |
| `Link.LinkOnce` | src/coff/link.rs:258-368 | The loop is a sequence of passes, each from what the one before left, all but the last with a change; it ends settled, with the sizes of `Link.SettledSizes`, with a layout that does not fit, or when thirteen passes all changed something. |
| `Link.SettledSizes` | src/coff/link.rs:262-271 | In a settled layout, by its own chunks: `.reloc` ends with one zero chunk of exactly the bytes its base relocations take, if they are emitted, `.edata` with one of the size of the export table, the step of the pseudo-relocations holds one of exactly their size, and where a size is 0 there is none. |
| `Link.SettledAligned` | src/coff/link.rs:265-270 | Both generated chunks are aligned as their section, by 4 at least, unless that is past 4 GiB. |
| `Link.PlansGrow` | src/coff/arm64.rs:81-92 | From pass to pass the thunk blocks only grow. |
| `Link.PlannedWasAsked` | src/coff/link.rs:334-366 | The thunks planned are exactly those that some branch asked for under the layout of an earlier pass. |
| `Link.NothingNew` | src/coff/link.rs:357-366 | When a pass changes nothing, the sizes reserved are those this layout needs and no branch asked for any thunk at all, so the layout is settled. |
| `Link.SettledBranches` | src/coff/arm64.rs:186-226 | In the layout the image is written from, every branch with its goal in reach goes to symbol plus addend modulo 2^64; every other has a thunk and goes through it to that modulo 2^32 if the thunk is in reach, and only branches out of reach of both were reported. |
| `Exports.SortedOnce` | src/coff/edata.rs:312-314 | Names strictly increase afterwards, and of each name the first export given stays. |
| `Exports.AssignOrdinals` | src/coff/edata.rs:499-517 | Whenever the loop ends, the array holds what `AssignAll` gives: explicit ordinals stay, the others are filled in turn with 16-bit saturation; the precondition is that it ends. |
| `Exports.OrdinalsExact` | src/coff/edata.rs:499-517 | For every list, the loop ends with each new ordinal the lowest free one if and only if there are as many free ordinals as exports without one. |
| `Exports.RunsOut` | src/coff/edata.rs:511-515 | Otherwise it never ends when ordinal 65535 is explicit, and ends with one ordinal given twice when it is not. |
| `Exports.TooManyRepeat` | src/coff/edata.rs:511-515 | More than 65535 exports without ordinals get one twice. |
| `Exports.TooManyHang` | src/coff/edata.rs:511-515 | With 65535 explicit and 65535 others or more, the search for a free one never ends. |
| `Exports.FewAreRoomy` | src/coff/edata.rs:499-517 | At most 65535 exports always have room. |
| `Exports.OrdinalsUnique` | src/coff/edata.rs:499-517 | Giving each export the lowest free ordinal in turn has one outcome. |
| `Exports.OrdinalsDistinct` | src/coff/edata.rs:499-517 | All ordinals are different if and only if the explicit ones were. |
| `Exports.OrdinalsFit` | src/coff/edata.rs:499-517 | Every ordinal the loop assigns is from 1 to 65535, however many exports there are. |
| `ExportTable.Render` | src/coff/edata.rs:120-198 | The bytes are the specified table, which the loader reads as the rows of `ExportLoader` say, and the undefined symbols reported are exactly the undefined ones. |
| `ExportTable.RenderedSize` | src/coff/edata.rs:95-114 | The size known before layout is the number of bytes rendered, if and only if those fit 32 bits. |
| `ExportLoader.Plan` | src/coff/edata.rs:312-325 | Sorting, deduplication and ordinal assignment give increasing names and 16-bit ordinals, the lowest of which is the base (1 without exports), distinct if and only if the explicit ones were and there was room. |
| `ExportLoader.FewRequests` | src/coff/edata.rs:312-325 | At most 65535 requests always leave room, so planning them ends with distinct new ordinals. |
| `ExportLoader.LoaderFindsName` | src/coff/edata.rs:120-198 | A loader's binary search over the rendered tables finds each name's own address or forwarder, and no name that is not exported. |
| `ExportLoader.LoaderFindsOrdinal` | src/coff/edata.rs:136-160 | Looking up an export's ordinal in the rendered table finds the same. |
| `ExportLoader.LoaderFindsNone` | src/coff/edata.rs:145-168 | Looking up an ordinal no export has finds address zero between the lowest and the highest ordinal, and nothing outside. |
| `ExportLoader.LoaderFindsDll` | src/coff/edata.rs:176-180 | The directory's first three words are zero, and its name pointer leads to the DLL's name. |
| `ImportArchive.PushMember` | src/coff/implib.rs:625-646 | A member is appended as its header, its data and padding to an even size. |
| `ImportArchive.Archive` | src/coff/implib.rs:540-617 | Building succeeds if and only if every symbol's member starts below 4 GiB, and gives the specified bytes. |
| `ImportArchive.MemberPlaced` | src/coff/implib.rs:573-615 | Every member's header is at the offset computed beforehand, and that offset is even. |
| `ArchiveReader.HeaderColumns` | src/coff/implib.rs:625-641 | A header is its seven columns, filled with blanks: name, `0`, `0`, `0`, `644`, the size in decimal, and a backquote and line feed. |
| `ArchiveReader.ArchiveStarts` | src/coff/implib.rs:566-575 | Every archive starts with `!<arch>` and a line feed, which the reader asks for. |
| `ArchiveReader.LongNameThere` | src/coff/implib.rs:541-552 | A long name is in the name table exactly where its field says. |
| `ArchiveReader.MemberReads` | src/coff/implib.rs:612-646 | Reading at a member's offset gives its name and its data, long names included. |
| `ArchiveReader.SymbolReads` | src/coff/implib.rs:590-609 | Each symbol of the index leads to the member that defines it. |
| `ArchiveReader.SymbolListed` | src/coff/implib.rs:554-563 | Every symbol a member defines is in the index, with that member. |
| `Imports.Groups.Add` | src/coff/imports.rs:90-117 | One import is recorded in its DLL's group, created at the end if new. |
| `Imports.RecordedKeeps` | src/coff/imports.rs:86-117 | Groups keep their order, names and positions; recording the same import again changes nothing. |
| `Imports.Groups.Generate` | src/coff/imports.rs:214-267 | Each group gives its head, its imports and its tail, with the symbols each defines and ordinals counting up from 0. |
| `Imports.GeneratedAre` | src/coff/imports.rs:221-267 | Object by object: `<id>h.o` defines `_head_<id>`, import k is `<id>s<k in five digits>.o` and defines `__imp_<symbol>` and, unless it is data, the symbol, `<id>t.o` defines `__<id>_iname`. |
| `Imports.SameDll` | src/coff/imports.rs:90-97 | Two DLL names share a group if and only if they differ in the case of letters at most. |
| `Imports.OwnNamesWithin` | src/coff/imports.rs:241-263 | Every name of a group sorts between its head and its tail. |
| `Imports.OthersWithin` | src/coff/imports.rs:45-57 | A name of another group sorts between them if and only if its identifier continues this one's with a letter from h to s. |
| `Imports.GroupsTogether` | src/coff/layout.rs:968-989 | In the sorted contributions of a step that has head and tail of two groups, neither group is interrupted by the other if and only if their identifiers differ and neither continues the other with a letter from h to s. |
| `Imports.InterruptedBy` | src/coff/layout.rs:968-989 | Of two groups with different identifiers, the first is interrupted by the second if and only if the second's identifier continues the first's in that way. |
| `Imports.SplitsInside` | src/coff/layout.rs:968-989 | Then every contribution of the second lies between head and tail of the first. |
| `Imports.SameIdInterrupts` | src/coff/layout.rs:968-989 | Two groups with the same identifier always interrupt: names tie and file numbers decide. |
| `Imports.SameIdentifier` | src/coff/imports.rs:45-57 | DLLs `a-b` and `a.b` are two groups with one identifier. |
| `Imports.ContributionsByFile` | src/coff/layout.rs:968-989 | The contributions of an output section are such a sorted list for every step that sorts by file. |
| `Imports.GroupCanSplit` | src/coff/imports.rs:45-57 | A DLL `xs` falls between head and tail of a DLL `x`. |
| `Imports.HeadAndTail` | src/coff/imports.rs:241-263 | Within a group the head comes before every import and the tail after, however many there are. |
| `Imports.OrderInGroup` | src/coff/imports.rs:250-256 | Two imports below 100000 are in the order of their numbers. |
| `Imports.LongNumbers` | src/coff/imports.rs:250-256 | An import numbered 100000 or more comes before one below if and only if its five leading digits are less. |
| `Imports.HundredThousand` | src/coff/imports.rs:250-256 | Import 100000 comes before import 10001. |
| `Fork.StepKeeps` | src/main.rs:316-527 | Every step of parent, child, relays and subprocesses keeps the protocol's invariant. |
| `Fork.ReportedIsDelivered` | src/main.rs:363-370 | If the child reports, the parent returns the first notified code, and everything printed to a relayed stream before that call has been delivered in order. |
| `Fork.UnreportedIsWaitStatus` | src/main.rs:445-470 | Otherwise the parent returns the low byte of the child's exit code, 128 and the signal that killed it (1 where that is no byte), or 1 when waiting failed; 0 if and only if the child exited with a multiple of 256. |
| `Fork.ParentNeverWaits` | src/main.rs:493-527 | Once the status is sent the parent can always go on, even if the child never exits. |
| `Fork.RelayAdvances` | src/main.rs:398-424 | A relay whose channel has ended can always step, and each step leaves less to do. |
| `Diagnostics.Stderr.Emit` | src/diag.rs:609-623 | A diagnostic is suppressed, promoted or kept, counted if an error, and buffered; `Diagnostics.FinishedThreads` says which. |
| `Diagnostics.Stderr.TakeRendered` | src/diag.rs:561-585 | Rendering sorts the buffer, cuts it at the error limit and empties it; the count stays. |
| `Diagnostics.RenderCut` | src/diag.rs:561-585 | With no more errors than the limit the text is that of all diagnostics in order; otherwise that of those before the first error with as many errors before it as the limit, and the stopping message. |
| `Diagnostics.SameText` | src/diag.rs:561-585 | Buffers with the same subsequence of each order render the same text, cut included. |
| `Diagnostics.ScheduleIndependent` | src/diag.rs:557-585 | Two finished runs with the same subsequence of each order render the same text and count the same errors. |
| `Diagnostics.ErrorCount` | src/diag.rs:620-627 | When all threads are done the count is of every error emitted and, where they are fatal and not turned off, every warning, whatever the schedule and the limit. |
| `Diagnostics.FinishedThreads` | src/diag.rs:609-623 | When all threads are done the buffer has of each thread, in its order, everything but warnings if those are off, everything with warnings as errors if they are fatal, and everything otherwise. |
| `Diagnostics.OwnOrdersIndependent` | src/diag.rs:15-20 | If each order is emitted by one thread, every schedule renders the same text and counts the same errors. |
| `ResponseFiles.TokenizeGnu` | src/args/response.rs:103-146 | The loop computes the specified arguments under GNU rules. |
| `ResponseFiles.TokenizeWindows` | src/args/response.rs:149-199 | The loop computes the specified arguments under Windows rules. |
| `ResponseFiles.GnuReads` | src/args/response.rs:103-146 | Arguments written with any mix of plain bytes, escapes, single and double quotes, with any blanks between them, are read back as what they mean. |
| `ResponseFiles.GnuRoundTrip` | src/args/response.rs:103-146 | Every list of byte strings can be written so. |
| `ResponseFiles.WindowsReads` | src/args/response.rs:149-199 | Arguments written with any mix of plain bytes, runs of backslashes, escaped quotes, quoted parts and doubled quotes in them, with any blanks between them, are read back as what they mean. |
| `ResponseFiles.WindowsRoundTrip` | src/args/response.rs:149-199 | Every list of byte strings can be written so, quoted with backslash runs doubled before quotes. |
| `ResponseFiles.ExpandInto` | src/args/response.rs:256-286 | Expansion appends argument by argument and stops at the first error. |
| `ResponseFiles.ExpandExact` | src/args/response.rs:256-286 | Expansion succeeds if and only if every file named is readable and files nest at most 64 deep, and gives what is in them in place of their names. |
| `ResponseFiles.ExpandDistributes` | src/args/response.rs:256-286 | Expanding a concatenation is concatenating the expansions, the first error standing. |
| `ResponseFiles.ExpandLeavesNone` | src/args/response.rs:263-270 | What is left names no response file: only a bare at sign may remain. |
| `ResponseFiles.ExpandKeeps` | src/args/response.rs:263-270 | Arguments that name no file come out unchanged, so expanding again changes nothing. |
| `ResponseFiles.CyclesFail` | src/args/response.rs:271-276 | Files that keep naming each other never expand, whatever else they hold. |

## Left out

- File and process I/O, sockets and threads as system calls: reading files, writing the image and spawning are parameters or abstract steps.
- Section contents and every relocation but ARM64 branches: `Link.World` takes the encoded sizes of base and pseudo-relocations as functions of the layout, so their encoders in src/coff/reloc.rs and src/coff/write.rs are not part of this model.
- The second rendering once `.reloc` has contents, the patching of the pseudo-relocation list and the SafeSEH table's bytes (src/coff/link.rs:376-410): only their reserved places are modelled.
- Symbol resolution, COFF and PE readers, option parsing, and which exports or imports are requested: inputs of the models.
- Precedence between `.def` files, directives and the command line: the list of export requests is taken as given.
- The other ARM64 relocations (`adr` run on the machine, scaled load offsets and section-relative ones, src/coff/arm64.rs:263-299), erratum 835769, prefixed PPC64 instructions, ULEB128, S390x and RISC-V.
- Counts of files, sections, steps and symbols are taken to be below 2^32, where the code would store `u32::MAX`; "none" is an option value instead of that number.
- `Characteristics` beyond the code, initialized and uninitialized flags, and all other header fields.
- Alignments are integers rounded to by arithmetic, which is what the code's masks do for powers of two; an alignment of zero or one rounds nothing.
- A branch whose four bytes are not inside its section: the code reports it, `Branches.ValidBranch` excludes it.
- Exports.AssignOrdinals: takes the lists on which the loop ends, because a method here must end; `Exports.RunsOut` says on which lists it does not.
- ExportLoader.Plan: takes the requests on which that loop ends, for the same reason.
- ArchiveReader.MemberReads: takes member sizes below 10^10 and names without a slash, because the header's size column and name field cannot hold others.
- Imports.OrderInGroup: takes imports numbered below 100000, because a longer number sorts among the shorter ones; `Imports.LongNumbers` says where.
- Imports.Groups.Generate: leaves out the generated objects' bytes, and with them how an import is named to the loader.
- Ppc64.TocPairReaches: takes a plain field on a plain word and a split field on a split-form word; `Ppc64.TocPairExact` covers the other pairs that encode.
- ErratumSequences.SequenceExact: takes the encodings Armv8.0 defines for the second instruction; `ErratumSequences.SequenceOf` says of all encodings what is found.
- ExportLoader.LoaderFindsDll: takes a DLL name without a NUL, which a loader would read as its end.
- ImageOrder.DebugLast: takes debugging sections that come from inputs; the linker generates none.
- LayoutTight.NoGaps: speaks of input sections and thunk blocks; commons and generated sections are tied to their sizes and alignments only.
- LayoutRegions.NamedRegion: says nothing when a marker's section was dropped, because the code then gives the marker no address.
- Fork.ReportedIsDelivered: takes the parent's own streams to accept every write, and leaves out failures to start the child or a relay.
- Diagnostics.ScheduleIndependent: flushes once, after the last diagnostic; locations, details and colours are inside the rendering function.
- The standard output buffer of the child is drained at arbitrary moments instead of at line ends, which allows every run the code can have.
