/**
  What the erratum scanner finds, by the fields of the instructions: the
  encodings are those of the "Loads and Stores" and "Branches" tables of the Arm
  Architecture Reference Manual for A-profile, section C4.1.
 */
module ErratumSequences {
  import opened Bits
  import opened Erratum843419
  import A64 = AArch64

  // ---- Instructions by their fields ----

  datatype Adrp = Adrp(low: bv2, high: bv19, rd: bv5)

  function AdrpWord(a: Adrp): bv32
  {
    0x9000_0000 | ((a.low as bv32) << 29) | ((a.high as bv32) << 5) | (a.rd as bv32)
  }

  /** Operand size, integer or vector, and operation, of a single-register access. */
  datatype Kind = Kind(size: bv2, vector: bv1, opc: bv2)

  /**
    A load or store. `bits` is whatever stands between the operation and the base
    register: an immediate, or an index register and its extension.
   */
  datatype Access =
    | Exclusive(size: bv2, ordered: bv1, load: bv1, pair: bv1, rs: bv5, o0: bv1, rt2: bv5, rn: bv5, rt: bv5)
    | Literal(opc: bv2, vector: bv1, offset: bv19, rt: bv5)
    | Unscaled(kind: Kind, imm: bv10, rn: bv5, rt: bv5)
    | PostIndexed(kind: Kind, simm: bv9, rn: bv5, rt: bv5)
    | Unprivileged(kind: Kind, simm: bv9, rn: bv5, rt: bv5)
    | PreIndexed(kind: Kind, simm: bv9, rn: bv5, rt: bv5)
    | RegisterOffset(kind: Kind, index: bv9, rn: bv5, rt: bv5)
    | UnsignedOffset(kind: Kind, uimm: bv12, rn: bv5, rt: bv5)
    | StorePair(opc: bv2, vector: bv1, mode: bv2, pimm: bv7, rt2: bv5, rn: bv5, rt: bv5)
    | StoreMultiple(q: bv1, post: bool, rm: bv5, count: bv4, width: bv2, rn: bv5, rt: bv5)
    | StoreSingle(q: bv1, post: bool, rm: bv5, lane: bv3, s: bv1, width: bv2, rn: bv5, rt: bv5)

  function KindBits(kind: Kind): bv32
  {
    ((kind.size as bv32) << 30) | ((kind.vector as bv32) << 26) | ((kind.opc as bv32) << 22)
  }

  function Registers(rn: bv5, rt: bv5): bv32
  {
    ((rn as bv32) << 5) | (rt as bv32)
  }

  function AccessWord(b: Access): bv32
  {
    match b
    case Exclusive(size, ordered, load, pair, rs, o0, rt2, rn, rt) =>
      0x0800_0000 | ((size as bv32) << 30) | ((ordered as bv32) << 23) | ((load as bv32) << 22) | ((pair as bv32) << 21)
      | ((rs as bv32) << 16) | ((o0 as bv32) << 15) | ((rt2 as bv32) << 10) | Registers(rn, rt)
    case Literal(opc, vector, offset, rt) =>
      0x1800_0000 | ((opc as bv32) << 30) | ((vector as bv32) << 26) | ((offset as bv32) << 5) | (rt as bv32)
    case Unscaled(kind, imm, rn, rt) => 0x3800_0000 | KindBits(kind) | ((imm as bv32) << 12) | Registers(rn, rt)
    case PostIndexed(kind, simm, rn, rt) => 0x3800_0400 | KindBits(kind) | ((simm as bv32) << 12) | Registers(rn, rt)
    case Unprivileged(kind, simm, rn, rt) => 0x3800_0800 | KindBits(kind) | ((simm as bv32) << 12) | Registers(rn, rt)
    case PreIndexed(kind, simm, rn, rt) => 0x3800_0c00 | KindBits(kind) | ((simm as bv32) << 12) | Registers(rn, rt)
    case RegisterOffset(kind, index, rn, rt) => 0x3820_0800 | KindBits(kind) | ((index as bv32) << 12) | Registers(rn, rt)
    case UnsignedOffset(kind, uimm, rn, rt) => 0x3900_0000 | KindBits(kind) | ((uimm as bv32) << 10) | Registers(rn, rt)
    case StorePair(opc, vector, mode, pimm, rt2, rn, rt) =>
      0x2800_0000 | ((opc as bv32) << 30) | ((vector as bv32) << 26) | ((mode as bv32) << 23) | ((pimm as bv32) << 15)
      | ((rt2 as bv32) << 10) | Registers(rn, rt)
    case StoreMultiple(q, post, rm, count, width, rn, rt) =>
      (if post then 0x0c80_0000 else 0x0c00_0000) | ((q as bv32) << 30) | ((rm as bv32) << 16) | ((count as bv32) << 12)
      | ((width as bv32) << 10) | Registers(rn, rt)
    case StoreSingle(q, post, rm, lane, s, width, rn, rt) =>
      (if post then 0x0d80_0000 else 0x0d00_0000) | ((q as bv32) << 30) | ((rm as bv32) << 16) | ((lane as bv32) << 13)
      | ((s as bv32) << 12) | ((width as bv32) << 10) | Registers(rn, rt)
  }

  /** `ST1` stores one structure of one to four registers or one lane; without post-indexing it has no index register. */
  predicate IsAccess(b: Access)
  {
    match b
    case StoreMultiple(_, post, rm, count, _, _, _) => (post || rm == 0) && (count == 2 || count == 6 || count == 7 || count == 10)
    case StoreSingle(_, post, rm, lane, _, _, _, _) => (post || rm == 0) && (lane == 0 || lane == 2 || lane == 4)
    case _ => true
  }

  // ---- What the scanner takes an access to write ----

  /** The operation is not a store, a 128-bit vector store or an integer prefetch. */
  predicate KindLoads(kind: Kind)
  {
    kind.opc != 0 && !(kind.size == 0 && kind.vector == 1 && kind.opc == 2) && !(kind.size == 3 && kind.vector == 0 && kind.opc == 2)
  }

  /** The scanner holds the access to write register `n`. */
  predicate Takes(b: Access, n: bv5)
  {
    match b
    case Exclusive(_, _, load, _, _, _, _, _, rt) => load == 1 && rt == n
    case Literal(_, _, _, rt) => rt == n
    case Unscaled(kind, _, _, rt) => KindLoads(kind) && rt == n
    case PostIndexed(kind, _, rn, rt) => (KindLoads(kind) && rt == n) || rn == n
    case Unprivileged(kind, _, _, rt) => KindLoads(kind) && rt == n
    case PreIndexed(kind, _, rn, rt) => (KindLoads(kind) && rt == n) || rn == n
    case RegisterOffset(kind, _, _, rt) => KindLoads(kind) && rt == n
    case UnsignedOffset(kind, _, _, rt) => KindLoads(kind) && rt == n
    case StorePair(_, _, mode, _, _, rn, _) => (mode == 1 || mode == 3) && rn == n
    case StoreMultiple(_, post, _, _, _, rn, _) => post && rn == n
    case StoreSingle(_, post, _, _, _, _, rn, _) => post && rn == n
  }

  lemma AdrpFields(a: Adrp)
    ensures Erratum843419.IsAdrp(AdrpWord(a)) && DestinationRegister(AdrpWord(a)) == a.rd as bv32
    ensures !IsLoadStoreClass(AdrpWord(a))
  {
  }

  lemma UnsignedFields(kind: Kind, uimm: bv12, rn: bv5, rt: bv5)
    ensures var w := AccessWord(UnsignedOffset(kind, uimm, rn, rt)); IsLoadStoreUnsigned(w) && BaseRegister(w) == rn as bv32
  {
  }

  /** The word is one the scanner looks at, and writes what it takes it to. */
  predicate Seen(w: bv32)
  {
    IsLoadStoreClass(w)
    && (IsLoadStoreExclusive(w) || IsLoadLiteral(w) || IsSingleRegisterLoadStore(w) || IsStp(w) || IsStnp(w) || IsSt1(w))
  }

  predicate Agrees(b: Access, n: bv5)
  {
    Seen(AccessWord(b)) && (LoadStoreWrites(AccessWord(b), n as bv32) <==> Takes(b, n))
  }

  lemma ExclusiveAgrees(b: Access, n: bv5)
    requires b.Exclusive?
    ensures Agrees(b, n)
  {
  }

  lemma LiteralAgrees(b: Access, n: bv5)
    requires b.Literal?
    ensures Agrees(b, n)
  {
  }

  lemma UnscaledAgrees(b: Access, n: bv5)
    requires b.Unscaled?
    ensures Agrees(b, n)
  {
  }

  lemma PostAgrees(b: Access, n: bv5)
    requires b.PostIndexed?
    ensures Agrees(b, n)
  {
  }

  lemma PreAgrees(b: Access, n: bv5)
    requires b.PreIndexed?
    ensures Agrees(b, n)
  {
  }

  lemma UnprivilegedAgrees(b: Access, n: bv5)
    requires b.Unprivileged?
    ensures Agrees(b, n)
  {
  }

  lemma RegisterAgrees(b: Access, n: bv5)
    requires b.RegisterOffset?
    ensures Agrees(b, n)
  {
  }

  lemma UnsignedAgrees(b: Access, n: bv5)
    requires b.UnsignedOffset?
    ensures Agrees(b, n)
  {
  }

  lemma PairAgrees(b: Access, n: bv5)
    requires b.StorePair?
    ensures Agrees(b, n)
  {
  }

  lemma MultipleAgrees(b: Access, n: bv5)
    requires b.StoreMultiple? && IsAccess(b)
    ensures Agrees(b, n)
  {
  }

  lemma SingleAgrees(b: Access, n: bv5)
    requires b.StoreSingle? && IsAccess(b)
    ensures Agrees(b, n)
  {
  }

  lemma AccessAgrees(b: Access, n: bv5)
    requires IsAccess(b)
    ensures Agrees(b, n)
  {
    hide *;
    match b
    case Exclusive(_, _, _, _, _, _, _, _, _) => ExclusiveAgrees(b, n);
    case Literal(_, _, _, _) => LiteralAgrees(b, n);
    case StorePair(_, _, _, _, _, _, _) => PairAgrees(b, n);
    case StoreMultiple(_, _, _, _, _, _, _) => MultipleAgrees(b, n);
    case StoreSingle(_, _, _, _, _, _, _, _) => SingleAgrees(b, n);
    case PostIndexed(_, _, _, _) => PostAgrees(b, n);
    case PreIndexed(_, _, _, _) => PreAgrees(b, n);
    case Unscaled(_, _, _, _) => UnscaledAgrees(b, n);
    case Unprivileged(_, _, _, _) => UnprivilegedAgrees(b, n);
    case RegisterOffset(_, _, _, _) => RegisterAgrees(b, n);
    case UnsignedOffset(_, _, _, _) => UnsignedAgrees(b, n);
  }

  // ---- Every word the scanner looks at is one of these ----

  function Low1(w: bv32): bv1 { (w & 1) as bv1 }

  function Low2(w: bv32): bv2 { (w & 3) as bv2 }

  function Low5(w: bv32): bv5 { (w & 0x1f) as bv5 }

  function Low9(w: bv32): bv9 { (w & 0x1ff) as bv9 }

  function Low19(w: bv32): bv19 { (w & 0x7_ffff) as bv19 }

  function KindOf(w: bv32): Kind
  {
    Kind(Low2(w >> 30), Low1(w >> 26), Low2(w >> 22))
  }

  /** The word is that of the access. */
  predicate Is(b: Access, w: bv32)
  {
    IsAccess(b) && AccessWord(b) == w
  }

  lemma ExclusiveDecodes(w: bv32) returns (b: Access)
    requires IsLoadStoreExclusive(w)
    ensures Is(b, w)
  {
    b := Exclusive(Low2(w >> 30), Low1(w >> 23), Low1(w >> 22), Low1(w >> 21), Low5(w >> 16), Low1(w >> 15), Low5(w >> 10), Low5(w >> 5), Low5(w));
  }

  lemma LiteralDecodes(w: bv32) returns (b: Access)
    requires IsLoadLiteral(w)
    ensures Is(b, w)
  {
    b := Literal(Low2(w >> 30), Low1(w >> 26), Low19(w >> 5), Low5(w));
  }

  lemma UnscaledDecodes(w: bv32) returns (b: Access)
    requires IsLoadStoreUnscaled(w)
    ensures Is(b, w)
  {
    b := Unscaled(KindOf(w), ((w >> 12) & 0x3ff) as bv10, Low5(w >> 5), Low5(w));
  }

  lemma PostDecodes(w: bv32) returns (b: Access)
    requires IsLoadStorePost(w)
    ensures Is(b, w)
  {
    b := PostIndexed(KindOf(w), Low9(w >> 12), Low5(w >> 5), Low5(w));
  }

  lemma UnprivilegedDecodes(w: bv32) returns (b: Access)
    requires IsLoadStoreUnprivileged(w)
    ensures Is(b, w)
  {
    b := Unprivileged(KindOf(w), Low9(w >> 12), Low5(w >> 5), Low5(w));
  }

  lemma PreDecodes(w: bv32) returns (b: Access)
    requires IsLoadStorePre(w)
    ensures Is(b, w)
  {
    b := PreIndexed(KindOf(w), Low9(w >> 12), Low5(w >> 5), Low5(w));
  }

  lemma RegisterDecodes(w: bv32) returns (b: Access)
    requires IsLoadStoreRegisterOffset(w)
    ensures Is(b, w)
  {
    b := RegisterOffset(KindOf(w), Low9(w >> 12), Low5(w >> 5), Low5(w));
  }

  lemma UnsignedDecodes(w: bv32) returns (b: Access)
    requires IsLoadStoreUnsigned(w)
    ensures Is(b, w) && b.UnsignedOffset?
  {
    b := UnsignedOffset(KindOf(w), ((w >> 10) & 0xfff) as bv12, Low5(w >> 5), Low5(w));
  }

  lemma PairDecodes(w: bv32) returns (b: Access)
    requires IsStp(w) || IsStnp(w)
    ensures Is(b, w)
  {
    b := StorePair(Low2(w >> 30), Low1(w >> 26), Low2(w >> 23), ((w >> 15) & 0x7f) as bv7, Low5(w >> 10), Low5(w >> 5), Low5(w));
  }

  function Low4(w: bv32): bv4 { (w & 0xf) as bv4 }

  function Low3(w: bv32): bv3 { (w & 7) as bv3 }

  lemma CountIs(w: bv32)
    requires IsSt1MultipleOpcode(w)
    ensures Low4(w >> 12) == 2 || Low4(w >> 12) == 6 || Low4(w >> 12) == 7 || Low4(w >> 12) == 10
  {
  }

  lemma LaneIs(w: bv32)
    requires IsSt1SingleOpcode(w)
    ensures Low3(w >> 13) == 0 || Low3(w >> 13) == 2 || Low3(w >> 13) == 4
  {
  }

  lemma NoIndex(w: bv32)
    requires w & 0x001f_0000 == 0
    ensures Low5(w >> 16) == 0
  {
  }

  function MultipleOf(w: bv32, post: bool): Access
  {
    StoreMultiple(Low1(w >> 30), post, Low5(w >> 16), Low4(w >> 12), Low2(w >> 10), Low5(w >> 5), Low5(w))
  }

  function LaneOf(w: bv32, post: bool): Access
  {
    StoreSingle(Low1(w >> 30), post, Low5(w >> 16), Low3(w >> 13), Low1(w >> 12), Low2(w >> 10), Low5(w >> 5), Low5(w))
  }

  lemma MultipleWord(w: bv32)
    ensures w & 0xbfe0_0000 == 0x0c00_0000 ==> AccessWord(MultipleOf(w, false)) == w
    ensures w & 0xbfe0_0000 == 0x0c80_0000 ==> AccessWord(MultipleOf(w, true)) == w
  {
  }

  lemma LaneWord(w: bv32)
    ensures w & 0xbfe0_0000 == 0x0d00_0000 ==> AccessWord(LaneOf(w, false)) == w
    ensures w & 0xbfe0_0000 == 0x0d80_0000 ==> AccessWord(LaneOf(w, true)) == w
  {
  }

  lemma HighBits(w: bv32, top: bv32)
    requires w & 0xbfff_0000 == top
    ensures w & 0xbfe0_0000 == top & 0xbfe0_0000 && w & 0x001f_0000 == top & 0x001f_0000
  {
  }

  /** The top of an `ST1`, and its opcode. */
  lemma St1Top(w: bv32)
    ensures IsSt1Multiple(w) ==> w & 0xbfe0_0000 == 0x0c00_0000 && Low5(w >> 16) == 0 && IsSt1MultipleOpcode(w)
    ensures IsSt1Single(w) ==> w & 0xbfe0_0000 == 0x0d00_0000 && Low5(w >> 16) == 0 && IsSt1SingleOpcode(w)
    ensures IsSt1MultiplePost(w) ==> w & 0xbfe0_0000 == 0x0c80_0000 && IsSt1MultipleOpcode(w)
    ensures IsSt1SinglePost(w) ==> w & 0xbfe0_0000 == 0x0d80_0000 && IsSt1SingleOpcode(w)
  {
    hide IsSt1MultipleOpcode, IsSt1SingleOpcode, Low5;
    if IsSt1Multiple(w) { HighBits(w, 0x0c00_0000); NoIndex(w); }
    if IsSt1Single(w) { HighBits(w, 0x0d00_0000); NoIndex(w); }
  }

  lemma StructureDecodes(w: bv32) returns (b: Access)
    requires IsSt1(w)
    ensures Is(b, w)
  {
    St1Top(w);
    hide IsSt1Multiple, IsSt1MultiplePost, IsSt1Single, IsSt1SinglePost, IsSt1MultipleOpcode, IsSt1SingleOpcode;
    hide AccessWord, Low1, Low2, Low3, Low4, Low5;
    MultipleWord(w);
    LaneWord(w);
    if IsSt1Multiple(w) || IsSt1MultiplePost(w) {
      CountIs(w);
      b := MultipleOf(w, !IsSt1Multiple(w));
    } else {
      LaneIs(w);
      b := LaneOf(w, !IsSt1Single(w));
    }
  }

  lemma SeenDecodes(w: bv32) returns (b: Access)
    requires Seen(w)
    ensures Is(b, w)
  {
    hide Is, IsLoadStoreExclusive, IsLoadLiteral, IsStp, IsStnp, IsLoadStoreClass, IsSt1;
    hide IsLoadStoreUnscaled, IsLoadStorePost, IsLoadStoreUnprivileged, IsLoadStorePre, IsLoadStoreRegisterOffset, IsLoadStoreUnsigned;
    if IsLoadStoreExclusive(w) {
      b := ExclusiveDecodes(w);
    } else if IsLoadLiteral(w) {
      b := LiteralDecodes(w);
    } else if IsLoadStoreUnscaled(w) {
      b := UnscaledDecodes(w);
    } else if IsLoadStorePost(w) {
      b := PostDecodes(w);
    } else if IsLoadStoreUnprivileged(w) {
      b := UnprivilegedDecodes(w);
    } else if IsLoadStorePre(w) {
      b := PreDecodes(w);
    } else if IsLoadStoreRegisterOffset(w) {
      b := RegisterDecodes(w);
    } else if IsLoadStoreUnsigned(w) {
      b := UnsignedDecodes(w);
    } else if IsStp(w) || IsStnp(w) {
      b := PairDecodes(w);
    } else {
      b := StructureDecodes(w);
    }
  }

  function DecodeAdrp(w: bv32): Adrp
  {
    Adrp(Low2(w >> 29), Low19(w >> 5), Low5(w))
  }

  lemma AdrpDecodes(w: bv32)
    requires Erratum843419.IsAdrp(w)
    ensures AdrpWord(DecodeAdrp(w)) == w
  {
  }

  // ---- Sequences ----

  /** `adrp xn`, a load or store not taken to write `xn`, a load or store with an unsigned offset from `xn`. */
  predicate IsFound(a: Adrp, b: Access, c: Access)
  {
    c.UnsignedOffset? && c.rn == a.rd && !Takes(b, a.rd)
  }

  lemma SameRegister(m: bv5, n: bv5)
    ensures m as bv32 == n as bv32 <==> m == n
  {
  }

  /** Of an `adrp`, a load or store and a load or store with an unsigned offset, the scanner finds exactly those. */
  lemma SequenceOf(a: Adrp, b: Access, c: Access)
    requires IsAccess(b) && c.UnsignedOffset?
    ensures IsSequence(AdrpWord(a), AccessWord(b), AccessWord(c)) <==> IsFound(a, b, c)
  {
    hide *;
    AdrpFields(a);
    AccessAgrees(b, a.rd);
    UnsignedFields(c.kind, c.uimm, c.rn, c.rt);
    SameRegister(c.rn, a.rd);
    SequenceWords(AdrpWord(a), AccessWord(b), AccessWord(c), a, b, c);
  }

  lemma SequenceWords(x: bv32, y: bv32, z: bv32, a: Adrp, b: Access, c: Access)
    requires Erratum843419.IsAdrp(x) && DestinationRegister(x) == a.rd as bv32
    requires y == AccessWord(b) && Agrees(b, a.rd)
    requires c.UnsignedOffset? && IsLoadStoreUnsigned(z) && BaseRegister(z) == c.rn as bv32
    requires c.rn as bv32 == a.rd as bv32 <==> c.rn == a.rd
    ensures IsSequence(x, y, z) <==> IsFound(a, b, c)
  {
    hide AccessWord, Takes, LoadStoreWrites, Erratum843419.IsAdrp, DestinationRegister, BaseRegister, IsLoadStoreUnsigned;
    hide IsLoadStoreClass, IsLoadStoreExclusive, IsLoadLiteral, IsSingleRegisterLoadStore, IsStp, IsStnp, IsSt1;
  }

  /** And the words of a sequence are always three of those. */
  lemma SequenceDecodes(x: bv32, y: bv32, z: bv32) returns (a: Adrp, b: Access, c: Access)
    requires IsSequence(x, y, z)
    ensures x == AdrpWord(a) && y == AccessWord(b) && z == AccessWord(c)
    ensures IsAccess(b) && IsFound(a, b, c)
  {
    a := DecodeAdrp(x);
    hide AccessWord, AdrpWord, LoadStoreWrites, Erratum843419.IsAdrp, DestinationRegister, BaseRegister, IsLoadStoreUnsigned, Takes, IsFound;
    hide IsLoadStoreClass, IsLoadStoreExclusive, IsLoadLiteral, IsSingleRegisterLoadStore, IsStp, IsStnp, IsSt1, IsAccess, DecodeAdrp;
    AdrpDecodes(x);
    b := SeenDecodes(y);
    c := UnsignedDecodes(z);
    SequenceOf(a, b, c);
  }

  // ---- What an access writes ----

  /** The encodings that Armv8.0 defines. */
  predicate Allocated(b: Access)
  {
    match b
    case Exclusive(size, ordered, _, pair, _, _, _, _, _) => pair == 1 ==> ordered == 0 && size >= 2
    case Literal(opc, vector, _, _) => vector == 1 ==> opc != 3
    case Unscaled(kind, imm, _, _) => AllocatedKind(kind, true) && imm < 0x200
    case PostIndexed(kind, _, _, _) => AllocatedKind(kind, false)
    case Unprivileged(kind, _, _, _) => AllocatedKind(kind, false) && kind.vector == 0
    case PreIndexed(kind, _, _, _) => AllocatedKind(kind, false)
    case RegisterOffset(kind, _, _, _) => AllocatedKind(kind, true)
    case UnsignedOffset(kind, _, _, _) => AllocatedKind(kind, true)
    case _ => IsAccess(b)
  }

  /** Vectors have operations 2 and 3 for 128 bits only; for integers 2 and 3 load with a sign, or prefetch 64 bits. */
  predicate AllocatedKind(kind: Kind, prefetch: bool)
  {
    if kind.vector == 1 then kind.opc <= 1 || kind.size == 0
    else (kind.opc == 2 ==> kind.size != 3 || prefetch) && (kind.opc == 3 ==> kind.size <= 1)
  }

  /** An integer load; the rest are stores, prefetches, and transfers of vector registers. */
  predicate LoadsInteger(kind: Kind)
  {
    kind.vector == 0 && (kind.opc == 1 || kind.opc == 3 || (kind.opc == 2 && kind.size != 3))
  }

  /** The access writes the general register `n`: loaded data, the status of an exclusive store, or the updated base. */
  predicate Writes(b: Access, n: bv5)
  {
    match b
    case Exclusive(_, ordered, load, pair, rs, _, rt2, _, rt) =>
      if load == 1 then rt == n || (pair == 1 && rt2 == n) else ordered == 0 && rs == n
    case Literal(opc, vector, _, rt) => vector == 0 && opc != 3 && rt == n
    case Unscaled(kind, _, _, rt) => LoadsInteger(kind) && rt == n
    case PostIndexed(kind, _, rn, rt) => (LoadsInteger(kind) && rt == n) || rn == n
    case Unprivileged(kind, _, _, rt) => LoadsInteger(kind) && rt == n
    case PreIndexed(kind, _, rn, rt) => (LoadsInteger(kind) && rt == n) || rn == n
    case RegisterOffset(kind, _, _, rt) => LoadsInteger(kind) && rt == n
    case UnsignedOffset(kind, _, _, rt) => LoadsInteger(kind) && rt == n
    case StorePair(_, _, mode, _, _, rn, _) => (mode == 1 || mode == 3) && rn == n
    case StoreMultiple(_, post, _, _, _, rn, _) => post && rn == n
    case StoreSingle(_, post, _, _, _, _, rn, _) => post && rn == n
  }

  /** It loads a vector register of that number, or prefetches with it: taken to write the general register, which it does not. */
  predicate TakenWrongly(b: Access, n: bv5)
  {
    match b
    case Literal(opc, vector, _, rt) => rt == n && (vector == 1 || opc == 3)
    case Unscaled(kind, _, _, rt) => rt == n && LoadsVector(kind)
    case PostIndexed(kind, _, rn, rt) => rt == n && rn != n && LoadsVector(kind)
    case PreIndexed(kind, _, rn, rt) => rt == n && rn != n && LoadsVector(kind)
    case RegisterOffset(kind, _, _, rt) => rt == n && LoadsVector(kind)
    case UnsignedOffset(kind, _, _, rt) => rt == n && LoadsVector(kind)
    case _ => false
  }

  /** Loads of vectors have the low bit of the operation set. */
  predicate LoadsVector(kind: Kind)
  {
    kind.vector == 1 && (kind.opc == 1 || kind.opc == 3)
  }

  /** It writes the register as the status of an exclusive store, or as the second of an exclusive pair: not taken to. */
  predicate Overlooked(b: Access, n: bv5)
  {
    match b
    case Exclusive(_, ordered, load, pair, rs, _, rt2, _, rt) =>
      if load == 1 then pair == 1 && rt2 == n && rt != n else ordered == 0 && rs == n
    case _ => false
  }

  /** Exactly those two kinds of accesses are misjudged. */
  lemma TakesExactly(b: Access, n: bv5)
    requires Allocated(b)
    ensures Takes(b, n) && !Writes(b, n) <==> TakenWrongly(b, n)
    ensures !Takes(b, n) && Writes(b, n) <==> Overlooked(b, n)
  {
  }

  /**
    The scanner finds `adrp xn`, a load or store that does not write `xn`, an
    access with an unsigned offset from `xn`, and nothing else, exactly unless
    the second instruction loads vector register `n`, prefetches with number `n`
    from a literal, or writes `xn` as a status or as the second of a pair.
   */
  lemma SequenceExact(a: Adrp, b: Access, c: Access)
    requires IsAccess(b) && Allocated(b) && c.UnsignedOffset?
    ensures (IsSequence(AdrpWord(a), AccessWord(b), AccessWord(c)) <==> c.rn == a.rd && !Writes(b, a.rd))
       <==> !(c.rn == a.rd && (TakenWrongly(b, a.rd) || Overlooked(b, a.rd)))
  {
    SequenceOf(a, b, c);
    TakesExactly(b, a.rd);
    hide *;
    FoundIs(a, b, c);
  }

  lemma FoundIs(a: Adrp, b: Access, c: Access)
    ensures IsFound(a, b, c) <==> c.UnsignedOffset? && c.rn == a.rd && !Takes(b, a.rd)
  {
    hide Takes;
  }

  /** `adrp x0`, `ldr d0, [x1]`, `ldr x3, [x0, #8]`: the load leaves x0 alone, and the sequence is missed. */
  lemma VectorMissed()
    ensures !IsSequence(0x9000_0000, 0xfd40_0020, 0xf940_0403)
    ensures var b := UnsignedOffset(Kind(3, 1, 1), 0, 1, 0); AccessWord(b) == 0xfd40_0020 && !Writes(b, 0)
    ensures AdrpWord(Adrp(0, 0, 0)) == 0x9000_0000 && AccessWord(UnsignedOffset(Kind(3, 0, 1), 1, 0, 3)) == 0xf940_0403
  {
  }

  /** `adrp x0`, `stxr w0, x1, [x2]`, `ldr x3, [x0, #8]`: the store's status overwrites x0, and a site is found. */
  lemma StatusFound()
    ensures IsSequence(0x9000_0000, 0xc800_7c41, 0xf940_0403)
    ensures var b := Exclusive(3, 0, 0, 0, 0, 0, 31, 2, 1); AccessWord(b) == 0xc800_7c41 && Writes(b, 0)
  {
  }

  // ---- What a found sequence does ----

  /** The general registers; 31 is none of them. */
  type Registers64 = bv5 -> int

  /** What `adrp` puts in its register: the page of the place plus a signed number of pages. */
  function AdrpValue(pc: int, a: Adrp): int
  {
    A64.Page(pc) + A64.PAGE * Signed(4 * (a.high as int) + (a.low as int), 0x20_0000)
  }

  /** The load or store is done, whatever it does with memory: registers it does not write are as before. */
  ghost predicate Done(b: Access, before: Registers64, after: Registers64)
  {
    forall n: bv5 :: n != 31 && !Writes(b, n) ==> after(n) == before(n)
  }

  /** Bytes of the operand. */
  function Scale(kind: Kind): nat
  {
    if kind.vector == 1 && kind.opc >= 2 then 16 else if kind.size == 0 then 1 else if kind.size == 1 then 2 else if kind.size == 2 then 4 else 8
  }

  function Address(c: Access, registers: Registers64): int
    requires c.UnsignedOffset?
  {
    registers(c.rn) + (c.uimm as int) * Scale(c.kind)
  }

  /**
    After a found sequence the last instruction accesses the page the `adrp`
    named, whatever the one between did, unless that one is overlooked.
   */
  lemma FoundAccess(pc: int, a: Adrp, b: Access, c: Access, one: Registers64, two: Registers64)
    requires IsSequence(AdrpWord(a), AccessWord(b), AccessWord(c)) && IsAccess(b) && Allocated(b) && c.UnsignedOffset? && a.rd != 31
    requires one(a.rd) == AdrpValue(pc, a) && Done(b, one, two) && !Overlooked(b, a.rd)
    ensures Address(c, two) == AdrpValue(pc, a) + (c.uimm as int) * Scale(c.kind)
  {
    SequenceOf(a, b, c);
    TakesExactly(b, a.rd);
    hide IsSequence, AccessWord, AdrpWord, Takes, Writes, Overlooked, TakenWrongly, AdrpValue, Scale;
  }

  // ---- Branches ----

  datatype BranchInsn =
    | Immediate(link: bv1, imm26: bv26)
    | CompareOrTest(wide: bv1, test: bv1, nonzero: bv1, imm19: bv19, rt: bv5)
    | Conditional(o1: bv1, cimm: bv19, o0: bv1, cond: bv4)
    | ToRegister(opc: bv4, op2: bv5, op3: bv6, rn: bv5, op4: bv5)

  function BranchWord(b: BranchInsn): bv32
  {
    match b
    case Immediate(link, imm26) => 0x1400_0000 | ((link as bv32) << 31) | (imm26 as bv32)
    case CompareOrTest(wide, test, nonzero, imm19, rt) =>
      0x3400_0000 | ((wide as bv32) << 31) | ((test as bv32) << 25) | ((nonzero as bv32) << 24) | ((imm19 as bv32) << 5) | (rt as bv32)
    case Conditional(o1, cimm, o0, cond) =>
      0x5400_0000 | ((o1 as bv32) << 24) | ((cimm as bv32) << 5) | ((o0 as bv32) << 4) | (cond as bv32)
    case ToRegister(opc, op2, op3, rn, op4) =>
      0xd600_0000 | ((opc as bv32) << 21) | ((op2 as bv32) << 16) | ((op3 as bv32) << 10) | ((rn as bv32) << 5) | (op4 as bv32)
  }

  lemma BranchFields(b: BranchInsn)
    ensures Erratum843419.IsBranch(BranchWord(b))
  {
  }

  lemma RegisterForm(w: bv32) returns (b: BranchInsn)
    requires w & 0xfe00_0000 == 0xd600_0000
    ensures BranchWord(b) == w
  {
    b := ToRegister(Low4(w >> 21), Low5(w >> 16), ((w >> 10) & 0x3f) as bv6, Low5(w >> 5), Low5(w));
  }

  lemma ConditionalForm(w: bv32) returns (b: BranchInsn)
    requires w & 0xfe00_0000 == 0x5400_0000
    ensures BranchWord(b) == w
  {
    b := Conditional(Low1(w >> 24), Low19(w >> 5), Low1(w >> 4), Low4(w));
  }

  lemma ImmediateForm(w: bv32) returns (b: BranchInsn)
    requires w & 0x7c00_0000 == 0x1400_0000
    ensures BranchWord(b) == w
  {
    b := Immediate(Low1(w >> 31), (w & 0x3ff_ffff) as bv26);
  }

  lemma CompareForm(w: bv32) returns (b: BranchInsn)
    requires w & 0x7c00_0000 == 0x3400_0000
    ensures BranchWord(b) == w
  {
    b := CompareOrTest(Low1(w >> 31), Low1(w >> 25), Low1(w >> 24), Low19(w >> 5), Low5(w));
  }

  /** What ends a sequence is a branch of one of the four forms, and every one does. */
  lemma BranchDecodes(w: bv32) returns (b: BranchInsn)
    requires Erratum843419.IsBranch(w)
    ensures BranchWord(b) == w
  {
    hide BranchWord;
    if w & 0xfe00_0000 == 0xd600_0000 {
      b := RegisterForm(w);
    } else if w & 0xfe00_0000 == 0x5400_0000 {
      b := ConditionalForm(w);
    } else if w & 0x7c00_0000 == 0x1400_0000 {
      b := ImmediateForm(w);
    } else {
      b := CompareForm(w);
    }
  }

  // ---- Where the sites are ----

  /** The instruction at `o`, low byte first. */
  lemma WordIs(code: seq<bv8>, o: nat)
    requires o + 4 <= |code|
    ensures var w := WordAt(code, o);
      && w & 0xff == code[o] as bv32 && (w >> 8) & 0xff == code[o + 1] as bv32
      && (w >> 16) & 0xff == code[o + 2] as bv32 && w >> 24 == code[o + 3] as bv32
  {
    WordOfBytes(code[o], code[o + 1], code[o + 2], code[o + 3]);
  }

  lemma WordOfBytes(a: bv8, b: bv8, c: bv8, d: bv8)
    ensures var w := (a as bv32) | ((b as bv32) << 8) | ((c as bv32) << 16) | ((d as bv32) << 24);
      w & 0xff == a as bv32 && (w >> 8) & 0xff == b as bv32 && (w >> 16) & 0xff == c as bv32 && w >> 24 == d as bv32
  {
  }

  /** Three instructions from `o` on are a sequence. */
  predicate ThreeAt(code: seq<bv8>, o: nat, end: nat)
  {
    o + 12 <= end <= |code| && IsSequence(WordAt(code, o), WordAt(code, o + 4), WordAt(code, o + 8))
  }

  /** Four are, the third of them any that is no branch. */
  predicate FourAt(code: seq<bv8>, o: nat, end: nat)
  {
    o + 12 < end <= |code| && o + 16 <= |code| && !Erratum843419.IsBranch(WordAt(code, o + 8))
    && IsSequence(WordAt(code, o), WordAt(code, o + 4), WordAt(code, o + 12))
  }

  /** `site` ends a sequence whose `adrp` is one of the last two words of a page. */
  ghost predicate IsSite(code: seq<bv8>, address: nat, o: nat, end: nat, site: nat)
  {
    exists k: nat :: SiteFrom(code, address, o + 4 * k, end, site)
  }

  predicate SiteFrom(code: seq<bv8>, address: nat, at: nat, end: nat, site: nat)
  {
    && ((address + at) % 4096 == 4088 || (address + at) % 4096 == 4092)
    && if ThreeAt(code, at, end) then site == at + 8 else FourAt(code, at, end) && site == at + 12
  }

  lemma OneSite(code: seq<bv8>, address: nat, o: nat, end: nat, site: nat)
    requires o < end <= |code|
    ensures site in (if AtPageEnd(address, o) then SequenceAt(code, o, end) else []) <==> SiteFrom(code, address, o, end, site)
  {
    hide IsSequence, WordAt, Erratum843419.IsBranch;
  }

  lemma SiteNext(code: seq<bv8>, address: nat, o: nat, end: nat, site: nat)
    ensures IsSite(code, address, o, end, site) <==> SiteFrom(code, address, o, end, site) || IsSite(code, address, o + 4, end, site)
  {
    hide SiteFrom;
    if IsSite(code, address, o, end, site) {
      var k: nat :| SiteFrom(code, address, o + 4 * k, end, site);
      if k > 0 { assert SiteFrom(code, address, o + 4 + 4 * (k - 1), end, site); }
    }
    if SiteFrom(code, address, o, end, site) { assert SiteFrom(code, address, o + 4 * 0, end, site); }
    if IsSite(code, address, o + 4, end, site) {
      var k: nat :| SiteFrom(code, address, o + 4 + 4 * k, end, site);
      assert SiteFrom(code, address, o + 4 * (k + 1), end, site);
    }
  }

  lemma NoSite(code: seq<bv8>, address: nat, o: nat, end: nat, site: nat)
    requires o >= end
    ensures !IsSite(code, address, o, end, site)
  {
    hide IsSequence, WordAt, Erratum843419.IsBranch;
  }

  /** The scan returns exactly the sites. */
  lemma {:induction false} SitesAre(code: seq<bv8>, address: nat, o: nat, end: nat, site: nat)
    requires end <= |code|
    ensures site in Naive(code, address, o, end) <==> IsSite(code, address, o, end, site)
    decreases if o < end then end - o else 0
  {
    hide SequenceAt, AtPageEnd, IsSite, SiteFrom;
    if o >= end {
      NoSite(code, address, o, end, site);
    } else {
      SitesAre(code, address, o + 4, end, site);
      SiteNext(code, address, o, end, site);
      OneSite(code, address, o, end, site);
      var (first, rest) := (if AtPageEnd(address, o) then SequenceAt(code, o, end) else [], Naive(code, address, o + 4, end));
      assert site in first + rest <==> site in first || site in rest;
    }
  }
}
