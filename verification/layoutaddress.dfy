/** Addresses and file offsets of the output sections. */
module LayoutAddress {
  import opened Bits
  import opened Results
  import opened LayoutModel
  import opened LayoutBuild

  /** Why an image does not fit in 32 bits. */
  datatype Limit = HeadersTooLarge | SectionTooLarge | FileTooLarge | ImageTooLarge

  /** The DOS stub, the signature and file header, the optional header and the section table. */
  function HeaderSize(sections: nat, pe32: bool): (r: nat)
    ensures r >= 376
  {
    128 + 24 + (if pe32 then 224 else 240) + sections * 40
  }

  /** The end of section `k`'s predecessors, rounded: where section `k` starts. */
  function RvaAt(sections: seq<OutSection>, k: nat, headers: nat, alignment: nat): nat
  {
    if k == 0 || k > |sections| then AlignUp32(headers, alignment)
    else AlignUp32(RvaAt(sections, k - 1, headers, alignment) + sections[k - 1].virtualSize, alignment)
  }

  /** The end of the last section, rounded: the size of the image. */
  function EndRva(sections: seq<OutSection>, headers: nat, alignment: nat): nat
  {
    RvaAt(sections, |sections|, headers, alignment)
  }

  function RawSize(section: OutSection, alignment: nat): nat
  {
    if section.IsBss() then 0 else AlignUp64(section.virtualSize, alignment)
  }

  function FileAt(sections: seq<OutSection>, k: nat, headers: nat, alignment: nat): nat
  {
    if k == 0 || k > |sections| then headers else FileAt(sections, k - 1, headers, alignment) + RawSize(sections[k - 1], alignment)
  }

  function EndOffset(sections: seq<OutSection>, headers: nat, alignment: nat): nat
  {
    FileAt(sections, |sections|, headers, alignment)
  }

  /** Section `k` ends within 32 bits in memory and, if it has contents, starts and measures within 32 bits in the file. */
  predicate Fits(sections: seq<OutSection>, k: nat, headers: nat, fileAlignment: nat, sectionAlignment: nat)
  {
    && k < |sections|
    && RvaAt(sections, k, headers, sectionAlignment) + sections[k].virtualSize <= U32_MAX
    && (!sections[k].IsBss() ==>
          RawSize(sections[k], fileAlignment) <= U32_MAX && FileAt(sections, k, headers, fileAlignment) <= U32_MAX)
  }

  /** The section with its addresses. */
  function Addressed(sections: seq<OutSection>, k: nat, headers: nat, fileAlignment: nat, sectionAlignment: nat): OutSection
    requires k < |sections|
  {
    sections[k].(rva := RvaAt(sections, k, headers, sectionAlignment),
                 rawSize := RawSize(sections[k], fileAlignment),
                 fileOffset := if sections[k].IsBss() then 0 else FileAt(sections, k, headers, fileAlignment))
  }

  predicate AllAddressed(sections: seq<OutSection>, given: seq<OutSection>, k: nat, headers: nat, fileAlignment: nat, sectionAlignment: nat)
  {
    && |sections| == |given| && k <= |given|
    && (forall i :: 0 <= i < k ==> Fits(given, i, headers, fileAlignment, sectionAlignment))
    && (forall i :: 0 <= i < k ==> sections[i] == Addressed(given, i, headers, fileAlignment, sectionAlignment))
    && (forall i :: k <= i < |given| ==> sections[i] == given[i])
  }

  datatype Addresses = Addresses(sections: seq<OutSection>, headers: nat, image: nat, file: nat)

  function HeadersOf(sections: seq<OutSection>, pe32: bool, fileAlignment: nat): nat
  {
    AlignUp64(HeaderSize(|sections|, pe32), fileAlignment)
  }

  /** The headers and every section fit. */
  predicate AllFit(sections: seq<OutSection>, pe32: bool, fileAlignment: nat, sectionAlignment: nat)
  {
    var headers := HeadersOf(sections, pe32, fileAlignment);
    headers <= U32_MAX && forall k :: 0 <= k < |sections| ==> Fits(sections, k, headers, fileAlignment, sectionAlignment)
  }

  /** All that the addresses given to `given` come to. */
  predicate AddressesAre(a: Addresses, given: seq<OutSection>, pe32: bool, fileAlignment: nat, sectionAlignment: nat)
  {
    && a.headers == HeadersOf(given, pe32, fileAlignment)
    && AllAddressed(a.sections, given, |given|, a.headers, fileAlignment, sectionAlignment)
    && a.image == EndRva(given, a.headers, sectionAlignment)
    && a.file == EndOffset(given, a.headers, fileAlignment)
  }

  /** The first section that does not fit, and in what way. */
  predicate StopsAt(given: seq<OutSection>, k: nat, headers: nat, fileAlignment: nat, sectionAlignment: nat, limit: Limit)
  {
    && k < |given| && (forall i :: 0 <= i < k ==> Fits(given, i, headers, fileAlignment, sectionAlignment))
    && var contents := !given[k].IsBss();
       if contents && RawSize(given[k], fileAlignment) > U32_MAX then limit == SectionTooLarge
       else if contents && FileAt(given, k, headers, fileAlignment) > U32_MAX then limit == FileTooLarge
       else RvaAt(given, k, headers, sectionAlignment) + given[k].virtualSize > U32_MAX && limit == ImageTooLarge
  }

  ghost predicate LimitRight(given: seq<OutSection>, headers: nat, fileAlignment: nat, sectionAlignment: nat, limit: Limit)
  {
    if headers > U32_MAX then limit == HeadersTooLarge
    else exists k: nat :: StopsAt(given, k, headers, fileAlignment, sectionAlignment, limit)
  }

  /** Places the headers and then each section, rounding its address and its file offset up. */
  method AssignAddresses(given: seq<OutSection>, pe32: bool, fileAlignment: nat, sectionAlignment: nat)
    returns (r: Result<Addresses, Limit>)
    ensures match r
      case Ok(a) => AllFit(given, pe32, fileAlignment, sectionAlignment) && AddressesAre(a, given, pe32, fileAlignment, sectionAlignment)
      case Err(limit) =>
        !AllFit(given, pe32, fileAlignment, sectionAlignment)
        && LimitRight(given, HeadersOf(given, pe32, fileAlignment), fileAlignment, sectionAlignment, limit)
  {
    hide AlignUp32, AlignUp64;
    var headers := AlignUp64(HeaderSize(|given|, pe32), fileAlignment);
    if headers > U32_MAX { return Err(HeadersTooLarge); }
    var sections := given;
    var rva, file := AlignUp32(headers, sectionAlignment), headers;
    for k := 0 to |given|
      invariant AllAddressed(sections, given, k, headers, fileAlignment, sectionAlignment)
      invariant rva == RvaAt(given, k, headers, sectionAlignment)
      invariant file == FileAt(given, k, headers, fileAlignment)
    {
      var section := sections[k].(rva := rva);
      if section.IsBss() {
        section := section.(rawSize := 0, fileOffset := 0);
      } else {
        var raw := AlignUp64(section.virtualSize, fileAlignment);
        if raw > U32_MAX {
          assert !Fits(given, k, headers, fileAlignment, sectionAlignment);
          assert StopsAt(given, k, headers, fileAlignment, sectionAlignment, SectionTooLarge);
          return Err(SectionTooLarge);
        }
        if file > U32_MAX {
          assert !Fits(given, k, headers, fileAlignment, sectionAlignment);
          assert StopsAt(given, k, headers, fileAlignment, sectionAlignment, FileTooLarge);
          return Err(FileTooLarge);
        }
        section := section.(rawSize := raw, fileOffset := file);
        file := file + raw;
      }
      if rva + section.virtualSize > U32_MAX {
        assert !Fits(given, k, headers, fileAlignment, sectionAlignment);
        assert StopsAt(given, k, headers, fileAlignment, sectionAlignment, ImageTooLarge);
        return Err(ImageTooLarge);
      }
      rva := AlignUp32(rva + section.virtualSize, sectionAlignment);
      sections := sections[k := section];
    }
    return Ok(Addresses(sections, headers, rva, file));
  }

  /** Addresses depend on sizes and kinds only. */
  lemma {:induction false} AddressesSame(a: seq<OutSection>, b: seq<OutSection>, k: nat, headers: nat, fileAlignment: nat, sectionAlignment: nat)
    requires |a| == |b| && k <= |a|
    requires forall i :: 0 <= i < |a| ==> a[i].virtualSize == b[i].virtualSize && a[i].flags == b[i].flags
    ensures RvaAt(a, k, headers, sectionAlignment) == RvaAt(b, k, headers, sectionAlignment)
    ensures FileAt(a, k, headers, fileAlignment) == FileAt(b, k, headers, fileAlignment)
  {
    if k > 0 { AddressesSame(a, b, k - 1, headers, fileAlignment, sectionAlignment); }
  }

  /** Later sections start at or after the end of earlier ones. */
  lemma {:induction false} RvasRise(sections: seq<OutSection>, i: nat, j: nat, headers: nat, alignment: nat)
    requires i < j <= |sections|
    ensures RvaAt(sections, i, headers, alignment) + sections[i].virtualSize <= RvaAt(sections, j, headers, alignment)
  {
    if i < j - 1 { RvasRise(sections, i, j - 1, headers, alignment); }
  }

  lemma {:induction false} HeadersFirst(sections: seq<OutSection>, k: nat, headers: nat, fileAlignment: nat, sectionAlignment: nat)
    requires k <= |sections|
    ensures headers <= RvaAt(sections, k, headers, sectionAlignment) && headers <= FileAt(sections, k, headers, fileAlignment)
  {
    if k > 0 { HeadersFirst(sections, k - 1, headers, fileAlignment, sectionAlignment); }
  }

  lemma {:induction false} OffsetsRise(sections: seq<OutSection>, i: nat, j: nat, headers: nat, alignment: nat)
    requires i < j <= |sections|
    ensures FileAt(sections, i, headers, alignment) + RawSize(sections[i], alignment) <= FileAt(sections, j, headers, alignment)
  {
    if i < j - 1 { OffsetsRise(sections, i, j - 1, headers, alignment); }
  }

  lemma {:induction false} OffsetsAligned(sections: seq<OutSection>, k: nat, headers: nat, alignment: nat)
    requires k <= |sections| && alignment > 1 && headers % alignment == 0
    ensures FileAt(sections, k, headers, alignment) % alignment == 0
  {
    if k > 0 {
      OffsetsAligned(sections, k - 1, headers, alignment);
      var (a, b) := (FileAt(sections, k - 1, headers, alignment), RawSize(sections[k - 1], alignment));
      RawAligned(sections[k - 1], alignment);
      SumAligned(a, b, alignment);
    }
  }

  lemma RawAligned(section: OutSection, alignment: nat)
    requires alignment > 1
    ensures RawSize(section, alignment) % alignment == 0
  {
  }

  lemma SumAligned(a: nat, b: nat, m: nat)
    requires m > 0 && a % m == 0 && b % m == 0
    ensures (a + b) % m == 0
  {
    ModAddMultiple(a, b / m, m);
    assert b == b / m * m;
  }
}
