/** Where the headers of an image are written, and the room the layout leaves for them. */
module ImageHeaders {
  import opened LayoutModel
  import opened LayoutAddress
  import opened LayoutPlan

  /** How far the headers are written. */
  class Cursor {
    var at: nat

    constructor ()
      ensures at == 0
    {
      at := 0;
    }

    method Put(n: nat)
      modifies this
      ensures at == old(at) + n
    {
      at := at + n;
    }

    /** A field that PE32+ widens to 64 bits. */
    method Wide(pe32: bool)
      modifies this
      ensures at == old(at) + if pe32 then 4 else 8
    {
      if pe32 { Put(4); } else { Put(8); }
    }

    /** `IMAGE_FILE_HEADER`: machine, sections, time, symbol table, symbols, size of the optional header, characteristics. */
    method FileHeader()
      modifies this
      ensures at == old(at) + 20
    {
      Put(2);
      Put(2);
      Put(4);
      Put(4);
      Put(4);
      Put(2);
      Put(2);
    }

    /** The optional header up to the checksum, and from there on with its sixteen directories. */
    method OptionalStart(pe32: bool)
      modifies this
      ensures at == old(at) + 64
    {
      Put(2); // Magic
      Put(1);
      Put(1);
      Put(4); // SizeOfCode
      Put(4);
      Put(4);
      Put(4); // AddressOfEntryPoint
      Put(4);
      if pe32 { Put(4); } // BaseOfData
      Wide(pe32); // ImageBase
      Put(4);
      Put(4);
      Put(2); // MajorOperatingSystemVersion
      Put(2);
      Put(2);
      Put(2);
      Put(2);
      Put(2);
      Put(4); // Win32VersionValue
      Put(4);
      Put(4);
    }

    method OptionalEnd(pe32: bool)
      modifies this
      ensures at == old(at) + if pe32 then 160 else 176
    {
      Put(4); // CheckSum
      Put(2);
      Put(2);
      Wide(pe32); // SizeOfStackReserve
      Wide(pe32);
      Wide(pe32);
      Wide(pe32);
      Put(4); // LoaderFlags
      Put(4);
      for k := 0 to 16
        invariant at == old(at) + (if pe32 then 32 else 48) + 8 * k
      {
        Put(4);
        Put(4);
      }
    }

    /** A section: name, sizes and places, relocations and line numbers, flags. */
    method SectionHeader()
      modifies this
      ensures at == old(at) + 40
    {
      Put(8);
      Put(4);
      Put(4);
      Put(4);
      Put(4);
      Put(4);
      Put(4);
      Put(2);
      Put(2);
      Put(4);
    }
  }

  /**
    `write_headers`: the stub, the signature, the file header, the optional
    header, the section table. They end where the layout reckons, the optional
    header has the size stated for it, and the checksum is at 216 in both forms.
   */
  method WriteHeaders(sections: nat, pe32: bool) returns (optional: nat, checksum: nat, table: nat, end: nat)
    ensures end == HeaderSize(sections, pe32) && table - optional == (if pe32 then 224 else 240) && checksum == 128 + 24 + 64
  {
    var w := new Cursor();
    w.Put(128);
    w.Put(4);
    w.FileHeader();
    optional := w.at;
    w.OptionalStart(pe32);
    checksum := w.at;
    w.OptionalEnd(pe32);
    table := w.at;
    for k := 0 to sections
      invariant w.at == table + 40 * k
    {
      w.SectionHeader();
    }
    end := w.at;
  }

  /** In an accepted layout the headers fit before everything else, with less than one alignment to spare. */
  lemma HeadersFit(l: Layout, recipe: seq<Step>, trailing: seq<string>, input: Input)
    requires Accepted(l, recipe, trailing, input)
    ensures var written := 128 + 4 + 20 + (if input.pe32 then 224 else 240) + 40 * |l.sections|;
      written <= l.sizeOfHeaders < written + (if input.fileAlignment > 1 then input.fileAlignment else 1)
  {
    hide Given, RecordsRight, AllAddressed, EndRva, EndOffset, Fits;
  }
}
