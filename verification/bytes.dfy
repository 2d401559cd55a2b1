/** Byte buffers and the little-endian words in them. */
module Bytes {
  import opened Bits
  import opened Results

  type Byte = b: int | 0 <= b < 256

  /** A text of byte-sized characters, as the source's byte strings are written. */
  function Ascii(text: string): (bytes: seq<Byte>)
    ensures |bytes| == |text|
  {
    seq(|text|, i requires 0 <= i < |text| => (text[i] as int % 256) as Byte)
  }

  /** `u32::to_le_bytes` of a word, and of the low 32 bits of any other number. */
  function Le32(word: int): (bytes: seq<Byte>)
    ensures |bytes| == 4
  {
    [word % 256, (word / 0x100) % 256, (word / 0x1_0000) % 256, (word / 0x100_0000) % 256]
  }

  function Le16(half: int): (bytes: seq<Byte>)
    ensures |bytes| == 2
  {
    [half % 256, (half / 0x100) % 256]
  }

  function Word32(bytes: seq<Byte>): (word: nat)
    requires |bytes| == 4
    ensures word < U32
  {
    var (b0: int, b1: int, b2: int, b3: int) := (bytes[0], bytes[1], bytes[2], bytes[3]);
    b0 + 0x100 * b1 + 0x1_0000 * b2 + 0x100_0000 * b3
  }

  function Word16(bytes: seq<Byte>): (half: nat)
    requires |bytes| == 2
    ensures half < U16
  {
    var (b0: int, b1: int) := (bytes[0], bytes[1]);
    b0 + 0x100 * b1
  }

  lemma Word32OfLe32(word: nat)
    requires word < U32
    ensures Word32(Le32(word)) == word
  {
    DivDiv(word, 0x100, 0x100);
    DivDiv(word, 0x1_0000, 0x100);
  }

  lemma Word16OfLe16(half: nat)
    requires half < U16
    ensures Word16(Le16(half)) == half
  {
  }

  /** `read_insn`: the word at `at`, if the data is long enough. */
  function ReadWord(data: seq<Byte>, at: nat): Option<nat>
  {
    if at + 4 <= |data| then Some(Word32(data[at..at + 4])) else None
  }

  /** `data` with `bytes` written over it at `at`. */
  function Patched(data: seq<Byte>, at: nat, bytes: seq<Byte>): (r: seq<Byte>)
    requires at + |bytes| <= |data|
    ensures |r| == |data|
  {
    data[..at] + bytes + data[at + |bytes|..]
  }

  lemma PatchedSlice(data: seq<Byte>, at: nat, bytes: seq<Byte>, lo: nat, hi: nat)
    requires at + |bytes| <= |data| && lo <= hi <= |data|
    ensures hi <= at || at + |bytes| <= lo ==> Patched(data, at, bytes)[lo..hi] == data[lo..hi]
    ensures lo == at && hi == at + |bytes| ==> Patched(data, at, bytes)[lo..hi] == bytes
  {
    var p := Patched(data, at, bytes);
    assert forall i :: 0 <= i < at ==> p[i] == data[i];
    assert forall i :: 0 <= i < |bytes| ==> p[at + i] == bytes[i];
    assert forall i :: at + |bytes| <= i < |data| ==> p[i] == data[i];
    hide Patched;
    if hi <= at || at + |bytes| <= lo { assert p[lo..hi] == data[lo..hi]; }
    if lo == at && hi == at + |bytes| { assert p[lo..hi] == bytes; }
  }

  /** The bytes from `at` up to a NUL, which must come. */
  function CString(data: seq<Byte>, at: nat): (r: Option<seq<Byte>>)
    ensures r.Some? ==> at + |r.value| < |data|
    decreases |data| - at
  {
    if at >= |data| then None
    else if data[at] == 0 then Some([])
    else
      var rest := CString(data, at + 1);
      if rest.None? then None else Some([data[at]] + rest.value)
  }

  /** A string that stands at `at`, ended by its NUL, is what is read there. */
  lemma {:induction false} CStringReads(data: seq<Byte>, at: nat, text: seq<Byte>)
    requires 0 !in text && at + |text| < |data| && data[at..at + |text|] == text && data[at + |text|] == 0
    ensures CString(data, at) == Some(text)
    decreases |text|
  {
    if text != [] {
      assert data[at] == data[at..at + |text|][0] == text[0];
      assert data[at + 1..at + 1 + |text[1..]|] == text[1..];
      CStringReads(data, at + 1, text[1..]);
      assert text == [text[0]] + text[1..];
    }
  }
}
