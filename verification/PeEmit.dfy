/** The image that native/wineforge/mkexe.c writes (lines 74-135) and that build_pe of
    native/wineforge/peload_test.c builds for exit code 0x2A: stores into a zeroed buffer. */
module PeEmit {

  import opened Bytes

  const IMAGE_SIZE: nat := 0x4000
  const TEXT_RVA: nat := 0x1000
  const DATA_RVA: nat := 0x2000
  const RELOC_RVA: nat := 0x3000
  const PREFERRED_BASE: nat := 0x140000000
  const OPTIONAL_SIZE: nat := 240
  const SECTIONS_AT: nat := 0x148

  predicate Field(img: seq<byte>, at: nat, bs: seq<byte>) {
    at + |bs| <= |img| && img[at..at + |bs|] == bs
  }

  /** DOS, PE and file header. */
  ghost predicate Headers(img: seq<byte>) {
    && Field(img, 0x00, Le(0x5A4D, 2)) && Field(img, 0x3C, Le(0x40, 4)) && Field(img, 0x40, Le(0x4550, 4))
    && Field(img, 0x44, Le(0x8664, 2)) && Field(img, 0x46, Le(3, 2))
    && Field(img, 0x54, Le(OPTIONAL_SIZE, 2)) && Field(img, 0x56, Le(0x22, 2))
  }

  ghost predicate EntryAndBase(img: seq<byte>) {
    && Field(img, 0x58, Le(0x20B, 2)) && Field(img, 0x68, Le(TEXT_RVA, 4)) && Field(img, 0x6C, Le(TEXT_RVA, 4))
    && Field(img, 0x70, Le(PREFERRED_BASE, 8)) && Field(img, 0x78, Le(0x1000, 4)) && Field(img, 0x7C, Le(0x200, 4))
    && Field(img, 0x80, Le(6, 2)) && Field(img, 0x88, Le(6, 2))
  }

  ghost predicate SizesAndDirectory(img: seq<byte>) {
    && Field(img, 0x90, Le(IMAGE_SIZE, 4)) && Field(img, 0x94, Le(0x200, 4)) && Field(img, 0x9C, Le(3, 2))
    && Field(img, 0xA0, Le(0x100000, 8)) && Field(img, 0xB0, Le(0x100000, 8)) && Field(img, 0xC4, Le(16, 4))
    && Field(img, 0xF0, Le(RELOC_RVA, 4)) && Field(img, 0xF4, Le(10, 4))
  }

  ghost predicate SectionHeader(img: seq<byte>, at: nat, name: seq<byte>, size: nat, rva: nat, flags: nat) {
    && Field(img, at, name) && Field(img, at + 8, Le(size, 4)) && Field(img, at + 12, Le(rva, 4))
    && Field(img, at + 16, Le(0x200, 4)) && Field(img, at + 20, Le(rva, 4)) && Field(img, at + 36, Le(flags, 4))
  }

  /** mov eax, code; ret */
  function Code(code: nat): seq<byte> {
    [0xB8] + Le(code, 4) + [0xC3]
  }

  ghost predicate Contents(img: seq<byte>, code: nat) {
    && Field(img, TEXT_RVA, Code(code)) && Field(img, DATA_RVA, Le(PREFERRED_BASE + DATA_RVA, 8))
    && Field(img, RELOC_RVA, Le(DATA_RVA, 4)) && Field(img, RELOC_RVA + 4, Le(10, 4))
    && Field(img, RELOC_RVA + 8, Le(10 * 4096, 2))
  }

  const TEXT: seq<byte> := [46, 116, 101, 120, 116]
  const DATA: seq<byte> := [46, 100, 97, 116, 97]
  const RELOC: seq<byte> := [46, 114, 101, 108, 111, 99]

  ghost predicate Sections(img: seq<byte>) {
    && SectionHeader(img, SECTIONS_AT, TEXT, 0x20, TEXT_RVA, 0x60000020)
    && SectionHeader(img, SECTIONS_AT + 40, DATA, 8, DATA_RVA, 0xC0000040)
    && SectionHeader(img, SECTIONS_AT + 80, RELOC, 0x10, RELOC_RVA, 0x42000040)
  }

  // The bytes that the stores of each group reach.

  predicate InHeaders(p: nat) { p < 2 || 0x3C <= p < 0x48 || 0x54 <= p < 0x58 }

  predicate InEntryAndBase(p: nat) { 0x58 <= p < 0x5A || 0x68 <= p < 0x82 || 0x88 <= p < 0x8A }

  predicate InSizesAndDirectory(p: nat) {
    0x90 <= p < 0x98 || 0x9C <= p < 0x9E || 0xA0 <= p < 0xA8 || 0xB0 <= p < 0xB8 || 0xC4 <= p < 0xC8 || 0xF0 <= p < 0xF8
  }

  predicate InSection(p: nat, at: nat, name: nat) {
    at <= p < at + name || at + 8 <= p < at + 24 || at + 36 <= p < at + 40
  }

  predicate InSections(p: nat) {
    InSection(p, SECTIONS_AT, 5) || InSection(p, SECTIONS_AT + 40, 5) || InSection(p, SECTIONS_AT + 80, 6)
  }

  predicate InContents(p: nat) {
    TEXT_RVA <= p < TEXT_RVA + 6 || DATA_RVA <= p < DATA_RVA + 8 || RELOC_RVA <= p < RELOC_RVA + 10
  }

  predicate Stored(p: nat) {
    InHeaders(p) || InEntryAndBase(p) || InSizesAndDirectory(p) || InSections(p) || InContents(p)
  }

  ghost predicate AllFields(img: seq<byte>, code: nat) {
    Headers(img) && EntryAndBase(img) && SizesAndDirectory(img) && Sections(img) && Contents(img, code)
  }

  /** Every field, and zeros everywhere else. */
  ghost predicate Emitted(img: seq<byte>, code: nat) {
    && |img| == IMAGE_SIZE && AllFields(img, code)
    && forall p :: 0 <= p < IMAGE_SIZE && !Stored(p) ==> img[p] == 0
  }

  /** Fields outside [lo, hi) are as before. */
  twostate predicate KeptOutside(buf: array<byte>, lo: nat, hi: nat)
    reads buf
  {
    forall a: nat, b: seq<byte> {:trigger Field(buf[..], a, b)} ::
      a + |b| <= lo || hi <= a ==> Field(buf[..], a, b) == old(Field(buf[..], a, b))
  }

  method Put(buf: array<byte>, at: nat, bs: seq<byte>)
    requires at + |bs| <= buf.Length
    modifies buf
    ensures Field(buf[..], at, bs)
    ensures KeptOutside(buf, at, at + |bs|)
    ensures forall p :: 0 <= p < buf.Length && !(at <= p < at + |bs|) ==> buf[p] == old(buf[p])
  {
    for k := 0 to |bs|
      invariant forall i :: 0 <= i < k ==> buf[at + i] == bs[i]
      invariant forall i :: 0 <= i < buf.Length && !(at <= i < at + k) ==> buf[i] == old(buf[i])
    {
      buf[at + k] := bs[k];
    }
    ghost var img, was := buf[..], old(buf[..]);
    forall a: nat, b: seq<byte> | a + |b| <= at || at + |bs| <= a ensures Field(img, a, b) == Field(was, a, b) {
      if a + |b| <= |img| { assert img[a..a + |b|] == was[a..a + |b|]; }
    }
  }

  method PutHeaders(buf: array<byte>)
    requires buf.Length == IMAGE_SIZE
    modifies buf
    ensures Headers(buf[..]) && KeptOutside(buf, 0, 0x58)
    ensures forall p :: 0 <= p < IMAGE_SIZE && !InHeaders(p) ==> buf[p] == old(buf[p])
  {
    Put(buf, 0x00, Le(0x5A4D, 2));
    Put(buf, 0x3C, Le(0x40, 4));
    Put(buf, 0x40, Le(0x4550, 4));
    Put(buf, 0x44, Le(0x8664, 2));
    Put(buf, 0x46, Le(3, 2));
    Put(buf, 0x54, Le(OPTIONAL_SIZE, 2));
    Put(buf, 0x56, Le(0x22, 2));
  }

  method PutEntryAndBase(buf: array<byte>)
    requires buf.Length == IMAGE_SIZE
    modifies buf
    ensures EntryAndBase(buf[..]) && KeptOutside(buf, 0x58, 0x90)
    ensures forall p :: 0 <= p < IMAGE_SIZE && !InEntryAndBase(p) ==> buf[p] == old(buf[p])
  {
    Put(buf, 0x58, Le(0x20B, 2));
    Put(buf, 0x68, Le(TEXT_RVA, 4));
    Put(buf, 0x6C, Le(TEXT_RVA, 4));
    Put(buf, 0x70, Le(PREFERRED_BASE, 8));
    Put(buf, 0x78, Le(0x1000, 4));
    Put(buf, 0x7C, Le(0x200, 4));
    Put(buf, 0x80, Le(6, 2));
    Put(buf, 0x88, Le(6, 2));
  }

  method PutSizesAndDirectory(buf: array<byte>)
    requires buf.Length == IMAGE_SIZE
    modifies buf
    ensures SizesAndDirectory(buf[..]) && KeptOutside(buf, 0x90, SECTIONS_AT)
    ensures forall p :: 0 <= p < IMAGE_SIZE && !InSizesAndDirectory(p) ==> buf[p] == old(buf[p])
  {
    Put(buf, 0x90, Le(IMAGE_SIZE, 4));
    Put(buf, 0x94, Le(0x200, 4));
    Put(buf, 0x9C, Le(3, 2));
    Put(buf, 0xA0, Le(0x100000, 8));
    Put(buf, 0xB0, Le(0x100000, 8));
    Put(buf, 0xC4, Le(16, 4));
    Put(buf, 0xF0, Le(RELOC_RVA, 4));
    Put(buf, 0xF4, Le(10, 4));
  }

  method PutSection(buf: array<byte>, at: nat, name: seq<byte>, size: nat, rva: nat, flags: nat)
    requires buf.Length == IMAGE_SIZE && at + 40 <= IMAGE_SIZE && |name| <= 8
    modifies buf
    ensures SectionHeader(buf[..], at, name, size, rva, flags) && KeptOutside(buf, at, at + 40)
    ensures forall p :: 0 <= p < IMAGE_SIZE && !InSection(p, at, |name|) ==> buf[p] == old(buf[p])
  {
    Put(buf, at, name);
    Put(buf, at + 8, Le(size, 4));
    Put(buf, at + 12, Le(rva, 4));
    Put(buf, at + 16, Le(0x200, 4));
    Put(buf, at + 20, Le(rva, 4));
    Put(buf, at + 36, Le(flags, 4));
  }

  method PutSections(buf: array<byte>)
    requires buf.Length == IMAGE_SIZE
    modifies buf
    ensures Sections(buf[..]) && KeptOutside(buf, SECTIONS_AT, SECTIONS_AT + 120)
    ensures forall p :: 0 <= p < IMAGE_SIZE && !InSections(p) ==> buf[p] == old(buf[p])
  {
    PutSection(buf, SECTIONS_AT, TEXT, 0x20, TEXT_RVA, 0x60000020);
    PutSection(buf, SECTIONS_AT + 40, DATA, 8, DATA_RVA, 0xC0000040);
    PutSection(buf, SECTIONS_AT + 80, RELOC, 0x10, RELOC_RVA, 0x42000040);
  }

  method PutContents(buf: array<byte>, codeVal: nat)
    requires buf.Length == IMAGE_SIZE && codeVal < 0x1_0000_0000
    modifies buf
    ensures Contents(buf[..], codeVal) && KeptOutside(buf, TEXT_RVA, IMAGE_SIZE)
    ensures forall p :: 0 <= p < IMAGE_SIZE && !InContents(p) ==> buf[p] == old(buf[p])
  {
    var code := [0xB8, codeVal % 256, codeVal / 256 % 256, codeVal / 65536 % 256, codeVal / 16777216 % 256, 0xC3];
    CodeBytes(codeVal);
    Put(buf, TEXT_RVA, code);
    Put(buf, DATA_RVA, Le(PREFERRED_BASE + DATA_RVA, 8));
    Put(buf, RELOC_RVA, Le(DATA_RVA, 4));
    Put(buf, RELOC_RVA + 4, Le(10, 4));
    Put(buf, RELOC_RVA + 8, Le(10 * 4096, 2));
  }

  lemma CodeBytes(v: nat)
    ensures Code(v) == [0xB8, v % 256, v / 256 % 256, v / 65536 % 256, v / 16777216 % 256, 0xC3]
  {
    assert v / 65536 == v / 256 / 256 && v / 16777216 == v / 256 / 256 / 256;
    assert Le(v / 256 / 256 / 256, 1) == [v / 256 / 256 / 256 % 256];
    assert Le(v / 256 / 256, 2) == [v / 256 / 256 % 256] + Le(v / 256 / 256 / 256, 1);
    assert Le(v / 256, 3) == [v / 256 % 256] + Le(v / 256 / 256, 2);
    assert Le(v, 4) == [v % 256] + Le(v / 256, 3);
  }

  method PutOptional(buf: array<byte>)
    requires buf.Length == IMAGE_SIZE
    modifies buf
    ensures EntryAndBase(buf[..]) && SizesAndDirectory(buf[..]) && KeptOutside(buf, 0x58, SECTIONS_AT)
    ensures forall p :: 0 <= p < IMAGE_SIZE && !InEntryAndBase(p) && !InSizesAndDirectory(p) ==> buf[p] == old(buf[p])
  {
    PutEntryAndBase(buf);
    PutSizesAndDirectory(buf);
  }

  method PutAllHeaders(buf: array<byte>)
    requires buf.Length == IMAGE_SIZE
    modifies buf
    ensures Headers(buf[..]) && EntryAndBase(buf[..]) && SizesAndDirectory(buf[..])
    ensures KeptOutside(buf, 0, SECTIONS_AT)
    ensures forall p :: 0 <= p < IMAGE_SIZE && !InHeaders(p) && !InEntryAndBase(p) && !InSizesAndDirectory(p) ==>
      buf[p] == old(buf[p])
  {
    PutHeaders(buf);
    PutOptional(buf);
  }

  method PutBody(buf: array<byte>, codeVal: nat)
    requires buf.Length == IMAGE_SIZE && codeVal < 0x1_0000_0000
    modifies buf
    ensures Sections(buf[..]) && Contents(buf[..], codeVal) && KeptOutside(buf, SECTIONS_AT, IMAGE_SIZE)
    ensures forall p :: 0 <= p < IMAGE_SIZE && !InSections(p) && !InContents(p) ==> buf[p] == old(buf[p])
  {
    PutSections(buf);
    PutContents(buf, codeVal);
  }

  method PutAll(buf: array<byte>, codeVal: nat)
    requires buf.Length == IMAGE_SIZE && codeVal < 0x1_0000_0000
    modifies buf
    ensures AllFields(buf[..], codeVal)
    ensures forall p :: 0 <= p < IMAGE_SIZE && !Stored(p) ==> buf[p] == old(buf[p])
  {
    PutAllHeaders(buf);
    PutBody(buf, codeVal);
  }

  method Emit(codeVal: nat) returns (buf: array<byte>)
    requires codeVal < 0x1_0000_0000
    ensures fresh(buf) && buf.Length == IMAGE_SIZE && Emitted(buf[..], codeVal)
  {
    buf := new byte[IMAGE_SIZE](_ => 0);
    PutAll(buf, codeVal);
  }
}
