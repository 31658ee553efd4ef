/** The emitted image through the loader: for every exit code and base the copy's code returns that
    code and its self-pointer points into the copy (native/wineforge/mkexe.c, peload_test.c). */
module PeSelfTest {

  import opened Bytes
  import opened PeReloc
  import opened PeLoad
  import opened PeImage
  import E = PeEmit

  function EmittedHeader(): Header {
    Header(E.PREFERRED_BASE, E.IMAGE_SIZE, 0x200, E.RELOC_RVA, 10,
           [Section(0x20, E.TEXT_RVA, E.TEXT_RVA), Section(8, E.DATA_RVA, E.DATA_RVA),
            Section(0x10, E.RELOC_RVA, E.RELOC_RVA)])
  }

  lemma Widths()
    ensures Pow256(2) == 0x1_0000 && Pow256(4) == 0x1_0000_0000 && Pow256(8) == TWO64
  {
    Powers();
  }

  lemma FieldBytes(f: seq<byte>, at: nat, bs: seq<byte>)
    requires E.Field(f, at, bs)
    ensures at + |bs| <= |f| && UnLe(f[at..at + |bs|]) == UnLe(bs)
  {
  }

  /** A field that holds a word reads as that word. */
  lemma FieldValue(f: seq<byte>, at: nat, v: nat, n: nat)
    requires E.Field(f, at, Le(v, n)) && v < Pow256(n)
    ensures at + n <= |f| && UnLe(f[at..at + n]) == v
  {
    FieldBytes(f, at, Le(v, n));
    WordBack(v, n);
  }

  lemma ReadSection(f: seq<byte>, at: nat, name: seq<byte>, size: nat, rva: nat, flags: nat)
    requires E.SectionHeader(f, at, name, size, rva, flags) && size < 0x1_0000_0000 && rva < 0x1_0000_0000
    ensures at + 40 <= |f|
    ensures U32(f, at + 8) == size && U32(f, at + 12) == rva && U32(f, at + 20) == rva
  {
    Widths();
    FieldValue(f, at + 8, size, 4);
    FieldValue(f, at + 12, rva, 4);
    FieldValue(f, at + 20, rva, 4);
  }

  lemma ReadSections(f: seq<byte>)
    requires E.Sections(f)
    ensures ParseSections(f, E.SECTIONS_AT, 3) == EmittedHeader().sections
  {
    ReadSection(f, E.SECTIONS_AT, E.TEXT, 0x20, E.TEXT_RVA, 0x60000020);
    ReadSection(f, E.SECTIONS_AT + 40, E.DATA, 8, E.DATA_RVA, 0xC0000040);
    ReadSection(f, E.SECTIONS_AT + 80, E.RELOC, 0x10, E.RELOC_RVA, 0x42000040);
    assert ParseSections(f, E.SECTIONS_AT + 120, 0) == [];
    assert ParseSections(f, E.SECTIONS_AT + 80, 1) == [Section(0x10, E.RELOC_RVA, E.RELOC_RVA)];
    assert ParseSections(f, E.SECTIONS_AT + 40, 2) ==
           [Section(8, E.DATA_RVA, E.DATA_RVA)] + ParseSections(f, E.SECTIONS_AT + 80, 1);
  }

  lemma ReadFileHeader(f: seq<byte>)
    requires E.Headers(f)
    ensures |f| >= 0x58 && U32(f, 0x3C) == 0x40 && U16(f, 0x46) == 3 && U16(f, 0x54) == E.OPTIONAL_SIZE
  {
    Widths();
    FieldValue(f, 0x3C, 0x40, 4);
    FieldValue(f, 0x46, 3, 2);
    FieldValue(f, 0x54, E.OPTIONAL_SIZE, 2);
  }

  lemma ReadSizes(f: seq<byte>)
    requires E.SizesAndDirectory(f)
    ensures |f| >= 0xF8 && U32(f, 0x90) == E.IMAGE_SIZE && U32(f, 0x94) == 0x200
    ensures U32(f, 0xF0) == E.RELOC_RVA && U32(f, 0xF4) == 10
  {
    Widths();
    FieldValue(f, 0x90, E.IMAGE_SIZE, 4);
    FieldValue(f, 0x94, 0x200, 4);
    FieldValue(f, 0xF0, E.RELOC_RVA, 4);
    FieldValue(f, 0xF4, 10, 4);
  }

  lemma ReadBase(f: seq<byte>)
    requires E.EntryAndBase(f)
    ensures |f| >= 0x78 && U64(f, 0x70) == E.PREFERRED_BASE
  {
    Widths();
    FieldValue(f, 0x70, E.PREFERRED_BASE, 8);
  }

  /** The loader reads back the layout that was emitted. */
  lemma EmittedParses(f: seq<byte>, code: nat)
    requires E.Emitted(f, code)
    ensures Readable(f) && Parse(f) == EmittedHeader()
  {
    ReadFileHeader(f);
    ReadBase(f);
    ReadSizes(f);
    ReadSections(f);
  }

  /** A field of a copied section. */
  lemma CopiedField(img: seq<byte>, f: seq<byte>, rva: nat, raw: nat, size: nat, d: nat, bs: seq<byte>)
    requires rva + size <= |img| && raw + size <= |f| && d + |bs| <= size && E.Field(f, raw + d, bs)
    ensures E.Field(Write(img, rva, f[raw..raw + size]), rva + d, bs)
  {
    var r := Write(img, rva, f[raw..raw + size]);
    WriteAt(img, rva, f[raw..raw + size]);
    forall k | 0 <= k < |bs| ensures r[rva + d + k] == bs[k] {
      assert r[rva + d + k] == r[rva..rva + size][d + k] == f[raw + d + k];
      assert f[raw + d + k] == f[raw + d..raw + d + |bs|][k];
    }
  }

  /** A field that a copy does not reach. */
  lemma KeptField(img: seq<byte>, at: nat, chunk: seq<byte>, a: nat, bs: seq<byte>)
    requires at + |chunk| <= |img| && E.Field(img, a, bs) && (a + |bs| <= at || at + |chunk| <= a)
    ensures E.Field(Write(img, at, chunk), a, bs)
  {
    var r := Write(img, at, chunk);
    WriteAt(img, at, chunk);
    forall k | 0 <= k < |bs| ensures r[a + k] == bs[k] {
      assert img[a + k] == img[a..a + |bs|][k];
    }
  }

  lemma EmittedFits(f: seq<byte>)
    requires |f| == E.IMAGE_SIZE
    ensures Fits(EmittedHeader(), f)
  {
  }

  lemma TextField(f: seq<byte>, d: nat, bs: seq<byte>)
    requires |f| == E.IMAGE_SIZE && d + |bs| <= 0x20 && E.Field(f, E.TEXT_RVA + d, bs)
    ensures Fits(EmittedHeader(), f) && E.Field(Image(EmittedHeader(), f), E.TEXT_RVA + d, bs)
  {
    var h := EmittedHeader();
    CopiedField(Mapped(h, f, 0), f, E.TEXT_RVA, E.TEXT_RVA, 0x20, d, bs);
    KeptField(Mapped(h, f, 1), E.DATA_RVA, f[E.DATA_RVA..E.DATA_RVA + 8], E.TEXT_RVA + d, bs);
    KeptField(Mapped(h, f, 2), E.RELOC_RVA, f[E.RELOC_RVA..E.RELOC_RVA + 0x10], E.TEXT_RVA + d, bs);
  }

  lemma DataField(f: seq<byte>, d: nat, bs: seq<byte>)
    requires |f| == E.IMAGE_SIZE && d + |bs| <= 8 && E.Field(f, E.DATA_RVA + d, bs)
    ensures Fits(EmittedHeader(), f) && E.Field(Image(EmittedHeader(), f), E.DATA_RVA + d, bs)
  {
    var h := EmittedHeader();
    CopiedField(Mapped(h, f, 1), f, E.DATA_RVA, E.DATA_RVA, 8, d, bs);
    KeptField(Mapped(h, f, 2), E.RELOC_RVA, f[E.RELOC_RVA..E.RELOC_RVA + 0x10], E.DATA_RVA + d, bs);
  }

  lemma RelocField(f: seq<byte>, d: nat, bs: seq<byte>)
    requires |f| == E.IMAGE_SIZE && d + |bs| <= 0x10 && E.Field(f, E.RELOC_RVA + d, bs)
    ensures Fits(EmittedHeader(), f) && E.Field(Image(EmittedHeader(), f), E.RELOC_RVA + d, bs)
  {
    var h := EmittedHeader();
    CopiedField(Mapped(h, f, 2), f, E.RELOC_RVA, E.RELOC_RVA, 0x10, d, bs);
  }

  lemma MappedData(f: seq<byte>)
    requires |f| == E.IMAGE_SIZE && E.Field(f, E.DATA_RVA, Le(E.PREFERRED_BASE + E.DATA_RVA, 8))
    ensures Fits(EmittedHeader(), f)
    ensures U64(Image(EmittedHeader(), f), E.DATA_RVA) == E.PREFERRED_BASE + E.DATA_RVA
  {
    DataField(f, 0, Le(E.PREFERRED_BASE + E.DATA_RVA, 8));
    Widths();
    FieldValue(Image(EmittedHeader(), f), E.DATA_RVA, E.PREFERRED_BASE + E.DATA_RVA, 8);
  }

  lemma MappedTable(f: seq<byte>, img: seq<byte>)
    requires |f| == E.IMAGE_SIZE && Fits(EmittedHeader(), f) && img == Image(EmittedHeader(), f)
    requires E.Field(f, E.RELOC_RVA, Le(E.DATA_RVA, 4)) && E.Field(f, E.RELOC_RVA + 4, Le(10, 4))
    requires E.Field(f, E.RELOC_RVA + 8, Le(10 * 4096, 2))
    ensures E.Field(img, E.RELOC_RVA, Le(E.DATA_RVA, 4))
    ensures E.Field(img, E.RELOC_RVA + 4, Le(10, 4)) && E.Field(img, E.RELOC_RVA + 8, Le(10 * 4096, 2))
  {
    RelocField(f, 0, Le(E.DATA_RVA, 4));
    RelocField(f, 4, Le(10, 4));
    RelocField(f, 8, Le(10 * 4096, 2));
  }

  lemma TableWords(img: seq<byte>)
    requires |img| == E.IMAGE_SIZE && E.Field(img, E.RELOC_RVA, Le(E.DATA_RVA, 4))
    requires E.Field(img, E.RELOC_RVA + 4, Le(10, 4)) && E.Field(img, E.RELOC_RVA + 8, Le(10 * 4096, 2))
    ensures U32(img, E.RELOC_RVA) == E.DATA_RVA && U32(img, E.RELOC_RVA + 4) == 10
    ensures U16(img, E.RELOC_RVA + 8) == 10 * 4096
  {
    Widths();
    FieldValue(img, E.RELOC_RVA, E.DATA_RVA, 4);
    FieldValue(img, E.RELOC_RVA + 4, 10, 4);
    FieldValue(img, E.RELOC_RVA + 8, 10 * 4096, 2);
  }

  /** The table lists the self-pointer and nothing else. */
  lemma OneSite(img: seq<byte>)
    requires |img| == E.IMAGE_SIZE
    requires U32(img, E.RELOC_RVA) == E.DATA_RVA && U32(img, E.RELOC_RVA + 4) == 10
    requires U16(img, E.RELOC_RVA + 8) == 10 * 4096
    ensures TableAhead(img, E.RELOC_RVA, 10, 0, [E.DATA_RVA], 0)
  {
    assert TableOk(img, E.RELOC_RVA, 10, 10);
    assert Sites(img, E.RELOC_RVA, 10, 10) == [];
    assert BlockSites(img, E.DATA_RVA, E.RELOC_RVA + 10, 0) == [];
    assert BlockSites(img, E.DATA_RVA, E.RELOC_RVA + 8, 1) == [E.DATA_RVA];
    assert Sites(img, E.RELOC_RVA, 10, 0) == [E.DATA_RVA];
    assert [E.DATA_RVA][0..] == [E.DATA_RVA];
  }

  /** What a call of mov eax, imm32; ret returns. */
  function ReturnValue(code: seq<byte>): (r: int)
    requires |code| >= 6
  {
    if code[0] == 0xB8 && code[5] == 0xC3 then UnLe(code[1..5]) else -1
  }

  lemma CodeReturns(code: nat)
    requires code < 0x1_0000_0000
    ensures ReturnValue(E.Code(code)) == code
  {
    assert E.Code(code)[1..5] == Le(code, 4);
    Widths();
    UnLeOfLe(code, 4);
  }

  /** The emitted file is one load_pe can take. */
  lemma EmittedIsLoadable(f: seq<byte>, code: nat)
    requires E.Emitted(f, code)
    ensures Readable(f) && Parse(f) == EmittedHeader() && Loadable(EmittedHeader(), f, [E.DATA_RVA])
  {
    EmittedParses(f, code);
    ContentsAreLoadable(f, code);
  }

  lemma ContentsAreLoadable(f: seq<byte>, code: nat)
    requires |f| == E.IMAGE_SIZE && E.Contents(f, code)
    ensures Loadable(EmittedHeader(), f, [E.DATA_RVA])
  {
    EmittedFits(f);
    MappedTable(f, Image(EmittedHeader(), f));
    TableWords(Image(EmittedHeader(), f));
    OneSite(Image(EmittedHeader(), f));
  }

  /** For every exit code and base: the loaded entry point returns the code, and the loaded
      self-pointer is base + 0x2000. */
  lemma {:induction false} EmittedImageRuns(f: seq<byte>, code: nat, base: nat)
    requires E.Emitted(f, code) && code < 0x1_0000_0000 && base + E.IMAGE_SIZE <= TWO64
    ensures Readable(f) && Parse(f) == EmittedHeader() && Loadable(EmittedHeader(), f, [E.DATA_RVA])
    ensures var img := Loaded(EmittedHeader(), f, [E.DATA_RVA], base);
      && |img| == E.IMAGE_SIZE && U64(img, E.DATA_RVA) == base + E.DATA_RVA
      && ReturnValue(img[E.TEXT_RVA..E.TEXT_RVA + 6]) == code
  {
    EmittedIsLoadable(f, code);
    ContentsRun(f, code, base, Loaded(EmittedHeader(), f, [E.DATA_RVA], base));
  }

  lemma ContentsRun(f: seq<byte>, code: nat, base: nat, img: seq<byte>)
    requires |f| == E.IMAGE_SIZE && E.Contents(f, code)
    requires code < 0x1_0000_0000 && base + E.IMAGE_SIZE <= TWO64
    requires Loadable(EmittedHeader(), f, [E.DATA_RVA])
    requires img == Loaded(EmittedHeader(), f, [E.DATA_RVA], base)
    ensures |img| == E.IMAGE_SIZE && U64(img, E.DATA_RVA) == base + E.DATA_RVA
    ensures ReturnValue(img[E.TEXT_RVA..E.TEXT_RVA + 6]) == code
  {
    MappedData(f);
    OwnPointersKeepTheirRva(EmittedHeader(), f, [E.DATA_RVA], base, 0);
    TextIsLoaded(f, E.Code(code), base);
    CodeReturns(code);
  }

  lemma TextIsLoaded(f: seq<byte>, bs: seq<byte>, base: nat)
    requires |f| == E.IMAGE_SIZE && |bs| == 6 && E.Field(f, E.TEXT_RVA, bs) && Fits(EmittedHeader(), f)
    ensures Loaded(EmittedHeader(), f, [E.DATA_RVA], base)[E.TEXT_RVA..E.TEXT_RVA + 6] == bs
  {
    TextField(f, 0, bs);
    OutsideTheSite(Image(EmittedHeader(), f), base - E.PREFERRED_BASE, bs);
  }

  lemma OutsideTheSite(img: seq<byte>, delta: int, bs: seq<byte>)
    requires |img| == E.IMAGE_SIZE && |bs| == 6 && E.Field(img, E.TEXT_RVA, bs)
    ensures Relocated(img, [E.DATA_RVA], delta)[E.TEXT_RVA..E.TEXT_RVA + 6] == bs
  {
    var r := Relocated(img, [E.DATA_RVA], delta);
    forall p | E.TEXT_RVA <= p < E.TEXT_RVA + 6 ensures r[p] == img[p] {
      RebasedElsewhere(img, [E.DATA_RVA], 1, Adder(delta), p);
    }
    assert r[E.TEXT_RVA..E.TEXT_RVA + 6] == img[E.TEXT_RVA..E.TEXT_RVA + 6];
  }
}
