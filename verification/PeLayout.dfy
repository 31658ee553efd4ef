/** The bytes that load_pe reads (native/wineforge/peload_test.c, lines 144-176), stated as a linker
    writes them: the header fields of the Microsoft PE Format at their offsets, and a relocation table
    as a list of blocks. */
module PeLayout {

  import opened Bytes
  import opened PeReloc
  import opened PeLoad
  import opened PeImage

  const TWO32: nat := 0x1_0000_0000

  // ---- headers ------------------------------------------------------------------------------

  /** The n bytes at `at` are the little-endian word v. */
  predicate Holds(f: seq<byte>, at: nat, n: nat, v: nat) {
    at + n <= |f| && v < Pow256(n) && f[at..at + n] == Le(v, n)
  }

  lemma HoldsIff(f: seq<byte>, at: nat, n: nat, v: nat)
    requires at + n <= |f|
    ensures Holds(f, at, n, v) <==> UnLe(f[at..at + n]) == v
  {
    LeOfUnLe(f[at..at + n]);
    if v < Pow256(n) { WordBack(v, n); }
  }

  /** VirtualSize, VirtualAddress and PointerToRawData of a section header. */
  predicate SectionAt(f: seq<byte>, at: nat, s: Section) {
    Holds(f, at + 8, 4, s.size) && Holds(f, at + 12, 4, s.rva) && Holds(f, at + 20, 4, s.raw)
  }

  predicate SectionsAt(f: seq<byte>, at: nat, ss: seq<Section>) {
    forall i {:trigger ss[i]} :: 0 <= i < |ss| ==> SectionAt(f, at + 40 * i, ss[i])
  }

  /** e_lfanew is pe; then the file header, an optional header of `opt` bytes, and the section
      headers of 40 bytes each. */
  predicate HeadersAt(f: seq<byte>, pe: nat, opt: nat, h: Header) {
    && Holds(f, 0x3C, 4, pe) && Holds(f, pe + 6, 2, |h.sections|) && Holds(f, pe + 20, 2, opt)
    && FieldsAt(f, pe, h) && SectionsAt(f, pe + 24 + opt, h.sections)
  }

  /** ImageBase, SizeOfImage, SizeOfHeaders and the directory entry of the relocations. */
  predicate FieldsAt(f: seq<byte>, pe: nat, h: Header) {
    && Holds(f, pe + 48, 8, h.imageBase) && Holds(f, pe + 80, 4, h.size) && Holds(f, pe + 84, 4, h.headersSize)
    && Holds(f, pe + 176, 4, h.relocRva) && Holds(f, pe + 180, 4, h.relocSize)
  }

  lemma SectionIff(f: seq<byte>, at: nat, s: Section)
    requires at + 40 <= |f|
    ensures SectionAt(f, at, s) <==> s == Section(U32(f, at + 8), U32(f, at + 12), U32(f, at + 20))
  {
    HoldsIff(f, at + 8, 4, s.size);
    HoldsIff(f, at + 12, 4, s.rva);
    HoldsIff(f, at + 20, 4, s.raw);
  }

  lemma {:induction false} SectionsIff(f: seq<byte>, at: nat, ss: seq<Section>)
    requires at + 40 * |ss| <= |f|
    ensures ParseSections(f, at, |ss|) == ss <==> SectionsAt(f, at, ss)
    decreases |ss|
  {
    if ss != [] {
      var rest := ss[1..];
      SectionIff(f, at, ss[0]);
      SectionsIff(f, at + 40, rest);
      assert ss == [ss[0]] + rest;
      SectionsShift(f, at, ss, rest);
      var got := ParseSections(f, at, |ss|);
      assert got[0] == Section(U32(f, at + 8), U32(f, at + 12), U32(f, at + 20));
      assert got[1..] == ParseSections(f, at + 40, |ss| - 1);
    }
  }

  lemma SectionsShift(f: seq<byte>, at: nat, ss: seq<Section>, rest: seq<Section>)
    requires ss != [] && rest == ss[1..]
    ensures SectionsAt(f, at, ss) <==> SectionAt(f, at, ss[0]) && SectionsAt(f, at + 40, rest)
  {
    if SectionsAt(f, at, ss) {
      assert SectionAt(f, at + 40 * 0, ss[0]);
      forall i | 0 <= i < |rest| ensures SectionAt(f, at + 40 + 40 * i, rest[i]) {
        assert SectionAt(f, at + 40 * (i + 1), ss[i + 1]);
      }
    }
    if SectionAt(f, at, ss[0]) && SectionsAt(f, at + 40, rest) {
      forall i | 0 <= i < |ss| ensures SectionAt(f, at + 40 * i, ss[i]) {
        if i > 0 { assert SectionAt(f, at + 40 + 40 * (i - 1), rest[i - 1]); }
      }
    }
  }

  /** A readable file parses to exactly the header that is written in it. */
  lemma {:induction false} ParsesAsWritten(f: seq<byte>, h: Header)
    requires Readable(f)
    ensures Parse(f) == h <==> exists pe: nat, opt: nat :: HeadersAt(f, pe, opt, h)
  {
    var pe := U32(f, 0x3C);
    var opt := U16(f, pe + 20);
    ParsesAt(f, h, Parse(f), pe, opt, U16(f, pe + 6));
    if p: nat, o: nat :| HeadersAt(f, p, o, h) {
      OffsetsRead(f, p, o, h);
    }
  }

  lemma {:induction false} OffsetsRead(f: seq<byte>, pe: nat, opt: nat, h: Header)
    requires Readable(f) && HeadersAt(f, pe, opt, h)
    ensures pe == U32(f, 0x3C) && opt == U16(f, pe + 20)
  {
    HoldsIff(f, 0x3C, 4, pe);
    HoldsIff(f, pe + 20, 2, opt);
  }

  lemma {:induction false} ParsesAt(f: seq<byte>, h: Header, got: Header, pe: nat, opt: nat, n: nat)
    requires pe + 184 <= |f| && pe + 24 + opt + 40 * n <= |f| && 0x40 <= |f|
    requires pe == U32(f, 0x3C) && opt == U16(f, pe + 20) && n == U16(f, pe + 6)
    requires got.imageBase == U64(f, pe + 48) && got.size == U32(f, pe + 80) && got.headersSize == U32(f, pe + 84)
    requires got.relocRva == U32(f, pe + 176) && got.relocSize == U32(f, pe + 180)
    requires got.sections == ParseSections(f, pe + 24 + opt, n)
    ensures HeadersAt(f, pe, opt, h) <==> got == h
  {
    FieldsIff(f, pe, h, got);
    CountsIff(f, h, pe, opt, n);
    if |h.sections| == n { SectionsIff(f, pe + 24 + opt, h.sections); }
    HeadersSplit(f, pe, opt, h, n);
  }

  lemma {:induction false} CountsIff(f: seq<byte>, h: Header, pe: nat, opt: nat, n: nat)
    requires pe + 184 <= |f| && 0x40 <= |f|
    requires pe == U32(f, 0x3C) && opt == U16(f, pe + 20) && n == U16(f, pe + 6)
    ensures Holds(f, 0x3C, 4, pe) && Holds(f, pe + 20, 2, opt)
    ensures Holds(f, pe + 6, 2, |h.sections|) <==> |h.sections| == n
  {
    HoldsIff(f, 0x3C, 4, pe);
    HoldsIff(f, pe + 20, 2, opt);
    HoldsIff(f, pe + 6, 2, |h.sections|);
  }

  /** The fields of fixed size. */
  lemma {:induction false} FieldsIff(f: seq<byte>, pe: nat, h: Header, got: Header)
    requires pe + 184 <= |f|
    requires got.imageBase == U64(f, pe + 48) && got.size == U32(f, pe + 80) && got.headersSize == U32(f, pe + 84)
    requires got.relocRva == U32(f, pe + 176) && got.relocSize == U32(f, pe + 180)
    ensures FieldsAt(f, pe, h) <==> got == h.(sections := got.sections)
  {
    HoldsIff(f, pe + 48, 8, h.imageBase);
    HoldsIff(f, pe + 80, 4, h.size);
    HoldsIff(f, pe + 84, 4, h.headersSize);
    HoldsIff(f, pe + 176, 4, h.relocRva);
    HoldsIff(f, pe + 180, 4, h.relocSize);
  }

  lemma {:induction false} HeadersSplit(f: seq<byte>, pe: nat, opt: nat, h: Header, n: nat)
    requires Holds(f, 0x3C, 4, pe) && Holds(f, pe + 20, 2, opt)
    requires Holds(f, pe + 6, 2, |h.sections|) <==> |h.sections| == n
    ensures HeadersAt(f, pe, opt, h) <==>
      |h.sections| == n && FieldsAt(f, pe, h) && SectionsAt(f, pe + 24 + opt, h.sections)
  {
  }

  // ---- the relocation table -----------------------------------------------------------------

  datatype Entry = Entry(kind: nat, ofs: nat)

  datatype Block = Block(page: nat, entries: seq<Entry>)

  predicate EntryFits(e: Entry) { e.kind < 16 && e.ofs < 4096 }

  predicate BlockFits(b: Block) {
    && b.page < TWO32 && 8 + 2 * |b.entries| < TWO32
    && forall i :: 0 <= i < |b.entries| ==> EntryFits(b.entries[i])
  }

  /** Type in the four high bits, offset in the twelve low ones. */
  function EntryBytes(es: seq<Entry>): (bs: seq<byte>)
    ensures |bs| == 2 * |es|
  {
    if es == [] then [] else Le(es[0].kind * 4096 + es[0].ofs, 2) + EntryBytes(es[1..])
  }

  /** Page, size of the whole block, entries. */
  function BlockBytes(b: Block): (bs: seq<byte>)
    ensures |bs| == 8 + 2 * |b.entries|
  {
    Le(b.page, 4) + Le(8 + 2 * |b.entries|, 4) + EntryBytes(b.entries)
  }

  function TableBytes(blocks: seq<Block>): seq<byte> {
    if blocks == [] then [] else BlockBytes(blocks[0]) + TableBytes(blocks[1..])
  }

  /** The addresses that entries of type 10 name. */
  function Targets(page: nat, es: seq<Entry>): seq<nat> {
    if es == [] then []
    else (if es[0].kind == 10 then [page + es[0].ofs] else []) + Targets(page, es[1..])
  }

  function AllTargets(blocks: seq<Block>): seq<nat> {
    if blocks == [] then [] else Targets(blocks[0].page, blocks[0].entries) + AllTargets(blocks[1..])
  }

  lemma {:induction false} EntriesRead(img: seq<byte>, page: nat, a: nat, es: seq<Entry>)
    requires a + 2 * |es| <= |img| && img[a..a + 2 * |es|] == EntryBytes(es)
    requires forall i :: 0 <= i < |es| ==> EntryFits(es[i])
    ensures BlockSites(img, page, a, |es|) == Targets(page, es)
    decreases |es|
  {
    if es != [] {
      var bs, v := EntryBytes(es), es[0].kind * 4096 + es[0].ofs;
      assert EntryFits(es[0]);
      assert img[a..a + 2] == bs[..2] == Le(v, 2);
      assert img[a + 2..a + 2 * |es|] == bs[2..] == EntryBytes(es[1..]);
      Pow16();
      WordBack(v, 2);
      Quotient(v, 4096, es[0].kind, es[0].ofs);
      EntriesRead(img, page, a + 2, es[1..]);
    }
  }

  lemma Pow16()
    ensures Pow256(2) == 0x1_0000
  {
    assert Pow256(1) == 256;
  }

  /** The walk lists exactly the targets of the blocks that were written, in order. */
  lemma {:induction false} TableRead(img: seq<byte>, rva: nat, sz: nat, off: nat, blocks: seq<Block>)
    requires rva + sz <= |img| && off <= sz && img[rva + off..rva + sz] == TableBytes(blocks)
    requires forall i :: 0 <= i < |blocks| ==> BlockFits(blocks[i])
    ensures TableOk(img, rva, sz, off) && Sites(img, rva, sz, off) == AllTargets(blocks)
    decreases |blocks|
  {
    if blocks == [] {
      assert |img[rva + off..rva + sz]| == sz - off;
    } else {
      var b, rest := blocks[0], blocks[1..];
      assert BlockFits(b);
      TableFrom(img, rva, sz, off, b, rest, off + 8 + 2 * |b.entries|);
      TableRead(img, rva, sz, off + 8 + 2 * |b.entries|, rest);
      TableStep(img, rva, sz, off, b, AllTargets(rest), AllTargets(blocks));
    }
  }

  /** The first block of the table, and where the others begin. */
  lemma {:induction false} TableFrom(img: seq<byte>, rva: nat, sz: nat, off: nat, b: Block, rest: seq<Block>,
                                     next: nat)
    requires rva + sz <= |img| && off <= sz && BlockFits(b) && next == off + 8 + 2 * |b.entries|
    requires img[rva + off..rva + sz] == BlockBytes(b) + TableBytes(rest)
    ensures next <= sz && img[rva + next..rva + sz] == TableBytes(rest)
    ensures U32(img, rva + off) == b.page && U32(img, rva + off + 4) == 8 + 2 * |b.entries|
    ensures BlockSites(img, b.page, rva + off + 8, |b.entries|) == Targets(b.page, b.entries)
  {
    TableSplit(img, rva, sz, off, b, rest, TableBytes(rest));
    BlockRead(img, rva + off, b);
  }

  lemma {:induction false} TableSplit(img: seq<byte>, rva: nat, sz: nat, off: nat, b: Block, rest: seq<Block>,
                                      tail: seq<byte>)
    requires rva + sz <= |img| && off <= sz && tail == TableBytes(rest)
    requires img[rva + off..rva + sz] == BlockBytes(b) + tail
    ensures off + 8 + 2 * |b.entries| <= sz
    ensures img[rva + off..rva + off + 8 + 2 * |b.entries|] == BlockBytes(b)
    ensures img[rva + (off + 8 + 2 * |b.entries|)..rva + sz] == tail
  {
    Halves(img, rva + off, rva + sz, BlockBytes(b), tail);
  }

  lemma Halves(img: seq<byte>, a: nat, c: nat, x: seq<byte>, y: seq<byte>)
    requires a <= c <= |img| && img[a..c] == x + y
    ensures a + |x| + |y| == c && img[a..a + |x|] == x && img[a + |x|..c] == y
  {
    assert |img[a..c]| == |x| + |y|;
    assert img[a..a + |x|] == img[a..c][..|x|];
    assert img[a + |x|..c] == img[a..c][|x|..];
  }

  /** One round of the walk. */
  lemma {:induction false} TableStep(img: seq<byte>, rva: nat, sz: nat, off: nat, b: Block,
                                     ahead: seq<nat>, all: seq<nat>)
    requires rva + sz <= |img| && off + 8 + 2 * |b.entries| <= sz
    requires U32(img, rva + off) == b.page && U32(img, rva + off + 4) == 8 + 2 * |b.entries|
    requires BlockSites(img, b.page, rva + off + 8, |b.entries|) == Targets(b.page, b.entries)
    requires TableOk(img, rva, sz, off + 8 + 2 * |b.entries|)
    requires ahead == Sites(img, rva, sz, off + 8 + 2 * |b.entries|) && all == Targets(b.page, b.entries) + ahead
    ensures TableOk(img, rva, sz, off) && Sites(img, rva, sz, off) == all
  {
    var size := U32(img, rva + off + 4);
    assert off + size == off + 8 + 2 * |b.entries|;
    assert (size - 8) / 2 == |b.entries|;
  }

  lemma {:induction false} BlockRead(img: seq<byte>, a: nat, b: Block)
    requires BlockFits(b) && a + 8 + 2 * |b.entries| <= |img|
    requires img[a..a + 8 + 2 * |b.entries|] == BlockBytes(b)
    ensures U32(img, a) == b.page && U32(img, a + 4) == 8 + 2 * |b.entries|
    ensures BlockSites(img, b.page, a + 8, |b.entries|) == Targets(b.page, b.entries)
  {
    var n := 8 + 2 * |b.entries|;
    var page, size, es := Le(b.page, 4), Le(n, 4), EntryBytes(b.entries);
    assert BlockBytes(b) == page + (size + es);
    Halves(img, a, a + n, page, size + es);
    Halves(img, a + 4, a + n, size, es);
    Powers();
    WordBack(b.page, 4);
    WordBack(n, 4);
    EntriesRead(img, b.page, a + 8, b.entries);
  }

  /** So the loader of an image that holds such a table patches the named words. */
  lemma {:induction false} WrittenTableIsWalked(img: seq<byte>, rva: nat, blocks: seq<Block>, sz: nat)
    requires sz == |TableBytes(blocks)| && rva + sz <= |img| && img[rva..rva + sz] == TableBytes(blocks)
    requires forall i :: 0 <= i < |blocks| ==> BlockFits(blocks[i])
    ensures TableAhead(img, rva, sz, 0, AllTargets(blocks), 0)
  {
    TableRead(img, rva, sz, 0, blocks);
    assert AllTargets(blocks)[0..] == AllTargets(blocks);
  }
}
