/** load_pe of native/wineforge/peload_test.c as a whole (lines 142-176), on a shared address space,
    and what it makes of the emitted image. */
module PeImage {

  import opened Bytes
  import opened PeReloc
  import opened PeLoad

  datatype Section = Section(size: nat, rva: nat, raw: nat)

  /** The header fields that load_pe reads. */
  datatype Header = Header(
    imageBase: nat,
    size: nat,
    headersSize: nat,
    relocRva: nat,
    relocSize: nat,
    sections: seq<Section>)

  /** The headers lie in the file: the fixed ones, and the section headers after the optional one. */
  predicate Readable(f: seq<byte>) {
    && |f| >= 0x40
    && var pe := U32(f, 0x3C);
    && pe + 184 <= |f|
    && pe + 24 + U16(f, pe + 20) + 40 * U16(f, pe + 6) <= |f|
  }

  function Parse(f: seq<byte>): Header
    requires Readable(f)
  {
    var pe := U32(f, 0x3C);
    var oh := pe + 24;
    var sec := oh + U16(f, pe + 20);
    Header(U64(f, oh + 24), U32(f, oh + 56), U32(f, oh + 60), U32(f, oh + 152), U32(f, oh + 156),
           ParseSections(f, sec, U16(f, pe + 6)))
  }

  function ParseSections(f: seq<byte>, sec: nat, n: nat): (ss: seq<Section>)
    requires sec + 40 * n <= |f|
    ensures |ss| == n
    decreases n
  {
    if n == 0 then []
    else [Section(U32(f, sec + 8), U32(f, sec + 12), U32(f, sec + 20))] + ParseSections(f, sec + 40, n - 1)
  }

  predicate Fits(h: Header, f: seq<byte>) {
    && h.headersSize <= |f| && h.headersSize <= h.size
    && forall i :: 0 <= i < |h.sections| ==>
      h.sections[i].raw + h.sections[i].size <= |f| && h.sections[i].rva + h.sections[i].size <= h.size
  }

  function Zeros(n: nat): (z: seq<byte>)
    ensures |z| == n
  {
    seq(n, _ => 0)
  }

  /** The image after the headers and the first n sections were copied into zeroed pages. */
  function Mapped(h: Header, f: seq<byte>, n: nat): (img: seq<byte>)
    requires Fits(h, f) && n <= |h.sections|
    ensures |img| == h.size
  {
    if n == 0 then Write(Zeros(h.size), 0, f[..h.headersSize])
    else
      var s := h.sections[n - 1];
      Write(Mapped(h, f, n - 1), s.rva, f[s.raw..s.raw + s.size])
  }

  function Image(h: Header, f: seq<byte>): (img: seq<byte>)
    requires Fits(h, f)
    ensures |img| == h.size
  {
    Mapped(h, f, |h.sections|)
  }

  /** `sites` are the targets that a well-formed table of the mapped image lists: disjoint, in the
      image, outside the table. */
  ghost predicate Loadable(h: Header, f: seq<byte>, sites: seq<nat>) {
    && Fits(h, f)
    && TableAhead(Image(h, f), h.relocRva, h.relocSize, 0, sites, 0)
    && SitesOk(sites, h.size, h.relocRva, h.relocSize) && Disjoint(sites) && Inside(sites, h.size)
  }

  /** What the loader leaves at base. */
  ghost function Loaded(h: Header, f: seq<byte>, sites: seq<nat>, base: nat): (img: seq<byte>)
    requires Fits(h, f) && Inside(sites, h.size)
  {
    Relocated(Image(h, f), sites, base - h.imageBase)
  }

  /** Loading at b2 is rebasing the load at b1. */
  lemma LoadElsewhereIsRebase(h: Header, f: seq<byte>, sites: seq<nat>, b1: nat, b2: nat)
    requires Loadable(h, f, sites)
    ensures Loaded(h, f, sites, b2) == Relocated(Loaded(h, f, sites, b1), sites, b2 - b1)
  {
    RebaseBetween(Image(h, f), sites, h.imageBase, b1, b2);
  }

  lemma RebaseBetween(img: seq<byte>, sites: seq<nat>, imageBase: nat, b1: nat, b2: nat)
    requires Inside(sites, |img|) && Disjoint(sites)
    ensures Relocated(img, sites, b2 - imageBase) == Relocated(Relocated(img, sites, b1 - imageBase), sites, b2 - b1)
  {
    RebaseComposes(img, sites, b1 - imageBase, b2 - b1);
    assert (b1 - imageBase) + (b2 - b1) == b2 - imageBase;
  }

  /** A word that pointed into the image at its preferred base points to the same place of the copy
      at base. */
  lemma OwnPointersKeepTheirRva(h: Header, f: seq<byte>, sites: seq<nat>, base: nat, i: nat)
    requires Loadable(h, f, sites) && i < |sites| && base + h.size <= TWO64
    requires h.imageBase <= U64(Image(h, f), sites[i]) < h.imageBase + h.size
    ensures U64(Loaded(h, f, sites, base), sites[i]) - base == U64(Image(h, f), sites[i]) - h.imageBase
  {
    OwnPointersFollowTheView(Image(h, f), sites, i, h.imageBase, h.size, base, base);
  }

  /** Lines 155-158 on zeroed pages. */
  method MapSections(mem: array<byte>, base: nat, f: seq<byte>, h: Header)
    requires Fits(h, f) && base + h.size <= mem.Length
    requires mem[base..base + h.size] == Zeros(h.size)
    modifies mem
    ensures mem[base..base + h.size] == Image(h, f)
    ensures OnlyInside(mem, base, h.size)
  {
    Store(mem, base, h.size, 0, f[..h.headersSize]);
    for i := 0 to |h.sections|
      invariant mem[base..base + h.size] == Mapped(h, f, i)
      invariant OnlyInside(mem, base, h.size)
    {
      MapSection(mem, base, f, h, i);
    }
  }

  method MapSection(mem: array<byte>, base: nat, f: seq<byte>, h: Header, i: nat)
    requires Fits(h, f) && base + h.size <= mem.Length && i < |h.sections|
    requires mem[base..base + h.size] == Mapped(h, f, i)
    modifies mem
    ensures mem[base..base + h.size] == Mapped(h, f, i + 1)
    ensures OnlyInside(mem, base, h.size)
  {
    var s := h.sections[i];
    Store(mem, base, h.size, s.rva, f[s.raw..s.raw + s.size]);
  }

  /** load_pe: the image at base, and nothing outside it touched. */
  method LoadPe(mem: array<byte>, base: nat, f: seq<byte>, ghost h: Header, ghost sites: seq<nat>)
    requires Readable(f) && h == Parse(f) && Loadable(h, f, sites) && base + h.size <= mem.Length
    requires mem[base..base + h.size] == Zeros(h.size)
    modifies mem
    ensures mem[base..base + h.size] == Loaded(h, f, sites, base)
    ensures OnlyInside(mem, base, h.size)
  {
    var header := Parse(f);
    LoadParsed(mem, base, f, header, sites);
  }

  method LoadParsed(mem: array<byte>, base: nat, f: seq<byte>, h: Header, ghost sites: seq<nat>)
    requires Loadable(h, f, sites) && base + h.size <= mem.Length
    requires mem[base..base + h.size] == Zeros(h.size)
    modifies mem
    ensures mem[base..base + h.size] == Loaded(h, f, sites, base)
    ensures OnlyInside(mem, base, h.size)
  {
    MapSections(mem, base, f, h);
    Relocate(mem, base, h.size, h.relocRva, h.relocSize, base - h.imageBase, Image(h, f), sites);
  }

  /** The two images do not overlap. */
  predicate Apart(b1: nat, h1: Header, b2: nat, h2: Header) {
    b1 + h1.size <= b2 || b2 + h2.size <= b1
  }

  /** Two loads of parsed files at disjoint places, in either order of addresses: each is what it
      would be alone. */
  method LoadTwo(mem: array<byte>, b1: nat, f: seq<byte>, h1: Header, ghost sites1: seq<nat>,
                 b2: nat, g: seq<byte>, h2: Header, ghost sites2: seq<nat>)
    requires Loadable(h1, f, sites1) && Loadable(h2, g, sites2)
    requires b1 + h1.size <= mem.Length && b2 + h2.size <= mem.Length && Apart(b1, h1, b2, h2)
    requires mem[b1..b1 + h1.size] == Zeros(h1.size) && mem[b2..b2 + h2.size] == Zeros(h2.size)
    modifies mem
    ensures mem[b1..b1 + h1.size] == Loaded(h1, f, sites1, b1)
    ensures mem[b2..b2 + h2.size] == Loaded(h2, g, sites2, b2)
  {
    LoadBeside(mem, b1, f, h1, sites1, b2, h2.size);
    LoadBeside(mem, b2, g, h2, sites2, b1, h1.size);
  }

  /** A load leaves what lies beside it alone. */
  method LoadBeside(mem: array<byte>, base: nat, f: seq<byte>, h: Header, ghost sites: seq<nat>,
                    ghost at: nat, ghost size: nat)
    requires Loadable(h, f, sites) && base + h.size <= mem.Length && at + size <= mem.Length
    requires mem[base..base + h.size] == Zeros(h.size)
    requires base + h.size <= at || at + size <= base
    modifies mem
    ensures mem[base..base + h.size] == Loaded(h, f, sites, base)
    ensures mem[at..at + size] == old(mem[at..at + size])
  {
    ghost var was := mem[..];
    LoadParsed(mem, base, f, h, sites);
    if base + h.size <= at {
      SameAbove(was, mem[..], base + h.size, at, size);
    } else {
      SameBelow(was, mem[..], base, at, size);
    }
  }

  lemma SameAbove(m: seq<byte>, n: seq<byte>, from: nat, at: nat, size: nat)
    requires |m| == |n| && from <= at && at + size <= |m| && m[from..] == n[from..]
    ensures n[at..at + size] == m[at..at + size]
  {
    forall k | at <= k < at + size ensures n[k] == m[k] {
      assert n[k] == n[from..][k - from] == m[from..][k - from];
    }
  }

  lemma SameBelow(m: seq<byte>, n: seq<byte>, to: nat, at: nat, size: nat)
    requires |m| == |n| && at + size <= to <= |m| && m[..to] == n[..to]
    ensures n[at..at + size] == m[at..at + size]
  {
    forall k | at <= k < at + size ensures n[k] == m[k] {
      assert n[k] == n[..to][k] == m[..to][k];
    }
  }
}
