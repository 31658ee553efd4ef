/** The relocation walk of load_pe (native/wineforge/peload_test.c, lines 160-176), over an image that
    lies in a shared address space; the table format is the ".reloc Section" of the Microsoft PE
    Format. */
module PeReloc {

  import opened Bytes

  const TWO64: nat := 0x1_0000_0000_0000_0000
  const DIR64: nat := 10

  function U16(img: seq<byte>, a: nat): nat
    requires a + 2 <= |img|
  {
    UnLe(img[a..a + 2])
  }

  function U32(img: seq<byte>, a: nat): nat
    requires a + 4 <= |img|
  {
    UnLe(img[a..a + 4])
  }

  function U64(img: seq<byte>, a: nat): nat
    requires a + 8 <= |img|
  {
    UnLe(img[a..a + 8])
  }

  function Write(img: seq<byte>, a: nat, bs: seq<byte>): (r: seq<byte>)
    requires a + |bs| <= |img|
    ensures |r| == |img|
  {
    img[..a] + bs + img[a + |bs|..]
  }

  lemma WriteAt(img: seq<byte>, a: nat, bs: seq<byte>)
    requires a + |bs| <= |img|
    ensures Write(img, a, bs)[a..a + |bs|] == bs
    ensures forall k :: 0 <= k < |img| && !(a <= k < a + |bs|) ==> Write(img, a, bs)[k] == img[k]
  {
  }

  type Word = w: seq<byte> | |w| == 8 witness [0, 0, 0, 0, 0, 0, 0, 0]

  function WordAt(img: seq<byte>, s: nat): Word
    requires s + 8 <= |img|
  {
    img[s..s + 8]
  }

  /** A 64-bit word plus delta, wrapping around. */
  function Add(w: Word, delta: int): Word {
    Le((UnLe(w) + delta) % TWO64, 8)
  }

  function Adder(delta: int): Word -> Word {
    (w: Word) => Add(w, delta)
  }

  /** The word at s replaced by f of it. */
  function Patch(img: seq<byte>, s: nat, f: Word -> Word): (r: seq<byte>)
    requires s + 8 <= |img|
    ensures |r| == |img|
  {
    Write(img, s, f(WordAt(img, s)))
  }

  /** The DIR64 targets of the n entries at a. */
  function BlockSites(img: seq<byte>, page: nat, a: nat, n: nat): seq<nat>
    requires a + 2 * n <= |img|
    decreases n
  {
    if n == 0 then []
    else
      var e := U16(img, a);
      (if e / 4096 == DIR64 then [page + e % 4096] else []) + BlockSites(img, page, a + 2, n - 1)
  }

  /** Blocks follow each other inside the table; a size below 8 ends it. */
  ghost predicate TableOk(img: seq<byte>, rva: nat, sz: nat, off: nat)
    requires rva + sz <= |img|
    decreases sz - off
  {
    off >= sz ||
    (off + 8 <= sz &&
     var size := U32(img, rva + off + 4);
     size < 8 || (off + size <= sz && TableOk(img, rva, sz, off + size)))
  }

  function Sites(img: seq<byte>, rva: nat, sz: nat, off: nat): seq<nat>
    requires rva + sz <= |img| && TableOk(img, rva, sz, off)
    decreases sz - off
  {
    if off >= sz then []
    else
      var size := U32(img, rva + off + 4);
      if size < 8 then []
      else BlockSites(img, U32(img, rva + off), rva + off + 8, (size - 8) / 2) + Sites(img, rva, sz, off + size)
  }

  /** Targets lie in the image and not in the table. */
  ghost predicate SitesOk(sites: seq<nat>, size: nat, rva: nat, sz: nat) {
    forall i :: 0 <= i < |sites| ==> sites[i] + 8 <= size && (sites[i] + 8 <= rva || rva + sz <= sites[i])
  }

  ghost predicate Disjoint(sites: seq<nat>) {
    forall i, j :: 0 <= i < j < |sites| ==> sites[i] + 8 <= sites[j] || sites[j] + 8 <= sites[i]
  }

  ghost predicate Inside(sites: seq<nat>, size: nat) {
    forall i :: 0 <= i < |sites| ==> sites[i] + 8 <= size
  }

  /** The image after the first n sites were patched in turn. */
  function Rebased(img: seq<byte>, sites: seq<nat>, n: nat, f: Word -> Word): (r: seq<byte>)
    requires n <= |sites| && Inside(sites, |img|)
    ensures |r| == |img|
  {
    if n == 0 then img else Patch(Rebased(img, sites, n - 1, f), sites[n - 1], f)
  }

  function Relocated(img: seq<byte>, sites: seq<nat>, delta: int): seq<byte>
    requires Inside(sites, |img|)
  {
    Rebased(img, sites, |sites|, Adder(delta))
  }

  predicate Covers(s: nat, p: nat) { s <= p < s + 8 }

  predicate Untouched(sites: seq<nat>, n: nat, p: nat)
    requires n <= |sites|
  {
    forall i :: 0 <= i < n ==> !Covers(sites[i], p)
  }

  /** A byte outside every site is not changed, whatever the sites. */
  lemma {:induction false} RebasedElsewhere(img: seq<byte>, sites: seq<nat>, n: nat, f: Word -> Word, p: nat)
    requires Inside(sites, |img|) && n <= |sites| && p < |img| && Untouched(sites, n, p)
    ensures Rebased(img, sites, n, f)[p] == img[p]
  {
    if n > 0 {
      RebasedElsewhere(img, sites, n - 1, f, p);
      var before, s := Rebased(img, sites, n - 1, f), sites[n - 1];
      assert !Covers(s, p);
      WriteAt(before, s, f(WordAt(before, s)));
    }
  }

  /** A patch leaves disjoint words alone. */
  lemma PatchElsewhere(img: seq<byte>, s: nat, f: Word -> Word, t: nat)
    requires s + 8 <= |img| && t + 8 <= |img| && (s + 8 <= t || t + 8 <= s)
    ensures WordAt(Patch(img, s, f), t) == WordAt(img, t)
  {
    var r := Patch(img, s, f);
    WriteAt(img, s, f(WordAt(img, s)));
    assert forall k :: t <= k < t + 8 ==> r[k] == img[k];
  }

  lemma {:induction false} WordElsewhere(img: seq<byte>, sites: seq<nat>, n: nat, f: Word -> Word, t: nat)
    requires Inside(sites, |img|) && n <= |sites| && t + 8 <= |img|
    requires forall i :: 0 <= i < n ==> sites[i] + 8 <= t || t + 8 <= sites[i]
    ensures WordAt(Rebased(img, sites, n, f), t) == WordAt(img, t)
  {
    if n > 0 {
      WordElsewhere(img, sites, n - 1, f, t);
      PatchElsewhere(Rebased(img, sites, n - 1, f), sites[n - 1], f, t);
    }
  }

  /** Disjoint sites are each patched once, from their original word. */
  lemma {:induction false} RebasedAt(img: seq<byte>, sites: seq<nat>, n: nat, f: Word -> Word, i: nat)
    requires Inside(sites, |img|) && Disjoint(sites) && i < n <= |sites|
    ensures WordAt(Rebased(img, sites, n, f), sites[i]) == f(WordAt(img, sites[i]))
  {
    var before := Rebased(img, sites, n - 1, f);
    if i < n - 1 {
      RebasedAt(img, sites, n - 1, f, i);
      PatchElsewhere(before, sites[n - 1], f, sites[i]);
    } else {
      WordElsewhere(img, sites, n - 1, f, sites[i]);
      WriteAt(before, sites[i], f(WordAt(before, sites[i])));
    }
  }

  /** What relocation means, without reference to any order: each site's word is f of the original,
      every other byte is the original. */
  ghost predicate Pointwise(img: seq<byte>, sites: seq<nat>, f: Word -> Word, r: seq<byte>)
    requires Inside(sites, |img|)
  {
    && |r| == |img|
    && (forall i :: 0 <= i < |sites| ==> WordAt(r, sites[i]) == f(WordAt(img, sites[i])))
    && (forall p :: 0 <= p < |img| && Untouched(sites, |sites|, p) ==> r[p] == img[p])
  }

  /** The walk over disjoint sites means just that. */
  lemma RebasedIsPointwise(img: seq<byte>, sites: seq<nat>, f: Word -> Word)
    requires Inside(sites, |img|) && Disjoint(sites)
    ensures Pointwise(img, sites, f, Rebased(img, sites, |sites|, f))
  {
    var r := Rebased(img, sites, |sites|, f);
    forall i | 0 <= i < |sites| ensures WordAt(r, sites[i]) == f(WordAt(img, sites[i])) {
      RebasedAt(img, sites, |sites|, f, i);
    }
    forall p | 0 <= p < |img| && Untouched(sites, |sites|, p) ensures r[p] == img[p] {
      RebasedElsewhere(img, sites, |sites|, f, p);
    }
  }

  ghost predicate SameSites(a: seq<nat>, b: seq<nat>) {
    (forall i :: 0 <= i < |a| ==> a[i] in b) && (forall i :: 0 <= i < |b| ==> b[i] in a)
  }

  lemma SamePlace(img: seq<byte>, a: seq<nat>, b: seq<nat>, f: Word -> Word, r: seq<byte>, q: seq<byte>, p: nat)
    requires Inside(a, |img|) && Inside(b, |img|) && SameSites(a, b) && p < |img|
    requires Pointwise(img, a, f, r) && Pointwise(img, b, f, q)
    ensures r[p] == q[p]
  {
    if i :| 0 <= i < |a| && Covers(a[i], p) {
      var s := a[i];
      assert r[p] == WordAt(r, s)[p - s];
      assert q[p] == WordAt(q, s)[p - s];
    } else {
      assert Untouched(a, |a|, p) && Untouched(b, |b|, p);
    }
  }

  /** The order of the sites does not matter. */
  lemma OrderDoesNotMatter(img: seq<byte>, a: seq<nat>, b: seq<nat>, delta: int)
    requires Inside(a, |img|) && Inside(b, |img|) && Disjoint(a) && Disjoint(b) && SameSites(a, b)
    ensures Relocated(img, a, delta) == Relocated(img, b, delta)
  {
    var r, q := Relocated(img, a, delta), Relocated(img, b, delta);
    RebasedIsPointwise(img, a, Adder(delta));
    RebasedIsPointwise(img, b, Adder(delta));
    forall p | 0 <= p < |img| ensures r[p] == q[p] {
      SamePlace(img, a, b, Adder(delta), r, q, p);
    }
  }

  lemma PointwiseComposes(img: seq<byte>, sites: seq<nat>, f: Word -> Word, g: Word -> Word, h: Word -> Word,
                          r: seq<byte>, q: seq<byte>)
    requires Inside(sites, |img|) && forall w :: g(f(w)) == h(w)
    requires Pointwise(img, sites, f, r) && Pointwise(r, sites, g, q)
    ensures Pointwise(img, sites, h, q)
  {
  }

  lemma WordRoundTrip(v: int)
    ensures UnLe(Le(v % TWO64, 8)) == v % TWO64
  {
    UnLeOfLe(v % TWO64, 8);
    Powers();
  }

  lemma AddTwice(w: Word, d: int, e: int)
    ensures Add(Add(w, d), e) == Add(w, d + e)
  {
    WordRoundTrip(UnLe(w) + d);
    ModAdds(UnLe(w) + d, e);
  }

  lemma ModAdds(v: int, e: int)
    ensures (v % TWO64 + e) % TWO64 == (v + e) % TWO64
  {
  }

  /** Rebasing the load at B1 to B2 gives the load at B2. */
  lemma RebaseComposes(img: seq<byte>, sites: seq<nat>, d: int, e: int)
    requires Inside(sites, |img|) && Disjoint(sites)
    ensures Relocated(Relocated(img, sites, d), sites, e) == Relocated(img, sites, d + e)
  {
    forall w: Word ensures Adder(e)(Adder(d)(w)) == Adder(d + e)(w) { AddTwice(w, d, e); }
    var once := Relocated(img, sites, d);
    var twice, direct := Relocated(once, sites, e), Relocated(img, sites, d + e);
    RebasedIsPointwise(img, sites, Adder(d));
    RebasedIsPointwise(once, sites, Adder(e));
    RebasedIsPointwise(img, sites, Adder(d + e));
    PointwiseComposes(img, sites, Adder(d), Adder(e), Adder(d + e), once, twice);
    forall p | 0 <= p < |img| ensures twice[p] == direct[p] {
      SamePlace(img, sites, sites, Adder(d + e), twice, direct, p);
    }
  }

  /** The word at a site after relocation. */
  lemma RelocatedWord(img: seq<byte>, sites: seq<nat>, delta: int, i: nat)
    requires Inside(sites, |img|) && Disjoint(sites) && i < |sites|
    ensures U64(Relocated(img, sites, delta), sites[i]) == (U64(img, sites[i]) + delta) % TWO64
  {
    RebasedAt(img, sites, |sites|, Adder(delta), i);
    WordRoundTrip(U64(img, sites[i]) + delta);
  }

  /** Relocated by `to - imageBase`, a pointer into the image of `size` bytes at imageBase points to
      the same place of a copy at `view` exactly when `to` is where that copy is.  Relocating to the
      assigned address instead of the mapped one points into whatever lies there. */
  lemma OwnPointersFollowTheView(img: seq<byte>, sites: seq<nat>, i: nat, imageBase: nat, size: nat, to: nat, view: nat)
    requires Inside(sites, |img|) && Disjoint(sites) && i < |sites|
    requires imageBase <= U64(img, sites[i]) < imageBase + size
    requires to + size <= TWO64 && view + size <= TWO64
    ensures U64(Relocated(img, sites, to - imageBase), sites[i]) == view + (U64(img, sites[i]) - imageBase)
      <==> to == view
  {
    RelocatedWord(img, sites, to - imageBase, i);
    ShiftedPointer(U64(img, sites[i]), imageBase, size, to, view);
  }

  lemma ShiftedPointer(v: nat, imageBase: nat, size: nat, to: nat, view: nat)
    requires imageBase <= v < imageBase + size && to + size <= TWO64 && view + size <= TWO64
    ensures (v + (to - imageBase)) % TWO64 == view + (v - imageBase) <==> to == view
  {
  }
}
