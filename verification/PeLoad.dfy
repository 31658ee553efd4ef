/** load_pe of native/wineforge/peload_test.c on one shared address space: copies headers and sections
    to their places and walks the relocation table, all in place. */
module PeLoad {

  import opened Bytes
  import opened PeReloc

  /** Everything outside [base, base + size) is as before. */
  twostate predicate OnlyInside(mem: array<byte>, base: nat, size: nat)
    requires base + size <= mem.Length
    reads mem
  {
    mem[..base] == old(mem[..base]) && mem[base + size..] == old(mem[base + size..])
  }

  /** memcpy(base + at, bs, |bs|). */
  method Store(mem: array<byte>, base: nat, size: nat, at: nat, bs: seq<byte>)
    requires base + size <= mem.Length && at + |bs| <= size
    modifies mem
    ensures mem[base..base + size] == Write(old(mem[base..base + size]), at, bs)
    ensures OnlyInside(mem, base, size)
  {
    ghost var img := mem[base..base + size];
    for k := 0 to |bs|
      invariant forall i :: 0 <= i < k ==> mem[base + at + i] == bs[i]
      invariant forall i :: 0 <= i < mem.Length && !(base + at <= i < base + at + k) ==> mem[i] == old(mem[i])
    {
      mem[base + at + k] := bs[k];
    }
    ghost var now := mem[base..base + size];
    WriteAt(img, at, bs);
    assert forall i :: 0 <= i < size ==> now[i] == Write(img, at, bs)[i] by {
      forall i | 0 <= i < size ensures now[i] == Write(img, at, bs)[i] {
        if at <= i < at + |bs| { assert Write(img, at, bs)[at..at + |bs|][i - at] == bs[i - at]; }
      }
    }
  }

  /** The table keeps its bytes while sites outside it are patched. */
  lemma TableUnchanged(img: seq<byte>, sites: seq<nat>, n: nat, f: Word -> Word, rva: nat, sz: nat)
    requires Inside(sites, |img|) && SitesOk(sites, |img|, rva, sz) && n <= |sites| && rva + sz <= |img|
    ensures Rebased(img, sites, n, f)[rva..rva + sz] == img[rva..rva + sz]
  {
    forall p | rva <= p < rva + sz ensures Rebased(img, sites, n, f)[p] == img[p] {
      RebasedElsewhere(img, sites, n, f, p);
    }
  }

  lemma SameField(img: seq<byte>, r: seq<byte>, rva: nat, sz: nat, a: nat, n: nat)
    requires rva + sz <= |img| == |r| && r[rva..rva + sz] == img[rva..rva + sz]
    requires rva <= a && a + n <= rva + sz
    ensures r[a..a + n] == img[a..a + n]
  {
    forall k | a <= k < a + n ensures r[k] == img[k] {
      assert r[k] == r[rva..rva + sz][k - rva];
      assert img[k] == img[rva..rva + sz][k - rva];
    }
  }

  /** A word of the image read in place. */
  method Load(mem: array<byte>, base: nat, size: nat, a: nat, n: nat) returns (bs: seq<byte>)
    requires base + size <= mem.Length && a + n <= size
    ensures bs == mem[base..base + size][a..a + n]
  {
    bs := mem[base + a..base + a + n];
    ghost var img := mem[base..base + size];
    assert |bs| == |img[a..a + n]|;
    assert forall i {:trigger bs[i]} :: 0 <= i < n ==> bs[i] == img[a + i] == img[a..a + n][i];
  }

  /** *(uint64_t *)(base + s) += delta */
  method PatchInPlace(mem: array<byte>, base: nat, size: nat, s: nat, delta: int)
    requires base + size <= mem.Length && s + 8 <= size
    modifies mem
    ensures mem[base..base + size] == Patch(old(mem[base..base + size]), s, Adder(delta))
    ensures OnlyInside(mem, base, size)
  {
    var w := Load(mem, base, size, s, 8);
    Store(mem, base, size, s, Add(w, delta));
  }

  predicate IsDir64(img: seq<byte>, a: nat)
    requires a + 2 <= |img|
  {
    U16(img, a) / 4096 == DIR64
  }

  /** The entries from a on are to patch the sites from `at` to `end`. */
  ghost predicate Ahead(img: seq<byte>, page: nat, a: nat, n: nat, sites: seq<nat>, at: nat, end: nat)
    requires a + 2 * n <= |img|
  {
    at <= end <= |sites| && sites[at..end] == BlockSites(img, page, a, n)
  }

  lemma NextEntry(img: seq<byte>, page: nat, a: nat, n: nat, sites: seq<nat>, at: nat, end: nat)
    requires n > 0 && a + 2 * n <= |img| && Ahead(img, page, a, n, sites, at, end)
    ensures Ahead(img, page, a + 2, n - 1, sites, if IsDir64(img, a) then at + 1 else at, end)
    ensures IsDir64(img, a) ==> at < |sites| && sites[at] == page + U16(img, a) % 4096
  {
    if IsDir64(img, a) {
      var rest := BlockSites(img, page, a + 2, n - 1);
      assert sites[at..end] == [page + U16(img, a) % 4096] + rest;
      assert sites[at] == sites[at..end][0];
      assert sites[at + 1..end] == sites[at..end][1..] == rest;
    }
  }

  lemma BlockDone(img: seq<byte>, page: nat, a: nat, sites: seq<nat>, at: nat, end: nat)
    requires a <= |img| && Ahead(img, page, a, 0, sites, at, end)
    ensures at == end
  {
  }

  /** The body of the inner loop for the entry at a. */
  method PatchEntry(mem: array<byte>, base: nat, size: nat, page: nat, a: nat, delta: int,
                    rva: nat, sz: nat, ghost img: seq<byte>, ghost sites: seq<nat>, ghost at: nat)
    requires base + size <= mem.Length && |img| == size && rva + sz <= size
    requires rva <= a && a + 2 <= rva + sz
    requires Inside(sites, size) && SitesOk(sites, size, rva, sz) && at <= |sites|
    requires IsDir64(img, a) ==> at < |sites| && sites[at] == page + U16(img, a) % 4096
    requires mem[base..base + size] == Rebased(img, sites, at, Adder(delta))
    modifies mem
    ensures IsDir64(img, a) ==> mem[base..base + size] == Rebased(img, sites, at + 1, Adder(delta))
    ensures !IsDir64(img, a) ==> mem[base..base + size] == Rebased(img, sites, at, Adder(delta))
    ensures OnlyInside(mem, base, size)
  {
    var bs := Load(mem, base, size, a, 2);
    assert UnLe(bs) == U16(img, a) by {
      TableUnchanged(img, sites, at, Adder(delta), rva, sz);
      SameField(img, mem[base..base + size], rva, sz, a, 2);
    }
    if UnLe(bs) / 4096 == DIR64 {
      PatchInPlace(mem, base, size, page + UnLe(bs) % 4096, delta);
      assert Rebased(img, sites, at + 1, Adder(delta)) ==
        Patch(Rebased(img, sites, at, Adder(delta)), sites[at], Adder(delta));
    }
  }

  /** The inner loop: the n entries at a patch the sites from `at` to `end`. */
  method RelocateBlock(mem: array<byte>, base: nat, size: nat, page: nat, a: nat, n: nat, delta: int,
                       rva: nat, sz: nat, ghost img: seq<byte>, ghost sites: seq<nat>, ghost from: nat, ghost end: nat)
    requires base + size <= mem.Length && |img| == size && rva + sz <= size
    requires rva <= a && a + 2 * n <= rva + sz
    requires Inside(sites, size) && SitesOk(sites, size, rva, sz)
    requires end <= |sites| && Ahead(img, page, a, n, sites, from, end)
    requires mem[base..base + size] == Rebased(img, sites, from, Adder(delta))
    modifies mem
    ensures mem[base..base + size] == Rebased(img, sites, end, Adder(delta))
    ensures OnlyInside(mem, base, size)
  {
    ghost var at := from;
    var p, left := a, n;
    while left > 0
      invariant 0 <= left <= n && p == a + 2 * (n - left)
      invariant Ahead(img, page, p, left, sites, at, end)
      invariant mem[base..base + size] == Rebased(img, sites, at, Adder(delta))
      invariant OnlyInside(mem, base, size)
    {
      NextEntry(img, page, p, left, sites, at, end);
      PatchEntry(mem, base, size, page, p, delta, rva, sz, img, sites, at);
      at := if IsDir64(img, p) then at + 1 else at;
      p, left := p + 2, left - 1;
    }
    BlockDone(img, page, p, sites, at, end);
  }

  /** The blocks from off on are to patch the sites from `at` on. */
  ghost predicate TableAhead(img: seq<byte>, rva: nat, sz: nat, off: nat, sites: seq<nat>, at: nat) {
    && rva + sz <= |img| && TableOk(img, rva, sz, off)
    && at <= |sites| && sites[at..] == Sites(img, rva, sz, off)
  }

  lemma NextBlock(img: seq<byte>, rva: nat, sz: nat, off: nat, sites: seq<nat>, at: nat) returns (end: nat)
    requires TableAhead(img, rva, sz, off, sites, at) && off < sz
    ensures off + 8 <= sz && end <= |sites|
    ensures var size := U32(img, rva + off + 4);
            if size < 8 then at == |sites|
            else
              && off + size <= sz && Ahead(img, U32(img, rva + off), rva + off + 8, (size - 8) / 2, sites, at, end)
              && TableAhead(img, rva, sz, off + size, sites, end)
  {
    end := at;
    var size := U32(img, rva + off + 4);
    if size >= 8 {
      var here := BlockSites(img, U32(img, rva + off), rva + off + 8, (size - 8) / 2);
      var rest := Sites(img, rva, sz, off + size);
      end := at + |here|;
      assert sites[at..] == here + rest;
      assert sites[at..end] == sites[at..][..|here|] == here;
      assert sites[end..] == sites[at..][|here|..] == rest;
    }
  }

  /** A 32-bit field of the table, read in place while sites are being patched. */
  method LoadField(mem: array<byte>, base: nat, size: nat, a: nat, delta: int, rva: nat, sz: nat,
                   ghost img: seq<byte>, ghost sites: seq<nat>, ghost at: nat) returns (v: nat)
    requires base + size <= mem.Length && |img| == size && rva + sz <= size && rva <= a && a + 4 <= rva + sz
    requires Inside(sites, size) && SitesOk(sites, size, rva, sz) && at <= |sites|
    requires mem[base..base + size] == Rebased(img, sites, at, Adder(delta))
    ensures v == U32(img, a)
  {
    var bs := Load(mem, base, size, a, 4);
    v := UnLe(bs);
    assert v == U32(img, a) by {
      TableUnchanged(img, sites, at, Adder(delta), rva, sz);
      SameField(img, mem[base..base + size], rva, sz, a, 4);
    }
  }

  /** The body of the outer loop: `done` when the block at off ends the table. */
  method RelocateNext(mem: array<byte>, base: nat, size: nat, rva: nat, sz: nat, off: nat, delta: int,
                      ghost img: seq<byte>, ghost sites: seq<nat>, ghost at: nat)
    returns (done: bool, next: nat, ghost end: nat)
    requires base + size <= mem.Length && |img| == size
    requires TableAhead(img, rva, sz, off, sites, at) && off < sz
    requires Inside(sites, size) && SitesOk(sites, size, rva, sz)
    requires mem[base..base + size] == Rebased(img, sites, at, Adder(delta))
    modifies mem
    ensures OnlyInside(mem, base, size)
    ensures end <= |sites| && mem[base..base + size] == Rebased(img, sites, end, Adder(delta))
    ensures done ==> end == |sites|
    ensures !done ==> off < next && TableAhead(img, rva, sz, next, sites, end)
  {
    end := NextBlock(img, rva, sz, off, sites, at);
    var blockSize := LoadField(mem, base, size, rva + off + 4, delta, rva, sz, img, sites, at);
    if blockSize < 8 { return true, off, at; }
    RelocateOne(mem, base, size, rva, sz, off, blockSize, delta, img, sites, at, end);
    return false, off + blockSize, end;
  }

  /** The block at off, whose size is known. */
  method RelocateOne(mem: array<byte>, base: nat, size: nat, rva: nat, sz: nat, off: nat, blockSize: nat, delta: int,
                     ghost img: seq<byte>, ghost sites: seq<nat>, ghost at: nat, ghost end: nat)
    requires base + size <= mem.Length && |img| == size && rva + sz <= size
    requires 8 <= blockSize && off + blockSize <= sz && end <= |sites|
    requires Ahead(img, U32(img, rva + off), rva + off + 8, (blockSize - 8) / 2, sites, at, end)
    requires Inside(sites, size) && SitesOk(sites, size, rva, sz)
    requires mem[base..base + size] == Rebased(img, sites, at, Adder(delta))
    modifies mem
    ensures OnlyInside(mem, base, size)
    ensures mem[base..base + size] == Rebased(img, sites, end, Adder(delta))
  {
    var page := LoadField(mem, base, size, rva + off, delta, rva, sz, img, sites, at);
    RelocateBlock(mem, base, size, page, rva + off + 8, (blockSize - 8) / 2, delta, rva, sz, img, sites, at, end);
  }

  lemma TableDone(img: seq<byte>, rva: nat, sz: nat, off: nat, sites: seq<nat>, at: nat)
    requires TableAhead(img, rva, sz, off, sites, at) && off >= sz
    ensures at == |sites|
  {
  }

  /** The walk terminates and patches exactly the sites the table lists. */
  method Relocate(mem: array<byte>, base: nat, size: nat, rva: nat, sz: nat, delta: int,
                  ghost img: seq<byte>, ghost sites: seq<nat>)
    requires base + size <= mem.Length && img == mem[base..base + size]
    requires TableAhead(img, rva, sz, 0, sites, 0)
    requires Inside(sites, size) && SitesOk(sites, size, rva, sz)
    modifies mem
    ensures mem[base..base + size] == Relocated(img, sites, delta)
    ensures OnlyInside(mem, base, size)
  {
    var off, done := 0, false;
    ghost var at := 0;
    while off < sz && !done
      invariant 0 <= at <= |sites|
      invariant if done then at == |sites| else TableAhead(img, rva, sz, off, sites, at)
      invariant mem[base..base + size] == Rebased(img, sites, at, Adder(delta))
      invariant OnlyInside(mem, base, size)
      decreases !done, sz - off
    {
      done, off, at := RelocateNext(mem, base, size, rva, sz, off, delta, img, sites, at);
    }
    if !done { TableDone(img, rva, sz, off, sites, at); }
  }
}
