/** The two-level handle cache of one pseudo-process and the caches of all of them
    (native/patches/0003-inproc-spawn-and-peb.patch, lines 837-1008).  Blocks of 8192 entries are
    allocated on first use; the cache stands for a map from handle index to entry. */
module FdCache {

  import opened PebTable

  const BLOCK_SIZE: nat := 8192
  const ENTRIES: nat := 128
  const FD_TYPE_INVALID: nat := 0

  /** One cache word: the descriptor plus one (or an error status plus one), and the other fields. */
  datatype Entry = Entry(fd1: int, kind: nat, access: nat, options: nat)

  const EMPTY: Entry := Entry(0, FD_TYPE_INVALID, 0, 0)

  type Handle = h: nat | h < 0x1_0000_0000

  /** Block number and position in the block. */
  datatype Key = Key(entry: nat, idx: nat)

  /** handle_to_index: handles step by four, and handle 0 wraps around to the largest index. */
  function HandleToIndex(h: Handle): Key {
    var i: nat := (h / 4 + 0xFFFF_FFFF) % 0x1_0000_0000;
    Key(i / BLOCK_SIZE, i % BLOCK_SIZE)
  }

  predicate InRange(k: Key) { k.entry < ENTRIES && k.idx < BLOCK_SIZE }

  /** Two handles share a cache word exactly when they differ in the two tag bits only, and the cache
      covers the first 8192 * 128 handles. */
  lemma IndexIsExact(g: Handle, h: Handle)
    ensures HandleToIndex(g) == HandleToIndex(h) <==> g / 4 == h / 4
    ensures InRange(HandleToIndex(h)) <==> 1 <= h / 4 <= BLOCK_SIZE * ENTRIES
  {
    IndexValue(g);
    IndexValue(h);
  }

  lemma IndexValue(h: Handle)
    ensures HandleToIndex(h).entry * BLOCK_SIZE + HandleToIndex(h).idx ==
      if h / 4 == 0 then 0xFFFF_FFFF else h / 4 - 1
    ensures HandleToIndex(h).idx < BLOCK_SIZE
  {
  }

  datatype Lookup = InvalidHandle | Failed(status: int) | Found(fd: int, kind: nat, access: nat, options: nat)

  /** get_cached_fd on the map. */
  function Answer(m: map<Key, Entry>, k: Key): Lookup {
    if !InRange(k) || k !in m then InvalidHandle
    else if m[k].kind == FD_TYPE_INVALID then Failed(m[k].fd1 - 1)
    else Found(m[k].fd1 - 1, m[k].kind, m[k].access, m[k].options)
  }

  /** The descriptor in a lookup's answer, or -1. */
  function FoundFd(l: Lookup): int {
    if l.Found? then l.fd else -1
  }

  /** A word that is all zero counts as absent. */
  function Stored(m: map<Key, Entry>, k: Key, e: Entry): map<Key, Entry> {
    if e == EMPTY then m - {k} else m[k := e]
  }

  /** remove_fd_from_cache: the descriptor to close, or -1. */
  function Evicted(m: map<Key, Entry>, k: Key): int {
    if InRange(k) && k in m && m[k].kind != FD_TYPE_INVALID then m[k].fd1 - 1 else -1
  }

  /** What was added comes back, an error status too, and no other handle notices. */
  lemma GetAfterAdd(m: map<Key, Entry>, g: Handle, h: Handle, fd: int, kind: nat, access: nat, options: nat)
    requires InRange(HandleToIndex(h))
    requires kind == FD_TYPE_INVALID ==> fd != -1
    ensures var m' := Stored(m, HandleToIndex(h), Entry(fd + 1, kind, access, options));
            Answer(m', HandleToIndex(g)) ==
            if g / 4 != h / 4 then Answer(m, HandleToIndex(g))
            else if kind == FD_TYPE_INVALID then Failed(fd)
            else Found(fd, kind, access, options)
  {
    IndexIsExact(g, h);
  }

  lemma GetAfterRemove(m: map<Key, Entry>, g: Handle, h: Handle)
    ensures Answer(m - {HandleToIndex(h)}, HandleToIndex(g)) ==
            if g / 4 == h / 4 then InvalidHandle else Answer(m, HandleToIndex(g))
  {
    IndexIsExact(g, h);
  }

  /** What remove_fd_from_cache hands back is the descriptor a lookup would have answered. */
  lemma RemoveIsLookup(m: map<Key, Entry>, h: Handle)
    ensures Evicted(m, HandleToIndex(h)) == FoundFd(Answer(m, HandleToIndex(h)))
  {
  }

  /** Removing after an addition gives the added descriptor back, -1 for an error status, and for
      every other handle what it gave before. */
  lemma RemoveAfterAdd(m: map<Key, Entry>, g: Handle, h: Handle, fd: int, kind: nat, access: nat, options: nat)
    requires InRange(HandleToIndex(h))
    ensures var m' := Stored(m, HandleToIndex(h), Entry(fd + 1, kind, access, options));
            Evicted(m', HandleToIndex(g)) ==
            if g / 4 != h / 4 then Evicted(m, HandleToIndex(g))
            else if kind == FD_TYPE_INVALID then -1
            else fd
    ensures Evicted(m - {HandleToIndex(h)}, HandleToIndex(g)) ==
            if g / 4 == h / 4 then -1 else Evicted(m, HandleToIndex(g))
  {
    IndexIsExact(g, h);
  }

  class Cache {
    /** fd_cache_initial_block for the primary's cache, null for every other. */
    const initialBlock: array?<Entry>
    const blocks: array<array?<Entry>>
    ghost var contents: map<Key, Entry>
    ghost var Repr: set<object>

    ghost predicate Shape()
      reads this, Repr
    {
      && this in Repr && blocks in Repr && blocks.Length == ENTRIES
      && (forall i :: 0 <= i < ENTRIES && blocks[i] != null ==> blocks[i] in Repr && blocks[i].Length == BLOCK_SIZE)
      && (forall i, j :: 0 <= i < j < ENTRIES && blocks[i] != null ==> blocks[i] != blocks[j])
      && (initialBlock != null ==>
            && initialBlock in Repr && initialBlock.Length == BLOCK_SIZE
            && (blocks[0] == null || blocks[0] == initialBlock)
            && (forall i :: 0 < i < ENTRIES ==> blocks[i] != initialBlock)
            && (blocks[0] == null ==> forall i :: 0 <= i < BLOCK_SIZE ==> initialBlock[i] == EMPTY))
    }

    ghost predicate Cell(k: Key, e: Entry)
      requires Shape()
      reads this, Repr
    {
      && InRange(k) && blocks[k.entry] != null
      && blocks[k.entry][k.idx] == e && e != EMPTY
    }

    /** A block that needs no mapping: already there, or the primary's static first one. */
    ghost predicate HasBlock(entry: nat)
      requires Shape()
      reads this, Repr
    {
      entry < ENTRIES && (blocks[entry] != null || (entry == 0 && initialBlock != null))
    }

    ghost predicate Valid()
      reads this, Repr
    {
      && Shape()
      && (forall k :: k in contents ==> Cell(k, contents[k]))
      && (forall e, i :: 0 <= e < ENTRIES && 0 <= i < BLOCK_SIZE && blocks[e] != null && blocks[e][i] != EMPTY ==>
            Key(e, i) in contents)
    }

    constructor (primary: bool)
      ensures Valid() && contents == map[] && fresh(Repr)
      ensures initialBlock != null <==> primary
    {
      var table := new array?<Entry>[ENTRIES](_ => null);
      blocks := table;
      if primary {
        var first := new Entry[BLOCK_SIZE](_ => EMPTY);
        initialBlock := first;
        Repr := {this, table, first};
      } else {
        initialBlock := null;
        Repr := {this, table};
      }
      contents := map[];
    }

    /** The block of `entry`, allocated if need be; only the mapping can fail. */
    method EnsureBlock(entry: nat, mmapSucceeds: bool) returns (ok: bool)
      requires Valid() && entry < ENTRIES
      modifies Repr
      ensures Valid() && fresh(Repr - old(Repr)) && contents == old(contents)
      ensures ok == (old(HasBlock(entry)) || mmapSucceeds)
      ensures ok ==> blocks[entry] != null
    {
      if blocks[entry] == null {
        if entry == 0 && initialBlock != null {
          blocks[0] := initialBlock;
        } else {
          if !mmapSucceeds { return false; }
          var block := new Entry[BLOCK_SIZE](_ => EMPTY);
          blocks[entry] := block;
          Repr := Repr + {block};
        }
      }
      return true;
    }

    /** The caller adds only where nothing is cached: the source asserts it. */
    method Add(h: Handle, fd: int, kind: nat, access: nat, options: nat, mmapSucceeds: bool) returns (ok: bool)
      requires Valid()
      requires HandleToIndex(h) in contents ==> contents[HandleToIndex(h)].fd1 == 0
      modifies Repr
      ensures Valid() && fresh(Repr - old(Repr))
      ensures ok == (InRange(HandleToIndex(h)) && (old(HasBlock(HandleToIndex(h).entry)) || mmapSucceeds))
      ensures contents ==
        if ok then Stored(old(contents), HandleToIndex(h), Entry(fd + 1, kind, access, options)) else old(contents)
    {
      var k := HandleToIndex(h);
      IndexValue(h);
      if k.entry >= ENTRIES { return false; }
      ok := EnsureBlock(k.entry, mmapSucceeds);
      if ok { Exchange(k, Entry(fd + 1, kind, access, options)); }
    }

    /** interlocked_xchg64 on one word of an allocated block. */
    method Exchange(k: Key, e: Entry)
      requires Valid() && InRange(k) && blocks[k.entry] != null
      modifies blocks[k.entry], this`contents
      ensures Valid() && contents == Stored(old(contents), k, e)
    {
      blocks[k.entry][k.idx] := e;
      contents := Stored(contents, k, e);
    }

    method Get(h: Handle) returns (r: Lookup)
      requires Valid()
      ensures r == Answer(contents, HandleToIndex(h))
    {
      var k := HandleToIndex(h);
      IndexValue(h);
      if k.entry >= ENTRIES || blocks[k.entry] == null { return InvalidHandle; }
      var e := blocks[k.entry][k.idx];
      if e == EMPTY { return InvalidHandle; }
      if e.kind == FD_TYPE_INVALID { return Failed(e.fd1 - 1); }
      return Found(e.fd1 - 1, e.kind, e.access, e.options);
    }

    method Remove(h: Handle) returns (fd: int)
      requires Valid()
      modifies Repr
      ensures Valid() && fresh(Repr - old(Repr))
      ensures contents == old(contents) - {HandleToIndex(h)}
      ensures fd == Evicted(old(contents), HandleToIndex(h))
      ensures fd == FoundFd(Answer(old(contents), HandleToIndex(h)))
    {
      var k := HandleToIndex(h);
      IndexValue(h);
      fd := -1;
      if k.entry < ENTRIES && blocks[k.entry] != null {
        var e := blocks[k.entry][k.idx];
        Exchange(k, EMPTY);
        if e.kind != FD_TYPE_INVALID { fd := e.fd1 - 1; }
      }
    }

    /** The loops of release_process_fd_cache: closes each valid cached descriptor once, and nothing
        else. */
    method CloseAll() returns (closed: seq<int>)
      requires Valid()
      ensures exists keys :: ClosedExactly(contents, closed, keys)
    {
      closed := [];
      ghost var keys := [];
      for entry := 0 to ENTRIES
        invariant Ascending(keys) && forall k :: k in keys ==> k.entry < entry
        invariant ClosedEach(contents, closed, keys)
        invariant forall k :: k in contents && Closable(contents[k]) && k.entry < entry ==> k in keys
      {
        var more, newKeys := CloseBlock(entry);
        closed, keys := closed + more, keys + newKeys;
      }
      assert ClosedExactly(contents, closed, keys);
    }

    method CloseBlock(entry: nat) returns (closed: seq<int>, ghost keys: seq<Key>)
      requires Valid() && entry < ENTRIES
      ensures Ascending(keys) && ClosedEach(contents, closed, keys)
      ensures forall k :: k in keys ==> k.entry == entry
      ensures forall k :: k in contents && Closable(contents[k]) && k.entry == entry ==> k in keys
    {
      closed, keys := [], [];
      var block := blocks[entry];
      if block == null { return; }
      for idx := 0 to BLOCK_SIZE
        invariant Ascending(keys) && forall k :: k in keys ==> k.entry == entry && k.idx < idx
        invariant ClosedEach(contents, closed, keys)
        invariant forall k :: k in contents && Closable(contents[k]) && k.entry == entry && k.idx < idx ==> k in keys
      {
        var e := block[idx];
        if e != EMPTY && e.kind != FD_TYPE_INVALID {
          assert Key(entry, idx) in contents && contents[Key(entry, idx)] == e;
          closed, keys := closed + [e.fd1 - 1], keys + [Key(entry, idx)];
        }
      }
    }
  }

  predicate Closable(e: Entry) { e.kind != FD_TYPE_INVALID }

  predicate Before(j: Key, k: Key) { j.entry < k.entry || (j.entry == k.entry && j.idx < k.idx) }

  predicate Ascending(keys: seq<Key>) {
    forall a, b :: 0 <= a < b < |keys| ==> Before(keys[a], keys[b])
  }

  /** closed[i] is the descriptor cached under keys[i]. */
  predicate ClosedEach(m: map<Key, Entry>, closed: seq<int>, keys: seq<Key>) {
    && |closed| == |keys|
    && forall i :: 0 <= i < |keys| ==>
      keys[i] in m && Closable(m[keys[i]]) && closed[i] == m[keys[i]].fd1 - 1
  }

  /** The closes are in one-to-one correspondence with the valid cached descriptors. */
  predicate ClosedExactly(m: map<Key, Entry>, closed: seq<int>, keys: seq<Key>) {
    && Ascending(keys) && ClosedEach(m, closed, keys)
    && forall k :: k in m && Closable(m[k]) ==> k in keys
  }

  /** The release closes exactly what lookups would have found: keys are the words that a lookup
      answers with a descriptor, and each of these descriptors is closed. */
  lemma {:induction false} ClosesWhatWasFound(m: map<Key, Entry>, closed: seq<int>, keys: seq<Key>)
    requires ClosedExactly(m, closed, keys) && forall k :: k in m ==> InRange(k)
    ensures forall k :: k in keys <==> Answer(m, k).Found?
    ensures |closed| == |keys| && forall i :: 0 <= i < |keys| ==> closed[i] == Answer(m, keys[i]).fd
  {
    forall k ensures k in keys <==> Answer(m, k).Found? {
      if k in keys {
        var i :| 0 <= i < |keys| && keys[i] == k;
      }
    }
  }

  /** A descriptor that was added is closed by the release. */
  lemma {:induction false} CloseAfterAdd(m: map<Key, Entry>, h: Handle, fd: int, kind: nat, access: nat, options: nat,
                                         closed: seq<int>, keys: seq<Key>)
    requires InRange(HandleToIndex(h)) && kind != FD_TYPE_INVALID
    requires ClosedExactly(Stored(m, HandleToIndex(h), Entry(fd + 1, kind, access, options)), closed, keys)
    ensures fd in closed
  {
    var k := HandleToIndex(h);
    assert k in keys;
    var i :| 0 <= i < |keys| && keys[i] == k;
    assert closed[i] == fd;
  }

  /** The caches of the registered children by PEB, and the primary's under NULL; none shares memory
      with another. */
  class Caches {
    var procs: map<Peb, Cache>

    ghost function Memory(): set<object>
      reads this, procs.Values
    {
      procs.Values + set p, o | p in procs && o in procs[p].Repr :: o
    }

    ghost predicate Disjoint()
      reads this, procs.Values
    {
      forall p, q :: p in procs && q in procs && p != q ==> procs[p].Repr !! procs[q].Repr
    }

    ghost predicate Valid()
      reads this, procs.Values, set p, o | p in procs && o in procs[p].Repr :: o
    {
      && NULL in procs && |procs| <= MAX_PROC_FDS + 1
      && (forall p :: p in procs ==> procs[p].Valid() && this !in procs[p].Repr)
      && (forall p :: p in procs ==> (procs[p].initialBlock != null <==> p == NULL))
      && Disjoint()
    }

    constructor ()
      ensures Valid() && fresh(Memory()) && procs.Keys == {NULL} && procs[NULL].contents == map[]
    {
      var c := new Cache(true);
      procs := map[NULL := c];
      new;
      assert procs.Keys == {NULL} && |procs.Keys| == |procs|;
    }

    /** current_fd_cache: the primary never registers, so a miss means the primary. */
    method Current(cur: Peb) returns (p: Peb)
      requires Valid()
      ensures p in procs && p == if cur in procs then cur else NULL
    {
      p := if cur in procs then cur else NULL;
    }

    method Add(cur: Peb, h: Handle, fd: int, kind: nat, access: nat, options: nat, mmapSucceeds: bool)
      returns (ok: bool)
      requires Valid() && cur in procs
      requires HandleToIndex(h) in procs[cur].contents ==> procs[cur].contents[HandleToIndex(h)].fd1 == 0
      modifies procs[cur].Repr
      ensures Valid() && fresh(procs[cur].Repr - old(procs[cur].Repr))
      ensures mmapSucceeds ==> ok == InRange(HandleToIndex(h))
      ensures procs[cur].contents ==
        if ok
        then Stored(old(procs[cur].contents), HandleToIndex(h), Entry(fd + 1, kind, access, options))
        else old(procs[cur].contents)
      ensures forall p :: p in procs && p != cur ==> procs[p].contents == old(procs[p].contents)
    {
      ok := procs[cur].Add(h, fd, kind, access, options, mmapSucceeds);
    }

    method Get(cur: Peb, h: Handle) returns (r: Lookup)
      requires Valid() && cur in procs
      ensures r == Answer(procs[cur].contents, HandleToIndex(h))
    {
      r := procs[cur].Get(h);
    }

    method Remove(cur: Peb, h: Handle) returns (fd: int)
      requires Valid() && cur in procs
      modifies procs[cur].Repr
      ensures Valid() && fresh(procs[cur].Repr - old(procs[cur].Repr))
      ensures fd == Evicted(old(procs[cur].contents), HandleToIndex(h))
      ensures fd == FoundFd(Answer(old(procs[cur].contents), HandleToIndex(h)))
      ensures procs[cur].contents == old(procs[cur].contents) - {HandleToIndex(h)}
      ensures forall p :: p in procs && p != cur ==> procs[p].contents == old(procs[p].contents)
    {
      fd := procs[cur].Remove(h);
    }

    method Enter(owner: Peb, c: Cache)
      requires Valid() && owner !in procs && |procs| < MAX_PROC_FDS + 1
      requires c.Valid() && c.initialBlock == null && this !in c.Repr
      requires forall p :: p in procs ==> procs[p].Repr !! c.Repr
      modifies this
      ensures Valid() && procs == old(procs)[owner := c]
    {
      procs := procs[owner := c];
    }

    /** alloc_process_fd_cache: a new process starts with an empty cache, if there is a slot. */
    method Register(owner: Peb) returns (ok: bool)
      requires Valid() && owner !in procs
      modifies this
      ensures Valid()
      ensures ok == (|old(procs)| < MAX_PROC_FDS + 1)
      ensures !ok ==> procs == old(procs)
      ensures ok ==> owner in procs && fresh(procs[owner].Repr) && procs[owner].contents == map[]
      ensures ok ==> procs == old(procs)[owner := procs[owner]]
    {
      if |procs| >= MAX_PROC_FDS + 1 { return false; }
      var c := new Cache(false);
      Enter(owner, c);
      return true;
    }

    /** The locked part of release_process_fd_cache. */
    method Unregister(owner: Peb) returns (c: Cache)
      requires Valid() && owner != NULL && owner in procs
      modifies this
      ensures Valid() && procs == old(procs) - {owner}
      ensures c == old(procs[owner]) && c.Valid()
    {
      c := procs[owner];
      var rest := procs - {owner};
      assert |rest.Keys| <= |procs.Keys| && |rest.Keys| == |rest| && |procs.Keys| == |procs|;
      procs := rest;
    }

    /** release_process_fd_cache: the owner's descriptors are closed, each once; every other cache
        is untouched. */
    method Release(owner: Peb) returns (closed: seq<int>)
      requires Valid() && owner != NULL
      modifies this
      ensures Valid() && procs == old(procs) - {owner}
      ensures owner in old(procs) ==> exists keys :: ClosedExactly(old(procs[owner].contents), closed, keys)
      ensures owner !in old(procs) ==> closed == []
    {
      closed := [];
      if owner in procs {
        var c := Unregister(owner);
        closed := c.CloseAll();
      }
    }
  }
}
