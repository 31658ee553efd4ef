/** In-process children: the three PEB-keyed registries of a host as arrays, spawn_process_inproc
    with its rollback, the exit of a child's first thread, and what current_server_fd resolves to
    (native/patches/0003-inproc-spawn-and-peb.patch).  Here a call runs alone; InprocIsolation
    interleaves the lock sections of any number of calls. */
module InprocSpawn {

  import opened Wrappers
  import opened PebTable

  datatype Status = Success | TooManyOpenedFiles | NoMemory | Other(code: nat)

  type Failure = s: Status | s != Success witness NoMemory

  /** What the calls into the system answer during one spawn. */
  datatype Os = Os(
    dup: Option<Word>,
    pebPage: Option<Word>,
    infoPage: Option<Word>,
    cachePage: Option<Word>,
    teb: Option<Word>,
    tebError: Failure,
    stack: Status,
    threadStarted: bool)

  /** The three tables, each as the map it stands for. */
  datatype Registries = Registries(servers: map<Peb, Word>, images: map<Peb, Word>, caches: map<Peb, Word>)

  /** Open descriptors, mapped pages and TEBs of the host. */
  datatype Resources = Resources(fds: set<Word>, mapped: set<Word>, tebs: set<Word>)

  /** What the host holds, with the signal mask of the calling thread. */
  datatype Held = Held(regs: Registries, res: Resources, mask: set<Word>)

  /** Descriptors and pages the system hands out are not in use. */
  ghost predicate OsFresh(r: Resources, os: Os) {
    && (os.dup.Some? ==> os.dup.value !in r.fds)
    && (os.pebPage.Some? ==> os.pebPage.value != NULL && os.pebPage.value !in r.mapped)
    && (os.infoPage.Some? ==> os.infoPage.value !in r.mapped && os.infoPage != os.pebPage)
    && (os.cachePage.Some? ==>
          os.cachePage.value !in r.mapped && os.cachePage != os.pebPage && os.cachePage != os.infoPage)
    && (os.teb.Some? ==> os.teb.value !in r.tebs)
  }

  ghost predicate Unregistered(g: Registries, p: Peb) {
    p !in g.servers && p !in g.images && p !in g.caches
  }

  /** Every registered PEB is a mapped page, so a fresh page is never a registered PEB. */
  ghost predicate KeysMapped(g: Registries, mapped: set<Word>) {
    forall p :: p !in mapped ==> Unregistered(g, p)
  }

  function ThreadStatus(os: Os): Status {
    if os.teb.None? then os.tebError
    else if os.stack != Success then os.stack
    else if !os.threadStarted then NoMemory
    else Success
  }

  /** alloc_process_fd_cache for a new owner when `used` slots are taken. */
  function CacheStatus(page: Option<Word>, used: nat): Status {
    if page.None? then NoMemory
    else if used >= MAX_PROC_FDS then TooManyOpenedFiles
    else Success
  }

  function LaunchStatus(os: Os, used: nat): Status {
    if CacheStatus(os.cachePage, used) != Success then CacheStatus(os.cachePage, used) else ThreadStatus(os)
  }

  function SpawnStatus(g: Registries, os: Os): Status {
    if os.dup.None? then TooManyOpenedFiles
    else if os.pebPage.None? || os.infoPage.None? then NoMemory
    else LaunchStatus(os, |g.caches|)
  }

  /** A child's entries in the first two tables; each is missing when its table was full. */
  function WithEntries(g: Registries, p: Peb, fd: Word, info: Word): Registries {
    g.(servers := SetMap(g.servers, p, Some(fd)), images := SetMap(g.images, p, Some(info)))
  }

  function WithCache(g: Registries, p: Peb, cache: Word): Registries {
    g.(caches := SetMap(g.caches, p, Some(cache)))
  }

  function WithoutEntries(g: Registries, p: Peb): Registries {
    g.(servers := SetMap(g.servers, p, None), images := SetMap(g.images, p, None))
  }

  function WithoutCache(g: Registries, p: Peb): Registries {
    g.(caches := SetMap(g.caches, p, None))
  }

  function SpawnEffect(h: Held, os: Os): Held
    requires SpawnStatus(h.regs, os) == Success
  {
    var p, fd, info, cache, teb :=
      os.pebPage.value, os.dup.value, os.infoPage.value, os.cachePage.value, os.teb.value;
    h.(regs := WithCache(WithEntries(h.regs, p, fd, info), p, cache),
       res := Resources(h.res.fds + {fd}, h.res.mapped + {p} + {info} + {cache}, h.res.tebs + {teb}))
  }

  /** current_server_fd on a thread of p. */
  function ServerFd(g: Registries, fdSocket: Word, p: Peb): Word {
    if p in g.servers then g.servers[p] else fdSocket
  }

  function Unmapped(g: Registries, r: Resources, p: Peb): Resources {
    if p in g.caches then r.(mapped := r.mapped - {g.caches[p]}) else r
  }

  /** The detach at the end of inproc_process_thread: the thread's own descriptors, the
      registrations, the socket found at the start.  PEB, image info and TEB stay allocated. */
  function ExitEffect(h: Held, fdSocket: Word, p: Peb, own: set<Word>): Held {
    var r := Unmapped(h.regs, h.res, p);
    h.(regs := WithoutCache(WithoutEntries(h.regs, p), p),
       res := r.(fds := r.fds - own - {ServerFd(h.regs, fdSocket, p)}))
  }

  /** When a spawn succeeds, and what it reports otherwise: the first thing that could not be had. */
  lemma SpawnStatusIs(g: Registries, os: Os)
    ensures SpawnStatus(g, os) == Success <==>
      && os.dup.Some? && os.pebPage.Some? && os.infoPage.Some? && os.cachePage.Some? && |g.caches| < 64
      && os.teb.Some? && os.stack == Success && os.threadStarted
    ensures os.dup.None? ==> SpawnStatus(g, os) == TooManyOpenedFiles
    ensures os.dup.Some? && (os.pebPage.None? || os.infoPage.None? || os.cachePage.None?) ==>
      SpawnStatus(g, os) == NoMemory
    ensures os.dup.Some? && os.pebPage.Some? && os.infoPage.Some? && os.cachePage.Some? && |g.caches| >= 64 ==>
      SpawnStatus(g, os) == TooManyOpenedFiles
    ensures SpawnStatus(g, os) == Success ==> CacheStatus(os.cachePage, |g.caches|) == Success
    ensures os.dup.Some? && os.pebPage.Some? && os.infoPage.Some?
              && CacheStatus(os.cachePage, |g.caches|) == Success ==>
      && (os.teb.None? ==> SpawnStatus(g, os) == os.tebError)
      && (os.teb.Some? && os.stack != Success ==> SpawnStatus(g, os) == os.stack)
      && (os.teb.Some? && os.stack == Success && !os.threadStarted ==> SpawnStatus(g, os) == NoMemory)
  {
  }

  /** What a successful spawn adds: three entries, of which the first two are missing if their table
      was full, one descriptor, three pages and a TEB. */
  lemma SpawnAdds(h: Held, os: Os)
    requires SpawnStatus(h.regs, os) == Success && Unregistered(h.regs, os.pebPage.value)
    ensures var p, t := os.pebPage.value, SpawnEffect(h, os);
      && t.mask == h.mask
      && t.res.fds == h.res.fds + {os.dup.value} && t.res.tebs == h.res.tebs + {os.teb.value}
      && t.res.mapped == h.res.mapped + {p, os.infoPage.value, os.cachePage.value}
      && t.regs.servers == (if |h.regs.servers| < 64 then h.regs.servers[p := os.dup.value] else h.regs.servers)
      && t.regs.images == (if |h.regs.images| < 64 then h.regs.images[p := os.infoPage.value] else h.regs.images)
      && t.regs.caches == h.regs.caches[p := os.cachePage.value]
  {
  }

  lemma UnsetUndoesSet(m: map<Peb, Word>, p: Peb, v: Word)
    requires p !in m
    ensures SetMap(SetMap(m, p, Some(v)), p, None) == m
    ensures SetMap(m, p, None) == m
  {
    assert m[p := v] - {p} == m;
    assert m - {p} == m;
  }

  /** Unregistering undoes registering, also when a full table dropped the entry. */
  lemma WithoutUndoesWith(g: Registries, p: Peb, fd: Word, info: Word, cache: Word)
    requires Unregistered(g, p)
    ensures WithoutEntries(WithEntries(g, p, fd, info), p) == g
    ensures WithoutCache(WithoutEntries(WithCache(WithEntries(g, p, fd, info), p, cache), p), p) == g
  {
    UnsetUndoesSet(g.servers, p, fd);
    UnsetUndoesSet(g.images, p, info);
    UnsetUndoesSet(g.caches, p, cache);
  }

  /** proc_server_fds, proc_image_infos and proc_fd_caches. */
  class Tables {
    const servers: Table
    const images: Table
    const caches: Table

    ghost function Repr(): set<object> {
      {servers.slots, images.slots, caches.slots}
    }

    ghost predicate Valid()
      reads Repr()
    {
      && servers.slots != images.slots && servers.slots != caches.slots && images.slots != caches.slots
      && servers.Valid() && images.Valid() && caches.Valid()
    }

    ghost function Regs(): Registries
      requires Valid()
      reads Repr()
    {
      Registries(servers.Map(), images.Map(), caches.Map())
    }

    constructor ()
      ensures Valid() && fresh(Repr()) && Regs() == Registries(map[], map[], map[])
    {
      servers := new Table();
      images := new Table();
      caches := new Table();
    }

    method SetServer(p: Peb, fd: Option<Word>)
      requires Valid() && p != NULL
      modifies Repr()
      ensures Valid() && Regs() == old(Regs()).(servers := SetMap(old(Regs()).servers, p, fd))
    {
      servers.Set(p, fd);
    }

    method SetImage(p: Peb, info: Option<Word>)
      requires Valid() && p != NULL
      modifies Repr()
      ensures Valid() && Regs() == old(Regs()).(images := SetMap(old(Regs()).images, p, info))
    {
      images.Set(p, info);
    }

    method Enter(p: Peb, fd: Word, info: Word)
      requires Valid() && p != NULL
      modifies Repr()
      ensures Valid() && Regs() == WithEntries(old(Regs()), p, fd, info)
    {
      SetServer(p, Some(fd));
      SetImage(p, Some(info));
    }

    method Leave(p: Peb)
      requires Valid() && p != NULL
      modifies Repr()
      ensures Valid() && Regs() == WithoutEntries(old(Regs()), p)
    {
      SetServer(p, None);
      SetImage(p, None);
    }

    method AddCache(p: Peb, cache: Word) returns (ok: bool)
      requires Valid() && p != NULL && p !in Regs().caches
      modifies Repr()
      ensures Valid() && ok == (|old(Regs()).caches| < MAX_PROC_FDS)
      ensures Regs() == WithCache(old(Regs()), p, cache)
    {
      var found, kept := caches.Add(p, cache);
      ok := kept;
    }

    method DropCache(p: Peb) returns (cache: Option<Word>)
      requires Valid() && p != NULL
      modifies Repr()
      ensures Valid() && Regs() == WithoutCache(old(Regs()), p)
      ensures cache == if p in old(Regs()).caches then Some(old(Regs()).caches[p]) else None
    {
      cache := caches.Remove(p);
    }

    method CurrentServerFd(cur: Peb, fdSocket: Word) returns (fd: Word)
      requires Valid() && cur != NULL
      ensures fd == ServerFd(Regs(), fdSocket, cur)
    {
      fd := servers.Get(cur, fdSocket);
    }
  }

  /** The host process. */
  class Host {
    const primary: Peb
    const fdSocket: Word
    const serverBlockSet: set<Word>
    const tables: Tables
    var res: Resources
    var mask: set<Word>

    ghost predicate Valid()
      reads this, tables.Repr()
    {
      tables.Valid() && this !in tables.Repr()
    }

    ghost function View(): Held
      requires Valid()
      reads this, tables.Repr()
    {
      Held(tables.Regs(), res, mask)
    }

    /** server_init_process: the primary registers its socket, and nothing else. */
    constructor (primary: Peb, fdSocket: Word, blockSet: set<Word>, mask: set<Word>)
      requires primary != NULL
      ensures Valid() && fresh(tables.Repr())
      ensures View() ==
        Held(Registries(map[primary := fdSocket], map[], map[]), Resources({fdSocket}, {primary}, {}), mask)
    {
      this.primary, this.fdSocket, serverBlockSet := primary, fdSocket, blockSet;
      var t := new Tables();
      t.SetServer(primary, Some(fdSocket));
      tables := t;
      res := Resources({fdSocket}, {primary}, {});
      this.mask := mask;
    }

    /** Every failure leaves registries, descriptors, mappings, TEBs and the signal mask as they were. */
    method SpawnInproc(os: Os) returns (status: Status)
      requires Valid() && KeysMapped(tables.Regs(), res.mapped) && OsFresh(res, os)
      modifies this, tables.Repr()
      ensures Valid()
      ensures status == SpawnStatus(old(tables.Regs()), os)
      ensures status != Success ==> View() == old(View())
      ensures status == Success ==> View() == SpawnEffect(old(View()), os)
    {
      ghost var was := res;
      if os.dup.None? { return TooManyOpenedFiles; }
      var fd := os.dup.value;
      res := res.(fds := res.fds + {fd});
      if os.pebPage.None? {
        res := res.(fds := res.fds - {fd});
        assert res.fds == was.fds;
        return NoMemory;
      }
      var peb := os.pebPage.value;
      res := res.(mapped := res.mapped + {peb});
      if os.infoPage.None? {
        res := res.(mapped := res.mapped - {peb});
        res := res.(fds := res.fds - {fd});
        assert res.fds == was.fds && res.mapped == was.mapped;
        return NoMemory;
      }
      var info := os.infoPage.value;
      res := res.(mapped := res.mapped + {info});
      status := Launch(peb, fd, info, os);
      if status == Success { return; }
      res := res.(mapped := res.mapped - {info});
      res := res.(mapped := res.mapped - {peb});
      res := res.(fds := res.fds - {fd});
      assert res.fds == was.fds && res.mapped == was.mapped;
    }

    /** From the first registration on; a failure takes the registrations back. */
    method Launch(peb: Peb, fd: Word, info: Word, os: Os) returns (status: Status)
      requires Valid() && peb != NULL && Unregistered(tables.Regs(), peb)
      requires os.cachePage.Some? ==> os.cachePage.value !in res.mapped
      requires os.teb.Some? ==> os.teb.value !in res.tebs
      modifies this, tables.Repr()
      ensures Valid()
      ensures status == LaunchStatus(os, |old(tables.Regs()).caches|)
      ensures status != Success ==> View() == old(View())
      ensures status == Success ==> View() == old(View()).(
        regs := WithCache(WithEntries(old(tables.Regs()), peb, fd, info), peb, os.cachePage.value),
        res := old(res).(mapped := old(res).mapped + {os.cachePage.value}, tebs := old(res).tebs + {os.teb.value}))
    {
      ghost var g := tables.Regs();
      WithoutUndoesWith(g, peb, fd, info, if os.cachePage.Some? then os.cachePage.value else NULL);
      tables.Enter(peb, fd, info);
      status := AllocCache(peb, os.cachePage);
      if status != Success {
        tables.Leave(peb);
        return;
      }
      ghost var entered := res;
      status := StartChild(peb, os);
      assert entered.mapped - {os.cachePage.value} == old(res).mapped;
    }

    /** The thread, with signals blocked; if it does not start, the three registrations are undone. */
    method StartChild(peb: Peb, os: Os) returns (status: Status)
      requires Valid() && peb != NULL
      requires os.teb.Some? ==> os.teb.value !in res.tebs
      modifies this, tables.Repr()
      ensures Valid() && mask == old(mask) && status == ThreadStatus(os)
      ensures status == Success ==>
        tables.Regs() == old(tables.Regs()) && res == old(res).(tebs := old(res).tebs + {os.teb.value})
      ensures status != Success ==>
        && tables.Regs() == WithoutCache(WithoutEntries(old(tables.Regs()), peb), peb)
        && res == Unmapped(old(tables.Regs()), old(res), peb)
    {
      var saved := mask;
      mask := mask + serverBlockSet;
      status := StartThread(os);
      mask := saved;
      if status != Success {
        tables.Leave(peb);
        ReleaseCache(peb);
      }
    }

    /** alloc_process_fd_cache: the page is given back when it is not registered. */
    method AllocCache(owner: Peb, page: Option<Word>) returns (status: Status)
      requires Valid() && owner != NULL && owner !in tables.Regs().caches
      requires page.Some? ==> page.value !in res.mapped
      modifies this`res, tables.Repr()
      ensures Valid()
      ensures status == CacheStatus(page, |old(tables.Regs()).caches|)
      ensures status == Success ==>
        && res == old(res).(mapped := old(res).mapped + {page.value})
        && tables.Regs() == WithCache(old(tables.Regs()), owner, page.value)
      ensures status != Success ==> res == old(res) && tables.Regs() == old(tables.Regs())
    {
      if page.None? { return NoMemory; }
      ghost var was := res;
      res := res.(mapped := res.mapped + {page.value});
      var ok := tables.AddCache(owner, page.value);
      if ok { return Success; }
      res := res.(mapped := res.mapped - {page.value});
      assert res.mapped == was.mapped;
      return TooManyOpenedFiles;
    }

    /** release_process_fd_cache, less the descriptors held in the cache (FdCache.Caches.Release). */
    method ReleaseCache(owner: Peb)
      requires Valid() && owner != NULL
      modifies this`res, tables.Repr()
      ensures Valid()
      ensures res == Unmapped(old(tables.Regs()), old(res), owner)
      ensures tables.Regs() == WithoutCache(old(tables.Regs()), owner)
    {
      var cache := tables.DropCache(owner);
      if cache.Some? {
        res := res.(mapped := res.mapped - {cache.value});
      }
    }

    /** TEB, stack and thread; a TEB that is not used is freed again. */
    method StartThread(os: Os) returns (status: Status)
      requires os.teb.Some? ==> os.teb.value !in res.tebs
      modifies this`res
      ensures status == ThreadStatus(os)
      ensures res == if status == Success then old(res).(tebs := old(res).tebs + {os.teb.value}) else old(res)
    {
      if os.teb.None? { return os.tebError; }
      res := res.(tebs := res.tebs + {os.teb.value});
      if os.stack != Success {
        res := res.(tebs := res.tebs - {os.teb.value});
        assert res.tebs == old(res).tebs;
        return os.stack;
      }
      if !os.threadStarted {
        res := res.(tebs := res.tebs - {os.teb.value});
        assert res.tebs == old(res).tebs;
        return NoMemory;
      }
      return Success;
    }

    /** The end of a child's first thread; `own` are its open request, reply and wait descriptors. */
    method ChildExit(child: Peb, own: set<Word>)
      requires Valid() && child != NULL
      modifies this, tables.Repr()
      ensures Valid() && View() == ExitEffect(old(View()), fdSocket, child, own)
      ensures child in old(tables.Regs()).servers ==>
        res.fds == old(res).fds - own - {old(tables.Regs()).servers[child]}
      ensures child !in old(tables.Regs()).servers ==> res.fds == old(res).fds - own - {fdSocket}
      ensures tables.Regs().servers == old(tables.Regs()).servers - {child}
      ensures tables.Regs().images == old(tables.Regs()).images - {child}
      ensures tables.Regs().caches == old(tables.Regs()).caches - {child}
      ensures res.mapped == old(res).mapped -
        (if child in old(tables.Regs()).caches then {old(tables.Regs()).caches[child]} else {})
      ensures res.tebs == old(res).tebs && mask == old(mask)
    {
      var socketfd := tables.CurrentServerFd(child, fdSocket);
      res := res.(fds := res.fds - own);
      tables.Leave(child);
      ReleaseCache(child);
      res := res.(fds := res.fds - {socketfd});
    }
  }
}
