/** Any number of in-process spawns and exits at once.  Each lock section of spawn_process_inproc, of
    its rollback and of a child's exit is a step of its own, and the steps of different children
    interleave freely (native/patches/0003-inproc-spawn-and-peb.patch).  What every interleaving
    keeps. */
module InprocSteps {

  import opened Wrappers
  import opened PebTable
  import opened InprocSpawn

  /** What a spawn, a child or an exit does next. */
  datatype Stage =
    | SetServer | SetImage | AddCache | CreateThread
    | Running
    | UnsetServer | UnsetImage | DropCache | GiveBack
    | ExitServer(sock: Word) | ExitImage(sock: Word) | ExitCache(sock: Word) | ExitClose(sock: Word)
  {
    predicate Starting() {
      SetServer? || SetImage? || AddCache? || CreateThread?
    }

    predicate RollingBack() {
      UnsetServer? || UnsetImage? || DropCache? || GiveBack?
    }

    predicate Exiting() {
      ExitServer? || ExitImage? || ExitCache? || ExitClose?
    }

    /** Between the registration in the server table and its end. */
    predicate InServers() {
      SetImage? || AddCache? || CreateThread? || Running? || UnsetServer? || ExitServer?
    }

    predicate InImages() {
      (InServers() && !SetImage?) || UnsetImage? || ExitImage?
    }

    predicate NeedsCache() {
      CreateThread? || Running? || DropCache? || ExitServer? || ExitImage? || ExitCache?
    }

    predicate MayHaveCache() {
      NeedsCache() || UnsetServer? || UnsetImage?
    }
  }

  /** A child from the dup of its socket to the last step of its rollback or exit.  `noServer` and
      `noImage` record that the table was full when the child came to register. */
  datatype Proc = Proc(fd: Word, info: Word, cache: Option<Word>, noServer: bool, noImage: bool, stage: Stage)

  datatype HostState = HostState(
    primary: Peb,
    fdSocket: Word,
    regs: Registries,
    res: Resources,
    procs: map<Peb, Proc>)

  /** Begin: the socket is duplicated and both pages are mapped; a failure there changes nothing and is
      no event.  Move: the next step of p, `answer` being the page or the TEB the system hands out and
      `started` whether stack and thread could be made. */
  datatype Event = Begin(peb: Peb, fd: Word, info: Word) | Move(p: Peb, answer: Option<Word>, started: bool)

  function Initial(primary: Peb, fdSocket: Word): HostState {
    HostState(primary, fdSocket, Registries(map[primary := fdSocket], map[], map[]),
              Resources({fdSocket}, {primary}, {}), map[])
  }

  /** What the system hands out is not in use. */
  ghost predicate Can(s: HostState, e: Event) {
    match e
    case Begin(p, fd, info) =>
      p != NULL && p !in s.res.mapped && info !in s.res.mapped && p != info && fd !in s.res.fds
    case Move(p, answer, _) =>
      && p in s.procs
      && (s.procs[p].stage.AddCache? && answer.Some? ==> answer.value !in s.res.mapped)
      && (s.procs[p].stage.CreateThread? && answer.Some? ==> answer.value !in s.res.tebs)
  }

  predicate CacheGranted(g: Registries, answer: Option<Word>) {
    CacheStatus(answer, |g.caches|) == Success
  }

  /** What the next step writes in each table: the owner's value, or None to take its entry out. */
  function ServerWrite(c: Proc): Option<Word> {
    if c.stage.SetServer? then Some(c.fd) else None
  }

  function ImageWrite(c: Proc): Option<Word> {
    if c.stage.SetImage? then Some(c.info) else None
  }

  function CacheWrite(c: Proc, answer: Option<Word>): Option<Word> {
    if c.stage.AddCache? then answer else None
  }

  function ServersAfter(m: map<Peb, Word>, p: Peb, c: Proc): map<Peb, Word> {
    if c.stage.SetServer? || c.stage.UnsetServer? || c.stage.ExitServer? then SetMap(m, p, ServerWrite(c)) else m
  }

  function ImagesAfter(m: map<Peb, Word>, p: Peb, c: Proc): map<Peb, Word> {
    if c.stage.SetImage? || c.stage.UnsetImage? || c.stage.ExitImage? then SetMap(m, p, ImageWrite(c)) else m
  }

  /** A page that could not be had is not registered. */
  function CachesAfter(m: map<Peb, Word>, p: Peb, c: Proc, answer: Option<Word>): map<Peb, Word> {
    if (c.stage.AddCache? && answer.Some?) || c.stage.DropCache? || c.stage.ExitCache?
    then SetMap(m, p, CacheWrite(c, answer)) else m
  }

  /** The registries after the next step of p. */
  function RegsAfter(g: Registries, p: Peb, c: Proc, answer: Option<Word>): Registries {
    Registries(ServersAfter(g.servers, p, c), ImagesAfter(g.images, p, c), CachesAfter(g.caches, p, c, answer))
  }

  /** The exit leaves PEB, image info and TEB allocated, the rollback gives everything back. */
  function ResAfter(r: Resources, g: Registries, p: Peb, c: Proc, answer: Option<Word>, started: bool): Resources {
    match c.stage
    case AddCache => if CacheGranted(g, answer) then r.(mapped := r.mapped + {answer.value}) else r
    case CreateThread => if answer.Some? && started then r.(tebs := r.tebs + {answer.value}) else r
    case DropCache => Unmapped(g, r, p)
    case ExitCache(_) => Unmapped(g, r, p)
    case GiveBack => Resources(r.fds - {c.fd}, r.mapped - {c.info} - {p}, r.tebs)
    case ExitClose(sock) => r.(fds := r.fds - {sock})
    case _ => r
  }

  /** What a step finds: full tables, the registered cache, whether the thread runs, the socket. */
  datatype Found = Found(noServer: bool, noImage: bool, cache: Option<Word>, started: bool, sock: Word)

  predicate NoRoom(m: map<Peb, Word>, p: Peb) {
    p !in m && |m| >= MAX_PROC_FDS
  }

  function Find(s: HostState, p: Peb, answer: Option<Word>, started: bool): Found {
    Found(NoRoom(s.regs.servers, p), NoRoom(s.regs.images, p), if CacheGranted(s.regs, answer) then answer else None,
          answer.Some? && started, ServerFd(s.regs, s.fdSocket, p))
  }

  /** p itself: a spawn that fails rolls back, the exit finds its socket first and closes it last. */
  function ProcAfter(c: Proc, f: Found): Option<Proc> {
    match c.stage
    case SetServer => Some(c.(stage := SetImage, noServer := f.noServer))
    case SetImage => Some(c.(stage := AddCache, noImage := f.noImage))
    case AddCache => Some(c.(stage := if f.cache.Some? then CreateThread else UnsetServer, cache := f.cache))
    case CreateThread => Some(c.(stage := if f.started then Running else UnsetServer))
    case Running => Some(c.(stage := ExitServer(f.sock)))
    case UnsetServer => Some(c.(stage := UnsetImage))
    case UnsetImage => Some(c.(stage := if c.cache.Some? then DropCache else GiveBack))
    case DropCache => Some(c.(stage := GiveBack, cache := None))
    case ExitServer(sock) => Some(c.(stage := ExitImage(sock)))
    case ExitImage(sock) => Some(c.(stage := ExitCache(sock)))
    case ExitCache(sock) => Some(c.(stage := ExitClose(sock), cache := None))
    case GiveBack => None
    case ExitClose(_) => None
  }

  function Started(s: HostState, p: Peb, fd: Word, info: Word): HostState {
    s.(res := s.res.(fds := s.res.fds + {fd}, mapped := s.res.mapped + {p} + {info}),
       procs := s.procs[p := Proc(fd, info, None, false, false, SetServer)])
  }

  function Moved(s: HostState, p: Peb, answer: Option<Word>, started: bool): HostState
    requires p in s.procs
  {
    var c := s.procs[p];
    var next := ProcAfter(c, Find(s, p, answer, started));
    s.(regs := RegsAfter(s.regs, p, c, answer),
       res := ResAfter(s.res, s.regs, p, c, answer, started),
       procs := if next.Some? then s.procs[p := next.value] else s.procs - {p})
  }

  ghost function Apply(s: HostState, e: Event): HostState
    requires Can(s, e)
  {
    match e
    case Begin(p, fd, info) => Started(s, p, fd, info)
    case Move(p, answer, started) => Moved(s, p, answer, started)
  }

  /** A run, from the start of the host process. */
  ghost predicate Trace(ss: seq<HostState>, es: seq<Event>) {
    && |ss| == |es| + 1
    && forall i :: 0 <= i < |es| ==> Can(ss[i], es[i]) && ss[i + 1] == Apply(ss[i], es[i])
  }

  ghost predicate Run(ss: seq<HostState>, es: seq<Event>, primary: Peb, fdSocket: Word) {
    Trace(ss, es) && ss[0] == Initial(primary, fdSocket)
  }

  // ---- What every step keeps

  /** p's entry in the first table: its own socket, if it found room, while its stage says so. */
  ghost predicate ServerRow(m: map<Peb, Word>, p: Peb, c: Proc) {
    (p in m <==> c.stage.InServers() && !c.noServer) && (p in m ==> m[p] == c.fd)
  }

  ghost predicate ImageRow(m: map<Peb, Word>, p: Peb, c: Proc) {
    (p in m <==> c.stage.InImages() && !c.noImage) && (p in m ==> m[p] == c.info)
  }

  ghost predicate CacheRow(m: map<Peb, Word>, p: Peb, c: Proc) {
    (p in m <==> c.cache.Some?) && (p in m ==> m[p] == c.cache.value)
  }

  /** The first table lists the primary and registered children, the others children only. */
  ghost predicate Servers(s: HostState) {
    && s.primary !in s.procs && s.primary in s.regs.servers && s.regs.servers[s.primary] == s.fdSocket
    && (forall p :: p in s.regs.servers ==> p == s.primary || p in s.procs)
    && (forall p :: p in s.procs ==> ServerRow(s.regs.servers, p, s.procs[p]))
  }

  ghost predicate Images(s: HostState) {
    && (forall p :: p in s.regs.images ==> p in s.procs)
    && (forall p :: p in s.procs ==> ImageRow(s.regs.images, p, s.procs[p]))
  }

  ghost predicate Caches(s: HostState) {
    && (forall p :: p in s.regs.caches ==> p in s.procs)
    && (forall p :: p in s.procs ==> CacheRow(s.regs.caches, p, s.procs[p]))
  }

  /** Which stages have a cache, and the socket an exit carries. */
  ghost predicate StageOk(c: Proc, fdSocket: Word) {
    && (c.stage.NeedsCache() ==> c.cache.Some?)
    && (c.cache.Some? ==> c.stage.MayHaveCache())
    && (c.stage.Exiting() ==> c.stage.sock == if c.noServer then fdSocket else c.fd)
  }

  ghost predicate Stages(s: HostState) {
    forall p :: p in s.procs ==> StageOk(s.procs[p], s.fdSocket)
  }

  predicate Owns(c: Proc, w: Word) {
    w == c.info || c.cache == Some(w)
  }

  /** PEBs, image infos and caches are mapped and pairwise different. */
  ghost predicate Pages(s: HostState) {
    && s.primary in s.res.mapped
    && (forall p :: p in s.procs ==> p in s.res.mapped && s.procs[p].cache != Some(s.procs[p].info))
    && (forall p, w :: p in s.procs && Owns(s.procs[p], w) ==>
          w in s.res.mapped && w !in s.procs && w != s.primary)
    && (forall p, q, w :: p in s.procs && q in s.procs && Owns(s.procs[p], w) && Owns(s.procs[q], w) ==> p == q)
  }

  ghost predicate Sizes(g: Registries) {
    |g.servers| <= MAX_PROC_FDS && |g.images| <= MAX_PROC_FDS && |g.caches| <= MAX_PROC_FDS
  }

  ghost predicate Inv(s: HostState) {
    TablesOk(s) && Pages(s) && Sizes(s.regs)
  }

  /** Every registered PEB is mapped, so a page the system calls fresh is in no registry. */
  lemma RegisteredIsMapped(s: HostState)
    requires Inv(s)
    ensures KeysMapped(s.regs, s.res.mapped)
  {
  }

  lemma SetKeepsSize(m: map<Peb, Word>, p: Peb, v: Option<Word>)
    requires |m| <= MAX_PROC_FDS
    ensures |SetMap(m, p, v)| <= MAX_PROC_FDS
  {
    var t := SetMap(m, p, v);
    assert |m.Keys| == |m| && |t.Keys| == |t|;
    if v.None? {
      assert t.Keys == m.Keys - {p};
    } else if t != m {
      assert t.Keys == m.Keys + {p};
    }
  }

  lemma MoveKeepsSizes(g: Registries, p: Peb, c: Proc, answer: Option<Word>)
    requires Sizes(g)
    ensures Sizes(RegsAfter(g, p, c, answer))
  {
    SetKeepsSize(g.servers, p, ServerWrite(c));
    SetKeepsSize(g.images, p, ImageWrite(c));
    SetKeepsSize(g.caches, p, CacheWrite(c, answer));
  }

  ghost predicate SameElsewhere<V>(m: map<Peb, V>, n: map<Peb, V>, p: Peb) {
    forall q :: q != p ==> (q in n <==> q in m) && (q in m ==> n[q] == m[q])
  }

  /** A registration writes the owner's entry, if there is room, and no other. */
  lemma SetIsLocal(m: map<Peb, Word>, p: Peb, v: Option<Word>)
    ensures p in SetMap(m, p, v) <==> v.Some? && (p in m || |m| < MAX_PROC_FDS)
    ensures p in SetMap(m, p, v) ==> SetMap(m, p, v)[p] == v.value
    ensures SameElsewhere(m, SetMap(m, p, v), p)
  {
  }

  /** A step of p leaves everything about the others alone. */
  ghost predicate OnlyP(s: HostState, t: HostState, p: Peb) {
    && t.primary == s.primary && t.fdSocket == s.fdSocket
    && SameElsewhere(s.regs.servers, t.regs.servers, p)
    && SameElsewhere(s.regs.images, t.regs.images, p)
    && SameElsewhere(s.regs.caches, t.regs.caches, p)
    && SameElsewhere(s.procs, t.procs, p)
  }

  lemma RegsAreLocal(g: Registries, p: Peb, c: Proc, answer: Option<Word>)
    ensures
      var h := RegsAfter(g, p, c, answer);
      && SameElsewhere(g.servers, h.servers, p)
      && SameElsewhere(g.images, h.images, p)
      && SameElsewhere(g.caches, h.caches, p)
  {
    SetIsLocal(g.servers, p, ServerWrite(c));
    SetIsLocal(g.images, p, ImageWrite(c));
    SetIsLocal(g.caches, p, CacheWrite(c, answer));
  }

  lemma PutIsLocal(procs: map<Peb, Proc>, p: Peb, next: Option<Proc>)
    ensures SameElsewhere(procs, if next.Some? then procs[p := next.value] else procs - {p}, p)
  {
  }

  lemma MoveIsLocal(s: HostState, p: Peb, answer: Option<Word>, started: bool)
    requires p in s.procs
    ensures OnlyP(s, Moved(s, p, answer, started), p)
  {
    RegsAreLocal(s.regs, p, s.procs[p], answer);
    PutIsLocal(s.procs, p, ProcAfter(s.procs[p], Find(s, p, answer, started)));
  }

  /** How a step changes the part of p that each table depends on. */
  ghost predicate ServerPart(c: Proc, f: Found, d: Proc) {
    && d.fd == c.fd && d.noServer == (if c.stage.SetServer? then f.noServer else c.noServer)
    && (d.stage.InServers() <==>
          c.stage.SetServer? || (c.stage.InServers() && !c.stage.UnsetServer? && !c.stage.ExitServer?))
  }

  ghost predicate ImagePart(c: Proc, f: Found, d: Proc) {
    && d.info == c.info && d.noImage == (if c.stage.SetImage? then f.noImage else c.noImage)
    && (d.stage.InImages() <==>
          c.stage.SetImage? || (c.stage.InImages() && !c.stage.UnsetImage? && !c.stage.ExitImage?))
  }

  ghost predicate CachePart(c: Proc, f: Found, d: Proc) {
    d.cache == if c.stage.AddCache? then f.cache
               else if c.stage.DropCache? || c.stage.ExitCache? then None
               else c.cache
  }

  lemma PartsMove(c: Proc, f: Found)
    ensures ProcAfter(c, f).Some? ==>
      ServerPart(c, f, ProcAfter(c, f).value) && ImagePart(c, f, ProcAfter(c, f).value)
      && CachePart(c, f, ProcAfter(c, f).value)
    ensures ProcAfter(c, f).None? <==> c.stage.GiveBack? || c.stage.ExitClose?
  {
  }

  /** p's own rows follow its stage. */
  lemma ServerRowMoves(m: map<Peb, Word>, p: Peb, c: Proc, f: Found, d: Proc)
    requires ServerRow(m, p, c) && f.noServer == NoRoom(m, p) && ServerPart(c, f, d)
    ensures ServerRow(ServersAfter(m, p, c), p, d)
  {
    SetIsLocal(m, p, ServerWrite(c));
  }

  lemma ImageRowMoves(m: map<Peb, Word>, p: Peb, c: Proc, f: Found, d: Proc)
    requires ImageRow(m, p, c) && f.noImage == NoRoom(m, p) && ImagePart(c, f, d)
    ensures ImageRow(ImagesAfter(m, p, c), p, d)
  {
    SetIsLocal(m, p, ImageWrite(c));
  }

  lemma CacheRowMoves(m: map<Peb, Word>, p: Peb, c: Proc, answer: Option<Word>, f: Found, d: Proc)
    requires CacheRow(m, p, c) && (c.cache.Some? ==> c.stage.MayHaveCache()) && CachePart(c, f, d)
    requires f.cache == if CacheStatus(answer, |m|) == Success then answer else None
    ensures CacheRow(CachesAfter(m, p, c, answer), p, d)
  {
    SetIsLocal(m, p, CacheWrite(c, answer));
  }

  lemma StageMoves(c: Proc, f: Found, fdSocket: Word)
    requires StageOk(c, fdSocket)
    requires c.stage.Running? ==> f.sock == if c.noServer then fdSocket else c.fd
    ensures ProcAfter(c, f).Some? ==> StageOk(ProcAfter(c, f).value, fdSocket)
  {
  }

  /** What p's own row needs for the tables to stay right. */
  ghost predicate RowOk(t: HostState, p: Peb) {
    if p in t.procs then
      && ServerRow(t.regs.servers, p, t.procs[p]) && ImageRow(t.regs.images, p, t.procs[p])
      && CacheRow(t.regs.caches, p, t.procs[p]) && StageOk(t.procs[p], t.fdSocket)
    else Unregistered(t.regs, p)
  }

  lemma MoveRow(s: HostState, p: Peb, answer: Option<Word>, started: bool)
    requires p in s.procs && RowOk(s, p)
    ensures RowOk(Moved(s, p, answer, started), p)
  {
    var c := s.procs[p];
    var f := Find(s, p, answer, started);
    PartsMove(c, f);
    StageMoves(c, f, s.fdSocket);
    if ProcAfter(c, f).Some? {
      var d := ProcAfter(c, f).value;
      ServerRowMoves(s.regs.servers, p, c, f, d);
      ImageRowMoves(s.regs.images, p, c, f, d);
      CacheRowMoves(s.regs.caches, p, c, answer, f, d);
    }
  }

  ghost predicate TablesOk(s: HostState) {
    Servers(s) && Images(s) && Caches(s) && Stages(s)
  }

  lemma TablesKept(s: HostState, t: HostState, p: Peb)
    requires TablesOk(s) && p != s.primary && OnlyP(s, t, p) && RowOk(t, p)
    ensures TablesOk(t)
  {
  }

  /** p keeps its pages or gets a fresh one, and unmaps nothing but its own. */
  ghost predicate PageRow(r: Resources, t: Resources, p: Peb, c: Proc, next: Option<Proc>) {
    && (forall w :: w in r.mapped && w != p && !Owns(c, w) ==> w in t.mapped)
    && (next.Some? ==>
          && p in t.mapped && next.value.cache != Some(next.value.info)
          && forall w :: Owns(next.value, w) ==> w in t.mapped && (Owns(c, w) || w !in r.mapped))
  }

  lemma PageRowMoves(r: Resources, g: Registries, p: Peb, c: Proc, answer: Option<Word>, started: bool, f: Found,
                     next: Option<Proc>)
    requires CacheRow(g.caches, p, c) && p in r.mapped && c.cache != Some(c.info) && !Owns(c, p)
    requires forall w :: Owns(c, w) ==> w in r.mapped
    requires c.stage.AddCache? && answer.Some? ==> answer.value !in r.mapped
    requires f.cache == if CacheGranted(g, answer) then answer else None
    requires next.Some? ==> !c.stage.GiveBack? && next.value.info == c.info && CachePart(c, f, next.value)
    requires c.cache.Some? ==> c.stage.MayHaveCache()
    ensures PageRow(r, ResAfter(r, g, p, c, answer, started), p, c, next)
  {
  }

  lemma PagesKept(s: HostState, t: HostState, p: Peb)
    requires Pages(s) && p in s.procs && p != s.primary && t.primary == s.primary
    requires SameElsewhere(s.procs, t.procs, p)
    requires PageRow(s.res, t.res, p, s.procs[p], if p in t.procs then Some(t.procs[p]) else None)
    ensures Pages(t)
  {
  }

  lemma BeginTables(s: HostState, p: Peb, fd: Word, info: Word)
    requires TablesOk(s) && p !in s.procs && p != s.primary
    ensures TablesOk(Started(s, p, fd, info))
  {
    TablesKept(s, Started(s, p, fd, info), p);
  }

  lemma BeginPages(s: HostState, p: Peb, fd: Word, info: Word)
    requires Pages(s) && Can(s, Begin(p, fd, info))
    ensures Pages(Started(s, p, fd, info))
  {
  }

  lemma StepKeeps(s: HostState, e: Event)
    requires Inv(s) && Can(s, e)
    ensures Inv(Apply(s, e))
  {
    match e
    case Begin(p, fd, info) =>
      BeginTables(s, p, fd, info);
      BeginPages(s, p, fd, info);
    case Move(p, answer, started) =>
      var t := Moved(s, p, answer, started);
      var c, f := s.procs[p], Find(s, p, answer, started);
      MoveKeepsSizes(s.regs, p, c, answer);
      MoveIsLocal(s, p, answer, started);
      MoveRow(s, p, answer, started);
      TablesKept(s, t, p);
      PartsMove(c, f);
      PageRowMoves(s.res, s.regs, p, c, answer, started, f, ProcAfter(c, f));
      PagesKept(s, t, p);
  }

  lemma {:induction false} InvAt(ss: seq<HostState>, es: seq<Event>, primary: Peb, fdSocket: Word, n: nat)
    requires Run(ss, es, primary, fdSocket) && n < |ss|
    ensures Inv(ss[n]) && ss[n].primary == primary && ss[n].fdSocket == fdSocket
  {
    if n > 0 {
      InvAt(ss, es, primary, fdSocket, n - 1);
      StepKeeps(ss[n - 1], es[n - 1]);
    }
  }

  /** Over every interleaving each table holds the primary and exactly the children whose stage says
      so and that found room, each with its own value, and every registered PEB is mapped. */
  lemma RunKeeps(ss: seq<HostState>, es: seq<Event>, primary: Peb, fdSocket: Word)
    requires Run(ss, es, primary, fdSocket)
    ensures forall i :: 0 <= i < |ss| ==> Inv(ss[i]) && KeysMapped(ss[i].regs, ss[i].res.mapped)
  {
    forall i | 0 <= i < |ss| ensures Inv(ss[i]) && KeysMapped(ss[i].regs, ss[i].res.mapped) {
      InvAt(ss, es, primary, fdSocket, i);
      RegisteredIsMapped(ss[i]);
    }
  }
}
