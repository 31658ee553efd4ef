/** When an in-process child has its own server socket, image info and descriptor cache, and the
    population up to which all of them do, over every interleaving of spawns and exits. */
module InprocIsolation {

  import opened Wrappers
  import opened PebTable
  import opened InprocSpawn
  import opened InprocSteps

  // ---- When a child has its own socket

  ghost predicate AliveFrom(ss: seq<HostState>, p: Peb, i: nat, j: nat)
    requires i <= j < |ss|
  {
    forall k :: i <= k <= j ==> p in ss[k].procs
  }

  lemma PartsOfOther(s: HostState, e: Event, p: Peb)
    requires Can(s, e) && p in s.procs && p in s.res.mapped && !(e.Move? && e.p == p)
    ensures p in Apply(s, e).procs && Apply(s, e).procs[p] == s.procs[p]
  {
    if e.Move? { MoveIsLocal(s, e.p, e.answer, e.started); }
  }

  lemma PartsOfOwn(s: HostState, e: Event, p: Peb)
    requires Can(s, e) && e.Move? && e.p == p && p in Apply(s, e).procs
    ensures ProcAfter(s.procs[p], Find(s, p, e.answer, e.started)) == Some(Apply(s, e).procs[p])
  {
  }

  /** d is c after it came to register at a table that was full or not. */
  ghost predicate Past(c: Proc, d: Proc, full: bool) {
    d.fd == c.fd && !d.stage.SetServer? && d.noServer == full
  }

  lemma NeverSetServer(c: Proc, f: Found)
    requires !c.stage.SetServer? && ProcAfter(c, f).Some?
    ensures Past(c, ProcAfter(c, f).value, c.noServer)
  {
  }

  /** Once p has come to register, its socket and what became of the registration stay as they are. */
  lemma PastStays(s: HostState, e: Event, t: HostState, p: Peb, c: Proc, full: bool)
    requires Can(s, e) && t == Apply(s, e) && p in s.procs && p in t.procs && p in s.res.mapped
    requires Past(c, s.procs[p], full)
    ensures Past(c, t.procs[p], full)
  {
    if e.Move? && e.p == p {
      PartsOfOwn(s, e, p);
      NeverSetServer(s.procs[p], Find(s, p, e.answer, e.started));
    } else {
      PartsOfOther(s, e, p);
    }
  }

  lemma AtRegistration(s: HostState, e: Event, t: HostState, p: Peb)
    requires Can(s, e) && t == Apply(s, e) && e.Move? && e.p == p && s.procs[p].stage.SetServer?
    requires ServerRow(s.regs.servers, p, s.procs[p]) && |s.regs.servers| <= MAX_PROC_FDS
    ensures p in t.procs && Past(s.procs[p], t.procs[p], |s.regs.servers| == MAX_PROC_FDS)
  {
  }

  lemma PastNext(ss: seq<HostState>, es: seq<Event>, primary: Peb, fdSocket: Word, j: nat, p: Peb, c: Proc, full: bool)
    requires Run(ss, es, primary, fdSocket) && j < |es| && p in ss[j].procs && p in ss[j + 1].procs
    requires Past(c, ss[j].procs[p], full)
    ensures Past(c, ss[j + 1].procs[p], full)
  {
    InvAt(ss, es, primary, fdSocket, j);
    PastStays(ss[j], es[j], ss[j + 1], p, c, full);
  }

  lemma PastUntil(ss: seq<HostState>, es: seq<Event>, primary: Peb, fdSocket: Word, p: Peb, i: nat, j: nat, c: Proc,
                  full: bool)
    requires Run(ss, es, primary, fdSocket) && i <= j < |ss| && AliveFrom(ss, p, i, j)
    requires Past(c, ss[i].procs[p], full)
    ensures Past(c, ss[j].procs[p], full)
  {
    var k := i;
    while k < j
      invariant i <= k <= j && Past(c, ss[k].procs[p], full)
    {
      PastNext(ss, es, primary, fdSocket, k, p, c, full);
      k := k + 1;
    }
  }

  /** p comes to register at i and is registered, as far as its stage goes, at j: it resolves its own
      socket exactly if the server table had a slot left at i, and else the primary's. */
  lemma OwnSocketIffRoom(ss: seq<HostState>, es: seq<Event>, primary: Peb, fdSocket: Word, p: Peb, i: nat, j: nat)
    requires Run(ss, es, primary, fdSocket) && i < j < |ss| && AliveFrom(ss, p, i, j)
    requires es[i].Move? && es[i].p == p && ss[i].procs[p].stage.SetServer?
    requires ss[j].procs[p].stage.InServers()
    ensures p in ss[j].regs.servers <==> |ss[i].regs.servers| < MAX_PROC_FDS
    ensures ServerFd(ss[j].regs, fdSocket, p) ==
      if |ss[i].regs.servers| < MAX_PROC_FDS then ss[i].procs[p].fd else fdSocket
  {
    InvAt(ss, es, primary, fdSocket, i);
    AtRegistration(ss[i], es[i], ss[i + 1], p);
    PastUntil(ss, es, primary, fdSocket, p, i + 1, j, ss[i].procs[p], |ss[i].regs.servers| == MAX_PROC_FDS);
    InvAt(ss, es, primary, fdSocket, j);
    assert ServerRow(ss[j].regs.servers, p, ss[j].procs[p]);
  }

  // ---- The population up to which every child is isolated

  /** Spawns in progress, children and exits together. */
  ghost predicate AtMost(ss: seq<HostState>, bound: nat) {
    forall i :: 0 <= i < |ss| ==> |ss[i].procs| <= bound
  }

  /** Every socket is open, pairwise distinct and not the primary's; no registration was dropped. */
  ghost predicate Isolated(s: HostState) {
    && s.fdSocket in s.res.fds
    && (forall p :: p in s.procs ==> !s.procs[p].noServer)
    && (forall p :: p in s.procs ==> s.procs[p].fd in s.res.fds && s.procs[p].fd != s.fdSocket)
    && (forall p, q :: p in s.procs && q in s.procs && p != q ==> s.procs[p].fd != s.procs[q].fd)
  }

  lemma RoomFor(s: HostState, p: Peb)
    requires Inv(s) && p in s.procs && p !in s.regs.servers && |s.procs| < MAX_PROC_FDS
    ensures |s.regs.servers| < MAX_PROC_FDS
  {
    forall q | q in s.regs.servers.Keys ensures q in s.procs.Keys - {p} + {s.primary} {
      assert q == s.primary || q in s.procs;
    }
    SubsetSize(s.regs.servers.Keys, s.procs.Keys - {p} + {s.primary});
    assert |s.regs.servers.Keys| == |s.regs.servers| && |s.procs.Keys| == |s.procs|;
  }

  lemma {:induction false} SubsetSize(a: set<Word>, b: set<Word>)
    requires a <= b
    ensures |a| <= |b|
  {
    assert b == a + (b - a);
  }

  lemma BeginStaysIsolated(s: HostState, p: Peb, fd: Word, info: Word)
    requires Isolated(s) && Can(s, Begin(p, fd, info))
    ensures Isolated(Started(s, p, fd, info))
  {
  }

  /** What a step closes: the rollback its own socket, the exit the one it found. */
  lemma FdsMove(s: HostState, p: Peb, answer: Option<Word>, started: bool)
    requires p in s.procs && StageOk(s.procs[p], s.fdSocket)
    ensures
      var t, c := Moved(s, p, answer, started), s.procs[p];
      t.res.fds == if c.stage.GiveBack? || (c.stage.ExitClose? && !c.noServer) then s.res.fds - {c.fd}
                   else if c.stage.ExitClose? then s.res.fds - {s.fdSocket}
                   else s.res.fds
  {
  }

  lemma MoveStaysIsolated(s: HostState, p: Peb, answer: Option<Word>, started: bool)
    requires Inv(s) && Isolated(s) && Can(s, Move(p, answer, started)) && |s.procs| < MAX_PROC_FDS
    ensures Isolated(Moved(s, p, answer, started))
  {
    var c, f, t := s.procs[p], Find(s, p, answer, started), Moved(s, p, answer, started);
    FdsMove(s, p, answer, started);
    MoveIsLocal(s, p, answer, started);
    PartsMove(c, f);
    if p !in s.regs.servers { RoomFor(s, p); }
    IsolationKept(s, t, p);
  }

  lemma IsolationKept(s: HostState, t: HostState, p: Peb)
    requires Isolated(s) && p in s.procs && t.fdSocket == s.fdSocket && SameElsewhere(s.procs, t.procs, p)
    requires p in t.procs ==> !t.procs[p].noServer && t.procs[p].fd == s.procs[p].fd && t.res.fds == s.res.fds
    requires p !in t.procs ==> t.res.fds == s.res.fds - {s.procs[p].fd}
    ensures Isolated(t)
  {
  }

  lemma {:induction false} IsolatedAt(ss: seq<HostState>, es: seq<Event>, primary: Peb, fdSocket: Word, n: nat)
    requires Run(ss, es, primary, fdSocket) && AtMost(ss, MAX_PROC_FDS - 1) && n < |ss|
    ensures Isolated(ss[n])
  {
    if n > 0 {
      IsolatedAt(ss, es, primary, fdSocket, n - 1);
      InvAt(ss, es, primary, fdSocket, n - 1);
      match es[n - 1]
      case Begin(p, fd, info) => BeginStaysIsolated(ss[n - 1], p, fd, info);
      case Move(p, answer, started) => MoveStaysIsolated(ss[n - 1], p, answer, started);
    }
  }

  lemma IsolatedResolves(s: HostState)
    requires Servers(s) && Isolated(s)
    ensures ServerFd(s.regs, s.fdSocket, s.primary) == s.fdSocket
    ensures forall p :: p in s.procs && s.procs[p].stage.InServers() ==>
      ServerFd(s.regs, s.fdSocket, p) == s.procs[p].fd != s.fdSocket
  {
    forall p | p in s.procs && s.procs[p].stage.InServers()
      ensures ServerFd(s.regs, s.fdSocket, p) == s.procs[p].fd != s.fdSocket
    {
      assert ServerRow(s.regs.servers, p, s.procs[p]);
    }
  }

  /** As long as children, spawns in progress and exits in progress together number at most 63, every
      process resolves its own open socket, no two the same. */
  lemma UpTo63AreIsolated(ss: seq<HostState>, es: seq<Event>, primary: Peb, fdSocket: Word)
    requires Run(ss, es, primary, fdSocket) && AtMost(ss, MAX_PROC_FDS - 1)
    ensures forall i :: 0 <= i < |ss| ==> Isolated(ss[i]) && ServerFd(ss[i].regs, fdSocket, primary) == fdSocket
    ensures forall i, p :: 0 <= i < |ss| && p in ss[i].procs && ss[i].procs[p].stage.InServers() ==>
      ServerFd(ss[i].regs, fdSocket, p) == ss[i].procs[p].fd != fdSocket
  {
    forall i | 0 <= i < |ss|
      ensures Isolated(ss[i]) && ServerFd(ss[i].regs, fdSocket, primary) == fdSocket
      ensures forall p :: p in ss[i].procs && ss[i].procs[p].stage.InServers() ==>
        ServerFd(ss[i].regs, fdSocket, p) == ss[i].procs[p].fd != fdSocket
    {
      InvAt(ss, es, primary, fdSocket, i);
      IsolatedAt(ss, es, primary, fdSocket, i);
      IsolatedResolves(ss[i]);
    }
  }

  /** What the last step of an exit closes: the child's own socket if its registration found room, and
      otherwise the primary's, which the lookup fell back to. */
  lemma ExitClosesOwnIffRegistered(s: HostState, p: Peb, answer: Option<Word>, started: bool)
    requires Inv(s) && p in s.procs && s.procs[p].stage.ExitClose?
    ensures Moved(s, p, answer, started).res.fds ==
      s.res.fds - {if s.procs[p].noServer then s.fdSocket else s.procs[p].fd}
    ensures p !in Moved(s, p, answer, started).procs
  {
    assert StageOk(s.procs[p], s.fdSocket);
  }

  lemma OwnImageAt(s: HostState, p: Peb)
    requires Inv(s) && |s.procs| <= MAX_PROC_FDS && p in s.procs && p !in s.regs.images
    ensures |s.regs.images| < MAX_PROC_FDS
  {
    forall q | q in s.regs.images.Keys ensures q in s.procs.Keys - {p} {
      assert q in s.procs;
    }
    SubsetSize(s.regs.images.Keys, s.procs.Keys - {p});
    assert |s.regs.images.Keys| == |s.regs.images| && |s.procs.Keys| == |s.procs|;
  }

  ghost predicate NoImageMissed(s: HostState) {
    forall p :: p in s.procs ==> !s.procs[p].noImage
  }

  lemma ImagesStay(s: HostState, e: Event, t: HostState)
    requires Inv(s) && NoImageMissed(s) && Can(s, e) && t == Apply(s, e) && |s.procs| <= MAX_PROC_FDS
    ensures NoImageMissed(t)
  {
    if e.Move? {
      if e.p !in s.regs.images { OwnImageAt(s, e.p); }
      PartsMove(s.procs[e.p], Find(s, e.p, e.answer, e.started));
      MoveIsLocal(s, e.p, e.answer, e.started);
    }
  }

  lemma {:induction false} ImagesAt(ss: seq<HostState>, es: seq<Event>, primary: Peb, fdSocket: Word, n: nat)
    requires Run(ss, es, primary, fdSocket) && AtMost(ss, MAX_PROC_FDS) && n < |ss|
    ensures NoImageMissed(ss[n])
  {
    if n > 0 {
      ImagesAt(ss, es, primary, fdSocket, n - 1);
      InvAt(ss, es, primary, fdSocket, n - 1);
      ImagesStay(ss[n - 1], es[n - 1], ss[n]);
    }
  }

  /** The primary has no entry in the image table, so there the bound is 64. */
  lemma UpTo64HaveTheirImage(ss: seq<HostState>, es: seq<Event>, primary: Peb, fdSocket: Word)
    requires Run(ss, es, primary, fdSocket) && AtMost(ss, MAX_PROC_FDS)
    ensures forall i, p :: 0 <= i < |ss| && p in ss[i].procs && ss[i].procs[p].stage.InImages() ==>
      p in ss[i].regs.images && ss[i].regs.images[p] == ss[i].procs[p].info
  {
    forall i, p | 0 <= i < |ss| && p in ss[i].procs && ss[i].procs[p].stage.InImages()
      ensures p in ss[i].regs.images && ss[i].regs.images[p] == ss[i].procs[p].info
    {
      InvAt(ss, es, primary, fdSocket, i);
      ImagesAt(ss, es, primary, fdSocket, i);
      assert ImageRow(ss[i].regs.images, p, ss[i].procs[p]);
    }
  }

  /** The children whose thread runs. */
  function Children(s: HostState): set<Peb> {
    set p | p in s.procs && s.procs[p].stage.Running?
  }

  /** Each running child has its own descriptor cache, and so at most 64 run, however spawns overlap. */
  lemma NoSixtyFifthChild(s: HostState)
    requires Inv(s)
    ensures forall p :: p in Children(s) ==>
      p in s.regs.caches && Some(s.regs.caches[p]) == s.procs[p].cache
    ensures |Children(s)| <= MAX_PROC_FDS
  {
    forall p | p in Children(s) ensures p in s.regs.caches && Some(s.regs.caches[p]) == s.procs[p].cache {
      assert CacheRow(s.regs.caches, p, s.procs[p]) && StageOk(s.procs[p], s.fdSocket);
    }
    assert Children(s) <= s.regs.caches.Keys;
    SubsetSize(Children(s), s.regs.caches.Keys);
    assert |s.regs.caches.Keys| == |s.regs.caches|;
  }
}
