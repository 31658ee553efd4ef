/** The bounds of InprocIsolation are tight: on every host and for every number of children already
    there, a lone spawn and two overlapping ones, one of which fails, followed by an exit. */
module InprocOverlap {

  import opened Wrappers
  import opened PebTable
  import opened InprocSpawn
  import opened InprocSteps
  import opened InprocIsolation
  import opened InprocRollback

  /** Running children are among `kids`, and whatever is under way among `all`. */
  ghost predicate Bounded(s: HostState, kids: set<Peb>, all: set<Peb>) {
    Children(s) <= kids && s.procs.Keys <= all
  }

  /** A run from s to t within these bounds. */
  ghost predicate Path(ss: seq<HostState>, es: seq<Event>, s: HostState, t: HostState, kids: set<Peb>, all: set<Peb>) {
    && Trace(ss, es) && ss[0] == s && ss[|es|] == t
    && forall i :: 0 <= i < |ss| ==> Bounded(ss[i], kids, all)
  }

  lemma Stay(s: HostState, kids: set<Peb>, all: set<Peb>) returns (ss: seq<HostState>, es: seq<Event>)
    requires Bounded(s, kids, all)
    ensures Path(ss, es, s, s, kids, all)
  {
    ss, es := [s], [];
  }

  lemma TraceThen(ss: seq<HostState>, es: seq<Event>, e: Event, u: HostState)
    requires Trace(ss, es) && Can(ss[|es|], e) && u == Apply(ss[|es|], e)
    ensures Trace(ss + [u], es + [e])
  {
    var ss', es' := ss + [u], es + [e];
    forall i | 0 <= i < |es'| ensures Can(ss'[i], es'[i]) && ss'[i + 1] == Apply(ss'[i], es'[i]) {
      if i < |es| {
        assert es'[i] == es[i] && ss'[i] == ss[i] && ss'[i + 1] == ss[i + 1];
      } else {
        assert es'[i] == e && ss'[i] == ss[|es|] && ss'[i + 1] == u;
      }
    }
  }

  lemma Then(ss: seq<HostState>, es: seq<Event>, s: HostState, t: HostState, e: Event, u: HostState,
             kids: set<Peb>, all: set<Peb>)
    requires Path(ss, es, s, t, kids, all) && Can(t, e) && u == Apply(t, e) && Bounded(u, kids, all)
    ensures Path(ss + [u], es + [e], s, u, kids, all)
  {
    TraceThen(ss, es, e, u);
    forall i | 0 <= i < |ss + [u]| ensures Bounded((ss + [u])[i], kids, all) {
      assert i < |ss| ==> (ss + [u])[i] == ss[i];
    }
  }

  lemma Wider(ss: seq<HostState>, es: seq<Event>, s: HostState, t: HostState, kids: set<Peb>, all: set<Peb>,
              kids': set<Peb>, all': set<Peb>)
    requires Path(ss, es, s, t, kids, all) && kids <= kids' && all <= all'
    ensures Path(ss, es, s, t, kids', all')
  {
    forall i | 0 <= i < |ss| ensures Bounded(ss[i], kids', all') {
      assert Bounded(ss[i], kids, all);
    }
  }

  /** The next step of p stays within the bounds if p may run. */
  lemma MoveBounded(s: HostState, p: Peb, answer: Option<Word>, started: bool, kids: set<Peb>, all: set<Peb>)
    requires Bounded(s, kids, all) && p in s.procs
    requires p in kids || !(s.procs[p].stage.CreateThread? && answer.Some? && started)
    ensures Bounded(Moved(s, p, answer, started), kids, all)
  {
    var t := Moved(s, p, answer, started);
    MoveIsLocal(s, p, answer, started);
    NewlyRunning(s.procs[p], Find(s, p, answer, started));
    forall q | q in Children(t) ensures q in kids {
      assert q != p ==> q in Children(s);
    }
    forall q | q in t.procs ensures q in all {
      assert q in s.procs;
    }
  }

  lemma NewlyRunning(c: Proc, f: Found)
    ensures ProcAfter(c, f).Some? && ProcAfter(c, f).value.stage.Running? ==> c.stage.CreateThread? && f.started
  {
  }

  /** p's entry replaced. */
  function WithProc(s: HostState, p: Peb, c: Proc): HostState {
    s.(procs := s.procs[p := c])
  }

  // ---- The stretches of a run

  /** p with its socket and pages, and its entries in the first two tables as far as there is room. */
  function Entered(s: HostState, p: Peb, fd: Word, info: Word): HostState {
    WithProc(Started(s, p, fd, info), p,
             Proc(fd, info, None, NoRoom(s.regs.servers, p), NoRoom(s.regs.images, p), AddCache))
      .(regs := WithEntries(s.regs, p, fd, info))
  }

  lemma FirstStep(s: HostState, p: Peb)
    requires p in s.procs && s.procs[p].stage.SetServer?
    ensures Moved(s, p, None, false) ==
      WithProc(s, p, s.procs[p].(stage := SetImage, noServer := NoRoom(s.regs.servers, p)))
        .(regs := s.regs.(servers := SetMap(s.regs.servers, p, Some(s.procs[p].fd))))
  {
  }

  lemma SecondStep(s: HostState, p: Peb)
    requires p in s.procs && s.procs[p].stage.SetImage?
    ensures Moved(s, p, None, false) ==
      WithProc(s, p, s.procs[p].(stage := AddCache, noImage := NoRoom(s.regs.images, p)))
        .(regs := s.regs.(images := SetMap(s.regs.images, p, Some(s.procs[p].info))))
  {
  }

  lemma EnteredIsTwoSteps(s: HostState, p: Peb, fd: Word, info: Word, s1: HostState, s2: HostState)
    requires s1 == Started(s, p, fd, info) && s2 == Moved(s1, p, None, false)
    ensures p in s1.procs && p in s2.procs && s1.procs[p].stage.SetServer? && s2.procs[p].stage.SetImage?
    ensures Moved(s2, p, None, false) == Entered(s, p, fd, info)
  {
    FirstStep(s1, p);
    SecondStep(s2, p);
    assert Moved(s2, p, None, false).procs == Entered(s, p, fd, info).procs;
  }

  lemma EnterRun(ss: seq<HostState>, es: seq<Event>, o: HostState, s: HostState, p: Peb, fd: Word, info: Word,
                 kids: set<Peb>, all: set<Peb>)
    returns (ss': seq<HostState>, es': seq<Event>)
    requires Path(ss, es, o, s, kids, all) && Can(s, Begin(p, fd, info)) && p in all
    ensures Path(ss', es', o, Entered(s, p, fd, info), kids, all)
  {
    var s1 := Started(s, p, fd, info);
    assert Bounded(s1, kids, all) by { StartedBounded(s, p, fd, info, kids, all); }
    Then(ss, es, o, s, Begin(p, fd, info), s1, kids, all);
    ss', es' := ss + [s1], es + [Begin(p, fd, info)];
    var s2 := Moved(s1, p, None, false);
    EnteredIsTwoSteps(s, p, fd, info, s1, s2);
    ss', es' := MoveRun(ss', es', o, s1, p, None, false, kids, all);
    ss', es' := MoveRun(ss', es', o, s2, p, None, false, kids, all);
  }

  lemma StartedBounded(s: HostState, p: Peb, fd: Word, info: Word, kids: set<Peb>, all: set<Peb>)
    requires Bounded(s, kids, all) && p in all
    ensures Bounded(Started(s, p, fd, info), kids, all)
  {
    var t := Started(s, p, fd, info);
    forall q | q in Children(t) ensures q in kids {
      assert q in Children(s);
    }
  }

  lemma MoveRun(ss: seq<HostState>, es: seq<Event>, o: HostState, s: HostState, p: Peb, answer: Option<Word>,
                started: bool, kids: set<Peb>, all: set<Peb>)
    returns (ss': seq<HostState>, es': seq<Event>)
    requires Path(ss, es, o, s, kids, all) && Can(s, Move(p, answer, started))
    requires p in kids || !(s.procs[p].stage.CreateThread? && answer.Some? && started)
    ensures Path(ss', es', o, Moved(s, p, answer, started), kids, all)
    ensures |es| <= |es'| && ss'[..|ss|] == ss
  {
    var e, t := Move(p, answer, started), Moved(s, p, answer, started);
    assert Bounded(s, kids, all) by { assert Bounded(ss[|es|], kids, all); }
    MoveBounded(s, p, answer, started, kids, all);
    Then(ss, es, o, s, e, t, kids, all);
    ss', es' := ss + [t], es + [e];
  }

  lemma FailStages(c: Proc, f: Found)
    requires c.cache.None? && f.cache.None?
    requires c.stage.AddCache? || c.stage.UnsetServer? || c.stage.UnsetImage?
    ensures ProcAfter(c, f) == Some(c.(stage := if c.stage.AddCache? then UnsetServer
                                                else if c.stage.UnsetServer? then UnsetImage else GiveBack))
  {
  }

  lemma FailStep(s: HostState, p: Peb, t: HostState, origin: HostState)
    requires Undoable(s, p, origin) && t == Moved(s, p, None, false) && s.procs[p].cache.None?
    requires s.procs[p].stage.AddCache? || s.procs[p].stage.UnsetServer? || s.procs[p].stage.UnsetImage?
    ensures Undoable(t, p, origin) && t.procs[p].cache.None?
    ensures s.procs[p].stage.AddCache? ==> t.procs[p].stage.UnsetServer?
    ensures s.procs[p].stage.UnsetServer? ==> t.procs[p].stage.UnsetImage?
    ensures s.procs[p].stage.UnsetImage? ==> t.procs[p].stage.GiveBack?
  {
    FailStages(s.procs[p], Find(s, p, None, false));
    StaysUndoable(s, p, None, false, t, origin);
  }

  /** The cache page cannot be had: p leaves nothing behind, whatever the others have done meanwhile. */
  lemma RetreatRun(ss: seq<HostState>, es: seq<Event>, o: HostState, s: HostState, p: Peb, kids: set<Peb>,
                   all: set<Peb>)
    returns (ss': seq<HostState>, es': seq<Event>)
    requires Path(ss, es, o, s, kids, all) && Inv(s) && p in s.procs && s.procs[p].stage.AddCache?
    ensures Path(ss', es', o, Without(s, p), kids, all)
  {
    var origin := Without(s, p);
    assert StageOk(s.procs[p], s.fdSocket);
    var s1 := Moved(s, p, None, false);
    FailStep(s, p, s1, origin);
    var s2 := Moved(s1, p, None, false);
    FailStep(s1, p, s2, origin);
    var s3 := Moved(s2, p, None, false);
    FailStep(s2, p, s3, origin);
    LastStepBack(s3, p, None, false, Moved(s3, p, None, false));
    ss', es' := MoveRun(ss, es, o, s, p, None, false, kids, all);
    ss', es' := MoveRun(ss', es', o, s1, p, None, false, kids, all);
    ss', es' := MoveRun(ss', es', o, s2, p, None, false, kids, all);
    ss', es' := MoveRun(ss', es', o, s3, p, None, false, kids, all);
  }

  /** p with its cache and its thread. */
  function Finished(s: HostState, p: Peb, cache: Word, teb: Word): HostState
    requires p in s.procs
  {
    WithProc(s, p, s.procs[p].(stage := Running, cache := Some(cache)))
      .(regs := WithCache(s.regs, p, cache),
        res := Resources(s.res.fds, s.res.mapped + {cache}, s.res.tebs + {teb}))
  }

  lemma FinishedIsTwoSteps(s: HostState, p: Peb, cache: Word, teb: Word, s1: HostState)
    requires p in s.procs && s.procs[p].stage.AddCache? && |s.regs.caches| < MAX_PROC_FDS
    requires s1 == Moved(s, p, Some(cache), false)
    ensures p in s1.procs && s1.procs[p].stage.CreateThread? && s1.res.tebs == s.res.tebs
    ensures Moved(s1, p, Some(teb), true) == Finished(s, p, cache, teb)
  {
    var c := s.procs[p];
    assert s1 == WithProc(s, p, c.(stage := CreateThread, cache := Some(cache)))
      .(regs := WithCache(s.regs, p, cache), res := s.res.(mapped := s.res.mapped + {cache}));
    assert Moved(s1, p, Some(teb), true).procs == Finished(s, p, cache, teb).procs;
  }

  lemma FinishRun(ss: seq<HostState>, es: seq<Event>, o: HostState, s: HostState, p: Peb, cache: Word, teb: Word,
                  kids: set<Peb>, all: set<Peb>)
    returns (ss': seq<HostState>, es': seq<Event>)
    requires Path(ss, es, o, s, kids, all) && p in kids && p in s.procs && s.procs[p].stage.AddCache?
    requires |s.regs.caches| < MAX_PROC_FDS && cache !in s.res.mapped && teb !in s.res.tebs
    ensures Path(ss', es', o, Finished(s, p, cache, teb), kids, all)
  {
    var s1 := Moved(s, p, Some(cache), false);
    FinishedIsTwoSteps(s, p, cache, teb, s1);
    ss', es' := MoveRun(ss, es, o, s, p, Some(cache), false, kids, all);
    ss', es' := MoveRun(ss', es', o, s1, p, Some(teb), true, kids, all);
  }

  /** p is on its way out, with the socket it is going to close. */
  ghost predicate Leaving(s: HostState, p: Peb, c: Proc, fds: set<Word>) {
    && Inv(s) && p in s.procs && s.procs[p].fd == c.fd && s.procs[p].noServer == c.noServer && s.res.fds == fds
    && (s.procs[p].stage.Running? || s.procs[p].stage.Exiting())
  }

  function ExitSteps(stage: Stage): nat {
    if stage.Running? then 4 else if stage.ExitServer? then 3 else if stage.ExitImage? then 2
    else if stage.ExitCache? then 1 else 0
  }

  lemma ExitStages(c: Proc, f: Found)
    requires c.stage.Running? || (c.stage.Exiting() && !c.stage.ExitClose?)
    ensures ProcAfter(c, f).Some?
    ensures var d := ProcAfter(c, f).value;
      d.fd == c.fd && d.noServer == c.noServer && d.stage.Exiting() && ExitSteps(d.stage) == ExitSteps(c.stage) - 1
  {
  }

  lemma ExitStep(s: HostState, p: Peb, t: HostState, c: Proc, fds: set<Word>)
    requires Leaving(s, p, c, fds) && ExitSteps(s.procs[p].stage) > 0 && t == Moved(s, p, None, false)
    ensures Leaving(t, p, c, fds) && ExitSteps(t.procs[p].stage) == ExitSteps(s.procs[p].stage) - 1
  {
    assert StageOk(s.procs[p], s.fdSocket);
    FdsMove(s, p, None, false);
    ExitStages(s.procs[p], Find(s, p, None, false));
    StepKeeps(s, Move(p, None, false));
  }

  /** The whole exit of p closes its own socket, or the primary's if p is not in the table. */
  lemma {:induction false} ExitRun(ss: seq<HostState>, es: seq<Event>, o: HostState, s: HostState, p: Peb, c: Proc,
                                   fds: set<Word>, kids: set<Peb>, all: set<Peb>)
    returns (ss': seq<HostState>, es': seq<Event>, t: HostState)
    requires Path(ss, es, o, s, kids, all) && Leaving(s, p, c, fds) && p in kids
    ensures Path(ss', es', o, t, kids, all) && p !in t.procs
    ensures t.res.fds == fds - {if c.noServer then s.fdSocket else c.fd}
    ensures |es| <= |es'| && ss'[..|ss|] == ss
    decreases ExitSteps(s.procs[p].stage)
  {
    var u := Moved(s, p, None, false);
    ss', es' := MoveRun(ss, es, o, s, p, None, false, kids, all);
    if ExitSteps(s.procs[p].stage) == 0 {
      ExitClosesOwnIffRegistered(s, p, None, false);
      t := u;
    } else {
      ExitStep(s, p, u, c, fds);
      ss', es', t := ExitRun(ss', es', o, u, p, c, fds, kids, all);
    }
  }

  lemma {:induction false} PathKeeps(ss: seq<HostState>, es: seq<Event>, s: HostState, t: HostState, kids: set<Peb>,
                                     all: set<Peb>, n: nat)
    requires Path(ss, es, s, t, kids, all) && Inv(s) && n < |ss|
    ensures Inv(ss[n]) && ss[n].primary == s.primary && ss[n].fdSocket == s.fdSocket
  {
    if n > 0 {
      PathKeeps(ss, es, s, t, kids, all, n - 1);
      StepKeeps(ss[n - 1], es[n - 1]);
    }
  }

  /** p can be spawned with these. */
  ghost predicate Fresh(s: HostState, p: Peb, fd: Word, info: Word, cache: Word, teb: Word) {
    && Can(s, Begin(p, fd, info)) && teb !in s.res.tebs
    && cache !in s.res.mapped && cache != p && cache != info
    && |s.regs.caches| < MAX_PROC_FDS
  }

  // ---- One exit, alone

  lemma LeaveStart(s: HostState, p: Peb)
    requires p in s.procs && s.procs[p].stage.Running?
    ensures Moved(s, p, None, false) ==
      WithProc(s, p, s.procs[p].(stage := ExitServer(ServerFd(s.regs, s.fdSocket, p))))
  {
  }

  lemma LeaveServers(s: HostState, p: Peb, sock: Word)
    requires p in s.procs && s.procs[p].stage == ExitServer(sock)
    ensures Moved(s, p, None, false) ==
      WithProc(s, p, s.procs[p].(stage := ExitImage(sock)))
        .(regs := s.regs.(servers := SetMap(s.regs.servers, p, None)))
  {
  }

  lemma LeaveImages(s: HostState, p: Peb, sock: Word)
    requires p in s.procs && s.procs[p].stage == ExitImage(sock)
    ensures Moved(s, p, None, false) ==
      WithProc(s, p, s.procs[p].(stage := ExitCache(sock)))
        .(regs := s.regs.(images := SetMap(s.regs.images, p, None)))
  {
  }

  lemma LeaveCaches(s: HostState, p: Peb, sock: Word)
    requires p in s.procs && s.procs[p].stage == ExitCache(sock)
    ensures Moved(s, p, None, false) ==
      WithProc(s, p, s.procs[p].(stage := ExitClose(sock), cache := None))
        .(regs := WithoutCache(s.regs, p), res := Unmapped(s.regs, s.res, p))
  {
  }

  lemma LeaveClose(s: HostState, p: Peb, sock: Word)
    requires p in s.procs && s.procs[p].stage == ExitClose(sock)
    ensures Moved(s, p, None, false) ==
      s.(res := s.res.(fds := s.res.fds - {sock}), procs := s.procs - {p})
  {
  }

  lemma ExitEffectIs(h: Held, fdSocket: Word, p: Peb)
    ensures var r := Unmapped(h.regs, h.res, p);
      ExitEffect(h, fdSocket, p, {}) ==
      h.(regs := WithoutCache(WithoutEntries(h.regs, p), p),
         res := r.(fds := r.fds - {ServerFd(h.regs, fdSocket, p)}))
  {
    var r := Unmapped(h.regs, h.res, p);
    assert r.fds - {} == r.fds;
  }

  /** Alone, the steps of an exit do what InprocSpawn.Host.ChildExit does, apart from the descriptors
      that the child itself holds. */
  lemma LoneExitIsExitEffect(s: HostState, p: Peb, mask: set<Word>)
    returns (ss: seq<HostState>, es: seq<Event>, t: HostState)
    requires p in Children(s)
    ensures Trace(ss, es) && ss[0] == s && ss[|es|] == t
    ensures Held(t.regs, t.res, mask) == ExitEffect(Held(s.regs, s.res, mask), s.fdSocket, p, {})
    ensures p !in t.procs
  {
    var kids, sock := s.procs.Keys, ServerFd(s.regs, s.fdSocket, p);
    ss, es := Stay(s, kids, kids);
    LeaveStart(s, p);
    var s1 := Moved(s, p, None, false);
    ss, es := MoveRun(ss, es, s, s, p, None, false, kids, kids);
    LeaveServers(s1, p, sock);
    var s2 := Moved(s1, p, None, false);
    ss, es := MoveRun(ss, es, s, s1, p, None, false, kids, kids);
    LeaveImages(s2, p, sock);
    var s3 := Moved(s2, p, None, false);
    ss, es := MoveRun(ss, es, s, s2, p, None, false, kids, kids);
    assert s3.regs == WithoutEntries(s.regs, p) && s3.res == s.res;
    LeaveCaches(s3, p, sock);
    var s4 := Moved(s3, p, None, false);
    ss, es := MoveRun(ss, es, s, s3, p, None, false, kids, kids);
    LeaveClose(s4, p, sock);
    t := Moved(s4, p, None, false);
    ss, es := MoveRun(ss, es, s, s4, p, None, false, kids, kids);
    ExitEffectIs(Held(s.regs, s.res, mask), s.fdSocket, p);
  }

  // ---- A host with n children

  /** Pages from p on and descriptors and TEBs from q on are not in use. */
  ghost predicate Below(r: Resources, p: Word, q: Word) {
    && (forall w :: w in r.mapped ==> w < p)
    && (forall w :: w in r.fds ==> w < q)
    && (forall w :: w in r.tebs ==> w < q)
  }

  /** All n children run, and all their entries are in the tables. */
  ghost predicate Filled(s: HostState, n: nat, p: Word, q: Word) {
    && s.primary < p && 0 < p && s.fdSocket < q && s.fdSocket in s.res.fds
    && Below(s.res, p, q)
    && Children(s) == s.procs.Keys && |s.procs| == n
    && |s.regs.servers| == n + 1 && |s.regs.images| == n && |s.regs.caches| == n
  }

  lemma NextCan(s: HostState, n: nat, p: Word, q: Word)
    requires Inv(s) && Filled(s, n, p, q)
    ensures n < MAX_PROC_FDS ==> Fresh(s, p, q, p + 1, p + 2, q)
    ensures p !in s.procs && Unregistered(s.regs, p)
  {
    assert p !in s.res.mapped;
    RegisteredIsMapped(s);
  }

  lemma SizeAfterPut<V>(m: map<Peb, V>, p: Peb, v: V)
    requires p !in m
    ensures |m[p := v]| == |m| + 1
  {
    assert m[p := v].Keys == m.Keys + {p};
    assert |m[p := v].Keys| == |m[p := v]| && |m.Keys| == |m|;
  }

  lemma SizesGrow(g: Registries, p: Peb, fd: Word, info: Word, cache: Word)
    requires Unregistered(g, p) && |g.servers| < MAX_PROC_FDS && |g.images| < MAX_PROC_FDS && |g.caches| < MAX_PROC_FDS
    ensures
      var h := WithCache(WithEntries(g, p, fd, info), p, cache);
      |h.servers| == |g.servers| + 1 && |h.images| == |g.images| + 1 && |h.caches| == |g.caches| + 1
  {
    SizeAfterPut(g.servers, p, fd);
    SizeAfterPut(g.images, p, info);
    SizeAfterPut(g.caches, p, cache);
  }

  lemma ChildrenGrow(s: HostState, p: Peb, c: Proc)
    requires Children(s) == s.procs.Keys && p !in s.procs && c.stage.Running?
    ensures Children(WithProc(s, p, c)) == s.procs.Keys + {p} == WithProc(s, p, c).procs.Keys
    ensures |WithProc(s, p, c).procs| == |s.procs| + 1
  {
    var t := WithProc(s, p, c);
    SizeAfterPut(s.procs, p, c);
    forall q ensures q in Children(t) <==> q in s.procs.Keys + {p} {
      assert q != p ==> (q in Children(s) <==> q in s.procs.Keys);
    }
  }

  /** t is s after p's whole spawn. */
  ghost predicate Spawned(s: HostState, t: HostState, p: Peb, fd: Word, info: Word, cache: Word, teb: Word) {
    && t.primary == s.primary && t.fdSocket == s.fdSocket
    && t.regs == WithCache(WithEntries(s.regs, p, fd, info), p, cache)
    && t.res == Resources(s.res.fds + {fd}, s.res.mapped + {p} + {info} + {cache}, s.res.tebs + {teb})
    && t.procs == s.procs[p := Proc(fd, info, Some(cache), NoRoom(s.regs.servers, p), NoRoom(s.regs.images, p),
                                    Running)]
  }

  lemma SpawnedIsFinished(s: HostState, p: Peb, fd: Word, info: Word, cache: Word, teb: Word)
    ensures Spawned(s, Finished(Entered(s, p, fd, info), p, cache, teb), p, fd, info, cache, teb)
  {
    var t := Finished(Entered(s, p, fd, info), p, cache, teb);
    assert t.procs == s.procs[p := t.procs[p]];
  }

  lemma SpawnRun(ss: seq<HostState>, es: seq<Event>, o: HostState, s: HostState, p: Peb, fd: Word, info: Word,
                 cache: Word, teb: Word, kids: set<Peb>, all: set<Peb>)
    returns (ss': seq<HostState>, es': seq<Event>, t: HostState)
    requires Path(ss, es, o, s, kids, all) && Fresh(s, p, fd, info, cache, teb) && p in kids && p in all
    ensures Path(ss', es', o, t, kids, all) && Spawned(s, t, p, fd, info, cache, teb)
  {
    ss', es' := EnterRun(ss, es, o, s, p, fd, info, kids, all);
    ss', es' := FinishRun(ss', es', o, Entered(s, p, fd, info), p, cache, teb, kids, all);
    t := Finished(Entered(s, p, fd, info), p, cache, teb);
    SpawnedIsFinished(s, p, fd, info, cache, teb);
  }

  /** Alone, a spawn that succeeds does what InprocSpawn.Host.SpawnInproc does. */
  lemma LoneSpawnIsSpawnEffect(s: HostState, os: Os, mask: set<Word>)
    returns (ss: seq<HostState>, es: seq<Event>, t: HostState)
    requires Inv(s) && OsFresh(s.res, os) && SpawnStatus(s.regs, os) == Success
    ensures Trace(ss, es) && ss[0] == s && ss[|es|] == t
    ensures Held(t.regs, t.res, mask) == SpawnEffect(Held(s.regs, s.res, mask), os)
    ensures os.pebPage.value in Children(t)
  {
    var p := os.pebPage.value;
    var all := s.procs.Keys + {p};
    ss, es := Stay(s, all, all);
    ss, es, t := SpawnRun(ss, es, s, s, p, os.dup.value, os.infoPage.value, os.cachePage.value, os.teb.value, all, all);
  }

  lemma NextChildren(s: HostState, t: HostState, p: Peb, fd: Word, info: Word, cache: Word, teb: Word)
    requires Children(s) == s.procs.Keys && p !in s.procs && Spawned(s, t, p, fd, info, cache, teb)
    ensures t.procs.Keys == s.procs.Keys + {p} == Children(t) && |t.procs| == |s.procs| + 1
  {
    ChildrenGrow(s, p, t.procs[p]);
    assert Children(t) == Children(WithProc(s, p, t.procs[p]));
  }

  lemma BelowGrows(r: Resources, p: Word, q: Word)
    requires Below(r, p, q)
    ensures Below(Resources(r.fds + {q}, r.mapped + {p} + {p + 1} + {p + 2}, r.tebs + {q}), p + 3, q + 1)
  {
  }

  lemma NextFilled(s: HostState, t: HostState, n: nat, p: Word, q: Word)
    requires Inv(s) && Filled(s, n, p, q) && n < MAX_PROC_FDS - 1 && Spawned(s, t, p, q, p + 1, p + 2, q)
    ensures Filled(t, n + 1, p + 3, q + 1)
  {
    NextCan(s, n, p, q);
    NextChildren(s, t, p, q, p + 1, p + 2, q);
    BelowGrows(s.res, p, q);
    SizesGrow(s.regs, p, q, p + 1, p + 2);
  }

  lemma GrowRun(ss: seq<HostState>, es: seq<Event>, o: HostState, s: HostState, p: Peb, fd: Word, info: Word,
                cache: Word, teb: Word)
    returns (ss': seq<HostState>, es': seq<Event>, t: HostState)
    requires Path(ss, es, o, s, s.procs.Keys, s.procs.Keys) && Fresh(s, p, fd, info, cache, teb)
    ensures Spawned(s, t, p, fd, info, cache, teb) && Path(ss', es', o, t, t.procs.Keys, t.procs.Keys)
  {
    var all := s.procs.Keys + {p};
    Wider(ss, es, o, s, s.procs.Keys, s.procs.Keys, all, all);
    ss', es', t := SpawnRun(ss, es, o, s, p, fd, info, cache, teb, all, all);
    assert t.procs.Keys == all;
  }

  lemma FillNone(primary: Peb, fdSocket: Word, p: Word, q: Word)
    returns (ss: seq<HostState>, es: seq<Event>, s: HostState)
    requires primary < p && fdSocket < q && 0 < p
    ensures Inv(s) && Filled(s, 0, p, q) && s == Initial(primary, fdSocket)
    ensures Path(ss, es, Initial(primary, fdSocket), s, s.procs.Keys, s.procs.Keys)
  {
    s := Initial(primary, fdSocket);
    ss, es := Stay(s, s.procs.Keys, s.procs.Keys);
  }

  lemma FillNext(ss: seq<HostState>, es: seq<Event>, o: HostState, r: HostState, n: nat, p: Word, q: Word)
    returns (ss': seq<HostState>, es': seq<Event>, s: HostState)
    requires Inv(o) && Inv(r) && Filled(r, n, p, q) && n < MAX_PROC_FDS - 1
    requires Path(ss, es, o, r, r.procs.Keys, r.procs.Keys)
    ensures Inv(s) && Filled(s, n + 1, p + 3, q + 1) && s.primary == r.primary && s.fdSocket == r.fdSocket
    ensures Path(ss', es', o, s, s.procs.Keys, s.procs.Keys)
  {
    NextCan(r, n, p, q);
    ss', es', s := GrowRun(ss, es, o, r, p, q, p + 1, p + 2, q);
    NextFilled(r, s, n, p, q);
    PathKeeps(ss', es', o, s, s.procs.Keys, s.procs.Keys, |es'|);
  }

  lemma {:induction false} FillRun(primary: Peb, fdSocket: Word, n: nat)
    returns (ss: seq<HostState>, es: seq<Event>, s: HostState, p: Word, q: Word)
    requires n < MAX_PROC_FDS
    ensures Inv(s) && Filled(s, n, p, q) && s.primary == primary && s.fdSocket == fdSocket
    ensures Path(ss, es, Initial(primary, fdSocket), s, s.procs.Keys, s.procs.Keys)
  {
    if n == 0 {
      p, q := 1 + (if primary > 0 then primary else 0), 1 + fdSocket;
      ss, es, s := FillNone(primary, fdSocket, p, q);
    } else {
      ss, es, s, p, q := FillRun(primary, fdSocket, n - 1);
      ss, es, s := FillNext(ss, es, Initial(primary, fdSocket), s, n - 1, p, q);
      p, q := p + 3, q + 1;
    }
  }

  // ---- The bounds

  lemma ResolvesByFlag(s: HostState, p: Peb)
    requires Inv(s) && p in Children(s)
    ensures ServerFd(s.regs, s.fdSocket, p) == if s.procs[p].noServer then s.fdSocket else s.procs[p].fd
    ensures p in s.regs.images <==> !s.procs[p].noImage
  {
    assert RowOk(s, p);
  }

  lemma AllSmall(ss: seq<HostState>, es: seq<Event>, s: HostState, t: HostState, kids: set<Peb>, all: set<Peb>)
    requires Path(ss, es, s, t, kids, all)
    ensures forall i :: 0 <= i < |ss| ==> |Children(ss[i])| <= |kids| && |ss[i].procs| <= |all|
  {
    forall i | 0 <= i < |ss| ensures |Children(ss[i])| <= |kids| && |ss[i].procs| <= |all| {
      assert Bounded(ss[i], kids, all);
      SubsetSize(Children(ss[i]), kids);
      SubsetSize(ss[i].procs.Keys, all);
      assert |ss[i].procs.Keys| == |ss[i].procs|;
    }
  }

  /** What is seen at step m of a run and after the exit of the child that follows. */
  ghost predicate SpawnAndExit(ss: seq<HostState>, es: seq<Event>, m: nat, child: Peb, ownSocket: bool) {
    && m < |ss| == |es| + 1 && child in Children(ss[m]) && child !in ss[|es|].procs
    && ss[m].fdSocket in ss[m].res.fds && ss[m].procs[child].fd in ss[m].res.fds - {ss[m].fdSocket}
    && ServerFd(ss[m].regs, ss[m].fdSocket, child) ==
       (if ownSocket then ss[m].procs[child].fd else ss[m].fdSocket)
    && ss[|es|].res.fds ==
       ss[m].res.fds - {if ownSocket then ss[m].procs[child].fd else ss[m].fdSocket}
  }

  lemma ExitAtEnd(ss: seq<HostState>, es: seq<Event>, o: HostState, s: HostState, p: Peb, kids: set<Peb>, all: set<Peb>)
    returns (ss': seq<HostState>, es': seq<Event>, t: HostState)
    requires Path(ss, es, o, s, kids, all) && Inv(s) && p in Children(s) && p in kids
    requires s.fdSocket in s.res.fds && s.procs[p].fd in s.res.fds && s.procs[p].fd != s.fdSocket
    ensures Path(ss', es', o, t, kids, all) && |es| < |ss'| && ss'[|es|] == s
    ensures SpawnAndExit(ss', es', |es|, p, !s.procs[p].noServer)
  {
    ResolvesByFlag(s, p);
    ss', es', t := ExitRun(ss, es, o, s, p, s.procs[p], s.res.fds, kids, all);
    assert ss'[|es|] == ss'[..|ss|][|es|] == s;
  }

  lemma SpawnedSockets(s: HostState, t: HostState, n: nat, p: Word, q: Word)
    requires Filled(s, n, p, q) && Unregistered(s.regs, p) && n < MAX_PROC_FDS && Spawned(s, t, p, q, p + 1, p + 2, q)
    ensures p in Children(t) && t.procs[p].fd in t.res.fds && t.procs[p].fd != t.fdSocket && t.fdSocket in t.res.fds
    ensures t.procs[p].noServer <==> n == MAX_PROC_FDS - 1
  {
  }

  /** On every host with n children a lone further spawn succeeds; the new child has its own socket
      exactly if n < 63, and its exit closes what it resolves. */
  lemma LoneSpawnBound(primary: Peb, fdSocket: Word, n: nat)
    returns (ss: seq<HostState>, es: seq<Event>, m: nat, child: Peb)
    requires n < MAX_PROC_FDS
    ensures Run(ss, es, primary, fdSocket) && SpawnAndExit(ss, es, m, child, n < MAX_PROC_FDS - 1)
    ensures |Children(ss[m])| == n + 1 && forall i :: 0 <= i < |ss| ==> |ss[i].procs| <= n + 1
  {
    var s, q;
    ss, es, s, child, q := FillRun(primary, fdSocket, n);
    ss, es, m := LoneSpawnOver(ss, es, Initial(primary, fdSocket), s, n, child, q);
  }

  lemma LoneSpawnOver(ss: seq<HostState>, es: seq<Event>, o: HostState, s: HostState, n: nat, p: Word, q: Word)
    returns (ss': seq<HostState>, es': seq<Event>, m: nat)
    requires Inv(o) && Inv(s) && Filled(s, n, p, q) && n < MAX_PROC_FDS
    requires Path(ss, es, o, s, s.procs.Keys, s.procs.Keys)
    ensures Trace(ss', es') && ss'[0] == o && SpawnAndExit(ss', es', m, p, n < MAX_PROC_FDS - 1)
    ensures |Children(ss'[m])| == n + 1 && forall i :: 0 <= i < |ss'| ==> |ss'[i].procs| <= n + 1
  {
    var t, u;
    NextCan(s, n, p, q);
    ss', es', t := GrowRun(ss, es, o, s, p, q, p + 1, p + 2, q);
    NextChildren(s, t, p, q, p + 1, p + 2, q);
    SpawnedSockets(s, t, n, p, q);
    PathKeeps(ss', es', o, t, t.procs.Keys, t.procs.Keys, |es'|);
    m := |es'|;
    ss', es', u := ExitAtEnd(ss', es', o, t, p, t.procs.Keys, t.procs.Keys);
    AllSmall(ss', es', o, u, t.procs.Keys, t.procs.Keys);
  }

  lemma SizeAfterSet(m: map<Peb, Word>, p: Peb, v: Word)
    requires p !in m && |m| <= MAX_PROC_FDS
    ensures |SetMap(m, p, Some(v))| == if |m| < MAX_PROC_FDS then |m| + 1 else |m|
  {
    SizeAfterPut(m, p, v);
  }

  /** a has entered a host with n children: what b, which starts next, is going to find. */
  ghost predicate FirstIn(u: HostState, n: nat, a: Peb, q: Word) {
    && Can(u, Begin(a + 3, q + 1, a + 4))
    && (NoRoom(u.regs.servers, a + 3) <==> n >= MAX_PROC_FDS - 2)
    && (NoRoom(u.regs.images, a + 3) <==> n >= MAX_PROC_FDS - 1)
    && |u.regs.caches| == n && a !in u.regs.caches && a + 5 !in u.res.mapped && q !in u.res.tebs
    && u.fdSocket in u.res.fds && u.fdSocket < q
    && a in u.procs && u.procs[a] == Proc(q, a + 1, None, u.procs[a].noServer, u.procs[a].noImage, AddCache)
  }

  lemma FirstEntered(s: HostState, n: nat, a: Peb, q: Word, u: HostState)
    requires Inv(s) && Filled(s, n, a, q) && n < MAX_PROC_FDS && u == Entered(s, a, q, a + 1)
    ensures FirstIn(u, n, a, q)
  {
    NextCan(s, n, a, q);
    SizeAfterSet(s.regs.servers, a, q);
    SizeAfterSet(s.regs.images, a, a + 1);
    RegisteredIsMapped(s);
    assert a + 3 !in s.res.mapped;
  }

  /** What is left without a, seen from b. */
  lemma {:induction false} SecondLeft(u: HostState, a: Peb, b: Peb)
    requires a in u.procs && b in u.procs && a != b && u.procs[a].cache.None? && a !in u.regs.caches
    ensures var v := Without(u, a);
      && b in v.procs && v.procs[b] == u.procs[b] && v.fdSocket == u.fdSocket
      && v.regs.caches == u.regs.caches && v.res.tebs == u.res.tebs
      && v.res.fds == u.res.fds - {u.procs[a].fd} && v.res.mapped <= u.res.mapped
  {
    assert u.regs.caches - {a} == u.regs.caches;
  }

  /** b is at its cache, which it can have, with these flags. */
  ghost predicate AtCache(v: HostState, b: Peb, noServer: bool, noImage: bool, cache: Word, teb: Word) {
    && b in v.procs && v.procs[b].stage.AddCache?
    && v.procs[b].noServer == noServer && v.procs[b].noImage == noImage
    && v.fdSocket in v.res.fds && v.procs[b].fd in v.res.fds && v.procs[b].fd != v.fdSocket
    && |v.regs.caches| < MAX_PROC_FDS && cache !in v.res.mapped && teb !in v.res.tebs
  }

  lemma BothEnter(ss: seq<HostState>, es: seq<Event>, o: HostState, s: HostState, n: nat, a: Peb, q: Word,
                  kids: set<Peb>, all: set<Peb>)
    returns (ss': seq<HostState>, es': seq<Event>, u: HostState)
    requires Inv(s) && Filled(s, n, a, q) && n < MAX_PROC_FDS
    requires Path(ss, es, o, s, kids, all) && a in all && a + 3 in all
    ensures FirstIn(u, n, a, q) && Path(ss', es', o, Entered(u, a + 3, q + 1, a + 4), kids, all)
  {
    u := Entered(s, a, q, a + 1);
    NextCan(s, n, a, q);
    FirstEntered(s, n, a, q, u);
    ss', es' := EnterRun(ss, es, o, s, a, q, a + 1, kids, all);
    ss', es' := EnterSecond(ss', es', o, u, n, a, q, kids, all);
  }

  lemma EnterSecond(ss: seq<HostState>, es: seq<Event>, o: HostState, u: HostState, n: nat, a: Peb, q: Word,
                    kids: set<Peb>, all: set<Peb>)
    returns (ss': seq<HostState>, es': seq<Event>)
    requires FirstIn(u, n, a, q) && Path(ss, es, o, u, kids, all) && a + 3 in all
    ensures Path(ss', es', o, Entered(u, a + 3, q + 1, a + 4), kids, all)
  {
    ss', es' := EnterRun(ss, es, o, u, a + 3, q + 1, a + 4, kids, all);
  }

  lemma LeftAtCache(u: HostState, n: nat, a: Peb, q: Word, v: HostState)
    requires FirstIn(u, n, a, q) && n < MAX_PROC_FDS && v == Without(Entered(u, a + 3, q + 1, a + 4), a)
    ensures AtCache(v, a + 3, n >= MAX_PROC_FDS - 2, n >= MAX_PROC_FDS - 1, a + 5, q)
  {
    SecondLeft(Entered(u, a + 3, q + 1, a + 4), a, a + 3);
  }

  lemma FinishAtCache(v: HostState, b: Peb, noServer: bool, noImage: bool, cache: Word, teb: Word, w: HostState)
    requires AtCache(v, b, noServer, noImage, cache, teb) && w == Finished(v, b, cache, teb)
    ensures b in Children(w) && w.procs[b].noServer == noServer && w.procs[b].noImage == noImage
    ensures w.fdSocket in w.res.fds && w.procs[b].fd in w.res.fds && w.procs[b].fd != w.fdSocket
  {
  }

  lemma OverlapRun(ss: seq<HostState>, es: seq<Event>, o: HostState, s: HostState, n: nat, a: Peb, q: Word,
                   kids: set<Peb>, all: set<Peb>)
    returns (ss': seq<HostState>, es': seq<Event>, w: HostState)
    requires Inv(o) && Inv(s) && Filled(s, n, a, q) && n < MAX_PROC_FDS
    requires Path(ss, es, o, s, kids, all) && kids <= all && a + 3 in kids && a in all
    ensures Path(ss', es', o, w, kids, all) && a + 3 in Children(w)
    ensures w.fdSocket in w.res.fds && w.procs[a + 3].fd in w.res.fds && w.procs[a + 3].fd != w.fdSocket
    ensures w.procs[a + 3].noServer <==> n >= MAX_PROC_FDS - 2
    ensures w.procs[a + 3].noImage <==> n >= MAX_PROC_FDS - 1
  {
    var u;
    ss', es', u := BothEnter(ss, es, o, s, n, a, q, kids, all);
    var u2 := Entered(u, a + 3, q + 1, a + 4);
    PathKeeps(ss', es', o, u2, kids, all, |es'|);
    LeftAtCache(u, n, a, q, Without(u2, a));
    ss', es' := RetreatRun(ss', es', o, u2, a, kids, all);
    ss', es', w := LastFinish(ss', es', o, Without(u2, a), a + 3, n >= MAX_PROC_FDS - 2, n >= MAX_PROC_FDS - 1,
                              a + 5, q, kids, all);
  }

  lemma LastFinish(ss: seq<HostState>, es: seq<Event>, o: HostState, v: HostState, b: Peb, noServer: bool,
                   noImage: bool, cache: Word, teb: Word, kids: set<Peb>, all: set<Peb>)
    returns (ss': seq<HostState>, es': seq<Event>, w: HostState)
    requires Path(ss, es, o, v, kids, all) && b in kids && AtCache(v, b, noServer, noImage, cache, teb)
    ensures Path(ss', es', o, w, kids, all) && b in Children(w)
    ensures w.procs[b].noServer == noServer && w.procs[b].noImage == noImage
    ensures w.fdSocket in w.res.fds && w.procs[b].fd in w.res.fds && w.procs[b].fd != w.fdSocket
  {
    w := Finished(v, b, cache, teb);
    FinishAtCache(v, b, noServer, noImage, cache, teb, w);
    ss', es' := FinishRun(ss, es, o, v, b, cache, teb, kids, all);
  }

  /** Two overlapping spawns over n children, the first of which fails: with never more than n + 1
      children the second has its own socket exactly if n < 62 and its own image info exactly if
      n < 63. */
  lemma OverlapBound(primary: Peb, fdSocket: Word, n: nat)
    returns (ss: seq<HostState>, es: seq<Event>, m: nat, child: Peb)
    requires n < MAX_PROC_FDS
    ensures Run(ss, es, primary, fdSocket) && SpawnAndExit(ss, es, m, child, n < MAX_PROC_FDS - 2)
    ensures child in ss[m].regs.images <==> n < MAX_PROC_FDS - 1
    ensures forall i :: 0 <= i < |ss| ==> |Children(ss[i])| <= n + 1 && |ss[i].procs| <= n + 2
  {
    var s, p, q;
    ss, es, s, p, q := FillRun(primary, fdSocket, n);
    child := p + 3;
    ss, es, m := OverlapOver(ss, es, Initial(primary, fdSocket), s, n, p, q);
  }

  lemma TwoMore(procs: map<Peb, Proc>, a: Peb, b: Peb)
    ensures |procs.Keys + {b}| <= |procs| + 1 && |procs.Keys + {b} + {a}| <= |procs| + 2
  {
    assert |procs.Keys| == |procs|;
  }

  lemma OverlapOver(ss: seq<HostState>, es: seq<Event>, o: HostState, s: HostState, n: nat, p: Word, q: Word)
    returns (ss': seq<HostState>, es': seq<Event>, m: nat)
    requires Inv(o) && Inv(s) && Filled(s, n, p, q) && n < MAX_PROC_FDS
    requires Path(ss, es, o, s, s.procs.Keys, s.procs.Keys)
    ensures Trace(ss', es') && ss'[0] == o && SpawnAndExit(ss', es', m, p + 3, n < MAX_PROC_FDS - 2)
    ensures p + 3 in ss'[m].regs.images <==> n < MAX_PROC_FDS - 1
    ensures forall i :: 0 <= i < |ss'| ==> |Children(ss'[i])| <= n + 1 && |ss'[i].procs| <= n + 2
  {
    var w, u;
    var kids := s.procs.Keys + {p + 3};
    var all := kids + {p};
    TwoMore(s.procs, p, p + 3);
    Wider(ss, es, o, s, s.procs.Keys, s.procs.Keys, kids, all);
    ss', es', w := OverlapRun(ss, es, o, s, n, p, q, kids, all);
    PathKeeps(ss', es', o, w, kids, all, |es'|);
    m := |es'|;
    ResolvesByFlag(w, p + 3);
    ss', es', u := ExitAtEnd(ss', es', o, w, p + 3, kids, all);
    AllSmall(ss', es', o, u, kids, all);
  }
}
