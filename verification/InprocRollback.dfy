/** What a failed in-process spawn leaves behind: nothing of its own, and everything else untouched. */
module InprocRollback {

  import opened Wrappers
  import opened PebTable
  import opened InprocSpawn
  import opened InprocSteps

  function RegsWithout(g: Registries, p: Peb): Registries {
    Registries(g.servers - {p}, g.images - {p}, g.caches - {p})
  }

  function OwnedLess(mapped: set<Word>, p: Peb, c: Proc): set<Word> {
    mapped - {p} - {c.info} - (if c.cache.Some? then {c.cache.value} else {})
  }

  /** s less everything that belongs to p. */
  function Without(s: HostState, p: Peb): HostState
    requires p in s.procs
  {
    var c := s.procs[p];
    s.(regs := RegsWithout(s.regs, p),
       res := Resources(s.res.fds - {c.fd}, OwnedLess(s.res.mapped, p, c), s.res.tebs),
       procs := s.procs - {p})
  }

  lemma WithoutAbsent<V>(m: map<Peb, V>, p: Peb)
    requires p !in m
    ensures m - {p} == m
  {
  }

  lemma StartedLess(r: Resources, p: Peb, fd: Word, info: Word)
    requires fd !in r.fds && p !in r.mapped && info !in r.mapped
    ensures r.fds + {fd} - {fd} == r.fds && r.mapped + {p} + {info} - {p} - {info} - {} == r.mapped
  {
  }

  lemma RegsWithoutAbsent(g: Registries, p: Peb)
    requires Unregistered(g, p)
    ensures RegsWithout(g, p) == g
  {
    WithoutAbsent(g.servers, p);
    WithoutAbsent(g.images, p);
    WithoutAbsent(g.caches, p);
  }

  lemma ProcsStartedLess(procs: map<Peb, Proc>, p: Peb, c: Proc)
    requires p !in procs
    ensures procs[p := c] - {p} == procs
  {
  }

  lemma WithoutStarted(s: HostState, p: Peb, fd: Word, info: Word)
    requires Unregistered(s.regs, p) && p !in s.procs && Can(s, Begin(p, fd, info))
    ensures Without(Started(s, p, fd, info), p) == s
  {
    RegsWithoutAbsent(s.regs, p);
    StartedLess(s.res, p, fd, info);
    ProcsStartedLess(s.procs, p, Proc(fd, info, None, false, false, SetServer));
  }

  lemma SameBesides(m: map<Peb, Word>, n: map<Peb, Word>, p: Peb)
    requires SameElsewhere(m, n, p)
    ensures m - {p} == n - {p}
  {
    forall q ensures q in (m - {p}).Keys <==> q in (n - {p}).Keys {
      if q != p { assert q in n <==> q in m; }
    }
    assert (m - {p}).Keys == (n - {p}).Keys;
    forall q | q in m - {p} ensures (m - {p})[q] == (n - {p})[q] {
      assert q in m && n[q] == m[q];
    }
  }

  lemma RegsMoveWithout(g: Registries, p: Peb, c: Proc, answer: Option<Word>)
    ensures RegsWithout(RegsAfter(g, p, c, answer), p) == RegsWithout(g, p)
  {
    RegsAreLocal(g, p, c, answer);
    var h := RegsAfter(g, p, c, answer);
    SameBesides(g.servers, h.servers, p);
    SameBesides(g.images, h.images, p);
    SameBesides(g.caches, h.caches, p);
  }

  lemma ResWithout(r: Resources, g: Registries, p: Peb, c: Proc, answer: Option<Word>, started: bool, d: Proc)
    requires CacheRow(g.caches, p, c) && (c.cache.Some? ==> c.stage.MayHaveCache()) && d.info == c.info
    requires d.cache == if c.stage.AddCache? && CacheGranted(g, answer) then answer
                        else if c.stage.DropCache? then None else c.cache
    requires c.stage.Starting() || c.stage.RollingBack()
    requires c.stage.AddCache? && answer.Some? ==> answer.value !in r.mapped
    requires !(c.stage.CreateThread? && answer.Some? && started) && !c.stage.GiveBack?
    ensures var t := ResAfter(r, g, p, c, answer, started);
      && t.fds == r.fds && t.tebs == r.tebs
      && OwnedLess(t.mapped, p, d) == OwnedLess(r.mapped, p, c)
  {
  }

  lemma ProcsMoveWithout(procs: map<Peb, Proc>, p: Peb, next: Option<Proc>)
    ensures (if next.Some? then procs[p := next.value] else procs - {p}) - {p} == procs - {p}
  {
  }

  lemma SameWithout(s: HostState, t: HostState, p: Peb)
    requires p in s.procs && p in t.procs && t.primary == s.primary && t.fdSocket == s.fdSocket
    requires RegsWithout(t.regs, p) == RegsWithout(s.regs, p) && t.procs - {p} == s.procs - {p}
    requires t.procs[p].fd == s.procs[p].fd && t.res.fds == s.res.fds && t.res.tebs == s.res.tebs
    requires OwnedLess(t.res.mapped, p, t.procs[p]) == OwnedLess(s.res.mapped, p, s.procs[p])
    ensures Without(t, p) == Without(s, p)
  {
  }

  lemma {:induction false} StartStepsBack(s: HostState, p: Peb, answer: Option<Word>, started: bool)
    requires Can(s, Move(p, answer, started))
    requires CacheRow(s.regs.caches, p, s.procs[p]) && StageOk(s.procs[p], s.fdSocket)
    requires s.procs[p].stage.Starting() || s.procs[p].stage.RollingBack()
    requires !(s.procs[p].stage.CreateThread? && answer.Some? && started) && !s.procs[p].stage.GiveBack?
    ensures var t := Moved(s, p, answer, started); p in t.procs && Without(t, p) == Without(s, p)
  {
    var c, f, t := s.procs[p], Find(s, p, answer, started), Moved(s, p, answer, started);
    RegsMoveWithout(s.regs, p, c, answer);
    PartsMove(c, f);
    ProcsMoveWithout(s.procs, p, ProcAfter(c, f));
    ResWithout(s.res, s.regs, p, c, answer, started, t.procs[p]);
    SameWithout(s, t, p);
  }

  lemma LastStepBack(s: HostState, p: Peb, answer: Option<Word>, started: bool, t: HostState)
    requires TablesOk(s) && p in s.procs && t == Moved(s, p, answer, started) && s.procs[p].stage.GiveBack?
    ensures p !in t.procs && t == Without(s, p)
  {
    assert RowOk(s, p);
    RegsWithoutAbsent(s.regs, p);
    assert s.res.mapped - {s.procs[p].info} - {p} == s.res.mapped - {p} - {s.procs[p].info} - {};
  }

  /** Every step of a spawn that does not start the thread, up to the end of the rollback, changes
      nothing but what belongs to p; the last one takes away exactly that. */
  lemma RollbackIsExact(s: HostState, p: Peb, answer: Option<Word>, started: bool, t: HostState)
    requires Inv(s) && Can(s, Move(p, answer, started)) && t == Moved(s, p, answer, started)
    requires s.procs[p].stage.Starting() || s.procs[p].stage.RollingBack()
    requires !(s.procs[p].stage.CreateThread? && answer.Some? && started)
    ensures if p in t.procs then Without(t, p) == Without(s, p) else t == Without(s, p)
  {
    if s.procs[p].stage.GiveBack? {
      LastStepBack(s, p, answer, started, t);
    } else {
      StartStepsBack(s, p, answer, started);
    }
  }

  /** Only p's spawn moves, up to where p is gone again without its thread having run. */
  ghost predicate FailsAlone(ss: seq<HostState>, es: seq<Event>, p: Peb) {
    && Trace(ss, es) && Inv(ss[0]) && |es| > 1 && es[0].Begin? && es[0].peb == p
    && (forall i :: 1 <= i < |es| ==> es[i].Move? && es[i].p == p && !ss[i].procs[p].stage.Running?)
    && p !in ss[|es|].procs
  }

  ghost predicate Undoable(s: HostState, p: Peb, origin: HostState) {
    && Inv(s) && p in s.procs && (s.procs[p].stage.Starting() || s.procs[p].stage.RollingBack())
    && Without(s, p) == origin
  }

  lemma FailureGoesOn(c: Proc, f: Found)
    requires (c.stage.Starting() || c.stage.RollingBack()) && ProcAfter(c, f).Some?
    ensures var d := ProcAfter(c, f).value; d.stage.Starting() || d.stage.RollingBack() || d.stage.Running?
    ensures ProcAfter(c, f).value.stage.Running? <==> c.stage.CreateThread? && f.started
  {
  }

  lemma StaysUndoable(s: HostState, p: Peb, answer: Option<Word>, started: bool, t: HostState, origin: HostState)
    requires Undoable(s, p, origin) && Can(s, Move(p, answer, started)) && t == Moved(s, p, answer, started)
    requires p in t.procs && !t.procs[p].stage.Running?
    ensures Undoable(t, p, origin)
  {
    StepKeeps(s, Move(p, answer, started));
    FailureGoesOn(s.procs[p], Find(s, p, answer, started));
    RollbackIsExact(s, p, answer, started, t);
  }

  lemma {:induction false} UndoableAt(ss: seq<HostState>, es: seq<Event>, p: Peb, n: nat)
    requires FailsAlone(ss, es, p) && 1 <= n < |es|
    ensures Undoable(ss[n], p, ss[0])
  {
    if n == 1 {
      StepKeeps(ss[0], es[0]);
      RegisteredIsMapped(ss[0]);
      WithoutStarted(ss[0], p, es[0].fd, es[0].info);
    } else {
      UndoableAt(ss, es, p, n - 1);
      UndoNext(ss, es, p, n - 1);
    }
  }

  lemma UndoNext(ss: seq<HostState>, es: seq<Event>, p: Peb, n: nat)
    requires FailsAlone(ss, es, p) && 1 <= n < |es| - 1 && Undoable(ss[n], p, ss[0])
    ensures Undoable(ss[n + 1], p, ss[0])
  {
    assert Can(ss[n + 1], es[n + 1]) && es[n + 1].p == p;
    StaysUndoable(ss[n], p, es[n].answer, es[n].started, ss[n + 1], ss[0]);
  }

  /** A spawn that fails while nothing else moves leaves the host exactly as it was, wherever it
      fails. */
  lemma LoneFailureLeavesNothing(ss: seq<HostState>, es: seq<Event>, p: Peb)
    requires FailsAlone(ss, es, p)
    ensures ss[|es|] == ss[0]
  {
    var n := |es| - 1;
    UndoableAt(ss, es, p, n);
    LastUndo(ss[n], es[n], ss[n + 1], p);
  }

  lemma LastUndo(s: HostState, e: Event, t: HostState, p: Peb)
    requires Inv(s) && Can(s, e) && t == Apply(s, e) && e.Move? && e.p == p && p !in t.procs
    requires s.procs[p].stage.Starting() || s.procs[p].stage.RollingBack()
    ensures t == Without(s, p)
  {
    PartsMove(s.procs[p], Find(s, p, e.answer, e.started));
    RollbackIsExact(s, p, e.answer, e.started, t);
  }
}
