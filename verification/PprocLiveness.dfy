/** Termination: once the user code of a process has returned, every fair schedule drives it to
    PROC_EXITED and lets its single waiter return. */
module PprocLiveness {
  import opened Wrappers
  import opened PprocTable
  import opened Pproc
  import PprocTheorems

  /** An infinite execution: the states and the step taken in each. */
  ghost predicate Execution(run: nat -> State, sched: nat -> Step) {
    && Inv(run(0))
    && forall n: nat ::
         Enabled(run(n), sched(n)) && Disciplined(run(n), sched(n)) && run(n + 1) == Next(run(n), sched(n))
  }

  /** The thread can take a step that is not a spurious wakeup and does not wait for user code. */
  ghost predicate Ready(s: State, t: nat) {
    && t in s.threads
    && match s.threads[t].pc
       case Returned(_) => true
       case Ending => true
       case Reaping(_, _) => true
       case Creating => true
       case Starting => true
       case Draining(gen) => HomeOk(s, t) && gen != s.t.slots[s.threads[t].home.value.slot].auxDone
       case Waiting(_, _, gen) => gen != s.t.stateChanged
       case Joining(_, _) => Enabled(s, Join(t))
       case _ => false
  }

  /** Weak fairness: no thread stays ready for ever without taking a step. */
  ghost predicate Fair(run: nat -> State, sched: nat -> Step) {
    forall t: nat, n: nat :: ServedFrom(run, sched, t, n)
  }

  ghost predicate ServedFrom(run: nat -> State, sched: nat -> Step, t: nat, n: nat) {
    exists m: nat :: n <= m && (sched(m).tid == t || !Ready(run(m), t))
  }

  /** Process `pid` in slot `i`, and the thread waiting for it, if any. */
  datatype Goal = Goal(i: nat, pid: nat, waiter: Option<nat>)

  predicate PastUser(pc: Pc) {
    pc.Returned? || pc.Draining? || pc.Ending? || pc.Dead?
  }

  ghost predicate UserDone(s: State, i: nat) {
    forall u :: u in s.threads && InSlot(s.threads[u], i) && Attached(s.threads[u]) ==> PastUser(s.threads[u].pc)
  }

  ghost predicate WaitsHere(s: State, g: Goal) {
    g.waiter.Some? ==>
      && g.waiter.value in s.threads
      && WaitPid(s.threads[g.waiter.value].pc) == Some(g.pid)
      && s.threads[g.waiter.value].pc.slot == g.i
  }

  ghost predicate Pending(s: State, g: Goal) {
    && Inv(s) && g.i < |s.t.slots| && Holds(s.t.slots[g.i], g.pid)
    && (s.t.slots[g.i].state.Running? ==> UserDone(s, g.i))
    && WaitsHere(s, g)
    && (g.waiter.None? ==> s.t.slots[g.i].state.Running?)
  }

  ghost predicate Done(s: State, g: Goal) {
    match g.waiter
    case None => g.i < |s.t.slots| && Holds(s.t.slots[g.i], g.pid) && s.t.slots[g.i].state.Exited?
    case Some(w) => w in s.threads && s.threads[w].pc.User?
  }

  /** The thread whose next step, whatever it is, brings the goal closer. */
  ghost predicate Helpful(s: State, g: Goal, t: nat)
    requires Pending(s, g)
  {
    var slot := s.t.slots[g.i];
    && t in s.threads
    && if slot.state.Running? then
         if slot.auxThreads > 0 then InSlot(s.threads[t], g.i) && s.threads[t].pc.Returned? && !s.threads[t].isMain
         else t == slot.mainThread
       else
         g.waiter.Some? &&
         if s.threads[g.waiter.value].pc.Joining?
            && slot.mainThread in s.threads && !s.threads[slot.mainThread].pc.Dead?
         then t == slot.mainThread else t == g.waiter.value
  }

  ghost function Distance(s: State, g: Goal): nat
    requires Pending(s, g)
  {
    var slot := s.t.slots[g.i];
    assert SlotInv(s, g.i);
    if slot.state.Running? then 10 + slot.auxThreads + (if s.threads[slot.mainThread].pc.Returned? then 1 else 0)
    else
      (if s.threads[slot.mainThread].pc.Dead? then 0 else 1) +
      (if g.waiter.None? then 0 else match s.threads[g.waiter.value].pc
        case Waiting(_, _, _) => 3
        case Joining(_, _) => 2
        case _ => 1)
  }

  /** While the count is positive and all user code has returned, some auxiliary thread is about to
      decrement. */
  lemma AuxIsReturning(s: State, i: nat) returns (t: nat)
    requires i < |s.t.slots| && CountOk(s, i) && s.t.slots[i].auxThreads > 0 && UserDone(s, i)
    requires forall u :: u in s.threads && s.threads[u].pc.Draining? ==> s.threads[u].isMain
    ensures t in s.threads && InSlot(s.threads[t], i) && !s.threads[t].isMain && s.threads[t].pc.Returned?
  {
    forall u | u in s.threads ensures u !in CreatingIn(s.threads, i) {
      if InSlot(s.threads[u], i) && Attached(s.threads[u]) { assert PastUser(s.threads[u].pc); }
    }
    assert CreatingIn(s.threads, i) == {};
    t :| t in AuxOf(s.threads, i);
    assert PastUser(s.threads[t].pc);
  }

  lemma HelperExists(s: State, g: Goal) returns (t: nat)
    requires Pending(s, g)
    ensures Helpful(s, g, t) && Ready(s, t)
  {
    assert SlotInv(s, g.i);
    var slot := s.t.slots[g.i];
    assert ThreadInv(s, slot.mainThread);
    if slot.state.Running? && slot.auxThreads > 0 {
      forall u | u in s.threads && s.threads[u].pc.Draining? ensures s.threads[u].isMain {
        assert ThreadInv(s, u);
      }
      t := AuxIsReturning(s, g.i);
    } else if slot.state.Running? {
      t := slot.mainThread;
    } else {
      assert ThreadInv(s, g.waiter.value);
      t := if s.threads[g.waiter.value].pc.Joining? && !s.threads[slot.mainThread].pc.Dead? then slot.mainThread
           else g.waiter.value;
    }
  }

  lemma HelpfulIsReady(s: State, g: Goal, t: nat)
    requires Pending(s, g) && Helpful(s, g, t)
    ensures Ready(s, t)
  {
    assert SlotInv(s, g.i) && ThreadInv(s, t);
    assert ThreadInv(s, s.t.slots[g.i].mainThread);
  }

  /** One step, seen from another thread. */
  lemma StepOnThread(s: State, step: Step, u: nat)
    requires Enabled(s, step) && (!step.HostThread? ==> ThreadInv(s, step.tid)) && u in Next(s, step).threads
    ensures u in s.threads ==> Next(s, step).threads[u].home == s.threads[u].home
    ensures u in s.threads && u != step.tid ==> Next(s, step).threads[u] == s.threads[u]
    ensures u in s.threads && u == step.tid && PastUser(s.threads[u].pc) ==>
      PastUser(Next(s, step).threads[u].pc)
    ensures u !in s.threads && Next(s, step).threads[u].home.Some? ==>
      (step.CreateEnd? && s.threads[step.tid].home == Next(s, step).threads[u].home) ||
      (step.Spawn? && FirstFree(s.t.slots) < |s.t.slots|
       && Next(s, step).threads[u].home.value.slot == FirstFree(s.t.slots))
  {
    match step
    case HostThread(_) =>
    case Spawn(_, _, _, _) =>
    case Start(_) =>
    case CreateBegin(_) =>
    case CreateEnd(_, _, _) =>
    case Return(_, _) =>
    case Epilogue(_) =>
    case Exit(_, _) =>
    case DrainCheck(_) =>
    case End(_) =>
    case WaitBegin(_, _) =>
    case WaitCheck(_) =>
    case Join(_) =>
    case Reap(_) =>
  }

  /** ... and from a running process all of whose user code has returned. */
  ghost predicate RunningKept(s: State, s': State, i: nat)
    requires i < |s.t.slots|
  {
    && i < |s'.t.slots| && s'.t.slots[i].pid == s.t.slots[i].pid && s'.t.slots[i].mainThread == s.t.slots[i].mainThread
    && !s'.t.slots[i].state.SlotFree?
    && s'.t.slots[i].auxThreads <= s.t.slots[i].auxThreads
  }

  lemma CreateOnRunning(s: State, step: Step, i: nat)
    requires Enabled(s, step) && (!step.HostThread? ==> ThreadInv(s, step.tid))
    requires i < |s.t.slots| && s.t.slots[i].state.Running? && UserDone(s, i)
    requires !IsWaitStep(step) && !IsExitStep(step)
    ensures RunningKept(s, Next(s, step), i)
  {
  }

  lemma WaitOnRunning(s: State, step: Step, i: nat)
    requires Enabled(s, step) && IsWaitStep(step) && ThreadInv(s, step.tid)
    requires i < |s.t.slots| && s.t.slots[i].state.Running?
    ensures RunningKept(s, Next(s, step), i)
  {
  }

  lemma ExitOnRunning(s: State, step: Step, i: nat)
    requires Enabled(s, step) && IsExitStep(step) && ThreadInv(s, step.tid)
    requires i < |s.t.slots| && s.t.slots[i].state.Running?
    ensures RunningKept(s, Next(s, step), i)
  {
  }

  lemma StepOnRunning(s: State, step: Step, i: nat)
    requires Enabled(s, step) && (!step.HostThread? ==> ThreadInv(s, step.tid))
    requires i < |s.t.slots| && s.t.slots[i].state.Running? && UserDone(s, i)
    ensures RunningKept(s, Next(s, step), i)
  {
    if IsWaitStep(step) {
      WaitOnRunning(s, step, i);
    } else if IsExitStep(step) {
      ExitOnRunning(s, step, i);
    } else {
      CreateOnRunning(s, step, i);
    }
  }

  lemma StepKeepsUserDone(s: State, step: Step, i: nat)
    requires Enabled(s, step) && (!step.HostThread? ==> ThreadInv(s, step.tid))
    requires i < |s.t.slots| && s.t.slots[i].state.Running? && UserDone(s, i)
    ensures UserDone(Next(s, step), i)
  {
    var s' := Next(s, step);
    forall u | u in s'.threads && InSlot(s'.threads[u], i) && Attached(s'.threads[u])
      ensures PastUser(s'.threads[u].pc)
    {
      StepOnThread(s, step, u);
      if u in s.threads {
        PprocTheorems.StepKeepsHomes(s, step, u);
      }
    }
  }

  /** A waiter leaves pproc_wait only through its own steps, after its process has exited. */
  lemma StepOnWaiter(s: State, step: Step, g: Goal)
    requires Enabled(s, step) && (!step.HostThread? ==> ThreadInv(s, step.tid)) && WaitsHere(s, g)
    requires g.i < |s.t.slots| && g.waiter.Some?
    ensures WaitsHere(Next(s, step), g) || (step == Reap(g.waiter.value) && Done(Next(s, step), g))
  {
  }

  /** A step either reaches the goal, or brings it closer, or leaves it as close and leaves the
      helpful thread helpful; a step of the helpful thread is never of the last kind. */
  ghost predicate Advanced(s: State, step: Step, s': State, g: Goal, t: nat)
    requires Pending(s, g)
  {
    || Done(s', g)
    || (Pending(s', g) && Distance(s', g) < Distance(s, g))
    || (Pending(s', g) && Distance(s', g) == Distance(s, g) && Helpful(s', g, t) && step.tid != t)
  }

  lemma RunningStaysPending(s: State, step: Step, g: Goal)
    requires Pending(s, g) && Enabled(s, step) && Disciplined(s, step) && s.t.slots[g.i].state.Running?
    ensures Pending(Next(s, step), g) || (g.waiter.None? && Done(Next(s, step), g))
  {
    var s' := Next(s, step);
    assert !step.HostThread? ==> ThreadInv(s, step.tid);
    PprocTheorems.AnyStepKeeps(s, step);
    StepOnRunning(s, step, g.i);
    StepKeepsUserDone(s, step, g.i);
    if g.waiter.Some? {
      StepOnWaiter(s, step, g);
      assert ThreadInv(s, g.waiter.value);
    }
  }

  /** The slot's counter and its main thread, across a step of a running process. */
  lemma RunningDistance(s: State, step: Step, i: nat, t: nat)
    requires Enabled(s, step) && (!step.HostThread? ==> ThreadInv(s, step.tid))
    requires i < |s.t.slots| && s.t.slots[i].state.Running? && MainOk(s, i) && UserDone(s, i)
    requires t in s.threads && InSlot(s.threads[t], i) && step.tid == t && Attached(s.threads[t])
    requires if s.t.slots[i].auxThreads > 0 then !s.threads[t].isMain && s.threads[t].pc.Returned?
      else t == s.t.slots[i].mainThread
    ensures var s' := Next(s, step);
      i < |s'.t.slots| && (s'.t.slots[i].state.Exited? || s'.t.slots[i].auxThreads < s.t.slots[i].auxThreads)
  {
  }

  lemma ExitKeepsRunning(s: State, step: Step, i: nat)
    requires Enabled(s, step) && IsExitStep(step) && ThreadInv(s, step.tid)
    requires i < |s.t.slots| && s.t.slots[i].state.Running? && MainOk(s, i)
    requires s.t.slots[i].auxThreads > 0 || step.tid != s.t.slots[i].mainThread
    ensures i < |Next(s, step).t.slots| && Next(s, step).t.slots[i].state.Running?
  {
  }

  lemma WaitKeepsRunning(s: State, step: Step, i: nat)
    requires Enabled(s, step) && IsWaitStep(step) && ThreadInv(s, step.tid)
    requires i < |s.t.slots| && s.t.slots[i].state.Running?
    ensures i < |Next(s, step).t.slots| && Next(s, step).t.slots[i].state.Running?
  {
  }

  lemma OthersDistance(s: State, step: Step, i: nat)
    requires Enabled(s, step) && (!step.HostThread? ==> ThreadInv(s, step.tid))
    requires i < |s.t.slots| && s.t.slots[i].state.Running? && MainOk(s, i) && UserDone(s, i)
    requires s.t.slots[i].auxThreads > 0 || step.tid != s.t.slots[i].mainThread
    ensures i < |Next(s, step).t.slots| && Next(s, step).t.slots[i].state.Running?
  {
    if IsWaitStep(step) {
      WaitKeepsRunning(s, step, i);
    } else if IsExitStep(step) {
      ExitKeepsRunning(s, step, i);
    }
  }

  /** What the step lemmas above say about the pair (s, s'), without the step function. */
  ghost predicate RunningEffect(s: State, step: Step, s': State, i: nat, t: nat)
    requires i < |s.t.slots| && t in s.threads && s.t.slots[i].mainThread in s.threads
  {
    var m := s.t.slots[i].mainThread;
    && i < |s'.t.slots| && s'.t.slots[i].mainThread == m && s'.t.slots[i].auxThreads <= s.t.slots[i].auxThreads
    && m in s'.threads && s'.threads[m].isMain == s.threads[m].isMain && s'.threads[m].home == s.threads[m].home
    && (s'.threads[m].pc == s.threads[m].pc || PastUser(s'.threads[m].pc))
    && (step.tid == t ==> s'.t.slots[i].state.Exited? || s'.t.slots[i].auxThreads < s.t.slots[i].auxThreads)
    && (step.tid != t ==> t in s'.threads && s'.threads[t] == s.threads[t] && s'.t.slots[i].state.Running?)
    && (s.threads[m].pc.Draining? && s'.t.slots[i].state.Running? ==> !s'.threads[m].pc.Returned?)
  }

  lemma DrainingStays(s: State, step: Step, m: nat)
    requires Enabled(s, step) && (!step.HostThread? ==> ThreadInv(s, step.tid))
    requires m in s.threads && s.threads[m].pc.Draining?
    ensures m in Next(s, step).threads && !Next(s, step).threads[m].pc.Returned?
  {
  }

  lemma RunningEffects(s: State, step: Step, g: Goal, t: nat)
    requires Pending(s, g) && Helpful(s, g, t) && Enabled(s, step) && Disciplined(s, step)
    requires s.t.slots[g.i].state.Running?
    ensures s.t.slots[g.i].mainThread in s.threads && RunningEffect(s, step, Next(s, step), g.i, t)
  {
    var i := g.i;
    assert SlotInv(s, i) && ThreadInv(s, t);
    assert !step.HostThread? ==> ThreadInv(s, step.tid);
    var m := s.t.slots[i].mainThread;
    assert UserDone(s, i) && MainOk(s, i);
    RunningEffectsLocal(s, step, i, t);
  }

  lemma RunningEffectsLocal(s: State, step: Step, i: nat, t: nat)
    requires Enabled(s, step) && (!step.HostThread? ==> ThreadInv(s, step.tid))
    requires i < |s.t.slots| && s.t.slots[i].state.Running? && MainOk(s, i) && UserDone(s, i)
    requires t in s.threads && InSlot(s.threads[t], i) && Attached(s.threads[t])
    requires if s.t.slots[i].auxThreads > 0 then !s.threads[t].isMain && s.threads[t].pc.Returned?
      else t == s.t.slots[i].mainThread
    ensures RunningEffect(s, step, Next(s, step), i, t)
  {
    var m := s.t.slots[i].mainThread;
    PprocTheorems.StepKeepsHomes(s, step, m);
    PprocTheorems.StepKeepsHomes(s, step, t);
    StepOnThread(s, step, m);
    StepOnThread(s, step, t);
    StepOnRunning(s, step, i);
    if s.threads[m].pc.Draining? { DrainingStays(s, step, m); }
    if step.tid == t { RunningDistance(s, step, i, t); } else { OthersDistance(s, step, i); }
  }

  lemma EffectAdvances(s: State, step: Step, s': State, g: Goal, t: nat)
    requires Pending(s, g) && Helpful(s, g, t) && s.t.slots[g.i].state.Running?
    requires s.t.slots[g.i].mainThread in s.threads && RunningEffect(s, step, s', g.i, t)
    requires Pending(s', g) || (g.waiter.None? && Done(s', g))
    ensures Advanced(s, step, s', g, t)
  {
    assert SlotInv(s, g.i) && ThreadInv(s, t);
    assert Attached(s.threads[s.t.slots[g.i].mainThread]);
    if Pending(s', g) {
      assert SlotInv(s', g.i);
    }
  }

  lemma AdvanceRunning(s: State, step: Step, g: Goal, t: nat)
    requires Pending(s, g) && Helpful(s, g, t) && Enabled(s, step) && Disciplined(s, step)
    requires s.t.slots[g.i].state.Running?
    ensures Advanced(s, step, Next(s, step), g, t)
  {
    var s' := Next(s, step);
    RunningStaysPending(s, step, g);
    RunningEffects(s, step, g, t);
    EffectAdvances(s, step, s', g, t);
  }

  // ---- after the exit: the main thread ends, the waiter joins and reaps ----------------------

  function WaitRank(pc: Pc): nat {
    match pc
    case Waiting(_, _, _) => 3
    case Joining(_, _) => 2
    case Reaping(_, _) => 1
    case _ => 0
  }

  ghost predicate ExitedEffect(s: State, step: Step, s': State, i: nat, w: nat)
    requires i < |s.t.slots| && w in s.threads && s.t.slots[i].mainThread in s.threads
  {
    var m := s.t.slots[i].mainThread;
    && i < |s'.t.slots| && m in s'.threads && w in s'.threads
    && (s'.t.slots[i] == s.t.slots[i] || step == Reap(w))
    && (if step.tid == m then s.threads[m].pc.Ending? && s'.threads[m].pc.Dead? else s'.threads[m] == s.threads[m])
    && (if step.tid == w then WaitRank(s'.threads[w].pc) < WaitRank(s.threads[w].pc) else s'.threads[w] == s.threads[w])
    && (step.tid == w && s.threads[w].pc.Joining? ==> s.threads[m].pc.Dead?)
    && (step == Reap(w) ==> s'.threads[w].pc.User?)
  }

  lemma ExitedSlotStays(s: State, step: Step, i: nat, w: nat)
    requires Enabled(s, step) && (!step.HostThread? ==> ThreadInv(s, step.tid))
    requires i < |s.t.slots| && s.t.slots[i].state.Exited?
    requires step.Reap? && s.threads[step.tid].pc.slot == i ==> step.tid == w
    ensures i < |Next(s, step).t.slots| && (Next(s, step).t.slots[i] == s.t.slots[i] || step == Reap(w))
  {
    match step
    case HostThread(_) =>
    case Spawn(_, _, _, _) =>
    case Start(_) =>
    case CreateBegin(_) =>
    case CreateEnd(_, _, _) =>
    case Return(_, _) =>
    case Epilogue(_) =>
    case Exit(_, _) =>
    case DrainCheck(_) =>
    case End(_) =>
    case WaitBegin(_, _) =>
    case WaitCheck(_) =>
    case Join(_) =>
    case Reap(_) =>
  }

  /** The main thread of an exited process can only end; its waiter can only come closer. */
  lemma ExitedThreads(s: State, step: Step, i: nat, w: nat)
    requires Enabled(s, step) && !step.HostThread? && ThreadInv(s, step.tid)
    requires i < |s.t.slots| && s.t.slots[i].state.Exited? && w in s.threads && MainOk(s, i)
    requires WaitPid(s.threads[w].pc) == Some(s.t.slots[i].pid) && s.threads[w].pc.slot == i
    requires step.tid == w || step.tid == s.t.slots[i].mainThread
    ensures step.tid in Next(s, step).threads
    ensures step.tid == s.t.slots[i].mainThread ==>
      s.threads[step.tid].pc.Ending? && Next(s, step).threads[step.tid].pc.Dead?
    ensures step.tid == w ==> WaitRank(Next(s, step).threads[w].pc) < WaitRank(s.threads[w].pc)
    ensures step.tid == w && s.threads[w].pc.Joining? ==> s.threads[s.t.slots[i].mainThread].pc.Dead?
    ensures step == Reap(w) ==> Next(s, step).threads[w].pc.User?
  {
  }

  lemma ExitedEffects(s: State, step: Step, i: nat, w: nat)
    requires Enabled(s, step) && (!step.HostThread? ==> ThreadInv(s, step.tid))
    requires i < |s.t.slots| && s.t.slots[i].state.Exited? && w in s.threads && MainOk(s, i)
    requires WaitPid(s.threads[w].pc) == Some(s.t.slots[i].pid) && s.threads[w].pc.slot == i
    requires step.Reap? && s.threads[step.tid].pc.slot == i ==> step.tid == w
    ensures ExitedEffect(s, step, Next(s, step), i, w)
  {
    var m := s.t.slots[i].mainThread;
    PprocTheorems.StepKeepsHomes(s, step, m);
    PprocTheorems.StepKeepsHomes(s, step, w);
    StepOnThread(s, step, m);
    StepOnThread(s, step, w);
    ExitedSlotStays(s, step, i, w);
    if step.tid == w || step.tid == m { ExitedThreads(s, step, i, w); }
  }

  lemma EffectAdvancesExited(s: State, step: Step, s': State, g: Goal, t: nat)
    requires Pending(s, g) && Helpful(s, g, t) && s.t.slots[g.i].state.Exited?
    requires s.t.slots[g.i].mainThread in s.threads && g.waiter.Some? && ExitedEffect(s, step, s', g.i, g.waiter.value)
    requires Inv(s') && (WaitsHere(s', g) || Done(s', g))
    ensures Advanced(s, step, s', g, t)
  {
    assert SlotInv(s, g.i);
    if !Done(s', g) {
      assert s'.t.slots[g.i] == s.t.slots[g.i];
      assert Pending(s', g);
    }
  }

  lemma AdvanceExited(s: State, step: Step, g: Goal, t: nat)
    requires Pending(s, g) && Helpful(s, g, t) && Enabled(s, step) && Disciplined(s, step)
    requires s.t.slots[g.i].state.Exited?
    ensures Advanced(s, step, Next(s, step), g, t)
  {
    var w := g.waiter.value;
    assert SlotInv(s, g.i) && ThreadInv(s, w);
    assert !step.HostThread? ==> ThreadInv(s, step.tid);
    if step.Reap? && s.threads[step.tid].pc.slot == g.i {
      assert WaitPid(s.threads[step.tid].pc) == WaitPid(s.threads[w].pc);
    }
    PprocTheorems.AnyStepKeeps(s, step);
    StepOnWaiter(s, step, g);
    ExitedEffects(s, step, g.i, w);
    EffectAdvancesExited(s, step, Next(s, step), g, t);
  }

  // ---- every fair schedule ------------------------------------------------------------------

  lemma {:induction false} ExecutionInv(run: nat -> State, sched: nat -> Step, n: nat)
    requires Execution(run, sched)
    ensures Inv(run(n))
  {
    if n > 0 {
      ExecutionInv(run, sched, n - 1);
      PprocTheorems.AnyStepKeeps(run(n - 1), sched(n - 1));
      assert run(n - 1 + 1) == Next(run(n - 1), sched(n - 1));
    }
  }

  ghost predicate Closer(run: nat -> State, g: Goal, n: nat, k: nat)
    requires Pending(run(n), g)
  {
    Done(run(k), g) || (Pending(run(k), g) && Distance(run(k), g) < Distance(run(n), g))
  }

  /** Until time m, either progress is made or t stays helpful without having moved. */
  lemma {:induction false} HelpfulUntil(run: nat -> State, sched: nat -> Step, g: Goal, t: nat, n: nat, m: nat)
    returns (k: nat)
    requires Execution(run, sched) && n <= m && Pending(run(n), g) && Helpful(run(n), g, t)
    ensures (Closer(run, g, n, k) && n <= k)
      || (Pending(run(m), g) && Distance(run(m), g) == Distance(run(n), g) && Helpful(run(m), g, t))
    decreases m - n
  {
    k := n;
    if n < m {
      assert run(n + 1) == Next(run(n), sched(n));
      if run(n).t.slots[g.i].state.Running? { AdvanceRunning(run(n), sched(n), g, t); }
      else { AdvanceExited(run(n), sched(n), g, t); }
      if Closer(run, g, n, n + 1) {
        k := n + 1;
      } else {
        k := HelpfulUntil(run, sched, g, t, n + 1, m);
      }
    }
  }

  /** The measure decreases until the goal is reached. */
  lemma {:induction false} Reaches(run: nat -> State, sched: nat -> Step, g: Goal, n: nat) returns (m: nat)
    requires Execution(run, sched) && Fair(run, sched) && Pending(run(n), g)
    ensures n <= m && Done(run(m), g)
    decreases Distance(run(n), g)
  {
    var t := HelperExists(run(n), g);
    assert ServedFrom(run, sched, t, n);
    var j: nat :| n <= j && (sched(j).tid == t || !Ready(run(j), t));
    var k := HelpfulUntil(run, sched, g, t, n, j);
    if !(Closer(run, g, n, k) && n <= k) {
      HelpfulIsReady(run(j), g, t);
      assert run(j + 1) == Next(run(j), sched(j));
      if run(j).t.slots[g.i].state.Running? { AdvanceRunning(run(j), sched(j), g, t); }
      else { AdvanceExited(run(j), sched(j), g, t); }
      k := j + 1;
    }
    if Done(run(k), g) {
      m := k;
    } else {
      m := Reaches(run, sched, g, k);
    }
  }

  /** Once all user code of a running process has returned, the process exits. */
  lemma ProcessExits(run: nat -> State, sched: nat -> Step, n: nat, i: nat)
    requires Execution(run, sched) && Fair(run, sched)
    requires i < |run(n).t.slots| && run(n).t.slots[i].state.Running? && UserDone(run(n), i)
    ensures exists m: nat :: n <= m && Done(run(m), Goal(i, run(n).t.slots[i].pid, None))
  {
    ExecutionInv(run, sched, n);
    var m := Reaches(run, sched, Goal(i, run(n).t.slots[i].pid, None), n);
  }

  /** ... and a thread that waits for it (running or already exited) returns from pproc_wait. */
  lemma WaiterReturns(run: nat -> State, sched: nat -> Step, n: nat, w: nat)
    requires Execution(run, sched) && Fair(run, sched)
    requires w in run(n).threads && WaitPid(run(n).threads[w].pc).Some?
    requires UserDone(run(n), run(n).threads[w].pc.slot)
    ensures exists m: nat :: n <= m && w in run(m).threads && run(m).threads[w].pc.User?
  {
    ExecutionInv(run, sched, n);
    assert ThreadInv(run(n), w);
    var m := Reaches(run, sched, Goal(run(n).threads[w].pc.slot, WaitPid(run(n).threads[w].pc).value, Some(w)), n);
  }
}
