/** What the invariant of the pseudo-process machine means for callers. */
module PprocTheorems {
  import opened Wrappers
  import opened PprocTable
  import opened Pproc

  ghost predicate Reachable(s: State) {
    exists steps :: Run(Initial(), steps, s)
  }

  lemma ReachableInv(s: State)
    requires Reachable(s)
    ensures Inv(s)
  {
    var steps :| Run(Initial(), steps, s);
    InitialInv();
    RunKeeps(Initial(), steps, s);
  }

  /** Threads keep their home for ever, and once detached stay detached. */
  lemma StepKeepsHomes(s: State, step: Step, tid: nat)
    requires Enabled(s, step) && tid in s.threads
    ensures var s' := Next(s, step);
      && tid in s'.threads && s'.threads[tid].home == s.threads[tid].home
      && s'.threads[tid].isMain == s.threads[tid].isMain
      && (s.threads[tid].pc.Dead? ==> s'.threads[tid].pc.Dead?)
      && (Attached(s'.threads[tid]) ==> Attached(s.threads[tid]))
  {
    match step
    case HostThread(_) =>
    case Spawn(_, _, _, _) =>
    case Start(_) =>
    case CreateBegin(_) =>
    case CreateEnd(_, _, _) =>
    case Return(_, _) =>
    case Epilogue(_) =>
    case Exit(_, _) =>
    case DrainCheck(_) =>
    case End(_) =>
    case WaitBegin(_, _) =>
    case WaitCheck(_) =>
    case Join(_) =>
    case Reap(_) =>
  }

  lemma {:induction false} RunKeepsHomes(s: State, steps: seq<Step>, s': State, tid: nat)
    requires Run(s, steps, s') && tid in s.threads
    ensures tid in s'.threads && s'.threads[tid].home == s.threads[tid].home
    ensures Attached(s'.threads[tid]) ==> Attached(s.threads[tid])
    decreases |steps|
  {
    if steps != [] {
      StepKeepsHomes(s, steps[0], tid);
      RunKeepsHomes(Next(s, steps[0]), steps[1..], s', tid);
    }
  }

  /** pproc_getpid and pproc_getname are constant over a thread's life: no thread that can still
      dereference its slot ever finds it freed or reused, although both read without the lock. */
  lemma IdentityIsConstant(s: State, steps: seq<Step>, s': State, tid: nat)
    requires Reachable(s) && Run(s, steps, s')
    requires tid in s.threads && tid in s'.threads && Attached(s'.threads[tid])
    ensures s.threads[tid].home == s'.threads[tid].home
    ensures GetPid(s', tid) == GetPid(s, tid) == s'.threads[tid].home.value.pid != INVALID_PID
    ensures GetName(s', tid) == GetName(s, tid) == Some(s'.threads[tid].home.value.name)
    ensures HomeOk(s', tid) && s'.t.slots[s'.threads[tid].home.value.slot].state.Running?
  {
    ReachableInv(s);
    RunKeeps(s, steps, s');
    RunKeepsHomes(s, steps, s', tid);
    assert ThreadInv(s, tid) && ThreadInv(s', tid);
  }

  /** The counter of a slot is exact, and an exited or free slot has no thread left in it. */
  lemma CountersAreExact(s: State, i: nat)
    requires Reachable(s) && i < MAX_PPROCS
    ensures |s.t.slots| == MAX_PPROCS
    ensures s.t.slots[i].auxThreads == |AuxOf(s.threads, i)| + |CreatingIn(s.threads, i)|
    ensures !s.t.slots[i].state.Running? ==> s.t.slots[i].auxThreads == 0
    ensures !s.t.slots[i].state.Running? ==>
      forall u :: u in s.threads && InSlot(s.threads[u], i) ==> !Attached(s.threads[u])
  {
    ReachableInv(s);
    assert SlotInv(s, i);
    forall u | u in s.threads && InSlot(s.threads[u], i) && Attached(s.threads[u])
      ensures s.t.slots[i].state.Running?
    {
      assert ThreadInv(s, u);
    }
  }

  /** The guard `aux_threads > 0` of pproc_exit (line 216) never fails, so every auxiliary thread
      decrements exactly once: it leaves its slot in the step that decrements. */
  lemma ExitAlwaysDecrements(s: State, tid: nat, code: int)
    requires Reachable(s) && Enabled(s, Exit(tid, code)) && !s.threads[tid].isMain
    ensures HomeOk(s, tid)
    ensures var i := s.threads[tid].home.value.slot; var s' := Next(s, Exit(tid, code));
      s'.t.slots[i].auxThreads == s.t.slots[i].auxThreads - 1 && !Attached(s'.threads[tid])
  {
    ReachableInv(s);
    assert ThreadInv(s, tid);
    CountedIsPositive(s, tid);
  }

  /** live counts the occupied slots; pids are nonzero and distinct. */
  lemma AccountsBalance(s: State)
    requires Reachable(s)
    ensures s.t.live == |Occupied(s.t.slots)|
    ensures forall i :: i in Occupied(s.t.slots) ==> s.t.slots[i].pid != INVALID_PID
    ensures forall i, j :: i in Occupied(s.t.slots) && j in Occupied(s.t.slots) && i != j ==>
      s.t.slots[i].pid != s.t.slots[j].pid
  {
    ReachableInv(s);
  }

  /** A blocked thread's condition is false, or the broadcast that wakes it has been sent. */
  lemma NoLostWakeup(s: State, tid: nat)
    requires Reachable(s) && tid in s.threads
    ensures s.threads[tid].pc.Draining? ==>
      && HomeOk(s, tid)
      && var slot := s.t.slots[s.threads[tid].home.value.slot];
      slot.auxThreads > 0 || s.threads[tid].pc.gen < slot.auxDone
    ensures s.threads[tid].pc.Waiting? ==>
      && s.threads[tid].pc.slot < |s.t.slots|
      && (s.t.slots[s.threads[tid].pc.slot].state.Running? || s.threads[tid].pc.gen < s.t.stateChanged)
  {
    ReachableInv(s);
    assert ThreadInv(s, tid);
  }

  // ---- what the calls achieve ---------------------------------------------------------------

  /** pproc_spawn succeeds exactly while a slot is free: the new main thread is then attached to a
      running process with the next pid and the given name.  In a full table nothing happens. */
  lemma SpawnSucceedsIffRoom(s: State, tid: nat, name: string, child: nat)
    requires tid in s.threads && s.threads[tid].pc.User? && child !in s.threads
    ensures Enabled(s, Spawn(tid, name, child, true))
    ensures var s' := Next(s, Spawn(tid, name, child, true));
      if exists k :: 0 <= k < |s.t.slots| && s.t.slots[k].state.SlotFree? then
        && s'.threads.Keys == s.threads.Keys + {child} && s'.threads[child].pc == Starting
        && s'.threads[child].isMain && Attached(s'.threads[child])
        && GetPid(s', child) == s.t.nextPid && GetName(s', child) == Some(name)
        && s'.t.slots[s'.threads[child].home.value.slot].state.Running?
        && s'.t.slots[s'.threads[child].home.value.slot].mainThread == child && s'.t.live == s.t.live + 1
        && Enabled(s', Start(child)) && Next(s', Start(child)).threads[child].pc == User
      else s' == s
  {
  }

  /** A spawn whose thread cannot be created changes no process and no thread, though it uses up a
      pid. */
  lemma FailedSpawnAddsNothing(s: State, tid: nat, name: string, child: nat)
    requires tid in s.threads && s.threads[tid].pc.User? && child !in s.threads
    ensures Enabled(s, Spawn(tid, name, child, false))
    ensures var s' := Next(s, Spawn(tid, name, child, false));
      && s'.threads == s.threads && s'.t.live == s.t.live && |s'.t.slots| == |s.t.slots|
      && forall k :: 0 <= k < |s.t.slots| ==>
           s'.t.slots[k] == s.t.slots[k] || (s.t.slots[k].state.SlotFree? && s'.t.slots[k].state.SlotFree?)
  {
  }

  /** pproc_wait: with the pid on an occupied slot the caller blocks while the process runs and goes on
      to the join once it has exited; any other pid is refused at once. */
  lemma WaitEnters(s: State, tid: nat, pid: nat)
    requires tid in s.threads && s.threads[tid].pc.User?
    ensures Enabled(s, WaitBegin(tid, pid))
    ensures var s' := Next(s, WaitBegin(tid, pid));
      if exists k :: 0 <= k < |s.t.slots| && Holds(s.t.slots[k], pid) then
        var pc := s'.threads[tid].pc;
        && (pc.Waiting? || pc.Joining?) && pc.pid == pid && pc.slot < |s.t.slots| && Holds(s.t.slots[pc.slot], pid)
        && (pc.Joining? <==> s.t.slots[pc.slot].state.Exited?)
        && s' == s.(threads := s.threads[tid := s.threads[tid].(pc := pc)])
      else s' == s
  {
  }

  /** pproc_thread_create: the new thread belongs to the caller's process and is counted; if it cannot
      be created the count is as before. */
  lemma ThreadCreateAttaches(s: State, tid: nat, child: nat, created: bool)
    requires Reachable(s) && tid in s.threads && s.threads[tid].pc.User? && s.threads[tid].home.Some?
    requires child !in s.threads
    ensures Enabled(s, CreateBegin(tid)) && Enabled(Next(s, CreateBegin(tid)), CreateEnd(tid, child, created))
    ensures var s' := Next(Next(s, CreateBegin(tid)), CreateEnd(tid, child, created));
      var i := s.threads[tid].home.value.slot;
      && i < |s.t.slots| == |s'.t.slots| && s'.threads[tid] == s.threads[tid]
      && (if created then
            && s'.threads == s.threads[child := Thread(s.threads[tid].home, false, Starting)]
            && s'.t.slots[i].auxThreads == s.t.slots[i].auxThreads + 1
          else s'.threads == s.threads && s'.t.slots[i].auxThreads == s.t.slots[i].auxThreads)
  {
    ReachableInv(s);
    assert ThreadInv(s, tid);
    var s1 := Next(s, CreateBegin(tid));
    assert HomeOk(s, tid) && HomeOk(s1, tid);
    var s2 := Next(s1, CreateEnd(tid, child, created));
    assert s1.threads[tid := s.threads[tid]] == s.threads;
  }

  // ---- exit codes ---------------------------------------------------------------------------

  lemma {:induction false} FirstExitSticks(s: State, steps: seq<Step>, s': State, pid: nat)
    requires Run(s, steps, s') && pid in s.exits
    ensures pid in s'.exits && s'.exits[pid] == s.exits[pid]
    decreases |steps|
  {
    if steps != [] {
      FirstExitSticks(Next(s, steps[0]), steps[1..], s', pid);
    }
  }

  /** The exit event in a step, if it is one: a pproc_exit by any thread of a process, or the return
      of its main thread. */
  function ExitEvent(s: State, step: Step): Option<(nat, int)>
    requires Enabled(s, step)
  {
    match step
    case Exit(tid, code) => Some((s.threads[tid].home.value.pid, code))
    case Epilogue(tid) =>
      if s.threads[tid].home.Some? && s.threads[tid].isMain
      then Some((s.threads[tid].home.value.pid, s.threads[tid].pc.code))
      else None
    case _ => None
  }

  /** The code of pid's first exit event in a run. */
  function FirstExitIn(s: State, steps: seq<Step>, pid: nat): Option<int>
    decreases |steps|
  {
    if steps == [] || !Enabled(s, steps[0]) then None
    else
      var e := ExitEvent(s, steps[0]);
      if e.Some? && e.value.0 == pid then Some(e.value.1)
      else FirstExitIn(Next(s, steps[0]), steps[1..], pid)
  }

  lemma StepRecords(s: State, step: Step)
    requires Enabled(s, step) && (!step.HostThread? ==> ThreadInv(s, step.tid))
    ensures Next(s, step).exits ==
      var e := ExitEvent(s, step);
      if e.Some? then FirstExit(s.exits, e.value.0, e.value.1) else s.exits
  {
  }

  lemma {:induction false} RecordedIsFirst(s: State, steps: seq<Step>, s': State, pid: nat)
    requires Inv(s) && Run(s, steps, s') && pid !in s.exits
    ensures pid in s'.exits <==> FirstExitIn(s, steps, pid).Some?
    ensures pid in s'.exits ==> FirstExitIn(s, steps, pid) == Some(s'.exits[pid])
    decreases |steps|
  {
    if steps != [] {
      assert !steps[0].HostThread? ==> ThreadInv(s, steps[0].tid);
      StepRecords(s, steps[0]);
      AnyStepKeeps(s, steps[0]);
      if pid in Next(s, steps[0]).exits {
        FirstExitSticks(Next(s, steps[0]), steps[1..], s', pid);
      } else {
        RecordedIsFirst(Next(s, steps[0]), steps[1..], s', pid);
      }
    }
  }

  /** In every run an occupied slot's exit is requested exactly if its process has had an exit event,
      and its exit code is that of the first one, in lock order. */
  lemma SlotHoldsFirstExit(steps: seq<Step>, s: State, i: nat)
    requires Run(Initial(), steps, s) && i < |s.t.slots| && !s.t.slots[i].state.SlotFree?
    ensures var slot, first := s.t.slots[i], FirstExitIn(Initial(), steps, s.t.slots[i].pid);
      (slot.exitRequested <==> first.Some?) && (slot.exitRequested ==> first == Some(slot.exitCode))
  {
    ReachableInv(s);
    assert SlotInv(s, i);
    InitialInv();
    RecordedIsFirst(Initial(), steps, s, s.t.slots[i].pid);
  }

  /** pproc_wait returns the first exit code of the process it was asked for. */
  lemma WaitReturnsFirstExit(steps: seq<Step>, s: State, tid: nat)
    requires Run(Initial(), steps, s) && Enabled(s, Reap(tid))
    ensures var pc := s.threads[tid].pc;
      && pc.slot < |s.t.slots| && s.t.slots[pc.slot].pid == pc.pid
      && FirstExitIn(Initial(), steps, pc.pid) == Some(s.t.slots[pc.slot].exitCode)
      && Next(s, Reap(tid)).t.slots[pc.slot].state.SlotFree?
  {
    ReachableInv(s);
    assert ThreadInv(s, tid) && SlotInv(s, s.threads[tid].pc.slot);
    SlotHoldsFirstExit(steps, s, s.threads[tid].pc.slot);
  }

  /** What a step may do to an exited slot. */
  ghost predicate ExitedEffect(s: State, step: Step, s': State, i: nat)
    requires i < |s.t.slots|
  {
    && |s'.t.slots| == |s.t.slots|
    && (s'.t.slots[i] == s.t.slots[i]
        || (s'.t.slots[i].state.SlotFree? && step.Reap? && step.tid in s.threads
            && s.threads[step.tid].pc.Reaping? && s.threads[step.tid].pc.slot == i))
  }

  lemma CreateOnExited(s: State, step: Step, i: nat)
    requires Enabled(s, step) && i < |s.t.slots| && s.t.slots[i].state.Exited?
    requires !IsWaitStep(step) && !IsExitStep(step) && (!step.HostThread? ==> ThreadInv(s, step.tid))
    ensures ExitedEffect(s, step, Next(s, step), i)
  {
  }

  lemma ExitOnExited(s: State, step: Step, i: nat)
    requires Enabled(s, step) && i < |s.t.slots| && s.t.slots[i].state.Exited?
    requires IsExitStep(step) && ThreadInv(s, step.tid)
    ensures ExitedEffect(s, step, Next(s, step), i)
  {
  }

  lemma WaitOnExited(s: State, step: Step, i: nat)
    requires Enabled(s, step) && i < |s.t.slots| && s.t.slots[i].state.Exited?
    requires IsWaitStep(step) && ThreadInv(s, step.tid)
    ensures ExitedEffect(s, step, Next(s, step), i)
  {
  }

  lemma StepOnExited(s: State, step: Step, i: nat)
    requires Inv(s) && Enabled(s, step) && i < |s.t.slots| && s.t.slots[i].state.Exited?
    ensures ExitedEffect(s, step, Next(s, step), i)
  {
    assert !step.HostThread? ==> ThreadInv(s, step.tid);
    if IsWaitStep(step) { WaitOnExited(s, step, i); }
    else if IsExitStep(step) { ExitOnExited(s, step, i); }
    else { CreateOnExited(s, step, i); }
  }

  ghost predicate Gone(s: State, pid: nat) {
    pid < s.t.nextPid && forall k :: 0 <= k < |s.t.slots| ==> !Holds(s.t.slots[k], pid)
  }

  /** No step but a spawn gives a slot a pid. */
  lemma StepsAddNoPid(s: State, step: Step, k: nat, pid: nat)
    requires Enabled(s, step) && !step.Spawn? && k < |s.t.slots| && (!step.HostThread? ==> ThreadInv(s, step.tid))
    ensures var s' := Next(s, step);
      && s'.t.nextPid == s.t.nextPid && |s'.t.slots| == |s.t.slots|
      && (Holds(s'.t.slots[k], pid) ==> Holds(s.t.slots[k], pid))
  {
  }

  /** A spawn uses a pid that was never used. */
  lemma SpawnKeepsGone(s: State, name: string, child: nat, created: bool, pid: nat)
    requires s.t.nextPid + 1 < PID_MODULUS && Gone(s, pid)
    ensures Gone(SpawnStep(s, name, child, created), pid)
  {
  }

  lemma StepKeepsGone(s: State, step: Step, pid: nat)
    requires Inv(s) && Enabled(s, step) && Disciplined(s, step) && Gone(s, pid)
    ensures Gone(Next(s, step), pid)
  {
    if step.Spawn? {
      SpawnKeepsGone(s, step.name, step.child, step.created, pid);
    } else {
      assert !step.HostThread? ==> ThreadInv(s, step.tid);
      StepsAddNoPid(s, step, 0, pid);
      forall k | 0 <= k < |s.t.slots| ensures !Holds(Next(s, step).t.slots[k], pid) {
        StepsAddNoPid(s, step, k, pid);
      }
    }
  }

  lemma AnyStepKeeps(s: State, step: Step)
    requires Inv(s) && Enabled(s, step) && Disciplined(s, step)
    ensures Inv(Next(s, step))
  {
    assert Run(Next(s, step), [], Next(s, step));
    RunKeeps(s, [step], Next(s, step));
  }

  /** A reaped pid is never seen again. */
  lemma {:induction false} GoneIsForever(s: State, steps: seq<Step>, s': State, pid: nat)
    requires Inv(s) && Run(s, steps, s') && Gone(s, pid)
    ensures Gone(s', pid)
    decreases |steps|
  {
    if steps != [] {
      StepKeepsGone(s, steps[0], pid);
      AnyStepKeeps(s, steps[0]);
      GoneIsForever(Next(s, steps[0]), steps[1..], s', pid);
    }
  }

  /** PROC_EXITED is final: until it is reaped an exited process keeps its slot, its exit code and
      a count of zero; once reaped, its pid is gone for good. */
  lemma {:induction false} ExitedIsFinal(s: State, steps: seq<Step>, s': State, i: nat)
    requires Inv(s) && Run(s, steps, s') && i < |s.t.slots| && s.t.slots[i].state.Exited?
    ensures (i < |s'.t.slots| && s'.t.slots[i] == s.t.slots[i] && s'.t.slots[i].auxThreads == 0)
      || Gone(s', s.t.slots[i].pid)
    decreases |steps|
  {
    if steps != [] {
      var n := Next(s, steps[0]);
      StepOnExited(s, steps[0], i);
      AnyStepKeeps(s, steps[0]);
      if n.t.slots[i] == s.t.slots[i] {
        ExitedIsFinal(n, steps[1..], s', i);
      } else {
        assert Gone(n, s.t.slots[i].pid);
        GoneIsForever(n, steps[1..], s', s.t.slots[i].pid);
      }
    }
  }
}
