/** What happens without the rule "at most one waiter per pid": pproc_wait drops the lock to join
    (lines 247-250) and does not look at the slot again before it frees it. */
module PprocTwoWaiters {
  import opened Wrappers
  import opened PprocTable
  import opened Pproc

  /** A step of the program text alone: no rule for waiters, but next_pid does not wrap around. */
  predicate Free(s: State, step: Step) {
    Enabled(s, step) && (step.Spawn? ==> s.t.nextPid + 1 < PID_MODULUS)
  }

  /** A run of such steps. */
  ghost predicate FreeRun(s: State, steps: seq<Step>, s': State)
    decreases |steps|
  {
    if steps == [] then s' == s
    else Free(s, steps[0]) && FreeRun(Next(s, steps[0]), steps[1..], s')
  }

  /** The reap at lines 250-254 keeps the accounts exactly when the slot is still occupied, and
      hits the process the caller named exactly when the slot still carries its pid: the check
      the code does not make.  Both hold in every run of disciplined callers. */
  lemma ReapIsRightIff(s: State, tid: nat)
    requires tid in s.threads && s.threads[tid].pc.Reaping? && s.threads[tid].pc.slot < |s.t.slots|
    requires s.t.live == |Occupied(s.t.slots)|
    ensures var i := s.threads[tid].pc.slot;
            var s' := ReapStep(s, tid);
            s'.t.live == |Occupied(s'.t.slots)| <==> !s.t.slots[i].state.SlotFree?
    ensures Inv(s) ==> Holds(s.t.slots[s.threads[tid].pc.slot], s.threads[tid].pc.pid)
  {
    OccupiedUpdate(s.t.slots, s.threads[tid].pc.slot, ZERO_SLOT);
    if Inv(s) { assert ThreadInv(s, tid); }
  }

  // ---- pids in free runs --------------------------------------------------------------------

  /** Pids on slots are below next_pid and, unless zero, on one slot only. */
  ghost predicate PidsOk(t: Table) {
    && 1 <= t.nextPid
    && (forall k :: 0 <= k < |t.slots| ==> t.slots[k].pid < t.nextPid)
    && (forall j, k :: 0 <= j < |t.slots| && 0 <= k < |t.slots| && j != k && t.slots[j].pid != INVALID_PID ==>
          t.slots[j].pid != t.slots[k].pid)
  }

  /** A pid that only slot i may carry. */
  ghost predicate OnlyAt(t: Table, pid: nat, i: nat) {
    pid < t.nextPid && i < |t.slots| && forall k :: 0 <= k < |t.slots| && k != i ==> t.slots[k].pid != pid
  }

  ghost predicate WaiterKnows(t: Table, pc: Pc) {
    WaitPid(pc).Some? && pc.pid != INVALID_PID ==> OnlyAt(t, pc.pid, pc.slot)
  }

  ghost predicate FreeInv(s: State) {
    PidsOk(s.t) && forall u :: u in s.threads ==> WaiterKnows(s.t, s.threads[u].pc)
  }

  /** A pid on no slot, used before. */
  ghost predicate Absent(t: Table, pid: nat) {
    INVALID_PID < pid < t.nextPid && forall k :: 0 <= k < |t.slots| ==> t.slots[k].pid != pid
  }

  /** What any step does to the pids: a slot keeps its pid or loses it, and only a spawn into the
      first free slot brings a new one. */
  ghost predicate PidStep(t: Table, t': Table, spawn: bool) {
    && |t'.slots| == |t.slots|
    && (if spawn then t'.nextPid == t.nextPid || t'.nextPid == t.nextPid + 1 else t'.nextPid == t.nextPid)
    && forall k :: 0 <= k < |t.slots| ==>
      || t'.slots[k].pid == t.slots[k].pid || t'.slots[k].pid == INVALID_PID
      || (spawn && k == FirstFree(t.slots) && t'.slots[k].pid == t.nextPid && t'.nextPid == t.nextPid + 1)
  }

  lemma CreationPids(s: State, step: Step)
    requires Free(s, step) && !IsWaitStep(step) && !IsExitStep(step)
    ensures PidStep(s.t, Next(s, step).t, step.Spawn?)
  {
  }

  lemma ExitPids(s: State, step: Step)
    requires Free(s, step) && IsExitStep(step)
    ensures PidStep(s.t, Next(s, step).t, false)
  {
  }

  lemma WaitPids(s: State, step: Step)
    requires Free(s, step) && IsWaitStep(step)
    ensures PidStep(s.t, Next(s, step).t, false)
  {
  }

  lemma StepPids(s: State, step: Step)
    requires Free(s, step)
    ensures PidStep(s.t, Next(s, step).t, step.Spawn?)
  {
    if IsWaitStep(step) { WaitPids(s, step); }
    else if IsExitStep(step) { ExitPids(s, step); }
    else { CreationPids(s, step); }
  }

  lemma PidStepKeeps(t: Table, t': Table, spawn: bool)
    requires PidsOk(t) && PidStep(t, t', spawn)
    ensures PidsOk(t')
  {
  }

  lemma PidStepKeepsOnlyAt(t: Table, t': Table, spawn: bool, pid: nat, i: nat)
    requires PidStep(t, t', spawn) && OnlyAt(t, pid, i) && pid != INVALID_PID
    ensures OnlyAt(t', pid, i)
  {
  }

  lemma PidStepKeepsAbsent(t: Table, t': Table, spawn: bool, pid: nat)
    requires PidStep(t, t', spawn) && Absent(t, pid)
    ensures Absent(t', pid)
  {
  }

  /** A thread starts to wait only for a pid it found, and keeps the slot it found it on. */
  lemma StepWaiters(s: State, step: Step, u: nat)
    requires Free(s, step) && u in Next(s, step).threads
    ensures var pc' := Next(s, step).threads[u].pc;
            WaitPid(pc').Some? ==>
            || (u in s.threads && WaitPid(s.threads[u].pc) == WaitPid(pc') && s.threads[u].pc.slot == pc'.slot)
            || (pc'.slot < |s.t.slots| && Holds(s.t.slots[pc'.slot], pc'.pid) && Next(s, step).t == s.t)
  {
  }

  lemma FreeStepKeeps(s: State, step: Step)
    requires FreeInv(s) && Free(s, step)
    ensures FreeInv(Next(s, step))
  {
    var s' := Next(s, step);
    StepPids(s, step);
    PidStepKeeps(s.t, s'.t, step.Spawn?);
    forall u | u in s'.threads ensures WaiterKnows(s'.t, s'.threads[u].pc) {
      var pc := s'.threads[u].pc;
      if WaitPid(pc).Some? && pc.pid != INVALID_PID {
        StepWaiters(s, step, u);
        if u in s.threads && WaitPid(s.threads[u].pc) == WaitPid(pc) && s.threads[u].pc.slot == pc.slot {
          assert WaiterKnows(s.t, s.threads[u].pc);
          PidStepKeepsOnlyAt(s.t, s'.t, step.Spawn?, pc.pid, pc.slot);
        }
      }
    }
  }

  lemma {:induction false} FreeRunKeeps(s: State, steps: seq<Step>, s': State)
    requires FreeInv(s) && FreeRun(s, steps, s')
    ensures FreeInv(s')
    decreases |steps|
  {
    if steps != [] {
      FreeStepKeeps(s, steps[0]);
      FreeRunKeeps(Next(s, steps[0]), steps[1..], s');
    }
  }

  lemma {:induction false} AbsentIsForever(s: State, steps: seq<Step>, s': State, pid: nat)
    requires Absent(s.t, pid) && FreeRun(s, steps, s')
    ensures Absent(s'.t, pid)
    decreases |steps|
  {
    if steps != [] {
      StepPids(s, steps[0]);
      PidStepKeepsAbsent(s.t, Next(s, steps[0]).t, steps[0].Spawn?, pid);
      AbsentIsForever(Next(s, steps[0]), steps[1..], s', pid);
    }
  }

  /** How far `live` is above the number of occupied slots. */
  ghost function Surplus(t: Table): int {
    t.live - |Occupied(t.slots)|
  }

  /** Any reap moves the accounts exactly when the slot is free, and then by one. */
  lemma ReapSurplus(s: State, tid: nat)
    requires tid in s.threads && s.threads[tid].pc.Reaping? && s.threads[tid].pc.slot < |s.t.slots|
    ensures Surplus(ReapStep(s, tid).t) ==
            Surplus(s.t) - (if s.t.slots[s.threads[tid].pc.slot].state.SlotFree? then 1 else 0)
  {
    OccupiedUpdate(s.t.slots, s.threads[tid].pc.slot, ZERO_SLOT);
  }

  /** Whoever waits for a pid after another waiter has reaped it, never frees that process: at its
      own reap, however much later, the pid is on no slot.  If the slot is free then, `live` goes one
      too low; otherwise the reap frees a process with another pid. */
  lemma SecondReapIsWrong(s: State, xs: seq<Step>, a: nat, ys: seq<Step>, s': State, b: nat)
    requires FreeRun(Initial(), xs, s) && Enabled(s, Reap(a)) && s.threads[a].pc.pid != INVALID_PID
    requires FreeRun(Next(s, Reap(a)), ys, s') && Enabled(s', Reap(b))
    requires s'.threads[b].pc == s.threads[a].pc
    ensures var i, pid := s'.threads[b].pc.slot, s'.threads[b].pc.pid;
            && i < |s'.t.slots|
            && (forall k :: 0 <= k < |s'.t.slots| ==> s'.t.slots[k].pid != pid)
            && Next(s', Reap(b)).t.slots == s'.t.slots[i := ZERO_SLOT]
            && Surplus(Next(s', Reap(b)).t) == Surplus(s'.t) - (if s'.t.slots[i].state.SlotFree? then 1 else 0)
  {
    var pid, i := s.threads[a].pc.pid, s.threads[a].pc.slot;
    assert FreeInv(Initial());
    FreeRunKeeps(Initial(), xs, s);
    assert WaiterKnows(s.t, s.threads[a].pc);
    assert Absent(Next(s, Reap(a)).t, pid);
    AbsentIsForever(Next(s, Reap(a)), ys, s', pid);
    FreeStepKeeps(s, Reap(a));
    FreeRunKeeps(Next(s, Reap(a)), ys, s');
    assert WaiterKnows(s'.t, s'.threads[b].pc);
    ReapSurplus(s', b);
  }

  // ---- a run that does it -------------------------------------------------------------------

  lemma {:induction false} FreeRunConcat(s: State, xs: seq<Step>, m: State, ys: seq<Step>, e: State)
    requires FreeRun(s, xs, m) && FreeRun(m, ys, e)
    ensures FreeRun(s, xs + ys, e)
    decreases |xs|
  {
    if xs == [] {
      assert xs + ys == ys;
    } else {
      FreeRunConcat(Next(s, xs[0]), xs[1..], m, ys, e);
      assert (xs + ys)[1..] == xs[1..] + ys;
    }
  }

  ghost predicate Leads(s: State, e: State) {
    exists steps :: FreeRun(s, steps, e)
  }

  lemma LeadsOn(s: State, m: State, e: State)
    requires Leads(s, m) && Leads(m, e)
    ensures Leads(s, e)
  {
    var xs :| FreeRun(s, xs, m);
    var ys :| FreeRun(m, ys, e);
    FreeRunConcat(s, xs, m, ys, e);
  }

  lemma FreeRunTwo(s: State, a: Step, m: State, b: Step, e: State)
    requires Free(s, a) && Next(s, a) == m && Free(m, b) && Next(m, b) == e
    ensures Leads(s, e)
  {
    assert [a, b][1..] == [b];
    assert FreeRun(s, [a, b], e);
  }

  const IDLE := Thread(None, false, User)
  const PROCESS_1 := Thread(Some(Home(0, 1, "a")), true, Dead)

  function Base(slot: Slot, nextPid: nat, live: int, changed: nat): Table {
    Table([slot] + seq(MAX_PPROCS - 1, _ => ZERO_SLOT), nextPid, live, changed)
  }

  /** Host threads 0 and 1 exist. */
  function Hosts(): State {
    State(Base(ZERO_SLOT, 1, 0, 0), map[0 := IDLE, 1 := IDLE], map[])
  }

  /** Process 1 runs. */
  function Started(pc: Pc): State {
    State(Base(FreshSlot(1, "a", 2), 2, 1, 0), map[0 := IDLE, 1 := IDLE, 2 := PROCESS_1.(pc := pc)], map[])
  }

  /** Process 1 exited with code 7; threads 0 and 1 are at program points p and q. */
  function Finished(p: Pc, q: Pc, pc: Pc): State {
    State(Base(Slot(1, "a", 2, Exited, 7, true, 0, 0), 2, 1, 1),
          map[0 := IDLE.(pc := p), 1 := IDLE.(pc := q), 2 := PROCESS_1.(pc := pc)], map[1 := 7])
  }

  /** Thread 0 has reaped, and process 2 took over the slot unless `slot` is free. */
  function Second(slot: Slot, nextPid: nat, live: int, q: Pc, child: map<nat, Thread>): State {
    State(Base(slot, nextPid, live, 1), map[0 := IDLE, 1 := IDLE.(pc := q), 2 := PROCESS_1] + child, map[1 := 7])
  }

  function Child(pc: Pc): map<nat, Thread> {
    map[3 := Thread(Some(Home(0, 2, "b")), true, pc)]
  }

  lemma RunToStart()
    ensures Leads(Initial(), Hosts())
    ensures Leads(Hosts(), Started(User))
  {
    assert Initial().t.slots == Hosts().t.slots;
    FreeRunTwo(Initial(), HostThread(0), Initial().(threads := map[0 := IDLE]), HostThread(1), Hosts());
    assert Hosts().t.slots[0 := FreshSlot(1, "a", 2)] == Started(User).t.slots;
    FreeRunTwo(Hosts(), Spawn(0, "a", 2, true), Started(Starting), Start(2), Started(User));
  }

  lemma RunToExit()
    ensures Leads(Started(User), Finished(User, User, Ending))
    ensures Leads(Finished(User, User, Ending), Finished(Joining(1, 0), User, Dead))
  {
    var slot := FreshSlot(1, "a", 2).(exitRequested := true, exitCode := 7);
    assert Started(User).t.slots[0 := slot][0 := slot.(state := Exited)] == Finished(User, User, Ending).t.slots;
    FreeRunTwo(Started(User), Return(2, 7), Started(Returned(7)), Epilogue(2), Finished(User, User, Ending));
    assert FindPid(Finished(User, User, Dead).t.slots, 1) == 0;
    FreeRunTwo(Finished(User, User, Ending), End(2), Finished(User, User, Dead), WaitBegin(0, 1),
               Finished(Joining(1, 0), User, Dead));
  }

  lemma RunToFirstJoin()
    ensures Leads(Finished(Joining(1, 0), User, Dead), Finished(Reaping(1, 0), Joining(1, 0), Dead))
  {
    var j, r := Joining(1, 0), Reaping(1, 0);
    assert FindPid(Finished(j, User, Dead).t.slots, 1) == 0;
    FreeRunTwo(Finished(j, User, Dead), WaitBegin(1, 1), Finished(j, j, Dead), Join(0), Finished(r, j, Dead));
  }

  lemma RunToFirstReap()
    ensures Leads(Finished(Reaping(1, 0), Joining(1, 0), Dead), Second(ZERO_SLOT, 2, 0, Reaping(1, 0), map[]))
  {
    var j, r := Joining(1, 0), Reaping(1, 0);
    assert Finished(r, r, Dead).t.slots[0 := ZERO_SLOT] == Base(ZERO_SLOT, 2, 0, 1).slots;
    FreeRunTwo(Finished(r, j, Dead), Join(1), Finished(r, r, Dead), Reap(0), Second(ZERO_SLOT, 2, 0, r, map[]));
  }

  lemma RunToReuse()
    ensures Leads(Second(ZERO_SLOT, 2, 0, Reaping(1, 0), map[]),
                  Second(FreshSlot(2, "b", 3), 3, 1, Reaping(1, 0), Child(User)))
  {
    var r, slot := Reaping(1, 0), FreshSlot(2, "b", 3);
    assert Base(ZERO_SLOT, 2, 0, 1).slots[0 := slot] == Base(slot, 3, 1, 1).slots;
    FreeRunTwo(Second(ZERO_SLOT, 2, 0, r, map[]), Spawn(0, "b", 3, true), Second(slot, 3, 1, r, Child(Starting)),
               Start(3), Second(slot, 3, 1, r, Child(User)));
  }

  lemma RunToBroken()
    ensures Leads(Second(FreshSlot(2, "b", 3), 3, 1, Reaping(1, 0), Child(User)),
                  Second(ZERO_SLOT, 3, 0, User, Child(User)))
  {
    var r, slot := Reaping(1, 0), FreshSlot(2, "b", 3);
    assert Base(slot, 3, 1, 1).slots[0 := ZERO_SLOT] == Base(ZERO_SLOT, 3, 0, 1).slots;
    var e := Second(ZERO_SLOT, 3, 0, User, Child(User));
    FreeRunTwo(Second(slot, 3, 1, r, Child(User)), Reap(1), e, WaitBegin(1, 9), e);
  }

  /** Two waiters on process 1: the second one frees the slot of the running process 2, whose main
      thread 3 then reads pid 0 from it. */
  lemma TwoWaitersCanReapAStranger()
    ensures exists s ::
      Leads(Initial(), s) && 3 in s.threads && s.threads[3] == Thread(Some(Home(0, 2, "b")), true, User) &&
      GetPid(s, 3) == INVALID_PID && s.t.live == 0 && !Inv(s)
  {
    RunToStart();
    RunToExit();
    RunToFirstJoin();
    RunToFirstReap();
    RunToReuse();
    RunToBroken();
    var j, r := Joining(1, 0), Reaping(1, 0);
    var e := Second(ZERO_SLOT, 3, 0, User, Child(User));
    LeadsOn(Second(ZERO_SLOT, 2, 0, r, map[]), Second(FreshSlot(2, "b", 3), 3, 1, r, Child(User)), e);
    LeadsOn(Finished(r, j, Dead), Second(ZERO_SLOT, 2, 0, r, map[]), e);
    LeadsOn(Finished(j, User, Dead), Finished(r, j, Dead), e);
    LeadsOn(Finished(User, User, Ending), Finished(j, User, Dead), e);
    LeadsOn(Started(User), Finished(User, User, Ending), e);
    LeadsOn(Hosts(), Started(User), e);
    LeadsOn(Initial(), Hosts(), e);
    assert !ThreadInv(e, 3);
  }
}
