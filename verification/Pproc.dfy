/** The pseudo-process layer as a step machine: any number of host threads, main threads and
    auxiliary threads run pproc_spawn, pproc_thread_create, pproc_exit and pproc_wait in any
    interleaving.  A section between lock and unlock (or cond_wait) is one step. */
module Pproc {
  import opened Wrappers
  import opened PprocTable

  /** Where a thread stands.  `gen` is the broadcast count seen when it began to wait. */
  datatype Pc =
    | Starting                                  // in the trampoline, before pthread_setspecific
    | User                                      // running user code, no call in progress
    | Creating                                  // auxThreads counted, pthread_create not yet done
    | Returned(code: int)                       // user code returned, lock not yet taken
    | Draining(gen: nat)                        // main thread in cond_wait(aux_done)
    | Waiting(pid: nat, slot: nat, gen: nat)    // pproc_wait in cond_wait(state_changed)
    | Joining(pid: nat, slot: nat)              // pproc_wait, lines 247-248
    | Reaping(pid: nat, slot: nat)              // pproc_wait, joined, line 250 next
    | Ending                                    // lock released for the last time
    | Dead

  /** The process a thread was born into, as handed to its trampoline. */
  datatype Home = Home(slot: nat, pid: nat, name: string)

  datatype Thread = Thread(home: Option<Home>, isMain: bool, pc: Pc)

  /** `exits` is history: the code of the first exit event of each pid, in lock order. */
  datatype State = State(t: Table, threads: map<nat, Thread>, exits: map<nat, int>)

  datatype Step =
    | HostThread(tid: nat)
    | Spawn(tid: nat, name: string, child: nat, created: bool)
    | Start(tid: nat)
    | CreateBegin(tid: nat)
    | CreateEnd(tid: nat, child: nat, created: bool)
    | Return(tid: nat, code: int)
    | Epilogue(tid: nat)
    | Exit(tid: nat, code: int)
    | DrainCheck(tid: nat)
    | End(tid: nat)
    | WaitBegin(tid: nat, pid: nat)
    | WaitCheck(tid: nat)
    | Join(tid: nat)
    | Reap(tid: nat)

  /** What the program text allows a thread to do next. */
  predicate Enabled(s: State, step: Step) {
    match step
    case HostThread(tid) => tid !in s.threads
    case Spawn(tid, _, child, created) => tid in s.threads && s.threads[tid].pc.User? && child !in s.threads
    case Start(tid) => tid in s.threads && s.threads[tid].pc.Starting?
    case CreateBegin(tid) => tid in s.threads && s.threads[tid].pc.User? && s.threads[tid].home.Some?
    case CreateEnd(tid, child, _) => tid in s.threads && s.threads[tid].pc.Creating? && child !in s.threads
    case Return(tid, _) => tid in s.threads && s.threads[tid].pc.User? && s.threads[tid].home.Some?
    case Epilogue(tid) => tid in s.threads && s.threads[tid].pc.Returned?
    case Exit(tid, _) => tid in s.threads && s.threads[tid].pc.User? && s.threads[tid].home.Some?
    case DrainCheck(tid) => tid in s.threads && s.threads[tid].pc.Draining?   // woken, or spuriously
    case End(tid) => tid in s.threads && s.threads[tid].pc.Ending?
    case WaitBegin(tid, pid) => tid in s.threads && s.threads[tid].pc.User?
    case WaitCheck(tid) => tid in s.threads && s.threads[tid].pc.Waiting?     // woken, or spuriously
    case Join(tid) =>
      && tid in s.threads && s.threads[tid].pc.Joining?
      && s.threads[tid].pc.slot < |s.t.slots|
      && var m := s.t.slots[s.threads[tid].pc.slot].mainThread;
      m in s.threads && s.threads[m].pc.Dead?
    case Reap(tid) => tid in s.threads && s.threads[tid].pc.Reaping?
  }

  /** The caller's side: one waiter per pid, and next_pid must not wrap around. */
  ghost predicate Disciplined(s: State, step: Step) {
    match step
    case WaitBegin(_, pid) => forall u :: u in s.threads ==> WaitPid(s.threads[u].pc) != Some(pid)
    case Spawn(_, _, _, _) => s.t.nextPid + 1 < PID_MODULUS
    case _ => true
  }

  /** The pid a thread is inside pproc_wait for, past line 238. */
  function WaitPid(pc: Pc): Option<nat> {
    match pc
    case Waiting(p, _, _) => Some(p)
    case Joining(p, _) => Some(p)
    case Reaping(p, _) => Some(p)
    case _ => None
  }

  // ---- transitions --------------------------------------------------------------------------

  function Moved(s: State, tid: nat, pc: Pc): State
    requires tid in s.threads
  {
    s.(threads := s.threads[tid := s.threads[tid].(pc := pc)])
  }

  function FirstExit(exits: map<nat, int>, pid: nat, code: int): map<nat, int> {
    if pid in exits then exits else exits[pid := code]
  }

  /** The main thread after requesting exit: wait for auxiliary threads or flip the state. */
  function MainDrain(s: State, tid: nat, i: nat): State
    requires tid in s.threads && i < |s.t.slots|
  {
    if s.t.slots[i].auxThreads > 0 then Moved(s, tid, Draining(s.t.slots[i].auxDone))
    else Moved(s.(t := MarkedExited(s.t, i)), tid, Ending)
  }

  function ThreadExit(s: State, tid: nat, code: int): State
    requires HomeOk(s, tid)
  {
    var h := s.threads[tid].home.value;
    if s.t.slots[h.slot].mainThread == tid then
      MainDrain(s.(t := ExitRequested(s.t, h.slot, code), exits := FirstExit(s.exits, h.pid, code)), tid, h.slot)
    else
      Moved(s.(t := AuxExited(s.t, h.slot, code), exits := FirstExit(s.exits, h.pid, code)), tid, Ending)
  }

  /** Trampoline epilogues: an auxiliary thread's return value is not an exit code. */
  function ThreadReturn(s: State, tid: nat, code: int): State
    requires HomeOk(s, tid)
  {
    if s.threads[tid].isMain then ThreadExit(s, tid, code)
    else Moved(s.(t := AuxEnded(s.t, s.threads[tid].home.value.slot)), tid, Ending)
  }

  /** pproc_wait from a held lock: the loop test of line 243, then the unlock of line 247. */
  function WaitTest(s: State, tid: nat, pid: nat, i: nat): State
    requires tid in s.threads && i < |s.t.slots|
  {
    if s.t.slots[i].state.Exited? then Moved(s, tid, Joining(pid, i))
    else Moved(s, tid, Waiting(pid, i, s.t.stateChanged))
  }

  predicate HomeOk(s: State, tid: nat) {
    tid in s.threads && s.threads[tid].home.Some? && s.threads[tid].home.value.slot < |s.t.slots|
  }

  function SpawnStep(s: State, name: string, child: nat, created: bool): State {
    var (t', slot) := Spawned(s.t, name, child, created);
    if slot.None? then s.(t := t')
    else s.(t := t', threads := s.threads[child := Thread(Some(Home(slot.value, s.t.nextPid, name)), true, Starting)])
  }

  /** pthread_create of an auxiliary thread, lines 182-190. */
  function ForkStep(s: State, tid: nat, child: nat, created: bool): State
    requires HomeOk(s, tid)
  {
    if created then
      s.(threads :=
         s.threads[tid := s.threads[tid].(pc := User)][child := Thread(s.threads[tid].home, false, Starting)])
    else Moved(s.(t := AuxEnded(s.t, s.threads[tid].home.value.slot)), tid, User)
  }

  function ReapStep(s: State, tid: nat): State
    requires tid in s.threads && s.threads[tid].pc.Reaping? && s.threads[tid].pc.slot < |s.t.slots|
  {
    Moved(s.(t := Reaped(s.t, s.threads[tid].pc.slot)), tid, User)
  }

  function WaitBeginStep(s: State, tid: nat, pid: nat): State
    requires tid in s.threads
  {
    var i := FindPid(s.t.slots, pid);
    if i < |s.t.slots| then WaitTest(s, tid, pid, i) else s
  }

  /** One step; a thread without a valid slot (which the invariant excludes) does not move. */
  function Next(s: State, step: Step): State
    requires Enabled(s, step)
  {
    match step
    case HostThread(tid) => s.(threads := s.threads[tid := Thread(None, false, User)])
    case Spawn(_, name, child, created) => SpawnStep(s, name, child, created)
    case Start(tid) => Moved(s, tid, User)
    case CreateBegin(tid) =>
      if HomeOk(s, tid) then Moved(s.(t := AuxStarted(s.t, s.threads[tid].home.value.slot)), tid, Creating) else s
    case CreateEnd(tid, child, created) => if HomeOk(s, tid) then ForkStep(s, tid, child, created) else s
    case Return(tid, code) => Moved(s, tid, Returned(code))
    case Epilogue(tid) => if HomeOk(s, tid) then ThreadReturn(s, tid, s.threads[tid].pc.code) else s
    case Exit(tid, code) => if HomeOk(s, tid) then ThreadExit(s, tid, code) else s
    case DrainCheck(tid) => if HomeOk(s, tid) then MainDrain(s, tid, s.threads[tid].home.value.slot) else s
    case End(tid) => Moved(s, tid, Dead)
    case WaitBegin(tid, pid) => WaitBeginStep(s, tid, pid)
    case WaitCheck(tid) =>
      if s.threads[tid].pc.slot < |s.t.slots|
      then WaitTest(s, tid, s.threads[tid].pc.pid, s.threads[tid].pc.slot)
      else s
    case Join(tid) => Moved(s, tid, Reaping(s.threads[tid].pc.pid, s.threads[tid].pc.slot))
    case Reap(tid) => if s.threads[tid].pc.slot < |s.t.slots| then ReapStep(s, tid) else s
  }

  function Initial(): State {
    State(Table(seq(MAX_PPROCS, _ => ZERO_SLOT), 1, 0, 0), map[], map[])
  }

  /** A run from s to s' that takes only enabled steps of disciplined callers. */
  ghost predicate Run(s: State, steps: seq<Step>, s': State)
    decreases |steps|
  {
    if steps == [] then s' == s
    else Enabled(s, steps[0]) && Disciplined(s, steps[0]) && Run(Next(s, steps[0]), steps[1..], s')
  }

  // ---- what the threads may touch -----------------------------------------------------------

  /** Threads that may still dereference their struct pproc. */
  predicate Attached(th: Thread) {
    th.home.Some? && !th.pc.Ending? && !th.pc.Dead?
  }

  predicate InSlot(th: Thread, i: nat) {
    th.home.Some? && th.home.value.slot == i
  }

  predicate IsAux(th: Thread, i: nat) {
    InSlot(th, i) && !th.isMain && Attached(th)
  }

  predicate IsCreating(th: Thread, i: nat) {
    InSlot(th, i) && th.pc.Creating?
  }

  /** Created auxiliary threads of slot i that have not yet decremented. */
  ghost function AuxOf(threads: map<nat, Thread>, i: nat): set<nat> {
    set u | u in threads && IsAux(threads[u], i)
  }

  /** Threads of slot i between the increment and pthread_create. */
  ghost function CreatingIn(threads: map<nat, Thread>, i: nat): set<nat> {
    set u | u in threads && IsCreating(threads[u], i)
  }

  /** pproc_getpid and pproc_getname: reads of the slot without the lock. */
  function GetPid(s: State, tid: nat): nat
    requires tid in s.threads
  {
    if s.threads[tid].home.Some? && s.threads[tid].home.value.slot < |s.t.slots| then
      s.t.slots[s.threads[tid].home.value.slot].pid
    else INVALID_PID
  }

  function GetName(s: State, tid: nat): Option<string>
    requires tid in s.threads
  {
    if s.threads[tid].home.Some? && s.threads[tid].home.value.slot < |s.t.slots| then
      Some(s.t.slots[s.threads[tid].home.value.slot].name)
    else None
  }

  // ---- the invariant ------------------------------------------------------------------------

  ghost predicate SlotsOk(t: Table) {
    && |t.slots| == MAX_PPROCS
    && 1 <= t.nextPid < PID_MODULUS
    && t.live == |Occupied(t.slots)|
    && (forall i :: 0 <= i < |t.slots| && !t.slots[i].state.SlotFree? ==> 1 <= t.slots[i].pid < t.nextPid)
    && (forall i, j :: 0 <= i < j < |t.slots| && !t.slots[i].state.SlotFree? && !t.slots[j].state.SlotFree?
          ==> t.slots[i].pid != t.slots[j].pid)
    && (forall i :: 0 <= i < |t.slots| && !t.slots[i].state.Running? ==> t.slots[i].auxThreads == 0)
  }

  /** Every attached thread sees its own, running, process. */
  ghost predicate ThreadOk(t: Table, tid: nat, th: Thread) {
    && (th.home.Some? ==> th.home.value.slot < |t.slots|)
    && (th.home.None? ==> !th.isMain && (th.pc.User? || th.pc.Waiting? || th.pc.Joining? || th.pc.Reaping?))
    && (Attached(th) ==>
          var slot := t.slots[th.home.value.slot];
          && slot.state.Running? && slot.pid == th.home.value.pid && slot.name == th.home.value.name
          && (th.isMain <==> slot.mainThread == tid))
    && (th.pc.Draining? ==>
          th.isMain &&
          var slot := t.slots[th.home.value.slot];
          slot.exitRequested && th.pc.gen <= slot.auxDone && (th.pc.gen == slot.auxDone ==> slot.auxThreads > 0))
  }

  ghost predicate WaiterOk(s: State, pc: Pc) {
    match pc
    case Waiting(pid, i, gen) =>
      && i < |s.t.slots| && Holds(s.t.slots[i], pid) && gen <= s.t.stateChanged
      && (gen == s.t.stateChanged ==> s.t.slots[i].state.Running?)
    case Joining(pid, i) => i < |s.t.slots| && s.t.slots[i].state.Exited? && s.t.slots[i].pid == pid
    case Reaping(pid, i) =>
      && i < |s.t.slots| && s.t.slots[i].state.Exited? && s.t.slots[i].pid == pid
      && s.t.slots[i].mainThread in s.threads && s.threads[s.t.slots[i].mainThread].pc.Dead?
    case _ => true
  }

  /** An occupied slot has its main thread, attached exactly while the process runs. */
  ghost predicate MainOk(s: State, i: nat)
    requires i < |s.t.slots|
  {
    var slot := s.t.slots[i];
    !slot.state.SlotFree? ==>
      && slot.mainThread in s.threads
      && var m := s.threads[slot.mainThread];
      && m.isMain && m.home == Some(Home(i, slot.pid, slot.name))
      && (slot.state.Running? <==> Attached(m))
  }

  ghost predicate CountOk(s: State, i: nat)
    requires i < |s.t.slots|
  {
    s.t.slots[i].auxThreads == Count(s.threads, i)
  }

  ghost predicate ExitOk(s: State, i: nat)
    requires i < |s.t.slots|
  {
    var slot := s.t.slots[i];
    !slot.state.SlotFree? ==>
      && (slot.exitRequested <==> slot.pid in s.exits)
      && (slot.exitRequested ==> slot.exitCode == s.exits[slot.pid])
      && (slot.state.Exited? ==> slot.exitRequested)
  }

  ghost predicate OneWaiterPerPid(s: State) {
    forall u, v :: u in s.threads && v in s.threads && u != v && WaitPid(s.threads[u].pc).Some?
      ==> WaitPid(s.threads[u].pc) != WaitPid(s.threads[v].pc)
  }

  ghost predicate SlotInv(s: State, i: nat)
    requires i < |s.t.slots|
  {
    MainOk(s, i) && CountOk(s, i) && ExitOk(s, i)
  }

  ghost predicate ThreadInv(s: State, u: nat)
    requires u in s.threads
  {
    ThreadOk(s.t, u, s.threads[u]) && WaiterOk(s, s.threads[u].pc)
  }

  ghost predicate Inv(s: State) {
    && SlotsOk(s.t)
    && (forall u :: u in s.threads ==> ThreadInv(s, u))
    && OneWaiterPerPid(s)
    && (forall i :: 0 <= i < |s.t.slots| ==> SlotInv(s, i))
    && (forall pid :: pid in s.exits ==> pid < s.t.nextPid)
  }

  // ---- counting -----------------------------------------------------------------------------

  function Weight(th: Thread, i: nat): nat {
    (if IsAux(th, i) then 1 else 0) + (if IsCreating(th, i) then 1 else 0)
  }

  ghost function Count(threads: map<nat, Thread>, i: nat): nat {
    |AuxOf(threads, i)| + |CreatingIn(threads, i)|
  }

  lemma AuxUpdate(threads: map<nat, Thread>, tid: nat, th: Thread, i: nat)
    ensures |AuxOf(threads[tid := th], i)| == |AuxOf(threads, i)| + (if IsAux(th, i) then 1 else 0)
      - (if tid in threads && IsAux(threads[tid], i) then 1 else 0)
  {
    var rest := AuxOf(threads, i) - {tid};
    assert AuxOf(threads, i) == if tid in threads && IsAux(threads[tid], i) then rest + {tid} else rest;
    assert AuxOf(threads[tid := th], i) == if IsAux(th, i) then rest + {tid} else rest;
  }

  lemma CreatingUpdate(threads: map<nat, Thread>, tid: nat, th: Thread, i: nat)
    ensures |CreatingIn(threads[tid := th], i)| == |CreatingIn(threads, i)| + (if IsCreating(th, i) then 1 else 0)
      - (if tid in threads && IsCreating(threads[tid], i) then 1 else 0)
  {
    var rest := CreatingIn(threads, i) - {tid};
    assert CreatingIn(threads, i) == if tid in threads && IsCreating(threads[tid], i) then rest + {tid} else rest;
    assert CreatingIn(threads[tid := th], i) == if IsCreating(th, i) then rest + {tid} else rest;
  }

  lemma CountUpdate(threads: map<nat, Thread>, tid: nat, th: Thread, i: nat)
    ensures Count(threads[tid := th], i) ==
      Count(threads, i) + Weight(th, i) - (if tid in threads then Weight(threads[tid], i) else 0)
  {
    AuxUpdate(threads, tid, th, i);
    CreatingUpdate(threads, tid, th, i);
  }

  lemma OccupiedUpdate(slots: seq<Slot>, i: nat, slot: Slot)
    requires i < |slots|
    ensures |Occupied(slots[i := slot])| == |Occupied(slots)|
      + (if slot.state.SlotFree? then 0 else 1) - (if slots[i].state.SlotFree? then 0 else 1)
  {
    var rest := Occupied(slots) - {i};
    assert Occupied(slots) == if slots[i].state.SlotFree? then rest else rest + {i};
    assert Occupied(slots[i := slot]) == if slot.state.SlotFree? then rest else rest + {i};
  }

  /** An attached auxiliary thread is counted, so the count cannot be zero. */
  lemma CountedIsPositive(s: State, tid: nat)
    requires Inv(s) && tid in s.threads && Attached(s.threads[tid])
    requires !s.threads[tid].isMain || s.threads[tid].pc.Creating?
    ensures s.t.slots[s.threads[tid].home.value.slot].auxThreads > 0
  {
    var i := s.threads[tid].home.value.slot;
    assert SlotInv(s, i);
    if s.threads[tid].isMain {
      assert tid in CreatingIn(s.threads, i);
    } else {
      assert tid in AuxOf(s.threads, i);
    }
  }

  // ---- every step keeps the invariant -------------------------------------------------------

  lemma InitialInv()
    ensures Inv(Initial())
  {
    assert Occupied(Initial().t.slots) == {};
    forall i | 0 <= i < MAX_PPROCS ensures CountOk(Initial(), i) {
      assert AuxOf(Initial().threads, i) == {} == CreatingIn(Initial().threads, i);
    }
  }

  /** What a step other than spawn and reap may do to the slot it works on. */
  ghost predicate SlotStep(s: Slot, s': Slot) {
    && s'.pid == s.pid && s'.name == s.name && s'.mainThread == s.mainThread
    && (s.exitRequested ==> s'.exitRequested)
    && s.auxDone <= s'.auxDone && (s.auxDone == s'.auxDone && s.auxThreads > 0 ==> s'.auxThreads > 0)
    && (s'.state == s.state || (s.state.Running? && s'.state.Exited? && s.auxThreads == 0))
  }

  /** ... and to the thread that takes it. */
  ghost predicate ThreadStep(s: State, tid: nat, th: Thread, i0: nat)
    requires tid in s.threads
  {
    var old_ := s.threads[tid];
    && th.home == old_.home && th.isMain == old_.isMain && (old_.pc.Dead? ==> th.pc.Dead?)
    && (InSlot(th, i0) || (Attached(th) == Attached(old_) && th.pc.Creating? == old_.pc.Creating?))
    && (WaitPid(th.pc).Some? ==>
          forall u :: u in s.threads && u != tid ==> WaitPid(s.threads[u].pc) != WaitPid(th.pc))
  }

  ghost predicate Update(s: State, s': State, i0: nat, tid: nat) {
    && i0 < |s.t.slots| == |s'.t.slots| && tid in s.threads && tid in s'.threads
    && s'.t.slots == s.t.slots[i0 := s'.t.slots[i0]]
    && s'.threads == s.threads[tid := s'.threads[tid]]
    && s'.t.nextPid == s.t.nextPid && s'.t.live == s.t.live && s.t.stateChanged <= s'.t.stateChanged
    && SlotStep(s.t.slots[i0], s'.t.slots[i0])
    && (s'.t.slots[i0].state != s.t.slots[i0].state ==> s.t.stateChanged < s'.t.stateChanged)
    && ThreadStep(s, tid, s'.threads[tid], i0)
    && (s'.exits == s.exits ||
          (!s.t.slots[i0].state.SlotFree? && s'.exits == s.exits[s.t.slots[i0].pid := s'.t.slots[i0].exitCode]))
  }

  lemma UpdateKeepsSlots(s: State, s': State, i0: nat, tid: nat)
    requires Inv(s) && Update(s, s', i0, tid) && SlotInv(s', i0)
    ensures forall i :: 0 <= i < |s'.t.slots| ==> SlotInv(s', i)
  {
    forall i | 0 <= i < |s'.t.slots| && i != i0 ensures SlotInv(s', i) {
      assert SlotInv(s, i);
      CountUpdate(s.threads, tid, s'.threads[tid], i);
    }
  }

  lemma UpdateKeepsThread(s: State, s': State, i0: nat, tid: nat, u: nat)
    requires Update(s, s', i0, tid) && u in s.threads && u != tid && ThreadInv(s, u)
    requires s'.t.slots[i0].state != s.t.slots[i0].state ==> !(InSlot(s.threads[u], i0) && Attached(s.threads[u]))
    ensures ThreadInv(s', u)
  {
  }

  lemma UpdateKeepsThreads(s: State, s': State, i0: nat, tid: nat)
    requires Inv(s) && Update(s, s', i0, tid) && ThreadInv(s', tid)
    requires s'.t.slots[i0].state != s.t.slots[i0].state ==>
      forall u :: u in s.threads && u != tid ==> !(InSlot(s.threads[u], i0) && Attached(s.threads[u]))
    ensures forall u :: u in s'.threads ==> ThreadInv(s', u)
  {
    forall u | u in s'.threads && u != tid ensures ThreadInv(s', u) {
      UpdateKeepsThread(s, s', i0, tid, u);
    }
  }

  lemma UpdateKeepsWaiters(s: State, s': State, i0: nat, tid: nat)
    requires Inv(s) && Update(s, s', i0, tid)
    ensures OneWaiterPerPid(s')
  {
  }

  lemma UpdateKeepsTable(s: State, s': State, i0: nat, tid: nat)
    requires Inv(s) && Update(s, s', i0, tid)
    requires !s'.t.slots[i0].state.Running? ==> s'.t.slots[i0].auxThreads == 0
    ensures SlotsOk(s'.t)
  {
    OccupiedUpdate(s.t.slots, i0, s'.t.slots[i0]);
  }

  lemma UpdateKeeps(s: State, s': State, i0: nat, tid: nat)
    requires Inv(s) && Update(s, s', i0, tid) && ThreadInv(s', tid) && SlotInv(s', i0)
    requires s'.t.slots[i0].state != s.t.slots[i0].state ==>
      forall u :: u in s.threads && u != tid ==> !(InSlot(s.threads[u], i0) && Attached(s.threads[u]))
    requires !s'.t.slots[i0].state.Running? ==> s'.t.slots[i0].auxThreads == 0
    ensures Inv(s')
  {
    UpdateKeepsSlots(s, s', i0, tid);
    UpdateKeepsThreads(s, s', i0, tid);
    UpdateKeepsWaiters(s, s', i0, tid);
    UpdateKeepsTable(s, s', i0, tid);
  }

  /** Once the count is zero only the main thread is still attached. */
  lemma OnlyMainLeft(s: State, i: nat)
    requires Inv(s) && i < |s.t.slots| && s.t.slots[i].auxThreads == 0
    ensures forall u :: u in s.threads && InSlot(s.threads[u], i) && Attached(s.threads[u]) ==>
      u == s.t.slots[i].mainThread && s.t.slots[i].state.Running? && !s.threads[u].pc.Creating?
  {
    forall u | u in s.threads && InSlot(s.threads[u], i) && Attached(s.threads[u])
      ensures u == s.t.slots[i].mainThread && s.t.slots[i].state.Running? && !s.threads[u].pc.Creating?
    {
      assert ThreadInv(s, u) && SlotInv(s, i);
      if !s.threads[u].isMain || s.threads[u].pc.Creating? { CountedIsPositive(s, u); }
    }
  }

  lemma HostThreadKeeps(s: State, tid: nat)
    requires Inv(s) && tid !in s.threads
    ensures Inv(s.(threads := s.threads[tid := Thread(None, false, User)]))
  {
    var s' := s.(threads := s.threads[tid := Thread(None, false, User)]);
    forall i | 0 <= i < |s.t.slots| ensures SlotInv(s', i) {
      assert SlotInv(s, i);
      CountUpdate(s.threads, tid, s'.threads[tid], i);
    }
    forall u | u in s'.threads ensures ThreadInv(s', u) {
      assert u != tid ==> ThreadInv(s, u);
    }
  }

  /** Start, Return, End, Join: one thread moves, the table does not change. */
  lemma MoveKeeps(s: State, tid: nat, pc: Pc)
    requires Inv(s) && tid in s.threads && !s.threads[tid].pc.Dead? && !s.threads[tid].pc.Creating?
    requires pc.Reaping? || s.threads[tid].home.Some?
    requires !pc.Draining? && !pc.Creating? && (pc.Ending? || pc.Dead? <==> s.threads[tid].pc.Ending?)
    requires WaitPid(pc).Some? ==> pc.Reaping? && WaitPid(pc) == WaitPid(s.threads[tid].pc)
    requires WaiterOk(Moved(s, tid, pc), pc)
    ensures Inv(Moved(s, tid, pc))
  {
    var s' := Moved(s, tid, pc);
    var i0 := if s.threads[tid].home.Some? then s.threads[tid].home.value.slot else 0;
    assert ThreadInv(s, tid) && SlotInv(s, i0);
    CountUpdate(s.threads, tid, s'.threads[tid], i0);
    UpdateKeeps(s, s', i0, tid);
  }

  /** The table after a spawn whose pthread_create failed. */
  ghost function NotBorn(s: State, i0: nat): State
    requires i0 < |s.t.slots|
  {
    s.(t := s.t.(nextPid := s.t.nextPid + 1, slots := s.t.slots[i0 := ZERO_SLOT]))
  }

  lemma SpawnFailedThread(s: State, i0: nat, u: nat)
    requires i0 < |s.t.slots| && s.t.slots[i0].state.SlotFree? && u in s.threads && ThreadInv(s, u)
    ensures ThreadInv(NotBorn(s, i0), u)
  {
  }

  lemma SpawnFailedKeeps(s: State, i0: nat)
    requires Inv(s) && i0 == FirstFree(s.t.slots) < |s.t.slots| && s.t.nextPid + 1 < PID_MODULUS
    ensures Inv(NotBorn(s, i0))
  {
    var s' := NotBorn(s, i0);
    OccupiedUpdate(s.t.slots, i0, ZERO_SLOT);
    forall i | 0 <= i < |s.t.slots| ensures SlotInv(s', i) {
      assert SlotInv(s, i);
    }
    forall u | u in s'.threads ensures ThreadInv(s', u) {
      SpawnFailedThread(s, i0, u);
    }
  }

  /** The state after a successful pproc_spawn into slot i0. */
  ghost function Born(s: State, i0: nat, name: string, child: nat): State
    requires i0 < |s.t.slots|
  {
    s.(t := s.t.(nextPid := s.t.nextPid + 1, slots := s.t.slots[i0 := FreshSlot(s.t.nextPid, name, child)],
                 live := s.t.live + 1),
       threads := s.threads[child := Thread(Some(Home(i0, s.t.nextPid, name)), true, Starting)])
  }

  lemma BornKeepsSlots(s: State, i0: nat, name: string, child: nat)
    requires Inv(s) && i0 < |s.t.slots| && s.t.slots[i0].state.SlotFree? && child !in s.threads
    ensures var s' := Born(s, i0, name, child); forall i :: 0 <= i < |s'.t.slots| ==> SlotInv(s', i)
  {
    var s' := Born(s, i0, name, child);
    forall i | 0 <= i < |s'.t.slots| ensures SlotInv(s', i) {
      assert SlotInv(s, i);
      CountUpdate(s.threads, child, s'.threads[child], i);
    }
  }

  lemma BornKeepsThread(s: State, i0: nat, name: string, child: nat, u: nat)
    requires i0 < |s.t.slots| && s.t.slots[i0].state.SlotFree? && child !in s.threads
    requires u in s.threads && ThreadInv(s, u)
    ensures ThreadInv(Born(s, i0, name, child), u)
  {
  }

  lemma BornKeepsThreads(s: State, i0: nat, name: string, child: nat)
    requires Inv(s) && i0 < |s.t.slots| && s.t.slots[i0].state.SlotFree? && child !in s.threads
    ensures var s' := Born(s, i0, name, child); forall u :: u in s'.threads ==> ThreadInv(s', u)
  {
    var s' := Born(s, i0, name, child);
    forall u | u in s'.threads && u != child ensures ThreadInv(s', u) {
      BornKeepsThread(s, i0, name, child, u);
    }
  }

  lemma BornKeeps(s: State, i0: nat, name: string, child: nat)
    requires Inv(s) && i0 < |s.t.slots| && s.t.slots[i0].state.SlotFree? && child !in s.threads
    requires s.t.nextPid + 1 < PID_MODULUS
    ensures Inv(Born(s, i0, name, child))
  {
    var s' := Born(s, i0, name, child);
    BornKeepsSlots(s, i0, name, child);
    BornKeepsThreads(s, i0, name, child);
    OccupiedUpdate(s.t.slots, i0, s'.t.slots[i0]);
  }

  lemma CreateBeginKeeps(s: State, tid: nat)
    requires Inv(s) && tid in s.threads && s.threads[tid].pc.User? && s.threads[tid].home.Some?
    requires s.threads[tid].home.value.slot < |s.t.slots|
    ensures Inv(Moved(s.(t := AuxStarted(s.t, s.threads[tid].home.value.slot)), tid, Creating))
  {
    var i0 := s.threads[tid].home.value.slot;
    var s' := Moved(s.(t := AuxStarted(s.t, i0)), tid, Creating);
    assert ThreadInv(s, tid) && SlotInv(s, i0);
    CountUpdate(s.threads, tid, s'.threads[tid], i0);
    UpdateKeeps(s, s', i0, tid);
  }

  /** The decrement, by whichever thread owes one: lines 96 and 184. */
  lemma DecrementKeeps(s: State, tid: nat, pc: Pc)
    requires Inv(s) && tid in s.threads && Attached(s.threads[tid])
    requires (s.threads[tid].pc.Creating? && pc == User)
      || (!s.threads[tid].isMain && !s.threads[tid].pc.Creating? && pc == Ending)
    ensures Inv(Moved(s.(t := AuxEnded(s.t, s.threads[tid].home.value.slot)), tid, pc))
  {
    var i0 := s.threads[tid].home.value.slot;
    var s' := Moved(s.(t := AuxEnded(s.t, i0)), tid, pc);
    assert ThreadInv(s, tid) && SlotInv(s, i0);
    CountedIsPositive(s, tid);
    CountUpdate(s.threads, tid, s'.threads[tid], i0);
    UpdateKeeps(s, s', i0, tid);
  }

  lemma ForkKeepsSlots(s: State, tid: nat, child: nat)
    requires Inv(s) && tid in s.threads && s.threads[tid].pc.Creating? && HomeOk(s, tid) && child !in s.threads
    ensures var s' := ForkStep(s, tid, child, true); forall i :: 0 <= i < |s'.t.slots| ==> SlotInv(s', i)
  {
    var s' := ForkStep(s, tid, child, true);
    var mid := s.threads[tid := s.threads[tid].(pc := User)];
    assert ThreadInv(s, tid);
    forall i | 0 <= i < |s.t.slots| ensures SlotInv(s', i) {
      assert SlotInv(s, i);
      CountUpdate(s.threads, tid, mid[tid], i);
      CountUpdate(mid, child, s'.threads[child], i);
    }
  }

  lemma ForkKeepsThread(s: State, tid: nat, child: nat, u: nat)
    requires tid in s.threads && s.threads[tid].pc.Creating? && HomeOk(s, tid) && child !in s.threads
    requires u in s.threads && ThreadInv(s, tid) && ThreadInv(s, u)
    ensures ThreadInv(ForkStep(s, tid, child, true), u)
  {
  }

  lemma ForkKeepsThreads(s: State, tid: nat, child: nat)
    requires Inv(s) && tid in s.threads && s.threads[tid].pc.Creating? && HomeOk(s, tid) && child !in s.threads
    ensures var s' := ForkStep(s, tid, child, true); forall u :: u in s'.threads ==> ThreadInv(s', u)
  {
    var s' := ForkStep(s, tid, child, true);
    assert ThreadInv(s, tid) && SlotInv(s, s.threads[tid].home.value.slot);
    forall u | u in s'.threads && u != child ensures ThreadInv(s', u) {
      ForkKeepsThread(s, tid, child, u);
    }
  }

  lemma ForkKeeps(s: State, tid: nat, child: nat)
    requires Inv(s) && tid in s.threads && s.threads[tid].pc.Creating? && HomeOk(s, tid) && child !in s.threads
    ensures Inv(ForkStep(s, tid, child, true))
  {
    ForkKeepsSlots(s, tid, child);
    ForkKeepsThreads(s, tid, child);
  }

  /** Recording an exit code touches neither counters nor threads. */
  ghost function Recorded(s: State, tid: nat, code: int): State
    requires tid in s.threads && s.threads[tid].home.Some? && s.threads[tid].home.value.slot < |s.t.slots|
  {
    var h := s.threads[tid].home.value;
    s.(t := ExitRequested(s.t, h.slot, code), exits := FirstExit(s.exits, h.pid, code))
  }

  lemma RecordedKeeps(s: State, tid: nat, code: int)
    requires Inv(s) && tid in s.threads && Attached(s.threads[tid]) && s.threads[tid].home.value.slot < |s.t.slots|
    ensures Inv(Recorded(s, tid, code)) && s.t.slots[s.threads[tid].home.value.slot].mainThread
      == Recorded(s, tid, code).t.slots[s.threads[tid].home.value.slot].mainThread
    ensures Recorded(s, tid, code).t.slots[s.threads[tid].home.value.slot].exitRequested
  {
    var h := s.threads[tid].home.value;
    var s' := Recorded(s, tid, code);
    assert ThreadInv(s, tid) && SlotInv(s, h.slot);
    UpdateKeeps(s, s', h.slot, tid);
  }

  lemma DrainKeeps(s: State, tid: nat)
    requires Inv(s) && tid in s.threads
    requires Attached(s.threads[tid]) && s.threads[tid].isMain && !s.threads[tid].pc.Creating?
    requires s.threads[tid].home.value.slot < |s.t.slots| && s.t.slots[s.threads[tid].home.value.slot].exitRequested
    ensures Inv(MainDrain(s, tid, s.threads[tid].home.value.slot))
  {
    var i0 := s.threads[tid].home.value.slot;
    var s' := MainDrain(s, tid, i0);
    assert ThreadInv(s, tid) && SlotInv(s, i0);
    CountUpdate(s.threads, tid, s'.threads[tid], i0);
    if s.t.slots[i0].auxThreads == 0 { OnlyMainLeft(s, i0); }
    UpdateKeeps(s, s', i0, tid);
  }

  lemma ExitKeeps(s: State, tid: nat, code: int)
    requires Inv(s) && tid in s.threads && Attached(s.threads[tid]) && !s.threads[tid].pc.Creating?
    ensures Inv(ThreadExit(s, tid, code))
  {
    var h := s.threads[tid].home.value;
    assert ThreadInv(s, tid);
    RecordedKeeps(s, tid, code);
    var r := Recorded(s, tid, code);
    if s.threads[tid].isMain {
      DrainKeeps(r, tid);
    } else {
      CountedIsPositive(r, tid);
      DecrementKeeps(r, tid, Ending);
    }
  }

  lemma WaitKeeps(s: State, tid: nat, pid: nat, i0: nat)
    requires Inv(s) && tid in s.threads && i0 < |s.t.slots| && Holds(s.t.slots[i0], pid)
    requires s.threads[tid].pc.User? || s.threads[tid].pc.Waiting?
    requires forall u :: u in s.threads && u != tid ==> WaitPid(s.threads[u].pc) != Some(pid)
    ensures Inv(WaitTest(s, tid, pid, i0))
  {
    var s' := WaitTest(s, tid, pid, i0);
    assert ThreadInv(s, tid) && SlotInv(s, i0);
    CountUpdate(s.threads, tid, s'.threads[tid], i0);
    UpdateKeeps(s, s', i0, tid);
  }

  lemma ReapKeepsSlots(s: State, tid: nat)
    requires Inv(s) && tid in s.threads && s.threads[tid].pc.Reaping? && s.threads[tid].pc.slot < |s.t.slots|
    ensures var s' := ReapStep(s, tid); forall i :: 0 <= i < |s'.t.slots| ==> SlotInv(s', i)
  {
    var s' := ReapStep(s, tid);
    assert ThreadInv(s, tid);
    forall i | 0 <= i < |s'.t.slots| ensures SlotInv(s', i) {
      assert SlotInv(s, i);
      CountUpdate(s.threads, tid, s'.threads[tid], i);
    }
  }

  lemma ReapKeepsThread(s: State, tid: nat, u: nat)
    requires tid in s.threads && s.threads[tid].pc.Reaping? && s.threads[tid].pc.slot < |s.t.slots|
    requires u in s.threads && ThreadInv(s, tid) && ThreadInv(s, u)
    requires u != tid && WaitPid(s.threads[u].pc).Some? ==> WaitPid(s.threads[u].pc) != WaitPid(s.threads[tid].pc)
    ensures ThreadInv(ReapStep(s, tid), u)
  {
  }

  lemma ReapKeepsThreads(s: State, tid: nat)
    requires Inv(s) && tid in s.threads && s.threads[tid].pc.Reaping? && s.threads[tid].pc.slot < |s.t.slots|
    ensures var s' := ReapStep(s, tid); forall u :: u in s'.threads ==> ThreadInv(s', u)
  {
    var s' := ReapStep(s, tid);
    forall u | u in s'.threads ensures ThreadInv(s', u) {
      ReapKeepsThread(s, tid, u);
    }
  }

  lemma ReapKeeps(s: State, tid: nat)
    requires Inv(s) && tid in s.threads && s.threads[tid].pc.Reaping? && s.threads[tid].pc.slot < |s.t.slots|
    ensures Inv(ReapStep(s, tid))
  {
    assert ThreadInv(s, tid);
    ReapKeepsSlots(s, tid);
    ReapKeepsThreads(s, tid);
    OccupiedUpdate(s.t.slots, s.threads[tid].pc.slot, ZERO_SLOT);
  }

  lemma SpawnKeeps(s: State, name: string, child: nat)
    requires Inv(s) && child !in s.threads && s.t.nextPid + 1 < PID_MODULUS
    ensures Inv(SpawnStep(s, name, child, true))
  {
    var i0 := FirstFree(s.t.slots);
    if i0 < |s.t.slots| {
      var b := Born(s, i0, name, child);
      assert SpawnStep(s, name, child, true) == b;
      BornKeeps(s, i0, name, child);
    }
  }

  lemma FailedSpawnKeeps(s: State, name: string, child: nat)
    requires Inv(s) && child !in s.threads && s.t.nextPid + 1 < PID_MODULUS
    ensures Inv(SpawnStep(s, name, child, false))
  {
    var i0 := FirstFree(s.t.slots);
    if i0 < |s.t.slots| {
      var f := s.(t := s.t.(nextPid := s.t.nextPid + 1, slots := s.t.slots[i0 := ZERO_SLOT]));
      assert SpawnStep(s, name, child, false) == f;
      SpawnFailedKeeps(s, i0);
    } else {
      assert SpawnStep(s, name, child, false) == s;
    }
  }

  predicate IsWaitStep(step: Step) {
    step.WaitBegin? || step.WaitCheck? || step.Join? || step.Reap?
  }

  predicate IsExitStep(step: Step) {
    step.Return? || step.Epilogue? || step.Exit? || step.DrainCheck? || step.End?
  }

  lemma WaitStepKeeps(s: State, step: Step)
    requires Inv(s) && Enabled(s, step) && Disciplined(s, step) && IsWaitStep(step)
    ensures Inv(Next(s, step))
  {
    assert ThreadInv(s, step.tid);
    match step
    case WaitBegin(tid, pid) =>
      if FindPid(s.t.slots, pid) < |s.t.slots| { WaitKeeps(s, tid, pid, FindPid(s.t.slots, pid)); }
    case WaitCheck(tid) => WaitKeeps(s, tid, s.threads[tid].pc.pid, s.threads[tid].pc.slot);
    case Join(tid) => MoveKeeps(s, tid, Reaping(s.threads[tid].pc.pid, s.threads[tid].pc.slot));
    case Reap(tid) => ReapKeeps(s, tid);
  }

  lemma ExitStepKeeps(s: State, step: Step)
    requires Inv(s) && Enabled(s, step) && Disciplined(s, step) && IsExitStep(step)
    ensures Inv(Next(s, step))
  {
    assert ThreadInv(s, step.tid);
    match step
    case Return(tid, code) => MoveKeeps(s, tid, Returned(code));
    case Epilogue(tid) =>
      if s.threads[tid].isMain { ExitKeeps(s, tid, s.threads[tid].pc.code); } else { DecrementKeeps(s, tid, Ending); }
    case Exit(tid, code) => ExitKeeps(s, tid, code);
    case DrainCheck(tid) => DrainKeeps(s, tid);
    case End(tid) => MoveKeeps(s, tid, Dead);
  }

  lemma CreateStepKeeps(s: State, step: Step)
    requires Inv(s) && Enabled(s, step) && Disciplined(s, step) && !IsWaitStep(step) && !IsExitStep(step)
    ensures Inv(Next(s, step))
  {
    assert !step.HostThread? ==> ThreadInv(s, step.tid);
    match step
    case HostThread(tid) => HostThreadKeeps(s, tid);
    case Spawn(_, name, child, created) =>
      if created { SpawnKeeps(s, name, child); } else { FailedSpawnKeeps(s, name, child); }
    case Start(tid) => MoveKeeps(s, tid, User);
    case CreateBegin(tid) => CreateBeginKeeps(s, tid);
    case CreateEnd(tid, child, created) =>
      if created { ForkKeeps(s, tid, child); } else { DecrementKeeps(s, tid, User); }
  }

  /** Every reachable state satisfies the invariant. */
  lemma {:induction false} RunKeeps(s: State, steps: seq<Step>, s': State)
    requires Inv(s) && Run(s, steps, s')
    ensures Inv(s')
    decreases |steps|
  {
    if steps != [] {
      var step := steps[0];
      if IsWaitStep(step) { WaitStepKeeps(s, step); }
      else if IsExitStep(step) { ExitStepKeeps(s, step); }
      else { CreateStepKeeps(s, step); }
      RunKeeps(Next(s, step), steps[1..], s');
    }
  }
}
