/** Locks and lifetimes of the display pipeline: every driver entry point, host callback and
    reader as a list of instructions, executed by any number of threads one instruction at a time. */
module DisplayLocks {

  import opened Wrappers

  /** Host(o) is the per-surface host_mutex. */
  datatype Lock = WinData | SurfaceList | Registry | Host(obj: nat) | Queue

  function Rank(l: Lock): nat {
    match l
    case WinData => 0
    case SurfaceList => 1
    case Registry => 2
    case Host(_) => 3
    case Queue => 4
  }

  datatype Instr =
    | Acquire(l: Lock)
    | Release(l: Lock)
    | Alloc(obj: nat)          // window_surface_create, calloc of host_bits, mutex init
    | Enlist(obj: nat)         // id = next_surface_id++, list_add_tail
    | Delist(obj: nat)         // list_remove
    | RegAdd(obj: nat)         // the body of cb_surface_added
    | RegUpdate(obj: nat)
    | RegRemove(obj: nat)
    | RegPlace(id: nat)        // the id may be stale
    | FindSurface(id: nat)     // find_surface in wine_display_copy_surface
    | FindHwnd(id: nat)        // the list walk of iosdrv_hwnd_from_surface_id
    | Write(obj: nat)          // the driver's copy into host_bits
    | Read(obj: nat)           // a reader's copy out of host_bits
    | Free(obj: nat)           // mutex_destroy, free
    | Local                    // touches only what the held locks guard
    | Bump                     // change_seq

  /** The calls.  `found` is filled in by find_surface. */
  datatype Op =
    | CreateSurface(obj: nat)           // IOSDRV_CreateWindowSurface
    | Flush(obj: nat, dump: bool)       // ios_window_surface_flush
    | DestroySurface(obj: nat)          // ios_window_surface_destroy
    | PosChanged(id: nat)               // IOSDRV_WindowPosChanged
    | WindowData                        // IOSDRV_WindowPosChanging, IOSDRV_DestroyWindow
    | SetText                           // IOSDRV_SetWindowText
    | HwndFromId(id: nat)               // iosdrv_hwnd_from_surface_id
    | ListOrTitle                       // wine_display_list_surfaces, wine_display_copy_title
    | CopySurface(id: nat, found: Option<nat>)
    | QueueCall                         // cb_next_event, enqueue

  function Code(op: Op): seq<Instr> {
    match op
    case CreateSurface(o) =>
      [Acquire(WinData), Alloc(o), Acquire(SurfaceList), Enlist(o), Release(SurfaceList),
       Acquire(Registry), RegAdd(o), Release(Registry), Bump, Release(WinData)]
    case Flush(o, dump) =>
      [Acquire(Host(o)), Write(o), Release(Host(o)), Acquire(Registry), RegUpdate(o), Release(Registry), Bump] +
      (if dump then [Acquire(Host(o)), Read(o), Release(Host(o))] else [])
    case DestroySurface(o) =>
      [Acquire(Registry), RegRemove(o), Release(Registry), Bump,
       Acquire(SurfaceList), Delist(o), Release(SurfaceList), Free(o)]
    case PosChanged(id) =>
      [Acquire(WinData), Local, Release(WinData), Acquire(Registry), RegPlace(id), Release(Registry), Bump]
    case WindowData => [Acquire(WinData), Local, Release(WinData)]
    case SetText => [Acquire(Registry), Local, Release(Registry), Bump]
    case HwndFromId(id) => [Acquire(SurfaceList), FindHwnd(id), Release(SurfaceList)]
    case ListOrTitle => [Acquire(Registry), Local, Release(Registry)]
    case CopySurface(id, None) => [Acquire(Registry), FindSurface(id), Release(Registry)]
    case CopySurface(id, Some(o)) =>
      [Acquire(Registry), FindSurface(id), Acquire(Host(o)), Read(o), Release(Host(o)), Release(Registry)]
    case QueueCall => [Acquire(Queue), Local, Release(Queue)]
  }

  function If(b: bool, l: Lock): set<Lock> { if b then {l} else {} }

  /** The locks a thread holds before instruction pc. */
  function Held(op: Op, pc: nat): set<Lock> {
    match op
    case CreateSurface(_) => If(1 <= pc <= 9, WinData) + If(3 <= pc <= 4, SurfaceList) + If(6 <= pc <= 7, Registry)
    case Flush(o, _) => If(1 <= pc <= 2 || 8 <= pc <= 9, Host(o)) + If(4 <= pc <= 5, Registry)
    case DestroySurface(_) => If(1 <= pc <= 2, Registry) + If(5 <= pc <= 6, SurfaceList)
    case PosChanged(_) => If(1 <= pc <= 2, WinData) + If(4 <= pc <= 5, Registry)
    case WindowData => If(1 <= pc <= 2, WinData)
    case SetText => If(1 <= pc <= 2, Registry)
    case HwndFromId(_) => If(1 <= pc <= 2, SurfaceList)
    case ListOrTitle => If(1 <= pc <= 2, Registry)
    case CopySurface(_, None) => If(1 <= pc <= 2, Registry)
    case CopySurface(_, Some(o)) => If(1 <= pc <= 5, Registry) + If(3 <= pc <= 4, Host(o))
    case QueueCall => If(1 <= pc <= 2, Queue)
  }

  /** The lock an instruction needs. */
  function Guard(i: Instr): Option<Lock> {
    match i
    case RegAdd(_) => Some(Registry)
    case RegUpdate(_) => Some(Registry)
    case RegRemove(_) => Some(Registry)
    case RegPlace(_) => Some(Registry)
    case FindSurface(_) => Some(Registry)
    case Enlist(_) => Some(SurfaceList)
    case Delist(_) => Some(SurfaceList)
    case FindHwnd(_) => Some(SurfaceList)
    case Write(o) => Some(Host(o))
    case Read(o) => Some(Host(o))
    case _ => None
  }

  /** The lock discipline of the whole program text: Held describes it, every acquisition goes up
      in rank, every access is guarded, no callback runs with a pixel lock held, and every entry
      point starts and returns with no lock. */
  lemma Discipline(op: Op, pc: nat)
    requires pc < |Code(op)|
    ensures Held(op, 0) == {} == Held(op, |Code(op)|)
    ensures var i := Code(op)[pc];
      && Held(op, pc + 1) == HeldAfter(Held(op, pc), i)
      && (i.Acquire? ==> i.l !in Held(op, pc))
      && (i.Acquire? ==> forall l :: l in Held(op, pc) ==> Rank(l) < Rank(i.l))
      && (i.Release? ==> i.l in Held(op, pc))
      && (Guard(i).Some? ==> Guard(i).value in Held(op, pc))
      && (i == Acquire(Registry) || i.Bump? ==> forall o :: Host(o) !in Held(op, pc))
  {
    match op
    case CreateSurface(_) =>
    case Flush(_, _) =>
    case DestroySurface(_) =>
    case CopySurface(_, _) =>
    case _ =>
  }

  // ---- the machine --------------------------------------------------------------------------

  datatype Thread = Thread(op: Op, pc: nat, held: set<Lock>)

  datatype Entry = Entry(obj: nat, updates: nat, places: nat)

  /** `ready`: creation has returned and destruction has not begun.  `busy`: the driver call in
      progress on a surface (win32u serialises calls on one surface). */
  datatype State = State(
    threads: map<nat, Thread>, owner: map<Lock, nat>,
    live: set<nat>, listed: set<nat>, registered: map<nat, Entry>, ids: map<nat, nat>, nextId: nat,
    born: set<nat>, ready: set<nat>, busy: map<nat, nat>)

  datatype Step = Start(t: nat, op: Op) | Run(t: nat, room: bool)

  function Surface(op: Op): Option<nat> {
    match op
    case CreateSurface(o) => Some(o)
    case Flush(o, _) => Some(o)
    case DestroySurface(o) => Some(o)
    case _ => None
  }

  predicate Blocked(s: State, t: nat) {
    t in s.threads && s.threads[t].pc < |Code(s.threads[t].op)| &&
    var i := Code(s.threads[t].op)[s.threads[t].pc];
    i.Acquire? && i.l in s.owner
  }

  predicate Enabled(s: State, step: Step) {
    match step
    case Start(t, op) =>
      && t !in s.threads
      && (match op
          case CreateSurface(o) => o !in s.born
          case Flush(o, _) => o in s.ready && o !in s.busy
          case DestroySurface(o) => o in s.ready && o !in s.busy
          case CopySurface(_, found) => found.None?
          case _ => true)
    case Run(t, _) => t in s.threads && s.threads[t].pc < |Code(s.threads[t].op)| && !Blocked(s, t)
  }

  function Begin(s: State, t: nat, op: Op): State {
    var s1 := s.(threads := s.threads[t := Thread(op, 0, {})]);
    match op
    case CreateSurface(o) => s1.(born := s.born + {o}, busy := s.busy[o := t])
    case Flush(o, _) => s1.(busy := s.busy[o := t])
    case DestroySurface(o) => s1.(busy := s.busy[o := t], ready := s.ready - {o})
    case _ => s1
  }

  /** The effect of one instruction on shared data; `room` is whether a registry slot was free. */
  function Effect(s: State, t: nat, i: Instr, room: bool): State {
    match i
    case Acquire(l) => s.(owner := s.owner[l := t])
    case Release(l) => s.(owner := s.owner - {l})
    case Alloc(o) => s.(live := s.live + {o})
    case Enlist(o) => s.(listed := s.listed + {o}, ids := s.ids[o := s.nextId], nextId := s.nextId + 1)
    case Delist(o) => s.(listed := s.listed - {o})
    case RegAdd(o) => if room && o in s.ids then s.(registered := s.registered[s.ids[o] := Entry(o, 0, 0)]) else s
    case RegUpdate(o) =>
      if o in s.ids && s.ids[o] in s.registered then
        s.(registered :=
           s.registered[s.ids[o] := s.registered[s.ids[o]].(updates := s.registered[s.ids[o]].updates + 1)])
      else s
    case RegRemove(o) => if o in s.ids then s.(registered := s.registered - {s.ids[o]}) else s
    case RegPlace(id) =>
      if id in s.registered
      then s.(registered := s.registered[id := s.registered[id].(places := s.registered[id].places + 1)])
      else s
    case Free(o) => s.(live := s.live - {o})
    case _ => s
  }

  /** find_surface decides how wine_display_copy_surface goes on. */
  function Resolved(s: State, op: Op, i: Instr): Op {
    match i
    case FindSurface(id) =>
      if op.CopySurface? && id in s.registered then op.(found := Some(s.registered[id].obj)) else op
    case _ => op
  }

  function HeldAfter(held: set<Lock>, i: Instr): set<Lock> {
    match i
    case Acquire(l) => held + {l}
    case Release(l) => held - {l}
    case _ => held
  }

  function MovedOn(s: State, t: nat, th: Thread): State {
    s.(threads := s.threads[t := th])
  }

  /** A call that returns gives up its surface; a created surface becomes ready. */
  function Returned(s: State, t: nat, op: Op): State {
    s.(threads := s.threads - {t},
       busy := if Surface(op).Some? then s.busy - {Surface(op).value} else s.busy,
       ready := if op.CreateSurface? then s.ready + {op.obj} else s.ready)
  }

  function Advance(s: State, t: nat, room: bool): State
    requires t in s.threads && s.threads[t].pc < |Code(s.threads[t].op)|
  {
    var th := s.threads[t];
    var i := Code(th.op)[th.pc];
    var s1 := Effect(s, t, i, room);
    var op := Resolved(s, th.op, i);
    if th.pc + 1 < |Code(op)| then MovedOn(s1, t, Thread(op, th.pc + 1, HeldAfter(th.held, i)))
    else Returned(s1, t, op)
  }

  function Next(s: State, step: Step): State
    requires Enabled(s, step)
  {
    match step
    case Start(t, op) => Begin(s, t, op)
    case Run(t, room) => Advance(s, t, room)
  }

  function Initial(): State {
    State(map[], map[], {}, {}, map[], map[], 1, {}, {}, map[])
  }

  ghost predicate Execution(s: State, steps: seq<Step>, s': State)
    decreases |steps|
  {
    if steps == [] then s' == s else Enabled(s, steps[0]) && Execution(Next(s, steps[0]), steps[1..], s')
  }

  // ---- the invariant ------------------------------------------------------------------------

  /** Owners and holders agree, so each lock has one holder. */
  ghost predicate OwnersOk(s: State) {
    && (forall t, l :: t in s.threads && l in s.threads[t].held ==> l in s.owner && s.owner[l] == t)
    && (forall l :: l in s.owner ==> s.owner[l] in s.threads && l in s.threads[s.owner[l]].held)
  }

  /** A thread holds what the program text says it holds at its program counter. */
  ghost predicate PcOk(th: Thread) {
    th.pc < |Code(th.op)| && th.held == Held(th.op, th.pc)
  }

  ghost predicate LocksOk(s: State) {
    OwnersOk(s) && forall t :: t in s.threads ==> PcOk(s.threads[t])
  }

  lemma StartPcOk(op: Op)
    ensures PcOk(Thread(op, 0, {}))
  {
  }

  lemma OwnersAfterStart(s: State, s': State, t: nat, th: Thread)
    requires OwnersOk(s) && t !in s.threads && th.held == {}
    requires s'.threads == s.threads[t := th] && s'.owner == s.owner
    ensures OwnersOk(s')
  {
  }

  lemma LocksAfterStart(s: State, s': State, t: nat, th: Thread)
    requires LocksOk(s) && t !in s.threads && th.held == {} && PcOk(th)
    requires s'.threads == s.threads[t := th] && s'.owner == s.owner
    ensures LocksOk(s')
  {
    OwnersAfterStart(s, s', t, th);
    forall u | u in s'.threads ensures PcOk(s'.threads[u]) {
      assert u != t ==> PcOk(s.threads[u]);
    }
  }

  /** Finding the surface changes neither the locks held so far nor the code run so far. */
  lemma ResolvedSame(s: State, op: Op, pc: nat)
    requires pc < |Code(op)|
    ensures var op' := Resolved(s, op, Code(op)[pc]);
      && pc < |Code(op')| && Code(op')[pc] == Code(op)[pc] && Held(op', pc) == Held(op, pc)
      && Held(op', pc + 1) == Held(op, pc + 1) && Surface(op') == Surface(op)
  {
  }

  lemma EffectOnOwners(s: State, t: nat, i: Instr, room: bool)
    ensures Effect(s, t, i, room).threads == s.threads
    ensures Effect(s, t, i, room).owner ==
      match i case Acquire(l) => s.owner[l := t] case Release(l) => s.owner - {l} case _ => s.owner
  {
  }

  lemma OwnersAfterRun(s: State, s': State, t: nat, i: Instr)
    requires OwnersOk(s) && t in s.threads
    requires i.Acquire? ==> i.l !in s.owner
    requires i.Release? ==> i.l in s.threads[t].held
    requires s'.owner == match i case Acquire(l) => s.owner[l := t] case Release(l) => s.owner - {l} case _ => s.owner
    requires (t in s'.threads && s'.threads == s.threads[t := s'.threads[t]]
              && s'.threads[t].held == HeldAfter(s.threads[t].held, i))
      || (s'.threads == s.threads - {t} && HeldAfter(s.threads[t].held, i) == {})
    ensures OwnersOk(s')
  {
    forall u, l | u in s'.threads && l in s'.threads[u].held ensures l in s'.owner && s'.owner[l] == u {
      if u == t {
        assert l in HeldAfter(s.threads[t].held, i);
      } else {
        assert s'.threads[u] == s.threads[u] && s.owner[l] == u;
      }
    }
    forall l | l in s'.owner ensures s'.owner[l] in s'.threads && l in s'.threads[s'.owner[l]].held {
      assert l in s.owner || i == Acquire(l);
      if l in s.owner && s.owner[l] == t { assert l in HeldAfter(s.threads[t].held, i); }
    }
  }

  /** The locks held after an instruction are those the text says, none after the last. */
  lemma HeldGoesOn(s: State, th: Thread)
    requires PcOk(th)
    ensures var i := Code(th.op)[th.pc]; var op := Resolved(s, th.op, i);
      && th.pc + 1 <= |Code(op)| && HeldAfter(th.held, i) == Held(op, th.pc + 1)
      && (th.pc + 1 == |Code(op)| ==> HeldAfter(th.held, i) == {})
  {
    Discipline(th.op, th.pc);
    ResolvedSame(s, th.op, th.pc);
    Discipline(Resolved(s, th.op, Code(th.op)[th.pc]), th.pc);
  }

  lemma ThreadsAfterRun(s: State, t: nat, room: bool)
    requires t in s.threads && PcOk(s.threads[t])
    ensures var th := s.threads[t]; var i := Code(th.op)[th.pc]; var s' := Advance(s, t, room);
      var op := Resolved(s, th.op, i);
      if th.pc + 1 < |Code(op)| then
        s'.threads == s.threads[t := Thread(op, th.pc + 1, HeldAfter(th.held, i))] && PcOk(s'.threads[t])
      else s'.threads == s.threads - {t} && HeldAfter(th.held, i) == {}
    ensures Advance(s, t, room).owner == Effect(s, t, Code(s.threads[t].op)[s.threads[t].pc], room).owner
  {
    var th := s.threads[t];
    HeldGoesOn(s, th);
    EffectOnOwners(s, t, Code(th.op)[th.pc], room);
  }

  lemma LocksAfterRun(s: State, t: nat, room: bool)
    requires LocksOk(s) && t in s.threads && !Blocked(s, t)
    ensures LocksOk(Advance(s, t, room))
  {
    var th := s.threads[t];
    assert PcOk(th);
    var i := Code(th.op)[th.pc];
    Discipline(th.op, th.pc);
    EffectOnOwners(s, t, i, room);
    ThreadsAfterRun(s, t, room);
    OwnersAfterRun(s, Advance(s, t, room), t, i);
  }

  // ---- deadlock freedom ---------------------------------------------------------------------

  /** Follow the owner of the lock each blocked thread wants: ranks go up, so the chain ends. */
  lemma {:induction false} Runnable(s: State, t: nat) returns (u: nat)
    requires LocksOk(s) && t in s.threads
    ensures u in s.threads && !Blocked(s, u)
    decreases if Blocked(s, t) then 5 - Rank(Code(s.threads[t].op)[s.threads[t].pc].l) else 0
  {
    if !Blocked(s, t) {
      u := t;
    } else {
      var l := Code(s.threads[t].op)[s.threads[t].pc].l;
      var o := s.owner[l];
      assert PcOk(s.threads[o]);
      Discipline(s.threads[o].op, s.threads[o].pc);
      u := Runnable(s, o);
    }
  }

  // ---- lifetimes ----------------------------------------------------------------------------

  /** What a thread's program counter says about the surface it works on. */
  ghost predicate Mine(s: State, t: nat, th: Thread) {
    match th.op
    case CreateSurface(o) =>
      && o in s.busy && s.busy[o] == t && o in s.born && o !in s.ready
      && (th.pc >= 2 <==> o in s.live) && (th.pc >= 4 <==> o in s.listed) && (th.pc >= 4 <==> o in s.ids)
      && (th.pc < 7 && o in s.ids ==> s.ids[o] !in s.registered)
    case Flush(o, _) => o in s.busy && s.busy[o] == t && o in s.ready
    case DestroySurface(o) =>
      && o in s.busy && s.busy[o] == t && o in s.born && o !in s.ready && o in s.live && o in s.ids
      && (th.pc < 6 <==> o in s.listed)
      && (th.pc >= 2 ==> s.ids[o] !in s.registered)
    case CopySurface(id, Some(o)) => th.pc >= 2 && id in s.registered && s.registered[id].obj == o
    case _ => true
  }

  /** Registered surfaces are listed, listed ones are allocated, ids are unique for ever. */
  ghost predicate Nested(s: State) {
    && (forall id :: id in s.registered ==>
          var o := s.registered[id].obj; o in s.listed && o in s.ids && s.ids[o] == id)
    && s.listed <= s.live <= s.born
    && (forall o :: o in s.ids ==> o in s.born && s.ids[o] < s.nextId)
    && (forall o, p :: o in s.ids && p in s.ids && o != p ==> s.ids[o] != s.ids[p])
    && (forall o :: o in s.ready ==> o in s.listed && o in s.ids)
  }

  ghost predicate BusyOk(s: State) {
    forall o :: o in s.busy ==> s.busy[o] in s.threads && Surface(s.threads[s.busy[o]].op) == Some(o)
  }

  ghost predicate Inv(s: State) {
    && LocksOk(s) && Nested(s) && BusyOk(s)
    && (forall t :: t in s.threads ==> Mine(s, t, s.threads[t]))
  }

  /** Where each instruction on a surface stands in the program text. */
  predicate Placed(op: Op, pc: nat, i: Instr) {
    match i
    case Alloc(o) => op == CreateSurface(o) && pc == 1
    case Enlist(o) => op == CreateSurface(o) && pc == 3
    case RegAdd(o) => op == CreateSurface(o) && pc == 6
    case RegUpdate(o) => op.Flush? && op.obj == o
    case RegRemove(o) => op == DestroySurface(o) && pc == 1
    case Delist(o) => op == DestroySurface(o) && pc == 5
    case Free(o) => op == DestroySurface(o) && pc == 7
    case Write(o) => op.Flush? && op.obj == o
    case Read(o) => (op.Flush? && op.obj == o) || (op.CopySurface? && op.found == Some(o))
    case FindSurface(id) => op.CopySurface? && op.id == id && pc == 1
    case Acquire(Host(o)) => (op.Flush? && op.obj == o) || (op.CopySurface? && op.found == Some(o))
    case Release(Host(o)) => (op.Flush? && op.obj == o) || (op.CopySurface? && op.found == Some(o))
    case _ => true
  }

  lemma Where(op: Op, pc: nat)
    requires pc < |Code(op)|
    ensures Placed(op, pc, Code(op)[pc])
  {
  }

  predicate OnRegistry(i: Instr) {
    i.RegAdd? || i.RegUpdate? || i.RegRemove? || i.RegPlace?
  }

  lemma RegistryEffectKeepsNested(s: State, t: nat, i: Instr, room: bool)
    requires Nested(s) && OnRegistry(i)
    requires i.RegAdd? ==> i.obj in s.listed && i.obj in s.ids
    ensures Nested(Effect(s, t, i, room))
  {
  }

  lemma OtherEffectKeepsNested(s: State, t: nat, i: Instr, room: bool)
    requires Nested(s) && !OnRegistry(i)
    requires i.Alloc? ==> i.obj in s.born
    requires i.Enlist? ==> i.obj in s.live && i.obj !in s.ids
    requires i.Delist? ==> i.obj !in s.ready && i.obj in s.ids && s.ids[i.obj] !in s.registered
    requires i.Free? ==> i.obj !in s.listed
    ensures Nested(Effect(s, t, i, room))
  {
  }

  lemma EffectKeepsNested(s: State, t: nat, th: Thread, room: bool)
    requires Nested(s) && th.pc < |Code(th.op)| && Mine(s, t, th)
    ensures Nested(Effect(s, t, Code(th.op)[th.pc], room))
  {
    Where(th.op, th.pc);
    var i := Code(th.op)[th.pc];
    if OnRegistry(i) { RegistryEffectKeepsNested(s, t, i, room); } else { OtherEffectKeepsNested(s, t, i, room); }
  }

  /** A removal is made under the registry lock, which a reader keeps while it uses what it found. */
  lemma RemoveExcludesReader(s: State, t: nat, u: nat, i: Instr)
    requires t in s.threads && u in s.threads && t != u && OwnersOk(s)
    requires PcOk(s.threads[t]) && PcOk(s.threads[u]) && Mine(s, u, s.threads[u])
    requires i == Code(s.threads[t].op)[s.threads[t].pc] && i.RegRemove?
    ensures s.threads[u].op.CopySurface? ==> s.threads[u].op.found.None?
  {
    Where(s.threads[t].op, s.threads[t].pc);
    MutualExclusion(s, t, u, Registry);
  }

  /** A step of t keeps what another thread u relies on. */
  lemma EffectKeepsOther(s: State, t: nat, u: nat, i: Instr, room: bool, th: Thread, uh: Thread)
    requires Nested(s) && t != u && Mine(s, t, th) && Mine(s, u, uh) && Placed(th.op, th.pc, i)
    requires i.RegRemove? && uh.op.CopySurface? ==> uh.op.found.None?
    ensures Mine(Effect(s, t, i, room), u, uh)
  {
  }

  lemma EffectKeepsOthers(s: State, t: nat, u: nat, i: Instr, room: bool)
    requires Nested(s) && t in s.threads && u in s.threads && t != u
    requires PcOk(s.threads[t]) && PcOk(s.threads[u]) && OwnersOk(s)
    requires Mine(s, t, s.threads[t]) && Mine(s, u, s.threads[u]) && i == Code(s.threads[t].op)[s.threads[t].pc]
    ensures Mine(Effect(s, t, i, room), u, s.threads[u])
  {
    Where(s.threads[t].op, s.threads[t].pc);
    if i.RegRemove? { RemoveExcludesReader(s, t, u, i); }
    EffectKeepsOther(s, t, u, i, room, s.threads[t], s.threads[u]);
  }

  /** No two threads hold the same lock. */
  lemma MutualExclusion(s: State, t: nat, u: nat, l: Lock)
    requires OwnersOk(s) && t in s.threads && u in s.threads && t != u && l in s.threads[t].held
    ensures l !in s.threads[u].held
  {
    assert s.owner[l] == t;
  }

  lemma EffectAdvancesMine(s: State, t: nat, room: bool)
    requires Nested(s) && t in s.threads && PcOk(s.threads[t]) && Mine(s, t, s.threads[t])
    requires var th := s.threads[t]; th.pc + 1 < |Code(Resolved(s, th.op, Code(th.op)[th.pc]))|
    ensures var th := s.threads[t]; var i := Code(th.op)[th.pc];
      Mine(Effect(s, t, i, room), t, Thread(Resolved(s, th.op, i), th.pc + 1, HeldAfter(th.held, i)))
  {
    Where(s.threads[t].op, s.threads[t].pc);
  }

  lemma StartKeepsMine(s: State, t: nat, op: Op)
    requires Lives(s) && Enabled(s, Start(t, op))
    ensures var s' := Begin(s, t, op);
      Nested(s') && BusyOk(s') && forall u :: u in s'.threads ==> Mine(s', u, s'.threads[u])
  {
    var s' := Begin(s, t, op);
    forall u | u in s'.threads ensures Mine(s', u, s'.threads[u]) {
      if u != t { assert Mine(s, u, s.threads[u]); }
    }
  }

  lemma StartKeeps(s: State, t: nat, op: Op)
    requires Inv(s) && Enabled(s, Start(t, op))
    ensures Inv(Begin(s, t, op))
  {
    StartPcOk(op);
    BeginOwners(s, t, op);
    LocksAfterStart(s, Begin(s, t, op), t, Thread(op, 0, {}));
    StartKeepsMine(s, t, op);
  }

  lemma BeginOwners(s: State, t: nat, op: Op)
    ensures Begin(s, t, op).threads == s.threads[t := Thread(op, 0, {})] && Begin(s, t, op).owner == s.owner
  {
  }

  lemma OthersKept(s: State, t: nat, i: Instr, room: bool)
    requires Lives(s) && LocksOk(s) && t in s.threads && PcOk(s.threads[t])
    requires i == Code(s.threads[t].op)[s.threads[t].pc]
    ensures forall u :: u in s.threads && u != t ==> Mine(Effect(s, t, i, room), u, s.threads[u])
  {
    forall u | u in s.threads && u != t ensures Mine(Effect(s, t, i, room), u, s.threads[u]) {
      EffectKeepsOthers(s, t, u, i, room);
    }
  }

  /** The effect of t's instruction, before t itself moves on. */
  ghost predicate EffectOk(s: State, t: nat, e: State) {
    && Nested(e) && BusyOk(e) && e.threads == s.threads
    && forall u :: u in e.threads && u != t ==> Mine(e, u, e.threads[u])
  }

  ghost predicate Lives(s: State) {
    Nested(s) && BusyOk(s) && forall u :: u in s.threads ==> Mine(s, u, s.threads[u])
  }

  lemma EffectIsOk(s: State, t: nat, i: Instr, room: bool)
    requires Lives(s) && LocksOk(s) && t in s.threads && PcOk(s.threads[t])
    requires i == Code(s.threads[t].op)[s.threads[t].pc]
    ensures EffectOk(s, t, Effect(s, t, i, room))
  {
    EffectKeepsNested(s, t, s.threads[t], room);
    EffectOnOwners(s, t, i, room);
    OthersKept(s, t, i, room);
    EffectKeepsBusy(s, t, i, room);
  }

  lemma AdvanceMoves(s: State, t: nat, room: bool, i: Instr, op: Op)
    requires t in s.threads && s.threads[t].pc < |Code(s.threads[t].op)| && i == Code(s.threads[t].op)[s.threads[t].pc]
    requires op == Resolved(s, s.threads[t].op, i) && s.threads[t].pc + 1 < |Code(op)|
    ensures Advance(s, t, room) ==
      MovedOn(Effect(s, t, i, room), t, Thread(op, s.threads[t].pc + 1, HeldAfter(s.threads[t].held, i)))
  {
  }

  lemma GoesOn(s: State, t: nat, room: bool)
    requires Lives(s) && LocksOk(s) && t in s.threads && PcOk(s.threads[t])
    requires var th := s.threads[t]; th.pc + 1 < |Code(Resolved(s, th.op, Code(th.op)[th.pc]))|
    ensures Lives(Advance(s, t, room))
  {
    var th := s.threads[t];
    var i := Code(th.op)[th.pc];
    var op := Resolved(s, th.op, i);
    EffectIsOk(s, t, i, room);
    ResolvedSame(s, th.op, th.pc);
    EffectAdvancesMine(s, t, room);
    AdvanceMoves(s, t, room, i, op);
    Moves(s, t, Effect(s, t, i, room), Thread(op, th.pc + 1, HeldAfter(th.held, i)));
  }

  lemma Finishes(s: State, t: nat, room: bool)
    requires Lives(s) && LocksOk(s) && t in s.threads && PcOk(s.threads[t])
    requires var th := s.threads[t]; th.pc + 1 == |Code(Resolved(s, th.op, Code(th.op)[th.pc]))|
    ensures Lives(Advance(s, t, room))
  {
    var th := s.threads[t];
    var i := Code(th.op)[th.pc];
    EffectIsOk(s, t, i, room);
    ResolvedSame(s, th.op, th.pc);
    LastEffect(s, t, room);
    Returns(Effect(s, t, i, room), Advance(s, t, room), t, Resolved(s, th.op, i));
  }

  lemma RunStepKeeps(s: State, t: nat, room: bool)
    requires Inv(s) && t in s.threads && !Blocked(s, t)
    ensures Inv(Advance(s, t, room))
  {
    LocksAfterRun(s, t, room);
    var th := s.threads[t];
    assert PcOk(th);
    ResolvedSame(s, th.op, th.pc);
    if th.pc + 1 < |Code(Resolved(s, th.op, Code(th.op)[th.pc]))| {
      GoesOn(s, t, room);
    } else {
      Finishes(s, t, room);
    }
  }

  /** Creation ends with the surface listed. */
  lemma LastEffect(s: State, t: nat, room: bool)
    requires t in s.threads && PcOk(s.threads[t]) && Mine(s, t, s.threads[t])
    requires var th := s.threads[t]; th.pc + 1 == |Code(th.op)|
    ensures var th := s.threads[t]; var e := Effect(s, t, Code(th.op)[th.pc], room);
      && (Surface(th.op).Some? ==> Surface(th.op).value in e.busy && e.busy[Surface(th.op).value] == t)
      && (th.op.CreateSurface? ==> th.op.obj in e.listed && th.op.obj in e.ids)
      && Resolved(s, th.op, Code(th.op)[th.pc]) == th.op
  {
  }

  lemma EffectKeepsBusy(s: State, t: nat, i: Instr, room: bool)
    ensures Effect(s, t, i, room).busy == s.busy && Effect(s, t, i, room).ready == s.ready
  {
  }

  lemma Moves(s: State, t: nat, e: State, th: Thread)
    requires EffectOk(s, t, e) && t in s.threads && Surface(th.op) == Surface(s.threads[t].op) && Mine(e, t, th)
    ensures Lives(MovedOn(e, t, th))
  {
    var s' := MovedOn(e, t, th);
    forall u | u in s'.threads ensures Mine(s', u, s'.threads[u]) {
      if u != t { assert Mine(e, u, e.threads[u]); } else { assert Mine(e, t, th); }
    }
  }

  lemma Returns(e: State, s': State, t: nat, op: Op)
    requires Nested(e) && BusyOk(e) && t in e.threads && Surface(op) == Surface(e.threads[t].op)
    requires Surface(op).Some? ==> Surface(op).value in e.busy && e.busy[Surface(op).value] == t
    requires op.CreateSurface? ==> op.obj in e.listed && op.obj in e.ids
    requires forall u :: u in e.threads && u != t ==> Mine(e, u, e.threads[u])
    requires s' == Returned(e, t, op)
    ensures Nested(s') && BusyOk(s') && forall u :: u in s'.threads ==> Mine(s', u, s'.threads[u])
  {
    forall u | u in s'.threads ensures Mine(s', u, s'.threads[u]) {
      assert Mine(e, u, e.threads[u]);
    }
  }

  lemma {:induction false} ExecutionKeeps(s: State, steps: seq<Step>, s': State)
    requires Inv(s) && Execution(s, steps, s')
    ensures Inv(s')
    decreases |steps|
  {
    if steps != [] {
      match steps[0] {
        case Start(t, op) => StartKeeps(s, t, op);
        case Run(t, room) => RunStepKeeps(s, t, room);
      }
      ExecutionKeeps(Next(s, steps[0]), steps[1..], s');
    }
  }

  // ---- theorems -----------------------------------------------------------------------------

  ghost predicate Reachable(s: State) {
    exists steps :: Execution(Initial(), steps, s)
  }

  lemma ReachableInv(s: State)
    requires Reachable(s)
    ensures Inv(s)
  {
    var steps :| Execution(Initial(), steps, s);
    ExecutionKeeps(Initial(), steps, s);
  }

  /** Deadlock freedom: while any call is in progress, some call can take its next step. */
  lemma DeadlockFree(s: State)
    requires Reachable(s) && s.threads != map[]
    ensures exists t, room :: Enabled(s, Run(t, room))
  {
    ReachableInv(s);
    var t :| t in s.threads;
    var u := Runnable(s, t);
    assert PcOk(s.threads[u]);
    assert Enabled(s, Run(u, true));
  }

  /** When no call is in progress, no lock is held: every entry point returns with none. */
  lemma NoLockLeaks(s: State)
    requires Reachable(s) && s.threads == map[]
    ensures s.owner == map[]
  {
    ReachableInv(s);
    assert s.owner.Keys == {};
  }

  /** Registered surfaces are on the driver's list, which holds only surfaces with live bits. */
  lemma NestedLifetimes(s: State, id: nat)
    requires Reachable(s)
    ensures id in s.registered ==> s.registered[id].obj in s.listed
    ensures s.listed <= s.live
  {
    ReachableInv(s);
  }

  /** A thread about to copy pixels, or to take or drop a pixel lock, finds bits and lock alive,
      and every access to pixels, registry or list is made by the one holder of its lock. */
  lemma PixelsAreLive(s: State, t: nat)
    requires Inv(s) && t in s.threads
    ensures s.threads[t].pc < |Code(s.threads[t].op)|
    ensures var i := Code(s.threads[t].op)[s.threads[t].pc];
      && (i.Read? || i.Write? ==> i.obj in s.live)
      && ((i.Acquire? || i.Release?) && i.l.Host? ==> i.l.obj in s.live)
      && (Guard(i).Some? ==> Guard(i).value in s.owner && s.owner[Guard(i).value] == t)
  {
    assert PcOk(s.threads[t]) && Mine(s, t, s.threads[t]);
    AccessIsLive(s, t, s.threads[t]);
    GuardIsOwned(s, t);
  }

  lemma GuardIsOwned(s: State, t: nat)
    requires OwnersOk(s) && t in s.threads && PcOk(s.threads[t])
    ensures var i := Code(s.threads[t].op)[s.threads[t].pc];
      Guard(i).Some? ==> Guard(i).value in s.owner && s.owner[Guard(i).value] == t
  {
    Discipline(s.threads[t].op, s.threads[t].pc);
  }

  lemma AccessIsLive(s: State, t: nat, th: Thread)
    requires Nested(s) && PcOk(th) && Mine(s, t, th)
    ensures var i := Code(th.op)[th.pc];
      && (i.Read? || i.Write? ==> i.obj in s.live)
      && ((i.Acquire? || i.Release?) && i.l.Host? ==> i.l.obj in s.live)
  {
    Where(th.op, th.pc);
  }

  lemma HoldsPixelLock(s: State, u: nat, th: Thread, o: nat)
    requires Nested(s) && PcOk(th) && Mine(s, u, th) && Host(o) in th.held
    ensures o in s.ready || exists id :: id in s.registered && s.registered[id].obj == o
    ensures Surface(th.op) == Some(o) || exists id :: id in s.registered && s.registered[id].obj == o
  {
  }

  /** When the bits are freed nobody holds the pixel lock and the host no longer knows them. */
  lemma FreeIsSafe(s: State, t: nat, o: nat)
    requires Inv(s) && t in s.threads && s.threads[t] == Thread(DestroySurface(o), 7, {})
    ensures Host(o) !in s.owner
    ensures forall id :: id in s.registered ==> s.registered[id].obj != o
  {
    assert Mine(s, t, s.threads[t]);
    if Host(o) in s.owner {
      var u := s.owner[Host(o)];
      assert PcOk(s.threads[u]) && Mine(s, u, s.threads[u]);
      HoldsPixelLock(s, u, s.threads[u], o);
    }
  }

  /** The id a registry instruction works on. */
  function Target(s: State, i: Instr): Option<nat> {
    match i
    case RegPlace(id) => Some(id)
    case RegAdd(o) => if o in s.ids then Some(s.ids[o]) else None
    case RegUpdate(o) => if o in s.ids then Some(s.ids[o]) else None
    case RegRemove(o) => if o in s.ids then Some(s.ids[o]) else None
    case _ => None
  }

  /** No instruction touches the registry entry of an id other than its own. */
  lemma OnlyOwnEntry(s: State, t: nat, i: Instr, room: bool, id: nat)
    requires Target(s, i) != Some(id)
    ensures var s' := Effect(s, t, i, room);
      (id in s'.registered <==> id in s.registered) && (id in s.registered ==> s'.registered[id] == s.registered[id])
  {
  }

  /** A surface that was enlisted and freed. */
  predicate Freed(s: State, o: nat) {
    o in s.ids && o !in s.live && s.ids[o] !in s.registered
  }

  /** Its creation is over, so nobody will enlist or register it again. */
  lemma FreedIsNotCreated(s: State, t: nat, th: Thread, o: nat)
    requires Nested(s) && PcOk(th) && Mine(s, t, th) && Freed(s, o)
    ensures var i := Code(th.op)[th.pc]; i != RegAdd(o) && i != Enlist(o) && i != Alloc(o)
  {
    Where(th.op, th.pc);
  }

  lemma EffectKeepsFreed(s: State, t: nat, i: Instr, room: bool, o: nat)
    requires Nested(s) && Freed(s, o) && i != RegAdd(o) && i != Enlist(o) && i != Alloc(o)
    ensures Freed(Effect(s, t, i, room), o) && Effect(s, t, i, room).ids[o] == s.ids[o]
    ensures i == RegPlace(s.ids[o]) ==> Effect(s, t, i, room) == s
  {
  }

  lemma AdvanceData(s: State, t: nat, room: bool)
    requires t in s.threads && s.threads[t].pc < |Code(s.threads[t].op)|
    ensures var e := Effect(s, t, Code(s.threads[t].op)[s.threads[t].pc], room); var s' := Advance(s, t, room);
      s'.ids == e.ids && s'.live == e.live && s'.registered == e.registered
  {
  }

  /** Ids are never reused: once a surface is freed its id stays unregistered in every later state,
      so a late place, update, remove or copy with it touches no surface. */
  lemma {:induction false} StaleIdStaysGone(s: State, steps: seq<Step>, s': State, o: nat)
    requires Inv(s) && Execution(s, steps, s') && Freed(s, o)
    ensures Freed(s', o) && s'.ids[o] == s.ids[o]
    decreases |steps|
  {
    if steps != [] {
      match steps[0] {
        case Start(t, op) => StartKeeps(s, t, op);
        case Run(t, room) =>
          RunStepKeeps(s, t, room);
          assert PcOk(s.threads[t]) && Mine(s, t, s.threads[t]);
          FreedIsNotCreated(s, t, s.threads[t], o);
          EffectKeepsFreed(s, t, Code(s.threads[t].op)[s.threads[t].pc], room, o);
          AdvanceData(s, t, room);
      }
      StaleIdStaysGone(Next(s, steps[0]), steps[1..], s', o);
    }
  }

  // ---- what each call does -------------------------------------------------------------------

  /** The registry with one more update, or one more placing, of id. */
  ghost predicate Touched(r: map<nat, Entry>, r': map<nat, Entry>, id: nat, updates: nat, places: nat) {
    && r'.Keys == r.Keys
    && (forall j :: j in r && j != id ==> r'[j] == r[j])
    && (id in r ==> r'[id] == Entry(r[id].obj, r[id].updates + updates, r[id].places + places))
  }

  /** Registry, list, pixels and ids after the first pc instructions of a call that runs alone. */
  ghost predicate Data(s: State, s': State, op: Op, pc: nat, room: bool) {
    match op
    case CreateSurface(o) =>
      && s'.live == (if pc >= 2 then s.live + {o} else s.live)
      && s'.listed == (if pc >= 4 then s.listed + {o} else s.listed)
      && s'.ids == (if pc >= 4 then s.ids[o := s.nextId] else s.ids)
      && s'.nextId == (if pc >= 4 then s.nextId + 1 else s.nextId)
      && s'.registered == if pc >= 7 && room then s.registered[s.nextId := Entry(o, 0, 0)] else s.registered
    case Flush(o, _) =>
      && SameLists(s, s') && o in s.ids && Touched(s.registered, s'.registered, s.ids[o], if pc >= 5 then 1 else 0, 0)
    case DestroySurface(o) =>
      && s'.ids == s.ids && s'.nextId == s.nextId && o in s.ids
      && s'.live == (if pc >= 8 then s.live - {o} else s.live)
      && s'.listed == (if pc >= 6 then s.listed - {o} else s.listed)
      && s'.registered == if pc >= 2 then s.registered - {s.ids[o]} else s.registered
    case PosChanged(id) => SameLists(s, s') && Touched(s.registered, s'.registered, id, 0, if pc >= 5 then 1 else 0)
    case _ => SameLists(s, s') && s'.registered == s.registered
  }

  ghost predicate SameLists(s: State, s': State) {
    s'.live == s.live && s'.listed == s.listed && s'.ids == s.ids && s'.nextId == s.nextId
  }

  lemma CreateCode(o: nat, pc: nat)
    requires pc < 10
    ensures var i := Code(CreateSurface(o))[pc];
      if pc == 1 then i == Alloc(o) else if pc == 3 then i == Enlist(o) else if pc == 6 then i == RegAdd(o)
      else i.Acquire? || i.Release? || i.Bump?
  {
  }

  lemma CreateMoves(s: State, s': State, o: nat, pc: nat, room: bool, t: nat, i: Instr)
    requires Data(s, s', CreateSurface(o), pc, room)
    requires if pc == 1 then i == Alloc(o) else if pc == 3 then i == Enlist(o) else if pc == 6 then i == RegAdd(o)
      else i.Acquire? || i.Release? || i.Bump?
    ensures Data(s, Effect(s', t, i, room), CreateSurface(o), pc + 1, room)
  {
  }

  lemma FlushMoves(s: State, s': State, o: nat, dump: bool, pc: nat, room: bool, t: nat)
    requires Data(s, s', Flush(o, dump), pc, room) && pc < |Code(Flush(o, dump))|
    ensures Data(s, Effect(s', t, Code(Flush(o, dump))[pc], room), Flush(o, dump), pc + 1, room)
  {
  }

  lemma DestroyMoves(s: State, s': State, o: nat, pc: nat, room: bool, t: nat)
    requires Data(s, s', DestroySurface(o), pc, room) && pc < 8
    ensures Data(s, Effect(s', t, Code(DestroySurface(o))[pc], room), DestroySurface(o), pc + 1, room)
  {
  }

  lemma PlaceMoves(s: State, s': State, id: nat, pc: nat, room: bool, t: nat)
    requires Data(s, s', PosChanged(id), pc, room) && pc < 7
    ensures Data(s, Effect(s', t, Code(PosChanged(id))[pc], room), PosChanged(id), pc + 1, room)
  {
  }

  lemma OtherMoves(s: State, s': State, op: Op, pc: nat, room: bool, t: nat)
    requires Data(s, s', op, pc, room) && pc < |Code(op)| && !op.CopySurface? && Surface(op).None? && !op.PosChanged?
    ensures Data(s, Effect(s', t, Code(op)[pc], room), op, pc + 1, room)
  {
  }

  lemma DataMoves(s: State, s': State, op: Op, pc: nat, room: bool, t: nat)
    requires Data(s, s', op, pc, room) && pc < |Code(op)| && !op.CopySurface?
    ensures Data(s, Effect(s', t, Code(op)[pc], room), op, pc + 1, room)
  {
    match op
    case CreateSurface(o) =>
      CreateCode(o, pc);
      CreateMoves(s, s', o, pc, room, t, Code(op)[pc]);
    case Flush(o, dump) => FlushMoves(s, s', o, dump, pc, room, t);
    case DestroySurface(o) => DestroyMoves(s, s', o, pc, room, t);
    case PosChanged(id) => PlaceMoves(s, s', id, pc, room, t);
    case _ => OtherMoves(s, s', op, pc, room, t);
  }

  lemma DataSame(s: State, a: State, b: State, op: Op, pc: nat, room: bool)
    requires Data(s, a, op, pc, room) && SameLists(a, b) && b.registered == a.registered
    ensures Data(s, b, op, pc, room)
  {
  }

  /** The surfaces that may be flushed, once op has begun and once it has returned. */
  function ReadyAfter(ready: set<nat>, op: Op, returned: bool): set<nat> {
    match op
    case CreateSurface(o) => if returned then ready + {o} else ready
    case DestroySurface(o) => ready - {o}
    case _ => ready
  }

  /** A call by t, alone, before its instruction pc. */
  ghost predicate Alone(s: State, s': State, t: nat, op: Op, pc: nat, room: bool) {
    && Inv(s') && s'.threads.Keys == {t} && s'.threads[t].op == op && s'.threads[t].pc == pc && !op.CopySurface?
    && Data(s, s', op, pc, room) && s'.ready == ReadyAfter(s.ready, op, false)
  }

  /** A call that has run alone to its end. */
  ghost predicate CallDone(s: State, s': State, op: Op, room: bool) {
    && Inv(s') && s'.threads == map[] && s'.owner == map[]
    && Data(s, s', op, |Code(op)|, room) && s'.ready == ReadyAfter(s.ready, op, true)
  }

  /** Nothing blocks a thread that is alone. */
  lemma AloneRuns(s: State, s': State, t: nat, op: Op, pc: nat, room: bool)
    requires Alone(s, s', t, op, pc, room)
    ensures Enabled(s', Run(t, room))
  {
    assert PcOk(s'.threads[t]);
    Discipline(op, pc);
    assert forall l :: l in s'.owner ==> l in s'.threads[t].held;
  }

  lemma AdvanceDataIs(s: State, t: nat, room: bool, op: Op, i: Instr)
    requires t in s.threads && s.threads[t].pc < |Code(op)| && op == s.threads[t].op && !op.CopySurface?
    requires i == Code(op)[s.threads[t].pc]
    ensures var n, e := Advance(s, t, room), Effect(s, t, i, room);
      && SameLists(e, n) && n.registered == e.registered && Resolved(s, op, i) == op
      && n.ready == if s.threads[t].pc + 1 < |Code(op)| || !op.CreateSurface? then s.ready else s.ready + {op.obj}
  {
  }

  lemma AloneData(s: State, s': State, t: nat, op: Op, pc: nat, room: bool, n: State)
    requires Alone(s, s', t, op, pc, room) && pc < |Code(op)| && n == Advance(s', t, room)
    ensures Data(s, n, op, pc + 1, room) && n.ready == ReadyAfter(s.ready, op, pc + 1 >= |Code(op)|)
  {
    var i := Code(op)[pc];
    DataMoves(s, s', op, pc, room, t);
    AdvanceDataIs(s', t, room, op, i);
    DataSame(s, Effect(s', t, i, room), n, op, pc + 1, room);
  }

  lemma AloneThreads(s: State, t: nat, op: Op, pc: nat, room: bool, n: State)
    requires t in s.threads && PcOk(s.threads[t]) && s.threads[t].op == op && s.threads[t].pc == pc && !op.CopySurface?
    requires n == Advance(s, t, room) && s.threads.Keys == {t}
    ensures if pc + 1 < |Code(op)| then n.threads.Keys == {t} && n.threads[t].op == op && n.threads[t].pc == pc + 1
      else n.threads == map[]
  {
    AdvanceDataIs(s, t, room, op, Code(op)[pc]);
    ThreadsAfterRun(s, t, room);
  }

  lemma AloneMoves(s: State, s': State, t: nat, op: Op, pc: nat, room: bool, n: State)
    requires Alone(s, s', t, op, pc, room) && Enabled(s', Run(t, room)) && n == Next(s', Run(t, room))
    ensures if pc + 1 < |Code(op)| then Alone(s, n, t, op, pc + 1, room) else CallDone(s, n, op, room)
  {
    RunStepKeeps(s', t, room);
    AloneData(s, s', t, op, pc, room, n);
    assert PcOk(s'.threads[t]);
    AloneThreads(s', t, op, pc, room, n);
    if pc + 1 >= |Code(op)| {
      NoOwners(n);
      HeldGoesOn(s', s'.threads[t]);
      AdvanceDataIs(s', t, room, op, Code(op)[pc]);
    }
  }

  lemma NoOwners(s: State)
    requires OwnersOk(s) && s.threads == map[]
    ensures s.owner == map[]
  {
    assert s.owner.Keys == {};
  }

  lemma AloneStep(s: State, s': State, t: nat, op: Op, pc: nat, room: bool) returns (n: State)
    requires Alone(s, s', t, op, pc, room)
    ensures Enabled(s', Run(t, room)) && n == Next(s', Run(t, room))
    ensures if pc + 1 < |Code(op)| then Alone(s, n, t, op, pc + 1, room) else CallDone(s, n, op, room)
  {
    AloneRuns(s, s', t, op, pc, room);
    n := Next(s', Run(t, room));
    AloneMoves(s, s', t, op, pc, room, n);
  }

  lemma {:induction false} AloneFinishes(s: State, s': State, t: nat, op: Op, pc: nat, room: bool)
    returns (steps: seq<Step>, s'': State)
    requires Alone(s, s', t, op, pc, room)
    ensures Execution(s', steps, s'') && CallDone(s, s'', op, room)
    decreases |Code(op)| - pc
  {
    var n := AloneStep(s, s', t, op, pc, room);
    if pc + 1 < |Code(op)| {
      steps, s'' := AloneFinishes(s, n, t, op, pc + 1, room);
    } else {
      steps, s'' := [], n;
    }
    Prepend(s', Run(t, room), steps, s'');
    steps := [Run(t, room)] + steps;
  }

  lemma Prepend(s: State, step: Step, steps: seq<Step>, s': State)
    requires Enabled(s, step) && Execution(Next(s, step), steps, s')
    ensures Execution(s, [step] + steps, s')
  {
    assert ([step] + steps)[1..] == steps;
  }

  lemma AloneStarts(s: State, t: nat, op: Op, room: bool)
    requires Inv(s) && s.threads == map[] && Enabled(s, Start(t, op)) && !op.CopySurface?
    ensures Alone(s, Begin(s, t, op), t, op, 0, room)
  {
    StartKeeps(s, t, op);
  }

  /** What a call does from start to end when nothing else runs.  With a free registry slot a created
      surface has bits, is listed, and is registered under a fresh id; a flush adds one update and a
      placing one placing to its surface's entry and nothing to others'; a destroyed surface is
      unregistered, off the list and freed.  Every call returns with no lock held. */
  lemma LoneCall(s: State, t: nat, op: Op, room: bool) returns (steps: seq<Step>, s': State)
    requires Reachable(s) && s.threads == map[] && Enabled(s, Start(t, op)) && !op.CopySurface?
    ensures Execution(s, steps, s') && s'.threads == map[] && s'.owner == map[]
    ensures op.CreateSurface? ==>
      && s'.live == s.live + {op.obj} && s'.listed == s.listed + {op.obj} && s'.ready == s.ready + {op.obj}
      && s'.ids == s.ids[op.obj := s.nextId] && s'.nextId == s.nextId + 1
      && s'.registered == if room then s.registered[s.nextId := Entry(op.obj, 0, 0)] else s.registered
    ensures op.Flush? ==> op.obj in s.ids && Touched(s.registered, s'.registered, s.ids[op.obj], 1, 0)
    ensures op.PosChanged? ==> Touched(s.registered, s'.registered, op.id, 0, 1)
    ensures op.DestroySurface? ==>
      && op.obj in s.ids && s'.registered == s.registered - {s.ids[op.obj]} && s'.listed == s.listed - {op.obj}
      && s'.live == s.live - {op.obj} && s'.ready == s.ready - {op.obj}
    ensures !op.CreateSurface? && !op.DestroySurface? ==> SameLists(s, s') && s'.ready == s.ready
  {
    ReachableInv(s);
    AloneStarts(s, t, op, room);
    steps, s' := AloneFinishes(s, Begin(s, t, op), t, op, 0, room);
    Prepend(s, Start(t, op), steps, s');
    steps := [Start(t, op)] + steps;
  }
}
