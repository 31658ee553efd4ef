/** The slot table of the pseudo-process layer (native/pseudoproc/pproc.c): the part of the
    global `g` guarded by `g.lock`.

    Each function below is one critical section of the C file, on a value; the class at the end
    performs the same sections in place, with the source's scan loops.  A condition variable is
    modelled by the number of broadcasts it has received: a thread that started waiting at count
    n has been woken exactly when the count has moved past n. */
module PprocTable {

  import opened Wrappers

  const MAX_PPROCS: nat := 256
  const PID_MODULUS: nat := 0x1_0000_0000
  const INVALID_PID: nat := 0

  datatype SlotState = SlotFree | Running | Exited

  /** struct pproc, less argv and the entry pointer. */
  datatype Slot = Slot(
    pid: nat, name: string, mainThread: nat, state: SlotState,
    exitCode: int, exitRequested: bool, auxThreads: int, auxDone: nat)

  const ZERO_SLOT := Slot(0, "", 0, SlotFree, 0, false, 0, 0)

  datatype Table = Table(slots: seq<Slot>, nextPid: nat, live: int, stateChanged: nat)

  // ---- searches -----------------------------------------------------------------------------

  /** The index pproc_spawn picks: the first free slot, or |slots| when there is none. */
  function FirstFree(slots: seq<Slot>): (i: nat)
    ensures i <= |slots|
    ensures i < |slots| ==> slots[i].state.SlotFree?
    ensures forall k :: 0 <= k < i ==> !slots[k].state.SlotFree?
  {
    if slots == [] then 0
    else if slots[0].state.SlotFree? then 0
    else 1 + FirstFree(slots[1..])
  }

  predicate Holds(slot: Slot, pid: nat) {
    !slot.state.SlotFree? && slot.pid == pid
  }

  /** find_locked: the first occupied slot with this pid, or |slots|. */
  function FindPid(slots: seq<Slot>, pid: nat): (i: nat)
    ensures i <= |slots|
    ensures i < |slots| ==> Holds(slots[i], pid)
    ensures forall k :: 0 <= k < i ==> !Holds(slots[k], pid)
  {
    if slots == [] then 0
    else if Holds(slots[0], pid) then 0
    else 1 + FindPid(slots[1..], pid)
  }

  ghost function Occupied(slots: seq<Slot>): set<nat> {
    set i: nat | i < |slots| && !slots[i].state.SlotFree?
  }

  // ---- critical sections --------------------------------------------------------------------

  /** The slot an accepted pproc_spawn fills in (lines 129-139). */
  function FreshSlot(pid: nat, name: string, mainThread: nat): Slot {
    Slot(pid, name, mainThread, Running, -1, false, 0, 0)
  }

  /** pproc_spawn, lines 119-152.  `created` says whether pthread_create succeeded. */
  function Spawned(t: Table, name: string, mainThread: nat, created: bool): (Table, Option<nat>) {
    var i := FirstFree(t.slots);
    if i == |t.slots| then (t, None)
    else
      var t' := t.(nextPid := (t.nextPid + 1) % PID_MODULUS);
      if created then
        (t'.(slots := t.slots[i := FreshSlot(t.nextPid, name, mainThread)], live := t.live + 1), Some(i))
      else (t'.(slots := t.slots[i := ZERO_SLOT]), None)
  }

  /** pproc_thread_create, line 178. */
  function AuxStarted(t: Table, i: nat): Table
    requires i < |t.slots|
  {
    t.(slots := t.slots[i := t.slots[i].(auxThreads := t.slots[i].auxThreads + 1)])
  }

  /** The decrement of aux_trampoline, line 96 (and of a failed pthread_create, line 184). */
  function AuxEnded(t: Table, i: nat): Table
    requires i < |t.slots|
  {
    var s := t.slots[i];
    var left := s.auxThreads - 1;
    t.(slots := t.slots[i := s.(auxThreads := left, auxDone := if left == 0 then s.auxDone + 1 else s.auxDone)])
  }

  /** First writer wins: lines 74-75 and 199-202. */
  function ExitRequested(t: Table, i: nat, code: int): Table
    requires i < |t.slots|
  {
    if t.slots[i].exitRequested then t
    else t.(slots := t.slots[i := t.slots[i].(exitRequested := true, exitCode := code)])
  }

  /** Lines 78-79 and 214-215. */
  function MarkedExited(t: Table, i: nat): Table
    requires i < |t.slots|
  {
    t.(slots := t.slots[i := t.slots[i].(state := Exited)], stateChanged := t.stateChanged + 1)
  }

  /** The auxiliary branch of pproc_exit, lines 199-202 and 216-218. */
  function AuxExited(t: Table, i: nat, code: int): Table
    requires i < |t.slots|
  {
    var t1 := ExitRequested(t, i, code);
    if t1.slots[i].auxThreads > 0 then AuxEnded(t1, i) else t1
  }

  /** pproc_wait, lines 250-254: free the slot and drop the live count. */
  function Reaped(t: Table, i: nat): Table
    requires i < |t.slots|
  {
    t.(slots := t.slots[i := ZERO_SLOT], live := t.live - 1)
  }

  // ---- the same sections in place -----------------------------------------------------------

  class PprocGlobals {
    const table: array<Slot>
    var nextPid: nat
    var live: int
    var stateChanged: nat

    ghost function Value(): Table
      reads this, table
    {
      Table(table[..], nextPid, live, stateChanged)
    }

    /** pproc_init on the zeroed static `g`. */
    constructor ()
      ensures fresh(table)
      ensures Value() == Table(seq(MAX_PPROCS, _ => ZERO_SLOT), 1, 0, 0)
    {
      table := new Slot[MAX_PPROCS](_ => ZERO_SLOT);
      nextPid, live, stateChanged := 1, 0, 0;
    }

    method FindLocked(pid: nat) returns (i: nat)
      ensures i == FindPid(table[..], pid)
    {
      i := 0;
      while i < table.Length
        invariant i <= table.Length
        invariant FindPid(table[..], pid) == i + FindPid(table[i..], pid)
      {
        if !table[i].state.SlotFree? && table[i].pid == pid {
          return;
        }
        assert table[i..][1..] == table[i + 1..];
        i := i + 1;
      }
    }

    method FindFree() returns (i: nat)
      ensures i == FirstFree(table[..])
    {
      i := 0;
      while i < table.Length
        invariant i <= table.Length
        invariant FirstFree(table[..]) == i + FirstFree(table[i..])
      {
        if table[i].state.SlotFree? {
          return;
        }
        assert table[i..][1..] == table[i + 1..];
        i := i + 1;
      }
    }

    method SpawnSection(name: string, mainThread: nat, created: bool) returns (slot: Option<nat>)
      modifies this, table
      ensures (Value(), slot) == Spawned(old(Value()), name, mainThread, created)
      ensures slot.Some? <==> created && exists k :: 0 <= k < table.Length && old(table[k].state).SlotFree?
      ensures slot.Some? ==>
        && slot.value < table.Length && old(table[..])[slot.value].state.SlotFree?
        && (forall k :: 0 <= k < slot.value ==> !old(table[k].state).SlotFree?)
        && table[slot.value] == Slot(old(nextPid), name, mainThread, Running, -1, false, 0, 0)
      ensures forall k :: 0 <= k < table.Length && (slot.Some? || !old(table[k].state).SlotFree?) && slot != Some(k) ==>
        table[k] == old(table[k])
      ensures live == old(live) + (if slot.Some? then 1 else 0) && stateChanged == old(stateChanged)
      ensures slot.Some? ==> nextPid == (old(nextPid) + 1) % 0x1_0000_0000
    {
      var i := FindFree();
      if i == table.Length {
        return None;
      }
      table[i] := Slot(nextPid, name, table[i].mainThread, Running, -1, false, 0, 0);
      nextPid := (nextPid + 1) % PID_MODULUS;
      if !created {
        table[i] := ZERO_SLOT;
        assert table[..] == old(table[..])[i := ZERO_SLOT];
        return None;
      }
      table[i] := table[i].(mainThread := mainThread);
      live := live + 1;
      assert table[..] == old(table[..])[i := FreshSlot(old(nextPid), name, mainThread)];
      return Some(i);
    }

    method ThreadCreateSection(i: nat)
      requires i < table.Length
      modifies table
      ensures Value() == AuxStarted(old(Value()), i)
    {
      table[i] := table[i].(auxThreads := table[i].auxThreads + 1);
    }

    method AuxEpilogueSection(i: nat)
      requires i < table.Length
      modifies table
      ensures Value() == AuxEnded(old(Value()), i)
    {
      table[i] := table[i].(auxThreads := table[i].auxThreads - 1);
      if table[i].auxThreads == 0 {
        table[i] := table[i].(auxDone := table[i].auxDone + 1);
      }
    }

    /** pproc_exit up to its unlock or its first cond_wait; `wait` is true in the latter case. */
    method ExitSection(i: nat, self: nat, code: int) returns (wait: bool)
      requires i < table.Length
      modifies this, table
      ensures wait <==> self == old(table[i].mainThread) && old(table[i].auxThreads) > 0
      ensures Value() ==
        if self != old(table[i].mainThread) then AuxExited(old(Value()), i, code)
        else if wait then ExitRequested(old(Value()), i, code)
        else MarkedExited(ExitRequested(old(Value()), i, code), i)
    {
      if !table[i].exitRequested {
        table[i] := table[i].(exitRequested := true, exitCode := code);
      }
      wait := false;
      if self == table[i].mainThread {
        if table[i].auxThreads > 0 {
          return true;
        }
        table[i] := table[i].(state := Exited);
        stateChanged := stateChanged + 1;
      } else if table[i].auxThreads > 0 {
        AuxEpilogueSection(i);
      }
    }

    method ReapSection(i: nat) returns (code: int)
      requires i < table.Length
      modifies this, table
      ensures code == old(table[i].exitCode)
      ensures Value() == Reaped(old(Value()), i)
    {
      code := table[i].exitCode;
      table[i] := ZERO_SLOT;
      live := live - 1;
    }
  }
}
