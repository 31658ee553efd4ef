/** The client table of native/pseudoproc/psrv.c: psrv_connect appends and wakes, server_loop polls a
    snapshot and removes vanished clients while it walks it. */
module PsrvClients {

  const MAX_CLIENTS: nat := 128

  /** A table entry: the descriptor, and the connection it stands for; descriptors are reused,
      connections are not.  The program sees only the descriptor. */
  datatype Client = Client(fd: int, id: nat)

  predicate DistinctFds(t: seq<Client>) {
    forall i, j :: 0 <= i < j < |t| ==> t[i].fd != t[j].fd
  }

  /** Position of fd, or the length. */
  function Position(t: seq<Client>, fd: int, i: nat): (j: nat)
    requires i <= |t|
    ensures i <= j <= |t|
    ensures j < |t| ==> t[j].fd == fd
    ensures forall k :: i <= k < j ==> t[k].fd != fd
    decreases |t| - i
  {
    if i == |t| || t[i].fd == fd then i else Position(t, fd, i + 1)
  }

  /** Lines 128-134: the last entry takes the place of the removed one. */
  function Removed(t: seq<Client>, fd: int): seq<Client> {
    var j := Position(t, fd, 0);
    if j == |t| then t else t[j := t[|t| - 1]][..|t| - 1]
  }

  lemma RemovedKeepsOthers(t: seq<Client>, k: Client)
    requires DistinctFds(t) && k in t
    ensures DistinctFds(Removed(t, k.fd)) && |Removed(t, k.fd)| == |t| - 1
    ensures forall c :: c in Removed(t, k.fd) <==> c in t && c != k
  {
    var j := Position(t, k.fd, 0);
    var r := Removed(t, k.fd);
    var at :| 0 <= at < |t| && t[at] == k;
    assert j == at;
    forall c | c in t && c != k ensures c in r {
      var i :| 0 <= i < |t| && t[i] == c;
      assert if i == |t| - 1 then r[j] == c else r[i] == c;
    }
  }

  /** s.client_fds and s.nclients. */
  class Table {
    const clientFds: array<Client>
    var nclients: nat

    ghost predicate Valid()
      reads this, clientFds
    {
      clientFds.Length == MAX_CLIENTS && nclients <= MAX_CLIENTS
    }

    ghost function View(): seq<Client>
      requires Valid()
      reads this, clientFds
    {
      clientFds[..nclients]
    }

    constructor ()
      ensures Valid() && View() == []
    {
      clientFds := new Client[MAX_CLIENTS](_ => Client(0, 0));
      nclients := 0;
    }

    method Append(c: Client) returns (ok: bool)
      requires Valid()
      modifies this, clientFds
      ensures Valid()
      ensures ok == (|old(View())| < MAX_CLIENTS)
      ensures View() == if ok then old(View()) + [c] else old(View())
    {
      if nclients == MAX_CLIENTS { return false; }
      clientFds[nclients] := c;
      nclients := nclients + 1;
      return true;
    }

    method Remove(fd: int)
      requires Valid()
      modifies this, clientFds
      ensures Valid() && View() == Removed(old(View()), fd)
    {
      ghost var t := View();
      var j := 0;
      while j < nclients
        invariant j <= nclients && Valid() && View() == t
        invariant Position(t, fd, 0) == Position(t, fd, j)
      {
        if clientFds[j].fd == fd {
          nclients := nclients - 1;
          clientFds[j] := clientFds[nclients];
          assert View() == t[j := t[|t| - 1]][..|t| - 1];
          return;
        }
        j := j + 1;
      }
    }

    /** Lines 101-109. */
    method Snapshot() returns (fds: seq<Client>)
      requires Valid()
      ensures fds == View()
    {
      fds := [];
      for i := 0 to nclients
        invariant fds == clientFds[..i]
      {
        fds := fds + [clientFds[i]];
      }
    }
  }

  /** Where the server is: about to rebuild, polling a snapshot, or at position i of one. */
  datatype Pc = Build | Polling(snap: seq<Client>) | Walking(snap: seq<Client>, i: nat, ready: set<nat>)

  /** `waking` holds the connects that have appended and not yet written their byte, `gone` the
      connections whose client end is closed. */
  datatype State = State(table: seq<Client>, pc: Pc, bytes: nat, waking: set<nat>, gone: set<nat>, nextId: nat)

  datatype Step =
    | Append(fd: int)
    | Wake(id: nat, written: bool)
    | Close(id: nat)
    | Rebuild
    | PollWakeup
    | PollClients(ready: set<nat>)
    | Walk(vanished: bool)

  /** A new descriptor is one that is not open; a wakeup byte takes precedence over clients. */
  predicate Enabled(s: State, step: Step) {
    match step
    case Append(fd) => forall k :: k in s.table ==> k.fd != fd
    case Wake(id, _) => id in s.waking
    case Close(id) => id < s.nextId && id !in s.waking
    case Rebuild => s.pc.Build?
    case PollWakeup => s.pc.Polling? && s.bytes > 0
    case PollClients(_) => s.pc.Polling? && s.bytes == 0
    case Walk(_) => s.pc.Walking?
  }

  function Next(s: State, step: Step): State {
    match step
    case Append(fd) =>
      if |s.table| == MAX_CLIENTS then s
      else s.(table := s.table + [Client(fd, s.nextId)], waking := s.waking + {s.nextId}, nextId := s.nextId + 1)
    case Wake(id, written) =>
      if written then s.(waking := s.waking - {id}, bytes := s.bytes + 1)
      else s.(waking := s.waking - {id}, gone := s.gone + {id})
    case Close(id) => s.(gone := s.gone + {id})
    case Rebuild => s.(pc := Polling(s.table))
    case PollWakeup => s.(bytes := if s.bytes > 0 then s.bytes - 1 else 0, pc := Build)
    case PollClients(ready) => if s.pc.Polling? then s.(pc := Walking(s.pc.snap, 0, ready)) else s
    case Walk(vanished) => if s.pc.Walking? then WalkNext(s, vanished) else s
  }

  /** One turn of the loop over the snapshot. */
  function WalkNext(s: State, vanished: bool): State
    requires s.pc.Walking?
  {
    var i := s.pc.i;
    if i >= |s.pc.snap| then s.(pc := Build)
    else if i in s.pc.ready && vanished then
      s.(pc := s.pc.(i := i + 1), table := Removed(s.table, s.pc.snap[i].fd))
    else s.(pc := s.pc.(i := i + 1))
  }

  ghost predicate Run(ss: seq<State>, steps: seq<Step>) {
    && |ss| == |steps| + 1 && ss[0] == State([], Build, 0, {}, {}, 0)
    && forall i :: 0 <= i < |steps| ==> Enabled(ss[i], steps[i]) && ss[i + 1] == Next(ss[i], steps[i])
  }

  ghost predicate TableOk(s: State) {
    && |s.table| <= MAX_CLIENTS && DistinctFds(s.table)
    && (forall k :: k in s.table ==> k.id < s.nextId)
    && (forall j, k :: j in s.table && k in s.table && j != k ==> j.id != k.id)
  }

  /** What is left to visit in the snapshot is still in the table, as the same connections. */
  ghost predicate SnapOk(s: State) {
    match s.pc
    case Build => true
    case Polling(snap) => DistinctFds(snap) && forall j :: 0 <= j < |snap| ==> snap[j] in s.table
    case Walking(snap, i, _) =>
      DistinctFds(snap) && i <= |snap| && forall j :: i <= j < |snap| ==> snap[j] in s.table
  }

  ghost predicate Seen(pc: Pc, k: Client) {
    pc.Build? || k in pc.snap
  }

  /** A connection whose client is alive is in the snapshot, or the server is about to rebuild it,
      or a wakeup byte is queued, or its own connect is about to write one. */
  ghost predicate NoneLost(s: State) {
    forall k :: k in s.table && k.id !in s.gone ==> Seen(s.pc, k) || s.bytes > 0 || k.id in s.waking
  }

  ghost predicate Inv(s: State) { TableOk(s) && SnapOk(s) && NoneLost(s) }

  lemma AppendKeeps(s: State, fd: int)
    requires Inv(s) && Enabled(s, Append(fd))
    ensures Inv(Next(s, Append(fd)))
  {
  }

  /** A vanished client is still in the table, and the removal takes out exactly it. */
  lemma WalkRemovesTheVanished(s: State)
    requires Inv(s) && s.pc.Walking? && s.pc.i < |s.pc.snap|
    ensures var k := s.pc.snap[s.pc.i];
            var t := Removed(s.table, k.fd);
            && k in s.table && |t| == |s.table| - 1 && DistinctFds(t)
            && forall c :: c in t <==> c in s.table && c != k
  {
    RemovedKeepsOthers(s.table, s.pc.snap[s.pc.i]);
  }

  lemma WalkKeeps(s: State, vanished: bool)
    requires Inv(s) && s.pc.Walking?
    ensures Inv(WalkNext(s, vanished))
  {
    if s.pc.i < |s.pc.snap| { WalkRemovesTheVanished(s); }
  }

  lemma StepKeeps(s: State, step: Step)
    requires Inv(s) && Enabled(s, step)
    ensures Inv(Next(s, step))
  {
    match step
    case Append(fd) => AppendKeeps(s, fd);
    case Wake(id, written) =>
    case Close(id) =>
    case Rebuild =>
    case PollWakeup =>
    case PollClients(ready) =>
    case Walk(vanished) => WalkKeeps(s, vanished);
  }

  /** In every run no live client is lost, and the table is free of duplicates and at most 128. */
  lemma {:induction false} NoClientIsLost(ss: seq<State>, steps: seq<Step>, n: nat)
    requires Run(ss, steps) && n < |ss|
    ensures TableOk(ss[n]) && SnapOk(ss[n]) && NoneLost(ss[n])
  {
    if n > 0 {
      NoClientIsLost(ss, steps, n - 1);
      StepKeeps(ss[n - 1], steps[n - 1]);
    }
  }

  /** In every run a removal takes out the very connection that was polled, although its descriptor
      comes from an old snapshot and descriptors are reused. */
  lemma RemovalIsExact(ss: seq<State>, steps: seq<Step>, n: nat)
    requires Run(ss, steps) && n < |steps| && steps[n].Walk? && steps[n].vanished
    requires ss[n].pc.i < |ss[n].pc.snap| && ss[n].pc.i in ss[n].pc.ready
    ensures var k := ss[n].pc.snap[ss[n].pc.i];
            && k in ss[n].table
            && forall c :: c in ss[n + 1].table <==> c in ss[n].table && c != k
  {
    NoClientIsLost(ss, steps, n);
    WalkRemovesTheVanished(ss[n]);
  }

  /** A live connection that the current poll misses is in the next one: the poll can only end with
      the wakeup byte, and the rebuild after it sees the connection. */
  lemma MissedClientIsPolledNext(s: State, k: Client)
    requires Inv(s) && s.pc.Polling? && k in s.table && k.id !in s.gone && k.id !in s.waking && k !in s.pc.snap
    ensures Enabled(s, PollWakeup) && forall ready :: !Enabled(s, PollClients(ready))
    ensures var woken := Next(s, PollWakeup);
            Enabled(woken, Rebuild) && k in Next(woken, Rebuild).pc.snap
  {
    assert !Seen(s.pc, k);
  }

  /** psrv_connect while the server polls: with room the connection is listed, its byte ends the poll
      before any client is served, one byte is read for it, and the next snapshot has it.  With 128
      connections listed nothing changes. */
  lemma ConnectIsPolledNext(s: State, fd: int)
    requires Inv(s) && s.pc.Polling? && Enabled(s, Append(fd))
    ensures var k := Client(fd, s.nextId);
      if |s.table| < 128 then
        var listed := Next(s, Append(fd));
        && listed.table == s.table + [k] && Enabled(listed, Wake(k.id, true))
        && var woken := Next(listed, Wake(k.id, true));
           var built := Next(Next(woken, PollWakeup), Rebuild);
           && (forall ready :: !Enabled(woken, PollClients(ready)))
           && Enabled(woken, PollWakeup) && Enabled(Next(woken, PollWakeup), Rebuild)
           && built.table == listed.table && built.pc == Polling(listed.table) && built.bytes == s.bytes
           && built.waking == s.waking - {s.nextId} && built.gone == s.gone
      else Next(s, Append(fd)) == s
  {
    assert s.waking + {s.nextId} - {s.nextId} == s.waking - {s.nextId};
  }

  /** In every run a connection leaves the table only when the walk polled it and found it vanished. */
  lemma OnlyVanishedLeave(ss: seq<State>, steps: seq<Step>, n: nat, k: Client)
    requires Run(ss, steps) && n < |steps| && k in ss[n].table && k !in ss[n + 1].table
    ensures steps[n] == Walk(true) && ss[n].pc.Walking?
    ensures ss[n].pc.i < |ss[n].pc.snap| && ss[n].pc.i in ss[n].pc.ready && ss[n].pc.snap[ss[n].pc.i] == k
  {
    NoClientIsLost(ss, steps, n);
    var s := ss[n];
    if s.pc.Walking? && s.pc.i < |s.pc.snap| { WalkRemovesTheVanished(s); }
  }
}
