/** handle_request of native/pseudoproc/psrv.c: the handle table, and what any sequence of requests
    gets from it. */
module PsrvHandles {

  const MAX_HANDLES: nat := 4096
  const TWO64: nat := 0x1_0000_0000_0000_0000

  const PSRV_PING: nat := 1
  const PSRV_NEW_HANDLE: nat := 2
  const PSRV_DUP_HANDLE: nat := 3

  type u32 = x: nat | x < 0x1_0000_0000
  type u64 = x: nat | x < TWO64

  datatype Request = Request(op: u32, pid: u32, arg: u64)

  datatype Reply = Reply(status: int, value: u64)

  const OK: int := 0
  const REFUSED: int := -1
  const BAD_OP: int := -2

  /** handle_owner and next_handle; owner 0 is free. */
  datatype Table = Table(owner: seq<u32>, next: u64)

  predicate TableOk(t: Table) { |t.owner| == MAX_HANDLES }

  function InitialTable(): Table {
    Table(seq(MAX_HANDLES, _ => 0), 1)
  }

  function Bump(t: Table): Table { t.(next := (t.next + 1) % TWO64) }

  function Allocate(t: Table, pid: u32): (Table, Reply)
    requires TableOk(t)
  {
    if t.next >= MAX_HANDLES then (Bump(t), Reply(REFUSED, 0))
    else (Bump(t).(owner := t.owner[t.next := pid]), Reply(OK, t.next))
  }

  function Handle(t: Table, req: Request): (r: (Table, Reply))
    requires TableOk(t)
    ensures TableOk(r.0)
  {
    if req.op == PSRV_PING then (t, Reply(OK, req.arg))
    else if req.op == PSRV_NEW_HANDLE then Allocate(t, req.pid)
    else if req.op == PSRV_DUP_HANDLE then
      if req.arg >= MAX_HANDLES || t.owner[req.arg] == 0 then (t, Reply(REFUSED, 0))
      else Allocate(t, req.pid)
    else (t, Reply(BAD_OP, 0))
  }

  class Service {
    const handleOwner: array<u32>
    var nextHandle: u64

    ghost predicate Valid()
      reads this, handleOwner
    {
      handleOwner.Length == MAX_HANDLES
    }

    ghost function View(): Table
      requires Valid()
      reads this, handleOwner
    {
      Table(handleOwner[..], nextHandle)
    }

    constructor ()
      ensures Valid() && View() == InitialTable()
    {
      handleOwner := new u32[MAX_HANDLES](_ => 0);
      nextHandle := 1;
    }

    method HandleRequest(req: Request) returns (reply: Reply)
      requires Valid()
      modifies this, handleOwner
      ensures Valid() && (View(), reply) == Handle(old(View()), req)
    {
      var status, value := OK, 0;
      if req.op == PSRV_PING {
        value := req.arg;
      } else if req.op == PSRV_NEW_HANDLE {
        var h := nextHandle;
        nextHandle := (nextHandle + 1) % TWO64;
        if h >= MAX_HANDLES {
          status := REFUSED;
        } else {
          handleOwner[h] := req.pid;
          value := h;
        }
      } else if req.op == PSRV_DUP_HANDLE {
        var h := req.arg;
        if h >= MAX_HANDLES || handleOwner[h] == 0 {
          status := REFUSED;
        } else {
          var dup := nextHandle;
          nextHandle := (nextHandle + 1) % TWO64;
          if dup >= MAX_HANDLES {
            status := REFUSED;
          } else {
            handleOwner[dup] := req.pid;
            value := dup;
          }
        }
      } else {
        status := BAD_OP;
      }
      reply := Reply(status, value);
    }
  }

  /** The table after the first n requests. */
  function After(reqs: seq<Request>, n: nat): (t: Table)
    requires n <= |reqs|
    ensures TableOk(t)
  {
    if n == 0 then InitialTable() else Handle(After(reqs, n - 1), reqs[n - 1]).0
  }

  function ReplyTo(reqs: seq<Request>, n: nat): Reply
    requires n < |reqs|
  {
    Handle(After(reqs, n), reqs[n]).1
  }

  /** PING echoes its argument, an unknown operation is refused with -2, and neither changes the
      table. */
  lemma OthersChangeNothing(reqs: seq<Request>, n: nat)
    requires n < |reqs|
    ensures reqs[n].op == 1 ==> ReplyTo(reqs, n) == Reply(0, reqs[n].arg)
    ensures reqs[n].op == 0 || reqs[n].op > 3 ==> ReplyTo(reqs, n) == Reply(-2, 0)
    ensures !(2 <= reqs[n].op <= 3) ==> After(reqs, n + 1) == After(reqs, n)
  {
  }

  predicate IsAllocation(req: Request) { req.op == PSRV_NEW_HANDLE || req.op == PSRV_DUP_HANDLE }

  predicate Granted(reqs: seq<Request>, n: nat)
    requires n < |reqs|
  {
    IsAllocation(reqs[n]) && ReplyTo(reqs, n).status == OK
  }

  /** How many of the first n requests were granted a handle. */
  function Grants(reqs: seq<Request>, n: nat): nat
    requires n <= |reqs|
  {
    if n == 0 then 0 else Grants(reqs, n - 1) + (if Granted(reqs, n - 1) then 1 else 0)
  }

  /** next_handle counts attempts and the grants stop at 4095.  The bound excludes only a wrapped
      next_handle. */
  predicate Counted(t: Table, grants: nat, n: nat) {
    && TableOk(t) && 1 <= t.next <= n + 1
    && (if t.next <= MAX_HANDLES then grants == t.next - 1 else grants == MAX_HANDLES - 1)
  }

  /** What a request needs to be granted while handles are left: nothing for NEW, an owned handle
      for DUP. */
  predicate Entitled(t: Table, req: Request)
    requires TableOk(t)
  {
    || req.op == PSRV_NEW_HANDLE
    || (req.op == PSRV_DUP_HANDLE && req.arg < MAX_HANDLES && t.owner[req.arg] != 0)
  }

  lemma HandleKeepsCount(t: Table, grants: nat, n: nat, req: Request)
    requires Counted(t, grants, n) && n + 2 < TWO64
    ensures var (t', reply) := Handle(t, req);
            var granted := IsAllocation(req) && reply.status == OK;
            && Counted(t', if granted then grants + 1 else grants, n + 1)
            && granted == (grants < MAX_HANDLES - 1 && Entitled(t, req))
            && (IsAllocation(req) ==> reply == if granted then Reply(OK, grants + 1) else Reply(REFUSED, 0))
            && t'.owner == if granted then t.owner[grants + 1 := req.pid] else t.owner
  {
  }

  lemma {:induction false} CountedAfter(reqs: seq<Request>, n: nat)
    requires n <= |reqs| && |reqs| + 1 < TWO64
    ensures Counted(After(reqs, n), Grants(reqs, n), n)
  {
    if n > 0 {
      CountedAfter(reqs, n - 1);
      HandleKeepsCount(After(reqs, n - 1), Grants(reqs, n - 1), n - 1, reqs[n - 1]);
    }
  }

  /** Over any request sequence the k-th granted handle is k, from 1 to 4095. */
  lemma HandlesAreSequential(reqs: seq<Request>, n: nat)
    requires n < |reqs| && |reqs| + 1 < TWO64 && Granted(reqs, n)
    ensures ReplyTo(reqs, n).value == Grants(reqs, n) + 1 <= MAX_HANDLES - 1
  {
    CountedAfter(reqs, n);
    HandleKeepsCount(After(reqs, n), Grants(reqs, n), n, reqs[n]);
  }

  lemma {:induction false} GrantsOnlyGrow(reqs: seq<Request>, m: nat, n: nat)
    requires m <= n <= |reqs|
    ensures Grants(reqs, m) <= Grants(reqs, n)
  {
    if m < n { GrantsOnlyGrow(reqs, m, n - 1); }
  }

  /** No handle is granted twice: later grants get larger handles. */
  lemma HandlesAreUnique(reqs: seq<Request>, m: nat, n: nat)
    requires m < n < |reqs| && |reqs| + 1 < TWO64 && Granted(reqs, m) && Granted(reqs, n)
    ensures ReplyTo(reqs, m).value < ReplyTo(reqs, n).value
  {
    HandlesAreSequential(reqs, m);
    HandlesAreSequential(reqs, n);
    GrantsOnlyGrow(reqs, m + 1, n);
  }

  /** Request m was granted handle h, for a process with a nonzero pid. */
  predicate GrantedTo(reqs: seq<Request>, m: nat, h: nat)
    requires m < |reqs|
  {
    Granted(reqs, m) && ReplyTo(reqs, m).value == h && reqs[m].pid != 0
  }

  /** h was granted among the first n requests to a process with a nonzero pid. */
  predicate Duplicable(reqs: seq<Request>, n: nat, h: nat)
    requires n <= |reqs|
  {
    exists m :: 0 <= m < n && GrantedTo(reqs, m, h)
  }

  lemma {:induction false} OwnedIsDuplicable(reqs: seq<Request>, n: nat, h: nat)
    requires n <= |reqs| && |reqs| + 1 < TWO64 && h < MAX_HANDLES
    ensures After(reqs, n).owner[h] != 0 <==> Duplicable(reqs, n, h)
  {
    if n > 0 {
      OwnedIsDuplicable(reqs, n - 1, h);
      CountedAfter(reqs, n - 1);
      HandleKeepsCount(After(reqs, n - 1), Grants(reqs, n - 1), n - 1, reqs[n - 1]);
      if Granted(reqs, n - 1) && ReplyTo(reqs, n - 1).value == h {
        OnlyGrantOf(reqs, n - 1, h);
      } else {
        assert !GrantedTo(reqs, n - 1, h);
      }
      assert Duplicable(reqs, n, h) <==> Duplicable(reqs, n - 1, h) || GrantedTo(reqs, n - 1, h);
    }
  }

  lemma OnlyGrantOf(reqs: seq<Request>, n: nat, h: nat)
    requires n < |reqs| && |reqs| + 1 < TWO64 && Granted(reqs, n) && ReplyTo(reqs, n).value == h
    ensures !Duplicable(reqs, n, h)
  {
    forall m | 0 <= m < n ensures !GrantedTo(reqs, m, h) {
      if Granted(reqs, m) { HandlesAreUnique(reqs, m, n); }
    }
  }

  /** The reply to every allocation, over any request sequence: the next handle, exactly while fewer
      than 4095 are out and, for DUP, exactly if the argument was granted before to a nonzero pid. */
  lemma AllocationReply(reqs: seq<Request>, n: nat)
    requires n < |reqs| && |reqs| + 1 < TWO64 && IsAllocation(reqs[n])
    ensures Grants(reqs, n) <= MAX_HANDLES - 1
    ensures ReplyTo(reqs, n) ==
      if Grants(reqs, n) < MAX_HANDLES - 1 &&
        (reqs[n].op == PSRV_NEW_HANDLE || Duplicable(reqs, n, reqs[n].arg))
      then Reply(OK, Grants(reqs, n) + 1)
      else Reply(REFUSED, 0)
  {
    CountedAfter(reqs, n);
    HandleKeepsCount(After(reqs, n), Grants(reqs, n), n, reqs[n]);
    if reqs[n].arg < MAX_HANDLES {
      OwnedIsDuplicable(reqs, n, reqs[n].arg);
    } else {
      forall m | 0 <= m < n ensures !GrantedTo(reqs, m, reqs[n].arg) {
        if Granted(reqs, m) { HandlesAreSequential(reqs, m); }
      }
    }
  }

  /** A handle granted to pid 0 can never be duplicated. */
  lemma ZeroPidCannotDuplicate(reqs: seq<Request>, m: nat, n: nat)
    requires m < n < |reqs| && |reqs| + 1 < TWO64 && Granted(reqs, m) && reqs[m].pid == 0
    requires reqs[n].op == PSRV_DUP_HANDLE && reqs[n].arg == ReplyTo(reqs, m).value
    ensures ReplyTo(reqs, n) == Reply(REFUSED, 0)
  {
    forall k | 0 <= k < n ensures !GrantedTo(reqs, k, reqs[n].arg) {
      if Granted(reqs, k) && k != m {
        if k < m { HandlesAreUnique(reqs, k, m); } else { HandlesAreUnique(reqs, m, k); }
      }
    }
    AllocationReply(reqs, n);
  }
}
