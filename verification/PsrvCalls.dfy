/** The requests that wait on connections and in the log of PsrvLinear are the ones its clients began,
    and a call that is let run returns with the answer to its own request. */
module PsrvCalls {

  import opened Bytes
  import opened PsrvLinear
  import H = PsrvHandles

  /** The requests of client c's calls in a run, in order. */
  function Begun(steps: seq<Step>, c: nat): seq<H.Request> {
    if steps == [] then []
    else
      var n := |steps| - 1;
      Begun(steps[..n], c) + if steps[n].Begin? && steps[n].c == c then [steps[n].req] else []
  }

  /** The i-th handled request of c is its i-th begun one; what is under way are the first bytes of the
      next. */
  ghost predicate BegunOk(k: Conn, c: nat, v: Server, log: seq<Entry>) {
    && |k.turns| <= |k.begun| <= |k.turns| + 1
    && (forall i :: 0 <= i < |k.turns| ==> k.turns[i] < |log| && log[k.turns[i]].req == k.begun[i])
    && (if |k.begun| == |k.turns| then ReadSoFar(v, c) + k.up == []
        else ReadSoFar(v, c) + k.up <= ToBytes(k.begun[|k.turns|]))
    && (k.client.Idle? ==> |k.begun| == |k.turns|)
    && (k.client.Sending? || k.client.Receiving? ==> k.begun != [] && k.begun[|k.begun| - 1] == k.client.req)
    && (k.client.Sending? ==> |k.begun| == |k.turns| + 1)
    && (k.client.Receiving? ==> (Pending(k) <==> |k.begun| == |k.turns|))
  }

  ghost predicate AllBegun(s: State) {
    forall c :: c in s.conns ==> BegunOk(s.conns[c], c, s.server, s.log)
  }

  lemma OthersBegun(s: State, t: State, c: nat)
    requires AllBegun(s) && s.log <= t.log
    requires t.conns.Keys == s.conns.Keys + {c} && forall d :: d in s.conns && d != c ==> t.conns[d] == s.conns[d]
    requires forall d :: d != c ==> ReadSoFar(t.server, d) == ReadSoFar(s.server, d)
    requires BegunOk(t.conns[c], c, t.server, t.log)
    ensures AllBegun(t)
  {
    forall d | d in t.conns && d != c ensures BegunOk(t.conns[d], d, t.server, t.log) {
      assert BegunOk(s.conns[d], d, s.server, s.log);
    }
  }

  lemma SendBegun(k: Conn, c: nat, v: Server, log: seq<Entry>, n: nat)
    requires ConnOk(k, c, v, log) && BegunOk(k, c, v, log) && k.client.Sending? && n <= MESSAGE - k.client.put
    ensures BegunOk(SentSome(k, n), c, v, log)
  {
    SendBytes(ToBytes(k.client.req), k.client.put, n, ReadSoFar(v, c), k.up);
  }

  lemma ReceiveBegun(k: Conn, c: nat, v: Server, log: seq<Entry>, n: nat)
    requires ConnOk(k, c, v, log) && BegunOk(k, c, v, log) && k.client.Receiving? && 1 <= n <= |k.down|
    ensures BegunOk(ReceivedSome(k, n, |log|), c, v, log)
  {
  }

  lemma ReadBegun(k: Conn, c: nat, got: Message, log: seq<Entry>, n: nat)
    requires BegunOk(k, c, Reading(c, got), log) && n <= |k.up|
    ensures BegunOk(k.(up := k.up[n..]), c, Reading(c, got + k.up[..n]), log)
  {
    assert got + k.up == (got + k.up[..n]) + k.up[n..];
  }

  lemma HandleBegun(k: Conn, c: nat, got: Message, log: seq<Entry>, reply: Message)
    requires ConnOk(k, c, Reading(c, got), log) && BegunOk(k, c, Reading(c, got), log) && |got| == MESSAGE
    requires !k.client.Dropped?
    ensures BegunOk(k.(turns := k.turns + [|log|]), c, Writing(c, reply, 0), log + [Entry(c, ToRequest(got), reply)])
  {
    assert ReadSoFar(Reading(c, got), c) == got;
    assert |got + k.up| >= MESSAGE;
    RequestFields(k.begun[|k.turns|]);
    assert got == ToBytes(k.begun[|k.turns|]) && k.up == [];
  }

  lemma OneBegun(s: State, t: State, c: nat, k: Conn)
    requires AllBegun(s) && t.log == s.log && t.conns == s.conns[c := k] && BegunOk(k, c, t.server, t.log)
    requires forall d :: d != c ==> ReadSoFar(t.server, d) == ReadSoFar(s.server, d)
    ensures AllBegun(t)
  {
    OthersBegun(s, t, c);
  }

  /** The client's side, on its connection alone. */
  lemma ClientLocal(s: State, step: Step, k: Conn)
    requires StepOk(s, step) && (step.Begin? || step.Send? || step.Receive? || step.Close?)
    requires BegunOk(s.conns[step.c], step.c, s.server, s.log) && k == Next(s, step).conns[step.c]
    ensures BegunOk(k, step.c, s.server, s.log)
  {
    assert ConnOk(s.conns[step.c], step.c, s.server, s.log);
    match step
    case Send(c, n) => SendBegun(s.conns[c], c, s.server, s.log, n);
    case Receive(c, n) => ReceiveBegun(s.conns[c], c, s.server, s.log, n);
    case Begin(_, _) =>
    case Close(_) =>
  }

  lemma ClientStepBegun(s: State, step: Step)
    requires StepOk(s, step) && AllBegun(s) && (step.Begin? || step.Send? || step.Receive? || step.Close?)
    ensures AllBegun(Next(s, step))
  {
    var k := Next(s, step).conns[step.c];
    ClientLocal(s, step, k);
    OneBegun(s, Next(s, step), step.c, k);
  }

  lemma ConnectBegun(s: State, c: nat)
    requires StepOk(s, Connect(c)) && AllBegun(s)
    ensures AllBegun(Next(s, Connect(c)))
  {
    NothingRead(s, c);
    OneBegun(s, Next(s, Connect(c)), c, Conn([], [], Idle, [], 0, [], []));
  }

  /** A connection that does not exist is not being read. */
  lemma NothingRead(s: State, c: nat)
    requires ServerOk(s) && c !in s.conns
    ensures ReadSoFar(s.server, c) == []
  {
  }

  lemma PickBegun(s: State, c: nat)
    requires StepOk(s, Pick(c)) && AllBegun(s)
    ensures AllBegun(Next(s, Pick(c)))
  {
    var k := s.conns[c];
    assert s.conns[c := k] == s.conns;
    assert BegunOk(k, c, s.server, s.log) && ConnOk(k, c, s.server, s.log);
    OneBegun(s, Next(s, Pick(c)), c, k);
  }

  lemma ServerReadBegun(s: State, n: nat)
    requires StepOk(s, ServerRead(n)) && AllBegun(s)
    ensures AllBegun(Next(s, ServerRead(n)))
  {
    var c, got := s.server.conn, s.server.got;
    var k := s.conns[c];
    ReadBegun(k, c, got, s.log, n);
    OneBegun(s, Next(s, ServerRead(n)), c, k.(up := k.up[n..]));
  }

  lemma ServerWriteBegun(s: State, n: nat)
    requires StepOk(s, ServerWrite(n)) && AllBegun(s)
    ensures AllBegun(Next(s, ServerWrite(n)))
  {
    var c, t := s.server.conn, Next(s, ServerWrite(n));
    assert BegunOk(s.conns[c], c, s.server, s.log);
    OneBegun(s, t, c, t.conns[c]);
  }

  lemma WriteFailsBegun(s: State)
    requires StepOk(s, WriteFails) && AllBegun(s)
    ensures AllBegun(Next(s, WriteFails))
  {
    var c := s.server.conn;
    assert s.conns[c := s.conns[c]] == s.conns;
    assert BegunOk(s.conns[c], c, s.server, s.log);
    OneBegun(s, Next(s, WriteFails), c, s.conns[c]);
  }

  lemma DropBegun(s: State)
    requires StepOk(s, Drop) && AllBegun(s)
    ensures AllBegun(Next(s, Drop))
  {
    var c := s.server.conn;
    assert BegunOk(s.conns[c], c, s.server, s.log) && ConnOk(s.conns[c], c, s.server, s.log);
    OneBegun(s, Next(s, Drop), c, s.conns[c].(client := Dropped));
  }

  lemma HandleStepBegun(s: State)
    requires StepOk(s, Handle) && AllBegun(s)
    ensures AllBegun(Next(s, Handle))
  {
    var c, t := s.server.conn, Next(s, Handle);
    var reply := H.Handle(s.table, ToRequest(s.server.got)).1;
    assert BegunOk(s.conns[c], c, s.server, s.log) && ConnOk(s.conns[c], c, s.server, s.log);
    HandleBegun(s.conns[c], c, s.server.got, s.log, FromReply(reply));
    OthersBegun(s, t, c);
  }

  lemma StepKeepsBegun(s: State, step: Step)
    requires StepOk(s, step) && AllBegun(s)
    ensures AllBegun(Next(s, step))
  {
    match step
    case Connect(c) => ConnectBegun(s, c);
    case Pick(c) => PickBegun(s, c);
    case ServerRead(n) => ServerReadBegun(s, n);
    case Handle => HandleStepBegun(s);
    case ServerWrite(n) => ServerWriteBegun(s, n);
    case WriteFails => WriteFailsBegun(s);
    case Drop => DropBegun(s);
    case _ => ClientStepBegun(s, step);
  }

  lemma {:induction false} BegunAt(ss: seq<State>, steps: seq<Step>, n: nat)
    requires Run(ss, steps) && n < |ss|
    ensures AllBegun(ss[n])
  {
    if n > 0 {
      BegunAt(ss, steps, n - 1);
      InvAt(ss, steps, n - 1);
      assert Follows(ss[n - 1], steps[n - 1], ss[n]);
      StepKeepsBegun(ss[n - 1], steps[n - 1]);
    }
  }

  /** The history of a connection is what its client's Begin steps say. */
  ghost predicate HistoryIs(s: State, c: nat, begun: seq<H.Request>) {
    if c in s.conns then s.conns[c].begun == begun else begun == []
  }

  lemma StepAddsBegun(s: State, step: Step, t: State, c: nat, begun: seq<H.Request>)
    requires Follows(s, step, t) && HistoryIs(s, c, begun)
    ensures HistoryIs(t, c, begun + if step.Begin? && step.c == c then [step.req] else [])
  {
  }

  lemma {:induction false} HistoryAt(ss: seq<State>, steps: seq<Step>, n: nat, c: nat)
    requires Run(ss, steps) && n < |ss|
    ensures HistoryIs(ss[n], c, Begun(steps[..n], c))
  {
    if n > 0 {
      HistoryAt(ss, steps, n - 1, c);
      assert Follows(ss[n - 1], steps[n - 1], ss[n]);
      StepAddsBegun(ss[n - 1], steps[n - 1], ss[n], c, Begun(steps[..n - 1], c));
      assert steps[..n][..n - 1] == steps[..n - 1];
    }
  }

  /** In every reachable state the i-th request of client c in the order of handling is the request of
      its i-th call, read out of the bytes it wrote; at most the last call is not handled yet; and a
      finished call was answered for its own request. */
  lemma RequestsAreTheClients(ss: seq<State>, steps: seq<Step>, n: nat, c: nat)
    requires Run(ss, steps) && n < |ss| && c in ss[n].conns
    ensures var k, log, begun := ss[n].conns[c], ss[n].log, Begun(steps[..n], c);
      && |k.done| <= |k.turns| <= |begun| <= |k.turns| + 1
      && (forall i :: 0 <= i < |k.turns| ==> k.turns[i] < |log| && log[k.turns[i]].req == begun[i])
      && (forall i :: 0 <= i < |k.done| ==> k.done[i].req == begun[i] && k.done[i].reply == log[k.turns[i]].reply)
      && (k.client.Idle? ==> |k.done| == |begun|)
  {
    InvAt(ss, steps, n);
    BegunAt(ss, steps, n);
    HistoryAt(ss, steps, n, c);
    assert ConnOk(ss[n].conns[c], c, ss[n].server, ss[n].log) && HistoryOk(ss[n].conns[c], c, ss[n].log);
  }

  // ---- a call that is let run ----------------------------------------------------------------

  /** s with only c's connection and the server moved on. */
  function With(s: State, c: nat, k: Conn, v: Server): State {
    State(s.conns[c := k], v, s.table, s.log)
  }

  lemma AskSteps(s: State, c: nat, req: H.Request, k: Conn)
    requires Inv(s) && s.server.Polling? && c in s.conns && s.conns[c].client.Idle?
    requires k == s.conns[c].(client := Sending(req, 0), began := |s.log|, begun := s.conns[c].begun + [req])
    ensures Follows(s, Begin(c, req), With(s, c, k, Polling))
    ensures var sent := k.(up := ToBytes(req), client := Receiving(req, []));
      Follows(With(s, c, k, Polling), Send(c, MESSAGE), With(s, c, sent, Polling))
  {
    assert ConnOk(s.conns[c], c, s.server, s.log);
    var sent := k.(up := ToBytes(req), client := Receiving(req, []));
    assert SentSome(k, MESSAGE) == sent;
    assert s.conns[c := k][c := sent] == s.conns[c := sent];
  }

  lemma ReadSteps(s: State, c: nat, k: Conn, m: Message)
    requires H.TableOk(s.table) && k.up == m && |m| == MESSAGE
    ensures Follows(With(s, c, k, Polling), Pick(c), With(s, c, k, Reading(c, [])))
    ensures Follows(With(s, c, k, Reading(c, [])), ServerRead(MESSAGE), With(s, c, k.(up := []), Reading(c, m)))
  {
    assert s.conns[c := k][c := k.(up := [])] == s.conns[c := k.(up := [])];
    assert [] + k.up[..MESSAGE] == m && k.up[MESSAGE..] == [];
  }

  /** The table after the request, and the log with it. */
  function Answered(s: State, c: nat, req: H.Request): State
    requires H.TableOk(s.table)
  {
    var (table, reply) := H.Handle(s.table, req);
    s.(table := table, log := s.log + [Entry(c, req, FromReply(reply))])
  }

  lemma HandleStep(s: State, c: nat, k: Conn, req: H.Request)
    requires H.TableOk(s.table)
    ensures Follows(With(s, c, k, Reading(c, ToBytes(req))), Handle,
      With(Answered(s, c, req), c, k.(turns := k.turns + [|s.log|]),
           Writing(c, FromReply(H.Handle(s.table, req).1), 0)))
  {
    RequestFields(req);
    var k' := k.(turns := k.turns + [|s.log|]);
    assert s.conns[c := k][c := k'] == s.conns[c := k'];
  }

  lemma ReplySteps(s: State, c: nat, k: Conn, reply: Message)
    requires H.TableOk(s.table) && |reply| == MESSAGE && k.down == [] && k.client.Receiving? && k.client.got == []
    ensures Follows(With(s, c, k, Writing(c, reply, 0)), ServerWrite(MESSAGE), With(s, c, k.(down := reply), Polling))
    ensures Follows(With(s, c, k.(down := reply), Polling), Receive(c, MESSAGE),
      With(s, c, k.(client := Idle, done := k.done + [Call(k.client.req, reply, k.began, |s.log|)]), Polling))
  {
    var k1 := k.(down := reply);
    assert s.conns[c := k][c := k1] == s.conns[c := k1];
    assert [] + reply[0..MESSAGE] == reply && [] + reply[..MESSAGE] == reply && reply[MESSAGE..] == [];
    var k2 := k.(client := Idle, done := k.done + [Call(k.client.req, reply, k.began, |s.log|)]);
    assert s.conns[c := k1][c := k2] == s.conns[c := k2];
  }

  ghost predicate Chain(ss: seq<State>, steps: seq<Step>) {
    |ss| == |steps| + 1 && forall i :: 0 <= i < |steps| ==> Follows(ss[i], steps[i], ss[i + 1])
  }

  lemma AskRun(s: State, c: nat, req: H.Request, k: Conn) returns (ss: seq<State>, steps: seq<Step>)
    requires Inv(s) && s.server.Polling? && c in s.conns && s.conns[c].client.Idle?
    requires k == s.conns[c].(client := Receiving(req, []), began := |s.log|, begun := s.conns[c].begun + [req])
    ensures Chain(ss, steps) && ss[0] == s && |steps| == 4
    ensures ss[4] == With(s, c, k, Reading(c, ToBytes(req)))
  {
    assert ConnOk(s.conns[c], c, s.server, s.log);
    var k0 := k.(client := Sending(req, 0));
    AskSteps(s, c, req, k0);
    var sent := k.(up := ToBytes(req));
    assert k == sent.(up := []);
    ReadSteps(s, c, sent, ToBytes(req));
    ss := [s, With(s, c, k0, Polling), With(s, c, sent, Polling), With(s, c, sent, Reading(c, [])),
           With(s, c, k, Reading(c, ToBytes(req)))];
    steps := [Begin(c, req), Send(c, MESSAGE), Pick(c), ServerRead(MESSAGE)];
  }

  lemma AnswerRun(s: State, c: nat, req: H.Request, k: Conn, k': Conn) returns (ss: seq<State>, steps: seq<Step>)
    requires H.TableOk(s.table) && k.down == [] && k.client == Receiving(req, [])
    requires k' == k.(turns := k.turns + [|s.log|], client := Idle,
                      done := k.done + [Call(req, FromReply(H.Handle(s.table, req).1), k.began, |s.log| + 1)])
    ensures Chain(ss, steps) && ss[0] == With(s, c, k, Reading(c, ToBytes(req))) && |steps| == 3
    ensures ss[3] == With(Answered(s, c, req), c, k', Polling)
  {
    var a, reply := Answered(s, c, req), FromReply(H.Handle(s.table, req).1);
    var turn := k.(turns := k.turns + [|s.log|]);
    HandleStep(s, c, k, req);
    ReplySteps(a, c, turn, reply);
    ss := [With(s, c, k, Reading(c, ToBytes(req))), With(a, c, turn, Writing(c, reply, 0)),
           With(a, c, turn.(down := reply), Polling), With(a, c, k', Polling)];
    steps := [Handle, ServerWrite(MESSAGE), Receive(c, MESSAGE)];
  }

  lemma Join(ss: seq<State>, steps: seq<Step>, more: seq<State>, moreSteps: seq<Step>)
    requires Chain(ss, steps) && Chain(more, moreSteps) && ss[|steps|] == more[0]
    ensures Chain(ss + more[1..], steps + moreSteps)
  {
    var all, allSteps := ss + more[1..], steps + moreSteps;
    forall i | 0 <= i < |allSteps| ensures Follows(all[i], allSteps[i], all[i + 1]) {
      if i >= |steps| {
        assert all[i] == more[i - |steps|] && all[i + 1] == more[i - |steps| + 1];
      }
    }
  }

  /** From every state in which the server polls, a client that is not in a call can complete one, and
      what it gets is the answer to its request by the table as it is; the other clients are not
      touched. */
  lemma CallCompletes(s: State, c: nat, req: H.Request) returns (ss: seq<State>, steps: seq<Step>)
    requires Inv(s) && s.server.Polling? && c in s.conns && s.conns[c].client.Idle?
    ensures Chain(ss, steps) && ss[0] == s
    ensures var t, (table, reply) := ss[|steps|], H.Handle(s.table, req);
      && t.server == Polling && t.table == table && t.log == s.log + [Entry(c, req, FromReply(reply))]
      && t.conns.Keys == s.conns.Keys && (forall d :: d in s.conns && d != c ==> t.conns[d] == s.conns[d])
      && t.conns[c].client == Idle
      && t.conns[c].done == s.conns[c].done + [Call(req, FromReply(reply), |s.log|, |s.log| + 1)]
  {
    var k := s.conns[c].(client := Receiving(req, []), began := |s.log|, begun := s.conns[c].begun + [req]);
    var k' := k.(turns := k.turns + [|s.log|], client := Idle,
                 done := k.done + [Call(req, FromReply(H.Handle(s.table, req).1), k.began, |s.log| + 1)]);
    assert k.down == [] by { assert ConnOk(s.conns[c], c, s.server, s.log); }
    var more, moreSteps;
    ss, steps := AskRun(s, c, req, k);
    more, moreSteps := AnswerRun(s, c, req, k, k');
    Join(ss, steps, more, moreSteps);
    ss, steps := ss + more[1..], steps + moreSteps;
  }
}
