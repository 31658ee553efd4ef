/** psrv_call against server_loop (native/pseudoproc/psrv.c, lines 122-141 and 199-204): any number
    of connections, every read and write fragmented in any way.  Each step moves one fragment, so a
    step is one iteration of read_full or write_full on one side. */
module PsrvLinear {

  import opened Bytes
  import H = PsrvHandles

  const MESSAGE: nat := 16

  type Message = seq<byte>

  /** The fields of a request, and a reply as it lies in memory: status, padding, value. */
  function ToRequest(m: Message): H.Request
    requires |m| == MESSAGE
  {
    Word32(m[0..4]);
    Word32(m[4..8]);
    Word64(m[8..16]);
    H.Request(UnLe(m[0..4]), UnLe(m[4..8]), UnLe(m[8..16]))
  }

  /** A request as the client writes it: op, pid, argument. */
  function ToBytes(r: H.Request): (m: Message)
    ensures |m| == MESSAGE
  {
    Le(r.op, 4) + Le(r.pid, 4) + Le(r.arg, 8)
  }

  function FromReply(r: H.Reply): (m: Message)
    ensures |m| == MESSAGE
  {
    Le(r.status % 0x1_0000_0000, 4) + [0, 0, 0, 0] + Le(r.value, 8)
  }

  lemma Word32(bs: seq<byte>)
    requires |bs| == 4
    ensures UnLe(bs) < 0x1_0000_0000
  {
    Powers();
  }

  lemma Word64(bs: seq<byte>)
    requires |bs| == 8
    ensures UnLe(bs) < H.TWO64
  {
    Powers();
  }

  /** The server reads the request that the client's structure holds: op in the first four bytes, pid
      in the next four, the argument in the last eight. */
  lemma RequestFields(r: H.Request)
    ensures ToRequest(Le(r.op, 4) + Le(r.pid, 4) + Le(r.arg, 8)) == r
    ensures ToRequest(ToBytes(r)) == r
  {
    var m := Le(r.op, 4) + Le(r.pid, 4) + Le(r.arg, 8);
    assert m[0..4] == Le(r.op, 4) && m[4..8] == Le(r.pid, 4) && m[8..16] == Le(r.arg, 8);
    Powers();
    WordBack(r.op, 4);
    WordBack(r.pid, 4);
    WordBack(r.arg, 8);
  }

  /** What the client reads out of a reply is what handle_request put in. */
  lemma ReplyFields(r: H.Reply)
    requires r.status in {H.OK, H.REFUSED, H.BAD_OP}
    ensures UnLe(FromReply(r)[8..16]) == r.value
    ensures UnLe(FromReply(r)[0..4]) == r.status % 0x1_0000_0000
  {
    assert FromReply(r)[8..16] == Le(r.value, 8);
    assert FromReply(r)[0..4] == Le(r.status % 0x1_0000_0000, 4);
    Powers();
    WordBack(r.value, 8);
    WordBack(r.status % 0x1_0000_0000, 4);
  }

  /** A finished call: its place in the order of handle_request steps lies between the lengths the
      order had when the call began and when it returned. */
  datatype Call = Call(req: H.Request, reply: Message, began: nat, ended: nat)

  datatype Client =
    | Idle | Sending(req: H.Request, put: nat) | Receiving(req: H.Request, got: Message) | Closed | Dropped

  /** The two directions of a socket pair, its client, the finished calls and, for the statements
      below, the client's places in the log and the requests of its calls. */
  datatype Conn = Conn(
    up: seq<byte>, down: seq<byte>, client: Client, done: seq<Call>, began: nat, turns: seq<nat>,
    begun: seq<H.Request>)

  datatype Server = Polling | Reading(conn: nat, got: Message) | Writing(conn: nat, reply: Message, put: nat)

  datatype Entry = Entry(conn: nat, req: H.Request, reply: Message)

  datatype State = State(conns: map<nat, Conn>, server: Server, table: H.Table, log: seq<Entry>)

  datatype Step =
    | Connect(c: nat)
    | Begin(c: nat, req: H.Request)
    | Send(c: nat, n: nat)
    | Receive(c: nat, n: nat)
    | Close(c: nat)
    | Pick(c: nat)
    | ServerRead(n: nat)
    | Handle
    | ServerWrite(n: nat)
    | WriteFails
    | Drop

  predicate Open(client: Client) { client.Idle? || client.Sending? || client.Receiving? }

  predicate Enabled(s: State, step: Step) {
    match step
    case Connect(c) => c !in s.conns
    case Begin(c, _) => c in s.conns && s.conns[c].client.Idle?
    case Send(c, n) =>
      && c in s.conns && s.conns[c].client.Sending?
      && 1 <= n <= MESSAGE - s.conns[c].client.put
    case Receive(c, n) =>
      && c in s.conns && s.conns[c].client.Receiving?
      && 1 <= n <= MESSAGE - |s.conns[c].client.got| && n <= |s.conns[c].down|
    case Close(c) => c in s.conns && Open(s.conns[c].client)
    case Pick(c) => s.server.Polling? && c in s.conns && (s.conns[c].up != [] || s.conns[c].client.Closed?)
    case ServerRead(n) =>
      && s.server.Reading? && s.server.conn in s.conns
      && 1 <= n <= MESSAGE - |s.server.got| && n <= |s.conns[s.server.conn].up|
    case Handle => s.server.Reading? && |s.server.got| == MESSAGE
    case ServerWrite(n) =>
      && s.server.Writing? && s.server.conn in s.conns && s.conns[s.server.conn].client.Receiving?
      && 1 <= n <= |s.server.reply| - s.server.put
    case WriteFails => s.server.Writing? && s.server.conn in s.conns && s.conns[s.server.conn].client.Closed?
    case Drop =>
      && s.server.Reading? && s.server.conn in s.conns && |s.server.got| < MESSAGE
      && s.conns[s.server.conn].up == [] && s.conns[s.server.conn].client.Closed?
  }

  /** One write of psrv_call; after the last byte it reads. */
  function SentSome(k: Conn, n: nat): Conn
    requires k.client.Sending? && n <= MESSAGE - k.client.put
  {
    var put := k.client.put + n;
    k.(up := k.up + ToBytes(k.client.req)[k.client.put..put],
       client := if put == MESSAGE then Receiving(k.client.req, []) else Sending(k.client.req, put))
  }

  /** One read of psrv_call; with the last byte the call returns. */
  function ReceivedSome(k: Conn, n: nat, now: nat): Conn
    requires k.client.Receiving? && n <= |k.down|
  {
    var got := k.client.got + k.down[..n];
    if |got| == MESSAGE
    then k.(down := k.down[n..], client := Idle, done := k.done + [Call(k.client.req, got, k.began, now)])
    else k.(down := k.down[n..], client := Receiving(k.client.req, got))
  }

  /** handle_request on the message read. */
  function Handled(s: State): State
    requires s.server.Reading? && |s.server.got| == MESSAGE && s.server.conn in s.conns && H.TableOk(s.table)
  {
    var c := s.server.conn;
    var (table, reply) := H.Handle(s.table, ToRequest(s.server.got));
    s.(server := Writing(c, FromReply(reply), 0),
       table := table,
       log := s.log + [Entry(c, ToRequest(s.server.got), FromReply(reply))],
       conns := s.conns[c := s.conns[c].(turns := s.conns[c].turns + [|s.log|])])
  }

  function Put(s: State, c: nat, k: Conn): State { s.(conns := s.conns[c := k]) }

  function Next(s: State, step: Step): State
    requires Enabled(s, step) && H.TableOk(s.table)
    requires s.server.Polling? || s.server.conn in s.conns
  {
    match step
    case Connect(c) => Put(s, c, Conn([], [], Idle, [], 0, [], []))
    case Begin(c, req) =>
      Put(s, c, s.conns[c].(client := Sending(req, 0), began := |s.log|, begun := s.conns[c].begun + [req]))
    case Send(c, n) => Put(s, c, SentSome(s.conns[c], n))
    case Receive(c, n) => Put(s, c, ReceivedSome(s.conns[c], n, |s.log|))
    case Close(c) => Put(s, c, s.conns[c].(client := Closed, down := []))
    case Pick(c) => s.(server := Reading(c, []))
    case ServerRead(n) =>
      var k := s.conns[s.server.conn];
      Put(s, s.server.conn, k.(up := k.up[n..])).(server := Reading(s.server.conn, s.server.got + k.up[..n]))
    case Handle => Handled(s)
    case ServerWrite(n) =>
      var c, reply, put := s.server.conn, s.server.reply, s.server.put + n;
      Put(s, c, s.conns[c].(down := s.conns[c].down + reply[s.server.put..put]))
        .(server := if put == |reply| then Polling else Writing(c, reply, put))
    case WriteFails => s.(server := Polling)
    case Drop => Put(s, s.server.conn, s.conns[s.server.conn].(client := Dropped)).(server := Polling)
  }

  predicate IsInitial(s: State) {
    s == State(map[], Polling, H.InitialTable(), [])
  }

  ghost predicate Follows(s: State, step: Step, t: State) {
    && Enabled(s, step) && H.TableOk(s.table) && (s.server.Polling? || s.server.conn in s.conns)
    && t == Next(s, step)
  }

  ghost predicate Run(ss: seq<State>, steps: seq<Step>) {
    && |ss| == |steps| + 1 && IsInitial(ss[0])
    && forall i :: 0 <= i < |steps| ==> Follows(ss[i], steps[i], ss[i + 1])
  }

  /** What the server holds of connection c's current request, and owes of its reply. */
  function ReadSoFar(v: Server, c: nat): Message {
    if v.Reading? && v.conn == c then v.got else []
  }

  function StillToWrite(v: Server, c: nat): Message {
    if v.Writing? && v.conn == c && v.put <= |v.reply| then v.reply[v.put..] else []
  }

  /** Whether the current call has been handled. */
  predicate Pending(k: Conn) { |k.turns| == |k.done| + 1 }

  /** The bytes of the current call, wherever they are. */
  ghost predicate ConnOk(k: Conn, c: nat, v: Server, log: seq<Entry>) {
    && (k.client.Idle? ==> k.up == [] && ReadSoFar(v, c) == [] && Quiet(k, c, v))
    && (k.client.Closed? || k.client.Dropped? ==> LeftoverOk(k, c, v))
    && (k.client.Dropped? ==> k.up == [])
    && (k.client.Sending? ==>
          && k.client.put < MESSAGE && k.began <= |log|
          && ToBytes(k.client.req)[..k.client.put] == ReadSoFar(v, c) + k.up && Quiet(k, c, v))
    && (k.client.Receiving? ==>
          && |k.client.got| < MESSAGE && k.began <= |log|
          && if Pending(k) then AnswerOk(k, c, v, log)
             else k.client.got == [] && ToBytes(k.client.req) == ReadSoFar(v, c) + k.up && Quiet(k, c, v))
  }

  /** A client that is gone left at most one request behind, whole or in part. */
  ghost predicate LeftoverOk(k: Conn, c: nat, v: Server) {
    && k.down == []
    && if Pending(k) then k.up == [] && ReadSoFar(v, c) == []
       else |k.up| + |ReadSoFar(v, c)| <= MESSAGE && Quiet(k, c, v)
  }

  /** Nothing is on its way to the client. */
  ghost predicate Quiet(k: Conn, c: nat, v: Server) {
    |k.turns| == |k.done| && k.down == [] && !(v.Writing? && v.conn == c)
  }

  /** The reply to the client's own request, partly received, partly in flight, partly unwritten. */
  ghost predicate AnswerOk(k: Conn, c: nat, v: Server, log: seq<Entry>) {
    && k.client.Receiving? && k.up == [] && !(v.Reading? && v.conn == c) && Pending(k)
    && var t := k.turns[|k.turns| - 1];
    && t < |log| && k.began <= t && log[t].conn == c && log[t].req == k.client.req
    && log[t].reply == k.client.got + k.down + StillToWrite(v, c)
  }

  /** The finished calls are the client's entries of the log, in order. */
  ghost predicate HistoryOk(k: Conn, c: nat, log: seq<Entry>) {
    && |k.done| <= |k.turns| <= |k.done| + 1
    && (forall i :: 0 <= i < |k.turns| ==> k.turns[i] < |log| && log[k.turns[i]].conn == c)
    && (forall i, j :: 0 <= i < j < |k.turns| ==> k.turns[i] < k.turns[j])
    && (forall i :: 0 <= i < |k.done| ==>
          && k.done[i].req == log[k.turns[i]].req && k.done[i].reply == log[k.turns[i]].reply
          && k.done[i].began <= k.turns[i] < k.done[i].ended <= |log|)
  }

  ghost predicate ServerOk(s: State) {
    match s.server
    case Polling => true
    case Reading(c, got) =>
      c in s.conns && |got| <= MESSAGE && !s.conns[c].client.Idle? && !s.conns[c].client.Dropped?
    case Writing(c, reply, put) =>
      && c in s.conns && |reply| == MESSAGE && put < MESSAGE
      && (s.conns[c].client.Receiving? || s.conns[c].client.Closed?)
  }

  function Requests(log: seq<Entry>): (rs: seq<H.Request>)
    ensures |rs| == |log|
  {
    seq(|log|, i requires 0 <= i < |log| => log[i].req)
  }

  ghost predicate ReplyOk(log: seq<Entry>, rs: seq<H.Request>, i: nat)
    requires i < |log| == |rs|
  {
    log[i].reply == FromReply(H.ReplyTo(rs, i))
  }

  /** The log is a run of handle_request alone. */
  ghost predicate LogReplies(log: seq<Entry>, table: H.Table) {
    && table == H.After(Requests(log), |log|)
    && (forall i :: 0 <= i < |log| ==> ReplyOk(log, Requests(log), i))
  }

  /** Every entry belongs to a connection. */
  ghost predicate LogConns(log: seq<Entry>, conns: map<nat, Conn>) {
    && (forall i :: 0 <= i < |log| ==> log[i].conn in conns && i in conns[log[i].conn].turns)
    && (forall i :: 0 <= i < |log| ==> |log[i].reply| == MESSAGE)
  }

  ghost predicate Inv(s: State) {
    && ServerOk(s) && LogConns(s.log, s.conns) && H.TableOk(s.table)
    && (forall c :: c in s.conns ==> ConnOk(s.conns[c], c, s.server, s.log))
    && (forall c :: c in s.conns ==> HistoryOk(s.conns[c], c, s.log))
  }

  predicate Serves(v: Server, c: nat) { !v.Polling? && v.conn == c }

  /** A connection does not notice what happens to others. */
  lemma FrameConn(k: Conn, c: nat, v: Server, log: seq<Entry>, v': Server, log': seq<Entry>)
    requires ConnOk(k, c, v, log) && HistoryOk(k, c, log) && log <= log'
    requires v == v' || (!Serves(v, c) && !Serves(v', c))
    ensures ConnOk(k, c, v', log') && HistoryOk(k, c, log')
  {
    FrameHistory(k, c, log, log');
    FrameServer(k, c, v, v');
    if k.client.Receiving? && Pending(k) { FrameAnswer(k, c, v, log, v', log'); }
  }

  lemma FrameServer(k: Conn, c: nat, v: Server, v': Server)
    requires v == v' || (!Serves(v, c) && !Serves(v', c))
    ensures ReadSoFar(v', c) == ReadSoFar(v, c) && Quiet(k, c, v') == Quiet(k, c, v)
    ensures LeftoverOk(k, c, v) ==> LeftoverOk(k, c, v')
  {
  }

  lemma FrameHistory(k: Conn, c: nat, log: seq<Entry>, log': seq<Entry>)
    requires HistoryOk(k, c, log) && log <= log'
    ensures HistoryOk(k, c, log')
  {
  }

  lemma FrameAnswer(k: Conn, c: nat, v: Server, log: seq<Entry>, v': Server, log': seq<Entry>)
    requires AnswerOk(k, c, v, log) && log <= log'
    requires v == v' || (!Serves(v, c) && !Serves(v', c))
    ensures AnswerOk(k, c, v', log')
  {
  }

  ghost predicate AllOk(s: State) {
    && (forall c :: c in s.conns ==> ConnOk(s.conns[c], c, s.server, s.log))
    && (forall c :: c in s.conns ==> HistoryOk(s.conns[c], c, s.log))
  }

  lemma OneChanged(s: State, t: State, c: nat)
    requires AllOk(s) && s.log <= t.log
    requires t.conns.Keys == s.conns.Keys + {c} && forall d :: d in s.conns && d != c ==> t.conns[d] == s.conns[d]
    requires s.server == t.server || forall d :: d != c ==> !Serves(s.server, d) && !Serves(t.server, d)
    requires ConnOk(t.conns[c], c, t.server, t.log) && HistoryOk(t.conns[c], c, t.log)
    ensures AllOk(t)
  {
    forall d | d in t.conns && d != c
      ensures ConnOk(t.conns[d], d, t.server, t.log) && HistoryOk(t.conns[d], d, t.log)
    {
      FrameConn(s.conns[d], d, s.server, s.log, t.server, t.log);
    }
  }

  /** The bytes a client sends are the next of its request. */
  lemma SendBytes(m: Message, put: nat, n: nat, read: Message, up: Message)
    requires put + n <= |m| && m[..put] == read + up
    ensures m[..put + n] == read + (up + m[put..put + n])
    ensures put + n == |m| ==> m[..put + n] == m
  {
    assert m[..put + n] == m[..put] + m[put..put + n];
  }

  lemma SendKeeps(k: Conn, c: nat, v: Server, log: seq<Entry>, n: nat)
    requires ConnOk(k, c, v, log) && HistoryOk(k, c, log)
    requires k.client.Sending? && 1 <= n <= MESSAGE - k.client.put
    ensures ConnOk(SentSome(k, n), c, v, log) && HistoryOk(SentSome(k, n), c, log)
  {
    SendBytes(ToBytes(k.client.req), k.client.put, n, ReadSoFar(v, c), k.up);
    assert SentSome(k, n).turns == k.turns && SentSome(k, n).done == k.done;
  }

  /** The bytes a client takes are the next of its answer. */
  lemma ReceiveBytes(k: Conn, c: nat, v: Server, log: seq<Entry>, n: nat)
    requires AnswerOk(k, c, v, log) && k.client.Receiving? && n <= |k.down|
    ensures (k.client.got + k.down[..n]) + k.down[n..] + StillToWrite(v, c) ==
      k.client.got + k.down + StillToWrite(v, c)
  {
    assert k.down == k.down[..n] + k.down[n..];
  }

  lemma ReceivePart(k: Conn, c: nat, v: Server, log: seq<Entry>, n: nat)
    requires ConnOk(k, c, v, log) && HistoryOk(k, c, log)
    requires k.client.Receiving? && 1 <= n <= |k.down| && n < MESSAGE - |k.client.got|
    ensures var k' := ReceivedSome(k, n, |log|);
            ConnOk(k', c, v, log) && HistoryOk(k', c, log)
  {
    assert Pending(k) && AnswerOk(k, c, v, log);
    ReceiveBytes(k, c, v, log, n);
  }

  lemma LastBytes(got: seq<byte>, down: seq<byte>, left: seq<byte>, n: nat, reply: seq<byte>)
    requires got + down + left == reply && n <= |down| && |got| + n == |reply|
    ensures down[n..] == [] && left == [] && got + down[..n] == reply
  {
    assert |got + down + left| == |got| + |down| + |left|;
  }

  lemma ReceiveLast(k: Conn, c: nat, v: Server, log: seq<Entry>, n: nat)
    requires ConnOk(k, c, v, log) && HistoryOk(k, c, log)
    requires forall i :: 0 <= i < |log| ==> |log[i].reply| == MESSAGE
    requires k.client.Receiving? && 1 <= n <= |k.down| && n == MESSAGE - |k.client.got|
    requires v.Writing? && v.conn == c ==> v.put < |v.reply|
    ensures var k' := ReceivedSome(k, n, |log|);
            ConnOk(k', c, v, log) && HistoryOk(k', c, log)
  {
    assert Pending(k) && AnswerOk(k, c, v, log);
    LastBytes(k.client.got, k.down, StillToWrite(v, c), n, log[k.turns[|k.turns| - 1]].reply);
  }

  lemma ReceiveKeeps(k: Conn, c: nat, v: Server, log: seq<Entry>, n: nat)
    requires ConnOk(k, c, v, log) && HistoryOk(k, c, log)
    requires forall i :: 0 <= i < |log| ==> |log[i].reply| == MESSAGE
    requires k.client.Receiving? && 1 <= n <= |k.down| && n <= MESSAGE - |k.client.got|
    requires v.Writing? && v.conn == c ==> v.put < |v.reply|
    ensures var k' := ReceivedSome(k, n, |log|);
            ConnOk(k', c, v, log) && HistoryOk(k', c, log)
  {
    if n < MESSAGE - |k.client.got| { ReceivePart(k, c, v, log, n); } else { ReceiveLast(k, c, v, log, n); }
  }

  lemma ServerReadKeeps(k: Conn, c: nat, got: Message, log: seq<Entry>, n: nat)
    requires ConnOk(k, c, Reading(c, got), log) && HistoryOk(k, c, log) && 1 <= n <= |k.up|
    ensures ConnOk(k.(up := k.up[n..]), c, Reading(c, got + k.up[..n]), log)
    ensures HistoryOk(k.(up := k.up[n..]), c, log)
  {
    assert got + k.up == (got + k.up[..n]) + k.up[n..];
  }

  lemma HandleHistory(k: Conn, c: nat, got: Message, log: seq<Entry>, reply: Message)
    requires HistoryOk(k, c, log) && |k.turns| == |k.done| && |got| == |reply| == MESSAGE
    ensures HistoryOk(k.(turns := k.turns + [|log|]), c, log + [Entry(c, ToRequest(got), reply)])
  {
  }

  lemma HandleKeeps(k: Conn, c: nat, got: Message, log: seq<Entry>, reply: Message)
    requires ConnOk(k, c, Reading(c, got), log) && HistoryOk(k, c, log) && |got| == |reply| == MESSAGE
    requires !k.client.Dropped?
    ensures k.client.Receiving? || k.client.Closed?
    ensures var k' := k.(turns := k.turns + [|log|]);
            var log' := log + [Entry(c, ToRequest(got), reply)];
            ConnOk(k', c, Writing(c, reply, 0), log') && HistoryOk(k', c, log')
  {
    assert ReadSoFar(Reading(c, got), c) == got;
    HandleHistory(k, c, got, log, reply);
    assert reply[0..] == reply;
    if k.client.Receiving? {
      assert |ToBytes(k.client.req)| == |got| + |k.up|;
      assert k.up == [] && got + k.up == got;
      RequestFields(k.client.req);
      assert k.client.got + k.down + reply == reply;
    }
  }

  lemma Regroup(a: seq<byte>, b: seq<byte>, whole: seq<byte>, head: seq<byte>, tail: seq<byte>)
    requires whole == head + tail
    ensures a + b + whole == a + (b + head) + tail
  {
  }

  lemma SameHistory(k: Conn, k': Conn, c: nat, log: seq<Entry>)
    requires HistoryOk(k, c, log) && k'.turns == k.turns && k'.done == k.done
    ensures HistoryOk(k', c, log)
  {
  }

  lemma WriteMovesBytes(k: Conn, c: nat, reply: Message, put: nat, log: seq<Entry>, n: nat, v': Server)
    requires AnswerOk(k, c, Writing(c, reply, put), log) && |reply| == MESSAGE && 1 <= n <= |reply| - put
    requires v' == if put + n == |reply| then Polling else Writing(c, reply, put + n)
    ensures AnswerOk(k.(down := k.down + reply[put..put + n]), c, v', log)
  {
    Regroup(k.client.got, k.down, reply[put..], reply[put..put + n], reply[put + n..]);
    assert StillToWrite(v', c) == reply[put + n..];
  }

  lemma ServerWriteKeeps(k: Conn, c: nat, reply: Message, put: nat, log: seq<Entry>, n: nat)
    requires ConnOk(k, c, Writing(c, reply, put), log) && HistoryOk(k, c, log)
    requires |reply| == MESSAGE && k.client.Receiving? && 1 <= n <= |reply| - put
    ensures var k' := k.(down := k.down + reply[put..put + n]);
            var v' := if put + n == |reply| then Polling else Writing(c, reply, put + n);
            ConnOk(k', c, v', log) && HistoryOk(k', c, log)
  {
    var v' := if put + n == |reply| then Polling else Writing(c, reply, put + n);
    assert Pending(k);
    WriteMovesBytes(k, c, reply, put, log, n, v');
    SameHistory(k, k.(down := k.down + reply[put..put + n]), c, log);
  }

  lemma {:induction false} AfterPrefix(rs: seq<H.Request>, more: seq<H.Request>, n: nat)
    requires n <= |rs| && rs <= more
    ensures H.After(rs, n) == H.After(more, n)
    ensures n < |rs| ==> H.ReplyTo(rs, n) == H.ReplyTo(more, n)
  {
    if n > 0 { AfterPrefix(rs, more, n - 1); }
  }

  /** Earlier replies stay right as the log grows. */
  lemma {:induction false} RepliesStay(log: seq<Entry>, log': seq<Entry>, rs: seq<H.Request>, rs': seq<H.Request>)
    requires |rs| == |log| && |rs'| == |log'| && log <= log' && rs <= rs'
    requires forall i :: 0 <= i < |log| ==> ReplyOk(log, rs, i)
    ensures forall i :: 0 <= i < |log| ==> ReplyOk(log', rs', i)
  {
    forall i | 0 <= i < |log| ensures ReplyOk(log', rs', i) {
      assert ReplyOk(log, rs, i);
      AfterPrefix(rs, rs', i);
    }
  }

  lemma AppendRequests(log: seq<Entry>, entry: Entry)
    ensures Requests(log + [entry]) == Requests(log) + [entry.req]
  {
  }

  lemma {:induction false} AppendReplyOk(log: seq<Entry>, log': seq<Entry>, rs: seq<H.Request>, rs': seq<H.Request>)
    requires |rs| == |log| && |rs'| == |log'| == |log| + 1 && log <= log' && rs <= rs'
    requires forall i :: 0 <= i < |log| ==> ReplyOk(log, rs, i)
    requires ReplyOk(log', rs', |log|)
    ensures forall i :: 0 <= i < |log'| ==> ReplyOk(log', rs', i)
  {
    RepliesStay(log, log', rs, rs');
  }

  lemma {:induction false} AppendReplies(log: seq<Entry>, entry: Entry, table: H.Table, table': H.Table)
    requires LogReplies(log, table)
    requires entry.reply == FromReply(H.ReplyTo(Requests(log) + [entry.req], |log|))
    requires table' == H.After(Requests(log) + [entry.req], |log| + 1)
    ensures LogReplies(log + [entry], table')
  {
    var log' := log + [entry];
    AppendRequests(log, entry);
    AppendReplyOk(log, log', Requests(log), Requests(log'));
  }

  lemma {:induction false} HandleExtendsReplies(log: seq<Entry>, table: H.Table, c: nat, req: H.Request)
    requires LogReplies(log, table)
    ensures H.TableOk(table)
    ensures var (table', reply) := H.Handle(table, req);
            LogReplies(log + [Entry(c, req, FromReply(reply))], table')
  {
    var (table', reply) := H.Handle(table, req);
    var rs := Requests(log);
    var rs' := rs + [req];
    AfterPrefix(rs, rs', |rs|);
    assert H.ReplyTo(rs', |rs|) == reply && H.After(rs', |rs| + 1) == table';
    AppendReplies(log, Entry(c, req, FromReply(reply)), table, table');
  }

  lemma HandleExtendsConns(log: seq<Entry>, conns: map<nat, Conn>, c: nat, e: Entry)
    requires LogConns(log, conns) && c in conns && e.conn == c && |e.reply| == MESSAGE
    ensures LogConns(log + [e], conns[c := conns[c].(turns := conns[c].turns + [|log|])])
  {
    var log', conns' := log + [e], conns[c := conns[c].(turns := conns[c].turns + [|log|])];
    forall i | 0 <= i < |log'| ensures log'[i].conn in conns' && i in conns'[log'[i].conn].turns {
      if i < |log| {
        assert i in conns[log[i].conn].turns;
      } else {
        assert conns'[c].turns[|conns[c].turns|] == i;
      }
    }
  }

  lemma ConnsUnchanged(log: seq<Entry>, conns: map<nat, Conn>, c: nat, k: Conn)
    requires LogConns(log, conns) && (c in conns ==> k.turns == conns[c].turns)
    ensures LogConns(log, conns[c := k])
  {
    forall i | 0 <= i < |log| ensures log[i].conn in conns[c := k] && i in conns[c := k][log[i].conn].turns {
      assert i in conns[log[i].conn].turns;
    }
  }

  /** A step that logs nothing, changes one connection and perhaps what the server does. */
  lemma QuietStep(s: State, c: nat, k: Conn, v: Server, t: State)
    requires Inv(s) && t == State(s.conns[c := k], v, s.table, s.log)
    requires c in s.conns ==> k.turns == s.conns[c].turns
    requires s.server == v || forall d :: d != c ==> !Serves(s.server, d) && !Serves(v, d)
    requires ConnOk(k, c, v, s.log) && HistoryOk(k, c, s.log) && ServerOk(t)
    ensures Inv(t)
  {
    OneChanged(s, t, c);
    ConnsUnchanged(s.log, s.conns, c, k);
  }

  ghost predicate StepOk(s: State, step: Step) {
    Inv(s) && Enabled(s, step)
  }

  lemma ConnectKeeps(s: State, c: nat)
    requires StepOk(s, Connect(c))
    ensures Inv(Next(s, Connect(c)))
  {
    QuietStep(s, c, Conn([], [], Idle, [], 0, [], []), s.server, Next(s, Connect(c)));
  }

  lemma BeginKeeps(s: State, c: nat, req: H.Request)
    requires StepOk(s, Begin(c, req))
    ensures Inv(Next(s, Begin(c, req)))
  {
    var k := s.conns[c].(client := Sending(req, 0), began := |s.log|, begun := s.conns[c].begun + [req]);
    QuietStep(s, c, k, s.server, Next(s, Begin(c, req)));
  }

  lemma CloseKeeps(s: State, c: nat)
    requires StepOk(s, Close(c))
    ensures Inv(Next(s, Close(c)))
  {
    assert ConnOk(s.conns[c], c, s.server, s.log) && HistoryOk(s.conns[c], c, s.log);
    CloseLocal(s.conns[c], c, s.server, s.log);
    QuietStep(s, c, s.conns[c].(client := Closed, down := []), s.server, Next(s, Close(c)));
  }

  /** A client may close in the middle of a call; what it sent stays readable. */
  lemma CloseLocal(k: Conn, c: nat, v: Server, log: seq<Entry>)
    requires ConnOk(k, c, v, log) && HistoryOk(k, c, log) && Open(k.client)
    ensures ConnOk(k.(client := Closed, down := []), c, v, log)
    ensures HistoryOk(k.(client := Closed, down := []), c, log)
  {
    if k.client.Sending? { assert |ToBytes(k.client.req)[..k.client.put]| == |ReadSoFar(v, c) + k.up|; }
    if k.client.Receiving? && !Pending(k) { assert |ToBytes(k.client.req)| == |ReadSoFar(v, c) + k.up|; }
  }

  lemma SendStepKeeps(s: State, c: nat, n: nat)
    requires StepOk(s, Send(c, n))
    ensures Inv(Next(s, Send(c, n)))
  {
    SendKeeps(s.conns[c], c, s.server, s.log, n);
    QuietStep(s, c, SentSome(s.conns[c], n), s.server, Next(s, Send(c, n)));
  }

  lemma ReceiveStepKeeps(s: State, c: nat, n: nat)
    requires StepOk(s, Receive(c, n))
    ensures Inv(Next(s, Receive(c, n)))
  {
    ReceiveKeeps(s.conns[c], c, s.server, s.log, n);
    ReceiverServed(s, c, n);
    QuietStep(s, c, ReceivedSome(s.conns[c], n, |s.log|), s.server, Next(s, Receive(c, n)));
  }

  /** While the server still owes bytes, no receive is the last. */
  lemma ReceiverServed(s: State, c: nat, n: nat)
    requires StepOk(s, Receive(c, n))
    ensures ServerOk(Next(s, Receive(c, n)))
  {
    var k := s.conns[c];
    assert ConnOk(k, c, s.server, s.log) && HistoryOk(k, c, s.log);
    assert Pending(k) && AnswerOk(k, c, s.server, s.log);
    if s.server.Writing? && s.server.conn == c {
      assert |StillToWrite(s.server, c)| > 0;
      assert |k.client.got + k.down[..n]| < MESSAGE;
    }
  }

  lemma PickKeeps(s: State, c: nat)
    requires StepOk(s, Pick(c))
    ensures Inv(Next(s, Pick(c)))
  {
    assert s.conns[c := s.conns[c]] == s.conns;
    assert ConnOk(s.conns[c], c, s.server, s.log) && HistoryOk(s.conns[c], c, s.log);
    PickLocal(s.conns[c], c, s.log);
    QuietStep(s, c, s.conns[c], Reading(c, []), Next(s, Pick(c)));
  }

  lemma PickLocal(k: Conn, c: nat, log: seq<Entry>)
    requires ConnOk(k, c, Polling, log) && HistoryOk(k, c, log) && (k.up != [] || k.client.Closed?)
    ensures ConnOk(k, c, Reading(c, []), log) && !k.client.Idle? && !k.client.Dropped?
  {
  }

  lemma ServerReadStepKeeps(s: State, n: nat)
    requires StepOk(s, ServerRead(n))
    ensures Inv(Next(s, ServerRead(n)))
  {
    var c, got := s.server.conn, s.server.got;
    var k := s.conns[c];
    ServerReadKeeps(k, c, got, s.log, n);
    QuietStep(s, c, k.(up := k.up[n..]), Reading(c, got + k.up[..n]), Next(s, ServerRead(n)));
  }

  lemma ServerWriteStepKeeps(s: State, n: nat)
    requires StepOk(s, ServerWrite(n))
    ensures Inv(Next(s, ServerWrite(n)))
  {
    var c, reply, put := s.server.conn, s.server.reply, s.server.put;
    var k := s.conns[c];
    ServerWriteKeeps(k, c, reply, put, s.log, n);
    var k' := k.(down := k.down + reply[put..put + n]);
    var v := if put + n == |reply| then Polling else Writing(c, reply, put + n);
    assert Next(s, ServerWrite(n)) == State(s.conns[c := k'], v, s.table, s.log);
    QuietStep(s, c, k', v, Next(s, ServerWrite(n)));
  }

  lemma WriteFailsKeeps(s: State)
    requires StepOk(s, WriteFails)
    ensures Inv(Next(s, WriteFails))
  {
    var c := s.server.conn;
    assert s.conns[c := s.conns[c]] == s.conns;
    assert ConnOk(s.conns[c], c, s.server, s.log) && HistoryOk(s.conns[c], c, s.log);
    QuietStep(s, c, s.conns[c], Polling, Next(s, WriteFails));
  }

  lemma DropKeeps(s: State)
    requires StepOk(s, Drop)
    ensures Inv(Next(s, Drop))
  {
    var c := s.server.conn;
    assert ConnOk(s.conns[c], c, s.server, s.log) && HistoryOk(s.conns[c], c, s.log);
    QuietStep(s, c, s.conns[c].(client := Dropped), Polling, Next(s, Drop));
  }

  lemma LoggedStep(s: State, c: nat, got: Message, reply: Message, table: H.Table, t: State)
    requires AllOk(s) && LogConns(s.log, s.conns) && c in s.conns && s.server == Reading(c, got)
    requires |got| == |reply| == MESSAGE && H.TableOk(table) && !s.conns[c].client.Dropped?
    requires t == State(s.conns[c := s.conns[c].(turns := s.conns[c].turns + [|s.log|])],
                        Writing(c, reply, 0), table, s.log + [Entry(c, ToRequest(got), reply)])
    ensures AllOk(t) && LogConns(t.log, t.conns) && (t.conns[c].client.Receiving? || t.conns[c].client.Closed?)
  {
    HandleExtendsConns(s.log, s.conns, c, Entry(c, ToRequest(got), reply));
    HandleKeeps(s.conns[c], c, got, s.log, reply);
    OneChanged(s, t, c);
  }

  lemma HandleStepKeeps(s: State)
    requires StepOk(s, Handle)
    ensures Inv(Next(s, Handle))
  {
    var handled := H.Handle(s.table, ToRequest(s.server.got));
    LoggedStep(s, s.server.conn, s.server.got, FromReply(handled.1), handled.0, Next(s, Handle));
  }

  lemma StepKeeps(s: State, step: Step)
    requires StepOk(s, step)
    ensures Inv(Next(s, step))
  {
    match step
    case Connect(c) => ConnectKeeps(s, c);
    case Begin(c, req) => BeginKeeps(s, c, req);
    case Send(c, n) => SendStepKeeps(s, c, n);
    case Receive(c, n) => ReceiveStepKeeps(s, c, n);
    case Close(c) => CloseKeeps(s, c);
    case Pick(c) => PickKeeps(s, c);
    case ServerRead(n) => ServerReadStepKeeps(s, n);
    case Handle => HandleStepKeeps(s);
    case ServerWrite(n) => ServerWriteStepKeeps(s, n);
    case WriteFails => WriteFailsKeeps(s);
    case Drop => DropKeeps(s);
  }

  lemma {:induction false} InvAt(ss: seq<State>, steps: seq<Step>, n: nat)
    requires Run(ss, steps) && n < |ss|
    ensures Inv(ss[n])
  {
    if n > 0 {
      InvAt(ss, steps, n - 1);
      assert Follows(ss[n - 1], steps[n - 1], ss[n]);
      StepKeeps(ss[n - 1], steps[n - 1]);
    }
  }

  lemma StepKeepsReplies(s: State, step: Step, t: State)
    requires LogReplies(s.log, s.table) && Follows(s, step, t)
    ensures LogReplies(t.log, t.table)
  {
    if step.Handle? { HandleExtendsReplies(s.log, s.table, s.server.conn, ToRequest(s.server.got)); }
  }

  lemma {:induction false} RepliesAt(ss: seq<State>, steps: seq<Step>, n: nat)
    requires Run(ss, steps) && n < |ss|
    ensures LogReplies(ss[n].log, ss[n].table)
  {
    if n > 0 {
      RepliesAt(ss, steps, n - 1);
      assert Follows(ss[n - 1], steps[n - 1], ss[n]);
      StepKeepsReplies(ss[n - 1], steps[n - 1], ss[n]);
    } else {
      assert Requests(ss[0].log) == [];
    }
  }

  /** Linearizability.  In every reachable state the log is a sequential run of handle_request; every
      entry belongs to a client; each client's finished calls are its log entries in program order,
      each with the reply computed for its own request; and a call's place in the log lies between
      its start and its return. */
  lemma Linearizable(ss: seq<State>, steps: seq<Step>, n: nat)
    requires Run(ss, steps) && n < |ss|
    ensures LogReplies(ss[n].log, ss[n].table) && LogConns(ss[n].log, ss[n].conns)
    ensures forall c :: c in ss[n].conns ==> HistoryOk(ss[n].conns[c], c, ss[n].log)
    ensures forall c :: c in ss[n].conns && (ss[n].conns[c].client.Idle? || ss[n].conns[c].client.Sending?) ==>
      |ss[n].conns[c].turns| == |ss[n].conns[c].done|
  {
    InvAt(ss, steps, n);
    RepliesAt(ss, steps, n);
    forall c | c in ss[n].conns && (ss[n].conns[c].client.Idle? || ss[n].conns[c].client.Sending?)
      ensures |ss[n].conns[c].turns| == |ss[n].conns[c].done|
    {
      assert ConnOk(ss[n].conns[c], c, ss[n].server, ss[n].log);
    }
  }

  /** A call that returned before another began comes before it in the log. */
  lemma RealTimeOrder(s: State, c: nat, i: nat, d: nat, j: nat)
    requires Inv(s) && c in s.conns && d in s.conns
    requires i < |s.conns[c].done| && j < |s.conns[d].done|
    requires s.conns[c].done[i].ended <= s.conns[d].done[j].began
    ensures s.conns[c].turns[i] < s.conns[d].turns[j]
  {
    assert HistoryOk(s.conns[c], c, s.log) && HistoryOk(s.conns[d], d, s.log);
  }

  /** The next handle while some are left, for DUP only of one granted before to a nonzero pid. */
  function AllocationReply(rs: seq<H.Request>, i: nat): H.Reply
    requires i < |rs| && H.Grants(rs, i) <= H.MAX_HANDLES - 1
  {
    if H.Grants(rs, i) < H.MAX_HANDLES - 1 &&
      (rs[i].op == H.PSRV_NEW_HANDLE || H.Duplicable(rs, i, rs[i].arg))
    then H.Reply(H.OK, H.Grants(rs, i) + 1)
    else H.Reply(H.REFUSED, 0)
  }

  lemma {:induction false} AllocationInLog(log: seq<Entry>, rs: seq<H.Request>, i: nat)
    requires i < |log| == |rs| && ReplyOk(log, rs, i) && |rs| + 1 < H.TWO64 && H.IsAllocation(rs[i])
    ensures H.Grants(rs, i) <= H.MAX_HANDLES - 1
    ensures log[i].reply == FromReply(AllocationReply(rs, i))
  {
    H.AllocationReply(rs, i);
  }

  /** Across all clients, granted handles are 1, 2, 3, ... in log order; the reply to every
      allocation is decided by what the log granted before. */
  lemma {:induction false} HandlesAcrossClients(ss: seq<State>, steps: seq<Step>, n: nat, i: nat)
    requires Run(ss, steps) && n < |ss| && i < |ss[n].log| && |ss[n].log| + 1 < H.TWO64
    ensures LogReplies(ss[n].log, ss[n].table)
    ensures var log := ss[n].log; var rs := Requests(log);
      H.IsAllocation(rs[i]) ==>
        H.Grants(rs, i) <= H.MAX_HANDLES - 1 && log[i].reply == FromReply(AllocationReply(rs, i))
  {
    RepliesAt(ss, steps, n);
    var rs := Requests(ss[n].log);
    assert ReplyOk(ss[n].log, rs, i);
    if H.IsAllocation(rs[i]) { AllocationInLog(ss[n].log, rs, i); }
  }
}
