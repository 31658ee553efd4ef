/** read_full and write_full of native/pseudoproc/psrv.c against any behaviour of read and write:
    short transfers, interruptions, end of file, errors. */
module PsrvIo {

  import opened Bytes

  /** One return of read or write. */
  datatype Io = Moved(n: nat) | Interrupted | EndOfFile | Failed

  /** Full: all bytes moved.  Blocked: the calls made so far did not finish the transfer. */
  datatype Outcome = Full | Zero | Error | Blocked

  /** What the loop makes of the calls from the i-th on, with `need` bytes to go. */
  function Result(calls: seq<Io>, i: nat, need: nat): Outcome
    requires i <= |calls|
    decreases |calls| - i
  {
    if need == 0 then Full
    else if i == |calls| then Blocked
    else match calls[i]
         case Moved(n) => Result(calls, i + 1, if n <= need then need - n else 0)
         case Interrupted => Result(calls, i + 1, need)
         case EndOfFile => Zero
         case Failed => Error
  }

  /** A transfer never exceeds what was asked for or what there is; a read moves at least a byte. */
  ghost predicate Kernel(calls: seq<Io>, i: nat, need: nat, available: nat, least: nat)
    requires i <= |calls|
    decreases |calls| - i
  {
    if need == 0 || i == |calls| then true
    else match calls[i]
         case Moved(n) =>
           least <= n <= need && n <= available && Kernel(calls, i + 1, need - n, available - n, least)
         case Interrupted => Kernel(calls, i + 1, need, available, least)
         case EndOfFile => true
         case Failed => true
  }

  /** Fills buf[..len] with the next len bytes of the stream, however they arrive. */
  method ReadFull(stream: seq<byte>, calls: seq<Io>, buf: array<byte>, len: nat) returns (r: Outcome)
    requires len <= buf.Length && Kernel(calls, 0, len, |stream|, 1)
    modifies buf
    ensures r == Result(calls, 0, len)
    ensures r == Full ==> len <= |stream| && buf[..len] == stream[..len]
    ensures buf[len..] == old(buf[len..])
  {
    var got, i := 0, 0;
    while got < len
      invariant got <= len && got <= |stream| && i <= |calls|
      invariant Kernel(calls, i, len - got, |stream| - got, 1)
      invariant Result(calls, 0, len) == Result(calls, i, len - got)
      invariant buf[..got] == stream[..got] && buf[len..] == old(buf[len..])
      decreases |calls| - i
    {
      if i == |calls| { return Blocked; }
      match calls[i] {
        case EndOfFile => return Zero;
        case Failed => return Error;
        case Interrupted =>
        case Moved(n) =>
          Copy(buf, got, stream[got..got + n]);
          assert buf[..got + n] == buf[..got] + buf[got..got + n];
          got := got + n;
      }
      i := i + 1;
    }
    return Full;
  }

  method Copy(buf: array<byte>, at: nat, chunk: seq<byte>)
    requires at + |chunk| <= buf.Length
    modifies buf
    ensures buf[at..at + |chunk|] == chunk
    ensures buf[..at] == old(buf[..at]) && buf[at + |chunk|..] == old(buf[at + |chunk|..])
  {
    for k := 0 to |chunk|
      invariant buf[at..at + k] == chunk[..k]
      invariant buf[..at] == old(buf[..at]) && buf[at + |chunk|..] == old(buf[at + |chunk|..])
    {
      buf[at + k] := chunk[k];
      assert buf[at..at + k + 1] == buf[at..at + k] + [chunk[k]];
    }
  }

  /** Sends data in order; what was sent is always a prefix, and all of it on success. */
  method WriteFull(data: seq<byte>, calls: seq<Io>) returns (r: Outcome, sent: seq<byte>)
    requires Kernel(calls, 0, |data|, |data|, 0) && EndOfFile !in calls
    ensures r == Result(calls, 0, |data|)
    ensures sent <= data && (r == Full <==> sent == data)
  {
    var put, i := 0, 0;
    sent := [];
    while put < |data|
      invariant put <= |data| && i <= |calls|
      invariant Kernel(calls, i, |data| - put, |data| - put, 0)
      invariant Result(calls, 0, |data|) == Result(calls, i, |data| - put)
      invariant sent == data[..put]
      decreases |calls| - i
    {
      if i == |calls| { return Blocked, sent; }
      match calls[i] {
        case Failed => return Error, sent;
        case Interrupted =>
        case Moved(n) =>
          sent := sent + data[put..put + n];
          put := put + n;
      }
      i := i + 1;
    }
    return Full, sent;
  }

  /** Only an end of file or an error stops a transfer short: without them, it is full as soon as
      the calls moved enough bytes. */
  lemma {:induction false} FullUnlessCutShort(calls: seq<Io>, i: nat, need: nat)
    requires i <= |calls| && forall k :: i <= k < |calls| ==> calls[k].Moved? || calls[k].Interrupted?
    ensures Result(calls, i, need) == Full <==> need <= Total(calls, i)
    ensures Result(calls, i, need) == Blocked <==> need > Total(calls, i)
    decreases |calls| - i
  {
    if need > 0 && i < |calls| {
      match calls[i]
      case Moved(n) => FullUnlessCutShort(calls, i + 1, if n <= need then need - n else 0);
      case Interrupted => FullUnlessCutShort(calls, i + 1, need);
    }
  }

  function Total(calls: seq<Io>, i: nat): nat
    requires i <= |calls|
    decreases |calls| - i
  {
    if i == |calls| then 0
    else (if calls[i].Moved? then calls[i].n else 0) + Total(calls, i + 1)
  }
}
