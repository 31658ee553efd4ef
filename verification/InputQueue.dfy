/** Input from touch and keyboard to the guest: the 512-entry ring of WineDisplayHost.c and the
    claimed drain loop of the driver (native/patches/0007-ios-display-driver.patch). */
module InputQueue {

  const QUEUE_LEN: nat := 512

  /** struct wineios_event; `kind` is the raw type field. */
  datatype Event =
    Event(kind: nat, surfaceId: nat, x: int, y: int, button: nat, wheel: int, vk: nat, ch: nat, down: bool)

  const MOUSE_MOVE: nat := 1
  const MOUSE_BUTTON: nat := 2
  const MOUSE_WHEEL: nat := 3
  const KEY: nat := 4
  const CHAR: nat := 5
  const BUTTON_RIGHT: nat := 1
  const BUTTON_MIDDLE: nat := 2

  /** A bounded queue that drops the newest when full. */
  function Enqueued(q: seq<Event>, ev: Event): seq<Event> {
    if |q| < QUEUE_LEN then q + [ev] else q
  }

  class EventRing {
    const queue: array<Event>
    var head: nat
    var count: nat

    ghost predicate Valid()
      reads this, queue
    {
      queue.Length == QUEUE_LEN && head < QUEUE_LEN && count <= QUEUE_LEN
    }

    ghost function Contents(): (q: seq<Event>)
      requires Valid()
      reads this, queue
      ensures |q| == count
    {
      seq(count, i requires 0 <= i < count reads this, queue requires Valid() => queue[(head + i) % QUEUE_LEN])
    }

    constructor (zero: Event)
      ensures Valid() && fresh(queue) && Contents() == []
    {
      queue := new Event[QUEUE_LEN](_ => zero);
      head, count := 0, 0;
    }

    method Enqueue(ev: Event)
      requires Valid()
      modifies this`count, queue
      ensures Valid() && Contents() == Enqueued(old(Contents()), ev)
      ensures |old(Contents())| < 512 ==> Contents() == old(Contents()) + [ev]
      ensures |old(Contents())| == 512 ==> Contents() == old(Contents())
    {
      if count < QUEUE_LEN {
        queue[(head + count) % QUEUE_LEN] := ev;
        count := count + 1;
      }
    }

    /** The section of cb_next_event after the wait loop, or None when it has to wait. */
    method Dequeue() returns (got: bool, ev: Event)
      requires Valid()
      modifies this`head, this`count
      ensures Valid() && (got <==> old(Contents()) != [])
      ensures got ==> ev == old(Contents())[0] && Contents() == old(Contents())[1..]
      ensures !got ==> Contents() == old(Contents())
    {
      ev := queue[head];
      got := count > 0;
      if got {
        head := (head + 1) % QUEUE_LEN;
        count := count - 1;
      }
    }
  }

  // ---- what one event injects ---------------------------------------------------------------

  datatype Flag =
    | Move | Absolute | Wheel | LeftDown | LeftUp | RightDown | RightUp | MiddleDown | MiddleUp | KeyUp | Unicode

  /** The INPUT structure handed to NtUserSendHardwareInput, with its target window. */
  datatype Input =
    | Mouse(hwnd: nat, dx: int, dy: int, data: int, flags: set<Flag>)
    | Keyboard(hwnd: nat, vk: nat, scan: nat, flags: set<Flag>)

  function ButtonFlag(button: nat, down: bool): Flag {
    if button == BUTTON_RIGHT then (if down then RightDown else RightUp)
    else if button == BUTTON_MIDDLE then (if down then MiddleDown else MiddleUp)
    else (if down then LeftDown else LeftUp)
  }

  /** inject_event: a character is a press and a release, an unknown type nothing. */
  function Expand(ev: Event, hwnd: nat): seq<Input> {
    if ev.kind == MOUSE_MOVE then [Mouse(hwnd, ev.x, ev.y, 0, {Move, Absolute})]
    else if ev.kind == MOUSE_BUTTON then [Mouse(hwnd, ev.x, ev.y, 0, {Move, Absolute, ButtonFlag(ev.button, ev.down)})]
    else if ev.kind == MOUSE_WHEEL then [Mouse(hwnd, ev.x, ev.y, ev.wheel, {Wheel})]
    else if ev.kind == KEY then [Keyboard(hwnd, ev.vk, 0, if ev.down then {} else {KeyUp})]
    else if ev.kind == CHAR then [Keyboard(hwnd, 0, ev.ch, {Unicode}), Keyboard(hwnd, 0, ev.ch, {Unicode, KeyUp})]
    else []
  }

  /** inject_event in place: one INPUT is filled in and sent, for a character twice. */
  method InjectEvent(ev: Event, hwnd: nat) returns (sent: seq<Input>)
    ensures sent == Expand(ev, hwnd)
    ensures |sent| == if ev.kind == CHAR then 2 else if 1 <= ev.kind <= 4 then 1 else 0
    ensures forall i :: 0 <= i < |sent| ==> sent[i].hwnd == hwnd && (sent[i].Mouse? <==> ev.kind <= 3)
    ensures ev.kind == MOUSE_MOVE || ev.kind == MOUSE_BUTTON || ev.kind == MOUSE_WHEEL ==>
      sent[0].dx == ev.x && sent[0].dy == ev.y && sent[0].data == if ev.kind == MOUSE_WHEEL then ev.wheel else 0
    ensures ev.kind == MOUSE_MOVE ==> sent[0].flags == {Move, Absolute}
    ensures ev.kind == MOUSE_WHEEL ==> sent[0].flags == {Wheel}
    ensures ev.kind == MOUSE_BUTTON && ev.button != 1 && ev.button != 2 ==>
      sent[0].flags == {Move, Absolute} + (if ev.down then {LeftDown} else {LeftUp})
    ensures ev.kind == MOUSE_BUTTON && ev.button == 1 ==>
      sent[0].flags == {Move, Absolute} + (if ev.down then {RightDown} else {RightUp})
    ensures ev.kind == MOUSE_BUTTON && ev.button == 2 ==>
      sent[0].flags == {Move, Absolute} + (if ev.down then {MiddleDown} else {MiddleUp})
    ensures ev.kind == KEY ==>
      sent[0].vk == ev.vk && sent[0].scan == 0 && sent[0].flags == if ev.down then {} else {KeyUp}
    ensures ev.kind == CHAR ==>
      && sent[0].vk == sent[1].vk == 0 && sent[0].scan == sent[1].scan == ev.ch
      && sent[0].flags == {Unicode} && sent[1].flags == {Unicode, KeyUp}
  {
    sent := [];
    var input: Input;
    if ev.kind == MOUSE_MOVE {
      input := Mouse(hwnd, ev.x, ev.y, 0, {Move, Absolute});
    } else if ev.kind == MOUSE_BUTTON {
      var flags := {Move, Absolute};
      if ev.button == BUTTON_RIGHT {
        flags := flags + {if ev.down then RightDown else RightUp};
      } else if ev.button == BUTTON_MIDDLE {
        flags := flags + {if ev.down then MiddleDown else MiddleUp};
      } else {
        flags := flags + {if ev.down then LeftDown else LeftUp};
      }
      assert flags == {Move, Absolute, ButtonFlag(ev.button, ev.down)};
      input := Mouse(hwnd, ev.x, ev.y, 0, flags);
    } else if ev.kind == MOUSE_WHEEL {
      input := Mouse(hwnd, ev.x, ev.y, ev.wheel, {Wheel});
    } else if ev.kind == KEY {
      input := Keyboard(hwnd, ev.vk, 0, if ev.down then {} else {KeyUp});
    } else if ev.kind == CHAR {
      sent := [Keyboard(hwnd, 0, ev.ch, {Unicode})];
      input := Keyboard(hwnd, 0, ev.ch, {Unicode, KeyUp});
    } else {
      return;
    }
    sent := sent + [input];
  }

  // ---- producers and pumps ------------------------------------------------------------------

  /** A thread running iosdrv_unix_run_input_loop. */
  datatype Pump =
    | Entering
    | Polling                                // holds the claim, next_event not yet locked
    | Waiting                                // in cond_timedwait
    | Targeting(ev: Event)                   // event dequeued, target window not yet looked up
    | Injecting(ev: Event, hwnd: nat, sent: nat)

  /** `accepted`, `targets` and `injected` are history: events that entered the ring, target
      windows of the events finished so far, inputs sent to the guest. */
  datatype State = State(
    queue: seq<Event>, claimed: bool, pumps: map<nat, Pump>,
    accepted: seq<Event>, targets: seq<nat>, injected: seq<Input>)

  datatype Step =
    | Send(ev: Event)             // wine_display_send_*
    | Enter(t: nat)
    | Claim(t: nat)               // InterlockedCompareExchange
    | Poll(t: nat)
    | Wake(t: nat)                // signalled or spurious
    | Timeout(t: nat)             // may race with a Send
    | Target(t: nat, hwnd: nat)
    | Inject(t: nat)

  predicate Enabled(s: State, step: Step) {
    match step
    case Send(_) => true
    case Enter(t) => t !in s.pumps
    case Claim(t) => t in s.pumps && s.pumps[t].Entering?
    case Poll(t) => t in s.pumps && s.pumps[t].Polling?
    case Wake(t) => t in s.pumps && s.pumps[t].Waiting?
    case Timeout(t) => t in s.pumps && s.pumps[t].Waiting?
    case Target(t, _) => t in s.pumps && s.pumps[t].Targeting?
    case Inject(t) => t in s.pumps && s.pumps[t].Injecting?
  }

  function Next(s: State, step: Step): State
    requires Enabled(s, step)
  {
    match step
    case Send(ev) =>
      s.(queue := Enqueued(s.queue, ev),
         accepted := if |s.queue| < QUEUE_LEN then s.accepted + [ev] else s.accepted)
    case Enter(t) => s.(pumps := s.pumps[t := Entering])
    case Claim(t) =>
      if s.claimed then s.(pumps := s.pumps - {t}) else s.(claimed := true, pumps := s.pumps[t := Polling])
    case Poll(t) =>
      if s.queue == [] then s.(pumps := s.pumps[t := Waiting])
      else s.(queue := s.queue[1..], pumps := s.pumps[t := Targeting(s.queue[0])])
    case Wake(t) => s.(pumps := s.pumps[t := Polling])      // back to the test of queue_count
    case Timeout(t) => s.(pumps := s.pumps[t := Polling])   // next_event returns 0, the loop calls it again
    case Target(t, hwnd) => s.(pumps := s.pumps[t := Injecting(s.pumps[t].ev, hwnd, 0)])
    case Inject(t) =>
      var p := s.pumps[t];
      if p.sent < |Expand(p.ev, p.hwnd)| then
        s.(injected := s.injected + [Expand(p.ev, p.hwnd)[p.sent]], pumps := s.pumps[t := p.(sent := p.sent + 1)])
      else s.(targets := s.targets + [p.hwnd], pumps := s.pumps[t := Polling])
  }

  function Initial(): State { State([], false, map[], [], [], []) }

  ghost predicate Run(s: State, steps: seq<Step>, s': State)
    decreases |steps|
  {
    if steps == [] then s' == s else Enabled(s, steps[0]) && Run(Next(s, steps[0]), steps[1..], s')
  }

  /** The inputs of the first |targets| events, in order. */
  function ExpandAll(events: seq<Event>, targets: seq<nat>): seq<Input>
    requires |targets| <= |events|
    decreases |targets|
  {
    if targets == [] then []
    else var n := |targets| - 1; ExpandAll(events, targets[..n]) + Expand(events[n], targets[n])
  }

  /** The event a draining thread holds outside the ring, and the inputs already sent for it. */
  function Held(p: Pump): seq<Event> {
    if p.Targeting? || p.Injecting? then [p.ev] else []
  }

  function Sent(p: Pump): seq<Input> {
    if p.Injecting? && p.sent <= |Expand(p.ev, p.hwnd)| then Expand(p.ev, p.hwnd)[..p.sent] else []
  }

  /** Every accepted event is finished, held by pump p, or still queued; the guest has received
      exactly the finished expansions and the sent part of the held one. */
  ghost predicate Accounts(s: State, p: Pump) {
    && |s.targets| <= |s.accepted|
    && s.accepted == s.accepted[..|s.targets|] + Held(p) + s.queue
    && s.injected == ExpandAll(s.accepted, s.targets) + Sent(p)
    && (p.Injecting? ==> p.sent <= |Expand(p.ev, p.hwnd)|)
  }

  ghost predicate OneDrainer(s: State) {
    && (forall t :: t in s.pumps && !s.pumps[t].Entering? ==> s.claimed)
    && (forall t, u :: t in s.pumps && u in s.pumps && !s.pumps[t].Entering? && !s.pumps[u].Entering? ==> t == u)
    && (s.claimed ==> exists t :: t in s.pumps && !s.pumps[t].Entering?)
  }

  ghost predicate Inv(s: State) {
    && |s.queue| <= QUEUE_LEN
    && OneDrainer(s)
    && (!s.claimed ==> Accounts(s, Polling))
    && (forall t :: t in s.pumps && !s.pumps[t].Entering? ==> Accounts(s, s.pumps[t]))
  }

  /** Appending events changes nothing for those already expanded. */
  lemma {:induction false} ExpandAllGrows(events: seq<Event>, more: seq<Event>, targets: seq<nat>)
    requires |targets| <= |events|
    ensures ExpandAll(events + more, targets) == ExpandAll(events, targets)
    decreases |targets|
  {
    if targets != [] { ExpandAllGrows(events, more, targets[..|targets| - 1]); }
  }

  lemma SendKeepsAccounts(s: State, ev: Event, p: Pump)
    requires Accounts(s, p)
    ensures Accounts(Next(s, Send(ev)), p)
  {
    ExpandAllGrows(s.accepted, [ev], s.targets);
    var n := |s.targets|;
    assert (s.accepted + [ev])[..n] == s.accepted[..n];
    assert s.accepted + [ev] == s.accepted[..n] + Held(p) + (s.queue + [ev]);
  }

  lemma FinishKeepsAccounts(s: State, t: nat)
    requires Enabled(s, Inject(t)) && Accounts(s, s.pumps[t])
    requires s.pumps[t].sent == |Expand(s.pumps[t].ev, s.pumps[t].hwnd)|
    ensures Accounts(Next(s, Inject(t)), Polling)
  {
    var s' := Next(s, Inject(t));
    var n := |s.targets|;
    assert s'.targets[..n] == s.targets;
    assert s.accepted[n] == s.pumps[t].ev;
    assert s.accepted[..n + 1] == s.accepted[..n] + [s.pumps[t].ev];
  }

  lemma SendKeeps(s: State, ev: Event)
    requires Inv(s)
    ensures Inv(Next(s, Send(ev)))
  {
    var s' := Next(s, Send(ev));
    if !s.claimed { SendKeepsAccounts(s, ev, Polling); }
    forall t | t in s.pumps && !s.pumps[t].Entering? ensures Accounts(s', s.pumps[t]) {
      SendKeepsAccounts(s, ev, s.pumps[t]);
    }
  }

  lemma EntryKeeps(s: State, step: Step)
    requires Inv(s) && Enabled(s, step) && (step.Enter? || step.Claim?)
    ensures Inv(Next(s, step))
  {
    var s' := Next(s, step);
    if s.claimed {
      var u :| u in s.pumps && !s.pumps[u].Entering?;
      assert u in s'.pumps && s'.pumps[u] == s.pumps[u];
    } else if step.Claim? {
      assert step.t in s'.pumps && Accounts(s', s'.pumps[step.t]);
    }
  }

  lemma InjectAccounts(s: State, t: nat)
    requires Enabled(s, Inject(t)) && Accounts(s, s.pumps[t])
    ensures Accounts(Next(s, Inject(t)), Next(s, Inject(t)).pumps[t])
  {
    var p := s.pumps[t];
    var all := Expand(p.ev, p.hwnd);
    if p.sent == |all| {
      FinishKeepsAccounts(s, t);
    } else {
      assert all[..p.sent + 1] == all[..p.sent] + [all[p.sent]];
    }
  }

  lemma DrainMovesOne(s: State, step: Step)
    requires Enabled(s, step) && !step.Send? && !step.Enter? && !step.Claim? && !s.pumps[step.t].Entering?
    ensures var s' := Next(s, step);
      && step.t in s'.pumps && s'.pumps == s.pumps[step.t := s'.pumps[step.t]] && !s'.pumps[step.t].Entering?
      && s'.claimed == s.claimed && |s'.queue| <= |s.queue|
  {
  }

  lemma DrainAccounts(s: State, step: Step)
    requires Enabled(s, step) && !step.Send? && !step.Enter? && !step.Claim? && Accounts(s, s.pumps[step.t])
    ensures step.t in Next(s, step).pumps && Accounts(Next(s, step), Next(s, step).pumps[step.t])
  {
    if step.Inject? {
      InjectAccounts(s, step.t);
    } else if step.Poll? && s.queue != [] {
      assert s.queue == [s.queue[0]] + s.queue[1..];
    }
  }

  lemma DrainKeeps(s: State, step: Step)
    requires Inv(s) && Enabled(s, step) && !step.Send? && !step.Enter? && !step.Claim?
    ensures Inv(Next(s, step))
  {
    assert Accounts(s, s.pumps[step.t]);
    DrainMovesOne(s, step);
    DrainAccounts(s, step);
    DrainerKeepsClaim(s, Next(s, step), step.t);
  }

  lemma DrainerKeepsClaim(s: State, s': State, t: nat)
    requires Inv(s) && t in s.pumps && !s.pumps[t].Entering? && |s'.queue| <= |s.queue|
    requires t in s'.pumps && s'.pumps == s.pumps[t := s'.pumps[t]] && !s'.pumps[t].Entering? && s'.claimed == s.claimed
    requires Accounts(s', s'.pumps[t])
    ensures Inv(s')
  {
  }

  lemma {:induction false} RunKeeps(s: State, steps: seq<Step>, s': State)
    requires Inv(s) && Run(s, steps, s')
    ensures Inv(s')
    decreases |steps|
  {
    if steps != [] {
      var step := steps[0];
      if step.Send? { SendKeeps(s, step.ev); }
      else if step.Enter? || step.Claim? { EntryKeeps(s, step); }
      else { DrainKeeps(s, step); }
      RunKeeps(Next(s, step), steps[1..], s');
    }
  }

  // ---- theorems -----------------------------------------------------------------------------

  /** Exactly once and in order: at every moment the inputs the guest has received are the
      expansions, in order, of the oldest accepted events, followed by part of the next event's
      expansion; every other accepted event is still in the ring or in the one draining thread. */
  lemma DeliveredOnceInOrder(steps: seq<Step>, s: State)
    requires Run(Initial(), steps, s)
    ensures exists p: Pump :: Accounts(s, p) && (s.claimed ==> exists t :: t in s.pumps && s.pumps[t] == p)
    ensures |s.queue| <= QUEUE_LEN
  {
    assert Accounts(Initial(), Polling);
    RunKeeps(Initial(), steps, s);
    if s.claimed {
      var t :| t in s.pumps && !s.pumps[t].Entering?;
      assert Accounts(s, s.pumps[t]);
    } else {
      assert Accounts(s, Polling);
    }
  }

  /** At most one thread is past the claim, whatever number of processes start a pump. */
  lemma OneThreadDrains(steps: seq<Step>, s: State, t: nat, u: nat)
    requires Run(Initial(), steps, s) && t in s.pumps && u in s.pumps
    requires !s.pumps[t].Entering? && !s.pumps[u].Entering?
    ensures t == u
  {
    assert Accounts(Initial(), Polling);
    RunKeeps(Initial(), steps, s);
  }

  /** Once the ring is empty and the drainer idle, everything accepted has been injected. */
  lemma DrainedMeansAllInjected(steps: seq<Step>, s: State, t: nat)
    requires Run(Initial(), steps, s) && t in s.pumps && s.queue == [] && (s.pumps[t].Polling? || s.pumps[t].Waiting?)
    ensures |s.targets| == |s.accepted| && s.injected == ExpandAll(s.accepted, s.targets)
  {
    assert Accounts(Initial(), Polling);
    RunKeeps(Initial(), steps, s);
    assert Accounts(s, s.pumps[t]);
  }

  /** Only a full ring drops, and only the newest event; a timeout that races with it loses nothing. */
  lemma OnlyFullDrops(s: State, ev: Event, t: nat)
    requires Inv(s) && Enabled(s, Timeout(t))
    ensures var s' := Next(Next(s, Send(ev)), Timeout(t));
      && (|s.queue| < QUEUE_LEN ==> s'.queue == s.queue + [ev] && s'.accepted == s.accepted + [ev])
      && (|s.queue| == QUEUE_LEN ==> s'.queue == s.queue && s'.accepted == s.accepted)
      && Next(Next(s, Timeout(t)), Send(ev)) == s'
  {
  }

  lemma {:induction false} RestIsInjected(s: State, t: nat, n: nat)
    requires t in s.pumps && s.pumps[t].Injecting?
    requires var p := s.pumps[t]; p.sent + n == |Expand(p.ev, p.hwnd)|
    ensures exists s' ::
      && Run(s, seq(n + 1, _ => Inject(t)), s')
      && s'.queue == s.queue && s'.pumps == s.pumps[t := Polling]
      && s'.injected == s.injected + Expand(s.pumps[t].ev, s.pumps[t].hwnd)[s.pumps[t].sent..]
    decreases n
  {
    var steps, s1, p := seq(n + 1, _ => Inject(t)), Next(s, Inject(t)), s.pumps[t];
    var all := Expand(p.ev, p.hwnd);
    assert steps[0] == Inject(t) && steps[1..] == seq(n, _ => Inject(t));
    if n == 0 {
      assert Run(s1, steps[1..], s1) && Run(s, steps, s1);
      assert s1.injected == s.injected + all[p.sent..];
    } else {
      RestIsInjected(s1, t, n - 1);
      var s' :| Run(s1, seq(n, _ => Inject(t)), s')
        && s'.queue == s1.queue && s'.pumps == s1.pumps[t := Polling]
        && s'.injected == s1.injected + all[p.sent + 1..];
      assert Run(s, steps, s');
      assert all[p.sent..] == [all[p.sent]] + all[p.sent + 1..];
    }
  }

  /** The oldest event gets through: a polling pump takes it, finds its target and sends all inputs of
      its expansion, and polls again. */
  lemma {:induction false} OldestIsInjected(s: State, t: nat, hwnd: nat)
    requires t in s.pumps && s.pumps[t].Polling? && s.queue != []
    ensures exists steps, s' ::
      && Run(s, steps, s')
      && s'.queue == s.queue[1..] && s'.pumps == s.pumps && s'.injected == s.injected + Expand(s.queue[0], hwnd)
  {
    var s1 := Next(s, Poll(t));
    var s2 := Next(s1, Target(t, hwnd));
    var n := |Expand(s.queue[0], hwnd)|;
    RestIsInjected(s2, t, n);
    var rest := seq(n + 1, _ => Inject(t));
    var s' :| Run(s2, rest, s') && s'.queue == s2.queue && s'.pumps == s2.pumps[t := Polling]
      && s'.injected == s2.injected + Expand(s.queue[0], hwnd)[0..];
    assert ([Target(t, hwnd)] + rest)[1..] == rest && Run(s1, [Target(t, hwnd)] + rest, s');
    var steps := [Poll(t)] + ([Target(t, hwnd)] + rest);
    assert steps[1..] == [Target(t, hwnd)] + rest && Run(s, steps, s');
    assert s'.pumps == s.pumps;
  }

  /** The first pump becomes the drainer, any later one leaves; a waiting drainer polls again. */
  lemma FirstPumpDrains(s: State, t: nat)
    requires t !in s.pumps
    ensures Enabled(s, Enter(t)) && Enabled(Next(s, Enter(t)), Claim(t))
    ensures var s' := Next(Next(s, Enter(t)), Claim(t));
      && s'.claimed && s'.queue == s.queue && s'.injected == s.injected
      && s'.pumps == if s.claimed then s.pumps else s.pumps[t := Polling]
  {
    assert s.pumps[t := Entering] - {t} == s.pumps;
    assert s.pumps[t := Entering][t := Polling] == s.pumps[t := Polling];
  }
}
