/** What the display shows as a function of the steps that were taken: the pixels are those of the last
    flush, the registry is what the completed sections of create, place, flush and destroy left. */
module PresenterLog {

  import opened Wrappers
  import opened SurfaceRegistry
  import opened Presenter

  // ---- the log ------------------------------------------------------------------------------

  /** The call that a driver thread made last: how it was started, the id that a create was given, and
      how many of its sections were run. */
  datatype Call = Call(step: Step, born: nat, acts: nat)

  function Creates(past: seq<Step>): nat {
    if past == [] then 0
    else Creates(past[..|past| - 1]) + (if past[|past| - 1].Create? then 1 else 0)
  }

  predicate Starts(step: Step, t: nat) {
    !IsTick(step) && !step.Act? && step.t == t
  }

  function CallAfter(was: Option<Call>, created: nat, step: Step, t: nat): Option<Call> {
    if Starts(step, t) then Some(Call(step, created + 1, 0))
    else if step == Act(t) && was.Some? then Some(was.value.(acts := was.value.acts + 1))
    else was
  }

  function CallOf(past: seq<Step>, t: nat): Option<Call> {
    if past == [] then None
    else
      var before := past[..|past| - 1];
      CallAfter(CallOf(before, t), Creates(before), past[|past| - 1], t)
  }

  /** The call whose next section `step` runs. */
  function Served(past: seq<Step>, step: Step): Option<Call> {
    if step.Act? then CallOf(past, step.t) else None
  }

  /** The write of a flush comes first; a create starts from zeros. */
  function BitsAfter(was: Option<Pixels>, created: nat, step: Step, call: Option<Call>, id: nat): Option<Pixels> {
    if step.Create? && id == created + 1 then Some(seq(step.width * step.height, _ => 0))
    else if call.Some? && call.value.step.Flush? && call.value.acts == 0 && call.value.step.id == id then
      Some(call.value.step.pixels)
    else was
  }

  /** The pixels of the last flush of id whose write was done, the zeros of its creation if there was
      none, nothing if it was never created. */
  function BitsIn(past: seq<Step>, id: nat): Option<Pixels> {
    if past == [] then None
    else
      var before, step := past[..|past| - 1], past[|past| - 1];
      BitsAfter(BitsIn(before, id), Creates(before), step, Served(before, step), id)
  }

  function RegistryAfter(was: map<nat, Info>, call: Call): map<nat, Info> {
    match call
    case Call(Create(_, hwnd, width, height), id, 0) =>
      if |was| < 32 then was[id := Info(id, hwnd, 0, 0, width, height, false, width, height, 0)] else was
    case Call(Place(_, id, x, y, w, h, visible), _, 0) =>
      if id in was then was[id := was[id].(x := x, y := y, w := w, h := h, visible := visible)] else was
    case Call(Flush(_, id, _), _, 1) =>
      if id in was then was[id := was[id].(updateSeq := was[id].updateSeq + 1)] else was
    case Call(Destroy(_, id), _, 0) => was - {id}
    case _ => was
  }

  /** The registered surfaces by id: created while fewer than 32 were registered, and not destroyed;
      placed and visible as the last place said, and updated once by each flush. */
  function RegistryIn(past: seq<Step>): map<nat, Info> {
    if past == [] then map[]
    else
      var before, step := past[..|past| - 1], past[|past| - 1];
      var call := Served(before, step);
      if call.None? then RegistryIn(before) else RegistryAfter(RegistryIn(before), call.value)
  }

  // ---- the state follows the log ------------------------------------------------------------

  /** What a thread still has to do. */
  function Pending(call: Option<Call>): Option<DriverOp> {
    if call.None? then None
    else match call.value
      case Call(Create(_, hwnd, width, height), id, 0) => Some(AddPending(id, hwnd, width, height))
      case Call(Flush(_, id, pixels), _, 0) => Some(WritePending(id, pixels))
      case Call(Flush(_, id, _), _, 1) => Some(UpdatePending(id))
      case Call(Place(_, id, x, y, w, h, visible), _, 0) => Some(PlacePending(id, x, y, w, h, visible))
      case Call(Destroy(_, id), _, 0) => Some(RemovePending(id))
      case Call(step, _, acts) => if acts + 1 == Sections(step) then Some(BumpPending) else None
  }

  /** How many sections a call runs. */
  function Sections(step: Step): nat {
    match step
    case Create(_, _, _, _) => 2
    case Flush(_, _, _) => 3
    case Place(_, _, _, _, _, _, _) => 2
    case Destroy(_, _) => 2
    case Title(_) => 1
    case _ => 0
  }

  function At<T>(m: map<nat, T>, k: nat): Option<T> {
    if k in m then Some(m[k]) else None
  }

  function PubOf(slot: Option<Slot>): Option<Info> {
    if slot.Some? && slot.value.Used? then Some(slot.value.pub) else None
  }

  ghost predicate CallsTrack(past: seq<Step>, s: State) {
    && s.nextId == Creates(past) + 1
    && forall t: nat :: At(s.ops, t) == Pending(CallOf(past, t))
  }

  ghost predicate BitsTrack(past: seq<Step>, s: State) {
    forall id: nat :: At(s.bits, id) == BitsIn(past, id)
  }

  ghost predicate RegistryTracks(m: map<nat, Info>, slots: seq<Slot>) {
    |slots| == 32 && forall id: nat :: PubOf(Lookup(slots, id)) == At(m, id)
  }

  ghost predicate Tracks(past: seq<Step>, s: State) {
    CallsTrack(past, s) && BitsTrack(past, s) && RegistryTracks(RegistryIn(past), s.slots)
  }

  lemma Snoc(past: seq<Step>, step: Step)
    ensures (past + [step])[..|past|] == past && (past + [step])[|past|] == step
  {
  }

  lemma {:induction false} CallsStep(past: seq<Step>, s: State, step: Step)
    requires CallsTrack(past, s) && Enabled(s, step)
    ensures CallsTrack(past + [step], Next(s, step))
  {
    Snoc(past, step);
    var s' := Next(s, step);
    forall t: nat ensures At(s'.ops, t) == Pending(CallOf(past + [step], t)) {
      assert At(s.ops, t) == Pending(CallOf(past, t));
      CallStep(s, step, t, CallOf(past, t), Creates(past));
    }
  }

  /** One thread's call. */
  lemma {:induction false} CallStep(s: State, step: Step, t: nat, call: Option<Call>, created: nat)
    requires Enabled(s, step) && s.nextId == created + 1 && At(s.ops, t) == Pending(call)
    ensures At(Next(s, step).ops, t) == Pending(CallAfter(call, created, step, t))
  {
  }

  lemma {:induction false} BitsStep(past: seq<Step>, s: State, step: Step)
    requires CallsTrack(past, s) && BitsTrack(past, s) && Enabled(s, step)
    ensures BitsTrack(past + [step], Next(s, step))
  {
    Snoc(past, step);
    var s', call := Next(s, step), Served(past, step);
    if step.Act? { assert At(s.ops, step.t) == Pending(call); }
    forall id: nat ensures At(s'.bits, id) == BitsIn(past + [step], id) {
      assert At(s.bits, id) == BitsIn(past, id);
    }
  }

  // ---- room in the table --------------------------------------------------------------------

  function UsedIds(slots: seq<Slot>): set<nat> {
    if slots == [] then {}
    else UsedIds(slots[1..]) + if slots[0].Used? then {slots[0].pub.id} else {}
  }

  lemma {:induction false} UsedIdsAre(slots: seq<Slot>, id: nat)
    ensures id in UsedIds(slots) <==> Registered(slots, id)
  {
    if slots != [] {
      UsedIdsAre(slots[1..], id);
      if k :| 0 <= k < |slots| && Is(slots[k], id) {
        if k > 0 { assert Is(slots[1..][k - 1], id); }
      }
      if k :| 0 <= k < |slots| - 1 && Is(slots[1..][k], id) { assert Is(slots[k + 1], id); }
      if slots[0].Used? && slots[0].pub.id == id { assert Is(slots[0], id); }
    }
  }

  lemma FirstIsAlone(slots: seq<Slot>)
    requires Distinct(slots) && slots != [] && slots[0].Used?
    ensures !Registered(slots[1..], slots[0].pub.id)
  {
    forall k | 0 <= k < |slots| - 1 ensures !Is(slots[1..][k], slots[0].pub.id) {
      assert slots[1..][k] == slots[k + 1];
    }
  }

  /** Without duplicates there are as many ids as used slots, so some slot is free exactly if there
      are fewer ids than slots. */
  lemma {:induction false} RoomIff(slots: seq<Slot>)
    requires Distinct(slots)
    ensures |UsedIds(slots)| <= |slots|
    ensures |UsedIds(slots)| < |slots| <==> FirstUnused(slots) < |slots|
  {
    if slots != [] {
      RoomIff(slots[1..]);
      if slots[0].Used? {
        FirstIsAlone(slots);
        UsedIdsAre(slots[1..], slots[0].pub.id);
      }
    }
  }

  lemma {:induction false} RoomInRegistry(m: map<nat, Info>, slots: seq<Slot>)
    requires RegistryTracks(m, slots) && Distinct(slots)
    ensures |m| < 32 <==> FirstUnused(slots) < |slots|
  {
    forall id: nat ensures id in m.Keys <==> id in UsedIds(slots) {
      assert PubOf(Lookup(slots, id)) == At(m, id);
      UsedIdsAre(slots, id);
      FindIsRegistered(slots, id);
    }
    assert m.Keys == UsedIds(slots);
    assert |m| == |m.Keys|;
    RoomIff(slots);
  }

  // ---- registry steps -----------------------------------------------------------------------

  lemma {:induction false} RegistryStep(past: seq<Step>, s: State, step: Step)
    requires CallsTrack(past, s) && RegistryTracks(RegistryIn(past), s.slots) && Enabled(s, step)
    requires RegistryOk(s) && (step.Act? ==> OpOk(s, s.ops[step.t]))
    ensures RegistryTracks(RegistryIn(past + [step]), Next(s, step).slots)
  {
    Snoc(past, step);
    if step.Act? {
      var call := CallOf(past, step.t);
      assert At(s.ops, step.t) == Pending(call);
      SectionTracks(RegistryIn(past), s, step.t, call.value);
    }
  }

  /** One section of one call. */
  lemma {:induction false} SectionTracks(m: map<nat, Info>, s: State, t: nat, call: Call)
    requires RegistryTracks(m, s.slots) && Distinct(s.slots)
    requires t in s.ops && Some(s.ops[t]) == Pending(Some(call))
    requires s.ops[t].AddPending? ==> Lookup(s.slots, s.ops[t].id).None?
    ensures RegistryTracks(RegistryAfter(m, call), DriverAct(s, t).slots)
  {
    match s.ops[t]
    case AddPending(_, _, _, _) => AddSection(m, s, t, call);
    case UpdatePending(_) => UpdateSection(m, s, t, call);
    case PlacePending(_, _, _, _, _, _) => PlaceSection(m, s, t, call);
    case RemovePending(_) => RemoveSection(m, s, t, call);
    case _ => OtherSection(m, s, t, call);
  }

  lemma {:induction false} OtherSection(m: map<nat, Info>, s: State, t: nat, call: Call)
    requires t in s.ops && Some(s.ops[t]) == Pending(Some(call)) && (s.ops[t].WritePending? || s.ops[t].BumpPending?)
    requires RegistryTracks(m, s.slots)
    ensures RegistryTracks(RegistryAfter(m, call), DriverAct(s, t).slots)
  {
    assert DriverAct(s, t).slots == s.slots;
    assert RegistryAfter(m, call) == m;
  }

  lemma {:induction false} UpdateSection(m: map<nat, Info>, s: State, t: nat, call: Call)
    requires RegistryTracks(m, s.slots) && Distinct(s.slots)
    requires t in s.ops && s.ops[t].UpdatePending? && Some(s.ops[t]) == Pending(Some(call))
    ensures RegistryTracks(RegistryAfter(m, call), DriverAct(s, t).slots)
  {
    UpdateTracks(m, s.slots, s.ops[t].id);
  }

  lemma {:induction false} PlaceSection(m: map<nat, Info>, s: State, t: nat, call: Call)
    requires RegistryTracks(m, s.slots) && Distinct(s.slots)
    requires t in s.ops && s.ops[t].PlacePending? && Some(s.ops[t]) == Pending(Some(call))
    ensures RegistryTracks(RegistryAfter(m, call), DriverAct(s, t).slots)
  {
    var op := s.ops[t];
    PlaceTracks(m, s.slots, op.id, op.x, op.y, op.w, op.h, op.visible);
  }

  lemma {:induction false} RemoveSection(m: map<nat, Info>, s: State, t: nat, call: Call)
    requires RegistryTracks(m, s.slots) && Distinct(s.slots)
    requires t in s.ops && s.ops[t].RemovePending? && Some(s.ops[t]) == Pending(Some(call))
    ensures RegistryTracks(RegistryAfter(m, call), DriverAct(s, t).slots)
  {
    RemoveTracks(m, s.slots, s.ops[t].id);
  }

  lemma {:induction false} AddSection(m: map<nat, Info>, s: State, t: nat, call: Call)
    requires RegistryTracks(m, s.slots) && Distinct(s.slots)
    requires t in s.ops && s.ops[t].AddPending? && Some(s.ops[t]) == Pending(Some(call))
    requires Lookup(s.slots, s.ops[t].id).None?
    ensures RegistryTracks(RegistryAfter(m, call), DriverAct(s, t).slots)
  {
    RoomInRegistry(m, s.slots);
    AddTracks(m, s.slots, SlotOf(s.ops[t]));
  }

  lemma {:induction false} AddTracks(m: map<nat, Info>, slots: seq<Slot>, slot: Slot)
    requires RegistryTracks(m, slots) && Distinct(slots) && slot.Used? && Lookup(slots, slot.pub.id).None?
    ensures RegistryTracks(if FirstUnused(slots) < |slots| then m[slot.pub.id := slot.pub] else m, Added(slots, slot))
  {
    var m' := if FirstUnused(slots) < |slots| then m[slot.pub.id := slot.pub] else m;
    forall id: nat ensures PubOf(Lookup(Added(slots, slot), id)) == At(m', id) {
      assert PubOf(Lookup(slots, id)) == At(m, id);
      LookupAdded(slots, slot, id);
    }
  }

  lemma {:induction false} UpdateTracks(m: map<nat, Info>, slots: seq<Slot>, id0: nat)
    requires RegistryTracks(m, slots) && Distinct(slots)
    ensures RegistryTracks(if id0 in m then m[id0 := m[id0].(updateSeq := m[id0].updateSeq + 1)] else m,
                           Updated(slots, id0))
  {
    var m' := if id0 in m then m[id0 := m[id0].(updateSeq := m[id0].updateSeq + 1)] else m;
    forall id: nat ensures PubOf(Lookup(Updated(slots, id0), id)) == At(m', id) {
      assert PubOf(Lookup(slots, id)) == At(m, id);
      LookupUpdated(slots, id0, id);
    }
  }

  lemma {:induction false} PlaceTracks(m: map<nat, Info>, slots: seq<Slot>, id0: nat,
                                       x: int, y: int, w: int, h: int, visible: bool)
    requires RegistryTracks(m, slots) && Distinct(slots)
    ensures RegistryTracks(
      if id0 in m then m[id0 := m[id0].(x := x, y := y, w := w, h := h, visible := visible)] else m,
      Placed(slots, id0, x, y, w, h, visible))
  {
    var m' := if id0 in m then m[id0 := m[id0].(x := x, y := y, w := w, h := h, visible := visible)] else m;
    forall id: nat ensures PubOf(Lookup(Placed(slots, id0, x, y, w, h, visible), id)) == At(m', id) {
      assert PubOf(Lookup(slots, id)) == At(m, id);
      LookupPlaced(slots, id0, x, y, w, h, visible, id);
    }
  }

  lemma {:induction false} RemoveTracks(m: map<nat, Info>, slots: seq<Slot>, id0: nat)
    requires RegistryTracks(m, slots) && Distinct(slots)
    ensures RegistryTracks(m - {id0}, Removed(slots, id0))
  {
    forall id: nat ensures PubOf(Lookup(Removed(slots, id0), id)) == At(m - {id0}, id) {
      assert PubOf(Lookup(slots, id)) == At(m, id);
      LookupRemoved(slots, id0, id);
    }
  }

  // ---- runs ---------------------------------------------------------------------------------

  lemma {:induction false} TracksStep(past: seq<Step>, s: State, step: Step)
    requires Inv(s) && Tracks(past, s) && Enabled(s, step)
    ensures Tracks(past + [step], Next(s, step))
  {
    CallsStep(past, s, step);
    BitsStep(past, s, step);
    RegistryStep(past, s, step);
  }

  /** Every run leaves what its steps say. */
  lemma {:induction false} RunTracks(past: seq<Step>, s: State, steps: seq<Step>, s': State)
    requires Inv(s) && Tracks(past, s) && Run(s, steps, s')
    ensures Inv(s') && Tracks(past + steps, s')
    decreases |steps|
  {
    if steps == [] {
      assert past + steps == past;
    } else {
      StepKeeps(s, steps[0]);
      TracksStep(past, s, steps[0]);
      assert past + steps == (past + [steps[0]]) + steps[1..];
      RunTracks(past + [steps[0]], Next(s, steps[0]), steps[1..], s');
    }
  }

  lemma {:induction false} InitialTracks()
    ensures Inv(Initial()) && Tracks([], Initial())
  {
    InitialInv();
    var slots := Initial().slots;
    forall id: nat ensures Lookup(slots, id).None? { FindIsRegistered(slots, id); }
    assert RegistryIn([]) == map[];
  }

  lemma {:induction false} StateIsLogged(past: seq<Step>, s: State)
    requires Run(Initial(), past, s)
    ensures Inv(s) && Tracks(past, s)
  {
    InitialTracks();
    RunTracks([], Initial(), past, s);
    assert [] + past == past;
  }

  // ---- no lost frame ------------------------------------------------------------------------

  /** What the log says about the surface that the presenter picks. */
  function Shown(past: seq<Step>, pick: Option<Info>): Option<Image> {
    if pick.None? then None
    else
      var bits := BitsIn(past, pick.value.id);
      if bits.None? then None else Some(Image(pick.value.width, pick.value.height, bits.value))
  }

  /** No lost frame: take any run, of any threads and any number of ticks, that ends with no driver call
      in flight.  Then the registry lists exactly the surfaces of the log, and every completed tick
      leaves the screen with the pixels that were last flushed to the picked one (zeros if it was never
      flushed), or with nothing if none is registered. */
  lemma {:induction false} NoLostFrame(past: seq<Step>, s: State, ticks: seq<Step>, s': State)
    requires Run(Initial(), past, s) && s.ops == map[] && s.view.pc.Idle?
    requires TickRun(s, ticks, s') && ticks != [] && s'.view.pc.Idle?
    ensures forall info :: info in Listed(s.slots) <==>
      info.id in RegistryIn(past) && RegistryIn(past)[info.id] == info
    ensures var pick := Pick(Listed(s.slots));
      && s'.view.current == pick && s'.view.contents == Shown(past, pick)
      && (pick.Some? ==> BitsIn(past, pick.value.id).Some?)
  {
    StateIsLogged(past, s);
    TickShowsExpected(s, ticks, s');
    forall info ensures info in Listed(s.slots) <==>
      info.id in RegistryIn(past) && RegistryIn(past)[info.id] == info
    {
      ListedIsLookedUp(s.slots, info);
      assert PubOf(Lookup(s.slots, info.id)) == At(RegistryIn(past), info.id);
    }
    var pick := Pick(Listed(s.slots));
    if pick.Some? {
      PickIsLookedUp(s.slots);
      CopySucceeds(s, pick.value);
      assert At(s.bits, pick.value.id) == BitsIn(past, pick.value.id);
    }
  }

  lemma ListedIsLookedUp(slots: seq<Slot>, info: Info)
    requires Distinct(slots)
    ensures info in Listed(slots) <==> PubOf(Lookup(slots, info.id)) == Some(info)
  {
    ListedIff(slots, info);
    FindIsRegistered(slots, info.id);
    if i :| 0 <= i < |slots| && slots[i].Used? && slots[i].pub == info {
      assert Is(slots[i], info.id);
    }
  }

  // ---- nothing is refused -------------------------------------------------------------------

  function Left(op: DriverOp): nat {
    match op
    case BumpPending => 1
    case WritePending(_, _) => 3
    case _ => 2
  }

  /** A call that is alone in flight runs to its end, announces itself once and does not touch the view. */
  lemma {:induction false} ActsFinish(s: State, t: nat, n: nat)
    requires t in s.ops && s.ops == map[t := s.ops[t]] && n == Left(s.ops[t])
    ensures exists s' ::
      && Run(s, seq(n, _ => Act(t)), s')
      && s'.ops == map[] && s'.view == s.view && s'.changeSeq == s.changeSeq + 1
    decreases n
  {
    var steps, s1 := seq(n, _ => Act(t)), DriverAct(s, t);
    assert steps[0] == Act(t) && steps[1..] == seq(n - 1, _ => Act(t));
    if n == 1 {
      assert Run(s1, steps[1..], s1);
      assert Run(s, steps, s1);
    } else {
      ActsFinish(s1, t, n - 1);
      var s' :| Run(s1, seq(n - 1, _ => Act(t)), s')
        && s'.ops == map[] && s'.view == s.view && s'.changeSeq == s.changeSeq + 1;
      assert Run(s, steps, s');
    }
  }

  /** A call of thread t made while no other is in flight. */
  function Alone(step: Step): seq<Step>
    requires !IsTick(step) && !step.Act?
  {
    [step] + seq(Sections(step), _ => Act(step.t))
  }

  lemma {:induction false} CallCompletes(s: State, step: Step)
    requires s.ops == map[] && !IsTick(step) && !step.Act?
    requires step.Flush? ==> step.id in s.bits && |step.pixels| == |s.bits[step.id]|
    ensures exists s' ::
      && Run(s, Alone(step), s')
      && s'.ops == map[] && s'.view == s.view && s'.changeSeq == s.changeSeq + 1
  {
    var s1 := Next(s, step);
    assert s1.ops == map[step.t := s1.ops[step.t]];
    ActsFinish(s1, step.t, Sections(step));
    var s' :| Run(s1, seq(Sections(step), _ => Act(step.t)), s')
      && s'.ops == map[] && s'.view == s.view && s'.changeSeq == s.changeSeq + 1;
    assert Alone(step)[1..] == seq(Sections(step), _ => Act(step.t));
    assert Run(s, Alone(step), s');
  }

  /** A tick that may begin comes to its end. */
  lemma {:induction false} TickCompletes(s: State)
    requires s.view.pc.Idle?
    ensures exists ticks, s' :: TickRun(s, ticks, s') && ticks != [] && s'.view.pc.Idle?
  {
    var s1 := Next(s, TickSeq);
    assert Run(s1, [], s1) && [TickSeq][1..] == [] && Run(s, [TickSeq], s1);
    if s1.view.pc.Idle? {
      assert TickRun(s, [TickSeq], s1);
    } else {
      var s2 := Next(s1, TickList);
      var two := [TickSeq, TickList];
      assert Run(s2, [], s2) && [TickList][1..] == [] && Run(s1, [TickList], s2);
      assert two[1..] == [TickList] && Run(s, two, s2);
      if s2.view.pc.Idle? {
        assert TickRun(s, two, s2);
      } else {
        var s3 := Next(s2, TickCopy);
        var three := [TickSeq, TickList, TickCopy];
        assert Run(s3, [], s3) && [TickCopy][1..] == [] && Run(s2, [TickCopy], s3);
        assert [TickList, TickCopy][1..] == [TickCopy] && Run(s1, [TickList, TickCopy], s3);
        assert three[1..] == [TickList, TickCopy] && Run(s, three, s3);
        assert TickRun(s, three, s3);
      }
    }
  }

  lemma {:induction false} RunsJoin(s: State, steps: seq<Step>, s1: State, more: seq<Step>, s2: State)
    requires Run(s, steps, s1) && Run(s1, more, s2)
    ensures Run(s, steps + more, s2)
    decreases |steps|
  {
    if steps == [] {
      assert steps + more == more;
    } else {
      RunsJoin(Next(s, steps[0]), steps[1..], s1, more, s2);
      assert (steps + more)[1..] == steps[1..] + more;
    }
  }

  /** The write of a lone flush is the last one of its surface. */
  lemma {:induction false} LoneFlushIsLast(past: seq<Step>, t: nat, id: nat, pixels: Pixels)
    ensures BitsIn(past + Alone(Flush(t, id, pixels)), id) == Some(pixels)
  {
    var flush := Flush(t, id, pixels);
    var p1 := past + [flush];
    var p2 := p1 + [Act(t)];
    var p3 := p2 + [Act(t)];
    var p4 := p3 + [Act(t)];
    Snoc(past, flush);
    Snoc(p1, Act(t));
    Snoc(p2, Act(t));
    Snoc(p3, Act(t));
    assert past + Alone(flush) == p4;
    assert CallOf(p1, t) == Some(Call(flush, Creates(past) + 1, 0));
    assert BitsIn(p2, id) == Some(pixels);
    assert CallOf(p2, t) == Some(Call(flush, Creates(past) + 1, 1));
    assert BitsIn(p3, id) == Some(pixels);
    assert CallOf(p3, t) == Some(Call(flush, Creates(past) + 1, 2));
  }

  /** A new frame gets to the screen: after any run with no call in flight a flush of any created
      surface can be made, and after it a tick; then the surface has the new pixels, and if it is the
      picked one the screen shows them. */
  lemma {:induction false} FlushIsShown(past: seq<Step>, s: State, t: nat, id: nat, pixels: Pixels)
    requires Run(Initial(), past, s) && s.ops == map[] && s.view.pc.Idle?
    requires id in s.bits && |pixels| == |s.bits[id]|
    ensures exists s1, ticks, s2 ::
      && Run(s, Alone(Flush(t, id, pixels)), s1) && TickRun(s1, ticks, s2)
      && At(s2.bits, id) == Some(pixels) && s2.view.current == Pick(Listed(s2.slots))
      && (s2.view.current.Some? && s2.view.current.value.id == id ==>
            s2.view.contents == Some(Image(s2.view.current.value.width, s2.view.current.value.height, pixels)))
  {
    var flush := Alone(Flush(t, id, pixels));
    CallCompletes(s, Flush(t, id, pixels));
    var s1 :| Run(s, flush, s1) && s1.ops == map[] && s1.view == s.view;
    TickCompletes(s1);
    var ticks, s2 :| TickRun(s1, ticks, s2) && ticks != [] && s2.view.pc.Idle?;
    RunsJoin(Initial(), past, s, flush, s1);
    NoLostFrame(past + flush, s1, ticks, s2);
    TicksOnlyView(s1, ticks, s2);
    LoneFlushIsLast(past, t, id, pixels);
    StateIsLogged(past + flush, s1);
    assert At(s1.bits, id) == BitsIn(past + flush, id);
  }
}
