/** The display protocol: driver threads write pixels and publish them by two counters; the
    presenter's `tick` (GuestScreenView.swift) polls the counters, picks a surface and copies it.
    Every section under reg_mutex or a pixel lock is one step, and steps interleave freely. */
module Presenter {
  import opened Wrappers
  import opened SurfaceRegistry

  type Pixels = seq<bv32>

  /** What layer.contents shows. */
  datatype Image = Image(width: nat, height: nat, pixels: Pixels)

  /** A driver call in flight: what it does next. */
  datatype DriverOp =
    | AddPending(id: nat, hwnd: nat, width: nat, height: nat)
    | WritePending(id: nat, pixels: Pixels)   // flush, before the copy under host_mutex
    | UpdatePending(id: nat)                  // flush, pixels written, update_seq not yet raised
    | PlacePending(id: nat, x: int, y: int, w: int, h: int, visible: bool)
    | RemovePending(id: nat)
    | BumpPending                             // only atomic_fetch_add(&change_seq, 1) is left

  datatype TickPc = Idle | HaveSeq | NeedCopy

  /** The fields of GuestSurfaceUIView, and where its tick stands. */
  datatype View = View(
    pc: TickPc, lastChangeSeq: nat, lastPixelSeq: nat, current: Option<Info>, contents: Option<Image>)

  datatype State = State(
    slots: seq<Slot>, changeSeq: nat, nextId: nat, bits: map<nat, Pixels>, ops: map<nat, DriverOp>, view: View)

  datatype Step =
    | Create(t: nat, hwnd: nat, width: nat, height: nat)
    | Flush(t: nat, id: nat, pixels: Pixels)
    | Place(t: nat, id: nat, x: int, y: int, w: int, h: int, visible: bool)
    | Destroy(t: nat, id: nat)
    | Title(t: nat)
    | Act(t: nat)
    | TickSeq
    | TickList
    | TickCopy

  predicate IsTick(step: Step) {
    step.TickSeq? || step.TickList? || step.TickCopy?
  }

  predicate Enabled(s: State, step: Step) {
    match step
    case Act(t) => t in s.ops
    case TickSeq => s.view.pc.Idle?
    case TickList => s.view.pc.HaveSeq?
    case TickCopy => s.view.pc.NeedCopy? && s.view.current.Some?
    case Flush(t, id, pixels) => t !in s.ops && id in s.bits && |pixels| == |s.bits[id]|
    case Create(t, _, _, _) => t !in s.ops
    case Place(t, _, _, _, _, _, _) => t !in s.ops
    case Destroy(t, _) => t !in s.ops
    case Title(t) => t !in s.ops
  }

  function Lookup(slots: seq<Slot>, id: nat): Option<Slot> {
    var i := Find(slots, id);
    if i < |slots| then Some(slots[i]) else None
  }

  /** Line 130: the last visible surface of the snapshot, else the last one. */
  function Pick(infos: seq<Info>): (p: Option<Info>)
    ensures p.Some? <==> infos != []
    ensures p.Some? ==> p.value in infos
  {
    if infos == [] then None
    else
      var v := LastVisible(infos);
      if v.Some? then v else Some(infos[|infos| - 1])
  }

  function LastVisible(infos: seq<Info>): (p: Option<Info>)
    ensures p.Some? ==> p.value in infos
  {
    if infos == [] then None
    else if infos[|infos| - 1].visible then Some(infos[|infos| - 1])
    else LastVisible(infos[..|infos| - 1])
  }

  /** The picked surface is the visible one in the highest slot, and only if none is visible the last
      one listed. */
  lemma {:induction false} PickIsLastVisible(infos: seq<Info>, i: nat)
    requires i < |infos|
    requires infos[i].visible && forall k :: i < k < |infos| ==> !infos[k].visible
    ensures LastVisible(infos) == Pick(infos) == Some(infos[i])
    decreases |infos|
  {
    if i < |infos| - 1 { PickIsLastVisible(infos[..|infos| - 1], i); }
  }

  lemma {:induction false} PickFallsBack(infos: seq<Info>)
    requires infos != [] && forall k :: 0 <= k < |infos| ==> !infos[k].visible
    ensures LastVisible(infos).None? && Pick(infos) == Some(infos[|infos| - 1])
  {
    NoneVisible(infos);
  }

  lemma {:induction false} NoneVisible(infos: seq<Info>)
    requires forall k :: 0 <= k < |infos| ==> !infos[k].visible
    ensures LastVisible(infos).None?
    decreases |infos|
  {
    if infos != [] { NoneVisible(infos[..|infos| - 1]); }
  }

  /** The info struct of ios_window_surface_create; the surface itself is named by its id. */
  function SlotOf(op: DriverOp): Slot
    requires op.AddPending?
  {
    NewSlot(op.id, op.hwnd, op.width, op.height, op.width * 4, op.id)
  }

  function DriverAct(s: State, t: nat): State
    requires t in s.ops
  {
    var done := s.(ops := s.ops[t := BumpPending]);
    match s.ops[t]
    case AddPending(_, _, _, _) => done.(slots := Added(s.slots, SlotOf(s.ops[t])))
    case WritePending(id, pixels) => s.(bits := s.bits[id := pixels], ops := s.ops[t := UpdatePending(id)])
    case UpdatePending(id) => done.(slots := Updated(s.slots, id))
    case PlacePending(id, x, y, w, h, visible) => done.(slots := Placed(s.slots, id, x, y, w, h, visible))
    case RemovePending(id) => done.(slots := Removed(s.slots, id))
    case BumpPending => s.(ops := s.ops - {t}, changeSeq := s.changeSeq + 1)
  }

  /** Lines 120-142, after the snapshot of line 121. */
  function TickListed(v: View, pick: Option<Info>): View {
    if pick.None? then v.(pc := Idle, current := None, contents := None)
    else if v.current.Some? && v.current.value.id == pick.value.id && pick.value.updateSeq == v.lastPixelSeq then
      v.(pc := Idle, current := pick)
    else v.(pc := NeedCopy, current := pick)
  }

  /** wine_display_copy_surface into a buffer of width * height * 4 bytes. */
  function Copied(s: State, pick: Info): Option<Pixels> {
    var slot := Lookup(s.slots, pick.id);
    if slot.Some? && slot.value.Used? && slot.value.stride * slot.value.pub.height <= pick.width * pick.height * 4
      && slot.value.ctx in s.bits
    then Some(s.bits[slot.value.ctx]) else None
  }

  function TickCopied(s: State, pick: Info): View {
    var c := Copied(s, pick);
    if c.None? then s.view.(pc := Idle)
    else s.view.(pc := Idle, lastPixelSeq := pick.updateSeq, contents := Some(Image(pick.width, pick.height, c.value)))
  }

  function Next(s: State, step: Step): State
    requires Enabled(s, step)
  {
    match step
    case Create(t, hwnd, width, height) =>
      s.(nextId := s.nextId + 1, bits := s.bits[s.nextId := seq(width * height, _ => 0)],
         ops := s.ops[t := AddPending(s.nextId, hwnd, width, height)])
    case Flush(t, id, pixels) => s.(ops := s.ops[t := WritePending(id, pixels)])
    case Place(t, id, x, y, w, h, visible) => s.(ops := s.ops[t := PlacePending(id, x, y, w, h, visible)])
    case Destroy(t, id) => s.(ops := s.ops[t := RemovePending(id)])
    case Title(t) => s.(ops := s.ops[t := BumpPending])
    case Act(t) => DriverAct(s, t)
    case TickSeq =>
      if s.changeSeq == s.view.lastChangeSeq then s
      else s.(view := s.view.(pc := HaveSeq, lastChangeSeq := s.changeSeq))
    case TickList => s.(view := TickListed(s.view, Pick(Listed(s.slots))))
    case TickCopy => s.(view := TickCopied(s, s.view.current.value))
  }

  function Initial(): State {
    State(seq(MAX_SURFACES, _ => Unused), 1, 1, map[], map[], View(Idle, 0, 0, None, None))
  }

  ghost predicate Run(s: State, steps: seq<Step>, s': State)
    decreases |steps|
  {
    if steps == [] then s' == s else Enabled(s, steps[0]) && Run(Next(s, steps[0]), steps[1..], s')
  }

  // ---- the registry as a map ----------------------------------------------------------------

  lemma LookupAdded(slots: seq<Slot>, slot: Slot, id: nat)
    requires Distinct(slots) && slot.Used? && Lookup(slots, slot.pub.id).None?
    ensures Distinct(Added(slots, slot))
    ensures Lookup(Added(slots, slot), id) ==
      if id == slot.pub.id && FirstUnused(slots) < |slots| then Some(slot) else Lookup(slots, id)
  {
    FindIsRegistered(slots, id);
    FindIsRegistered(slots, slot.pub.id);
    FindIsRegistered(Added(slots, slot), id);
    var i := FirstUnused(slots);
    if i < |slots| { assert Is(Added(slots, slot)[i], slot.pub.id); }
    var k := Find(slots, id);
    if k < |slots| { assert Is(Added(slots, slot)[k], id); }
  }

  lemma LookupUpdated(slots: seq<Slot>, id0: nat, id: nat)
    requires Distinct(slots)
    ensures Distinct(Updated(slots, id0))
    ensures Lookup(Updated(slots, id0), id) ==
      if id == id0 && Lookup(slots, id).Some? then
        var old_ := Lookup(slots, id).value;
        Some(old_.(pub := old_.pub.(updateSeq := old_.pub.updateSeq + 1)))
      else Lookup(slots, id)
  {
    FindIsRegistered(slots, id);
    FindIsRegistered(Updated(slots, id0), id);
    var k := Find(slots, id);
    if k < |slots| { assert Is(Updated(slots, id0)[k], id); }
  }

  lemma LookupPlaced(slots: seq<Slot>, id0: nat, x: int, y: int, w: int, h: int, visible: bool, id: nat)
    requires Distinct(slots)
    ensures Distinct(Placed(slots, id0, x, y, w, h, visible))
    ensures Lookup(Placed(slots, id0, x, y, w, h, visible), id) ==
      if id == id0 && Lookup(slots, id).Some? then
        var old_ := Lookup(slots, id).value;
        Some(old_.(pub := old_.pub.(x := x, y := y, w := w, h := h, visible := visible)))
      else Lookup(slots, id)
  {
    FindIsRegistered(slots, id);
    FindIsRegistered(Placed(slots, id0, x, y, w, h, visible), id);
    var k := Find(slots, id);
    if k < |slots| { assert Is(Placed(slots, id0, x, y, w, h, visible)[k], id); }
  }

  lemma LookupRemoved(slots: seq<Slot>, id0: nat, id: nat)
    requires Distinct(slots)
    ensures Distinct(Removed(slots, id0))
    ensures Lookup(Removed(slots, id0), id) == if id == id0 then None else Lookup(slots, id)
  {
    FindIsRegistered(slots, id);
    FindIsRegistered(Removed(slots, id0), id);
    var k := Find(slots, id);
    if k < |slots| && id != id0 { assert Is(Removed(slots, id0)[k], id); }
  }

  lemma PickIsLookedUp(slots: seq<Slot>)
    requires Distinct(slots) && Pick(Listed(slots)).Some?
    ensures var p := Pick(Listed(slots)).value; Lookup(slots, p.id).Some? && Lookup(slots, p.id).value.pub == p
  {
    var p := Pick(Listed(slots)).value;
    ListedIff(slots, p);
    var i :| 0 <= i < |slots| && slots[i].Used? && slots[i].pub == p;
    assert Is(slots[i], p.id);
    FindIsRegistered(slots, p.id);
  }

  // ---- the invariant ------------------------------------------------------------------------

  ghost predicate SlotOk(s: State, slot: Slot, id: nat) {
    && slot.Used? && slot.pub.id == id && slot.ctx == id && id < s.nextId && id in s.bits
    && slot.stride == slot.pub.width * 4 && |s.bits[id]| == slot.pub.width * slot.pub.height
  }

  ghost predicate RegistryOk(s: State) {
    && Distinct(s.slots)
    && (forall id :: Lookup(s.slots, id).Some? ==> SlotOk(s, Lookup(s.slots, id).value, id))
    && (forall id :: id in s.bits ==> id < s.nextId)
  }

  ghost predicate OpOk(s: State, op: DriverOp) {
    match op
    case AddPending(id, _, _, _) =>
      && SlotOk(s, SlotOf(op), id) && Lookup(s.slots, id).None?
      && (s.view.current.Some? ==> s.view.current.value.id != id)
    case WritePending(id, pixels) => id in s.bits && |pixels| == |s.bits[id]|
    case _ => true
  }

  /** No surface is being added twice. */
  ghost predicate AddsDistinct(s: State) {
    forall t, u :: t in s.ops && u in s.ops && t != u && s.ops[t].AddPending? && s.ops[u].AddPending? ==>
      s.ops[t].id != s.ops[u].id
  }

  ghost predicate UpdateInFlight(s: State, id: nat) {
    exists t :: t in s.ops && s.ops[t] == UpdatePending(id)
  }

  /** The image the presenter should show for slot. */
  function ImageOf(s: State, slot: Slot): Option<Image> {
    if slot.Used? && slot.ctx in s.bits then Some(Image(slot.pub.width, slot.pub.height, s.bits[slot.ctx])) else None
  }

  /** What the screen should show: the current bits of the picked surface, or nothing. */
  function Expected(s: State): Option<Image> {
    var pick := Pick(Listed(s.slots));
    if pick.None? then None
    else
      var slot := Lookup(s.slots, pick.value.id);
      if slot.None? then None else ImageOf(s, slot.value)
  }

  ghost predicate CurrentOk(s: State) {
    s.view.current.Some? ==>
      var cur := s.view.current.value;
      && cur.id < s.nextId
      && (Lookup(s.slots, cur.id).Some? ==>
            var pub := Lookup(s.slots, cur.id).value.pub;
            && cur.width == pub.width && cur.height == pub.height
            && (if s.view.pc.NeedCopy? then cur.updateSeq <= pub.updateSeq else s.view.lastPixelSeq <= pub.updateSeq))
  }

  /** An image whose sequence number is up to date is up to date, unless a flush of that surface
      has written pixels and not yet raised update_seq. */
  ghost predicate PixelsOk(s: State) {
    !s.view.pc.NeedCopy? && s.view.current.Some? ==>
      var slot := Lookup(s.slots, s.view.current.value.id);
      slot.Some? && slot.value.Used? && slot.value.pub.updateSeq == s.view.lastPixelSeq
        && !UpdateInFlight(s, s.view.current.value.id) ==>
        s.view.contents == ImageOf(s, slot.value)
  }

  /** With no driver call in flight and nothing new announced, the screen is right (or about to be). */
  ghost predicate ScreenOk(s: State) {
    s.ops == map[] && s.view.lastChangeSeq == s.changeSeq && !s.view.pc.HaveSeq? ==>
      && s.view.current == Pick(Listed(s.slots))
      && (s.view.pc.Idle? ==> s.view.contents == Expected(s))
  }

  ghost predicate Inv(s: State) {
    && RegistryOk(s)
    && (forall t :: t in s.ops ==> OpOk(s, s.ops[t]))
    && AddsDistinct(s)
    && s.view.lastChangeSeq <= s.changeSeq
    && (s.view.pc.NeedCopy? ==> s.view.current.Some?)
    && CurrentOk(s) && PixelsOk(s) && ScreenOk(s)
  }

  lemma InitialInv()
    ensures Inv(Initial())
  {
    forall id ensures Lookup(Initial().slots, id).None? {
      FindIsRegistered(Initial().slots, id);
    }
  }

  lemma StartKeeps(s: State, step: Step)
    requires Inv(s) && Enabled(s, step) && !IsTick(step) && !step.Act? && !step.Create?
    ensures Inv(Next(s, step))
  {
    var s' := Next(s, step);
    assert step.t in s'.ops;
    assert s'.ops != map[];
    if UpdateInFlight(s, if s.view.current.Some? then s.view.current.value.id else 0) {
      var u :| u in s.ops && s.ops[u] == UpdatePending(if s.view.current.Some? then s.view.current.value.id else 0);
      assert s'.ops[u] == s.ops[u];
    }
  }

  lemma CreateKeeps(s: State, step: Step)
    requires Inv(s) && Enabled(s, step) && step.Create?
    ensures Inv(Next(s, step))
  {
    var s' := Next(s, step);
    assert step.t in s'.ops;
    assert s'.ops != map[];
    assert Lookup(s.slots, s.nextId).None?;
    if UpdateInFlight(s, if s.view.current.Some? then s.view.current.value.id else 0) {
      var u :| u in s.ops && s.ops[u] == UpdatePending(if s.view.current.Some? then s.view.current.value.id else 0);
      assert s'.ops[u] == s.ops[u];
    }
  }

  /** The critical sections of the callbacks and of flush. */
  lemma AddKeeps(s: State, t: nat)
    requires Inv(s) && t in s.ops && s.ops[t].AddPending?
    ensures Inv(DriverAct(s, t))
  {
    var s' := DriverAct(s, t);
    var slot := SlotOf(s.ops[t]);
    forall id
      ensures Lookup(s'.slots, id) ==
        if id == slot.pub.id && FirstUnused(s.slots) < |s.slots| then Some(slot) else Lookup(s.slots, id)
    {
      LookupAdded(s.slots, slot, id);
    }
    LookupAdded(s.slots, slot, 0);
    KeepsInFlight(s, s', t);
  }

  /** Apart from the acting thread's, the pending calls stay pending. */
  lemma KeepsInFlight(s: State, s': State, t: nat)
    requires t in s.ops && t in s'.ops && s'.ops == s.ops[t := s'.ops[t]]
    ensures forall id :: UpdateInFlight(s', id) ==> UpdateInFlight(s, id) || s'.ops[t] == UpdatePending(id)
    ensures forall id :: UpdateInFlight(s, id) ==> UpdateInFlight(s', id) || s.ops[t] == UpdatePending(id)
    ensures s'.ops != map[]
  {
    assert t in s'.ops;
    forall id | UpdateInFlight(s, id) && s.ops[t] != UpdatePending(id) ensures UpdateInFlight(s', id) {
      var u :| u in s.ops && s.ops[u] == UpdatePending(id);
      assert s'.ops[u] == UpdatePending(id);
    }
    forall id | UpdateInFlight(s', id) && s'.ops[t] != UpdatePending(id) ensures UpdateInFlight(s, id) {
      var u :| u in s'.ops && s'.ops[u] == UpdatePending(id);
      assert s.ops[u] == UpdatePending(id);
    }
  }

  lemma WriteKeeps(s: State, t: nat)
    requires Inv(s) && t in s.ops && s.ops[t].WritePending?
    ensures Inv(DriverAct(s, t))
  {
    var s' := DriverAct(s, t);
    KeepsInFlight(s, s', t);
    assert s'.ops[t] == UpdatePending(s.ops[t].id);
    assert UpdateInFlight(s', s.ops[t].id);
  }

  lemma UpdateKeeps(s: State, t: nat)
    requires Inv(s) && t in s.ops && s.ops[t].UpdatePending?
    ensures Inv(DriverAct(s, t))
  {
    var s' := DriverAct(s, t);
    KeepsInFlight(s, s', t);
    var id0 := s.ops[t].id;
    LookupUpdated(s.slots, id0, 0);
    forall id
      ensures Lookup(s'.slots, id) ==
        if id == id0 && Lookup(s.slots, id).Some? then
          var old_ := Lookup(s.slots, id).value;
          Some(old_.(pub := old_.pub.(updateSeq := old_.pub.updateSeq + 1)))
        else Lookup(s.slots, id)
    {
      LookupUpdated(s.slots, id0, id);
    }
  }

  lemma PlaceKeeps(s: State, t: nat)
    requires Inv(s) && t in s.ops && s.ops[t].PlacePending?
    ensures Inv(DriverAct(s, t))
  {
    var s' := DriverAct(s, t);
    KeepsInFlight(s, s', t);
    var op := s.ops[t];
    LookupPlaced(s.slots, op.id, op.x, op.y, op.w, op.h, op.visible, 0);
    forall id
      ensures Lookup(s'.slots, id) ==
        if id == op.id && Lookup(s.slots, id).Some? then
          var old_ := Lookup(s.slots, id).value;
          Some(old_.(pub := old_.pub.(x := op.x, y := op.y, w := op.w, h := op.h, visible := op.visible)))
        else Lookup(s.slots, id)
    {
      LookupPlaced(s.slots, op.id, op.x, op.y, op.w, op.h, op.visible, id);
    }
  }

  lemma RemoveKeeps(s: State, t: nat)
    requires Inv(s) && t in s.ops && s.ops[t].RemovePending?
    ensures Inv(DriverAct(s, t))
  {
    var s' := DriverAct(s, t);
    KeepsInFlight(s, s', t);
    LookupRemoved(s.slots, s.ops[t].id, 0);
    forall id ensures Lookup(s'.slots, id) == if id == s.ops[t].id then None else Lookup(s.slots, id) {
      LookupRemoved(s.slots, s.ops[t].id, id);
    }
  }

  lemma BumpKeeps(s: State, t: nat)
    requires Inv(s) && t in s.ops && s.ops[t].BumpPending?
    ensures Inv(DriverAct(s, t))
  {
    var s' := DriverAct(s, t);
    if s.view.current.Some? && UpdateInFlight(s, s.view.current.value.id) {
      var u :| u in s.ops && s.ops[u] == UpdatePending(s.view.current.value.id);
      assert s'.ops[u] == s.ops[u];
    }
  }

  lemma TickSeqKeeps(s: State)
    requires Inv(s) && Enabled(s, TickSeq)
    ensures Inv(Next(s, TickSeq))
  {
    assert Next(s, TickSeq).ops == s.ops;
    assert forall id :: UpdateInFlight(Next(s, TickSeq), id) <==> UpdateInFlight(s, id);
  }

  lemma TickListKeeps(s: State)
    requires Inv(s) && Enabled(s, TickList)
    ensures Inv(Next(s, TickList))
  {
    var s' := Next(s, TickList);
    assert forall id :: UpdateInFlight(s', id) <==> UpdateInFlight(s, id);
    if Pick(Listed(s.slots)).Some? { PickIsLookedUp(s.slots); }
  }

  /** A change of the view alone, with the same surface current. */
  lemma ViewOnly(s: State, s': State)
    requires Inv(s) && s' == s.(view := s'.view) && s'.view.current == s.view.current
    ensures RegistryOk(s') && AddsDistinct(s') && forall t :: t in s'.ops ==> OpOk(s', s'.ops[t])
  {
  }

  lemma TickCopyPixels(s: State, s': State)
    requires Inv(s) && Enabled(s, TickCopy) && s' == Next(s, TickCopy)
    ensures CurrentOk(s') && PixelsOk(s')
  {
    assert forall id :: UpdateInFlight(s', id) <==> UpdateInFlight(s, id);
  }

  /** A copy of a registered surface, sized by its own listing, gets its bits. */
  lemma CopySucceeds(s: State, p: Info)
    requires RegistryOk(s) && Lookup(s.slots, p.id).Some? && Lookup(s.slots, p.id).value.pub == p
    ensures p.id in s.bits && Copied(s, p) == Some(s.bits[p.id])
    ensures ImageOf(s, Lookup(s.slots, p.id).value) == Some(Image(p.width, p.height, s.bits[p.id]))
  {
    assert SlotOk(s, Lookup(s.slots, p.id).value, p.id);
    SameArea(p.width, p.height);
  }

  lemma SameArea(w: nat, h: nat)
    ensures w * 4 * h == w * h * 4
  {
  }

  lemma TickCopyScreen(s: State, s': State)
    requires RegistryOk(s) && ScreenOk(s) && Enabled(s, TickCopy) && s' == Next(s, TickCopy)
    ensures ScreenOk(s')
  {
    if Pick(Listed(s.slots)).Some? {
      PickIsLookedUp(s.slots);
      CopySucceeds(s, Pick(Listed(s.slots)).value);
    }
  }

  lemma TickCopyKeeps(s: State)
    requires Inv(s) && Enabled(s, TickCopy)
    ensures Inv(Next(s, TickCopy))
  {
    var s' := Next(s, TickCopy);
    ViewOnly(s, s');
    TickCopyPixels(s, s');
    TickCopyScreen(s, s');
  }

  lemma StepKeeps(s: State, step: Step)
    requires Inv(s) && Enabled(s, step)
    ensures Inv(Next(s, step))
  {
    match step
    case Create(_, _, _, _) => CreateKeeps(s, step);
    case TickSeq => TickSeqKeeps(s);
    case TickList => TickListKeeps(s);
    case TickCopy => TickCopyKeeps(s);
    case Act(t) => ActKeeps(s, t);
    case _ => StartKeeps(s, step);
  }

  lemma ActKeeps(s: State, t: nat)
    requires Inv(s) && t in s.ops
    ensures Inv(DriverAct(s, t))
  {
    match s.ops[t]
    case AddPending(_, _, _, _) => AddKeeps(s, t);
    case WritePending(_, _) => WriteKeeps(s, t);
    case UpdatePending(_) => UpdateKeeps(s, t);
    case PlacePending(_, _, _, _, _, _) => PlaceKeeps(s, t);
    case RemovePending(_) => RemoveKeeps(s, t);
    case BumpPending => BumpKeeps(s, t);
  }

  lemma {:induction false} RunKeeps(s: State, steps: seq<Step>, s': State)
    requires Inv(s) && Run(s, steps, s')
    ensures Inv(s')
    decreases |steps|
  {
    if steps != [] {
      StepKeeps(s, steps[0]);
      RunKeeps(Next(s, steps[0]), steps[1..], s');
    }
  }

  // ---- no lost frame ------------------------------------------------------------------------

  /** A run of presenter steps only. */
  ghost predicate TickRun(s: State, steps: seq<Step>, s': State) {
    Run(s, steps, s') && forall k :: 0 <= k < |steps| ==> IsTick(steps[k])
  }

  /** Ticks change nothing but the view. */
  lemma {:induction false} TicksOnlyView(s: State, steps: seq<Step>, s': State)
    requires TickRun(s, steps, s') && s.ops == map[]
    ensures s'.slots == s.slots && s'.bits == s.bits && s'.ops == map[] && s'.changeSeq == s.changeSeq
    ensures s.view.lastChangeSeq == s.changeSeq ==> s'.view.lastChangeSeq == s'.changeSeq
    ensures steps != [] && s.view.pc.Idle? ==> s'.view.lastChangeSeq == s'.changeSeq
    decreases |steps|
  {
    if steps != [] {
      var n := Next(s, steps[0]);
      assert IsTick(steps[0]);
      assert forall k :: 0 <= k < |steps[1..]| ==> steps[1..][k] == steps[k + 1];
      TicksOnlyView(n, steps[1..], s');
    }
  }

  /** Whatever drivers and presenter did before, once no driver call is in flight any completed tick
      leaves the screen showing exactly the current bits of the picked surface (nothing if there is
      none), and later ticks keep it so. */
  lemma {:induction false} TickShowsExpected(s: State, steps: seq<Step>, s': State)
    requires Inv(s) && s.ops == map[] && s.view.pc.Idle?
    requires TickRun(s, steps, s') && steps != [] && s'.view.pc.Idle?
    ensures s'.view.contents == Expected(s) == Expected(s')
    ensures s'.view.current == Pick(Listed(s.slots))
    ensures Expected(s).Some? <==> Listed(s.slots) != []
  {
    RunKeeps(s, steps, s');
    TicksOnlyView(s, steps, s');
    if Pick(Listed(s.slots)).Some? { PickIsLookedUp(s.slots); }
  }
}
