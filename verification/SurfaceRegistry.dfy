/** The host's registry of window surfaces (CrossoverPad/Sources/WineHost/WineDisplayHost.c):
    32 slots guarded by reg_mutex.  The functions are the critical sections on a value; the class
    runs them in place with the source's scan loops. */
module SurfaceRegistry {

  import opened Wrappers

  const MAX_SURFACES: nat := 32

  /** wine_gui_surface_info. */
  datatype Info = Info(
    id: nat, hwnd: nat, x: int, y: int, w: int, h: int, visible: bool,
    width: nat, height: nat, updateSeq: nat)

  /** struct host_surface; `bits`, `lock` and `unlock` all belong to the driver's surface `ctx`. */
  datatype Slot = Unused | Used(pub: Info, stride: nat, ctx: nat)

  predicate Is(slot: Slot, id: nat) {
    slot.Used? && slot.pub.id == id
  }

  function Find(slots: seq<Slot>, id: nat): (i: nat)
    ensures i <= |slots|
    ensures i < |slots| ==> Is(slots[i], id)
    ensures forall k :: 0 <= k < i ==> !Is(slots[k], id)
  {
    if slots == [] then 0 else if Is(slots[0], id) then 0 else 1 + Find(slots[1..], id)
  }

  function FirstUnused(slots: seq<Slot>): (i: nat)
    ensures i <= |slots|
    ensures i < |slots| ==> slots[i].Unused?
    ensures forall k :: 0 <= k < i ==> slots[k].Used?
  {
    if slots == [] then 0 else if slots[0].Unused? then 0 else 1 + FirstUnused(slots[1..])
  }

  /** What cb_surface_added stores: unplaced, invisible, no update yet. */
  function NewSlot(id: nat, hwnd: nat, width: nat, height: nat, stride: nat, ctx: nat): Slot {
    Used(Info(id, hwnd, 0, 0, width, height, false, width, height, 0), stride, ctx)
  }

  /** A full registry drops the surface. */
  function Added(slots: seq<Slot>, slot: Slot): seq<Slot> {
    var i := FirstUnused(slots);
    if i < |slots| then slots[i := slot] else slots
  }

  function Placed(slots: seq<Slot>, id: nat, x: int, y: int, w: int, h: int, visible: bool): seq<Slot> {
    var i := Find(slots, id);
    if i == |slots| then slots
    else slots[i := slots[i].(pub := slots[i].pub.(x := x, y := y, w := w, h := h, visible := visible))]
  }

  function Updated(slots: seq<Slot>, id: nat): seq<Slot> {
    var i := Find(slots, id);
    if i == |slots| then slots
    else slots[i := slots[i].(pub := slots[i].pub.(updateSeq := slots[i].pub.updateSeq + 1))]
  }

  function Removed(slots: seq<Slot>, id: nat): seq<Slot> {
    var i := Find(slots, id);
    if i == |slots| then slots else slots[i := Unused]
  }

  /** The snapshot of wine_display_list_surfaces: used slots in slot order. */
  function Listed(slots: seq<Slot>): (infos: seq<Info>)
    ensures |infos| <= |slots|
  {
    if slots == [] then []
    else if slots[|slots| - 1].Used? then Listed(slots[..|slots| - 1]) + [slots[|slots| - 1].pub]
    else Listed(slots[..|slots| - 1])
  }

  predicate Distinct(slots: seq<Slot>) {
    forall i, j :: 0 <= i < j < |slots| && slots[i].Used? && slots[j].Used? ==> slots[i].pub.id != slots[j].pub.id
  }

  predicate Registered(slots: seq<Slot>, id: nat) {
    exists i :: 0 <= i < |slots| && Is(slots[i], id)
  }

  /** In a registry without duplicates a lookup sees exactly the registered surface. */
  lemma FindIsRegistered(slots: seq<Slot>, id: nat)
    ensures Registered(slots, id) <==> Find(slots, id) < |slots|
    ensures Distinct(slots) ==> forall k :: 0 <= k < |slots| && Is(slots[k], id) ==> k == Find(slots, id)
  {
  }

  /** The snapshot holds exactly the used slots' infos. */
  lemma {:induction false} ListedIff(slots: seq<Slot>, info: Info)
    ensures info in Listed(slots) <==> exists i :: 0 <= i < |slots| && slots[i].Used? && slots[i].pub == info
    decreases |slots|
  {
    if slots != [] {
      var n := |slots| - 1;
      ListedIff(slots[..n], info);
      if i :| 0 <= i < n && slots[i].Used? && slots[i].pub == info {
        assert slots[..n][i].Used? && slots[..n][i].pub == info;
      }
      if i :| 0 <= i < n && slots[..n][i].Used? && slots[..n][i].pub == info {
        assert slots[i].Used? && slots[i].pub == info;
      }
      if slots[n].Used? && slots[n].pub == info { assert info in Listed(slots); }
    }
  }

  class HostRegistry {
    const surfaces: array<Slot>
    var changeSeq: nat

    constructor ()
      ensures fresh(surfaces) && surfaces[..] == seq(MAX_SURFACES, _ => Unused) && changeSeq == 1
    {
      surfaces := new Slot[MAX_SURFACES](_ => Unused);
      changeSeq := 1;
    }

    method FindSurface(id: nat) returns (i: nat)
      ensures i == Find(surfaces[..], id)
    {
      i := 0;
      while i < surfaces.Length
        invariant i <= surfaces.Length
        invariant Find(surfaces[..], id) == i + Find(surfaces[i..], id)
      {
        if surfaces[i].Used? && surfaces[i].pub.id == id { return; }
        assert surfaces[i..][1..] == surfaces[i + 1..];
        i := i + 1;
      }
    }

    method SurfaceAdded(id: nat, hwnd: nat, width: nat, height: nat, stride: nat, ctx: nat)
      modifies surfaces, this`changeSeq
      ensures surfaces[..] == Added(old(surfaces[..]), NewSlot(id, hwnd, width, height, stride, ctx))
      ensures changeSeq == old(changeSeq) + 1
      ensures var i := FirstUnused(old(surfaces[..]));
        && (forall k :: 0 <= k < surfaces.Length && k != i ==> surfaces[k] == old(surfaces[k]))
        && (i < surfaces.Length ==>
              && surfaces[i].Used? && surfaces[i].stride == stride && surfaces[i].ctx == ctx
              && surfaces[i].pub.id == id && surfaces[i].pub.hwnd == hwnd
              && surfaces[i].pub.x == 0 == surfaces[i].pub.y && !surfaces[i].pub.visible
              && surfaces[i].pub.w == surfaces[i].pub.width == width
              && surfaces[i].pub.h == surfaces[i].pub.height == height && surfaces[i].pub.updateSeq == 0)
    {
      var i := 0;
      while i < surfaces.Length
        invariant i <= surfaces.Length
        invariant FirstUnused(surfaces[..]) == i + FirstUnused(surfaces[i..])
        invariant surfaces[..] == old(surfaces[..]) && changeSeq == old(changeSeq)
      {
        if surfaces[i].Unused? {
          surfaces[i] := NewSlot(id, hwnd, width, height, stride, ctx);
          break;
        }
        assert surfaces[i..][1..] == surfaces[i + 1..];
        i := i + 1;
      }
      changeSeq := changeSeq + 1;
    }

    method SurfacePlaced(id: nat, x: int, y: int, w: int, h: int, visible: bool)
      modifies surfaces, this`changeSeq
      ensures surfaces[..] == Placed(old(surfaces[..]), id, x, y, w, h, visible) && changeSeq == old(changeSeq) + 1
    {
      var i := FindSurface(id);
      if i < surfaces.Length {
        surfaces[i] := surfaces[i].(pub := surfaces[i].pub.(x := x, y := y, w := w, h := h));
        surfaces[i] := surfaces[i].(pub := surfaces[i].pub.(visible := visible));
      }
      changeSeq := changeSeq + 1;
    }

    method SurfaceUpdated(id: nat)
      modifies surfaces, this`changeSeq
      ensures surfaces[..] == Updated(old(surfaces[..]), id) && changeSeq == old(changeSeq) + 1
    {
      var i := FindSurface(id);
      if i < surfaces.Length {
        surfaces[i] := surfaces[i].(pub := surfaces[i].pub.(updateSeq := surfaces[i].pub.updateSeq + 1));
      }
      changeSeq := changeSeq + 1;
    }

    method SurfaceRemoved(id: nat)
      modifies surfaces, this`changeSeq
      ensures surfaces[..] == Removed(old(surfaces[..]), id) && changeSeq == old(changeSeq) + 1
    {
      var i := FindSurface(id);
      if i < surfaces.Length {
        surfaces[i] := Unused;
      }
      changeSeq := changeSeq + 1;
    }

    /** wine_display_list_surfaces: at most maxCount infos, lowest slots first. */
    method ListSurfaces(maxCount: nat) returns (infos: seq<Info>)
      ensures infos <= Listed(surfaces[..])
      ensures |infos| == if maxCount < |Listed(surfaces[..])| then maxCount else |Listed(surfaces[..])|
    {
      infos := [];
      var i := 0;
      while i < surfaces.Length && |infos| < maxCount
        invariant i <= surfaces.Length && |infos| <= maxCount
        invariant infos == Listed(surfaces[..i])
      {
        assert surfaces[..i + 1][..i] == surfaces[..i];
        if surfaces[i].Used? { infos := infos + [surfaces[i].pub]; }
        i := i + 1;
      }
      ListedPrefix(surfaces[..], i);
      assert i == surfaces.Length ==> surfaces[..i] == surfaces[..];
    }
  }

  lemma {:induction false} ListedPrefix(slots: seq<Slot>, n: nat)
    requires n <= |slots|
    ensures Listed(slots[..n]) <= Listed(slots)
    decreases |slots| - n
  {
    if n < |slots| {
      assert slots[..n + 1][..n] == slots[..n];
      ListedPrefix(slots, n + 1);
    } else {
      assert slots[..n] == slots;
    }
  }
}
