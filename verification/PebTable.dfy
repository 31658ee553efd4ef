/** The PEB-keyed registries of native/patches/0003-inproc-spawn-and-peb.patch: 64-slot tables with
    holes, scanned from the front (proc_server_fds, proc_image_infos, proc_fd_caches). */
module PebTable {

  import opened Wrappers

  const MAX_PROC_FDS: nat := 64
  const NULL: Word := 0

  /** An address or a descriptor. */
  type Word = int

  /** One slot: the owner's PEB, NULL for a hole, and a descriptor or an address.  A hole may keep a
      dead value. */
  datatype Slot = Slot(peb: Peb, value: Option<Word>)

  type Peb = Word

  predicate Distinct(slots: seq<Slot>) {
    forall i, j :: 0 <= i < j < |slots| && slots[i].peb != NULL ==> slots[i].peb != slots[j].peb
  }

  predicate Filled(slots: seq<Slot>) {
    forall i :: 0 <= i < |slots| && slots[i].peb != NULL ==> slots[i].value.Some?
  }

  ghost predicate TableOk(slots: seq<Slot>) {
    |slots| == MAX_PROC_FDS && Distinct(slots) && Filled(slots)
  }

  /** The partial map that the first n slots stand for. */
  ghost function ViewOf(slots: seq<Slot>, n: nat): map<Peb, Word>
    requires Filled(slots) && n <= |slots|
  {
    if n == 0 then map[]
    else if slots[n - 1].peb == NULL then ViewOf(slots, n - 1)
    else ViewOf(slots, n - 1)[slots[n - 1].peb := slots[n - 1].value.value]
  }

  ghost function View(slots: seq<Slot>): map<Peb, Word>
    requires Filled(slots)
  {
    ViewOf(slots, |slots|)
  }

  predicate Absent(slots: seq<Slot>, n: nat, p: Peb)
    requires n <= |slots|
  {
    forall i :: 0 <= i < n ==> slots[i].peb != p
  }

  predicate Full(slots: seq<Slot>, n: nat)
    requires n <= |slots|
  {
    forall i :: 0 <= i < n ==> slots[i].peb != NULL
  }

  lemma {:induction false} AbsentIsUnmapped(slots: seq<Slot>, n: nat, p: Peb)
    requires p != NULL && Filled(slots) && n <= |slots|
    ensures Absent(slots, n, p) <==> p !in ViewOf(slots, n)
  {
    if n > 0 { AbsentIsUnmapped(slots, n - 1, p); }
  }

  /** A key's value is the one in its slot. */
  lemma {:induction false} FoundAt(slots: seq<Slot>, n: nat, k: nat)
    requires Distinct(slots) && Filled(slots) && k < n <= |slots| && slots[k].peb != NULL
    ensures slots[k].peb in ViewOf(slots, n) && Some(ViewOf(slots, n)[slots[k].peb]) == slots[k].value
  {
    if k < n - 1 { FoundAt(slots, n - 1, k); }
  }

  /** Without duplicates a table has no hole exactly when its map is as large as the table. */
  lemma {:induction false} FullIffNoRoom(slots: seq<Slot>, n: nat)
    requires Distinct(slots) && Filled(slots) && n <= |slots|
    ensures |ViewOf(slots, n)| <= n
    ensures Full(slots, n) <==> |ViewOf(slots, n)| == n
  {
    if n > 0 {
      FullIffNoRoom(slots, n - 1);
      if slots[n - 1].peb != NULL {
        AbsentIsUnmapped(slots, n - 1, slots[n - 1].peb);
        assert Absent(slots, n - 1, slots[n - 1].peb);
        var m := ViewOf(slots, n - 1);
        assert m[slots[n - 1].peb := slots[n - 1].value.value].Keys == m.Keys + {slots[n - 1].peb};
      }
    }
  }

  /** Writing slot k for p, which is elsewhere absent. */
  lemma {:induction false} StoreOnMap(slots: seq<Slot>, k: nat, p: Peb, v: Word, n: nat)
    requires p != NULL && Filled(slots) && k < |slots| && n <= |slots|
    requires slots[k].peb == NULL || slots[k].peb == p
    requires forall i :: 0 <= i < |slots| && i != k ==> slots[i].peb != p
    ensures Filled(slots[k := Slot(p, Some(v))])
    ensures ViewOf(slots[k := Slot(p, Some(v))], n) ==
      if k < n then ViewOf(slots, n)[p := v] else ViewOf(slots, n)
  {
    if n > 0 { StoreOnMap(slots, k, p, v, n - 1); }
  }

  lemma {:induction false} EraseOnMap(slots: seq<Slot>, k: nat, dead: Option<Word>, n: nat)
    requires Filled(slots) && Distinct(slots) && k < |slots| && n <= |slots| && slots[k].peb != NULL
    ensures Filled(slots[k := Slot(NULL, dead)])
    ensures ViewOf(slots[k := Slot(NULL, dead)], n) == ViewOf(slots, n) - {slots[k].peb}
  {
    if n > 0 {
      EraseOnMap(slots, k, dead, n - 1);
      assert n - 1 != k ==> slots[n - 1].peb != slots[k].peb;
    }
  }

  /** set_process_server_fd and set_process_image_info on the map: None unregisters, a new owner
      is dropped silently when no slot is left. */
  function SetMap(m: map<Peb, Word>, owner: Peb, v: Option<Word>): map<Peb, Word> {
    if v.None? then m - {owner}
    else if owner in m || |m| < MAX_PROC_FDS then m[owner := v.value]
    else m
  }

  lemma {:induction false} EmptyTable(slots: seq<Slot>, n: nat)
    requires n <= |slots| && forall i :: 0 <= i < |slots| ==> slots[i].peb == NULL
    ensures ViewOf(slots, n) == map[]
  {
    if n > 0 { EmptyTable(slots, n - 1); }
  }

  /** The three ways a registration ends, on the map. */
  lemma SetFound(slots: seq<Slot>, k: nat, owner: Peb, v: Option<Word>)
    requires owner != NULL && TableOk(slots) && k < |slots| && slots[k].peb == owner
    ensures TableOk(slots[k := Slot(if v.Some? then owner else NULL, v)])
    ensures View(slots[k := Slot(if v.Some? then owner else NULL, v)]) == SetMap(View(slots), owner, v)
  {
    FoundAt(slots, |slots|, k);
    if v.Some? {
      StoreOnMap(slots, k, owner, v.value, |slots|);
    } else {
      EraseOnMap(slots, k, v, |slots|);
    }
  }

  lemma SetFree(slots: seq<Slot>, k: nat, owner: Peb, v: Word)
    requires owner != NULL && TableOk(slots) && k < |slots| && slots[k].peb == NULL && Absent(slots, |slots|, owner)
    ensures owner !in View(slots) && |View(slots)| < MAX_PROC_FDS
    ensures TableOk(slots[k := Slot(owner, Some(v))])
    ensures View(slots[k := Slot(owner, Some(v))]) == View(slots)[owner := v]
    ensures View(slots[k := Slot(owner, Some(v))]) == SetMap(View(slots), owner, Some(v))
  {
    AbsentIsUnmapped(slots, |slots|, owner);
    FullIffNoRoom(slots, |slots|);
    StoreOnMap(slots, k, owner, v, |slots|);
  }

  lemma SetNowhere(slots: seq<Slot>, owner: Peb, v: Option<Word>)
    requires owner != NULL && TableOk(slots) && Absent(slots, |slots|, owner)
    requires v.None? || Full(slots, |slots|)
    ensures owner !in View(slots) && View(slots) == SetMap(View(slots), owner, v)
    ensures v.Some? ==> |View(slots)| == MAX_PROC_FDS
  {
    AbsentIsUnmapped(slots, |slots|, owner);
    FullIffNoRoom(slots, |slots|);
    assert View(slots) - {owner} == View(slots);
  }

  class Table {
    const slots: array<Slot>

    ghost predicate Valid()
      reads slots
    {
      TableOk(slots[..])
    }

    ghost function Map(): map<Peb, Word>
      requires Valid()
      reads slots
    {
      View(slots[..])
    }

    constructor ()
      ensures Valid() && fresh(slots) && Map() == map[]
    {
      slots := new Slot[MAX_PROC_FDS](_ => Slot(NULL, None));
      new;
      EmptyTable(slots[..], MAX_PROC_FDS);
    }

    method Set(owner: Peb, v: Option<Word>)
      requires Valid() && owner != NULL
      modifies slots
      ensures Valid() && Map() == SetMap(old(Map()), owner, v)
    {
      ghost var was := slots[..];
      var freeSlot := slots.Length;
      var i := 0;
      while i < slots.Length
        invariant i <= slots.Length == MAX_PROC_FDS && slots[..] == was
        invariant forall k :: 0 <= k < i ==> slots[k].peb != owner
        invariant freeSlot < slots.Length ==> 0 <= freeSlot < i && slots[freeSlot].peb == NULL
        invariant freeSlot >= slots.Length ==>
          freeSlot == slots.Length && forall k :: 0 <= k < i ==> slots[k].peb != NULL
      {
        if slots[i].peb == owner {
          SetFound(was, i, owner, v);
          slots[i] := Slot(if v.Some? then owner else NULL, v);
          assert slots[..] == was[i := slots[i]];
          return;
        }
        if freeSlot == slots.Length && slots[i].peb == NULL { freeSlot := i; }
        i := i + 1;
      }
      if freeSlot < slots.Length && v.Some? {
        SetFree(was, freeSlot, owner, v.value);
        slots[freeSlot] := Slot(owner, v);
        assert slots[..] == was[freeSlot := slots[freeSlot]];
      } else {
        SetNowhere(was, owner, v);
      }
    }

    /** The scan of current_server_fd and current_image_info. */
    method Get(cur: Peb, fallback: Word) returns (v: Word)
      requires Valid() && cur != NULL
      ensures v == if cur in Map() then Map()[cur] else fallback
    {
      v := fallback;
      var i := 0;
      while i < slots.Length
        invariant i <= slots.Length && v == fallback
        invariant forall k :: 0 <= k < i ==> slots[k].peb != cur
      {
        if slots[i].peb == cur {
          FoundAt(slots[..], slots.Length, i);
          return slots[i].value.value;
        }
        i := i + 1;
      }
      AbsentIsUnmapped(slots[..], slots.Length, cur);
    }

    /** alloc_process_fd_cache, lines 884-895: unlike Set it reports a full table and keeps an
        existing registration.  `kept` says whether v is now the owner's. */
    method Add(owner: Peb, v: Word) returns (ok: bool, kept: bool)
      requires Valid() && owner != NULL
      modifies slots
      ensures Valid()
      ensures kept == (owner !in old(Map()) && |old(Map())| < MAX_PROC_FDS)
      ensures ok == (owner in old(Map()) || |old(Map())| < MAX_PROC_FDS)
      ensures Map() == if kept then old(Map())[owner := v] else old(Map())
    {
      ghost var was := slots[..];
      var freeSlot := slots.Length;
      var i := 0;
      while i < slots.Length
        invariant i <= slots.Length == MAX_PROC_FDS && slots[..] == was
        invariant forall k :: 0 <= k < i ==> slots[k].peb != owner
        invariant freeSlot < slots.Length ==> 0 <= freeSlot < i && slots[freeSlot].peb == NULL
        invariant freeSlot >= slots.Length ==>
          freeSlot == slots.Length && forall k :: 0 <= k < i ==> slots[k].peb != NULL
      {
        if slots[i].peb == owner {
          FoundAt(was, |was|, i);
          return true, false;
        }
        if freeSlot == slots.Length && slots[i].peb == NULL { freeSlot := i; }
        i := i + 1;
      }
      if freeSlot == slots.Length {
        SetNowhere(was, owner, Some(v));
        return false, false;
      }
      SetFree(was, freeSlot, owner, v);
      slots[freeSlot] := Slot(owner, Some(v));
      assert slots[..] == was[freeSlot := slots[freeSlot]];
      return true, true;
    }

    /** release_process_fd_cache, lines 910-918. */
    method Remove(owner: Peb) returns (v: Option<Word>)
      requires Valid() && owner != NULL
      modifies slots
      ensures Valid() && Map() == old(Map()) - {owner}
      ensures v == if owner in old(Map()) then Some(old(Map())[owner]) else None
    {
      ghost var was := slots[..];
      var i := 0;
      while i < slots.Length
        invariant i <= slots.Length && slots[..] == was
        invariant forall k :: 0 <= k < i ==> slots[k].peb != owner
      {
        if slots[i].peb == owner {
          v := slots[i].value;
          FoundAt(was, |was|, i);
          EraseOnMap(was, i, None, |was|);
          slots[i] := Slot(NULL, None);
          assert slots[..] == was[i := slots[i]];
          return;
        }
        i := i + 1;
      }
      SetNowhere(was, owner, None);
      v := None;
    }
  }
}
