/** current_fd_cache scans the cache table without the lock that alloc_process_fd_cache and
    release_process_fd_cache hold (native/patches/0003-inproc-spawn-and-peb.patch, lines 864-920).
    Every load and store is its own step; a scan is interleaved with any writer steps. */
module LockFreeLookup {

  import opened Wrappers
  import opened PebTable

  /** A slot's two words. */
  datatype Pair = Pair(peb: Peb, cache: Word)

  /** What the holder of proc_fd_caches_lock does next. */
  datatype Writer =
    | Idle
    | StoreCache(slot: nat, owner: Peb, cache: Word)
    | StorePeb(slot: nat, owner: Peb, cache: Word)
    | ClearPeb(slot: nat, owner: Peb)
    | ClearCache(slot: nat)

  /** A scan by a thread of `cur`: about to load slot i's PEB, about to load its cache, or done;
      None is the primary's cache. */
  datatype Pc = LoadPeb(i: nat) | LoadCache(i: nat) | Done(result: Option<Word>)

  datatype Reader = Reader(cur: Peb, pc: Pc)

  /** `home` and `own` record where and with which cache each process is registered; nothing in the
      program reads them. */
  datatype State = State(
    primary: Peb,
    slots: seq<Pair>,
    writer: Writer,
    readers: map<nat, Reader>,
    home: map<Peb, nat>,
    own: map<Peb, Word>)

  function FreeSlot(slots: seq<Pair>, i: nat): (k: nat)
    requires i <= |slots|
    ensures i <= k <= |slots|
    ensures k < |slots| ==> slots[k].peb == NULL
    ensures forall j :: i <= j < k ==> slots[j].peb != NULL
    decreases |slots| - i
  {
    if i == |slots| || slots[i].peb == NULL then i else FreeSlot(slots, i + 1)
  }

  datatype Step =
    | Alloc(owner: Peb, cache: Word)
    | Release(owner: Peb)
    | Write
    | Begin(tid: nat, cur: Peb)
    | Load(tid: nat)
    | Return(tid: nat)

  function WriterNext(s: State): State {
    match s.writer
    case Idle => s
    case StoreCache(k, p, c) =>
      if k < |s.slots|
      then s.(slots := s.slots[k := Pair(s.slots[k].peb, c)], writer := StorePeb(k, p, c))
      else s
    case StorePeb(k, p, c) =>
      if k < |s.slots|
      then s.(slots := s.slots[k := Pair(p, s.slots[k].cache)], writer := Idle,
              home := s.home[p := k], own := s.own[p := c])
      else s
    case ClearPeb(k, p) =>
      if k < |s.slots|
      then s.(slots := s.slots[k := Pair(NULL, s.slots[k].cache)], writer := ClearCache(k))
      else s
    case ClearCache(k) =>
      if k < |s.slots|
      then s.(slots := s.slots[k := Pair(s.slots[k].peb, NULL)], writer := Idle)
      else s
  }

  function ReaderNext(slots: seq<Pair>, r: Reader): Reader {
    match r.pc
    case LoadPeb(i) =>
      if i >= |slots| then r.(pc := Done(None))
      else if slots[i].peb == r.cur then r.(pc := LoadCache(i))
      else r.(pc := LoadPeb(i + 1))
    case LoadCache(i) =>
      if i < |slots| then r.(pc := Done(Some(slots[i].cache))) else r
    case Done(_) => r
  }

  /** A page the system hands out is not a registered cache. */
  ghost predicate FreshCache(s: State, c: Word) {
    c != NULL && forall p :: p in s.own ==> s.own[p] != c
  }

  /** The lock is taken only when free; PEBs are registered once; a PEB is released after its last
      scan; scans run on the primary's threads and on those of registered processes. */
  ghost predicate Enabled(s: State, step: Step) {
    match step
    case Alloc(p, c) =>
      s.writer.Idle? && p != NULL && p != s.primary && p !in s.home && FreshCache(s, c)
    case Release(p) => s.writer.Idle? && p in s.home && forall t :: t in s.readers ==> s.readers[t].cur != p
    case Write => !s.writer.Idle?
    case Begin(t, p) => t !in s.readers && (p == s.primary || p in s.home)
    case Load(t) => t in s.readers && !s.readers[t].pc.Done?
    case Return(t) => t in s.readers && s.readers[t].pc.Done?
  }

  function Next(s: State, step: Step): State {
    match step
    case Alloc(p, c) =>
      var k := FreeSlot(s.slots, 0);
      if k < |s.slots| then s.(writer := StoreCache(k, p, c)) else s
    case Release(p) =>
      if p in s.home then s.(writer := ClearPeb(s.home[p], p), home := s.home - {p}, own := s.own - {p}) else s
    case Write => WriterNext(s)
    case Begin(t, p) => s.(readers := s.readers[t := Reader(p, LoadPeb(0))])
    case Load(t) =>
      if t in s.readers then s.(readers := s.readers[t := ReaderNext(s.slots, s.readers[t])]) else s
    case Return(t) => s.(readers := s.readers - {t})
  }

  ghost predicate IsInitial(s: State) {
    && s.primary != NULL && |s.slots| == MAX_PROC_FDS
    && (forall k :: 0 <= k < |s.slots| ==> s.slots[k] == Pair(NULL, NULL))
    && s.writer.Idle? && s.readers == map[] && s.home == map[] && s.own == map[]
  }

  ghost predicate Run(ss: seq<State>, steps: seq<Step>) {
    && |ss| == |steps| + 1 && IsInitial(ss[0])
    && forall i :: 0 <= i < |steps| ==> Enabled(ss[i], steps[i]) && ss[i + 1] == Next(ss[i], steps[i])
  }

  ghost predicate HomesOk(s: State) {
    && s.home.Keys == s.own.Keys
    && (forall p :: p in s.home ==>
          p != NULL && p != s.primary && s.home[p] < |s.slots| && s.slots[s.home[p]] == Pair(p, s.own[p]))
  }

  /** Caches are pages of their own. */
  ghost predicate OwnOk(s: State) {
    && (forall p :: p in s.own ==> s.own[p] != NULL)
    && (forall p, q :: p in s.own && q in s.own && p != q ==> s.own[p] != s.own[q])
  }

  /** Every non-NULL slot is a registered process's home, or the one about to be cleared. */
  ghost predicate SlotsOk(s: State) {
    && |s.slots| == MAX_PROC_FDS && s.primary != NULL
    && (forall k :: 0 <= k < |s.slots| && s.slots[k].peb != NULL ==>
          || (s.slots[k].peb in s.home && s.home[s.slots[k].peb] == k)
          || (s.writer.ClearPeb? && s.writer.slot == k && s.writer.owner == s.slots[k].peb))
  }

  ghost predicate WriterOk(s: State) {
    match s.writer
    case Idle => true
    case StoreCache(k, p, c) =>
      k < |s.slots| && s.slots[k].peb == NULL && p != NULL && p != s.primary && p !in s.home && FreshCache(s, c)
    case StorePeb(k, p, c) =>
      && k < |s.slots| && s.slots[k] == Pair(NULL, c)
      && p != NULL && p != s.primary && p !in s.home && FreshCache(s, c)
    case ClearPeb(k, p) =>
      k < |s.slots| && s.slots[k].peb == p && p != NULL && p != s.primary && p !in s.home
    case ClearCache(k) => k < |s.slots| && s.slots[k].peb == NULL
  }

  /** A registered process's scan has not passed its home; the primary's finds nothing. */
  ghost predicate ReaderOk(s: State, r: Reader) {
    if r.cur == s.primary then
      r.pc.LoadPeb? || r.pc == Done(None)
    else
      && r.cur in s.home && r.cur in s.own
      && match r.pc
         case LoadPeb(i) => i <= s.home[r.cur]
         case LoadCache(i) => i == s.home[r.cur]
         case Done(result) => result == Some(s.own[r.cur])
  }

  ghost predicate ReadersOk(s: State) {
    forall t :: t in s.readers ==> ReaderOk(s, s.readers[t])
  }

  ghost predicate Inv(s: State) {
    HomesOk(s) && OwnOk(s) && SlotsOk(s) && WriterOk(s) && ReadersOk(s)
  }

  lemma WriteKeeps(s: State, t: State)
    requires HomesOk(s) && SlotsOk(s) && WriterOk(s) && !s.writer.Idle? && t == WriterNext(s)
    ensures HomesOk(t) && SlotsOk(t) && WriterOk(t)
  {
  }

  lemma WriteKeepsOwn(s: State, t: State)
    requires OwnOk(s) && WriterOk(s) && t == WriterNext(s)
    ensures OwnOk(t)
  {
  }

  /** A writer step moves no registered process. */
  lemma WriteKeepsHomes(s: State, t: State)
    requires Inv(s) && t == WriterNext(s)
    ensures t.readers == s.readers && t.primary == s.primary
    ensures forall p :: p in s.home ==> p in t.home && p in t.own && t.home[p] == s.home[p] && t.own[p] == s.own[p]
  {
  }

  lemma LoadKeeps(s: State, r: Reader)
    requires HomesOk(s) && SlotsOk(s) && WriterOk(s) && ReaderOk(s, r)
    ensures ReaderOk(s, ReaderNext(s.slots, r))
  {
  }

  lemma AllocKeeps(s: State, p: Peb, c: Word)
    requires Inv(s) && Enabled(s, Alloc(p, c))
    ensures Inv(Next(s, Alloc(p, c)))
  {
    var t := Next(s, Alloc(p, c));
    forall r | r in t.readers ensures ReaderOk(t, t.readers[r]) {
      assert ReaderOk(s, s.readers[r]);
    }
  }

  lemma ReleaseKeeps(s: State, p: Peb)
    requires Inv(s) && Enabled(s, Release(p))
    ensures Inv(Next(s, Release(p)))
  {
    var t := Next(s, Release(p));
    forall r | r in t.readers ensures ReaderOk(t, t.readers[r]) {
      assert ReaderOk(s, s.readers[r]);
    }
  }

  lemma StepKeeps(s: State, step: Step)
    requires Inv(s) && Enabled(s, step)
    ensures Inv(Next(s, step))
  {
    var t := Next(s, step);
    match step
    case Alloc(p, c) => AllocKeeps(s, p, c);
    case Release(p) => ReleaseKeeps(s, p);
    case Write =>
      WriteKeeps(s, t);
      WriteKeepsOwn(s, t);
      WriteKeepsHomes(s, t);
    case Begin(_, _) =>
    case Load(tid) =>
      LoadKeeps(s, s.readers[tid]);
    case Return(_) =>
  }

  lemma {:induction false} InvAt(ss: seq<State>, steps: seq<Step>, n: nat)
    requires Run(ss, steps) && n < |ss|
    ensures Inv(ss[n])
  {
    if n > 0 {
      InvAt(ss, steps, n - 1);
      StepKeeps(ss[n - 1], steps[n - 1]);
    }
  }

  /** In every run a finished scan by a registered process returned that process's own cache: not
      NULL, not the primary's and no sibling's.  A finished scan by the primary returned the
      primary's. */
  lemma ScanFindsOwnCache(ss: seq<State>, steps: seq<Step>, n: nat, tid: nat)
    requires Run(ss, steps) && n < |ss|
    requires tid in ss[n].readers && ss[n].readers[tid].pc.Done?
    ensures var s, r := ss[n], ss[n].readers[tid];
            if r.cur == s.primary then r.pc.result == None
            else
              && r.cur in s.own && r.pc.result == Some(s.own[r.cur]) && s.own[r.cur] != NULL
              && forall q :: q in s.own && q != r.cur ==> r.pc.result != Some(s.own[q])
  {
    InvAt(ss, steps, n);
  }

  /** Loads left in a scan. */
  function Remaining(slots: seq<Pair>, pc: Pc): nat {
    match pc
    case LoadPeb(i) => if i <= |slots| then |slots| - i + 2 else 2
    case LoadCache(_) => 1
    case Done(_) => 0
  }

  /** Whatever the writers do, a scan finishes: each of its loads brings it closer. */
  lemma LoadsFinish(s: State, tid: nat)
    requires Inv(s) && Enabled(s, Load(tid))
    ensures Remaining(s.slots, Next(s, Load(tid)).readers[tid].pc) < Remaining(s.slots, s.readers[tid].pc)
  {
    var r := s.readers[tid];
    assert ReaderOk(s, r);
  }

  /** Why a PEB may be released only after its last scan: a release that overtakes a scan between its
      two loads lets the scan return NULL. */
  lemma ReleaseDuringScanReadsNull(s: State, tid: nat, i: nat)
    requires Inv(s) && s.writer.Idle? && tid in s.readers && s.readers[tid].pc == LoadCache(i)
    ensures var p := s.readers[tid].cur;
            var released := Next(Next(Next(s, Release(p)), Write), Write);
            Next(released, Load(tid)).readers[tid].pc == Done(Some(NULL))
  {
    assert ReaderOk(s, s.readers[tid]);
    var p := s.readers[tid].cur;
    var s1 := Next(s, Release(p));
    assert s1.writer == ClearPeb(i, p) && s1.slots == s.slots && i < |s.slots| && s1.readers == s.readers;
    var s2 := Next(s1, Write);
    assert s2.writer == ClearCache(i) && |s2.slots| == |s.slots| && s2.readers == s.readers;
    assert Next(s2, Write).slots[i].cache == NULL && Next(s2, Write).readers == s.readers;
  }

  /** A registration that finds a free slot completes in two stores, and the new process is then found;
      in a full table it changes nothing. */
  lemma AllocCompletes(s: State, p: Peb, c: Word)
    requires Inv(s) && Enabled(s, Alloc(p, c))
    ensures
      if exists k :: 0 <= k < |s.slots| && s.slots[k].peb == NULL then
        var s1 := Next(s, Alloc(p, c));
        var s2 := Next(s1, Write);
        var t := Next(s2, Write);
        && Enabled(s1, Write) && Enabled(s2, Write) && t.writer.Idle? && t.readers == s.readers
        && t.own == s.own[p := c] && t.home.Keys == s.home.Keys + {p}
        && t.home[p] < |t.slots| == |s.slots| && s.slots[t.home[p]].peb == NULL
        && t.slots == s.slots[t.home[p] := Pair(p, c)]
      else Next(s, Alloc(p, c)) == s
  {
    var k := FreeSlot(s.slots, 0);
    if k < |s.slots| {
      var s1 := Next(s, Alloc(p, c));
      assert s1.writer == StoreCache(k, p, c);
      var s2 := Next(s1, Write);
      assert s2.writer == StorePeb(k, p, c) && s2.slots == s.slots[k := Pair(NULL, c)];
      assert Next(s2, Write).slots == s.slots[k := Pair(p, c)];
    }
  }

  /** A release completes in two stores and leaves an empty slot. */
  lemma ReleaseCompletes(s: State, p: Peb)
    requires Inv(s) && Enabled(s, Release(p))
    ensures
      var s1 := Next(s, Release(p));
      var s2 := Next(s1, Write);
      var t := Next(s2, Write);
      && Enabled(s1, Write) && Enabled(s2, Write) && t.writer.Idle? && t.readers == s.readers
      && t.own == s.own - {p} && t.home == s.home - {p}
      && s.home[p] < |s.slots| && t.slots == s.slots[s.home[p] := Pair(NULL, NULL)]
  {
    var k := s.home[p];
    var s1 := Next(s, Release(p));
    assert s1.writer == ClearPeb(k, p) && k < |s.slots|;
    var s2 := Next(s1, Write);
    assert s2.writer == ClearCache(k) && s2.slots == s.slots[k := Pair(NULL, s.slots[k].cache)];
    assert Next(s2, Write).slots == s.slots[k := Pair(NULL, NULL)];
  }
}
