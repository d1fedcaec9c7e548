/**
 The file cache under concurrent callers. Every call on the list is one step, so
 a Get may touch an entry in the middle of another caller's Put; the mutex only
 orders Put, Flush and the removal half of Get among themselves.
 */
module CacheInterleaving {
  import opened Wrappers
  import opened Lru
  import opened FileCache

  type Tid = nat

  /** Where a caller is; the states below `Removing` are held under the mutex. */
  datatype Pc =
    | Idle
    | Looked(path: string, f: CachedFile)          // Get found f and has not judged its expiry
    | WantRemove(path: string, f: CachedFile)      // Get saw f expired
    | WantPut(path: string, f: CachedFile)
    | WantFlush
    | Removing(path: string, f: CachedFile)
    | Matched(path: string, f: CachedFile)         // Peek gave f again
    | Putting(path: string, f: CachedFile)
    | Evicting(path: string, f: CachedFile, prior: Option<CachedFile>)
    | Adding(path: string, f: CachedFile, prior: Option<CachedFile>)
    | Counting(path: string, f: CachedFile)        // added, size not yet counted
    | Flushing
    | Purged
    | Leaving
  {
    predicate Holds() {
      || Removing? || Matched? || Putting? || Evicting? || Adding? || Counting? || Flushing? || Purged? || Leaving?
    }

    /** The caller has a path and a file in hand. */
    predicate Carries() {
      !(Idle? || WantFlush? || Flushing? || Purged? || Leaving?)
    }
  }

  datatype Sys = Sys(store: Store, mu: Option<Tid>, pcs: map<Tid, Pc>) {
    function At(t: Tid): Pc {
      if t in pcs then pcs[t] else Idle
    }

    function Move(t: Tid, pc: Pc): Sys {
      this.(pcs := pcs[t := pc])
    }
  }

  /** What a caller does next; `Judge` carries the clock's verdict. */
  datatype Action = CallGet(path: string) | CallPut(path: string, f: CachedFile) | CallFlush | Judge(expired: bool) | Go

  /** One step of caller `t`, or None when it cannot take this step now. */
  function Step(s: Sys, t: Tid, a: Action, maxBytes: int): (r: Option<Sys>)
    requires s.store.Valid()
    ensures r.Some? ==> r.value.store.Valid()
  {
    var st := s.store;
    match a
    case CallGet(path) =>
      if !s.At(t).Idle? then None
      else if st.lru.Peek(path).None? then Some(s)
      else Some(s.(store := st.(lru := st.lru.Touch(path))).Move(t, Looked(path, st.lru.Peek(path).value)))
    case CallPut(path, f) =>
      if !s.At(t).Idle? then None
      else if f.TotalSize() > maxBytes then Some(s)
      else Some(s.Move(t, WantPut(path, f)))
    case CallFlush =>
      if s.At(t).Idle? then Some(s.Move(t, WantFlush)) else None
    case Judge(expired) =>
      if !s.At(t).Looked? then None
      else Some(s.Move(t, if expired then WantRemove(s.At(t).path, s.At(t).f) else Idle))
    case Go => Proceed(s, t, maxBytes)
  }

  function Proceed(s: Sys, t: Tid, maxBytes: int): (r: Option<Sys>)
    requires s.store.Valid()
    ensures r.Some? ==> r.value.store.Valid()
  {
    var st := s.store;
    match s.At(t)
    case Idle => None
    case Looked(_, _) => None
    // Lock
    case WantRemove(path, f) => if s.mu.None? then Some(s.(mu := Some(t)).Move(t, Removing(path, f))) else None
    case WantPut(path, f) => if s.mu.None? then Some(s.(mu := Some(t)).Move(t, Putting(path, f))) else None
    case WantFlush => if s.mu.None? then Some(s.(mu := Some(t)).Move(t, Flushing)) else None
    // removeIfSame
    case Removing(path, f) => Some(s.Move(t, if st.lru.Peek(path) == Some(f) then Matched(path, f) else Leaving))
    case Matched(path, f) =>
      Some(s.(store := Store(st.lru.Remove(path), st.curBytes - SizeAt(st.lru.entries, path), st.drift))
            .Move(t, Leaving))
    // Put
    case Putting(path, f) =>
      var prior := st.lru.Peek(path);
      Some(s.(store := st.(curBytes := st.curBytes - SizeAt(st.lru.entries, path))).Move(t, Evicting(path, f, prior)))
    case Evicting(path, f, prior) =>
      if st.curBytes + f.TotalSize() > maxBytes && st.lru.entries != [] then
        var oldest := st.lru.entries[0];
        var lost := if prior.Some? && oldest.key == path then prior.value.TotalSize() else 0;
        Some(s.(store := DropOldest(st).(drift := st.drift + lost)))
      else Some(s.Move(t, Adding(path, f, prior)))
    case Adding(path, f, prior) =>
      Some(s.(store := Store(st.lru.Add(path, f, MAX_LRU_ITEMS), st.curBytes - Dropped(st.lru, path), st.drift))
            .Move(t, Counting(path, f)))
    case Counting(path, f) =>
      Some(s.(store := st.(curBytes := st.curBytes + f.TotalSize())).Move(t, Leaving))
    // Flush
    case Flushing => Some(s.(store := Store(Lru([]), st.curBytes - st.ResidentBytes(), st.drift)).Move(t, Purged))
    case Purged => Some(s.(store := Store(st.lru, 0, 0)).Move(t, Leaving))
    // Unlock
    case Leaving => Some(s.(mu := None).Move(t, Idle))
  }

  /** Bytes resident but, in the middle of Put, not on the counter. */
  function Pending(s: Sys): nat {
    if s.mu.None? then 0
    else match s.At(s.mu.value)
      case Evicting(path, _, prior) => if prior.Some? then SizeAt(s.store.lru.entries, path) else 0
      case Adding(path, _, prior) => if prior.Some? then SizeAt(s.store.lru.entries, path) else 0
      case Counting(_, f) => f.TotalSize()
      case _ => 0
  }

  /** The law at every instant. */
  predicate Law(s: Sys) {
    s.store.Valid() && s.store.ResidentBytes() == s.store.curBytes + s.store.drift + Pending(s)
  }

  /** What the holder of the mutex may rely on although Gets keep touching entries. */
  predicate HolderFacts(st: Store, pc: Pc, maxBytes: int) {
    match pc
    case Matched(path, f) => st.lru.Peek(path) == Some(f) && st.curBytes <= maxBytes
    case Evicting(path, f, prior) =>
      && f.TotalSize() <= maxBytes && st.curBytes <= maxBytes
      && (st.lru.Peek(path) == prior || st.lru.Peek(path).None?)
    case Adding(path, f, prior) =>
      && st.curBytes + f.TotalSize() <= maxBytes
      && (st.lru.Peek(path) == prior || st.lru.Peek(path).None?)
    case Counting(path, f) => st.lru.Peek(path) == Some(f) && st.curBytes + f.TotalSize() <= maxBytes
    case Putting(path, f) => f.TotalSize() <= maxBytes && st.curBytes <= maxBytes
    case Purged => st.lru.entries == []
    case _ => st.curBytes <= maxBytes
  }

  predicate Inv(s: Sys, maxBytes: int) {
    && Law(s)
    && (forall t | t in s.pcs :: s.pcs[t].Holds() ==> s.mu == Some(t))
    && (s.mu.Some? ==> s.At(s.mu.value).Holds())
    && (forall t | t in s.pcs :: s.pcs[t].WantPut? ==> s.pcs[t].f.TotalSize() <= maxBytes)
    && HolderFacts(s.store, if s.mu.Some? then s.At(s.mu.value) else Idle, maxBytes)
  }

  // ---------------------------------------------------------------------------
  // Every step keeps the invariant
  // ---------------------------------------------------------------------------

  lemma TouchKeepsBytes(st: Store, path: string)
    requires st.Valid() && st.lru.Peek(path).Some?
    ensures Resident(st.lru.Touch(path).entries) == st.ResidentBytes()
  {
    ResidentWithout(st.lru.entries, path);
    ResidentOne(Entry(path, st.lru.Peek(path).value));
    ResidentAppend(Without(st.lru.entries, path), [Entry(path, st.lru.Peek(path).value)]);
  }

  /** What the holder relies on is not disturbed by a touch. */
  lemma TouchKeepsFacts(st: Store, path: string, pc: Pc, maxBytes: int)
    requires st.Valid() && st.lru.Peek(path).Some? && HolderFacts(st, pc, maxBytes)
    ensures HolderFacts(st.(lru := st.lru.Touch(path)), pc, maxBytes)
  {
    if pc.Evicting? || pc.Adding? || pc.Counting? || pc.Matched? {
      st.lru.TouchPeek(path, pc.path);
    }
  }

  lemma TouchKeepsPending(s: Sys, path: string)
    requires s.store.Valid() && s.store.lru.Peek(path).Some?
    ensures Pending(s.(store := s.store.(lru := s.store.lru.Touch(path)))) == Pending(s)
  {
    if s.mu.Some? {
      var pc := s.At(s.mu.value);
      if pc.Evicting? || pc.Adding? {
        s.store.lru.TouchPeek(path, pc.path);
      }
    }
  }

  lemma TouchKeepsInv(s: Sys, t: Tid, path: string, maxBytes: int)
    requires Inv(s, maxBytes) && s.At(t).Idle? && s.store.lru.Peek(path).Some?
    ensures Inv(Step(s, t, CallGet(path), maxBytes).value, maxBytes)
  {
    hide HolderFacts, SizeAt;
    TouchKeepsBytes(s.store, path);
    TouchKeepsPending(s, path);
    TouchKeepsFacts(s.store, path, if s.mu.Some? then s.At(s.mu.value) else Idle, maxBytes);
  }

  lemma EvictStepKeepsInv(s: Sys, t: Tid, maxBytes: int)
    requires Inv(s, maxBytes) && s.At(t).Evicting?
    ensures Inv(Step(s, t, Go, maxBytes).value, maxBytes)
  {
    var st := s.store;
    if st.lru.entries != [] {
      assert st.ResidentBytes() == st.lru.entries[0].value.TotalSize() + Resident(st.lru.entries[1..]);
    }
  }

  lemma AddStepKeepsInv(s: Sys, t: Tid, maxBytes: int)
    requires Inv(s, maxBytes) && s.At(t).Adding?
    ensures Inv(Step(s, t, Go, maxBytes).value, maxBytes)
  {
    var pc := s.At(t);
    ResidentAdd(s.store.lru, pc.path, pc.f);
    s.store.lru.AddPeek(pc.path, pc.f, MAX_LRU_ITEMS, pc.path);
  }

  lemma LockStepKeepsInv(s: Sys, t: Tid, maxBytes: int)
    requires Inv(s, maxBytes)
    requires var pc := s.At(t); pc.WantRemove? || pc.WantPut? || pc.WantFlush? || pc.Leaving?
    requires Step(s, t, Go, maxBytes).Some?
    ensures Inv(Step(s, t, Go, maxBytes).value, maxBytes)
  {
  }

  lemma PeekStepKeepsInv(s: Sys, t: Tid, maxBytes: int)
    requires Inv(s, maxBytes) && s.At(t).Removing?
    ensures Inv(Step(s, t, Go, maxBytes).value, maxBytes)
  {
  }

  lemma RemoveStepKeepsInv(s: Sys, t: Tid, maxBytes: int)
    requires Inv(s, maxBytes) && s.At(t).Matched?
    ensures Inv(Step(s, t, Go, maxBytes).value, maxBytes)
  {
    ResidentWithout(s.store.lru.entries, s.At(t).path);
  }

  lemma CountStepKeepsInv(s: Sys, t: Tid, maxBytes: int)
    requires Inv(s, maxBytes) && (s.At(t).Putting? || s.At(t).Counting?)
    ensures Inv(Step(s, t, Go, maxBytes).value, maxBytes)
  {
  }

  lemma FlushStepKeepsInv(s: Sys, t: Tid, maxBytes: int)
    requires Inv(s, maxBytes) && maxBytes > 0 && (s.At(t).Flushing? || s.At(t).Purged?)
    ensures Inv(Step(s, t, Go, maxBytes).value, maxBytes)
  {
  }

  lemma CallPutKeepsInv(s: Sys, t: Tid, path: string, f: CachedFile, maxBytes: int)
    requires Inv(s, maxBytes) && s.At(t).Idle?
    ensures Inv(Step(s, t, CallPut(path, f), maxBytes).value, maxBytes)
  {
  }

  lemma CallFlushKeepsInv(s: Sys, t: Tid, maxBytes: int)
    requires Inv(s, maxBytes) && s.At(t).Idle?
    ensures Inv(Step(s, t, CallFlush, maxBytes).value, maxBytes)
  {
  }

  lemma JudgeKeepsInv(s: Sys, t: Tid, expired: bool, maxBytes: int)
    requires Inv(s, maxBytes) && s.At(t).Looked?
    ensures Inv(Step(s, t, Judge(expired), maxBytes).value, maxBytes)
  {
  }

  /** A step of a call under way. */
  lemma GoKeepsInv(s: Sys, t: Tid, maxBytes: int)
    requires Inv(s, maxBytes) && maxBytes > 0 && Step(s, t, Go, maxBytes).Some?
    ensures Inv(Step(s, t, Go, maxBytes).value, maxBytes)
  {
    hide Inv;
    match s.At(t) {
      case Evicting(_, _, _) => EvictStepKeepsInv(s, t, maxBytes);
      case Adding(_, _, _) => AddStepKeepsInv(s, t, maxBytes);
      case Removing(_, _) => PeekStepKeepsInv(s, t, maxBytes);
      case Matched(_, _) => RemoveStepKeepsInv(s, t, maxBytes);
      case Putting(_, _) => CountStepKeepsInv(s, t, maxBytes);
      case Counting(_, _) => CountStepKeepsInv(s, t, maxBytes);
      case Flushing => FlushStepKeepsInv(s, t, maxBytes);
      case Purged => FlushStepKeepsInv(s, t, maxBytes);
      case _ => LockStepKeepsInv(s, t, maxBytes);
    }
  }

  lemma StepKeepsInv(s: Sys, t: Tid, a: Action, maxBytes: int)
    requires Inv(s, maxBytes) && maxBytes > 0 && Step(s, t, a, maxBytes).Some?
    ensures Inv(Step(s, t, a, maxBytes).value, maxBytes)
  {
    hide Inv, Proceed;
    match a
    case CallGet(path) => if s.store.lru.Peek(path).Some? { TouchKeepsInv(s, t, path, maxBytes); }
    case CallPut(path, f) => CallPutKeepsInv(s, t, path, f, maxBytes);
    case CallFlush => CallFlushKeepsInv(s, t, maxBytes);
    case Judge(expired) => JudgeKeepsInv(s, t, expired, maxBytes);
    case Go => GoKeepsInv(s, t, maxBytes);
  }

  // ---------------------------------------------------------------------------
  // Every interleaving
  // ---------------------------------------------------------------------------

  datatype Event = Event(t: Tid, a: Action)

  /** The state after a schedule; steps that are not enabled are skipped. */
  function Exec(events: seq<Event>, maxBytes: int): (s: Sys)
    ensures s.store.Valid()
  {
    if events == [] then Sys(EmptyStore(), None, map[])
    else
      var s := Exec(events[..|events| - 1], maxBytes);
      var e := events[|events| - 1];
      var next := Step(s, e.t, e.a, maxBytes);
      if next.Some? then next.value else s
  }

  /**
   After every schedule the byte law holds, in the middle of critical sections
   too; whenever the mutex is free it is the plain law and the counter is within
   the limit.
   */
  lemma {:induction false} EveryInterleaving(events: seq<Event>, maxBytes: int)
    requires maxBytes > 0
    ensures var s := Exec(events, maxBytes);
            Inv(s, maxBytes) && (s.mu.None? ==> s.store.Accounted() && s.store.curBytes <= maxBytes)
  {
    if events != [] {
      var before := events[..|events| - 1];
      var e := events[|events| - 1];
      EveryInterleaving(before, maxBytes);
      if Step(Exec(before, maxBytes), e.t, e.a, maxBytes).Some? {
        StepKeepsInv(Exec(before, maxBytes), e.t, e.a, maxBytes);
      }
    }
  }

  // ---------------------------------------------------------------------------
  // Entries come from Puts only
  // ---------------------------------------------------------------------------

  /** What holds of every file put under its path holds of all entries, and of all files callers have in hand. */
  ghost predicate Everywhere(s: Sys, ok: (string, CachedFile) -> bool) {
    && (forall e | e in s.store.lru.entries :: ok(e.key, e.value))
    && (forall t | t in s.pcs && s.pcs[t].Carries() :: ok(s.pcs[t].path, s.pcs[t].f))
  }

  predicate AllPut(events: seq<Event>, ok: (string, CachedFile) -> bool) {
    forall i | 0 <= i < |events| && events[i].a.CallPut? :: ok(events[i].a.path, events[i].a.f)
  }

  lemma EntriesStay(s: Sys, t: Tid, a: Action, maxBytes: int, ok: (string, CachedFile) -> bool, e: Entry<CachedFile>)
    requires s.store.Valid() && Everywhere(s, ok) && Step(s, t, a, maxBytes).Some?
    requires e in Step(s, t, a, maxBytes).value.store.lru.entries
    ensures ok(e.key, e.value)
  {
    var st, pc := s.store, s.At(t);
    if a.CallGet? && st.lru.Peek(a.path).Some? {
      st.lru.TouchIn(a.path, e);
    } else if a.Go? && pc.Matched? {
      WithoutIn(st.lru.entries, pc.path, e);
    } else if a.Go? && pc.Adding? {
      st.lru.AddIn(pc.path, pc.f, MAX_LRU_ITEMS, e);
    }
  }

  lemma OthersStay(s: Sys, t: Tid, a: Action, maxBytes: int, x: Tid)
    requires s.store.Valid() && Step(s, t, a, maxBytes).Some? && x != t
    ensures var pcs := Step(s, t, a, maxBytes).value.pcs; x in pcs ==> x in s.pcs && pcs[x] == s.pcs[x]
  {
  }

  /** A call under way keeps its path and file in hand, or lets go of them. */
  lemma GoCarries(s: Sys, t: Tid, maxBytes: int)
    requires s.store.Valid() && Proceed(s, t, maxBytes).Some?
    requires Proceed(s, t, maxBytes).value.At(t).Carries()
    ensures var pc, pc' := s.At(t), Proceed(s, t, maxBytes).value.At(t);
            t in s.pcs && pc.Carries() && pc'.path == pc.path && pc'.f == pc.f
  {
  }

  lemma CarriedStay(s: Sys, t: Tid, a: Action, maxBytes: int, ok: (string, CachedFile) -> bool, x: Tid)
    requires s.store.Valid() && Everywhere(s, ok) && Step(s, t, a, maxBytes).Some?
    requires a.CallPut? ==> ok(a.path, a.f)
    requires var pcs := Step(s, t, a, maxBytes).value.pcs; x in pcs && pcs[x].Carries()
    ensures var pc := Step(s, t, a, maxBytes).value.pcs[x]; ok(pc.path, pc.f)
  {
    hide Proceed;
    if x != t {
      OthersStay(s, t, a, maxBytes, x);
    } else if a.Go? {
      GoCarries(s, t, maxBytes);
    } else if a.CallGet? && s.store.lru.Peek(a.path).Some? {
      FindIn(s.store.lru.entries, a.path);
    }
  }

  /** In every interleaving no entry is invented, and none gets under another path. */
  lemma {:induction false} EveryEntry(events: seq<Event>, maxBytes: int, ok: (string, CachedFile) -> bool)
    requires AllPut(events, ok)
    ensures Everywhere(Exec(events, maxBytes), ok)
  {
    if events != [] {
      var before, event := events[..|events| - 1], events[|events| - 1];
      EveryEntry(before, maxBytes, ok);
      var s := Exec(before, maxBytes);
      var next := Step(s, event.t, event.a, maxBytes);
      if next.Some? {
        forall e | e in next.value.store.lru.entries ensures ok(e.key, e.value) {
          EntriesStay(s, event.t, event.a, maxBytes, ok, e);
        }
        forall t | t in next.value.pcs && next.value.pcs[t].Carries()
          ensures ok(next.value.pcs[t].path, next.value.pcs[t].f)
        {
          CarriedStay(s, event.t, event.a, maxBytes, ok, t);
        }
      }
    }
  }

  /**
   In every interleaving, whatever a Get removes is the very entry it saw
   expired; an entry that replaced it meanwhile survives, and so does every
   other key.
   */
  lemma RemovalIsExact(events: seq<Event>, t: Tid, maxBytes: int, x: string)
    requires maxBytes > 0
    requires var pc := Exec(events, maxBytes).At(t); pc.Removing? || pc.Matched?
    ensures var s := Exec(events, maxBytes);
            var lru, lru' := s.store.lru, Step(s, t, Go, maxBytes).value.store.lru;
            lru'.Peek(x) == lru.Peek(x) || (x == s.At(t).path && lru.Peek(x) == Some(s.At(t).f) && lru'.Peek(x).None?)
  {
    EveryInterleaving(events, maxBytes);
    var s := Exec(events, maxBytes);
    s.store.lru.RemovePeek(s.At(t).path, x);
  }

  // ---------------------------------------------------------------------------
  // An undisturbed Put is the atomic one
  // ---------------------------------------------------------------------------

  /** Caller `t` alone takes `n` steps. */
  function Alone(s: Sys, t: Tid, n: nat, maxBytes: int): (r: Sys)
    requires s.store.Valid()
    ensures r.store.Valid()
    decreases n
  {
    if n == 0 then s
    else
      var next := Step(s, t, Go, maxBytes);
      Alone(if next.Some? then next.value else s, t, n - 1, maxBytes)
  }

  lemma {:induction false} AloneAdd(s: Sys, t: Tid, m: nat, n: nat, maxBytes: int)
    requires s.store.Valid()
    ensures Alone(s, t, m + n, maxBytes) == Alone(Alone(s, t, m, maxBytes), t, n, maxBytes)
    decreases m
  {
    if m > 0 {
      var next := Step(s, t, Go, maxBytes);
      AloneAdd(if next.Some? then next.value else s, t, m - 1, n, maxBytes);
    }
  }

  lemma {:induction false} AloneEvicts(s: Sys, t: Tid, maxBytes: int) returns (n: nat)
    requires s.store.Valid() && s.At(t).Evicting?
    requires s.At(t).prior.Some? ==>
               s.store.lru.Peek(s.At(t).path) == s.At(t).prior || s.store.lru.Peek(s.At(t).path).None?
    ensures var pc := s.At(t);
            var e := Evict(s.store, pc.f.TotalSize(), maxBytes);
            var gone := pc.prior.Some? && s.store.lru.Peek(pc.path).Some? && e.lru.Peek(pc.path).None?;
            Alone(s, t, n, maxBytes)
            == s.(store := e.(drift := e.drift + if gone then pc.prior.value.TotalSize() else 0))
               .Move(t, Adding(pc.path, pc.f, pc.prior))
    decreases |s.store.lru.entries|
  {
    var pc, st := s.At(t), s.store;
    var next := Step(s, t, Go, maxBytes).value;
    if st.curBytes + pc.f.TotalSize() > maxBytes && st.lru.entries != [] {
      n := AloneEvicts(next, t, maxBytes);
      n := n + 1;
      EvictIgnoresDrift(DropOldest(st), next.store.drift, pc.f.TotalSize(), maxBytes);
      if st.lru.entries[0].key == pc.path {
        EvictAddsNothing(DropOldest(st), pc.f.TotalSize(), maxBytes, pc.path);
      }
    } else {
      n := 1;
      assert Alone(s, t, 1, maxBytes) == Alone(next, t, 0, maxBytes);
    }
  }

  lemma {:induction false} EvictIgnoresDrift(st: Store, d: nat, newSize: nat, maxBytes: int)
    requires st.Valid()
    ensures Evict(st.(drift := d), newSize, maxBytes) == Evict(st, newSize, maxBytes).(drift := d)
    decreases |st.lru.entries|
  {
    if st.curBytes + newSize > maxBytes && st.lru.entries != [] {
      EvictIgnoresDrift(DropOldest(st), d, newSize, maxBytes);
    }
  }

  lemma EvictAddsNothing(st: Store, newSize: nat, maxBytes: int, path: string)
    requires st.Valid() && st.lru.Peek(path).None?
    ensures Evict(st, newSize, maxBytes).lru.Peek(path).None?
  {
    var k := EvictShape(st, newSize, maxBytes);
    CutAbsent(st.lru.entries, path, k);
  }

  lemma MoveTwice(s: Sys, t: Tid, pc: Pc, pc': Pc)
    ensures s.Move(t, pc).Move(t, pc') == s.Move(t, pc')
  {
    assert s.pcs[t := pc][t := pc'] == s.pcs[t := pc'];
  }

  /** Lock and Peek. */
  lemma AloneStarts(s: Sys, t: Tid, path: string, f: CachedFile, maxBytes: int)
    requires s.store.Valid() && s.mu.None? && s.At(t) == WantPut(path, f)
    ensures Alone(s, t, 2, maxBytes)
            == s.(store := s.store.(curBytes := s.store.curBytes - SizeAt(s.store.lru.entries, path)), mu := Some(t))
                .Move(t, Evicting(path, f, s.store.lru.Peek(path)))
  {
    var locked := Step(s, t, Go, maxBytes).value;
    var peeked := Step(locked, t, Go, maxBytes).value;
    assert Alone(s, t, 2, maxBytes) == Alone(locked, t, 1, maxBytes) == Alone(peeked, t, 0, maxBytes) == peeked;
    MoveTwice(s, t, Putting(path, f), Evicting(path, f, s.store.lru.Peek(path)));
  }

  /** Add, count, unlock. */
  lemma AloneFinishes(s: Sys, t: Tid, maxBytes: int)
    requires s.store.Valid() && s.At(t).Adding?
    ensures Alone(s, t, 3, maxBytes)
            == s.(store := InsertStore(s.store, s.At(t).path, s.At(t).f, 0), mu := None).Move(t, Idle)
  {
    var pc := s.At(t);
    var added := Step(s, t, Go, maxBytes).value;
    var counted := Step(added, t, Go, maxBytes).value;
    var done := Step(counted, t, Go, maxBytes).value;
    assert Alone(s, t, 3, maxBytes) == Alone(added, t, 2, maxBytes) == Alone(counted, t, 1, maxBytes)
           == Alone(done, t, 0, maxBytes) == done;
    MoveTwice(s, t, Counting(pc.path, pc.f), Leaving);
    MoveTwice(s, t, Leaving, Idle);
  }

  /** From the loop on. */
  lemma AloneFromLoop(s: Sys, t: Tid, path: string, f: CachedFile, before: Store, maxBytes: int) returns (n: nat)
    requires before.Valid() && f.TotalSize() <= maxBytes
    requires s.store == before.(curBytes := before.curBytes - SizeAt(before.lru.entries, path))
    requires s.At(t) == Evicting(path, f, before.lru.Peek(path))
    ensures Alone(s, t, n, maxBytes) == s.(store := PutStore(before, path, f, maxBytes), mu := None).Move(t, Idle)
  {
    hide Alone, Evict, PutStore, InsertStore, SizeAt;
    n := AloneEvicts(s, t, maxBytes);
    PutInParts(before, path, f, maxBytes);
    n := AloneToEnd(s, t, n, Alone(s, t, n, maxBytes), maxBytes);
    MoveTwice(s, t, Adding(path, f, before.lru.Peek(path)), Idle);
  }

  lemma AloneToEnd(s: Sys, t: Tid, m: nat, roomy: Sys, maxBytes: int) returns (n: nat)
    requires s.store.Valid() && roomy == Alone(s, t, m, maxBytes) && roomy.At(t).Adding?
    ensures Alone(s, t, n, maxBytes)
            == roomy.(store := InsertStore(roomy.store, roomy.At(t).path, roomy.At(t).f, 0), mu := None).Move(t, Idle)
  {
    AloneFinishes(roomy, t, maxBytes);
    AloneAdd(s, t, m, 3, maxBytes);
    n := m + 3;
  }

  /** The steps of a Put nobody disturbs add up to the sequential Put. */
  lemma UndisturbedPut(s: Sys, t: Tid, path: string, f: CachedFile, maxBytes: int) returns (n: nat)
    requires s.store.Valid() && s.mu.None? && s.At(t).Idle? && f.TotalSize() <= maxBytes
    ensures var begun := Step(s, t, CallPut(path, f), maxBytes).value;
            Alone(begun, t, n, maxBytes) == s.(store := PutStore(s.store, path, f, maxBytes)).Move(t, Idle)
  {
    var begun := s.Move(t, WantPut(path, f));
    AloneStarts(begun, t, path, f, maxBytes);
    var peeked := Alone(begun, t, 2, maxBytes);
    n := AloneFromLoop(peeked, t, path, f, s.store, maxBytes);
    AloneAdd(begun, t, 2, n, maxBytes);
    MoveTwice(s, t, WantPut(path, f), Evicting(path, f, s.store.lru.Peek(path)));
    MoveTwice(s, t, Evicting(path, f, s.store.lru.Peek(path)), Idle);
    n := 2 + n;
  }

  lemma PutInParts(st: Store, path: string, f: CachedFile, maxBytes: int)
    requires st.Valid() && f.TotalSize() <= maxBytes
    ensures var prior := st.lru.Peek(path);
            var e := Evict(st.(curBytes := st.curBytes - SizeAt(st.lru.entries, path)), f.TotalSize(), maxBytes);
            var gone := prior.Some? && e.lru.Peek(path).None?;
            InsertStore(e.(drift := e.drift + if gone then prior.value.TotalSize() else 0), path, f, 0)
            == PutStore(st, path, f, maxBytes)
  {
    EvictedExactly(st, path, f, maxBytes);
  }

  /** Lock, compare, remove, unlock. */
  lemma AloneRemoves(s: Sys, t: Tid, maxBytes: int)
    requires s.store.Valid() && s.mu.None? && s.At(t).WantRemove? && s.store.lru.Peek(s.At(t).path) == Some(s.At(t).f)
    ensures Alone(s, t, 4, maxBytes)
            == s.(store := RemoveIfSameStore(s.store, s.At(t).path, s.At(t).f)).Move(t, Idle)
  {
    var path, f := s.At(t).path, s.At(t).f;
    var locked := Step(s, t, Go, maxBytes).value;
    var matched := Step(locked, t, Go, maxBytes).value;
    var removed := Step(matched, t, Go, maxBytes).value;
    var done := Step(removed, t, Go, maxBytes).value;
    assert Alone(s, t, 4, maxBytes) == Alone(locked, t, 3, maxBytes) == Alone(matched, t, 2, maxBytes)
           == Alone(removed, t, 1, maxBytes) == Alone(done, t, 0, maxBytes) == done;
    MoveTwice(s, t, Removing(path, f), Matched(path, f));
    MoveTwice(s, t, Matched(path, f), Leaving);
    MoveTwice(s, t, Leaving, Idle);
  }

  /** A Get nobody disturbs makes a current entry the most recent one, and removes an expired one. */
  lemma UndisturbedGet(s: Sys, t: Tid, path: string, maxBytes: int)
    requires s.store.Valid() && s.mu.None? && s.At(t).Idle? && s.store.lru.Peek(path).Some?
    ensures var looked := Step(s, t, CallGet(path), maxBytes).value;
            && looked.At(t) == Looked(path, s.store.lru.Peek(path).value)
            && Step(looked, t, Judge(false), maxBytes)
               == Some(s.(store := s.store.(lru := s.store.lru.Touch(path))).Move(t, Idle))
            && Step(looked, t, Judge(true), maxBytes).Some?
            && Alone(Step(looked, t, Judge(true), maxBytes).value, t, 4, maxBytes)
               == s.(store := RemoveIfSameStore(s.store, path, s.store.lru.Peek(path).value)).Move(t, Idle)
  {
    hide Alone;
    var f := s.store.lru.Peek(path).value;
    s.store.lru.TouchPeek(path, path);
    AloneRemoves(s.(store := s.store.(lru := s.store.lru.Touch(path))).Move(t, WantRemove(path, f)), t, maxBytes);
    TouchThenRemove(s.store.lru, path);
    MoveTwice(s, t, Looked(path, f), Idle);
    MoveTwice(s, t, Looked(path, f), WantRemove(path, f));
    MoveTwice(s, t, WantRemove(path, f), Idle);
  }

  /** Making an entry the most recent one does not change what is left once it is removed. */
  lemma TouchThenRemove(lru: Lru<CachedFile>, path: string)
    requires lru.Valid() && lru.Peek(path).Some?
    ensures lru.Touch(path).Remove(path) == lru.Remove(path)
    ensures SizeAt(lru.Touch(path).entries, path) == lru.Peek(path).value.TotalSize()
  {
    lru.TouchPeek(path, path);
    FindWithout(lru.entries, path, path);
    WithoutLast(Without(lru.entries, path), Entry(path, lru.Peek(path).value));
  }

  lemma {:induction false} WithoutLast(es: Files, e: Entry<CachedFile>)
    requires Find(es, e.key).None?
    ensures Without(es + [e], e.key) == es
  {
    if es == [] {
      assert es + [e] == [e] && [e][1..] == [];
    } else {
      assert (es + [e])[1..] == es[1..] + [e];
      WithoutLast(es[1..], e);
    }
  }

  /** A Flush nobody disturbs leaves the empty cache. */
  lemma UndisturbedFlush(s: Sys, t: Tid, maxBytes: int)
    requires s.store.Valid() && s.mu.None? && s.At(t).Idle?
    ensures Alone(Step(s, t, CallFlush, maxBytes).value, t, 4, maxBytes) == s.(store := EmptyStore()).Move(t, Idle)
  {
    var called := Step(s, t, CallFlush, maxBytes).value;
    var locked := Step(called, t, Go, maxBytes).value;
    var purged := Step(locked, t, Go, maxBytes).value;
    var zeroed := Step(purged, t, Go, maxBytes).value;
    var done := Step(zeroed, t, Go, maxBytes).value;
    assert Alone(called, t, 4, maxBytes) == Alone(locked, t, 3, maxBytes) == Alone(purged, t, 2, maxBytes)
           == Alone(zeroed, t, 1, maxBytes) == Alone(done, t, 0, maxBytes) == done;
    MoveTwice(s, t, WantFlush, Flushing);
    MoveTwice(s, t, Flushing, Purged);
    MoveTwice(s, t, Purged, Leaving);
    MoveTwice(s, t, Leaving, Idle);
  }
}
