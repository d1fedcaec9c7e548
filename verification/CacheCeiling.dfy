/**
 When the memory ceiling of internal/cache/cache.go really holds: the condition
 on one Put, and on whole runs.
 */
module CacheCeiling {
  import opened Lru
  import opened FileCache

  /** The bytes of the entries that stay next to a new one under `path`. */
  function Beside(es: Files, path: string): int {
    Resident(es) - SizeAt(es, path)
  }

  /** The entries left after a cut at `j`; a full list loses its oldest entry to a new key in any case. */
  function Left(st: Store, path: string, j: nat): Files
    requires st.Valid() && j <= |st.lru.entries|
  {
    if j == 0 && st.lru.Overflows(path, MAX_LRU_ITEMS) then st.lru.entries[1..] else st.lru.entries[j..]
  }

  /** By the counter, the new file fits after a cut at `j`. */
  predicate CounterFits(st: Store, path: string, f: CachedFile, maxBytes: int, j: nat)
    requires j <= |st.lru.entries|
  {
    st.curBytes - SizeAt(st.lru.entries, path) - Resident(st.lru.entries[..j]) + f.TotalSize() <= maxBytes
  }

  predicate TooMuch(st: Store, path: string, f: CachedFile, maxBytes: int, j: nat)
    requires st.Valid() && j <= |st.lru.entries|
  {
    Beside(Left(st, path, j), path) + f.TotalSize() > maxBytes
  }

  /** The counter finds room at a cut after which the entries left and the new file exceed the limit. */
  predicate Overfull(st: Store, path: string, f: CachedFile, maxBytes: int)
    requires st.Valid()
  {
    f.TotalSize() <= maxBytes
    && exists j | 0 <= j <= |st.lru.entries| ::
         CounterFits(st, path, f, maxBytes, j) && TooMuch(st, path, f, maxBytes, j)
  }

  // ---------------------------------------------------------------------------
  // One Put
  // ---------------------------------------------------------------------------

  lemma {:induction false} BesideDrop(es: Files, path: string, n: nat)
    requires Distinct(es) && n <= |es|
    ensures Beside(es[n..], path) <= Beside(es, path)
    decreases n
  {
    if n == 0 {
      assert es[0..] == es;
    } else {
      assert es[1..][n - 1..] == es[n..];
      BesideDrop(es[1..], path, n - 1);
    }
  }

  lemma {:induction false} BesideCut(es: Files, path: string, j: nat, k: nat)
    requires Distinct(es) && j <= k <= |es|
    ensures Beside(es[k..], path) <= Beside(es[j..], path)
    decreases j
  {
    if j == 0 {
      assert es[0..] == es;
      BesideDrop(es, path, k);
    } else {
      assert es[1..][j - 1..] == es[j..] && es[1..][k - 1..] == es[k..];
      BesideCut(es[1..], path, j - 1, k - 1);
    }
  }

  lemma LeftDecreases(st: Store, path: string, j: nat, k: nat)
    requires st.Valid() && j <= k <= |st.lru.entries|
    ensures Beside(Left(st, path, k), path) <= Beside(Left(st, path, j), path)
  {
    var es := st.lru.entries;
    if j == 0 && st.lru.Overflows(path, MAX_LRU_ITEMS) {
      BesideCut(es, path, 1, if k == 0 then 1 else k);
    } else {
      BesideCut(es, path, j, k);
    }
  }

  /** Where Put cuts, and what is resident afterwards. */
  lemma PutResident(st: Store, path: string, f: CachedFile, maxBytes: int) returns (k: nat)
    requires st.Accounted() && st.curBytes <= maxBytes && f.TotalSize() <= maxBytes
    ensures k <= |st.lru.entries| && CounterFits(st, path, f, maxBytes, k)
    ensures forall j | 0 <= j < k :: !CounterFits(st, path, f, maxBytes, j)
    ensures PutStore(st, path, f, maxBytes).ResidentBytes() == Beside(Left(st, path, k), path) + f.TotalSize()
  {
    var es, prior := st.lru.entries, SizeAt(st.lru.entries, path);
    var start := st.(curBytes := st.curBytes - prior);
    k := EvictShape(start, f.TotalSize(), maxBytes);
    FitsAfterEvict(start, st.drift + prior, f.TotalSize(), maxBytes);
    var room := Evict(start, f.TotalSize(), maxBytes).lru;
    ResidentAdd(room, path, f);
    LeftAfterAdd(st, path, k, room);
  }

  lemma LeftAfterAdd(st: Store, path: string, k: nat, room: Lru<CachedFile>)
    requires st.Valid() && k <= |st.lru.entries| && room.entries == st.lru.entries[k..]
    ensures Beside(room.entries, path) - Dropped(room, path) == Beside(Left(st, path, k), path)
  {
    var es := st.lru.entries;
    if room.Overflows(path, MAX_LRU_ITEMS) {
      assert k == 0 && es[0..] == es;
      CutAbsent(es, path, 1);
    } else if k == 0 {
      assert es[0..] == es;
    }
  }

  /** A Put keeps the resident bytes within the limit if and only if it is not overfull. */
  lemma PutCeilingIff(st: Store, path: string, f: CachedFile, maxBytes: int)
    requires st.Accounted() && st.curBytes <= maxBytes && st.ResidentBytes() <= maxBytes
    ensures PutStore(st, path, f, maxBytes).ResidentBytes() <= maxBytes <==> !Overfull(st, path, f, maxBytes)
  {
    if f.TotalSize() <= maxBytes {
      var k := PutResident(st, path, f, maxBytes);
      if Overfull(st, path, f, maxBytes) {
        var j :| && 0 <= j <= |st.lru.entries| && CounterFits(st, path, f, maxBytes, j)
                 && TooMuch(st, path, f, maxBytes, j);
        LeftDecreases(st, path, k, j);
      }
    }
  }

  // ---------------------------------------------------------------------------
  // With an exact counter
  // ---------------------------------------------------------------------------

  /** A cut behind the replaced entry at which the rest would have fitted only without it. */
  predicate InWindow(es: Files, path: string, f: CachedFile, maxBytes: int, j: nat)
    requires j <= |es|
  {
    |Older(es, path)| < j && maxBytes - f.TotalSize() < Resident(es[j..]) <= maxBytes - f.TotalSize() + SizeAt(es, path)
  }

  /** What a cut leaves of a key that is there. */
  lemma SizeAfterCut(es: Files, path: string, j: nat)
    requires Distinct(es) && j <= |es| && Find(es, path).Some?
    ensures |Older(es, path)| < |es|
    ensures SizeAt(es[j..], path) == if j <= |Older(es, path)| then SizeAt(es, path) else 0
  {
    var p := CutAt(es, path, j);
  }

  /** Behind the replaced entry there is less left than from it on without it. */
  lemma BehindPath(es: Files, path: string, j: nat)
    requires Distinct(es) && Find(es, path).Some? && |Older(es, path)| < j <= |es|
    ensures Resident(es[j..]) <= Resident(es) - Resident(Older(es, path)) - SizeAt(es, path)
  {
    var p := CutAt(es, path, 0);
    ResidentSplit(es, p);
    SizeAfterCut(es, path, p);
    SizeAfterCut(es, path, j);
    BesideCut(es, path, p, j);
  }

  /**
   With an exact counter a Put is overfull exactly when it evicts the entry it
   replaces and some cut behind that entry lies in the window of its size.
   */
  lemma OverfullWindow(st: Store, path: string, f: CachedFile, maxBytes: int)
    requires st.Accounted() && st.drift == 0 && st.curBytes <= maxBytes
    ensures Overfull(st, path, f, maxBytes)
            <==> SelfEvicts(st, path, f, maxBytes)
                 && exists j | 0 <= j <= |st.lru.entries| :: InWindow(st.lru.entries, path, f, maxBytes, j)
  {
    if f.TotalSize() <= maxBytes {
      forall j | 0 <= j <= |st.lru.entries|
        ensures CounterFits(st, path, f, maxBytes, j) && TooMuch(st, path, f, maxBytes, j)
                <==> st.lru.Peek(path).Some? && InWindow(st.lru.entries, path, f, maxBytes, j)
        ensures st.lru.Peek(path).Some? && InWindow(st.lru.entries, path, f, maxBytes, j)
                ==> SelfEvicts(st, path, f, maxBytes)
      {
        WindowAt(st, path, f, maxBytes, j);
      }
    }
  }

  lemma WindowAt(st: Store, path: string, f: CachedFile, maxBytes: int, j: nat)
    requires st.Accounted() && st.drift == 0 && st.curBytes <= maxBytes && f.TotalSize() <= maxBytes
    requires j <= |st.lru.entries|
    ensures CounterFits(st, path, f, maxBytes, j) && TooMuch(st, path, f, maxBytes, j)
            <==> st.lru.Peek(path).Some? && InWindow(st.lru.entries, path, f, maxBytes, j)
    ensures st.lru.Peek(path).Some? && InWindow(st.lru.entries, path, f, maxBytes, j) ==>
              SelfEvicts(st, path, f, maxBytes)
  {
    var es := st.lru.entries;
    ResidentSplit(es, j);
    if st.lru.Peek(path).Some? {
      SizeAfterCut(es, path, j);
      if |Older(es, path)| < j {
        BehindPath(es, path, j);
      }
    } else {
      CutAbsent(es, path, j);
      if j == 0 && st.lru.Overflows(path, MAX_LRU_ITEMS) {
        CutAbsent(es, path, 1);
        BesideDrop(es, path, 1);
      }
    }
  }

  /** Self-eviction alone does not break the ceiling. */
  lemma SelfEvictionWithinLimit(a: CachedFile, b: CachedFile, a': CachedFile)
    requires a.TotalSize() == 300 && b.TotalSize() == 1500 && a'.TotalSize() == 900
    ensures var st := Store(Lru([Entry("/a", a), Entry("/b", b)]), 1800, 0);
            && st.Accounted() && SelfEvicts(st, "/a", a', 2000)
            && PutStore(st, "/a", a', 2000).ResidentBytes() <= 2000
  {
    var e1, e2 := Entry("/a", a), Entry("/b", b);
    assert "/a" != "/b" by { assert "/a"[1] != "/b"[1]; }
    assert [e1, e2][1..] == [e2] && [e2][1..] == [];
    var es := [e1, e2];
    ResidentOne(e2);
    assert Find([e2], "/a") == Find([e2][1..], "/a") && Find([e2][1..], "/b").None?;
    assert Resident(es) == e1.value.TotalSize() + Resident(es[1..]);
    assert Distinct(es);
    var st := Store(Lru(es), 1800, 0);
    forall j | 0 <= j <= 2 ensures !InWindow(es, "/a", a', 2000, j) {
      if j == 2 {
        assert es[2..] == [];
      }
    }
    OverfullWindow(st, "/a", a', 2000);
    PutCeilingIff(st, "/a", a', 2000);
  }

  // ---------------------------------------------------------------------------
  // Whole runs
  // ---------------------------------------------------------------------------

  /** At no point of the run does the cache hold more than the limit. */
  predicate AlwaysWithin(ops: seq<Op>, maxBytes: int) {
    Run(ops, maxBytes).ResidentBytes() <= maxBytes && (ops == [] || AlwaysWithin(ops[..|ops| - 1], maxBytes))
  }

  predicate NeverOverfull(ops: seq<Op>, maxBytes: int) {
    ops == [] ||
    var before, op := ops[..|ops| - 1], ops[|ops| - 1];
    NeverOverfull(before, maxBytes) && !(op.Put? && Overfull(Run(before, maxBytes), op.path, op.f, maxBytes))
  }

  lemma StepWithin(st: Store, op: Op, maxBytes: int)
    requires maxBytes > 0 && st.Accounted() && st.curBytes <= maxBytes && st.ResidentBytes() <= maxBytes
    ensures Apply(st, op, maxBytes).ResidentBytes() <= maxBytes
            <==> !(op.Put? && Overfull(st, op.path, op.f, maxBytes))
  {
    match op
    case Touch(path) => if st.lru.Peek(path).Some? { TouchKeepsLaw(st, path); }
    case Put(path, f) => PutCeilingIff(st, path, f, maxBytes);
    case RemoveIfSame(path, f) => RemoveIfSameKeepsLaw(st, path, f);
    case Flush =>
  }

  /** The ceiling holds throughout a run if and only if no Put of it is overfull. */
  lemma {:induction false} RunCeilingIff(ops: seq<Op>, maxBytes: int)
    requires maxBytes > 0
    ensures AlwaysWithin(ops, maxBytes) <==> NeverOverfull(ops, maxBytes)
  {
    if ops != [] {
      var before := ops[..|ops| - 1];
      RunCeilingIff(before, maxBytes);
      RunLaw(before, maxBytes);
      if AlwaysWithin(before, maxBytes) {
        StepWithin(Run(before, maxBytes), ops[|ops| - 1], maxBytes);
      }
    }
  }
}
