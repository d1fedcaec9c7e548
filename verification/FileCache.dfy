/**
 The byte-bounded file cache (internal/cache/cache.go): an LRU list joined to a
 separately kept byte counter by an eviction callback.
 */
module FileCache {
  import opened Wrappers
  import opened Text
  import opened Lru

  const CACHE_OVERHEAD := 256
  const MAX_LRU_ITEMS := 65536
  const DEFAULT_MAX_BYTES := 256 * 1024 * 1024

  /** The contents and metadata of a file, with the compressed variants there are. */
  datatype Content = Content(data: Bytes, gzip: Option<Bytes>, br: Option<Bytes>, zstd: Option<Bytes>, etag: string,
                             lastModified: Option<int>, contentType: string, size: nat, cacheControl: string) {
    function TotalSize(): nat {
      |data| + OptLen(gzip) + OptLen(br) + OptLen(zstd) + CACHE_OVERHEAD
    }
  }

  /** A cached file. `Put` stamps the expiry time on the object it stores. */
  class CachedFile {
    const content: Content
    var expiresAt: Option<int>

    constructor (content: Content)
      ensures this.content == content && expiresAt == None
    {
      this.content := content;
      expiresAt := None;
    }

    function TotalSize(): nat {
      content.TotalSize()
    }

    predicate Expired(now: int)
      reads this`expiresAt
    {
      expiresAt.Some? && now > expiresAt.value
    }
  }

  function OptLen(b: Option<Bytes>): nat {
    if b.None? then 0 else |b.value|
  }

  // ---------------------------------------------------------------------------
  // Bytes held by a list of entries
  // ---------------------------------------------------------------------------

  type Files = seq<Entry<CachedFile>>

  /** The bytes really held by a list of entries. */
  function Resident(es: Files): nat {
    if es == [] then 0 else es[0].value.TotalSize() + Resident(es[1..])
  }

  function SizeAt(es: Files, path: string): nat {
    var f := Find(es, path);
    if f.Some? then f.value.TotalSize() else 0
  }

  lemma {:induction false} ResidentAppend(a: Files, b: Files)
    ensures Resident(a + b) == Resident(a) + Resident(b)
  {
    if a == [] {
      assert a + b == b;
    } else {
      assert (a + b)[1..] == a[1..] + b;
      ResidentAppend(a[1..], b);
    }
  }

  lemma ResidentOne(e: Entry<CachedFile>)
    ensures Resident([e]) == e.value.TotalSize()
  {
    assert [e][1..] == [];
  }

  lemma {:induction false} ResidentWithout(es: Files, path: string)
    ensures Resident(Without(es, path)) == Resident(es) - SizeAt(es, path)
  {
    if es != [] && es[0].key != path {
      ResidentWithout(es[1..], path);
      assert Without(es, path)[1..] == Without(es[1..], path);
    }
  }

  lemma ResidentTake(es: Files, k: nat, p: nat)
    requires k <= p <= |es|
    ensures Resident(es[..k]) <= Resident(es[..p])
  {
    assert es[..p] == es[..k] + es[k..p];
    ResidentAppend(es[..k], es[k..p]);
  }

  lemma ResidentSplit(es: Files, k: nat)
    requires k <= |es|
    ensures Resident(es) == Resident(es[..k]) + Resident(es[k..])
  {
    assert es == es[..k] + es[k..];
    ResidentAppend(es[..k], es[k..]);
  }

  // ---------------------------------------------------------------------------
  // The cache state and its operations, as values
  // ---------------------------------------------------------------------------

  /**
   `drift` is not a field of the source: it sums the old sizes of replaced
   entries that the Put replacing them evicted itself, since the last Flush.
   */
  datatype Store = Store(lru: Lru<CachedFile>, curBytes: int, drift: nat) {
    predicate Valid() {
      lru.Valid() && |lru.entries| <= MAX_LRU_ITEMS
    }

    function ResidentBytes(): nat {
      Resident(lru.entries)
    }

    /** The accounting law. */
    predicate Accounted() {
      Valid() && ResidentBytes() == curBytes + drift
    }
  }

  function EmptyStore(): Store {
    Store(Lru([]), 0, 0)
  }

  /** The entries used less recently than `path`. */
  function Older(es: Files, path: string): Files {
    if es == [] || es[0].key == path then [] else [es[0]] + Older(es[1..], path)
  }

  /** Put's loop: drop the oldest entry until the new one fits or nothing is left. */
  function Evict(st: Store, newSize: nat, maxBytes: int): (e: Store)
    requires st.Valid()
    ensures e.Valid() && e.drift == st.drift
    decreases |st.lru.entries|
  {
    if st.curBytes + newSize > maxBytes && st.lru.entries != [] then
      Evict(DropOldest(st), newSize, maxBytes)
    else st
  }

  function DropOldest(st: Store): (e: Store)
    requires st.Valid() && st.lru.entries != []
    ensures e.Valid() && |e.lru.entries| == |st.lru.entries| - 1
  {
    Store(st.lru.RemoveOldest(), st.curBytes - st.lru.entries[0].value.TotalSize(), st.drift)
  }

  /**
   When Put drops the very entry it is replacing: after everything less recent
   is gone the new entry still does not fit.
   */
  predicate SelfEvicts(st: Store, path: string, f: CachedFile, maxBytes: int) {
    && f.TotalSize() <= maxBytes
    && st.lru.Peek(path).Some?
    && st.curBytes - SizeAt(st.lru.entries, path) + f.TotalSize() - Resident(Older(st.lru.entries, path)) > maxBytes
  }

  /** What inserting `path` into a full list takes off the counter. */
  function Dropped(lru: Lru<CachedFile>, path: string): nat {
    if lru.Overflows(path, MAX_LRU_ITEMS) && lru.entries != [] then lru.entries[0].value.TotalSize() else 0
  }

  /** Put, after the expiry stamp. */
  function PutStore(st: Store, path: string, f: CachedFile, maxBytes: int): (r: Store)
    requires st.Valid()
    ensures r.Valid()
  {
    if f.TotalSize() > maxBytes then st
    else
      var prior := SizeAt(st.lru.entries, path);
      var room := Evict(st.(curBytes := st.curBytes - prior), f.TotalSize(), maxBytes);
      InsertStore(room, path, f, if SelfEvicts(st, path, f, maxBytes) then prior else 0)
  }

  /** The insertion that ends Put, with the callback of a full list. */
  function InsertStore(st: Store, path: string, f: CachedFile, lost: nat): (r: Store)
    requires st.Valid()
    ensures r.Valid()
  {
    Store(st.lru.Add(path, f, MAX_LRU_ITEMS), st.curBytes - Dropped(st.lru, path) + f.TotalSize(), st.drift + lost)
  }

  /** removeIfSame: compare-and-remove, the callback adjusting the counter. */
  function RemoveIfSameStore(st: Store, path: string, f: CachedFile): (r: Store)
    requires st.Valid()
    ensures r.Valid()
  {
    if st.lru.Peek(path) == Some(f) then
      Store(st.lru.Remove(path), st.curBytes - f.TotalSize(), st.drift)
    else st
  }

  // ---------------------------------------------------------------------------
  // What eviction does
  // ---------------------------------------------------------------------------

  /** `e` is `st` without its `k` oldest entries, and no shorter run makes room. */
  predicate ShortestCut(st: Store, e: Store, k: nat, newSize: nat, maxBytes: int)
    requires k <= |st.lru.entries|
  {
    && e.lru.entries == st.lru.entries[k..]
    && e.curBytes == st.curBytes - Resident(st.lru.entries[..k])
    && (forall j | 0 <= j < k :: st.curBytes - Resident(st.lru.entries[..j]) + newSize > maxBytes)
    && (k < |st.lru.entries| ==> e.curBytes + newSize <= maxBytes)
  }

  /** One more entry in front of a shortest cut. */
  lemma ExtendCut(st: Store, e: Store, k: nat, newSize: nat, maxBytes: int)
    requires st.Valid() && k < |st.lru.entries|
    requires st.curBytes + newSize > maxBytes
    requires ShortestCut(DropOldest(st), e, k, newSize, maxBytes)
    ensures ShortestCut(st, e, k + 1, newSize, maxBytes)
  {
    var es := st.lru.entries;
    assert es[1..][k..] == es[k + 1..];
    forall j | 1 <= j <= k + 1 ensures Resident(es[..j]) == es[0].value.TotalSize() + Resident(es[1..][..j - 1]) {
      assert es[..j][1..] == es[1..][..j - 1];
    }
    forall j | 0 <= j < k + 1 ensures st.curBytes - Resident(es[..j]) + newSize > maxBytes {
      if j > 0 {
        assert DropOldest(st).curBytes - Resident(es[1..][..j - 1]) + newSize > maxBytes;
      }
    }
  }

  /**
   Eviction removes an initial run of the recency order, and the shortest one
   after which the new entry fits.
   */
  lemma {:induction false} EvictShape(st: Store, newSize: nat, maxBytes: int) returns (k: nat)
    requires st.Valid()
    ensures k <= |st.lru.entries| && ShortestCut(st, Evict(st, newSize, maxBytes), k, newSize, maxBytes)
    decreases |st.lru.entries|
  {
    if st.curBytes + newSize > maxBytes && st.lru.entries != [] {
      k := EvictShape(DropOldest(st), newSize, maxBytes);
      ExtendCut(st, Evict(DropOldest(st), newSize, maxBytes), k, newSize, maxBytes);
      k := k + 1;
    } else {
      k := 0;
      assert st.lru.entries[0..] == st.lru.entries && st.lru.entries[..0] == [];
    }
  }

  /** Where a key sits, and that it survives a cut exactly when it sits behind it. */
  lemma {:induction false} CutAt(es: Files, path: string, k: nat) returns (p: nat)
    requires Distinct(es) && Find(es, path).Some? && k <= |es|
    ensures p < |es| && Older(es, path) == es[..p]
    ensures Find(es[k..], path) == if k <= p then Find(es, path) else None
    decreases |es|
  {
    if k == 0 {
      assert es[0..] == es;
    } else {
      assert es[1..][k - 1..] == es[k..];
    }
    if es[0].key == path {
      p := 0;
      if k > 0 { CutAbsent(es[1..], path, k - 1); }
    } else {
      p := CutAt(es[1..], path, if k > 0 then k - 1 else 0);
      p := p + 1;
      assert es[..p] == [es[0]] + es[1..][..p - 1];
    }
  }

  lemma {:induction false} CutAbsent(es: Files, path: string, k: nat)
    requires Find(es, path).None? && k <= |es|
    ensures Find(es[k..], path).None?
  {
    if k > 0 {
      assert es[1..][k - 1..] == es[k..];
      CutAbsent(es[1..], path, k - 1);
    } else {
      assert es[0..] == es;
    }
  }

  /**
   The size left under `path` when the loop is done: the loop drops the replaced
   entry exactly when `SelfEvicts` says so beforehand.
   */
  lemma EvictedExactly(st: Store, path: string, f: CachedFile, maxBytes: int)
    requires st.Valid() && f.TotalSize() <= maxBytes
    ensures var prior := SizeAt(st.lru.entries, path);
            var e := Evict(st.(curBytes := st.curBytes - prior), f.TotalSize(), maxBytes);
            e.lru.Peek(path) == if SelfEvicts(st, path, f, maxBytes) then None else st.lru.Peek(path)
  {
    var es := st.lru.entries;
    var start := st.(curBytes := st.curBytes - SizeAt(es, path));
    var k := EvictShape(start, f.TotalSize(), maxBytes);
    if Find(es, path).Some? {
      var p := CutAt(es, path, k);
      if k <= p {
        ResidentTake(es, k, p);
      } else {
        assert start.curBytes - Resident(es[..p]) + f.TotalSize() > maxBytes;
      }
    } else {
      CutAbsent(es, path, k);
    }
  }

  /** At the end of the loop the new entry fits, whatever the counter's error. */
  lemma FitsAfterEvict(st: Store, error: nat, newSize: nat, maxBytes: int)
    requires st.Valid() && newSize <= maxBytes
    requires st.ResidentBytes() == st.curBytes + error
    ensures var e := Evict(st, newSize, maxBytes);
            e.ResidentBytes() == e.curBytes + error && e.curBytes + newSize <= maxBytes
  {
    var k := EvictShape(st, newSize, maxBytes);
    ResidentSplit(st.lru.entries, k);
  }

  /** What list insertion does to the resident bytes. */
  lemma ResidentAdd(lru: Lru<CachedFile>, path: string, f: CachedFile)
    requires lru.Valid()
    ensures Resident(lru.Add(path, f, MAX_LRU_ITEMS).entries)
            == Resident(lru.entries) - SizeAt(lru.entries, path) - Dropped(lru, path) + f.TotalSize()
  {
    var kept := Without(lru.entries, path);
    ResidentWithout(lru.entries, path);
    ResidentOne(Entry(path, f));
    ResidentAppend(kept, [Entry(path, f)]);
    if lru.Overflows(path, MAX_LRU_ITEMS) {
      assert Resident(kept + [Entry(path, f)]) == kept[0].value.TotalSize() + Resident((kept + [Entry(path, f)])[1..]);
    }
  }

  /** Put keeps the law, and afterwards the counter is within the limit. */
  lemma PutKeepsLaw(st: Store, path: string, f: CachedFile, maxBytes: int)
    requires st.Accounted() && st.curBytes <= maxBytes
    ensures PutStore(st, path, f, maxBytes).Accounted()
    ensures PutStore(st, path, f, maxBytes).curBytes <= maxBytes
  {
    hide Evict;
    if f.TotalSize() <= maxBytes {
      var prior := SizeAt(st.lru.entries, path);
      var start := st.(curBytes := st.curBytes - prior);
      FitsAfterEvict(start, st.drift + prior, f.TotalSize(), maxBytes);
      ResidentAdd(Evict(start, f.TotalSize(), maxBytes).lru, path, f);
      EvictedExactly(st, path, f, maxBytes);
    }
  }

  /**
   Provided the counter was exact before, it is exact after Put if and only if
   Put did not evict the entry it replaced.
   */
  lemma CounterExactIff(st: Store, path: string, f: CachedFile, maxBytes: int)
    requires st.Accounted() && st.curBytes <= maxBytes && st.curBytes == st.ResidentBytes()
    ensures var r := PutStore(st, path, f, maxBytes);
            r.curBytes == r.ResidentBytes() <==> !SelfEvicts(st, path, f, maxBytes)
  {
    PutKeepsLaw(st, path, f, maxBytes);
  }

  /**
   Storing a new key: the shortest oldest-first run that makes it fit is gone
   (one entry more when the list itself is full), the survivors keep their
   order, and the new key is the most recent one.
   */
  lemma PutNewKey(st: Store, path: string, f: CachedFile, maxBytes: int) returns (k: nat)
    requires st.Accounted() && st.lru.Peek(path).None? && f.TotalSize() <= maxBytes
    ensures k <= |st.lru.entries|
    ensures forall j | 0 <= j < k :: st.curBytes - Resident(st.lru.entries[..j]) + f.TotalSize() > maxBytes
    ensures st.curBytes - Resident(st.lru.entries[..k]) + f.TotalSize() <= maxBytes
    ensures PutStore(st, path, f, maxBytes).lru.entries
            == (if |st.lru.entries| - k == MAX_LRU_ITEMS then st.lru.entries[k + 1..] else st.lru.entries[k..])
               + [Entry(path, f)]
  {
    k := EvictShape(st, f.TotalSize(), maxBytes);
    FitsAfterEvict(st, st.drift, f.TotalSize(), maxBytes);
    CutAbsent(st.lru.entries, path, k);
    var left := st.lru.entries[k..];
    assert (left + [Entry(path, f)])[1..] == if left == [] then [] else left[1..] + [Entry(path, f)];
    assert left != [] ==> left[1..] == st.lru.entries[k + 1..];
  }

  lemma RemoveIfSameKeepsLaw(st: Store, path: string, f: CachedFile)
    requires st.Accounted()
    ensures RemoveIfSameStore(st, path, f).Accounted()
    ensures RemoveIfSameStore(st, path, f).curBytes <= st.curBytes
  {
    ResidentWithout(st.lru.entries, path);
  }

  lemma TouchKeepsLaw(st: Store, path: string)
    requires st.Accounted() && st.lru.Peek(path).Some?
    ensures st.(lru := st.lru.Touch(path)).Accounted()
  {
    ResidentWithout(st.lru.entries, path);
    ResidentOne(Entry(path, st.lru.Peek(path).value));
    ResidentAppend(Without(st.lru.entries, path), [Entry(path, st.lru.Peek(path).value)]);
  }

  // ---------------------------------------------------------------------------
  // Whole runs
  // ---------------------------------------------------------------------------

  /** The atomic steps of any number of callers; a hit of Get is a Touch. */
  datatype Op =
    | Touch(path: string) | Put(path: string, f: CachedFile) | RemoveIfSame(path: string, f: CachedFile) | Flush

  function Apply(st: Store, op: Op, maxBytes: int): (r: Store)
    requires st.Valid()
    ensures r.Valid()
  {
    match op
    case Touch(path) => if st.lru.Peek(path).Some? then st.(lru := st.lru.Touch(path)) else st
    case Put(path, f) => PutStore(st, path, f, maxBytes)
    case RemoveIfSame(path, f) => RemoveIfSameStore(st, path, f)
    case Flush => EmptyStore()
  }

  function Run(ops: seq<Op>, maxBytes: int): (r: Store)
    ensures r.Valid()
  {
    if ops == [] then EmptyStore() else Apply(Run(ops[..|ops| - 1], maxBytes), ops[|ops| - 1], maxBytes)
  }

  /** Since the last Flush no Put evicted the entry it was replacing. */
  predicate NoSelfEviction(ops: seq<Op>, maxBytes: int) {
    if ops == [] then true
    else
      var before, op := ops[..|ops| - 1], ops[|ops| - 1];
      op.Flush? || (NoSelfEviction(before, maxBytes)
                    && !(op.Put? && SelfEvicts(Run(before, maxBytes), op.path, op.f, maxBytes)))
  }

  /**
   After every run: resident bytes = counter + drift, and the counter is within
   the limit. The resident bytes equal the counter exactly for the runs without
   self-eviction, and those stay within the limit.
   */
  lemma {:induction false} RunLaw(ops: seq<Op>, maxBytes: int)
    requires maxBytes > 0
    ensures var r := Run(ops, maxBytes);
            && r.Accounted() && r.curBytes <= maxBytes
            && (r.ResidentBytes() == r.curBytes <==> NoSelfEviction(ops, maxBytes))
            && (NoSelfEviction(ops, maxBytes) ==> r.ResidentBytes() <= maxBytes)
  {
    if ops != [] {
      var before, op := ops[..|ops| - 1], ops[|ops| - 1];
      RunLaw(before, maxBytes);
      ApplyLaw(Run(before, maxBytes), op, maxBytes);
    }
  }

  /** One step of a run: the law, the limit, and where the drift comes from. */
  lemma ApplyLaw(st: Store, op: Op, maxBytes: int)
    requires maxBytes > 0 && st.Accounted() && st.curBytes <= maxBytes
    ensures var r := Apply(st, op, maxBytes);
            && r.Accounted() && r.curBytes <= maxBytes
            && (r.drift == 0 <==> op.Flush? || (st.drift == 0 && !(op.Put? && SelfEvicts(st, op.path, op.f, maxBytes))))
  {
    match op
    case Touch(path) => if st.lru.Peek(path).Some? { TouchKeepsLaw(st, path); }
    case Put(path, f) => PutKeepsLaw(st, path, f, maxBytes);
    case RemoveIfSame(path, f) => RemoveIfSameKeepsLaw(st, path, f);
    case Flush =>
  }

  /**
   The intended ceiling is not kept by the code as written: with a limit of 2000
   two entries of 856 bytes, then 1256 bytes stored again under the first key,
   leave 2112 bytes resident and a counter of 1256.
   */
  lemma CeilingBroken(a: CachedFile, b: CachedFile, a': CachedFile)
    requires a.TotalSize() == 856 && b.TotalSize() == 856 && a'.TotalSize() == 1256
    ensures var r := Run([Put("/a", a), Put("/b", b), Put("/a", a')], 2000);
            r.curBytes == 1256 && r.ResidentBytes() == 2112 && r.drift == 856
  {
    var p1, p2, p3 := [Put("/a", a)], [Put("/a", a), Put("/b", b)], [Put("/a", a), Put("/b", b), Put("/a", a')];
    assert p1[..0] == [] && p2[..1] == p1 && p3[..2] == p2;
    var e1, e2, e3 := Entry("/a", a), Entry("/b", b), Entry("/a", a');
    assert "/a" != "/b" by { assert "/a"[1] != "/b"[1]; }
    var s1 := Run(p1, 2000);
    assert Run([], 2000) == EmptyStore();
    assert Evict(EmptyStore(), 856, 2000) == EmptyStore();
    assert s1.lru.entries == [e1];
    assert s1 == Store(Lru([e1]), 856, 0);
    var s2 := Run(p2, 2000);
    assert [e1][1..] == [];
    assert s2 == Store(Lru([e1, e2]), 1712, 0);
    assert [e1, e2][1..] == [e2];
    assert Find([e2], "/a") == Find([e2][1..], "/a");
    var start := s2.(curBytes := 856);
    assert Evict(start, 1256, 2000) == Evict(Store(Lru([e2]), 0, 0), 1256, 2000) == Store(Lru([e2]), 0, 0);
    var s3 := Run(p3, 2000);
    assert Without([e2], "/a") == [e2];
    assert s3 == Store(Lru([e2, e3]), 1256, 856);
    assert [e2, e3][1..] == [e3];
    ResidentOne(e3);
  }

  // ---------------------------------------------------------------------------
  // The cache object
  // ---------------------------------------------------------------------------

  class Cache {
    var lru: Lru<CachedFile>
    var curBytes: int
    var hits: nat
    var misses: nat
    const maxBytes: int
    const ttl: int
    ghost var drift: nat

    ghost function State(): Store
      reads this
    {
      Store(lru, curBytes, drift)
    }

    ghost predicate Valid()
      reads this
    {
      maxBytes > 0 && State().Accounted() && curBytes <= maxBytes
    }

    constructor (maxBytes: int, ttl: int)
      ensures Valid() && State() == EmptyStore() && hits == 0 && misses == 0
      ensures this.maxBytes == (if maxBytes <= 0 then 268_435_456 else maxBytes)
      ensures this.ttl == if ttl > 0 then ttl else 0
    {
      this.maxBytes := if maxBytes <= 0 then DEFAULT_MAX_BYTES else maxBytes;
      this.ttl := if ttl > 0 then ttl else 0;
      lru, curBytes, hits, misses, drift := Lru([]), 0, 0, 0, 0;
    }

    /**
     A hit is the unexpired entry under `path`, made most recent; an expired
     entry is touched, then removed, and counts as a miss.
     */
    method Get(path: string, now: int) returns (r: Option<CachedFile>)
      requires Valid()
      modifies this
      ensures Valid()
      ensures var found := old(lru).Peek(path);
              && (r.Some? <==> found.Some? && (found.value.expiresAt.None? || now <= found.value.expiresAt.value))
              && (r.Some? ==> r == found)
              && State() == (if found.None? then old(State())
                             else if r.Some? then Apply(old(State()), Touch(path), maxBytes)
                             else RemoveIfSameStore(Apply(old(State()), Touch(path), maxBytes), path, found.value))
      ensures hits == old(hits) + (if r.Some? then 1 else 0)
      ensures misses == old(misses) + (if r.Some? then 0 else 1)
    {
      var found := lru.Peek(path);
      if found.None? {
        misses := misses + 1;
        return None;
      }
      TouchKeepsLaw(State(), path);
      lru := lru.Touch(path);
      if found.value.Expired(now) {
        RemoveIfSame(path, found.value);
        misses := misses + 1;
        return None;
      }
      hits := hits + 1;
      return found;
    }

    method RemoveIfSame(path: string, f: CachedFile)
      requires Valid()
      modifies this
      ensures Valid() && State() == RemoveIfSameStore(old(State()), path, f)
      ensures hits == old(hits) && misses == old(misses)
    {
      RemoveIfSameKeepsLaw(State(), path, f);
      var cur := lru.Peek(path);
      if cur.Some? && cur.value == f {
        lru := lru.Remove(path);
        curBytes := curBytes - f.TotalSize();
      }
    }

    method Put(path: string, f: CachedFile, now: int)
      requires Valid()
      modifies this, f
      ensures f.expiresAt == if f.TotalSize() > maxBytes then old(f.expiresAt)
                             else if ttl > 0 then Some(now + ttl) else None
      ensures hits == old(hits) && misses == old(misses)
      ensures Valid() && State() == PutStore(old(State()), path, f, maxBytes)
    {
      if f.TotalSize() > maxBytes {
        return;
      }
      f.expiresAt := if ttl > 0 then Some(now + ttl) else None;
      PutKeepsLaw(State(), path, f, maxBytes);
      Replace(path, f);
    }

    /** Put under the lock, after the expiry stamp. */
    method Replace(path: string, f: CachedFile)
      requires State().Valid() && f.TotalSize() <= maxBytes
      modifies `lru, `curBytes, `drift
      ensures State() == PutStore(old(State()), path, f, maxBytes)
    {
      ghost var before := State();
      var newSize := f.TotalSize();
      var prior := lru.Peek(path);
      if prior.Some? {
        curBytes := curBytes - prior.value.TotalSize();
      }
      MakeRoom(newSize);
      Insert(path, f, if SelfEvicts(before, path, f, maxBytes) then prior.value.TotalSize() else 0);
    }

    /** Put's eviction loop. */
    method MakeRoom(newSize: nat)
      requires State().Valid()
      modifies `lru, `curBytes
      ensures State() == Evict(old(State()), newSize, maxBytes)
    {
      while curBytes + newSize > maxBytes && |lru.entries| > 0
        invariant State().Valid()
        invariant Evict(State(), newSize, maxBytes) == Evict(old(State()), newSize, maxBytes)
        decreases |lru.entries|
      {
        var oldest := lru.entries[0].value;
        lru := lru.RemoveOldest();
        curBytes := curBytes - oldest.TotalSize();
      }
    }

    /** Put's last two lines; a full list evicts once more, which runs the callback too. */
    method Insert(path: string, f: CachedFile, ghost lost: nat)
      requires State().Valid()
      modifies `lru, `curBytes, `drift
      ensures State() == InsertStore(old(State()), path, f, lost)
    {
      var dropped := if lru.Overflows(path, MAX_LRU_ITEMS) then lru.entries[0].value.TotalSize() else 0;
      lru := lru.Add(path, f, MAX_LRU_ITEMS);
      curBytes := curBytes - dropped;
      curBytes := curBytes + f.TotalSize();
      drift := drift + lost;
    }

    method Flush()
      requires Valid()
      modifies this
      ensures hits == old(hits) && misses == old(misses)
      ensures Valid() && State() == EmptyStore()
    {
      while |lru.entries| > 0
        invariant State().Valid()
        invariant hits == old(hits) && misses == old(misses)
        decreases |lru.entries|
      {
        curBytes := curBytes - lru.entries[0].value.TotalSize();
        lru := lru.RemoveOldest();
      }
      curBytes := 0;
      drift := 0;
    }
  }
}
