/**
 What the file cache of internal/cache/cache.go means for those who use it: real
 bytes, recency and expiry.
 */
module CacheLaws {
  import opened Wrappers
  import opened Text
  import opened Lru
  import opened FileCache
  import opened CacheCeiling

  // ---------------------------------------------------------------------------
  // Real bytes
  // ---------------------------------------------------------------------------

  function VariantBytes(variant: Option<Bytes>): nat {
    match variant
    case None => 0
    case Some(bytes) => |bytes|
  }

  /** The bytes of a file and of every compressed variant it comes with. */
  function Weighed(content: Content): nat {
    |content.data| + VariantBytes(content.gzip) + VariantBytes(content.br) + VariantBytes(content.zstd)
  }

  /** The bytes of all entries. */
  function Held(es: Files): nat {
    if es == [] then 0 else Weighed(es[0].value.content) + Held(es[1..])
  }

  lemma {:induction false} HeldIsResident(es: Files)
    ensures Held(es) + 256 * |es| == Resident(es)
  {
    if es != [] {
      HeldIsResident(es[1..]);
    }
  }

  /** After every run the bytes held and 256 for each entry are the counter and the drift. */
  lemma HeldLaw(ops: seq<Op>, maxBytes: int)
    requires maxBytes > 0
    ensures var r := Run(ops, maxBytes);
            Held(r.lru.entries) + 256 * |r.lru.entries| == r.curBytes + r.drift && r.curBytes <= maxBytes
  {
    RunLaw(ops, maxBytes);
    HeldIsResident(Run(ops, maxBytes).lru.entries);
  }

  /** They stay within the limit throughout if and only if no Put of the run is overfull. */
  lemma HeldCeilingIff(ops: seq<Op>, maxBytes: int)
    requires maxBytes > 0
    ensures NeverOverfull(ops, maxBytes)
            <==> forall n | 0 <= n <= |ops| ::
                   var es := Run(ops[..n], maxBytes).lru.entries; Held(es) + 256 * |es| <= maxBytes
  {
    RunCeilingIff(ops, maxBytes);
    AlwaysIsEach(ops, maxBytes);
    forall n | 0 <= n <= |ops| {
      HeldIsResident(Run(ops[..n], maxBytes).lru.entries);
    }
  }

  lemma {:induction false} AlwaysIsEach(ops: seq<Op>, maxBytes: int)
    ensures AlwaysWithin(ops, maxBytes)
            <==> forall n | 0 <= n <= |ops| :: Run(ops[..n], maxBytes).ResidentBytes() <= maxBytes
  {
    assert ops[..|ops|] == ops;
    if ops != [] {
      var before := ops[..|ops| - 1];
      AlwaysIsEach(before, maxBytes);
      assert forall n | 0 <= n <= |before| :: ops[..n] == before[..n];
    } else {
      assert forall n | 0 <= n <= |ops| :: ops[..n] == ops;
    }
  }

  /** A file is cached if it fits with all its variants and 256 bytes more, and otherwise nothing happens. */
  lemma PutDecides(st: Store, path: string, f: CachedFile, maxBytes: int)
    requires st.Valid()
    ensures var r := PutStore(st, path, f, maxBytes);
            if Weighed(f.content) + 256 <= maxBytes then r.lru.Peek(path) == Some(f) else r == st
  {
    if f.TotalSize() <= maxBytes {
      var room := Evict(st.(curBytes := st.curBytes - SizeAt(st.lru.entries, path)), f.TotalSize(), maxBytes);
      room.lru.AddPeek(path, f, MAX_LRU_ITEMS, path);
    }
  }

  /** Nothing is lost while there is room for the bytes and for one more entry; at most 65536 entries are kept. */
  lemma NothingLost(st: Store, path: string, f: CachedFile, maxBytes: int, x: string)
    requires st.Accounted() && x != path
    requires var es := st.lru.entries;
             Held(es) + 256 * |es| + Weighed(f.content) + 256 <= maxBytes && |es| < 65536
    ensures PutStore(st, path, f, maxBytes).lru.Peek(x) == st.lru.Peek(x)
  {
    var es := st.lru.entries;
    HeldIsResident(es);
    var start := st.(curBytes := st.curBytes - SizeAt(es, path));
    assert Evict(start, f.TotalSize(), maxBytes) == start;
    FindWithout(es, path, x);
    FindAppend(Without(es, path), [Entry(path, f)], x);
  }

  lemma ItemLimit(ops: seq<Op>, maxBytes: int)
    requires maxBytes > 0
    ensures |Run(ops, maxBytes).lru.entries| <= 65536
  {
    RunLaw(ops, maxBytes);
  }

  // ---------------------------------------------------------------------------
  // Recency
  // ---------------------------------------------------------------------------

  lemma {:induction false} FindAtIndex(es: Files, i: nat)
    requires Distinct(es) && i < |es|
    ensures Find(es, es[i].key) == Some(es[i].value)
  {
    if i > 0 {
      FindAtIndex(es[1..], i - 1);
      assert es[1..][i - 1] == es[i];
    }
  }

  lemma {:induction false} FindInRest(es: Files, c: nat, i: nat)
    requires Distinct(es) && c <= |es| && i < |es|
    ensures Find(es[c..], es[i].key).Some? <==> c <= i
  {
    if c == 0 {
      assert es[0..] == es;
      FindAtIndex(es, i);
    } else {
      assert es[c..] == es[1..][c - 1..];
      if i == 0 {
        CutAbsent(es[1..], es[0].key, c - 1);
      } else {
        FindInRest(es[1..], c - 1, i - 1);
      }
    }
  }

  /** What a Put leaves of the other entries is a final run of the recency order. */
  lemma PutSurvivors(st: Store, path: string, f: CachedFile, maxBytes: int) returns (c: nat)
    requires st.Valid()
    ensures c <= |st.lru.entries|
    ensures forall i | 0 <= i < |st.lru.entries| && st.lru.entries[i].key != path ::
              PutStore(st, path, f, maxBytes).lru.Peek(st.lru.entries[i].key).Some? <==> c <= i
  {
    var es := st.lru.entries;
    if f.TotalSize() > maxBytes {
      c := 0;
      forall i | 0 <= i < |es| ensures st.lru.Peek(es[i].key).Some? {
        FindAtIndex(es, i);
      }
    } else {
      var start := st.(curBytes := st.curBytes - SizeAt(es, path));
      var k := EvictShape(start, f.TotalSize(), maxBytes);
      var room := Evict(start, f.TotalSize(), maxBytes).lru;
      c := if room.Overflows(path, MAX_LRU_ITEMS) then k + 1 else k;
      forall i | 0 <= i < |es| && es[i].key != path
        ensures room.Add(path, f, MAX_LRU_ITEMS).Peek(es[i].key).Some? <==> c <= i
      {
        AddSurvivor(es, k, room, path, f, i);
      }
    }
  }

  lemma AddSurvivor(es: Files, k: nat, room: Lru<CachedFile>, path: string, f: CachedFile, i: nat)
    requires Distinct(es) && k <= |es| && room.Valid() && room.entries == es[k..]
    requires i < |es| && es[i].key != path
    ensures var c := if room.Overflows(path, MAX_LRU_ITEMS) then k + 1 else k;
            room.Add(path, f, MAX_LRU_ITEMS).Peek(es[i].key).Some? <==> c <= i
  {
    var kept, x := Without(room.entries, path), es[i].key;
    FindInRest(es, k, i);
    FindWithout(room.entries, path, x);
    if room.Overflows(path, MAX_LRU_ITEMS) {
      assert kept == room.entries && (kept + [Entry(path, f)])[1..] == es[k + 1..] + [Entry(path, f)];
      FindInRest(es, k + 1, i);
      FindAppend(es[k + 1..], [Entry(path, f)], x);
    } else {
      FindAppend(kept, [Entry(path, f)], x);
    }
  }

  /** Of two other entries the one used longer ago goes first. */
  lemma OldestGoFirst(st: Store, path: string, f: CachedFile, maxBytes: int, i: nat, j: nat)
    requires st.Valid() && i < j < |st.lru.entries|
    requires st.lru.entries[i].key != path && st.lru.entries[j].key != path
    ensures var r := PutStore(st, path, f, maxBytes).lru;
            r.Peek(st.lru.entries[j].key).None? ==> r.Peek(st.lru.entries[i].key).None?
  {
    var c := PutSurvivors(st, path, f, maxBytes);
  }

  /**
   After a hit on `path` and then a Put of another key, `path` is gone only if
   every other old entry is gone too.
   */
  lemma UsedLast(st: Store, path: string, other: string, f: CachedFile, maxBytes: int, x: string)
    requires st.Valid() && st.lru.Peek(path).Some? && other != path && x != other && st.lru.Peek(x).Some?
    ensures var r := PutStore(Apply(st, Touch(path), maxBytes), other, f, maxBytes).lru;
            r.Peek(path).None? ==> r.Peek(x).None?
  {
    var st' := st.(lru := st.lru.Touch(path));
    var es := st'.lru.entries;
    var p := st.lru.TouchOrder(path);
    st.lru.TouchPeek(path, x);
    FindIn(es, x);
    var i :| 0 <= i < |es| && es[i].key == x;
    var c := PutSurvivors(st', other, f, maxBytes);
    assert es[|es| - 1].key == path;
  }

  // ---------------------------------------------------------------------------
  // Expiry
  // ---------------------------------------------------------------------------

  /** A stored file is found until its time to live is over, and from then on is not. */
  method StoreAndAsk(cache: Cache, path: string, f: CachedFile, stored: int, asked: int)
    returns (r: Option<CachedFile>)
    requires cache.Valid() && Weighed(f.content) + 256 <= cache.maxBytes
    modifies cache, f
    ensures cache.Valid() && r == if cache.ttl > 0 && asked > stored + cache.ttl then None else Some(f)
    ensures r.None? ==> cache.lru.Peek(path).None?
    ensures r.Some? ==> cache.lru.entries != [] && cache.lru.entries[|cache.lru.entries| - 1] == Entry(path, f)
  {
    PutDecides(cache.State(), path, f, cache.maxBytes);
    cache.Put(path, f, stored);
    var p := cache.lru.TouchOrder(path);
    cache.lru.TouchPeek(path, path);
    cache.lru.Touch(path).RemovePeek(path, path);
    r := cache.Get(path, asked);
  }
}
