/**
 The handler object: requests, preloading and flushes on the real cache objects,
 all keeping the invariant that makes the cache invisible.
 */
module Handler {
  import opened Wrappers
  import opened Text
  import opened Paths
  import opened PathSafety
  import opened PathCaching
  import opened CacheKey
  import opened Lru
  import opened FileCache
  import opened Http
  import opened Streaming
  import opened Serving
  import opened FileHandling
  import opened Transparency
  import Concurrent = CacheInterleaving

  // ---------------------------------------------------------------------------
  // The invariant over cache operations
  // ---------------------------------------------------------------------------

  ghost predicate EntriesOK(env: Env, es: Files) {
    forall e | e in es :: EntryOK(env, e.key, e.value.content)
  }

  ghost predicate Within(a: Files, b: Files) {
    forall e | e in a :: e in b
  }

  lemma TouchWithin(lru: Lru<CachedFile>, path: string)
    requires lru.Valid() && lru.Peek(path).Some?
    ensures Within(lru.Touch(path).entries, lru.entries)
  {
    forall e | e in lru.Touch(path).entries ensures e in lru.entries {
      lru.TouchIn(path, e);
    }
  }

  lemma WithoutWithin(es: Files, path: string)
    ensures Within(Without(es, path), es)
  {
    forall e | e in Without(es, path) ensures e in es {
      WithoutIn(es, path, e);
    }
  }

  /** The cache after a lookup: a current entry is touched, an expired one removed. */
  function AfterGet(st: Store, path: string, current: bool): (r: Store)
    requires st.Valid()
    ensures r.Valid()
  {
    if st.lru.Peek(path).None? then st
    else
      var touched := st.(lru := st.lru.Touch(path));
      if current then touched else RemoveIfSameStore(touched, path, st.lru.Peek(path).value)
  }

  /** A lookup, expiry included, invents no entry. */
  lemma GetOK(env: Env, st: Store, path: string, current: bool)
    requires st.Valid() && EntriesOK(env, st.lru.entries)
    ensures EntriesOK(env, AfterGet(st, path, current).lru.entries)
  {
    if st.lru.Peek(path).Some? {
      TouchWithin(st.lru, path);
      WithoutWithin(st.lru.Touch(path).entries, path);
    }
  }

  /** Looking up one key does not change what is found under another. */
  lemma GetOther(st: Store, path: string, current: bool, x: string)
    requires st.Valid() && x != path
    ensures AfterGet(st, path, current).lru.Peek(x) == st.lru.Peek(x)
  {
    if st.lru.Peek(path).Some? {
      st.lru.TouchPeek(path, x);
      st.lru.Touch(path).RemovePeek(path, x);
    }
  }

  lemma EvictWithin(st: Store, newSize: nat, maxBytes: int)
    requires st.Valid()
    ensures Within(Evict(st, newSize, maxBytes).lru.entries, st.lru.entries)
  {
    var k := EvictShape(st, newSize, maxBytes);
    forall e | e in st.lru.entries[k..] ensures e in st.lru.entries {
    }
  }

  /** Storing adds no entry but the new one. */
  lemma PutWithin(st: Store, path: string, f: CachedFile, maxBytes: int)
    requires st.Valid()
    ensures Within(PutStore(st, path, f, maxBytes).lru.entries, st.lru.entries + [Entry(path, f)])
  {
    if f.TotalSize() <= maxBytes {
      var start := st.(curBytes := st.curBytes - SizeAt(st.lru.entries, path));
      var room := Evict(start, f.TotalSize(), maxBytes);
      EvictWithin(start, f.TotalSize(), maxBytes);
      forall e | e in room.lru.Add(path, f, MAX_LRU_ITEMS).entries ensures e in st.lru.entries + [Entry(path, f)] {
        room.lru.AddIn(path, f, MAX_LRU_ITEMS, e);
      }
    }
  }

  lemma PutOK(env: Env, st: Store, path: string, f: CachedFile, maxBytes: int)
    requires st.Valid() && EntriesOK(env, st.lru.entries) && EntryOK(env, path, f.content)
    ensures EntriesOK(env, PutStore(st, path, f, maxBytes).lru.entries)
  {
    PutWithin(st, path, f, maxBytes);
  }

  // ---------------------------------------------------------------------------
  // What a lookup finds
  // ---------------------------------------------------------------------------

  /** The unexpired entry under `key`, if there is one. */
  function Current(cache: Cache?, key: string, now: int): Option<Content>
    reads cache, if cache != null && cache.lru.Peek(key).Some? then {cache.lru.Peek(key).value} else {}
  {
    if cache == null || cache.lru.Peek(key).None? || cache.lru.Peek(key).value.Expired(now) then None
    else Some(cache.lru.Peek(key).value.content)
  }

  /** The URL of the second lookup; None when there is none. */
  function SecondKey(env: Env, urlPath: string): Option<string> {
    match env.site.Path(urlPath)
    case Err(_) => None
    case Ok(path) =>
      var d := Resolve(env, path, urlPath);
      if d.At? && d.canonical != KeyForPath(urlPath, env.indexFile) then Some(d.canonical) else None
  }

  /** A path to the URL's file leads to the same second lookup. */
  lemma SecondKeyIs(env: Env, urlPath: string, path: string)
    requires env.Valid() && Leads(env.site, urlPath, Ok(path))
    ensures var d := Resolve(env, path, urlPath);
            SecondKey(env, urlPath)
            == if d.At? && d.canonical != KeyForPath(urlPath, env.indexFile) then Some(d.canonical) else None
  {
    env.site.PathIsAbsolute(urlPath);
    ResolveSame(env, path, env.site.links.Absolute(path), urlPath);
  }

  /** A request looks up its key and, on a miss, its canonical URL: never a directory alias. */
  lemma AliasNeverLookedUp(env: Env, urlPath: string, key: string)
    requires env.Valid() && IsAlias(env, key)
    ensures key != KeyForPath(urlPath, env.indexFile) && SecondKey(env, urlPath) != Some(key)
  {
    KeyCanonical(urlPath, env.indexFile);
    IndexURLNoSlash(urlPath, env.indexFile);
  }

  lemma CurrentOK(env: Env, cache: Cache, key: string, now: int)
    requires EntriesOK(env, cache.lru.entries) && Current(cache, key, now).Some?
    ensures EntryOK(env, key, Current(cache, key, now).value)
  {
    FindIn(cache.lru.entries, key);
  }

  /** The URL leads to a small readable file that fits into the cache once loaded. */
  predicate Cacheable(env: Env, path: Result<string, PathError>, urlPath: string, maxBytes: int) {
    path.Ok? &&
    var d := Resolve(env, path.value, urlPath);
    && d.At? && d.stat.Regular? && Small(env, d.stat.file) && d.stat.file.access.Readable?
    && Load(env, d.path, d.stat.file, d.canonical).TotalSize() <= maxBytes
  }

  /** A file may be cached under a URL once it is loaded. */
  ghost predicate LoadOK(env: Env, path: string, key: string, file: DiskFile) {
    && |file.data| <= MAX_INT64
    && (Small(env, file) && file.access.Readable? ==> EntryOK(env, key, Load(env, path, file, key)))
  }

  /** A file on disk loads soundly from a harmless path. */
  lemma SourceSound(env: Env, urlPath: string, path: string)
    requires env.Valid() && SourceOK(env, urlPath, Ok(path)) && env.StatOf(path).Regular?
    ensures var file := env.StatOf(path).file;
            var loaded := Load(env, path, file, urlPath);
            && |file.data| <= MAX_INT64 && GzipReady(loaded, env.compression)
            && (WarmsHarmlessly(env) ==> Sound(loaded, env.codecs))
  {
    hide HonestAt, WarmsHarmlessly;
    env.site.PathIsAbsolute(urlPath);
    PathSound(env, urlPath, urlPath);
    LoadSoundIff(env, path, env.StatOf(path).file, urlPath);
  }

  /** What a miss loads may be cached under its canonical URL. */
  lemma DestinationOK(env: Env, urlPath: string, path: string)
    requires env.Valid() && SourceOK(env, urlPath, Ok(path))
    ensures var d := Resolve(env, path, urlPath);
            d.At? && d.stat.Regular? ==> LoadOK(env, d.path, d.canonical, d.stat.file)
  {
    hide Env.Valid, HonestAt, WarmsHarmlessly;
    env.Basics();
    var d := Resolve(env, path, urlPath);
    env.site.PathIsAbsolute(urlPath);
    if d.At? && d.stat.Regular? {
      if env.StatOf(path).Directory? {
        DestinationSound(env, urlPath, d);
      } else {
        SourceSound(env, urlPath, path);
      }
    }
  }

  /** A lookup that shows the content found; what is current under `other` stays so. */
  method GetContent(cache: Cache, key: string, now: int, ghost other: string) returns (hit: Option<Content>)
    requires cache.Valid()
    modifies cache
    ensures cache.Valid() && hit == old(Current(cache, key, now))
    ensures cache.State() == AfterGet(old(cache.State()), key, hit.Some?)
    ensures hit.Some? ==> Current(cache, key, now) == hit
    ensures other != key ==> Current(cache, other, now) == old(Current(cache, other, now))
  {
    ghost var f, g := cache.lru.Peek(key), cache.lru.Peek(other);
    assert (f.Some? ==> allocated(f.value)) && (g.Some? ==> allocated(g.value));
    if f.Some? {
      cache.lru.TouchPeek(key, key);
    }
    if other != key {
      GetOther(cache.State(), key, Current(cache, key, now).Some?, other);
    }
    var found := cache.Get(key, now);
    hit := if found.Some? then Some(found.value.content) else None;
  }

  /** Storing keeps the invariant, and a file that fits is found afterwards. */
  method PutEntry(env: Env, cache: Cache, key: string, f: CachedFile, now: int)
    requires cache.Valid() && EntriesOK(env, cache.lru.entries) && EntryOK(env, key, f.content)
    modifies cache, f
    ensures cache.State() == PutStore(old(cache.State()), key, f, cache.maxBytes)
    ensures cache.Valid() && EntriesOK(env, cache.lru.entries)
    ensures f.TotalSize() <= cache.maxBytes ==> Current(cache, key, now) == Some(f.content)
  {
    PutOK(env, cache.State(), key, f, cache.maxBytes);
    if f.TotalSize() <= cache.maxBytes {
      PutFound(cache.State(), key, f, cache.maxBytes);
    }
    cache.Put(key, f, now);
  }

  /** A file that fits is found under its key once it is stored. */
  lemma PutFound(st: Store, key: string, f: CachedFile, maxBytes: int)
    requires st.Valid() && f.TotalSize() <= maxBytes
    ensures PutStore(st, key, f, maxBytes).lru.Peek(key) == Some(f)
  {
    var room := Evict(st.(curBytes := st.curBytes - SizeAt(st.lru.entries, key)), f.TotalSize(), maxBytes);
    room.lru.AddPeek(key, f, MAX_LRU_ITEMS, key);
  }

  /** The cache after disk serving, which may have stored a file. */
  function AfterDisk(st: Store, key: string, stored: Option<CachedFile>, maxBytes: int): (r: Store)
    requires st.Valid()
    ensures r.Valid()
  {
    if stored.Some? then PutStore(st, key, stored.value, maxBytes) else st
  }

  /** The cache after the second lookup of `canonical`, when there is one, and disk serving. */
  function AfterMiss(st: Store, key: string, canonical: string, hit: bool, stored: Option<CachedFile>, maxBytes: int)
    : (r: Store)
    requires st.Valid()
    ensures r.Valid()
  {
    AfterDisk(if canonical == key then st else AfterGet(st, canonical, hit), canonical, stored, maxBytes)
  }

  /** The cache after the part of a request that follows a failed first lookup. */
  function AfterLookup(env: Env, st: Store, urlPath: string, path: string, hit: bool, stored: Option<CachedFile>,
                       maxBytes: int): (r: Store)
    requires st.Valid()
    ensures r.Valid()
  {
    match Resolve(env, path, urlPath)
    case At(_, canonical, _) => AfterMiss(st, KeyForPath(urlPath, env.indexFile), canonical, hit, stored, maxBytes)
    case Barred(_) => st
    case Listing => st
  }

  /** The cache after a request, given its path, whether its lookups hit and what it stored. */
  function AfterRequest(env: Env, st: Store, urlPath: string, source: Result<string, PathError>, first: bool,
                        second: bool, stored: Option<CachedFile>, maxBytes: int): (r: Store)
    requires st.Valid()
    ensures r.Valid()
  {
    match source
    case Err(_) => st
    case Ok(path) =>
      var looked := AfterGet(st, KeyForPath(urlPath, env.indexFile), first);
      if first then looked else AfterLookup(env, looked, urlPath, path, second, stored, maxBytes)
  }

  /** A request stores what it loaded, and only on a miss for a small readable file. */
  predicate StoresLoaded(env: Env, source: Result<string, PathError>, urlPath: string, stored: CachedFile) {
    source.Ok? &&
    var d := Resolve(env, source.value, urlPath);
    && d.At? && d.stat.Regular? && Small(env, d.stat.file) && d.stat.file.access.Readable?
    && stored.content == Load(env, d.path, d.stat.file, d.canonical)
  }

  // ---------------------------------------------------------------------------
  // The path cache
  // ---------------------------------------------------------------------------

  /** Every path in the path cache leads to its URL's file and is served like its absolute form. */
  ghost predicate PathsOK(env: Env, lru: Lru<string>) {
    Faithful(lru, env.site) && forall e | e in lru.entries :: Tolerable(env, e.value)
  }

  lemma SourceIsOK(env: Env, lru: Lru<string>, urlPath: string)
    requires env.Valid() && lru.Valid() && PathsOK(env, lru)
    ensures SourceOK(env, urlPath, Source(lru, env.site, urlPath))
  {
    SourceLeads(lru, env.site, urlPath);
    if lru.Peek(urlPath).Some? {
      FindIn(lru.entries, urlPath);
    } else if env.site.Path(urlPath).Ok? {
      env.site.PathIsAbsolute(urlPath);
    }
  }

  lemma LookedOK(env: Env, lru: Lru<string>, urlPath: string)
    requires lru.Valid() && PathsOK(env, lru)
    ensures PathsOK(env, Looked(lru, urlPath))
  {
    if lru.Peek(urlPath).Some? {
      LookupFaithful(lru, env.site, urlPath);
      forall e | e in lru.Touch(urlPath).entries ensures e in lru.entries {
        lru.TouchIn(urlPath, e);
      }
    }
  }

  // ---------------------------------------------------------------------------
  // Concurrent callers
  // ---------------------------------------------------------------------------

  /** The entry invariant as a test on a path and a file. */
  ghost function MayEnter(env: Env): (string, CachedFile) -> bool {
    (path: string, f: CachedFile) => EntryOK(env, path, f.content)
  }

  /** What is put is what may be an entry. */
  ghost predicate PutsOK(env: Env, events: seq<Concurrent.Event>) {
    Concurrent.AllPut(events, MayEnter(env))
  }

  /** In every interleaving of cache calls the entries, and what a Get has found, satisfy the entry invariant. */
  lemma InterleavingOK(env: Env, events: seq<Concurrent.Event>, maxBytes: int, t: Concurrent.Tid)
    requires PutsOK(env, events)
    ensures var s := Concurrent.Exec(events, maxBytes);
            && EntriesOK(env, s.store.lru.entries)
            && (s.At(t).Looked? ==> EntryOK(env, s.At(t).path, s.At(t).f.content))
  {
    hide EntryOK;
    Concurrent.EveryEntry(events, maxBytes, MayEnter(env));
  }

  /**
   A first lookup in the middle of any interleaving: answered from what it found,
   the request gets what a server without caches gives if and only if the hit
   does not show.
   */
  lemma InterleavedHitIff(env: Env, events: seq<Concurrent.Event>, maxBytes: int, t: Concurrent.Tid, base: Reply,
                          req: Request, boundary: string)
    requires env.Valid() && (env.listing ==> ListingsUndated(env)) && Normalised(req.urlPath) && Fresh(base)
    requires env.site.Path(req.urlPath).Ok? && PutsOK(env, events)
    requires var pc := Concurrent.Exec(events, maxBytes).At(t);
             pc.Looked? && pc.path == KeyForPath(req.urlPath, env.indexFile)
    ensures var found := Concurrent.Exec(events, maxBytes).At(t).f.content;
            Agrees(CachedReply(env, base, req, found, boundary), ColdReply(env, base, req, boundary), req.isHead,
                   env.codecs)
            <==> !Shows(env, req, Some(found), None)
  {
    hide Env.Valid, EntryOf, Sound, GzipReady, Normalised, CachedReply, ColdReply, HitShows, PutsOK;
    InterleavingOK(env, events, maxBytes, t);
    FirstIff(env, base, req, Concurrent.Exec(events, maxBytes).At(t).f.content, boundary);
  }

  class FileHandler {
    const env: Env
    const cache: Cache?
    const pathCache: PathCache?

    constructor (env: Env, cache: Cache?, pathCache: PathCache?)
      ensures this.env == env && this.cache == cache && this.pathCache == pathCache
    {
      this.env := env;
      this.cache := cache;
      this.pathCache := pathCache;
    }

    ghost predicate Valid()
      reads this, cache, pathCache
    {
      && env.Valid()
      && (cache != null ==> cache.Valid() && EntriesOK(env, cache.lru.entries))
      && (pathCache != null ==> pathCache.Valid() && PathsOK(env, pathCache.lru))
    }

    /** The cache as a value; empty when there is none. */
    ghost function Held(): Store
      reads cache
    {
      if cache == null then EmptyStore() else cache.State()
    }

    function Limit(): int {
      if cache == null then 0 else cache.maxBytes
    }

    /** One cache lookup. */
    method Lookup(key: string, now: int, ghost other: string) returns (hit: Option<Content>)
      requires Valid()
      modifies cache
      ensures hit == old(Current(cache, key, now))
      ensures hit.Some? ==> EntryOK(env, key, hit.value) && Current(cache, key, now) == hit
      ensures other != key ==> Current(cache, other, now) == old(Current(cache, other, now))
      ensures old(Held()).Valid() && Held() == AfterGet(old(Held()), key, hit.Some?)
      ensures Valid()
    {
      if cache == null {
        return None;
      }
      GetOK(env, cache.State(), key, Current(cache, key, now).Some?);
      if Current(cache, key, now).Some? {
        CurrentOK(env, cache, key, now);
      }
      hit := GetContent(cache, key, now, other);
    }

    /** A file that fits is in the cache. */
    ghost predicate Holds(key: string, content: Content, now: int)
      reads cache, Footprint(key)
    {
      cache != null && content.TotalSize() <= cache.maxBytes ==> Current(cache, key, now) == Some(content)
    }

    /** Caches a file just loaded. */
    method Remember(key: string, content: Content, now: int) returns (ghost stored: Option<CachedFile>)
      requires Valid() && EntryOK(env, key, content)
      modifies cache
      ensures Holds(key, content, now)
      ensures (stored.Some? <==> cache != null) && (stored.Some? ==> stored.value.content == content)
      ensures old(Held()).Valid() && Held() == AfterDisk(old(Held()), key, stored, Limit())
      ensures Valid()
    {
      hide Env.Valid;
      stored := None;
      if cache != null {
        var f := new CachedFile(content);
        PutEntry(env, cache, key, f, now);
        stored := Some(f);
      }
    }

    /** Writes a cached file, or a 304 when the client's copy is current. */
    method ServeHit(resp: Response, req: Request, content: Content, ghost key: string, ghost now: int, boundary: string)
      requires Valid() && |content.data| <= MAX_INT64
      modifies resp
      ensures resp.Value() == CachedReply(env, old(resp.Value()), req, content, boundary)
      ensures Current(cache, key, now) == old(Current(cache, key, now)) && Held() == old(Held())
      ensures Valid()
    {
      hide Env.Valid;
      ghost var f := Stored(key);
      assert f.Some? ==> allocated(f.value);
      var done := CheckNotModified(resp, req, content, env.etags);
      if !done {
        ServeFromCache(resp, req, content, env.compression, env.etags, env.weigh, boundary);
      }
    }

    /** Writes a file just loaded; the cache mark set here is overwritten at once. */
    method ServeLoaded(resp: Response, req: Request, content: Content, ghost key: string, ghost now: int,
                       boundary: string)
      requires Valid() && |content.data| <= MAX_INT64
      modifies resp
      ensures resp.Value() == HitReply(Marked(old(resp.Value())), req, content, env.compression, env.etags, env.weigh,
                                       boundary)
      ensures Current(cache, key, now) == old(Current(cache, key, now)) && Held() == old(Held())
      ensures Valid()
    {
      hide Env.Valid;
      ghost var f := Stored(key);
      assert f.Some? ==> allocated(f.value);
      resp.headers := resp.headers.(cacheHit := Some(false));
      ServeFromCache(resp, req, content, env.compression, env.etags, env.weigh, boundary);
    }

    method ServeFromDisk(resp: Response, req: Request, path: string, canonical: string, stat: Stat, now: int,
                         boundary: string)
      returns (ghost stored: Option<CachedFile>)
      requires Valid() && (stat.Regular? ==> LoadOK(env, path, canonical, stat.file))
      modifies resp, cache
      ensures resp.Value() == DiskReply(env, old(resp.Value()), req, path, canonical, stat, boundary)
      ensures stat.Regular? && Small(env, stat.file) && stat.file.access.Readable? ==>
                Holds(canonical, Load(env, path, stat.file, canonical), now)
      ensures stored.Some? ==> && stat.Regular? && Small(env, stat.file) && stat.file.access.Readable?
                               && stored.value.content == Load(env, path, stat.file, canonical)
      ensures old(Held()).Valid() && Held() == AfterDisk(old(Held()), canonical, stored, Limit())
      ensures Valid()
    {
      hide Env.Valid;
      stored := None;
      match stat {
        case Missing =>
          resp.Replace(env.missing(canonical, req));
        case NoPermission =>
          resp.Error(403, "Forbidden");
        case StatFails =>
          resp.Error(500, "Internal Server Error");
        case Directory =>
          resp.Error(500, "Internal Server Error");
        case Regular(file) =>
          if |file.data| > env.maxFileSize {
            ServeLargeFile(resp, req, file, LargeContent(env, file, canonical),
                           HasPrefix(CleanAny(path), env.RootSep()), env.maxServeSize, env.etags, boundary);
          } else {
            stored := ServeSmallFile(resp, req, file, path, canonical, now, boundary);
          }
      }
    }

    method ServeSmallFile(resp: Response, req: Request, file: DiskFile, path: string, canonical: string, now: int,
                          boundary: string)
      returns (ghost stored: Option<CachedFile>)
      requires Valid() && Small(env, file) && LoadOK(env, path, canonical, file)
      modifies resp, cache
      ensures resp.Value() == DiskReply(env, old(resp.Value()), req, path, canonical, Regular(file), boundary)
      ensures file.access.Readable? ==> Holds(canonical, Load(env, path, file, canonical), now)
      ensures stored.Some? ==> file.access.Readable? && stored.value.content == Load(env, path, file, canonical)
      ensures old(Held()).Valid() && Held() == AfterDisk(old(Held()), canonical, stored, Limit())
      ensures Valid()
    {
      hide Env.Valid, EntriesOK, PathsOK, HitReply, EntryOK;
      env.Basics();
      stored := None;
      match file.access {
        case Denied =>
          resp.Error(403, "Forbidden");
        case Broken =>
          resp.Error(500, "Internal Server Error");
        case Readable =>
          var content := LoadFile(env, path, file, canonical);
          stored := Remember(canonical, content, now);
          ServeLoaded(resp, req, content, canonical, now, boundary);
      }
    }

    /** The path a request gets, from the path cache or as the verdict. */
    ghost function PathFor(urlPath: string): Result<string, PathError>
      reads pathCache
    {
      if pathCache == null then env.site.Path(urlPath) else Source(pathCache.lru, env.site, urlPath)
    }

    lemma PathForOK(urlPath: string)
      requires Valid()
      ensures SourceOK(env, urlPath, PathFor(urlPath))
    {
      SourceIsOK(env, if pathCache == null then Lru([]) else pathCache.lru, urlPath);
    }

    /** What the two lookups of a request find. */
    ghost function First(urlPath: string, now: int): Option<Content>
      reads cache, Footprint(KeyForPath(urlPath, env.indexFile))
    {
      Current(cache, KeyForPath(urlPath, env.indexFile), now)
    }

    ghost function Stored(key: string): Option<CachedFile>
      reads cache
    {
      if cache != null then cache.lru.Peek(key) else None
    }

    ghost function Footprint(key: string): set<object>
      reads cache
    {
      if Stored(key).Some? then {Stored(key).value} else {}
    }

    ghost function Second(urlPath: string, now: int): Option<Content>
      reads cache, match SecondKey(env, urlPath) case None => {} case Some(key) => Footprint(key)
    {
      match SecondKey(env, urlPath)
      case None => None
      case Some(key) => Current(cache, key, now)
    }

    /** A repeated request for a file that fits is a hit, by one of its two lookups. */
    ghost predicate Repeats(source: Result<string, PathError>, urlPath: string, now: int)
      reads cache, Footprint(KeyForPath(urlPath, env.indexFile))
      reads match SecondKey(env, urlPath) case None => {} case Some(key) => Footprint(key)
    {
      cache != null && Cacheable(env, source, urlPath, cache.maxBytes) ==>
        First(urlPath, now).Some? || Second(urlPath, now).Some?
    }

    /**
     `userValue` is what the security middleware left in the request context.
     */
    method HandleRequest(resp: Response, req: Request, userValue: Option<string>, now: int, boundary: string)
      returns (ghost stored: Option<CachedFile>)
      requires Valid() && (userValue.Some? ==> env.site.Path(req.urlPath) == Ok(userValue.value))
      modifies resp, cache, pathCache
      ensures var path := old(PathFor(req.urlPath));
              && resp.Value() == WarmReply(env, old(resp.Value()), req, path, old(First(req.urlPath, now)),
                                           old(Second(req.urlPath, now)), boundary)
              && Repeats(path, req.urlPath, now)
              && (stored.Some? ==> StoresLoaded(env, path, req.urlPath, stored.value))
      ensures old(Held()).Valid()
      ensures Held() == AfterRequest(env, old(Held()), req.urlPath, old(PathFor(req.urlPath)),
                                     old(First(req.urlPath, now)).Some?, old(Second(req.urlPath, now)).Some?, stored,
                                     Limit())
      ensures pathCache != null ==> pathCache.lru == Looked(old(pathCache.lru), req.urlPath)
      ensures Valid()
    {
      hide Env.Valid, EntriesOK, PathsOK, SourceOK, AfterLookup, PathReply, KeyForPath;
      stored := None;
      var path := SafePath(req.urlPath, userValue, now);
      if path.Err? {
        resp.Replace(SecurityReply(path.error));
      } else {
        stored := HandlePath(resp, req, path.value, now, boundary);
      }
    }

    /** The path comes from the path cache, the request context, or PathSafe. */
    method SafePath(urlPath: string, userValue: Option<string>, ghost now: int)
      returns (path: Result<string, PathError>)
      requires Valid() && (userValue.Some? ==> env.site.Path(urlPath) == Ok(userValue.value))
      modifies pathCache
      ensures path == old(PathFor(urlPath)) && SourceOK(env, urlPath, path)
      ensures First(urlPath, now) == old(First(urlPath, now)) && Second(urlPath, now) == old(Second(urlPath, now))
      ensures Held() == old(Held())
      ensures pathCache != null ==> pathCache.lru == Looked(old(pathCache.lru), urlPath)
      ensures Valid()
    {
      hide Env.Valid, EntriesOK, SourceOK, Leads, KeyForPath, Resolve;
      env.Basics();
      ghost var key, other := KeyForPath(urlPath, env.indexFile), SecondKey(env, urlPath);
      ghost var f := Stored(key);
      ghost var g := if other.Some? then Stored(other.value) else None;
      assert (f.Some? ==> allocated(f.value)) && (g.Some? ==> allocated(g.value));
      PathForOK(urlPath);
      if pathCache != null {
        LookedOK(env, pathCache.lru, urlPath);
      }
      path := HandlerPath(pathCache, userValue, urlPath, env.site);
    }

    method HandlePath(resp: Response, req: Request, path: string, now: int, boundary: string)
      returns (ghost stored: Option<CachedFile>)
      requires Valid() && SourceOK(env, req.urlPath, Ok(path))
      modifies resp, cache
      ensures resp.Value() == PathReply(env, old(resp.Value()), req, path, old(First(req.urlPath, now)),
                                        old(Second(req.urlPath, now)), boundary)
      ensures Repeats(Ok(path), req.urlPath, now)
      ensures stored.Some? ==> StoresLoaded(env, Ok(path), req.urlPath, stored.value)
      ensures old(Held()).Valid()
      ensures Held() == AfterRequest(env, old(Held()), req.urlPath, Ok(path), old(First(req.urlPath, now)).Some?,
                                     old(Second(req.urlPath, now)).Some?, stored, Limit())
      ensures Valid()
    {
      hide Env.Valid, EntriesOK, PathsOK, SourceOK, DiskReply, CachedReply, StoresLoaded, Cacheable, AfterLookup,
           MissReply, KeyForPath;
      stored := None;
      var key := KeyForPath(req.urlPath, env.indexFile);
      ghost var other := SecondKey(env, req.urlPath);
      var first := Lookup(key, now, if other.Some? then other.value else key);
      if first.Some? {
        ServeHit(resp, req, first.value, key, now, boundary);
      } else {
        stored := HandleUncached(resp, req, path, key, now, boundary);
      }
    }

    method HandleUncached(resp: Response, req: Request, path: string, key: string, now: int, boundary: string)
      returns (ghost stored: Option<CachedFile>)
      requires Valid() && SourceOK(env, req.urlPath, Ok(path)) && key == KeyForPath(req.urlPath, env.indexFile)
      modifies resp, cache
      ensures resp.Value() == MissReply(env, old(resp.Value()), req, path, old(Second(req.urlPath, now)), boundary)
      ensures Repeats(Ok(path), req.urlPath, now)
      ensures stored.Some? ==> StoresLoaded(env, Ok(path), req.urlPath, stored.value)
      ensures old(Held()).Valid() && Held() == AfterLookup(env, old(Held()), req.urlPath, path,
                                                           old(Second(req.urlPath, now)).Some?, stored, Limit())
      ensures Valid()
    {
      hide Env.Valid, EntriesOK, PathsOK, SourceOK, DiskReply, CachedReply, StoresLoaded, AfterMiss, KeyForPath, Load,
           Small;
      stored := None;
      var d := Destined(path, req.urlPath, now);
      match d {
        case Barred(e) =>
          resp.Replace(SecurityReply(e));
        case Listing =>
          resp.Replace(env.listings(env.site.links.Absolute(path), req));
        case At(_, _, _) =>
          stored := HandleMiss(resp, req, path, d, key, now, boundary);
      }
    }

    method Destined(path: string, urlPath: string, ghost now: int) returns (d: Destination)
      requires Valid()
      ensures d == Resolve(env, path, urlPath)
      ensures Second(urlPath, now) == old(Second(urlPath, now)) && Held() == old(Held())
      ensures Valid()
    {
      hide Env.Valid;
      env.Basics();
      ghost var other := SecondKey(env, urlPath);
      ghost var f := if other.Some? then Stored(other.value) else None;
      assert f.Some? ==> allocated(f.value);
      d := ResolveIndexPath(env, path, urlPath);
    }

    /** The second lookup, and disk serving when it fails too. */
    method HandleMiss(resp: Response, req: Request, path: string, d: Destination, key: string, now: int,
                      boundary: string)
      returns (ghost stored: Option<CachedFile>)
      requires Valid() && SourceOK(env, req.urlPath, Ok(path)) && key == KeyForPath(req.urlPath, env.indexFile)
      requires d.At? && d == Resolve(env, path, req.urlPath)
      modifies resp, cache
      ensures resp.Value() == MissReply(env, old(resp.Value()), req, path, old(Second(req.urlPath, now)), boundary)
      ensures Repeats(Ok(path), req.urlPath, now)
      ensures stored.Some? ==> StoresLoaded(env, Ok(path), req.urlPath, stored.value)
      ensures old(Held()).Valid() && Held() == AfterMiss(old(Held()), key, d.canonical,
                                                         old(Second(req.urlPath, now)).Some?, stored, Limit())
      ensures Valid()
    {
      hide Env.Valid, EntriesOK, PathsOK, DiskReply, CachedReply, KeyForPath, IndexURL;
      stored := None;
      DestinationOK(env, req.urlPath, path);
      SecondKeyIs(env, req.urlPath, path);
      var second: Option<Content> := None;
      if d.canonical != key {
        second := Lookup(d.canonical, now, d.canonical);
      }
      if second.Some? {
        ServeHit(resp, req, second.value, d.canonical, now, boundary);
      } else {
        stored := ServeFromDisk(resp, req, d.path, d.canonical, d.stat, now, boundary);
      }
    }
  }
}
