/**
 The caches are invisible: whatever they hold, a request is answered as with the
 caches disabled, up to the choice of a content coding, unless a hit shows; and
 exactly when it does.
 */
module Transparency {
  import opened Wrappers
  import opened Text
  import opened Paths
  import opened PathSafety
  import opened PathCaching
  import opened CacheKey
  import opened FileCache
  import opened Http
  import opened Compression
  import opened Streaming
  import opened Serving
  import opened FileHandling
  import opened HeaderLists

  // ---------------------------------------------------------------------------
  // Replies that agree
  // ---------------------------------------------------------------------------

  /** The headers without the cache mark and those that depend on the coding. */
  function Bare(h: Headers): Headers {
    h.(cacheHit := None, contentEncoding := None, contentLength := None)
  }

  /** The same status, headers and, in answer to a GET, decoded bytes. */
  predicate Agrees(a: Reply, b: Reply, isHead: bool, codecs: Codecs) {
    && a.status == b.status && Bare(a.headers) == Bare(b.headers)
    && (isHead || Decoded(a, codecs) == Decoded(b, codecs))
  }

  /** The compression middleware keeps replies that agree in agreement. */
  lemma ProcessedAgree(a: Reply, b: Reply, isHead: bool, willing: bool, s: Settings, codecs: Codecs)
    requires codecs.Lossless() && Agrees(a, b, isHead, codecs)
    ensures Agrees(Processed(a, willing, s, codecs), Processed(b, willing, s, codecs), isHead, codecs)
  {
    ProcessedKeeps(a, willing, s, codecs);
    ProcessedKeeps(b, willing, s, codecs);
  }

  lemma ProcessedKeeps(r: Reply, willing: bool, s: Settings, codecs: Codecs)
    requires codecs.Lossless()
    ensures var p := Processed(r, willing, s, codecs);
            p.status == r.status && Bare(p.headers) == Bare(r.headers) && Decoded(p, codecs) == Decoded(r, codecs)
  {
    if willing && Qualifies(r, s) {
      ZippedDecodes(r, codecs);
    }
  }

  /** The same file, possibly with other variants. */
  predicate SameSource(a: Content, b: Content) {
    && a.data == b.data && a.size == b.size && a.etag == b.etag && a.lastModified == b.lastModified
    && a.contentType == b.contentType && a.cacheControl == b.cacheControl
  }

  lemma SelfAgrees(r: Reply, isHead: bool, codecs: Codecs)
    ensures Agrees(r, r, isHead, codecs)
  {
  }

  /** Sent whole, a file differs from a sound copy exactly in a wrong variant. */
  lemma WholeIff(base: Reply, marked: Reply, isHead: bool, a: Content, b: Content, ca: Option<Coding>,
                 cb: Option<Coding>, etags: bool, codecs: Codecs)
    requires Fresh(base) && (marked == base || marked == Marked(base)) && SameSource(a, b) && Sound(b, codecs)
    requires (ca.Some? ==> VariantOf(a, ca.value).Some?) && (cb.Some? ==> VariantOf(b, cb.value).Some?)
    ensures Agrees(WholeReply(base, isHead, a, ca, etags), WholeReply(marked, isHead, b, cb, etags), isHead, codecs)
            <==> isHead || ca.None? || Decodes(codecs, ca.value, VariantOf(a, ca.value), a.data)
  {
    EncodedDecodes(b, cb, codecs);
  }

  lemma PartialAgrees(base: Reply, marked: Reply, req: Request, a: Content, b: Content, ca: Option<Coding>,
                      cb: Option<Coding>, etags: bool, boundary: string)
    requires Fresh(base) && (marked == base || marked == Marked(base)) && SameSource(a, b)
    ensures PartialReply(base, req, a, ca, etags, boundary) == PartialReply(marked, req, b, cb, etags, boundary)
  {
    var ha := HitHeaders(base.headers, a, ca, etags).(contentEncoding := None);
    var hb := HitHeaders(marked.headers, b, cb, etags).(contentEncoding := None);
    assert ha == hb;
    assert base.(headers := ha) == marked.(headers := hb);
  }

  /** The client is sent a variant that is not the file's. */
  predicate SentWrong(env: Env, req: Request, content: Content) {
    var c := Negotiated(content, req, env.compression, env.weigh);
    && !req.isHead && req.range == "" && c.Some?
    && !Decodes(env.codecs, c.value, VariantOf(content, c.value), content.data)
  }

  lemma SoundNotWrong(env: Env, req: Request, content: Content)
    requires Sound(content, env.codecs)
    ensures !SentWrong(env, req, content)
  {
  }

  /**
   Served from an entry and from a sound one for the same file, a request gets
   replies that agree if and only if it is not sent a wrong variant.
   */
  lemma HitsAgreeIff(env: Env, base: Reply, marked: Reply, req: Request, a: Content, b: Content, boundary: string)
    requires Fresh(base) && (marked == base || marked == Marked(base)) && SameSource(a, b) && Sound(b, env.codecs)
    ensures Agrees(HitReply(base, req, a, env.compression, env.etags, env.weigh, boundary),
                   HitReply(marked, req, b, env.compression, env.etags, env.weigh, boundary), req.isHead, env.codecs)
            <==> !SentWrong(env, req, a)
  {
    hide Decodes, WholeReply, PartialReply, Sound, Fresh, Agrees, Negotiated;
    var ca, cb := Negotiated(a, req, env.compression, env.weigh), Negotiated(b, req, env.compression, env.weigh);
    if req.range == "" {
      WholeIff(base, marked, req.isHead, a, b, ca, cb, env.etags, env.codecs);
    } else {
      PartialAgrees(base, marked, req, a, b, ca, cb, env.etags, boundary);
      SelfAgrees(PartialReply(base, req, a, ca, env.etags, boundary), req.isHead, env.codecs);
    }
  }

  // ---------------------------------------------------------------------------
  // The invariant: what a cache entry may be
  // ---------------------------------------------------------------------------

  /** The URL leads, without index completion, to a small readable file. */
  predicate LeadsTo(env: Env, key: string, file: DiskFile) {
    && env.site.Path(key).Ok? && env.StatOf(env.site.Path(key).value) == Regular(file)
    && Small(env, file) && file.access.Readable?
  }

  predicate HoldsFile(env: Env, key: string, content: Content) {
    var p := env.site.Path(key);
    && p.Ok? && env.StatOf(p.value).Regular? && LeadsTo(env, key, env.StatOf(p.value).file)
    && SameSource(content, Load(env, p.value, env.StatOf(p.value).file, key))
  }

  /** An entry the preloader adds for a directory; requests never look such a key up. */
  predicate IsAlias(env: Env, key: string) {
    && HasSuffix(key, "/") && env.site.Path(key).Ok? && env.StatOf(env.site.Path(key).value).Directory?
  }

  /** Loaded from the file the URL leads to, by whatever path. */
  predicate EntryOf(env: Env, key: string, content: Content) {
    HoldsFile(env, key, content) || IsAlias(env, key)
  }

  /** The entry invariant; entries are sound unless a path of the path cache can be misread. */
  ghost predicate EntryOK(env: Env, key: string, content: Content) {
    && EntryOf(env, key, content) && |content.data| <= MAX_INT64 && GzipReady(content, env.compression)
    && (WarmsHarmlessly(env) ==> Sound(content, env.codecs))
  }

  // ---------------------------------------------------------------------------
  // Keys and paths
  // ---------------------------------------------------------------------------

  /** The root's segments. */
  function RootSegments(env: Env): seq<string> {
    Segments(env.site.RealRoot())
  }

  predicate OnDisk(stat: Stat) {
    stat.Regular? || stat.Directory?
  }

  /** A path that is a file or directory on disk was found by following links to the end. */
  lemma FileWasFound(env: Env, key: string)
    requires env.Valid() && env.site.Path(key).Ok? && OnDisk(env.StatOf(env.site.Path(key).value))
    ensures env.site.links.Eval(Render(Target(RootSegments(env), key))) == Resolved(env.site.Path(key).value)
  {
    hide HasDot, Segments;
    env.site.RootsAreClean();
    env.site.PathIsAbsolute(key);
    SegmentsPlain(env.site.RealRoot());
    var path := env.site.Path(key).value;
    assert env.site.links.Eval(path).Resolved?;
    Contained(env.site.links, key, RootSegments(env), env.site.block);
    AcceptedIff(env.site.links, key, RootSegments(env), env.site.block, path, true);
  }

  lemma RegroupTarget(root: seq<string>, segs: seq<string>, name: string)
    ensures root + (segs + [name]) == (root + segs) + [name]
  {
  }

  lemma PlainIndexBelow(env: Env, urlPath: string)
    requires env.Valid()
    ensures AllPlain((RootSegments(env) + Segments(urlPath)) + [env.Index()])
  {
    SegmentsPlain(env.site.RealRoot());
    SegmentsPlain(urlPath);
  }

  /** An accepted path whose target resolves is what the target resolves to. */
  lemma PathAtTarget(env: Env, urlPath: string, p: string)
    requires env.Valid() && env.site.Path(urlPath).Ok?
    requires env.site.links.Eval(Render(RootSegments(env) + Segments(urlPath))) == Resolved(p)
    ensures env.site.Path(urlPath).value == p && env.site.links.Absolute(p) == p
  {
    var target := RootSegments(env) + Segments(urlPath);
    SegmentsSlashFirst(urlPath);
    assert Target(RootSegments(env), urlPath) == target;
    assert IsAbs(Render(target)) && env.site.links.Settled(env.site.links.Eval(Render(target)));
    assert env.site.Path(urlPath).value == Render(Segments(p)) == p;
    env.site.PathIsAbsolute(urlPath);
  }

  /** What holds an existing index is a directory. */
  lemma DirectoryAbove(env: Env, segs: seq<string>)
    requires env.Valid() && AllPlain(segs + [env.Index()])
    requires env.site.links.Eval(Render(segs + [env.Index()])).Resolved?
    ensures var dir := env.site.links.Eval(Render(segs)); dir.Resolved? && env.StatAt(dir.path).Directory?
  {
  }

  /** If the index of what a URL names is a file, the URL itself leads to a directory. */
  lemma DirectoryOfIndex(env: Env, urlPath: string)
    requires env.Valid() && Normalised(urlPath) && env.site.Path(urlPath).Ok?
    requires var index := env.site.Path(IndexURL(urlPath, env.indexFile)); index.Ok? && env.StatOf(index.value).Regular?
    ensures env.StatOf(env.site.Path(urlPath).value).Directory?
  {
    var root, segs, url := RootSegments(env), Segments(urlPath), IndexURL(urlPath, env.indexFile);
    FileWasFound(env, url);
    PlainIndexBelow(env, urlPath);
    IndexURLIs(urlPath, env.indexFile);
    SegmentsSlashFirst(url);
    RegroupTarget(root, segs, env.Index());
    assert Target(root, url) == (root + segs) + [env.Index()];
    DirectoryAbove(env, root + segs);
    PathAtTarget(env, urlPath, env.site.links.Eval(Render(root + segs)).path);
  }

  lemma IndexURLNoSlash(urlPath: string, indexFile: string)
    requires Plain(IndexName(indexFile))
    ensures !HasSuffix(IndexURL(urlPath, indexFile), "/")
  {
    var url, index := IndexURL(urlPath, indexFile), IndexName(indexFile);
    assert url[|url| - 1] == index[|index| - 1] != '/';
    assert url[|url| - 1..][0] == url[|url| - 1];
  }

  /** The request would be answered from disk with the file that `content` was loaded from. */
  predicate SameOnDisk(env: Env, d: Destination, content: Content) {
    && d.At? && d.stat.Regular? && Small(env, d.stat.file) && d.stat.file.access.Readable?
    && SameSource(content, Load(env, d.path, d.stat.file, d.canonical))
  }

  /** The first lookup: the key is the canonical URL of what disk serving would find. */
  lemma FirstHit(env: Env, urlPath: string, content: Content)
    requires env.Valid() && Normalised(urlPath) && env.site.Path(urlPath).Ok?
    requires EntryOf(env, KeyForPath(urlPath, env.indexFile), content)
    ensures var path := env.site.Path(urlPath).value;
            var d := Resolve(env, path, urlPath);
            if env.listing && env.StatOf(path).Directory? then d.Listing? else SameOnDisk(env, d, content)
  {
    var key := KeyForPath(urlPath, env.indexFile);
    KeyCanonical(urlPath, env.indexFile);
    KeyOfNormalised(urlPath, env.indexFile);
    if Segments(urlPath) == [] || NamesDir(urlPath) {
      DirectoryOfIndex(env, urlPath);
    }
  }

  /** The second lookup, by the canonical URL. */
  lemma SecondHit(env: Env, urlPath: string, content: Content)
    requires env.Valid() && env.site.Path(urlPath).Ok?
    requires var d := Resolve(env, env.site.Path(urlPath).value, urlPath);
             d.At? && EntryOf(env, d.canonical, content)
    ensures SameOnDisk(env, Resolve(env, env.site.Path(urlPath).value, urlPath), content)
  {
    hide Env.Valid;
    env.Basics();
    IndexURLNoSlash(urlPath, env.indexFile);
  }

  /** A file at an accepted path loads soundly. */
  lemma PathSound(env: Env, urlPath: string, key: string)
    requires env.Valid() && env.site.Path(urlPath).Ok? && env.StatOf(env.site.Path(urlPath).value).Regular?
    ensures var path := env.site.Path(urlPath).value;
            var loaded := Load(env, path, env.StatOf(path).file, key);
            Sound(loaded, env.codecs) && GzipReady(loaded, env.compression)
  {
    var path := env.site.Path(urlPath).value;
    env.site.PathIsAbsolute(urlPath);
    LoadSoundIff(env, path, env.StatOf(path).file, key);
  }

  lemma DestinationSound(env: Env, urlPath: string, d: Destination)
    requires env.Valid() && env.site.Path(urlPath).Ok?
    requires d == Resolve(env, env.site.Path(urlPath).value, urlPath) && d.At? && d.stat.Regular?
    ensures var loaded := Load(env, d.path, d.stat.file, d.canonical);
            Sound(loaded, env.codecs) && GzipReady(loaded, env.compression)
  {
    PathSound(env, d.canonical, d.canonical);
  }

  // ---------------------------------------------------------------------------
  // Hits against disk serving
  // ---------------------------------------------------------------------------

  lemma ColdAt(env: Env, base: Reply, req: Request, boundary: string, d: Destination)
    requires env.site.Path(req.urlPath).Ok? && d.At?
    requires d == Resolve(env, env.site.Path(req.urlPath).value, req.urlPath)
    ensures ColdReply(env, base, req, boundary) == DiskReply(env, base, req, d.path, d.canonical, d.stat, boundary)
  {
  }

  /** Disk serving of the entry's file agrees with the hit unless that sends a wrong variant; it is no 304. */
  lemma HitWithCold(env: Env, base: Reply, req: Request, content: Content, boundary: string, d: Destination)
    requires env.Valid() && Fresh(base) && env.site.Path(req.urlPath).Ok?
    requires d == Resolve(env, env.site.Path(req.urlPath).value, req.urlPath) && SameOnDisk(env, d, content)
    ensures Agrees(HitReply(base, req, content, env.compression, env.etags, env.weigh, boundary),
                   ColdReply(env, base, req, boundary), req.isHead, env.codecs)
            <==> !SentWrong(env, req, content)
    ensures ColdReply(env, base, req, boundary).status != 304
  {
    hide Env.Valid, Agrees, SentWrong, HitReply, Sound, GzipReady;
    var loaded := Load(env, d.path, d.stat.file, d.canonical);
    DestinationSound(env, req.urlPath, d);
    ColdAt(env, base, req, boundary, d);
    HitsAgreeIff(env, base, Marked(base), req, content, loaded, boundary);
    HitStatus(Marked(base), req, loaded, env.compression, env.etags, env.weigh, boundary);
  }

  /** What the two lookups of a request may have found: entries loaded from the file of their URL. */
  predicate LookupsOf(env: Env, urlPath: string, first: Option<Content>, second: Option<Content>) {
    && (first.Some? ==> EntryOf(env, KeyForPath(urlPath, env.indexFile), first.value))
    && (second.Some? && env.site.Path(urlPath).Ok? ==>
          var d := Resolve(env, env.site.Path(urlPath).value, urlPath);
          d.At? ==> EntryOf(env, d.canonical, second.value))
  }

  /** They are sound as well, unless a path of the path cache can be misread. */
  ghost predicate LookupsOK(env: Env, urlPath: string, first: Option<Content>, second: Option<Content>) {
    LookupsOf(env, urlPath, first, second) && (WarmsHarmlessly(env) ==> LookupsSound(env, urlPath, first, second))
  }

  predicate LookupsSound(env: Env, urlPath: string, first: Option<Content>, second: Option<Content>) {
    && (first.Some? ==> Sound(first.value, env.codecs))
    && (second.Some? && env.site.Path(urlPath).Ok? && Resolve(env, env.site.Path(urlPath).value, urlPath).At? ==>
          Sound(second.value, env.codecs))
  }

  /** Replies made without a file: they carry no modification date and are no 304. */
  ghost predicate ListingsUndated(env: Env) {
    forall path, req :: env.listings(path, req).headers.lastModified.None? && env.listings(path, req).status != 304
  }

  lemma HitStatus(base: Reply, req: Request, content: Content, s: Settings, etags: bool, weigh: string -> Weight,
                  boundary: string)
    requires content.lastModified.Some?
    ensures var r := HitReply(base, req, content, s, etags, weigh, boundary);
            r.status != 304 && r.headers.lastModified.Some?
  {
    var coding := Negotiated(content, req, s, weigh);
    if req.range == "" {
      WholeStatus(base, req.isHead, content, coding, etags);
    } else {
      PartialStatus(base, req, content, coding, etags, boundary);
    }
  }

  lemma WholeStatus(base: Reply, isHead: bool, content: Content, coding: Option<Coding>, etags: bool)
    requires content.lastModified.Some? && (coding.Some? ==> VariantOf(content, coding.value).Some?)
    ensures var r := WholeReply(base, isHead, content, coding, etags); r.status == 200 && r.headers.lastModified.Some?
  {
  }

  lemma PartialStatus(base: Reply, req: Request, content: Content, coding: Option<Coding>, etags: bool,
                      boundary: string)
    requires content.lastModified.Some?
    ensures var r := PartialReply(base, req, content, coding, etags, boundary);
            r.status in {200, 206, 416} && r.headers.lastModified.Some?
  {
  }

  // ---------------------------------------------------------------------------
  // When the file cache shows
  // ---------------------------------------------------------------------------

  /** A directory listing is due. */
  predicate ListingDue(env: Env, urlPath: string) {
    env.listing && env.site.Path(urlPath).Ok? && env.StatOf(env.site.Path(urlPath).value).Directory?
  }

  /** The hit is a 304, which disk serving of a small file never is, or carries a wrong variant. */
  predicate HitShows(env: Env, req: Request, content: Content) {
    NotModified(req, content, env.etags) || SentWrong(env, req, content)
  }

  /** A hit shows by itself, or because a cached index replaces a listing. */
  predicate Shows(env: Env, req: Request, first: Option<Content>, second: Option<Content>) {
    var path := env.site.Path(req.urlPath);
    path.Ok? &&
    if first.Some? then HitShows(env, req, first.value) || ListingDue(env, req.urlPath)
    else second.Some? && Resolve(env, path.value, req.urlPath).At? && HitShows(env, req, second.value)
  }

  lemma HitIff(env: Env, base: Reply, req: Request, content: Content, boundary: string, d: Destination)
    requires env.Valid() && Fresh(base) && env.site.Path(req.urlPath).Ok?
    requires d == Resolve(env, env.site.Path(req.urlPath).value, req.urlPath) && SameOnDisk(env, d, content)
    ensures Agrees(CachedReply(env, base, req, content, boundary), ColdReply(env, base, req, boundary),
                   req.isHead, env.codecs)
            <==> !HitShows(env, req, content)
  {
    hide Env.Valid, SentWrong, HitReply, Resolve, ColdReply;
    HitWithCold(env, base, req, content, boundary, d);
  }

  lemma ListingHidden(env: Env, base: Reply, req: Request, content: Content, boundary: string)
    requires ListingsUndated(env) && ListingDue(env, req.urlPath) && content.lastModified.Some?
    ensures !Agrees(CachedReply(env, base, req, content, boundary), ColdReply(env, base, req, boundary), req.isHead,
                    env.codecs)
  {
    HitStatus(base, req, content, env.compression, env.etags, env.weigh, boundary);
    var path := env.site.links.Absolute(env.site.Path(req.urlPath).value);
    assert ColdReply(env, base, req, boundary) == env.listings(path, req);
  }

  lemma FirstIff(env: Env, base: Reply, req: Request, content: Content, boundary: string)
    requires env.Valid() && (env.listing ==> ListingsUndated(env)) && Normalised(req.urlPath) && Fresh(base)
    requires env.site.Path(req.urlPath).Ok? && EntryOf(env, KeyForPath(req.urlPath, env.indexFile), content)
    ensures Agrees(CachedReply(env, base, req, content, boundary), ColdReply(env, base, req, boundary),
                   req.isHead, env.codecs)
            <==> !HitShows(env, req, content) && !ListingDue(env, req.urlPath)
  {
    hide Env.Valid;
    env.Basics();
    FirstHit(env, req.urlPath, content);
    if ListingDue(env, req.urlPath) {
      KeyCanonical(req.urlPath, env.indexFile);
      ListingHidden(env, base, req, content, boundary);
    } else {
      HitIff(env, base, req, content, boundary, Resolve(env, env.site.Path(req.urlPath).value, req.urlPath));
    }
  }

  lemma SecondIff(env: Env, base: Reply, req: Request, content: Content, boundary: string)
    requires env.Valid() && Fresh(base) && env.site.Path(req.urlPath).Ok?
    requires var d := Resolve(env, env.site.Path(req.urlPath).value, req.urlPath);
             d.At? && EntryOf(env, d.canonical, content)
    ensures Agrees(CachedReply(env, base, req, content, boundary), ColdReply(env, base, req, boundary),
                   req.isHead, env.codecs)
            <==> !HitShows(env, req, content)
  {
    hide Env.Valid;
    SecondHit(env, req.urlPath, content);
    HitIff(env, base, req, content, boundary, Resolve(env, env.site.Path(req.urlPath).value, req.urlPath));
  }

  /**
   For every normalised URL, any headers, listings on or off and any entries loaded
   from the URL's file: with the path cache aside, a reply agrees with the one given
   with the cache disabled if and only if no hit shows.
   */
  lemma HitsInvisibleIff(env: Env, base: Reply, req: Request, first: Option<Content>, second: Option<Content>,
                         boundary: string)
    requires env.Valid() && (env.listing ==> ListingsUndated(env)) && Normalised(req.urlPath) && Fresh(base)
    requires LookupsOf(env, req.urlPath, first, second)
    ensures Agrees(WarmReply(env, base, req, env.site.Path(req.urlPath), first, second, boundary),
                   ColdReply(env, base, req, boundary), req.isHead, env.codecs)
            <==> !Shows(env, req, first, second)
  {
    hide Env.Valid, CachedReply, DiskReply, EntryOf, HitShows, ListingDue, IndexURL, KeyForPath, Normalised;
    var path := env.site.Path(req.urlPath);
    if path.Ok? && first.Some? {
      FirstIff(env, base, req, first.value, boundary);
    } else if path.Ok? && second.Some? && Resolve(env, path.value, req.urlPath).At? {
      SecondIff(env, base, req, second.value, boundary);
    }
  }

  // ---------------------------------------------------------------------------
  // The path cache: a relative path to the file
  // ---------------------------------------------------------------------------

  /**
   Serving from the path is serving from its absolute form: it is absolute, or
   its file is not one of those for which a relative path is misread.
   */
  predicate Harmless(env: Env, path: string) {
    IsAbs(path) ||
    (env.StatOf(path).Regular? ==>
       var file := env.StatOf(path).file;
       Small(env, file) && (UsesSidecars(env, file) ==> HonestAt(env, path, file)))
  }

  /** A relative path leads to the destination its absolute form leads to, but for its own text. */
  lemma ResolveSame(env: Env, path: string, absolute: string, urlPath: string)
    requires env.site.links.Absolute(path) == absolute == env.site.links.Absolute(absolute)
    ensures var d, e := Resolve(env, path, urlPath), Resolve(env, absolute, urlPath);
            if d.At? then
              && e == d.(path := e.path)
              && e.path == if env.StatOf(path).Directory? then d.path else absolute
            else e == d
  {
  }

  /** The URL leads to a directory or a file that may be cached. */
  predicate Leading(env: Env, key: string) {
    var path := env.site.Path(key);
    path.Ok? && (env.StatOf(path.value).Regular? ==> Small(env, env.StatOf(path.value).file))
  }

  /** The paths that pre-warming stores for such URLs are served like their absolute forms. */
  ghost predicate WarmsHarmlessly(env: Env) {
    forall url | env.site.Found(url).Some? && Leading(env, url) :: Harmless(env, env.site.Found(url).value)
  }

  /** Relative paths lead to no large file, and are harmless unless pre-warming stores others. */
  ghost predicate Tolerable(env: Env, path: string) {
    && (IsAbs(path) || (env.StatOf(path).Regular? ==> Small(env, env.StatOf(path).file)))
    && (WarmsHarmlessly(env) ==> Harmless(env, path))
  }

  /** What the path cache may answer for a URL. */
  ghost predicate SourceOK(env: Env, urlPath: string, source: Result<string, PathError>) {
    Leads(env.site, urlPath, source) && (source.Ok? ==> Tolerable(env, source.value))
  }

  /**
   The containment check right before a large file is opened fails for no safe
   path but the root itself.
   */
  lemma RecheckHolds(env: Env, urlPath: string)
    requires env.Valid() && env.site.Path(urlPath).Ok?
    ensures var path, root := env.site.Path(urlPath).value, env.site.RealRoot();
            HasPrefix(CleanAny(path), env.RootSep()) <==> path != root || root == "/"
  {
    var path, root := env.site.Path(urlPath).value, env.site.RealRoot();
    var segs := RootSegments(env);
    env.site.RootsAreClean();
    env.site.PathIsAbsolute(urlPath);
    SegmentsPlain(root);
    Contained(env.site.links, urlPath, segs, env.site.block);
    SegmentsPlain(path);
    RootOrBelow(segs, Segments(path));
  }

  /** It holds for absolute paths only. */
  lemma RecheckAbsolute(env: Env, path: string)
    requires env.Valid()
    ensures HasPrefix(CleanAny(path), env.RootSep()) ==> IsAbs(path)
  {
    env.site.RootsAreClean();
    CleanAnyIdempotent(path);
    env.site.links.CleanIsAbs(env.site.RealRoot());
    assert env.RootSep()[0] == '/';
    if HasPrefix(CleanAny(path), env.RootSep()) {
      assert CleanAny(path)[0] == env.RootSep()[0];
      assert IsAbs(CleanAny(path));
    }
  }

  lemma RootOrBelow(root: seq<string>, segs: seq<string>)
    requires AllPlain(root) && AllPlain(segs) && root <= segs
    ensures HasPrefix(Render(segs), WithSep(Render(root))) <==> Render(segs) != Render(root) || Render(root) == "/"
  {
    RenderEnd(root);
    SegmentsRender(root);
    SegmentsRender(segs);
    SlashIsRoot(root);
    if root == [] {
      assert HasPrefix(Render(segs), "/");
    } else {
      StringPrefix(root, segs);
      assert root < segs <==> root != segs;
    }
  }
}
