/**
 The file handler (internal/handler/file.go): from a request to a cached entry,
 or to a file on disk that is loaded, cached and served.
 */
module FileHandling {
  import opened Wrappers
  import opened Text
  import opened Paths
  import opened PathSafety
  import opened PathCaching
  import opened CacheKey
  import opened FileCache
  import opened Http
  import opened Compression
  import opened RangeServing
  import opened Streaming
  import opened Serving
  import opened HeaderLists

  /** What os.Stat says about a path. */
  datatype Stat = Directory | Regular(file: DiskFile) | Missing | NoPermission | StatFails

  /**
   Everything an answer depends on besides the request: the file system, the
   configuration, and the library functions that are not modelled.
   */
  datatype Env = Env(
    site: Site, stat: string -> Stat,
    indexFile: string, maxFileSize: int, maxServeSize: int, etags: bool, listing: bool,
    compression: Settings, precompressed: bool,
    codecs: Codecs, weigh: string -> Weight,
    hash: Bytes -> string, sizeTag: (nat, int) -> string, cacheControl: (string, string) -> string,
    missing: (string, Request) -> Reply, listings: (string, Request) -> Reply)
  {
    function StatAt(p: string): Stat {
      stat(p)
    }

    /** os.Stat, which takes relative paths from the working directory. */
    function StatOf(path: string): Stat {
      StatAt(site.links.Absolute(path))
    }

    /** The real root with a separator, for the checks before opening a file. */
    function RootSep(): string {
      WithSep(site.RealRoot())
    }

    function Index(): string {
      IndexName(indexFile)
    }

    /**
     Files and directories resolve; what lies in a directory lies in a directory
     that resolves, to itself if it is already resolved; no name holds a null byte.
     */
    ghost predicate FilesInDirectories() {
      && (forall p | IsClean(p) && (StatAt(p).Regular? || StatAt(p).Directory?) :: site.links.Eval(p).Resolved?)
      && (forall segs: seq<string>, name: string {:trigger Render(segs + [name])} ::
            AllPlain(segs + [name]) && site.links.Eval(Render(segs + [name])).Resolved? ==>
              Enclosed(Render(segs), Render(segs + [name])))
      && (forall p | IsClean(p) && site.links.Eval(p).Resolved? :: '\0' !in site.links.Eval(p).path)
    }

    predicate Enclosed(dir: string, p: string) {
      && site.links.Eval(dir).Resolved? && StatAt(site.links.Eval(dir).path).Directory?
      && (site.links.Eval(p) == Resolved(p) ==> site.links.Eval(dir) == Resolved(dir))
    }

    /** The sidecars found beside files hold what they should, and files have sizes that fit in an int64. */
    ghost predicate FilesSound() {
      forall p | IsClean(p) && StatAt(p).Regular? ::
        |StatAt(p).file.data| <= MAX_INT64 && (UsesSidecars(this, StatAt(p).file) ==> HonestAt(this, p, StatAt(p).file))
    }

    ghost predicate Valid() {
      && site.Valid() && Plain(Index()) && codecs.Lossless() && FilesInDirectories() && FilesSound()
    }

    lemma Basics()
      requires Valid()
      ensures site.Valid() && Plain(Index()) && codecs.Lossless()
    {
    }
  }

  // ---------------------------------------------------------------------------
  // Sidecars
  // ---------------------------------------------------------------------------

  function Extension(c: Coding): string {
    match c
    case Gzip => ".gz"
    case Brotli => ".br"
    case Zstd => ".zst"
  }

  /** Where a sidecar is looked for: a relative path is taken from the root, not from the working directory. */
  function SidecarPlace(env: Env, sidecar: string): string {
    var clean := CleanAny(sidecar);
    if IsAbs(clean) then clean else JoinPath(env.site.AbsRoot(), clean)
  }

  /** What is read at a validated path, unless it is larger than `limit`; no limit is 0. */
  function ReadUpTo(env: Env, p: string, limit: nat): Option<Bytes> {
    if !HasPrefix(CleanAny(p), env.RootSep()) then None
    else
      match env.StatAt(p)
      case Regular(file) =>
        if file.access.Readable? && (limit == 0 || |file.data| <= limit) then Some(file.data) else None
      case Directory => None
      case Missing => None
      case NoPermission => None
      case StatFails => None
  }

  /** What is read as the sidecar of this name. */
  function ReadSidecar(env: Env, sidecar: string, limit: nat): Option<Bytes> {
    match env.site.links.Eval(SidecarPlace(env, sidecar))
    case Resolved(p) => if UnderRoot(p, env.site.RealRoot()) then ReadUpTo(env, p, limit) else None
    case NotExist => None
    case Unresolvable => None
  }

  /** The sidecar that a path leads to. */
  function SidecarAt(env: Env, path: string, c: Coding, limit: nat): Option<Bytes> {
    ReadSidecar(env, path + Extension(c), limit)
  }

  method ValidateSidecarPath(env: Env, sidecar: string) returns (r: Option<string>)
    requires env.site.Valid()
    ensures r.Some? <==> var at := env.site.links.Eval(SidecarPlace(env, sidecar));
                         at.Resolved? && UnderRoot(at.path, env.site.RealRoot())
    ensures r.Some? ==> env.site.links.Eval(SidecarPlace(env, sidecar)) == Resolved(r.value)
  {
    var clean := CleanAny(sidecar);
    var absPath := clean;
    if !IsAbs(clean) {
      absPath := JoinPath(env.site.AbsRoot(), clean);
    }
    match env.site.links.Eval(absPath) {
      case NotExist =>
        return None;
      case Unresolvable =>
        return None;
      case Resolved(p) =>
        var realRoot := env.site.links.RealRoot(env.site.AbsRoot());
        if p != realRoot && !HasPrefix(p, WithSep(realRoot)) {
          return None;
        }
        return Some(p);
    }
  }

  method LoadSidecar(env: Env, path: string, c: Coding, limit: nat) returns (r: Option<Bytes>)
    requires env.site.Valid()
    ensures r == SidecarAt(env, path, c, limit)
  {
    var validated := ValidateSidecarPath(env, path + Extension(c));
    if validated.None? {
      return None;
    }
    if !HasPrefix(CleanAny(validated.value), env.RootSep()) {
      return None;
    }
    var info := env.StatAt(validated.value);
    if !info.Regular? || !info.file.access.Readable? {
      return None;
    }
    if limit > 0 && |info.file.data| > limit {
      return None;
    }
    return Some(info.file.data);
  }

  /** The sidecars that a path leads to, if small enough, decode to the file. */
  predicate HonestAt(env: Env, path: string, file: DiskFile) {
    && Decodes(env.codecs, Gzip, SidecarAt(env, path, Gzip, |file.data|), file.data)
    && Decodes(env.codecs, Brotli, SidecarAt(env, path, Brotli, |file.data|), file.data)
    && Decodes(env.codecs, Zstd, SidecarAt(env, path, Zstd, |file.data|), file.data)
  }

  /** Beside an absolute path, but for a relative one as if the root were the working directory. */
  lemma SidecarPlaceIs(env: Env, sidecar: string)
    requires env.site.Valid()
    ensures SidecarPlace(env, sidecar) == FromDir(env.site.AbsRoot(), sidecar)
    ensures IsAbs(sidecar) || env.site.AbsRoot() == env.site.links.cwd ==>
              SidecarPlace(env, sidecar) == env.site.links.Absolute(sidecar)
  {
    env.site.RootsAreClean();
    FromDirClean(env.site.AbsRoot(), sidecar);
    CleanAnyIdempotent(sidecar);
  }

  // ---------------------------------------------------------------------------
  // Loading a file
  // ---------------------------------------------------------------------------

  predicate Eligible(env: Env, file: DiskFile) {
    env.compression.on && IsCompressible(file.Type()) && |file.data| >= env.compression.minSize
  }

  predicate UsesSidecars(env: Env, file: DiskFile) {
    Eligible(env, file) && env.precompressed
  }

  function SidecarIf(env: Env, path: string, file: DiskFile, c: Coding): Option<Bytes> {
    if UsesSidecars(env, file) then SidecarAt(env, path, c, |file.data|) else None
  }

  function OrElse(variant: Option<Bytes>, make: bool, made: Bytes): Option<Bytes> {
    if variant.None? && make then Some(made) else variant
  }

  /** The metadata that does not depend on compression. */
  function Described(env: Env, file: DiskFile, key: string, gzip: Option<Bytes>, br: Option<Bytes>,
                     zstd: Option<Bytes>): Content
  {
    Content(file.data, gzip, br, zstd, env.hash(file.data), Some(file.modTime), file.Type(), |file.data|,
            env.cacheControl(key, file.Type()))
  }

  /** What is cached and served for a small file at a path, under a URL. */
  function Load(env: Env, path: string, file: DiskFile, key: string): Content {
    Described(env, file, key,
              OrElse(SidecarIf(env, path, file, Gzip), Eligible(env, file), env.codecs.gzip(file.data)),
              SidecarIf(env, path, file, Brotli),
              OrElse(SidecarIf(env, path, file, Zstd), Eligible(env, file), env.codecs.zstd(file.data)))
  }

  method LoadFile(env: Env, path: string, file: DiskFile, key: string) returns (content: Content)
    requires env.site.Valid()
    ensures content == Load(env, path, file, key)
  {
    var ct := file.Type();
    var gzip: Option<Bytes>, br: Option<Bytes>, zstd: Option<Bytes> := None, None, None;
    if env.compression.on && env.precompressed && IsCompressible(ct) && |file.data| >= env.compression.minSize {
      gzip := LoadSidecar(env, path, Gzip, |file.data|);
      br := LoadSidecar(env, path, Brotli, |file.data|);
      zstd := LoadSidecar(env, path, Zstd, |file.data|);
    }
    if gzip.None? && env.compression.on && IsCompressible(ct) && |file.data| >= env.compression.minSize {
      gzip := Some(env.codecs.gzip(file.data));
    }
    if zstd.None? && env.compression.on && IsCompressible(ct) && |file.data| >= env.compression.minSize {
      zstd := Some(env.codecs.zstd(file.data));
    }
    content := Described(env, file, key, gzip, br, zstd);
  }

  /**
   A loaded file is sound exactly when the sidecars used are honest, and has a
   gzip variant whenever the middleware would make one.
   */
  lemma LoadSoundIff(env: Env, path: string, file: DiskFile, key: string)
    requires env.codecs.Lossless() && |file.data| <= MAX_INT64
    ensures Sound(Load(env, path, file, key), env.codecs)
            <==> (UsesSidecars(env, file) ==> HonestAt(env, path, file))
    ensures GzipReady(Load(env, path, file, key), env.compression)
  {
    hide SidecarAt;
    var gzip, br, zstd := SidecarIf(env, path, file, Gzip), SidecarIf(env, path, file, Brotli),
                          SidecarIf(env, path, file, Zstd);
    assert Decodes(env.codecs, Gzip, OrElse(gzip, Eligible(env, file), env.codecs.gzip(file.data)), file.data)
           <==> Decodes(env.codecs, Gzip, gzip, file.data);
    assert Decodes(env.codecs, Zstd, OrElse(zstd, Eligible(env, file), env.codecs.zstd(file.data)), file.data)
           <==> Decodes(env.codecs, Zstd, zstd, file.data);
  }

  // ---------------------------------------------------------------------------
  // Resolving a request
  // ---------------------------------------------------------------------------

  /** Where a request leads: refused, a directory to list, or a path with its canonical URL. */
  datatype Destination = Barred(error: PathError) | Listing | At(path: string, canonical: string, stat: Stat)

  function Resolve(env: Env, path: string, urlPath: string): Destination {
    if env.StatOf(path).Directory? then
      if env.listing then Listing
      else
        var url := IndexURL(urlPath, env.indexFile);
        match env.site.Path(url)
        case Err(e) => Barred(e)
        case Ok(index) => At(index, url, env.StatOf(index))
    else At(path, urlPath, env.StatOf(path))
  }

  method ResolveIndexPath(env: Env, path: string, urlPath: string) returns (d: Destination)
    requires env.site.Valid()
    ensures d == Resolve(env, path, urlPath)
  {
    env.site.RootsAreClean();
    var info := env.StatOf(path);
    if info.Directory? {
      if env.listing {
        return Listing;
      }
      var url := IndexURL(urlPath, env.indexFile);
      var r := PathSafe(env.site.links, url, env.site.AbsRoot(), env.site.block);
      match r {
        case Err(e) => return Barred(e);
        case Ok(safe) => return At(safe.path, url, env.StatOf(safe.path));
      }
    }
    return At(path, urlPath, info);
  }

  // ---------------------------------------------------------------------------
  // Replies
  // ---------------------------------------------------------------------------

  function SecurityReply(e: PathError): Reply {
    match e
    case NullByte => ErrorReply(400, "Bad Request: path contains null byte")
    case Traversal => ErrorReply(403, "Forbidden: path traversal detected")
    case Dotfile => ErrorReply(403, "Forbidden: dotfile access denied")
  }

  /** A reply from the cache: 304 when the client's copy is current, the file otherwise. */
  function CachedReply(env: Env, base: Reply, req: Request, content: Content, boundary: string): Reply {
    if NotModified(req, content, env.etags) then NotModifiedReply(base, content, env.etags)
    else HitReply(base, req, content, env.compression, env.etags, env.weigh, boundary)
  }

  /** The validators of a file too large to be read: its size and time. */
  function LargeContent(env: Env, file: DiskFile, key: string): Content {
    Content("", None, None, None, env.sizeTag(|file.data|, file.modTime), Some(file.modTime), file.Type(), |file.data|,
            env.cacheControl(key, file.Type()))
  }

  predicate Small(env: Env, file: DiskFile) {
    |file.data| <= env.maxFileSize
  }

  function Marked(base: Reply): Reply {
    base.(headers := base.headers.(cacheHit := Some(false)))
  }

  /** serveFromDisk. */
  function DiskReply(env: Env, base: Reply, req: Request, path: string, canonical: string, stat: Stat,
                     boundary: string): Reply
  {
    match stat
    case Missing => env.missing(canonical, req)
    case NoPermission => FORBIDDEN
    case StatFails => INTERNAL_ERROR
    case Directory => INTERNAL_ERROR
    case Regular(file) =>
      if !Small(env, file) then
        LargeReply(base, req, file, LargeContent(env, file, canonical), HasPrefix(CleanAny(path), env.RootSep()),
                   env.maxServeSize, env.etags, boundary)
      else
        match file.access
        case Denied => FORBIDDEN
        case Broken => INTERNAL_ERROR
        case Readable =>
          HitReply(Marked(base), req, Load(env, path, file, canonical), env.compression, env.etags, env.weigh, boundary)
  }

  /** The reply for a safe path when the first lookup fails and the second one gives `second`. */
  function MissReply(env: Env, base: Reply, req: Request, path: string, second: Option<Content>,
                     boundary: string): Reply
  {
    match Resolve(env, path, req.urlPath)
    case Barred(e) => SecurityReply(e)
    case Listing => env.listings(env.site.links.Absolute(path), req)
    case At(at, canonical, stat) =>
      if second.Some? then CachedReply(env, base, req, second.value, boundary)
      else DiskReply(env, base, req, at, canonical, stat, boundary)
  }

  function PathReply(env: Env, base: Reply, req: Request, path: string, first: Option<Content>,
                     second: Option<Content>, boundary: string): Reply
  {
    if first.Some? then CachedReply(env, base, req, first.value, boundary)
    else MissReply(env, base, req, path, second, boundary)
  }

  /** The reply when the request gets `path` and its two lookups give `first` and `second`. */
  function WarmReply(env: Env, base: Reply, req: Request, path: Result<string, PathError>, first: Option<Content>,
                     second: Option<Content>, boundary: string): Reply
  {
    match path
    case Err(e) => SecurityReply(e)
    case Ok(p) => PathReply(env, base, req, p, first, second, boundary)
  }

  /** The reply with both caches disabled. */
  function ColdReply(env: Env, base: Reply, req: Request, boundary: string): Reply {
    WarmReply(env, base, req, env.site.Path(req.urlPath), None, None, boundary)
  }

  // ---------------------------------------------------------------------------
  // Large and small files
  // ---------------------------------------------------------------------------

  /** Two validators for one file give If-Range the same verdict: only the date matters. */
  lemma SameIfRange(env: Env, req: Request, base: Headers, path: string, file: DiskFile, key: string, h: Headers)
    requires base.etag.None? && h == LargeHeaders(base, file, LargeContent(env, file, key), env.etags)
    ensures IfRangeAllows(req, h)
            <==> IfRangeAllows(req, HitHeaders(base, Load(env, path, file, key), None, env.etags))
  {
    IfRangeMeaning(req, base, LargeContent(env, file, key), env.etags);
    IfRangeMeaning(req, base.(cacheHit := Some(true)), Load(env, path, file, key), env.etags);
  }

  /** The large file's selection of bytes. */
  function LargeSelection(env: Env, base: Reply, req: Request, file: DiskFile, key: string): (sel: Selection)
    ensures Fits(sel, |file.data|)
  {
    var allowed := IfRangeAllows(req, LargeHeaders(base.headers, file, LargeContent(env, file, key), env.etags));
    SelectFits(req.range, allowed, |file.data|);
    Select(req.range, allowed, |file.data|)
  }

  predicate Servable(env: Env, file: DiskFile) {
    file.access.Readable? && |file.data| <= MAX_INT64 && (env.maxServeSize <= 0 || |file.data| <= env.maxServeSize)
  }

  lemma LargeAnswers(env: Env, base: Reply, req: Request, file: DiskFile, key: string, boundary: string)
    requires Fresh(base) && Servable(env, file) && !NotModified(req, LargeContent(env, file, key), env.etags)
    requires Announceable(LargeSelection(env, base, req, file, key), file.data, boundary, file.Type())
    ensures OnWire(req.isHead, LargeReply(base, req, file, LargeContent(env, file, key), true, env.maxServeSize,
                                          env.etags, boundary))
            == Answer(LargeSelection(env, base, req, file, key), req.isHead, file.data, file.Type(), boundary)
  {
    var h := LargeHeaders(base.headers, file, LargeContent(env, file, key), env.etags);
    var sel := LargeSelection(env, base, req, file, key);
    StreamedAnswers(base.(headers := h), sel, req.isHead, file.data, None, boundary);
  }

  lemma SmallAnswers(env: Env, base: Reply, req: Request, path: string, file: DiskFile, key: string, boundary: string)
    requires Fresh(base) && base.headers.etag.None? && (env.compression.on ==> req.range != "")
    ensures OnWire(req.isHead, HitReply(base, req, Load(env, path, file, key), env.compression, env.etags, env.weigh,
                                        boundary))
            == Answer(LargeSelection(env, base, req, file, key), req.isHead, file.data, file.Type(), boundary)
  {
    var content := Load(env, path, file, key);
    var coding := Negotiated(content, req, env.compression, env.weigh);
    var large := LargeHeaders(base.headers, file, LargeContent(env, file, key), env.etags);
    SameIfRange(env, req, base.headers, path, file, key, large);
    if req.range != "" {
      var h := HitHeaders(base.headers, content, coding, env.etags).(contentEncoding := None);
      InMemoryAnswers(base.(headers := h), LargeSelection(env, base, req, file, key), req.isHead, file.data, boundary);
    }
  }

  /**
   Whether a file counts as large or as small does not show: with identity
   coding both ways of serving it put the same answer on the wire, although
   their tags differ.
   */
  lemma LargeLikeSmall(env: Env, base: Reply, req: Request, path: string, file: DiskFile, key: string,
                       boundary: string)
    requires Fresh(base) && base.headers.etag.None? && (env.compression.on ==> req.range != "")
    requires Servable(env, file) && !NotModified(req, LargeContent(env, file, key), env.etags)
    requires Announceable(LargeSelection(env, base, req, file, key), file.data, boundary, file.Type())
    ensures OnWire(req.isHead, LargeReply(base, req, file, LargeContent(env, file, key), true, env.maxServeSize,
                                          env.etags, boundary))
            == OnWire(req.isHead, HitReply(base, req, Load(env, path, file, key), env.compression, env.etags, env.weigh,
                                        boundary))
  {
    LargeAnswers(env, base, req, file, key, boundary);
    SmallAnswers(env, base, req, path, file, key, boundary);
  }
}
