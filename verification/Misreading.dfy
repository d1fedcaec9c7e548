/**
 Both caches against none: a reply differs exactly when a hit shows or when a
 path of the path cache is misread, which can happen to relative paths only.
 */
module Misreading {
  import opened Wrappers
  import opened Text
  import opened Paths
  import opened PathSafety
  import opened PathCaching
  import opened CacheKey
  import opened FileCache
  import opened Http
  import opened Streaming
  import opened Serving
  import opened FileHandling
  import opened Transparency

  // ---------------------------------------------------------------------------
  // Small files
  // ---------------------------------------------------------------------------

  /** The client is sent a sidecar that is not the file's. */
  predicate SmallMisread(env: Env, req: Request, path: string, file: DiskFile) {
    file.access.Readable? && SentWrong(env, req, Load(env, path, file, req.urlPath))
  }

  lemma LoadsSame(env: Env, path: string, absolute: string, file: DiskFile, key: string)
    ensures SameSource(Load(env, path, file, key), Load(env, absolute, file, key))
  {
    hide SidecarAt;
  }

  lemma LoadedVariant(env: Env, path: string, file: DiskFile, key: string, c: Coding)
    requires env.codecs.Lossless()
    ensures Decodes(env.codecs, c, VariantOf(Load(env, path, file, key), c), file.data)
            <==> (UsesSidecars(env, file) ==> Decodes(env.codecs, c, SidecarAt(env, path, c, |file.data|), file.data))
  {
    hide SidecarAt;
  }

  /** Only a GET for the whole file, and only by the very sidecar of the coding chosen. */
  lemma SmallMisreadMeaning(env: Env, req: Request, path: string, file: DiskFile)
    requires env.codecs.Lossless()
    ensures var c := Negotiated(Load(env, path, file, req.urlPath), req, env.compression, env.weigh);
            SmallMisread(env, req, path, file)
            <==> && file.access.Readable? && !req.isHead && req.range == "" && c.Some? && UsesSidecars(env, file)
                 && !Decodes(env.codecs, c.value, SidecarAt(env, path, c.value, |file.data|), file.data)
  {
    hide SidecarAt, Negotiated, Decodes;
    var c := Negotiated(Load(env, path, file, req.urlPath), req, env.compression, env.weigh);
    if c.Some? {
      LoadedVariant(env, path, file, req.urlPath, c.value);
    }
  }

  // ---------------------------------------------------------------------------
  // Large files
  // ---------------------------------------------------------------------------

  /** The large file gets opened: to learn its type, or to send bytes of it. */
  predicate Opened(env: Env, base: Reply, req: Request, file: DiskFile) {
    && (env.maxServeSize <= 0 || |file.data| <= env.maxServeSize)
    && (file.extType.Some? ==>
          && !NotModified(req, LargeContent(env, file, req.urlPath), env.etags) && !req.isHead
          && !LargeSelection(env, base, req, file, req.urlPath).Refused?)
  }

  /** The check next to the opening of a file. */
  predicate Rechecks(env: Env, path: string) {
    HasPrefix(CleanAny(path), env.RootSep())
  }

  /** The check before opening fails for the path although it holds for its absolute form. */
  predicate LargeMisread(env: Env, base: Reply, req: Request, path: string, file: DiskFile) {
    && Rechecks(env, env.site.links.Absolute(path)) && !Rechecks(env, path)
    && Opened(env, base, req, file) && !file.access.Denied?
  }

  function Large(env: Env, base: Reply, req: Request, file: DiskFile, contained: bool, boundary: string): Reply {
    LargeReply(base, req, file, LargeContent(env, file, req.urlPath), contained, env.maxServeSize, env.etags, boundary)
  }

  /** Without containment an opened file is refused, and only then does containment show. */
  lemma LargeIff(env: Env, base: Reply, req: Request, file: DiskFile, boundary: string)
    ensures Agrees(Large(env, base, req, file, false, boundary), Large(env, base, req, file, true, boundary),
                   req.isHead, env.codecs)
            <==> !(Opened(env, base, req, file) && !file.access.Denied?)
  {
  }

  // ---------------------------------------------------------------------------
  // Any path of the path cache
  // ---------------------------------------------------------------------------

  predicate FileMisread(env: Env, base: Reply, req: Request, path: string, file: DiskFile) {
    if Small(env, file) then SmallMisread(env, req, path, file) else LargeMisread(env, base, req, path, file)
  }

  /** Both lookups fail, and the file at the path is not served as its absolute path would be. */
  predicate Misread(env: Env, base: Reply, req: Request, path: string, first: Option<Content>,
                    second: Option<Content>)
  {
    && first.None? && second.None? && env.StatOf(path).Regular?
    && FileMisread(env, base, req, path, env.StatOf(path).file)
  }

  lemma RecheckKept(env: Env, path: string)
    requires env.Valid() && Rechecks(env, path)
    ensures Rechecks(env, env.site.links.Absolute(path))
  {
    RecheckAbsolute(env, path);
    CleanIdempotent(path);
    env.site.RootsAreClean();
    env.site.links.AbsoluteIsClean(path);
    env.site.links.CleanIsAbs(env.site.links.Absolute(path));
  }

  lemma LargeServedIff(env: Env, base: Reply, req: Request, path: string, file: DiskFile, boundary: string)
    requires env.Valid()
    ensures Agrees(Large(env, base, req, file, Rechecks(env, path), boundary),
                   Large(env, base, req, file, Rechecks(env, env.site.links.Absolute(path)), boundary), req.isHead,
                   env.codecs)
            <==> !LargeMisread(env, base, req, path, file)
  {
    hide Env.Valid, Rechecks, Large, Opened, Agrees;
    if Rechecks(env, path) {
      RecheckKept(env, path);
    }
    LargeIff(env, base, req, file, boundary);
    SelfAgrees(Large(env, base, req, file, true, boundary), req.isHead, env.codecs);
    SelfAgrees(Large(env, base, req, file, false, boundary), req.isHead, env.codecs);
  }

  /** Disk serving from a path and from its absolute form. */
  lemma DiskIff(env: Env, base: Reply, req: Request, path: string, boundary: string)
    requires env.Valid() && Fresh(base) && env.site.Path(req.urlPath) == Ok(env.site.links.Absolute(path))
    ensures var stat := env.StatOf(path);
            Agrees(DiskReply(env, base, req, path, req.urlPath, stat, boundary),
                   DiskReply(env, base, req, env.site.links.Absolute(path), req.urlPath, stat, boundary), req.isHead,
                   env.codecs)
            <==> !(stat.Regular? && FileMisread(env, base, req, path, stat.file))
  {
    hide Env.Valid, Agrees, Load, HitReply, LargeReply, LargeMisread, Sound, GzipReady, SentWrong;
    var stat, absolute := env.StatOf(path), env.site.links.Absolute(path);
    env.Basics();
    env.site.PathIsAbsolute(req.urlPath);
    SelfAgrees(DiskReply(env, base, req, path, req.urlPath, stat, boundary), req.isHead, env.codecs);
    if stat.Regular? {
      if !Small(env, stat.file) {
        LargeServedIff(env, base, req, path, stat.file, boundary);
      } else if stat.file.access.Readable? {
        PathSound(env, req.urlPath, req.urlPath);
        LoadsSame(env, path, absolute, stat.file, req.urlPath);
        HitsAgreeIff(env, Marked(base), Marked(base), req, Load(env, path, stat.file, req.urlPath),
                     Load(env, absolute, stat.file, req.urlPath), boundary);
      }
    }
  }

  /** A path that leads to the URL's file is served like its absolute form if and only if it is not misread. */
  lemma PathInvisibleIff(env: Env, base: Reply, req: Request, path: string, first: Option<Content>,
                         second: Option<Content>, boundary: string)
    requires env.Valid() && Fresh(base) && env.site.Path(req.urlPath) == Ok(env.site.links.Absolute(path))
    ensures Agrees(WarmReply(env, base, req, Ok(path), first, second, boundary),
                   WarmReply(env, base, req, env.site.Path(req.urlPath), first, second, boundary), req.isHead,
                   env.codecs)
            <==> !Misread(env, base, req, path, first, second)
  {
    hide Env.Valid, Agrees, CachedReply, DiskReply, FileMisread, IndexURL;
    env.Basics();
    env.site.PathIsAbsolute(req.urlPath);
    ResolveSame(env, path, env.site.links.Absolute(path), req.urlPath);
    SelfAgrees(WarmReply(env, base, req, Ok(path), first, second, boundary), req.isHead, env.codecs);
    DiskIff(env, base, req, path, boundary);
  }

  /** Absolute paths are not misread, and neither are relative ones to small files with honest sidecars. */
  lemma HarmlessNotMisread(env: Env, base: Reply, req: Request, path: string, first: Option<Content>,
                           second: Option<Content>)
    requires env.Valid() && Fresh(base) && env.site.Path(req.urlPath) == Ok(env.site.links.Absolute(path))
    requires path == CleanAny(path) && Harmless(env, path)
    ensures !Misread(env, base, req, path, first, second)
  {
    hide Env.Valid, Agrees, WarmReply, SmallMisread, HonestAt, LargeMisread;
    if IsAbs(path) {
      hide FileMisread;
      PathInvisibleIff(env, base, req, path, first, second, "");
      SelfAgrees(WarmReply(env, base, req, Ok(path), first, second, ""), req.isHead, env.codecs);
    } else if env.StatOf(path).Regular? {
      env.Basics();
      HonestNotMisread(env, req, path, env.StatOf(path).file);
    }
  }

  lemma HonestNotMisread(env: Env, req: Request, path: string, file: DiskFile)
    requires env.codecs.Lossless() && (UsesSidecars(env, file) ==> HonestAt(env, path, file))
    ensures !SmallMisread(env, req, path, file)
  {
    hide SidecarAt, Decodes, SmallMisread, Negotiated;
    SmallMisreadMeaning(env, req, path, file);
  }

  // ---------------------------------------------------------------------------
  // Both caches
  // ---------------------------------------------------------------------------

  /** The reply differs from that of a server without caches: by a hit, or by the path. */
  predicate Differs(env: Env, base: Reply, req: Request, source: Result<string, PathError>, first: Option<Content>,
                    second: Option<Content>)
  {
    Shows(env, req, first, second) || (source.Ok? && Misread(env, base, req, source.value, first, second))
  }

  /**
   Whatever path the path cache gives, relative ones included, and whatever the
   two lookups find: the reply agrees with the one of a server without caches if
   and only if no hit shows and the path is not misread. This is for every
   normalised URL, any headers and methods, listings on or off.
   */
  lemma CacheInvisibleIff(env: Env, base: Reply, req: Request, source: Result<string, PathError>,
                          first: Option<Content>, second: Option<Content>, boundary: string)
    requires env.Valid() && (env.listing ==> ListingsUndated(env)) && Normalised(req.urlPath) && Fresh(base)
    requires Leads(env.site, req.urlPath, source) && LookupsOf(env, req.urlPath, first, second)
    ensures Agrees(WarmReply(env, base, req, source, first, second, boundary), ColdReply(env, base, req, boundary),
                   req.isHead, env.codecs)
            <==> !Differs(env, base, req, source, first, second)
  {
    hide Env.Valid, LookupsOf, Shows, FileMisread, Normalised;
    HitsInvisibleIff(env, base, req, first, second, boundary);
    if source.Ok? {
      PathInvisibleIff(env, base, req, source.value, first, second, boundary);
    }
  }

  // ---------------------------------------------------------------------------
  // How a reply differs
  // ---------------------------------------------------------------------------

  /** A compressed answer to a GET, with status and headers as it should be: only the coded bytes can be wrong. */
  predicate Coded(req: Request, warm: Reply, cold: Reply) {
    && !req.isHead && req.range == "" && warm.headers.contentEncoding.Some?
    && warm.status == 200 && cold.status == 200 && Bare(warm.headers) == Bare(cold.headers)
  }

  /** The hit is a 304. */
  predicate HitCurrent(env: Env, req: Request, first: Option<Content>, second: Option<Content>) {
    var path := env.site.Path(req.urlPath);
    path.Ok? &&
    if first.Some? then NotModified(req, first.value, env.etags)
    else
      && second.Some? && Resolve(env, path.value, req.urlPath).At? && NotModified(req, second.value, env.etags)
  }

  lemma WrongIsCoded(env: Env, base: Reply, marked: Reply, req: Request, a: Content, b: Content, boundary: string)
    requires Fresh(base) && (marked == base || marked == Marked(base)) && SameSource(a, b) && SentWrong(env, req, a)
    ensures Coded(req, HitReply(base, req, a, env.compression, env.etags, env.weigh, boundary),
                  HitReply(marked, req, b, env.compression, env.etags, env.weigh, boundary))
  {
    hide Decodes, Negotiated;
  }

  lemma HitCoded(env: Env, base: Reply, req: Request, content: Content, boundary: string, d: Destination)
    requires env.site.Path(req.urlPath).Ok? && Fresh(base)
    requires d == Resolve(env, env.site.Path(req.urlPath).value, req.urlPath) && SameOnDisk(env, d, content)
    requires HitShows(env, req, content) && !NotModified(req, content, env.etags)
    ensures Coded(req, CachedReply(env, base, req, content, boundary), ColdReply(env, base, req, boundary))
  {
    hide SentWrong, HitReply, Load, Coded;
    ColdAt(env, base, req, boundary, d);
    WrongIsCoded(env, base, Marked(base), req, content, Load(env, d.path, d.stat.file, d.canonical), boundary);
  }

  lemma PathCoded(env: Env, base: Reply, req: Request, path: string, boundary: string)
    requires env.Valid() && Fresh(base) && env.site.Path(req.urlPath) == Ok(env.site.links.Absolute(path))
    requires env.StatOf(path).Regular? && Small(env, env.StatOf(path).file)
    requires SmallMisread(env, req, path, env.StatOf(path).file)
    ensures Coded(req, WarmReply(env, base, req, Ok(path), None, None, boundary), ColdReply(env, base, req, boundary))
  {
    hide Env.Valid, SentWrong, HitReply, Load, Coded;
    var file, absolute := env.StatOf(path).file, env.site.links.Absolute(path);
    env.Basics();
    env.site.PathIsAbsolute(req.urlPath);
    LoadsSame(env, path, absolute, file, req.urlPath);
    WrongIsCoded(env, Marked(base), Marked(base), req, Load(env, path, file, req.urlPath),
                 Load(env, absolute, file, req.urlPath), boundary);
  }

  /**
   No listing being due and relative paths leading to no large file, a reply that
   differs is a 304 or an answer to a GET with the right headers and wrong bytes.
   */
  lemma DiffersHow(env: Env, base: Reply, req: Request, path: string, first: Option<Content>,
                   second: Option<Content>, boundary: string)
    requires env.Valid() && Normalised(req.urlPath) && Fresh(base) && Leads(env.site, req.urlPath, Ok(path))
    requires LookupsOf(env, req.urlPath, first, second) && !(first.Some? && ListingDue(env, req.urlPath))
    requires IsAbs(path) || (env.StatOf(path).Regular? ==> Small(env, env.StatOf(path).file))
    requires Differs(env, base, req, Ok(path), first, second) && !HitCurrent(env, req, first, second)
    ensures Coded(req, WarmReply(env, base, req, Ok(path), first, second, boundary),
                  ColdReply(env, base, req, boundary))
  {
    hide Env.Valid, EntryOf, SentWrong, Coded, CachedReply, DiskReply, ColdReply, SmallMisread, Normalised;
    var d := Resolve(env, env.site.Path(req.urlPath).value, req.urlPath);
    env.Basics();
    env.site.PathIsAbsolute(req.urlPath);
    ResolveSame(env, path, env.site.links.Absolute(path), req.urlPath);
    if first.Some? {
      FirstHit(env, req.urlPath, first.value);
      HitCoded(env, base, req, first.value, boundary, d);
    } else if second.Some? {
      SecondHit(env, req.urlPath, second.value);
      HitCoded(env, base, req, second.value, boundary, d);
    } else {
      MisreadSmall(env, base, req, path);
      PathCoded(env, base, req, path, boundary);
    }
  }

  lemma MisreadSmall(env: Env, base: Reply, req: Request, path: string)
    requires env.Valid() && Fresh(base) && Leads(env.site, req.urlPath, Ok(path))
    requires IsAbs(path) || (env.StatOf(path).Regular? ==> Small(env, env.StatOf(path).file))
    requires Misread(env, base, req, path, None, None)
    ensures Small(env, env.StatOf(path).file) && SmallMisread(env, req, path, env.StatOf(path).file)
  {
    hide Env.Valid, SmallMisread, LargeMisread;
    if IsAbs(path) {
      HarmlessNotMisread(env, base, req, path, None, None);
    }
  }

  /** Nothing but a 304 differs where entries are sound and the path is harmless. */
  lemma SoundIsCurrent(env: Env, base: Reply, req: Request, path: string, first: Option<Content>,
                       second: Option<Content>)
    requires env.Valid() && Fresh(base) && Leads(env.site, req.urlPath, Ok(path)) && Harmless(env, path)
    requires LookupsSound(env, req.urlPath, first, second) && !(first.Some? && ListingDue(env, req.urlPath))
    requires Differs(env, base, req, Ok(path), first, second)
    ensures HitCurrent(env, req, first, second)
  {
    hide Env.Valid, Harmless, Sound, SentWrong, Misread, Resolve, NotModified;
    HarmlessNotMisread(env, base, req, path, first, second);
    if first.Some? {
      SoundNotWrong(env, req, first.value);
    } else if second.Some? && Resolve(env, env.site.Path(req.urlPath).value, req.urlPath).At? {
      SoundNotWrong(env, req, second.value);
    }
  }
}
