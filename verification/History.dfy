/**
 Whole runs of the server's request path: caches built and preloaded at startup
 (cmd/static-web/main.go), then requests and SIGHUPs in any order.
 */
module History {
  import opened Wrappers
  import opened Text
  import opened Paths
  import opened PathSafety
  import opened PathCaching
  import opened CacheKey
  import opened Lru
  import opened FileCache
  import opened HeaderLists
  import opened Http
  import opened Compression
  import opened Streaming
  import opened Serving
  import opened FileHandling
  import opened Transparency
  import opened Misreading
  import opened Handler
  import opened Preloading

  /** What re-reading the configuration leads to on SIGHUP. */
  datatype Reload = NoReload | ReloadFails | Reloaded

  method FlushFiles(h: FileHandler)
    requires h.Valid()
    modifies h.cache
    ensures h.Valid() && (h.cache != null ==> h.cache.State() == EmptyStore())
  {
    if h.cache != null {
      h.cache.Flush();
    }
  }

  method FlushPaths(h: FileHandler)
    requires h.Valid()
    modifies h.pathCache
    ensures h.Valid() && (h.pathCache != null ==> h.pathCache.lru.entries == [])
  {
    if h.pathCache != null {
      h.pathCache.Flush();
    }
  }

  /** handleHUP: a failed reload keeps everything, otherwise both caches are emptied. */
  method HandleHUP(h: FileHandler, reload: Reload)
    requires h.Valid()
    modifies h.cache, h.pathCache
    ensures h.Valid()
    ensures h.cache != null ==> h.cache.State() == if reload.ReloadFails? then old(h.cache.State()) else EmptyStore()
    ensures h.pathCache != null ==>
              h.pathCache.lru.entries == if reload.ReloadFails? then old(h.pathCache.lru.entries) else []
  {
    if reload.ReloadFails? {
      return;
    }
    FlushFiles(h);
    FlushPaths(h);
  }

  datatype Event = Ask(req: Request, now: int, boundary: string) | Hup(reload: Reload)

  /** The response object a request starts with. */
  const BLANK := Reply(200, NoHeaders(), Buffered(""))

  /** What the file handler starts from, behind the compression middleware. */
  function Opening(willing: bool): Reply {
    if willing then BLANK.(headers := NoHeaders().(varyEncoding := true)) else BLANK
  }

  /** The whole chain without a cache: path check, compression middleware, file handler. */
  function ColdAnswer(env: Env, req: Request, boundary: string): Reply {
    match env.site.Path(req.urlPath)
    case Err(e) => SecurityReply(e)
    case Ok(_) =>
      var willing := Willing(req, env.compression, env.weigh);
      Processed(ColdReply(env, Opening(willing), req, boundary), willing, env.compression, env.codecs)
  }

  predicate AllNormalised(events: seq<Event>) {
    forall i | 0 <= i < |events| && events[i].Ask? :: Normalised(events[i].req.urlPath)
  }

  /** The client's copy of the small file that the request leads to is current. */
  predicate Revalidates(env: Env, req: Request) {
    var path := env.site.Path(req.urlPath);
    path.Ok? &&
    var d := Resolve(env, path.value, req.urlPath);
    && d.At? && d.stat.Regular? && Small(env, d.stat.file) && d.stat.file.access.Readable?
    && NotModified(req, Load(env, d.path, d.stat.file, d.canonical), env.etags)
  }

  /**
   The reply agrees with the one of a server without caches, or is a 304 to a
   client whose copy is current; or, if pre-warming stores paths that are not
   harmless, it is a compressed one with the right status and headers.
   */
  ghost predicate Answers(env: Env, req: Request, boundary: string, r: Reply) {
    || Agrees(r, ColdAnswer(env, req, boundary), req.isHead, env.codecs)
    || (r.status == 304 && Revalidates(env, req))
    || (!WarmsHarmlessly(env) && Coded(req, r, ColdAnswer(env, req, boundary)))
  }

  /** The same server with directory listings off. */
  function Unlisted(env: Env): Env {
    env.(listing := false)
  }

  /** What a request may get; where a listing is due that is also what it gets with listings off. */
  ghost predicate AsCold(env: Env, e: Event, r: Reply) {
    e.Ask? ==>
      || Answers(env, e.req, e.boundary, r)
      || (ListingDue(env, e.req.urlPath) && Answers(Unlisted(env), e.req, e.boundary, r))
  }

  ghost predicate AllAsCold(env: Env, events: seq<Event>, replies: seq<Reply>) {
    |replies| <= |events| && forall i | 0 <= i < |replies| :: AsCold(env, events[i], replies[i])
  }

  /** A client that takes gzip is sent nothing that the middleware would have compressed. */
  predicate Squeezed(env: Env, e: Event, r: Reply) {
    e.Ask? && Willing(e.req, env.compression, env.weigh) ==> !CouldShrink(r, env.compression)
  }

  predicate AllSqueezed(env: Env, events: seq<Event>, replies: seq<Reply>) {
    |replies| <= |events| && forall i | 0 <= i < |replies| :: Squeezed(env, events[i], replies[i])
  }

  lemma AnswerSqueezed(env: Env, req: Request, now: int, boundary: string, reply: Reply)
    requires env.codecs.Lossless()
    ensures var willing := Willing(req, env.compression, env.weigh);
            Squeezed(env, Ask(req, now, boundary), Processed(reply, willing, env.compression, env.codecs))
  {
    CompressedIff(reply, Willing(req, env.compression, env.weigh), env.compression, env.codecs);
  }

  /** A refusal is what a server without caches answers. */
  lemma RefusedAlike(env: Env, req: Request, now: int, boundary: string, e: PathError)
    requires env.site.Path(req.urlPath) == Err(e)
    ensures AsCold(env, Ask(req, now, boundary), SecurityReply(e))
    ensures Squeezed(env, Ask(req, now, boundary), SecurityReply(e))
  {
    hide IsListedType;
  }

  /** A hit that is a 304 goes to a client whose copy of the file on disk is current. */
  lemma CurrentIs304(env: Env, base: Reply, req: Request, source: Result<string, PathError>, first: Option<Content>,
                     second: Option<Content>, boundary: string)
    requires env.Valid() && Normalised(req.urlPath) && Leads(env.site, req.urlPath, source)
    requires LookupsOf(env, req.urlPath, first, second) && !(first.Some? && ListingDue(env, req.urlPath))
    requires HitCurrent(env, req, first, second)
    ensures WarmReply(env, base, req, source, first, second, boundary).status == 304 && Revalidates(env, req)
  {
    hide Env.Valid, EntryOf, DiskReply, HitReply, Load, NotModified;
    env.Basics();
    var path := env.site.Path(req.urlPath).value;
    var d := Resolve(env, path, req.urlPath);
    if first.Some? {
      FirstHit(env, req.urlPath, first.value);
      SameValidators(env, req, first.value, Load(env, d.path, d.stat.file, d.canonical));
    } else {
      SecondHit(env, req.urlPath, second.value);
      SameValidators(env, req, second.value, Load(env, d.path, d.stat.file, d.canonical));
      env.site.PathIsAbsolute(req.urlPath);
      ResolveSame(env, source.value, path, req.urlPath);
    }
  }

  lemma SameValidators(env: Env, req: Request, a: Content, b: Content)
    requires SameSource(a, b)
    ensures NotModified(req, a, env.etags) <==> NotModified(req, b, env.etags)
  {
  }

  /** What the file handler replies, no listing being replaced. */
  lemma ReplyIs(env: Env, base: Reply, req: Request, source: Result<string, PathError>, first: Option<Content>,
                second: Option<Content>, boundary: string)
    requires env.Valid() && (env.listing ==> ListingsUndated(env)) && Normalised(req.urlPath) && Fresh(base)
    requires env.site.Path(req.urlPath).Ok? && !(first.Some? && ListingDue(env, req.urlPath))
    requires SourceOK(env, req.urlPath, source) && LookupsOK(env, req.urlPath, first, second)
    ensures var warm, cold := WarmReply(env, base, req, source, first, second, boundary),
                              ColdReply(env, base, req, boundary);
            || Agrees(warm, cold, req.isHead, env.codecs)
            || (warm.status == 304 && Revalidates(env, req))
            || (!WarmsHarmlessly(env) && Coded(req, warm, cold))
  {
    hide Env.Valid, LookupsOf, LookupsSound, Harmless, WarmsHarmlessly, WarmReply, ColdReply, Differs, HitCurrent,
         Revalidates, Coded, ListingDue, Normalised, Agrees, Fresh;
    CacheInvisibleIff(env, base, req, source, first, second, boundary);
    if Differs(env, base, req, source, first, second) {
      if HitCurrent(env, req, first, second) {
        CurrentIs304(env, base, req, source, first, second, boundary);
      } else {
        if WarmsHarmlessly(env) {
          SoundIsCurrent(env, base, req, source.value, first, second);
        }
        DiffersHow(env, base, req, source.value, first, second, boundary);
      }
    }
  }

  /** The middleware leaves what differs as it is. */
  lemma ProcessedCoded(req: Request, warm: Reply, cold: Reply, willing: bool, s: Settings, codecs: Codecs)
    requires codecs.Lossless() && Coded(req, warm, cold)
    ensures Coded(req, Processed(warm, willing, s, codecs), Processed(cold, willing, s, codecs))
  {
    ProcessedKeeps(cold, willing, s, codecs);
  }

  /** What the middleware makes of it. */
  lemma ReplyAnswers(env: Env, req: Request, source: Result<string, PathError>, first: Option<Content>,
                     second: Option<Content>, boundary: string)
    requires env.Valid() && (env.listing ==> ListingsUndated(env)) && Normalised(req.urlPath)
    requires env.site.Path(req.urlPath).Ok? && !(first.Some? && ListingDue(env, req.urlPath))
    requires SourceOK(env, req.urlPath, source) && LookupsOK(env, req.urlPath, first, second)
    ensures var willing := Willing(req, env.compression, env.weigh);
            var warm := WarmReply(env, Opening(willing), req, source, first, second, boundary);
            Answers(env, req, boundary, Processed(warm, willing, env.compression, env.codecs))
  {
    hide Env.Valid, LookupsOK, SourceOK, WarmReply, ColdReply, Processed, Revalidates, ListingDue, Normalised, Agrees,
         Coded, WarmsHarmlessly;
    env.Basics();
    var willing := Willing(req, env.compression, env.weigh);
    var warm := WarmReply(env, Opening(willing), req, source, first, second, boundary);
    var cold := ColdReply(env, Opening(willing), req, boundary);
    ReplyIs(env, Opening(willing), req, source, first, second, boundary);
    ProcessedKeeps(warm, willing, env.compression, env.codecs);
    if Agrees(warm, cold, req.isHead, env.codecs) {
      ProcessedAgree(warm, cold, req.isHead, willing, env.compression, env.codecs);
    } else if Coded(req, warm, cold) {
      ProcessedCoded(req, warm, cold, willing, env.compression, env.codecs);
    }
  }

  lemma HonestUnlisted(env: Env, path: string, file: DiskFile)
    ensures HonestAt(Unlisted(env), path, file) == HonestAt(env, path, file)
  {
    assert forall c, limit :: SidecarAt(Unlisted(env), path, c, limit) == SidecarAt(env, path, c, limit);
  }

  /** Listings play no part in what is assumed of files and entries. */
  lemma UnlistedValid(env: Env)
    requires env.Valid()
    ensures Unlisted(env).Valid()
  {
    hide HonestAt;
    forall p | IsClean(p) && env.StatAt(p).Regular? {
      HonestUnlisted(env, p, env.StatAt(p).file);
    }
  }

  lemma UnlistedHarmless(env: Env, path: string)
    ensures Harmless(Unlisted(env), path) <==> Harmless(env, path)
  {
    hide HonestAt;
    if env.StatOf(path).Regular? {
      HonestUnlisted(env, path, env.StatOf(path).file);
    }
  }

  lemma UnlistedWarms(env: Env)
    ensures WarmsHarmlessly(Unlisted(env)) <==> WarmsHarmlessly(env)
  {
    hide Harmless;
    forall url | env.site.Found(url).Some? && Leading(env, url)
      ensures Leading(Unlisted(env), url)
      ensures Harmless(Unlisted(env), env.site.Found(url).value) <==> Harmless(env, env.site.Found(url).value)
    {
      UnlistedHarmless(env, env.site.Found(url).value);
    }
    forall url | Leading(Unlisted(env), url) ensures Leading(env, url) {
    }
  }

  lemma UnlistedLookups(env: Env, urlPath: string, first: Option<Content>, second: Option<Content>)
    requires LookupsOK(env, urlPath, first, second)
    ensures LookupsOK(Unlisted(env), urlPath, first, None)
  {
    hide Sound, KeyForPath, WarmsHarmlessly;
    UnlistedWarms(env);
  }

  lemma UnlistedSource(env: Env, urlPath: string, source: Result<string, PathError>)
    requires SourceOK(env, urlPath, source)
    ensures SourceOK(Unlisted(env), urlPath, source)
  {
    hide Harmless, Leads, WarmsHarmlessly;
    UnlistedWarms(env);
    if source.Ok? {
      UnlistedHarmless(env, source.value);
    }
  }

  /** A cached index in place of a listing is what the server answers with listings off. */
  lemma IndexForListing(env: Env, req: Request, source: Result<string, PathError>, first: Option<Content>,
                        second: Option<Content>, boundary: string)
    requires env.Valid() && Normalised(req.urlPath) && env.site.Path(req.urlPath).Ok? && first.Some?
    requires SourceOK(env, req.urlPath, source) && LookupsOK(env, req.urlPath, first, second)
    ensures var willing := Willing(req, env.compression, env.weigh);
            var warm := WarmReply(env, Opening(willing), req, source, first, second, boundary);
            Answers(Unlisted(env), req, boundary, Processed(warm, willing, env.compression, env.codecs))
  {
    hide Env.Valid, LookupsOK, SourceOK, Answers, Processed, CachedReply, Normalised;
    var willing := Willing(req, env.compression, env.weigh);
    UnlistedValid(env);
    UnlistedLookups(env, req.urlPath, first, second);
    UnlistedSource(env, req.urlPath, source);
    ReplyAnswers(Unlisted(env), req, source, first, None, boundary);
    SameHit(env, Opening(willing), req, source, first, second, boundary);
  }

  lemma SameHit(env: Env, base: Reply, req: Request, source: Result<string, PathError>, first: Option<Content>,
                second: Option<Content>, boundary: string)
    requires first.Some?
    ensures WarmReply(Unlisted(env), base, req, source, first, None, boundary)
            == WarmReply(env, base, req, source, first, second, boundary)
  {
  }

  /** What the middleware makes of a reply of the file handler. */
  lemma ReplyAsCold(env: Env, req: Request, source: Result<string, PathError>, first: Option<Content>,
                    second: Option<Content>, now: int, boundary: string)
    requires env.Valid() && (env.listing ==> ListingsUndated(env)) && Normalised(req.urlPath)
    requires env.site.Path(req.urlPath).Ok?
    requires SourceOK(env, req.urlPath, source) && LookupsOK(env, req.urlPath, first, second)
    ensures var willing := Willing(req, env.compression, env.weigh);
            var warm := WarmReply(env, Opening(willing), req, source, first, second, boundary);
            AsCold(env, Ask(req, now, boundary), Processed(warm, willing, env.compression, env.codecs))
  {
    hide Env.Valid, LookupsOK, SourceOK, Answers, Processed, WarmReply, Normalised;
    if first.Some? && ListingDue(env, req.urlPath) {
      IndexForListing(env, req, source, first, second, boundary);
    } else {
      ReplyAnswers(env, req, source, first, second, boundary);
    }
  }

  /** The path check of the middleware. */
  method Check(h: FileHandler, urlPath: string)
    returns (r: Result<string, PathError>, userValue: Option<string>)
    requires h.Valid()
    modifies h.pathCache
    ensures h.Valid() && (r.Err? ==> r == h.env.site.Path(urlPath)) && (r.Ok? ==> h.env.site.Path(urlPath).Ok?)
    ensures userValue.Some? ==> h.env.site.Path(urlPath) == Ok(userValue.value)
  {
    hide Env.Valid;
    h.env.Basics();
    h.PathForOK(urlPath);
    if h.pathCache != null {
      VisitedOK(h.env, h.pathCache.lru, urlPath, h.pathCache.capacity);
    }
    r, userValue := CheckPath(h.pathCache, urlPath, h.env.site);
  }

  lemma VisitedOK(env: Env, lru: Lru<string>, urlPath: string, capacity: nat)
    requires env.Valid() && lru.Valid() && capacity >= 1 && PathsOK(env, lru)
    ensures PathsOK(env, Visited(lru, urlPath, env.site, capacity))
  {
    VisitedFaithful(lru, urlPath, env.site, capacity);
    if lru.Peek(urlPath).Some? {
      LookedOK(env, lru, urlPath);
    } else if Storable(env.site, urlPath) {
      env.site.PathIsAbsolute(urlPath);
      AddTolerable(env, lru, urlPath, env.site.Path(urlPath).value, capacity);
    }
  }

  lemma AddTolerable(env: Env, lru: Lru<string>, urlPath: string, path: string, capacity: nat)
    requires lru.Valid() && capacity >= 1 && Tolerable(env, path)
    requires forall e | e in lru.entries :: Tolerable(env, e.value)
    ensures forall e | e in lru.Add(urlPath, path, capacity).entries :: Tolerable(env, e.value)
  {
    hide Tolerable;
    forall e | e in lru.Add(urlPath, path, capacity).entries ensures Tolerable(env, e.value) {
      lru.AddIn(urlPath, path, capacity, e);
    }
  }

  /** One request through the whole chain. */
  method Answer(h: FileHandler, req: Request, now: int, boundary: string) returns (reply: Reply)
    requires h.Valid() && (h.env.listing ==> ListingsUndated(h.env)) && Normalised(req.urlPath)
    modifies h.cache, h.pathCache
    ensures h.Valid() && AsCold(h.env, Ask(req, now, boundary), reply)
    ensures Squeezed(h.env, Ask(req, now, boundary), reply)
  {
    hide Env.Valid, Processed, Squeezed, AsCold, SecurityReply, EntriesOK, PathsOK, Normalised, Willing, Accepts;
    h.env.Basics();
    var checked, userValue := Check(h, req.urlPath);
    if checked.Err? {
      reply := SecurityReply(checked.error);
      RefusedAlike(h.env, req, now, boundary, checked.error);
      return;
    }
    var resp := new Response();
    var willing := Before(resp, req, h.env.compression, h.env.weigh);
    Forward(h, resp, req, userValue, willing, now, boundary);
    AnswerSqueezed(h.env, req, now, boundary, resp.Value());
    After(resp, willing, h.env.compression, h.env.codecs);
    reply := resp.Value();
  }

  /** The file handler behind the middleware. */
  method Forward(h: FileHandler, resp: Response, req: Request, userValue: Option<string>, ghost willing: bool, now: int,
                 boundary: string)
    requires h.Valid() && (h.env.listing ==> ListingsUndated(h.env)) && Normalised(req.urlPath)
    requires userValue.Some? ==> h.env.site.Path(req.urlPath) == Ok(userValue.value)
    requires h.env.site.Path(req.urlPath).Ok?
    requires willing == Willing(req, h.env.compression, h.env.weigh) && resp.Value() == Opening(willing)
    modifies h.cache, h.pathCache, resp
    ensures h.Valid()
    ensures AsCold(h.env, Ask(req, now, boundary), Processed(resp.Value(), willing, h.env.compression, h.env.codecs))
  {
    hide Env.Valid;
    ghost var source, first, second := h.PathFor(req.urlPath), h.First(req.urlPath, now), h.Second(req.urlPath, now);
    h.PathForOK(req.urlPath);
    LookupsAreOK(h, req.urlPath, now);
    ReplyAsCold(h.env, req, source, first, second, now, boundary);
    ghost var stored := h.HandleRequest(resp, req, userValue, now, boundary);
  }

  /** What a handler's lookups find satisfies the entry invariant. */
  lemma LookupsAreOK(h: FileHandler, urlPath: string, now: int)
    requires h.Valid()
    ensures LookupsOK(h.env, urlPath, h.First(urlPath, now), h.Second(urlPath, now))
  {
    if h.cache != null {
      var key, other := KeyForPath(urlPath, h.env.indexFile), SecondKey(h.env, urlPath);
      if h.First(urlPath, now).Some? {
        CurrentOK(h.env, h.cache, key, now);
      }
      if h.Second(urlPath, now).Some? {
        CurrentOK(h.env, h.cache, other.value, now);
      }
    }
  }

  method Handle(h: FileHandler, e: Event) returns (reply: Reply)
    requires h.Valid() && (h.env.listing ==> ListingsUndated(h.env)) && (e.Ask? ==> Normalised(e.req.urlPath))
    modifies h.cache, h.pathCache
    ensures h.Valid() && AsCold(h.env, e, reply) && Squeezed(h.env, e, reply)
    ensures e.Hup? && !e.reload.ReloadFails? ==>
              && (h.cache != null ==> h.cache.State() == EmptyStore())
              && (h.pathCache != null ==> h.pathCache.lru.entries == [])
  {
    hide Env.Valid, AsCold;
    match e {
      case Ask(req, now, boundary) =>
        reply := Answer(h, req, now, boundary);
      case Hup(reload) =>
        HandleHUP(h, reload);
        reply := BLANK;
        HupAsCold(h.env, reload, reply);
    }
  }

  lemma HupAsCold(env: Env, reload: Reload, reply: Reply)
    ensures AsCold(env, Hup(reload), reply)
  {
  }

  /** Any history of requests and SIGHUPs on a handler whose caches are in any valid state. */
  method Serve(h: FileHandler, events: seq<Event>) returns (replies: seq<Reply>)
    requires h.Valid() && (h.env.listing ==> ListingsUndated(h.env)) && AllNormalised(events)
    modifies h.cache, h.pathCache
    ensures h.Valid() && |replies| == |events| && AllAsCold(h.env, events, replies)
    ensures AllSqueezed(h.env, events, replies)
  {
    hide Env.Valid, AsCold, Squeezed, Normalised;
    replies := [];
    for i := 0 to |events|
      invariant h.Valid() && |replies| == i && AllAsCold(h.env, events, replies)
      invariant AllSqueezed(h.env, events, replies)
    {
      var reply := Handle(h, events[i]);
      replies := replies + [reply];
    }
  }

  // ---------------------------------------------------------------------------
  // A request repeated with the validators it was answered with
  // ---------------------------------------------------------------------------

  /** The request again, with the validators of an earlier reply. */
  function SentBack(req: Request, h: Headers, etags: bool): Request {
    if etags && h.etag.Some? then req.(ifNoneMatch := h.etag.value) else req.(ifModifiedTime := h.lastModified)
  }

  /** The request leads to a small readable file. */
  predicate ToSmallFile(env: Env, urlPath: string) {
    var path := env.site.Path(urlPath);
    path.Ok? &&
    var d := Resolve(env, path.value, urlPath);
    d.At? && d.stat.Regular? && Small(env, d.stat.file) && d.stat.file.access.Readable?
  }

  /** What a request that leads to a small readable file is answered from. */
  function FileFor(env: Env, urlPath: string): Content
    requires ToSmallFile(env, urlPath)
  {
    var d := Resolve(env, env.site.Path(urlPath).value, urlPath);
    Load(env, d.path, d.stat.file, d.canonical)
  }

  /** The headers of a file response are its validators'. */
  predicate Dated(r: Reply, whole: bool, base: Headers, content: Content, etags: bool) {
    var v := Validators(base, content, etags);
    && r.status in {200, 206, 416} && (whole ==> r.status == 200)
    && r.headers.etag == v.etag && r.headers.lastModified == v.lastModified
  }

  lemma WholeDated(base: Reply, isHead: bool, content: Content, coding: Option<Coding>, etags: bool)
    requires coding.Some? ==> VariantOf(content, coding.value).Some?
    ensures Dated(WholeReply(base, isHead, content, coding, etags), true, base.headers, content, etags)
  {
  }

  lemma PartialDated(base: Reply, req: Request, content: Content, coding: Option<Coding>, etags: bool,
                     boundary: string)
    ensures Dated(PartialReply(base, req, content, coding, etags, boundary), false, base.headers, content, etags)
  {
  }

  lemma HitDated(base: Reply, req: Request, content: Content, s: Settings, etags: bool, weigh: string -> Weight,
                 boundary: string)
    ensures Dated(HitReply(base, req, content, s, etags, weigh, boundary), req.range == "", base.headers, content,
                  etags)
  {
    hide Dated;
    var coding := Negotiated(content, req, s, weigh);
    if req.range == "" {
      WholeDated(base, req.isHead, content, coding, etags);
    } else {
      PartialDated(base, req, content, coding, etags, boundary);
    }
  }

  /** Disk serving of a small readable file sends its validators, and never a 304. */
  lemma ColdValidators(env: Env, req: Request, boundary: string)
    requires ToSmallFile(env, req.urlPath)
    ensures Dated(ColdReply(env, BLANK, req, boundary), req.range == "", NoHeaders(), FileFor(env, req.urlPath),
                  env.etags)
  {
    hide HitReply;
    HitDated(Marked(BLANK), req, FileFor(env, req.urlPath), env.compression, env.etags, env.weigh, boundary);
  }

  lemma SentBackRevalidates(env: Env, req: Request, h: Headers)
    requires ToSmallFile(env, req.urlPath) && Unconditional(req) && Free(FileFor(env, req.urlPath).etag, ',')
    requires var v := Validators(NoHeaders(), FileFor(env, req.urlPath), env.etags);
             h.etag == v.etag && h.lastModified == v.lastModified
    ensures Revalidates(env, SentBack(req, h, env.etags))
  {
    var content := FileFor(env, req.urlPath);
    Revalidated(SentBack(req, h, env.etags), content, env.etags, Validators(NoHeaders(), content, env.etags));
  }

  /** A hit is a 304 to a client whose copy is current. */
  lemma HitIsCurrent(env: Env, req: Request, first: Option<Content>, second: Option<Content>)
    requires env.Valid() && Normalised(req.urlPath) && LookupsOf(env, req.urlPath, first, second)
    requires Revalidates(env, req) && (first.Some? || second.Some?)
    ensures HitCurrent(env, req, first, second) && !ListingDue(env, req.urlPath)
  {
    hide Env.Valid, EntryOf, Load, NotModified;
    var d := Resolve(env, env.site.Path(req.urlPath).value, req.urlPath);
    if first.Some? {
      FirstHit(env, req.urlPath, first.value);
      SameValidators(env, req, first.value, Load(env, d.path, d.stat.file, d.canonical));
    } else {
      SecondHit(env, req.urlPath, second.value);
      SameValidators(env, req, second.value, Load(env, d.path, d.stat.file, d.canonical));
    }
  }

  /** The same status and headers, but for the coding. */
  predicate SameHead(a: Reply, b: Reply) {
    a.status == b.status && Bare(a.headers) == Bare(b.headers)
  }

  lemma NotCurrent(env: Env, req: Request)
    requires Unconditional(req)
    ensures !Revalidates(env, req)
  {
  }

  /** The reply to an unconditional request has the right status and headers, and agrees if paths are harmless. */
  lemma UnconditionalReply(env: Env, req: Request, source: Result<string, PathError>, first: Option<Content>,
                           second: Option<Content>, boundary: string)
    requires env.Valid() && (env.listing ==> ListingsUndated(env)) && Normalised(req.urlPath) && Unconditional(req)
    requires SourceOK(env, req.urlPath, source) && LookupsOK(env, req.urlPath, first, second)
    requires ToSmallFile(env, req.urlPath)
    ensures var warm, cold := WarmReply(env, BLANK, req, source, first, second, boundary),
                              ColdReply(env, BLANK, req, boundary);
            && SameHead(warm, cold) && (WarmsHarmlessly(env) ==> Agrees(warm, cold, req.isHead, env.codecs))
  {
    hide Env.Valid, LookupsOK, SourceOK, WarmReply, ColdReply, Revalidates, Normalised, WarmsHarmlessly, Small;
    NotCurrent(env, req);
    ReplyIs(env, BLANK, req, source, first, second, boundary);
  }

  /** Both replies to a request that is repeated with the validators of the first one. */
  lemma RepeatedShows(env: Env, req: Request, reply: Reply, source: Result<string, PathError>, first: Option<Content>,
                      second: Option<Content>, boundary: string)
    requires env.Valid() && Normalised(req.urlPath) && Unconditional(req)
    requires ToSmallFile(env, req.urlPath) && Free(FileFor(env, req.urlPath).etag, ',')
    requires SameHead(reply, ColdReply(env, BLANK, req, boundary))
    requires SourceOK(env, req.urlPath, source) && LookupsOK(env, req.urlPath, first, second)
    requires first.Some? || second.Some?
    ensures var again := SentBack(req, reply.headers, env.etags);
            && WarmReply(env, BLANK, again, source, first, second, boundary).status == 304
            && ColdReply(env, BLANK, again, boundary).status in {200, 206, 416}
            && (req.range == "" ==> ColdReply(env, BLANK, again, boundary).status == 200)
  {
    hide Env.Valid, ColdReply, WarmReply, LookupsOf, LookupsSound, Tolerable, WarmsHarmlessly, HitCurrent, Revalidates,
         Normalised, Free;
    var again := SentBack(req, reply.headers, env.etags);
    ColdValidators(env, req, boundary);
    ColdValidators(env, again, boundary);
    SentBackRevalidates(env, req, reply.headers);
    HitIsCurrent(env, again, first, second);
    CurrentIs304(env, BLANK, again, source, first, second, boundary);
  }

  /** One request to the file handler, on an empty response. */
  method AskHandler(h: FileHandler, req: Request, now: int, boundary: string) returns (reply: Reply)
    requires h.Valid()
    modifies h.cache, h.pathCache
    ensures reply == WarmReply(h.env, BLANK, req, old(h.PathFor(req.urlPath)), old(h.First(req.urlPath, now)),
                               old(h.Second(req.urlPath, now)), boundary)
    ensures SourceOK(h.env, req.urlPath, old(h.PathFor(req.urlPath)))
    ensures LookupsOK(h.env, req.urlPath, old(h.First(req.urlPath, now)), old(h.Second(req.urlPath, now)))
    ensures h.Repeats(old(h.PathFor(req.urlPath)), req.urlPath, now)
    ensures h.Valid()
  {
    hide Env.Valid, WarmReply, LookupsOK, SourceOK, EntriesOK, PathsOK;
    h.PathForOK(req.urlPath);
    LookupsAreOK(h, req.urlPath, now);
    var resp := BlankResponse(h, req.urlPath, now);
    ghost var stored := h.HandleRequest(resp, req, None, now, boundary);
    reply := resp.Value();
  }

  method BlankResponse(h: FileHandler, ghost urlPath: string, ghost now: int) returns (resp: Response)
    requires h.Valid()
    ensures fresh(resp) && resp.Value() == BLANK && h.Valid() && h.PathFor(urlPath) == old(h.PathFor(urlPath))
    ensures h.First(urlPath, now) == old(h.First(urlPath, now)) && h.Second(urlPath, now) == old(h.Second(urlPath, now))
  {
    hide Env.Valid;
    ghost var other := SecondKey(h.env, urlPath);
    ghost var f, g := h.Stored(KeyForPath(urlPath, h.env.indexFile)),
                      if other.Some? then h.Stored(other.value) else None;
    assert (f.Some? ==> allocated(f.value)) && (g.Some? ==> allocated(g.value));
    resp := new Response();
  }

  /**
   Whatever the caches hold: a file that fits into the cache is asked for, and
   asked for again with the validators of the reply. The second reply is a 304,
   while a server without caches sends the file.
   */
  method Revisit(h: FileHandler, req: Request, now: int, boundary: string)
    returns (r1: Reply, again: Request, r2: Reply)
    requires h.Valid() && (h.env.listing ==> ListingsUndated(h.env)) && Normalised(req.urlPath) && Unconditional(req)
    requires h.cache != null && Cacheable(h.env, h.PathFor(req.urlPath), req.urlPath, h.cache.maxBytes)
    requires ToSmallFile(h.env, req.urlPath) && Free(FileFor(h.env, req.urlPath).etag, ',')
    modifies h.cache, h.pathCache
    ensures h.Valid() && again == SentBack(req, r1.headers, h.env.etags)
    ensures SameHead(r1, ColdReply(h.env, BLANK, req, boundary))
    ensures WarmsHarmlessly(h.env) ==> Agrees(r1, ColdReply(h.env, BLANK, req, boundary), req.isHead, h.env.codecs)
    ensures r2.status == 304 && ColdReply(h.env, BLANK, again, boundary).status in {200, 206, 416}
    ensures req.range == "" ==> ColdReply(h.env, BLANK, again, boundary).status == 200
  {
    hide Env.Valid, ColdReply, WarmReply, LookupsOK, SourceOK, Normalised, Free, ToSmallFile, Agrees, SameHead,
         Cacheable, WarmsHarmlessly, EntriesOK, PathsOK;
    ghost var source, first, second := h.PathFor(req.urlPath), h.First(req.urlPath, now), h.Second(req.urlPath, now);
    r1 := AskHandler(h, req, now, boundary);
    UnconditionalReply(h.env, req, source, first, second, boundary);
    again := SentBack(req, r1.headers, h.env.etags);
    source, first, second := h.PathFor(req.urlPath), h.First(req.urlPath, now), h.Second(req.urlPath, now);
    r2 := AskHandler(h, again, now, boundary);
    RepeatedShows(h.env, req, r1, source, first, second, boundary);
  }

  // ---------------------------------------------------------------------------
  // A directory asked for after its index
  // ---------------------------------------------------------------------------

  /** With listings on, a file under its own key has no second lookup. */
  lemma KeyHasNoSecond(env: Env, key: string, source: Result<string, PathError>, maxBytes: int)
    requires env.Valid() && env.listing && KeyForPath(key, env.indexFile) == key
    requires SourceOK(env, key, source) && Cacheable(env, source, key, maxBytes)
    ensures SecondKey(env, key).None?
  {
    hide Env.Valid, Tolerable, Load;
    SecondKeyIs(env, key, source.value);
  }

  lemma ListingReplaced(env: Env, req: Request, source: Result<string, PathError>, first: Option<Content>,
                        second: Option<Content>, boundary: string)
    requires env.Valid() && ListingsUndated(env) && Normalised(req.urlPath) && ListingDue(env, req.urlPath)
    requires SourceOK(env, req.urlPath, source) && LookupsOK(env, req.urlPath, first, second) && first.Some?
    ensures !Agrees(WarmReply(env, BLANK, req, source, first, second, boundary), ColdReply(env, BLANK, req, boundary),
                    req.isHead, env.codecs)
  {
    hide Env.Valid, LookupsOf, LookupsSound, Tolerable, WarmsHarmlessly, WarmReply, ColdReply, Normalised, Agrees,
         Misread, HitShows;
    CacheInvisibleIff(env, BLANK, req, source, first, second, boundary);
  }

  /**
   Whatever the caches hold: with listings on, the index of a directory is asked
   for by its own URL, and then the directory. The second reply is not the
   listing that a server without caches gives.
   */
  method HideListing(h: FileHandler, req: Request, now: int, boundary: string) returns (r1: Reply, r2: Reply)
    requires h.Valid() && ListingsUndated(h.env) && Normalised(req.urlPath) && ListingDue(h.env, req.urlPath)
    requires var key := KeyForPath(req.urlPath, h.env.indexFile);
             h.cache != null && Cacheable(h.env, h.PathFor(key), key, h.cache.maxBytes)
    modifies h.cache, h.pathCache
    ensures h.Valid() && !Agrees(r2, ColdReply(h.env, BLANK, req, boundary), req.isHead, h.env.codecs)
  {
    hide Env.Valid, ColdReply, WarmReply, LookupsOK, SourceOK, Normalised, Agrees, Cacheable, EntriesOK, PathsOK;
    var key := KeyForPath(req.urlPath, h.env.indexFile);
    h.env.Basics();
    KeyCanonical(req.urlPath, h.env.indexFile);
    h.PathForOK(key);
    KeyHasNoSecond(h.env, key, h.PathFor(key), h.cache.maxBytes);
    r1 := AskHandler(h, req.(urlPath := key), now, boundary);
    ghost var source, first, second := h.PathFor(req.urlPath), h.First(req.urlPath, now), h.Second(req.urlPath, now);
    r2 := AskHandler(h, req, now, boundary);
    ListingReplaced(h.env, req, source, first, second, boundary);
  }

  // ---------------------------------------------------------------------------
  // Startup
  // ---------------------------------------------------------------------------

  /** Pre-warming is harmless if the root is absolute once resolved, or if sidecars are not used. */
  lemma WarmsHarmlesslyIf(env: Env)
    requires env.Valid() && (Rooted(env.site) || !env.precompressed || !env.compression.on)
    ensures WarmsHarmlessly(env)
  {
    forall url | env.site.Found(url).Some? && Leading(env, url) ensures Harmless(env, env.site.Found(url).value) {
      FoundHarmless(env, url);
    }
  }

  lemma FoundHarmless(env: Env, url: string)
    requires env.Valid() && (Rooted(env.site) || !env.precompressed || !env.compression.on)
    requires env.site.Found(url).Some? && Leading(env, url)
    ensures Harmless(env, env.site.Found(url).value)
  {
    FoundNames(env.site, url);
    NamesMeaning(env.site, url, env.site.Found(url).value);
    env.site.PathIsAbsolute(url);
  }

  lemma FoundTolerable(env: Env, url: string)
    requires env.Valid() && env.site.Found(url).Some? && Leading(env, url)
    ensures Tolerable(env, env.site.Found(url).value)
  {
    hide Harmless;
    FoundNames(env.site, url);
    NamesMeaning(env.site, url, env.site.Found(url).value);
    env.site.PathIsAbsolute(url);
  }

  lemma {:induction false} WarmedOK(env: Env, lru: Lru<string>, keys: seq<string>, i: nat, capacity: nat)
    requires env.Valid() && AllLeading(env, keys)
    requires i <= |keys| && lru.Valid() && capacity >= 1 && PathsOK(env, lru)
    ensures PathsOK(env, Warmed(lru, keys, i, env.site, capacity))
    decreases |keys| - i
  {
    hide Env.Valid;
    if i < |keys| {
      WarmedOneOK(env, lru, keys[i], capacity);
      WarmedOK(env, WarmedOne(lru, keys[i], env.site, capacity), keys, i + 1, capacity);
    }
  }

  lemma WarmedOneOK(env: Env, lru: Lru<string>, key: string, capacity: nat)
    requires env.Valid() && Leading(env, key)
    requires lru.Valid() && capacity >= 1 && PathsOK(env, lru)
    ensures PathsOK(env, WarmedOne(lru, key, env.site, capacity))
  {
    WarmedOneFaithful(lru, key, env.site, capacity);
    if env.site.Found(key).Some? {
      FoundTolerable(env, key);
      AddTolerable(env, lru, key, env.site.Found(key).value, capacity);
    }
  }

  method Warmup(env: Env, keys: seq<string>) returns (pathCache: PathCache)
    requires env.Valid() && AllLeading(env, keys)
    ensures fresh(pathCache) && pathCache.Valid() && PathsOK(env, pathCache.lru)
    ensures pathCache.lru == Warmed(Lru([]), keys, 0, env.site, 10_000)
  {
    hide Env.Valid;
    pathCache := new PathCache(DEFAULT_PATH_CACHE_SIZE);
    WarmedOK(env, pathCache.lru, keys, 0, pathCache.capacity);
    pathCache.PreWarm(keys, env.site);
  }

  /** The cache and the path cache when the first request comes in. */
  ghost predicate IsStarted(env: Env, h: FileHandler, preload: Option<seq<Walked>>, files: seq<Option<CachedFile>>)
    requires preload.Some? ==> AllBelow(env, preload.value)
    reads h.cache, h.pathCache
  {
    && h.env == env && h.cache != null
    && match preload
       case None => h.cache.State() == EmptyStore() && h.pathCache == null
       case Some(walked) =>
         && AllMade(env, walked, files) && |files| == |walked| && h.pathCache != null
         && h.cache.State() == PutWalk(env, EmptyStore(), walked, files, h.cache.maxBytes)
         && h.pathCache.lru == Warmed(Lru([]), Tally(env, walked, |walked|).paths, 0, env.site, 10_000)
  }

  /**
   The handler at startup: its cache is empty, or holds what was stored for the
   walk, and the path cache is pre-warmed with the keys reported.
   */
  method Startup(env: Env, maxBytes: int, ttl: int, preload: Option<seq<Walked>>, start: int)
    returns (h: FileHandler, ghost files: seq<Option<CachedFile>>)
    requires env.Valid() && (preload.Some? ==> RootIsDirectory(env) && AllBelow(env, preload.value))
    ensures fresh(h.cache) && (h.pathCache != null ==> fresh(h.pathCache))
    ensures h.Valid() && IsStarted(env, h, preload, files)
  {
    hide Env.Valid, WalkedBelow;
    var cache := new Cache(maxBytes, ttl);
    var pathCache: PathCache? := null;
    files := [];
    if preload.Some? {
      var stats, made := Preload(env, cache, preload.value, start);
      files := made;
      pathCache := Warmup(env, stats.paths);
    }
    h := new FileHandler(env, cache, pathCache);
  }

  /**
   The whole server: empty or preloaded caches, the path cache pre-warmed with the
   root as configured, then any history. Every reply agrees with the one of a
   server without caches, or is a 304 to a client whose copy is current; where a
   listing is due it may be the reply with listings off. Only if pre-warming
   stores a path that is not harmless may the bytes of a compressed reply be wrong.
   What the middleware can compress for a client is sent compressed.
   */
  method Run(env: Env, maxBytes: int, ttl: int, preload: Option<seq<Walked>>, start: int, events: seq<Event>)
    returns (replies: seq<Reply>)
    requires env.Valid() && (env.listing ==> ListingsUndated(env)) && AllNormalised(events)
    requires preload.Some? ==> RootIsDirectory(env) && AllBelow(env, preload.value)
    ensures |replies| == |events| && AllAsCold(env, events, replies) && AllSqueezed(env, events, replies)
  {
    hide Env.Valid;
    var h, _ := Startup(env, maxBytes, ttl, preload, start);
    replies := Serve(h, events);
  }
}
