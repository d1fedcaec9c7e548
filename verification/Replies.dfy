/**
 What a request is answered from disk, case by case, in terms of the file system
 and the configuration only: a table against which the handler's replies are
 proved, and the replies to Range, HEAD and revalidating requests.
 */
module Replies {
  import opened Wrappers
  import opened Text
  import opened Paths
  import opened PathSafety
  import opened CacheKey
  import opened FileCache
  import opened ByteRanges
  import opened Multipart
  import opened HeaderLists
  import opened ClientLists
  import opened Http
  import opened Compression
  import opened RangeServing
  import opened RangeHeader
  import opened RangeClient
  import opened Streaming
  import opened Serving
  import opened FileHandling
  import opened Transparency

  // ---------------------------------------------------------------------------
  // The table
  // ---------------------------------------------------------------------------

  /** A plain-text error without validators, ranges or a coding. */
  predicate IsError(r: Reply, status: nat) {
    && r.status == status && r.headers.contentType == "text/plain; charset=utf-8" && r.body.Buffered?
    && r.headers.etag.None? && r.headers.lastModified.None? && r.headers.cacheControl.None?
    && r.headers.contentRange.None? && r.headers.contentEncoding.None?
  }

  /** The name of the file that stands for a directory. */
  function IndexFile(env: Env): string {
    if env.indexFile == "" then "index.html" else env.indexFile
  }

  /** The URL of a directory's index. */
  function IndexOf(env: Env, urlPath: string): string {
    (if Clean(urlPath) == "/" then "" else Clean(urlPath)) + "/" + IndexFile(env)
  }

  /** The media type by the file's extension, or else by its first bytes. */
  function TypeOf(file: DiskFile): string {
    match file.extType
    case Some(t) => t
    case None => file.sniffed
  }

  /** The headers that describe a file, with a weak tag, its time in seconds and its caching. */
  predicate Describes(env: Env, h: Headers, file: DiskFile, tag: string, url: string) {
    var control := env.cacheControl(url, TypeOf(file));
    && h.contentType == TypeOf(file) && h.lastModified == Some(file.modTime / 1_000_000_000)
    && h.etag == (if env.etags then Some("W/\"" + tag + "\"") else None)
    && h.cacheControl == (if control != "" then Some(control) else None)
    && h.contentRange.None? && h.varyEncoding
  }

  /** The whole file, in some coding. */
  predicate IsFile(env: Env, r: Reply, file: DiskFile, tag: string, url: string) {
    && r.status == 200 && Decoded(r, env.codecs) == file.data && Describes(env, r.headers, file, tag, url)
    && Announced(false, r) == Some(|BodyBytes(r.body)|)
  }

  /** What a GET for a path gets under a URL. */
  predicate FileOwed(env: Env, req: Request, path: string, url: string, r: Reply) {
    match env.StatOf(path)
    case Missing => r == env.missing(url, req)
    case NoPermission => IsError(r, 403)
    case StatFails => IsError(r, 500)
    case Directory => IsError(r, 500)
    case Regular(file) =>
      if |file.data| <= env.maxFileSize then
        match file.access
        case Denied => IsError(r, 403)
        case Broken => IsError(r, 500)
        case Readable => IsFile(env, r, file, env.hash(file.data), url)
      else if env.maxServeSize > 0 && |file.data| > env.maxServeSize then IsError(r, 413)
      else if path == env.site.RealRoot() && path != "/" then IsError(r, 403)
      else
        match file.access
        case Denied => IsError(r, 403)
        case Broken => IsError(r, 500)
        case Readable => IsFile(env, r, file, env.sizeTag(|file.data|, file.modTime), url)
  }

  predicate RefusalOwed(e: PathError, r: Reply) {
    match e
    case NullByte => IsError(r, 400)
    case Traversal => IsError(r, 403)
    case Dotfile => IsError(r, 403)
  }

  /** What a GET for a URL gets: a refusal, a listing, the index, or the file. */
  predicate Owed(env: Env, req: Request, r: Reply) {
    match env.site.Path(req.urlPath)
    case Err(e) => RefusalOwed(e, r)
    case Ok(path) =>
      if !env.StatOf(path).Directory? then FileOwed(env, req, path, req.urlPath, r)
      else if env.listing then r == env.listings(path, req)
      else
        match env.site.Path(IndexOf(env, req.urlPath))
        case Err(e) => RefusalOwed(e, r)
        case Ok(index) => FileOwed(env, req, index, IndexOf(env, req.urlPath), r)
  }

  // ---------------------------------------------------------------------------
  // The handler keeps to the table
  // ---------------------------------------------------------------------------

  /** An empty response without validators. */
  predicate Blank(base: Reply) {
    Fresh(base) && base.headers.etag.None? && base.headers.lastModified.None? && base.headers.cacheControl.None?
  }

  predicate PlainGet(req: Request) {
    !req.isHead && req.range == "" && Unconditional(req)
  }

  lemma IndexIs(env: Env, urlPath: string)
    requires Plain(env.Index()) && Normalised(urlPath)
    ensures IndexURL(urlPath, env.indexFile) == IndexOf(env, urlPath)
  {
    var segs := Segments(urlPath);
    IndexURLIs(urlPath, env.indexFile);
    SegmentsPlain(urlPath);
    SlashIsRoot(segs);
    if segs == [] {
      RenderSingle(env.Index());
    } else {
      RenderSnoc(segs, env.Index());
    }
  }

  lemma WholeIsFile(env: Env, base: Reply, content: Content, coding: Option<Coding>, file: DiskFile, url: string)
    requires Blank(base) && Sound(content, env.codecs) && (coding.Some? ==> VariantOf(content, coding.value).Some?)
    requires SameSource(content, Described(env, file, url, None, None, None))
    ensures IsFile(env, WholeReply(base, false, content, coding, env.etags), file, env.hash(file.data), url)
  {
    EncodedDecodes(content, coding, env.codecs);
  }

  lemma SmallIsFile(env: Env, base: Reply, req: Request, path: string, file: DiskFile, url: string,
                    boundary: string)
    requires Blank(base) && PlainGet(req) && Sound(Load(env, path, file, url), env.codecs)
    ensures var content := Load(env, path, file, url);
            IsFile(env, HitReply(base, req, content, env.compression, env.etags, env.weigh, boundary), file,
                   env.hash(file.data), url)
  {
    hide IsFile, SidecarAt, Negotiated, Sound;
    var content := Load(env, path, file, url);
    WholeIsFile(env, base, content, Negotiated(content, req, env.compression, env.weigh), file, url);
  }

  lemma LargeIsFile(env: Env, base: Reply, req: Request, file: DiskFile, contained: bool, url: string, boundary: string)
    requires Blank(base) && PlainGet(req) && |file.data| <= MAX_INT64
    ensures var r := LargeReply(base, req, file, LargeContent(env, file, url), contained, env.maxServeSize, env.etags,
                                boundary);
            if env.maxServeSize > 0 && |file.data| > env.maxServeSize then IsError(r, 413)
            else if !contained || file.access.Denied? then IsError(r, 403)
            else if file.access.Broken? then IsError(r, 500)
            else
              && IsFile(env, r, file, env.sizeTag(|file.data|, file.modTime), url)
              && r.headers.acceptRanges && r.headers.cacheHit == Some(false)
  {
    var h := LargeHeaders(base.headers, file, LargeContent(env, file, url), env.etags);
    ConcatReaders(Whole, file.data, boundary, file.Type());
    assert Select(req.range, IfRangeAllows(req, h), |file.data|) == Whole;
  }

  lemma DiskOwed(env: Env, base: Reply, req: Request, from: string, url: string, path: string, boundary: string)
    requires env.Valid() && Blank(base) && PlainGet(req) && env.site.Path(from) == Ok(path)
    ensures FileOwed(env, req, path, url, DiskReply(env, base, req, path, url, env.StatOf(path), boundary))
  {
    hide IsFile, IsError, HitReply, LargeReply, Load, Sound, GzipReady;
    env.site.PathIsAbsolute(from);
    RecheckHolds(env, from);
    ErrorsAre();
    match env.StatOf(path) {
      case Regular(file) =>
        PathSound(env, from, url);
        if Small(env, file) {
          SmallIsFile(env, Marked(base), req, path, file, url, boundary);
        } else {
          LargeIsFile(env, base, req, file, HasPrefix(CleanAny(path), env.RootSep()), url, boundary);
        }
      case Directory =>
      case Missing =>
      case NoPermission =>
      case StatFails =>
    }
  }

  lemma ErrorsAre()
    ensures IsError(FORBIDDEN, 403) && IsError(INTERNAL_ERROR, 500)
  {
  }

  lemma RefusalIs(e: PathError)
    ensures RefusalOwed(e, SecurityReply(e))
  {
  }

  /** Without caches a GET for a whole file is answered by the table. */
  lemma ColdOwed(env: Env, base: Reply, req: Request, boundary: string)
    requires env.Valid() && Blank(base) && PlainGet(req) && Normalised(req.urlPath)
    ensures Owed(env, req, ColdReply(env, base, req, boundary))
  {
    hide Env.Valid, FileOwed, RefusalOwed, DiskReply, SecurityReply, IndexOf;
    env.Basics();
    IndexIs(env, req.urlPath);
    var found := env.site.Path(req.urlPath);
    if found.Err? {
      RefusalIs(found.error);
    } else {
      env.site.PathIsAbsolute(req.urlPath);
      var index := env.site.Path(IndexOf(env, req.urlPath));
      if index.Err? {
        RefusalIs(index.error);
      } else {
        DiskOwed(env, base, req, IndexOf(env, req.urlPath), IndexOf(env, req.urlPath), index.value, boundary);
      }
      DiskOwed(env, base, req, req.urlPath, req.urlPath, found.value, boundary);
    }
  }

  // ---------------------------------------------------------------------------
  // Directories
  // ---------------------------------------------------------------------------

  /** What cannot be sent is answered so whatever the request. */
  predicate UnservableOwed(env: Env, req: Request, path: string, url: string, r: Reply) {
    match env.StatOf(path)
    case Missing => r == env.missing(url, req)
    case NoPermission => IsError(r, 403)
    case StatFails => IsError(r, 500)
    case Directory => IsError(r, 500)
    case Regular(file) =>
      if |file.data| <= env.maxFileSize then
        (file.access.Denied? ==> IsError(r, 403)) && (file.access.Broken? ==> IsError(r, 500))
      else env.maxServeSize > 0 && |file.data| > env.maxServeSize ==> IsError(r, 413)
  }

  lemma UnservableIs(env: Env, base: Reply, req: Request, path: string, url: string, boundary: string)
    ensures UnservableOwed(env, req, path, url, DiskReply(env, base, req, path, url, env.StatOf(path), boundary))
  {
    hide HitReply, Load;
  }

  /** With listings off, any request for a directory is one for its index, under the index's URL. */
  lemma DirectoryOwed(env: Env, base: Reply, req: Request, boundary: string)
    requires Plain(env.Index()) && Normalised(req.urlPath) && !env.listing
    requires env.site.Path(req.urlPath).Ok? && env.StatOf(env.site.Path(req.urlPath).value).Directory?
    ensures var r, url := ColdReply(env, base, req, boundary), IndexOf(env, req.urlPath);
            match env.site.Path(url)
            case Err(e) => RefusalOwed(e, r)
            case Ok(index) => UnservableOwed(env, req, index, url, r)
  {
    hide UnservableOwed, RefusalOwed, DiskReply, SecurityReply;
    var url := IndexOf(env, req.urlPath);
    IndexIs(env, req.urlPath);
    match env.site.Path(url) {
      case Err(e) => RefusalIs(e);
      case Ok(index) => UnservableIs(env, base, req, index, url, boundary);
    }
  }

  /** With listings on, a directory is listed unless the first lookup finds its index. */
  lemma ListingOwed(env: Env, base: Reply, req: Request, path: string, second: Option<Content>, boundary: string)
    requires env.listing && env.StatOf(path).Directory?
    ensures WarmReply(env, base, req, Ok(path), None, second, boundary)
            == env.listings(env.site.links.Absolute(path), req)
  {
  }

  /** With listings off no request gets one: the rendering of listings makes no difference to any reply. */
  lemma NeverListed(env: Env, other: (string, Request) -> Reply, base: Reply, req: Request,
                    source: Result<string, PathError>, first: Option<Content>, second: Option<Content>,
                    boundary: string)
    requires !env.listing
    ensures WarmReply(env.(listings := other), base, req, source, first, second, boundary)
            == WarmReply(env, base, req, source, first, second, boundary)
  {
    hide HitReply, LargeReply, NotModified;
    if source.Ok? {
      var d := Resolve(env, source.value, req.urlPath);
      if d.At? && d.stat.Regular? {
        LoadUnlisted(env, other, d.path, d.stat.file, d.canonical);
      }
    }
  }

  lemma LoadUnlisted(env: Env, other: (string, Request) -> Reply, path: string, file: DiskFile, key: string)
    ensures Load(env.(listings := other), path, file, key) == Load(env, path, file, key)
  {
    hide SidecarAt;
    SidecarUnlisted(env, other, path, Gzip, |file.data|);
    SidecarUnlisted(env, other, path, Brotli, |file.data|);
    SidecarUnlisted(env, other, path, Zstd, |file.data|);
  }

  lemma SidecarUnlisted(env: Env, other: (string, Request) -> Reply, path: string, c: Coding, limit: nat)
    ensures SidecarAt(env.(listings := other), path, c, limit) == SidecarAt(env, path, c, limit)
  {
    assert SidecarPlace(env.(listings := other), path + Extension(c)) == SidecarPlace(env, path + Extension(c));
  }

  // ---------------------------------------------------------------------------
  // Cached files and conditional requests
  // ---------------------------------------------------------------------------

  /** The client's copy is current: its list has the tag, weak or not, or the wildcard; or its date is not before. */
  predicate IsCurrent(env: Env, req: Request, file: DiskFile, tag: string) {
    if env.etags && req.ifNoneMatch != "" then
      || TrimSpace(req.ifNoneMatch) == "*"
      || "\"" + tag + "\"" in Tokens(req.ifNoneMatch) || "W/\"" + tag + "\"" in Tokens(req.ifNoneMatch)
    else req.ifModifiedTime.Some? && file.modTime / 1_000_000_000 <= req.ifModifiedTime.value
  }

  lemma CurrentIs(env: Env, req: Request, content: Content, file: DiskFile, url: string, tag: string)
    requires content.etag == tag && content.lastModified == Some(file.modTime)
    ensures NotModified(req, content, env.etags) <==> IsCurrent(env, req, file, tag)
  {
    NotModifiedMeaning(req, content, env.etags);
    var quoted := "\"" + tag + "\"";
    assert TagOf(content) == "W/" + quoted && (TagOf(content))[2..] == quoted;
    forall t: string ensures Opaque(t) == quoted <==> t == quoted || t == "W/" + quoted {
      OpaqueIs(t, quoted);
    }
  }

  lemma OpaqueIs(t: string, quoted: string)
    requires quoted != "" && quoted[0] == '\"'
    ensures Opaque(t) == quoted <==> t == quoted || t == "W/" + quoted
  {
    if HasPrefix(t, "W/") {
      assert t == "W/" + t[2..];
    }
  }

  /** A whole file from the cache: an empty 304 with the validators when the client's copy is current. */
  lemma HitOwed(env: Env, base: Reply, req: Request, content: Content, file: DiskFile, url: string, boundary: string)
    requires Blank(base) && Sound(content, env.codecs) && !req.isHead && req.range == ""
    requires SameSource(content, Described(env, file, url, None, None, None))
    ensures var r, tag := CachedReply(env, base, req, content, boundary), env.hash(file.data);
            if IsCurrent(env, req, file, tag) then
              && r.status == 304 && BodyBytes(r.body) == "" && r.headers.contentEncoding.None?
              && Describes(env, r.headers.(contentType := TypeOf(file)), file, tag, url)
            else IsFile(env, r, file, tag, url)
  {
    hide IsFile, IsCurrent, Negotiated, Sound;
    CurrentIs(env, req, content, file, url, env.hash(file.data));
    WholeIsFile(env, base, content, Negotiated(content, req, env.compression, env.weigh), file, url);
  }

  /** The URL leads to a file that can be sent. */
  predicate Sendable(env: Env, urlPath: string, file: DiskFile) {
    && env.site.Path(urlPath).Ok? && env.StatOf(env.site.Path(urlPath).value) == Regular(file)
    && file.access.Readable? && (|file.data| > env.maxFileSize ==> Servable(env, file))
    && (|file.data| > env.maxFileSize ==> env.site.Path(urlPath).value != env.site.RealRoot())
  }

  /** A large file: an empty 304 with the validators when the client's copy is current, even without a cache. */
  lemma LargeOwed(env: Env, base: Reply, req: Request, file: DiskFile, boundary: string)
    requires env.Valid() && Blank(base) && !req.isHead && req.range == "" && Sendable(env, req.urlPath, file)
    requires |file.data| > env.maxFileSize
    ensures var r, tag := ColdReply(env, base, req, boundary), env.sizeTag(|file.data|, file.modTime);
            if IsCurrent(env, req, file, tag) then
              && r.status == 304 && BodyBytes(r.body) == "" && r.headers.contentEncoding.None?
              && Describes(env, r.headers.(contentType := TypeOf(file)), file, tag, req.urlPath)
            else IsFile(env, r, file, tag, req.urlPath)
  {
    hide IsFile, IsCurrent, LargeReply;
    env.site.PathIsAbsolute(req.urlPath);
    RecheckHolds(env, req.urlPath);
    LargeConditional(env, base, req, file, req.urlPath, boundary);
  }

  lemma LargeConditional(env: Env, base: Reply, req: Request, file: DiskFile, url: string, boundary: string)
    requires Blank(base) && !req.isHead && req.range == "" && Servable(env, file)
    ensures var r := LargeReply(base, req, file, LargeContent(env, file, url), true, env.maxServeSize, env.etags,
                                boundary);
            var tag := env.sizeTag(|file.data|, file.modTime);
            if IsCurrent(env, req, file, tag) then
              && r.status == 304 && BodyBytes(r.body) == "" && r.headers.contentEncoding.None?
              && Describes(env, r.headers.(contentType := TypeOf(file)), file, tag, url)
            else IsFile(env, r, file, tag, url)
  {
    hide IsFile, IsCurrent, StreamReply, Parsed;
    CurrentIs(env, req, LargeContent(env, file, url), file, url, env.sizeTag(|file.data|, file.modTime));
    LargeWhole(env, base, file, url, boundary);
  }

  lemma LargeWhole(env: Env, base: Reply, file: DiskFile, url: string, boundary: string)
    requires Blank(base)
    ensures var h := LargeHeaders(base.headers, file, LargeContent(env, file, url), env.etags);
            IsFile(env, StreamReply(base.(headers := h), Whole, false, file.data, None, boundary), file,
                   env.sizeTag(|file.data|, file.modTime), url)
  {
    ConcatReaders(Whole, file.data, boundary, file.Type());
  }

  /**
   A large file is opened only when that is needed: to look at its first bytes
   when its extension says nothing, and to send it. A file that cannot be opened
   still answers HEAD and conditional requests if its extension is known.
   */
  lemma UnopenedOwed(env: Env, base: Reply, req: Request, file: DiskFile, contained: bool, url: string,
                     boundary: string)
    requires Blank(base) && |file.data| <= MAX_INT64 && (env.maxServeSize <= 0 || |file.data| <= env.maxServeSize)
    requires req.range == ""
    ensures var r := LargeReply(base, req, file, LargeContent(env, file, url), contained, env.maxServeSize, env.etags,
                                boundary);
            var current := IsCurrent(env, req, file, env.sizeTag(|file.data|, file.modTime));
            var opens := contained && file.access.Readable?;
            && (file.extType.None? && !opens ==> IsError(r, if contained && file.access.Broken? then 500 else 403))
            && (file.extType.Some? && current ==> r.status == 304 && BodyBytes(r.body) == "")
            && (file.extType.Some? && !current && req.isHead ==>
                  r.status == 200 && BodyBytes(r.body) == "" && Announced(true, r) == Some(|file.data|))
            && (file.extType.Some? && !current && !req.isHead && !opens ==>
                  IsError(r, if contained && file.access.Broken? then 500 else 403))
  {
    hide IsCurrent, Parsed, ReadersFor, Itoa;
    CurrentIs(env, req, LargeContent(env, file, url), file, url, env.sizeTag(|file.data|, file.modTime));
  }

  // ---------------------------------------------------------------------------
  // Ranges and HEAD from disk
  // ---------------------------------------------------------------------------

  /** The bytes from `first` to `last`, with their positions, and the validators. */
  predicate IsSlice(env: Env, r: Reply, file: DiskFile, first: nat, last: nat) {
    && first <= last < |file.data| && r.status == 206 && r.headers.contentEncoding.None? && r.headers.acceptRanges
    && r.headers.lastModified == Some(file.modTime / 1_000_000_000)
    && Received(OnWire(false, r))
       == Some([Part(TypeOf(file), first, last, |file.data|, file.data[first..last + 1])])
  }

  /** A GET for the bytes from `first` to `last`. */
  predicate AsksFor(req: Request, first: nat, last: nat) {
    !req.isHead && Unconditional(req) && req.ifRange == "" && req.range == "bytes=" + Itoa(first) + "-" + Itoa(last)
  }

  lemma SelectedSlice(req: Request, h: Headers, size: nat, first: nat, last: nat)
    requires AsksFor(req, first, last) && first <= last < size <= MAX_INT64
    ensures Select(req.range, IfRangeAllows(req, h), size) == Single(Range(first, last - first + 1))
  {
    hide Parsed;
    OneRange(first, last, 1, size);
    assert TrimSpace("") == "";
    assert req.range[0] == 'b';
  }

  /** From memory, whatever variants there are. */
  lemma SliceFromMemory(env: Env, base: Reply, req: Request, content: Content, file: DiskFile, url: string, first: nat,
                        last: nat, boundary: string)
    requires Blank(base) && AsksFor(req, first, last) && first <= last < |file.data| <= MAX_INT64
    requires SameSource(content, Described(env, file, url, None, None, None))
    ensures IsSlice(env, HitReply(base, req, content, env.compression, env.etags, env.weigh, boundary), file, first,
                    last)
  {
    hide Select, IfRangeAllows, Negotiated, Received;
    var coding := Negotiated(content, req, env.compression, env.weigh);
    var h := HitHeaders(base.headers, content, coding, env.etags).(contentEncoding := None);
    SelectedSlice(req, h, |file.data|, first, last);
    SingleIsRead(base.(headers := h), Range(first, last - first + 1), file.data, boundary);
    assert req.range[0] == 'b';
  }

  /** From a stream. */
  lemma SliceStreamed(env: Env, base: Reply, req: Request, file: DiskFile, url: string, first: nat, last: nat,
                      boundary: string)
    requires Blank(base) && AsksFor(req, first, last) && first <= last < |file.data| && Servable(env, file)
    ensures IsSlice(env, LargeReply(base, req, file, LargeContent(env, file, url), true, env.maxServeSize, env.etags,
                                    boundary), file, first, last)
  {
    hide Select, IfRangeAllows, Received;
    var h := LargeHeaders(base.headers, file, LargeContent(env, file, url), env.etags);
    var r := Range(first, last - first + 1);
    SelectedSlice(req, h, |file.data|, first, last);
    StreamedAnswers(base.(headers := h), Single(r), false, file.data, None, boundary);
    InMemoryAnswers(base.(headers := h), Single(r), false, file.data, boundary);
    SingleIsRead(base.(headers := h), r, file.data, boundary);
  }

  /** Without caches, a GET for some bytes of a file, small or large, gets exactly these. */
  lemma SliceOwed(env: Env, base: Reply, req: Request, file: DiskFile, first: nat, last: nat, boundary: string)
    requires env.Valid() && Blank(base) && Sendable(env, req.urlPath, file)
    requires AsksFor(req, first, last) && first <= last < |file.data|
    ensures IsSlice(env, ColdReply(env, base, req, boundary), file, first, last)
  {
    hide IsSlice, Load, HitReply, LargeReply;
    var path := env.site.Path(req.urlPath).value;
    env.site.PathIsAbsolute(req.urlPath);
    if Small(env, file) {
      var content := Load(env, path, file, req.urlPath);
      LoadDescribed(env, path, file, req.urlPath);
      SliceFromMemory(env, Marked(base), req, content, file, req.urlPath, first, last, boundary);
    } else {
      RecheckHolds(env, req.urlPath);
      SliceStreamed(env, base, req, file, req.urlPath, first, last, boundary);
    }
  }

  /** If-Range with a tag, or with a date that is not the one sent: Range does not count. */
  predicate IsStale(req: Request, file: DiskFile) {
    var v := TrimSpace(req.ifRange);
    v != "" && (HasPrefix(v, "\"") || HasPrefix(v, "W/") || req.ifRangeTime != Some(file.modTime / 1_000_000_000))
  }

  /** A stale If-Range gets the whole file, as it is. */
  lemma StaleOwed(env: Env, base: Reply, req: Request, file: DiskFile, boundary: string)
    requires env.Valid() && Blank(base) && Sendable(env, req.urlPath, file)
    requires !req.isHead && Unconditional(req) && req.range != "" && IsStale(req, file)
    ensures var r := ColdReply(env, base, req, boundary);
            && r.status == 200 && BodyBytes(r.body) == file.data
            && r.headers.contentRange.None? && r.headers.contentEncoding.None?
  {
    hide IsStale, Load, HitReply, LargeReply;
    var path, url := env.site.Path(req.urlPath).value, req.urlPath;
    env.site.PathIsAbsolute(url);
    if Small(env, file) {
      LoadDescribed(env, path, file, url);
      StaleSmall(env, Marked(base), req, Load(env, path, file, url), file, url, boundary);
    } else {
      RecheckHolds(env, url);
      StaleLarge(env, base, req, file, url, boundary);
    }
  }

  lemma StaleSmall(env: Env, base: Reply, req: Request, content: Content, file: DiskFile, url: string,
                   boundary: string)
    requires Blank(base) && !req.isHead && req.range != "" && IsStale(req, file)
    requires SameSource(content, Described(env, file, url, None, None, None))
    ensures var r := HitReply(base, req, content, env.compression, env.etags, env.weigh, boundary);
            && r.status == 200 && BodyBytes(r.body) == file.data
            && r.headers.contentRange.None? && r.headers.contentEncoding.None?
  {
    hide Parsed, Negotiated, TrimSpace;
    IfRangeMeaning(req, base.headers.(cacheHit := Some(true)), content, env.etags);
  }

  lemma StaleLarge(env: Env, base: Reply, req: Request, file: DiskFile, url: string, boundary: string)
    requires Blank(base) && !req.isHead && Unconditional(req) && IsStale(req, file) && Servable(env, file)
    ensures var r := LargeReply(base, req, file, LargeContent(env, file, url), true, env.maxServeSize, env.etags,
                                boundary);
            && r.status == 200 && BodyBytes(r.body) == file.data
            && r.headers.contentRange.None? && r.headers.contentEncoding.None?
  {
    hide Parsed, TrimSpace, ReadersFor, Concat;
    IfRangeMeaning(req, base.headers, LargeContent(env, file, url), env.etags);
    ConcatReaders(Whole, file.data, boundary, file.Type());
  }

  lemma LoadDescribed(env: Env, path: string, file: DiskFile, url: string)
    ensures SameSource(Load(env, path, file, url), Described(env, file, url, None, None, None))
  {
  }

  /** A HEAD gets no body, and the length and the description of the whole file that a GET gets. */
  predicate IsHeadOf(env: Env, h: Reply, g: Reply, file: DiskFile, tag: string, url: string) {
    && h.status == g.status == 200 && BodyBytes(h.body) == ""
    && h.headers.contentEncoding == g.headers.contentEncoding
    && Announced(true, h) == Announced(false, g) == Some(|BodyBytes(g.body)|)
    && Describes(env, h.headers, file, tag, url)
  }

  lemma HeadSmall(env: Env, base: Reply, req: Request, content: Content, file: DiskFile, url: string,
                  boundary: string)
    requires Blank(base) && PlainGet(req) && Sound(content, env.codecs)
    requires SameSource(content, Described(env, file, url, None, None, None))
    ensures var head := req.(isHead := true);
            IsHeadOf(env, HitReply(base, head, content, env.compression, env.etags, env.weigh, boundary),
                     HitReply(base, req, content, env.compression, env.etags, env.weigh, boundary), file,
                     env.hash(file.data), url)
  {
    UsableIgnoresHead(req, content, env.weigh, 0);
    WholeIsFile(env, base, content, Negotiated(content, req, env.compression, env.weigh), file, url);
  }

  lemma HeadLarge(env: Env, base: Reply, req: Request, file: DiskFile, url: string, boundary: string)
    requires Blank(base) && PlainGet(req) && Servable(env, file)
    ensures var content := LargeContent(env, file, url);
            IsHeadOf(env, LargeReply(base, req.(isHead := true), file, content, true, env.maxServeSize, env.etags,
                                     boundary),
                     LargeReply(base, req, file, content, true, env.maxServeSize, env.etags, boundary), file,
                     env.sizeTag(|file.data|, file.modTime), url)
  {
    hide Parsed, Itoa, Concat, ReadersFor;
    ConcatReaders(Whole, file.data, boundary, file.Type());
  }

  /** Without caches, HEAD is answered like GET but for the body. */
  lemma HeadOwed(env: Env, base: Reply, req: Request, file: DiskFile, boundary: string)
    requires env.Valid() && Blank(base) && PlainGet(req) && Sendable(env, req.urlPath, file)
    ensures var tag := if |file.data| <= env.maxFileSize then env.hash(file.data)
                       else env.sizeTag(|file.data|, file.modTime);
            IsHeadOf(env, ColdReply(env, base, req.(isHead := true), boundary), ColdReply(env, base, req, boundary),
                     file, tag, req.urlPath)
  {
    hide IsHeadOf, Load, HitReply, LargeReply, Sound, GzipReady;
    var path, url := env.site.Path(req.urlPath).value, req.urlPath;
    env.site.PathIsAbsolute(url);
    if Small(env, file) {
      PathSound(env, url, url);
      LoadDescribed(env, path, file, url);
      HeadSmall(env, Marked(base), req, Load(env, path, file, url), file, url, boundary);
    } else {
      RecheckHolds(env, url);
      HeadLarge(env, base, req, file, url, boundary);
    }
  }

  // ---------------------------------------------------------------------------
  // Variants
  // ---------------------------------------------------------------------------

  /**
   A sidecar is read exactly when its place resolves to a readable regular file
   below the root, the root itself aside, that is not larger than the limit.
   */
  lemma SidecarIff(env: Env, sidecar: string, limit: nat, bytes: Bytes)
    requires env.Valid()
    ensures ReadSidecar(env, sidecar, limit) == Some(bytes)
            <==> var at := env.site.links.Eval(FromDir(env.site.AbsRoot(), sidecar));
                 && at.Resolved? && RootSegments(env) <= Segments(at.path)
                 && (at.path == env.site.RealRoot() ==> at.path == "/")
                 && env.StatAt(at.path).Regular? && env.StatAt(at.path).file.access.Readable?
                 && env.StatAt(at.path).file.data == bytes && (limit > 0 ==> |bytes| <= limit)
  {
    hide Segments, Env.Valid;
    env.Basics();
    SidecarPlaceIs(env, sidecar);
    var at := env.site.links.Eval(SidecarPlace(env, sidecar));
    if at.Resolved? {
      PlaceBelow(env, SidecarPlace(env, sidecar));
    }
  }

  /** For what a sidecar's place resolves to the string tests decide whether it is below the root. */
  lemma PlaceBelow(env: Env, place: string)
    requires env.Valid() && IsAbs(place) && env.site.links.Eval(place).Resolved?
    ensures var p, root := env.site.links.Eval(place).path, env.site.RealRoot();
            && (UnderRoot(p, root) <==> RootSegments(env) <= Segments(p))
            && (HasPrefix(CleanAny(p), env.RootSep()) <==> RootSegments(env) <= Segments(p) && (p != root || p == "/"))
  {
    hide Segments, Env.Valid;
    env.Basics();
    var p, root := env.site.links.Eval(place).path, env.site.RealRoot();
    assert env.site.links.Settled(env.site.links.Eval(place));
    env.site.RootsAreClean();
    SegmentsPlain(root);
    SegmentsPlain(p);
    UnderRootIsPrefix(RootSegments(env), Segments(p));
    env.site.links.CleanIsAbs(p);
    if RootSegments(env) <= Segments(p) {
      RootOrBelow(RootSegments(env), Segments(p));
    }
  }

  /** Which sidecars a loaded file takes, by the extensions of their names, and which variants are made. */
  lemma VariantsLoaded(env: Env, path: string, file: DiskFile, key: string)
    ensures var content := Load(env, path, file, key);
            if env.compression.on && IsListedType(TypeOf(file)) && |file.data| >= env.compression.minSize then
              var sidecar := (name: string) =>
                if env.precompressed then ReadSidecar(env, name, |file.data|) else None;
              var gz, br, zst := sidecar(path + ".gz"), sidecar(path + ".br"), sidecar(path + ".zst");
              && content.gzip == (if gz.Some? then gz else Some(env.codecs.gzip(file.data)))
              && content.br == br
              && content.zstd == (if zst.Some? then zst else Some(env.codecs.zstd(file.data)))
            else content.gzip.None? && content.br.None? && content.zstd.None?
  {
    hide ReadSidecar, IsListedType;
    CompressibleIff(file.Type());
  }

  /** Brotli before zstd before gzip, of what there is and the client takes; the middleware asks for gzip. */
  lemma CodingOwed(content: Content, req: Request, s: Settings, weigh: string -> Weight, offers: seq<Offer>)
    requires AllOffers(offers) && req.acceptEncoding == Join(OfferTexts(offers), ", ")
    ensures Negotiated(content, req, s, weigh)
            == if !s.on then None
               else if content.br.Some? && Takes(offers, "br", weigh) then Some(Brotli)
               else if content.zstd.Some? && Takes(offers, "zstd", weigh) then Some(Zstd)
               else if content.gzip.Some? && Takes(offers, "gzip", weigh) then Some(Gzip)
               else None
    ensures Willing(req, s, weigh) <==> s.on && Takes(offers, "gzip", weigh)
  {
    hide Takes, Accepted;
    OffersAreRead(offers, "br", weigh);
    OffersAreRead(offers, "zstd", weigh);
    OffersAreRead(offers, "gzip", weigh);
    assert FirstUsable(content, req, weigh, 3) == None;
  }
}
