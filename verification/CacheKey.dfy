/** CacheKeyForPath (internal/headers/headers.go) and the index URL of a directory. */
module CacheKey {
  import opened Text
  import opened Paths

  function IndexName(indexFile: string): string {
    if indexFile == "" then "index.html" else indexFile
  }

  /** The cache key of a URL path. */
  function KeyForPath(urlPath: string, indexFile: string): string {
    var index := IndexName(indexFile);
    var isDir := urlPath == "" || urlPath == "/" || HasSuffix(urlPath, "/");
    var clean := Clean("/" + urlPath);
    if clean == "/" then "/" + index
    else if isDir then clean + "/" + index
    else clean
  }

  predicate NamesDir(urlPath: string) {
    urlPath == "" || HasSuffix(urlPath, "/")
  }

  /** What a URL names: its cleaned segments, completed by the index when it names a directory. */
  function Named(urlPath: string, index: string): seq<string> {
    var segs := Segments(urlPath);
    if segs == [] || NamesDir(urlPath) then segs + [index] else segs
  }

  // ---------------------------------------------------------------------------
  // Segments of URLs
  // ---------------------------------------------------------------------------

  lemma SegmentsSlashFirst(p: string)
    ensures Segments("/" + p) == Segments(p)
  {
    assert "/" + p == "" + ['/'] + p;
    SplitFirst("", p, '/');
    WalkSkip([""], Split(p, '/'), 0, []);
  }

  lemma SegmentsSlashLast(p: string)
    ensures Segments(p + "/") == Segments(p)
  {
    SegmentsConcat(p, "");
    assert p + "/" + "" == p + "/";
    SplitNone("", '/');
    assert Walk([""], 1, Segments(p)) == Segments(p);
  }

  lemma RenderSnoc(segs: seq<string>, seg: string)
    requires segs != []
    ensures Render(segs + [seg]) == Render(segs) + "/" + seg
  {
    RenderAppend(segs, [seg]);
  }

  lemma RenderSingle(seg: string)
    ensures Render([] + [seg]) == "/" + seg
  {
    assert [] + [seg] == [seg];
  }

  lemma NamedPlain(urlPath: string, index: string)
    requires Plain(index)
    ensures AllPlain(Named(urlPath, index)) && Named(urlPath, index) != []
  {
    SegmentsPlain(urlPath);
  }

  // ---------------------------------------------------------------------------
  // The key is a canonical form
  // ---------------------------------------------------------------------------

  lemma SlashIsRoot(segs: seq<string>)
    requires AllPlain(segs)
    ensures Render(segs) == "/" <==> segs == []
  {
    SegmentsRender(segs);
    SegmentsRender([]);
  }

  /** The key is the text of what the URL names. */
  lemma KeyIsNamed(urlPath: string, indexFile: string)
    requires Plain(IndexName(indexFile))
    ensures KeyForPath(urlPath, indexFile) == Render(Named(urlPath, IndexName(indexFile)))
  {
    var segs, index := Segments(urlPath), IndexName(indexFile);
    SegmentsSlashFirst(urlPath);
    SegmentsPlain(urlPath);
    SlashIsRoot(segs);
    if segs == [] {
      RenderSingle(index);
    } else if NamesDir(urlPath) {
      RenderSnoc(segs, index);
    }
    EndsInSlash("");
    assert "" + "/" == "/";
  }

  lemma EndsInSlash(p: string)
    ensures HasSuffix(p + "/", "/")
  {
  }

  /** Keys are cleaned paths that never end in a separator, and their own keys. */
  lemma KeyCanonical(urlPath: string, indexFile: string)
    requires Plain(IndexName(indexFile))
    ensures var key := KeyForPath(urlPath, indexFile);
            && IsClean(key) && !HasSuffix(key, "/") && KeyForPath(key, indexFile) == key
  {
    var index := IndexName(indexFile);
    var named := Named(urlPath, index);
    KeyIsNamed(urlPath, indexFile);
    NamedPlain(urlPath, index);
    SegmentsRender(named);
    RenderEnd(named);
    KeyIsNamed(Render(named), indexFile);
  }

  /** Two URLs share a key exactly when they name the same target. */
  lemma SameKeyIff(u: string, v: string, indexFile: string)
    requires Plain(IndexName(indexFile))
    ensures KeyForPath(u, indexFile) == KeyForPath(v, indexFile)
            <==> Named(u, IndexName(indexFile)) == Named(v, IndexName(indexFile))
  {
    var index := IndexName(indexFile);
    KeyIsNamed(u, indexFile);
    KeyIsNamed(v, indexFile);
    NamedPlain(u, index);
    NamedPlain(v, index);
    SegmentsRender(Named(u, index));
    SegmentsRender(Named(v, index));
  }

  // ---------------------------------------------------------------------------
  // The second key: the index of a directory
  // ---------------------------------------------------------------------------

  function TrimSlashes(s: string): (t: string)
    decreases |s|
  {
    if s != "" && s[|s| - 1] == '/' then TrimSlashes(s[..|s| - 1]) else s
  }

  function IndexURL(urlPath: string, indexFile: string): string {
    TrimSlashes(urlPath) + "/" + IndexName(indexFile)
  }

  /** The form in which the HTTP library hands over URL paths. */
  predicate Normalised(urlPath: string) {
    urlPath == Clean(urlPath) || (urlPath == Clean(urlPath) + "/" && Clean(urlPath) != "/")
  }

  lemma TrimSlashLast(segs: seq<string>)
    requires AllPlain(segs) && segs != []
    ensures TrimSlashes(Render(segs)) == Render(segs) && TrimSlashes(Render(segs) + "/") == Render(segs)
  {
    var p := Render(segs);
    JoinLast(segs);
    assert p[|p| - 1] == Join(segs, "/")[|p| - 2];
    assert (p + "/")[..|p|] == p;
  }

  /** For a normalised URL the second key is the text of its segments and the index. */
  lemma IndexURLIs(urlPath: string, indexFile: string)
    requires Normalised(urlPath) && Plain(IndexName(indexFile))
    ensures IndexURL(urlPath, indexFile) == Render(Segments(urlPath) + [IndexName(indexFile)])
    ensures Segments(IndexURL(urlPath, indexFile)) == Segments(urlPath) + [IndexName(indexFile)]
  {
    var segs, index := Segments(urlPath), IndexName(indexFile);
    SegmentsPlain(urlPath);
    SegmentsRender(segs + [index]);
    SlashIsRoot(segs);
    if segs == [] {
      assert urlPath == "/" && "/"[..0] == "" && TrimSlashes("/") == TrimSlashes("") == "";
      RenderSingle(index);
      assert "" + "/" + index == "/" + index;
    } else {
      TrimSlashLast(segs);
      RenderSnoc(segs, index);
    }
  }

  /**
   The two keys of one request, and the third it stores under: a URL that names
   a directory has the same key and index URL; otherwise its key is itself.
   */
  lemma KeyOfNormalised(urlPath: string, indexFile: string)
    requires Normalised(urlPath) && Plain(IndexName(indexFile))
    ensures KeyForPath(urlPath, indexFile)
            == if Segments(urlPath) == [] || NamesDir(urlPath) then IndexURL(urlPath, indexFile) else urlPath
  {
    KeyIsNamed(urlPath, indexFile);
    IndexURLIs(urlPath, indexFile);
    EndsInSlash(Clean(urlPath));
  }
}
