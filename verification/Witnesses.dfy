/**
 Three servers on small trees, as inputs on which the caches show: a 304 instead
 of a file, a file instead of a listing, and another file's contents instead of a
 file's compressed variant.
 */
module Witnesses {
  import opened Wrappers
  import opened Text
  import opened Paths
  import opened PathSafety
  import opened PathCaching
  import opened CacheKey
  import opened Lru
  import opened FileCache
  import opened HeaderLists
  import opened ClientLists
  import opened Http
  import opened Compression
  import opened Streaming
  import opened FileHandling
  import opened Serving
  import opened Transparency
  import opened Misreading
  import opened Handler
  import opened Preloading
  import opened History
  import opened Linkless

  // ---------------------------------------------------------------------------
  // Environments
  // ---------------------------------------------------------------------------

  function PlainText(data: Bytes): DiskFile {
    DiskFile(data, 0, Some("text/plain"), "", Readable)
  }

  /** A server on a tree; `zip` switches compression and sidecars on. The codecs copy. */
  function World(t: Tree, root: string, zip: bool): Env {
    Env(Site(t.Links(), root, false), p => t.At(p), "", 100, 0, true, false, Settings(zip, 0, 0), zip,
        Codecs(x => x, x => x, (c, x) => x), x => Positive, x => "", (n, time) => "", (key, kind) => "",
        (url, req) => ErrorReply(404, "Not Found"), (path, req) => ErrorReply(200, ""))
  }

  lemma WorldIsOn(t: Tree, root: string, zip: bool)
    requires root != ""
    ensures On(World(t, root, zip), t)
  {
  }

  function Get(urlPath: string, acceptEncoding: string): Request {
    Request(urlPath, false, "", "", None, "", None, acceptEncoding)
  }

  // ---------------------------------------------------------------------------
  // A root directory with one file
  // ---------------------------------------------------------------------------

  function Single(name: string, data: Bytes): Tree {
    Tree(map[[] := Directory, [name] := Regular(PlainText(data))], [])
  }

  function Home(name: string, data: Bytes, listing: bool): Env {
    World(Single(name, data), "/", false).(listing := listing)
  }

  predicate IsName(name: string) {
    Plain(name) && '\0' !in name
  }

  lemma NameFacts(name: string)
    requires IsName(name)
    ensures AllPlain([name]) && Render([name]) == "/" + name && '\0' !in "/" + name
    ensures Segments("/" + name) == [name] && IsClean("/" + name)
  {
    assert Join([name], "/") == name;
    SegmentsRender([name]);
  }

  lemma SlashFacts()
    ensures Render([]) == "/" && Segments("/") == [] && IsClean("/") && Normalised("/") && '\0' !in "/"
  {
    SegmentsRender([]);
  }

  lemma HomeIsValid(name: string, data: Bytes, listing: bool)
    requires IsName(name) && |data| <= MAX_INT64
    ensures Single(name, data).Valid() && Home(name, data, listing).Valid()
  {
    var t := Single(name, data);
    NameFacts(name);
    SlashFacts();
    assert [name][..0] == [];
    assert forall segs | segs in t.nodes :: segs == [] || segs == [name];
    WorldIsOn(t, "/", false);
    TreeIsValid(Home(name, data, listing), t);
  }

  lemma HomePlaces(name: string, data: Bytes, listing: bool)
    requires IsName(name)
    ensures var env := Home(name, data, listing);
            && env.StatAt("/") == Directory && env.StatAt("/" + name) == Regular(PlainText(data))
            && env.site.links.Eval("/") == Resolved("/")
            && env.site.links.Eval("/" + name) == Resolved("/" + name)
            && env.site.links.Absolute("/") == "/" && env.site.links.Absolute("/" + name) == "/" + name
  {
    NameFacts(name);
    SlashFacts();
    Single(name, data).CleanPlace("/");
    Single(name, data).CleanPlace("/" + name);
  }

  /** At the root directory, without links, a URL leads to its own cleaned path. */
  lemma PathAtRoot(env: Env, p: string)
    requires env.site.RealRoot() == "/" && !env.site.block && env.site.links.Eval(p) == Resolved(p) && IsClean(p)
    requires '\0' !in p && Segments("/") == []
    ensures env.site.Path(p) == Ok(p)
  {
    SegmentsSlashFirst(p);
    assert Target([], p) == Segments(p);
  }

  lemma HomePaths(name: string, data: Bytes, listing: bool)
    requires IsName(name)
    ensures var env := Home(name, data, listing);
            && env.site.Path("/") == Ok("/") && env.site.Path("/" + name) == Ok("/" + name)
            && env.StatOf("/") == Directory && env.StatOf("/" + name) == Regular(PlainText(data))
  {
    hide Segments, IsClean, Normalised;
    var env := Home(name, data, listing);
    NameFacts(name);
    SlashFacts();
    HomePlaces(name, data, listing);
    assert env.site.RealRoot() == "/";
    PathAtRoot(env, "/");
    PathAtRoot(env, "/" + name);
  }

  lemma FitsAt(env: Env, path: string, file: DiskFile)
    requires env.StatOf(path) == Regular(file) && Small(env, file) && file.access.Readable?
    requires Load(env, path, file, path).TotalSize() <= 1000
    ensures Cacheable(env, Ok(path), path, 1000)
  {
  }

  lemma SmallAt(env: Env, path: string, file: DiskFile)
    requires env.StatOf(path) == Regular(file) && Small(env, file) && file.access.Readable?
    requires env.site.Path(path) == Ok(path)
    ensures ToSmallFile(env, path) && FileFor(env, path) == Load(env, path, file, path)
  {
  }

  lemma HomeFits(name: string, data: Bytes, listing: bool)
    requires IsName(name) && |data| <= 100
    ensures var env := Home(name, data, listing);
            && Cacheable(env, Ok("/" + name), "/" + name, 1000)
            && ToSmallFile(env, "/" + name) && FileFor(env, "/" + name).etag == ""
  {
    hide Cacheable, ToSmallFile, FileFor;
    var env := Home(name, data, listing);
    HomePaths(name, data, listing);
    FitsAt(env, "/" + name, PlainText(data));
    SmallAt(env, "/" + name, PlainText(data));
  }

  // ---------------------------------------------------------------------------
  // A 304 instead of the file
  // ---------------------------------------------------------------------------

  function OneFile(): Env {
    Home("a", "hi", false)
  }

  lemma OneFileFacts()
    ensures var env := OneFile();
            && env.Valid() && env.site.Path("/a") == Ok("/a") && Normalised("/a") && !env.listing && env.etags
            && Cacheable(env, Ok("/a"), "/a", 1000) && ToSmallFile(env, "/a") && FileFor(env, "/a").etag == ""
  {
    hide Cacheable, ToSmallFile, FileFor;
    assert IsName("a") && "/" + "a" == "/a";
    HomeIsValid("a", "hi", false);
    HomePaths("a", "hi", false);
    HomeFits("a", "hi", false);
    NameFacts("a");
  }

  /**
   The second request for the one file, with the validators of the first reply,
   is answered 304; a server without caches answers 200.
   */
  method RevisitOneFile() returns (r1: Reply, again: Request, r2: Reply)
    ensures again == SentBack(Get("/a", ""), r1.headers, true) && r2.status == 304
    ensures ColdReply(OneFile(), BLANK, again, "").status == 200
  {
    hide OneFile, ColdReply, Cacheable, ToSmallFile, FileFor, Normalised, Resolve, Env.Valid;
    OneFileFacts();
    var cache := new Cache(1000, 0);
    var h := new FileHandler(OneFile(), cache, null);
    r1, again, r2 := Revisit(h, Get("/a", ""), 0, "");
  }

  // ---------------------------------------------------------------------------
  // A cached index instead of a listing
  // ---------------------------------------------------------------------------

  /** The root directory has an index, and the server has listings on. */
  function Listed(): Env {
    Home("index.html", "home", true)
  }

  lemma IndexedKey()
    ensures KeyForPath("/", Listed().indexFile) == "/index.html"
  {
    SegmentsSlashFirst("/");
    SlashFacts();
  }

  lemma ListedFacts()
    ensures var env := Listed();
            && env.Valid() && env.site.Path("/") == Ok("/") && env.site.Path("/index.html") == Ok("/index.html")
            && env.StatOf("/") == Directory && env.site.links.Absolute("/") == "/"
            && Cacheable(env, Ok("/index.html"), "/index.html", 1000)
  {
    hide Cacheable, ToSmallFile, FileFor;
    assert IsName("index.html") && "/" + "index.html" == "/index.html";
    HomeIsValid("index.html", "home", true);
    HomePaths("index.html", "home", true);
    HomePlaces("index.html", "home", true);
    HomeFits("index.html", "home", true);
  }

  lemma ColdListing(env: Env, req: Request, path: string, boundary: string)
    requires env.site.Path(req.urlPath) == Ok(path) && env.site.links.Absolute(path) == path
    requires ListingDue(env, req.urlPath)
    ensures ColdReply(env, BLANK, req, boundary) == env.listings(path, req)
  {
  }

  /** A server without caches lists the directory. */
  lemma ListedListing()
    ensures var env := Listed();
            && ListingDue(env, "/") && ListingsUndated(env)
            && ColdReply(env, BLANK, Get("/", ""), "") == env.listings("/", Get("/", ""))
  {
    hide ColdReply, Cacheable, Env.Valid;
    ListedFacts();
    ColdListing(Listed(), Get("/", ""), "/", "");
  }

  /** After its index, the directory itself is not answered with the listing a server without caches gives. */
  method BrowseIndexed() returns (r1: Reply, r2: Reply)
    ensures !Agrees(r2, ColdReply(Listed(), BLANK, Get("/", ""), ""), false, Listed().codecs)
    ensures ColdReply(Listed(), BLANK, Get("/", ""), "") == Listed().listings("/", Get("/", ""))
  {
    hide Listed, Cacheable, Normalised, Agrees, KeyForPath, ColdReply, ListingDue, ListingsUndated, Env.Valid;
    ListedFacts();
    IndexedKey();
    SlashFacts();
    ListedListing();
    var cache := new Cache(1000, 0);
    var h := new FileHandler(Listed(), cache, null);
    r1, r2 := HideListing(h, Get("/", ""), 0, "");
  }

  // ---------------------------------------------------------------------------
  // Another file's compressed variant instead of the file's own
  // ---------------------------------------------------------------------------

  /** The root `p` holds a file `x`, and below a directory that is also called `p` something called `x.gz`. */
  const NESTED := Tree(
    map[[] := Directory, ["w"] := Directory, ["w", "p"] := Directory, ["w", "p", "p"] := Directory,
        ["w", "p", "x"] := Regular(PlainText("data")), ["w", "p", "p", "x.gz"] := Regular(PlainText("old"))],
    ["w"])

  /** The server is started in `/w` with the root `./p`, as the default configuration would have it. */
  function Nested(): Env {
    World(NESTED, "./p", true)
  }

  lemma {:induction false} JoinSuffix(front: seq<string>, name: string, ext: string)
    ensures Join(front + [name], "/") + ext == Join(front + [name + ext], "/")
  {
    if front == [] {
      assert [] + [name] == [name] && [] + [name + ext] == [name + ext];
    } else {
      JoinSuffix(front[1..], name, ext);
      assert front + [name] == [front[0]] + (front[1..] + [name]);
      assert front + [name + ext] == [front[0]] + (front[1..] + [name + ext]);
      JoinCons(front[0], front[1..] + [name], "/");
      JoinCons(front[0], front[1..] + [name + ext], "/");
    }
  }

  lemma PlainWith(front: seq<string>, name: string, c: Coding)
    requires AllPlain(front + [name])
    ensures AllPlain(front + [name + Extension(c)])
  {
    assert Plain((front + [name])[|front|]);
    forall k | 0 <= k < |front| ensures Plain(front[k]) {
      assert (front + [name])[k] == front[k];
    }
  }

  /** The sidecar of a file of the tree is looked for beside it. */
  lemma SidecarBeside(env: Env, front: seq<string>, name: string, c: Coding)
    requires AllPlain(front + [name])
    ensures SidecarPlace(env, Render(front + [name]) + Extension(c)) == Render(front + [name + Extension(c)])
    ensures Segments(Render(front + [name + Extension(c)])) == front + [name + Extension(c)]
  {
    var place := Render(front + [name + Extension(c)]);
    JoinSuffix(front, name, Extension(c));
    PlainWith(front, name, c);
    SegmentsRender(front + [name + Extension(c)]);
    assert place == Render(front + [name]) + Extension(c);
    assert place[0] == '/';
  }

  lemma NoSidecar(front: seq<string>, name: string, c: Coding, limit: nat)
    requires AllPlain(front + [name]) && front + [name + Extension(c)] !in NESTED.nodes
    ensures SidecarAt(Nested(), Render(front + [name]), c, limit).None?
  {
    SidecarBeside(Nested(), front, name, c);
    PlainWith(front, name, c);
    NESTED.CleanPlace(Render(front + [name + Extension(c)]));
  }

  lemma NestedNames()
    ensures AllPlain(["w", "p", "p", "x.gz"]) && AllPlain(["w", "p", "x"])
    ensures Render(["w", "p"]) == "/w/p" && Render(["w", "p", "x"]) == "/w/p/x"
    ensures Render(["w", "p", "p", "x.gz"]) == "/w/p/p/x.gz"
  {
    assert Join(["x"], "/") == "x" && Join(["p", "x"], "/") == "p" + "/" + Join(["p", "x"][1..], "/");
    assert ["p", "x"][1..] == ["x"] && ["w", "p", "x"][1..] == ["p", "x"] && ["w", "p"][1..] == ["p"];
    assert Join(["p"], "/") == "p";
    assert ["p", "p", "x.gz"][1..] == ["p", "x.gz"] && ["w", "p", "p", "x.gz"][1..] == ["p", "p", "x.gz"];
    assert ["p", "x.gz"][1..] == ["x.gz"] && Join(["x.gz"], "/") == "x.gz";
    assert Join(["p", "x.gz"], "/") == "p/x.gz";
    assert Join(["p", "p", "x.gz"], "/") == "p/p/x.gz";
  }

  lemma NestedTreeIsValid()
    ensures NESTED.Valid()
  {
    var t := NESTED;
    NestedNames();
    assert Render([]) == "/" && Render(["w"]) == "/w" && Render(["w", "p", "p"]) == "/w/p/p" by {
      assert ["w", "p", "p"][1..] == ["p", "p"] && ["p", "p"][1..] == ["p"];
      assert Join(["p", "p"], "/") == "p/p";
    }
    forall segs | segs in t.nodes ensures AllPlain(segs) && '\0' !in Render(segs) && OnDisk(t.nodes[segs]) {
    }
    forall segs | segs in t.nodes && segs != [] ensures t.HasParent(segs) {
      NestedParents(segs);
    }
  }

  lemma NestedParents(segs: seq<string>)
    requires segs in NESTED.nodes && segs != []
    ensures NESTED.HasParent(segs)
  {
    assert ["w"][..0] == [] && ["w", "p"][..1] == ["w"] && ["w", "p", "p"][..2] == ["w", "p"];
    assert ["w", "p", "x"][..2] == ["w", "p"] && ["w", "p", "p", "x.gz"][..3] == ["w", "p", "p"];
  }

  lemma NestedHonest(front: seq<string>, name: string, file: DiskFile)
    requires (front, name) == (["w", "p"], "x") || (front, name) == (["w", "p", "p"], "x.gz")
    ensures HonestAt(Nested(), Render(front + [name]), file)
  {
    hide SidecarAt, World;
    NestedNames();
    assert AllPlain(front + [name]);
    assert forall c :: front + [name + Extension(c)] !in NESTED.nodes;
    NoSidecar(front, name, Gzip, |file.data|);
    NoSidecar(front, name, Brotli, |file.data|);
    NoSidecar(front, name, Zstd, |file.data|);
  }

  lemma NestedFits(segs: seq<string>)
    requires segs in NESTED.nodes && NESTED.nodes[segs].Regular?
    ensures FileFits(Nested(), Render(segs), NESTED.nodes[segs].file)
  {
    hide HonestAt;
    var file := NESTED.nodes[segs].file;
    if segs == ["w", "p", "x"] {
      assert segs == ["w", "p"] + ["x"];
      NestedHonest(["w", "p"], "x", file);
    } else {
      assert segs == ["w", "p", "p"] + ["x.gz"];
      NestedHonest(["w", "p", "p"], "x.gz", file);
    }
  }

  lemma NestedIsValid()
    ensures Nested().Valid()
  {
    hide FileFits;
    WorldIsOn(NESTED, "./p", true);
    NestedTreeIsValid();
    forall segs | segs in NESTED.nodes && NESTED.nodes[segs].Regular?
      ensures FileFits(Nested(), Render(segs), NESTED.nodes[segs].file)
    {
      NestedFits(segs);
    }
    TreeIsValid(Nested(), NESTED);
  }

  lemma SplitPair(a: string, b: string)
    requires Free(a, '/') && Free(b, '/')
    ensures Split(a + "/" + b, '/') == [a, b]
  {
    SplitFirst(a, b, '/');
    SplitNone(b, '/');
    assert a + "/" + b == a + ['/'] + b;
  }

  /** A cleaned pair of names. */
  lemma PairIsClean(a: string, b: string)
    requires Plain(a) && Plain(b)
    ensures CleanAny(a + "/" + b) == a + "/" + b && !IsAbs(a + "/" + b)
  {
    var segs := [a, b];
    assert segs[1..] == [b] && Join([b], "/") == b && segs[..0] == [];
    assert RelRender(segs) == a + "/" + b;
    RelRenderRelative(segs);
    SplitRelRender(segs);
    RelWalkKeeps(segs, 0);
  }

  /** Below an absolute directory a relative pair adds two segments. */
  lemma PairLeads(dir: seq<string>, a: string, b: string)
    requires AllPlain(dir) && Plain(a) && Plain(b)
    ensures JoinPath(Render(dir), a + "/" + b) == Render(dir + [a, b])
  {
    SplitPair(a, b);
    SegmentsConcat(Render(dir), a + "/" + b);
    SegmentsRender(dir);
    assert Walk([a, b], 2, dir + [a] + [b]) == dir + [a] + [b] == dir + [a, b];
    assert Walk([a, b], 1, dir + [a]) == dir + [a, b];
  }

  /** A name after `./` is a name in the working directory. */
  lemma DotName(dir: seq<string>, name: string)
    requires AllPlain(dir) && Plain(name)
    ensures FromDir(Render(dir), "./" + name) == Render(dir + [name]) && CleanAny("./" + name) == name
  {
    SplitPair(".", name);
    assert "." + "/" + name == "./" + name;
    SegmentsConcat(Render(dir), "./" + name);
    SegmentsRender(dir);
    assert Walk([".", name], 2, dir + [name]) == dir + [name] && Walk([".", name], 1, dir) == dir + [name];
    assert RelWalk([".", name], 2, [name]) == [name] && RelWalk([".", name], 1, []) == [name];
    assert Join([name], "/") == name && ("./" + name)[0] != '/';
  }

  lemma NestedRoots()
    ensures var site := Nested().site;
            site.AbsRoot() == "/w/p" && site.RealRoot() == "/w/p" && site.links.RealRoot("./p") == "p"
  {
    hide Segments, CleanAny;
    var t := NESTED;
    NestedNames();
    NestedTreeIsValid();
    assert Plain("w") && Plain("p") && Render(["w"]) == "/w";
    assert ["w"] + ["p"] == ["w", "p"] && "./" + "p" == "./p";
    DotName(["w"], "p");
    SegmentsRender(["w", "p"]);
    t.CleanPlace("/w/p");
  }

  /** filepath.Join of a name and a rooted name. */
  lemma JoinName(a: string, b: string)
    requires Plain(a) && Plain(b)
    ensures JoinAny(a, "/" + b) == a + "/" + b && UnderRoot(a + "/" + b, a)
  {
    var joined := a + "/" + ("/" + b);
    SplitFirst("", b, '/');
    SplitNone(b, '/');
    assert "/" + b == "" + ['/'] + b;
    SplitFirst(a, "/" + b, '/');
    assert joined == a + ['/'] + ("/" + b) && joined[0] == a[0] && "/"[0] == '/';
    assert Split(joined, '/') == [a, "", b];
    var parts := [a, "", b];
    assert RelStep([], a) == [a] && RelStep([a], "") == [a] && RelStep([a], b) == [a, b];
    assert RelWalk(parts, 3, [a, b]) == [a, b] && RelWalk(parts, 2, [a]) == RelWalk(parts, 3, [a, b]);
    assert RelWalk(parts, 1, [a]) == RelWalk(parts, 2, [a]) && RelWalk(parts, 0, []) == RelWalk(parts, 1, [a]);
    assert [a, b][1..] == [b] && Join([b], "/") == b && RelRender([a, b]) == a + "/" + b;
    assert WithSep(a) == a + "/" by {
      assert a[|a| - 1..][0] == a[|a| - 1] != '/';
    }
  }

  lemma NestedTarget()
    ensures Clean("/" + "/x") == "/x" && Target(["w", "p"], "/x") == ["w", "p", "x"]
  {
    assert Plain("x") && AllPlain(["x"]) && Render(["x"]) == "/x" by {
      assert Join(["x"], "/") == "x";
    }
    SegmentsRender(["x"]);
    SegmentsSlashFirst("/x");
    assert ["w", "p"] + ["x"] == ["w", "p", "x"];
  }

  /** Pre-warming finds the relative path `p/x` where PathSafe answers `/w/p/x`. */
  lemma NestedFinds()
    ensures var site := Nested().site;
            && site.Found("/x") == Some("p/x") && site.links.Absolute("p/x") == "/w/p/x" && CleanAny("p/x") == "p/x"
            && site.Path("/x") == Ok("/w/p/x")
  {
    hide CleanAny, JoinAny, Segments, Clean, UnderRoot;
    NestedRoots();
    NestedTarget();
    NestedNames();
    assert Plain("p") && Plain("x") && AllPlain(["w"]) && Render(["w"]) == "/w";
    assert "p" + "/" + "x" == "p/x" && "/" + "x" == "/x" && ["w"] + ["p", "x"] == ["w", "p", "x"];
    JoinName("p", "x");
    PairIsClean("p", "x");
    PairLeads(["w"], "p", "x");
    SegmentsRender(["w", "p", "x"]);
    SegmentsRender(["w", "p"]);
    NestedPlaces();
  }

  lemma NestedPlaces()
    ensures Nested().site.links.Eval("/w/p/x") == Resolved("/w/p/x")
  {
    NestedNames();
    SegmentsRender(["w", "p", "x"]);
    NESTED.CleanPlace("/w/p/x");
  }

  /** The sidecar for the file `/w/p/x` is looked for at `/w/p/p/x.gz`. */
  lemma NestedSidecar()
    ensures SidecarAt(Nested(), "p/x", Gzip, 4) == Some("old")
  {
    hide CleanAny, Segments;
    var env, place := Nested(), ["w", "p", "p", "x.gz"];
    NestedRoots();
    NestedNames();
    assert Plain("p") && Plain("x.gz") && "p" + "/" + "x.gz" == "p/x.gz" == "p/x" + Extension(Gzip);
    assert AllPlain(["w", "p"]) && ["w", "p"] + ["p", "x.gz"] == place;
    PairIsClean("p", "x.gz");
    PairLeads(["w", "p"], "p", "x.gz");
    SegmentsRender(place);
    NESTED.CleanPlace("/w/p/p/x.gz");
    UnderRootIsPrefix(["w", "p"], place);
    assert place[..2] == ["w", "p"];
    assert "/w/p/p/x.gz" != "/w/p";
  }

  lemma PlainTextZips()
    ensures UsesSidecars(Nested(), PlainText("data"))
  {
    IndexFromMeaning("text/plain", ';', 0);
    assert Lower("text/plain") == "text/plain" == COMPRESSIBLE[2];
  }

  lemma NestedStat()
    ensures Nested().StatOf("p/x") == Regular(PlainText("data"))
  {
    NestedFinds();
    NestedNames();
    SegmentsRender(["w", "p", "x"]);
  }

  lemma GzipOnly()
    ensures forall c: Coding :: Accepts(Get("/x", "gzip"), c, Nested().weigh) <==> c == Gzip
  {
    var offers := [Offer("gzip", [])];
    assert OfferTexts(offers) == ["gzip"];
    forall c: Coding ensures Accepts(Get("/x", "gzip"), c, Nested().weigh) <==> c == Gzip {
      OffersAreRead(offers, CodingName(c), Nested().weigh);
      GzipTaken(offers, c);
    }
  }

  lemma GzipTaken(offers: seq<Offer>, c: Coding)
    requires offers == [Offer("gzip", [])]
    ensures Takes(offers, CodingName(c), Nested().weigh) <==> c == Gzip
  {
    assert offers[0].name == "gzip" && !SameLetter('g', 'z');
  }

  /** The client is sent the gzip variant of a file that has one. */
  lemma GzipSent(content: Content)
    requires content.gzip.Some?
    ensures Negotiated(content, Get("/x", "gzip"), Nested().compression, Nested().weigh) == Some(Gzip)
  {
    hide Accepts;
    var req, weigh := Get("/x", "gzip"), Nested().weigh;
    GzipOnly();
    assert PREFERENCE[0] == Brotli && PREFERENCE[1] == Zstd && PREFERENCE[2] == Gzip;
    assert FirstUsable(content, req, weigh, 2) == Some(Gzip);
    assert FirstUsable(content, req, weigh, 1) == FirstUsable(content, req, weigh, 2);
    assert FirstUsable(content, req, weigh, 0) == FirstUsable(content, req, weigh, 1);
  }

  lemma NestedLoads()
    ensures Load(Nested(), "p/x", PlainText("data"), "/x").gzip.Some?
  {
    hide SidecarAt;
    PlainTextZips();
  }

  lemma NestedSendsOld()
    ensures SmallMisread(Nested(), Get("/x", "gzip"), "p/x", PlainText("data"))
  {
    hide SidecarAt, Negotiated, Load, SmallMisread, UsesSidecars;
    NestedLoads();
    NestedSidecar();
    PlainTextZips();
    GzipSent(Load(Nested(), "p/x", PlainText("data"), "/x"));
    SmallMisreadMeaning(Nested(), Get("/x", "gzip"), "p/x", PlainText("data"));
  }

  lemma NestedIsMisread()
    ensures Misread(Nested(), BLANK, Get("/x", "gzip"), "p/x", None, None)
  {
    hide SmallMisread;
    NestedStat();
    NestedSendsOld();
  }

  /** The list after pre-warming one URL. */
  lemma WarmedSource(site: Site, urlPath: string, path: string, capacity: nat)
    requires capacity >= 1 && site.Found(urlPath) == Some(path)
    ensures Source(Warmed(Lru([]), [urlPath], 0, site, capacity), site, urlPath) == Ok(path)
  {
    var empty: Lru<string> := Lru([]);
    empty.AddPeek(urlPath, path, capacity, urlPath);
    assert Warmed(empty, [urlPath], 0, site, capacity) == WarmedOne(empty, urlPath, site, capacity);
  }

  /**
   Once `/x` is pre-warmed, and its file is not in the cache, a client that takes
   gzip only is sent the contents of `/w/p/p/x.gz`, which are not those of the
   file: the reply does not agree with the one of a server without caches.
   */
  lemma NestedMisread()
    ensures var env, req := Nested(), Get("/x", "gzip");
            var source := Source(Warmed(Lru([]), ["/x"], 0, env.site, DEFAULT_PATH_CACHE_SIZE), env.site, "/x");
            && env.Valid() && env.site.Path("/x") == Ok("/w/p/x") && source == Ok("p/x")
            && !Agrees(WarmReply(env, BLANK, req, source, None, None, ""), ColdReply(env, BLANK, req, ""), false,
                       env.codecs)
  {
    hide WarmReply, Misread, CleanAny, Segments;
    var env := Nested();
    NestedIsValid();
    NestedFinds();
    NestedIsMisread();
    WarmedSource(env.site, "/x", "p/x", DEFAULT_PATH_CACHE_SIZE);
    PathInvisibleIff(env, BLANK, Get("/x", "gzip"), "p/x", None, None, "");
  }

  lemma LeadingBy(env: Env, url: string, path: string, file: DiskFile)
    requires env.site.Valid() && env.site.Path(url) == Ok(env.site.links.Absolute(path))
    requires env.StatOf(path) == Regular(file) && Small(env, file)
    ensures Leading(env, url)
  {
    env.site.PathIsAbsolute(url);
  }

  lemma NestedLeading()
    ensures AllLeading(Nested(), ["/x"])
  {
    hide Leading;
    NestedIsValid();
    NestedFinds();
    NestedStat();
    LeadingBy(Nested(), "/x", "p/x", PlainText("data"));
  }

  lemma NothingFound(h: FileHandler, urlPath: string, now: int)
    requires h.cache != null && h.cache.lru.entries == []
    ensures h.First(urlPath, now).None? && h.Second(urlPath, now).None?
  {
    hide KeyForPath, SecondKey;
  }

  /** A handler with an empty cache, after pre-warming. */
  method WarmHandler(env: Env, keys: seq<string>) returns (h: FileHandler)
    requires env.Valid() && AllLeading(env, keys)
    ensures fresh(h) && h.Valid() && h.env == env
    ensures h.cache != null && fresh(h.cache) && h.cache.lru.entries == []
    ensures h.pathCache != null && fresh(h.pathCache)
    ensures h.pathCache.lru == Warmed(Lru([]), keys, 0, env.site, DEFAULT_PATH_CACHE_SIZE)
  {
    hide Env.Valid, AllLeading, Tolerable, Names;
    var pathCache := new PathCache(DEFAULT_PATH_CACHE_SIZE);
    WarmedOK(env, pathCache.lru, keys, 0, pathCache.capacity);
    pathCache.PreWarm(keys, env.site);
    var cache := new Cache(1000, 0);
    h := new FileHandler(env, cache, pathCache);
  }

  /** The same as a run: pre-warming, then the request to a handler with an empty cache. */
  method MisreadNested() returns (r: Reply)
    ensures !Agrees(r, ColdReply(Nested(), BLANK, Get("/x", "gzip"), ""), false, Nested().codecs)
  {
    hide Nested, WarmReply, ColdReply, Agrees, Env.Valid, Warmed, LookupsOK, SourceOK, EntriesOK, PathsOK, AllLeading;
    NestedMisread();
    NestedLeading();
    var h := WarmHandler(Nested(), ["/x"]);
    NothingFound(h, "/x", 0);
    r := AskHandler(h, Get("/x", "gzip"), 0, "");
  }
}
