/**
 Preload (internal/cache/preload.go): every eligible file of the walk is cached
 under the URL it has below the root, an index also under its directory.
 */
module Preloading {
  import opened Wrappers
  import opened Text
  import opened Paths
  import opened PathSafety
  import opened CacheKey
  import opened Lru
  import opened FileCache
  import opened Compression
  import opened Streaming
  import opened Serving
  import opened FileHandling
  import opened Transparency
  import opened Handler

  /** A file or link met by the directory walk. */
  datatype Walked = Walked(path: string, isLink: bool)

  /** The walk goes down from the resolved root and does not follow links: what is not one resolves to itself. */
  predicate WalkedBelow(env: Env, w: Walked) {
    && IsClean(w.path) && RootSegments(env) <= Segments(w.path)
    && (!w.isLink ==> env.site.links.Eval(w.path) == Resolved(w.path))
  }

  /** The file a walked entry stands for; None for a link that is broken or leads outside. */
  function RealFile(env: Env, w: Walked): Option<string> {
    if !w.isLink then Some(w.path)
    else
      match env.site.links.Eval(w.path)
      case Resolved(p) => if RootSegments(env) <= Segments(p) then Some(p) else None
      case NotExist => None
      case Unresolvable => None
  }

  /** The URL key of a file below the root. */
  function KeyOf(env: Env, p: string): string
    requires RootSegments(env) <= Segments(p)
  {
    Render(Segments(p)[|RootSegments(env)|..])
  }

  /** A file to load, and its key. */
  datatype Pick = Pick(key: string, file: DiskFile)

  /** Which file is loaded for a walked entry, and under which key. */
  function Chosen(env: Env, w: Walked): Option<Pick>
    requires WalkedBelow(env, w)
  {
    var found := RealFile(env, w);
    if found.None? then None
    else
      var p := found.value;
      if env.site.block && HasDot(Segments(p), |RootSegments(env)|) then None
      else
        match env.StatOf(p)
        case Regular(file) =>
          if Small(env, file) && file.access.Readable? then Some(Pick(KeyOf(env, p), file)) else None
        case Directory => None
        case Missing => None
        case NoPermission => None
        case StatFails => None
  }

  /** What the preloader caches: no sidecars, and gzip as the only variant. */
  function PreloadContent(env: Env, file: DiskFile, key: string): Content {
    var zip := env.compression.on && IsCompressibleType(file.Type()) && |file.data| >= env.compression.minSize;
    Described(env, file, key, if zip then Some(env.codecs.gzip(file.data)) else None, None, None)
  }

  // ---------------------------------------------------------------------------
  // What is preloaded is what a request would load
  // ---------------------------------------------------------------------------

  /** Preloaded content is sound, gzip-ready and of the same source as loaded content. */
  lemma PreloadSound(env: Env, path: string, file: DiskFile, key: string)
    requires env.codecs.Lossless() && |file.data| <= MAX_INT64
    ensures var content := PreloadContent(env, file, key);
            && Sound(content, env.codecs) && GzipReady(content, env.compression)
            && SameSource(content, Load(env, path, file, key))
  {
    if IsCompressible(file.Type()) {
      TableWithinPrefixes(file.Type());
    }
  }

  /** The text begins so, in any case; `lower` has no upper-case letters. */
  predicate BeginsLike(t: string, lower: string) {
    |lower| <= |t| && IsSpelt(t[..|lower|], lower)
  }

  predicate IsListedPrefix(t: string) {
    || BeginsLike(t, "text/") || BeginsLike(t, "application/javascript") || BeginsLike(t, "application/json")
    || BeginsLike(t, "application/xml") || BeginsLike(t, "application/wasm") || BeginsLike(t, "image/svg+xml")
    || BeginsLike(t, "font/") || BeginsLike(t, "application/font-woff")
  }

  lemma BeginsIff(t: string, lower: string)
    requires forall k | 0 <= k < |lower| :: !('A' <= lower[k] <= 'Z')
    ensures HasPrefix(Lower(t), lower) <==> BeginsLike(t, lower)
  {
    if |lower| <= |t| {
      SpeltIff(t[..|lower|], lower);
      assert Lower(t)[..|lower|] == Lower(t[..|lower|]);
    }
  }

  lemma PrefixListedIff(t: string)
    ensures PrefixListed(Lower(t)) <==> IsListedPrefix(t)
  {
    hide BeginsLike, Lower, HasPrefix;
    var ps := COMPRESSIBLE_PREFIXES;
    BeginsIff(t, "text/");
    BeginsIff(t, "application/javascript");
    BeginsIff(t, "application/json");
    BeginsIff(t, "application/xml");
    BeginsIff(t, "application/wasm");
    BeginsIff(t, "image/svg+xml");
    BeginsIff(t, "font/");
    BeginsIff(t, "application/font-woff");
    assert ps[0] == "text/" && ps[1] == "application/javascript" && ps[2] == "application/json";
    assert ps[3] == "application/xml" && ps[4] == "application/wasm" && ps[5] == "image/svg+xml";
    assert ps[6] == "font/" && ps[7] == "application/font-woff" && |ps| == 8;
  }

  /** A header value whose media type, the text before the first semicolon, begins like a listed one. */
  predicate IsPreloadType(ct: string) {
    exists n | 0 <= n <= |ct| ::
      && Free(ct[..n], ';')
      && if n == |ct| then IsListedPrefix(ct) else ct[n] == ';' && IsListedPrefix(TrimSpace(ct[..n]))
  }

  lemma PreloadTypeIff(ct: string)
    ensures IsCompressibleType(ct) <==> IsPreloadType(ct)
  {
    hide IsListedPrefix, PrefixListed, Lower, TrimSpace;
    var i := IndexByte(ct, ';');
    var n := if i < 0 then |ct| else i;
    IndexFromMeaning(ct, ';', 0);
    forall m | 0 <= m <= |ct| && Free(ct[..m], ';') && (m < |ct| ==> ct[m] == ';') ensures m == n {
      CutIsFirst(ct, ';', m);
    }
    assert Free(ct[..n], ';') && ct[..|ct|] == ct;
    PrefixListedIff(if i < 0 then ct else TrimSpace(ct[..i]));
  }

  /** What is preloaded: no sidecars, and gzip exactly for files of a listed kind that are large enough. */
  lemma VariantsPreloaded(env: Env, file: DiskFile, key: string)
    ensures var content := PreloadContent(env, file, key);
            && content.br.None? && content.zstd.None?
            && content.gzip == if && env.compression.on && IsPreloadType(file.Type())
                                  && |file.data| >= env.compression.minSize
                               then Some(env.codecs.gzip(file.data)) else None
  {
    hide IsPreloadType, IsCompressibleType;
    PreloadTypeIff(file.Type());
  }

  lemma NoNullBelow(root: seq<string>, rest: seq<string>)
    requires '\0' !in Render(root + rest)
    ensures '\0' !in Render(rest)
  {
    if root == [] {
      assert root + rest == rest;
    } else if rest == [] {
      assert Render(rest) == "/";
    } else {
      RenderTwo(root, rest);
      InSecond('\0', Render(root), Render(rest));
    }
  }

  lemma InSecond(c: char, a: string, b: string)
    requires c !in a + b
    ensures c !in b
  {
    forall i | 0 <= i < |b| ensures b[i] != c {
      assert (a + b)[|a| + i] == b[i];
    }
  }

  /** The URL of a fully resolved path below the root leads to that path. */
  lemma KeyLeadsBack(env: Env, p: string, key: string)
    requires env.Valid() && IsClean(p) && env.site.links.Eval(p) == Resolved(p) && RootSegments(env) <= Segments(p)
    requires !(env.site.block && HasDot(Segments(p), |RootSegments(env)|))
    requires Segments(key) == Segments(p)[|RootSegments(env)|..] && '\0' !in key
    ensures env.site.Path(key) == Ok(p)
  {
    var root := RootSegments(env);
    SegmentsSlashFirst(key);
    assert Target(root, key) == Segments(p);
  }

  lemma KeyOfSegments(env: Env, p: string)
    requires env.Valid() && IsClean(p) && env.site.links.Eval(p) == Resolved(p) && RootSegments(env) <= Segments(p)
    ensures Segments(KeyOf(env, p)) == Segments(p)[|RootSegments(env)|..] && '\0' !in KeyOf(env, p)
  {
    var root := RootSegments(env);
    var rest := Segments(p)[|root|..];
    SegmentsPlain(p);
    SegmentsRender(rest);
    assert root + rest == Segments(p);
    assert '\0' !in p;
    NoNullBelow(root, rest);
  }

  lemma RealFileFacts(env: Env, w: Walked)
    requires env.Valid() && WalkedBelow(env, w) && RealFile(env, w).Some?
    ensures var p := RealFile(env, w).value;
            IsClean(p) && env.site.links.Eval(p) == Resolved(p) && RootSegments(env) <= Segments(p)
  {
    env.site.links.CleanIsAbs(w.path);
    assert env.site.links.Settled(env.site.links.Eval(w.path));
  }

  /** A preloaded entry holds what disk serving of its key yields. */
  lemma ChosenOK(env: Env, w: Walked)
    requires env.Valid() && WalkedBelow(env, w) && Chosen(env, w).Some?
    ensures var c := Chosen(env, w).value;
            EntryOK(env, c.key, PreloadContent(env, c.file, c.key))
  {
    var p, c := RealFile(env, w).value, Chosen(env, w).value;
    RealFileFacts(env, w);
    KeyOfSegments(env, p);
    KeyLeadsBack(env, p, c.key);
    env.site.PathIsAbsolute(c.key);
    PreloadSound(env, p, c.file, c.key);
  }

  /**
   A file or link of the walk is loaded exactly when it resolves to a place below
   the root whose URL is answered with that very place, a small readable file; the
   key is that URL.
   */
  lemma ChosenIff(env: Env, w: Walked, key: string, file: DiskFile)
    requires env.Valid() && WalkedBelow(env, w)
    ensures Chosen(env, w) == Some(Pick(key, file))
            <==> var at := env.site.links.Eval(w.path);
                 && at.Resolved? && RootSegments(env) <= Segments(at.path)
                 && key == "/" + Join(Segments(at.path)[|RootSegments(env)|..], "/")
                 && env.site.Path(key) == Ok(at.path) && env.StatAt(at.path) == Regular(file)
                 && |file.data| <= env.maxFileSize && file.access.Readable?
  {
    hide Segments, HasDot;
    var at := env.site.links.Eval(w.path);
    if at.Resolved? && RootSegments(env) <= Segments(at.path) {
      PlaceFacts(env, w);
      var p := at.path;
      KeyOfSegments(env, p);
      var own := KeyOf(env, p);
      if !(env.site.block && HasDot(Segments(p), |RootSegments(env)|)) {
        KeyLeadsBack(env, p, own);
        env.site.PathIsAbsolute(own);
      } else {
        DottedRefused(env, p, own);
      }
    }
  }

  lemma PlaceFacts(env: Env, w: Walked)
    requires env.Valid() && WalkedBelow(env, w) && env.site.links.Eval(w.path).Resolved?
    ensures var p := env.site.links.Eval(w.path).path;
            IsClean(p) && env.site.links.Eval(p) == Resolved(p) && env.StatOf(p) == env.StatAt(p)
  {
    env.site.links.CleanIsAbs(w.path);
    assert env.site.links.Settled(env.site.links.Eval(w.path));
    env.site.links.AbsoluteIsClean(env.site.links.Eval(w.path).path);
  }

  /** The URL of a file with a dot-leading segment is refused when those are blocked. */
  lemma DottedRefused(env: Env, p: string, key: string)
    requires env.Valid() && IsClean(p) && env.site.links.Eval(p) == Resolved(p) && RootSegments(env) <= Segments(p)
    requires env.site.block && HasDot(Segments(p), |RootSegments(env)|)
    requires Segments(key) == Segments(p)[|RootSegments(env)|..]
    ensures env.site.Path(key).Err?
  {
    hide Segments, HasDot, Env.Valid;
    SegmentsSlashFirst(key);
    assert Target(RootSegments(env), key) == Segments(p);
  }

  // ---------------------------------------------------------------------------
  // The directory alias of an index
  // ---------------------------------------------------------------------------

  /** path.Base and path.Dir of a rooted path. */
  function Base(p: string): string {
    var segs := Segments(p);
    if segs == [] then "/" else segs[|segs| - 1]
  }

  function Dir(p: string): string {
    var segs := Segments(p);
    Render(if segs == [] then [] else segs[..|segs| - 1])
  }

  /** The key an index is also cached under. */
  function AliasOf(key: string): string {
    if Dir(key) == "/" then "/" else Dir(key) + "/"
  }

  lemma {:induction false} HasDotPrefix(segs: seq<string>, name: string, k: nat)
    requires k <= |segs| && HasDot(segs, k)
    ensures HasDot(segs + [name], k)
    decreases |segs| - k
  {
    if !HasPrefix(segs[k], ".") {
      HasDotPrefix(segs, name, k + 1);
    }
  }

  lemma AliasSegments(front: seq<string>, name: string)
    requires AllPlain(front + [name])
    ensures var alias := AliasOf(Render(front + [name]));
            Segments(alias) == front && HasSuffix(alias, "/") && ('\0' !in Render(front) ==> '\0' !in alias)
  {
    assert AllPlain(front) by {
      forall k | 0 <= k < |front| ensures Plain(front[k]) {
        assert (front + [name])[k] == front[k];
      }
    }
    SegmentsRender(front + [name]);
    SegmentsRender(front);
    SlashIsRoot(front);
    SegmentsSlashLast(Render(front));
    EndsInSlash(Render(front));
    assert "/"[0..] == "/";
    assert (front + [name])[..|front|] == front;
  }

  /** The directory of a resolved file is resolved, and still below the root. */
  lemma DirectoryOf(env: Env, root: seq<string>, front: seq<string>, name: string)
    requires env.Valid() && AllPlain(root + (front + [name]))
    requires env.site.links.Eval(Render(root + (front + [name]))) == Resolved(Render(root + (front + [name])))
    ensures var dir := Render(root + front);
            env.site.links.Eval(dir) == Resolved(dir) && env.StatAt(dir).Directory?
  {
    RegroupTarget(root, front, name);
    assert env.Enclosed(Render(root + front), Render((root + front) + [name]));
  }

  /** An alias stands for the directory of the file, and only for that. */
  lemma AliasLeads(env: Env, p: string, front: seq<string>, name: string)
    requires env.Valid() && IsClean(p) && env.site.links.Eval(p) == Resolved(p)
    requires Segments(p) == RootSegments(env) + (front + [name])
    requires !(env.site.block && HasDot(Segments(p), |RootSegments(env)|))
    ensures IsAlias(env, AliasOf(Render(front + [name])))
  {
    var root, alias := RootSegments(env), AliasOf(Render(front + [name]));
    var dir := Render(root + front);
    SegmentsPlain(p);
    assert AllPlain(root + front) && AllPlain(front + [name]) by {
      PlainParts(root, front, name);
    }
    DirectoryOf(env, root, front, name);
    SegmentsRender(root + front);
    CleanIdempotent(dir);
    if HasDot(root + front, |root|) {
      HasDotPrefix(root + front, name, |root|);
      RegroupTarget(root, front, name);
    }
    assert '\0' !in dir;
    NoNullBelow(root, front);
    AliasSegments(front, name);
    assert (root + front)[|root|..] == front;
    KeyLeadsBack(env, dir, alias);
  }

  lemma PlainParts(root: seq<string>, front: seq<string>, name: string)
    requires AllPlain(root + (front + [name]))
    ensures AllPlain(root + front) && AllPlain(front + [name])
  {
    forall k | 0 <= k < |root + front| ensures Plain((root + front)[k]) {
      assert (root + (front + [name]))[k] == (root + front)[k];
    }
    forall k | 0 <= k < |front + [name]| ensures Plain((front + [name])[k]) {
      assert (root + (front + [name]))[|root| + k] == (front + [name])[k];
    }
  }

  predicate RootIsDirectory(env: Env) {
    env.StatOf(env.site.RealRoot()).Directory?
  }

  /** A chosen file has a name below the root. */
  lemma ChosenBelow(env: Env, w: Walked)
    requires env.Valid() && RootIsDirectory(env) && WalkedBelow(env, w) && Chosen(env, w).Some?
    ensures RootSegments(env) < Segments(RealFile(env, w).value)
  {
    var p := RealFile(env, w).value;
    RealFileFacts(env, w);
    env.site.RootsAreClean();
    assert p == Render(Segments(p)) && env.site.RealRoot() == Render(RootSegments(env));
    assert Segments(p) != RootSegments(env);
  }

  lemma SplitLast(segs: seq<string>, n: nat)
    requires n < |segs|
    ensures segs == segs[..n] + (segs[n..|segs| - 1] + [segs[|segs| - 1]])
    ensures segs[n..] == segs[n..|segs| - 1] + [segs[|segs| - 1]]
  {
  }

  /** The alias entry of an index is never what a request looks up. */
  lemma AliasOK(env: Env, w: Walked)
    requires env.Valid() && RootIsDirectory(env) && WalkedBelow(env, w) && Chosen(env, w).Some?
    ensures var c := Chosen(env, w).value;
            EntryOK(env, AliasOf(c.key), PreloadContent(env, c.file, c.key))
  {
    var p, root := RealFile(env, w).value, RootSegments(env);
    var segs := Segments(p);
    RealFileFacts(env, w);
    ChosenBelow(env, w);
    ChosenOK(env, w);
    SplitLast(segs, |root|);
    assert segs[..|root|] == root;
    AliasLeads(env, p, segs[|root|..|segs| - 1], segs[|segs| - 1]);
  }

  // ---------------------------------------------------------------------------
  // The code
  // ---------------------------------------------------------------------------

  /** filepath.Rel of a path below the root. */
  function Rel(root: string, p: string): string
    requires Segments(root) <= Segments(p)
  {
    var rest := Segments(p)[|Segments(root)|..];
    if rest == [] then "." else Join(rest, "/")
  }

  lemma RelDots(root: string, p: string)
    requires Segments(root) < Segments(p)
    ensures HasDot(Split(Rel(root, p), '/'), 0) <==> HasDot(Segments(p), |Segments(root)|)
    ensures "/" + Rel(root, p) == Render(Segments(p)[|Segments(root)|..])
  {
    var front, rest := Segments(root), Segments(p)[|Segments(root)|..];
    SegmentsPlain(p);
    SplitJoin(rest, '/');
    HasDotAppend(front, rest, 0);
    assert front + rest == Segments(p);
  }

  /** The link test: where the entry's file is, if it may be loaded. */
  method FollowLink(env: Env, w: Walked) returns (fpath: Option<string>)
    requires env.Valid() && WalkedBelow(env, w)
    ensures fpath == RealFile(env, w)
  {
    if !w.isLink {
      return Some(w.path);
    }
    var absRoot := env.site.RealRoot();
    env.site.links.CleanIsAbs(w.path);
    assert env.site.links.Settled(env.site.links.Eval(w.path));
    match env.site.links.Eval(w.path) {
      case NotExist =>
        return None;
      case Unresolvable =>
        return None;
      case Resolved(target) =>
        env.site.RootsAreClean();
        SegmentsPlain(absRoot);
        SegmentsPlain(target);
        UnderRootIsPrefix(Segments(absRoot), Segments(target));
        if target != absRoot && !HasPrefix(target, WithSep(absRoot)) {
          return None;
        }
        return Some(target);
    }
  }

  method Choose(env: Env, w: Walked) returns (c: Option<Pick>)
    requires env.Valid() && RootIsDirectory(env) && WalkedBelow(env, w)
    ensures c == Chosen(env, w)
  {
    var fpath := FollowLink(env, w);
    if fpath.None? {
      return None;
    }
    RealFileFacts(env, w);
    var absRoot := env.site.RealRoot();
    var rel := Rel(absRoot, fpath.value);
    if Segments(absRoot) != Segments(fpath.value) {
      RelDots(absRoot, fpath.value);
    } else {
      env.site.RootsAreClean();
      assert fpath.value == Render(Segments(fpath.value)) == absRoot;
    }
    if env.site.block {
      var dotted := BlockDots(rel);
      if dotted {
        return None;
      }
    }
    var info := env.StatOf(fpath.value);
    if !info.Regular? {
      return None;
    }
    if |info.file.data| > env.maxFileSize || !info.file.access.Readable? {
      return None;
    }
    return Some(Pick("/" + rel, info.file));
  }

  datatype Stats = Stats(files: nat, bytes: nat, skipped: nat, paths: seq<string>)

  /** The statistics after one entry of the walk. */
  function Counted(env: Env, s: Stats, c: Option<Pick>): Stats {
    if c.None? then s.(skipped := s.skipped + 1)
    else Stats(s.files + 1, s.bytes + |c.value.file.data|, s.skipped, s.paths + KeysOf(env, c.value.key))
  }

  /** The keys a file is cached under. */
  function KeysOf(env: Env, key: string): seq<string> {
    [key] + if Base(key) == env.Index() then [AliasOf(key)] else []
  }

  /** Every file has its own URL as a key; an index also has that of its directory, which ends in a slash. */
  lemma KeysAre(env: Env, front: seq<string>, name: string)
    requires AllPlain(front + [name])
    ensures var key := "/" + Join(front + [name], "/");
            KeysOf(env, key)
            == [key] + if name == env.Index() then [if front == [] then "/" else "/" + Join(front, "/") + "/"] else []
  {
    SegmentsRender(front + [name]);
    assert (front + [name])[..|front|] == front;
    assert AllPlain(front) by {
      forall k | 0 <= k < |front| ensures Plain(front[k]) {
        assert (front + [name])[k] == front[k];
      }
    }
    SlashIsRoot(front);
  }

  predicate AllBelow(env: Env, walked: seq<Walked>) {
    forall i | 0 <= i < |walked| :: WalkedBelow(env, walked[i])
  }

  function Tally(env: Env, walked: seq<Walked>, n: nat): Stats
    requires n <= |walked| && AllBelow(env, walked)
  {
    if n == 0 then Stats(0, 0, 0, []) else Counted(env, Tally(env, walked, n - 1), Chosen(env, walked[n - 1]))
  }

  /** One more entry of the walk: loaded, with its bytes and keys, or skipped. */
  lemma TallyStep(env: Env, walked: seq<Walked>, n: nat)
    requires n < |walked| && AllBelow(env, walked)
    ensures var s, t, c := Tally(env, walked, n), Tally(env, walked, n + 1), Chosen(env, walked[n]);
            && t.files + t.skipped == s.files + s.skipped + 1
            && (c.Some? ==> && t.files == s.files + 1 && t.bytes == s.bytes + |c.value.file.data|
                            && t.paths == s.paths + KeysOf(env, c.value.key))
            && (c.None? ==> t.files == s.files && t.bytes == s.bytes && t.paths == s.paths)
  {
  }

  predicate AllLeading(env: Env, keys: seq<string>) {
    forall i | 0 <= i < |keys| :: Leading(env, keys[i])
  }

  lemma ChosenLeads(env: Env, w: Walked)
    requires env.Valid() && RootIsDirectory(env) && WalkedBelow(env, w) && Chosen(env, w).Some?
    ensures AllLeading(env, KeysOf(env, Chosen(env, w).value.key))
  {
    hide Env.Valid, WalkedBelow, RootIsDirectory, Chosen, Sound, GzipReady, SameSource;
    ChosenOK(env, w);
    AliasOK(env, w);
  }

  lemma NoneLeading(env: Env)
    ensures AllLeading(env, [])
  {
  }

  lemma LeadingAppend(env: Env, a: seq<string>, b: seq<string>)
    requires AllLeading(env, a) && AllLeading(env, b)
    ensures AllLeading(env, a + b)
  {
    hide Leading;
  }

  /** Every key reported leads to a directory or a file that may be cached. */
  lemma {:induction false} TallyLeads(env: Env, walked: seq<Walked>, n: nat)
    requires env.Valid() && RootIsDirectory(env) && n <= |walked| && AllBelow(env, walked)
    ensures AllLeading(env, Tally(env, walked, n).paths)
  {
    hide AllLeading, Chosen, KeysOf, WalkedBelow, RootIsDirectory;
    if n > 0 {
      var c := Chosen(env, walked[n - 1]);
      TallyLeads(env, walked, n - 1);
      if c.Some? {
        ChosenLeads(env, walked[n - 1]);
        LeadingAppend(env, Tally(env, walked, n - 1).paths, KeysOf(env, c.value.key));
      }
    } else {
      NoneLeading(env);
    }
  }

  /** The cache after one file is stored under its key, and an index under its directory too. */
  function PutKeys(env: Env, st: Store, key: string, f: CachedFile, maxBytes: int): (r: Store)
    requires st.Valid()
    ensures r.Valid()
  {
    var once := PutStore(st, key, f, maxBytes);
    if Base(key) == env.Index() then PutStore(once, AliasOf(key), f, maxBytes) else once
  }

  /** A file that fits is in the cache afterwards, most recent under the last of its keys. */
  lemma KeysStored(env: Env, st: Store, key: string, f: CachedFile, maxBytes: int)
    requires st.Valid() && f.TotalSize() <= maxBytes
    ensures var r, keys := PutKeys(env, st, key, f, maxBytes).lru.entries, KeysOf(env, key);
            r != [] && r[|r| - 1] == Entry(keys[|keys| - 1], f)
  {
    hide Base, AliasOf, Evict;
    var once := PutStore(st, key, f, maxBytes);
    PutIsLast(st, key, f, maxBytes);
    if Base(key) == env.Index() {
      PutIsLast(once, AliasOf(key), f, maxBytes);
    }
  }

  lemma PutIsLast(st: Store, key: string, f: CachedFile, maxBytes: int)
    requires st.Valid() && f.TotalSize() <= maxBytes
    ensures var r := PutStore(st, key, f, maxBytes).lru.entries; r != [] && r[|r| - 1] == Entry(key, f)
  {
    hide Evict, SelfEvicts, SizeAt, Dropped, Lru.Add;
    var room := Evict(st.(curBytes := st.curBytes - SizeAt(st.lru.entries, key)), f.TotalSize(), maxBytes);
    var p := room.lru.AddOrder(key, f, MAX_LRU_ITEMS);
  }

  /** The cache after a walk that made `files`, one for every chosen entry. */
  function PutWalk(env: Env, st: Store, walked: seq<Walked>, files: seq<Option<CachedFile>>, maxBytes: int): (r: Store)
    requires |files| <= |walked| && AllBelow(env, walked) && st.Valid()
    ensures r.Valid()
  {
    if files == [] then st
    else
      var n := |files| - 1;
      PutChosen(env, PutWalk(env, st, walked, files[..n], maxBytes), Chosen(env, walked[n]), files[n], maxBytes)
  }

  function PutChosen(env: Env, st: Store, c: Option<Pick>, f: Option<CachedFile>, maxBytes: int): (r: Store)
    requires st.Valid()
    ensures r.Valid()
  {
    if c.Some? && f.Some? then PutKeys(env, st, c.value.key, f.value, maxBytes) else st
  }

  lemma PutWalkSnoc(env: Env, st: Store, walked: seq<Walked>, files: seq<Option<CachedFile>>, f: Option<CachedFile>,
                    maxBytes: int)
    requires |files| < |walked| && AllBelow(env, walked) && st.Valid()
    ensures PutWalk(env, st, walked, files + [f], maxBytes)
            == PutChosen(env, PutWalk(env, st, walked, files, maxBytes), Chosen(env, walked[|files|]), f, maxBytes)
  {
    assert (files + [f])[..|files|] == files;
  }

  /** The file made for an entry holds what the entry calls for. */
  predicate MadeFor(env: Env, w: Walked, f: Option<CachedFile>)
    requires WalkedBelow(env, w)
  {
    var c := Chosen(env, w);
    (f.Some? <==> c.Some?) && (c.Some? && f.Some? ==> f.value.content == PreloadContent(env, c.value.file, c.value.key))
  }

  method StoreFile(env: Env, cache: Cache, key: string, file: DiskFile, now: int) returns (f: CachedFile)
    requires env.Valid() && cache.Valid() && EntriesOK(env, cache.lru.entries)
    requires EntryOK(env, key, PreloadContent(env, file, key))
    requires EntryOK(env, AliasOf(key), PreloadContent(env, file, key))
    modifies cache
    ensures f.content == PreloadContent(env, file, key)
    ensures cache.State() == PutKeys(env, old(cache.State()), key, f, cache.maxBytes)
    ensures cache.Valid() && EntriesOK(env, cache.lru.entries)
  {
    hide Env.Valid;
    var zip := env.compression.on && IsCompressibleType(file.Type()) && |file.data| >= env.compression.minSize;
    var content := Described(env, file, key, if zip then Some(env.codecs.gzip(file.data)) else None, None, None);
    f := new CachedFile(content);
    PutEntry(env, cache, key, f, now);
    if Base(key) == env.Index() {
      PutEntry(env, cache, AliasOf(key), f, now);
    }
  }

  /** One step of the walk; the result is what was chosen and the file made for it. */
  method PreloadOne(env: Env, cache: Cache, w: Walked, now: int) returns (c: Option<Pick>, f: Option<CachedFile>)
    requires env.Valid() && RootIsDirectory(env) && WalkedBelow(env, w)
    requires cache.Valid() && EntriesOK(env, cache.lru.entries)
    modifies cache
    ensures c == Chosen(env, w) && MadeFor(env, w, f)
    ensures cache.State() == PutChosen(env, old(cache.State()), Chosen(env, w), f, cache.maxBytes)
    ensures cache.Valid() && EntriesOK(env, cache.lru.entries)
  {
    hide Env.Valid;
    c := Choose(env, w);
    f := None;
    if c.Some? {
      ChosenOK(env, w);
      AliasOK(env, w);
      var made := StoreFile(env, cache, c.value.key, c.value.file, now);
      f := Some(made);
    }
  }

  /** The files made so far are those the entries call for. */
  predicate AllMade(env: Env, walked: seq<Walked>, files: seq<Option<CachedFile>>)
    requires AllBelow(env, walked)
  {
    |files| <= |walked| && forall i | 0 <= i < |files| :: MadeFor(env, walked[i], files[i])
  }

  /** The walk after `files`: the cache `st`, started from `before`, and the statistics. */
  predicate Walking(env: Env, before: Store, st: Store, walked: seq<Walked>, files: seq<Option<CachedFile>>,
                    stats: Stats, maxBytes: int)
    requires AllBelow(env, walked) && before.Valid()
  {
    && AllMade(env, walked, files) && stats == Tally(env, walked, |files|)
    && st == PutWalk(env, before, walked, files, maxBytes)
  }

  lemma WalkStep(env: Env, before: Store, st: Store, walked: seq<Walked>, files: seq<Option<CachedFile>>, stats: Stats,
                 maxBytes: int, f: Option<CachedFile>)
    requires AllBelow(env, walked) && before.Valid() && st.Valid() && |files| < |walked|
    requires Walking(env, before, st, walked, files, stats, maxBytes) && MadeFor(env, walked[|files|], f)
    ensures var c := Chosen(env, walked[|files|]);
            Walking(env, before, PutChosen(env, st, c, f, maxBytes), walked, files + [f], Counted(env, stats, c),
                    maxBytes)
  {
    hide Env.Valid;
    PutWalkSnoc(env, before, walked, files, f, maxBytes);
  }

  method Preload(env: Env, cache: Cache, walked: seq<Walked>, now: int)
    returns (stats: Stats, ghost files: seq<Option<CachedFile>>)
    requires env.Valid() && RootIsDirectory(env) && AllBelow(env, walked)
    requires cache.Valid() && EntriesOK(env, cache.lru.entries)
    modifies cache
    ensures |files| == |walked| && old(cache.State()).Valid()
    ensures Walking(env, old(cache.State()), cache.State(), walked, files, stats, cache.maxBytes)
    ensures AllLeading(env, stats.paths)
    ensures cache.Valid() && EntriesOK(env, cache.lru.entries)
  {
    hide Env.Valid;
    TallyLeads(env, walked, |walked|);
    stats, files := Stats(0, 0, 0, []), [];
    ghost var before := cache.State();
    for i := 0 to |walked|
      invariant cache.Valid() && EntriesOK(env, cache.lru.entries) && |files| == i
      invariant Walking(env, before, cache.State(), walked, files, stats, cache.maxBytes)
    {
      ghost var st, s := cache.State(), stats;
      var c, f := PreloadOne(env, cache, walked[i], now);
      stats := Counted(env, stats, c);
      WalkStep(env, before, st, walked, files, s, cache.maxBytes, f);
      files := files + [f];
    }
  }
}
