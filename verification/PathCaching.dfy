/**
 The path cache (internal/security/security.go) and the three places a safe path
 can come from: the cache, the request context, and PathSafe itself.
 */
module PathCaching {
  import opened Wrappers
  import opened Paths
  import opened PathSafety
  import opened Lru

  const DEFAULT_PATH_CACHE_SIZE := 10000

  /** What the entries are about: the root as configured, which need not be absolute. */
  datatype Site = Site(links: Links, root: string, block: bool) {
    /** Cleaning the text of the configured root does not change what it names. */
    ghost predicate Valid() {
      links.Valid() && PlainlyNamed(links, root)
    }

    function AbsRoot(): string {
      links.Absolute(root)
    }

    /** The absolute root with its links resolved, as the middleware has it. */
    function RealRoot(): string {
      links.RealRoot(AbsRoot())
    }

    function Verdict(urlPath: string): SafeResult {
      SafeVerdict(links, urlPath, AbsRoot(), block)
    }

    /** The path PathSafe answers with for the absolute root. */
    function Path(urlPath: string): Result<string, PathError> {
      match Verdict(urlPath)
      case Ok(safe) => Ok(safe.path)
      case Err(e) => Err(e)
    }

    /** Pre-warming finds paths for the root as configured. */
    function Found(urlPath: string): Option<string> {
      match Outcome(links, urlPath, root, block)
      case Ok(safe) => if safe.found then Some(safe.path) else None
      case Err(_) => None
    }

    lemma RootsAreClean()
      requires Valid()
      ensures IsClean(AbsRoot()) && IsClean(RealRoot()) && links.RealRoot(RealRoot()) == RealRoot()
    {
      links.AbsoluteIsClean(root);
      links.RealRootIsClean(AbsRoot());
    }

    /** Resolving the root beforehand does not change a verdict. */
    lemma SameVerdict(urlPath: string)
      requires Valid()
      ensures IsClean(AbsRoot()) && IsClean(RealRoot())
      ensures SafeVerdict(links, urlPath, RealRoot(), block) == Verdict(urlPath)
    {
      RootsAreClean();
    }

    /** A verdict's path is its own absolute form. */
    lemma PathIsAbsolute(urlPath: string)
      requires Valid() && Path(urlPath).Ok?
      ensures var path := Path(urlPath).value;
              IsClean(path) && IsAbs(path) && links.Absolute(path) == path && CleanAny(path) == path
    {
      RootsAreClean();
      SegmentsPlain(RealRoot());
      Contained(links, urlPath, Segments(RealRoot()), block);
      links.CleanIsAbs(Path(urlPath).value);
    }
  }

  // ---------------------------------------------------------------------------
  // Entries
  // ---------------------------------------------------------------------------

  /** Whether resolving the root as configured gives an absolute path. */
  predicate Rooted(site: Site) {
    IsAbs(site.links.RealRoot(site.root))
  }

  /**
   The path names, from the working directory, the existing file of the verdict;
   it can be a relative one only if the root is.
   */
  predicate Names(site: Site, urlPath: string, path: string) {
    && path == CleanAny(path) && (Rooted(site) ==> IsAbs(path))
    && site.Verdict(urlPath) == Ok(Safe(site.links.Absolute(path), true))
  }

  ghost predicate Faithful(lru: Lru<string>, site: Site) {
    forall e | e in lru.entries :: Names(site, e.key, e.value)
  }

  predicate Storable(site: Site, urlPath: string) {
    site.Verdict(urlPath).Ok? && site.Verdict(urlPath).value.found
  }

  /** A path names the verdict's file, and is the verdict's very path exactly when it is absolute. */
  lemma NamesMeaning(site: Site, urlPath: string, path: string)
    requires site.Valid() && Names(site, urlPath, path)
    ensures path != "" && site.Path(urlPath) == Ok(site.links.Absolute(path))
    ensures site.Path(urlPath) == Ok(path) <==> IsAbs(path)
  {
    CleanAnyIdempotent(path);
    site.PathIsAbsolute(urlPath);
  }

  lemma VerdictNames(site: Site, urlPath: string)
    requires site.Valid() && Storable(site, urlPath)
    ensures Names(site, urlPath, site.Verdict(urlPath).value.path)
  {
    site.PathIsAbsolute(urlPath);
  }

  /** What pre-warming finds names the file of an accepted URL; it is the verdict's path exactly for a rooted site. */
  lemma FoundNames(site: Site, urlPath: string)
    requires site.Valid() && site.Found(urlPath).Some? && site.Verdict(urlPath).Ok?
    ensures var path := site.Found(urlPath).value;
            Names(site, urlPath, path) && (site.Path(urlPath) == Ok(path) <==> Rooted(site))
  {
    var path := site.Found(urlPath).value;
    FoundLeads(site.links, urlPath, site.root, site.block, path);
    FoundIsVerdict(site.links, urlPath, site.root, site.block, path);
  }

  lemma LookupFaithful(lru: Lru<string>, site: Site, urlPath: string)
    requires lru.Valid() && Faithful(lru, site) && lru.Peek(urlPath).Some?
    ensures Names(site, urlPath, lru.Peek(urlPath).value) && Faithful(lru.Touch(urlPath), site)
  {
    FindIn(lru.entries, urlPath);
    forall e | e in lru.Touch(urlPath).entries ensures e in lru.entries {
      lru.TouchIn(urlPath, e);
    }
  }

  lemma AddFaithful(lru: Lru<string>, site: Site, urlPath: string, path: string, capacity: nat)
    requires lru.Valid() && Faithful(lru, site) && Names(site, urlPath, path) && capacity >= 1
    ensures Faithful(lru.Add(urlPath, path, capacity), site)
  {
    forall e | e in lru.Add(urlPath, path, capacity).entries ensures e in lru.entries || e == Entry(urlPath, path) {
      lru.AddIn(urlPath, path, capacity, e);
    }
  }

  class PathCache {
    var lru: Lru<string>
    const capacity: nat

    ghost predicate Valid()
      reads this
    {
      capacity >= 1 && lru.Valid() && |lru.entries| <= capacity
    }

    constructor (maxEntries: int)
      ensures Valid() && lru.entries == []
      ensures capacity == if maxEntries <= 0 then 10_000 else maxEntries
    {
      lru := Lru([]);
      capacity := if maxEntries <= 0 then DEFAULT_PATH_CACHE_SIZE else maxEntries;
    }

    method Lookup(urlPath: string) returns (r: Option<string>)
      requires Valid()
      modifies this
      ensures Valid() && r == old(lru).Peek(urlPath)
      ensures lru == if r.Some? then old(lru).Touch(urlPath) else old(lru)
    {
      r := lru.Peek(urlPath);
      if r.Some? {
        lru := lru.Touch(urlPath);
      }
    }

    method Store(urlPath: string, path: string)
      requires Valid()
      modifies this
      ensures Valid() && lru == old(lru).Add(urlPath, path, capacity)
    {
      lru := lru.Add(urlPath, path, capacity);
    }

    method Flush()
      requires Valid()
      modifies this
      ensures Valid() && lru.entries == []
    {
      lru := Lru([]);
    }

    /** Runs known URLs through PathSafe with the root as configured; those refused or missing are skipped. */
    method PreWarm(paths: seq<string>, site: Site)
      requires Valid()
      modifies this
      ensures Valid() && lru == Warmed(old(lru), paths, 0, site, capacity)
    {
      hide Outcome, SafeVerdict;
      for i := 0 to |paths|
        invariant Valid() && Warmed(lru, paths, i, site, capacity) == Warmed(old(lru), paths, 0, site, capacity)
      {
        var r := PathSafe(site.links, paths[i], site.root, site.block);
        if r.Ok? && r.value.found {
          lru := lru.Add(paths[i], r.value.path, capacity);
        }
      }
    }
  }

  /** The list after running the paths from the `i`th on through PathSafe. */
  function Warmed(lru: Lru<string>, paths: seq<string>, i: nat, site: Site, capacity: nat): (r: Lru<string>)
    requires i <= |paths| && lru.Valid() && capacity >= 1
    ensures r.Valid() && (|lru.entries| <= capacity ==> |r.entries| <= capacity)
    decreases |paths| - i
  {
    if i == |paths| then lru else Warmed(WarmedOne(lru, paths[i], site, capacity), paths, i + 1, site, capacity)
  }

  function WarmedOne(lru: Lru<string>, urlPath: string, site: Site, capacity: nat): (r: Lru<string>)
    requires lru.Valid() && capacity >= 1
    ensures r.Valid() && (|lru.entries| <= capacity ==> |r.entries| <= capacity)
  {
    var found := site.Found(urlPath);
    if found.Some? then lru.Add(urlPath, found.value, capacity) else lru
  }

  lemma WarmedOneFaithful(lru: Lru<string>, urlPath: string, site: Site, capacity: nat)
    requires lru.Valid() && capacity >= 1 && site.Valid() && Faithful(lru, site) && site.Verdict(urlPath).Ok?
    ensures Faithful(WarmedOne(lru, urlPath, site, capacity), site)
  {
    if site.Found(urlPath).Some? {
      FoundNames(site, urlPath);
      AddFaithful(lru, site, urlPath, site.Found(urlPath).value, capacity);
    }
  }

  /** The URLs that are pre-warmed are ones the site accepts. */
  predicate AllAccepted(paths: seq<string>, site: Site) {
    forall i | 0 <= i < |paths| :: site.Verdict(paths[i]).Ok?
  }

  lemma {:induction false} WarmedFaithful(lru: Lru<string>, paths: seq<string>, i: nat, site: Site, capacity: nat)
    requires i <= |paths| && lru.Valid() && capacity >= 1 && site.Valid()
    requires Faithful(lru, site) && AllAccepted(paths, site)
    ensures Faithful(Warmed(lru, paths, i, site, capacity), site)
    decreases |paths| - i
  {
    if i < |paths| {
      WarmedOneFaithful(lru, paths[i], site, capacity);
      WarmedFaithful(WarmedOne(lru, paths[i], site, capacity), paths, i + 1, site, capacity);
    }
  }

  // ---------------------------------------------------------------------------
  // The three sources
  // ---------------------------------------------------------------------------

  /** The list after a request for `urlPath`: a hit is touched, an existing path is stored. */
  function Visited(lru: Lru<string>, urlPath: string, site: Site, capacity: nat): (r: Lru<string>)
    requires lru.Valid() && capacity >= 1
    ensures r.Valid() && (|lru.entries| <= capacity ==> |r.entries| <= capacity)
  {
    if lru.Peek(urlPath).Some? then lru.Touch(urlPath)
    else if Storable(site, urlPath) then lru.Add(urlPath, site.Verdict(urlPath).value.path, capacity)
    else lru
  }

  lemma VisitedFaithful(lru: Lru<string>, urlPath: string, site: Site, capacity: nat)
    requires lru.Valid() && capacity >= 1 && site.Valid() && Faithful(lru, site)
    ensures Faithful(Visited(lru, urlPath, site, capacity), site)
  {
    if lru.Peek(urlPath).Some? {
      LookupFaithful(lru, site, urlPath);
    } else if Storable(site, urlPath) {
      VerdictNames(site, urlPath);
      AddFaithful(lru, site, urlPath, site.Verdict(urlPath).value.path, capacity);
    }
  }

  /** After a request for an existing path, and after pre-warming it, the path is cached and the most recent one. */
  lemma VisitedIsCached(lru: Lru<string>, urlPath: string, site: Site, capacity: nat)
    requires lru.Valid() && 1 <= capacity && |lru.entries| <= capacity
    ensures Storable(site, urlPath) ==>
              var r := Visited(lru, urlPath, site, capacity).entries;
              && r != [] && r[|r| - 1].key == urlPath
              && r[|r| - 1].value
                 == if lru.Peek(urlPath).Some? then lru.Peek(urlPath).value else site.Path(urlPath).value
    ensures site.Found(urlPath).Some? ==>
              var r := WarmedOne(lru, urlPath, site, capacity).entries;
              r != [] && r[|r| - 1] == Entry(urlPath, site.Found(urlPath).value)
    ensures site.Verdict(urlPath).Err? && lru.Peek(urlPath).None? ==> Visited(lru, urlPath, site, capacity) == lru
  {
    hide Outcome, SafeVerdict;
    if lru.Peek(urlPath).Some? {
      var p := lru.TouchOrder(urlPath);
    } else if Storable(site, urlPath) {
      var p := lru.AddOrder(urlPath, site.Verdict(urlPath).value.path, capacity);
    }
    if site.Found(urlPath).Some? {
      var p := lru.AddOrder(urlPath, site.Found(urlPath).value, capacity);
    }
  }

  /** The path a request gets: the cached one, or the verdict's. */
  function Source(lru: Lru<string>, site: Site, urlPath: string): Result<string, PathError> {
    if lru.Peek(urlPath).Some? then Ok(lru.Peek(urlPath).value) else site.Path(urlPath)
  }

  /** The answer is the verdict's error, or a path to the verdict's file. */
  predicate Leads(site: Site, urlPath: string, answer: Result<string, PathError>) {
    match answer
    case Err(_) => answer == site.Path(urlPath)
    case Ok(path) =>
      path == CleanAny(path) && (Rooted(site) ==> IsAbs(path)) && site.Path(urlPath) == Ok(site.links.Absolute(path))
  }

  /**
   From the cache or not, a request gets a path to the file of the verdict; the
   text differs from the verdict's only for a relative root.
   */
  lemma SourceLeads(lru: Lru<string>, site: Site, urlPath: string)
    requires lru.Valid() && site.Valid() && Faithful(lru, site)
    ensures Leads(site, urlPath, Source(lru, site, urlPath)) && Leads(site, urlPath, site.Path(urlPath))
    ensures Source(lru, site, urlPath) != site.Path(urlPath) ==> !Rooted(site)
  {
    if lru.Peek(urlPath).Some? {
      LookupFaithful(lru, site, urlPath);
      NamesMeaning(site, urlPath, lru.Peek(urlPath).value);
    }
    if site.Path(urlPath).Ok? {
      site.PathIsAbsolute(urlPath);
    }
  }

  /**
   The path part of the security middleware: the path for the next handler, or
   the error, and the value put into the request context when there is no cache.
   */
  method CheckPath(pc: PathCache?, urlPath: string, site: Site)
    returns (r: Result<string, PathError>, userValue: Option<string>)
    requires site.Valid() && (pc != null ==> pc.Valid() && Faithful(pc.lru, site))
    modifies pc
    ensures r == if pc == null then site.Path(urlPath) else Source(old(pc.lru), site, urlPath)
    ensures userValue == if pc == null && r.Ok? then Some(r.value) else None
    ensures pc != null ==> pc.Valid() && pc.lru == Visited(old(pc.lru), urlPath, site, pc.capacity)
  {
    site.SameVerdict(urlPath);
    var safePath := "";
    if pc != null {
      var cached := pc.Lookup(urlPath);
      if cached.Some? {
        LookupFaithful(old(pc.lru), site, urlPath);
        NamesMeaning(site, urlPath, cached.value);
        safePath := cached.value;
      }
    }
    if safePath == "" {
      var safe := PathSafe(site.links, urlPath, site.RealRoot(), site.block);
      if safe.Err? {
        return Err(safe.error), None;
      }
      safePath := safe.value.path;
      if pc != null && safe.value.found {
        pc.Store(urlPath, safePath);
      }
    }
    r := Ok(safePath);
    userValue := if pc == null then Some(safePath) else None;
  }

  /** The path cache after a lookup. */
  function Looked(lru: Lru<string>, urlPath: string): Lru<string>
    requires lru.Valid()
  {
    if lru.Peek(urlPath).Some? then lru.Touch(urlPath) else lru
  }

  lemma LookedIsRecent(lru: Lru<string>, urlPath: string)
    requires lru.Valid()
    ensures var r := Looked(lru, urlPath).entries;
            if lru.Peek(urlPath).Some? then r != [] && r[|r| - 1] == Entry(urlPath, lru.Peek(urlPath).value)
            else r == lru.entries
  {
    if lru.Peek(urlPath).Some? {
      var p := lru.TouchOrder(urlPath);
    }
  }

  /** Where the file handler takes the path from: the cache, the context, or PathSafe again. */
  method HandlerPath(pc: PathCache?, userValue: Option<string>, urlPath: string, site: Site)
    returns (r: Result<string, PathError>)
    requires site.Valid() && (pc != null ==> pc.Valid() && Faithful(pc.lru, site))
    requires userValue.Some? ==> site.Path(urlPath) == Ok(userValue.value)
    modifies pc
    ensures r == (if pc == null then site.Path(urlPath) else Source(old(pc.lru), site, urlPath))
    ensures Leads(site, urlPath, r) && (Rooted(site) ==> r == site.Path(urlPath))
    ensures pc != null ==> pc.Valid() && Faithful(pc.lru, site) && pc.lru == Looked(old(pc.lru), urlPath)
  {
    site.SameVerdict(urlPath);
    SourceLeads(if pc == null then Lru([]) else pc.lru, site, urlPath);
    if pc != null {
      var cached := pc.Lookup(urlPath);
      if cached.Some? {
        LookupFaithful(old(pc.lru), site, urlPath);
        return Ok(cached.value);
      }
    }
    if userValue.Some? && userValue.value != "" {
      return Ok(userValue.value);
    }
    var safe := PathSafe(site.links, urlPath, site.AbsRoot(), site.block);
    if safe.Err? {
      return Err(safe.error);
    }
    return Ok(safe.value.path);
  }

  // ---------------------------------------------------------------------------
  // Whole runs
  // ---------------------------------------------------------------------------

  datatype Op = Warm(paths: seq<string>) | Visit(urlPath: string) | Purge

  function Run(ops: seq<Op>, site: Site, capacity: nat): (r: Lru<string>)
    requires capacity >= 1
    ensures r.Valid() && |r.entries| <= capacity
  {
    if ops == [] then Lru([])
    else
      var before := Run(ops[..|ops| - 1], site, capacity);
      match ops[|ops| - 1]
      case Warm(paths) => Warmed(before, paths, 0, site, capacity)
      case Visit(urlPath) => Visited(before, urlPath, site, capacity)
      case Purge => Lru([])
  }

  /** What is pre-warmed in a run is accepted by the site. */
  predicate AllWarmable(ops: seq<Op>, site: Site) {
    forall i | 0 <= i < |ops| && ops[i].Warm? :: AllAccepted(ops[i].paths, site)
  }

  lemma {:induction false} RunIsFaithful(ops: seq<Op>, site: Site, capacity: nat)
    requires capacity >= 1 && site.Valid() && AllWarmable(ops, site)
    ensures Faithful(Run(ops, site, capacity), site)
  {
    if ops != [] {
      var before := Run(ops[..|ops| - 1], site, capacity);
      RunIsFaithful(ops[..|ops| - 1], site, capacity);
      match ops[|ops| - 1] {
        case Warm(paths) => WarmedFaithful(before, paths, 0, site, capacity);
        case Visit(url) => VisitedFaithful(before, url, site, capacity);
        case Purge =>
      }
    }
  }

  /**
   After any run of pre-warming, requests and flushes, evictions included, the
   cache is within its capacity, and a hit leads to the existing file PathSafe
   would answer with, whether the root was resolved beforehand or not; it is that
   very answer exactly when it is absolute, as it always is for a rooted site.
   */
  lemma RunFaithful(ops: seq<Op>, site: Site, capacity: nat, urlPath: string)
    requires capacity >= 1 && site.Valid() && AllWarmable(ops, site)
    ensures Faithful(Run(ops, site, capacity), site) && |Run(ops, site, capacity).entries| <= capacity
    ensures var hit := Run(ops, site, capacity).Peek(urlPath);
            hit.Some? ==>
              && site.Verdict(urlPath) == Ok(Safe(site.links.Absolute(hit.value), true))
              && SafeVerdict(site.links, urlPath, site.RealRoot(), site.block) == site.Verdict(urlPath)
              && (site.Path(urlPath) == Ok(hit.value) <==> IsAbs(hit.value))
              && (Rooted(site) ==> IsAbs(hit.value))
  {
    var r := Run(ops, site, capacity);
    RunIsFaithful(ops, site, capacity);
    if r.Peek(urlPath).Some? {
      LookupFaithful(r, site, urlPath);
      NamesMeaning(site, urlPath, r.Peek(urlPath).value);
      site.SameVerdict(urlPath);
    }
  }
}
