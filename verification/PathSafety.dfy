/**
 PathSafe (internal/security/security.go): from a URL path to a file inside the
 root, over any set of symbolic links, for absolute and for relative roots.
 */
module PathSafety {
  import opened Wrappers
  import opened Text
  import opened Paths

  /** What filepath.EvalSymlinks makes of a path. */
  datatype Resolution = Resolved(path: string) | NotExist | Unresolvable

  /** The file system as far as links are concerned, and the working directory. */
  datatype Links = Links(eval: string -> Resolution, cwd: string) {
    function Eval(p: string): Resolution {
      eval(p)
    }

    /** filepath.Abs. */
    function Absolute(p: string): string {
      FromDir(cwd, p)
    }

    /** Absolute results are cleaned paths without any further link. */
    predicate Settled(r: Resolution) {
      r.Resolved? ==> IsClean(r.path) && Eval(r.path) == r
    }

    /** A relative path is resolved like the absolute one, possibly to a relative result. */
    predicate Corresponds(r: Resolution, absolute: Resolution) {
      match r
      case Resolved(q) => q == CleanAny(q) && absolute == Resolved(Absolute(q))
      case NotExist => absolute.NotExist?
      case Unresolvable => absolute.Unresolvable?
    }

    ghost predicate Valid() {
      && IsClean(cwd) && Eval(cwd) == Resolved(cwd)
      && (forall p | IsAbs(p) :: Settled(Eval(p)))
      && (forall p | !IsAbs(p) && CleanAny(p) == p :: Corresponds(Eval(p), Eval(Absolute(p))))
    }

    /** The root with its own links resolved, or as it is when it does not resolve. */
    function RealRoot(root: string): string {
      match Eval(root)
      case Resolved(p) => p
      case NotExist => root
      case Unresolvable => root
    }

    lemma CleanIsAbs(p: string)
      requires IsClean(p)
      ensures IsAbs(p)
    {
      assert Clean(p)[0] == '/';
    }

    lemma RealRootIsClean(absRoot: string)
      requires Valid() && IsClean(absRoot)
      ensures IsClean(RealRoot(absRoot)) && RealRoot(RealRoot(absRoot)) == RealRoot(absRoot)
    {
      CleanIsAbs(absRoot);
      assert Settled(Eval(absRoot));
    }

    lemma AbsoluteIsClean(p: string)
      requires Valid()
      ensures IsClean(Absolute(p)) && (IsClean(p) ==> Absolute(p) == p)
    {
      FromDirClean(cwd, p);
      if IsClean(p) {
        CleanIsAbs(p);
      }
    }
  }

  datatype PathError = NullByte | Traversal | Dotfile

  datatype Safe = Safe(path: string, found: bool)

  type SafeResult = Result<Safe, PathError>

  // ---------------------------------------------------------------------------
  // The declarative side: segments
  // ---------------------------------------------------------------------------

  predicate HasDot(segs: seq<string>, k: nat)
    requires k <= |segs|
    decreases |segs| - k
  {
    k < |segs| && (HasPrefix(segs[k], ".") || HasDot(segs, k + 1))
  }

  /** Where a URL points below the root, before links are resolved. */
  function Target(root: seq<string>, urlPath: string): seq<string> {
    root + Segments("/" + urlPath)
  }

  /** A path below the root is allowed unless dotfiles are blocked and it has one. */
  function Admit(segs: seq<string>, root: seq<string>, found: bool, block: bool): SafeResult
    requires |root| <= |segs|
  {
    if block && HasDot(segs, |root|) then Err(Dotfile) else Ok(Safe(Render(segs), found))
  }

  /** The verdict on a URL, in terms of segments. */
  function Verdict(links: Links, urlPath: string, root: seq<string>, block: bool): SafeResult {
    if '\0' in urlPath then Err(NullByte)
    else
      match links.Eval(Render(Target(root, urlPath)))
      case Unresolvable => Err(Traversal)
      case NotExist => Admit(Target(root, urlPath), root, false, block)
      case Resolved(p) => if root <= Segments(p) then Admit(Segments(p), root, true, block) else Err(Traversal)
  }

  /** The verdict for an absolute root. */
  function SafeVerdict(links: Links, urlPath: string, absRoot: string, block: bool): SafeResult {
    Verdict(links, urlPath, Segments(links.RealRoot(absRoot)), block)
  }

  // ---------------------------------------------------------------------------
  // Meaning of the verdict
  // ---------------------------------------------------------------------------

  lemma AdmitFacts(segs: seq<string>, root: seq<string>, found: bool, block: bool)
    requires AllPlain(segs) && root <= segs && Admit(segs, root, found, block).Ok?
    ensures var safe := Admit(segs, root, found, block).value;
            && safe == Safe(Render(segs), found) && IsClean(safe.path) && Segments(safe.path) == segs
            && (block ==> !HasDot(segs, |root|))
  {
    SegmentsRender(segs);
  }

  /**
   Every allowed path is at or below the root, segment by segment, and without a
   dot-leading segment below it when those are blocked; one said to exist has
   its links resolved, another one is the plain target.
   */
  lemma Contained(links: Links, urlPath: string, root: seq<string>, block: bool)
    requires links.Valid() && AllPlain(root) && Verdict(links, urlPath, root, block).Ok?
    ensures var safe := Verdict(links, urlPath, root, block).value;
            && IsClean(safe.path) && root <= Segments(safe.path)
            && (block ==> !HasDot(Segments(safe.path), |root|))
            && links.Eval(safe.path) == (if safe.found then Resolved(safe.path) else NotExist)
            && (!safe.found ==> safe.path == Render(Target(root, urlPath)))
  {
    var target := Target(root, urlPath);
    TargetPlain(root, urlPath);
    SegmentsRender(target);
    links.CleanIsAbs(Render(target));
    var at := links.Eval(Render(target));
    assert links.Settled(at);
    if at.Resolved? {
      SegmentsPlain(at.path);
      AdmitFacts(Segments(at.path), root, true, block);
    } else {
      AdmitFacts(target, root, false, block);
    }
  }

  lemma {:induction false} HasDotMeaning(segs: seq<string>, k: nat)
    requires k <= |segs|
    ensures HasDot(segs, k) <==> exists j :: k <= j < |segs| && HasPrefix(segs[j], ".")
    decreases |segs| - k
  {
    if k < |segs| {
      HasDotMeaning(segs, k + 1);
    }
  }

  /** What a caller may conclude from a result, and all that it has to satisfy. */
  ghost predicate Acceptable(links: Links, urlPath: string, root: seq<string>, block: bool, path: string, found: bool) {
    && '\0' !in urlPath && IsClean(path) && root <= Segments(path)
    && (if found then links.Eval(Render(Target(root, urlPath))) == Resolved(path)
        else links.Eval(Render(Target(root, urlPath))).NotExist? && Segments(path) == Target(root, urlPath))
    && (block ==> forall j | |root| <= j < |Segments(path)| :: !HasPrefix(Segments(path)[j], "."))
  }

  /**
   A path is the result exactly when it is the resolved target, or the target
   itself where nothing exists, lies at or below the root, and has no
   dot-leading segment there when those are blocked.
   */
  lemma AcceptedIff(links: Links, urlPath: string, root: seq<string>, block: bool, path: string, found: bool)
    requires links.Valid() && AllPlain(root)
    ensures Verdict(links, urlPath, root, block) == Ok(Safe(path, found))
            <==> Acceptable(links, urlPath, root, block, path, found)
  {
    var target := Target(root, urlPath);
    TargetPlain(root, urlPath);
    SegmentsRender(target);
    CleanIdempotent(Render(target));
    links.CleanIsAbs(Render(target));
    var at := links.Eval(Render(target));
    assert links.Settled(at);
    var segs := if at.Resolved? then Segments(at.path) else target;
    if root <= segs {
      HasDotMeaning(segs, |root|);
    }
  }

  /**
   Why a URL is refused: a null byte; a target that does not resolve, or resolves
   to a place not below the root; or, when those are blocked, a dot-leading
   segment below the root, whether anything exists there or not.
   */
  lemma RefusedIff(links: Links, urlPath: string, root: seq<string>, block: bool, e: PathError)
    requires links.Valid() && AllPlain(root)
    ensures var at := links.Eval(Render(Target(root, urlPath)));
            var place := if at.Resolved? then Segments(at.path) else Target(root, urlPath);
            Verdict(links, urlPath, root, block) == Err(e)
            <==> match e
                 case NullByte => '\0' in urlPath
                 case Traversal => '\0' !in urlPath && (at.Unresolvable? || !(root <= place))
                 case Dotfile =>
                   && '\0' !in urlPath && !at.Unresolvable? && root <= place && block
                   && exists j :: |root| <= j < |place| && HasPrefix(place[j], ".")
  {
    TargetPlain(root, urlPath);
    var at := links.Eval(Render(Target(root, urlPath)));
    var place := if at.Resolved? then Segments(at.path) else Target(root, urlPath);
    if root <= place {
      HasDotMeaning(place, |root|);
    }
  }

  lemma TargetPlain(root: seq<string>, urlPath: string)
    requires AllPlain(root)
    ensures AllPlain(Target(root, urlPath)) && root <= Target(root, urlPath)
  {
    SegmentsPlain("/" + urlPath);
  }

  /** Cleaning a URL, or repeating it, never leaves the root: the first traversal test cannot fail. */
  lemma FirstTestHolds(root: seq<string>, urlPath: string)
    requires AllPlain(root)
    ensures JoinPath(Render(root), Clean("/" + urlPath)) == Render(Target(root, urlPath))
    ensures UnderRoot(JoinPath(Render(root), Clean("/" + urlPath)), Render(root))
  {
    TargetPlain(root, urlPath);
    SegmentsPlain("/" + urlPath);
    JoinSegments(root, Segments("/" + urlPath));
    UnderRootIsPrefix(root, Target(root, urlPath));
  }

  // ---------------------------------------------------------------------------
  // The dotfile test on strings
  // ---------------------------------------------------------------------------

  lemma {:induction false} HasDotAppend(front: seq<string>, segs: seq<string>, k: nat)
    requires k <= |segs|
    ensures HasDot(front + segs, |front| + k) <==> HasDot(segs, k)
    decreases |segs| - k
  {
    if k < |segs| {
      assert (front + segs)[|front| + k] == segs[k];
      HasDotAppend(front, segs, k + 1);
    }
  }

  lemma HasDotEmptyFirst(segs: seq<string>)
    ensures HasDot([""] + segs, 0) <==> HasDot(segs, 0)
  {
    HasDotAppend([""], segs, 0);
  }

  lemma TrimFront(a: string, b: string)
    ensures TrimPrefix(a + b, a) == b
  {
  }

  lemma RenderTwo(root: seq<string>, rest: seq<string>)
    requires root != [] && rest != []
    ensures Render(root + rest) == Render(root) + Render(rest)
  {
    RenderAppend(root, rest);
  }

  lemma DotTestBelow(root: seq<string>, rest: seq<string>)
    requires AllPlain(rest) && root != [] && rest != []
    ensures HasDot(Split(TrimPrefix(Render(root + rest), Render(root)), '/'), 0) <==> HasDot(root + rest, |root|)
  {
    RenderTwo(root, rest);
    TrimFront(Render(root), Render(rest));
    SplitRender(rest);
    HasDotEmptyFirst(rest);
    HasDotAppend(root, rest, 0);
  }

  lemma DotTestRoot(root: seq<string>)
    ensures !HasDot(Split(TrimPrefix(Render(root), Render(root)), '/'), 0) && !HasDot(root, |root|)
  {
    assert TrimPrefix(Render(root), Render(root)) == "";
    SplitNone("", '/');
    assert !HasDot([""], 1);
  }

  /** What is left after the root's text, split, has the segments below the root. */
  lemma DotTest(root: seq<string>, segs: seq<string>)
    requires AllPlain(root) && AllPlain(segs) && root <= segs
    ensures HasDot(Split(TrimPrefix(Render(segs), Render(root)), '/'), 0) <==> HasDot(segs, |root|)
  {
    if root == [] {
      DotTestAtSlash(segs);
    } else if root == segs {
      DotTestRoot(root);
    } else {
      var rest := segs[|root|..];
      assert segs == root + rest;
      DotTestBelow(root, rest);
    }
  }

  lemma DotTestAtSlash(segs: seq<string>)
    requires AllPlain(segs)
    ensures HasDot(Split(TrimPrefix(Render(segs), Render([])), '/'), 0) <==> HasDot(segs, 0)
  {
    assert Render([]) == "/";
    assert TrimPrefix(Render(segs), "/") == Join(segs, "/");
    if segs == [] {
      SplitNone("", '/');
    } else {
      SplitJoin(segs, '/');
    }
  }

  // ---------------------------------------------------------------------------
  // The code
  // ---------------------------------------------------------------------------

  method BlockDots(rel: string) returns (dotted: bool)
    ensures dotted <==> HasDot(Split(rel, '/'), 0)
  {
    var parts := Split(rel, '/');
    for k := 0 to |parts|
      invariant HasDot(parts, k) <==> HasDot(parts, 0)
    {
      var segment := parts[k];
      if segment == "" {
        continue;
      }
      if HasPrefix(segment, ".") {
        return true;
      }
    }
    return false;
  }

  /** Step 5: the text after the root's, split at separators. */
  function AdmitText(p: string, realRoot: string, found: bool, block: bool): SafeResult {
    if block && HasDot(Split(TrimPrefix(p, realRoot), '/'), 0) then Err(Dotfile) else Ok(Safe(p, found))
  }

  /** What the checks on strings make of a URL, for any root. */
  function Outcome(links: Links, urlPath: string, root: string, block: bool): SafeResult {
    var realRoot := links.RealRoot(root);
    var candidate := JoinAny(realRoot, Clean("/" + urlPath));
    if '\0' in urlPath then Err(NullByte)
    else if !UnderRoot(candidate, realRoot) then Err(Traversal)
    else
      match links.Eval(candidate)
      case Unresolvable => Err(Traversal)
      case NotExist => AdmitText(candidate, realRoot, false, block)
      case Resolved(p) => if UnderRoot(p, realRoot) then AdmitText(p, realRoot, true, block) else Err(Traversal)
  }

  method PathSafe(links: Links, urlPath: string, root: string, block: bool) returns (r: SafeResult)
    ensures r == Outcome(links, urlPath, root, block)
    ensures links.Valid() && IsClean(root) ==> r == SafeVerdict(links, urlPath, root, block)
  {
    if links.Valid() && IsClean(root) {
      OutcomeIsVerdict(links, urlPath, root, block);
    }
    if '\0' in urlPath {
      return Err(NullByte);
    }
    var realRoot := links.RealRoot(root);
    var cleanURL := Clean("/" + urlPath);
    var candidate := JoinAny(realRoot, cleanURL);
    if candidate != realRoot && !HasPrefix(candidate, WithSep(realRoot)) {
      return Err(Traversal);
    }
    var resolved, found := candidate, false;
    match links.Eval(candidate) {
      case Unresolvable =>
        return Err(Traversal);
      case NotExist =>
      case Resolved(p) =>
        resolved, found := p, true;
        if resolved != realRoot && !HasPrefix(resolved, WithSep(realRoot)) {
          return Err(Traversal);
        }
    }
    if block {
      var dotted := BlockDots(TrimPrefix(resolved, realRoot));
      if dotted {
        return Err(Dotfile);
      }
    }
    return Ok(Safe(resolved, found));
  }

  // ---------------------------------------------------------------------------
  // An absolute root: the strings decide the segment relations
  // ---------------------------------------------------------------------------

  lemma AdmitTextIsAdmit(segs: seq<string>, root: seq<string>, found: bool, block: bool)
    requires AllPlain(root) && AllPlain(segs) && root <= segs
    ensures AdmitText(Render(segs), Render(root), found, block) == Admit(segs, root, found, block)
  {
    DotTest(root, segs);
  }

  lemma CandidateIsTarget(root: seq<string>, urlPath: string)
    requires AllPlain(root)
    ensures JoinAny(Render(root), Clean("/" + urlPath)) == Render(Target(root, urlPath))
    ensures UnderRoot(Render(Target(root, urlPath)), Render(root))
  {
    FirstTestHolds(root, urlPath);
    assert Render(root)[0] == '/';
    var joined := Render(root) + "/" + Clean("/" + urlPath);
    assert joined[0] == '/';
  }

  /** For an absolute cleaned root the checks on strings compute the verdict on segments. */
  lemma OutcomeIsVerdict(links: Links, urlPath: string, absRoot: string, block: bool)
    requires links.Valid() && IsClean(absRoot)
    ensures Outcome(links, urlPath, absRoot, block) == SafeVerdict(links, urlPath, absRoot, block)
  {
    var realRoot := links.RealRoot(absRoot);
    var root := Segments(realRoot);
    links.RealRootIsClean(absRoot);
    SegmentsPlain(realRoot);
    CandidateIsTarget(root, urlPath);
    OutcomeAtTarget(links, urlPath, root, block);
  }

  /** The steps after the candidate is found to be the target. */
  lemma OutcomeAtTarget(links: Links, urlPath: string, root: seq<string>, block: bool)
    requires links.Valid() && AllPlain(root)
    ensures var p := links.Eval(Render(Target(root, urlPath)));
            && (p.NotExist? ==> AdmitText(Render(Target(root, urlPath)), Render(root), false, block)
                                == Admit(Target(root, urlPath), root, false, block))
            && (p.Resolved? ==>
                  && (UnderRoot(p.path, Render(root)) <==> root <= Segments(p.path))
                  && (root <= Segments(p.path) ==> AdmitText(p.path, Render(root), true, block)
                                                   == Admit(Segments(p.path), root, true, block)))
  {
    var target := Target(root, urlPath);
    TargetPlain(root, urlPath);
    SegmentsRender(target);
    links.CleanIsAbs(Render(target));
    var at := links.Eval(Render(target));
    assert links.Settled(at);
    AdmitTextIsAdmit(target, root, false, block);
    if at.Resolved? {
      SegmentsPlain(at.path);
      UnderRootIsPrefix(root, Segments(at.path));
      if root <= Segments(at.path) {
        AdmitTextIsAdmit(Segments(at.path), root, true, block);
      }
    }
  }

  // ---------------------------------------------------------------------------
  // A root that may be relative: results lead to the same files
  // ---------------------------------------------------------------------------

  /** Cleaning the root's text does not change what it names. */
  ghost predicate PlainlyNamed(links: Links, root: string) {
    root != "" && links.Eval(root) == links.Eval(CleanAny(root))
  }

  /** Resolving the root as given leads to the real root of its absolute form. */
  lemma RootLeads(links: Links, root: string)
    requires links.Valid() && PlainlyNamed(links, root)
    ensures links.RealRoot(root) != ""
    ensures links.Absolute(links.RealRoot(root)) == links.RealRoot(links.Absolute(root))
  {
    var clean := CleanAny(root);
    CleanAnyIdempotent(root);
    FromDirClean(links.cwd, root);
    var at := links.Eval(clean);
    if IsAbs(root) {
      assert links.Settled(at);
    } else {
      assert links.Corresponds(at, links.Eval(links.Absolute(clean)));
    }
    if at.Resolved? {
      links.AbsoluteIsClean(at.path);
      CleanAnyIdempotent(at.path);
    }
  }

  lemma SameStart(p: string, root: string)
    requires root != "" && UnderRoot(p, root)
    ensures IsAbs(p) <==> IsAbs(root)
  {
    assert p[0] == WithSep(root)[0] == root[0] || p == root;
    assert IsAbs(p) <==> p[0] == '/';
    assert IsAbs(root) <==> root[0] == '/';
  }

  /**
   A path found for a URL, resolved from the working directory, is what the URL's
   target below the real absolute root resolves to; it is absolute exactly when
   the root is once its links are resolved.
   */
  lemma FoundLeads(links: Links, urlPath: string, root: string, block: bool, path: string)
    requires links.Valid() && PlainlyNamed(links, root)
    requires Outcome(links, urlPath, root, block) == Ok(Safe(path, true))
    ensures var absRoot := links.RealRoot(links.Absolute(root));
            links.Eval(Render(Target(Segments(absRoot), urlPath))) == Resolved(links.Absolute(path))
    ensures path == CleanAny(path) && (IsAbs(path) <==> IsAbs(links.RealRoot(root)))
  {
    hide Segments, HasDot;
    var realRoot, segs := links.RealRoot(root), Segments("/" + urlPath);
    RootLeads(links, root);
    SegmentsPlain("/" + urlPath);
    FromDirJoin(links.cwd, realRoot, segs);
    var candidate := JoinAny(realRoot, Clean("/" + urlPath));
    CleanAnyIdempotent(realRoot + "/" + Clean("/" + urlPath));
    SameStart(path, realRoot);
    if IsAbs(candidate) {
      assert links.Settled(links.Eval(candidate));
      links.AbsoluteIsClean(path);
      links.CleanIsAbs(path);
    } else {
      assert links.Corresponds(links.Eval(candidate), links.Eval(links.Absolute(candidate)));
    }
  }

  /**
   Where the absolute root accepts the URL, a path found with the root as given
   names the same file as its verdict, and is its very text exactly when the root
   is absolute once its links are resolved.
   */
  lemma FoundIsVerdict(links: Links, urlPath: string, root: string, block: bool, path: string)
    requires links.Valid() && PlainlyNamed(links, root)
    requires Outcome(links, urlPath, root, block) == Ok(Safe(path, true))
    requires SafeVerdict(links, urlPath, links.Absolute(root), block).Ok?
    ensures var verdict := SafeVerdict(links, urlPath, links.Absolute(root), block);
            && verdict == Ok(Safe(links.Absolute(path), true))
            && (path == verdict.value.path <==> IsAbs(links.RealRoot(root)))
  {
    FoundLeads(links, urlPath, root, block, path);
    links.AbsoluteIsClean(path);
    links.CleanIsAbs(links.Absolute(path));
    if IsAbs(path) {
      assert path == Clean(path);
    }
  }
}
