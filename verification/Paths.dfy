/**
 Rooted slash-separated paths: cleaning (Go's path.Clean and filepath.Join on
 Unix) as an operation on segments, and string prefixes against segment prefixes.
 */
module Paths {
  import opened Text

  /** A segment a cleaned path can have. */
  predicate Plain(seg: string) {
    seg != "" && Free(seg, '/') && seg != "." && seg != ".."
  }

  predicate AllPlain(segs: seq<string>) {
    forall k | 0 <= k < |segs| :: Plain(segs[k])
  }

  /** One element of a rooted path, after the segments kept so far. */
  function Step(kept: seq<string>, part: string): seq<string> {
    if part == "" || part == "." then kept
    else if part == ".." then if kept == [] then [] else kept[..|kept| - 1]
    else kept + [part]
  }

  function Walk(parts: seq<string>, k: nat, kept: seq<string>): seq<string>
    requires k <= |parts|
    decreases |parts| - k
  {
    if k == |parts| then kept else Walk(parts, k + 1, Step(kept, parts[k]))
  }

  /** The segments of a rooted path once cleaned. */
  function Segments(p: string): seq<string> {
    Walk(Split(p, '/'), 0, [])
  }

  function Render(segs: seq<string>): string {
    "/" + Join(segs, "/")
  }

  /** path.Clean of a rooted path. */
  function Clean(p: string): string {
    Render(Segments(p))
  }

  /** filepath.Join of an absolute directory and a path. */
  function JoinPath(dir: string, p: string): string {
    Clean(dir + "/" + p)
  }

  /** An absolute path in cleaned form. */
  predicate IsClean(p: string) {
    p == Clean(p)
  }

  // ---------------------------------------------------------------------------
  // Cleaning
  // ---------------------------------------------------------------------------

  lemma StepPlain(kept: seq<string>, part: string)
    requires AllPlain(kept) && Free(part, '/')
    ensures AllPlain(Step(kept, part))
  {
  }

  lemma {:induction false} WalkPlain(parts: seq<string>, k: nat, kept: seq<string>)
    requires k <= |parts| && AllPlain(kept) && AllFree(parts, '/')
    ensures AllPlain(Walk(parts, k, kept))
    decreases |parts| - k
  {
    if k < |parts| {
      StepPlain(kept, parts[k]);
      WalkPlain(parts, k + 1, Step(kept, parts[k]));
    }
  }

  /** Cleaning a rooted path leaves no empty, `.` or `..` segment. */
  lemma SegmentsPlain(p: string)
    ensures AllPlain(Segments(p))
  {
    SplitFree(p, '/', 0);
    WalkPlain(Split(p, '/'), 0, []);
  }

  lemma {:induction false} WalkKeeps(segs: seq<string>, k: nat, kept: seq<string>)
    requires k <= |segs| && AllPlain(segs)
    ensures Walk(segs, k, kept) == kept + segs[k..]
    decreases |segs| - k
  {
    if k < |segs| {
      WalkKeeps(segs, k + 1, kept + [segs[k]]);
      assert kept + [segs[k]] + segs[k + 1..] == kept + segs[k..];
    }
  }

  lemma {:induction false} WalkAppend(a: seq<string>, b: seq<string>, k: nat, kept: seq<string>)
    requires k <= |a|
    ensures Walk(a + b, k, kept) == Walk(b, 0, Walk(a, k, kept))
    decreases |a| - k
  {
    if k < |a| {
      assert (a + b)[k] == a[k];
      WalkAppend(a, b, k + 1, Step(kept, a[k]));
    } else {
      WalkSkip(a, b, 0, kept);
    }
  }

  lemma {:induction false} WalkSkip(a: seq<string>, b: seq<string>, k: nat, kept: seq<string>)
    requires k <= |b|
    ensures Walk(a + b, |a| + k, kept) == Walk(b, k, kept)
    decreases |b| - k
  {
    if k < |b| {
      assert (a + b)[|a| + k] == b[k];
      WalkSkip(a, b, k + 1, Step(kept, b[k]));
    }
  }

  // ---------------------------------------------------------------------------
  // Splitting what was joined
  // ---------------------------------------------------------------------------

  lemma {:induction false} IndexInFront(x: string, y: string, c: char, i: nat)
    requires i <= |x|
    ensures IndexFrom(x + [c] + y, c, i) == if IndexFrom(x, c, i) < 0 then |x| else IndexFrom(x, c, i)
    decreases |x| - i
  {
    var s := x + [c] + y;
    if i < |x| {
      assert s[i] == x[i];
      if x[i] != c {
        IndexInFront(x, y, c, i + 1);
      }
    } else {
      assert s[i] == c;
    }
  }

  lemma SliceInFront(x: string, y: string, c: char, i: nat, k: nat)
    requires i <= k <= |x|
    ensures (x + [c] + y)[i..k] == x[i..k]
  {
  }

  lemma LastInFront(x: string, y: string, c: char, i: nat)
    requires i <= |x| && IndexFrom(x, c, i) < 0
    ensures SplitFrom(x + [c] + y, c, i) == SplitFrom(x, c, i) + Split(y, c)
  {
    IndexInFront(x, y, c, i);
    SliceInFront(x, y, c, i, |x|);
    assert x[i..] == x[i..|x|];
    SplitShift(x + [c], y, c, 0);
  }

  /** A separator cuts a split in two. */
  lemma {:induction false} SplitConcat(x: string, y: string, c: char, i: nat)
    requires i <= |x|
    ensures SplitFrom(x + [c] + y, c, i) == SplitFrom(x, c, i) + Split(y, c)
    decreases |x| - i
  {
    var k := IndexFrom(x, c, i);
    if k < 0 {
      LastInFront(x, y, c, i);
    } else {
      IndexInFront(x, y, c, i);
      SliceInFront(x, y, c, i, k);
      SplitConcat(x, y, c, k + 1);
      ConsAppend(x[i..k], SplitFrom(x, c, k + 1), Split(y, c));
    }
  }

  lemma ConsAppend(a: string, b: seq<string>, c: seq<string>)
    ensures [a] + (b + c) == ([a] + b) + c
  {
  }

  lemma SplitRender(segs: seq<string>)
    requires AllPlain(segs)
    ensures Split(Render(segs), '/') == [""] + if segs == [] then [""] else segs
  {
    var tail := Join(segs, "/");
    assert "/" + tail == "" + ['/'] + tail;
    SplitFirst("", tail, '/');
    if segs == [] {
      SplitNone("", '/');
    } else {
      SplitJoin(segs, '/');
    }
  }

  /** Rendering plain segments gives a cleaned path, from which they are read back. */
  lemma SegmentsRender(segs: seq<string>)
    requires AllPlain(segs)
    ensures Segments(Render(segs)) == segs
  {
    SplitRender(segs);
    if segs == [] {
      assert Walk(["", ""], 2, []) == [] && Walk(["", ""], 1, []) == [];
      assert [""] + [""] == ["", ""];
    } else {
      WalkSkip([""], segs, 0, []);
      WalkKeeps(segs, 0, []);
      assert Walk([""] + segs, 0, []) == Walk([""] + segs, 1, []);
      assert [] + segs[0..] == segs;
    }
  }

  /** Cleaning is idempotent. */
  lemma CleanIdempotent(p: string)
    ensures Clean(Clean(p)) == Clean(p) && IsClean(Clean(p))
  {
    SegmentsPlain(p);
    SegmentsRender(Segments(p));
  }

  lemma SegmentsConcat(x: string, y: string)
    ensures Segments(x + "/" + y) == Walk(Split(y, '/'), 0, Segments(x))
  {
    SplitConcat(x, y, '/', 0);
    assert x + "/" + y == x + ['/'] + y;
    WalkAppend(Split(x, '/'), Split(y, '/'), 0, []);
  }

  lemma WalkOne(part: string, kept: seq<string>)
    ensures Walk([part], 0, kept) == Step(kept, part)
  {
    assert Walk([part], 1, Step(kept, part)) == Step(kept, part);
  }

  /** What each kind of element does to a path: it is ignored, goes up, or goes down. */
  lemma SegmentLaws(p: string, seg: string)
    requires Plain(seg)
    ensures Segments("") == []
    ensures Segments(p + "/") == Segments(p) && Segments(p + "/.") == Segments(p)
    ensures Segments(p + "/" + seg) == Segments(p) + [seg]
    ensures var s := Segments(p); Segments(p + "/..") == if s == [] then [] else s[..|s| - 1]
  {
    hide Segments;
    NextSegment(p, "");
    NextSegment(p, ".");
    NextSegment(p, "..");
    NextSegment(p, seg);
    NoSegment();
    assert p + "/" + "" == p + "/" && p + "/" + "." == p + "/." && p + "/" + ".." == p + "/..";
  }

  lemma NextSegment(p: string, part: string)
    requires Free(part, '/')
    ensures Segments(p + "/" + part) == Step(Segments(p), part)
  {
    SegmentsConcat(p, part);
    SplitNone(part, '/');
    WalkOne(part, Segments(p));
  }

  lemma NoSegment()
    ensures Segments("") == []
  {
    SplitNone("", '/');
    WalkOne("", []);
  }

  lemma {:induction false} WalkFrom(parts: seq<string>, k: nat, base: seq<string>, kept: seq<string>)
    requires k <= |parts| && forall j | k <= j < |parts| :: parts[j] == "" || Plain(parts[j])
    ensures Walk(parts, k, base + kept) == base + Walk(parts, k, kept)
    decreases |parts| - k
  {
    if k < |parts| {
      assert Step(base + kept, parts[k]) == base + Step(kept, parts[k]) by {
        assert base + kept + [parts[k]] == base + (kept + [parts[k]]);
      }
      WalkFrom(parts, k + 1, base, Step(kept, parts[k]));
    }
  }

  /** Joining a cleaned directory and a cleaned rooted path puts their segments in a row. */
  lemma JoinSegments(dir: seq<string>, segs: seq<string>)
    requires AllPlain(dir) && AllPlain(segs)
    ensures JoinPath(Render(dir), Render(segs)) == Render(dir + segs)
  {
    SegmentsConcat(Render(dir), Render(segs));
    SegmentsRender(dir);
    SegmentsRender(segs);
    SplitRender(segs);
    var parts := Split(Render(segs), '/');
    WalkFrom(parts, 0, dir, []);
    assert dir + [] == dir;
  }

  // ---------------------------------------------------------------------------
  // Prefixes
  // ---------------------------------------------------------------------------

  /** The root with a separator at its end, for prefix tests. */
  function WithSep(root: string): string {
    if HasSuffix(root, "/") then root else root + "/"
  }

  /** The string test that a path is the root or below it. */
  predicate UnderRoot(p: string, root: string) {
    p == root || HasPrefix(p, WithSep(root))
  }

  lemma {:induction false} JoinLast(segs: seq<string>)
    requires segs != [] && AllPlain(segs)
    ensures var s := Join(segs, "/"); s != "" && s[|s| - 1] != '/'
    decreases |segs|
  {
    if |segs| > 1 {
      JoinLast(segs[1..]);
    }
  }

  /** Only the root directory itself ends in a separator. */
  lemma RenderEnd(segs: seq<string>)
    requires AllPlain(segs)
    ensures HasSuffix(Render(segs), "/") <==> segs == []
  {
    var p := Render(segs);
    if segs == [] {
      assert p == "/" && p[0..] == "/";
    } else {
      JoinLast(segs);
      assert p[|p| - 1..][0] == p[|p| - 1];
    }
  }

  lemma {:induction false} JoinAppend(a: seq<string>, b: seq<string>)
    requires a != [] && b != []
    ensures Join(a + b, "/") == Join(a, "/") + "/" + Join(b, "/")
    decreases |a|
  {
    if |a| == 1 {
      assert a == [a[0]];
      JoinCons(a[0], b, "/");
    } else {
      JoinAppend(a[1..], b);
      assert a + b == [a[0]] + (a[1..] + b);
      JoinCons(a[0], a[1..] + b, "/");
      Regroup(a[0], "/", Join(a[1..], "/"), "/" + Join(b, "/"));
    }
  }

  lemma Regroup(a: string, b: string, c: string, d: string)
    ensures a + b + (c + d) == (a + b + c) + d
  {
  }

  lemma RenderAppend(a: seq<string>, b: seq<string>)
    requires a != [] && b != []
    ensures Render(a + b) == Render(a) + "/" + Join(b, "/")
  {
    JoinAppend(a, b);
  }

  /** A string prefix that ends at a separator is a prefix of segments. */
  lemma PrefixOfSegments(root: seq<string>, segs: seq<string>, y: string)
    requires AllPlain(root) && AllPlain(segs) && root != []
    requires Render(segs) == Render(root) + "/" + y
    ensures root < segs
  {
    SplitConcat(Render(root), y, '/', 0);
    assert Render(root) + "/" + y == Render(root) + ['/'] + y;
    SplitRender(root);
    SplitRender(segs);
    var parts := Split(Render(segs), '/');
    assert parts == ([""] + root) + Split(y, '/');
    assert |parts| >= 3;
    forall k | 0 <= k < |root| ensures k < |segs| && segs[k] == root[k] {
      assert parts[k + 1] == segs[k] && parts[k + 1] == ([""] + root)[k + 1] == root[k];
    }
  }

  /** Below a directory other than `/`, the string starts with it and a separator. */
  lemma SegmentsOfPrefix(root: seq<string>, segs: seq<string>)
    requires root != [] && root < segs
    ensures HasPrefix(Render(segs), Render(root) + "/")
  {
    var rest := segs[|root|..];
    assert segs == root + rest;
    RenderAppend(root, rest);
    assert Render(segs) == (Render(root) + "/") + Join(rest, "/");
  }

  lemma StringPrefix(root: seq<string>, segs: seq<string>)
    requires AllPlain(root) && AllPlain(segs) && root != []
    ensures HasPrefix(Render(segs), Render(root) + "/") <==> root < segs
  {
    var p, r := Render(segs), Render(root) + "/";
    if HasPrefix(p, r) {
      assert p == r + p[|r|..];
      PrefixOfSegments(root, segs, p[|r|..]);
    }
    if root < segs {
      SegmentsOfPrefix(root, segs);
    }
  }

  /** The string test decides the segment relation. */
  lemma UnderRootIsPrefix(root: seq<string>, segs: seq<string>)
    requires AllPlain(root) && AllPlain(segs)
    ensures UnderRoot(Render(segs), Render(root)) <==> root <= segs
  {
    RenderEnd(root);
    SegmentsRender(root);
    SegmentsRender(segs);
    if root == [] {
      assert Render(root) == "/" && HasPrefix(Render(segs), "/");
    } else {
      StringPrefix(root, segs);
      if root <= segs && |root| == |segs| {
        assert root == segs;
      }
    }
  }

  // ---------------------------------------------------------------------------
  // Relative paths
  // ---------------------------------------------------------------------------

  predicate IsAbs(p: string) {
    HasPrefix(p, "/")
  }

  /** One element of a relative path: what goes up past the start is kept. */
  function RelStep(kept: seq<string>, part: string): seq<string> {
    if part == "" || part == "." then kept
    else if part == ".." && kept != [] && kept[|kept| - 1] != ".." then kept[..|kept| - 1]
    else kept + [part]
  }

  function RelWalk(parts: seq<string>, k: nat, kept: seq<string>): seq<string>
    requires k <= |parts|
    decreases |parts| - k
  {
    if k == |parts| then kept else RelWalk(parts, k + 1, RelStep(kept, parts[k]))
  }

  function RelRender(segs: seq<string>): string {
    if segs == [] then "." else Join(segs, "/")
  }

  /** path.Clean of any path. */
  function CleanAny(p: string): string {
    if IsAbs(p) then Clean(p) else RelRender(RelWalk(Split(p, '/'), 0, []))
  }

  /** filepath.Join of two elements. */
  function JoinAny(dir: string, p: string): string {
    if dir == "" then CleanAny(p) else CleanAny(dir + "/" + p)
  }

  /** filepath.Abs: where a path leads from the working directory. */
  function FromDir(cwd: string, p: string): string {
    if IsAbs(p) then Clean(p) else JoinPath(cwd, p)
  }

  /** A relative path goes down from the directory; an absolute one does not depend on it. */
  lemma FromDirDown(dir: seq<string>, segs: seq<string>)
    requires AllPlain(dir) && AllPlain(segs) && segs != []
    ensures FromDir(Render(dir), Join(segs, "/")) == Render(dir + segs)
    ensures FromDir(Render(dir), Render(segs)) == Render(segs)
  {
    var p := Join(segs, "/");
    assert p[0] == segs[0][0] && "/"[0] == '/';
    SegmentsConcat(Render(dir), p);
    SegmentsRender(dir);
    SegmentsRender(segs);
    SplitJoin(segs, '/');
    WalkKeeps(segs, 0, dir);
    assert segs[0..] == segs;
  }

  /** A segment of a cleaned relative path. */
  predicate Kept(seg: string) {
    seg != "" && seg != "." && Free(seg, '/')
  }

  /** Cleaned relative segments: all ways up stand in front. */
  predicate RelPlain(segs: seq<string>) {
    && (forall k | 0 <= k < |segs| :: Kept(segs[k]))
    && (forall k | 0 < k < |segs| :: segs[k] == ".." ==> segs[k - 1] == "..")
  }

  lemma RelStepPlain(kept: seq<string>, part: string)
    requires RelPlain(kept) && Free(part, '/')
    ensures RelPlain(RelStep(kept, part))
  {
  }

  lemma {:induction false} RelWalkPlain(parts: seq<string>, k: nat, kept: seq<string>)
    requires k <= |parts| && RelPlain(kept) && AllFree(parts, '/')
    ensures RelPlain(RelWalk(parts, k, kept))
    decreases |parts| - k
  {
    if k < |parts| {
      RelStepPlain(kept, parts[k]);
      RelWalkPlain(parts, k + 1, RelStep(kept, parts[k]));
    }
  }

  /** Cleaned segments are walked over unchanged. */
  lemma {:induction false} RelWalkKeeps(segs: seq<string>, k: nat)
    requires k <= |segs| && RelPlain(segs)
    ensures RelWalk(segs, k, segs[..k]) == segs
    decreases |segs| - k
  {
    if k == |segs| {
      assert segs[..k] == segs;
    } else {
      assert segs[..k + 1] == segs[..k] + [segs[k]];
      assert k > 0 ==> segs[..k][k - 1] == segs[k - 1];
      RelWalkKeeps(segs, k + 1);
    }
  }

  lemma WalkSnoc(segs: seq<string>, part: string, base: seq<string>)
    ensures Walk(segs + [part], 0, base) == Step(Walk(segs, 0, base), part)
  {
    WalkAppend(segs, [part], 0, base);
    assert Walk([part], 1, Step(Walk(segs, 0, base), part)) == Step(Walk(segs, 0, base), part);
  }

  lemma RelStepSame(kept: seq<string>, part: string, base: seq<string>)
    requires RelPlain(kept) && Free(part, '/')
    ensures Walk(RelStep(kept, part), 0, base) == Step(Walk(kept, 0, base), part)
  {
    WalkSnoc(kept, part, base);
    if part == ".." && kept != [] && kept[|kept| - 1] != ".." {
      var front, last := kept[..|kept| - 1], kept[|kept| - 1];
      assert kept == front + [last];
      WalkSnoc(front, last, base);
      assert (Walk(front, 0, base) + [last])[..|Walk(front, 0, base)|] == Walk(front, 0, base);
    }
  }

  /** From a directory, a path and its cleaned form lead to the same place. */
  lemma {:induction false} RelWalkSame(parts: seq<string>, k: nat, kept: seq<string>, base: seq<string>)
    requires k <= |parts| && RelPlain(kept) && AllFree(parts, '/')
    ensures Walk(RelWalk(parts, k, kept), 0, base) == Walk(parts, k, Walk(kept, 0, base))
    decreases |parts| - k
  {
    if k < |parts| {
      RelStepPlain(kept, parts[k]);
      RelStepSame(kept, parts[k], base);
      RelWalkSame(parts, k + 1, RelStep(kept, parts[k]), base);
    }
  }

  lemma SplitRelRender(segs: seq<string>)
    requires RelPlain(segs)
    ensures Split(RelRender(segs), '/') == if segs == [] then ["."] else segs
  {
    if segs == [] {
      SplitNone(".", '/');
    } else {
      SplitJoin(segs, '/');
    }
  }

  lemma RelRenderRelative(segs: seq<string>)
    requires RelPlain(segs)
    ensures RelRender(segs) != "" && !IsAbs(RelRender(segs))
  {
    var p := RelRender(segs);
    assert p[0] != '/' by {
      if segs != [] {
        assert p[0] == segs[0][0] && Kept(segs[0]);
      }
    }
    assert "/"[0] == '/';
  }

  /** Cleaning any path is idempotent and keeps it absolute or relative. */
  lemma CleanAnyIdempotent(p: string)
    ensures CleanAny(CleanAny(p)) == CleanAny(p) && CleanAny(p) != "" && (IsAbs(CleanAny(p)) <==> IsAbs(p))
  {
    if IsAbs(p) {
      CleanIdempotent(p);
      assert Clean(p)[0] == '/';
    } else {
      var segs := RelWalk(Split(p, '/'), 0, []);
      SplitFree(p, '/', 0);
      RelWalkPlain(Split(p, '/'), 0, []);
      RelRenderRelative(segs);
      SplitRelRender(segs);
      if segs == [] {
        assert RelWalk(["."], 1, []) == [];
      } else {
        RelWalkKeeps(segs, 0);
        assert segs[..0] == [];
      }
    }
  }

  /** Cleaning does not change where a path leads. */
  lemma FromDirClean(cwd: string, p: string)
    requires IsClean(cwd)
    ensures FromDir(cwd, CleanAny(p)) == FromDir(cwd, p) && IsClean(FromDir(cwd, p))
  {
    CleanAnyIdempotent(p);
    if IsAbs(p) {
      CleanIdempotent(p);
    } else {
      var parts, base := Split(p, '/'), Segments(cwd);
      var segs := RelWalk(parts, 0, []);
      SplitFree(p, '/', 0);
      RelWalkPlain(parts, 0, []);
      SplitRelRender(segs);
      SegmentsConcat(cwd, p);
      SegmentsConcat(cwd, CleanAny(p));
      RelWalkSame(parts, 0, [], base);
      assert Walk(["."], 1, base) == base;
      CleanIdempotent(cwd + "/" + p);
    }
  }

  /** Below a directory, absolute or relative, a cleaned rooted path adds its segments. */
  lemma FromDirJoin(cwd: string, dir: string, segs: seq<string>)
    requires IsClean(cwd) && dir != "" && AllPlain(segs)
    ensures FromDir(cwd, JoinAny(dir, Render(segs))) == Render(Segments(FromDir(cwd, dir)) + segs)
  {
    var joined := dir + "/" + Render(segs);
    FromDirClean(cwd, joined);
    assert joined[0] == dir[0];
    var base := if IsAbs(dir) then dir else cwd + "/" + dir;
    SegmentsPlain(base);
    SegmentsRender(Segments(base));
    assert cwd + "/" + joined == (cwd + "/" + dir) + "/" + Render(segs);
    SegmentsConcat(base, Render(segs));
    SplitRender(segs);
    SegmentsRender(segs);
    WalkFrom(Split(Render(segs), '/'), 0, Segments(base), []);
    assert Segments(base) + [] == Segments(base);
  }
}
