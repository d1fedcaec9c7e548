/**
 File systems without symbolic links: each of them meets what the model asks of
 a file system.
 */
module Linkless {
  import opened Text
  import opened Paths
  import opened PathSafety
  import opened Streaming
  import opened FileHandling
  import opened Transparency

  /** Files and directories by their segments, and the working directory. */
  datatype Tree = Tree(nodes: map<seq<string>, Stat>, cwd: seq<string>) {
    /** Everything but the root lies in a directory. */
    ghost predicate Valid() {
      && cwd in nodes
      && (forall segs | segs in nodes :: AllPlain(segs) && '\0' !in Render(segs) && OnDisk(nodes[segs]))
      && (forall segs | segs in nodes && segs != [] :: HasParent(segs))
    }

    predicate HasParent(segs: seq<string>)
      requires segs != []
    {
      var up := segs[..|segs| - 1];
      up in nodes && nodes[up].Directory?
    }

    function Eval(p: string): Resolution {
      if Segments(FromDir(Render(cwd), p)) in nodes then Resolved(CleanAny(p)) else NotExist
    }

    function At(p: string): Stat {
      if Segments(p) in nodes then nodes[Segments(p)] else Missing
    }

    function Links(): Links {
      PathSafety.Links(p => Eval(p), Render(cwd))
    }

    lemma CleanPlace(p: string)
      requires IsClean(p)
      ensures FromDir(Render(cwd), p) == p && CleanAny(p) == p
    {
      assert Clean(p)[0] == '/';
    }

    lemma EvalSettled(p: string)
      requires IsAbs(p)
      ensures Links().Settled(Links().Eval(p))
    {
      CleanIdempotent(p);
      CleanPlace(Clean(p));
    }

    lemma EvalCorresponds(p: string)
      requires Valid() && !IsAbs(p) && CleanAny(p) == p
      ensures Links().Corresponds(Links().Eval(p), Links().Eval(Links().Absolute(p)))
    {
      CwdIsClean();
      FromDirClean(Render(cwd), p);
      CleanPlace(FromDir(Render(cwd), p));
    }

    lemma CwdIsClean()
      requires Valid()
      ensures IsClean(Render(cwd)) && Segments(Render(cwd)) == cwd
    {
      SegmentsRender(cwd);
    }

    lemma LinksAreValid()
      requires Valid()
      ensures Links().Valid()
    {
      var links := Links();
      CwdIsClean();
      CleanPlace(Render(cwd));
      forall p | IsAbs(p) ensures links.Settled(links.Eval(p)) {
        EvalSettled(p);
      }
      forall p | !IsAbs(p) && CleanAny(p) == p
        ensures links.Corresponds(links.Eval(p), links.Eval(links.Absolute(p)))
      {
        EvalCorresponds(p);
      }
    }

    /** Without links, cleaning the text of a root never changes what it names. */
    lemma RootIsPlain(root: string)
      requires Valid() && root != ""
      ensures PlainlyNamed(Links(), root)
    {
      CwdIsClean();
      FromDirClean(Render(cwd), root);
      CleanAnyIdempotent(root);
    }
  }

  /** The environment lives on the tree. */
  ghost predicate On(env: Env, t: Tree) {
    && env.site.links == t.Links() && env.site.root != "" && Plain(env.Index()) && env.codecs.Lossless()
    && (forall p :: env.StatAt(p) == t.At(p))
  }

  lemma EnclosedOn(env: Env, t: Tree, segs: seq<string>, name: string)
    requires t.Valid() && On(env, t) && AllPlain(segs + [name])
    requires env.site.links.Eval(Render(segs + [name])).Resolved?
    ensures env.Enclosed(Render(segs), Render(segs + [name]))
  {
    assert (segs + [name])[..|segs|] == segs;
    SegmentsRender(segs + [name]);
    t.CleanPlace(Render(segs + [name]));
    assert t.HasParent(segs + [name]);
    SegmentsRender(segs);
    t.CleanPlace(Render(segs));
  }

  lemma NoNullOn(env: Env, t: Tree, p: string)
    requires t.Valid() && On(env, t) && IsClean(p) && env.site.links.Eval(p).Resolved?
    ensures '\0' !in env.site.links.Eval(p).path
  {
    t.CleanPlace(p);
    assert p == Render(Segments(p));
  }

  lemma DirectoriesOn(env: Env, t: Tree)
    requires t.Valid() && On(env, t)
    ensures env.FilesInDirectories()
  {
    forall p | IsClean(p) && (env.StatAt(p).Regular? || env.StatAt(p).Directory?)
      ensures env.site.links.Eval(p).Resolved?
    {
      t.CleanPlace(p);
    }
    forall segs: seq<string>, name: string {:trigger Render(segs + [name])}
      | AllPlain(segs + [name]) && env.site.links.Eval(Render(segs + [name])).Resolved?
      ensures env.Enclosed(Render(segs), Render(segs + [name]))
    {
      EnclosedOn(env, t, segs, name);
    }
    forall p | IsClean(p) && env.site.links.Eval(p).Resolved? ensures '\0' !in env.site.links.Eval(p).path {
      NoNullOn(env, t, p);
    }
  }

  /** Every tree whose files are not too large and have honest sidecars, if any are used, is a valid environment. */
  lemma TreeIsValid(env: Env, t: Tree)
    requires t.Valid() && On(env, t)
    requires forall segs | segs in t.nodes && t.nodes[segs].Regular? :: FileFits(env, Render(segs), t.nodes[segs].file)
    ensures env.Valid()
  {
    t.LinksAreValid();
    t.RootIsPlain(env.site.root);
    DirectoriesOn(env, t);
    forall p | IsClean(p) && env.StatAt(p).Regular? ensures FileFits(env, p, env.StatAt(p).file) {
      assert Segments(p) in t.nodes && p == Render(Segments(p));
    }
  }

  predicate FileFits(env: Env, p: string, file: DiskFile) {
    |file.data| <= MAX_INT64 && (UsesSidecars(env, file) ==> HonestAt(env, p, file))
  }
}
