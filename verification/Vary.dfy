/** AddVary (internal/headers/headers.go): merging a token into the Vary header. */
module Vary {
  import opened Wrappers
  import opened Text

  predicate HasFold(ts: seq<string>, t: string, k: nat)
    requires k <= |ts|
    decreases |ts| - k
  {
    k < |ts| && (EqualFold(ts[k], t) || HasFold(ts, t, k + 1))
  }

  /** The tokens after the pieces from `k` on; None once a piece is `*`. */
  function Gather(tokens: seq<string>, pieces: seq<string>, k: nat): Option<seq<string>>
    requires k <= |pieces|
    decreases |pieces| - k
  {
    if k == |pieces| then Some(tokens)
    else
      var t := TrimSpace(pieces[k]);
      if t == "" then Gather(tokens, pieces, k + 1)
      else if t == "*" then None
      else Gather(Include(tokens, t), pieces, k + 1)
  }

  function Include(tokens: seq<string>, t: string): seq<string> {
    if HasFold(tokens, t, 0) then tokens else tokens + [t]
  }

  function GatherLines(tokens: seq<string>, lines: seq<string>, i: nat): Option<seq<string>>
    requires i <= |lines|
    decreases |lines| - i
  {
    if i == |lines| then Some(tokens)
    else
      var after := Gather(tokens, Split(lines[i], ','), 0);
      if after.None? then None else GatherLines(after.value, lines, i + 1)
  }

  /** The header lines after merging `token` into `lines`. */
  function Merged(lines: seq<string>, token: string): seq<string> {
    if lines == [] then [token]
    else
      var tokens := GatherLines([], lines, 0);
      if tokens.None? then lines else [Join(Include(tokens.value, token), ", ")]
  }

  lemma {:induction false} HasFoldAppend(ts: seq<string>, t: string, x: string, k: nat)
    requires k <= |ts|
    ensures HasFold(ts + [t], x, k) <==> HasFold(ts, x, k) || EqualFold(t, x)
    decreases |ts| - k
  {
    if k < |ts| {
      HasFoldAppend(ts, t, x, k + 1);
    } else {
      assert HasFold(ts + [t], x, |ts| + 1) == false;
    }
  }

  lemma {:induction false} HasFoldSame(ts: seq<string>, x: string, y: string, k: nat)
    requires k <= |ts| && EqualFold(x, y)
    ensures HasFold(ts, x, k) <==> HasFold(ts, y, k)
    decreases |ts| - k
  {
    if k < |ts| {
      HasFoldSame(ts, x, y, k + 1);
    }
  }

  class ResponseHeader {
    var vary: seq<string>

    /** Keeps one line without case-insensitive duplicates, unless `*` is listed. */
    method AddVary(token: string)
      modifies this
      ensures vary == Merged(old(vary), token)
    {
      var existing := vary;
      if |existing| == 0 {
        vary := [token];
        return;
      }
      var tokens: seq<string> := [];
      var found := false;
      for i := 0 to |existing|
        invariant vary == old(vary)
        invariant GatherLines(tokens, existing, i) == GatherLines([], existing, 0)
        invariant found <==> HasFold(tokens, token, 0)
      {
        var star;
        star, tokens, found := Scan(Split(existing[i], ','), token, tokens, found);
        if star {
          return;
        }
      }
      if !found {
        tokens := tokens + [token];
      }
      vary := [Join(tokens, ", ")];
    }
  }

  /** The inner loop: the pieces of one header line. */
  method Scan(pieces: seq<string>, token: string, tokens0: seq<string>, found0: bool)
    returns (star: bool, tokens: seq<string>, found: bool)
    requires found0 <==> HasFold(tokens0, token, 0)
    ensures Gather(tokens0, pieces, 0) == if star then None else Some(tokens)
    ensures !star ==> (found <==> HasFold(tokens, token, 0))
  {
    star, tokens, found := false, tokens0, found0;
    for k := 0 to |pieces|
      invariant Gather(tokens, pieces, k) == Gather(tokens0, pieces, 0)
      invariant found <==> HasFold(tokens, token, 0)
    {
      var t := TrimSpace(pieces[k]);
      if t == "" {
        continue;
      }
      if t == "*" {
        return true, tokens, found;
      }
      HasFoldAppend(tokens, t, token, 0);
      if EqualFold(t, token) {
        HasFoldSame(tokens, t, token, 0);
        if found {
          continue;
        }
        found := true;
      }
      var dup := Contains(tokens, t);
      if !dup {
        tokens := tokens + [t];
      }
    }
  }

  method Contains(tokens: seq<string>, t: string) returns (dup: bool)
    ensures dup <==> HasFold(tokens, t, 0)
  {
    for j := 0 to |tokens|
      invariant HasFold(tokens, t, j) <==> HasFold(tokens, t, 0)
    {
      if EqualFold(tokens[j], t) {
        return true;
      }
    }
    return false;
  }

  // ---------------------------------------------------------------------------
  // AddVary computes a set
  // ---------------------------------------------------------------------------

  /** A token a caller may add: not empty, without a comma or surrounding space. */
  predicate Proper(t: string) {
    t != "" && Free(t, ',') && TrimSpace(t) == t
  }

  predicate AllProper(ts: seq<string>) {
    forall k | 0 <= k < |ts| :: Proper(ts[k])
  }

  lemma TrimSpaced(t: string)
    requires Proper(t)
    ensures TrimSpace(" " + t) == t
  {
    assert KeptFrom(t, Spaces, 0) == 0 && KeptUpTo(t, Spaces, |t|) == |t|;
    var s := " " + t;
    assert s[1] == t[0] && s[|s| - 1] == t[|t| - 1];
    assert KeptFrom(s, Spaces, 0) == KeptFrom(s, Spaces, 1) == 1;
    assert KeptUpTo(s, Spaces, |s|) == |s|;
    assert s[1..|s|] == t;
  }

  /** The pieces are the tokens, with one space in front of all but the first. */
  predicate Spaced(ps: seq<string>, ts: seq<string>) {
    |ps| == |ts| && forall k | 0 <= k < |ts| :: ps[k] == if k == 0 then ts[k] else " " + ts[k]
  }

  lemma SpacedCons(t: string, ps: seq<string>, ts: seq<string>)
    requires ts != [] && Spaced(ps, ts)
    ensures Spaced([t] + ([" " + ps[0]] + ps[1..]), [t] + ts)
  {
  }

  /** A comma-free prefix goes to the first piece. */
  lemma SplitPrefixed(x: string, s: string, sep: char)
    requires Free(x, sep)
    ensures Split(x + s, sep) == [x + Split(s, sep)[0]] + Split(s, sep)[1..]
  {
    SkipFree(x, s, sep, 0);
    var k := IndexFrom(s, sep, 0);
    if k < 0 {
      SplitPrefixedWhole(x, s, sep);
    } else {
      SplitPrefixedCut(x, s, sep);
    }
  }

  lemma {:induction false} SkipFree(x: string, s: string, sep: char, i: nat)
    requires Free(x, sep) && i <= |x|
    ensures IndexFrom(x + s, sep, i) == if IndexFrom(s, sep, 0) < 0 then -1 else |x| + IndexFrom(s, sep, 0)
    decreases |x| - i
  {
    if i == |x| {
      IndexShift(x, s, sep, 0);
    } else {
      assert (x + s)[i] == x[i];
      SkipFree(x, s, sep, i + 1);
    }
  }

  lemma SplitPrefixedWhole(x: string, s: string, sep: char)
    requires IndexFrom(s, sep, 0) < 0 && IndexFrom(x + s, sep, 0) < 0
    ensures Split(x + s, sep) == [x + Split(s, sep)[0]] + Split(s, sep)[1..]
  {
    assert s[0..] == s && (x + s)[0..] == x + s;
  }

  lemma SplitPrefixedCut(x: string, s: string, sep: char)
    requires 0 <= IndexFrom(s, sep, 0) && IndexFrom(x + s, sep, 0) == |x| + IndexFrom(s, sep, 0)
    ensures Split(x + s, sep) == [x + Split(s, sep)[0]] + Split(s, sep)[1..]
  {
    var k := IndexFrom(s, sep, 0);
    SplitShift(x, s, sep, k + 1);
    assert (x + s)[0..|x| + k] == x + s[0..k];
  }

  lemma {:induction false} SplitVary(ts: seq<string>)
    requires ts != [] && AllProper(ts)
    ensures Spaced(Split(Join(ts, ", "), ','), ts)
    decreases |ts|
  {
    if |ts| == 1 {
      SplitNone(ts[0], ',');
    } else {
      var rest := ts[1..];
      SplitVary(rest);
      SplitVaryCons(ts[0], rest);
      assert ts == [ts[0]] + rest;
    }
  }

  lemma SplitVaryCons(t: string, rest: seq<string>)
    requires Proper(t) && rest != [] && AllProper(rest) && Spaced(Split(Join(rest, ", "), ','), rest)
    ensures Spaced(Split(t + ", " + Join(rest, ", "), ','), [t] + rest)
  {
    var tail := Join(rest, ", ");
    assert t + ", " + tail == t + [','] + (" " + tail);
    SplitFirst(t, " " + tail, ',');
    SplitPrefixed(" ", tail, ',');
    SpacedCons(t, Split(tail, ','), rest);
  }

  /** Lists without two tokens that fold alike. */
  predicate FoldDistinct(ts: seq<string>) {
    ts == [] || (FoldDistinct(ts[..|ts| - 1]) && !HasFold(ts[..|ts| - 1], ts[|ts| - 1], 0))
  }

  lemma GatherNew(tokens: seq<string>, ps: seq<string>, k: nat, t: string)
    requires k < |ps| && TrimSpace(ps[k]) == t && t != "" && t != "*" && !HasFold(tokens, t, 0)
    ensures Gather(tokens, ps, k) == Gather(tokens + [t], ps, k + 1)
  {
  }

  /** `acc` is the first `k` tokens. */
  predicate First(acc: seq<string>, ts: seq<string>, k: nat) {
    k <= |ts| && |acc| == k && forall j | 0 <= j < k :: acc[j] == ts[j]
  }

  lemma FirstIsNew(acc: seq<string>, ts: seq<string>, k: nat)
    requires First(acc, ts, k) && k < |ts| && FoldDistinct(ts)
    ensures !HasFold(acc, ts[k], 0) && First(acc + [ts[k]], ts, k + 1)
  {
    FoldDistinctAt(ts, k);
    assert acc == ts[..k];
  }

  /** Reading back a printed list gives the list. */
  lemma {:induction false} GatherSpaced(ps: seq<string>, ts: seq<string>, k: nat, acc: seq<string>)
    requires First(acc, ts, k) && Spaced(ps, ts) && AllProper(ts) && "*" !in ts && FoldDistinct(ts)
    ensures Gather(acc, ps, k) == Some(ts)
    decreases |ts| - k
  {
    if k == |ts| {
      assert acc == ts;
    } else {
      TrimSpaced(ts[k]);
      FirstIsNew(acc, ts, k);
      GatherNew(acc, ps, k, ts[k]);
      GatherSpaced(ps, ts, k + 1, acc + [ts[k]]);
    }
  }

  lemma {:induction false} FoldDistinctAt(ts: seq<string>, k: nat)
    requires FoldDistinct(ts) && k < |ts|
    ensures !HasFold(ts[..k], ts[k], 0)
  {
    var n := |ts| - 1;
    if k < n {
      FoldDistinctAt(ts[..n], k);
      assert ts[..n][..k] == ts[..k];
    }
  }

  lemma {:induction false} GatherStar(tokens: seq<string>, ps: seq<string>, ts: seq<string>, k: nat)
    requires k <= |ts| && Spaced(ps, ts) && AllProper(ts) && exists j :: k <= j < |ts| && ts[j] == "*"
    ensures Gather(tokens, ps, k) == None
    decreases |ts| - k
  {
    TrimSpaced(ts[k]);
    assert TrimSpace(ps[k]) == ts[k];
    if ts[k] != "*" {
      GatherStar(Include(tokens, ts[k]), ps, ts, k + 1);
    }
  }

  /** The one header line that lists `ts`. */
  function Line(ts: seq<string>): seq<string> {
    [Join(ts, ", ")]
  }

  /** Merging into a list: `*` absorbs, a listed token changes nothing, a new one goes last. */
  function Extend(ts: seq<string>, t: string): seq<string> {
    if "*" in ts then ts else Include(ts, t)
  }

  lemma MergedLine(ts: seq<string>, t: string)
    requires ts != [] && AllProper(ts) && FoldDistinct(ts)
    ensures Merged(Line(ts), t) == Line(Extend(ts, t))
  {
    var lines, ps := Line(ts), Split(Join(ts, ", "), ',');
    SplitVary(ts);
    if "*" in ts {
      GatherStar([], ps, ts, 0);
    } else {
      GatherSpaced(ps, ts, 0, []);
      assert GatherLines(ts, lines, 1) == Some(ts);
    }
  }

  /** The header after adding the tokens one by one, starting without a Vary header. */
  function Added(tokens: seq<string>): seq<string> {
    if tokens == [] then [] else Merged(Added(tokens[..|tokens| - 1]), tokens[|tokens| - 1])
  }

  /** The tokens listed after adding `tokens` one by one. */
  function Seen(tokens: seq<string>): seq<string> {
    if tokens == [] then [] else Extend(Seen(tokens[..|tokens| - 1]), tokens[|tokens| - 1])
  }

  lemma FoldDistinctExtend(ts: seq<string>, t: string)
    requires FoldDistinct(ts)
    ensures FoldDistinct(Extend(ts, t))
  {
    assert (ts + [t])[..|ts|] == ts;
  }

  /**
   After any calls with proper tokens there is one line, without two tokens that
   fold alike, and it lists exactly what was added before a `*`.
   */
  lemma {:induction false} AddedIsSeen(tokens: seq<string>)
    requires AllProper(tokens)
    ensures Added(tokens) == if tokens == [] then [] else Line(Seen(tokens))
    ensures FoldDistinct(Seen(tokens)) && AllProper(Seen(tokens)) && (tokens != [] ==> Seen(tokens) != [])
  {
    if tokens != [] {
      var before, t := tokens[..|tokens| - 1], tokens[|tokens| - 1];
      AddedIsSeen(before);
      FoldDistinctExtend(Seen(before), t);
      if before == [] {
        assert Join([t], ", ") == t;
        assert [] + [t] == [t];
      } else {
        MergedLine(Seen(before), t);
      }
    }
  }

  /** As a set, up to folding, the listed tokens are the added ones: no order matters without `*`. */
  lemma {:induction false} SeenIsAdded(tokens: seq<string>, x: string)
    requires "*" !in tokens
    ensures "*" !in Seen(tokens)
    ensures HasFold(Seen(tokens), x, 0) <==> HasFold(tokens, x, 0)
  {
    if tokens != [] {
      var before, t := tokens[..|tokens| - 1], tokens[|tokens| - 1];
      SeenIsAdded(before, x);
      SeenIsAdded(before, t);
      HasFoldAppend(before, t, x, 0);
      HasFoldAppend(Seen(before), t, x, 0);
      assert before + [t] == tokens;
      if EqualFold(t, x) {
        HasFoldSame(Seen(before), t, x, 0);
      }
    }
  }

  /** First-seen order: whatever is added later, what is listed stays listed, in place. */
  lemma {:induction false} SeenGrows(tokens: seq<string>, more: seq<string>)
    ensures Seen(tokens) <= Seen(tokens + more)
    decreases |more|
  {
    if more == [] {
      assert tokens + more == tokens;
    } else {
      var front := more[..|more| - 1];
      SeenGrows(tokens, front);
      assert (tokens + more)[..|tokens + more| - 1] == tokens + front;
    }
  }

  /** Adding a token twice, or adding anything after `*`, changes nothing. */
  lemma AddedIdempotent(tokens: seq<string>, t: string)
    requires AllProper(tokens) && Proper(t) && ((HasFold(tokens, t, 0) && "*" !in tokens) || "*" in Seen(tokens))
    ensures Added(tokens + [t]) == Added(tokens)
  {
    AddedIsSeen(tokens);
    AddedIsSeen(tokens + [t]);
    assert (tokens + [t])[..|tokens|] == tokens;
    if "*" !in tokens {
      SeenIsAdded(tokens, t);
    }
  }

  /** `*` is absorbing: once added it is listed for good. */
  lemma {:induction false} StarStays(tokens: seq<string>, k: nat)
    requires AllProper(tokens) && k < |tokens| && tokens[k] == "*"
    ensures "*" in Seen(tokens)
  {
    var before := tokens[..|tokens| - 1];
    if k < |before| {
      StarStays(before, k);
    } else if "*" !in Seen(before) {
      FoldsToStar(Seen(before), 0);
    }
  }

  lemma {:induction false} FoldsToStar(ts: seq<string>, k: nat)
    requires k <= |ts| && "*" !in ts
    ensures !HasFold(ts, "*", k)
    decreases |ts| - k
  {
    if k < |ts| {
      OnlyStarFolds(ts[k]);
      FoldsToStar(ts, k + 1);
    }
  }

  lemma OnlyStarFolds(t: string)
    ensures EqualFold(t, "*") <==> t == "*"
  {
    if EqualFold(t, "*") {
      assert |t| == |Folded(t)| == |Folded("*")| == 1;
      assert Fold(t[0]) == Folded(t)[0] == Folded("*")[0] == '*';
      assert t == "*";
    }
  }
}
