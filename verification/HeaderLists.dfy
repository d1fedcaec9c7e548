/**
 Comma-separated header lists: the in-place walkers of compress.go and
 headers.go against specifications that split and trim.
 */
module HeaderLists {
  import opened Wrappers
  import opened Text

  // ---------------------------------------------------------------------------
  // The tokens of a list
  // ---------------------------------------------------------------------------

  function Token(piece: string): string {
    TrimRight(TrimLeft(piece, Blanks), Blanks)
  }

  /** The trimmed pieces; a blank last piece does not count, blank pieces before it do. */
  function Listed(pieces: seq<string>): seq<string> {
    if pieces == [] || (|pieces| == 1 && TrimLeft(pieces[0], Blanks) == "") then []
    else [Token(pieces[0])] + Listed(pieces[1..])
  }

  /** What a walker still sees from position `i` on. */
  function TokensFrom(s: string, i: nat): seq<string>
    requires i <= |s|
    decreases |s| - i
  {
    var k := KeptFrom(s, Blanks, i);
    if k == |s| then []
    else
      var end := IndexFrom(s, ',', k);
      if end < 0 then [TrimRight(s[k..|s|], Blanks)]
      else [TrimRight(s[k..end], Blanks)] + TokensFrom(s, end + 1)
  }

  /** Skipping blanks inside a piece. */
  lemma {:induction false} KeptShift(s: string, cut: Cutset, i: nat, j: nat, end: nat)
    requires i <= j <= end <= |s|
    ensures var k := KeptFrom(s, cut, j);
            KeptFrom(s[i..end], cut, j - i) == (if k <= end then k else end) - i
    decreases end - j
  {
    if j < end {
      assert s[i..end][j - i] == s[j];
      if Drops(cut, s[j]) {
        KeptShift(s, cut, i, j + 1, end);
      }
    }
  }

  /** Blanks are not commas: skipping them does not change where the piece ends. */
  lemma {:induction false} SkipKeepsComma(s: string, i: nat)
    requires i <= |s|
    ensures IndexFrom(s, ',', KeptFrom(s, Blanks, i)) == IndexFrom(s, ',', i)
    ensures IndexFrom(s, ',', i) >= 0 ==> KeptFrom(s, Blanks, i) <= IndexFrom(s, ',', i)
    decreases |s| - i
  {
    if i < |s| && Drops(Blanks, s[i]) {
      SkipKeepsComma(s, i + 1);
    }
  }

  /** One walker token is one trimmed piece. */
  lemma TokenOfPiece(s: string, i: nat, end: nat)
    requires i <= end <= |s|
    ensures var k := KeptFrom(s, Blanks, i);
            TrimLeft(s[i..end], Blanks) == if k <= end then s[k..end] else ""
  {
    KeptShift(s, Blanks, i, i, end);
  }

  lemma ListedCons(piece: string, pieces: seq<string>)
    requires pieces != []
    ensures Listed([piece] + pieces) == [Token(piece)] + Listed(pieces)
  {
    assert ([piece] + pieces)[1..] == pieces;
  }

  lemma ListedOne(piece: string)
    ensures Listed([piece]) == if TrimLeft(piece, Blanks) == "" then [] else [Token(piece)]
  {
    assert [piece][1..] == [];
  }

  lemma TokensComma(s: string, i: nat)
    requires i <= |s| && IndexFrom(s, ',', i) >= 0
    ensures var end := IndexFrom(s, ',', i);
            TokensFrom(s, i) == [Token(s[i..end])] + TokensFrom(s, end + 1)
  {
    SkipKeepsComma(s, i);
    TokenOfPiece(s, i, IndexFrom(s, ',', i));
  }

  lemma TokensLast(s: string, i: nat)
    requires i <= |s| && IndexFrom(s, ',', i) < 0
    ensures TokensFrom(s, i) == if TrimLeft(s[i..|s|], Blanks) == "" then [] else [Token(s[i..|s|])]
  {
    SkipKeepsComma(s, i);
    TokenOfPiece(s, i, |s|);
  }

  /** The walkers see exactly the trimmed pieces of the split list. */
  lemma {:induction false} TokensAreListed(s: string, i: nat)
    requires i <= |s|
    ensures TokensFrom(s, i) == Listed(SplitFrom(s, ',', i))
    decreases |s| - i
  {
    var end := IndexFrom(s, ',', i);
    if end < 0 {
      TokensLast(s, i);
      assert s[i..|s|] == s[i..];
      ListedOne(s[i..|s|]);
    } else {
      TokensComma(s, i);
      TokensAreListed(s, end + 1);
      ListedCons(s[i..end], SplitFrom(s, ',', end + 1));
    }
  }

  function Tokens(header: string): seq<string> {
    Listed(Split(header, ','))
  }

  lemma WalkerTokens(header: string)
    ensures TokensFrom(header, 0) == Tokens(header)
  {
    TokensAreListed(header, 0);
  }

  method SkipBlanks(s: string, from: nat) returns (i: nat)
    requires from <= |s|
    ensures i == KeptFrom(s, Blanks, from)
  {
    i := from;
    while i < |s| && (s[i] == ' ' || s[i] == '\t')
      invariant from <= i <= |s|
      invariant KeptFrom(s, Blanks, i) == KeptFrom(s, Blanks, from)
    {
      i := i + 1;
    }
  }

  /** The part of both walkers that takes the next token off the list. */
  method NextToken(s: string, from: nat) returns (done: bool, token: string, next: nat)
    requires from <= |s|
    ensures done <==> TokensFrom(s, from) == []
    ensures !done ==> from < next <= |s| + 1
    ensures !done ==> TokensFrom(s, from) == [token] + if next > |s| then [] else TokensFrom(s, next)
  {
    var i := SkipBlanks(s, from);
    if i == |s| {
      return true, "", from;
    }
    var end := IndexFrom(s, ',', i);
    if end < 0 {
      token, next := s[i..|s|], |s| + 1;
    } else {
      token, next := s[i..end], end + 1;
    }
    done, token := false, TrimRight(token, Blanks);
  }

  // ---------------------------------------------------------------------------
  // If-None-Match
  // ---------------------------------------------------------------------------

  /** Weak comparison drops one W/ prefix. */
  function Opaque(tag: string): string {
    TrimPrefix(tag, "W/")
  }

  predicate TagIn(tokens: seq<string>, want: string) {
    tokens != [] && (Opaque(tokens[0]) == want || TagIn(tokens[1..], want))
  }

  /** The condition of section 13.1.2 of RFC 9110. */
  predicate TagListed(ifNoneMatch: string, etag: string) {
    TrimSpace(ifNoneMatch) == "*" || TagIn(Tokens(ifNoneMatch), Opaque(etag))
  }

  method ETagMatches(ifNoneMatch: string, etag: string) returns (matches: bool)
    ensures matches <==> TagListed(ifNoneMatch, etag)
  {
    if TrimSpace(ifNoneMatch) == "*" {
      return true;
    }
    matches := WalkTags(ifNoneMatch, TrimPrefix(etag, "W/"));
    WalkerTokens(ifNoneMatch);
  }

  method WalkTags(list: string, want: string) returns (matches: bool)
    ensures matches <==> TagIn(TokensFrom(list, 0), want)
  {
    var at := 0;
    while at <= |list|
      invariant at <= |list| ==> (TagIn(TokensFrom(list, at), want) <==> TagIn(TokensFrom(list, 0), want))
      invariant at > |list| ==> !TagIn(TokensFrom(list, 0), want)
      decreases |list| + 1 - at
    {
      ghost var rest := TokensFrom(list, at);
      var done, token, next := NextToken(list, at);
      if done {
        return false;
      }
      assert rest[0] == token && rest[1..] == if next > |list| then [] else TokensFrom(list, next);
      if TrimPrefix(token, "W/") == want {
        return true;
      }
      at := next;
    }
    return false;
  }

  /** Membership spelled out. */
  lemma {:induction false} TagInMeaning(tokens: seq<string>, want: string)
    ensures TagIn(tokens, want) <==> exists t :: t in tokens && Opaque(t) == want
  {
    if tokens != [] {
      TagInMeaning(tokens[1..], want);
      assert tokens == [tokens[0]] + tokens[1..];
    }
  }

  // ---------------------------------------------------------------------------
  // Accept-Encoding
  // ---------------------------------------------------------------------------

  /** What reading a q-value as a floating-point number gives. */
  datatype Weight = Unparsable | Positive | NotPositive

  /** The name of a coding, without its parameters. */
  function CodingOf(token: string): string {
    var semi := IndexByte(token, ';');
    if semi < 0 then token else TrimRight(token[..semi], Blanks)
  }

  function ParamsOf(token: string): string {
    var semi := IndexByte(token, ';');
    if semi < 0 then "" else token[semi + 1..]
  }

  /** The text of a q parameter; None for any other parameter. */
  function QText(param: string): Option<string> {
    var eq := IndexByte(param, '=');
    if eq < 0 || !EqualFold(TrimSpace(param[..eq]), "q") then None else Some(TrimSpace(param[eq + 1..]))
  }

  /** The first q parameter at or after the `k`th. */
  function FirstQ(params: seq<string>, k: nat): Option<string>
    requires k <= |params|
    decreases |params| - k
  {
    if k == |params| then None else if QText(params[k]).Some? then QText(params[k]) else FirstQ(params, k + 1)
  }

  /** The weight of a coding is its first q parameter; a missing or unparsable one counts as 1. */
  predicate Acceptable(params: string, weigh: string -> Weight) {
    var q := FirstQ(Split(params, ';'), 0);
    q.Some? ==> weigh(q.value) != NotPositive
  }

  /** The verdict of the first token that names the coding. */
  predicate AcceptedIn(tokens: seq<string>, coding: string, weigh: string -> Weight) {
    tokens != []
    && if EqualFold(CodingOf(tokens[0]), coding) then Acceptable(ParamsOf(tokens[0]), weigh)
       else AcceptedIn(tokens[1..], coding, weigh)
  }

  /** Section 12.5.3 of RFC 9110, without the `*` coding. */
  predicate Accepted(header: string, coding: string, weigh: string -> Weight) {
    AcceptedIn(Tokens(header), coding, weigh)
  }

  method AcceptsEncodingStr(header: string, coding: string, weigh: string -> Weight) returns (accepts: bool)
    ensures accepts <==> Accepted(header, coding, weigh)
  {
    WalkerTokens(header);
    if header == "" {
      return false;
    }
    accepts := WalkCodings(header, coding, weigh);
  }

  method WalkCodings(header: string, coding: string, weigh: string -> Weight) returns (accepts: bool)
    ensures accepts <==> AcceptedIn(TokensFrom(header, 0), coding, weigh)
  {
    var at := 0;
    while at <= |header|
      invariant at <= |header| ==>
                  (AcceptedIn(TokensFrom(header, at), coding, weigh)
                   <==> AcceptedIn(TokensFrom(header, 0), coding, weigh))
      invariant at > |header| ==> !AcceptedIn(TokensFrom(header, 0), coding, weigh)
      decreases |header| + 1 - at
    {
      ghost var rest := TokensFrom(header, at);
      var done, token, next := NextToken(header, at);
      if done {
        return false;
      }
      assert rest[0] == token && rest[1..] == if next > |header| then [] else TokensFrom(header, next);
      var name, params := SplitParams(token);
      if EqualFold(name, coding) {
        accepts := QPositive(params, weigh);
        return;
      }
      at := next;
    }
    return false;
  }

  method SplitParams(token: string) returns (name: string, params: string)
    ensures name == CodingOf(token) && params == ParamsOf(token)
  {
    name, params := token, "";
    var semi := IndexByte(token, ';');
    if semi >= 0 {
      params := token[semi + 1..];
      name := TrimRight(token[..semi], Blanks);
    }
  }

  /** What the walker of parameters still finds from position `at` on. */
  function QFrom(s: string, at: nat): Option<string>
    requires at <= |s|
    decreases |s| - at
  {
    if at == |s| then None
    else
      var i := IndexFrom(s, ';', at);
      var q := QText(if i < 0 then s[at..] else s[at..i]);
      if q.Some? then q else QFrom(s, if i < 0 then |s| else i + 1)
  }

  /** qValueOf, compared with zero. */
  method QPositive(params: string, weigh: string -> Weight) returns (positive: bool)
    ensures positive <==> Acceptable(params, weigh)
  {
    QFromIsFirst(params, 0);
    var at := 0;
    while at < |params|
      invariant 0 <= at <= |params|
      invariant QFrom(params, at) == QFrom(params, 0)
      decreases |params| - at
    {
      var i := IndexFrom(params, ';', at);
      var q;
      if i >= 0 {
        q := ReadQ(params[at..i]);
        at := i + 1;
      } else {
        q := ReadQ(params[at..]);
        at := |params|;
      }
      if q.None? {
        continue;
      }
      return weigh(q.value) != NotPositive;
    }
    return true;
  }

  method ReadQ(p: string) returns (q: Option<string>)
    ensures q == QText(p)
  {
    var eq := IndexByte(p, '=');
    if eq < 0 || !EqualFold(TrimSpace(p[..eq]), "q") {
      return None;
    }
    return Some(TrimSpace(p[eq + 1..]));
  }

  lemma {:induction false} FirstQShift(p: string, ps: seq<string>, k: nat)
    requires k <= |ps|
    ensures FirstQ([p] + ps, k + 1) == FirstQ(ps, k)
    decreases |ps| - k
  {
    if k < |ps| {
      assert ([p] + ps)[k + 1] == ps[k];
      FirstQShift(p, ps, k + 1);
    }
  }

  lemma FirstQCons(p: string, ps: seq<string>)
    ensures FirstQ([p] + ps, 0) == if QText(p).Some? then QText(p) else FirstQ(ps, 0)
  {
    FirstQShift(p, ps, 0);
  }

  lemma FirstQOne(p: string)
    ensures FirstQ([p], 0) == QText(p)
  {
    assert FirstQ([p], 1) == None;
  }

  lemma EmptyParams(s: string)
    ensures FirstQ(SplitFrom(s, ';', |s|), 0) == None
  {
    assert s[|s|..] == "";
    FirstQOne("");
  }

  lemma LastParam(s: string, at: nat)
    requires at < |s| && IndexFrom(s, ';', at) < 0
    ensures FirstQ(SplitFrom(s, ';', at), 0) == QText(s[at..])
  {
    FirstQOne(s[at..]);
  }

  lemma MoreParams(s: string, at: nat)
    requires at < |s| && IndexFrom(s, ';', at) >= 0
    ensures var i := IndexFrom(s, ';', at);
            FirstQ(SplitFrom(s, ';', at), 0)
            == if QText(s[at..i]).Some? then QText(s[at..i]) else FirstQ(SplitFrom(s, ';', i + 1), 0)
  {
    var i := IndexFrom(s, ';', at);
    FirstQCons(s[at..i], SplitFrom(s, ';', i + 1));
  }

  /** Walking the parameters finds the first q parameter of the split list. */
  lemma {:induction false} QFromIsFirst(s: string, at: nat)
    requires at <= |s|
    ensures QFrom(s, at) == FirstQ(SplitFrom(s, ';', at), 0)
    decreases |s| - at
  {
    EmptyParams(s);
    if at < |s| {
      if IndexFrom(s, ';', at) < 0 {
        LastParam(s, at);
      } else {
        MoreParams(s, at);
        QFromIsFirst(s, IndexFrom(s, ';', at) + 1);
      }
    }
  }
}
