/**
 Accept-Encoding and If-None-Match as clients write them (sections 12.5.3 and
 13.1.2 of RFC 9110), and what the walkers make of them.
 */
module ClientLists {
  import opened Wrappers
  import opened Text
  import opened HeaderLists

  // ---------------------------------------------------------------------------
  // Lists
  // ---------------------------------------------------------------------------

  /** A list element: not empty, no comma, and no blank at either end. */
  predicate IsElement(t: string) {
    t != "" && Free(t, ',') && t[0] != ' ' && t[0] != '\t' && t[|t| - 1] != ' ' && t[|t| - 1] != '\t'
  }

  predicate AllElements(ts: seq<string>) {
    forall k | 0 <= k < |ts| :: IsElement(ts[k])
  }

  lemma ElementTrim(t: string)
    requires IsElement(t)
    ensures Token(t) == t && TrimLeft(t, Blanks) == t
    ensures Token(" " + t) == t && TrimLeft(" " + t, Blanks) == t
  {
    assert t[0..] == t && t[..|t|] == t && (" " + t)[1..] == t;
    assert KeptFrom(" " + t, Blanks, 0) == KeptFrom(" " + t, Blanks, 1) == 1;
  }

  /** A list with one space after each comma, from `lead` on, is taken apart into its elements. */
  lemma {:induction false} RestIsRead(ts: seq<string>, lead: string)
    requires ts != [] && AllElements(ts) && (lead == "" || lead == " ")
    ensures Listed(Split(lead + Join(ts, ", "), ',')) == ts
    decreases |ts|
  {
    var first := lead + ts[0];
    ElementTrim(ts[0]);
    assert "" + ts[0] == ts[0];
    if |ts| == 1 {
      SplitNone(first, ',');
      ListedOne(first);
    } else {
      var rest := " " + Join(ts[1..], ", ");
      assert lead + Join(ts, ", ") == first + [','] + rest;
      SplitFirst(first, rest, ',');
      ListedCons(first, Split(rest, ','));
      RestIsRead(ts[1..], " ");
    }
  }

  /** Every list a client writes is read as its elements, in order. */
  lemma ListIsRead(ts: seq<string>)
    requires AllElements(ts)
    ensures Tokens(Join(ts, ", ")) == ts
  {
    if ts == [] {
      SplitNone("", ',');
      ListedOne("");
    } else {
      assert "" + Join(ts, ", ") == Join(ts, ", ");
      RestIsRead(ts, "");
    }
  }

  // ---------------------------------------------------------------------------
  // Accept-Encoding
  // ---------------------------------------------------------------------------

  /** A parameter, after any number of spaces. */
  datatype Param = Param(spaces: string, name: string, value: string)

  /** A coding with its parameters, of which the weight may be one. */
  datatype Offer = Offer(name: string, params: seq<Param>)

  /** Printable ASCII without space, comma, semicolon and equals sign. */
  predicate IsWord(s: string) {
    s != "" && forall k | 0 <= k < |s| :: '!' <= s[k] <= '~' && s[k] != ',' && s[k] != ';' && s[k] != '='
  }

  predicate IsParam(p: Param) {
    IsWord(p.name) && IsWord(p.value) && forall k | 0 <= k < |p.spaces| :: p.spaces[k] == ' '
  }

  predicate IsOffer(o: Offer) {
    IsWord(o.name) && forall k | 0 <= k < |o.params| :: IsParam(o.params[k])
  }

  predicate AllOffers(offers: seq<Offer>) {
    forall k | 0 <= k < |offers| :: IsOffer(offers[k])
  }

  function ParamText(p: Param): string {
    p.spaces + p.name + "=" + p.value
  }

  function ParamTexts(params: seq<Param>): (texts: seq<string>)
    ensures |texts| == |params|
  {
    seq(|params|, i requires 0 <= i < |params| => ParamText(params[i]))
  }

  function OfferText(o: Offer): string {
    if o.params == [] then o.name else o.name + ";" + Join(ParamTexts(o.params), ";")
  }

  function OfferTexts(offers: seq<Offer>): (texts: seq<string>)
    ensures |texts| == |offers|
  {
    seq(|offers|, i requires 0 <= i < |offers| => OfferText(offers[i]))
  }

  /** One letter in either case, or the same character. */
  predicate SameLetter(c: char, d: char) {
    || c == d
    || ('a' <= c <= 'z' && d as int == c as int - 32)
    || ('a' <= d <= 'z' && c as int == d as int - 32)
  }

  predicate SameName(a: string, b: string) {
    |a| == |b| && forall k | 0 <= k < |a| :: SameLetter(a[k], b[k])
  }

  /** The weight is the first parameter named q; none is as good as 1. */
  predicate Welcome(params: seq<Param>, weigh: string -> Weight) {
    forall k | 0 <= k < |params| && SameName(params[k].name, "q") ::
      (exists j | 0 <= j < k :: SameName(params[j].name, "q")) || weigh(params[k].value) != NotPositive
  }

  /** The first offer of the coding decides. */
  predicate Takes(offers: seq<Offer>, coding: string, weigh: string -> Weight) {
    exists k | 0 <= k < |offers| ::
      && SameName(offers[k].name, coding) && (forall j | 0 <= j < k :: !SameName(offers[j].name, coding))
      && Welcome(offers[k].params, weigh)
  }

  /** Letters that fold alike: besides the cases of a letter, the long s and the Kelvin sign. */
  predicate FoldsAlike(c: char, d: char) {
    || SameLetter(c, d)
    || (c in "sS" && d as int == 0x17F) || (d in "sS" && c as int == 0x17F)
    || (c in "kK" && d as int == 0x212A) || (d in "kK" && c as int == 0x212A)
  }

  lemma FoldIff(c: char, d: char)
    ensures Fold(c) == Fold(d) <==> FoldsAlike(c, d)
  {
  }

  /** Texts are equal up to folding exactly when they are, character by character. */
  lemma EqualFoldIff(a: string, b: string)
    ensures EqualFold(a, b) <==> |a| == |b| && forall k | 0 <= k < |a| :: FoldsAlike(a[k], b[k])
  {
    hide Fold, FoldsAlike;
    forall k | 0 <= k < |a| && k < |b| ensures Folded(a)[k] == Folded(b)[k] <==> FoldsAlike(a[k], b[k]) {
      FoldIff(a[k], b[k]);
    }
  }

  lemma SameNameIff(a: string, b: string)
    requires IsWord(a) && IsWord(b)
    ensures EqualFold(a, b) <==> SameName(a, b)
  {
    EqualFoldIff(a, b);
  }

  lemma WordTrim(s: string)
    requires IsWord(s)
    ensures TrimSpace(s) == s && TrimRight(s, Blanks) == s
  {
    assert KeptFrom(s, Spaces, 0) == 0 && KeptUpTo(s, Spaces, |s|) == |s|;
    assert s[0..|s|] == s && s[..|s|] == s;
  }

  lemma {:induction false} JoinedParams(params: seq<Param>)
    requires params != [] && forall k | 0 <= k < |params| :: IsParam(params[k])
    ensures var t := Join(ParamTexts(params), ";");
            t != "" && Free(t, ',') && t[|t| - 1] != ' ' && t[|t| - 1] != '\t'
    decreases |params|
  {
    if |params| > 1 {
      JoinedParams(params[1..]);
      assert ParamTexts(params)[1..] == ParamTexts(params[1..]);
    }
  }

  lemma OfferIsElement(o: Offer)
    requires IsOffer(o)
    ensures IsElement(OfferText(o))
  {
    hide ParamTexts;
    if o.params != [] {
      JoinedParams(o.params);
    }
  }

  lemma ParamIsRead(p: Param)
    requires IsParam(p)
    ensures Free(ParamText(p), ';') && QText(ParamText(p)) == if SameName(p.name, "q") then Some(p.value) else None
  {
    var t, at := ParamText(p), |p.spaces| + |p.name|;
    IndexFromAt(t, '=', 0, at);
    SpacesTrim(p.spaces, p.name);
    WordTrim(p.value);
    SameNameIff(p.name, "q");
    assert t[..at] == p.spaces + p.name && t[at + 1..] == p.value;
  }

  lemma {:induction false} SpacesTrim(spaces: string, s: string)
    requires IsWord(s) && forall k | 0 <= k < |spaces| :: spaces[k] == ' '
    ensures TrimSpace(spaces + s) == s
  {
    var t := spaces + s;
    SpacesDropped(spaces, s, 0);
    assert KeptUpTo(t, Spaces, |t|) == |t|;
    assert t[|spaces|..|t|] == s;
  }

  lemma {:induction false} SpacesDropped(spaces: string, s: string, k: nat)
    requires IsWord(s) && k <= |spaces| && forall k | 0 <= k < |spaces| :: spaces[k] == ' '
    ensures KeptFrom(spaces + s, Spaces, k) == |spaces|
    decreases |spaces| - k
  {
    if k < |spaces| {
      SpacesDropped(spaces, s, k + 1);
    }
  }

  lemma {:induction false} FirstIsRead(params: seq<Param>, k: nat, weigh: string -> Weight)
    requires k <= |params| && forall j | 0 <= j < |params| :: IsParam(params[j])
    requires forall j | 0 <= j < k :: !SameName(params[j].name, "q")
    ensures var q := FirstQ(ParamTexts(params), k);
            (q.Some? ==> weigh(q.value) != NotPositive) <==> Welcome(params, weigh)
    decreases |params| - k
  {
    hide SameName;
    if k < |params| {
      ParamIsRead(params[k]);
      if !SameName(params[k].name, "q") {
        FirstIsRead(params, k + 1, weigh);
      }
    }
  }

  lemma ParamsAreRead(o: Offer, weigh: string -> Weight)
    requires IsOffer(o)
    ensures CodingOf(OfferText(o)) == o.name
    ensures Acceptable(ParamsOf(OfferText(o)), weigh) <==> Welcome(o.params, weigh)
  {
    var t := OfferText(o);
    if o.params == [] {
      IndexFromMeaning(o.name, ';', 0);
      SplitNone("", ';');
      FirstQOne("");
    } else {
      var texts := ParamTexts(o.params);
      IndexFromAt(t, ';', 0, |o.name|);
      WordTrim(o.name);
      assert t[..|o.name|] == o.name && t[|o.name| + 1..] == Join(texts, ";");
      forall k | 0 <= k < |texts| ensures Free(texts[k], ';') {
        ParamIsRead(o.params[k]);
      }
      SplitJoin(texts, ';');
      FirstIsRead(o.params, 0, weigh);
    }
  }

  lemma OfferVerdict(o: Offer, coding: string, weigh: string -> Weight)
    requires IsOffer(o) && IsWord(coding)
    ensures EqualFold(CodingOf(OfferText(o)), coding) <==> SameName(o.name, coding)
    ensures Acceptable(ParamsOf(OfferText(o)), weigh) <==> Welcome(o.params, weigh)
  {
    SameNameIff(o.name, coding);
    ParamsAreRead(o, weigh);
  }

  lemma {:induction false} OffersAreWeighed(offers: seq<Offer>, coding: string, weigh: string -> Weight)
    requires AllOffers(offers) && IsWord(coding)
    ensures AcceptedIn(OfferTexts(offers), coding, weigh) <==> Takes(offers, coding, weigh)
    decreases |offers|
  {
    hide Acceptable, CodingOf, ParamsOf, OfferText, EqualFold, SameName, Welcome;
    if offers != [] {
      var rest := offers[1..];
      OfferVerdict(offers[0], coding, weigh);
      OffersAreWeighed(rest, coding, weigh);
      assert OfferTexts(offers)[1..] == OfferTexts(rest);
      TakesFirst(offers, coding, weigh);
    }
  }

  lemma TakesFirst(offers: seq<Offer>, coding: string, weigh: string -> Weight)
    requires offers != []
    ensures Takes(offers, coding, weigh)
            <==> if SameName(offers[0].name, coding) then
                   Welcome(offers[0].params, weigh)
                 else Takes(offers[1..], coding, weigh)
  {
    hide SameName, Welcome;
    var rest := offers[1..];
    if Takes(rest, coding, weigh) && !SameName(offers[0].name, coding) {
      var k :| && 0 <= k < |rest| && SameName(rest[k].name, coding)
               && (forall j | 0 <= j < k :: !SameName(rest[j].name, coding))
               && Welcome(rest[k].params, weigh);
      assert offers[k + 1] == rest[k];
      forall j | 0 <= j < k + 1 ensures !SameName(offers[j].name, coding) {
        if j > 0 {
          assert offers[j] == rest[j - 1];
        }
      }
    }
    if Takes(offers, coding, weigh) && !SameName(offers[0].name, coding) {
      var k :| && 0 <= k < |offers| && SameName(offers[k].name, coding)
               && (forall j | 0 <= j < k :: !SameName(offers[j].name, coding))
               && Welcome(offers[k].params, weigh);
      assert rest[k - 1] == offers[k];
      forall j | 0 <= j < k - 1 ensures !SameName(rest[j].name, coding) {
        assert rest[j] == offers[j + 1];
      }
    }
  }

  /** A coding is accepted exactly when the list of offers a client writes takes it. */
  lemma OffersAreRead(offers: seq<Offer>, coding: string, weigh: string -> Weight)
    requires AllOffers(offers) && IsWord(coding)
    ensures Accepted(Join(OfferTexts(offers), ", "), coding, weigh) <==> Takes(offers, coding, weigh)
  {
    forall k | 0 <= k < |offers| ensures IsElement(OfferTexts(offers)[k]) {
      OfferIsElement(offers[k]);
    }
    ListIsRead(OfferTexts(offers));
    OffersAreWeighed(offers, coding, weigh);
  }

  // ---------------------------------------------------------------------------
  // If-None-Match
  // ---------------------------------------------------------------------------

  /** An entity tag (section 8.8.3 of RFC 9110). */
  datatype Tag = Tag(weak: bool, opaqueTag: string)

  function TagText(t: Tag): string {
    (if t.weak then "W/" else "") + "\"" + t.opaqueTag + "\""
  }

  function TagTexts(tags: seq<Tag>): (texts: seq<string>)
    ensures |texts| == |tags|
  {
    seq(|tags|, i requires 0 <= i < |tags| => TagText(tags[i]))
  }

  lemma TagIsElement(t: Tag)
    requires Free(t.opaqueTag, ',')
    ensures IsElement(TagText(t)) && Opaque(TagText(t)) == "\"" + t.opaqueTag + "\""
  {
    if t.weak {
      assert TagText(t)[2..] == "\"" + t.opaqueTag + "\"";
    } else {
      assert TagText(t)[0] == '\"';
    }
  }

  lemma SameQuoted(a: string, b: string)
    ensures "\"" + a + "\"" == "\"" + b + "\"" <==> a == b
  {
    var x, y := "\"" + a + "\"", "\"" + b + "\"";
    if x == y {
      assert a == x[1..|x| - 1] && b == y[1..|y| - 1];
    }
  }

  /** A list of tags matches by weak comparison, as section 13.1.2 asks for. */
  lemma TagsAreRead(tags: seq<Tag>, sent: Tag)
    requires Free(sent.opaqueTag, ',') && forall k | 0 <= k < |tags| :: Free(tags[k].opaqueTag, ',')
    ensures TagListed(Join(TagTexts(tags), ", "), TagText(sent))
            <==> exists k :: 0 <= k < |tags| && tags[k].opaqueTag == sent.opaqueTag
  {
    hide Opaque, TagText, TagListed;
    var texts, want := TagTexts(tags), "\"" + sent.opaqueTag + "\"";
    TagIsElement(sent);
    forall k | 0 <= k < |tags|
      ensures IsElement(texts[k]) && (Opaque(texts[k]) == want <==> tags[k].opaqueTag == sent.opaqueTag)
    {
      TagIsElement(tags[k]);
      SameQuoted(tags[k].opaqueTag, sent.opaqueTag);
    }
    ListIsRead(texts);
    TagInMeaning(texts, want);
    NoWildcard(tags);
    MatchMeaning(Join(texts, ", "), TagText(sent));
    assert forall k | 0 <= k < |tags| :: texts[k] in texts;
  }

  lemma MatchMeaning(list: string, etag: string)
    ensures TagListed(list, etag) <==> TrimSpace(list) == "*" || TagIn(Tokens(list), Opaque(etag))
  {
  }

  /** A list of quoted tags is not the wildcard. */
  lemma NoWildcard(tags: seq<Tag>)
    ensures TrimSpace(Join(TagTexts(tags), ", ")) != "*"
  {
    var list := Join(TagTexts(tags), ", ");
    if tags != [] {
      var first := TagText(tags[0]);
      assert list[..|first|] == first;
      assert list[0] == first[0] && !IsSpace(list[0]);
      assert KeptFrom(list, Spaces, 0) == 0;
    }
  }

  /** The wildcard alone matches every tag. */
  lemma WildcardMatches(etag: string)
    ensures TagListed("*", etag) && TagListed(" * ", etag)
  {
    var t := " * ";
    assert KeptFrom("*", Spaces, 0) == 0 && KeptUpTo("*", Spaces, 1) == 1;
    assert KeptFrom(t, Spaces, 0) == KeptFrom(t, Spaces, 1) == 1;
    assert KeptUpTo(t, Spaces, 3) == KeptUpTo(t, Spaces, 2) == 2;
    assert t[1..2] == "*" && "*"[0..1] == "*";
  }
}
