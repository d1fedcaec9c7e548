/**
 On-the-fly compression: which media types qualify (internal/compress/compress.go
 and internal/cache/preload.go) and the middleware's post-processing decision.
 */
module Compression {
  import opened Wrappers
  import opened Text
  import opened Http
  import HeaderLists

  /** The compressors, and the decoders of the three codings. */
  datatype Codecs = Codecs(gzip: Bytes -> Bytes, zstd: Bytes -> Bytes, decode: (Coding, Bytes) -> Bytes) {
    ghost predicate Lossless() {
      forall x: Bytes :: decode(Gzip, gzip(x)) == x && decode(Zstd, zstd(x)) == x
    }
  }

  datatype Settings = Settings(on: bool, minSize: int, maxSize: int)

  // ---------------------------------------------------------------------------
  // Media types
  // ---------------------------------------------------------------------------

  function LowerChar(c: char): char {
    if 'A' <= c <= 'Z' then ((c as int) + 32) as char else c
  }

  function Lower(s: string): string {
    seq(|s|, i requires 0 <= i < |s| => LowerChar(s[i]))
  }

  /** The media type without its parameters, in lower case. */
  function MediaType(ct: string): string {
    var i := IndexByte(ct, ';');
    Lower(if i < 0 then ct else TrimSpace(ct[..i]))
  }

  const COMPRESSIBLE: seq<string> := [
    "text/html", "text/css", "text/plain", "text/xml", "text/javascript",
    "application/javascript", "application/json", "application/xml", "application/wasm",
    "image/svg+xml", "font/ttf", "font/otf", "font/woff", "application/font-woff"]

  const COMPRESSIBLE_PREFIXES: seq<string> := [
    "text/", "application/javascript", "application/json", "application/xml", "application/wasm",
    "image/svg+xml", "font/", "application/font-woff"]

  predicate IsCompressible(ct: string) {
    MediaType(ct) in COMPRESSIBLE
  }

  predicate PrefixListed(t: string) {
    exists k :: 0 <= k < |COMPRESSIBLE_PREFIXES| && HasPrefix(t, COMPRESSIBLE_PREFIXES[k])
  }

  /** The preloader's own test. */
  predicate IsCompressibleType(ct: string) {
    PrefixListed(MediaType(ct))
  }

  /** The prefix that covers an entry of the exact table. */
  function Covering(i: nat): nat
    requires i < |COMPRESSIBLE|
  {
    if i < 5 then 0 else if i < 9 then i - 4 else if i == 9 then 5 else if i < 13 then 6 else 7
  }

  lemma TextCovered(i: nat)
    requires i < 5
    ensures HasPrefix(COMPRESSIBLE[i], COMPRESSIBLE_PREFIXES[0])
  {
  }

  lemma FontCovered(i: nat)
    requires 10 <= i < 13
    ensures HasPrefix(COMPRESSIBLE[i], COMPRESSIBLE_PREFIXES[6])
  {
  }

  lemma TableCovered(i: nat)
    requires i < |COMPRESSIBLE|
    ensures HasPrefix(COMPRESSIBLE[i], COMPRESSIBLE_PREFIXES[Covering(i)])
  {
    if i < 5 {
      TextCovered(i);
    } else if 10 <= i < 13 {
      FontCovered(i);
    }
  }

  /** What the middleware would compress, the preloader compresses beforehand. */
  lemma TableWithinPrefixes(ct: string)
    requires IsCompressible(ct)
    ensures IsCompressibleType(ct)
  {
    var i :| 0 <= i < |COMPRESSIBLE| && COMPRESSIBLE[i] == MediaType(ct);
    TableCovered(i);
  }

  /** The same letters, in any case; `lower` has no upper-case letters. */
  predicate IsSpelt(s: string, lower: string) {
    && |s| == |lower|
    && forall k | 0 <= k < |s| :: s[k] == lower[k] || ('a' <= lower[k] <= 'z' && s[k] as int == lower[k] as int - 32)
  }

  /** The media types that are compressed, whatever their case and parameters. */
  predicate IsListed(t: string) {
    || IsSpelt(t, "text/html") || IsSpelt(t, "text/css") || IsSpelt(t, "text/plain") || IsSpelt(t, "text/xml")
    || IsSpelt(t, "text/javascript") || IsSpelt(t, "application/javascript") || IsSpelt(t, "application/json")
    || IsSpelt(t, "application/xml") || IsSpelt(t, "application/wasm") || IsSpelt(t, "image/svg+xml")
    || IsSpelt(t, "font/ttf") || IsSpelt(t, "font/otf") || IsSpelt(t, "font/woff")
    || IsSpelt(t, "application/font-woff")
  }

  /** A header value whose media type, the text before the first semicolon, is listed. */
  predicate IsListedType(ct: string) {
    exists n | 0 <= n <= |ct| ::
      Free(ct[..n], ';') && if n == |ct| then IsListed(ct) else ct[n] == ';' && IsListed(TrimSpace(ct[..n]))
  }

  lemma CutIsFirst(s: string, c: char, n: nat)
    requires n <= |s| && Free(s[..n], c) && (n < |s| ==> s[n] == c)
    ensures IndexByte(s, c) == if n < |s| then n else -1
  {
    forall j | 0 <= j < n ensures s[j] != c {
      assert s[..n][j] == s[j];
    }
    if n < |s| {
      IndexFromAt(s, c, 0, n);
    } else {
      IndexFromMeaning(s, c, 0);
    }
  }

  lemma CompressibleIff(ct: string)
    ensures IsCompressible(ct) <==> IsListedType(ct)
  {
    hide IsListed, Lower, TrimSpace;
    var i := IndexByte(ct, ';');
    var n := if i < 0 then |ct| else i;
    IndexFromMeaning(ct, ';', 0);
    forall m | 0 <= m <= |ct| && Free(ct[..m], ';') && (m < |ct| ==> ct[m] == ';') ensures m == n {
      CutIsFirst(ct, ';', m);
    }
    assert Free(ct[..n], ';') && ct[..|ct|] == ct;
    ListedIff(if i < 0 then ct else TrimSpace(ct[..i]));
  }

  lemma SpeltIff(s: string, lower: string)
    requires forall k | 0 <= k < |lower| :: !('A' <= lower[k] <= 'Z')
    ensures Lower(s) == lower <==> IsSpelt(s, lower)
  {
    if Lower(s) == lower {
      forall k | 0 <= k < |s| ensures LowerChar(s[k]) == lower[k] {
        assert Lower(s)[k] == lower[k];
      }
    }
  }

  lemma TableIs(u: string)
    ensures u in COMPRESSIBLE
            <==> || u == "text/html" || u == "text/css" || u == "text/plain" || u == "text/xml"
                 || u == "text/javascript" || u == "application/javascript" || u == "application/json"
                 || u == "application/xml" || u == "application/wasm" || u == "image/svg+xml" || u == "font/ttf"
                 || u == "font/otf" || u == "font/woff" || u == "application/font-woff"
  {
  }

  lemma TextsSpelt(t: string)
    ensures forall u | u in {"text/html", "text/css", "text/plain", "text/xml", "text/javascript"} ::
              Lower(t) == u <==> IsSpelt(t, u)
  {
    hide IsSpelt, Lower;
    SpeltIff(t, "text/html");
    SpeltIff(t, "text/css");
    SpeltIff(t, "text/plain");
    SpeltIff(t, "text/xml");
    SpeltIff(t, "text/javascript");
  }

  lemma ApplicationsSpelt(t: string)
    ensures forall u | u in {"application/javascript", "application/json", "application/xml", "application/wasm",
                             "application/font-woff"} ::
              Lower(t) == u <==> IsSpelt(t, u)
  {
    hide IsSpelt, Lower;
    SpeltIff(t, "application/javascript");
    SpeltIff(t, "application/json");
    SpeltIff(t, "application/xml");
    SpeltIff(t, "application/wasm");
    SpeltIff(t, "application/font-woff");
  }

  lemma OthersSpelt(t: string)
    ensures forall u | u in {"image/svg+xml", "font/ttf", "font/otf", "font/woff"} :: Lower(t) == u <==> IsSpelt(t, u)
  {
    hide IsSpelt, Lower;
    SpeltIff(t, "image/svg+xml");
    SpeltIff(t, "font/ttf");
    SpeltIff(t, "font/otf");
    SpeltIff(t, "font/woff");
  }

  lemma ListedIff(t: string)
    ensures Lower(t) in COMPRESSIBLE <==> IsListed(t)
  {
    hide IsSpelt, Lower;
    TableIs(Lower(t));
    TextsSpelt(t);
    ApplicationsSpelt(t);
    OthersSpelt(t);
  }

  // ---------------------------------------------------------------------------
  // The middleware
  // ---------------------------------------------------------------------------

  predicate Accepts(req: Request, coding: Coding, weigh: string -> HeaderLists.Weight) {
    HeaderLists.Accepted(req.acceptEncoding, CodingName(coding), weigh)
  }

  /** Whether a finished response is compressed. */
  predicate Qualifies(reply: Reply, s: Settings) {
    && reply.status == 200 && reply.headers.contentRange.None? && reply.body.Buffered?
    && reply.headers.contentEncoding.None? && IsCompressible(reply.headers.contentType)
    && |reply.body.bytes| >= s.minSize && (s.maxSize <= 0 || |reply.body.bytes| <= s.maxSize)
  }

  function Zipped(reply: Reply, codecs: Codecs): Reply
    requires reply.body.Buffered?
  {
    reply.(headers := reply.headers.(contentEncoding := Some(Gzip), contentLength := None),
           body := Buffered(codecs.gzip(reply.body.bytes)))
  }

  /** What the middleware makes of the inner handler's response; `willing` says that it compresses at all. */
  function Processed(reply: Reply, willing: bool, s: Settings, codecs: Codecs): Reply {
    if willing && Qualifies(reply, s) then Zipped(reply, codecs) else reply
  }

  /** A buffered 200 without coding and Content-Range, of a listed media type, within the size limits. */
  predicate CouldShrink(reply: Reply, s: Settings) {
    && reply.status == 200 && reply.headers.contentRange.None? && reply.body.Buffered?
    && reply.headers.contentEncoding.None? && IsListedType(reply.headers.contentType)
    && s.minSize <= |reply.body.bytes| && (s.maxSize > 0 ==> |reply.body.bytes| <= s.maxSize)
  }

  /**
   A response leaves the middleware compressed exactly when the client takes gzip
   and it could shrink; otherwise it leaves as it is. None is left that could.
   */
  lemma CompressedIff(reply: Reply, willing: bool, s: Settings, codecs: Codecs)
    requires codecs.Lossless()
    ensures var r := Processed(reply, willing, s, codecs);
            if willing && CouldShrink(reply, s) then
              && r.status == 200 && r.headers.contentEncoding == Some(Gzip) && r.headers.contentLength.None?
              && r.headers.contentType == reply.headers.contentType && r.headers.etag == reply.headers.etag
              && r.body.Buffered? && codecs.decode(Gzip, r.body.bytes) == reply.body.bytes
            else r == reply
    ensures willing ==> !CouldShrink(Processed(reply, willing, s, codecs), s)
  {
    hide IsListedType, IsCompressible;
    CompressibleIff(reply.headers.contentType);
  }

  predicate Willing(req: Request, s: Settings, weigh: string -> HeaderLists.Weight) {
    s.on && Accepts(req, Gzip, weigh)
  }

  /** What happens before the inner handler: Vary is set when the client takes gzip. */
  method Before(resp: Response, req: Request, s: Settings, weigh: string -> HeaderLists.Weight) returns (willing: bool)
    modifies resp
    ensures willing <==> Willing(req, s, weigh)
    ensures resp.Value() == if willing then old(resp.Value()).(headers := old(resp.headers).(varyEncoding := true))
                            else old(resp.Value())
  {
    if !s.on {
      return false;
    }
    willing := HeaderLists.AcceptsEncodingStr(req.acceptEncoding, "gzip", weigh);
    if willing {
      resp.headers := resp.headers.(varyEncoding := true);
    }
  }

  /** What happens after it. */
  method After(resp: Response, willing: bool, s: Settings, codecs: Codecs)
    modifies resp
    ensures resp.Value() == Processed(old(resp.Value()), willing, s, codecs)
  {
    if !willing || resp.status == 304 || resp.status == 204 || 100 <= resp.status < 200 {
      return;
    }
    if resp.status != 200 || resp.headers.contentRange.Some? {
      return;
    }
    if resp.body.Streamed? || resp.headers.contentEncoding.Some? {
      return;
    }
    if !IsCompressible(resp.headers.contentType) {
      return;
    }
    var bytes := resp.body.bytes;
    if |bytes| < s.minSize || (s.maxSize > 0 && |bytes| > s.maxSize) {
      return;
    }
    resp.headers := resp.headers.(contentEncoding := Some(Gzip));
    resp.headers := resp.headers.(contentLength := None);
    resp.body := Buffered(codecs.gzip(bytes));
  }
}
