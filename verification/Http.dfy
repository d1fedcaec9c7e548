/**
 Requests and responses as the file handler sees them, and the validators and
 conditional requests of internal/headers/headers.go.
 */
module Http {
  import opened Wrappers
  import opened Text
  import opened FileCache
  import HeaderLists

  datatype Coding = Brotli | Zstd | Gzip

  function CodingName(c: Coding): string {
    match c
    case Brotli => "br"
    case Zstd => "zstd"
    case Gzip => "gzip"
  }

  /** An absent header is "". Dates come parsed, in seconds; None when absent or unparsable. */
  datatype Request = Request(
    urlPath: string, isHead: bool, range: string, ifRange: string, ifRangeTime: Option<int>,
    ifNoneMatch: string, ifModifiedTime: Option<int>, acceptEncoding: string)

  /** The response headers the handler writes; `varyEncoding` says that Vary lists Accept-Encoding. */
  datatype Headers = Headers(
    contentType: string, contentLength: Option<int>, contentRange: Option<string>, contentEncoding: Option<Coding>,
    etag: Option<string>, lastModified: Option<int>, cacheControl: Option<string>, varyEncoding: bool,
    cacheHit: Option<bool>, acceptRanges: bool)

  const PLAIN_TEXT := "text/plain; charset=utf-8"

  /** The headers of a response that was reset. */
  function NoHeaders(): Headers {
    Headers(PLAIN_TEXT, None, None, None, None, None, None, false, None, false)
  }

  datatype Body = Buffered(bytes: Bytes) | Streamed(readers: seq<Bytes>, length: int)

  datatype Reply = Reply(status: nat, headers: Headers, body: Body)

  function ErrorReply(status: nat, message: string): Reply {
    Reply(status, NoHeaders(), Buffered(message))
  }

  class Response {
    var status: nat
    var headers: Headers
    var body: Body

    function Value(): Reply
      reads this
    {
      Reply(status, headers, body)
    }

    constructor ()
      ensures Value() == Reply(200, NoHeaders(), Buffered(""))
    {
      status, headers, body := 200, NoHeaders(), Buffered("");
    }

    method Replace(reply: Reply)
      modifies this
      ensures Value() == reply
    {
      status, headers, body := reply.status, reply.headers, reply.body;
    }

    /** ctx.Error: a reset response with a plain-text message. */
    method Error(code: nat, message: string)
      modifies this
      ensures Value() == ErrorReply(code, message)
    {
      status, headers, body := code, NoHeaders(), Buffered(message);
    }
  }

  // ---------------------------------------------------------------------------
  // Validators
  // ---------------------------------------------------------------------------

  const SECOND := 1_000_000_000

  /** A time in nanoseconds as an HTTP date, which drops the fraction. */
  function Seconds(t: int): int {
    t / SECOND
  }

  /** The entity tag sent for a file; always a weak one. */
  function TagOf(content: Content): string {
    "W/\"" + content.etag + "\""
  }

  /** Whether the conditional headers ask for a 304. */
  predicate NotModified(req: Request, content: Content, etags: bool) {
    if etags && req.ifNoneMatch != "" then HeaderLists.TagListed(req.ifNoneMatch, TagOf(content))
    else
      && req.ifModifiedTime.Some? && content.lastModified.Some?
      && content.lastModified.value <= req.ifModifiedTime.value * SECOND + SECOND - 1
  }

  predicate Unconditional(req: Request) {
    req.ifNoneMatch == "" && req.ifModifiedTime.None?
  }

  /** The headers a file response and a 304 have in common. */
  function Validators(h: Headers, content: Content, etags: bool): Headers {
    h.(etag := if etags then Some(TagOf(content)) else h.etag,
       lastModified := if content.lastModified.Some? then Some(Seconds(content.lastModified.value)) else h.lastModified,
       cacheControl := if content.cacheControl != "" then Some(content.cacheControl) else h.cacheControl,
       varyEncoding := true)
  }

  function NotModifiedReply(base: Reply, content: Content, etags: bool): Reply {
    Reply(304, Validators(base.headers, content, etags), base.body)
  }

  method SetValidators(resp: Response, content: Content, etags: bool)
    modifies resp`headers
    ensures resp.headers == Validators(old(resp.headers), content, etags)
  {
    if etags {
      resp.headers := resp.headers.(etag := Some(TagOf(content)));
    }
    if content.lastModified.Some? {
      resp.headers := resp.headers.(lastModified := Some(Seconds(content.lastModified.value)));
    }
    if content.cacheControl != "" {
      resp.headers := resp.headers.(cacheControl := Some(content.cacheControl));
    }
    resp.headers := resp.headers.(varyEncoding := true);
  }

  /** Answers 304 when the client's copy is current. */
  method CheckNotModified(resp: Response, req: Request, content: Content, etags: bool) returns (done: bool)
    modifies resp
    ensures done <==> NotModified(req, content, etags)
    ensures resp.Value() == if done then NotModifiedReply(old(resp.Value()), content, etags) else old(resp.Value())
  {
    if etags && req.ifNoneMatch != "" {
      var matches := HeaderLists.ETagMatches(req.ifNoneMatch, TagOf(content));
      if matches {
        SetValidators(resp, content, etags);
        resp.status := 304;
      }
      return matches;
    }
    if req.ifModifiedTime.Some? && content.lastModified.Some? {
      var limit := req.ifModifiedTime.value * SECOND + SECOND - 1;
      if !(content.lastModified.value > limit) {
        SetValidators(resp, content, etags);
        resp.status := 304;
        return true;
      }
    }
    return false;
  }

  lemma OneToken(tag: string)
    requires tag != "" && Free(tag, ',') && !IsBlank(tag[0]) && !IsBlank(tag[|tag| - 1])
    ensures HeaderLists.Tokens(tag) == [tag]
  {
    SplitNone(tag, ',');
    HeaderLists.ListedOne(tag);
    assert KeptFrom(tag, Blanks, 0) == 0 && KeptUpTo(tag, Blanks, |tag|) == |tag|;
    assert tag[0..] == tag && tag[..|tag|] == tag;
  }

  /**
   When a 304 is due: the tag is listed, up to one W/ on either side, or the
   wildcard stands alone; without a list, the date given is not before the one
   that would be sent.
   */
  lemma NotModifiedMeaning(req: Request, content: Content, etags: bool)
    ensures NotModified(req, content, etags)
            <==> if etags && req.ifNoneMatch != "" then
                   || TrimSpace(req.ifNoneMatch) == "*"
                   || (exists t :: t in HeaderLists.Tokens(req.ifNoneMatch)
                                   && HeaderLists.Opaque(t) == HeaderLists.Opaque(TagOf(content)))
                 else
                   && req.ifModifiedTime.Some? && content.lastModified.Some?
                   && Seconds(content.lastModified.value) <= req.ifModifiedTime.value
  {
    if etags && req.ifNoneMatch != "" {
      HeaderLists.TagInMeaning(HeaderLists.Tokens(req.ifNoneMatch), HeaderLists.Opaque(TagOf(content)));
    }
  }

  /** A client that sends back the validators it was given gets a 304. */
  lemma Revalidated(req: Request, content: Content, etags: bool, sent: Headers)
    requires sent == Validators(NoHeaders(), content, etags) && content.lastModified.Some? && Free(content.etag, ',')
    requires if etags then req.ifNoneMatch == sent.etag.value else req.ifModifiedTime == sent.lastModified
    ensures NotModified(req, content, etags)
  {
    if etags {
      var tag := TagOf(content);
      assert Free(tag, ',') && tag[0] == 'W' && tag[|tag| - 1] == '\"';
      OneToken(tag);
      assert HeaderLists.TagIn([tag], HeaderLists.Opaque(tag));
    }
  }

  // ---------------------------------------------------------------------------
  // What goes over the wire
  // ---------------------------------------------------------------------------

  function Concat(readers: seq<Bytes>): Bytes {
    if readers == [] then "" else Concat(readers[..|readers| - 1]) + readers[|readers| - 1]
  }

  function BodyBytes(body: Body): Bytes {
    match body
    case Buffered(bytes) => bytes
    case Streamed(readers, _) => Concat(readers)
  }

  /** The Content-Length sent: of a GET the body's length, of a HEAD what the header says. */
  function Announced(isHead: bool, reply: Reply): Option<int> {
    if isHead then reply.headers.contentLength
    else match reply.body
         case Buffered(bytes) => Some(|bytes|)
         case Streamed(_, length) => Some(length)
  }

  /** The parts of an answer that describe the selected bytes. */
  datatype Wire = Wire(status: nat, contentType: string, contentRange: Option<string>, length: Option<int>,
                       bytes: Bytes)

  function OnWire(isHead: bool, reply: Reply): Wire {
    Wire(reply.status, reply.headers.contentType, reply.headers.contentRange, Announced(isHead, reply),
         if isHead then "" else BodyBytes(reply.body))
  }
}
