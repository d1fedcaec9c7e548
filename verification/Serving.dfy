/**
 serveFromCache (internal/handler/file.go), the choice of a compressed variant,
 and what the client gets after the compression middleware.
 */
module Serving {
  import opened Wrappers
  import opened Text
  import opened FileCache
  import opened Http
  import opened RangeServing
  import opened RangeClient
  import opened Compression
  import HeaderLists

  // ---------------------------------------------------------------------------
  // Choosing a variant
  // ---------------------------------------------------------------------------

  function VariantOf(content: Content, c: Coding): Option<Bytes> {
    match c
    case Brotli => content.br
    case Zstd => content.zstd
    case Gzip => content.gzip
  }

  /** Brotli first, then zstd, then gzip. */
  const PREFERENCE: seq<Coding> := [Brotli, Zstd, Gzip]

  /** The first coding from the `k`th on that there is and that the client accepts. */
  function FirstUsable(content: Content, req: Request, weigh: string -> HeaderLists.Weight, k: nat): (c: Option<Coding>)
    requires k <= |PREFERENCE|
    ensures c.Some? ==> VariantOf(content, c.value).Some? && Accepts(req, c.value, weigh)
    decreases |PREFERENCE| - k
  {
    if k == |PREFERENCE| then None
    else if VariantOf(content, PREFERENCE[k]).Some? && Accepts(req, PREFERENCE[k], weigh) then Some(PREFERENCE[k])
    else FirstUsable(content, req, weigh, k + 1)
  }

  function Negotiated(content: Content, req: Request, s: Settings, weigh: string -> HeaderLists.Weight)
    : (c: Option<Coding>)
    ensures c.Some? ==> VariantOf(content, c.value).Some?
  {
    if s.on then FirstUsable(content, req, weigh, 0) else None
  }

  function Encoded(content: Content, c: Option<Coding>): Bytes
    requires c.Some? ==> VariantOf(content, c.value).Some?
  {
    if c.None? then content.data else VariantOf(content, c.value).value
  }

  method NegotiateEncoding(content: Content, req: Request, s: Settings, weigh: string -> HeaderLists.Weight)
    returns (data: Bytes, coding: Option<Coding>)
    ensures coding == Negotiated(content, req, s, weigh) && data == Encoded(content, coding)
  {
    if !s.on {
      return content.data, None;
    }
    assert FirstUsable(content, req, weigh, 3) == None;
    var accepts := HeaderLists.AcceptsEncodingStr(req.acceptEncoding, "br", weigh);
    if content.br.Some? && accepts {
      return content.br.value, Some(Brotli);
    }
    accepts := HeaderLists.AcceptsEncodingStr(req.acceptEncoding, "zstd", weigh);
    if content.zstd.Some? && accepts {
      return content.zstd.value, Some(Zstd);
    }
    accepts := HeaderLists.AcceptsEncodingStr(req.acceptEncoding, "gzip", weigh);
    if content.gzip.Some? && accepts {
      return content.gzip.value, Some(Gzip);
    }
    return content.data, None;
  }

  // ---------------------------------------------------------------------------
  // serveFromCache
  // ---------------------------------------------------------------------------

  /** The headers set before it is decided which bytes to send. */
  function HitHeaders(h: Headers, content: Content, coding: Option<Coding>, etags: bool): Headers {
    Validators(h.(cacheHit := Some(true)), content, etags)
    .(contentType := content.contentType,
      contentEncoding := if coding.Some? then coding else h.contentEncoding)
  }

  /** A file sent whole, in the negotiated coding. */
  function WholeReply(base: Reply, isHead: bool, content: Content, coding: Option<Coding>, etags: bool): Reply
    requires coding.Some? ==> VariantOf(content, coding.value).Some?
  {
    var bytes := Encoded(content, coding);
    var length := if coding.Some? then |bytes| else content.size;
    Reply(200, HitHeaders(base.headers, content, coding, etags).(contentLength := Some(length)),
          SetBody(base.body, isHead, bytes))
  }

  /** A Range request is answered with identity bytes. */
  function PartialReply(base: Reply, req: Request, content: Content, coding: Option<Coding>, etags: bool,
                        boundary: string): Reply
  {
    var h := HitHeaders(base.headers, content, coding, etags)
             .(contentEncoding := if coding.Some? then None else base.headers.contentEncoding);
    var allowed := IfRangeAllows(req, h);
    SelectFits(req.range, allowed, |content.data|);
    RangeReply(base.(headers := h), Select(req.range, allowed, |content.data|), req.isHead, content.data, boundary)
  }

  function HitReply(base: Reply, req: Request, content: Content, s: Settings, etags: bool,
                    weigh: string -> HeaderLists.Weight, boundary: string): Reply
  {
    var coding := Negotiated(content, req, s, weigh);
    if req.range == "" then WholeReply(base, req.isHead, content, coding, etags)
    else PartialReply(base, req, content, coding, etags, boundary)
  }

  /** Every reply made from a file's contents is marked as a cache hit, one for a file just loaded too. */
  lemma MarkedAsHit(base: Reply, req: Request, content: Content, s: Settings, etags: bool,
                    weigh: string -> HeaderLists.Weight, boundary: string)
    ensures HitReply(base, req, content, s, etags, weigh, boundary).headers.cacheHit == Some(true)
  {
    hide Select, IfRangeAllows, FirstUsable, Encoded;
  }

  method ServeFromCache(resp: Response, req: Request, content: Content, s: Settings, etags: bool,
                        weigh: string -> HeaderLists.Weight, boundary: string)
    requires |content.data| <= MAX_INT64
    modifies resp
    ensures resp.Value() == HitReply(old(resp.Value()), req, content, s, etags, weigh, boundary)
  {
    resp.headers := resp.headers.(cacheHit := Some(true));
    SetValidators(resp, content, etags);
    var data, coding := NegotiateEncoding(content, req, s, weigh);
    if coding.Some? {
      resp.headers := resp.headers.(contentEncoding := coding, varyEncoding := true);
    }
    if req.range == "" {
      resp.headers := resp.headers.(contentType := content.contentType);
      resp.headers := resp.headers.(contentLength := Some(if coding.Some? then |data| else content.size));
      resp.status := 200;
      if !req.isHead {
        resp.body := Buffered(data);
      }
      return;
    }
    resp.headers := resp.headers.(contentType := content.contentType);
    if coding.Some? {
      resp.headers := resp.headers.(contentEncoding := None);
      data := content.data;
    }
    ServeRange(resp, req, data, boundary);
  }

  // ---------------------------------------------------------------------------
  // What both ways of filling the cache guarantee
  // ---------------------------------------------------------------------------

  predicate Decodes(codecs: Codecs, c: Coding, variant: Option<Bytes>, data: Bytes) {
    variant.Some? ==> codecs.decode(c, variant.value) == data
  }

  /** The size is the length of the data, and every variant decodes to the data. */
  predicate Sound(content: Content, codecs: Codecs) {
    && content.size == |content.data| <= MAX_INT64
    && Decodes(codecs, Brotli, content.br, content.data)
    && Decodes(codecs, Zstd, content.zstd, content.data)
    && Decodes(codecs, Gzip, content.gzip, content.data)
  }

  /** There is a gzip variant whenever the middleware would compress the data. */
  predicate GzipReady(content: Content, s: Settings) {
    s.on && IsCompressible(content.contentType) && |content.data| >= s.minSize ==> content.gzip.Some?
  }

  // ---------------------------------------------------------------------------
  // What the client gets
  // ---------------------------------------------------------------------------

  /** The bytes of a reply once decoded by its Content-Encoding. */
  function Decoded(reply: Reply, codecs: Codecs): Bytes {
    match reply.headers.contentEncoding
    case None => BodyBytes(reply.body)
    case Some(c) => codecs.decode(c, BodyBytes(reply.body))
  }

  lemma EncodedDecodes(content: Content, coding: Option<Coding>, codecs: Codecs)
    requires Sound(content, codecs) && (coding.Some? ==> VariantOf(content, coding.value).Some?)
    ensures coding.Some? ==> codecs.decode(coding.value, Encoded(content, coding)) == content.data
  {
  }

  lemma ZippedDecodes(reply: Reply, codecs: Codecs)
    requires codecs.Lossless() && reply.body.Buffered? && reply.headers.contentEncoding.None?
    ensures Decoded(Zipped(reply, codecs), codecs) == reply.body.bytes
  {
  }

  /** The reply after serveFromCache and the middleware, starting from an empty response. */
  function Served(req: Request, content: Content, s: Settings, etags: bool, weigh: string -> HeaderLists.Weight,
                  boundary: string, codecs: Codecs, base: Reply): Reply
  {
    Processed(HitReply(base, req, content, s, etags, weigh, boundary), Willing(req, s, weigh), s, codecs)
  }

  predicate Fresh(base: Reply) {
    && base.body == Buffered("") && base.headers.contentEncoding.None?
    && base.headers.contentRange.None? && base.headers.contentLength.None?
  }

  /** Without Range the middleware never compresses a cached response. */
  lemma NeverRecompressed(req: Request, content: Content, s: Settings, etags: bool, weigh: string -> HeaderLists.Weight,
                          boundary: string, codecs: Codecs, base: Reply)
    requires Fresh(base) && GzipReady(content, s) && req.range == ""
    ensures Served(req, content, s, etags, weigh, boundary, codecs, base)
            == WholeReply(base, req.isHead, content, Negotiated(content, req, s, weigh), etags)
  {
    if Willing(req, s, weigh) && content.gzip.Some? {
      GzipUsable(content, req, weigh, 0);
    }
  }

  lemma {:induction false} GzipUsable(content: Content, req: Request, weigh: string -> HeaderLists.Weight, k: nat)
    requires k <= 2 && content.gzip.Some? && Accepts(req, Gzip, weigh)
    ensures FirstUsable(content, req, weigh, k).Some?
    decreases 2 - k
  {
    if k < 2 {
      GzipUsable(content, req, weigh, k + 1);
    }
  }

  /** Warm HEAD and GET agree on status, coding and length (section 9.3.2 of RFC 9110). */
  lemma HeadLikeGet(get: Request, content: Content, s: Settings, etags: bool, weigh: string -> HeaderLists.Weight,
                    boundary: string, codecs: Codecs, base: Reply)
    requires Fresh(base) && Sound(content, codecs) && GzipReady(content, s) && get.range == "" && !get.isHead
    ensures var g := Served(get, content, s, etags, weigh, boundary, codecs, base);
            var h := Served(get.(isHead := true), content, s, etags, weigh, boundary, codecs, base);
            && h.status == g.status && h.headers == g.headers
            && Announced(true, h) == Announced(false, g) && BodyBytes(h.body) == ""
  {
    NeverRecompressed(get, content, s, etags, weigh, boundary, codecs, base);
    NeverRecompressed(get.(isHead := true), content, s, etags, weigh, boundary, codecs, base);
    UsableIgnoresHead(get, content, weigh, 0);
  }

  lemma {:induction false} UsableIgnoresHead(get: Request, content: Content, weigh: string -> HeaderLists.Weight,
                                             k: nat)
    requires k <= |PREFERENCE|
    ensures FirstUsable(content, get.(isHead := true), weigh, k) == FirstUsable(content, get, weigh, k)
    decreases |PREFERENCE| - k
  {
    if k < |PREFERENCE| {
      UsableIgnoresHead(get, content, weigh, k + 1);
    }
  }

  /** The ranges a request selects from a cached file. */
  function Selected(base: Reply, req: Request, content: Content, s: Settings, etags: bool,
                    weigh: string -> HeaderLists.Weight): Selection
  {
    var h := HitHeaders(base.headers, content, Negotiated(content, req, s, weigh), etags);
    Select(req.range, IfRangeAllows(req, h), |content.data|)
  }

  /** The bytes of a 206 are the selected ones, under the positions that a client reads off it. */
  predicate NamesBytes(r: Reply, sel: Selection, content: Content) {
    Free(content.contentType, '\r') ==>
      && Received(OnWire(false, r)).Some?
      && Delivers(content.data, content.contentType, RangesOf(sel), Received(OnWire(false, r)).value)
  }

  predicate ConsistentReply(r: Reply, sel: Selection, content: Content, codecs: Codecs) {
    && r.body.Buffered? && r.status == (if sel.Whole? then 200 else if sel.Refused? then 416 else 206)
    && (r.status == 200 ==> Decoded(r, codecs) == content.data)
    && (r.status == 206 ==> r.headers.contentEncoding.None? && NamesBytes(r, sel, content))
    && (r.status == 416 ==> && r.body.bytes == "" && r.headers.contentRange.Some?
                            && ReadRefusal(r.headers.contentRange.value) == Some(|content.data|))
    && (r.headers.contentLength.Some? ==> r.headers.contentLength.value == |r.body.bytes|)
  }

  /**
   A GET served from the cache, after the middleware: a 200 decodes to the file;
   a 206 has no Content-Encoding and the bytes that its Content-Range, or its
   parts, name; a Content-Length header is the length of the body.
   */
  lemma Consistent(req: Request, content: Content, s: Settings, etags: bool, weigh: string -> HeaderLists.Weight,
                   boundary: string, codecs: Codecs, base: Reply)
    requires Fresh(base) && Sound(content, codecs) && codecs.Lossless() && !req.isHead
    ensures ConsistentReply(Served(req, content, s, etags, weigh, boundary, codecs, base),
                            Selected(base, req, content, s, etags, weigh), content, codecs)
  {
    if req.range == "" {
      ConsistentWhole(req, content, s, etags, weigh, boundary, codecs, base);
    } else {
      ConsistentPartial(req, content, s, etags, weigh, boundary, codecs, base);
    }
  }

  lemma ConsistentWhole(req: Request, content: Content, s: Settings, etags: bool, weigh: string -> HeaderLists.Weight,
                        boundary: string, codecs: Codecs, base: Reply)
    requires Fresh(base) && Sound(content, codecs) && codecs.Lossless() && !req.isHead && req.range == ""
    ensures ConsistentReply(Served(req, content, s, etags, weigh, boundary, codecs, base),
                            Selected(base, req, content, s, etags, weigh), content, codecs)
  {
    var coding := Negotiated(content, req, s, weigh);
    EncodedDecodes(content, coding, codecs);
    var plain := WholeReply(base, false, content, coding, etags);
    if coding.None? {
      ZippedDecodes(plain, codecs);
    }
  }

  lemma ConsistentPartial(req: Request, content: Content, s: Settings, etags: bool, weigh: string -> HeaderLists.Weight,
                          boundary: string, codecs: Codecs, base: Reply)
    requires Fresh(base) && Sound(content, codecs) && codecs.Lossless() && !req.isHead && req.range != ""
    ensures ConsistentReply(Served(req, content, s, etags, weigh, boundary, codecs, base),
                            Selected(base, req, content, s, etags, weigh), content, codecs)
  {
    hide NamesBytes, ReadRefusal, Unsatisfied, Negotiated;
    var coding := Negotiated(content, req, s, weigh);
    var plain := PartialReply(base, req, content, coding, etags, boundary);
    var h := HitHeaders(base.headers, content, coding, etags).(contentEncoding := None);
    var sel := Select(req.range, IfRangeAllows(req, h), |content.data|);
    SelectFits(req.range, IfRangeAllows(req, h), |content.data|);
    match sel {
      case Whole =>
        ZippedDecodes(plain, codecs);
      case Refused =>
        RefusalIsRead(|content.data|);
      case Single(_) =>
        PartialNames(base.(headers := h), sel, content, boundary);
      case Several(_) =>
        PartialNames(base.(headers := h), sel, content, boundary);
    }
  }

  lemma PartialNames(base: Reply, sel: Selection, content: Content, boundary: string)
    requires Fits(sel, |content.data|) && RangesOf(sel) != [] && base.headers.contentRange.None?
    requires base.headers.contentType == content.contentType
    ensures NamesBytes(RangeReply(base, sel, false, content.data, boundary), sel, content)
  {
    if Free(content.contentType, '\r') {
      InMemoryDelivers(base, sel, content.data, boundary);
    }
  }
}
