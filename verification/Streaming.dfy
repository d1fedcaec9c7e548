/**
 serveLargeFile (internal/handler/file.go): files over the cache's size limit are
 streamed from disk with a Content-Length computed beforehand.
 */
module Streaming {
  import opened Wrappers
  import opened Text
  import opened FileCache
  import opened ByteRanges
  import opened Multipart
  import opened Http
  import opened RangeServing
  import opened RangeClient

  /** What opening and reading a file leads to. */
  datatype Access = Readable | Denied | Broken

  /** A regular file: its type by extension, if that is known, and what its first bytes look like. */
  datatype DiskFile = DiskFile(data: Bytes, modTime: int, extType: Option<string>, sniffed: string, access: Access) {
    function Type(): string {
      if extType.Some? then extType.value else sniffed
    }
  }

  const FORBIDDEN := ErrorReply(403, "Forbidden")
  const INTERNAL_ERROR := ErrorReply(500, "Internal Server Error")
  const PAYLOAD_TOO_LARGE := ErrorReply(413, "Payload Too Large")

  /** The error reply when the file cannot be opened. */
  function OpenFailure(file: DiskFile, contained: bool): Option<Reply> {
    if !contained then Some(FORBIDDEN)
    else
      match file.access
      case Readable => None
      case Denied => Some(FORBIDDEN)
      case Broken => Some(INTERNAL_ERROR)
  }

  // ---------------------------------------------------------------------------
  // Lengths and readers
  // ---------------------------------------------------------------------------

  /** The length computed before streaming, in int64 arithmetic, after the first `k` parts. */
  function TotalUpTo(size: nat, boundary: string, ct: string, rs: seq<Range>, k: nat): int
    requires k <= |rs| && AllInside(rs, size)
  {
    if k == 0 then 0
    else
      InsideAt(rs, size, k - 1);
      Add64(TotalUpTo(size, boundary, ct, rs, k - 1),
            Add64(|PartHead(boundary, ct, rs[k - 1], size)|, rs[k - 1].length))
  }

  function Total(size: nat, boundary: string, ct: string, rs: seq<Range>): int
    requires AllInside(rs, size)
  {
    Add64(TotalUpTo(size, boundary, ct, rs, |rs|), |Tail(boundary)|)
  }

  lemma {:induction false} LengthGrows(size: nat, boundary: string, ct: string, rs: seq<Range>, k: nat)
    requires k <= |rs| && AllInside(rs, size)
    ensures 0 <= LengthUpTo(size, boundary, ct, rs, k) <= LengthUpTo(size, boundary, ct, rs, |rs|)
    decreases |rs| - k
  {
    LengthNonNegative(size, boundary, ct, rs, k);
    if k < |rs| {
      InsideAt(rs, size, k);
      LengthGrows(size, boundary, ct, rs, k + 1);
    }
  }

  lemma {:induction false} LengthNonNegative(size: nat, boundary: string, ct: string, rs: seq<Range>, k: nat)
    requires k <= |rs| && AllInside(rs, size)
    ensures 0 <= LengthUpTo(size, boundary, ct, rs, k)
  {
    if k > 0 {
      InsideAt(rs, size, k - 1);
      LengthNonNegative(size, boundary, ct, rs, k - 1);
    }
  }

  lemma {:induction false} TotalExactUpTo(size: nat, boundary: string, ct: string, rs: seq<Range>, k: nat)
    requires k <= |rs| && AllInside(rs, size) && LengthUpTo(size, boundary, ct, rs, |rs|) <= MAX_INT64
    ensures TotalUpTo(size, boundary, ct, rs, k) == LengthUpTo(size, boundary, ct, rs, k)
  {
    if k > 0 {
      InsideAt(rs, size, k - 1);
      TotalExactUpTo(size, boundary, ct, rs, k - 1);
      LengthGrows(size, boundary, ct, rs, k);
      LengthNonNegative(size, boundary, ct, rs, k - 1);
    }
  }

  lemma {:induction false} TotalInRange(size: nat, boundary: string, ct: string, rs: seq<Range>, k: nat)
    requires k <= |rs| && AllInside(rs, size) && size <= MAX_INT64
    requires |boundary| + |ct| + 3 * |Itoa(size)| + 50 <= MAX_INT64
    ensures -MAX_INT64 - 1 <= TotalUpTo(size, boundary, ct, rs, k) <= MAX_INT64
  {
    if k > 0 {
      InsideAt(rs, size, k - 1);
      HeadWithinLimit(boundary, ct, rs[k - 1], size);
      TotalInRange(size, boundary, ct, rs, k - 1);
    }
  }

  /** The announced length is the length of the body exactly when that fits in an int64. */
  lemma TotalExactIff(data: Bytes, boundary: string, ct: string, rs: seq<Range>)
    requires AllInside(rs, |data|) && |data| <= MAX_INT64 && HeadLimit(|data|, boundary, ct) <= MAX_INT64
    ensures Total(|data|, boundary, ct, rs) == |Multipart.Body(data, boundary, ct, rs)|
            <==> |Multipart.Body(data, boundary, ct, rs)| <= MAX_INT64
  {
    LengthIsExact(data, boundary, ct, rs, |rs|);
    TotalInRange(|data|, boundary, ct, rs, |rs|);
    LengthNonNegative(|data|, boundary, ct, rs, |rs|);
    if |Multipart.Body(data, boundary, ct, rs)| <= MAX_INT64 {
      TotalExactUpTo(|data|, boundary, ct, rs, |rs|);
    }
  }

  function ReadersUpTo(data: Bytes, boundary: string, ct: string, rs: seq<Range>, k: nat): seq<Bytes>
    requires k <= |rs| && AllInside(rs, |data|)
  {
    if k == 0 then []
    else
      InsideAt(rs, |data|, k - 1);
      ReadersUpTo(data, boundary, ct, rs, k - 1) + [PartHead(boundary, ct, rs[k - 1], |data|), Slice(data, rs[k - 1])]
  }

  lemma ConcatOne(readers: seq<Bytes>, a: Bytes)
    ensures Concat(readers + [a]) == Concat(readers) + a
  {
    assert (readers + [a])[..|readers|] == readers;
  }

  lemma ConcatTwo(readers: seq<Bytes>, a: Bytes, b: Bytes)
    ensures Concat(readers + [a, b]) == Concat(readers) + a + b
  {
    assert readers + [a, b] == readers + [a] + [b];
    ConcatOne(readers + [a], b);
    ConcatOne(readers, a);
  }

  lemma {:induction false} ReadersConcat(data: Bytes, boundary: string, ct: string, rs: seq<Range>, k: nat)
    requires k <= |rs| && AllInside(rs, |data|)
    ensures Concat(ReadersUpTo(data, boundary, ct, rs, k)) == PartsUpTo(data, boundary, ct, rs, k)
  {
    if k > 0 {
      InsideAt(rs, |data|, k - 1);
      ReadersConcat(data, boundary, ct, rs, k - 1);
      ConcatTwo(ReadersUpTo(data, boundary, ct, rs, k - 1), PartHead(boundary, ct, rs[k - 1], |data|),
                Slice(data, rs[k - 1]));
    }
  }

  // ---------------------------------------------------------------------------
  // The reply for a selection
  // ---------------------------------------------------------------------------

  function StatusOf(sel: Selection): nat {
    match sel
    case Whole => 200
    case Refused => 416
    case Single(_) => 206
    case Several(_) => 206
  }

  function HeadersFor(h: Headers, sel: Selection, size: nat, boundary: string): Headers
    requires Fits(sel, size)
  {
    match sel
    case Whole => h
    case Refused => h.(contentRange := Some(Unsatisfied(size)))
    case Single(r) => h.(contentRange := Some(ContentRange(r, size)))
    case Several(_) => h.(contentType := MultipartType(boundary))
  }

  function LengthOf(sel: Selection, size: nat, boundary: string, ct: string): int
    requires Fits(sel, size)
  {
    match sel
    case Whole => size
    case Refused => 0
    case Single(r) => r.length
    case Several(rs) => Total(size, boundary, ct, rs)
  }

  function ReadersFor(sel: Selection, data: Bytes, boundary: string, ct: string): seq<Bytes>
    requires Fits(sel, |data|)
  {
    match sel
    case Whole => [data]
    case Refused => []
    case Single(r) => [Slice(data, r)]
    case Several(rs) => ReadersUpTo(data, boundary, ct, rs, |rs|) + [Tail(boundary)]
  }

  /** What serveLargeFile makes of the response for a selection. */
  function StreamReply(base: Reply, sel: Selection, isHead: bool, data: Bytes, failure: Option<Reply>,
                       boundary: string): Reply
    requires Fits(sel, |data|)
  {
    var ct := base.headers.contentType;
    var h, total := HeadersFor(base.headers, sel, |data|, boundary), LengthOf(sel, |data|, boundary, ct);
    if sel.Refused? then Reply(416, h, base.body)
    else if isHead then Reply(StatusOf(sel), h.(contentLength := Some(total)), base.body)
    else if failure.Some? then failure.value
    else if total < 0 then PAYLOAD_TOO_LARGE
    else Reply(StatusOf(sel), h, Streamed(ReadersFor(sel, data, boundary, ct), total))
  }

  lemma ConcatReaders(sel: Selection, data: Bytes, boundary: string, ct: string)
    requires Fits(sel, |data|)
    ensures Concat(ReadersFor(sel, data, boundary, ct))
            == match sel
               case Whole => data
               case Refused => ""
               case Single(r) => Slice(data, r)
               case Several(rs) => Multipart.Body(data, boundary, ct, rs)
  {
    match sel
    case Whole => ConcatOne([], data); assert [] + [data] == [data];
    case Refused =>
    case Single(r) => ConcatOne([], Slice(data, r)); assert [] + [Slice(data, r)] == [Slice(data, r)];
    case Several(rs) =>
      ReadersConcat(data, boundary, ct, rs, |rs|);
      ConcatOne(ReadersUpTo(data, boundary, ct, rs, |rs|), Tail(boundary));
  }

  /** A file is announced correctly: the multipart body, if there is one, fits in an int64. */
  predicate Announceable(sel: Selection, data: Bytes, boundary: string, ct: string)
    requires Fits(sel, |data|)
  {
    match sel
    case Whole => true
    case Refused => true
    case Single(_) => true
    case Several(rs) =>
      && HeadLimit(|data|, boundary, ct) <= MAX_INT64
      && |Multipart.Body(data, boundary, ct, rs)| <= MAX_INT64
  }

  /** Accepted ranges sum up to at most the size, so a file well below the int64 limit is. */
  lemma AnnounceableSize(sel: Selection, data: Bytes, boundary: string, ct: string)
    requires Fits(sel, |data|) && (sel.Several? ==> Sum(sel.ranges) <= |data|)
    requires |data| + MAX_RANGES * HeadLimit(|data|, boundary, ct) + |Tail(boundary)| <= MAX_INT64
    ensures Announceable(sel, data, boundary, ct)
  {
    if sel.Several? {
      BodyWithinLimit(data, boundary, ct, sel.ranges);
    }
  }

  /** The streaming server gives the answer owed. */
  lemma StreamedAnswers(base: Reply, sel: Selection, isHead: bool, data: Bytes, failure: Option<Reply>,
                        boundary: string)
    requires Fits(sel, |data|) && |data| <= MAX_INT64
    requires base.headers.contentRange.None? && base.headers.contentLength.None? && base.body == Buffered("")
    requires isHead || failure.None?
    requires Announceable(sel, data, boundary, base.headers.contentType)
    ensures OnWire(isHead, StreamReply(base, sel, isHead, data, failure, boundary))
            == Answer(sel, isHead, data, base.headers.contentType, boundary)
  {
    var ct := base.headers.contentType;
    ConcatReaders(sel, data, boundary, ct);
    if sel.Several? {
      TotalExactIff(data, boundary, ct, sel.ranges);
    }
  }

  /** What a client reads off a stream is what was selected, with its positions. */
  lemma StreamDelivers(base: Reply, sel: Selection, data: Bytes, boundary: string)
    requires Fits(sel, |data|) && RangesOf(sel) != [] && |data| <= MAX_INT64
    requires base.headers.contentRange.None? && base.headers.contentLength.None? && base.body == Buffered("")
    requires Announceable(sel, data, boundary, base.headers.contentType) && Free(base.headers.contentType, '\r')
    ensures var r := StreamReply(base, sel, false, data, None, boundary);
            && r.status == 206 && Received(OnWire(false, r)).Some?
            && Delivers(data, base.headers.contentType, RangesOf(sel), Received(OnWire(false, r)).value)
  {
    hide StreamReply, Answer;
    StreamedAnswers(base, sel, false, data, None, boundary);
    AnswerIsRead(sel, data, base.headers.contentType, boundary);
  }

  /**
   For the same file, media type, boundary, Range header and If-Range verdict
   the two servers agree on status, Content-Range, media type, length and bytes.
   */
  lemma ServersAgree(memory: Reply, stream: Reply, range: string, allowed: bool, isHead: bool, data: Bytes,
                     boundary: string)
    requires |data| <= MAX_INT64 && memory.headers.contentRange.None?
    requires stream.headers.contentRange.None? && stream.headers.contentLength.None? && stream.body == Buffered("")
    requires memory.headers.contentType == stream.headers.contentType
    requires Fits(Select(range, allowed, |data|), |data|)
    requires Announceable(Select(range, allowed, |data|), data, boundary, stream.headers.contentType)
    ensures var sel := Select(range, allowed, |data|);
            OnWire(isHead, RangeReply(memory, sel, isHead, data, boundary))
            == OnWire(isHead, StreamReply(stream, sel, isHead, data, None, boundary))
  {
    var sel := Select(range, allowed, |data|);
    InMemoryAnswers(memory, sel, isHead, data, boundary);
    StreamedAnswers(stream, sel, isHead, data, None, boundary);
  }

  // ---------------------------------------------------------------------------
  // The code
  // ---------------------------------------------------------------------------

  /** Opens the file, after checking once more that its path is below the root. */
  method Open(resp: Response, file: DiskFile, contained: bool) returns (ok: bool)
    modifies resp
    ensures ok <==> OpenFailure(file, contained).None?
    ensures resp.Value() == if ok then old(resp.Value()) else OpenFailure(file, contained).value
  {
    if !contained {
      resp.Error(403, "Forbidden");
      return false;
    }
    match file.access {
      case Readable =>
        return true;
      case Denied =>
        resp.Error(403, "Forbidden");
      case Broken =>
        resp.Error(500, "Internal Server Error");
    }
    return false;
  }

  /** The heads of all parts, and the exact length of the body. */
  method PlanParts(size: nat, boundary: string, ct: string, ranges: seq<Range>) returns (heads: seq<string>, total: int)
    requires AllInside(ranges, size)
    ensures |heads| == |ranges| && total == Total(size, boundary, ct, ranges)
    ensures forall k | 0 <= k < |ranges| ::
              Inside(ranges[k], size) && heads[k] == PartHead(boundary, ct, ranges[k], size)
  {
    heads, total := [], 0;
    for k := 0 to |ranges|
      invariant |heads| == k && total == TotalUpTo(size, boundary, ct, ranges, k)
      invariant forall j | 0 <= j < k :: Inside(ranges[j], size) && heads[j] == PartHead(boundary, ct, ranges[j], size)
    {
      InsideAt(ranges, size, k);
      var head := PartHead(boundary, ct, ranges[k], size);
      heads := heads + [head];
      total := Add64(total, Add64(|head|, ranges[k].length));
    }
    total := Add64(total, |Tail(boundary)|);
  }

  method BuildReaders(data: Bytes, boundary: string, ct: string, ranges: seq<Range>, heads: seq<string>)
    returns (readers: seq<Bytes>)
    requires AllInside(ranges, |data|) && |heads| == |ranges|
    requires forall k | 0 <= k < |ranges| ::
               Inside(ranges[k], |data|) && heads[k] == PartHead(boundary, ct, ranges[k], |data|)
    ensures readers == ReadersUpTo(data, boundary, ct, ranges, |ranges|) + [Tail(boundary)]
  {
    readers := [];
    for k := 0 to |ranges|
      invariant readers == ReadersUpTo(data, boundary, ct, ranges, k)
    {
      InsideAt(ranges, |data|, k);
      readers := readers + [heads[k], Slice(data, ranges[k])];
    }
    readers := readers + [Tail(boundary)];
  }

  /** The reply to a GET once everything is decided: the stream, or an error. */
  method SendStream(resp: Response, readers: seq<Bytes>, total: int)
    modifies resp
    ensures resp.Value() == if total < 0 then PAYLOAD_TOO_LARGE
                            else old(resp.Value()).(body := Streamed(readers, total))
  {
    if total < 0 {
      resp.Error(413, "Payload Too Large");
    } else {
      resp.body := Streamed(readers, total);
    }
  }

  method SendParts(resp: Response, isHead: bool, ranges: seq<Range>, file: DiskFile, contained: bool, isOpen: bool,
                   boundary: string)
    requires Fits(Several(ranges), |file.data|) && (isOpen ==> OpenFailure(file, contained).None?)
    modifies resp
    ensures resp.Value() == StreamReply(old(resp.Value()), Several(ranges), isHead, file.data,
                                        OpenFailure(file, contained), boundary)
  {
    var ct := resp.headers.contentType;
    var heads, total := PlanParts(|file.data|, boundary, ct, ranges);
    resp.headers := resp.headers.(contentType := MultipartType(boundary));
    var readers: seq<Bytes> := [];
    if !isHead {
      if !isOpen {
        var ok := Open(resp, file, contained);
        if !ok {
          return;
        }
      }
      readers := BuildReaders(file.data, boundary, ct, ranges, heads);
    }
    resp.status := 206;
    if isHead {
      resp.headers := resp.headers.(contentLength := Some(total));
    } else {
      SendStream(resp, readers, total);
    }
  }

  method SendPlain(resp: Response, isHead: bool, sel: Selection, file: DiskFile, contained: bool, isOpen: bool,
                   boundary: string)
    requires Fits(sel, |file.data|) && (sel.Whole? || sel.Single?)
    requires isOpen ==> OpenFailure(file, contained).None?
    modifies resp
    ensures resp.Value() == StreamReply(old(resp.Value()), sel, isHead, file.data, OpenFailure(file, contained),
                                        boundary)
  {
    var size := |file.data|;
    var total, bytes := size, file.data;
    resp.status := 200;
    if sel.Single? {
      var r := sel.range;
      resp.status, total, bytes := 206, r.length, Slice(file.data, r);
      resp.headers := resp.headers.(contentRange := Some(ContentRange(r, size)));
    }
    if isHead {
      resp.headers := resp.headers.(contentLength := Some(total));
      return;
    }
    if !isOpen {
      var ok := Open(resp, file, contained);
      if !ok {
        return;
      }
    }
    SendStream(resp, [bytes], total);
  }

  function TooLarge(limit: int): Reply {
    ErrorReply(413, "Payload Too Large: exceeds max_serve_file_size (" + (if limit > 0 then Itoa(limit) else "")
                    + " bytes)")
  }

  /** The response when it is known which file to send, before its bytes are selected. */
  function LargeHeaders(h: Headers, file: DiskFile, content: Content, etags: bool): Headers {
    Validators(h, content, etags).(contentType := file.Type(), cacheHit := Some(false), acceptRanges := true)
  }

  function LargeReply(base: Reply, req: Request, file: DiskFile, content: Content, contained: bool, maxServe: int,
                      etags: bool, boundary: string): Reply
  {
    var failure, size := OpenFailure(file, contained), |file.data|;
    if maxServe > 0 && size > maxServe then TooLarge(maxServe)
    else if file.extType.None? && failure.Some? then failure.value
    else if NotModified(req, content, etags) then NotModifiedReply(base, content, etags)
    else
      var h := LargeHeaders(base.headers, file, content, etags);
      var allowed := IfRangeAllows(req, h);
      SelectFits(req.range, allowed, size);
      StreamReply(base.(headers := h), Select(req.range, allowed, size), req.isHead, file.data, failure, boundary)
  }

  /** `content` carries the validators made from the file's size and time. */
  method ServeLargeFile(resp: Response, req: Request, file: DiskFile, content: Content, contained: bool, maxServe: int,
                        etags: bool, boundary: string)
    requires |file.data| <= MAX_INT64
    modifies resp
    ensures resp.Value() == LargeReply(old(resp.Value()), req, file, content, contained, maxServe, etags, boundary)
  {
    hide StreamReply, IfRangeAllows, NotModified, Itoa, Parsed;
    var size := |file.data|;
    if maxServe > 0 && size > maxServe {
      resp.Error(413, "Payload Too Large: exceeds max_serve_file_size (" + Itoa(maxServe) + " bytes)");
      return;
    }
    var isOpen := false;
    if file.extType.None? {
      isOpen := Open(resp, file, contained);
      if !isOpen {
        return;
      }
    }
    var done := CheckNotModified(resp, req, content, etags);
    if done {
      return;
    }
    SetValidators(resp, content, etags);
    resp.headers := resp.headers.(contentType := file.Type());
    resp.headers := resp.headers.(cacheHit := Some(false));
    resp.headers := resp.headers.(acceptRanges := true);
    SelectFits(req.range, IfRangeAllows(req, resp.headers), size);
    var ranges: RangeResult := Err(InvalidRange);
    if req.range != "" && IfRangeAllows(req, resp.headers) {
      ranges := ParseRange(req.range, size);
    }
    SendSelection(resp, req.isHead, SelectionOf(ranges), file, contained, isOpen, boundary);
  }

  method SendSelection(resp: Response, isHead: bool, sel: Selection, file: DiskFile, contained: bool, isOpen: bool,
                       boundary: string)
    requires Fits(sel, |file.data|) && (isOpen ==> OpenFailure(file, contained).None?)
    modifies resp
    ensures resp.Value() == StreamReply(old(resp.Value()), sel, isHead, file.data, OpenFailure(file, contained),
                                        boundary)
  {
    match sel {
      case Refused =>
        resp.headers := resp.headers.(contentRange := Some(Unsatisfied(|file.data|)));
        resp.status := 416;
      case Several(ranges) =>
        SendParts(resp, isHead, ranges, file, contained, isOpen, boundary);
      case Whole =>
        SendPlain(resp, isHead, sel, file, contained, isOpen, boundary);
      case Single(_) =>
        SendPlain(resp, isHead, sel, file, contained, isOpen, boundary);
    }
  }
}
