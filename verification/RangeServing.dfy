/**
 The two range servers of internal/handler/file.go: serveRange works on a file
 held in memory, serveLargeFile streams it; both must give the same answer.
 */
module RangeServing {
  import opened Wrappers
  import opened Text
  import opened FileCache
  import opened ByteRanges
  import opened Multipart
  import opened Http

  // ---------------------------------------------------------------------------
  // Which bytes are selected
  // ---------------------------------------------------------------------------

  datatype Selection = Whole | Refused | Single(range: Range) | Several(ranges: seq<Range>)

  /** Whether If-Range lets the Range header count, given the validators already on the response. */
  predicate IfRangeAllows(req: Request, h: Headers) {
    var v := TrimSpace(req.ifRange);
    if v == "" then true
    else if HasPrefix(v, "W/") then false
    else if HasPrefix(v, "\"") then
      h.etag.Some? && h.etag.value != "" && !HasPrefix(h.etag.value, "W/") && h.etag.value == v
    else req.ifRangeTime.Some? && h.lastModified.Some? && req.ifRangeTime.value == h.lastModified.value
  }

  /**
   The tags this server sends are weak, so with its own validators on the
   response If-Range lets Range count when it is absent or blank, or is the very
   date sent as Last-Modified; a tag never matches.
   */
  lemma IfRangeMeaning(req: Request, base: Headers, content: Content, etags: bool)
    requires base.etag.None? && content.lastModified.Some?
    ensures var v := TrimSpace(req.ifRange);
            IfRangeAllows(req, Validators(base, content, etags))
            <==> v == "" || (!HasPrefix(v, "\"") && !HasPrefix(v, "W/")
                             && req.ifRangeTime == Some(Seconds(content.lastModified.value)))
  {
    assert HasPrefix(TagOf(content), "W/");
  }

  function SelectionOf(ranges: RangeResult): Selection {
    match ranges
    case Ok(rs) => if |rs| == 0 then Whole else if |rs| == 1 then Single(rs[0]) else Several(rs)
    case Err(e) => if e.UnsatisfiableRange? then Refused else Whole
  }

  function Select(range: string, allowed: bool, size: nat): Selection {
    if range == "" || !allowed then Whole else SelectionOf(Parsed(range, size))
  }

  function RangesOf(sel: Selection): seq<Range> {
    match sel
    case Whole => []
    case Refused => []
    case Single(r) => [r]
    case Several(rs) => rs
  }

  /** The header is a list of one to sixteen well-formed range-specs. */
  predicate Readable(range: string) {
    HasPrefix(range, UNIT) && 1 <= |RangeSet(range)| <= MAX_RANGES && WellFormed(RangeSet(range))
  }

  /**
   What is selected: the intersections of all range-specs with the file, in
   order, when there are some and they do not exceed it; nothing when no spec
   overlaps; the whole file otherwise.
   */
  lemma SelectionMeaning(range: string, size: nat)
    requires 2 * size <= MAX_INT64
    ensures var sel := Select(range, true, size);
            && (sel.Refused? <==> Readable(range) && Clips(RangeSet(range), size) == [])
            && (RangesOf(sel) != [] <==> Readable(range) && Clips(RangeSet(range), size) != []
                                         && Sum(Clips(RangeSet(range), size)) <= size)
            && (RangesOf(sel) != [] ==> RangesOf(sel) == Clips(RangeSet(range), size))
  {
    ParsedMeets(range, size);
    var p := Parsed(range, size);
    if p.Ok? && |p.value| == 1 {
      assert [p.value[0]] == p.value;
    }
  }

  predicate Fits(sel: Selection, size: nat) {
    match sel
    case Whole => true
    case Refused => true
    case Single(r) => Inside(r, size)
    case Several(rs) => 1 < |rs| <= MAX_RANGES && AllInside(rs, size)
  }

  lemma {:induction false} AllInsideAppend(rs: seq<Range>, r: Range, size: nat)
    requires AllInside(rs, size) && Inside(r, size)
    ensures AllInside(rs + [r], size)
  {
    if rs == [] {
      assert ([] + [r])[1..] == [];
    } else {
      assert (rs + [r])[1..] == rs[1..] + [r];
      AllInsideAppend(rs[1..], r, size);
    }
  }

  /** Accepted ranges are inside the file, and at most sixteen, whatever the size. */
  lemma {:induction false} ScanInside(read: seq<Piece>, k: nat, size: nat, specs: nat, ranges: seq<Range>, total: int)
    requires k <= |read| && AllInside(ranges, size) && |ranges| <= specs <= MAX_RANGES
    ensures var r := Scan(read, k, size, specs, ranges, total);
            r.Ok? ==> AllInside(r.value, size) && 1 <= |r.value| <= MAX_RANGES
    decreases |read| - k
  {
    if k < |read| {
      if read[k].Blank? {
        ScanInside(read, k + 1, size, specs, ranges, total);
      } else if specs + 1 <= MAX_RANGES && read[k].Spec? {
        var r := Clip(read[k].spec, size);
        if r.None? {
          ScanInside(read, k + 1, size, specs + 1, ranges, total);
        } else {
          AllInsideAppend(ranges, r.value, size);
          ScanInside(read, k + 1, size, specs + 1, ranges + [r.value], Add64(total, r.value.length));
        }
      }
    }
  }

  lemma SelectFits(range: string, allowed: bool, size: nat)
    ensures Fits(Select(range, allowed, size), size)
  {
    if HasPrefix(range, UNIT) {
      ScanInside(ReadAll(Split(range[|UNIT|..], ',')), 0, size, 0, [], 0);
    }
    var p := Parsed(range, size);
    if p.Ok? {
      InsideAt(p.value, size, 0);
    }
  }

  // ---------------------------------------------------------------------------
  // The answer both servers owe
  // ---------------------------------------------------------------------------

  function MultipartType(boundary: string): string {
    "multipart/byteranges; boundary=" + boundary
  }

  function Unsatisfied(size: nat): string {
    "bytes */" + Itoa(size)
  }

  /** Status, media type, Content-Range, length and bytes for a selection of a file. */
  function Answer(sel: Selection, isHead: bool, data: Bytes, ct: string, boundary: string): Wire
    requires Fits(sel, |data|)
  {
    match sel
    case Whole => Wire(200, ct, None, Some(|data|), if isHead then "" else data)
    case Refused => Wire(416, ct, Some(Unsatisfied(|data|)), if isHead then None else Some(0), "")
    case Single(r) =>
      Wire(206, ct, Some(ContentRange(r, |data|)), Some(r.length), if isHead then "" else Slice(data, r))
    case Several(rs) =>
      var body := Multipart.Body(data, boundary, ct, rs);
      Wire(206, MultipartType(boundary), None, Some(|body|), if isHead then "" else body)
  }

  // ---------------------------------------------------------------------------
  // In memory
  // ---------------------------------------------------------------------------

  function SetBody(body: Http.Body, isHead: bool, bytes: Bytes): Http.Body {
    if isHead then body else Buffered(bytes)
  }

  /** What serveRange makes of the response for a selection. */
  function RangeReply(base: Reply, sel: Selection, isHead: bool, data: Bytes, boundary: string): Reply
    requires Fits(sel, |data|)
  {
    var h, size := base.headers.(acceptRanges := true), |data|;
    match sel
    case Whole => Reply(200, h.(contentLength := Some(size)), SetBody(base.body, isHead, data))
    case Refused => Reply(416, h.(contentRange := Some(Unsatisfied(size)), contentLength := None), Buffered(""))
    case Single(r) =>
      Reply(206, h.(contentRange := Some(ContentRange(r, size)), contentLength := Some(r.length)),
            SetBody(base.body, isHead, Slice(data, r)))
    case Several(rs) =>
      var body := Multipart.Body(data, boundary, h.contentType, rs);
      Reply(206, h.(contentType := MultipartType(boundary), contentLength := Some(|body|)),
            SetBody(base.body, isHead, body))
  }

  method ServeRange(resp: Response, req: Request, data: Bytes, boundary: string)
    requires |data| <= MAX_INT64 && req.range != ""
    modifies resp
    ensures var sel := Select(req.range, IfRangeAllows(req, old(resp.headers)), |data|);
            Fits(sel, |data|) && resp.Value() == RangeReply(old(resp.Value()), sel, req.isHead, data, boundary)
  {
    var ranges: RangeResult := Err(InvalidRange);
    if IfRangeAllows(req, resp.headers) {
      ranges := ParseRange(req.range, |data|);
    }
    SelectFits(req.range, IfRangeAllows(req, resp.headers), |data|);
    WriteRanges(resp, req.isHead, ranges, data, boundary);
  }

  method WriteRanges(resp: Response, isHead: bool, ranges: RangeResult, data: Bytes, boundary: string)
    requires Fits(SelectionOf(ranges), |data|)
    modifies resp
    ensures resp.Value() == RangeReply(old(resp.Value()), SelectionOf(ranges), isHead, data, boundary)
  {
    var size := |data|;
    resp.headers := resp.headers.(acceptRanges := true);
    if ranges == Err(UnsatisfiableRange) {
      resp.headers := resp.headers.(contentRange := Some(Unsatisfied(size)), contentLength := None);
      resp.status := 416;
      resp.body := Buffered("");
      return;
    }
    if ranges.Err? || |ranges.value| == 0 {
      resp.headers := resp.headers.(contentLength := Some(size));
      resp.status := 200;
      if !isHead {
        resp.body := Buffered(data);
      }
      return;
    }
    if |ranges.value| == 1 {
      var r := ranges.value[0];
      resp.status := 206;
      resp.headers := resp.headers.(contentRange := Some(ContentRange(r, size)), contentLength := Some(r.length));
      if !isHead {
        resp.body := Buffered(data[r.start..r.start + r.length]);
      }
      return;
    }
    var buf := WriteParts(data, boundary, resp.headers.contentType, ranges.value);
    resp.status := 206;
    resp.headers := resp.headers.(contentType := MultipartType(boundary), contentLength := Some(|buf|));
    if !isHead {
      resp.body := Buffered(buf);
    }
  }

  /** The texts written for one part make up its head. */
  lemma HeadWritten(boundary: string, ct: string, numbers: string)
    ensures ("\r\n--" + boundary + "\r\n") + ("Content-Type: " + ct + "\r\n")
            + ("Content-Range: bytes " + numbers + "\r\n\r\n")
            == DELIMITER + boundary + TypeText(ct) + (numbers + BLANK_LINE)
  {
    assert "\r\n" + "Content-Type: " == TYPE_FIELD;
    assert "\r\n" + "Content-Range: bytes " == RANGE_FIELD;
  }

  method WriteParts(data: Bytes, boundary: string, ct: string, ranges: seq<Range>) returns (buf: Bytes)
    requires AllInside(ranges, |data|)
    ensures buf == Multipart.Body(data, boundary, ct, ranges)
  {
    buf := "";
    for k := 0 to |ranges|
      invariant buf == PartsUpTo(data, boundary, ct, ranges, k)
    {
      InsideAt(ranges, |data|, k);
      buf := WritePart(buf, data, boundary, ct, ranges[k]);
    }
    buf := buf + ("\r\n--" + boundary + "--\r\n");
    assert "\r\n--" + boundary + "--\r\n" == Tail(boundary);
  }

  method WritePart(buf: Bytes, data: Bytes, boundary: string, ct: string, r: Range) returns (more: Bytes)
    requires Inside(r, |data|)
    ensures more == buf + PartHead(boundary, ct, r, |data|) + Slice(data, r)
  {
    HeadWritten(boundary, ct, Numbers(r, |data|));
    var head := "\r\n--" + boundary + "\r\n";
    head := head + ("Content-Type: " + ct + "\r\n");
    head := head + ("Content-Range: bytes " + Numbers(r, |data|) + "\r\n\r\n");
    more := buf + head + data[r.start..r.start + r.length];
  }

  /** The in-memory server gives the answer owed. */
  lemma InMemoryAnswers(base: Reply, sel: Selection, isHead: bool, data: Bytes, boundary: string)
    requires Fits(sel, |data|) && base.headers.contentRange.None?
    ensures OnWire(isHead, RangeReply(base, sel, isHead, data, boundary))
            == Answer(sel, isHead, data, base.headers.contentType, boundary)
  {
  }
}
