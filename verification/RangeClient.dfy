/**
 What a client reads off the answer to a Range request, by a decoder that knows
 nothing of the printer: from the Content-Range of a single range, or from the
 parts of a multipart body with the boundary that its media type names.
 */
module RangeClient {
  import opened Wrappers
  import opened Text
  import opened ByteRanges
  import opened Multipart
  import opened Http
  import opened RangeServing
  import opened RangeHeader

  const MULTIPART := "multipart/byteranges; boundary="

  /** The value of a single range's Content-Range, to its end. */
  function ReadRange(value: string): Option<Span> {
    if !At(value, 0, "bytes ") then None
    else
      match TakeSpan(value + "\r\n\r\n", 6)
      case Garbled => None
      case Got(span, k) => if k == |value| + 4 then Some(span) else None
  }

  /** The value of a refusal's Content-Range: the size of the file. */
  function ReadRefusal(value: string): Option<nat> {
    if !At(value, 0, "bytes */") then None
    else
      match TakeNumber(value + "\r\n\r\n", 8, "\r\n\r\n")
      case Garbled => None
      case Got(size, k) => if k == |value| + 4 then Some(size) else None
  }

  /** The parts of the file that an answer carries. */
  function Received(w: Wire): Option<seq<Part>> {
    match w.contentRange
    case Some(value) =>
      var span := ReadRange(value);
      if span.None? then None
      else Some([Part(w.contentType, span.value.first, span.value.last, span.value.size, w.bytes)])
    case None =>
      if HasPrefix(w.contentType, MULTIPART) then Decode(w.contentType[|MULTIPART|..], w.bytes, 0) else None
  }

  /** The parts are the ranges of the file, each with the positions of its first and last byte. */
  predicate Delivers(data: Bytes, ct: string, ranges: seq<Range>, parts: seq<Part>) {
    && |parts| == |ranges|
    && forall k | 0 <= k < |parts| ::
         && parts[k].first == ranges[k].start && parts[k].last == ranges[k].start + ranges[k].length - 1
         && parts[k].first <= parts[k].last < |data| && parts[k].size == |data| && parts[k].contentType == ct
         && parts[k].bytes == data[parts[k].first..parts[k].last + 1]
  }

  // ---------------------------------------------------------------------------
  // Reading what is printed
  // ---------------------------------------------------------------------------

  lemma AtJoin(s: Bytes, i: nat, a: Bytes, b: Bytes)
    requires At(s, i, a) && At(s, i + |a|, b)
    ensures At(s, i, a + b)
  {
    forall k | 0 <= k < |a + b| ensures s[i + k] == (a + b)[k] {
      if k >= |a| {
        assert s[i + |a| + (k - |a|)] == b[k - |a|];
      }
    }
  }

  lemma RangeIsRead(r: Range, size: nat)
    requires Inside(r, size)
    ensures ReadRange(ContentRange(r, size)) == Some(Span(r.start, r.start + r.length - 1, size))
  {
    var value := ContentRange(r, size);
    var s := value + "\r\n\r\n";
    assert s == "bytes " + SpanText(r, size);
    assert At(s, 6, SpanText(r, size)) && At(value, 0, "bytes ");
    SpanPrinted(s, 6, r, size);
  }

  lemma RefusalIsRead(size: nat)
    ensures ReadRefusal(Unsatisfied(size)) == Some(size)
  {
    var value := Unsatisfied(size);
    var s := value + "\r\n\r\n";
    assert At(s, 8, Itoa(size)) && At(s, 8 + |Itoa(size)|, "\r\n\r\n") && At(value, 0, "bytes */");
    NumberPrinted(s, 8, size, "\r\n\r\n");
  }

  /** One part of what the decoder finds. */
  lemma {:induction false} PartAt(data: Bytes, ct: string, rs: seq<Range>, k: nat, j: nat)
    requires k <= j < |rs| && AllInside(rs, |data|)
    ensures Inside(rs[j], |data|) && |PartsFrom(data, ct, rs, k)| == |rs| - k
    ensures PartsFrom(data, ct, rs, k)[j - k] == PartOf(ct, rs[j], |data|, Slice(data, rs[j]))
    decreases |rs| - k
  {
    InsideAt(rs, |data|, k);
    InsideAt(rs, |data|, j);
    if k < j {
      PartAt(data, ct, rs, k + 1, j);
    } else {
      PartsLength(data, ct, rs, k + 1);
    }
  }

  lemma {:induction false} PartsLength(data: Bytes, ct: string, rs: seq<Range>, k: nat)
    requires k <= |rs| && AllInside(rs, |data|)
    ensures |PartsFrom(data, ct, rs, k)| == |rs| - k
    decreases |rs| - k
  {
    if k < |rs| {
      InsideAt(rs, |data|, k);
      PartsLength(data, ct, rs, k + 1);
    }
  }

  lemma PartsAre(data: Bytes, ct: string, rs: seq<Range>)
    requires AllInside(rs, |data|)
    ensures Delivers(data, ct, rs, PartsFrom(data, ct, rs, 0))
  {
    hide PartsFrom;
    var parts := PartsFrom(data, ct, rs, 0);
    PartsLength(data, ct, rs, 0);
    forall k | 0 <= k < |parts|
      ensures Inside(rs[k], |data|) && parts[k] == PartOf(ct, rs[k], |data|, Slice(data, rs[k]))
    {
      PartAt(data, ct, rs, 0, k);
    }
  }

  // ---------------------------------------------------------------------------
  // The answer of both servers
  // ---------------------------------------------------------------------------

  /** A 206 carries what was selected, and says so; its length is that of its bytes. */
  lemma AnswerIsRead(sel: Selection, data: Bytes, ct: string, boundary: string)
    requires Fits(sel, |data|) && RangesOf(sel) != [] && Free(ct, '\r')
    ensures var w := Answer(sel, false, data, ct, boundary);
            && w.status == 206 && w.length == Some(|w.bytes|) && Received(w).Some?
            && (Delivers(data, ct, RangesOf(sel), Received(w).value))
  {
    match sel
    case Single(r) =>
      RangeIsRead(r, |data|);
    case Several(rs) =>
      RoundTrip(data, boundary, ct, rs);
      PartsAre(data, ct, rs);
      assert MultipartType(boundary)[|MULTIPART|..] == boundary;
  }

  /** A HEAD gets the same positions, and their distance as the length. */
  lemma HeadIsRead(r: Range, data: Bytes, ct: string, boundary: string)
    requires Inside(r, |data|)
    ensures var w := Answer(Single(r), true, data, ct, boundary);
            && w.status == 206 && w.bytes == "" && w.contentRange.Some? && ReadRange(w.contentRange.value).Some?
            && var span := ReadRange(w.contentRange.value).value;
               span == Span(r.start, r.start + r.length - 1, |data|) && w.length == Some(span.last - span.first + 1)
  {
    RangeIsRead(r, |data|);
  }

  /** A refusal names the size of the file, and without ranges the file itself is sent. */
  lemma OtherwiseRead(data: Bytes, ct: string, boundary: string)
    ensures var w := Answer(Refused, false, data, ct, boundary);
            && w.status == 416 && w.bytes == "" && w.contentRange.Some?
            && ReadRefusal(w.contentRange.value) == Some(|data|)
    ensures var w := Answer(Whole, false, data, ct, boundary);
            && w.status == 200 && w.bytes == data && w.contentRange.None? && w.contentType == ct
            && w.length == Some(|data|)
  {
    RefusalIsRead(|data|);
  }

  /** Served from memory. */
  lemma InMemoryDelivers(base: Reply, sel: Selection, data: Bytes, boundary: string)
    requires Fits(sel, |data|) && RangesOf(sel) != [] && base.headers.contentRange.None?
    requires Free(base.headers.contentType, '\r')
    ensures var r := RangeReply(base, sel, false, data, boundary);
            && r.status == 206 && Received(OnWire(false, r)).Some?
            && Delivers(data, base.headers.contentType, RangesOf(sel), Received(OnWire(false, r)).value)
  {
    InMemoryAnswers(base, sel, false, data, boundary);
    AnswerIsRead(sel, data, base.headers.contentType, boundary);
  }

  lemma SingleIsRead(base: Reply, r: Range, data: Bytes, boundary: string)
    requires Inside(r, |data|) && base.headers.contentRange.None?
    ensures Received(OnWire(false, RangeReply(base, Single(r), false, data, boundary)))
            == Some([Part(base.headers.contentType, r.start, r.start + r.length - 1, |data|,
                          data[r.start..r.start + r.length])])
  {
    hide RangeReply, ReadRange, ContentRange;
    InMemoryAnswers(base, Single(r), false, data, boundary);
    RangeIsRead(r, |data|);
  }

  /**
   A request for the bytes from `first` to `last` of a file in memory gets exactly
   these, under exactly these positions.
   */
  lemma AskedIsDelivered(base: Reply, first: nat, last: nat, data: Bytes, boundary: string)
    requires first <= last < |data| <= MAX_INT64 && base.headers.contentRange.None?
    requires Free(base.headers.contentType, '\r')
    ensures var sel := Select("bytes=" + Itoa(first) + "-" + Itoa(last), true, |data|);
            && Fits(sel, |data|)
            && Received(OnWire(false, RangeReply(base, sel, false, data, boundary)))
               == Some([Part(base.headers.contentType, first, last, |data|, data[first..last + 1])])
  {
    hide Parsed, RangeReply, Received;
    var header := "bytes=" + Itoa(first) + "-" + Itoa(last);
    OneRange(first, last, 1, |data|);
    SelectFits(header, true, |data|);
    assert Select(header, true, |data|) == Single(Range(first, last - first + 1));
    SingleIsRead(base, Range(first, last - first + 1), data, boundary);
  }
}
