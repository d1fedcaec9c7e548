/**
 multipart/byteranges bodies (section 14.6 of RFC 9110): the printer shared by
 both range servers' texts, and an independent decoder that undoes it.
 */
module Multipart {
  import opened Wrappers
  import opened Text
  import opened ByteRanges

  // ---------------------------------------------------------------------------
  // Printing
  // ---------------------------------------------------------------------------

  predicate Inside(r: Range, size: nat) {
    0 <= r.start && 0 < r.length && r.start + r.length <= size
  }

  predicate AllInside(rs: seq<Range>, size: nat) {
    rs == [] || (Inside(rs[0], size) && AllInside(rs[1..], size))
  }

  lemma {:induction false} InsideAt(rs: seq<Range>, size: nat, k: nat)
    requires AllInside(rs, size) && k < |rs|
    ensures Inside(rs[k], size)
  {
    if k > 0 {
      InsideAt(rs[1..], size, k - 1);
    }
  }

  function Slice(data: Bytes, r: Range): (s: Bytes)
    requires Inside(r, |data|)
    ensures |s| == r.length
  {
    data[r.start..r.start + r.length]
  }

  const DELIMITER := "\r\n--"
  const CLOSE := "--\r\n"
  const BLANK_LINE := "\r\n\r\n"
  const TYPE_FIELD := "\r\nContent-Type: "
  const RANGE_FIELD := "\r\nContent-Range: bytes "

  /** The numbers of a Content-Range value. */
  function Numbers(r: Range, size: nat): string
    requires Inside(r, size)
  {
    Itoa(r.start) + "-" + Itoa(r.start + r.length - 1) + "/" + Itoa(size)
  }

  function ContentRange(r: Range, size: nat): string
    requires Inside(r, size)
  {
    "bytes " + Numbers(r, size)
  }

  function TypeText(ct: string): string {
    TYPE_FIELD + ct + RANGE_FIELD
  }

  function SpanText(r: Range, size: nat): string
    requires Inside(r, size)
  {
    Numbers(r, size) + BLANK_LINE
  }

  function PartHead(boundary: string, ct: string, r: Range, size: nat): string
    requires Inside(r, size)
  {
    DELIMITER + boundary + TypeText(ct) + SpanText(r, size)
  }

  function Tail(boundary: string): string {
    DELIMITER + boundary + CLOSE
  }

  /** The first `k` parts. */
  function PartsUpTo(data: Bytes, boundary: string, ct: string, rs: seq<Range>, k: nat): Bytes
    requires k <= |rs| && AllInside(rs, |data|)
  {
    if k == 0 then ""
    else
      InsideAt(rs, |data|, k - 1);
      PartsUpTo(data, boundary, ct, rs, k - 1) + PartHead(boundary, ct, rs[k - 1], |data|) + Slice(data, rs[k - 1])
  }

  function Body(data: Bytes, boundary: string, ct: string, rs: seq<Range>): Bytes
    requires AllInside(rs, |data|)
  {
    PartsUpTo(data, boundary, ct, rs, |rs|) + Tail(boundary)
  }

  /** The same body read from part `k` on. */
  function BodyFrom(data: Bytes, boundary: string, ct: string, rs: seq<Range>, k: nat): Bytes
    requires k <= |rs| && AllInside(rs, |data|)
    decreases |rs| - k
  {
    if k == |rs| then Tail(boundary)
    else
      InsideAt(rs, |data|, k);
      PartHead(boundary, ct, rs[k], |data|) + (Slice(data, rs[k]) + BodyFrom(data, boundary, ct, rs, k + 1))
  }

  /** Moving one part from the back of the body to its front changes nothing. */
  lemma BodyStep(data: Bytes, boundary: string, ct: string, rs: seq<Range>, k: nat)
    requires k < |rs| && AllInside(rs, |data|)
    ensures PartsUpTo(data, boundary, ct, rs, k) + BodyFrom(data, boundary, ct, rs, k)
            == PartsUpTo(data, boundary, ct, rs, k + 1) + BodyFrom(data, boundary, ct, rs, k + 1)
  {
    hide PartHead, Slice, Tail;
    InsideAt(rs, |data|, k);
    Assoc4(PartsUpTo(data, boundary, ct, rs, k), PartHead(boundary, ct, rs[k], |data|), Slice(data, rs[k]),
           BodyFrom(data, boundary, ct, rs, k + 1), PartsUpTo(data, boundary, ct, rs, k + 1),
           BodyFrom(data, boundary, ct, rs, k));
  }

  lemma {:induction false} BodySplit(data: Bytes, boundary: string, ct: string, rs: seq<Range>, k: nat)
    requires k <= |rs| && AllInside(rs, |data|)
    ensures PartsUpTo(data, boundary, ct, rs, k) + BodyFrom(data, boundary, ct, rs, k)
            == PartsUpTo(data, boundary, ct, rs, |rs|) + BodyFrom(data, boundary, ct, rs, |rs|)
    decreases |rs| - k
  {
    hide PartsUpTo, BodyFrom;
    if k < |rs| {
      BodySplit(data, boundary, ct, rs, k + 1);
      BodyStep(data, boundary, ct, rs, k);
    }
  }

  /** The body read from its first part on is the body printed. */
  lemma BodyFromStart(data: Bytes, boundary: string, ct: string, rs: seq<Range>)
    requires AllInside(rs, |data|)
    ensures BodyFrom(data, boundary, ct, rs, 0) == Body(data, boundary, ct, rs)
  {
    BodySplit(data, boundary, ct, rs, 0);
    assert "" + BodyFrom(data, boundary, ct, rs, 0) == BodyFrom(data, boundary, ct, rs, 0);
  }

  lemma Assoc4(a: Bytes, b: Bytes, c: Bytes, d: Bytes, left: Bytes, right: Bytes)
    requires left == (a + b) + c && right == b + (c + d)
    ensures left + d == a + right
  {
  }

  // ---------------------------------------------------------------------------
  // Decoding
  // ---------------------------------------------------------------------------

  datatype Part = Part(contentType: string, first: nat, last: nat, size: nat, bytes: Bytes)

  /** `x` stands at position `i` of `s`. */
  predicate At(s: Bytes, i: nat, x: Bytes) {
    i + |x| <= |s| && forall k | 0 <= k < |x| :: s[i + k] == x[k]
  }

  /** What was read, and the position after it. */
  datatype Read<+T> = Garbled | Got(value: T, next: nat)

  /** The end of the run of digits that starts at `i`. */
  function DigitsEnd(s: Bytes, i: nat): (k: nat)
    requires i <= |s|
    ensures i <= k <= |s|
    decreases |s| - i
  {
    if i < |s| && IsDigit(s[i]) then DigitsEnd(s, i + 1) else i
  }

  /** A number and the text that must follow it. */
  function TakeNumber(s: Bytes, i: nat, lit: string): (r: Read<nat>)
    requires i <= |s|
    ensures r.Got? ==> i < r.next <= |s|
  {
    var k := DigitsEnd(s, i);
    if k > i && DigitsFrom(s, i, k) && At(s, k, lit) then Got(ValueFrom(s, i, k), k + |lit|) else Garbled
  }

  datatype Span = Span(first: nat, last: nat, size: nat)

  function TakeSize(s: Bytes, first: nat, last: nat, i: nat): (r: Read<Span>)
    requires i <= |s|
    ensures r.Got? ==> i < r.next <= |s|
  {
    match TakeNumber(s, i, "\r\n\r\n")
    case Garbled => Garbled
    case Got(size, k) => Got(Span(first, last, size), k)
  }

  function TakeLast(s: Bytes, first: nat, i: nat): (r: Read<Span>)
    requires i <= |s|
    ensures r.Got? ==> i < r.next <= |s|
  {
    match TakeNumber(s, i, "/")
    case Garbled => Garbled
    case Got(last, k) => TakeSize(s, first, last, k)
  }

  /** The three numbers of a Content-Range value, up to the end of the part's head. */
  function TakeSpan(s: Bytes, i: nat): (r: Read<Span>)
    requires i <= |s|
    ensures r.Got? ==> i < r.next <= |s|
  {
    match TakeNumber(s, i, "-")
    case Garbled => Garbled
    case Got(first, k) => TakeLast(s, first, k)
  }

  /** The media type, up to the next carriage return. */
  function TakeType(s: Bytes, i: nat): (r: Read<string>)
    ensures r.Got? ==> i < r.next <= |s|
  {
    if !At(s, i, "\r\nContent-Type: ") then Garbled
    else
      var j := i + 16;
      var k := IndexFrom(s, '\r', j);
      if k >= 0 && At(s, k, "\r\nContent-Range: bytes ") then Got(s[j..k], k + 23) else Garbled
  }

  /** The bytes of a part are as many as its Content-Range says. */
  function TakeBytes(s: Bytes, ct: string, span: Span, i: nat): (r: Read<Part>)
    ensures r.Got? ==> i < r.next <= |s|
  {
    var end := i + span.last + 1 - span.first;
    if span.first <= span.last && end <= |s| then
      Got(Part(ct, span.first, span.last, span.size, s[i..end]), end)
    else Garbled
  }

  /** One part, from the line after its boundary on. */
  function TakePart(s: Bytes, i: nat): (r: Read<Part>)
    ensures r.Got? ==> i < r.next <= |s|
  {
    match TakeType(s, i)
    case Garbled => Garbled
    case Got(ct, k) =>
      match TakeSpan(s, k)
      case Garbled => Garbled
      case Got(span, j) => TakeBytes(s, ct, span, j)
  }

  /** The parts of the body from position `i` on. */
  function Decode(boundary: string, s: Bytes, i: nat): Option<seq<Part>>
    requires i <= |s|
    decreases |s| - i
  {
    if !At(s, i, "\r\n--" + boundary) then None
    else
      var j := i + |boundary| + 4;
      if At(s, j, "--\r\n") then if j + 4 == |s| then Some([]) else None
      else
        match TakePart(s, j)
        case Garbled => None
        case Got(part, k) => Prepend(part, Decode(boundary, s, k))
  }

  function Prepend(part: Part, parts: Option<seq<Part>>): Option<seq<Part>> {
    match parts
    case None => None
    case Some(ps) => Some([part] + ps)
  }

  // ---------------------------------------------------------------------------
  // Decoding undoes printing
  // ---------------------------------------------------------------------------

  lemma AtSplit(s: Bytes, i: nat, a: Bytes, b: Bytes)
    requires At(s, i, a + b)
    ensures At(s, i, a) && At(s, i + |a|, b)
  {
    forall k | 0 <= k < |a| ensures s[i + k] == a[k] {
      assert (a + b)[k] == a[k];
    }
    forall k | 0 <= k < |b| ensures s[i + |a| + k] == b[k] {
      assert (a + b)[|a| + k] == b[k];
    }
  }

  /** A run of digits ends where something else stands. */
  lemma {:induction false} DigitsEndAt(s: Bytes, i: nat, j: nat, k: nat)
    requires i <= j <= k < |s| && DigitsFrom(s, i, k) && !IsDigit(s[k])
    ensures DigitsEnd(s, j) == k
    decreases k - j
  {
    if j < k {
      DigitAt(s, i, k, j);
      DigitsEndAt(s, i, j + 1, k);
    }
  }

  lemma NumberPrinted(s: Bytes, i: nat, n: nat, lit: string)
    requires At(s, i, Itoa(n)) && At(s, i + |Itoa(n)|, lit) && lit != "" && !IsDigit(lit[0])
    ensures TakeNumber(s, i, lit) == Got(n, i + |Itoa(n)| + |lit|)
  {
    var k := i + |Itoa(n)|;
    DigitsValueItoa(n);
    DigitsShift(s, i, Itoa(n), |Itoa(n)|);
    assert s[k + 0] == lit[0];
    DigitsEndAt(s, i, i, k);
  }

  lemma SizePrinted(s: Bytes, i: nat, first: nat, last: nat, size: nat)
    requires At(s, i, Itoa(size)) && At(s, i + |Itoa(size)|, BLANK_LINE)
    ensures TakeSize(s, first, last, i) == Got(Span(first, last, size), i + |Itoa(size)| + 4)
  {
    NumberPrinted(s, i, size, BLANK_LINE);
  }

  lemma LastPrinted(s: Bytes, i: nat, first: nat, last: nat)
    requires At(s, i, Itoa(last)) && At(s, i + |Itoa(last)|, "/")
    requires i + |Itoa(last)| + 1 <= |s|
    ensures TakeLast(s, first, i) == TakeSize(s, first, last, i + |Itoa(last)| + 1)
  {
    NumberPrinted(s, i, last, "/");
  }

  lemma FirstPrinted(s: Bytes, i: nat, first: nat)
    requires At(s, i, Itoa(first)) && At(s, i + |Itoa(first)|, "-")
    requires i + |Itoa(first)| + 1 <= |s|
    ensures TakeSpan(s, i) == TakeLast(s, first, i + |Itoa(first)| + 1)
  {
    NumberPrinted(s, i, first, "-");
  }

  lemma AtSplit6(s: Bytes, i: nat, a: Bytes, x: Bytes, b: Bytes, y: Bytes, c: Bytes, z: Bytes)
    requires At(s, i, ((((a + x) + b) + y) + c) + z)
    ensures At(s, i, a) && At(s, i + |a|, x)
    ensures At(s, i + |a| + |x|, b) && At(s, i + |a| + |x| + |b|, y)
    ensures At(s, i + |a| + |x| + |b| + |y|, c) && At(s, i + |a| + |x| + |b| + |y| + |c|, z)
  {
    AtSplit(s, i, (((a + x) + b) + y) + c, z);
    AtSplit(s, i, ((a + x) + b) + y, c);
    AtSplit(s, i, (a + x) + b, y);
    AtSplit(s, i, a + x, b);
    AtSplit(s, i, a, x);
  }

  lemma LastAt(s: Bytes, i: nat, first: nat, last: nat, k: nat, size: nat)
    requires k == i + |Itoa(last)| + 1
    requires At(s, i, Itoa(last)) && At(s, k - 1, "/") && At(s, k, Itoa(size)) && At(s, k + |Itoa(size)|, BLANK_LINE)
    ensures TakeLast(s, first, i) == Got(Span(first, last, size), k + |Itoa(size)| + 4)
  {
    LastPrinted(s, i, first, last);
    SizePrinted(s, k, first, last, size);
  }

  lemma SpanAt(s: Bytes, i: nat, first: nat, j: nat, last: nat, k: nat, size: nat)
    requires j == i + |Itoa(first)| + 1 && k == j + |Itoa(last)| + 1
    requires At(s, i, Itoa(first)) && At(s, j - 1, "-") && At(s, j, Itoa(last)) && At(s, k - 1, "/")
    requires At(s, k, Itoa(size)) && At(s, k + |Itoa(size)|, BLANK_LINE)
    ensures TakeSpan(s, i) == Got(Span(first, last, size), k + |Itoa(size)| + 4)
  {
    FirstPrinted(s, i, first);
    LastAt(s, j, first, last, k, size);
  }

  lemma SpanPrinted(s: Bytes, i: nat, r: Range, size: nat)
    requires Inside(r, size) && At(s, i, SpanText(r, size))
    ensures TakeSpan(s, i) == Got(Span(r.start, r.start + r.length - 1, size), i + |SpanText(r, size)|)
  {
    var last := r.start + r.length - 1;
    var a, b := Itoa(r.start), Itoa(last);
    AtSplit6(s, i, a, "-", b, "/", Itoa(size), BLANK_LINE);
    SpanAt(s, i, r.start, i + |a| + 1, last, i + |a| + |b| + 2, size);
  }

  lemma TypePrinted(s: Bytes, i: nat, ct: string)
    requires Free(ct, '\r') && At(s, i, TypeText(ct))
    ensures TakeType(s, i) == Got(ct, i + |TypeText(ct)|)
  {
    AtSplit(s, i, TYPE_FIELD + ct, RANGE_FIELD);
    AtSplit(s, i, TYPE_FIELD, ct);
    var j := i + |TYPE_FIELD|;
    forall m | j <= m < j + |ct| ensures s[m] != '\r' {
      assert s[j + (m - j)] == ct[m - j];
    }
    assert s[j + |ct| + 0] == RANGE_FIELD[0];
    assert s[j..j + |ct|] == ct;
    IndexFromAt(s, '\r', j, j + |ct|);
  }

  /** The part that prints range `r` of a file. */
  function PartOf(ct: string, r: Range, size: nat, bytes: Bytes): Part
    requires Inside(r, size)
  {
    Part(ct, r.start, r.start + r.length - 1, size, bytes)
  }

  lemma BytesPrinted(s: Bytes, ct: string, r: Range, size: nat, i: nat, bytes: Bytes)
    requires Inside(r, size) && |bytes| == r.length && At(s, i, bytes)
    ensures TakeBytes(s, ct, Span(r.start, r.start + r.length - 1, size), i)
            == Got(PartOf(ct, r, size, bytes), i + |bytes|)
  {
    assert s[i..i + |bytes|] == bytes;
  }

  /** What the decoder should find: the ranges and their slices of the file, in order. */
  function PartsFrom(data: Bytes, ct: string, rs: seq<Range>, k: nat): seq<Part>
    requires k <= |rs| && AllInside(rs, |data|)
    decreases |rs| - k
  {
    if k == |rs| then []
    else
      InsideAt(rs, |data|, k);
      [PartOf(ct, rs[k], |data|, Slice(data, rs[k]))] + PartsFrom(data, ct, rs, k + 1)
  }

  /** The text from part `k` on stands at the end of `s`, at position `i`. */
  predicate Ends(s: Bytes, i: nat, text: Bytes) {
    At(s, i, text) && i + |text| == |s|
  }

  lemma TailDecodes(boundary: string, s: Bytes, i: nat)
    requires Ends(s, i, Tail(boundary))
    ensures Decode(boundary, s, i) == Some([])
  {
    AtSplit(s, i, DELIMITER + boundary, CLOSE);
  }

  lemma PartPrinted(s: Bytes, i: nat, ct: string, r: Range, size: nat, bytes: Bytes)
    requires Free(ct, '\r') && Inside(r, size) && |bytes| == r.length
    requires At(s, i, TypeText(ct)) && At(s, i + |TypeText(ct)|, SpanText(r, size))
    requires At(s, i + |TypeText(ct)| + |SpanText(r, size)|, bytes)
    ensures TakePart(s, i) == Got(PartOf(ct, r, size, bytes), i + |TypeText(ct)| + |SpanText(r, size)| + |bytes|)
  {
    hide TakeType, TakeSpan, TakeBytes, TypeText, SpanText, At;
    TypePrinted(s, i, ct);
    SpanPrinted(s, i + |TypeText(ct)|, r, size);
    BytesPrinted(s, ct, r, size, i + |TypeText(ct)| + |SpanText(r, size)|, bytes);
  }

  lemma DecodeStep(boundary: string, s: Bytes, i: nat, j: nat, part: Part, k: nat)
    requires At(s, i, DELIMITER + boundary) && j == i + |DELIMITER + boundary| && !At(s, j, CLOSE)
    requires TakePart(s, j) == Got(part, k)
    ensures k <= |s| && Decode(boundary, s, i) == Prepend(part, Decode(boundary, s, k))
  {
    hide TakePart;
  }

  lemma AtSplit5(s: Bytes, i: nat, d: Bytes, a: Bytes, b: Bytes, bytes: Bytes, more: Bytes)
    requires Ends(s, i, ((d + a) + b) + (bytes + more))
    ensures At(s, i, d) && At(s, i + |d|, a) && At(s, i + |d| + |a|, b) && At(s, i + |d| + |a| + |b|, bytes)
    ensures Ends(s, i + |d| + |a| + |b| + |bytes|, more)
  {
    AtSplit(s, i, (d + a) + b, bytes + more);
    AtSplit(s, i + |d| + |a| + |b|, bytes, more);
    AtSplit(s, i, d + a, b);
    AtSplit(s, i, d, a);
  }

  lemma PartDecodes(boundary: string, s: Bytes, i: nat, ct: string, r: Range, size: nat, bytes: Bytes, more: Bytes)
    returns (k: nat)
    requires Free(ct, '\r') && Inside(r, size) && |bytes| == r.length
    requires Ends(s, i, PartHead(boundary, ct, r, size) + (bytes + more))
    ensures Ends(s, k, more)
    ensures Decode(boundary, s, i) == Prepend(PartOf(ct, r, size, bytes), Decode(boundary, s, k))
  {
    hide Decode, TakePart, PartHead, Ends;
    var j;
    j, k := PartStands(boundary, s, i, ct, r, size, bytes, more);
    DecodeStep(boundary, s, i, j, PartOf(ct, r, size, bytes), k);
  }

  /** The text of one part, taken apart. */
  lemma PartStands(boundary: string, s: Bytes, i: nat, ct: string, r: Range, size: nat, bytes: Bytes, more: Bytes)
    returns (j: nat, k: nat)
    requires Free(ct, '\r') && Inside(r, size) && |bytes| == r.length
    requires Ends(s, i, PartHead(boundary, ct, r, size) + (bytes + more))
    ensures At(s, i, DELIMITER + boundary) && j == i + |DELIMITER + boundary| && !At(s, j, CLOSE)
    ensures TakePart(s, j) == Got(PartOf(ct, r, size, bytes), k) && Ends(s, k, more)
  {
    hide TakePart, TypeText, SpanText, At;
    var d, a, b := DELIMITER + boundary, TypeText(ct), SpanText(r, size);
    AtSplit5(s, i, d, a, b, bytes, more);
    j := i + |d|;
    k := j + |a| + |b| + |bytes|;
    PartPrinted(s, j, ct, r, size, bytes);
    NotClosed(s, j, ct);
  }

  lemma NotClosed(s: Bytes, j: nat, ct: string)
    requires At(s, j, TypeText(ct))
    ensures !At(s, j, CLOSE)
  {
    assert TypeText(ct)[0] == '\r' && CLOSE[0] == '-';
    assert s[j + 0] == TypeText(ct)[0];
  }

  /** The decoder takes part `k` off the text from there on. */
  lemma PartTaken(data: Bytes, boundary: string, ct: string, rs: seq<Range>, k: nat, s: Bytes, i: nat) returns (j: nat)
    requires k < |rs| && AllInside(rs, |data|) && Free(ct, '\r') && Inside(rs[k], |data|)
    requires Ends(s, i, BodyFrom(data, boundary, ct, rs, k))
    ensures Ends(s, j, BodyFrom(data, boundary, ct, rs, k + 1))
    ensures Decode(boundary, s, i)
            == Prepend(PartOf(ct, rs[k], |data|, Slice(data, rs[k])), Decode(boundary, s, j))
  {
    j := PartDecodes(boundary, s, i, ct, rs[k], |data|, Slice(data, rs[k]), BodyFrom(data, boundary, ct, rs, k + 1));
  }

  lemma PartsCons(data: Bytes, ct: string, rs: seq<Range>, k: nat)
    requires k < |rs| && AllInside(rs, |data|) && Inside(rs[k], |data|)
    ensures Some(PartsFrom(data, ct, rs, k))
            == Prepend(PartOf(ct, rs[k], |data|, Slice(data, rs[k])), Some(PartsFrom(data, ct, rs, k + 1)))
  {
  }

  lemma RoundTripEnd(data: Bytes, boundary: string, ct: string, rs: seq<Range>, s: Bytes, i: nat)
    requires AllInside(rs, |data|) && Ends(s, i, BodyFrom(data, boundary, ct, rs, |rs|))
    ensures Decode(boundary, s, i) == Some(PartsFrom(data, ct, rs, |rs|))
  {
    TailDecodes(boundary, s, i);
  }

  lemma {:induction false} RoundTripFrom(data: Bytes, boundary: string, ct: string, rs: seq<Range>, k: nat,
                                         s: Bytes, i: nat)
    requires k <= |rs| && AllInside(rs, |data|) && Free(ct, '\r')
    requires Ends(s, i, BodyFrom(data, boundary, ct, rs, k))
    ensures Decode(boundary, s, i) == Some(PartsFrom(data, ct, rs, k))
    decreases |rs| - k
  {
    hide BodyFrom, PartsFrom, Decode;
    if k == |rs| {
      RoundTripEnd(data, boundary, ct, rs, s, i);
    } else {
      InsideAt(rs, |data|, k);
      var j := PartTaken(data, boundary, ct, rs, k, s, i);
      RoundTripFrom(data, boundary, ct, rs, k + 1, s, j);
      PartsCons(data, ct, rs, k);
    }
  }

  /** From every multipart body the decoder recovers exactly the ranges and their slices. */
  lemma RoundTrip(data: Bytes, boundary: string, ct: string, rs: seq<Range>)
    requires AllInside(rs, |data|) && Free(ct, '\r')
    ensures Decode(boundary, Body(data, boundary, ct, rs), 0) == Some(PartsFrom(data, ct, rs, 0))
  {
    var body := Body(data, boundary, ct, rs);
    BodyFromStart(data, boundary, ct, rs);
    RoundTripFrom(data, boundary, ct, rs, 0, body, 0);
  }

  // ---------------------------------------------------------------------------
  // Lengths
  // ---------------------------------------------------------------------------

  /** The length announced before streaming, after the first `k` parts. */
  function LengthUpTo(size: nat, boundary: string, ct: string, rs: seq<Range>, k: nat): int
    requires k <= |rs| && AllInside(rs, size)
  {
    if k == 0 then 0
    else
      InsideAt(rs, size, k - 1);
      LengthUpTo(size, boundary, ct, rs, k - 1) + |PartHead(boundary, ct, rs[k - 1], size)| + rs[k - 1].length
  }

  lemma {:induction false} LengthIsExact(data: Bytes, boundary: string, ct: string, rs: seq<Range>, k: nat)
    requires k <= |rs| && AllInside(rs, |data|)
    ensures |PartsUpTo(data, boundary, ct, rs, k)| == LengthUpTo(|data|, boundary, ct, rs, k)
  {
    hide PartHead, Slice;
    if k > 0 {
      LengthIsExact(data, boundary, ct, rs, k - 1);
    }
  }

  lemma {:induction false} ItoaMonotone(a: nat, b: nat)
    requires a <= b
    ensures |Itoa(a)| <= |Itoa(b)|
  {
    if a >= 10 {
      ItoaMonotone(a / 10, b / 10);
    }
  }

  /** The longest head a part of a file of `size` bytes can have. */
  function HeadLimit(size: nat, boundary: string, ct: string): nat {
    |boundary| + |ct| + 3 * |Itoa(size)| + 50
  }

  lemma HeadWithinLimit(boundary: string, ct: string, r: Range, size: nat)
    requires Inside(r, size)
    ensures |PartHead(boundary, ct, r, size)| <= HeadLimit(size, boundary, ct)
  {
    ItoaMonotone(r.start, size);
    ItoaMonotone(r.start + r.length - 1, size);
  }

  lemma {:induction false} LengthWithinLimit(size: nat, boundary: string, ct: string, rs: seq<Range>, k: nat)
    requires k <= |rs| && AllInside(rs, size)
    ensures LengthUpTo(size, boundary, ct, rs, k) <= SumUpTo(rs, k) + k * HeadLimit(size, boundary, ct)
  {
    if k > 0 {
      LengthWithinLimit(size, boundary, ct, rs, k - 1);
      InsideAt(rs, size, k - 1);
      HeadWithinLimit(boundary, ct, rs[k - 1], size);
      var limit := HeadLimit(size, boundary, ct);
      assert k * limit == (k - 1) * limit + limit;
    }
  }

  function SumUpTo(rs: seq<Range>, k: nat): int
    requires k <= |rs|
  {
    if k == 0 then 0 else SumUpTo(rs, k - 1) + rs[k - 1].length
  }

  lemma {:induction false} SumUpToIsSum(rs: seq<Range>, k: nat)
    requires k <= |rs|
    ensures SumUpTo(rs, k) == Sum(rs[..k])
  {
    if k > 0 {
      SumUpToIsSum(rs, k - 1);
      assert rs[..k] == rs[..k - 1] + [rs[k - 1]];
      SumAppend(rs[..k - 1], [rs[k - 1]]);
      assert [rs[k - 1]][1..] == [];
    }
  }

  /**
   A body for accepted ranges carries at most the file's size in file bytes, plus
   at most sixteen heads and one tail.
   */
  lemma BodyWithinLimit(data: Bytes, boundary: string, ct: string, rs: seq<Range>)
    requires AllInside(rs, |data|) && |rs| <= MAX_RANGES && Sum(rs) <= |data|
    ensures |Body(data, boundary, ct, rs)| == LengthUpTo(|data|, boundary, ct, rs, |rs|) + |Tail(boundary)|
    ensures |Body(data, boundary, ct, rs)| <= |data| + MAX_RANGES * HeadLimit(|data|, boundary, ct) + |Tail(boundary)|
  {
    LengthIsExact(data, boundary, ct, rs, |rs|);
    LengthWithinLimit(|data|, boundary, ct, rs, |rs|);
    SumUpToIsSum(rs, |rs|);
    assert rs[..|rs|] == rs;
    MulMonotone(|rs|, MAX_RANGES, HeadLimit(|data|, boundary, ct));
  }

  /**
   The bound by the file size does not hold for multipart bodies: a file of two
   bytes or more, asked for as its first byte and the rest, makes a longer body.
   */
  lemma BodyExceedsFile(data: Bytes, boundary: string, ct: string)
    requires 2 <= |data| <= MAX_INT64
    ensures var rs := [Range(0, 1), Range(1, |data| - 1)];
            && Parsed("bytes=0-0,1-", |data|) == Ok(rs)
            && AllInside(rs, |data|) && |Body(data, boundary, ct, rs)| > |data|
  {
    HalvesParsed(|data|);
    BodyOfHalves(data, boundary, ct, Range(0, 1), Range(1, |data| - 1));
  }

  lemma BodyOfHalves(data: Bytes, boundary: string, ct: string, a: Range, b: Range)
    requires Inside(a, |data|) && Inside(b, |data|) && a.length + b.length == |data|
    ensures AllInside([a, b], |data|) && |Body(data, boundary, ct, [a, b])| > |data|
  {
    var rs := [a, b];
    assert rs[1..] == [b] && [b][1..] == [];
    assert AllInside([b][1..], |data|) && AllInside([b], |data|);
    LengthIsExact(data, boundary, ct, rs, 2);
    LengthAtLeast(|data|, boundary, ct, rs, 2);
    assert SumUpTo(rs, 1) == SumUpTo(rs, 0) + a.length && SumUpTo(rs, 0) == 0;
  }

  lemma {:induction false} LengthAtLeast(size: nat, boundary: string, ct: string, rs: seq<Range>, k: nat)
    requires k <= |rs| && AllInside(rs, size)
    ensures LengthUpTo(size, boundary, ct, rs, k) >= SumUpTo(rs, k)
  {
    if k > 0 {
      LengthAtLeast(size, boundary, ct, rs, k - 1);
    }
  }

  lemma MulMonotone(a: nat, b: nat, c: nat)
    requires a <= b
    ensures a * c <= b * c
  {
  }
}
