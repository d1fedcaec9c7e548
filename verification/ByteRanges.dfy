/**
 The Range header parser (parseRange in internal/handler/file.go) against a
 declarative reading of sections 14.1.2 and 14.2 of RFC 9110.
 */
module ByteRanges {
  import opened Wrappers
  import opened Text

  const MAX_RANGES := 16

  datatype Range = Range(start: int, length: int)

  /** Every error but the last one makes the callers ignore the header. */
  datatype RangeError = InvalidRange | TooManyRanges | RangesExceedSize | UnsatisfiableRange

  type RangeResult = Result<seq<Range>, RangeError>

  /** int64 addition. */
  function Add64(a: int, b: int): int {
    var s := a + b;
    if s > MAX_INT64 then s - 0x1_0000_0000_0000_0000
    else if s < -MAX_INT64 - 1 then s + 0x1_0000_0000_0000_0000
    else s
  }

  // ---------------------------------------------------------------------------
  // The declarative side
  // ---------------------------------------------------------------------------

  /** A range-spec: last n bytes, from a position on, or between two positions. */
  datatype ByteSpec = Suffix(n: nat) | From(first: nat) | Between(first: nat, last: nat)

  /** The positions a range-spec asks for in a representation of `size` bytes. */
  predicate Covers(spec: ByteSpec, size: nat, i: int) {
    match spec
    case Suffix(n) => i >= size - n
    case From(first) => i >= first
    case Between(first, last) => first <= i <= last
  }

  /** The syntax of one range-spec, as the code reads it; None when it is malformed. */
  function ReadSpec(ra: string): Option<ByteSpec> {
    var i := IndexByte(ra, '-');
    if i < 0 then None else ReadBounds(TrimSpace(ra[..i]), TrimSpace(ra[i + 1..]))
  }

  function ReadBounds(start: string, end: string): Option<ByteSpec> {
    var a, b := ParseInt64(start), ParseInt64(end);
    if start == "" then
      if b.Some? && b.value >= 0 then Some(Suffix(b.value)) else None
    else if a.None? || a.value < 0 then None
    else if end == "" then Some(From(a.value))
    else if b.Some? && a.value <= b.value then Some(Between(a.value, b.value))
    else None
  }

  /** A range-spec cut down to the representation; None when it is unsatisfiable. */
  function Clip(spec: ByteSpec, size: nat): (r: Option<Range>)
    ensures r.Some? ==> 0 <= r.value.start && 0 < r.value.length && r.value.start + r.value.length <= size
  {
    match spec
    case Suffix(n) =>
      var k := if n < size then n else size;
      if k == 0 then None else Some(Range(size - k, k))
    case From(first) => if first < size then Some(Range(first, size - first)) else None
    case Between(first, last) =>
      var end := if last < size then last + 1 else size;
      if first < end then Some(Range(first, end - first)) else None
  }

  /** Clipping is intersection with the representation's positions. */
  lemma ClipIsIntersection(spec: ByteSpec, size: nat, i: int)
    ensures 0 <= i < size && Covers(spec, size, i)
            <==> Clip(spec, size).Some?
                 && Clip(spec, size).value.start <= i < Clip(spec, size).value.start + Clip(spec, size).value.length
  {
  }

  /** One piece of the comma-separated list. */
  datatype Piece = Blank | Malformed | Spec(spec: ByteSpec)

  function ReadPiece(piece: string): Piece {
    var ra := TrimSpace(piece);
    if ra == "" then Blank
    else
      var spec := ReadSpec(ra);
      if spec.None? then Malformed else Spec(spec.value)
  }

  function ReadAll(pieces: seq<string>): (read: seq<Piece>)
    ensures |read| == |pieces|
  {
    seq(|pieces|, i requires 0 <= i < |pieces| => ReadPiece(pieces[i]))
  }

  /** The elements of the list from piece `k` on, blank ones dropped; None stands for a malformed one. */
  function Elements(read: seq<Piece>, k: nat): seq<Option<ByteSpec>>
    requires k <= |read|
    decreases |read| - k
  {
    if k == |read| then []
    else
      match read[k]
      case Blank => Elements(read, k + 1)
      case Malformed => [None] + Elements(read, k + 1)
      case Spec(spec) => [Some(spec)] + Elements(read, k + 1)
  }

  predicate WellFormed(es: seq<Option<ByteSpec>>) {
    forall i | 0 <= i < |es| :: es[i].Some?
  }

  function ClipList(spec: ByteSpec, size: nat): (rs: seq<Range>)
    ensures |rs| <= 1
  {
    var r := Clip(spec, size);
    if r.None? then [] else [r.value]
  }

  /** The satisfiable ranges in order. */
  function Clips(es: seq<Option<ByteSpec>>, size: nat): seq<Range>
    requires WellFormed(es)
  {
    if es == [] then [] else ClipList(es[0].value, size) + Clips(es[1..], size)
  }

  function Sum(rs: seq<Range>): int {
    if rs == [] then 0 else rs[0].length + Sum(rs[1..])
  }

  const UNIT := "bytes="

  function RangeSet(s: string): seq<Option<ByteSpec>>
    requires HasPrefix(s, UNIT)
  {
    Elements(ReadAll(Split(s[|UNIT|..], ',')), 0)
  }

  /** What the answer to a Range header should be. */
  predicate Meets(s: string, size: nat, r: RangeResult) {
    var readable := HasPrefix(s, UNIT) && 1 <= |RangeSet(s)| <= MAX_RANGES && WellFormed(RangeSet(s));
    && (r.Ok? <==> readable && Clips(RangeSet(s), size) != [] && Sum(Clips(RangeSet(s), size)) <= size)
    && (r.Ok? ==> r.value == Clips(RangeSet(s), size))
    && (r == Err(UnsatisfiableRange) <==> readable && Clips(RangeSet(s), size) == [])
  }

  // ---------------------------------------------------------------------------
  // The code
  // ---------------------------------------------------------------------------

  /** What the loop decides with the pieces from `k` on still to come. */
  function Scan(read: seq<Piece>, k: nat, size: nat, specs: nat, ranges: seq<Range>, total: int): RangeResult
    requires k <= |read|
    decreases |read| - k
  {
    if k == |read| then
      if specs == 0 then Err(InvalidRange) else if ranges == [] then Err(UnsatisfiableRange) else Ok(ranges)
    else if read[k].Blank? then Scan(read, k + 1, size, specs, ranges, total)
    else if specs + 1 > MAX_RANGES then Err(TooManyRanges)
    else if read[k].Malformed? then Err(InvalidRange)
    else
      var r := Clip(read[k].spec, size);
      if r.None? then Scan(read, k + 1, size, specs + 1, ranges, total)
      else
        var sum := Add64(total, r.value.length);
        if sum > size then Err(RangesExceedSize)
        else Scan(read, k + 1, size, specs + 1, ranges + [r.value], sum)
  }

  function Parsed(s: string, size: nat): RangeResult {
    if HasPrefix(s, UNIT) then Scan(ReadAll(Split(s[|UNIT|..], ',')), 0, size, 0, [], 0) else Err(InvalidRange)
  }

  method ParseRange(s: string, size: nat) returns (result: RangeResult)
    requires size <= MAX_INT64
    ensures result == Parsed(s, size)
  {
    if !HasPrefix(s, UNIT) {
      return Err(InvalidRange);
    }
    result := ParseList(Split(s[|UNIT|..], ','), size);
  }

  method ParseList(pieces: seq<string>, size: nat) returns (result: RangeResult)
    requires size <= MAX_INT64
    ensures result == Scan(ReadAll(pieces), 0, size, 0, [], 0)
  {
    var ranges: seq<Range> := [];
    var total: int := 0;
    var specs: nat := 0;
    ghost var read := ReadAll(pieces);
    ghost var goal := Scan(read, 0, size, 0, [], 0);
    for k := 0 to |pieces|
      invariant goal == Scan(read, k, size, specs, ranges, total)
    {
      assert read[k] == ReadPiece(pieces[k]);
      var error;
      specs, ranges, total, error := TakePiece(pieces[k], size, specs, ranges, total, read, k);
      if error.Some? {
        return Err(error.value);
      }
    }
    if specs == 0 {
      return Err(InvalidRange);
    }
    if |ranges| == 0 {
      return Err(UnsatisfiableRange);
    }
    return Ok(ranges);
  }

  /** The loop body: the counters and ranges after one piece, or the error to return. */
  method TakePiece(piece: string, size: nat, specs0: nat, ranges0: seq<Range>, total0: int, ghost read: seq<Piece>,
                   ghost k: nat)
    returns (specs: nat, ranges: seq<Range>, total: int, error: Option<RangeError>)
    requires size <= MAX_INT64 && k < |read| && read[k] == ReadPiece(piece)
    ensures Scan(read, k, size, specs0, ranges0, total0)
            == if error.Some? then Err(error.value) else Scan(read, k + 1, size, specs, ranges, total)
  {
    specs, ranges, total, error := specs0, ranges0, total0, None;
    var blank, wellFormed, r := ParsePiece(piece, size);
    if blank {
      return;
    }
    specs := specs + 1;
    if specs > MAX_RANGES {
      error := Some(TooManyRanges);
    } else if !wellFormed {
      error := Some(InvalidRange);
    } else if r.Some? {
      total := Add64(total, r.value.length);
      if total > size {
        error := Some(RangesExceedSize);
      } else {
        ranges := ranges + [r.value];
      }
    }
  }

  /** The part of the loop body that reads one piece; r is None for an unsatisfiable one. */
  method ParsePiece(piece: string, size: nat) returns (blank: bool, wellFormed: bool, r: Option<Range>)
    requires size <= MAX_INT64
    ensures blank <==> ReadPiece(piece).Blank?
    ensures !blank ==> (wellFormed <==> ReadPiece(piece).Spec?)
    ensures !blank && wellFormed ==> r == Clip(ReadPiece(piece).spec, size)
  {
    var ra := TrimSpace(piece);
    if ra == "" {
      return true, false, None;
    }
    var i := IndexByte(ra, '-');
    if i < 0 {
      return false, false, None;
    }
    blank := false;
    wellFormed, r := ParseBounds(TrimSpace(ra[..i]), TrimSpace(ra[i + 1..]), size);
  }

  method ParseBounds(start: string, end: string, size: nat) returns (wellFormed: bool, r: Option<Range>)
    requires size <= MAX_INT64
    ensures wellFormed <==> ReadBounds(start, end).Some?
    ensures wellFormed ==> r == Clip(ReadBounds(start, end).value, size)
  {
    if start == "" {
      if end == "" {
        return false, None;
      }
      var n := ParseInt64(end);
      if n.None? || n.value < 0 {
        return false, None;
      }
      if n.value == 0 || size == 0 {
        return true, None;
      }
      var count := if n.value > size then size else n.value;
      return true, Some(Range(size - count, count));
    }
    var first := ParseInt64(start);
    if first.None? || first.value < 0 {
      return false, None;
    }
    var last: int := size - 1;
    if end != "" {
      var j := ParseInt64(end);
      if j.None? || j.value < first.value {
        return false, None;
      }
      if j.value < last {
        last := j.value;
      }
    }
    if first.value >= size {
      return true, None;
    }
    return true, Some(Range(first.value, last - first.value + 1));
  }

  // ---------------------------------------------------------------------------
  // The code meets the declarative reading exactly for sizes whose double fits
  // ---------------------------------------------------------------------------

  lemma {:induction false} SumAppend(a: seq<Range>, b: seq<Range>)
    ensures Sum(a + b) == Sum(a) + Sum(b)
  {
    if a == [] {
      assert a + b == b;
    } else {
      assert (a + b)[1..] == a[1..] + b;
      SumAppend(a[1..], b);
    }
  }

  lemma SumClip(spec: ByteSpec, size: nat)
    ensures var r := Clip(spec, size);
            Sum(ClipList(spec, size)) == if r.None? then 0 else r.value.length
  {
    var rs := ClipList(spec, size);
    if rs != [] { assert rs[1..] == []; }
  }

  /** Clipped ranges lie inside the representation and are not empty. */
  lemma {:induction false} ClipsInside(es: seq<Option<ByteSpec>>, size: nat)
    requires WellFormed(es)
    ensures forall r | r in Clips(es, size) :: 0 <= r.start && 0 < r.length && r.start + r.length <= size
    ensures |Clips(es, size)| <= |es|
    ensures Sum(Clips(es, size)) >= |Clips(es, size)|
  {
    if es != [] {
      ClipsInside(es[1..], size);
      SumClip(es[0].value, size);
      SumAppend(ClipList(es[0].value, size), Clips(es[1..], size));
    }
  }

  /** `Meets` for the loop in the middle of its work, with the elements `es` to come. */
  predicate MeetsFrom(r: RangeResult, es: seq<Option<ByteSpec>>, size: nat, specs: nat,
                      ranges: seq<Range>, total: int)
  {
    var readable := 1 <= specs + |es| <= MAX_RANGES && WellFormed(es);
    && (r.Ok? <==> readable && ranges + Clips(es, size) != [] && total + Sum(Clips(es, size)) <= size)
    && (r.Ok? ==> r.value == ranges + Clips(es, size))
    && (r == Err(UnsatisfiableRange) <==> readable && ranges + Clips(es, size) == [])
  }

  lemma Regroup(a: seq<Range>, b: seq<Range>, c: seq<Range>)
    ensures (a + b) + c == a + (b + c)
  {
  }

  /** A satisfiable or unsatisfiable spec in front of the elements still to come. */
  lemma MeetsCons(spec: ByteSpec, rest: seq<Option<ByteSpec>>, size: nat, ranges: seq<Range>)
    ensures var es := [Some(spec)] + rest;
            && (WellFormed(es) <==> WellFormed(rest))
            && (WellFormed(rest) ==>
                  && ranges + Clips(es, size) == (ranges + ClipList(spec, size)) + Clips(rest, size)
                  && Sum(Clips(es, size)) == Sum(ClipList(spec, size)) + Sum(Clips(rest, size))
                  && Sum(Clips(rest, size)) >= 0)
  {
    var es, head := [Some(spec)] + rest, ClipList(spec, size);
    assert es[1..] == rest;
    assert WellFormed(es) <==> WellFormed(rest);
    if WellFormed(rest) {
      SumAppend(head, Clips(rest, size));
      ClipsInside(rest, size);
      Regroup(ranges, head, Clips(rest, size));
    }
  }

  /** The loop from any intermediate state; no addition overflows. */
  lemma {:induction false} ScanMeets(read: seq<Piece>, k: nat, size: nat, specs: nat, ranges: seq<Range>, total: int)
    requires 2 * size <= MAX_INT64 && 0 <= total <= size && specs <= MAX_RANGES && |ranges| <= specs && k <= |read|
    ensures MeetsFrom(Scan(read, k, size, specs, ranges, total), Elements(read, k), size, specs, ranges, total)
    decreases |read| - k
  {
    if k == |read| {
    } else if read[k].Blank? {
      ScanMeets(read, k + 1, size, specs, ranges, total);
    } else if specs + 1 <= MAX_RANGES && read[k].Spec? {
      var head := ClipList(read[k].spec, size);
      SumClip(read[k].spec, size);
      MeetsCons(read[k].spec, Elements(read, k + 1), size, ranges);
      if head == [] {
        assert ranges + head == ranges;
        ScanMeets(read, k + 1, size, specs + 1, ranges, total);
      } else if total + head[0].length <= size {
        ScanMeets(read, k + 1, size, specs + 1, ranges + head, total + head[0].length);
      }
    }
  }

  lemma ParsedMeets(s: string, size: nat)
    requires 2 * size <= MAX_INT64
    ensures Meets(s, size, Parsed(s, size))
  {
    if HasPrefix(s, UNIT) {
      ScanMeets(ReadAll(Split(s[|UNIT|..], ',')), 0, size, 0, [], 0);
    }
  }

  /** The first byte and the rest: two ranges that cover a file. */
  const HALVES: seq<Piece> := [Spec(Between(0, 0)), Spec(From(1))]

  lemma ReadZero()
    ensures ParseInt64("0") == Some(0) && TrimSpace("0") == "0" && TrimSpace("") == ""
  {
    assert DigitsFrom("0", 0, 0) && ValueFrom("0", 0, 1) == 10 * ValueFrom("0", 0, 0) + 0;
  }

  lemma ReadOne()
    ensures ParseInt64("1") == Some(1) && TrimSpace("1") == "1"
  {
    assert DigitsFrom("1", 0, 0) && ValueFrom("1", 0, 1) == 10 * ValueFrom("1", 0, 0) + 1;
  }

  lemma FirstByteSpec()
    ensures ReadPiece("0-0") == Spec(Between(0, 0))
  {
    ReadZero();
    assert TrimSpace("0-0") == "0-0";
    IndexFromAt("0-0", '-', 0, 1);
    assert "0-0"[..1] == "0" && "0-0"[2..] == "0";
    assert ReadSpec("0-0") == ReadBounds("0", "0");
  }

  lemma RestSpec()
    ensures ReadPiece("1-") == Spec(From(1))
  {
    ReadZero();
    ReadOne();
    assert TrimSpace("1-") == "1-";
    IndexFromAt("1-", '-', 0, 1);
    assert "1-"[..1] == "1" && "1-"[2..] == "";
    assert ReadSpec("1-") == ReadBounds("1", "");
  }

  lemma HalvesRead()
    ensures ReadAll(["0-0", "1-"]) == HALVES
  {
    FirstByteSpec();
    RestSpec();
  }

  /** Every file of at least two bytes is served in two parts to this header. */
  lemma HalvesParsed(size: nat)
    requires 2 <= size <= MAX_INT64
    ensures Parsed("bytes=0-0,1-", size) == Ok([Range(0, 1), Range(1, size - 1)])
  {
    assert "bytes=0-0,1-"[|UNIT|..] == "0-0" + [','] + "1-";
    SplitFirst("0-0", "1-", ',');
    SplitNone("1-", ',');
    assert Split("0-0" + [','] + "1-", ',') == ["0-0", "1-"];
    HalvesRead();
    ScanTwo(Between(0, 0), From(1), size, Range(0, 1), Range(1, size - 1));
  }

  /** The header of the counterexample below. */
  lemma TwoFullRanges()
    ensures HasPrefix("bytes=0-,0-", UNIT)
    ensures ReadAll(Split("bytes=0-,0-"[|UNIT|..], ',')) == TWO_FULL
  {
    assert "bytes=0-,0-"[|UNIT|..] == "0-" + [','] + "0-";
    SplitFirst("0-", "0-", ',');
    SplitNone("0-", ',');
    assert Split("0-" + [','] + "0-", ',') == ["0-", "0-"];
    FullRangeSpec();
  }

  lemma FullRangeSpec()
    ensures ReadPiece("0-") == Spec(From(0))
  {
    ReadZero();
    assert TrimSpace("0-") == "0-";
    IndexFromAt("0-", '-', 0, 1);
    assert "0-"[..1] == "0" && "0-"[2..] == "";
    assert ReadSpec("0-") == ReadBounds("0", "");
  }

  const TWO_FULL: seq<Piece> := [Spec(From(0)), Spec(From(0))]

  lemma TwoFullElements(size: nat)
    requires 0 < size
    ensures WellFormed(Elements(TWO_FULL, 0)) && |Elements(TWO_FULL, 0)| == 2
    ensures Sum(Clips(Elements(TWO_FULL, 0), size)) == 2 * size
  {
    var es: seq<Option<ByteSpec>> := [Some(From(0))];
    assert Elements(TWO_FULL, 2) == [];
    assert Elements(TWO_FULL, 1) == es && Elements(TWO_FULL, 0) == es + es;
    assert (es + es)[1..] == es && es[1..] == [];
    SumClip(From(0), size);
    assert Clips(es, size) == ClipList(From(0), size) + [];
    SumAppend(ClipList(From(0), size), ClipList(From(0), size));
  }

  /** One satisfiable spec that the loop accepts. */
  lemma ScanSpec(read: seq<Piece>, k: nat, size: nat, specs: nat, ranges: seq<Range>, total: int, r: Range)
    requires k < |read| && read[k].Spec? && specs < MAX_RANGES
    requires Clip(read[k].spec, size) == Some(r) && Add64(total, r.length) <= size
    ensures Scan(read, k, size, specs, ranges, total)
            == Scan(read, k + 1, size, specs + 1, ranges + [r], Add64(total, r.length))
  {
  }

  /** Two satisfiable specs whose int64 sum does not exceed the size are accepted. */
  lemma ScanTwo(a: ByteSpec, b: ByteSpec, size: nat, ra: Range, rb: Range)
    requires size <= MAX_INT64 && Clip(a, size) == Some(ra) && Clip(b, size) == Some(rb)
    requires Add64(ra.length, rb.length) <= size
    ensures Scan([Spec(a), Spec(b)], 0, size, 0, [], 0) == Ok([ra, rb])
  {
    var read := [Spec(a), Spec(b)];
    ScanSpec(read, 0, size, 0, [], 0, ra);
    ScanSpec(read, 1, size, 1, [] + [ra], ra.length, rb);
    assert [] + [ra] + [rb] == [ra, rb];
    ScanEnd(read, size, 2, [ra, rb], Add64(ra.length, rb.length));
  }

  lemma ScanEnd(read: seq<Piece>, size: nat, specs: nat, ranges: seq<Range>, total: int)
    requires specs > 0 && ranges != []
    ensures Scan(read, |read|, size, specs, ranges, total) == Ok(ranges)
  {
  }

  /** With a larger size the sum of two full ranges wraps around and is accepted. */
  lemma WrappedSum(size: nat)
    requires size <= MAX_INT64 < 2 * size
    ensures Parsed("bytes=0-,0-", size) == Ok([Range(0, size), Range(0, size)])
    ensures !Meets("bytes=0-,0-", size, Parsed("bytes=0-,0-", size))
  {
    TwoFullRanges();
    ScanTwo(From(0), From(0), size, Range(0, size), Range(0, size));
    TwoFullElements(size);
  }

  /**
   The parser meets the declarative reading for every header if and only if
   twice the size fits in an int64.
   */
  lemma MeetsIffDoubleFits(size: nat)
    requires size <= MAX_INT64
    ensures (forall s :: Meets(s, size, Parsed(s, size))) <==> 2 * size <= MAX_INT64
  {
    if 2 * size <= MAX_INT64 {
      forall s ensures Meets(s, size, Parsed(s, size)) {
        ParsedMeets(s, size);
      }
    } else {
      WrappedSum(size);
    }
  }
}
