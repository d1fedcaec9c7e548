/**
 Range headers as a client writes them (section 14.2 of RFC 9110), and what the
 parser makes of them.
 */
module RangeHeader {
  import opened Wrappers
  import opened Text
  import opened ByteRanges

  /** The text of a range-spec. */
  function Written(spec: ByteSpec): string {
    match spec
    case Suffix(n) => "-" + Itoa(n)
    case From(first) => Itoa(first) + "-"
    case Between(first, last) => Itoa(first) + "-" + Itoa(last)
  }

  /** Its numbers fit in an int64, and the last position is not before the first. */
  predicate Sensible(spec: ByteSpec) {
    match spec
    case Suffix(n) => n <= MAX_INT64
    case From(first) => first <= MAX_INT64
    case Between(first, last) => first <= last <= MAX_INT64
  }

  predicate AllSensible(specs: seq<ByteSpec>) {
    forall k | 0 <= k < |specs| :: Sensible(specs[k])
  }

  function AllWritten(specs: seq<ByteSpec>): (texts: seq<string>)
    ensures |texts| == |specs|
  {
    seq(|specs|, i requires 0 <= i < |specs| => Written(specs[i]))
  }

  /** The header that asks for the specs. */
  function Header(specs: seq<ByteSpec>): string {
    "bytes=" + Join(AllWritten(specs), ",")
  }

  // ---------------------------------------------------------------------------
  // One spec
  // ---------------------------------------------------------------------------

  /** A text of digits and hyphens only: nothing to trim, and no comma. */
  predicate Tight(s: string) {
    forall k | 0 <= k < |s| :: '0' <= s[k] <= '9' || s[k] == '-'
  }

  lemma TightTrim(s: string)
    requires Tight(s)
    ensures TrimSpace(s) == s && Free(s, ',')
  {
    assert KeptFrom(s, Spaces, 0) == 0 && KeptUpTo(s, Spaces, |s|) == |s|;
    assert s[0..|s|] == s;
  }

  lemma NumberIsTight(n: nat)
    ensures Tight(Itoa(n)) && Free(Itoa(n), '-') && Itoa(n) != ""
  {
    ReadingPrinted("", n);
    assert "" + Itoa(n) == Itoa(n);
  }

  lemma WrittenIsTight(spec: ByteSpec)
    ensures Tight(Written(spec)) && Written(spec) != ""
  {
    match spec
    case Suffix(n) => NumberIsTight(n);
    case From(first) => NumberIsTight(first);
    case Between(first, last) => NumberIsTight(first); NumberIsTight(last);
  }

  lemma NumberRead(n: nat)
    requires n <= MAX_INT64
    ensures ParseInt64(Itoa(n)) == Some(n)
  {
    ParsePrinted("", n);
    assert "" + Itoa(n) == Itoa(n);
  }

  /** The spec is cut at its hyphen. */
  lemma CutAtHyphen(a: string, b: string)
    requires Free(a, '-') && Tight(a) && Tight(b)
    ensures ReadSpec(a + "-" + b) == ReadBounds(a, b)
  {
    var s := a + "-" + b;
    IndexFromAt(s, '-', 0, |a|);
    assert s[..|a|] == a && s[|a| + 1..] == b;
    TightTrim(a);
    TightTrim(b);
  }

  /** A spec that is written is read back. */
  lemma WrittenIsRead(spec: ByteSpec)
    requires Sensible(spec)
    ensures ReadPiece(Written(spec)) == Spec(spec)
  {
    WrittenIsTight(spec);
    TightTrim(Written(spec));
    match spec
    case Suffix(n) =>
      NumberIsTight(n);
      NumberRead(n);
      CutAtHyphen("", Itoa(n));
      assert "" + "-" + Itoa(n) == Written(spec);
    case From(first) =>
      NumberIsTight(first);
      NumberRead(first);
      CutAtHyphen(Itoa(first), "");
      assert Itoa(first) + "-" + "" == Written(spec);
    case Between(first, last) =>
      NumberIsTight(first);
      NumberIsTight(last);
      NumberRead(first);
      NumberRead(last);
      CutAtHyphen(Itoa(first), Itoa(last));
  }

  /** ASCII white space. */
  predicate IsPadding(s: string) {
    forall k | 0 <= k < |s| :: s[k] == ' ' || s[k] == '\t' || s[k] == '\r' || s[k] == '\n'
  }

  /** White space around a spec does not matter. */
  lemma PaddedIsRead(spec: ByteSpec, before: string, after: string)
    requires Sensible(spec) && IsPadding(before) && IsPadding(after)
    ensures ReadPiece(before + Written(spec) + after) == Spec(spec)
  {
    var t := Written(spec);
    WrittenIsTight(spec);
    PaddingTrim(before, t, after);
    TightTrim(t);
    WrittenIsRead(spec);
  }

  lemma PaddingTrim(before: string, t: string, after: string)
    requires Tight(t) && t != "" && IsPadding(before) && IsPadding(after)
    ensures TrimSpace(before + t + after) == t
  {
    var s := before + t + after;
    PaddingBefore(s, |before|, 0);
    PaddingAfter(s, |before| + |t|, |s|);
    assert s[|before|..|before| + |t|] == t;
  }

  lemma {:induction false} PaddingBefore(s: string, n: nat, k: nat)
    requires k <= n < |s| && IsPadding(s[..n]) && ('0' <= s[n] <= '9' || s[n] == '-')
    ensures KeptFrom(s, Spaces, k) == n
    decreases n - k
  {
    if k < n {
      assert s[..n][k] == s[k];
      PaddingBefore(s, n, k + 1);
    }
  }

  lemma {:induction false} PaddingAfter(s: string, n: nat, k: nat)
    requires 0 < n <= k <= |s| && IsPadding(s[n..]) && ('0' <= s[n - 1] <= '9' || s[n - 1] == '-')
    ensures KeptUpTo(s, Spaces, k) == n
  {
    if k > n {
      assert s[n..][k - 1 - n] == s[k - 1];
      PaddingAfter(s, n, k - 1);
    }
  }

  // ---------------------------------------------------------------------------
  // Headers
  // ---------------------------------------------------------------------------

  function Present(specs: seq<ByteSpec>): (es: seq<Option<ByteSpec>>)
    ensures |es| == |specs|
  {
    seq(|specs|, i requires 0 <= i < |specs| => Some(specs[i]))
  }

  lemma {:induction false} ElementsPresent(read: seq<Piece>, specs: seq<ByteSpec>, k: nat)
    requires |read| == |specs| && k <= |read| && forall i | 0 <= i < |read| :: read[i] == Spec(specs[i])
    ensures Elements(read, k) == Present(specs)[k..]
    decreases |read| - k
  {
    if k < |read| {
      ElementsPresent(read, specs, k + 1);
      assert Present(specs)[k..] == [Some(specs[k])] + Present(specs)[k + 1..];
    }
  }

  /** Every header a client writes is read as the list of specs it was written from. */
  lemma HeaderIsRead(specs: seq<ByteSpec>)
    requires specs != [] && AllSensible(specs)
    ensures HasPrefix(Header(specs), UNIT) && RangeSet(Header(specs)) == Present(specs)
  {
    var texts := AllWritten(specs);
    forall k | 0 <= k < |texts| ensures Free(texts[k], ',') && ReadPiece(texts[k]) == Spec(specs[k]) {
      WrittenIsTight(specs[k]);
      TightTrim(texts[k]);
      WrittenIsRead(specs[k]);
    }
    SplitJoin(texts, ',');
    assert Header(specs)[|UNIT|..] == Join(texts, ",");
    ElementsPresent(ReadAll(texts), specs, 0);
    assert Present(specs)[0..] == Present(specs);
  }

  /** A header with one spec, for every size: the range, or unsatisfiable. */
  lemma OneIsParsed(spec: ByteSpec, size: nat)
    requires Sensible(spec) && size <= MAX_INT64
    ensures var r := Clip(spec, size);
            Parsed("bytes=" + Written(spec), size) == if r.Some? then Ok([r.value]) else Err(UnsatisfiableRange)
  {
    var text, r := Written(spec), Clip(spec, size);
    WrittenIsTight(spec);
    TightTrim(text);
    WrittenIsRead(spec);
    SplitNone(text, ',');
    assert ("bytes=" + text)[|UNIT|..] == text && HasPrefix("bytes=" + text, UNIT);
    var read := ReadAll([text]);
    assert read == [Spec(spec)];
    if r.Some? {
      ScanSpec(read, 0, size, 0, [], 0, r.value);
      assert [] + [r.value] == [r.value];
      ScanEnd(read, size, 1, [r.value], r.value.length);
    } else {
      assert Scan(read, 1, size, 1, [], 0) == Err(UnsatisfiableRange);
    }
  }

  /** The three forms of a header with one satisfiable spec, and what they ask for. */
  lemma OneRange(first: nat, last: nat, n: nat, size: nat)
    requires first <= last < size <= MAX_INT64 && 0 < n <= size
    ensures Parsed("bytes=" + Itoa(first) + "-" + Itoa(last), size) == Ok([Range(first, last - first + 1)])
    ensures Parsed("bytes=" + Itoa(first) + "-", size) == Ok([Range(first, size - first)])
    ensures Parsed("bytes=-" + Itoa(n), size) == Ok([Range(size - n, n)])
  {
    hide Parsed;
    OneIsParsed(Between(first, last), size);
    OneIsParsed(From(first), size);
    OneIsParsed(Suffix(n), size);
    Regroup3("bytes=", Itoa(first), "-", Itoa(last));
    Regroup2("bytes=", Itoa(first), "-");
    Regroup2("bytes=", "-", Itoa(n));
    assert "bytes=" + "-" == "bytes=-";
  }

  lemma Regroup2(a: string, b: string, c: string)
    ensures a + b + c == a + (b + c)
  {
  }

  lemma Regroup3(a: string, b: string, c: string, d: string)
    ensures a + b + c + d == a + (b + c + d)
  {
  }

  // ---------------------------------------------------------------------------
  // What is refused
  // ---------------------------------------------------------------------------

  /** What is cut off at both ends is white space, and what is left neither begins nor ends with it. */
  lemma TrimMeaning(s: string)
    ensures var t := TrimSpace(s);
            exists i, j :: && 0 <= i <= j <= |s| && t == s[i..j]
                           && (forall k | 0 <= k < i || j <= k < |s| :: IsSpace(s[k]))
                           && (t != "" ==> !IsSpace(t[0]) && !IsSpace(t[|t| - 1]))
  {
    var i, j := KeptFrom(s, Spaces, 0), KeptUpTo(s, Spaces, |s|);
    DroppedBefore(s, 0);
    DroppedAfter(s, |s|);
    if i <= j {
      assert TrimSpace(s) == s[i..j];
    } else {
      assert forall k | 0 <= k < |s| :: IsSpace(s[k]);
      assert TrimSpace(s) == s[0..0];
    }
  }

  lemma {:induction false} DroppedBefore(s: string, i: nat)
    requires i <= |s|
    ensures var k := KeptFrom(s, Spaces, i);
            (forall m | i <= m < k :: IsSpace(s[m])) && (k < |s| ==> !IsSpace(s[k]))
    decreases |s| - i
  {
    if i < |s| && IsSpace(s[i]) {
      DroppedBefore(s, i + 1);
    }
  }

  lemma {:induction false} DroppedAfter(s: string, n: nat)
    requires n <= |s|
    ensures var k := KeptUpTo(s, Spaces, n);
            (forall m | k <= m < n :: IsSpace(s[m])) && (k > 0 ==> !IsSpace(s[k - 1]))
  {
    if n > 0 && IsSpace(s[n - 1]) {
      DroppedAfter(s, n - 1);
    }
  }

  /** What stands on both sides of the first hyphen, and what it asks for. */
  predicate Reads(a: string, b: string, spec: ByteSpec) {
    match spec
    case Suffix(n) => a == "" && ParseInt64(b) == Some(n)
    case From(first) => a != "" && ParseInt64(a) == Some(first) && b == ""
    case Between(first, last) =>
      a != "" && b != "" && ParseInt64(a) == Some(first) && ParseInt64(b) == Some(last) && first <= last
  }

  /** Exactly when a piece of the list is read as a spec. */
  lemma ReadIff(piece: string, spec: ByteSpec)
    ensures ReadPiece(piece) == Spec(spec)
            <==> exists i | 0 <= i < |TrimSpace(piece)| ::
                   && TrimSpace(piece)[i] == '-' && Free(TrimSpace(piece)[..i], '-')
                   && Reads(TrimSpace(TrimSpace(piece)[..i]), TrimSpace(TrimSpace(piece)[i + 1..]), spec)
  {
    hide TrimSpace, ReadBounds, Reads;
    var ra := TrimSpace(piece);
    forall i | 0 <= i < |ra| && ra[i] == '-' && Free(ra[..i], '-') ensures IndexByte(ra, '-') == i {
      FirstHyphen(ra, i);
    }
    if IndexByte(ra, '-') >= 0 {
      var at := IndexByte(ra, '-');
      FreeBefore(ra);
      ReadsIff(TrimSpace(ra[..at]), TrimSpace(ra[at + 1..]), spec);
    }
  }

  lemma FirstHyphen(ra: string, i: nat)
    requires i < |ra| && ra[i] == '-' && Free(ra[..i], '-')
    ensures IndexByte(ra, '-') == i
  {
    forall j | 0 <= j < i ensures ra[j] != '-' {
      assert ra[..i][j] == ra[j];
    }
    IndexFromAt(ra, '-', 0, i);
  }

  lemma FreeBefore(ra: string)
    requires IndexByte(ra, '-') >= 0
    ensures var at := IndexByte(ra, '-'); ra[at] == '-' && Free(ra[..at], '-')
  {
    IndexFromMeaning(ra, '-', 0);
  }

  lemma EmptyIsNoNumber()
    ensures ParseInt64("") == None
  {
  }

  lemma ReadsIff(a: string, b: string, spec: ByteSpec)
    ensures ReadBounds(a, b) == Some(spec) <==> Reads(a, b, spec)
  {
    EmptyIsNoNumber();
  }

  /** One malformed piece anywhere spoils the header, for every size. */
  lemma {:induction false} ScanMalformed(read: seq<Piece>, k: nat, j: nat, size: nat, specs: nat, ranges: seq<Range>,
                                         total: int)
    requires k <= j < |read| && read[j].Malformed?
    ensures var r := Scan(read, k, size, specs, ranges, total); r.Err? && r != Err(UnsatisfiableRange)
    decreases j - k
  {
    if k < j && !read[k].Malformed? && (read[k].Blank? || specs + 1 <= MAX_RANGES) {
      if read[k].Blank? {
        ScanMalformed(read, k + 1, j, size, specs, ranges, total);
      } else {
        var r := Clip(read[k].spec, size);
        if r.None? {
          ScanMalformed(read, k + 1, j, size, specs + 1, ranges, total);
        } else {
          ScanMalformed(read, k + 1, j, size, specs + 1, ranges + [r.value], Add64(total, r.value.length));
        }
      }
    }
  }

  /** Blank pieces are ignored. */
  lemma {:induction false} ElementsShift(piece: Piece, read: seq<Piece>, k: nat)
    requires k <= |read|
    ensures Elements([piece] + read, k + 1) == Elements(read, k)
    decreases |read| - k
  {
    if k < |read| {
      assert ([piece] + read)[k + 1] == read[k];
      ElementsShift(piece, read, k + 1);
    }
  }

  lemma BlankIgnored(rest: string)
    ensures RangeSet("bytes=," + rest) == RangeSet("bytes=" + rest)
  {
    assert ("bytes=," + rest)[|UNIT|..] == "" + [','] + rest && ("bytes=" + rest)[|UNIT|..] == rest;
    SplitFirst("", rest, ',');
    var pieces := Split(rest, ',');
    TightTrim("");
    assert ReadAll([""] + pieces) == [Blank] + ReadAll(pieces);
    ElementsShift(Blank, ReadAll(pieces), 0);
  }

  /** No more than sixteen specs are accepted, and sixteen are, for ranges that do not exceed the file. */
  lemma SixteenAtMost(specs: seq<ByteSpec>, size: nat)
    requires specs != [] && AllSensible(specs) && 2 * size <= MAX_INT64
    ensures var clips := Clips(Present(specs), size);
            Parsed(Header(specs), size).Ok? <==> |specs| <= 16 && clips != [] && Sum(clips) <= size
    ensures Parsed(Header(specs), size).Ok? ==> Parsed(Header(specs), size).value == Clips(Present(specs), size)
  {
    HeaderIsRead(specs);
    ParsedMeets(Header(specs), size);
  }
}
