/**
 The part of Go's `strings` and `strconv` packages that the server's parsers use.
 A header value is a sequence of decoded characters; file data is a sequence of
 characters standing for bytes.
 */
module Text {
  import opened Wrappers

  /** File contents and response bodies. */
  type Bytes = string

  // ---------------------------------------------------------------------------
  // Searching, splitting and joining
  // ---------------------------------------------------------------------------

  predicate HasPrefix(s: string, prefix: string) {
    prefix <= s
  }

  predicate HasSuffix(s: string, suffix: string) {
    |suffix| <= |s| && s[|s| - |suffix|..] == suffix
  }

  function TrimPrefix(s: string, prefix: string): string {
    if HasPrefix(s, prefix) then s[|prefix|..] else s
  }

  /** The first position of `c` at or after `from`, or -1. */
  function IndexFrom(s: string, c: char, from: nat): (i: int)
    requires from <= |s|
    ensures i == -1 || from <= i < |s|
    decreases |s| - from
  {
    if from == |s| then -1 else if s[from] == c then from else IndexFrom(s, c, from + 1)
  }

  function IndexByte(s: string, c: char): (i: int)
    ensures -1 <= i < |s|
  {
    IndexFrom(s, c, 0)
  }

  lemma {:induction false} IndexFromMeaning(s: string, c: char, from: nat)
    requires from <= |s|
    ensures var i := IndexFrom(s, c, from);
            && (i >= 0 ==> s[i] == c && forall j | from <= j < i :: s[j] != c)
            && (i < 0 ==> forall j | from <= j < |s| :: s[j] != c)
    decreases |s| - from
  {
    if from < |s| && s[from] != c {
      IndexFromMeaning(s, c, from + 1);
    }
  }

  lemma {:induction false} IndexFromAt(s: string, c: char, from: nat, i: nat)
    requires from <= i < |s| && s[i] == c && forall j | from <= j < i :: s[j] != c
    ensures IndexFrom(s, c, from) == i
    decreases i - from
  {
    if from < i {
      IndexFromAt(s, c, from + 1, i);
    }
  }

  /** The pieces between separators from position `i` on; always at least one. */
  function SplitFrom(s: string, sep: char, i: nat): (parts: seq<string>)
    requires i <= |s|
    ensures |parts| >= 1
    decreases |s| - i
  {
    var k := IndexFrom(s, sep, i);
    if k < 0 then [s[i..]] else [s[i..k]] + SplitFrom(s, sep, k + 1)
  }

  function Split(s: string, sep: char): (parts: seq<string>)
    ensures |parts| >= 1
  {
    SplitFrom(s, sep, 0)
  }

  predicate Free(s: string, c: char) {
    forall i | 0 <= i < |s| :: s[i] != c
  }

  predicate AllFree(parts: seq<string>, c: char) {
    forall k | 0 <= k < |parts| :: Free(parts[k], c)
  }

  lemma PieceFree(s: string, sep: char, i: nat, k: nat)
    requires i <= k <= |s| && forall j | i <= j < k :: s[j] != sep
    ensures Free(s[i..k], sep)
  {
  }

  lemma AllFreeCons(a: string, parts: seq<string>, c: char)
    requires Free(a, c)
    ensures AllFree([a], c)
    ensures AllFree(parts, c) ==> AllFree([a] + parts, c)
  {
  }

  lemma {:induction false} SplitFree(s: string, sep: char, i: nat)
    requires i <= |s|
    ensures AllFree(SplitFrom(s, sep, i), sep)
    decreases |s| - i
  {
    var k := IndexFrom(s, sep, i);
    IndexFromMeaning(s, sep, i);
    if k < 0 {
      PieceFree(s, sep, i, |s|);
      AllFreeCons(s[i..|s|], [], sep);
      assert s[i..] == s[i..|s|];
    } else {
      PieceFree(s, sep, i, k);
      SplitFree(s, sep, k + 1);
      AllFreeCons(s[i..k], SplitFrom(s, sep, k + 1), sep);
    }
  }

  function Join(parts: seq<string>, sep: string): string {
    if |parts| == 0 then ""
    else if |parts| == 1 then parts[0]
    else parts[0] + sep + Join(parts[1..], sep)
  }

  lemma {:induction false} IndexShift(x: string, s: string, c: char, j: nat)
    requires j <= |s|
    ensures IndexFrom(x + s, c, |x| + j) == if IndexFrom(s, c, j) < 0 then -1 else |x| + IndexFrom(s, c, j)
    decreases |s| - j
  {
    if j < |s| {
      assert (x + s)[|x| + j] == s[j];
      if s[j] != c {
        IndexShift(x, s, c, j + 1);
      }
    }
  }

  lemma SliceShift(x: string, s: string, j: nat, k: nat)
    requires j <= k <= |s|
    ensures (x + s)[|x| + j..|x| + k] == s[j..k]
    ensures (x + s)[|x| + j..] == s[j..]
  {
  }

  lemma SplitStep(s: string, sep: char, i: nat)
    requires i <= |s|
    ensures var k := IndexFrom(s, sep, i);
            SplitFrom(s, sep, i) == if k < 0 then [s[i..]] else [s[i..k]] + SplitFrom(s, sep, k + 1)
  {
  }

  lemma {:induction false} SplitShift(x: string, s: string, sep: char, j: nat)
    requires j <= |s|
    ensures SplitFrom(x + s, sep, |x| + j) == SplitFrom(s, sep, j)
    decreases |s| - j
  {
    hide SplitFrom, IndexFrom;
    var k := IndexFrom(s, sep, j);
    IndexShift(x, s, sep, j);
    SplitStep(s, sep, j);
    SplitStep(x + s, sep, |x| + j);
    if k < 0 {
      SliceShift(x, s, j, |s|);
    } else {
      SliceShift(x, s, j, k);
      SplitShift(x, s, sep, k + 1);
    }
  }

  /** Splitting peels off the part before the first separator. */
  lemma SplitFirst(a: string, rest: string, sep: char)
    requires Free(a, sep)
    ensures Split(a + [sep] + rest, sep) == [a] + Split(rest, sep)
  {
    var s := a + [sep] + rest;
    IndexFromAt(s, sep, 0, |a|);
    assert s[0..|a|] == a;
    SplitShift(a + [sep], rest, sep, 0);
  }

  lemma SplitNone(a: string, sep: char)
    requires Free(a, sep)
    ensures Split(a, sep) == [a]
  {
    IndexFromMeaning(a, sep, 0);
  }

  /** `Split` undoes `Join` on pieces that do not contain the separator. */
  lemma {:induction false} SplitJoin(parts: seq<string>, sep: char)
    requires |parts| >= 1 && AllFree(parts, sep)
    ensures Split(Join(parts, [sep]), sep) == parts
    decreases |parts|
  {
    if |parts| == 1 {
      SplitNone(parts[0], sep);
    } else {
      SplitJoin(parts[1..], sep);
      SplitFirst(parts[0], Join(parts[1..], [sep]), sep);
    }
  }

  lemma JoinCons(a: string, parts: seq<string>, sep: string)
    requires |parts| >= 1
    ensures Join([a] + parts, sep) == a + sep + Join(parts, sep)
  {
    assert ([a] + parts)[1..] == parts;
  }

  // ---------------------------------------------------------------------------
  // Trimming and case folding
  // ---------------------------------------------------------------------------

  /** Go's unicode.IsSpace, the set removed by strings.TrimSpace. */
  predicate IsSpace(c: char) {
    var u := c as int;
    || 9 <= u <= 13 || u == 32 || u == 0x85 || u == 0xA0 || u == 0x1680
    || 0x2000 <= u <= 0x200A || u == 0x2028 || u == 0x2029 || u == 0x202F || u == 0x205F || u == 0x3000
  }

  /** The set removed by the list walkers: space and tab. */
  predicate IsBlank(c: char) {
    c == ' ' || c == '\t'
  }

  /** What is trimmed: by strings.TrimSpace, or by the list walkers. */
  datatype Cutset = Spaces | Blanks

  predicate Drops(cut: Cutset, c: char) {
    if cut.Spaces? then IsSpace(c) else IsBlank(c)
  }

  /** The first position at or after `i` that is kept. */
  function KeptFrom(s: string, cut: Cutset, i: nat): (k: nat)
    requires i <= |s|
    ensures i <= k <= |s|
    decreases |s| - i
  {
    if i < |s| && Drops(cut, s[i]) then KeptFrom(s, cut, i + 1) else i
  }

  /** The end of the part up to `n` that is kept. */
  function KeptUpTo(s: string, cut: Cutset, n: nat): (k: nat)
    requires n <= |s|
    ensures k <= n
  {
    if n > 0 && Drops(cut, s[n - 1]) then KeptUpTo(s, cut, n - 1) else n
  }

  function TrimLeft(s: string, cut: Cutset): string {
    s[KeptFrom(s, cut, 0)..]
  }

  function TrimRight(s: string, cut: Cutset): string {
    s[..KeptUpTo(s, cut, |s|)]
  }

  function Trim(s: string, cut: Cutset): (t: string)
    ensures |t| <= |s|
  {
    var a, b := KeptFrom(s, cut, 0), KeptUpTo(s, cut, |s|);
    if a <= b then s[a..b] else ""
  }

  function TrimSpace(s: string): string {
    Trim(s, Spaces)
  }

  /**
   Simple case folding as far as ASCII letters are concerned: their upper-case
   forms plus the two other characters of their folding orbits, the long s and
   the Kelvin sign.
   */
  function Fold(c: char): char {
    if 'A' <= c <= 'Z' then ((c as int) + 32) as char
    else if c as int == 0x17F then 's'
    else if c as int == 0x212A then 'k'
    else c
  }

  function Folded(s: string): (t: string)
    ensures |t| == |s|
  {
    seq(|s|, i requires 0 <= i < |s| => Fold(s[i]))
  }

  predicate EqualFold(s: string, t: string) {
    Folded(s) == Folded(t)
  }

  // ---------------------------------------------------------------------------
  // Decimal numbers
  // ---------------------------------------------------------------------------

  const MAX_INT64 := 0x7FFF_FFFF_FFFF_FFFF

  predicate IsDigit(c: char) {
    '0' <= c <= '9'
  }

  predicate DigitsFrom(s: string, i: nat, n: nat)
    requires i <= n <= |s|
  {
    n == i || (IsDigit(s[n - 1]) && DigitsFrom(s, i, n - 1))
  }

  /** The value of the digits from position `i` up to `n`. */
  function ValueFrom(s: string, i: nat, n: nat): nat
    requires i <= n <= |s| && DigitsFrom(s, i, n)
  {
    if n == i then 0 else 10 * ValueFrom(s, i, n - 1) + (s[n - 1] as int - '0' as int)
  }

  predicate AllDigits(s: string) {
    DigitsFrom(s, 0, |s|)
  }

  function DigitsValue(s: string): nat
    requires AllDigits(s)
  {
    ValueFrom(s, 0, |s|)
  }

  /** Decimal formatting of a non-negative integer, without leading zeros. */
  function Itoa(n: nat): (s: string)
    ensures s != ""
  {
    var last := [('0' as int + n % 10) as char];
    if n < 10 then last else Itoa(n / 10) + last
  }

  /** The `n` digits of `s` from `i` on read like the first `n` of `t` when they are the same. */
  lemma {:induction false} DigitsShift(s: string, i: nat, t: string, n: nat)
    requires i + n <= |s| && n <= |t| && forall k | 0 <= k < n :: s[i + k] == t[k]
    ensures DigitsFrom(s, i, i + n) <==> DigitsFrom(t, 0, n)
    ensures DigitsFrom(t, 0, n) ==> ValueFrom(s, i, i + n) == ValueFrom(t, 0, n)
  {
    if n > 0 {
      assert s[i + (n - 1)] == t[n - 1];
      DigitsShift(s, i, t, n - 1);
    }
  }

  /** Reading back a printed number. */
  lemma {:induction false} DigitsValueItoa(n: nat)
    ensures AllDigits(Itoa(n)) && DigitsValue(Itoa(n)) == n
  {
    var s := Itoa(n);
    if n >= 10 {
      DigitsValueItoa(n / 10);
      DigitsShift(s, 0, Itoa(n / 10), |s| - 1);
    } else {
      assert DigitsFrom(s, 0, 0) && ValueFrom(s, 0, 0) == 0;
    }
    assert s[|s| - 1] == ('0' as int + n % 10) as char;
  }

  lemma {:induction false} DigitAt(s: string, i: nat, n: nat, k: nat)
    requires i <= k < n <= |s| && DigitsFrom(s, i, n)
    ensures IsDigit(s[k])
  {
    if k < n - 1 {
      DigitAt(s, i, n - 1, k);
    }
  }

  /**
   strconv.ParseInt(s, 10, 64): one optional sign, then at least one digit and
   nothing else; None stands for both the syntax and the range error.
   */
  function ParseInt64(s: string): (r: Option<int>)
    ensures r.Some? ==> -MAX_INT64 - 1 <= r.value <= MAX_INT64
  {
    var first := if s != "" && (s[0] == '-' || s[0] == '+') then 1 else 0;
    if first == |s| || !DigitsFrom(s, first, |s|) then None
    else
      var v: int := ValueFrom(s, first, |s|);
      if s[0] == '-' then
        if v <= MAX_INT64 + 1 then Some(-v) else None
      else
        if v <= MAX_INT64 then Some(v) else None
  }

  // ---------------------------------------------------------------------------
  // What the parser reads
  // ---------------------------------------------------------------------------

  /** The number a text of digits stands for, read from its front. */
  function Reading(t: string, i: nat, acc: nat): nat
    requires i <= |t| && forall k | i <= k < |t| :: '0' <= t[k] <= '9'
    decreases |t| - i
  {
    if i == |t| then acc else Reading(t, i + 1, 10 * acc + (t[i] as int - '0' as int))
  }

  predicate IsNumeral(t: string) {
    t != "" && forall k | 0 <= k < |t| :: '0' <= t[k] <= '9'
  }

  predicate Signed(s: string) {
    s != "" && (s[0] == '-' || s[0] == '+')
  }

  /** The text without one sign. */
  function Unsigned(s: string): string {
    if Signed(s) then s[1..] else s
  }

  lemma {:induction false} DigitsAre(s: string, i: nat, n: nat)
    requires i <= n <= |s|
    ensures DigitsFrom(s, i, n) <==> forall k | i <= k < n :: '0' <= s[k] <= '9'
  {
    if n > i {
      DigitsAre(s, i, n - 1);
    }
  }

  lemma {:induction false} ReadingIsValue(t: string, i: nat)
    requires i <= |t| && DigitsFrom(t, 0, |t|) && DigitsFrom(t, 0, i)
    requires forall k | i <= k < |t| :: '0' <= t[k] <= '9'
    ensures Reading(t, i, ValueFrom(t, 0, i)) == ValueFrom(t, 0, |t|)
    decreases |t| - i
  {
    if i < |t| {
      ReadingIsValue(t, i + 1);
    }
  }

  /**
   After one optional sign there must be digits only, at least one; the result is
   the number they stand for, if an int64 can hold it.
   */
  lemma ParseMeaning(s: string)
    ensures IsNumeral(Unsigned(s)) ==>
              var v: int := Reading(Unsigned(s), 0, 0);
              ParseInt64(s) == if s[0] == '-' then if v <= 9_223_372_036_854_775_808 then Some(-v) else None
                               else if v <= 9_223_372_036_854_775_807 then Some(v) else None
    ensures !IsNumeral(Unsigned(s)) ==> ParseInt64(s) == None
  {
    var t, first := Unsigned(s), if Signed(s) then 1 else 0;
    DigitsAre(s, first, |s|);
    assert |t| == |s| - first && forall k | 0 <= k < |t| :: t[k] == s[first + k];
    assert forall k | first <= k < |s| :: s[k] == t[k - first];
    if IsNumeral(t) {
      DigitsAre(t, 0, |t|);
      DigitsShift(s, first, t, |t|);
      ReadingIsValue(t, 0);
    }
  }

  lemma PrintedIsNumeral(zeros: string, n: nat)
    requires forall k | 0 <= k < |zeros| :: zeros[k] == '0'
    ensures IsNumeral(Itoa(n)) && IsNumeral(zeros + Itoa(n)) && Reading(Itoa(n), 0, 0) == n
  {
    hide Itoa;
    var s, t := Itoa(n), zeros + Itoa(n);
    DigitsValueItoa(n);
    DigitsAre(s, 0, |s|);
    ReadingIsValue(s, 0);
    forall k | 0 <= k < |t| ensures '0' <= t[k] <= '9' {
      assert t[k] == if k < |zeros| then zeros[k] else s[k - |zeros|];
    }
  }

  lemma LeadingZero(t: string, rest: string)
    requires IsNumeral(t) && IsNumeral(rest) && t == "0" + rest
    ensures Reading(t, 0, 0) == Reading(rest, 0, 0)
  {
    ReadingShift(t, rest, 0, 0);
  }

  /** A number that is printed, after any zeros, is read as itself. */
  lemma {:induction false} ReadingPrinted(zeros: string, n: nat)
    requires forall k | 0 <= k < |zeros| :: zeros[k] == '0'
    ensures IsNumeral(zeros + Itoa(n)) && Reading(zeros + Itoa(n), 0, 0) == n
    decreases |zeros|
  {
    hide Itoa;
    var t := zeros + Itoa(n);
    PrintedIsNumeral(zeros, n);
    if zeros == "" {
      assert t == Itoa(n);
    } else {
      var rest := zeros[1..] + Itoa(n);
      ReadingPrinted(zeros[1..], n);
      assert zeros == [zeros[0]] + zeros[1..];
      LeadingZero(t, rest);
    }
  }

  lemma {:induction false} ReadingShift(t: string, rest: string, i: nat, acc: nat)
    requires i <= |rest| && t != "" && t[1..] == rest && forall k | i <= k < |rest| :: '0' <= rest[k] <= '9'
    ensures (forall k | i + 1 <= k < |t| :: '0' <= t[k] <= '9') && Reading(t, i + 1, acc) == Reading(rest, i, acc)
    decreases |rest| - i
  {
    assert forall k | i + 1 <= k < |t| :: t[k] == rest[k - 1];
    if i < |rest| {
      assert '0' <= rest[i];
      ReadingShift(t, rest, i + 1, 10 * acc + (rest[i] as int - '0' as int));
    }
  }

  /** Printed numbers are read back, with either sign and with leading zeros. */
  lemma ParsePrinted(zeros: string, n: nat)
    requires n <= 9_223_372_036_854_775_807 && forall k | 0 <= k < |zeros| :: zeros[k] == '0'
    ensures ParseInt64(zeros + Itoa(n)) == Some(n) && ParseInt64("+" + zeros + Itoa(n)) == Some(n)
    ensures var v: int := n; ParseInt64("-" + zeros + Itoa(n)) == Some(-v)
  {
    hide Itoa, ParseInt64, Reading;
    var t := zeros + Itoa(n);
    ReadingPrinted(zeros, n);
    NumeralParsed(t, n);
    assert "+" + zeros + Itoa(n) == "+" + t && "-" + zeros + Itoa(n) == "-" + t;
  }

  lemma NumeralParsed(t: string, n: nat)
    requires IsNumeral(t) && Reading(t, 0, 0) == n <= 9_223_372_036_854_775_807
    ensures ParseInt64(t) == Some(n) && ParseInt64("+" + t) == Some(n)
    ensures var v: int := n; ParseInt64("-" + t) == Some(-v)
  {
    hide ParseInt64, Reading;
    assert Unsigned(t) == t && ("+" + t)[1..] == t && ("-" + t)[1..] == t;
    ParseMeaning(t);
    ParseMeaning("+" + t);
    ParseMeaning("-" + t);
  }
}
