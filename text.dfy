/**
 * The string operations the pipeline relies on: Python's `str.strip()`,
 * the `{n:03d}` format used for segment ids, and `'; '.join(...)` used
 * for the reference column of the detail report (with its inverse,
 * `str.split('; ')`, as a partner).
 */
module Text {

  // ---------------------------------------------------------------------------
  // str.strip()
  // ---------------------------------------------------------------------------

  /** Python's `str.isspace` for a single character (the set `strip()` removes). */
  predicate IsSpace(c: char)
  {
    || ('\t' <= c <= '\r')
    || ('\U{1C}' <= c <= '\U{1F}')
    || c == ' '
    || c == '\U{85}'
    || c == '\U{A0}'
    || c == '\U{1680}'
    || ('\U{2000}' <= c <= '\U{200A}')
    || c == '\U{2028}'
    || c == '\U{2029}'
    || c == '\U{202F}'
    || c == '\U{205F}'
    || c == '\U{3000}'
  }

  predicate AllSpace(s: string)
  {
    forall k | 0 <= k < |s| :: IsSpace(s[k])
  }

  /** How many whitespace characters `s` starts with (what `s.lstrip()` removes). */
  function LeadingSpace(s: string): (n: nat)
    ensures n <= |s|
    ensures forall k | 0 <= k < n :: IsSpace(s[k])
    ensures n == |s| || !IsSpace(s[n])
  {
    if s != [] && IsSpace(s[0]) then
      var n := 1 + LeadingSpace(s[1..]);
      assert forall k | 1 <= k < n :: s[k] == s[1..][k - 1];
      n
    else 0
  }

  /** How many whitespace characters `s` ends with (what `s.rstrip()` removes). */
  function TrailingSpace(s: string): (n: nat)
    ensures n <= |s|
    ensures forall k | |s| - n <= k < |s| :: IsSpace(s[k])
    ensures n == |s| || !IsSpace(s[|s| - 1 - n])
  {
    if s != [] && IsSpace(s[|s| - 1]) then
      var n := 1 + TrailingSpace(s[..|s| - 1]);
      assert forall k | |s| - n <= k < |s| - 1 :: s[k] == s[..|s| - 1][k];
      n
    else 0
  }

  /** `s` is `r` with whitespace only before position `i` and after `r`. */
  predicate Surrounds(s: string, i: nat, r: string)
  {
    i + |r| <= |s| && s[i..i + |r|] == r && AllSpace(s[..i]) && AllSpace(s[i + |r|..])
  }

  /**
   * `s.strip()`: `s` is the result surrounded by whitespace only, and the
   * result neither starts nor ends with whitespace.
   */
  function Strip(s: string): (r: string)
    ensures r == [] || (!IsSpace(r[0]) && !IsSpace(r[|r| - 1]))
    ensures exists i :: Surrounds(s, i, r)
  {
    var i := LeadingSpace(s);
    var t := s[i..];
    var r := t[..|t| - TrailingSpace(t)];
    var j := i + |r|;
    assert r == s[i..j];
    SpaceSlice(s, 0, i);
    SpaceSlice(s, j, |s|);
    assert Surrounds(s, i, r);
    r
  }

  /** A stretch of whitespace characters, taken as a slice, is all whitespace. */
  lemma SpaceSlice(s: string, lo: nat, hi: nat)
    requires lo <= hi <= |s| && forall k | lo <= k < hi :: IsSpace(s[k])
    ensures AllSpace(s[lo..hi])
  {
    assert forall k | 0 <= k < hi - lo :: s[lo..hi][k] == s[lo + k];
  }

  /** Stripping a line twice gives what stripping it once gives. */
  lemma {:induction false} StripIdempotent(s: string)
    ensures Strip(Strip(s)) == Strip(s)
  {
    var r := Strip(s);
    assert LeadingSpace(r) == 0;
    assert r[0..] == r;
    assert TrailingSpace(r) == 0;
  }

  /** `[line.strip() for line in lines]` */
  function StripLines(lines: seq<string>): (r: seq<string>)
    ensures |r| == |lines|
    ensures forall k | 0 <= k < |r| :: r[k] == Strip(lines[k])
  {
    seq(|lines|, k requires 0 <= k < |lines| => Strip(lines[k]))
  }

  // ---------------------------------------------------------------------------
  // Decimal numerals and f"{n:03d}"
  // ---------------------------------------------------------------------------

  predicate IsDigit(c: char)
  {
    '0' <= c <= '9'
  }

  predicate AllDigits(s: string)
  {
    forall k | 0 <= k < |s| :: IsDigit(s[k])
  }

  function DigitChar(d: nat): (c: char)
    requires d < 10
    ensures IsDigit(c) && c as int - '0' as int == d
  {
    ('0' as int + d) as char
  }

  /** The number a string of decimal digits denotes (leading zeros allowed). */
  function ValueOf(s: string): nat
    requires AllDigits(s)
  {
    if s == [] then 0 else ValueOf(s[..|s| - 1]) * 10 + (s[|s| - 1] as int - '0' as int)
  }

  /** `str(n)`: the canonical decimal numeral of `n`, without leading zeros. */
  function Decimal(n: nat): (s: string)
    ensures |s| >= 1 && AllDigits(s) && ValueOf(s) == n
    ensures |s| > 1 ==> s[0] != '0'
  {
    if n < 10 then [DigitChar(n)]
    else
      var s := Decimal(n / 10) + [DigitChar(n % 10)];
      assert s[..|s| - 1] == Decimal(n / 10);
      s
  }

  /** A zero in front of a numeral does not change its value. */
  lemma {:induction false} LeadingZeroValue(t: string)
    requires AllDigits(t)
    ensures AllDigits("0" + t) && ValueOf("0" + t) == ValueOf(t)
  {
    var u := "0" + t;
    if t != [] {
      LeadingZeroValue(t[..|t| - 1]);
      assert u[..|u| - 1] == "0" + t[..|t| - 1];
    }
  }

  /**
   * `f"{n:03d}"`: decimal digits denoting `n`, at least three of them, with a
   * leading zero only where it pads up to width three.
   */
  function ZeroPad3(n: nat): (s: string)
    ensures AllDigits(s) && ValueOf(s) == n
    ensures |s| >= 3
    ensures |s| > 3 ==> s[0] != '0'
  {
    var d := Decimal(n);
    assert |d| > 1 ==> d[0] != '0';
    PadLeft(d)
  }

  /** `d` with zeros in front until it is three characters wide. */
  function PadLeft(d: string): (s: string)
    requires AllDigits(d)
    ensures AllDigits(s) && ValueOf(s) == ValueOf(d)
    ensures |s| == if |d| >= 3 then |d| else 3
    ensures |d| >= 3 ==> s == d
    decreases 3 - |d|
  {
    if |d| >= 3 then d
    else
      LeadingZeroValue(d);
      PadLeft("0" + d)
  }

  /** `str(n)` for a few numbers of one, two and three digits. */
  lemma DecimalExamples()
    ensures Decimal(1) == "1" && Decimal(10) == "10" && Decimal(123) == "123"
  {
    assert Decimal(1) == "1";
    assert Decimal(10) == Decimal(1) + "0";
    assert Decimal(12) == Decimal(1) + "2" == "12";
    assert Decimal(123) == Decimal(12) + "3";
  }

  /** `f"{n:03d}"` pads one- and two-digit numbers and leaves three-digit ones alone. */
  lemma ZeroPad3Examples()
    ensures ZeroPad3(1) == "001" && ZeroPad3(10) == "010" && ZeroPad3(123) == "123"
  {
    DecimalExamples();
    assert PadLeft("1") == PadLeft("01") == PadLeft("001") == "001";
    assert PadLeft("10") == PadLeft("010") == "010";
  }

  /**
   * The positional id `prefix + f"{i+1:03d}"` of the element at 0-based index
   * `i`: the prefix followed by at least three digits denoting the 1-based
   * position, with no leading zero beyond the padding to width three.
   */
  function Label(prefix: string, i: nat): (id: string)
    ensures |id| >= |prefix| + 3 && id[..|prefix|] == prefix
    ensures AllDigits(id[|prefix|..]) && ValueOf(id[|prefix|..]) == i + 1
    ensures |id| > |prefix| + 3 ==> id[|prefix|] != '0'
  {
    var id := prefix + ZeroPad3(i + 1);
    assert id[|prefix|..] == ZeroPad3(i + 1);
    id
  }

  /** Two positions never share a label. */
  lemma LabelInjective(prefix: string, i: nat, j: nat)
    requires Label(prefix, i) == Label(prefix, j)
    ensures i == j
  {
    assert ValueOf(Label(prefix, i)[|prefix|..]) == i + 1;
  }

  /** Up to position 999 the label is exactly three digits wide. */
  lemma {:induction false} LabelWidth(prefix: string, i: nat)
    requires i < 999
    ensures |Label(prefix, i)| == |prefix| + 3
  {
    var d := Decimal(i + 1);
    if |d| > 3 {
      LeadingDigitBound(d);
      assert false;
    }
  }

  /** A numeral of more than three digits without a leading zero is at least 1000. */
  lemma {:induction false} LeadingDigitBound(s: string)
    requires AllDigits(s) && |s| > 3 && s[0] != '0'
    ensures ValueOf(s) >= 1000
  {
    if |s| == 4 {
      assert s[..3][..2][..1] == [s[0]];
      assert ValueOf([s[0]]) >= 1;
      assert ValueOf(s[..3][..2]) >= 10;
      assert ValueOf(s[..3]) >= 100;
    } else {
      assert s[..|s| - 1][0] == s[0];
      LeadingDigitBound(s[..|s| - 1]);
    }
  }

  // ---------------------------------------------------------------------------
  // '; '.join(parts) and its partner str.split('; ')
  // ---------------------------------------------------------------------------

  /**
   * `'; '.join(parts)`: nothing for no parts, and for parts free of `';'` the
   * result holds a `';'` exactly when there are at least two parts.
   */
  function Join(parts: seq<string>): (s: string)
    ensures parts == [] ==> s == ""
    ensures (forall k | 0 <= k < |parts| :: NoSemicolon(parts[k])) ==> (NoSemicolon(s) <==> |parts| <= 1)
  {
    if parts == [] then ""
    else if |parts| == 1 then parts[0]
    else
      var s := parts[0] + "; " + Join(parts[1..]);
      assert s[|parts[0]|] == ';';
      s
  }

  /** `s.split('; ')`: cuts at every separator, scanning left to right. */
  function Split(s: string): (parts: seq<string>)
    ensures |parts| >= 1
    decreases |s|
  {
    if |s| < 2 then [s]
    else if s[0] == ';' && s[1] == ' ' then [""] + Split(s[2..])
    else
      var rest := Split(s[1..]);
      [[s[0]] + rest[0]] + rest[1..]
  }

  predicate NoSemicolon(s: string)
  {
    forall k | 0 <= k < |s| :: s[k] != ';'
  }

  lemma {:induction false} SplitWithoutSeparator(s: string)
    requires NoSemicolon(s)
    ensures Split(s) == [s]
    decreases |s|
  {
    if |s| >= 2 {
      SplitWithoutSeparator(s[1..]);
      assert [s[0]] + s[1..] == s;
    }
  }

  lemma {:induction false} SplitAfterPart(a: string, rest: string)
    requires NoSemicolon(a)
    ensures Split(a + "; " + rest) == [a] + Split(rest)
    decreases |a|
  {
    var s := a + "; " + rest;
    if a == [] {
      assert s[2..] == rest;
    } else {
      SplitAfterPart(a[1..], rest);
      assert s[1..] == a[1..] + "; " + rest;
      assert [a[0]] + a[1..] == a;
    }
  }

  /**
   * Joining with `"; "` loses nothing when no part contains a `';'` and there
   * is at least one part: splitting the joined string gives the parts back.
   */
  lemma {:induction false} SplitJoin(parts: seq<string>)
    requires |parts| >= 1
    requires forall k | 0 <= k < |parts| :: NoSemicolon(parts[k])
    ensures Split(Join(parts)) == parts
  {
    if |parts| == 1 {
      SplitWithoutSeparator(parts[0]);
    } else {
      SplitJoin(parts[1..]);
      SplitAfterPart(parts[0], Join(parts[1..]));
    }
  }

  /** The empty reference list joins to `""`, which splits into one empty part. */
  lemma JoinEmptyNotRecovered()
    ensures Join([]) == "" && Split(Join([])) == [""]
  {
  }
}
