/** Band labels `p<lower>p<upper>` and their parser `parse_percentile`
    (app.py:151-153): strip every leading and trailing 'p', split the rest on
    'p', and read each part as a number. Numbers are exact decimals
    `digits[.digits]`, read as reals. */
module Percentile {

  /** Drops every leading c (the left half of Python's `str.strip(c)`). */
  function StripLeading(s: string, c: char): (r: string)
    ensures |r| <= |s| && r == s[|s| - |r|..]
    ensures forall k :: 0 <= k < |s| - |r| ==> s[k] == c
    ensures r == [] || r[0] != c
  {
    if |s| > 0 && s[0] == c then StripLeading(s[1..], c) else s
  }

  /** Drops every trailing c (the right half of Python's `str.strip(c)`). */
  function StripTrailing(s: string, c: char): (r: string)
    ensures |r| <= |s| && r == s[..|r|]
    ensures forall k :: |r| <= k < |s| ==> s[k] == c
    ensures r == [] || r[|r| - 1] != c
  {
    if |s| > 0 && s[|s| - 1] == c then StripTrailing(s[..|s| - 1], c) else s
  }

  /** Python's `s.strip(c)`. */
  function Strip(s: string, c: char): string
  {
    StripTrailing(StripLeading(s, c), c)
  }

  /** A string that neither starts nor ends with c is its own strip. */
  lemma StripNoop(s: string, c: char)
    requires s == [] || (s[0] != c && s[|s| - 1] != c)
    ensures Strip(s, c) == s
  {
  }

  /** The position of the first c in s. */
  function IndexOf(s: string, c: char): (i: nat)
    requires c in s
    ensures i < |s| && s[i] == c && c !in s[..i]
  {
    if s[0] == c then 0 else 1 + IndexOf(s[1..], c)
  }

  /** Joins non-empty lists of parts with sep between neighbours (Python's
      `sep.join(parts)`), the inverse of Split. */
  function Join(parts: seq<string>, sep: char): string
    requires |parts| > 0
  {
    if |parts| == 1 then parts[0] else parts[0] + [sep] + Join(parts[1..], sep)
  }

  /** Python's `s.split(sep)` for a one-character separator: the maximal
      sep-free pieces between the occurrences of sep, so "" gives [""] and
      k occurrences give k + 1 parts. */
  function Split(s: string, sep: char): (parts: seq<string>)
    ensures |parts| > 0
    ensures forall i :: 0 <= i < |parts| ==> sep !in parts[i]
    ensures Join(parts, sep) == s
    decreases |s|
  {
    if sep !in s then [s]
    else
      var i := IndexOf(s, sep);
      assert s == s[..i] + [sep] + s[i + 1..];
      [s[..i]] + Split(s[i + 1..], sep)
  }

  /** In a join whose first part is sep-free, the first sep ends that part. */
  lemma JoinHead(parts: seq<string>, sep: char)
    requires |parts| > 1 && sep !in parts[0]
    ensures sep in Join(parts, sep)
    ensures IndexOf(Join(parts, sep), sep) == |parts[0]|
    ensures Join(parts, sep)[..|parts[0]|] == parts[0]
    ensures Join(parts, sep)[|parts[0]| + 1..] == Join(parts[1..], sep)
  {
    var s := Join(parts, sep);
    var n := |parts[0]|;
    assert s == parts[0] + [sep] + Join(parts[1..], sep);
    assert s[n] == sep;
    assert s[..n] == parts[0];
  }

  /** Splitting a join of sep-free parts gives the parts back. */
  lemma {:induction false} SplitJoin(parts: seq<string>, sep: char)
    requires |parts| > 0
    requires forall i :: 0 <= i < |parts| ==> sep !in parts[i]
    ensures Split(Join(parts, sep), sep) == parts
    decreases |parts|
  {
    if |parts| > 1 {
      JoinHead(parts, sep);
      SplitJoin(parts[1..], sep);
      assert parts == [parts[0]] + parts[1..];
    } else {
      assert sep !in parts[0];
    }
  }

  predicate IsDigit(c: char)
  {
    '0' <= c <= '9'
  }

  /** s[lo..hi] consists of digits only. */
  predicate DigitsIn(s: string, lo: nat, hi: nat)
    requires lo <= hi <= |s|
  {
    forall k :: lo <= k < hi ==> IsDigit(s[k])
  }

  /** The number written by the digits s[lo..hi], most significant first. */
  function DigitsValue(s: string, lo: nat, hi: nat): nat
    requires lo <= hi <= |s| && DigitsIn(s, lo, hi)
    decreases hi - lo
  {
    if lo == hi then 0
    else 10 * DigitsValue(s, lo, hi - 1) + (s[hi - 1] as int - '0' as int)
  }

  /** The position of the first '.' at or after i, or |s| when there is none. */
  function DotFrom(s: string, i: nat): (d: nat)
    requires i <= |s|
    ensures i <= d <= |s|
    ensures forall k :: i <= k < d ==> s[k] != '.'
    ensures d < |s| ==> s[d] == '.'
    decreases |s| - i
  {
    if i == |s| || s[i] == '.' then i else DotFrom(s, i + 1)
  }

  function Pow10(e: nat): (r: nat)
    ensures r > 0
  {
    if e == 0 then 1 else 10 * Pow10(e - 1)
  }

  /** A decimal numeral `digits` or `digits.digits`, with at least one digit
      on each side of the point. */
  predicate IsDecimal(s: string)
  {
    var d := DotFrom(s, 0);
    0 < d && DigitsIn(s, 0, d) && (d == |s| || (d + 1 < |s| && DigitsIn(s, d + 1, |s|)))
  }

  /** The exact value of a decimal numeral (Python's `float`, without its
      rounding to binary). */
  function DecValue(s: string): (v: real)
    requires IsDecimal(s)
    ensures 0.0 <= v
  {
    var d := DotFrom(s, 0);
    DigitsValue(s, 0, d) as real
      + if d == |s| then 0.0 else DigitsValue(s, d + 1, |s|) as real / Pow10(|s| - d - 1) as real
  }

  /** The 'p'-separated parts of a label stripped of its outer 'p's. */
  function Parts(x: string): seq<string>
  {
    Split(Strip(x, 'p'), 'p')
  }

  /** Every part is a decimal numeral. */
  predicate AllDecimal(parts: seq<string>)
  {
    forall i :: 0 <= i < |parts| ==> IsDecimal(parts[i])
  }

  /** The labels the parser accepts: every part is a decimal numeral. */
  predicate WellFormed(x: string)
  {
    AllDecimal(Parts(x))
  }

  /** `parse_percentile`: the values of the 'p'-separated parts of the
      stripped label, in order. */
  function ParsePercentile(x: string): (bounds: seq<real>)
    requires WellFormed(x)
    ensures |bounds| > 0
  {
    var parts := Parts(x);
    seq(|parts|, i requires 0 <= i < |parts| => DecValue(parts[i]))
  }

  /** The band label `p{lower}p{upper}` of two numerals. */
  function Band(lower: string, upper: string): string
  {
    "p" + lower + "p" + upper
  }

  /** A decimal numeral contains no 'p', starts and ends with a digit. */
  lemma DecimalShape(s: string)
    requires IsDecimal(s)
    ensures 'p' !in s && IsDigit(s[0]) && IsDigit(s[|s| - 1])
  {
    var d := DotFrom(s, 0);
    forall k | 0 <= k < |s|
      ensures s[k] != 'p'
    {
      if k < d {
        assert IsDigit(s[k]);
      } else if k > d {
        assert IsDigit(s[k]);
      }
    }
  }

  /** Stripping 'p' from a band label of two numerals leaves the two
      numerals joined by 'p'. */
  lemma StripBand(lower: string, upper: string)
    requires IsDecimal(lower) && IsDecimal(upper)
    ensures Strip(Band(lower, upper), 'p') == Join([lower, upper], 'p')
  {
    DecimalShape(lower);
    DecimalShape(upper);
    var inner := lower + "p" + upper;
    assert StripLeading(Band(lower, upper), 'p') == inner by {
      assert Band(lower, upper) == "p" + inner;
      assert Band(lower, upper)[1..] == inner;
    }
    assert StripTrailing(inner, 'p') == inner;
    assert inner == Join([lower, upper], 'p');
  }

  /** A label whose stripped parts are two numerals parses to their values. */
  lemma ParseTwo(x: string, a: string, b: string)
    requires Parts(x) == [a, b] && IsDecimal(a) && IsDecimal(b)
    ensures WellFormed(x)
    ensures ParsePercentile(x) == [DecValue(a), DecValue(b)]
  {
    assert AllDecimal([a, b]);
    var bounds := ParsePercentile(x);
    assert |bounds| == 2 && bounds[0] == DecValue(a) && bounds[1] == DecValue(b);
  }

  /** The parser reads a band label of two numerals back as exactly their
      two values. */
  lemma ParseBand(lower: string, upper: string)
    requires IsDecimal(lower) && IsDecimal(upper)
    ensures WellFormed(Band(lower, upper))
    ensures ParsePercentile(Band(lower, upper)) == [DecValue(lower), DecValue(upper)]
  {
    DecimalShape(lower);
    DecimalShape(upper);
    StripBand(lower, upper);
    SplitJoin([lower, upper], 'p');
    ParseTwo(Band(lower, upper), lower, upper);
  }

  /** The decimal digit character of d < 10. */
  function DigitChar(d: nat): (c: char)
    requires d < 10
    ensures IsDigit(c) && c as int - '0' as int == d
  {
    ('0' as int + d) as char
  }

  /** Python's `str(n)` for a natural number (`"{}".format(n)`). */
  function NatStr(n: nat): (s: string)
    ensures |s| > 0 && forall k :: 0 <= k < |s| ==> IsDigit(s[k])
  {
    if n < 10 then [DigitChar(n)] else NatStr(n / 10) + [DigitChar(n % 10)]
  }

  /** DigitsValue looks only at the digits it is given. */
  lemma {:induction false} DigitsValuePrefix(s: string, t: string, hi: nat)
    requires hi <= |s| && DigitsIn(s, 0, hi)
    ensures DigitsIn(s + t, 0, hi) && DigitsValue(s + t, 0, hi) == DigitsValue(s, 0, hi)
    decreases hi
  {
    assert forall k :: 0 <= k < hi ==> (s + t)[k] == s[k];
    if hi > 0 {
      DigitsValuePrefix(s, t, hi - 1);
    }
  }

  /** `str(n)` has no point, and its digits are worth n. */
  lemma {:induction false} NatStrDigits(n: nat)
    ensures DotFrom(NatStr(n), 0) == |NatStr(n)|
    ensures DigitsValue(NatStr(n), 0, |NatStr(n)|) == n
  {
    var s := NatStr(n);
    assert forall k :: 0 <= k < |s| ==> s[k] != '.';
    if n >= 10 {
      var p := NatStr(n / 10);
      NatStrDigits(n / 10);
      DigitsValuePrefix(p, [DigitChar(n % 10)], |p|);
      assert s == p + [DigitChar(n % 10)];
      assert DigitsValue(s, 0, |s|) == 10 * DigitsValue(s, 0, |p|) + n % 10;
    }
    assert DigitsValue(s, 0, |s|) == n;
  }

  /** `str(n)` is a decimal numeral whose value is n. */
  lemma NatStrValue(n: nat)
    ensures IsDecimal(NatStr(n)) && DecValue(NatStr(n)) == n as real
  {
    var s := NatStr(n);
    NatStrDigits(n);
    assert DecValue(s) == DigitsValue(s, 0, |s|) as real + 0.0;
  }

  /** The lower bound of a band label: the first parsed number (app.py:84). */
  function Lower(x: string): real
    requires WellFormed(x)
  {
    ParsePercentile(x)[0]
  }

  /** `"99." + j`: tenths of a percentile above 99. */
  function Tenth(j: nat): string
    requires j < 10
  {
    "99." + [DigitChar(j)]
  }

  /** `"99.9" + j`: hundredths of a percentile above 99.9. */
  function Hundredth(j: nat): string
    requires j < 10
  {
    "99.9" + [DigitChar(j)]
  }

  /** `"99.99" + j`: thousandths of a percentile above 99.99. */
  function Thousandth(j: nat): string
    requires j < 10
  {
    "99.99" + [DigitChar(j)]
  }

  /** A numeral `w.f` with w and f digit strings reads as w + f / 10^|f|. */
  lemma PointNumeral(s: string, d: nat)
    requires 0 < d && d + 1 < |s| && s[d] == '.'
    requires DigitsIn(s, 0, d) && DigitsIn(s, d + 1, |s|)
    ensures IsDecimal(s)
    ensures DecValue(s) == DigitsValue(s, 0, d) as real + DigitsValue(s, d + 1, |s|) as real / Pow10(|s| - d - 1) as real
  {
    assert forall k :: 0 <= k < d ==> s[k] != '.';
    assert DotFrom(s, 0) == d;
  }

  lemma TenthValue(j: nat)
    requires j < 10
    ensures IsDecimal(Tenth(j)) && DecValue(Tenth(j)) == 99.0 + j as real / 10.0
  {
    var s := Tenth(j);
    assert s[0] == '9' && s[1] == '9' && s[2] == '.' && s[3] == DigitChar(j);
    PointNumeral(s, 2);
    assert DigitsValue(s, 0, 2) == 99;
    assert DigitsValue(s, 3, 4) == j;
  }

  lemma HundredthValue(j: nat)
    requires j < 10
    ensures IsDecimal(Hundredth(j)) && DecValue(Hundredth(j)) == 99.9 + j as real / 100.0
  {
    var s := Hundredth(j);
    assert s[0] == '9' && s[1] == '9' && s[2] == '.' && s[3] == '9' && s[4] == DigitChar(j);
    PointNumeral(s, 2);
    assert DigitsValue(s, 0, 2) == 99;
    assert DigitsValue(s, 3, 5) == 90 + j;
  }

  lemma ThousandthValue(j: nat)
    requires j < 10
    ensures IsDecimal(Thousandth(j)) && DecValue(Thousandth(j)) == 99.99 + j as real / 1000.0
  {
    var s := Thousandth(j);
    assert s[0] == '9' && s[1] == '9' && s[2] == '.' && s[3] == '9' && s[4] == '9' && s[5] == DigitChar(j);
    PointNumeral(s, 2);
    assert DigitsValue(s, 0, 2) == 99;
    assert DigitsValue(s, 3, 5) == 99;
    assert DigitsValue(s, 3, 6) == 990 + j;
  }
}
