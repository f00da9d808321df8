/** String helpers shared by the backup model: prefix and suffix tests, decimal
    rendering of integers as Python's `str` and `strftime` produce it, and the
    newline-terminated line structure of the report. */
module Text {

  datatype Option<+T> = None | Some(value: T)

  predicate StartsWith(s: string, prefix: string) {
    |prefix| <= |s| && s[..|prefix|] == prefix
  }

  /** Python's `str.endswith`. */
  predicate EndsWith(s: string, suffix: string) {
    |suffix| <= |s| && s[|s| - |suffix|..] == suffix
  }

  lemma EndsWithAppend(s: string, suffix: string)
    ensures EndsWith(s + suffix, suffix)
  {
    assert (s + suffix)[|s|..] == suffix;
  }

  /** The rest of `s` after `prefix`, when `s` starts with it. */
  function StripPrefix(s: string, prefix: string): (r: Option<string>)
    ensures r.Some? <==> StartsWith(s, prefix)
    ensures r.Some? ==> s == prefix + r.value
  {
    if StartsWith(s, prefix) then
      assert s == s[..|prefix|] + s[|prefix|..];
      Some(s[|prefix|..])
    else None
  }

  lemma StripPrefixAppend(prefix: string, rest: string)
    ensures StripPrefix(prefix + rest, prefix) == Some(rest)
  {
    StartsWithAppend(prefix, rest);
    assert (prefix + rest)[|prefix|..] == rest;
  }

  lemma StartsWithAppend(prefix: string, s: string)
    ensures StartsWith(prefix + s, prefix)
  {
    assert (prefix + s)[..|prefix|] == prefix;
  }

  /** A string that ends with `long` also ends with every suffix of `long`. */
  lemma EndsWithSuffixOf(s: string, long: string, k: nat)
    requires EndsWith(s, long)
    requires k <= |long|
    ensures EndsWith(s, long[k..])
  {
    assert s[|s| - |long[k..]|..] == s[|s| - |long|..][k..];
  }

  // ---------------------------------------------------------------------------
  // Decimal digits

  predicate IsDigit(c: char) {
    '0' <= c <= '9'
  }

  predicate AllDigits(s: string) {
    forall i :: 0 <= i < |s| ==> IsDigit(s[i])
  }

  function DigitChar(d: nat): (c: char)
    requires d < 10
    ensures IsDigit(c)
    ensures DigitValue(c) == d
  {
    ('0' as int + d) as char
  }

  function DigitValue(c: char): (d: nat)
    requires IsDigit(c)
    ensures d < 10
  {
    c as int - '0' as int
  }

  /** The number a string of digits denotes, most significant digit first. */
  function DecimalValue(s: string): nat
    requires AllDigits(s)
  {
    if |s| == 0 then 0 else 10 * DecimalValue(s[..|s| - 1]) + DigitValue(s[|s| - 1])
  }

  /** `str(n)` for a non-negative Python int: at least one digit and no
      leading zero unless the number itself is zero. */
  function NatToDecimal(n: nat): (s: string)
    ensures 1 <= |s|
    ensures AllDigits(s)
    ensures s[0] == '0' <==> n == 0
    ensures n < 10 <==> |s| == 1
  {
    if n < 10 then [DigitChar(n)] else NatToDecimal(n / 10) + [DigitChar(n % 10)]
  }

  lemma {:induction false} NatToDecimalValue(n: nat)
    ensures DecimalValue(NatToDecimal(n)) == n
  {
    var s := NatToDecimal(n);
    if n >= 10 {
      NatToDecimalValue(n / 10);
      assert s[..|s| - 1] == NatToDecimal(n / 10);
    }
  }

  /** The decimal reader that accepts exactly what `NatToDecimal` writes. */
  function ParseNat(s: string): (r: Option<nat>)
    ensures r.Some? ==> AllDigits(s) && r.value == DecimalValue(s)
    ensures r.Some? <==> 1 <= |s| && AllDigits(s) && (s[0] == '0' ==> |s| == 1)
  {
    if 1 <= |s| && AllDigits(s) && (s[0] == '0' ==> |s| == 1) then Some(DecimalValue(s)) else None
  }

  lemma ParseNatRoundTrip(n: nat)
    ensures ParseNat(NatToDecimal(n)) == Some(n)
  {
    NatToDecimalValue(n);
  }

  /** Zero-padded two-digit field, as `%m`, `%d`, `%H`, `%M`, `%S` print it. */
  function Pad2(n: nat): (s: string)
    requires n < 100
    ensures |s| == 2 && AllDigits(s)
  {
    [DigitChar(n / 10), DigitChar(n % 10)]
  }

  /** Zero-padded four-digit field, as `%Y` prints a year from 1000 to 9999. */
  function Pad4(n: nat): (s: string)
    requires n < 10000
    ensures |s| == 4 && AllDigits(s)
  {
    Pad2(n / 100) + Pad2(n % 100)
  }

  lemma Pad2Value(n: nat)
    requires n < 100
    ensures DecimalValue(Pad2(n)) == n
  {
    var s := Pad2(n);
    assert s[..1][..0] == [];
    assert s[..1] == [DigitChar(n / 10)];
    assert DecimalValue(s[..1]) == n / 10;
    assert DecimalValue(s) == 10 * (n / 10) + n % 10;
  }

  lemma Pad4Value(n: nat)
    requires n < 10000
    ensures DecimalValue(Pad4(n)) == n
  {
    var s := Pad4(n);
    var hi, lo := Pad2(n / 100), Pad2(n % 100);
    Pad2Value(n / 100);
    assert s[..3] == hi + lo[..1];
    assert s[..3][..2] == hi;
    calc {
      DecimalValue(s);
      10 * DecimalValue(s[..3]) + DigitValue(lo[1]);
      10 * (10 * DecimalValue(hi) + DigitValue(lo[0])) + DigitValue(lo[1]);
      100 * (n / 100) + 10 * ((n % 100) / 10) + (n % 100) % 10;
    }
  }

  // ---------------------------------------------------------------------------
  // Lines

  predicate NoNewline(s: string) {
    forall i :: 0 <= i < |s| ==> s[i] != '\n'
  }

  /** Each line followed by a newline, the layout the report is written in. */
  function Unlines(lines: seq<string>): string {
    if |lines| == 0 then "" else lines[0] + "\n" + Unlines(lines[1..])
  }

  lemma {:induction false} UnlinesAppend(a: seq<string>, b: seq<string>)
    ensures Unlines(a + b) == Unlines(a) + Unlines(b)
    decreases |a|
  {
    if |a| == 0 {
      assert a + b == b;
    } else {
      assert (a + b)[1..] == a[1..] + b;
      UnlinesAppend(a[1..], b);
    }
  }

  /** Position of the first `c` in `s`, or `|s|` when there is none. */
  function FirstIndexOf(s: string, c: char): (k: nat)
    ensures k <= |s|
    ensures k < |s| ==> s[k] == c
    ensures forall j :: 0 <= j < k ==> s[j] != c
  {
    if |s| == 0 then 0
    else if s[0] == c then 0
    else
      var k := 1 + FirstIndexOf(s[1..], c);
      assert forall j :: 1 <= j < k ==> s[j] == s[1..][j - 1];
      k
  }

  /** The first `c` after a `c`-free head is the one that follows it. */
  lemma {:induction false} FirstIndexOfJoined(head: string, c: char, rest: string)
    requires forall j :: 0 <= j < |head| ==> head[j] != c
    ensures FirstIndexOf(head + [c] + rest, c) == |head|
    decreases |head|
  {
    var s := head + [c] + rest;
    if |head| > 0 {
      assert s[1..] == head[1..] + [c] + rest;
      FirstIndexOfJoined(head[1..], c, rest);
    }
  }

  /** Splits text into its lines; a final line without a newline is kept. */
  function SplitLines(s: string): seq<string>
    decreases |s|
  {
    if |s| == 0 then []
    else
      var k := FirstIndexOf(s, '\n');
      if k == |s| then [s] else [s[..k]] + SplitLines(s[k + 1..])
  }

  /** Reading the lines back out of `Unlines` recovers them, provided no line
      carries a newline of its own. */
  lemma {:induction false} SplitUnlines(lines: seq<string>)
    requires forall i :: 0 <= i < |lines| ==> NoNewline(lines[i])
    ensures SplitLines(Unlines(lines)) == lines
    decreases |lines|
  {
    if |lines| > 0 {
      var s := Unlines(lines);
      var head := lines[0];
      assert s == head + "\n" + Unlines(lines[1..]);
      FirstIndexOfJoined(head, '\n', Unlines(lines[1..]));
      assert s[..|head|] == head;
      assert s[|head| + 1..] == Unlines(lines[1..]);
      SplitUnlines(lines[1..]);
    }
  }

  lemma NoNewlineConcat(a: string, b: string)
    requires NoNewline(a) && NoNewline(b)
    ensures NoNewline(a + b)
  {
    assert forall i :: |a| <= i < |a + b| ==> (a + b)[i] == b[i - |a|];
  }
}
