/**
  The few string operations the digest engine relies on: `str.strip()`,
  `str.lower()`, `str.join` and the decimal rendering of an `int` inside an
  f-string. Strings are `seq<char>` over Unicode scalar values.
 */
module Text {

  /** Whitespace as `str.strip()` sees it, restricted to the ASCII range:
      tab, line feed, vertical tab, form feed, carriage return, the four
      information separators and the space. */
  predicate IsSpace(c: char) {
    c == ' ' || ('\U{9}' <= c <= '\U{D}') || ('\U{1C}' <= c <= '\U{1F}')
  }

  /** The end of the whitespace run that starts at `i`. */
  function SpaceEnd(s: string, i: nat): (j: nat)
    requires i <= |s|
    ensures i <= j <= |s|
    ensures forall m :: i <= m < j ==> IsSpace(s[m])
    ensures j == |s| || !IsSpace(s[j])
    decreases |s| - i
  {
    if i < |s| && IsSpace(s[i]) then SpaceEnd(s, i + 1) else i
  }

  /** The start of the whitespace run that ends at `j`, going no lower
      than `a`. */
  function SpaceStart(s: string, a: nat, j: nat): (i: nat)
    requires a <= j <= |s|
    ensures a <= i <= j
    ensures forall m :: i <= m < j ==> IsSpace(s[m])
    ensures i == a || !IsSpace(s[i - 1])
    decreases j
  {
    if a < j && IsSpace(s[j - 1]) then SpaceStart(s, a, j - 1) else j
  }

  predicate AllSpace(s: string) {
    forall i :: 0 <= i < |s| ==> IsSpace(s[i])
  }

  /** Python's `s.strip()`: the input with its leading and trailing
      whitespace cut off and nothing else. A blank text strips to the empty
      string, and anything else keeps a non-blank first and last character. */
  function Strip(s: string): (r: string)
    ensures |r| <= |s|
    ensures exists k :: 0 <= k && k + |r| <= |s| && r == s[k..k + |r|]
              && AllSpace(s[..k]) && AllSpace(s[k + |r|..])
    ensures r == [] <==> AllSpace(s)
    ensures r == [] || (!IsSpace(r[0]) && !IsSpace(r[|r| - 1]))
  {
    var a := SpaceEnd(s, 0);
    var b := SpaceStart(s, a, |s|);
    StrippedWindow(s, a, b, s[a..b]);
    s[a..b]
  }

  /** The window the two scans leave meets the contract of `Strip`. */
  lemma StrippedWindow(s: string, a: nat, b: nat, r: string)
    requires a <= b <= |s| && r == s[a..b]
    requires forall m :: 0 <= m < a ==> IsSpace(s[m])
    requires a == |s| || !IsSpace(s[a])
    requires forall m :: b <= m < |s| ==> IsSpace(s[m])
    requires b == a || !IsSpace(s[b - 1])
    ensures |r| <= |s|
    ensures exists k :: 0 <= k && k + |r| <= |s| && r == s[k..k + |r|]
              && AllSpace(s[..k]) && AllSpace(s[k + |r|..])
    ensures r == [] <==> AllSpace(s)
    ensures r == [] || (!IsSpace(r[0]) && !IsSpace(r[|r| - 1]))
  {
    StrippedMargins(s, a, b);
    StrippedEnds(s, a, b);
    if r != [] {
      assert r[0] == s[a] && r[|r| - 1] == s[b - 1];
    }
  }

  /** The two scans leave a window with blank margins. */
  lemma StrippedMargins(s: string, a: nat, b: nat)
    requires a <= b <= |s|
    requires forall m :: 0 <= m < a ==> IsSpace(s[m])
    requires forall m :: b <= m < |s| ==> IsSpace(s[m])
    ensures var r := s[a..b];
      exists k :: 0 <= k && k + |r| <= |s| && r == s[k..k + |r|]
        && AllSpace(s[..k]) && AllSpace(s[k + |r|..])
  {
    var r := s[a..b];
    assert a + |r| == b;
    assert AllSpace(s[..a]) && AllSpace(s[b..]);
  }

  /** The window the scans leave is empty exactly when the text is blank,
      and otherwise has non-blank ends. */
  lemma StrippedEnds(s: string, a: nat, b: nat)
    requires a <= b <= |s|
    requires forall m :: 0 <= m < a ==> IsSpace(s[m])
    requires a == |s| || !IsSpace(s[a])
    requires forall m :: b <= m < |s| ==> IsSpace(s[m])
    requires b == a || !IsSpace(s[b - 1])
    ensures a == b <==> AllSpace(s)
    ensures a == b || (!IsSpace(s[a]) && !IsSpace(s[b - 1]))
  {
    if a < |s| {
      assert !IsSpace(s[a]);
    }
  }

  /** Stripping recovers the core of any text padded with whitespace on both
      sides, as long as the core itself starts and ends with non-whitespace. */
  lemma StripPadded(w1: string, c: string, w2: string)
    requires AllSpace(w1) && AllSpace(w2)
    requires c != [] && !IsSpace(c[0]) && !IsSpace(c[|c| - 1])
    ensures Strip(w1 + c + w2) == c
  {
    PaddedLayout(w1, c, w2);
    StripOfWindow(w1 + c + w2, c, |w1|);
  }

  /** A text whose only non-blank stretch is `c`, sitting at offset `a`,
      strips to `c`. */
  lemma StripOfWindow(s: string, c: string, a: nat)
    requires c != [] && !IsSpace(c[0]) && !IsSpace(c[|c| - 1])
    requires a + |c| <= |s| && s[a..a + |c|] == c
    requires forall i :: 0 <= i < a ==> IsSpace(s[i])
    requires forall i :: a + |c| <= i < |s| ==> IsSpace(s[i])
    ensures Strip(s) == c
  {
    var k := SpaceEnd(s, 0);
    WindowIsCore(s, c, a, Strip(s), k);
  }

  lemma WindowIsCore(s: string, c: string, a: nat, r: string, k: nat)
    requires c != [] && !IsSpace(c[0]) && !IsSpace(c[|c| - 1])
    requires a + |c| <= |s| && s[a..a + |c|] == c
    requires forall i :: 0 <= i < a ==> IsSpace(s[i])
    requires forall i :: a + |c| <= i < |s| ==> IsSpace(s[i])
    requires k + |r| <= |s| && r == s[k..k + |r|] && AllSpace(s[..k]) && AllSpace(s[k + |r|..])
    requires r == [] || (!IsSpace(r[0]) && !IsSpace(r[|r| - 1]))
    ensures r == c
  {
    assert s[a] == c[0] && s[a + |c| - 1] == c[|c| - 1];
    assert r != [] ==> r[0] == s[k] && r[|r| - 1] == s[k + |r| - 1];
    StripBounds(s, a, a + |c|, k, |r|);
  }

  /** Where the margins and the core sit in a padded text. */
  lemma PaddedLayout(w1: string, c: string, w2: string)
    requires AllSpace(w1) && AllSpace(w2)
    ensures var s := w1 + c + w2;
      && (forall i :: 0 <= i < |w1| ==> IsSpace(s[i]))
      && (forall i :: |w1| + |c| <= i < |s| ==> IsSpace(s[i]))
      && s[|w1|..|w1| + |c|] == c
  {
    var s := w1 + c + w2;
    forall i | |w1| + |c| <= i < |s|
      ensures IsSpace(s[i])
    {
      assert s[i] == w2[i - |w1| - |c|];
    }
  }

  /** The only window of `s` with blank outside and non-blank ends that
      covers a non-blank position is the one between the blank margins. */
  lemma StripBounds(s: string, a: nat, b: nat, k: nat, n: nat)
    requires a < b <= |s| && k + n <= |s|
    requires forall i :: 0 <= i < a ==> IsSpace(s[i])
    requires forall i :: b <= i < |s| ==> IsSpace(s[i])
    requires !IsSpace(s[a]) && !IsSpace(s[b - 1])
    requires AllSpace(s[..k]) && AllSpace(s[k + n..])
    requires n == 0 || (!IsSpace(s[k]) && !IsSpace(s[k + n - 1]))
    ensures k == a && k + n == b
  {
  }

  /** Python's `str.lower()` on one character, for ASCII letters and the
      Polish capitals; every other character is left as it is. */
  function LowerChar(c: char): char {
    if 'A' <= c <= 'Z' then (c as int + 32) as char
    else if c == 'Ą' then 'ą'
    else if c == 'Ć' then 'ć'
    else if c == 'Ę' then 'ę'
    else if c == 'Ł' then 'ł'
    else if c == 'Ń' then 'ń'
    else if c == 'Ó' then 'ó'
    else if c == 'Ś' then 'ś'
    else if c == 'Ź' then 'ź'
    else if c == 'Ż' then 'ż'
    else c
  }

  function Lower(s: string): string {
    seq(|s|, i requires 0 <= i < |s| => LowerChar(s[i]))
  }

  /** Lower-casing leaves whitespace alone and turns nothing else into
      whitespace. */
  lemma LowerKeepsSpace(c: char)
    ensures IsSpace(LowerChar(c)) <==> IsSpace(c)
  {
  }

  /** Python's `sep.join(parts)`. */
  function Join(parts: seq<string>, sep: string): string
    decreases |parts|
  {
    if |parts| == 0 then ""
    else if |parts| == 1 then parts[0]
    else parts[0] + sep + Join(parts[1..], sep)
  }

  /** The first part always opens the joined text. */
  lemma {:induction false} JoinStartsWithFirst(parts: seq<string>, sep: string)
    requires |parts| > 0
    ensures parts[0] <= Join(parts, sep)
  {
  }

  predicate IsDigit(c: char) {
    '0' <= c <= '9'
  }

  function DigitChar(d: nat): (c: char)
    requires d < 10
    ensures IsDigit(c)
  {
    ('0' as int + d) as char
  }

  function DigitValue(c: char): nat
    requires IsDigit(c)
  {
    c as int - '0' as int
  }

  /** The decimal rendering `f"{n}"` of a non-negative integer. */
  function Decimal(n: nat): (r: string)
    ensures |r| >= 1
    ensures forall i :: 0 <= i < |r| ==> IsDigit(r[i])
    ensures r[0] == '0' ==> n == 0
  {
    if n < 10 then [DigitChar(n)] else Decimal(n / 10) + [DigitChar(n % 10)]
  }

  /** Reads a string of digits back as a number (Python's `int(s)`). */
  function ParseDecimal(s: string): nat
    requires forall i :: 0 <= i < |s| ==> IsDigit(s[i])
    decreases |s|
  {
    if s == [] then 0
    else ParseDecimal(s[..|s| - 1]) * 10 + DigitValue(s[|s| - 1])
  }

  /** The rendering of a count can be read back as that count, so distinct
      totals give distinct "possible" lines. */
  lemma {:induction false} DecimalRoundTrip(n: nat)
    ensures ParseDecimal(Decimal(n)) == n
  {
    if n >= 10 {
      var s := Decimal(n);
      assert s[..|s| - 1] == Decimal(n / 10);
      DecimalRoundTrip(n / 10);
    }
  }

  /** Rendering is injective. */
  lemma DecimalInjective(m: nat, n: nat)
    requires Decimal(m) == Decimal(n)
    ensures m == n
  {
    DecimalRoundTrip(m);
    DecimalRoundTrip(n);
  }
}
