/**
 * The few pieces of .NET behaviour the domain classes rely on: 32-bit
 * integers, `char.IsWhiteSpace`, `string.IsNullOrWhiteSpace` and the
 * decimal text `Int32.ToString()` produces, together with a reader that
 * inverts that text.
 */
module Runtime {
  import opened Wrappers

  /** C#'s `int`. */
  newtype int32 = x: int | -0x8000_0000 <= x < 0x8000_0000

  /**
   * `char.IsWhiteSpace`: the Unicode space, line and paragraph separators,
   * the control characters U+0009 to U+000D, and U+0085.
   */
  predicate IsWhiteSpace(c: char) {
    || ('\U{9}' <= c <= '\U{D}')
    || c == ' '
    || c == '\U{85}'
    || c == '\U{A0}'
    || c == '\U{1680}'
    || ('\U{2000}' <= c <= '\U{200A}')
    || c == '\U{2028}'
    || c == '\U{2029}'
    || c == '\U{202F}'
    || c == '\U{205F}'
    || c == '\U{3000}'
  }

  /** `string.IsNullOrWhiteSpace` on a non-null string: empty, or only white space. */
  predicate IsNullOrWhiteSpace(s: string) {
    forall i :: 0 <= i < |s| ==> IsWhiteSpace(s[i])
  }

  /** Where .NET's white-space set begins and ends. */
  lemma WhiteSpaceExamples()
    ensures IsNullOrWhiteSpace("")
    ensures IsNullOrWhiteSpace(" \t\n\U{A0}\U{3000}")
    ensures !IsNullOrWhiteSpace("\U{200B}") && !IsNullOrWhiteSpace("\U{FEFF}")
    ensures !IsNullOrWhiteSpace(" x ")
  {
    assert " x "[1] == 'x';
    assert "\U{200B}"[0] == '\U{200B}' && "\U{FEFF}"[0] == '\U{FEFF}';
    var w := " \t\n\U{A0}\U{3000}";
    assert w[0] == ' ' && w[1] == '\t' && w[2] == '\n' && w[3] == '\U{A0}' && w[4] == '\U{3000}';
  }

  predicate IsDigit(c: char) {
    '0' <= c <= '9'
  }

  predicate AllDigits(s: string) {
    forall i :: 0 <= i < |s| ==> IsDigit(s[i])
  }

  function DigitChar(d: nat): (c: char)
    requires d < 10
    ensures IsDigit(c)
    ensures c as int - '0' as int == d
  {
    ('0' as int + d) as char
  }

  function DigitValue(c: char): (d: nat)
    requires IsDigit(c)
    ensures d < 10 && DigitChar(d) == c
  {
    c as int - '0' as int
  }

  /** The decimal digits of `n`, most significant first, without leading zeros. */
  function NatString(n: nat): (s: string)
    ensures |s| >= 1 && AllDigits(s)
    ensures n < 10 <==> |s| == 1
    ensures n >= 10 ==> s[0] != '0'
  {
    if n < 10 then [DigitChar(n)] else NatString(n / 10) + [DigitChar(n % 10)]
  }

  /** The value of a non-empty string of decimal digits. */
  function ParseNat(s: string): (n: nat)
    requires |s| >= 1 && AllDigits(s)
  {
    if |s| == 1 then DigitValue(s[0])
    else 10 * ParseNat(s[..|s| - 1]) + DigitValue(s[|s| - 1])
  }

  lemma {:induction false} ParseNatString(n: nat)
    ensures ParseNat(NatString(n)) == n
  {
    if n >= 10 {
      var s := NatString(n);
      assert s[..|s| - 1] == NatString(n / 10);
      ParseNatString(n / 10);
    }
  }

  /** `Int32.ToString()` with the invariant culture's minus sign. */
  function IntString(n: int): (r: string)
    ensures |r| >= 1 && (r[0] == '-' <==> n < 0)
    ensures forall i :: (if n < 0 then 1 else 0) <= i < |r| ==> IsDigit(r[i])
  {
    if n < 0 then "-" + NatString(-n) else NatString(n)
  }

  /** Reads back an optional minus sign followed by decimal digits. */
  function ParseInt(s: string): Option<int> {
    if |s| >= 2 && s[0] == '-' && AllDigits(s[1..]) then Some(-(ParseNat(s[1..]) as int))
    else if |s| >= 1 && AllDigits(s) then Some(ParseNat(s))
    else None
  }

  lemma ParseIntString(n: int)
    ensures ParseInt(IntString(n)) == Some(n)
  {
    if n < 0 {
      var d := NatString(-n);
      var s := "-" + d;
      assert s[0] == '-' && s[1..] == d;
      ParseNatString(-n);
      assert ParseNat(d) == -n;
      assert ParseInt(s) == Some(n);
      assert IntString(n) == s;
    } else {
      var d := NatString(n);
      assert IsDigit(d[0]);
      ParseNatString(n);
      assert ParseNat(d) == n;
      assert ParseInt(d) == Some(n);
      assert IntString(n) == d;
    }
  }

  /** `s.StartsWith(p)`, ordinal comparison. */
  predicate StartsWith(s: string, p: string) {
    |p| <= |s| && s[..|p|] == p
  }

  /** The position of the first `c` in `s`, or `|s|` when there is none. */
  function IndexOf(s: string, c: char): (i: nat)
    ensures i <= |s|
    ensures i < |s| ==> s[i] == c
    ensures forall k :: 0 <= k < i ==> s[k] != c
  {
    if s == [] then 0 else if s[0] == c then 0 else 1 + IndexOf(s[1..], c)
  }

  /** Searching past a prefix that does not hold `c` lands at the first `c` after it. */
  lemma {:induction false} IndexOfAfter(a: string, b: string, c: char)
    requires forall k :: 0 <= k < |a| ==> a[k] != c
    ensures IndexOf(a + b, c) == |a| + IndexOf(b, c)
  {
    if a != [] {
      assert (a + b)[1..] == a[1..] + b;
      IndexOfAfter(a[1..], b, c);
    } else {
      assert a + b == b;
    }
  }
}
