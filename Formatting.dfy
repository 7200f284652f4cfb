/**
  * The JVM arithmetic and text formatting that the clock helpers rely on:
  * `Long` division and remainder (which truncate toward zero), the `%d` and
  * `%0Nd` conversions of `String.format`, and a reader for the `M:SS` text
  * they produce, so that every formatted clock can be read back.
  */
module Formatting {
  import opened Wrappers

  // ---------------------------------------------------------------------
  // Long division as the JVM does it
  // ---------------------------------------------------------------------

  /** `a / b` on `Long`: the quotient rounded toward zero. */
  function TruncDiv(a: int, b: int): (q: int)
    requires b > 0
    ensures Abs(q) * b <= Abs(a) < (Abs(q) + 1) * b
    ensures q != 0 ==> (q < 0 <==> a < 0)
    ensures a >= 0 ==> q == a / b
  {
    var x := Abs(a);
    assert x == (x / b) * b + x % b && 0 <= x % b < b;
    if a >= 0 then a / b else -(x / b)
  }

  /** `a % b` on `Long`: the remainder takes the sign of `a`. */
  function TruncRem(a: int, b: int): (r: int)
    requires b > 0
    ensures TruncDiv(a, b) * b + r == a
    ensures a >= 0 ==> 0 <= r < b && r == a % b
    ensures a < 0 ==> -b < r <= 0
  {
    var q := TruncDiv(a, b);
    if a < 0 then
      var x := -a;
      assert x == (x / b) * b + x % b && 0 <= x % b < b;
      assert a - q * b == -(x % b);
      a - q * b
    else
      a - q * b
  }

  // ---------------------------------------------------------------------
  // Decimal digits
  // ---------------------------------------------------------------------

  predicate IsDigit(c: char) {
    '0' <= c <= '9'
  }

  predicate AllDigits(s: string) {
    forall i :: 0 <= i < |s| ==> IsDigit(s[i])
  }

  function DigitChar(d: nat): (c: char)
    requires d < 10
    ensures IsDigit(c)
    ensures DigitValue(c) == d
  {
    ('0' as int + d) as char
  }

  function DigitValue(c: char): (d: nat)
    requires IsDigit(c)
    ensures d < 10
  {
    c as int - '0' as int
  }

  /** The decimal numeral of `n`: no sign and no leading zero. */
  function Digits(n: nat): (s: string)
    ensures |s| >= 1 && AllDigits(s)
    ensures s[0] == '0' <==> n == 0
    ensures |s| == 1 <==> n < 10
    ensures n < 100 ==> |s| <= 2
  {
    if n < 10 then [DigitChar(n)] else Digits(n / 10) + [DigitChar(n % 10)]
  }

  /** The number a string of decimal digits denotes (leading zeros allowed). */
  function Value(s: string): nat
    requires AllDigits(s)
  {
    if s == [] then 0 else Value(s[..|s| - 1]) * 10 + DigitValue(s[|s| - 1])
  }

  function Zeros(k: nat): (s: string)
    ensures |s| == k && AllDigits(s)
    ensures forall i :: 0 <= i < k ==> s[i] == '0'
  {
    if k == 0 then "" else "0" + Zeros(k - 1)
  }

  lemma {:induction false} ValueOfDigits(n: nat)
    ensures Value(Digits(n)) == n
  {
    if n >= 10 {
      var d := Digits(n / 10);
      assert (d + [DigitChar(n % 10)])[..|d|] == d;
      ValueOfDigits(n / 10);
    }
  }

  lemma {:induction false} ValueLeadingZero(s: string)
    requires AllDigits(s)
    ensures AllDigits("0" + s) && Value("0" + s) == Value(s)
  {
    if s != [] {
      var t := "0" + s;
      assert t[..|t| - 1] == "0" + s[..|s| - 1];
      ValueLeadingZero(s[..|s| - 1]);
    }
  }

  lemma {:induction false} ValueLeadingZeros(k: nat, s: string)
    requires AllDigits(s)
    ensures AllDigits(Zeros(k) + s) && Value(Zeros(k) + s) == Value(s)
  {
    if k > 0 {
      var rest := Zeros(k - 1) + s;
      ValueLeadingZeros(k - 1, s);
      ValueLeadingZero(rest);
      assert Zeros(k) == "0" + Zeros(k - 1);
      assert Zeros(k) + s == "0" + rest;
      assert Value(Zeros(k) + s) == Value("0" + rest);
    } else {
      assert Zeros(k) + s == s;
    }
  }

  // ---------------------------------------------------------------------
  // String.format("%d") and String.format("%0Nd")
  // ---------------------------------------------------------------------

  function Sign(n: int): string {
    if n < 0 then "-" else ""
  }

  function Abs(n: int): nat {
    if n < 0 then -n else n
  }

  /**
    * The `%0<width>d` conversion of `java.util.Formatter` (`%d` is width 0):
    * a minus sign for a negative value, then its digits, with zeros inserted
    * after the sign until the text is `width` characters long. A value that
    * needs more characters is never cut.
    */
  function FormatDecimal(n: int, width: nat): (r: string)
    ensures |r| >= width && |r| >= 1
    ensures |Sign(n)| + |Digits(Abs(n))| <= width ==> |r| == width
    ensures width <= |Sign(n)| + |Digits(Abs(n))| ==> r == Sign(n) + Digits(Abs(n))
    ensures n >= 0 ==> AllDigits(r)
    ensures ':' !in r
  {
    var sign := Sign(n);
    var digits := Digits(Abs(n));
    var pad := if |sign| + |digits| < width then width - |sign| - |digits| else 0;
    sign + Zeros(pad) + digits
  }

  // ---------------------------------------------------------------------
  // Reading the formatted text back
  // ---------------------------------------------------------------------

  /** A non-empty run of decimal digits, read as a number. */
  function ParseNat(s: string): (r: Option<nat>)
    ensures r.Some? <==> |s| > 0 && AllDigits(s)
  {
    if |s| > 0 && AllDigits(s) then Some(Value(s)) else None
  }

  /** An optional minus sign followed by a non-empty run of digits. */
  function ParseInt(s: string): Option<int> {
    if |s| > 0 && s[0] == '-' then
      match ParseNat(s[1..])
      case Some(v) => Some(-(v as int))
      case None => None
    else
      match ParseNat(s)
      case Some(v) => Some(v)
      case None => None
  }

  /** The position of the first `c` in `s`, if any. */
  function IndexOf(s: string, c: char): (r: Option<nat>)
    ensures r.None? <==> c !in s
    ensures r.Some? ==> r.value < |s| && s[r.value] == c && c !in s[..r.value]
  {
    if s == [] then None
    else if s[0] == c then Some(0)
    else
      match IndexOf(s[1..], c)
      case Some(i) => (assert s[..i + 1] == [s[0]] + s[1..][..i]; Some(i + 1))
      case None => None
  }

  /**
    * Reads a clock `<minutes>:<seconds>` back into its two fields: the text
    * before the first colon and the text after it, each an integer numeral.
    */
  function ParseClock(s: string): Option<(int, int)> {
    match IndexOf(s, ':')
    case None => None
    case Some(i) =>
      match (ParseInt(s[..i]), ParseInt(s[i + 1..]))
      case (Some(m), Some(sec)) => Some((m, sec))
      case _ => None
  }

  /** A numeral padded with leading zeros reads back as the number. */
  lemma ParsePadded(pad: nat, n: nat)
    ensures ParseNat(Zeros(pad) + Digits(n)) == Some(n)
  {
    ValueLeadingZeros(pad, Digits(n));
    ValueOfDigits(n);
  }

  /** Every value `FormatDecimal` writes, at any width, reads back as itself. */
  lemma ParseFormatDecimal(n: int, width: nat)
    ensures ParseInt(FormatDecimal(n, width)) == Some(n)
  {
    var digits := Digits(Abs(n));
    var pad := if |Sign(n)| + |digits| < width then width - |Sign(n)| - |digits| else 0;
    var body := Zeros(pad) + digits;
    var r := FormatDecimal(n, width);
    assert r == Sign(n) + body;
    ParsePadded(pad, Abs(n));
    if n < 0 {
      assert r == "-" + body;
      assert r[1..] == body;
    } else {
      assert r == body;
      assert IsDigit(r[0]);
    }
  }

  /** A clock written as `a:b`, with no colon in `a`, reads back as its two halves. */
  lemma ParseClockJoin(a: string, b: string)
    requires ':' !in a
    ensures ParseClock(a + ":" + b) ==
      match (ParseInt(a), ParseInt(b))
      case (Some(m), Some(sec)) => Some((m, sec))
      case _ => None
  {
    var s := a + ":" + b;
    assert s[|a|] == ':';
    assert s[..|a|] == a;
    assert s[|a| + 1..] == b;
    var i := IndexOf(s, ':');
    assert i.Some?;
  }

  /**
    * Two numbers formatted into clocks `FormatDecimal(m, w):FormatDecimal(s, v)`
    * read back as `(m, s)`: the colon separates the fields unambiguously.
    */
  lemma ParseFormattedClock(m: int, w: nat, s: int, v: nat)
    ensures ParseClock(FormatDecimal(m, w) + ":" + FormatDecimal(s, v)) == Some((m, s))
  {
    ParseClockJoin(FormatDecimal(m, w), FormatDecimal(s, v));
    ParseFormatDecimal(m, w);
    ParseFormatDecimal(s, v);
  }
}
