/** Text helpers shared by every variant of the log: decimal digits and
    zero padding (Python's `str(n)` and `f"{n:0Wd}"`), Python's `str.strip`,
    and the code-point order on strings.  The same order is Python's string
    comparison and SQLite's BINARY collation (memcmp of UTF-8 preserves
    code-point order). */
module Text {

  function Max(a: int, b: int): int { if a < b then b else a }

  // ---------------------------------------------------------------- digits

  predicate IsDigit(c: char) { '0' <= c <= '9' }

  predicate AllDigits(s: string) { forall i :: 0 <= i < |s| ==> IsDigit(s[i]) }

  function DigitChar(d: nat): (c: char)
    requires d < 10
    ensures IsDigit(c)
  {
    ('0' as int + d) as char
  }

  function DigitValue(c: char): (d: nat)
    requires IsDigit(c)
    ensures d < 10 && DigitChar(d) == c
  {
    c as int - '0' as int
  }

  lemma DigitCharValue(d: nat)
    requires d < 10
    ensures DigitValue(DigitChar(d)) == d
  {
  }

  function Pow10(n: nat): (p: nat)
    ensures p >= 1
  {
    if n == 0 then 1 else 10 * Pow10(n - 1)
  }

  /** The value of a string of decimal digits, most significant digit first. */
  function DecimalValue(s: string): nat
    requires AllDigits(s)
  {
    if s == [] then 0 else DecimalValue(s[..|s| - 1]) * 10 + DigitValue(s[|s| - 1])
  }

  /** The last `width` decimal digits of n, padded with '0' on the left. */
  function FixedDigits(n: nat, width: nat): (s: string)
    ensures |s| == width && AllDigits(s)
  {
    if width == 0 then [] else FixedDigits(n / 10, width - 1) + [DigitChar(n % 10)]
  }

  /** The two digits of a number below one hundred. */
  lemma TwoDigits(n: nat)
    requires n < 100
    ensures FixedDigits(n, 2) == [DigitChar(n / 10), DigitChar(n % 10)]
  {
    var q := n / 10;
    assert q < 10 && q % 10 == q;
    assert FixedDigits(q, 1) == FixedDigits(q / 10, 0) + [DigitChar(q % 10)];
  }

  /** The number of decimal digits Python prints for n. */
  function NumDigits(n: nat): (k: nat)
    ensures 1 <= k && n < Pow10(k)
  {
    if n < 10 then 1 else 1 + NumDigits(n / 10)
  }

  /** Python's `f"{n:0{width}d}"`: at least `width` characters, the minus sign
      of a negative number counting toward the width.  `PadInt(n, 0)` is `str(n)`. */
  function PadInt(n: int, width: nat): (s: string)
    ensures |s| >= width
    ensures n >= 0 ==> AllDigits(s) && |s| == Max(width, NumDigits(n))
    ensures n < 0 ==> |s| > 1 && s[0] == '-' && AllDigits(s[1..])
  {
    if n < 0 then
      var w := Max(width - 1, NumDigits(-n));
      var digits := FixedDigits(-n, w);
      assert ("-" + digits)[1..] == digits;
      "-" + digits
    else
      FixedDigits(n, Max(width, NumDigits(n)))
  }

  /** Python's `str(n)` for an int. */
  function IntToDecimal(n: int): string { PadInt(n, 0) }

  lemma {:induction false} FixedDigitsValue(n: nat, width: nat)
    requires n < Pow10(width)
    ensures DecimalValue(FixedDigits(n, width)) == n
  {
    if width > 0 {
      var s := FixedDigits(n, width);
      assert s[..|s| - 1] == FixedDigits(n / 10, width - 1);
      FixedDigitsValue(n / 10, width - 1);
    }
  }

  lemma FixedDigitsInjective(a: nat, b: nat, width: nat)
    requires a < Pow10(width) && b < Pow10(width)
    requires FixedDigits(a, width) == FixedDigits(b, width)
    ensures a == b
  {
    FixedDigitsValue(a, width);
    FixedDigitsValue(b, width);
  }

  /** Zero padding is read back by the digit reader: the padded text of a
      non-negative number determines the number. */
  lemma PadIntValue(n: nat, width: nat)
    ensures DecimalValue(PadInt(n, width)) == n
  {
    var w := Max(width, NumDigits(n));
    assert Pow10(NumDigits(n)) <= Pow10(w) by { Pow10Monotone(NumDigits(n), w); }
    FixedDigitsValue(n, w);
  }

  lemma {:induction false} Pow10Monotone(a: nat, b: nat)
    requires a <= b
    ensures Pow10(a) <= Pow10(b)
  {
    if a < b { Pow10Monotone(a, b - 1); }
  }

  // ------------------------------------------------------ code-point order

  /** Strict lexicographic order by code point; a proper prefix is smaller. */
  predicate LexLess(a: string, b: string)
  {
    if a == [] then b != []
    else if b == [] then false
    else a[0] < b[0] || (a[0] == b[0] && LexLess(a[1..], b[1..]))
  }

  predicate LexLe(a: string, b: string) { a == b || LexLess(a, b) }

  lemma {:induction false} LexLessIrreflexive(a: string)
    ensures !LexLess(a, a)
  {
    if a != [] { LexLessIrreflexive(a[1..]); }
  }

  lemma {:induction false} LexLessTotal(a: string, b: string)
    ensures a == b || LexLess(a, b) || LexLess(b, a)
  {
    if a != [] && b != [] && a[0] == b[0] {
      LexLessTotal(a[1..], b[1..]);
      if a[1..] == b[1..] {
        assert a == [a[0]] + a[1..] && b == [b[0]] + b[1..];
      }
    }
  }

  lemma {:induction false} LexLessTransitive(a: string, b: string, c: string)
    requires LexLess(a, b) && LexLess(b, c)
    ensures LexLess(a, c)
  {
    if a != [] && a[0] == b[0] && b[0] == c[0] {
      LexLessTransitive(a[1..], b[1..], c[1..]);
    }
  }

  lemma LexLessAsymmetric(a: string, b: string)
    requires LexLess(a, b)
    ensures !LexLess(b, a)
  {
    if LexLess(b, a) {
      LexLessTransitive(a, b, a);
      LexLessIrreflexive(a);
    }
  }

  /** Comparing two strings that start with prefixes of equal length: the
      prefixes decide, and only when they are equal do the rests. */
  lemma {:induction false} LexLessAppend(a1: string, a2: string, b1: string, b2: string)
    requires |a1| == |b1|
    ensures LexLess(a1 + a2, b1 + b2) <==> LexLess(a1, b1) || (a1 == b1 && LexLess(a2, b2))
  {
    if a1 == [] {
      assert a1 + a2 == a2 && b1 + b2 == b2;
    } else {
      assert (a1 + a2)[0] == a1[0] && (b1 + b2)[0] == b1[0];
      assert (a1 + a2)[1..] == a1[1..] + a2 && (b1 + b2)[1..] == b1[1..] + b2;
      LexLessAppend(a1[1..], a2, b1[1..], b2);
      if a1[0] == b1[0] && a1[1..] == b1[1..] {
        assert a1 == [a1[0]] + a1[1..] && b1 == [b1[0]] + b1[1..];
      }
      if a1 == b1 {
        assert a1[1..] == b1[1..];
      }
    }
  }

  /** Fixed-width digit strings compare like the numbers they spell. */
  lemma {:induction false} FixedDigitsOrder(a: nat, b: nat, width: nat)
    requires a < Pow10(width) && b < Pow10(width)
    ensures LexLess(FixedDigits(a, width), FixedDigits(b, width)) <==> a < b
  {
    if width == 0 {
    } else {
      var fa, fb := FixedDigits(a / 10, width - 1), FixedDigits(b / 10, width - 1);
      var ca, cb := DigitChar(a % 10), DigitChar(b % 10);
      LexLessAppend(fa, [ca], fb, [cb]);
      assert LexLess([ca], [cb]) <==> ca < cb by {
        assert [ca][1..] == [] && [cb][1..] == [];
      }
      assert ca < cb <==> a % 10 < b % 10;
      FixedDigitsOrder(a / 10, b / 10, width - 1);
      if fa == fb {
        FixedDigitsInjective(a / 10, b / 10, width - 1);
      }
    }
  }

  // ------------------------------------------------------------ whitespace

  /** Python's `str.isspace` for one character. */
  predicate IsSpace(c: char)
  {
    ('\t' <= c <= '\r') || ('\U{1c}' <= c <= '\U{1f}') || c == ' ' || c == '\U{85}' || c == '\U{a0}'
    || c == '\U{1680}' || ('\U{2000}' <= c <= '\U{200a}') || c == '\U{2028}' || c == '\U{2029}'
    || c == '\U{202f}' || c == '\U{205f}' || c == '\U{3000}'
  }

  predicate AllSpace(s: string) { forall i :: 0 <= i < |s| ==> IsSpace(s[i]) }

  function TrimStart(s: string): (r: string)
    ensures |r| <= |s| && r == s[|s| - |r|..]
    ensures AllSpace(s[..|s| - |r|])
    ensures r != [] ==> !IsSpace(r[0])
  {
    if s != [] && IsSpace(s[0]) then
      var r := TrimStart(s[1..]);
      assert s[1..][..|s| - 1 - |r|] == s[1..|s| - |r|];
      r
    else s
  }

  function TrimEnd(s: string): (r: string)
    ensures |r| <= |s| && r == s[..|r|]
    ensures AllSpace(s[|r|..])
    ensures r != [] ==> !IsSpace(r[|r| - 1])
  {
    if s != [] && IsSpace(s[|s| - 1]) then
      var r := TrimEnd(s[..|s| - 1]);
      r
    else s
  }

  /** Python's `str.strip()` with no argument: remove leading and trailing
      whitespace.  The result is `s` with a whitespace prefix and a
      whitespace suffix cut off; it is empty exactly when `s` is blank, and
      otherwise it neither starts nor ends with whitespace. */
  function Strip(s: string): (r: string)
    ensures |r| <= |s|
    ensures exists a, b :: s == a + r + b && AllSpace(a) && AllSpace(b)
    ensures r == [] <==> AllSpace(s)
    ensures r != [] ==> !IsSpace(r[0]) && !IsSpace(r[|r| - 1])
  {
    var t := TrimStart(s);
    var r := TrimEnd(t);
    assert r != [] ==> r[0] == t[0];
    StripParts(s, s[..|s| - |t|], t, r, t[|r|..]);
    r
  }

  /** The pieces `Strip` cuts `s` into: a blank prefix, the result and a blank suffix. */
  lemma StripParts(s: string, a: string, t: string, r: string, b: string)
    requires s == a + t && t == r + b && AllSpace(a) && AllSpace(b)
    requires r != [] ==> !IsSpace(r[0])
    ensures exists a', b' :: s == a' + r + b' && AllSpace(a') && AllSpace(b')
    ensures r == [] <==> AllSpace(s)
  {
    assert s == a + r + b;
    if r == [] {
      assert s == a + b;
      forall i | 0 <= i < |s| ensures IsSpace(s[i]) {
        if i < |a| { assert s[i] == a[i]; } else { assert s[i] == b[i - |a|]; }
      }
    } else {
      assert s[|a|] == r[0];
    }
  }

  /** Stripping a string that neither starts nor ends with whitespace leaves it unchanged. */
  lemma StripUnchanged(s: string)
    requires s != [] ==> !IsSpace(s[0]) && !IsSpace(s[|s| - 1])
    ensures Strip(s) == s
  {
  }
}
