/** Python's numeric built-ins over exact values: `math.ceil`, `round` (half to
    even), `round(x, n)`, the `f"{x:.2f}"` rendering and `float(text)`.
    Floats are modelled by exact reals, so binary representation error is
    not part of the model. */
module PyNum {
  import opened Text
  import opened Wrappers

  function Abs(x: real): (r: real)
    ensures r >= 0.0 && (r == x || r == -x)
  {
    if x < 0.0 then -x else x
  }

  // -------------------------------------------------------------- rounding

  /** `math.ceil(x)`: the least integer not below x. */
  function Ceil(x: real): (r: int)
    ensures x <= r as real < x + 1.0
  {
    if x.Floor as real == x then x.Floor else x.Floor + 1
  }

  /** `round(x)`: the nearest integer; at an exact tie the even neighbour. */
  function RoundHalfEven(x: real): (r: int)
    ensures Abs(r as real - x) <= 0.5
    ensures Abs(r as real - x) == 0.5 ==> r % 2 == 0
  {
    var f := x.Floor;
    var d := x - f as real;
    if d < 0.5 then f
    else if d > 0.5 then f + 1
    else if f % 2 == 0 then f else f + 1
  }

  /** An integer within one half of x, and even when exactly one half away,
      is the one `round` picks. */
  lemma RoundHalfEvenUnique(x: real, n: int)
    requires Abs(n as real - x) <= 0.5
    requires Abs(n as real - x) == 0.5 ==> n % 2 == 0
    ensures RoundHalfEven(x) == n
  {
    var r := RoundHalfEven(x);
    if r != n {
      assert false;
    }
  }

  /** `round` picks a nearest integer: no integer is closer to x. */
  lemma RoundHalfEvenNearest(x: real, k: int)
    ensures Abs(RoundHalfEven(x) as real - x) <= Abs(k as real - x)
  {
    var r := RoundHalfEven(x);
    var d := r as real - x;
    assert -0.5 <= d <= 0.5;
    if k > r {
      assert k as real - x >= 1.0 + d >= 0.5;
    } else if k < r {
      assert x - k as real >= 1.0 - d >= 0.5;
    }
  }

  /** Rounding half to even is symmetric about zero. */
  lemma RoundHalfEvenNegate(x: real)
    ensures RoundHalfEven(-x) == -RoundHalfEven(x)
  {
    var r := RoundHalfEven(x);
    assert Abs((-r) as real - (-x)) == Abs(r as real - x);
    assert r % 2 == 0 ==> (-r) % 2 == 0;
    RoundHalfEvenUnique(-x, -r);
  }

  // Steps of real arithmetic the solver does not find on its own.

  lemma MulDivCancel(a: real, p: real)
    requires p != 0.0
    ensures (a * p) / p == a && (a / p) * p == a
  {
  }

  lemma DivSub(a: real, b: real, p: real)
    requires p != 0.0
    ensures (a - b) / p == a / p - b / p
  {
  }

  lemma MulAddOne(a: real, p: real)
    ensures (a + 1.0) * p == a * p + p
  {
  }

  lemma BelowNext(a: real, q: real, p: real, x: real)
    requires p > 0.0 && a < q + 1.0 && x == q * p
    ensures a * p < x + p
  {
    MulStrict(a, q + 1.0, p);
    MulAddOne(q, p);
  }

  /** A quotient by a positive number that is at most one has its dividend at most the divisor. */
  lemma QuotientAtMostOne(a: real, p: real)
    requires p > 0.0 && a / p <= 1.0
    ensures a <= p
  {
    MulDivCancel(a, p);
    MulMonotone(a / p, 1.0, p);
  }

  lemma MulSub(a: real, b: real, p: real)
    ensures (a - b) * p == a * p - b * p
  {
  }

  lemma DivMonotone(a: real, b: real, p: real)
    requires p > 0.0 && a <= b
    ensures a / p <= b / p
  {
  }

  lemma MulMonotone(a: real, b: real, p: real)
    requires p > 0.0 && a <= b
    ensures a * p <= b * p
  {
    MulSub(b, a, p);
  }

  lemma MulStrict(a: real, b: real, p: real)
    requires p > 0.0 && a < b
    ensures a * p < b * p
  {
    MulSub(b, a, p);
  }

  /** Scaling by a positive factor scales distances. */
  lemma AbsScale(a: real, p: real)
    requires p > 0.0
    ensures Abs(a * p) == Abs(a) * p
    ensures Abs(a / p) == Abs(a) / p
  {
  }

  /** The distance between two scaled values is the scaled distance. */
  lemma ScaledDistance(a: real, b: real, p: real)
    requires p > 0.0
    ensures Abs(a * p - b * p) == Abs(a - b) * p
  {
    MulSub(a, b, p);
    if a - b < 0.0 { MulMonotone(a - b, 0.0, p); } else { MulMonotone(0.0, a - b, p); }
  }

  /** x scaled up to units of `10^-digits`. */
  function Scaled(x: real, digits: nat): real { x * Pow10(digits) as real }

  /** `round(x, digits)`: a whole number of units of `10^-digits`, the
      number being `round` of x scaled up, so the nearest one and the even
      one at an exact tie (`RoundHalfEven`, `RoundHalfEvenNearest`). */
  function RoundDigits(x: real, digits: nat): (r: real)
    ensures r * Pow10(digits) as real == RoundHalfEven(Scaled(x, digits)) as real
    ensures Abs(r - x) <= 0.5 / Pow10(digits) as real
  {
    var p := Pow10(digits) as real;
    var y := Scaled(x, digits);
    var n := RoundHalfEven(y);
    UnitsWithinHalf(x, p, y, n as real);
    n as real / p
  }

  /** n units of 1/p, with n within one half of x * p, lie within half a unit of x. */
  lemma UnitsWithinHalf(x: real, p: real, y: real, n: real)
    requires p > 0.0 && y == x * p && Abs(n - y) <= 0.5
    ensures (n / p) * p == n && Abs(n / p - x) <= 0.5 / p
  {
    MulDivCancel(x, p);
    MulDivCancel(n, p);
    DivSub(n, y, p);
    AbsScale(n - y, p);
    DivMonotone(Abs(n - y), 0.5, p);
  }

  /** `round(x / step) * step`: a multiple of step, the quotient rounded half to even. */
  function RoundToMultiple(x: real, step: real): (r: real)
    requires step != 0.0
    ensures r == RoundHalfEven(x / step) as real * step
  {
    RoundHalfEven(x / step) as real * step
  }

  /** For a positive step `round(x / step) * step` is a nearest multiple of step. */
  lemma RoundToMultipleNearest(x: real, step: real, k: int)
    requires step > 0.0
    ensures Abs(RoundToMultiple(x, step) - x) <= Abs(k as real * step - x)
  {
    var q := x / step;
    var n := RoundHalfEven(q);
    RoundHalfEvenNearest(q, k);
    NearerMultiple(x, q, n as real, k as real, step, RoundToMultiple(x, step), k as real * step);
  }

  /** Of two multiples ap == a * p and bp == b * p, the one whose factor is
      nearer to q == x / p is nearer to x. */
  lemma NearerMultiple(x: real, q: real, a: real, b: real, p: real, ap: real, bp: real)
    requires p > 0.0 && q == x / p && Abs(a - q) <= Abs(b - q) && ap == a * p && bp == b * p
    ensures Abs(ap - x) <= Abs(bp - x)
  {
    MulDivCancel(x, p);
    NearerScaled(q, a, b, p);
    AbsEqual(a * p - q * p, ap - x);
    AbsEqual(b * p - q * p, bp - x);
  }

  lemma AbsEqual(a: real, b: real)
    requires a == b
    ensures Abs(a) == Abs(b)
  {
  }

  /** Of two points, the one nearer to q stays nearer to q * p after scaling by p > 0. */
  lemma NearerScaled(q: real, a: real, b: real, p: real)
    requires p > 0.0 && Abs(a - q) <= Abs(b - q)
    ensures Abs(a * p - q * p) <= Abs(b * p - q * p)
  {
    ScaledDistance(a, q, p);
    ScaledDistance(b, q, p);
    MulMonotone(Abs(a - q), Abs(b - q), p);
  }

  /** Rounding a value that already is a multiple of step changes nothing. */
  lemma RoundToMultipleIdempotent(x: real, step: real)
    requires step != 0.0
    ensures RoundToMultiple(RoundToMultiple(x, step), step) == RoundToMultiple(x, step)
  {
    var n := RoundHalfEven(x / step);
    var m := n as real * step;
    assert RoundToMultiple(x, step) == m;
    MulDivCancel(n as real, step);
    assert m / step == n as real;
    RoundHalfEvenUnique(n as real, n);
    assert RoundToMultiple(m, step) == RoundHalfEven(n as real) as real * step;
  }

  /** `math.ceil(x / step) * step`. */
  function CeilToMultiple(x: real, step: real): (r: real)
    requires step != 0.0
    ensures r == Ceil(x / step) as real * step
  {
    Ceil(x / step) as real * step
  }

  /** For a positive step `math.ceil(x / step) * step` is the least multiple of step that is not below x. */
  lemma CeilToMultipleLeast(x: real, step: real, k: int)
    requires step > 0.0
    ensures x <= CeilToMultiple(x, step) < x + step
    ensures x <= k as real * step ==> CeilToMultiple(x, step) <= k as real * step
  {
    var q := x / step;
    MulDivCancel(x, step);
    LeastScaledInteger(x, q, Ceil(q), k, step);
  }

  /** The least integer c not below q, scaled by p > 0, is the least multiple of p not below x == q * p. */
  lemma LeastScaledInteger(x: real, q: real, c: int, k: int, p: real)
    requires p > 0.0 && x == q * p && q <= c as real < q + 1.0
    ensures x <= c as real * p < x + p
    ensures x <= k as real * p ==> c as real * p <= k as real * p
  {
    MulMonotone(q, c as real, p);
    BelowNext(c as real, q, p, x);
    if x <= k as real * p {
      NotAboveMultiple(x, q, c, k, p);
    }
  }

  /** A multiple k * p not below x == q * p has k not below q, hence not below c. */
  lemma NotAboveMultiple(x: real, q: real, c: int, k: int, p: real)
    requires p > 0.0 && x == q * p && q <= c as real < q + 1.0 && x <= k as real * p
    ensures c as real * p <= k as real * p
  {
    if k as real < q {
      MulStrict(k as real, q, p);
      assert false;
    }
    assert c as real < k as real + 1.0;
    assert c <= k;
    MulMonotone(c as real, k as real, p);
  }

  /** A whole number of hundredths is left alone by `round(x, 2)`. */
  lemma RoundDigitsHundredths(k: int)
    ensures RoundDigits(k as real / 100.0, 2) == k as real / 100.0
  {
    assert Pow10(2) == 100;
    assert (k as real / 100.0) * 100.0 == k as real;
    assert Scaled(k as real / 100.0, 2) == k as real;
    RoundHalfEvenUnique(k as real, k);
  }

  // ------------------------------------------------------------- rendering

  /** `f"{x:.2f}"`: sign, integer digits, a point and two digits of the value
      rounded half to even to hundredths.  As in Python a negative value that
      rounds to zero keeps its sign ("-0.00"). */
  function FormatFixed2(x: real): string
  {
    var n := RoundHalfEven(Abs(x) * 100.0);
    assert n >= 0;
    SignedHundredths(x < 0.0, n)
  }

  /** Python's `str(n)` for a non-negative number: its decimal digits. */
  function Digits(n: nat): (s: string)
    ensures s != [] && AllDigits(s)
  {
    FixedDigits(n, NumDigits(n))
  }

  // --------------------------------------------------------------- parsing

  function IndexOfExponent(s: string): (i: nat)
    ensures i <= |s|
    ensures forall j :: 0 <= j < i ==> s[j] != 'e' && s[j] != 'E'
    ensures i < |s| ==> s[i] == 'e' || s[i] == 'E'
  {
    if s == [] then 0
    else if s[0] == 'e' || s[0] == 'E' then 0
    else 1 + IndexOfExponent(s[1..])
  }

  function IndexOfPoint(s: string): (i: nat)
    ensures i <= |s|
    ensures forall j :: 0 <= j < i ==> s[j] != '.'
    ensures i < |s| ==> s[i] == '.'
  {
    if s == [] then 0
    else if s[0] == '.' then 0
    else 1 + IndexOfPoint(s[1..])
  }

  /** Digits with at most one decimal point and at least one digit. */
  function ParseMantissa(m: string): Option<real>
  {
    var p := IndexOfPoint(m);
    var whole := m[..p];
    var fraction := if p < |m| then m[p + 1..] else [];
    if AllDigits(whole) && AllDigits(fraction) && |whole| + |fraction| > 0 then
      Some(DecimalValue(whole) as real + DecimalValue(fraction) as real / Pow10(|fraction|) as real)
    else None
  }

  /** An optionally signed, non-empty run of digits. */
  function ParseExponent(s: string): Option<int>
  {
    var negative := |s| > 0 && s[0] == '-';
    var digits := if |s| > 0 && (s[0] == '+' || s[0] == '-') then s[1..] else s;
    if digits != [] && AllDigits(digits) then
      var v: int := DecimalValue(digits);
      Some(if negative then -v else v)
    else None
  }

  function ScaleByPow10(v: real, k: int): real
  {
    if k >= 0 then v * Pow10(k) as real else v / Pow10(-k) as real
  }

  function ParseUnsigned(s: string): Option<real>
  {
    var e := IndexOfExponent(s);
    match ParseMantissa(s[..e])
    case None => None
    case Some(m) =>
      if e == |s| then Some(m)
      else
        match ParseExponent(s[e + 1..])
        case None => None
        case Some(k) => Some(ScaleByPow10(m, k))
  }

  /** An optional sign followed by an unsigned numeral. */
  function ParseSigned(s: string): Option<real>
  {
    if |s| > 0 && (s[0] == '+' || s[0] == '-') then
      match ParseUnsigned(s[1..])
      case None => None
      case Some(v) => Some(if s[0] == '-' then -v else v)
    else ParseUnsigned(s)
  }

  /** `float(text)` for decimal literals: surrounding whitespace is ignored,
      then an optional sign, digits with an optional point, and an optional
      exponent.  `None` stands for the ValueError. */
  function ParseFloat(text: string): Option<real>
  {
    ParseSigned(Strip(text))
  }

  /** n hundredths rendered with two decimals, after a minus sign when negative is set. */
  function SignedHundredths(negative: bool, n: nat): string
  {
    (if negative then "-" else "") + Hundredths(n)
  }

  /** The rendered text of n hundredths, without a sign. */
  function Hundredths(n: nat): string
  {
    Digits(n / 100) + "." + FixedDigits(n % 100, 2)
  }

  /** The rendered hundredths have no exponent and their point right after the integer digits. */
  lemma HundredthsShape(n: nat)
    ensures var d, f, body := Digits(n / 100), FixedDigits(n % 100, 2), Hundredths(n);
            IndexOfExponent(body) == |body| && IndexOfPoint(body) == |d|
            && body[..|d|] == d && body[|d| + 1..] == f
  {
    var d, f := Digits(n / 100), FixedDigits(n % 100, 2);
    var body := Hundredths(n);
    assert body == d + "." + f;
    assert IndexOfExponent(body) == |body| by {
      forall i | 0 <= i < |body| ensures body[i] != 'e' && body[i] != 'E' {
        if i < |d| { assert body[i] == d[i]; }
        else if i > |d| { assert body[i] == f[i - |d| - 1]; }
      }
    }
    assert IndexOfPoint(body) == |d| by {
      assert forall j :: 0 <= j < |d| ==> body[j] == d[j];
      assert body[|d|] == '.';
    }
    assert body[..|d|] == d;
    assert body[|d| + 1..] == f;
  }

  /** The integer digits and the two decimals of n hundredths add up to n / 100. */
  lemma HundredthsValue(n: nat)
    ensures var d, f := Digits(n / 100), FixedDigits(n % 100, 2);
            AllDigits(f) && |f| == 2
            && DecimalValue(d) as real + DecimalValue(f) as real / Pow10(|f|) as real == n as real / 100.0
  {
    var a, b := n / 100, n % 100;
    FixedDigitsValue(a, NumDigits(a));
    assert DecimalValue(Digits(a)) == a;
    assert Pow10(2) == 100;
    FixedDigitsValue(b, 2);
    assert DecimalValue(FixedDigits(b, 2)) == b;
    HundredthsSplit(n, a, b);
  }

  lemma HundredthsSplit(n: nat, a: nat, b: nat)
    requires n == 100 * a + b
    ensures a as real + b as real / Pow10(2) as real == n as real / 100.0
  {
    assert Pow10(2) == 100;
  }

  lemma HundredthsParse(n: nat)
    ensures ParseUnsigned(Hundredths(n)) == Some(n as real / 100.0)
  {
    var d, f := Digits(n / 100), FixedDigits(n % 100, 2);
    var body := Hundredths(n);
    HundredthsShape(n);
    HundredthsValue(n);
    assert body[..|body|] == body;
    assert ParseMantissa(body) == Some(n as real / 100.0);
  }

  /** An unsigned numeral with an optional minus sign reads as its signed value. */
  lemma SignedParse(negative: bool, body: string, v: real)
    requires body != [] && IsDigit(body[0])
    requires ParseUnsigned(body) == Some(v)
    ensures ParseSigned((if negative then "-" else "") + body) == Some(if negative then -v else v)
  {
    var s := (if negative then "-" else "") + body;
    if negative {
      assert s[0] == '-' && s[1..] == body;
    } else {
      assert s == body;
    }
  }

  /** Text that neither starts nor ends with whitespace is parsed as it stands. */
  lemma ParseFloatUnpadded(s: string)
    requires s != [] && !IsSpace(s[0]) && !IsSpace(s[|s| - 1])
    ensures ParseFloat(s) == ParseSigned(s)
  {
    StripUnchanged(s);
  }

  /** `round(x, 2)` is the sign of x times the rounded hundredths of its magnitude. */
  lemma RoundDigitsBySign(x: real)
    ensures var n := RoundHalfEven(Abs(x) * 100.0);
            RoundDigits(x, 2) == if x < 0.0 then -(n as real / 100.0) else n as real / 100.0
  {
    assert Pow10(2) == 100;
    assert Scaled(x, 2) == x * 100.0;
    assert RoundDigits(x, 2) == RoundHalfEven(x * 100.0) as real / 100.0;
    if x < 0.0 {
      RoundHalfEvenNegate(x * 100.0);
      assert Abs(x) * 100.0 == -(x * 100.0);
    } else {
      assert Abs(x) * 100.0 == x * 100.0;
    }
  }

  /** The rendered text reads back as the signed hundredths. */
  lemma SignedHundredthsReads(negative: bool, n: nat)
    ensures ParseFloat(SignedHundredths(negative, n)) == Some(if negative then -(n as real / 100.0) else n as real / 100.0)
  {
    var body := Hundredths(n);
    assert body[0] == Digits(n / 100)[0];
    assert body[|body| - 1] == FixedDigits(n % 100, 2)[1];
    HundredthsParse(n);
    SignedParse(negative, body, n as real / 100.0);
    var s := SignedHundredths(negative, n);
    assert s[|s| - 1] == body[|body| - 1];
    ParseFloatUnpadded(s);
  }

  /** Reading back a rendered two-decimal value gives the value rounded to
      two decimals: `float(f"{x:.2f}") == round(x, 2)`. */
  lemma FormatFixed2RoundTrip(x: real)
    ensures ParseFloat(FormatFixed2(x)) == Some(RoundDigits(x, 2))
  {
    var n := RoundHalfEven(Abs(x) * 100.0);
    var v := if x < 0.0 then -(n as real / 100.0) else n as real / 100.0;
    assert FormatFixed2(x) == SignedHundredths(x < 0.0, n);
    SignedHundredthsReads(x < 0.0, n);
    assert ParseFloat(FormatFixed2(x)) == Some(v);
    RoundDigitsBySign(x);
    assert RoundDigits(x, 2) == v;
  }
}
