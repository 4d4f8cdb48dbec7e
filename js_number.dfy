/**
 * The two JavaScript number primitives the cart transformer relies on, on exact decimals:
 * `parseFloat` (a string to a number, or NaN) and `Number.prototype.toFixed(2)`
 * (a number to a string with exactly two fractional digits), as ECMA-262 defines them.
 *
 * Numbers are exact decimals instead of IEEE-754 doubles; NaN is `None` at the parse boundary.
 */
module JsNumber {
  import opened Wrappers

  /** The exact decimal `units × 10^(-scale)`. */
  datatype Decimal = Decimal(units: int, scale: nat)

  /** A number that is not NaN: a finite decimal or one of the two infinities. */
  datatype Number = Finite(value: Decimal) | Infinity(negative: bool)

  function Pow10(n: nat): (r: nat)
    ensures r >= 1
  {
    if n == 0 then 1 else 10 * Pow10(n - 1)
  }

  lemma {:induction false} Pow10Add(a: nat, b: nat)
    ensures Pow10(a + b) == Pow10(a) * Pow10(b)
  {
    if b > 0 {
      Pow10Add(a, b - 1);
      var x, y := Pow10(a), Pow10(b - 1);
      assert Pow10(a + b) == 10 * (x * y);
      assert Pow10(b) == 10 * y;
      MulTen(x, y);
    }
  }

  function Abs(x: int): nat { if x < 0 then -x else x }

  // ---------------------------------------------------------------- characters

  predicate IsDigit(c: char) { '0' <= c <= '9' }

  predicate AllDigits(s: string) { forall i :: 0 <= i < |s| ==> IsDigit(s[i]) }

  function DigitValue(c: char): (r: nat)
    requires IsDigit(c)
    ensures r < 10
  {
    c as int - '0' as int
  }

  function DigitChar(d: nat): (c: char)
    requires d < 10
    ensures IsDigit(c) && DigitValue(c) == d
  {
    ('0' as int + d) as char
  }

  /**
   * The white space `parseFloat` skips before the number (StrWhiteSpaceChar of ECMA-262,
   * section 7.1.4.1): TAB, VT, FF, ZWNBSP, the line terminators and every character of
   * Unicode category Zs.
   */
  predicate IsStrWhiteSpace(c: char) {
    c == '\t' || c == '\n' || c == '\U{000B}' || c == '\U{000C}' || c == '\r' || c == ' '
    || c == '\U{00A0}' || c == '\U{1680}' || ('\U{2000}' <= c <= '\U{200A}')
    || c == '\U{2028}' || c == '\U{2029}' || c == '\U{202F}' || c == '\U{205F}'
    || c == '\U{3000}' || c == '\U{FEFF}'
  }

  // ---------------------------------------------------------------- digit strings

  /** The natural number a string of decimal digits denotes (most significant digit first). */
  function DigitsValue(s: string): nat
    requires AllDigits(s)
  {
    if s == [] then 0 else DigitsValue(s[..|s| - 1]) * 10 + DigitValue(s[|s| - 1])
  }

  lemma {:induction false} DigitsValueAppend(a: string, b: string)
    requires AllDigits(a) && AllDigits(b)
    ensures AllDigits(a + b)
    ensures DigitsValue(a + b) == DigitsValue(a) * Pow10(|b|) + DigitsValue(b)
  {
    AllDigitsAppend(a, b);
    if b == [] {
      assert a + b == a;
    } else {
      var b' := b[..|b| - 1];
      DigitsValueAppend(a, b');
      DigitsValueLastOfAppend(a, b);
      var x, p, y, d := DigitsValue(a), Pow10(|b'|), DigitsValue(b'), DigitValue(b[|b| - 1]);
      assert Pow10(|b|) == p * 10;
      ShiftDigit(x, p, y, d);
    }
  }

  lemma AllDigitsAppend(a: string, b: string)
    requires AllDigits(a) && AllDigits(b)
    ensures AllDigits(a + b)
  {
  }

  /** The last digit of `a + b` is the last digit of `b`, and what precedes it is `a` and the rest of `b`. */
  lemma DigitsValueLastOfAppend(a: string, b: string)
    requires AllDigits(a) && AllDigits(b) && b != []
    requires AllDigits(a + b[..|b| - 1])
    ensures AllDigits(a + b)
    ensures DigitsValue(a + b) == DigitsValue(a + b[..|b| - 1]) * 10 + DigitValue(b[|b| - 1])
  {
    AllDigitsAppend(a, b);
    SplitLastOfAppend(a, b);
  }

  lemma SplitLastOfAppend(a: string, b: string)
    requires b != []
    ensures (a + b)[..|a + b| - 1] == a + b[..|b| - 1]
    ensures (a + b)[|a + b| - 1] == b[|b| - 1]
  {
  }

  lemma MulTen(x: int, y: int)
    ensures 10 * (x * y) == x * (10 * y)
  {
  }

  lemma ShiftDigit(x: int, p: int, y: int, d: int)
    ensures (x * p + y) * 10 + d == x * (p * 10) + (y * 10 + d)
  {
  }

  /** The shortest decimal rendering of `n`: "0" for zero, otherwise no leading zero. */
  function NatToDigits(n: nat): (r: string)
    ensures |r| >= 1 && AllDigits(r)
    ensures DigitsValue(r) == n
    ensures |r| > 1 ==> r[0] != '0'
  {
    if n < 10 then [DigitChar(n)]
    else
      var front := NatToDigits(n / 10);
      var r := front + [DigitChar(n % 10)];
      assert r[..|r| - 1] == front;
      r
  }

  // ---------------------------------------------------------------- parseFloat

  /** The end of the maximal run of digits that starts at `i`. */
  function DigitRunEnd(s: string, i: nat): (j: nat)
    requires i <= |s|
    ensures i <= j <= |s|
    ensures AllDigits(s[i..j])
    ensures j == |s| || !IsDigit(s[j])
    decreases |s| - i
  {
    if i < |s| && IsDigit(s[i]) then
      var j := DigitRunEnd(s, i + 1);
      assert s[i..j] == [s[i]] + s[i + 1..j];
      j
    else i
  }

  /**
   * The exponent of an ExponentPart starting at `j` (`e` or `E`, an optional sign, at least
   * one digit); 0 when there is none, since the longest numeric prefix then ends at `j`.
   */
  function ExponentAt(s: string, j: nat): (e: int)
    requires j <= |s|
  {
    if j < |s| && (s[j] == 'e' || s[j] == 'E') then
      var signed := j + 1 < |s| && (s[j + 1] == '+' || s[j + 1] == '-');
      var k := if signed then j + 2 else j + 1;
      var m := DigitRunEnd(s, k);
      var magnitude: int := if m == k then 0 else DigitsValue(s[k..m]);
      if signed && s[j + 1] == '-' then -magnitude else magnitude
    else 0
  }

  /** `mantissa × 10^(-exponent)` as a decimal with a non-negative scale. */
  function Scaled(mantissa: nat, exponent: int): Decimal {
    if exponent >= 0 then Decimal(mantissa, exponent) else Decimal(mantissa * Pow10(-exponent), 0)
  }

  /**
   * The value of the longest prefix of `b` that is an unsigned decimal literal
   * (digits, an optional `.` and fraction digits, an optional exponent), or None when
   * there is no digit before the first character that cannot continue a literal.
   */
  function ParseUnsignedDecimal(b: string): Option<Decimal> {
    var i := DigitRunEnd(b, 0);
    var fracStart := if i < |b| && b[i] == '.' then i + 1 else i;
    var j := DigitRunEnd(b, fracStart);
    if i == 0 && j == fracStart then None
    else Some(DecimalOf(b[0..i], b[fracStart..j], ExponentAt(b, j)))
  }

  /** The value of `intDigits.fracDigits` times `10^exponent`. */
  function DecimalOf(intDigits: string, fracDigits: string, exponent: int): Decimal
    requires AllDigits(intDigits) && AllDigits(fracDigits)
  {
    DigitsValueAppend(intDigits, fracDigits);
    Scaled(DigitsValue(intDigits + fracDigits), |fracDigits| - exponent)
  }

  function ParseUnsigned(b: string): Option<Number> {
    if |b| >= 8 && b[..8] == "Infinity" then Some(Infinity(false))
    else
      match ParseUnsignedDecimal(b)
      case None => None
      case Some(d) => Some(Finite(d))
  }

  function Negate(x: Number): Number {
    match x
    case Finite(d) => Finite(Decimal(-d.units, d.scale))
    case Infinity(neg) => Infinity(!neg)
  }

  /**
   * JavaScript's `parseFloat`: skip leading white space, take an optional sign, then the
   * longest prefix that is `Infinity` or a decimal literal; None stands for NaN.
   */
  function ParseFloat(s: string): (r: Option<Number>)
    ensures r.Some? && r.value.Finite? ==> exists i :: 0 <= i < |s| && IsDigit(s[i])
  {
    if s != [] && IsStrWhiteSpace(s[0]) then
      var r := ParseFloat(s[1..]);
      assert forall i :: 0 <= i < |s[1..]| ==> s[1..][i] == s[i + 1];
      r
    else if s != [] && s[0] == '-' then
      match ParseUnsigned(s[1..])
      case None => None
      case Some(x) => Some(Negate(x))
    else if s != [] && s[0] == '+' then ParseUnsigned(s[1..])
    else ParseUnsigned(s)
  }

  // ---------------------------------------------------------------- toFixed(2)

  /**
   * The magnitude `m × 10^(-scale)` in hundredths, rounded to the nearest integer with a tie
   * going to the larger one (ECMA-262, Number.prototype.toFixed, the choice of n).
   */
  function CentsOf(m: nat, scale: nat): (c: nat) {
    if scale <= 2 then m * Pow10(2 - scale)
    else
      var q := Pow10(scale - 2);
      var up := if 2 * (m % q) >= q then 1 else 0;
      DivNonNegative(m, q);
      m / q + up
  }

  lemma DivNonNegative(m: nat, q: nat)
    requires q >= 1
    ensures m / q >= 0
  {
  }

  /** The signed number of hundredths `toFixed(2)` prints for `d`. */
  function RoundedCents(d: Decimal): int {
    var n := CentsOf(Abs(d.units), d.scale);
    if d.units < 0 then -(n as int) else n
  }

  /**
   * `toFixed(2)` on a finite value: a `-` exactly when the value is below zero, the whole
   * hundreds of the rounded magnitude, a point, and exactly two digits.
   */
  function FormatFixed2(d: Decimal): (r: string)
    ensures |r| >= 4 && r[|r| - 3] == '.' && IsDigit(r[|r| - 2]) && IsDigit(r[|r| - 1])
    ensures (r[0] == '-') <==> d.units < 0
    ensures d.units < 0 ==> AllDigits(r[1..|r| - 3]) && |r| >= 5
    ensures d.units >= 0 ==> AllDigits(r[..|r| - 3])
    ensures d.units < 0 ==> NoLeadingZero(r[1..|r| - 3])
    ensures d.units >= 0 ==> NoLeadingZero(r[..|r| - 3])
  {
    SignedFixed(d.units < 0, CentsOf(Abs(d.units), d.scale))
  }

  /** `n` hundredths printed with a leading `-` when `negative` holds. */
  function SignedFixed(negative: bool, n: nat): (r: string)
    ensures |r| >= 4 && r[|r| - 3] == '.' && IsDigit(r[|r| - 2]) && IsDigit(r[|r| - 1])
    ensures (r[0] == '-') <==> negative
    ensures negative ==> AllDigits(r[1..|r| - 3]) && |r| >= 5
    ensures !negative ==> AllDigits(r[..|r| - 3])
    ensures negative ==> NoLeadingZero(r[1..|r| - 3])
    ensures !negative ==> NoLeadingZero(r[..|r| - 3])
  {
    var body := FixedBody(n);
    if negative then
      MinusPrefixShape(body);
      "-" + body
    else body
  }

  /** Putting `-` in front of an unsigned rendering keeps the digits, point and two decimals. */
  lemma MinusPrefixShape(body: string)
    requires |body| >= 4 && body[|body| - 3] == '.' && IsDigit(body[|body| - 2]) && IsDigit(body[|body| - 1])
    requires AllDigits(body[..|body| - 3]) && NoLeadingZero(body[..|body| - 3])
    ensures var r := "-" + body;
      && |r| >= 5 && r[|r| - 3] == '.' && IsDigit(r[|r| - 2]) && IsDigit(r[|r| - 1])
      && r[0] == '-' && AllDigits(r[1..|r| - 3]) && NoLeadingZero(r[1..|r| - 3])
  {
    var r := "-" + body;
    assert r[1..|r| - 3] == body[..|body| - 3];
  }

  /** `n` hundredths printed unsigned: the whole part, a point, two digits. */
  function FixedBody(n: nat): (r: string)
    ensures |r| >= 4 && r[|r| - 3] == '.' && IsDigit(r[|r| - 2]) && IsDigit(r[|r| - 1])
    ensures IsDigit(r[0]) && AllDigits(r[..|r| - 3]) && NoLeadingZero(r[..|r| - 3])
  {
    var whole := NatToDigits(n / 100);
    var r := whole + "." + [DigitChar(n / 10 % 10), DigitChar(n % 10)];
    assert r[..|r| - 3] == whole;
    assert |whole| == 1 ==> whole == [whole[0]];
    r
  }

  /** A whole part as `toFixed` prints it: "0", or digits with no leading zero. */
  predicate NoLeadingZero(w: string) {
    w == "0" || (w != [] && w[0] != '0')
  }

  /** Whether a number is below zero; `-Infinity` is. */
  predicate IsNegative(x: Number) {
    match x
    case Finite(d) => d.units < 0
    case Infinity(neg) => neg
  }

  /** `Number.prototype.toFixed(2)`; the infinities print as their names. */
  function ToFixed2(x: Number): (r: string)
    ensures r != [] && ((r[0] == '-') <==> IsNegative(x))
    ensures x.Finite? ==> |r| >= 4 && r[|r| - 3] == '.' && IsDigit(r[|r| - 2]) && IsDigit(r[|r| - 1])
  {
    match x
    case Finite(d) => FormatFixed2(d)
    case Infinity(neg) => if neg then "-Infinity" else "Infinity"
  }

  /**
   * The rounding `toFixed(2)` applies: `c` hundredths lie within half a hundredth of the
   * magnitude, and an exact tie is resolved upwards, which for the magnitude means away from zero.
   */
  lemma CentsNearestHalfUp(m: nat, scale: nat)
    ensures -(Pow10(scale) as int) < 2 * (CentsOf(m, scale) * Pow10(scale) - 100 * m) <= Pow10(scale)
  {
    if scale <= 2 {
      CentsAtMostTwoPlaces(m, scale);
    } else {
      var q := Pow10(scale - 2);
      assert Pow10(scale) == q * 100 by {
        Pow10Add(scale - 2, 2);
        assert Pow10(2) == 100;
      }
      HalfUp(m, q, Pow10(scale), CentsOf(m, scale));
    }
  }

  /** With at most two fractional digits the hundredths are exact. */
  lemma CentsAtMostTwoPlaces(m: nat, scale: nat)
    requires scale <= 2
    ensures CentsOf(m, scale) * Pow10(scale) == 100 * m
  {
    Pow10Add(2 - scale, scale);
    assert Pow10(2) == 100;
    MulAssoc(m, Pow10(2 - scale), Pow10(scale));
  }

  /** Rounding `m / q` half up lands within half of `q` of it, a tie going up. */
  lemma HalfUp(m: nat, q: int, p: int, c: int)
    requires q >= 1 && p == q * 100
    requires c == m / q + (if 2 * (m % q) >= q then 1 else 0)
    ensures -p < 2 * (c * p - 100 * m) <= p
  {
    var a, b := m / q, m % q;
    var up := if 2 * b >= q then 1 else 0;
    assert m == q * a + b;
    assert c * (q * 100) - 100 * m == 100 * (q * up - b) by {
      MulAssoc(c, q, 100);
      assert c * q == q * a + q * up;
    }
  }

  lemma MulAssoc(a: int, b: int, c: int)
    ensures (a * b) * c == a * (b * c)
  {
  }

  /** Only one count of hundredths satisfies the rounding rule, so `CentsOf` is the one `toFixed` picks. */
  lemma CentsUnique(m: nat, scale: nat, c: int)
    requires -(Pow10(scale) as int) < 2 * (c * Pow10(scale) - 100 * m) <= Pow10(scale)
    ensures c == CentsOf(m, scale)
  {
    CentsNearestHalfUp(m, scale);
    NearestMultipleUnique(m, Pow10(scale), c, CentsOf(m, scale));
  }

  /** Two multiples of `p` in the same half-open window of width `p` around `100 * m` are the same multiple. */
  lemma NearestMultipleUnique(m: int, p: int, c: int, c0: int)
    requires p >= 1
    requires -p < 2 * (c * p - 100 * m) <= p
    requires -p < 2 * (c0 * p - 100 * m) <= p
    ensures c == c0
  {
    var x, y := c * p, c0 * p;
    assert -p < x - y < p;
    assert x - y == (c - c0) * p by { MulSub(c, c0, p); }
    if c > c0 {
      MulMonotone(c - c0, p);
      assert false;
    } else if c < c0 {
      MulMonotone(c0 - c, p);
      MulSub(c0, c, p);
      assert false;
    }
  }

  lemma MulSub(a: int, b: int, p: int)
    ensures a * p - b * p == (a - b) * p
  {
  }

  lemma MulMonotone(k: int, p: nat)
    requires k >= 1
    ensures k * p >= p
  {
  }

  /** A value with at most two fractional digits is printed exactly, without rounding. */
  lemma ExactAtTwoPlaces(d: Decimal)
    requires d.scale <= 2
    ensures RoundedCents(d) == d.units * Pow10(2 - d.scale)
  {
    if d.units < 0 {
      assert CentsOf(-d.units, d.scale) == -d.units * Pow10(2 - d.scale);
    }
  }

  // ---------------------------------------------------------------- parse after format

  lemma {:induction false} DigitRunEndIs(s: string, i: nat, j: nat)
    requires i <= j <= |s| && AllDigits(s[i..j])
    requires j == |s| || !IsDigit(s[j])
    ensures DigitRunEnd(s, i) == j
    decreases j - i
  {
    if i < j {
      assert IsDigit(s[i]) by { assert s[i..j][0] == s[i]; }
      assert AllDigits(s[i + 1..j]) by {
        var t := s[i + 1..j];
        forall k | 0 <= k < |t| ensures IsDigit(t[k]) {
          assert t[k] == s[i..j][k + 1];
        }
      }
      DigitRunEndIs(s, i + 1, j);
    }
  }

  /** An unsigned fixed-point rendering `w.fg` reads back as `w·100 + f·10 + g` hundredths. */
  lemma ParseUnsignedFixed2(w: string, f: char, g: char)
    requires |w| >= 1 && AllDigits(w) && IsDigit(f) && IsDigit(g)
    ensures ParseUnsignedDecimal(w + "." + [f, g])
         == Some(Decimal(DigitsValue(w) * 100 + DigitValue(f) * 10 + DigitValue(g), 2))
  {
    ParseUnsignedFixed2Parts(w, f, g);
    DigitsFixed2(w, f, g);
  }

  lemma ParseUnsignedFixed2Parts(w: string, f: char, g: char)
    requires |w| >= 1 && AllDigits(w) && IsDigit(f) && IsDigit(g)
    ensures ParseUnsignedDecimal(w + "." + [f, g]) == Some(DecimalOf(w, [f, g], 0))
  {
    ParseUnsignedPointed(w, [f, g]);
  }

  /** Digits, a point and digits, with nothing after them, read back as written. */
  lemma ParseUnsignedPointed(w: string, v: string)
    requires |w| >= 1 && AllDigits(w) && AllDigits(v)
    ensures ParseUnsignedDecimal(w + "." + v) == Some(DecimalOf(w, v, 0))
  {
    var b := w + "." + v;
    WholeDigitsEnd(w, v);
    FractionDigitsEnd(w, v);
    assert ExponentAt(b, |b|) == 0;
    assert b[|w|] == '.';
    assert b[0..|w|] == w;
    assert b[|w| + 1..|b|] == v;
  }

  lemma WholeDigitsEnd(w: string, v: string)
    requires |w| >= 1 && AllDigits(w)
    ensures DigitRunEnd(w + "." + v, 0) == |w|
  {
    var b := w + "." + v;
    assert b[0..|w|] == w;
    DigitRunEndIs(b, 0, |w|);
  }

  lemma FractionDigitsEnd(w: string, v: string)
    requires AllDigits(v)
    ensures DigitRunEnd(w + "." + v, |w| + 1) == |w| + 1 + |v|
  {
    var b := w + "." + v;
    DropPrefix(w + ".", v);
    DigitRunToEnd(b, |w| + 1);
  }

  /** Dropping the first part of a concatenation leaves the second part. */
  lemma DropPrefix(a: string, v: string)
    ensures (a + v)[|a|..] == v
  {
  }

  /** When everything from `i` on is a digit, the run at `i` ends at the end of the text. */
  lemma DigitRunToEnd(b: string, i: nat)
    requires i <= |b| && AllDigits(b[i..])
    ensures DigitRunEnd(b, i) == |b|
  {
    assert b[i..|b|] == b[i..];
    DigitRunEndIs(b, i, |b|);
  }

  lemma DigitsFixed2(w: string, f: char, g: char)
    requires AllDigits(w) && IsDigit(f) && IsDigit(g)
    ensures DecimalOf(w, [f, g], 0) == Decimal(DigitsValue(w) * 100 + DigitValue(f) * 10 + DigitValue(g), 2)
  {
    DigitsValueAppend(w, [f, g]);
    assert [f, g][..1] == [f] && [f][..0] == [];
    assert DigitsValue([f]) == DigitValue(f);
    assert DigitsValue([f, g]) == DigitValue(f) * 10 + DigitValue(g);
    assert Pow10(2) == 100;
  }

  /**
   * Reading back what `toFixed(2)` prints with `parseFloat` gives the value rounded to
   * hundredths: exactly `RoundedCents(d)` hundredths, with the sign of `d`.
   */
  lemma ParseFormatFixed2(d: Decimal)
    ensures ParseFloat(FormatFixed2(d)) == Some(Finite(Decimal(RoundedCents(d), 2)))
  {
    var negative, n := d.units < 0, CentsOf(Abs(d.units), d.scale);
    assert FormatFixed2(d) == SignedFixed(negative, n);
    assert RoundedCents(d) == if negative then -(n as int) else n;
    ParseSignedFixed(negative, n);
  }

  /** The signed rendering of `n` hundredths reads back as `n` hundredths with that sign. */
  lemma ParseSignedFixed(negative: bool, n: nat)
    ensures ParseFloat(SignedFixed(negative, n)) == Some(Finite(Decimal(if negative then -(n as int) else n, 2)))
  {
    ParseFixedBody(n);
    if negative {
      ParseFloatNegative(FixedBody(n));
    } else {
      ParseFloatLeadingDigit(FixedBody(n));
    }
  }

  /** The unsigned rendering of `n` hundredths reads back as `n` hundredths. */
  lemma ParseFixedBody(n: nat)
    ensures ParseUnsigned(FixedBody(n)) == Some(Finite(Decimal(n, 2)))
  {
    var w := NatToDigits(n / 100);
    var f, g := DigitChar(n / 10 % 10), DigitChar(n % 10);
    assert FixedBody(n) == w + "." + [f, g];
    ParseUnsignedFixed2(w, f, g);
    assert DigitsValue(w) * 100 + DigitValue(f) * 10 + DigitValue(g) == n by {
      CentsDigits(n);
    }
    ParseUnsignedLeadingDigit(FixedBody(n), Decimal(n, 2));
  }

  lemma CentsDigits(n: nat)
    ensures (n / 100) * 100 + (n / 10 % 10) * 10 + n % 10 == n
  {
  }

  lemma ParseUnsignedLeadingDigit(body: string, v: Decimal)
    requires body != [] && IsDigit(body[0]) && ParseUnsignedDecimal(body) == Some(v)
    ensures ParseUnsigned(body) == Some(Finite(v))
  {
    if |body| >= 8 {
      assert body[..8][0] == body[0];
    }
  }

  lemma ParseFloatLeadingDigit(body: string)
    requires body != [] && IsDigit(body[0])
    ensures ParseFloat(body) == ParseUnsigned(body)
  {
  }

  lemma ParseFloatNegative(body: string)
    requires body != [] && IsDigit(body[0])
    ensures ParseUnsigned(body).Some? ==> ParseFloat("-" + body) == Some(Negate(ParseUnsigned(body).value))
  {
    var r := "-" + body;
    assert r[1..] == body;
  }

  /** A bid written with at most two decimals is printed unchanged up to trailing zeros. */
  lemma ParseFormatFixed2Exact(d: Decimal)
    requires d.scale <= 2
    ensures ParseFloat(FormatFixed2(d)) == Some(Finite(Decimal(d.units * Pow10(2 - d.scale), 2)))
  {
    ParseFormatFixed2(d);
    ExactAtTwoPlaces(d);
  }

  // ---------------------------------------------------------------- when parseFloat gives NaN

  /** Text that opens a number `parseFloat` can read: a digit, a point and a digit, or `Infinity`. */
  predicate StartsNumeral(t: string) {
    || (|t| >= 1 && IsDigit(t[0]))
    || (|t| >= 2 && t[0] == '.' && IsDigit(t[1]))
    || (|t| >= 8 && t[..8] == "Infinity")
  }

  /** `t` with at most one leading `+` or `-` removed. */
  function WithoutSign(t: string): string {
    if t != [] && (t[0] == '+' || t[0] == '-') then t[1..] else t
  }

  /**
   * `parseFloat` gives NaN exactly when, after the leading white space (the first `k`
   * characters) and at most one sign, the text does not open a numeral.
   */
  lemma {:induction false} ParseFloatNaN(s: string, k: nat)
    requires k <= |s| && forall i :: 0 <= i < k ==> IsStrWhiteSpace(s[i])
    requires k == |s| || !IsStrWhiteSpace(s[k])
    ensures ParseFloat(s) == None <==> !StartsNumeral(WithoutSign(s[k..]))
    decreases k
  {
    if k > 0 {
      var t := s[1..];
      forall i | 0 <= i < k - 1 ensures IsStrWhiteSpace(t[i]) {
        assert t[i] == s[i + 1];
      }
      assert k - 1 == |t| || t[k - 1] == s[k];
      ParseFloatNaN(t, k - 1);
      assert t[k - 1..] == s[k..];
      ParseFloatSkipsWhiteSpace(s);
    } else {
      assert s[k..] == s;
      ParseFloatNaNAtStart(s);
    }
  }

  lemma ParseFloatSkipsWhiteSpace(s: string)
    requires s != [] && IsStrWhiteSpace(s[0])
    ensures ParseFloat(s) == ParseFloat(s[1..])
  {
  }

  lemma ParseFloatNaNAtStart(s: string)
    requires s == [] || !IsStrWhiteSpace(s[0])
    ensures ParseFloat(s) == None <==> !StartsNumeral(WithoutSign(s))
  {
    if s != [] && (s[0] == '+' || s[0] == '-') {
      ParseUnsignedNaN(s[1..]);
    } else {
      ParseUnsignedNaN(s);
    }
  }

  /** Without white space or sign, the text is read exactly when it opens a numeral. */
  lemma ParseUnsignedNaN(b: string)
    ensures ParseUnsigned(b) == None <==> !StartsNumeral(b)
  {
    if !(|b| >= 8 && b[..8] == "Infinity") {
      ParseUnsignedDecimalNaN(b);
    }
  }

  lemma ParseUnsignedDecimalNaN(b: string)
    ensures ParseUnsignedDecimal(b) == None
      <==> !((|b| >= 1 && IsDigit(b[0])) || (|b| >= 2 && b[0] == '.' && IsDigit(b[1])))
  {
    if |b| >= 1 && IsDigit(b[0]) {
      assert DigitRunEnd(b, 0) >= 1;
    } else {
      assert DigitRunEnd(b, 0) == 0;
      if |b| >= 2 && b[0] == '.' && IsDigit(b[1]) {
        assert DigitRunEnd(b, 1) >= 2;
      } else if |b| >= 1 && b[0] == '.' {
        assert DigitRunEnd(b, 1) == 1;
      }
    }
  }

  // ---------------------------------------------------------------- toFixed(2), read back

  /** What reading back `toFixed(2)` of `x` gives: `x` rounded to hundredths; an infinity itself. */
  function RoundedToHundredths(x: Number): Number {
    match x
    case Finite(d) => Finite(Decimal(RoundedCents(d), 2))
    case Infinity(neg) => Infinity(neg)
  }

  /** `parseFloat(x.toFixed(2))` is `x` rounded to hundredths, for the infinities too. */
  lemma ParseToFixed2(x: Number)
    ensures ParseFloat(ToFixed2(x)) == Some(RoundedToHundredths(x))
  {
    match x
    case Finite(d) => ParseFormatFixed2(d);
    case Infinity(neg) =>
      if neg {
        ParseNegativeInfinity();
      } else {
        assert "Infinity"[..8] == "Infinity";
      }
  }

  lemma ParseNegativeInfinity()
    ensures ParseFloat("-Infinity") == Some(Infinity(true))
  {
    assert "-Infinity"[1..] == "Infinity";
    assert "Infinity"[..8] == "Infinity";
  }
}
