/**
 * Floating-point values as the ride log stores them, modelled as finite
 * decimals: the text `0.6` is the number 6/10 exactly, not the nearest binary
 * double. `Show` plays the part of `str(float)` and `Parse` the part of
 * `float(text)`, and the two are proved inverse.
 */
module Floats {
  import opened Results
  import opened Digits

  /** The number `mantissa / 10^scale`. */
  datatype Dec = Dec(mantissa: int, scale: nat) {
    function Value(): real {
      mantissa as real / Pow10(scale) as real
    }
  }

  /** No trailing zero after the decimal point: one representation per value. */
  predicate Canonical(d: Dec) {
    d.scale > 0 ==> d.mantissa % 10 != 0
  }

  type Float = d: Dec | Canonical(d) witness Dec(0, 0)

  /** Decimal places kept when a value that is not a finite decimal (a number of
      minutes divided by 60) becomes a float. */
  const RoundingDigits: nat := 12

  function Abs(m: int): nat {
    if m < 0 then -m else m
  }

  /** Drops trailing zeros of the fraction; the value is unchanged. */
  function Normalize(d: Dec): (r: Float)
    ensures r.Value() == d.Value()
    ensures r.scale <= d.scale
    decreases d.scale
  {
    if d.scale > 0 && d.mantissa % 10 == 0 then
      var q := Dec(d.mantissa / 10, d.scale - 1);
      assert q.Value() == d.Value() by {
        assert d.mantissa == 10 * q.mantissa;
        assert Pow10(d.scale) == 10 * Pow10(q.scale);
        ShiftBoth(q.mantissa, Pow10(q.scale));
      }
      Normalize(q)
    else
      d
  }

  lemma ShiftBoth(m: int, p: nat)
    requires p >= 1
    ensures (10 * m) as real / (10 * p) as real == m as real / p as real
  {
  }

  /** The float nearest to `x` on the grid of `RoundingDigits` decimal places
      (ties rounded up). */
  function Round(x: real): (r: Float)
    ensures -1.0 / (2 * GridSteps) as real <= r.Value() - x <= 1.0 / (2 * GridSteps) as real
  {
    var p := GridSteps as real;
    var k := GridPoint(x, p);
    var d := Dec(k, RoundingDigits);
    GridStepsPow10();
    assert d.Value() == k as real / p;
    RoundingError(x, p, k as real);
    Normalize(d)
  }

  /** Grid steps per unit: `10^RoundingDigits`. */
  const GridSteps: nat := 1000000000000

  lemma GridStepsPow10()
    ensures Pow10(RoundingDigits) == GridSteps
  {
    assert Pow10(6) == 1000000;
    Pow10Add(6, 6);
  }

  /** The number of steps of size `1 / p` nearest to `x`. */
  function GridPoint(x: real, p: real): int {
    (x * p + 0.5).Floor
  }

  lemma RoundingError(x: real, p: real, k: real)
    requires p >= 1.0 && x * p - 0.5 < k <= x * p + 0.5
    ensures -1.0 / (2.0 * p) <= k / p - x <= 1.0 / (2.0 * p)
  {
    var e := k - x * p;
    assert k / p - x == e / p;
    assert -0.5 / p <= e / p <= 0.5 / p;
    assert 0.5 / p == 1.0 / (2.0 * p);
  }

  lemma RoundExact(x: real, k: int)
    requires x * GridSteps as real == k as real
    ensures Round(x).Value() == x
  {
    var p := GridSteps as real;
    OnGrid(x, p, k);
    var d := Dec(k, RoundingDigits);
    assert Round(x) == Normalize(d);
    GridStepsPow10();
    assert d.Value() == k as real / p;
  }

  lemma OnGrid(x: real, p: real, k: int)
    requires p >= 1.0 && x * p == k as real
    ensures GridPoint(x, p) == k && k as real / p == x
  {
  }

  // ----- whitespace, as stripped by str.strip() and float() -----

  predicate IsSpace(c: char) {
    c == ' ' || c == '\t' || c == '\n' || c == '\r' || c as int == 11 || c as int == 12
  }

  function StripLeft(s: string): (r: string)
    ensures r == [] || !IsSpace(r[0])
  {
    if s != [] && IsSpace(s[0]) then StripLeft(s[1..]) else s
  }

  function StripRight(s: string): (r: string)
    ensures r == [] || !IsSpace(r[|r| - 1])
  {
    if s != [] && IsSpace(s[|s| - 1]) then StripRight(s[..|s| - 1]) else s
  }

  /** `str.strip()`: surrounding whitespace removed. */
  function Strip(s: string): string {
    StripRight(StripLeft(s))
  }

  /** Text with no whitespace at either end. */
  predicate Trimmed(s: string) {
    s != [] && !IsSpace(s[0]) && !IsSpace(s[|s| - 1])
  }

  lemma StripUnchanged(s: string)
    requires Trimmed(s)
    ensures Strip(s) == s
  {
  }

  /** Position of the first `c` in `s`. */
  function IndexOf(s: string, c: char): (i: nat)
    requires c in s
    ensures i < |s| && s[i] == c && c !in s[..i]
  {
    if s[0] == c then 0 else 1 + IndexOf(s[1..], c)
  }

  lemma IndexOfAfterPrefix(a: string, c: char, b: string)
    requires c !in a
    ensures c in a + [c] + b && IndexOf(a + [c] + b, c) == |a|
  {
    var s := a + [c] + b;
    assert s[|a|] == c;
    assert s[..|a|] == a;
  }

  // ----- str(float) and float(text) -----

  /** Integral part and remainder of `a / 10^scale`, one decimal digit at a time. */
  function Whole(a: nat, scale: nat): nat
    decreases scale
  {
    if scale == 0 then a else Whole(a / 10, scale - 1)
  }

  function Fraction(a: nat, scale: nat): (f: nat)
    ensures f < Pow10(scale)
    decreases scale
  {
    if scale == 0 then 0 else 10 * Fraction(a / 10, scale - 1) + a % 10
  }

  lemma {:induction false} WholeFraction(a: nat, scale: nat)
    ensures Whole(a, scale) * Pow10(scale) + Fraction(a, scale) == a
    decreases scale
  {
    if scale > 0 {
      var w, p, f := Whole(a / 10, scale - 1), Pow10(scale - 1), Fraction(a / 10, scale - 1);
      WholeFraction(a / 10, scale - 1);
      Recompose(a, w, p, f);
      assert Whole(a, scale) == w;
      assert Pow10(scale) == 10 * p;
      assert Fraction(a, scale) == 10 * f + a % 10;
    }
  }

  /** One more digit: `a` is ten times `a / 10` plus its last digit. */
  lemma Recompose(a: int, w: int, p: int, f: int)
    requires w * p + f == a / 10
    ensures w * (10 * p) + (10 * f + a % 10) == a
  {
    assert w * (10 * p) == 10 * (w * p);
  }

  /** The digits before the point in `str(d)`. */
  function IntPart(d: Dec): (s: string)
    ensures AllDigits(s) && s != []
  {
    NatText(Whole(Abs(d.mantissa), d.scale))
  }

  /** The digits after the point in `str(d)`: a single `0` for an integral value. */
  function FracPart(d: Dec): (s: string)
    ensures AllDigits(s) && s != []
  {
    if d.scale == 0 then "0" else Padded(Fraction(Abs(d.mantissa), d.scale), d.scale)
  }

  /** `str(x)`: an optional minus sign, the integer part, a point and the
      fraction, as in `12.0`, `0.6` or `-1.25`. */
  function Show(d: Float): string {
    (if d.mantissa < 0 then "-" else "") + Magnitude(d)
  }

  /** `str(abs(x))`. */
  function Magnitude(d: Dec): (s: string)
    ensures s != [] && IsDigit(s[0]) && IsDigit(s[|s| - 1])
  {
    var ip, fp := IntPart(d), FracPart(d);
    var s := ip + "." + fp;
    assert s[0] == ip[0] && s[|s| - 1] == fp[|fp| - 1];
    s
  }

  /** Digits with at most one point and at least one digit, read as an
      unsigned decimal whose scale is the number of digits after the point. */
  function Unsigned(body: string): Option<Dec> {
    if '.' in body then
      var i := IndexOf(body, '.');
      var ip, fp := body[..i], body[i + 1..];
      if AllDigits(ip) && AllDigits(fp) && |ip| + |fp| > 0 then
        Some(Dec(Combine(ip, fp), |fp|))
      else
        None
    else if AllDigits(body) && body != [] then
      Some(Dec(Value(body), 0))
    else
      None
  }

  /** The mantissa of the decimal `ip.fp`. */
  function Combine(ip: string, fp: string): nat
    requires AllDigits(ip) && AllDigits(fp)
  {
    Value(ip) * Pow10(|fp|) + Value(fp)
  }

  /** `float(text)` on decimal notation: surrounding whitespace, an optional sign,
      then what `Unsigned` accepts. `None` where Python raises ValueError. */
  function Parse(s: string): (r: Option<Float>)
    ensures r.Some? ==> Strip(s) != []
  {
    var t := Strip(s);
    var signed := t != [] && (t[0] == '-' || t[0] == '+');
    var body := if signed then t[1..] else t;
    match Unsigned(body)
    case None => None
    case Some(u) => Some(WithSign(signed && t[0] == '-', u))
  }

  /** The float `u`, negated when `negative`. */
  function WithSign(negative: bool, u: Dec): Float {
    Normalize(Dec(if negative then -u.mantissa else u.mantissa, u.scale))
  }

  lemma UnsignedOfParts(ip: string, fp: string)
    requires AllDigits(ip) && AllDigits(fp) && ip != []
    ensures Unsigned(ip + "." + fp) == Some(Dec(Combine(ip, fp), |fp|))
  {
    var body := ip + "." + fp;
    assert '.' !in ip;
    IndexOfAfterPrefix(ip, '.', fp);
    assert body[..|ip|] == ip && body[|ip| + 1..] == fp;
  }

  lemma UnsignedOfShow(d: Dec)
    ensures Unsigned(Magnitude(d))
         == Some(if d.scale == 0 then Dec(10 * Abs(d.mantissa), 1) else Dec(Abs(d.mantissa), d.scale))
  {
    var a := Abs(d.mantissa);
    var ip, fp := IntPart(d), FracPart(d);
    UnsignedOfParts(ip, fp);
    if d.scale == 0 {
      UnsignedOfIntegral(a, fp);
    } else {
      UnsignedOfFractional(a, d.scale, fp);
    }
  }

  lemma UnsignedOfIntegral(a: nat, fp: string)
    requires fp == "0"
    ensures Combine(NatText(Whole(a, 0)), fp) == 10 * a
  {
    ValueOfNatText(a);
    assert Value(fp) == 0;
  }

  lemma UnsignedOfFractional(a: nat, scale: nat, fp: string)
    requires scale > 0 && fp == Padded(Fraction(a, scale), scale)
    ensures Combine(NatText(Whole(a, scale)), fp) == a
  {
    var w := Whole(a, scale);
    ValueOfNatText(w);
    ValueOfPadded(Fraction(a, scale), scale);
    WholeFraction(a, scale);
    assert |fp| == scale;
  }

  lemma NormalizeTimesTen(m: int)
    ensures Normalize(Dec(10 * m, 1)) == Dec(m, 0)
  {
    assert (10 * m) % 10 == 0 && (10 * m) / 10 == m;
  }

  lemma ParseNegative(s: string, u: Dec)
    requires Strip(s) == s && s != [] && s[0] == '-'
    requires Unsigned(s[1..]) == Some(u)
    ensures Parse(s) == Some(Normalize(Dec(-u.mantissa, u.scale)))
  {
  }

  lemma ParsePositive(s: string, u: Dec)
    requires Strip(s) == s && s != [] && IsDigit(s[0])
    requires Unsigned(s) == Some(u)
    ensures Parse(s) == Some(Normalize(Dec(u.mantissa, u.scale)))
  {
  }

  /** `float` of an optionally negated digit text that has no surrounding space. */
  lemma ParseSigned(neg: bool, body: string, u: Dec)
    requires body != [] && IsDigit(body[0]) && IsDigit(body[|body| - 1])
    requires Unsigned(body) == Some(u)
    ensures Parse((if neg then "-" else "") + body) == Some(Normalize(Dec(if neg then -u.mantissa else u.mantissa, u.scale)))
  {
    var s := (if neg then "-" else "") + body;
    assert s[|s| - 1] == body[|body| - 1];
    StripUnchanged(s);
    if neg {
      assert s[1..] == body;
      ParseNegative(s, u);
    } else {
      assert s == body;
      ParsePositive(s, u);
    }
  }

  lemma ParseShowIntegral(d: Float)
    requires d.scale == 0
    ensures Parse(Show(d)) == Some(d)
  {
    UnsignedOfShow(d);
    var u := Dec(10 * Abs(d.mantissa), 1);
    ParseSigned(d.mantissa < 0, Magnitude(d), u);
    var m := if d.mantissa < 0 then -u.mantissa else u.mantissa;
    assert m == 10 * d.mantissa;
    NormalizeTimesTen(d.mantissa);
  }

  lemma ParseShowFractional(d: Float)
    requires d.scale > 0
    ensures Parse(Show(d)) == Some(d)
  {
    var u := Dec(Abs(d.mantissa), d.scale);
    UnsignedOfShow(d);
    ParseSigned(d.mantissa < 0, Magnitude(d), u);
    assert (if d.mantissa < 0 then -u.mantissa else u.mantissa) == d.mantissa;
    NormalizeCanonical(d);
  }

  lemma NormalizeCanonical(d: Float)
    ensures Normalize(d) == d
  {
  }

  /** Reading back what `Show` wrote gives the same float. */
  lemma ParseShow(d: Float)
    ensures Parse(Show(d)) == Some(d)
  {
    if d.scale == 0 {
      ParseShowIntegral(d);
    } else {
      ParseShowFractional(d);
    }
  }
}
