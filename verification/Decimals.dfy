/** Exact decimals as Python's `decimal` keeps them, and the canonical text of a rounded one
    (`_canonical_decimal` in app/channel_selector.py). The number of significant digits of the
    context, 28 by default, is the parameter `p`. */
module Decimals {
  import opened Digits
  import opened Orders

  /** (-1)^neg * coeff * 10^exp */
  datatype Dec = Dec(neg: bool, coeff: nat, exp: int)

  function Scale(e: int): (s: real)
    ensures s > 0.0
    decreases if e < 0 then -e else e
  {
    if e == 0 then 1.0 else if e > 0 then 10.0 * Scale(e - 1) else Scale(e + 1) / 10.0
  }

  function Magnitude(c: nat, e: int): real { c as real * Scale(e) }

  function Value(d: Dec): real {
    if d.neg then -Magnitude(d.coeff, d.exp) else Magnitude(d.coeff, d.exp)
  }

  lemma MagnitudeOrder(c: nat, d: nat, e: int)
    ensures Magnitude(c, e) == Magnitude(d, e) <==> c == d
    ensures Magnitude(c, e) >= 0.0 && (Magnitude(c, e) == 0.0 <==> c == 0)
  {
    var x, y, s := c as real, d as real, Scale(e);
    assert (x - y) * s == x * s - y * s;
    assert x * s == 0.0 <==> x == 0.0;
    assert (x - y) * s == 0.0 <==> x - y == 0.0;
  }

  /** A factor ten moves between the coefficient and the exponent. */
  lemma TenMoves(c: nat, e: int)
    ensures Magnitude(10 * c, e) == Magnitude(c, e + 1)
  {
    assert Scale(e + 1) == 10.0 * Scale(e);
    var x, s := c as real, Scale(e);
    assert (10 * c) as real == 10.0 * x;
    assert (10.0 * x) * s == x * (10.0 * s);
  }

  lemma {:induction false} PowerMoves(c: nat, e: int, k: nat)
    ensures Magnitude(c * Pow10(k), e) == Magnitude(c, e + k)
    decreases k
  {
    if k > 0 {
      PowerMoves(c, e + 1, k - 1);
      TenMoves(c * Pow10(k - 1), e);
      assert c * Pow10(k) == 10 * (c * Pow10(k - 1));
    }
  }

  // ----- Stripping trailing zeros -----

  function Strip(c: nat, e: int): (r: (nat, int))
    requires c > 0
    ensures 0 < r.0 <= c && r.0 % 10 != 0
  {
    if c % 10 == 0 then Strip(c / 10, e + 1) else (c, e)
  }

  lemma {:induction false} StripKeepsValue(c: nat, e: int)
    requires c > 0
    ensures Magnitude(Strip(c, e).0, Strip(c, e).1) == Magnitude(c, e)
  {
    if c % 10 == 0 {
      StripKeepsValue(c / 10, e + 1);
      TenMoves(c / 10, e);
    }
  }

  lemma StrippedIsUnique(c: nat, e: int, d: nat, f: int)
    requires c % 10 != 0 && d % 10 != 0 && Magnitude(c, e) == Magnitude(d, f)
    ensures c == d && e == f
  {
    if e <= f {
      StrippedInOrder(c, e, d, f - e);
    } else {
      StrippedInOrder(d, f, c, e - f);
    }
  }

  lemma StrippedInOrder(c: nat, e: int, d: nat, k: nat)
    requires c % 10 != 0 && Magnitude(c, e) == Magnitude(d, e + k)
    ensures c == d && k == 0
  {
    PowerMoves(d, e, k);
    MagnitudeOrder(c, d * Pow10(k), e);
    if k > 0 {
      TenTimes(d, Pow10(k - 1));
    }
  }

  lemma TenTimes(d: nat, q: nat)
    ensures (d * (10 * q)) % 10 == 0
  {
    assert d * (10 * q) == 10 * (d * q);
  }

  /** Nonzero decimals of equal value strip to the same coefficient and exponent. */
  lemma SameValueSameStrip(a: Dec, b: Dec)
    requires a.coeff > 0 && b.coeff > 0 && Value(a) == Value(b)
    ensures a.neg == b.neg && Strip(a.coeff, a.exp) == Strip(b.coeff, b.exp)
  {
    MagnitudeOrder(a.coeff, 0, a.exp);
    MagnitudeOrder(b.coeff, 0, b.exp);
    StripKeepsValue(a.coeff, a.exp);
    StripKeepsValue(b.coeff, b.exp);
    var x, y := Strip(a.coeff, a.exp), Strip(b.coeff, b.exp);
    StrippedIsUnique(x.0, x.1, y.0, y.1);
  }

  // ----- Rounding to p significant digits, ties to even -----

  /** How many digits more than `p` the coefficient has. */
  function Excess(c: nat, p: nat): nat { if c < Pow10(p) then 0 else 1 + Excess(c / 10, p) }

  function Quotient(c: nat, m: nat): nat
    requires m > 0
  {
    c / m
  }

  /** c / m to the nearest whole number. */
  function Nearest(c: nat, m: nat): nat
    requires m > 0
  {
    var q, r := c / m, c % m;
    if 2 * r > m || (2 * r == m && q % 2 == 1) then q + 1 else q
  }

  function RoundCoeff(c: nat, k: nat): nat { Nearest(c, Pow10(k)) }

  function Round(d: Dec, p: nat): Dec
    requires p > 0
  {
    var k := Excess(d.coeff, p);
    var c := RoundCoeff(d.coeff, k);
    if c == Pow10(p) then Dec(d.neg, Pow10(p - 1), d.exp + k + 1) else Dec(d.neg, c, d.exp + k)
  }

  /** Rounding moves a coefficient by at most half a unit in the last place kept. */
  lemma RoundIsNearest(c: nat, m: nat)
    requires m > 0
    ensures var gap: int := 2 * (c - Nearest(c, m) * m);
            0 - m <= gap <= m && (gap == m || gap == 0 - m ==> Nearest(c, m) % 2 == 0)
  {
    var q, r := c / m, c % m;
    assert c == q * m + r;
    assert (q + 1) * m == q * m + m;
  }

  lemma {:induction false} ExcessKeepsDigits(c: nat, p: nat)
    requires p > 0
    ensures c / Pow10(Excess(c, p)) < Pow10(p)
    ensures c > 0 ==> c / Pow10(Excess(c, p)) > 0
    ensures Excess(c, p) > 0 ==> c / Pow10(Excess(c, p)) >= Pow10(p - 1)
  {
    if c >= Pow10(p) {
      var k := Excess(c / 10, p);
      ExcessKeepsDigits(c / 10, p);
      DivideTwice(c, 10, Pow10(k));
      assert Pow10(p) == 10 * Pow10(p - 1);
      if k == 0 {
        assert c / 10 >= Pow10(p - 1);
      }
    }
  }

  lemma DivideTwice(c: nat, a: nat, b: nat)
    requires a > 0 && b > 0
    ensures a * b > 0 && c / (a * b) == c / a / b
  {
    var x, y := c / a, c % a;
    var q, r := x / b, x % b;
    Recompose(c, a, b, x, y, q, r);
    QuotientOf(c, a * b, q, a * r + y);
  }

  lemma Recompose(c: int, a: nat, b: nat, x: int, y: nat, q: int, r: nat)
    requires c == a * x + y && x == b * q + r && y < a && r < b
    ensures a * b > 0 && c == a * b * q + (a * r + y) && 0 <= a * r + y < a * b
  {
    assert a * (b * q + r) == a * b * q + a * r;
    Fraction(a, b, r);
  }

  lemma Fraction(a: nat, b: nat, r: nat)
    requires r < b && a > 0
    ensures 0 <= a * r <= a * b - a && a * b > 0
  {
    var gap := b - 1 - r;
    assert a * (r + gap) == a * r + a * gap;
    assert a * (b - 1) == a * b - a;
    assert a * r >= 0 && a * gap >= 0;
  }

  lemma QuotientOf(c: nat, m: nat, q: nat, r: nat)
    requires m > 0 && c == m * q + r && r < m
    ensures c / m == q && c % m == r
  {
    var d: int := c / m - q;
    assert m * (c / m) == m * q + m * d;
    assert m * d == r - c % m;
    SmallMultiple(m, d);
  }

  lemma SmallMultiple(m: nat, d: int)
    requires m > 0 && 0 - m < m * d < m
    ensures d == 0
  {
    assert d >= 1 ==> m * d >= m;
    assert d <= -1 ==> m * (-d) >= m;
  }

  lemma RoundedFits(d: Dec, p: nat)
    requires p > 0
    ensures Round(d, p).coeff < Pow10(p) && (Round(d, p).coeff == 0 <==> d.coeff == 0)
    ensures Round(d, p).neg == d.neg
    ensures d.coeff < Pow10(p) ==> Round(d, p) == d
  {
    var k := Excess(d.coeff, p);
    ExcessKeepsDigits(d.coeff, p);
    NearestIsClose(d.coeff, Pow10(k));
    assert Pow10(p) == 10 * Pow10(p - 1);
    if k == 0 {
      assert Pow10(0) == 1;
    }
  }

  /** Carrying into a further digit does not change the value. */
  lemma CarryKeepsValue(d: Dec, p: nat)
    requires p > 0
    ensures var k := Excess(d.coeff, p);
            Value(Round(d, p)) == Value(Dec(d.neg, RoundCoeff(d.coeff, k), d.exp + k))
  {
    var k := Excess(d.coeff, p);
    TenMoves(Pow10(p - 1), d.exp + k);
  }

  lemma ScaledGap(gap: real, bound: real, s: real)
    requires -bound <= 2.0 * gap <= bound && s > 0.0
    ensures -(bound * s) <= 2.0 * (gap * s) <= bound * s
  {
    assert (bound - 2.0 * gap) * s >= 0.0 && (bound + 2.0 * gap) * s >= 0.0;
    assert (2.0 * gap) * s == 2.0 * (gap * s);
  }

  lemma GapAsReal(c: nat, m: nat, bound: nat)
    requires 0 - bound <= 2 * (c - m) <= bound
    ensures -(bound as real) <= 2.0 * (c as real - m as real) <= bound as real
  {
  }

  lemma GapOfProducts(x: real, y: real, b: real, s: real, xs: real, ys: real, bs: real)
    requires -b <= 2.0 * (x - y) <= b && s > 0.0 && xs == x * s && ys == y * s && bs == b * s
    ensures -bs <= 2.0 * (xs - ys) <= bs
  {
    ScaledGap(x - y, b, s);
    assert (x - y) * s == x * s - y * s;
  }

  /** A small difference of coefficients is a small difference of magnitudes. */
  lemma SameScaleGap(c: nat, m: nat, bound: nat, e: int)
    requires 0 - bound <= 2 * (c - m) <= bound
    ensures -Magnitude(bound, e) <= 2.0 * (Magnitude(c, e) - Magnitude(m, e)) <= Magnitude(bound, e)
  {
    GapAsReal(c, m, bound);
    GapOfProducts(c as real, m as real, bound as real, Scale(e),
                  Magnitude(c, e), Magnitude(m, e), Magnitude(bound, e));
  }

  lemma UnitMagnitude(e: int)
    ensures Magnitude(1, e) == Scale(e)
  {
  }

  /** Half a unit of the coefficient's `k`-th digit is half a unit of the value's. */
  lemma MagnitudeGap(c: nat, n: nat, m: nat, bound: nat, k: nat, e: int)
    requires m == n * Pow10(k) && bound == 1 * Pow10(k) && 0 - bound <= 2 * (c - m) <= bound
    ensures -Scale(e + k) <= 2.0 * (Magnitude(c, e) - Magnitude(n, e + k)) <= Scale(e + k)
  {
    SameScaleGap(c, m, bound, e);
    PowerMoves(n, e, k);
    PowerMoves(1, e, k);
    UnitMagnitude(e + k);
  }

  /** Rounding moves the value by at most half a unit of the last digit kept. */
  lemma RoundedValueIsNear(d: Dec, p: nat)
    requires p > 0
    ensures var unit := Scale(d.exp + Excess(d.coeff, p));
            -unit <= 2.0 * (Value(d) - Value(Round(d, p))) <= unit
  {
    var k := Excess(d.coeff, p);
    CarryKeepsValue(d, p);
    RoundIsNearest(d.coeff, Pow10(k));
    var n := RoundCoeff(d.coeff, k);
    MagnitudeGap(d.coeff, n, n * Pow10(k), Pow10(k), k, d.exp);
  }

  lemma NearestIsClose(c: nat, m: nat)
    requires m > 0
    ensures c / m <= Nearest(c, m) <= c / m + 1
    ensures m == 1 ==> Nearest(c, m) == c
    ensures c == 0 ==> Nearest(c, m) == 0
  {
    if c == 0 {
      QuotientOf(0, m, 0, 0);
    }
  }

  /** A trailing zero of the coefficient has no influence on the rounded value. */
  lemma RoundIgnoresZero(neg: bool, c: nat, e: int, p: nat)
    requires p > 0
    ensures Value(Round(Dec(neg, 10 * c, e), p)) == Value(Round(Dec(neg, c, e + 1), p))
  {
    if 10 * c < Pow10(p) {
      RoundedFits(Dec(neg, 10 * c, e), p);
      RoundedFits(Dec(neg, c, e + 1), p);
      TenMoves(c, e);
    } else {
      var k := Excess(c, p);
      assert Excess(10 * c, p) == k + 1;
      SameDigits(c, k);
    }
  }

  lemma SameDigits(c: nat, k: nat)
    ensures RoundCoeff(10 * c, k + 1) == RoundCoeff(c, k)
  {
    TenfoldNearest(c, Pow10(k));
  }

  lemma TenfoldNearest(c: nat, m: nat)
    requires m > 0
    ensures Nearest(10 * c, 10 * m) == Nearest(c, m)
  {
    var q, r := c / m, c % m;
    Tenfold(c, m, q, r);
    QuotientOf(10 * c, 10 * m, q, 10 * r);
  }

  lemma Tenfold(c: int, m: int, q: int, r: int)
    requires c == m * q + r
    ensures 10 * c == 10 * m * q + 10 * r
  {
    assert 10 * (m * q) == 10 * m * q;
  }

  lemma {:induction false} RoundIgnoresStripping(neg: bool, c: nat, e: int, p: nat)
    requires c > 0 && p > 0
    ensures var s := Strip(c, e);
            Value(Round(Dec(neg, c, e), p)) == Value(Round(Dec(neg, s.0, s.1), p))
  {
    if c % 10 == 0 {
      RoundIgnoresStripping(neg, c / 10, e + 1, p);
      RoundIgnoresZero(neg, c / 10, e, p);
      assert 10 * (c / 10) == c;
    }
  }

  lemma ZeroValue(d: Dec)
    ensures Value(d) == 0.0 <==> d.coeff == 0
  {
    MagnitudeOrder(d.coeff, 0, d.exp);
  }

  /** What a decimal rounds to depends on its value alone. */
  lemma RoundRespectsValue(a: Dec, b: Dec, p: nat)
    requires p > 0 && Value(a) == Value(b)
    ensures Value(Round(a, p)) == Value(Round(b, p))
  {
    ZeroValue(a);
    ZeroValue(b);
    if a.coeff > 0 {
      SameValueSameStrip(a, b);
      RoundIgnoresStripping(a.neg, a.coeff, a.exp, p);
      RoundIgnoresStripping(b.neg, b.coeff, b.exp, p);
    } else {
      RoundedFits(a, p);
      RoundedFits(b, p);
      ZeroValue(Round(a, p));
      ZeroValue(Round(b, p));
    }
  }

  /** At most `p` significant digits. */
  predicate Fits(d: Dec, p: nat) { d.coeff == 0 || Strip(d.coeff, d.exp).0 < Pow10(p) }

  /** Rounding is exact for the decimals of at most `p` significant digits and no others. */
  lemma RoundIsExactIffFits(d: Dec, p: nat)
    requires p > 0
    ensures Value(Round(d, p)) == Value(d) <==> Fits(d, p)
  {
    RoundedFits(d, p);
    if d.coeff == 0 {
      ZeroValue(d);
      ZeroValue(Round(d, p));
    } else {
      var s := Strip(d.coeff, d.exp);
      var stripped := Dec(d.neg, s.0, s.1);
      StripKeepsValue(d.coeff, d.exp);
      RoundIgnoresStripping(d.neg, d.coeff, d.exp, p);
      RoundedFits(stripped, p);
      if Value(Round(d, p)) == Value(d) {
        SameValueSameStrip(Round(d, p), d);
      }
    }
  }

  // ----- Canonical text -----

  function Zeros(n: nat): (s: string)
    ensures |s| == n && forall i | 0 <= i < |s| :: s[i] == '0'
  {
    if n == 0 then [] else Zeros(n - 1) + ['0']
  }

  /** `format(d, "f")` of a non-negative decimal. */
  function Plain(c: nat, e: int): string { Placed(NatText(c), e) }

  function Placed(t: string, e: int): string {
    if e >= 0 then t + Zeros(e)
    else if |t| > -e then t[..|t| + e] + "." + t[|t| + e..]
    else "0" + "." + (Zeros(-e - |t|) + t)
  }

  /** `_canonical_decimal` */
  function CanonicalText(d: Dec, p: nat): string
    requires p > 0
  {
    var r := Round(d, p);
    if r.coeff == 0 then "0"
    else
      var s := Strip(r.coeff, r.exp);
      (if r.neg then "-" else "") + Plain(s.0, s.1)
  }

  /** The part before the first point, if any, and the part after it. */
  function AtPoint(s: string): (string, string) {
    if s == [] then ([], [])
    else if s[0] == '.' then ([], s[1..])
    else
      var rest := AtPoint(s[1..]);
      ([s[0]] + rest.0, rest.1)
  }

  /** `Decimal(text)` for digits with at most one point. */
  function ReadUnsigned(s: string): Option<(nat, int)> {
    var parts := AtPoint(s);
    var digits := parts.0 + parts.1;
    if digits == [] || !AllDigits(digits) then None else Some((Digits.Value(digits), -|parts.1|))
  }

  predicate IsSign(c: char) { c == '+' || c == '-' }

  function Read(s: string): Option<Dec> {
    var signed := s != [] && IsSign(s[0]);
    match ReadUnsigned(if signed then s[1..] else s)
    case None => None
    case Some(r) => Some(Dec(signed && s[0] == '-', r.0, r.1))
  }

  lemma {:induction false} AtPointSplits(a: string, b: string)
    requires '.' !in a
    ensures AtPoint(a + "." + b) == (a, b)
    ensures AtPoint(a) == (a, [])
  {
    if a == [] {
      assert a + "." + b == "." + b;
      assert ("." + b)[1..] == b;
    } else {
      AtPointSplits(a[1..], b);
      assert (a + "." + b)[1..] == a[1..] + "." + b;
      assert [a[0]] + a[1..] == a;
    }
  }

  lemma AppendDigit(s: string, c: char)
    requires AllDigits(s) && IsDigit(c)
    ensures AllDigits(s + [c]) && Digits.Value(s + [c]) == 10 * Digits.Value(s) + DigitValue(c)
  {
    assert (s + [c])[..|s|] == s;
  }

  /** `v` with `n` zeros appended. */
  function Grown(v: nat, n: nat): nat { if n == 0 then v else 10 * Grown(v, n - 1) }

  lemma {:induction false} GrownIsProduct(v: nat, n: nat)
    ensures Grown(v, n) == v * Pow10(n)
  {
    if n > 0 {
      GrownIsProduct(v, n - 1);
      MoveTen(v, Pow10(n - 1));
    }
  }

  lemma MoveTen(x: nat, y: nat)
    ensures 10 * (x * y) == x * (10 * y)
  {
  }

  lemma {:induction false} ValueOfTrailingZeros(s: string, n: nat)
    requires AllDigits(s)
    ensures AllDigits(s + Zeros(n))
    ensures Digits.Value(s + Zeros(n)) == Grown(Digits.Value(s), n)
  {
    if n > 0 {
      ValueOfTrailingZeros(s, n - 1);
      Associative(s, Zeros(n - 1), "0");
      AppendDigit(s + Zeros(n - 1), '0');
    } else {
      assert s + Zeros(0) == s;
    }
  }

  lemma {:induction false} ValueOfLeadingZeros(z: string, s: string)
    requires AllDigits(s) && forall i | 0 <= i < |z| :: z[i] == '0'
    ensures AllDigits(z + s) && Digits.Value(z + s) == Digits.Value(s)
    decreases |z| + |s|
  {
    if s != [] {
      var n := |s| - 1;
      ValueOfLeadingZeros(z, s[..n]);
      AppendDigit(z + s[..n], s[n]);
      assert z + s == (z + s[..n]) + [s[n]];
    } else if z != [] {
      var n := |z| - 1;
      ValueOfLeadingZeros(z[..n], s);
      AppendDigit(z[..n] + s, '0');
      assert z + s == (z[..n] + s) + ['0'];
    } else {
      assert z + s == s;
    }
  }

  lemma ReadWhole(t: string)
    requires t != [] && AllDigits(t)
    ensures ReadUnsigned(t) == Some((Digits.Value(t), 0))
  {
    AtPointSplits(t, []);
    assert t + [] == t;
  }

  lemma ReadPointed(a: string, b: string)
    requires a + b != [] && AllDigits(a + b)
    ensures ReadUnsigned(a + "." + b) == Some((Digits.Value(a + b), -|b|))
  {
    assert forall c | c in a :: c in a + b;
    AtPointSplits(a, b);
  }

  predicate IsSignText(sign: string) { sign == "" || sign == "+" || sign == "-" }

  lemma ReadSigned(sign: string, t: string)
    requires IsSignText(sign) && t != [] && !IsSign(t[0])
    ensures Read(sign + t) == match ReadUnsigned(t)
                              case None => None
                              case Some(r) => Some(Dec(sign == "-", r.0, r.1))
  {
    if sign == "" {
      assert sign + t == t;
    } else {
      assert (sign + t)[0] == sign[0] && (sign + t)[1..] == t;
    }
  }

  lemma PointedStart(a: string, b: string)
    requires AllDigits(a + b)
    ensures a + "." + b != [] && !IsSign((a + "." + b)[0])
  {
    if a != [] {
      assert (a + b)[0] in a + b && (a + "." + b)[0] == (a + b)[0];
    }
  }

  /** Digits around a point after an optional sign: all are significant, and those behind the point
      are the decimal places. */
  lemma PointedIsRead(sign: string, a: string, b: string, t: string)
    requires IsSignText(sign) && AllDigits(a + b) && a + b != [] && t == a + "." + b
    ensures Read(sign + t) == Some(Dec(sign == "-", Digits.Value(a + b), -|b|))
  {
    PointedStart(a, b);
    ReadPointed(a, b);
    ReadSigned(sign, t);
  }

  lemma DigitsAreRead(sign: string, a: string)
    requires IsSignText(sign) && AllDigits(a) && a != []
    ensures Read(sign + a) == Some(Dec(sign == "-", Digits.Value(a), 0))
  {
    assert a[0] in a;
    ReadWhole(a);
    ReadSigned(sign, a);
  }

  lemma {:induction false} AtPointJoins(s: string)
    ensures var (a, b) := AtPoint(s); s == a + "." + b || (s == a && b == [])
  {
    if s != [] {
      assert s == [s[0]] + s[1..];
      if s[0] != '.' {
        AtPointJoins(s[1..]);
      }
    }
  }

  /** Nothing else is read. */
  lemma OnlyNumeralsAreRead(s: string) returns (sign: string, a: string, b: string)
    requires Read(s).Some?
    ensures IsSignText(sign) && AllDigits(a + b) && a + b != []
    ensures s == sign + (a + "." + b) || (s == sign + a && b == [])
  {
    var signed := s != [] && IsSign(s[0]);
    sign := if signed then s[..1] else "";
    var t := if signed then s[1..] else s;
    assert s == sign + t;
    AtPointJoins(t);
    a, b := AtPoint(t).0, AtPoint(t).1;
  }

  lemma PlainOfLarge(c: nat, e: nat)
    ensures ReadUnsigned(Plain(c, e)) == Some((c * Pow10(e), 0))
  {
    ValueOfNatText(c);
    ValueOfTrailingZeros(NatText(c), e);
    GrownIsProduct(c, e);
    ReadWhole(NatText(c) + Zeros(e));
  }

  lemma PlainOfSmall(c: nat, e: int)
    requires e < 0
    ensures ReadUnsigned(Plain(c, e)) == Some((c, e))
  {
    ValueOfNatText(c);
    ReadPlaced(NatText(c), e);
  }

  lemma ReadPlaced(t: string, e: int)
    requires t != [] && AllDigits(t) && e < 0
    ensures ReadUnsigned(Placed(t, e)) == Some((Digits.Value(t), e))
  {
    if |t| > -e {
      ReadPointed(t[..|t| + e], t[|t| + e..]);
      assert t[..|t| + e] + t[|t| + e..] == t;
    } else {
      ReadBelowOne(t, Zeros(-e - |t|));
    }
  }

  lemma ReadBelowOne(t: string, z: string)
    requires t != [] && AllDigits(t) && forall i | 0 <= i < |z| :: z[i] == '0'
    ensures ReadUnsigned("0" + "." + (z + t)) == Some((Digits.Value(t), 0 - |z + t|))
  {
    Associative("0", z, t);
    ReadAfterPoint("0" + "." + (z + t), "0" + z, z + t, t);
  }

  lemma Associative(a: string, b: string, c: string)
    ensures a + b + c == a + (b + c)
  {
  }

  lemma ReadAfterPoint(text: string, head: string, tail: string, t: string)
    requires text == "0" + "." + tail && head + t == "0" + tail
    requires t != [] && AllDigits(t) && forall i | 0 <= i < |head| :: head[i] == '0'
    ensures ReadUnsigned(text) == Some((Digits.Value(t), 0 - |tail|))
  {
    ValueOfLeadingZeros(head, t);
    ReadParts(text, "0", tail, head + t);
  }

  lemma ReadParts(text: string, a: string, b: string, digits: string)
    requires text == a + "." + b && digits == a + b && digits != [] && AllDigits(digits)
    ensures ReadUnsigned(text) == Some((Digits.Value(digits), 0 - |b|))
  {
    ReadPointed(a, b);
  }

  /** The plain text of a decimal denotes it. */
  lemma PlainDenotes(c: nat, e: int)
    ensures Plain(c, e) != [] && !IsSign(Plain(c, e)[0])
    ensures ReadUnsigned(Plain(c, e)).Some?
    ensures var r := ReadUnsigned(Plain(c, e)).value; Magnitude(r.0, r.1) == Magnitude(c, e)
  {
    assert IsDigit(NatText(c)[0]);
    if e >= 0 {
      PlainOfLarge(c, e);
      PowerMoves(c, 0, e);
    } else {
      PlainOfSmall(c, e);
    }
  }

  /** The canonical text, read back, denotes the rounded decimal. */
  lemma CanonicalTextDenotes(d: Dec, p: nat)
    requires p > 0
    ensures Read(CanonicalText(d, p)).Some?
    ensures Value(Read(CanonicalText(d, p)).value) == Value(Round(d, p))
  {
    var r := Round(d, p);
    var text := CanonicalText(d, p);
    ZeroValue(r);
    if r.coeff == 0 {
      AtPointSplits("0", []);
      assert "0" + [] == "0";
      ZeroValue(Read(text).value);
    } else {
      var s := Strip(r.coeff, r.exp);
      StripKeepsValue(r.coeff, r.exp);
      PlainDenotes(s.0, s.1);
      var plain := Plain(s.0, s.1);
      assert "" + plain == plain && ("-" + plain)[1..] == plain;
    }
  }

  /** Two decimals have the same canonical text exactly when they round to the same value. */
  lemma SameTextIffSameRounding(a: Dec, b: Dec, p: nat)
    requires p > 0
    ensures CanonicalText(a, p) == CanonicalText(b, p) <==> Value(Round(a, p)) == Value(Round(b, p))
  {
    CanonicalTextDenotes(a, p);
    CanonicalTextDenotes(b, p);
    var x, y := Round(a, p), Round(b, p);
    ZeroValue(x);
    ZeroValue(y);
    if Value(x) == Value(y) && x.coeff > 0 {
      SameValueSameStrip(x, y);
    }
  }

  /** Equal decimals have the same text; decimals of at most `p` significant digits have the same
      text only when they are equal. */
  lemma TextIdentifiesValue(a: Dec, b: Dec, p: nat)
    requires p > 0
    ensures Value(a) == Value(b) ==> CanonicalText(a, p) == CanonicalText(b, p)
    ensures Fits(a, p) && Fits(b, p) && CanonicalText(a, p) == CanonicalText(b, p) ==> Value(a) == Value(b)
  {
    SameTextIffSameRounding(a, b, p);
    RoundIsExactIffFits(a, p);
    RoundIsExactIffFits(b, p);
    if Value(a) == Value(b) {
      RoundRespectsValue(a, b, p);
    }
  }

  /** Beyond `p` digits different numbers can share a text: 10^p and 10^p + 1. */
  lemma LongDecimalsCollide(p: nat, a: Dec, b: Dec)
    requires p > 0 && a == Dec(false, Pow10(p), 0) && b == Dec(false, a.coeff + 1, 0)
    ensures Value(a) != Value(b) && CanonicalText(a, p) == CanonicalText(b, p)
  {
    var P := a.coeff;
    MagnitudeOrder(P, P + 1, 0);
    OneTooMany(P, P, Pow10(p - 1), p);
    OneTooMany(P + 1, P, Pow10(p - 1), p);
    SameTextIffSameRounding(a, b, p);
  }

  lemma OneTooMany(c: nat, P: nat, Q: nat, p: nat)
    requires p > 0 && P == Pow10(p) && Q == Pow10(p - 1) && c in {P, P + 1}
    ensures Round(Dec(false, c, 0), p) == Dec(false, Q, 1)
  {
    assert P == 10 * Q && c / 10 == Q;
    assert Excess(Q, p) == 0;
    assert Pow10(1) == 10;
    assert Nearest(c, 10) == Q;
  }

  /** Canonical text is a fixed point: reading it and writing it again changes nothing. */
  lemma CanonicalTextIsStable(d: Dec, p: nat)
    requires p > 0
    ensures CanonicalText(Round(d, p), p) == CanonicalText(d, p)
    ensures Read(CanonicalText(d, p)).Some? && CanonicalText(Read(CanonicalText(d, p)).value, p) == CanonicalText(d, p)
  {
    CanonicalTextDenotes(d, p);
    RoundedFits(d, p);
    RoundedFits(Round(d, p), p);
    TextIdentifiesValue(Read(CanonicalText(d, p)).value, Round(d, p), p);
  }

  // ----- Whole numbers -----

  predicate IsWhole(d: Dec) { d.exp >= 0 || d.coeff % Pow10(-d.exp) == 0 }

  /** `int(d)` */
  function WholeMagnitude(d: Dec): nat {
    if d.exp >= 0 then d.coeff * Pow10(d.exp) else Quotient(d.coeff, Pow10(-d.exp))
  }

  function ToInt(d: Dec): int { if d.neg then 0 - WholeMagnitude(d) else WholeMagnitude(d) }

  lemma ScaleOfZero(n: nat)
    ensures Magnitude(n, 0) == n as real
  {
  }

  /** A decimal is whole exactly when its value is a whole number, which `int` then returns. */
  lemma WholeIffIntegerValue(d: Dec, n: int)
    ensures IsWhole(d) && ToInt(d) == n <==> Value(d) == n as real
  {
    var m: nat := if n < 0 then -n else n;
    MagnitudeOrder(d.coeff, 0, d.exp);
    WholeMagnitudeIff(d, m);
  }

  lemma WholeMagnitudeIff(d: Dec, m: nat)
    ensures IsWhole(d) && WholeMagnitude(d) == m <==> Magnitude(d.coeff, d.exp) == m as real
  {
    ScaleOfZero(m);
    if d.exp >= 0 {
      PowerMoves(d.coeff, 0, d.exp);
      ScaleOfZero(WholeMagnitude(d));
    } else {
      PowerMoves(m, d.exp, -d.exp);
      MagnitudeOrder(d.coeff, m * Pow10(-d.exp), d.exp);
      MultipleIff(d.coeff, Pow10(-d.exp), m);
    }
  }

  lemma MultipleIff(c: nat, P: nat, m: nat)
    requires P > 0
    ensures c % P == 0 && Quotient(c, P) == m <==> c == m * P
  {
    assert c == P * (c / P) + c % P;
    if c == m * P {
      QuotientOf(c, P, m, 0);
    }
  }
}
