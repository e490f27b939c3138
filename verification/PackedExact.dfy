/** Packed arithmetic on all decimals: sums, differences and products are exact, quotients have 31
    significant digits, and an overflow is a result of 10^63 or more. */
module PackedExact {
  import opened Basics
  import opened IntArith
  import opened Numerals
  import opened PackedDecimal

  /** A decimal in units of `10^-k`. */
  function At(d: Dec, k: int): int
    requires k >= d.s
  {
    d.v * Ten(k - d.s)
  }

  lemma TenAdds(j: int, k: int)
    requires j >= 0 && k >= 0
    ensures Ten(j + k) == Ten(j) * Ten(k)
  {
    PowAdds(10, j, k);
  }

  /** A finer unit multiplies. */
  lemma AtFiner(d: Dec, k: int, l: int)
    requires l >= k >= d.s
    ensures At(d, l) == At(d, k) * Ten(l - k)
  {
    TenAdds(k - d.s, l - k);
    MulAssociates(d.v, Ten(k - d.s), Ten(l - k));
  }

  lemma {:induction false} TrimKeepsValue(d: Dec, k: int)
    requires k >= d.s && k >= 0
    ensures Trim(d).s <= k && At(Trim(d), k) == At(d, k)
    ensures Trim(d).s > 0 ==> Trim(d).v % 10 != 0
    decreases if d.s < 0 then 0 else d.s
  {
    if d.s < 0 {
      TenAdds(-d.s, k);
      MulAssociates(d.v, Ten(-d.s), Ten(k));
    } else if d.s > 0 && d.v % 10 == 0 {
      TrimKeepsValue(Dec(d.v / 10, d.s - 1), k);
      assert Ten(k - d.s + 1) == 10 * Ten(k - d.s);
      MulAssociates(d.v / 10, 10, Ten(k - d.s));
    }
  }

  lemma ScaleKeepsValue(d: Dec, to: int, k: int)
    requires k >= to >= d.s
    ensures Scale(d, to).s == to && At(Scale(d, to), k) == At(d, k)
  {
    TenAdds(to - d.s, k - to);
    MulAssociates(d.v, Ten(to - d.s), Ten(k - to));
    assert d.s == to ==> Ten(0) == 1;
  }

  lemma AlignKeepsValues(x: Dec, y: Dec, k: int)
    requires k >= x.s && k >= y.s
    ensures var (a, b) := Align(x, y);
            a.s == b.s && a.s <= k && At(a, k) == At(x, k) && At(b, k) == At(y, k)
  {
    ScaleKeepsValue(x, if x.s < y.s then y.s else x.s, k);
    ScaleKeepsValue(y, if x.s < y.s then y.s else x.s, k);
  }

  lemma DividesBelow(n: int, p: int, q: int)
    requires n >= 0 && p > 0
    ensures n / p < q <==> n < q * p
  {
    IntArith.DivMul(n, p);
    if n / p < q {
      MulAtLeast(p, q, n / p + 1);
      Distribute(n / p, -1, p);
    } else {
      MulAtLeast(p, n / p, q);
    }
  }

  lemma CancelsRight(x: int, y: int, p: int)
    requires p > 0
    ensures x < y <==> x * p < y * p
    ensures x == y <==> x * p == y * p
  {
    if x < y {
      MulAtLeast(p, y, x + 1);
      Distribute(x, -1, p);
    } else {
      MulAtLeast(p, x, y);
      if x > y {
        MulAtLeast(p, x, y + 1);
        Distribute(y, -1, p);
      }
    }
  }

  lemma MagnitudeAt(d: Dec, k: int)
    requires k >= d.s
    ensures Abs(At(d, k)) == Abs(d.v) * Ten(k - d.s)
  {
    if d.v < 0 {
      Distribute(0, -d.v, Ten(k - d.s));
      MulAtLeast(-d.v, Ten(k - d.s), 0);
    } else {
      MulAtLeast(d.v, Ten(k - d.s), 0);
    }
  }

  lemma WholePartBelow(d: Dec, k: int)
    requires k >= d.s && k >= 0
    ensures WholePart(d) < Ten(63) <==> Abs(At(d, k)) < Ten(63 + k)
  {
    MagnitudeAt(d, k);
    TenAdds(63, k);
    if d.s > 0 {
      DividesBelow(Abs(d.v), Ten(d.s), Ten(63));
      CancelsRight(Abs(d.v), Ten(63) * Ten(d.s), Ten(k - d.s));
      TenAdds(d.s, k - d.s);
      MulAssociates(Ten(63), Ten(d.s), Ten(k - d.s));
    } else {
      TenAdds(-d.s, k);
      MulAssociates(Abs(d.v), Ten(-d.s), Ten(k));
      CancelsRight(Abs(d.v) * Ten(-d.s), Ten(63), Ten(k));
    }
  }

  /** A result is kept as it is, or is too large: 10^63 or more. */
  lemma CalcIs(d: Dec, k: int)
    requires k >= d.s && k >= 0
    ensures Calc(d) == if Abs(At(d, k)) < Ten(63 + k) then Ok(Trim(d)) else Err(Overflow)
  {
    WholePartBelow(d, k);
    if WholePart(d) != 0 {
      NumeralLength(WholePart(d), 10, 63);
    }
  }

  /** What is the value of a result. */
  ghost predicate Gives(p: Packed, k: int, value: int)
    requires k >= 0
  {
    match p
    case Ok(z) => 0 <= z.s <= k && At(z, k) == value && Abs(value) < Ten(63 + k)
    case Err(f) => f == Overflow && Abs(value) >= Ten(63 + k)
  }

  lemma CalcGives(d: Dec, k: int)
    requires k >= d.s && k >= 0
    ensures Gives(Calc(d), k, At(d, k))
  {
    CalcIs(d, k);
    TrimKeepsValue(d, k);
  }

  /** Sums and differences are exact, in any unit fine enough for both. */
  lemma SumsAreExact(x: Dec, y: Dec, k: int)
    requires k >= x.s && k >= y.s && k >= 0
    ensures Gives(AddP(x, y), k, At(x, k) + At(y, k)) && Gives(SubP(x, y), k, At(x, k) - At(y, k))
  {
    var (a, b) := Align(x, y);
    AlignKeepsValues(x, y, k);
    Distribute(a.v, -b.v, Ten(k - a.s));
    Distribute(a.v, b.v, Ten(k - a.s));
    Distribute(0, b.v, Ten(k - a.s));
    CalcGives(Dec(a.v + b.v, a.s), k);
    CalcGives(Dec(a.v - b.v, a.s), k);
  }

  lemma ProductOf(a: int, b: int, p: int, q: int)
    ensures (a * p) * (b * q) == (a * b) * (p * q)
  {
    MulAssociates(a * p, b, q);
    MulAssociates(a, p, b);
    MulAssociates(a, b, p);
    MulAssociates(a * b, p, q);
  }

  /** Products are exact. */
  lemma ProductsAreExact(x: Dec, y: Dec, k: int, l: int)
    requires k >= x.s && l >= y.s && k + l >= 0
    ensures Gives(MulP(x, y), k + l, At(x, k) * At(y, l))
  {
    TenAdds(k - x.s, l - y.s);
    ProductOf(x.v, y.v, Ten(k - x.s), Ten(l - y.s));
    CalcGives(Dec(x.v * y.v, x.s + y.s), k + l);
  }

  lemma NegationIsExact(x: Dec, k: int)
    requires k >= x.s && k >= 0
    ensures NegP(x).s <= k && At(NegP(x), k) == -At(x, k)
  {
    TrimKeepsValue(Dec(-x.v, x.s), k);
    Distribute(0, x.v, Ten(k - x.s));
  }

  /** A comparison is that of the values. */
  lemma ComparesValues(x: Dec, y: Dec, k: int)
    requires k >= x.s && k >= y.s
    ensures Compare(x, y) == if At(x, k) < At(y, k) then -1 else if At(x, k) > At(y, k) then 1 else 0
  {
    var (a, b) := Align(x, y);
    AlignKeepsValues(x, y, k);
    CancelsRight(a.v, b.v, Ten(k - a.s));
    CancelsRight(b.v, a.v, Ten(k - a.s));
  }

  // ----- DIV and MOD -----

  lemma ScaledEuclid(a: int, d: int, p: int)
    requires d > 0 && p > 0
    ensures d * p > 0 && (a * p) / (d * p) == a / d && (a * p) % (d * p) == (a % d) * p
  {
    MulAtLeast(d, p, 1);
    var q, r := a / d, a % d;
    assert a * p == q * (d * p) + r * p by {
      Distribute(q * d, -r, p);
      Distribute(0, r, p);
      MulAssociates(q, d, p);
    }
    MulAtLeast(r, p, 0);
    CancelsRight(r, d, p);
    UniqueQuotient((a * p) / (d * p), (a * p) % (d * p), q, r * p, d * p);
  }

  lemma EuclidAt(a: int, b: int, p: int)
    requires b != 0 && p > 0
    ensures b * p != 0 && (a * p) / (b * p) == a / b && (a * p) % (b * p) == (a % b) * p
  {
    ScaledEuclid(a, Abs(b), p);
    Distribute(0, b, p);
    EuclideanByAbs(a, b);
    EuclideanByAbs(a * p, b * p);
  }

  lemma ZeroDivisor(x: Dec, y: Dec, k: int)
    requires k >= x.s && k >= y.s && k >= 0 && At(y, k) == 0
    ensures DivIntP(x, y) == ModP(x, y) == if At(x, k) == 0 then Ok(Dec(0, 0)) else Err(ZeroDivide)
  {
    var (a, b) := Align(x, y);
    AlignKeepsValues(x, y, k);
    CancelsRight(a.v, 0, Ten(k - a.s));
    CancelsRight(b.v, 0, Ten(k - a.s));
    FewDigits(0);
    assert Whole(0) == Dec(0, 0);
  }

  lemma AlignedDivMod(x: Dec, y: Dec)
    requires Align(x, y).1.v != 0
    ensures var (a, b) := Align(x, y);
            DivIntP(x, y) == Calc(Dec(a.v / b.v, 0)) && ModP(x, y) == Calc(Dec(a.v % b.v, a.s))
  {
    EuclideanStep(Align(x, y).0.v, Align(x, y).1.v);
  }

  /** DIV is the Euclidean quotient of the values, and MOD the rest. */
  lemma DivModAreEuclidean(x: Dec, y: Dec, k: int)
    requires k >= x.s && k >= y.s && k >= 0
    ensures At(y, k) == 0 ==> DivIntP(x, y) == ModP(x, y) == if At(x, k) == 0 then Ok(Dec(0, 0)) else Err(ZeroDivide)
    ensures At(y, k) != 0 ==>
              && Gives(DivIntP(x, y), 0, At(x, k) / At(y, k))
              && Gives(ModP(x, y), k, At(x, k) % At(y, k))
  {
    if At(y, k) == 0 {
      ZeroDivisor(x, y, k);
    } else {
      var (a, b) := Align(x, y);
      AlignKeepsValues(x, y, k);
      CancelsRight(b.v, 0, Ten(k - a.s));
      AlignedDivMod(x, y);
      EuclidAt(a.v, b.v, Ten(k - a.s));
      var q, r := Dec(a.v / b.v, 0), Dec(a.v % b.v, a.s);
      CalcGives(q, 0);
      CalcGives(r, k);
      assert At(q, 0) == a.v / b.v by { assert Ten(0) == 1; }
    }
  }

  // ----- division -----

  /** The first significant digit of `n / m` is that of `10^e`. */
  predicate LeadsAt(n: int, m: int, e: int) {
    if e >= 0 then m * Ten(e) <= n < m * Ten(e + 1) else m <= n * Ten(-e) && n * Ten(-e - 1) < m
  }

  lemma DigitsBound(n: int) returns (a: int)
    requires n > 0
    ensures a == |Numeral(n, 10)| && a >= 1 && Ten(a - 1) <= n < Ten(a)
  {
    a := |Numeral(n, 10)|;
    NumeralNonEmpty(n, 10);
    NumeralLength(n, 10, a);
    if a > 1 {
      NumeralLength(n, 10, a - 1);
    }
  }

  lemma LeadsFromAbove(n: int, m: int, a: int, b: int)
    requires n > 0 && m > 0 && a >= b >= 1 && Ten(a - 1) <= n < Ten(a) && Ten(b - 1) <= m < Ten(b)
    ensures LeadsAt(n, m, if n < m * Ten(a - b) then a - b - 1 else a - b)
  {
    var e := a - b;
    if n < m * Ten(e) {
      if e > 0 {
        TenAdds(b, e - 1);
        CancelsRight(m, Ten(b), Ten(e - 1));
      } else {
        assert Ten(1) == 10 * Ten(0) && Ten(a) == 10 * Ten(a - 1);
      }
    } else {
      TenAdds(b - 1, e + 1);
      ScaleBy(Ten(b - 1), m, Ten(e + 1));
    }
  }

  lemma LeadsFromBelow(n: int, m: int, a: int, b: int, f: int)
    requires n > 0 && m > 0 && a >= 1 && f == b - a >= 1 && Ten(a - 1) <= n < Ten(a) && Ten(b - 1) <= m < Ten(b)
    ensures LeadsAt(n, m, if n * Ten(f) < m then -f - 1 else -f)
  {
    if n * Ten(f) < m {
      assert Ten(f + 1) == 10 * Ten(f);
      MulAssociates(n, 10, Ten(f));
      TenAdds(a - 1, f + 1);
      ScaleBy(Ten(a - 1), n, Ten(f + 1));
    } else {
      TenAdds(a, f - 1);
      CancelsRight(n, Ten(a), Ten(f - 1));
    }
  }

  lemma LeadingDigitIs(n: int, m: int)
    requires n > 0 && m > 0
    ensures LeadsAt(n, m, LeadingDigit(n, m))
  {
    var a := DigitsBound(n);
    var b := DigitsBound(m);
    if a >= b {
      LeadsFromAbove(n, m, a, b);
    } else {
      LeadsFromBelow(n, m, a, b, b - a);
    }
  }

  /** Quotient and divisor as they are divided: `10^scale` more of the one, or of the other. */
  function Scaled(n: int, m: int, scale: int): (int, int) {
    if scale >= 0 then (n * Ten(scale), m) else (n, m * Ten(-scale))
  }

  /** The quotient that is rounded has 31 digits before its point. */
  lemma Has31Digits(n: int, m: int, e: int)
    requires n > 0 && m > 0 && LeadsAt(n, m, e)
    ensures var (N, M) := Scaled(n, m, 30 - e); M > 0 && M * Ten(30) <= N < M * Ten(31)
  {
    if e < 0 {
      TenAdds(-e, 30);
      TenAdds(-e - 1, 31);
      MulAssociates(n, Ten(-e), Ten(30));
      MulAssociates(n, Ten(-e - 1), Ten(31));
      ScaleBy(m, n * Ten(-e), Ten(30));
      CancelsRight(n * Ten(-e - 1), m, Ten(31));
    } else if e <= 30 {
      TenAdds(e, 30 - e);
      TenAdds(e + 1, 30 - e);
      MulAssociates(m, Ten(e), Ten(30 - e));
      MulAssociates(m, Ten(e + 1), Ten(30 - e));
      ScaleBy(m * Ten(e), n, Ten(30 - e));
      CancelsRight(n, m * Ten(e + 1), Ten(30 - e));
    } else {
      TenAdds(e - 30, 30);
      TenAdds(e - 30, 31);
      MulAssociates(m, Ten(e - 30), Ten(30));
      MulAssociates(m, Ten(e - 30), Ten(31));
      MulAtLeast(m, Ten(e - 30), 1);
    }
  }

  /** `q` is `n / m` rounded, half away from zero. */
  predicate Rounds(n: int, m: int, q: int) {
    if n >= 0 then IsNearest(n, m, q) else IsNearest(-n, m, -q)
  }

  lemma RoundDivRounds(n: int, m: int)
    requires m > 0
    ensures Rounds(n, m, RoundDiv(n, m))
  {
    RoundDivIsNearest(Abs(n), m);
    if n < 0 {
      RoundDivNegates(-n, m);
    }
  }

  lemma RoundedHasDigits(n: int, m: int, q: int)
    requires m > 0 && m * Ten(30) <= n < m * Ten(31) && IsNearest(n, m, q)
    ensures Ten(30) <= q <= Ten(31)
  {
    assert (2 * q + 1) * m == 2 * (q * m) + m && (2 * q - 1) * m == 2 * (q * m) - m;
    assert 2 * (m * Ten(30)) == (2 * Ten(30)) * m && 2 * (m * Ten(31)) == (2 * Ten(31)) * m;
    CancelsRight(2 * Ten(30), 2 * q + 1, m);
    CancelsRight(2 * q - 1, 2 * Ten(31), m);
  }

  lemma ScaledOfMagnitude(n: int, m: int, scale: int)
    requires n != 0
    ensures Scaled(Abs(n), m, scale) == (Abs(Scaled(n, m, scale).0), Scaled(n, m, scale).1)
  {
    if scale >= 0 {
      ScaledMagnitude(n, Ten(scale));
    }
  }

  lemma RoundsWell(n: int, m: int)
    requires m > 0 && m * Ten(30) <= Abs(n) < m * Ten(31)
    ensures Rounds(n, m, RoundDiv(n, m)) && Ten(30) <= Abs(RoundDiv(n, m)) <= Ten(31)
  {
    MulAtLeast(m, Ten(30), 1);
    RoundDivRounds(n, m);
    NearestOfMagnitude(n, m, RoundDiv(n, m));
    RoundedHasDigits(Abs(n), m, Abs(RoundDiv(n, m)));
  }

  /** Both as they are divided, and the place to which the quotient is taken. */
  lemma QuotientIs(n: int, m: int) returns (q: int, scale: int)
    requires n != 0 && m > 0
    ensures Quotient(n, m) == Calc(Dec(q, scale))
    ensures var (N, M) := Scaled(n, m, scale); M > 0 && Rounds(N, M, q) && Ten(30) <= Abs(q) <= Ten(31)
  {
    var e := LeadingDigit(Abs(n), m);
    scale := 30 - e;
    var (N, M) := Scaled(n, m, scale);
    assert M > 0 && M * Ten(30) <= Abs(N) < M * Ten(31) by {
      LeadingDigitIs(Abs(n), m);
      Has31Digits(Abs(n), m, e);
      ScaledOfMagnitude(n, m, scale);
    }
    q := RoundDiv(N, M);
    RoundsWell(N, M);
  }

  lemma NearestOfMagnitude(n: int, m: int, q: int)
    requires m > 0 && Rounds(n, m, q) && Abs(n) >= m
    ensures IsNearest(Abs(n), m, Abs(q))
  {
    var k := if n < 0 then -q else q;
    if k < 0 {
      ScaleBy(k, -1, m);
    }
  }

  /** A quotient is the nearest decimal of 31 significant digits; zero divisors are as for integers. */
  lemma QuotientsHave31Digits(x: Dec, y: Dec)
    requires x.s >= 0 && y.s >= 0
    ensures y.v == 0 ==> DivP(x, y) == if x.v == 0 then Ok(Dec(0, 0)) else Err(ZeroDivide)
    ensures y.v != 0 && x.v == 0 ==> DivP(x, y) == Ok(Dec(0, 0))
    ensures y.v != 0 && x.v != 0 ==> exists q, scale :: IsQuotient(x, y, q, scale) && DivP(x, y) == Calc(Dec(q, scale))
  {
    if x.v != 0 && y.v != 0 {
      var n, m := x.v * Ten(y.s), y.v * Ten(x.s);
      CancelsRight(x.v, 0, Ten(y.s));
      CancelsRight(y.v, 0, Ten(x.s));
      var q, scale := QuotientIs(if m < 0 then -n else n, Abs(m));
      assert IsQuotient(x, y, q, scale);
    }
  }

  lemma ScaledMagnitude(n: int, p: int)
    requires p > 0
    ensures Abs(n * p) == Abs(n) * p && (n < 0 <==> n * p < 0)
  {
    Distribute(0, n, p);
    CancelsRight(n, 0, p);
  }

  /** `q / 10^scale` is `x / y` rounded to 31 digits, the first of them not zero. */
  predicate IsQuotient(x: Dec, y: Dec, q: int, scale: int)
    requires x.s >= 0 && y.s >= 0
  {
    var n, m := x.v * Ten(y.s), y.v * Ten(x.s);
    var (N, M) := Scaled(if m < 0 then -n else n, Abs(m), scale);
    M > 0 && Rounds(N, M, q) && Ten(30) <= Abs(q) <= Ten(31)
  }

  // ----- into an int8 -----

  /** A decimal goes into an int8 rounded, or is too large, which is reported by where it happens. */
  lemma ToI8Rounds(d: Dec, arith: bool) returns (r: int)
    requires d.s >= 0
    ensures Rounds(d.v, Ten(d.s), r)
    ensures ToI8(d, arith) == if InRange(r) then Ok(r) else if arith then Err(Overflow) else Err(ConversionOverflow)
  {
    r := RoundDiv(d.v, Ten(d.s));
    RoundDivRounds(d.v, Ten(d.s));
    if d.s == 0 {
      assert Ten(0) == 1;
      RoundByOne(d.v);
    }
  }
}
