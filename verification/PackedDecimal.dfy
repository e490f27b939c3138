/** Calculation type p: exact decimals, with 63 digits before the point and quotients of 31
    significant digits. */
module PackedDecimal {
  import opened Basics
  import opened IntArith
  import opened Numerals

  /** `v / 10^s`; a negative scale appends zeros. */
  datatype Dec = Dec(v: int, s: int)

  type Packed = Result<Dec, Failure>

  function Ten(k: int): (p: int)
    requires k >= 0
    ensures p >= 1
  {
    Pow(10, k)
  }

  /** A decimal as its text keeps it: no negative scale, no trailing zero in the fraction. */
  function Trim(d: Dec): (t: Dec)
    ensures t.s >= 0
    decreases if d.s < 0 then 0 else d.s
  {
    if d.s < 0 then Dec(d.v * Ten(-d.s), 0)
    else if d.s > 0 && d.v % 10 == 0 then Trim(Dec(d.v / 10, d.s - 1))
    else d
  }

  /** With `dec` decimals, rounded half away from zero when it has more. */
  function Scale(d: Dec, dec: int): Dec {
    if d.s == dec then d
    else if d.s < dec then Dec(d.v * Ten(dec - d.s), dec)
    else Dec(RoundDiv(d.v, Ten(d.s - dec)), dec)
  }

  function WholePart(d: Dec): (ip: int)
    ensures ip >= 0
  {
    if d.s > 0 then IntArith.DivMul(Abs(d.v), Ten(d.s)); Abs(d.v) / Ten(d.s)
    else MulAtLeast(Abs(d.v), Ten(-d.s), 0); Abs(d.v) * Ten(-d.s)
  }

  function IntDigits(d: Dec): nat {
    var ip := WholePart(d);
    if ip == 0 then 0 else |Numeral(ip, 10)|
  }

  const MAX_DIGITS: int := 63

  function Calc(d: Dec): Packed {
    if IntDigits(d) > MAX_DIGITS then Err(Overflow) else Ok(Trim(d))
  }

  /** Both with the larger of the two scales. */
  function Align(x: Dec, y: Dec): (Dec, Dec) {
    if x.s < y.s then (Scale(x, y.s), y) else if y.s < x.s then (x, Scale(y, x.s)) else (x, y)
  }

  function AddP(x: Dec, y: Dec): Packed {
    var (a, b) := Align(x, y);
    Calc(Dec(a.v + b.v, a.s))
  }

  function SubP(x: Dec, y: Dec): Packed {
    var (a, b) := Align(x, y);
    Calc(Dec(a.v - b.v, a.s))
  }

  function MulP(x: Dec, y: Dec): Packed { Calc(Dec(x.v * y.v, x.s + y.s)) }

  function NegP(x: Dec): Dec { Trim(Dec(-x.v, x.s)) }

  /** Where the first significant digit of `n / m` sits. */
  function LeadingDigit(n: int, m: int): int
    requires n > 0 && m > 0
  {
    var e := |Numeral(n, 10)| - |Numeral(m, 10)|;
    var below := if e < 0 then n * Ten(-e) < m else n < m * Ten(e);
    if below then e - 1 else e
  }

  /** 31 significant digits, rounded. */
  function DivP(x: Dec, y: Dec): Packed
    requires x.s >= 0 && y.s >= 0
  {
    if y.v == 0 then (if x.v == 0 then Ok(Dec(0, 0)) else Err(ZeroDivide))
    else if x.v == 0 then Ok(Dec(0, 0))
    else
      var n, m := x.v * Ten(y.s), y.v * Ten(x.s);
      Quotient(if m < 0 then -n else n, Abs(m))
  }

  function Quotient(n: int, m: int): Packed {
    if n == 0 || m <= 0 then Ok(Dec(0, 0))
    else
      var scale := 30 - LeadingDigit(Abs(n), m);
      Calc(Dec(if scale >= 0 then RoundDiv(n * Ten(scale), m) else RoundDiv(n, m * Ten(-scale)), scale))
  }

  /** DIV and MOD: `0 <= r < |y|`, `x == y * q + r`. */
  function DivMod(x: Dec, y: Dec): Result<(Dec, Dec), Failure> {
    var (a, b) := Align(x, y);
    if b.v == 0 then (if a.v == 0 then Ok((Dec(0, 0), Dec(0, 0))) else Err(ZeroDivide))
    else
      var r := a.v % Abs(b.v);
      Ok((Dec(TruncDiv(a.v - r, b.v), 0), Dec(r, a.s)))
  }

  function DivIntP(x: Dec, y: Dec): Packed {
    match DivMod(x, y) case Ok(p) => Calc(p.0) case Err(f) => Err(f)
  }

  function ModP(x: Dec, y: Dec): Packed {
    match DivMod(x, y) case Ok(p) => Calc(p.1) case Err(f) => Err(f)
  }

  function Compare(x: Dec, y: Dec): int {
    var (a, b) := Align(x, y);
    if a.v < b.v then -1 else if a.v > b.v then 1 else 0
  }

  /** Into an int8, rounded half away from zero. */
  function ToI8(d: Dec, arith: bool): Answer {
    var v := Scale(d, 0).v;
    if InRange(v) then Ok(v) else Err(if arith then Overflow else ConversionOverflow)
  }

  /** An integer as a packed value. */
  function Whole(n: int): Dec { Dec(n, 0) }

  lemma FewDigits(n: int)
    requires Abs(n) < Ten(MAX_DIGITS)
    ensures Calc(Whole(n)) == Ok(Whole(n))
  {
    var ip := Abs(n);
    assert WholePart(Whole(n)) == ip by {
      assert Ten(0) == 1 && ip * Ten(0) == ip;
    }
    if ip != 0 {
      NumeralLength(ip, 10, MAX_DIGITS);
    }
  }

  lemma TenToTheFifth()
    ensures Ten(5) == 100_000
  {
    assert Ten(1) == 10 * Ten(0);
    assert Ten(2) == 10 * Ten(1);
    assert Ten(3) == 10 * Ten(2);
    assert Ten(4) == 10 * Ten(3);
  }

  lemma LargePowers()
    ensures Ten(20) == 100_000_000_000_000_000_000
    ensures Ten(MAX_DIGITS) >= Ten(20) * Ten(20)
  {
    TenToTheFifth();
    PowAdds(10, 5, 5);
    PowAdds(10, 10, 10);
    PowAdds(10, 20, 20);
    PowGrows(10, 40, 63);
  }

  lemma ProductBound(a: int, b: int)
    requires InRange(a) && InRange(b)
    ensures Abs(a * b) <= 0x8000_0000_0000_0000 * 0x8000_0000_0000_0000
  {
    SignedProduct(a, b);
    MulAtLeast(Abs(a), 0x8000_0000_0000_0000, Abs(b));
    MulAtLeast(0x8000_0000_0000_0000, 0x8000_0000_0000_0000, Abs(a));
  }

  /** On integers of int8 the packed operations compute the exact integers, so an int8 operation
      that succeeds has the packed result and one that overflows misses only the int8 range. */
  lemma SumsAreWhole(a: int, b: int)
    requires InRange(a) && InRange(b)
    ensures AddP(Whole(a), Whole(b)) == Ok(Whole(a + b))
    ensures SubP(Whole(a), Whole(b)) == Ok(Whole(a - b))
    ensures MulP(Whole(a), Whole(b)) == Ok(Whole(a * b))
  {
    LargePowers();
    FewDigits(a + b);
    FewDigits(a - b);
    ProductBound(a, b);
    FewDigits(a * b);
  }

  lemma TruncExact(q: int, d: int, b: int)
    requires d > 0 && (b == d || b == -d)
    ensures TruncDiv(q * d, b) == if b > 0 then q else -q
  {
    ProductSign(q, d);
    ExactDivision(Abs(q), d);
    assert Abs(q * d) == Abs(q) * d by { SignedProduct(q, d); }
  }

  lemma EuclideanStep(a: int, b: int)
    requires b != 0
    ensures TruncDiv(a - a % Abs(b), b) == a / b && a % Abs(b) == a % b
  {
    EuclideanByAbs(a, b);
    assert a - a % Abs(b) == (a / Abs(b)) * Abs(b);
    TruncExact(a / Abs(b), Abs(b), b);
  }

  lemma ProductSign(q: int, d: int)
    requires d > 0
    ensures q < 0 <==> q * d < 0
    ensures q == 0 <==> q * d == 0
  {
  }

  lemma ExactDivision(q: int, d: int)
    requires q >= 0 && d > 0
    ensures (q * d) / d == q
  {
    assert q * d >= 0 by { MulAtLeast(q, d, 0); }
    IntArith.DivMul(q * d, d);
    UniqueQuotient((q * d) / d, (q * d) % d, q, 0, d);
  }

  lemma QuotientBound(a: int, b: int)
    requires b != 0
    ensures Abs(a / b) <= Abs(a) + 1
  {
    EuclideanBySign(a, b, Abs(a) / Abs(b), Abs(a) % Abs(b));
    DividesDown(Abs(a), Abs(b));
  }

  lemma DividesDown(n: int, d: int)
    requires n >= 0 && d >= 1
    ensures 0 <= n / d <= n
  {
    IntArith.DivMul(n, d);
    MulAtLeast(n / d, d, 1);
  }

  lemma WholeQuotients(a: int, b: int)
    requires InRange(a) && InRange(b)
    ensures DivIntP(Whole(a), Whole(b)) ==
            if b != 0 then Ok(Whole(a / b)) else if a != 0 then Err(ZeroDivide) else Ok(Whole(0))
    ensures ModP(Whole(a), Whole(b)) ==
            if b != 0 then Ok(Whole(a % b)) else if a != 0 then Err(ZeroDivide) else Ok(Whole(0))
  {
    LargePowers();
    FewDigits(0);
    if b != 0 {
      EuclideanStep(a, b);
      QuotientBound(a, b);
      FewDigits(a / b);
      assert 0 <= a % b < Abs(b);
      FewDigits(a % b);
    }
  }

  // A rounded quotient is the integer nearest to it.

  lemma NearestUnique(n2: int, m: int, r: int, r': int)
    requires m > 0
    requires 2 * (r * m) - m <= n2 < 2 * (r * m) + m
    requires 2 * (r' * m) - m <= n2 < 2 * (r' * m) + m
    ensures r == r'
  {
    if r < r' {
      MulAtLeast(r' - r - 1, m, 0);
      Distribute(r', r + 1, m);
      Distribute(r, -1, m);
    } else if r' < r {
      MulAtLeast(r - r' - 1, m, 0);
      Distribute(r, r' + 1, m);
      Distribute(r', -1, m);
    }
  }

  predicate IsNearest(n: int, m: int, r: int) { 2 * (r * m) - m <= 2 * n < 2 * (r * m) + m }

  lemma RoundDivIsNearest(n: int, m: int)
    requires n >= 0 && m > 0
    ensures IsNearest(n, m, RoundDiv(n, m))
  {
    IntArith.DivMul(n, m);
    Distribute(n / m, -1, m);
  }

  lemma NearestIs(n: int, m: int, r: int)
    requires n >= 0 && m > 0
    ensures r == RoundDiv(n, m) <==> IsNearest(n, m, r)
  {
    RoundDivIsNearest(n, m);
    if IsNearest(n, m, r) {
      NearestUnique(2 * n, m, r, RoundDiv(n, m));
    }
  }

  lemma RoundDivNonNegative(n: int, m: int)
    requires n >= 0 && m > 0
    ensures RoundDiv(n, m) >= 0
  {
    IntArith.DivMul(n, m);
  }

  /** Rounding to a grid of `1/S` first, `S > m`, does not move the nearest integer. */
  lemma RoundTwiceFrom(n: int, p: int, m: int, S: int)
    requires n >= 0 && p >= 0 && m > 0 && S > m && p == n * S
    ensures RoundDiv(RoundDiv(p, m), S) == RoundDiv(n, m)
  {
    var R, q := RoundDiv(n, m), RoundDiv(p, m);
    RoundDivNonNegative(p, m);
    assert IsNearest(n, m, R) by { RoundDivIsNearest(n, m); }
    assert IsNearest(n * S, m, q) by { RoundDivIsNearest(p, m); }
    assert IsNearest(q, S, R) by { RoundTwiceBounds(n, m, S, R, q); }
    NearestIs(q, S, R);
  }

  lemma ScaleBy(x: int, y: int, S: int)
    requires x <= y && S >= 0
    ensures x * S <= y * S
  {
  }

  lemma Cancel(x: int, y: int, m: int)
    requires m > 0 && x * m < y * m
    ensures x < y
  {
  }

  lemma RoundTwiceBounds(n: int, m: int, S: int, R: int, q: int)
    requires m > 0 && S > m
    requires IsNearest(n, m, R) && IsNearest(n * S, m, q)
    ensures IsNearest(q, S, R)
  {
    ScaleBy(2 * (R * m) - m, 2 * n, S);
    ScaleBy(2 * n, 2 * (R * m) + m - 1, S);
    assert (2 * (R * m) - m) * S == (2 * (R * S) - S) * m;
    assert (2 * (R * m) + m - 1) * S == (2 * (R * S) + S) * m - S;
    assert (2 * n) * S == 2 * (n * S);
    assert (2 * q + 1) * m == 2 * (q * m) + m;
    assert (2 * q - 1) * m == 2 * (q * m) - m;
    Cancel(2 * (R * S) - S, 2 * q + 1, m);
    assert (2 * (R * S) + S - 1) * m == (2 * (R * S) + S) * m - m;
    Cancel(2 * q - 1, 2 * (R * S) + S - 1, m);
  }

  lemma RoundDivNegates(n: int, m: int)
    requires m > 0
    ensures RoundDiv(-n, m) == -RoundDiv(n, m)
  {
    if n == 0 {
      IntArith.DivMul(0, m);
      assert 0 / m == 0 && 0 % m == 0;
    }
  }

  lemma RoundDivByTen(v: int, m: int)
    requires m > 0 && v % 10 == 0
    ensures RoundDiv(v, 10 * m) == RoundDiv(v / 10, m)
  {
    var w := v / 10;
    assert v == 10 * w;
    NearestByTen(Abs(w), m);
    if w < 0 {
      RoundDivNegates(Abs(w), m);
      RoundDivNegates(10 * Abs(w), 10 * m);
    }
  }

  lemma NearestByTen(n: int, m: int)
    requires n >= 0 && m > 0
    ensures RoundDiv(10 * n, 10 * m) == RoundDiv(n, m)
  {
    var r := RoundDiv(n, m);
    assert IsNearest(10 * n, 10 * m, r) by {
      RoundDivIsNearest(n, m);
      assert r * (10 * m) == 10 * (r * m);
    }
    NearestIs(10 * n, 10 * m, r);
  }

  /** Dropping zeros of the fraction does not change what the value rounds to. */
  lemma {:induction false} TrimKeepsRounding(d: Dec)
    ensures Scale(Trim(d), 0).v == Scale(d, 0).v
    decreases if d.s < 0 then 0 else d.s
  {
    if d.s > 0 && d.v % 10 == 0 {
      TrimKeepsRounding(Dec(d.v / 10, d.s - 1));
      assert Ten(d.s) == 10 * Ten(d.s - 1);
      RoundDivByTen(d.v, Ten(d.s - 1));
      if d.s == 1 {
        assert Ten(0) == 1;
        RoundByOne(d.v / 10);
      }
    }
  }

  lemma RoundByOne(n: int)
    ensures RoundDiv(n, 1) == n
  {
  }

  /** The scale of a quotient of two int8 magnitudes exceeds the divisor. */
  lemma ScaleExceeds(n: int, m: int)
    requires 0 < n <= MAX64 + 1 && 0 < m <= MAX64 + 1
    ensures 30 - LeadingDigit(n, m) > 0 && Ten(30 - LeadingDigit(n, m)) > m
  {
    LargePowers();
    NumeralLength(n, 10, 20);
    var k := |Numeral(m, 10)|;
    NumeralReadsBack(m, 10);
    NumeralLength(m, 10, k);
    assert 30 - LeadingDigit(n, m) >= k + 10;
    PowGrows(10, k, 30 - LeadingDigit(n, m));
  }

  lemma RoundDivBound(n: int, m: int)
    requires m > 0
    ensures Abs(RoundDiv(n, m)) <= Abs(n) + 1
  {
    DividesDown(Abs(n), m);
  }

  lemma FloorBelowRound(n: int, m: int)
    requires m > 0
    ensures Abs(n) / m <= Abs(RoundDiv(n, m))
  {
    IntArith.DivMul(Abs(n), m);
  }

  lemma FewWholeDigits(d: Dec)
    requires d.s > 0 && Abs(d.v) / Ten(d.s) < Ten(MAX_DIGITS)
    ensures Calc(d) == Ok(Trim(d))
  {
    var ip := Abs(d.v) / Ten(d.s);
    IntArith.DivMul(Abs(d.v), Ten(d.s));
    if ip != 0 {
      NumeralLength(ip, 10, MAX_DIGITS);
    }
  }

  lemma QuotientRounds(n: int, m: int)
    requires n != 0 && Abs(n) <= MAX64 + 1 && 0 < m <= MAX64 + 1
    ensures Quotient(n, m).Ok? && Scale(Quotient(n, m).value, 0).v == RoundDiv(n, m)
  {
    var scale := 30 - LeadingDigit(Abs(n), m);
    ScaleExceeds(Abs(n), m);
    var d := Dec(RoundDiv(n * Ten(scale), m), scale);
    assert Quotient(n, m) == Calc(d);
    RoundTwiceSigned(n, m, Ten(scale));
    assert Scale(d, 0).v == RoundDiv(n, m);
    LargePowers();
    FloorBelowRound(d.v, Ten(scale));
    RoundDivBound(n, m);
    FewWholeDigits(d);
    TrimKeepsRounding(d);
  }

  lemma RoundTwiceSigned(n: int, m: int, S: int)
    requires m > 0 && S > m
    ensures RoundDiv(RoundDiv(n * S, m), S) == RoundDiv(n, m)
  {
    if n >= 0 {
      MulAtLeast(n, S, 0);
      RoundTwiceFrom(n, n * S, m, S);
    } else {
      var k := -n;
      MulAtLeast(k, S, 0);
      RoundTwiceFrom(k, k * S, m, S);
      RoundTwiceNegated(k, k * S, m, S);
      assert n * S == -(k * S) by { Distribute(0, k, S); }
    }
  }

  lemma RoundTwiceNegated(n: int, p: int, m: int, S: int)
    requires m > 0 && S > 0 && RoundDiv(RoundDiv(p, m), S) == RoundDiv(n, m)
    ensures RoundDiv(RoundDiv(-p, m), S) == RoundDiv(-n, m)
  {
    RoundDivNegates(p, m);
    RoundDivNegates(RoundDiv(p, m), S);
    RoundDivNegates(n, m);
  }

  /** Dividing with 31 digits and then rounding to an integer rounds as dividing once does. */
  lemma DivisionRoundsOnce(a: int, b: int)
    requires InRange(a) && InRange(b)
    ensures b != 0 ==> var q := DivP(Whole(a), Whole(b));
                       q.Ok? && Scale(q.value, 0).v == RoundDiv(if b < 0 then -a else a, Abs(b))
    ensures b == 0 ==> DivP(Whole(a), Whole(b)) == if a != 0 then Err(ZeroDivide) else Ok(Whole(0))
  {
    assert Ten(0) == 1;
    assert a * Ten(0) == a && b * Ten(0) == b;
    if b != 0 && a == 0 {
      IntArith.DivMul(0, Abs(b));
      assert 0 / Abs(b) == 0 && 0 % Abs(b) == 0;
    } else if b != 0 {
      assert DivP(Whole(a), Whole(b)) == Quotient(if b < 0 then -a else a, Abs(b));
      QuotientRounds(if b < 0 then -a else a, Abs(b));
    }
  }
}
