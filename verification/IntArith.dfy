/** Checked int8 arithmetic as the runtime does it in machine words, and what it computes. */
module IntArith {
  import opened Basics

  const MIN64: int := -0x8000_0000_0000_0000
  const MAX64: int := 0x7fff_ffff_ffff_ffff
  const TWO64: int := 0x1_0000_0000_0000_0000

  predicate InRange(x: int) { MIN64 <= x <= MAX64 }

  /** Classes of the exceptions; `Overflow` is the one class a calculation retries on. */
  datatype Failure = Overflow | ZeroDivide | ConversionOverflow | IllTyped

  type Answer = Result<int, Failure>

  /** Two's complement: the result of a machine operation. */
  function Wrap(x: int): (r: int)
    ensures InRange(r) && (r - x) % TWO64 == 0
  {
    (x - MIN64) % TWO64 + MIN64
  }

  function Abs(x: int): (r: nat)
    ensures r == x || r == -x
  {
    if x < 0 then -x else x
  }

  /** Go's `/` and `%` truncate toward zero. */
  function TruncDiv(a: int, b: int): int
    requires b != 0
  {
    if (a < 0) == (b < 0) then Abs(a) / Abs(b) else -(Abs(a) / Abs(b))
  }

  function TruncMod(a: int, b: int): int
    requires b != 0
  {
    if a < 0 then -(Abs(a) % Abs(b)) else Abs(a) % Abs(b)
  }

  // The sign bit of x ^ y is set exactly when the signs of x and y differ.

  function Add(a: int, b: int): Answer {
    var r := Wrap(a + b);
    if (a < 0) != (r < 0) && (b < 0) != (r < 0) then Err(Overflow) else Ok(r)
  }

  function Sub(a: int, b: int): Answer {
    var r := Wrap(a - b);
    if (a < 0) != (b < 0) && (a < 0) != (r < 0) then Err(Overflow) else Ok(r)
  }

  /** The 128-bit product of the magnitudes, as a high and a low word. */
  function Mul(a: int, b: int): Answer {
    var product := Abs(a) * Abs(b);
    var hi, lo := product / TWO64, product % TWO64;
    var negative := (a < 0) != (b < 0);
    if hi != 0 || lo > (if negative then MAX64 + 1 else MAX64) then Err(Overflow)
    else if negative then Ok(Wrap(-Wrap(lo)))
    else Ok(Wrap(lo))
  }

  function ByZero(a: int): Answer { if a != 0 then Err(ZeroDivide) else Ok(0) }

  function Div(a: int, b: int): Answer {
    if b == 0 then ByZero(a)
    else if a == MIN64 && b == -1 then Err(Overflow)
    else
      var q, r := TruncDiv(a, b), Abs(TruncMod(a, b));
      if r < Abs(b) / 2 + Abs(b) % 2 then Ok(q)
      else Ok(Wrap(if (a < 0) != (b < 0) then q - 1 else q + 1))
  }

  function Quot(a: int, b: int): Answer {
    if b == 0 then ByZero(a)
    else if a == MIN64 && b == -1 then Err(Overflow)
    else
      var q := TruncDiv(a, b);
      if TruncMod(a, b) >= 0 then Ok(q) else Ok(Wrap(if b > 0 then q - 1 else q + 1))
  }

  function Mod(a: int, b: int): Answer {
    if b == 0 then ByZero(a)
    else
      var r := TruncMod(a, b);
      if r < 0 then Ok(Wrap(r + Abs(b))) else Ok(r)
  }

  /** The exact integer, or overflow. */
  function Fit(x: int): Answer { if InRange(x) then Ok(x) else Err(Overflow) }

  lemma WrapOnce(x: int)
    requires MIN64 - TWO64 <= x <= MAX64 + TWO64
    ensures Wrap(x) == if x < MIN64 then x + TWO64 else if x > MAX64 then x - TWO64 else x
  {
  }

  lemma AddIsExact(a: int, b: int)
    requires InRange(a) && InRange(b)
    ensures Add(a, b) == Fit(a + b)
  {
    WrapOnce(a + b);
  }

  lemma SubIsExact(a: int, b: int)
    requires InRange(a) && InRange(b)
    ensures Sub(a, b) == Fit(a - b)
  {
    WrapOnce(a - b);
  }

  lemma SignedProduct(a: int, b: int)
    ensures a * b == if (a < 0) != (b < 0) then -(Abs(a) * Abs(b)) else Abs(a) * Abs(b)
  {
  }

  lemma HighWord(p: int)
    requires p >= 0
    ensures p / TWO64 == 0 <==> p < TWO64
    ensures p < TWO64 ==> p % TWO64 == p
  {
  }

  lemma MulIsExact(a: int, b: int)
    requires InRange(a) && InRange(b)
    ensures Mul(a, b) == Fit(a * b)
  {
    var p := Abs(a) * Abs(b);
    SignedProduct(a, b);
    HighWord(p);
    if p < TWO64 {
      WrapOnce(p);
      WrapOnce(-Wrap(p));
    }
  }

  /** Division rounded half away from zero. */
  function RoundDiv(n: int, m: int): int
    requires m > 0
  {
    var q, r := Abs(n) / m, Abs(n) % m;
    if 2 * r < m then (if n < 0 then -q else q) else if n < 0 then -q - 1 else q + 1
  }

  lemma MulAtLeast(q: int, d: int, k: int)
    requires q >= 0 && d >= k
    ensures q * d >= q * k
  {
  }

  lemma DivMul(n: int, d: int)
    requires n >= 0 && d > 0
    ensures n == (n / d) * d + n % d && 0 <= n % d < d && n / d >= 0
  {
  }

  /** Past a divisor of one, quotients have room for a correction. */
  lemma QuotientIsSmall(n: int, d: int)
    requires 0 <= n <= MAX64 + 1 && d >= 1
    ensures d == 1 ==> n / d == n && n % d == 0
    ensures d >= 2 ==> 0 <= n / d <= 0x4000_0000_0000_0000
  {
    if d >= 2 {
      DivMul(n, d);
      MulAtLeast(n / d, d, 2);
    }
  }

  /** The magnitude of a rounded quotient, `r` being what the division leaves of `d`. */
  function RoundUp(q: int, r: int, d: int): int { if 2 * r < d then q else q + 1 }

  lemma RoundDivBySign(n: int, m: int)
    requires m > 0
    ensures RoundDiv(n, m) == if n < 0 then -RoundUp(Abs(n) / m, Abs(n) % m, m) else RoundUp(Abs(n) / m, Abs(n) % m, m)
  {
  }

  lemma DivBySign(a: int, b: int, q: int, r: int)
    requires InRange(a) && InRange(b) && b != 0 && !(a == MIN64 && b == -1)
    requires q == Abs(a) / Abs(b) && r == Abs(a) % Abs(b)
    requires 0 <= RoundUp(q, r, Abs(b)) <= MAX64 || (a == MIN64 && b == 1)
    ensures Div(a, b) == Ok(if (a < 0) != (b < 0) then -RoundUp(q, r, Abs(b)) else RoundUp(q, r, Abs(b)))
  {
    var d := Abs(b);
    HalfUp(r, d);
    assert Abs(TruncMod(a, b)) == r;
    assert TruncDiv(a, b) == if (a < 0) == (b < 0) then q else -q;
    if b == 1 {
      assert r == 0;
    } else {
      WrapOnce(q + 1);
      WrapOnce(-q - 1);
    }
  }

  /** `Div` is the exact quotient rounded half away from zero. */
  lemma DivIsExact(a: int, b: int)
    requires InRange(a) && InRange(b)
    ensures Div(a, b) ==
            if b != 0 then Fit(RoundDiv(if b < 0 then -a else a, Abs(b)))
            else if a != 0 then Err(ZeroDivide) else Ok(0)
  {
    if b == 0 { return; }
    var q, r := Abs(a) / Abs(b), Abs(a) % Abs(b);
    QuotientIsSmall(Abs(a), Abs(b));
    RoundDivBySign(if b < 0 then -a else a, Abs(b));
    if a == MIN64 && b == -1 {
      assert q == MAX64 + 1 && r == 0;
    } else {
      DivBySign(a, b, q, r);
    }
  }

  /** Comparing with half the divisor, rounded up, instead of doubling the remainder. */
  lemma HalfUp(r: int, d: int)
    requires d > 0
    ensures r < d / 2 + d % 2 <==> 2 * r < d
  {
  }

  lemma UniqueQuotient(q: int, r: int, q': int, r': int, d: int)
    requires d > 0 && q * d + r == q' * d + r' && 0 <= r < d && 0 <= r' < d
    ensures q == q' && r == r'
  {
    assert (q - q') * d == r' - r by { Distribute(q, q', d); }
    if q > q' {
      MulAtLeast(q - q' - 1, d, 0);
      Distribute(q - q', 1, d);
    } else if q < q' {
      MulAtLeast(q' - q - 1, d, 0);
      Distribute(q' - q, 1, d);
      Distribute(q', q, d);
    }
  }

  lemma Distribute(x: int, y: int, d: int)
    ensures (x - y) * d == x * d - y * d
  {
  }

  lemma EuclideanOfNegative(n: int, d: int)
    requires n >= 0 && d > 0
    ensures (-n) % d == if n % d == 0 then 0 else d - n % d
    ensures (-n) / d == if n % d == 0 then -(n / d) else -(n / d) - 1
  {
    var q, r := n / d, n % d;
    DivMul(n, d);
    assert -n == ((-n) / d) * d + (-n) % d;
    if r == 0 {
      assert -n == (-q) * d + 0;
      UniqueQuotient((-n) / d, (-n) % d, -q, 0, d);
    } else {
      assert -n == (-q - 1) * d + (d - r);
      UniqueQuotient((-n) / d, (-n) % d, -q - 1, d - r, d);
    }
  }

  lemma EuclideanByAbs(n: int, d: int)
    requires d != 0
    ensures n % d == n % Abs(d)
    ensures n / d == if d > 0 then n / Abs(d) else -(n / Abs(d))
  {
    if d < 0 {
      var q, r := n / d, n % d;
      assert n == q * d + r;
      assert n == (n / -d) * -d + n % -d;
      assert q * d == (-q) * -d;
      UniqueQuotient(-q, r, n / -d, n % -d, -d);
    }
  }

  lemma QuotBySign(a: int, b: int, q: int, r: int)
    requires InRange(a) && InRange(b) && b != 0 && !(a == MIN64 && b == -1)
    requires q == Abs(a) / Abs(b) && r == Abs(a) % Abs(b)
    requires if Abs(b) == 1 then r == 0 else 0 <= q < MAX64
    ensures Quot(a, b) ==
            Ok(if a >= 0 || r == 0 then (if (a < 0) == (b < 0) then q else -q) else if b > 0 then -q - 1 else q + 1)
  {
    assert r >= 0;
    assert TruncMod(a, b) == if a < 0 then -r else r;
    assert TruncDiv(a, b) == if (a < 0) == (b < 0) then q else -q;
    if r > 0 {
      WrapOnce(q + 1);
      WrapOnce(-q - 1);
    }
  }

  lemma EuclideanBySign(a: int, b: int, q: int, r: int)
    requires b != 0 && q == Abs(a) / Abs(b) && r == Abs(a) % Abs(b)
    ensures a / b ==
            if a >= 0 || r == 0 then (if (a < 0) == (b < 0) then q else -q)
            else if b > 0 then -q - 1 else q + 1
    ensures a % b == if a >= 0 then r else if r == 0 then 0 else Abs(b) - r
  {
    EuclideanByAbs(a, b);
    if a < 0 {
      EuclideanOfNegative(Abs(a), Abs(b));
    }
  }

  /** `Quot` and `Mod` are the Euclidean quotient and remainder. */
  lemma QuotIsExact(a: int, b: int)
    requires InRange(a) && InRange(b)
    ensures Quot(a, b) == if b != 0 then Fit(a / b) else if a != 0 then Err(ZeroDivide) else Ok(0)
  {
    if b == 0 { return; }
    var q, r := Abs(a) / Abs(b), Abs(a) % Abs(b);
    EuclideanBySign(a, b, q, r);
    QuotientIsSmall(Abs(a), Abs(b));
    if a == MIN64 && b == -1 {
      assert q == MAX64 + 1 && r == 0;
    } else {
      QuotBySign(a, b, q, r);
    }
  }

  lemma ModIsExact(a: int, b: int)
    requires InRange(a) && InRange(b)
    ensures Mod(a, b) == if b != 0 then Ok(a % b) else if a != 0 then Err(ZeroDivide) else Ok(0)
  {
    if b == 0 { return; }
    var q, r := Abs(a) / Abs(b), Abs(a) % Abs(b);
    EuclideanBySign(a, b, q, r);
    assert TruncMod(a, b) == if a < 0 then -r else r;
    assert 0 <= a % b < Abs(b);
    WrapOnce(a % b);
  }
}
