/** Positional numerals as ASCII text, most significant digit first: the octal fields of tar
    headers, decimal lengths, pids and numbers. */
module Numerals {
  import opened Basics

  const ZERO: Byte := 48

  function Pow(base: nat, k: nat): (p: nat)
    requires base >= 2
    ensures p >= 1
  {
    if k == 0 then 1 else base * Pow(base, k - 1)
  }

  /** The numeral of `n`, without leading zeros; "0" for zero. */
  function Numeral(n: nat, base: nat): Bytes
    requires 2 <= base <= 10
    decreases n
  {
    if n < base then [ZERO + n] else Numeral(n / base, base) + [ZERO + n % base]
  }

  predicate IsDigit(c: int, base: nat) { 48 <= c < 48 + base }

  predicate AllDigits(text: seq<int>, base: nat) {
    forall i | 0 <= i < |text| :: IsDigit(text[i], base)
  }

  /** The value of a text of digits. */
  function Value(text: seq<int>, base: nat): nat
    requires AllDigits(text, base)
    decreases |text|
  {
    if text == [] then 0 else Value(text[..|text| - 1], base) * base + (text[|text| - 1] - 48)
  }

  lemma DivMod(n: nat, base: nat)
    requires base >= 2
    ensures n == (n / base) * base + n % base && n % base < base
    ensures n >= base ==> n / base < n
  {
  }

  lemma MulMonotone(a: nat, b: nat, c: nat)
    requires a <= b
    ensures a * c <= b * c
  {
  }

  lemma MulGrows(v: nat, p: nat, d: nat, base: nat)
    requires v < p && d < base
    ensures v * base + d < base * p
  {
    MulMonotone(v + 1, p, base);
    assert (v + 1) * base == v * base + base;
  }

  lemma ValueAppends(text: seq<int>, c: int, base: nat)
    requires AllDigits(text, base) && IsDigit(c, base)
    ensures AllDigits(text + [c], base)
    ensures Value(text + [c], base) == Value(text, base) * base + (c - 48)
  {
    assert (text + [c])[..|text|] == text;
  }

  lemma {:induction false} NumeralReadsBack(n: nat, base: nat)
    requires 2 <= base <= 10
    ensures AllDigits(Numeral(n, base), base) && |Numeral(n, base)| >= 1
    ensures Value(Numeral(n, base), base) == n
    decreases n
  {
    if n >= base {
      DivMod(n, base);
      NumeralReadsBack(n / base, base);
      ValueAppends(Numeral(n / base, base), ZERO + n % base, base);
    } else {
      ValueAppends([], ZERO + n, base);
      assert [] + [ZERO + n] == Numeral(n, base);
    }
  }

  lemma {:induction false} ValueBound(text: seq<int>, base: nat)
    requires base >= 2 && AllDigits(text, base)
    ensures Value(text, base) < Pow(base, |text|)
    decreases |text|
  {
    if text != [] {
      ValueBound(text[..|text| - 1], base);
      MulGrows(Value(text[..|text| - 1], base), Pow(base, |text| - 1), text[|text| - 1] - 48, base);
    }
  }

  /** A numeral has at most `k` digits exactly when the number is below `base^k`. */
  lemma {:induction false} NumeralLength(n: nat, base: nat, k: nat)
    requires 2 <= base <= 10 && k >= 1
    ensures |Numeral(n, base)| <= k <==> n < Pow(base, k)
    decreases n
  {
    if n < base {
      assert Pow(base, k) >= base by { PowGrows(base, 1, k); assert Pow(base, 1) == base * Pow(base, 0); }
    } else {
      assert |Numeral(n, base)| == |Numeral(n / base, base)| + 1;
      if k == 1 {
        assert Pow(base, 1) == base * Pow(base, 0);
        NumeralNonEmpty(n / base, base);
      } else {
        DivMod(n, base);
        NumeralLength(n / base, base, k - 1);
        DivBelow(n, base, Pow(base, k - 1));
        assert Pow(base, k) == Pow(base, k - 1) * base;
      }
    }
  }

  lemma NumeralNonEmpty(n: nat, base: nat)
    requires 2 <= base <= 10
    ensures |Numeral(n, base)| >= 1
  {
  }

  lemma DivBelow(n: nat, base: nat, p: nat)
    requires base >= 2
    ensures n / base < p <==> n < p * base
  {
    var q := n / base;
    DivMod(n, base);
    if q < p {
      MulMonotone(q + 1, p, base);
      assert (q + 1) * base == q * base + base;
    } else {
      MulMonotone(p, q, base);
    }
  }

  lemma {:induction false} PowGrows(base: nat, j: nat, k: nat)
    requires base >= 2 && j <= k
    ensures Pow(base, j) <= Pow(base, k)
    decreases k
  {
    if j < k {
      PowGrows(base, j, k - 1);
      MulMonotone(1, base, Pow(base, k - 1));
    }
  }

  lemma MulAssociates(a: int, b: int, c: int)
    ensures a * (b * c) == (a * b) * c
  {
  }

  lemma {:induction false} PowAdds(base: nat, j: nat, k: nat)
    requires base >= 2
    ensures Pow(base, j + k) == Pow(base, j) * Pow(base, k)
    decreases j
  {
    if j == 0 {
      assert Pow(base, 0) == 1;
    } else {
      calc {
        Pow(base, j + k);
        base * Pow(base, j - 1 + k);
        { PowAdds(base, j - 1, k); }
        base * (Pow(base, j - 1) * Pow(base, k));
        { MulAssociates(base, Pow(base, j - 1), Pow(base, k)); }
        (base * Pow(base, j - 1)) * Pow(base, k);
        Pow(base, j) * Pow(base, k);
      }
    }
  }

  function Repeat(c: Byte, n: nat): (r: Bytes)
    ensures |r| == n && forall i | 0 <= i < n :: r[i] == c
  {
    seq(n, _ => c)
  }

  /** Leading zeros do not change the value. */
  lemma {:induction false} ZerosDoNotCount(n: nat, text: seq<int>, base: nat)
    requires base >= 2 && AllDigits(text, base)
    ensures AllDigits(Repeat(ZERO, n) + text, base) && Value(Repeat(ZERO, n) + text, base) == Value(text, base)
    decreases |text|, n
  {
    var t := Repeat(ZERO, n) + text;
    if text != [] {
      assert t[..|t| - 1] == Repeat(ZERO, n) + text[..|text| - 1];
      ZerosDoNotCount(n, text[..|text| - 1], base);
    } else if n > 0 {
      assert t[..|t| - 1] == Repeat(ZERO, n - 1) + [];
      ZerosDoNotCount(n - 1, [], base);
    }
  }

  /** `text.padStart(width, "0")` */
  function PadZeros(text: Bytes, width: nat): Bytes {
    if |text| < width then Repeat(ZERO, width - |text|) + text else text
  }

  lemma PaddedReadsBack(n: nat, base: nat, width: nat)
    requires 2 <= base <= 10 && |Numeral(n, base)| <= width
    ensures |PadZeros(Numeral(n, base), width)| == width && AllDigits(PadZeros(Numeral(n, base), width), base)
    ensures Value(PadZeros(Numeral(n, base), width), base) == n
  {
    NumeralReadsBack(n, base);
    ZerosDoNotCount(width - |Numeral(n, base)|, Numeral(n, base), base);
  }

  /** Longer numbers have no shorter numerals. */
  lemma NumeralLengthGrows(m: nat, n: nat, base: nat)
    requires 2 <= base <= 10 && m <= n
    ensures |Numeral(m, base)| <= |Numeral(n, base)|
  {
    NumeralReadsBack(n, base);
    NumeralLength(n, base, |Numeral(n, base)|);
    NumeralLength(m, base, |Numeral(n, base)|);
  }
}
