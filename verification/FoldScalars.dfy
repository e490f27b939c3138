/** Number texts and integers into one another, as constants are folded. */
module FoldScalars {
  import opened Basics
  import opened IntArith
  import opened Numerals
  import opened Texts

  const BLANK: Unit := 32
  const PLUS: Unit := 43
  const MINUS: Unit := 45
  const POINT: Unit := 46
  const FIVE: Unit := 53

  const MAX: int := 2147483647
  const MIN: int := -2147483648

  datatype Refusal = NoNumber | TooLarge

  type Parse = Result<int, Refusal>

  // ---- Pieces of a number text

  function TrimLeft(t: Text): Text {
    if t != [] && t[0] == BLANK then TrimLeft(t[1..]) else t
  }

  function TrimRight(t: Text): Text {
    if t != [] && t[|t| - 1] == BLANK then TrimRight(t[..|t| - 1]) else t
  }

  function Trim(t: Text): Text { TrimRight(TrimLeft(t)) }

  datatype Signed = Signed(neg: bool, body: Text, ok: bool)

  /** A sign in front or behind, at most one. */
  function SignOf(t: Text): Signed {
    var front := t != [] && (t[0] == PLUS || t[0] == MINUS);
    var rest := if front then t[1..] else t;
    var behind := rest != [] && rest[|rest| - 1] == MINUS;
    Signed(behind || (front && t[0] == MINUS), if behind then rest[..|rest| - 1] else rest, !(front && behind))
  }

  method NumSign(v: Text) returns (s: Signed)
    ensures s == SignOf(v)
  {
    var t, signs, neg := v, 0, false;
    if t != [] && (t[0] == PLUS || t[0] == MINUS) {
      signs := signs + 1;
      neg := t[0] == MINUS;
      t := t[1..];
    }
    if t != [] && t[|t| - 1] == MINUS {
      signs := signs + 1;
      neg := true;
      t := t[..|t| - 1];
    }
    return Signed(neg, t, signs <= 1);
  }

  /** The digits before the first point; all of it when there is none. */
  function Whole(t: Text): Text {
    if t == [] || t[0] == POINT then [] else [t[0]] + Whole(t[1..])
  }

  function Fraction(t: Text): Text {
    if t == [] then [] else if t[0] == POINT then t[1..] else Fraction(t[1..])
  }

  predicate IsDecimal(t: Text) {
    AllDigits(Whole(t), 10) && AllDigits(Fraction(t), 10) && Whole(t) + Fraction(t) != []
  }

  function StripZeros(t: Text): Text {
    if t != [] && t[0] == 48 then StripZeros(t[1..]) else t
  }

  // ---- Into an integer

  function InI(n: int): Parse { if MIN <= n <= MAX then Ok(n) else Err(TooLarge) }

  lemma TailDigits(t: Text)
    requires t != [] && AllDigits(t, 10)
    ensures AllDigits(t[1..], 10) && IsDigit(t[0], 10)
  {
    forall i | 0 <= i < |t[1..]| ensures IsDigit(t[1..][i], 10) {
      assert IsDigit(t[i + 1], 10);
    }
  }

  lemma {:induction false} StripKeepsDigits(t: Text)
    requires AllDigits(t, 10)
    ensures AllDigits(StripZeros(t), 10)
    decreases |t|
  {
    if t != [] && t[0] == 48 {
      TailDigits(t);
      StripKeepsDigits(t[1..]);
    }
  }

  /** The value of digits without leading zeros, with the first decimal rounded half up. */
  function RoundParts(digits: Text, frac: Text, neg: bool): Parse
    requires AllDigits(digits, 10)
  {
    var whole := StripZeros(digits);
    if |whole| > 10 then Err(TooLarge)
    else
      StripKeepsDigits(digits);
      var n := Value(whole, 10) + if frac != [] && frac[0] >= FIVE then 1 else 0;
      InI(if neg then 0 - n else n)
  }

  function Rounded(body: Text, neg: bool): Parse
    requires IsDecimal(body)
  {
    RoundParts(Whole(body), Fraction(body), neg)
  }

  function ParseTrimmed(t: Text): Parse {
    if t == [] then Ok(0)
    else
      var s := SignOf(t);
      var body := Trim(s.body);
      if !s.ok || !IsDecimal(body) then Err(NoNumber) else Rounded(body, s.neg)
  }

  /** The general path. */
  function ParseGeneral(v: Text): Parse { ParseTrimmed(Trim(v)) }

  /** Digits with at most one sign in front, few enough to be read at once. */
  predicate IsShort(v: Text) {
    var digits := if v != [] && (v[0] == PLUS || v[0] == MINUS) then v[1..] else v;
    1 <= |digits| <= 10 && AllDigits(digits, 10)
  }

  function ReadShort(v: Text): int
    requires IsShort(v)
  {
    if v[0] == MINUS then 0 - Value(v[1..], 10) else if v[0] == PLUS then Value(v[1..], 10) else Value(v, 10)
  }

  method ParseI(v: Text) returns (r: Parse)
    ensures r == ParseGeneral(v)
  {
    if IsShort(v) {
      ShortAgrees(v);
      var n := ReadShort(v);
      return if n > MAX || n < MIN then Err(TooLarge) else Ok(n);
    }
    var t := Trim(v);
    if t == [] {
      return Ok(0);
    }
    var s := NumSign(t);
    var body := Trim(s.body);
    if !s.ok || !IsDecimal(body) {
      return Err(NoNumber);
    }
    var whole, frac := StripZeros(Whole(body)), Fraction(body);
    if |whole| > 10 {
      return Err(TooLarge);
    }
    StripKeepsDigits(Whole(body));
    var n: int := Value(whole, 10);
    if frac != [] && frac[0] >= FIVE {
      n := n + 1;
    }
    if s.neg {
      n := -n;
    }
    return if n > MAX || n < MIN then Err(TooLarge) else Ok(n);
  }

  // ---- The two paths agree

  lemma {:induction false} DigitsHaveNoPoint(t: Text)
    requires AllDigits(t, 10)
    ensures Whole(t) == t && Fraction(t) == []
    decreases |t|
  {
    if t != [] {
      TailDigits(t);
      DigitsHaveNoPoint(t[1..]);
      assert [t[0]] + t[1..] == t;
    }
  }

  lemma {:induction false} ZerosCountNothing(t: Text)
    requires AllDigits(t, 10)
    ensures AllDigits(StripZeros(t), 10) && |StripZeros(t)| <= |t| && Value(StripZeros(t), 10) == Value(t, 10)
    decreases |t|
  {
    StripKeepsDigits(t);
    if t != [] && t[0] == 48 {
      TailDigits(t);
      ZerosCountNothing(t[1..]);
      FirstDigit(t, t[1..]);
    }
  }

  lemma {:induction false} ValueOfConcat(a: Text, b: Text)
    requires AllDigits(a, 10) && AllDigits(b, 10)
    ensures AllDigits(a + b, 10) && Value(a + b, 10) == Value(a, 10) * Pow(10, |b|) + Value(b, 10)
    decreases |b|
  {
    if b == [] {
      assert a + b == a && Pow(10, 0) == 1;
    } else {
      var init, last := b[..|b| - 1], b[|b| - 1];
      ValueOfConcat(a, init);
      assert IsDigit(last, 10) && a + b == (a + init) + [last] && b == init + [last];
      ValueAppends(a + init, last, 10);
      ValueAppends(init, last, 10);
      Regroup(Value(a, 10), Pow(10, |init|), Value(init, 10));
    }
  }

  lemma Regroup(x: int, p: int, y: int)
    ensures (x * p + y) * 10 == x * (10 * p) + y * 10
  {
  }

  lemma TrimNothing(t: Text)
    requires t == [] || (t[0] != BLANK && t[|t| - 1] != BLANK)
    ensures Trim(t) == t
  {
  }

  lemma RoundsWhole(digits: Text, frac: Text, neg: bool)
    requires |digits| <= 10 && AllDigits(digits, 10) && frac == []
    ensures RoundParts(digits, frac, neg) == InI(if neg then 0 - Value(digits, 10) else Value(digits, 10))
  {
    var whole := StripZeros(digits);
    assert |whole| <= 10 && AllDigits(whole, 10) && Value(whole, 10) == Value(digits, 10) by {
      ZerosCountNothing(digits);
    }
  }

  lemma ShortRounds(digits: Text, neg: bool)
    requires 1 <= |digits| <= 10 && AllDigits(digits, 10)
    ensures IsDecimal(digits) && Rounded(digits, neg) == InI(if neg then 0 - Value(digits, 10) else Value(digits, 10))
  {
    DigitsHaveNoPoint(digits);
    assert Whole(digits) + Fraction(digits) == digits;
    RoundsWhole(digits, Fraction(digits), neg);
  }

  lemma ShortSign(v: Text, digits: Text)
    requires IsShort(v) && digits == if v[0] == PLUS || v[0] == MINUS then v[1..] else v
    ensures Trim(v) == v && Trim(digits) == digits && SignOf(v) == Signed(v[0] == MINUS, digits, true)
  {
    assert IsDigit(digits[0], 10) && IsDigit(digits[|digits| - 1], 10) && v[|v| - 1] == digits[|digits| - 1];
    TrimNothing(v);
    TrimNothing(digits);
  }

  lemma ShortAgrees(v: Text)
    requires IsShort(v)
    ensures ParseGeneral(v) == InI(ReadShort(v))
  {
    var digits := if v[0] == PLUS || v[0] == MINUS then v[1..] else v;
    ShortSign(v, digits);
    ShortRounds(digits, v[0] == MINUS);
  }

  // ---- What a number text is

  /** Where the sign stands. */
  datatype Sign = Bare | Plus | Minus | Behind

  /** Blanks, a sign and blanks, digits with at most one point, blanks. */
  datatype Number = Number(lead: nat, sign: Sign, inner: nat, whole: Text, point: bool, frac: Text, tail: nat)

  function Blanks(n: nat): (t: Text)
    ensures |t| == n && forall i | 0 <= i < n :: t[i] == BLANK
  {
    seq(n, _ => BLANK)
  }

  predicate IsNumber(n: Number) {
    && AllDigits(n.whole, 10) && AllDigits(n.frac, 10) && n.whole + n.frac != []
    && (!n.point ==> n.frac == []) && (n.sign == Bare ==> n.inner == 0)
  }

  function Digits(n: Number): Text { n.whole + (if n.point then [POINT] else []) + n.frac }

  function Core(n: Number): Text {
    match n.sign
    case Bare => Digits(n)
    case Plus => [PLUS] + (Blanks(n.inner) + Digits(n))
    case Minus => [MINUS] + (Blanks(n.inner) + Digits(n))
    case Behind => (Digits(n) + Blanks(n.inner)) + [MINUS]
  }

  function Written(n: Number): Text { Blanks(n.lead) + Core(n) + Blanks(n.tail) }

  predicate IsNegative(n: Number) { n.sign == Minus || n.sign == Behind }

  /** The decimal it stands for, rounded half away from zero. */
  function Nearest(n: Number): int
    requires IsNumber(n)
  {
    ValueOfConcat(n.whole, n.frac);
    var digits := Value(n.whole + n.frac, 10);
    RoundDiv(if IsNegative(n) then 0 - digits else digits, Pow(10, |n.frac|))
  }

  // ---- Rounding by the first decimal

  lemma FirstDecimal(frac: Text)
    requires AllDigits(frac, 10)
    ensures Value(frac, 10) < Pow(10, |frac|)
    ensures 2 * Value(frac, 10) >= Pow(10, |frac|) <==> frac != [] && frac[0] >= FIVE
  {
    ValueBound(frac, 10);
    if frac == [] {
      assert Pow(10, 0) == 1;
    } else {
      var rest := frac[1..];
      FirstDigit(frac, rest);
      ValueBound(rest, 10);
      HalfIsFive(frac[0] - 48, Pow(10, |rest|), Value(rest, 10));
    }
  }

  lemma OneDigit(c: Unit)
    requires IsDigit(c, 10)
    ensures AllDigits([c], 10) && Value([c], 10) == c - 48
  {
    ValueAppends([], c, 10);
    assert [] + [c] == [c];
  }

  lemma FirstDigit(t: Text, rest: Text)
    requires t != [] && AllDigits(t, 10) && rest == t[1..]
    ensures AllDigits(rest, 10) && 48 <= t[0] < 58
    ensures Value(t, 10) == (t[0] - 48) * Pow(10, |rest|) + Value(rest, 10)
  {
    TailDigits(t);
    assert t == [t[0]] + rest;
    OneDigit(t[0]);
    ValueOfConcat([t[0]], rest);
  }

  lemma HalfIsFive(d: int, p: int, r: int)
    requires 0 <= d < 10 && 0 <= r < p
    ensures 2 * (d * p + r) >= 10 * p <==> d >= 5
  {
    if d >= 5 {
      MulAtLeast(p, d, 5);
    } else {
      MulAtLeast(p, 4, d);
    }
  }

  lemma RoundsByFirst(w: int, f: int, p: int, neg: bool)
    requires w >= 0 && 0 <= f < p
    ensures var n := w + if 2 * f >= p then 1 else 0;
            RoundDiv(if neg then 0 - (w * p + f) else w * p + f, p) == if neg then 0 - n else n
  {
    assert w * p >= 0 by { MulAtLeast(w, p, 0); }
    Remainder(w, f, p);
  }

  lemma NearestByFirst(n: Number)
    requires IsNumber(n)
    ensures var m := Value(n.whole, 10) + if n.frac != [] && n.frac[0] >= FIVE then 1 else 0;
            Nearest(n) == if IsNegative(n) then 0 - m else m
  {
    ValueOfConcat(n.whole, n.frac);
    FirstDecimal(n.frac);
    RoundsByFirst(Value(n.whole, 10), Value(n.frac, 10), Pow(10, |n.frac|), IsNegative(n));
  }

  lemma {:induction false} SplitsAtPoint(whole: Text, rest: Text)
    requires AllDigits(whole, 10) && (rest == [] || rest[0] == POINT)
    ensures Whole(whole + rest) == whole && Fraction(whole + rest) == if rest == [] then [] else rest[1..]
    decreases |whole|
  {
    if whole == [] {
      assert whole + rest == rest;
    } else {
      TailDigits(whole);
      assert (whole + rest)[0] == whole[0] && (whole + rest)[1..] == whole[1..] + rest;
      SplitsAtPoint(whole[1..], rest);
      assert [whole[0]] + whole[1..] == whole;
    }
  }

  lemma DigitsSplit(n: Number)
    requires IsNumber(n)
    ensures Whole(Digits(n)) == n.whole && Fraction(Digits(n)) == n.frac && IsDecimal(Digits(n))
  {
    var rest := (if n.point then [POINT] else []) + n.frac;
    assert Digits(n) == n.whole + rest;
    SplitsAtPoint(n.whole, rest);
  }

  /** More than ten digits are more than an `i` holds. */
  lemma {:induction false} LongIsLarge(t: Text)
    requires AllDigits(t, 10) && t != [] && t[0] != 48
    ensures Value(t, 10) >= Pow(10, |t| - 1)
    decreases |t|
  {
    var init, last := t[..|t| - 1], t[|t| - 1];
    assert t == init + [last] && IsDigit(last, 10) && IsDigit(t[0], 10);
    ValueAppends(init, last, 10);
    if init == [] {
      assert Pow(10, 0) == 1;
    } else {
      LongIsLarge(init);
    }
  }

  lemma {:induction false} StrippedStart(t: Text)
    ensures StripZeros(t) == [] || StripZeros(t)[0] != 48
    decreases |t|
  {
    if t != [] && t[0] == 48 {
      StrippedStart(t[1..]);
    }
  }

  lemma TenDigits()
    ensures Pow(10, 10) == 10_000_000_000
  {
    assert Pow(10, 1) == 10 * Pow(10, 0);
    assert Pow(10, 2) == 10 * Pow(10, 1);
    assert Pow(10, 3) == 10 * Pow(10, 2);
    assert Pow(10, 4) == 10 * Pow(10, 3);
    assert Pow(10, 5) == 10 * Pow(10, 4);
    PowAdds(10, 5, 5);
  }

  /** Rounded digits are the nearest integer, refused exactly when it does not fit. */
  lemma RoundedIsNearest(n: Number)
    requires IsNumber(n)
    ensures IsDecimal(Digits(n)) && Rounded(Digits(n), IsNegative(n)) == InI(Nearest(n))
  {
    DigitsSplit(n);
    NearestByFirst(n);
    ZerosCountNothing(n.whole);
    StrippedStart(n.whole);
    var whole := StripZeros(n.whole);
    if |whole| > 10 {
      LongIsLarge(whole);
      PowGrows(10, 10, |whole| - 1);
      TenDigits();
    }
  }

  // ---- Blanks and signs around the digits

  lemma {:induction false} TrimsFront(k: nat, t: Text)
    requires t == [] || t[0] != BLANK
    ensures TrimLeft(Blanks(k) + t) == t
    decreases k
  {
    var whole := Blanks(k) + t;
    if k == 0 {
      assert whole == t;
    } else {
      assert whole[0] == BLANK;
      assert whole[1..] == Blanks(k - 1) + t;
      TrimsFront(k - 1, t);
    }
  }

  lemma {:induction false} TrimsBack(t: Text, k: nat)
    requires t == [] || t[|t| - 1] != BLANK
    ensures TrimRight(t + Blanks(k)) == t
    decreases k
  {
    var whole := t + Blanks(k);
    if k == 0 {
      assert whole == t;
    } else {
      assert whole[|whole| - 1] == BLANK;
      assert whole[..|whole| - 1] == t + Blanks(k - 1);
      TrimsBack(t, k - 1);
    }
  }

  /** Text that neither begins nor ends with a blank. */
  predicate Tight(t: Text) { t != [] && t[0] != BLANK && t[|t| - 1] != BLANK }

  lemma TrimsBoth(a: nat, t: Text, b: nat)
    requires Tight(t)
    ensures Trim(Blanks(a) + t + Blanks(b)) == t
  {
    assert Blanks(a) + t + Blanks(b) == Blanks(a) + (t + Blanks(b));
    assert (t + Blanks(b))[0] == t[0];
    TrimsFront(a, t + Blanks(b));
    TrimsBack(t, b);
  }

  /** A unit of the digits, or their point. */
  predicate IsFigure(c: Unit) { 48 <= c < 58 || c == POINT }

  lemma DigitsAreFigures(n: Number)
    requires IsNumber(n)
    ensures Digits(n) != [] && IsFigure(Digits(n)[0]) && IsFigure(Digits(n)[|Digits(n)| - 1]) && Tight(Digits(n))
  {
    assert n.whole != [] ==> IsDigit(n.whole[0], 10) && IsDigit(n.whole[|n.whole| - 1], 10);
    assert n.frac != [] ==> IsDigit(n.frac[0], 10) && IsDigit(n.frac[|n.frac| - 1], 10);
  }

  /** A tight body inside one kind of sign. */
  lemma SignedBody(d: Text, k: nat)
    requires Tight(d) && IsFigure(d[0]) && IsFigure(d[|d| - 1])
    ensures SignOf(d) == Signed(false, d, true)
    ensures SignOf([PLUS] + (Blanks(k) + d)) == Signed(false, Blanks(k) + d, true)
    ensures SignOf([MINUS] + (Blanks(k) + d)) == Signed(true, Blanks(k) + d, true)
  {
    var t := Blanks(k) + d;
    assert t[|t| - 1] == d[|d| - 1];
    assert ([PLUS] + t)[1..] == t && ([MINUS] + t)[1..] == t;
  }

  lemma SignedBehind(d: Text, k: nat)
    requires Tight(d) && IsFigure(d[0])
    ensures SignOf((d + Blanks(k)) + [MINUS]) == Signed(true, d + Blanks(k), true)
  {
    var t := (d + Blanks(k)) + [MINUS];
    assert t[0] == d[0] && t[|t| - 1] == MINUS && t[..|t| - 1] == d + Blanks(k);
  }

  lemma TrimsOneSide(d: Text, k: nat)
    requires Tight(d)
    ensures Trim(d) == d && Trim(Blanks(k) + d) == d && Trim(d + Blanks(k)) == d
  {
    TrimNothing(d);
    TrimsBoth(k, d, 0);
    TrimsBoth(0, d, k);
    assert Blanks(k) + d + Blanks(0) == Blanks(k) + d;
    assert Blanks(0) + d + Blanks(k) == d + Blanks(k);
  }

  lemma CoreIsTight(n: Number)
    requires IsNumber(n)
    ensures Tight(Core(n))
  {
    DigitsAreFigures(n);
    var d, t := Digits(n), Core(n);
    assert n.sign == Plus || n.sign == Minus ==> t[|t| - 1] == d[|d| - 1];
    assert n.sign == Behind ==> t[0] == d[0];
  }

  /** The core without its sign. */
  function Unsigned(n: Number): Text {
    match n.sign
    case Bare => Digits(n)
    case Behind => Digits(n) + Blanks(n.inner)
    case _ => Blanks(n.inner) + Digits(n)
  }

  lemma CoreIsSigned(n: Number)
    requires IsNumber(n)
    ensures SignOf(Core(n)) == Signed(IsNegative(n), Unsigned(n), true)
  {
    DigitsAreFigures(n);
    match n.sign
    case Behind => SignedBehind(Digits(n), n.inner);
    case _ => SignedBody(Digits(n), n.inner);
  }

  lemma UnsignedTrims(n: Number)
    requires IsNumber(n)
    ensures Trim(Unsigned(n)) == Digits(n)
  {
    DigitsAreFigures(n);
    TrimsOneSide(Digits(n), n.inner);
  }

  /** Every number text reads as the nearest integer, half away from zero, or is refused as too
      large exactly when that integer does not fit. */
  lemma NumbersRead(n: Number)
    requires IsNumber(n)
    ensures ParseGeneral(Written(n)) == InI(Nearest(n))
  {
    assert Trim(Written(n)) == Core(n) && Core(n) != [] by {
      CoreIsTight(n);
      TrimsBoth(n.lead, Core(n), n.tail);
    }
    CoreIsSigned(n);
    UnsignedTrims(n);
    RoundedIsNearest(n);
  }

  // ---- Nothing else is a number

  lemma {:induction false} LeftOfTrim(t: Text) returns (k: nat)
    ensures t == Blanks(k) + TrimLeft(t) && (TrimLeft(t) == [] || TrimLeft(t)[0] != BLANK)
    decreases |t|
  {
    if t != [] && t[0] == BLANK {
      k := LeftOfTrim(t[1..]);
      assert Blanks(k + 1) == [BLANK] + Blanks(k);
      assert t == [BLANK] + t[1..];
      k := k + 1;
    } else {
      k := 0;
    }
  }

  lemma {:induction false} RightOfTrim(t: Text) returns (k: nat)
    ensures t == TrimRight(t) + Blanks(k) && (TrimRight(t) == [] || TrimRight(t)[|TrimRight(t)| - 1] != BLANK)
    decreases |t|
  {
    if t != [] && t[|t| - 1] == BLANK {
      k := RightOfTrim(t[..|t| - 1]);
      assert Blanks(k + 1) == Blanks(k) + [BLANK];
      assert t == t[..|t| - 1] + [BLANK];
      k := k + 1;
    } else {
      k := 0;
    }
  }

  /** An integer of 32 bits, or too large. */
  lemma InIIs(n: int)
    ensures InI(n) == if -0x8000_0000 <= n < 0x8000_0000 then Ok(n) else Err(TooLarge)
  {
  }

  lemma AroundTrim(t: Text) returns (a: nat, b: nat)
    ensures t == Blanks(a) + Trim(t) + Blanks(b) && (Trim(t) == [] || Tight(Trim(t)))
  {
    a := LeftOfTrim(t);
    b := RightOfTrim(TrimLeft(t));
    assert Trim(t) != [] ==> Trim(t)[0] == TrimLeft(t)[0];
  }

  lemma {:induction false} BodyParts(t: Text)
    ensures |Whole(t)| <= |t|
    ensures t == Whole(t) + if |Whole(t)| < |t| then [POINT] + Fraction(t) else []
    ensures |Whole(t)| == |t| ==> Fraction(t) == []
    decreases |t|
  {
    if t != [] && t[0] != POINT {
      BodyParts(t[1..]);
      assert t == [t[0]] + t[1..];
    }
  }

  lemma NumberOf(body: Text) returns (n: Number)
    requires IsDecimal(body)
    ensures IsNumber(n) && n.lead == n.inner == n.tail == 0 && n.sign == Bare && Digits(n) == body
  {
    BodyParts(body);
    n := Number(0, Bare, 0, Whole(body), |Whole(body)| < |body|, Fraction(body), 0);
  }

  /** Where a text has its one sign, if any. */
  lemma SignShape(t: Text)
    requires t != [] && SignOf(t).ok
    ensures var body := SignOf(t).body;
            body == t || t == body + [MINUS] || t == [PLUS] + body || t == [MINUS] + body
  {
    assert t == [t[0]] + t[1..] == t[..|t| - 1] + [t[|t| - 1]];
  }

  lemma WithSign(n: Number, a: nat, b: nat, t: Text) returns (m: Number)
    requires IsNumber(n) && n.lead == n.inner == n.tail == 0 && n.sign == Bare && Tight(t)
    requires var body := Blanks(a) + Digits(n) + Blanks(b);
             body == t || t == body + [MINUS] || t == [PLUS] + body || t == [MINUS] + body
    ensures IsNumber(m) && m.lead == 0 && m.tail == 0 && Core(m) == t
  {
    var d := Digits(n);
    var body := Blanks(a) + d + Blanks(b);
    BlankEnds(a, d, b);
    if body == t {
      assert body == d;
      m := n;
    } else if t == body + [MINUS] {
      assert a == 0 && body == d + Blanks(b);
      m := n.(sign := Behind, inner := b);
    } else {
      assert b == 0 && body == Blanks(a) + d;
      m := n.(sign := if t == [PLUS] + body then Plus else Minus, inner := a);
    }
  }

  /** Tight text around a decimal body with one sign is the core of a number. */
  lemma CoreOf(t: Text) returns (n: Number)
    requires Tight(t) && SignOf(t).ok && IsDecimal(Trim(SignOf(t).body))
    ensures IsNumber(n) && n.lead == 0 && n.tail == 0 && Core(n) == t
  {
    var a, b := AroundTrim(SignOf(t).body);
    SignShape(t);
    n := NumberOf(Trim(SignOf(t).body));
    n := WithSign(n, a, b, t);
  }

  lemma BlankEnds(a: nat, body: Text, b: nat)
    ensures var t := Blanks(a) + body + Blanks(b);
            (a > 0 ==> t != [] && t[0] == BLANK) && (b > 0 ==> t != [] && t[|t| - 1] == BLANK)
  {
  }

  predicate AllBlank(v: Text) { forall c | c in v :: c == BLANK }

  lemma AcceptedIsNumber(v: Text) returns (n: Number)
    requires ParseGeneral(v) != Err(NoNumber) && !AllBlank(v)
    ensures IsNumber(n) && Written(n) == v
  {
    var a, b := AroundTrim(v);
    n := CoreOf(Trim(v));
    n := n.(lead := a, tail := b);
  }

  /** A text is refused as no number exactly when it is neither blank nor written so. */
  lemma AcceptedIffNumber(v: Text)
    ensures ParseGeneral(v) != Err(NoNumber) <==> AllBlank(v) || exists n :: IsNumber(n) && Written(n) == v
  {
    if AllBlank(v) {
      BlankIsZero(v);
    } else if n :| IsNumber(n) && Written(n) == v {
      NumbersRead(n);
    } else if ParseGeneral(v) != Err(NoNumber) {
      var n := AcceptedIsNumber(v);
    }
  }

  lemma {:induction false} TrimOfBlanks(v: Text)
    requires AllBlank(v)
    ensures Trim(v) == []
    decreases |v|
  {
    if v != [] {
      assert v[0] in v && forall c | c in v[1..] :: c in v;
      TrimOfBlanks(v[1..]);
    }
  }

  /** A blank text is zero. */
  lemma BlankIsZero(v: Text)
    requires AllBlank(v)
    ensures ParseGeneral(v) == Ok(0)
  {
    TrimOfBlanks(v);
  }

  // ---- Digits in a fixed number of places

  /** The last `k` digits, zeros in front. */
  function Fit(digits: Bytes, k: nat): Bytes {
    if |digits| > k then digits[|digits| - k..] else Repeat(ZERO, k - |digits|) + digits
  }

  function IToN(v: int, k: nat): Bytes { Fit(Numeral(Abs(v), 10), k) }

  lemma LastDigits(a: Bytes, b: Bytes)
    requires AllDigits(a, 10) && AllDigits(b, 10)
    ensures AllDigits(a + b, 10) && Value(a + b, 10) % Pow(10, |b|) == Value(b, 10)
  {
    ValueOfConcat(a, b);
    ValueBound(b, 10);
    Remainder(Value(a, 10), Value(b, 10), Pow(10, |b|));
  }

  lemma Remainder(q: int, r: int, p: int)
    requires q >= 0 && 0 <= r < p
    ensures (q * p + r) / p == q && (q * p + r) % p == r
  {
    var n := q * p + r;
    assert n >= 0 by { MulAtLeast(p, q, 0); }
    IntArith.DivMul(n, p);
    UniqueQuotient(n / p, n % p, q, r, p);
  }

  lemma FitKeepsLastDigits(digits: Bytes, k: nat)
    requires AllDigits(digits, 10)
    ensures |Fit(digits, k)| == k && AllDigits(Fit(digits, k), 10)
    ensures Value(Fit(digits, k), 10) == Value(digits, 10) % Pow(10, k)
  {
    if |digits| > k {
      var a, b := digits[..|digits| - k], digits[|digits| - k..];
      assert digits == a + b;
      LastDigits(a, b);
    } else {
      ZerosDoNotCount(k - |digits|, digits, 10);
      ValueBound(digits, 10);
      PowGrows(10, |digits|, k);
      SmallModulo(Value(digits, 10), Pow(10, k));
    }
  }

  /** Exactly `k` digits, of the magnitude modulo `10^k`. */
  lemma IToNKeepsLastDigits(v: int, k: nat)
    ensures |IToN(v, k)| == k && AllDigits(IToN(v, k), 10) && Value(IToN(v, k), 10) == Abs(v) % Pow(10, k)
  {
    NumeralReadsBack(Abs(v), 10);
    FitKeepsLastDigits(Numeral(Abs(v), 10), k);
  }

  lemma SmallModulo(n: int, p: int)
    requires 0 <= n < p
    ensures n % p == n
  {
  }

  /** Its text reads back as that number, or is too large for an `i`. */
  lemma IToNReadsBack(v: int, k: nat)
    ensures ParseGeneral(IToN(v, k)) == InI(Abs(v) % Pow(10, k))
  {
    IToNKeepsLastDigits(v, k);
    var digits := IToN(v, k);
    if k == 0 {
      BlankIsZero(digits);
      assert Pow(10, 0) == 1;
    } else {
      DigitsRead(digits);
    }
  }

  lemma DigitsRead(digits: Text)
    requires digits != [] && AllDigits(digits, 10)
    ensures ParseGeneral(digits) == InI(Value(digits, 10))
  {
    var n := Number(0, Bare, 0, digits, false, [], 0);
    assert digits + [] == digits;
    assert Written(n) == digits;
    assert ParseGeneral(digits) == InI(Nearest(n)) by { NumbersRead(n); }
    assert Nearest(n) == Value(digits, 10) by { NearestByFirst(n); }
  }

  /** The digits of a text, in `k` places. */
  function OnlyDigits(s: Text): Bytes {
    if s == [] then []
    else (if 48 <= s[0] < 58 then [s[0]] else []) + OnlyDigits(s[1..])
  }

  function CToN(s: Text, k: nat): Bytes { Fit(OnlyDigits(s), k) }

  lemma {:induction false} DigitsAreKept(s: Bytes)
    requires AllDigits(s, 10)
    ensures OnlyDigits(s) == s
    decreases |s|
  {
    if s != [] {
      TailDigits(s);
      DigitsAreKept(s[1..]);
      assert [s[0]] + s[1..] == s;
    }
  }

  /** A character that is no digit does not count. */
  lemma {:induction false} OthersAreDropped(a: Text, c: Unit, b: Text)
    requires !IsDigit(c, 10)
    ensures OnlyDigits(a + [c] + b) == OnlyDigits(a + b)
    decreases |a|
  {
    if a == [] {
      assert a + [c] + b == [c] + b && a + b == b;
    } else {
      assert (a + [c] + b)[1..] == a[1..] + [c] + b && (a + b)[1..] == a[1..] + b;
      OthersAreDropped(a[1..], c, b);
    }
  }

  lemma {:induction false} OnlyDigitsAre(s: Text)
    ensures AllDigits(OnlyDigits(s), 10)
    decreases |s|
  {
    if s != [] {
      OnlyDigitsAre(s[1..]);
    }
  }

  /** Exactly `k` digits, the last ones of those in the text. */
  lemma CToNKeepsLastDigits(s: Text, k: nat)
    ensures |CToN(s, k)| == k && AllDigits(OnlyDigits(s), 10) && AllDigits(CToN(s, k), 10)
    ensures Value(CToN(s, k), 10) == Value(OnlyDigits(s), 10) % Pow(10, k)
  {
    OnlyDigitsAre(s);
    FitKeepsLastDigits(OnlyDigits(s), k);
  }

  /** A number moved into `k` places and on into as many stays as it is. */
  lemma CToNKeepsIToN(v: int, k: nat)
    ensures CToN(IToN(v, k), k) == IToN(v, k)
  {
    IToNKeepsLastDigits(v, k);
    DigitsAreKept(IToN(v, k));
  }

  /** Cut to `n` units, unless `n` is negative, and without blanks at the end. */
  function CFit(v: Text, n: int): Text { TrimRight(if 0 <= n < |v| then v[..n] else v) }

  /** What fits is what was there, up to the blanks a character field does not keep. */
  lemma CFitKeeps(v: Text, n: int)
    ensures n >= 0 ==> |CFit(v, n)| <= n
    ensures CFit(v, n) <= v && CFit(CFit(v, n), n) == CFit(v, n)
    ensures forall i | |CFit(v, n)| <= i < |v| && (n < 0 || i < n) :: v[i] == BLANK
    ensures CFit(v, n) != [] ==> CFit(v, n)[|CFit(v, n)| - 1] != BLANK
  {
    var cut := if 0 <= n < |v| then v[..n] else v;
    var k := RightOfTrim(cut);
    assert CFit(v, n) + Blanks(0) == CFit(v, n);
    TrimsBack(CFit(v, n), 0);
    forall i | |CFit(v, n)| <= i < |cut| ensures cut[i] == BLANK {
      assert cut[i] == Blanks(k)[i - |CFit(v, n)|];
    }
  }
}
