/** The bits of a double worked out by arithmetic, and values cast to hexadecimal digits. */
module FloatBits {
  import opened Basics
  import opened Texts
  import Numerals

  const TWO52: int := 0x10_0000_0000_0000
  const TWO53: int := 0x20_0000_0000_0000
  const TWO63: int := 0x8000_0000_0000_0000

  /** `m * 2^e`; a normal number has 53 significant bits, a subnormal one the least exponent. */
  datatype Double = NaN | Infinite(neg: bool) | Finite(neg: bool, m: int, e: int)

  predicate IsNormal(x: Double) { x.Finite? && TWO52 <= x.m < TWO53 && -1074 <= x.e <= 971 }

  predicate IsSubnormal(x: Double) { x.Finite? && 0 <= x.m < TWO52 && x.e == -1074 }

  predicate IsDouble(x: Double) { x.Finite? ==> IsNormal(x) || IsSubnormal(x) }

  // ---- The interchange format (section 3.4 of IEEE 754-2019): sign, biased exponent, fraction

  function Assemble(neg: bool, exponent: int, fraction: int): int {
    (if neg then TWO63 else 0) + exponent * TWO52 + fraction
  }

  /** What a bit pattern stands for. */
  function Meaning(bits: int): Double
    requires 0 <= bits < 2 * TWO63
  {
    var neg, exponent, fraction := bits >= TWO63, (bits % TWO63) / TWO52, bits % TWO52;
    if exponent == 2047 then (if fraction == 0 then Infinite(neg) else NaN)
    else if exponent == 0 then Finite(neg, fraction, -1074)
    else Finite(neg, TWO52 + fraction, exponent - 1075)
  }

  /** The fields do not overlap. */
  lemma AssembledFields(neg: bool, exponent: int, fraction: int)
    requires 0 <= exponent < 2048 && 0 <= fraction < TWO52
    ensures var bits := Assemble(neg, exponent, fraction);
            && 0 <= bits < 2 * TWO63 && (bits >= TWO63 <==> neg)
            && (bits % TWO63) / TWO52 == exponent && bits % TWO52 == fraction
  {
  }

  // ---- Powers of two

  /** `x * 2^k`, exactly. */
  function Scaled(x: real, k: int): real
    decreases if k < 0 then -k else k
  {
    if k == 0 then x else if k > 0 then 2.0 * Scaled(x, k - 1) else Scaled(x, k + 1) / 2.0
  }

  function Pow2(k: int): real { Scaled(1.0, k) }

  lemma Doubles(x: real, k: int)
    ensures Scaled(x, k + 1) == 2.0 * Scaled(x, k)
  {
  }

  lemma {:induction false} ScalesOn(x: real, j: int, k: int)
    ensures Scaled(Scaled(x, j), k) == Scaled(x, j + k)
    decreases if k < 0 then -k else k
  {
    if k > 0 {
      ScalesOn(x, j, k - 1);
      Doubles(x, j + k - 1);
    } else if k < 0 {
      ScalesOn(x, j, k + 1);
      Doubles(x, j + k);
    }
  }

  lemma {:induction false} KeepsOrder(x: real, y: real, k: int)
    ensures x < y <==> Scaled(x, k) < Scaled(y, k)
    ensures x == y <==> Scaled(x, k) == Scaled(y, k)
    decreases if k < 0 then -k else k
  {
    if k > 0 {
      KeepsOrder(x, y, k - 1);
    } else if k < 0 {
      KeepsOrder(x, y, k + 1);
    }
  }

  lemma {:induction false} ScalesDifference(x: real, y: real, k: int)
    ensures Scaled(x - y, k) == Scaled(x, k) - Scaled(y, k)
    ensures Scaled(0.0, k) == 0.0
    decreases if k < 0 then -k else k
  {
    if k > 0 {
      ScalesDifference(x, y, k - 1);
    } else if k < 0 {
      ScalesDifference(x, y, k + 1);
    }
  }

  lemma {:induction false} PowersGrow(j: int, k: int)
    requires j <= k
    ensures 0.0 < Pow2(j) <= Pow2(k)
    decreases k - j
  {
    if j < k {
      PowersGrow(j, k - 1);
      Doubles(1.0, k - 1);
    } else {
      KeepsOrder(0.0, 1.0, k);
      ScalesDifference(0.0, 0.0, k);
    }
  }

  lemma TenDoublings(x: real)
    ensures Scaled(x, 10) == 1024.0 * x
  {
    Doubles(x, 0);
    Doubles(x, 1);
    Doubles(x, 2);
    Doubles(x, 3);
    Doubles(x, 4);
    Doubles(x, 5);
    Doubles(x, 6);
    Doubles(x, 7);
    Doubles(x, 8);
    Doubles(x, 9);
  }

  lemma Fifty2()
    ensures Pow2(52) == TWO52 as real
  {
    TenDoublings(1.0);
    ScalesOn(1.0, 10, 10);
    TenDoublings(1024.0);
    ScalesOn(1.0, 20, 10);
    TenDoublings(1048576.0);
    ScalesOn(1.0, 30, 10);
    TenDoublings(1073741824.0);
    ScalesOn(1.0, 40, 10);
    TenDoublings(1099511627776.0);
    Doubles(1.0, 50);
    Doubles(1.0, 51);
  }

  /** The absolute value. */
  function Magnitude(x: Double): real
    requires x.Finite?
  {
    Scaled(x.m as real, x.e)
  }

  /** A normal number lies between the powers that its 53 bits name. */
  lemma NormalRange(x: Double)
    requires IsNormal(x)
    ensures Pow2(x.e + 52) <= Magnitude(x) < Pow2(x.e + 53)
  {
    Fifty2();
    Doubles(1.0, 52);
    ScalesOn(1.0, 52, x.e);
    ScalesOn(1.0, 53, x.e);
    KeepsOrder(x.m as real, TWO52 as real, x.e);
    KeepsOrder(x.m as real, TWO53 as real, x.e);
  }

  lemma SubnormalRange(x: Double)
    requires IsSubnormal(x)
    ensures Magnitude(x) < Pow2(-1022) && (Magnitude(x) == 0.0 <==> x.m == 0)
  {
    Fifty2();
    ScalesOn(1.0, 52, -1074);
    KeepsOrder(x.m as real, TWO52 as real, -1074);
    KeepsOrder(x.m as real, 0.0, -1074);
    ScalesDifference(0.0, 0.0, -1074);
  }

  /** Magnitudes tell normal from subnormal numbers. */
  lemma NormalIffLarge(x: Double)
    requires x.Finite? && IsDouble(x)
    ensures Magnitude(x) >= Pow2(-1022) <==> IsNormal(x)
  {
    if IsNormal(x) {
      NormalRange(x);
      PowersGrow(-1022, x.e + 52);
    } else {
      SubnormalRange(x);
    }
  }

  /** The significand behind its leading bit, as an integer. */
  function FractionOf(magnitude: real, power: int): int { Scaled(Scaled(magnitude, -power) - 1.0, 52).Floor }

  lemma FractionIs(x: Double)
    requires IsNormal(x)
    ensures FractionOf(Magnitude(x), x.e + 52) == x.m - TWO52
  {
    var m := x.m as real;
    ScalesOn(m, x.e, -(x.e + 52));
    ScalesDifference(Scaled(m, -52), 1.0, 52);
    ScalesOn(m, -52, 52);
    Fifty2();
  }

  function SmallFraction(magnitude: real): int { Scaled(magnitude, 1074).Floor }

  lemma SmallFractionIs(x: Double)
    requires IsSubnormal(x)
    ensures SmallFraction(Magnitude(x)) == x.m
  {
    ScalesOn(x.m as real, -1074, 1074);
  }

  /** The power below the magnitude, from an estimate that is right or one too large. */
  function PowerOf(magnitude: real, estimate: int): int {
    var power := if estimate < 1023 then estimate else 1023;
    if magnitude < Pow2(power) then power - 1 else power
  }

  lemma PowerIs(x: Double, estimate: int)
    requires IsNormal(x) && x.e + 52 <= estimate <= x.e + 53
    ensures PowerOf(Magnitude(x), estimate) == x.e + 52
  {
    NormalRange(x);
  }

  // ---- The encoder

  /** Biased exponent and fraction of a magnitude. `estimate` is the floor of the logarithm, or one
      more where its rounding reached the next power. */
  method Fields(x: Double, estimate: int) returns (exponent: int, fraction: int)
    requires IsDouble(x)
    requires IsNormal(x) ==> x.e + 52 <= estimate <= x.e + 53
    ensures 0 <= exponent < 2048 && 0 <= fraction < TWO52
    ensures x.NaN? ==> exponent == 2047 && fraction == TWO52 / 2
    ensures x.Infinite? ==> exponent == 2047 && fraction == 0
    ensures IsNormal(x) ==> exponent == x.e + 1075 && fraction == x.m - TWO52
    ensures IsSubnormal(x) ==> exponent == 0 && fraction == x.m
  {
    exponent, fraction := 0, 0;
    if !x.Finite? {
      exponent := 2047;
      fraction := if x.NaN? then TWO52 / 2 else 0;
      return;
    }
    var magnitude := Magnitude(x);
    NormalIffLarge(x);
    if magnitude >= Pow2(-1022) {
      var power := if estimate < 1023 then estimate else 1023;
      if magnitude < Pow2(power) {
        power := power - 1;
      }
      PowerIs(x, estimate);
      FractionIs(x);
      exponent := power + 1023;
      fraction := FractionOf(magnitude, power);
    } else {
      SubnormalRange(x);
      SmallFractionIs(x);
      if magnitude != 0.0 {
        fraction := SmallFraction(magnitude);
      }
    }
  }

  /** The sixty-four bits. */
  method Bits(x: Double, estimate: int) returns (bits: int)
    requires IsDouble(x)
    requires IsNormal(x) ==> x.e + 52 <= estimate <= x.e + 53
    ensures 0 <= bits < 2 * TWO63 && Meaning(bits) == x
    ensures x.NaN? ==> bits == 0x7ff8_0000_0000_0000
  {
    var exponent, fraction := Fields(x, estimate);
    var neg := !x.NaN? && x.neg;
    AssembledFields(neg, exponent, fraction);
    bits := Assemble(neg, exponent, fraction);
  }

  // ---- Hexadecimal digits, low byte first

  type Digit = d: int | 0 <= d < 16

  /** Two digits for a byte. */
  function Pair(byte: int): seq<Digit>
    requires 0 <= byte < 256
  {
    [byte / 16, byte % 16]
  }

  /** What digits in pairs stand for, the first pair least. */
  function LittleEndian(digits: seq<Digit>): int
    requires |digits| % 2 == 0
  {
    if digits == [] then 0 else digits[0] * 16 + digits[1] + 256 * LittleEndian(digits[2..])
  }

  function Bytes(bits: int, n: nat): seq<Digit>
    decreases n
  {
    if n == 0 then [] else Pair(bits % 256) + Bytes(bits / 256, n - 1)
  }

  lemma {:induction false} BytesReadBack(bits: int, n: nat)
    requires 0 <= bits < Numerals.Pow(256, n)
    ensures |Bytes(bits, n)| == 2 * n && LittleEndian(Bytes(bits, n)) == bits
    decreases n
  {
    if n > 0 {
      BytesReadBack(bits / 256, n - 1);
      assert Bytes(bits, n)[2..] == Bytes(bits / 256, n - 1);
    }
  }

  lemma EightBytes()
    ensures Numerals.Pow(256, 8) == 2 * TWO63
  {
    assert Numerals.Pow(256, 4) == 0x1_0000_0000;
  }

  /** The loop that writes the bytes out. */
  method Spell(x: Double, estimate: int) returns (digits: seq<Digit>)
    requires IsDouble(x)
    requires IsNormal(x) ==> x.e + 52 <= estimate <= x.e + 53
    ensures |digits| == 16 && 0 <= LittleEndian(digits) < 2 * TWO63 && Meaning(LittleEndian(digits)) == x
  {
    var bits := Bits(x, estimate);
    ghost var all := bits;
    EightBytes();
    BytesReadBack(bits, 8);
    digits := [];
    for i := 0 to 8
      invariant Bytes(all, 8) == digits + Bytes(bits, 8 - i)
    {
      NextByte(digits, bits, 8 - (i + 1));
      digits := digits + Pair(bits % 256);
      bits := bits / 256;
    }
    assert digits + Bytes(bits, 0) == digits;
  }

  lemma NextByte(digits: seq<Digit>, bits: int, n: nat)
    ensures digits + Bytes(bits, n + 1) == (digits + Pair(bits % 256)) + Bytes(bits / 256, n)
  {
  }

  // ---- Characters

  function UnitDigits(unit: Unit): seq<Digit> { Pair(unit % 256) + Pair(unit / 256) }

  function TextDigits(text: Text): seq<Digit> {
    if text == [] then [] else UnitDigits(text[0]) + TextDigits(text[1..])
  }

  /** At most 65 characters are worth showing. */
  const SHOWN: int := 65

  method TextToHex(raw: Text) returns (digits: seq<Digit>)
    ensures digits == TextDigits(if |raw| < 65 then raw else raw[..65])
  {
    var n := if |raw| < SHOWN then |raw| else SHOWN;
    digits := [];
    var shown := raw[..n];
    assert shown == if |raw| < SHOWN then raw else raw[..SHOWN];
    assert shown[0..] == shown;
    for i := 0 to n
      invariant TextDigits(shown) == digits + TextDigits(shown[i..])
    {
      NextUnit(digits, shown, i);
      digits := digits + UnitDigits(shown[i]);
    }
  }

  lemma NextUnit(digits: seq<Digit>, text: Text, i: nat)
    requires i < |text|
    ensures digits + TextDigits(text[i..]) == (digits + UnitDigits(text[i])) + TextDigits(text[i + 1..])
  {
    assert text[i..][1..] == text[i + 1..];
  }

  function UnitOf(a: int, b: int, c: int, d: int): Unit
    requires 0 <= a < 16 && 0 <= b < 16 && 0 <= c < 16 && 0 <= d < 16
  {
    a * 16 + b + 256 * (c * 16 + d)
  }

  /** The characters that groups of four digits stand for; digits left over are dropped. */
  function HexText(digits: seq<Digit>): Text {
    if |digits| < 4 then [] else [UnitOf(digits[0], digits[1], digits[2], digits[3])] + HexText(digits[4..])
  }

  /** At most 257 characters are read. */
  const READ: int := 1028

  method HexToText(raw: seq<Digit>) returns (text: Text)
    ensures text == HexText(if |raw| < 4 * 257 then raw else raw[..4 * 257])
  {
    var n := if |raw| < READ then |raw| else READ;
    var i: nat := 0;
    text := [];
    var read := raw[..n];
    assert read == if |raw| < READ then raw else raw[..READ];
    assert read[0..] == read;
    while i + 3 < n
      invariant i <= n
      invariant HexText(read) == text + HexText(read[i..])
    {
      NextGroup(text, read, i);
      text := text + [UnitOf(read[i], read[i + 1], read[i + 2], read[i + 3])];
      i := i + 4;
    }
  }

  lemma NextGroup(text: Text, digits: seq<Digit>, i: nat)
    requires i + 3 < |digits|
    ensures text + HexText(digits[i..]) ==
            (text + [UnitOf(digits[i], digits[i + 1], digits[i + 2], digits[i + 3])]) + HexText(digits[i + 4..])
  {
    assert digits[i..][4..] == digits[i + 4..];
  }

  lemma FourDigits(d: seq<Digit>)
    requires |d| == 4
    ensures LittleEndian(d) == UnitOf(d[0], d[1], d[2], d[3])
  {
    var high := d[2..];
    assert high[2..] == [] && high[0] == d[2] && high[1] == d[3];
    assert LittleEndian(high) == high[0] * 16 + high[1] + 256 * LittleEndian(high[2..]);
  }

  lemma UnitReadsBack(unit: Unit)
    ensures var d := UnitDigits(unit); UnitOf(d[0], d[1], d[2], d[3]) == unit
  {
  }

  /** Four digits stand for a character, its low byte first. */
  lemma {:induction false} DigitsAreLittleEndian(text: Text, i: nat)
    requires i < |text|
    ensures |TextDigits(text)| == 4 * |text| && LittleEndian(TextDigits(text)[4 * i..4 * i + 4]) == text[i]
    decreases |text|
  {
    CharactersReadBack(text);
    var rest := TextDigits(text[1..]);
    assert TextDigits(text)[4..] == rest;
    if i == 0 {
      assert TextDigits(text)[0..4] == UnitDigits(text[0]);
      FourDigits(UnitDigits(text[0]));
      UnitReadsBack(text[0]);
    } else {
      DigitsAreLittleEndian(text[1..], i - 1);
      assert TextDigits(text)[4 * i..4 * i + 4] == rest[4 * (i - 1)..4 * (i - 1) + 4];
    }
  }

  lemma {:induction false} HexTextAt(digits: seq<Digit>, i: nat, k: nat)
    requires k == 4 * i && k + 3 < |digits| && |HexText(digits)| == |digits| / 4
    ensures i < |HexText(digits)|
    ensures HexText(digits)[i] == UnitOf(digits[k], digits[k + 1], digits[k + 2], digits[k + 3])
    decreases |digits|
  {
    if i > 0 {
      HexTextLength(digits[4..]);
      HexTextAt(digits[4..], i - 1, k - 4);
    }
  }

  /** Any digits are read so, in fours; what is left over is dropped. */
  lemma HexTextIsLittleEndian(digits: seq<Digit>, i: nat)
    requires 4 * i + 3 < |digits|
    ensures |HexText(digits)| == |digits| / 4 && i < |HexText(digits)|
    ensures HexText(digits)[i] == LittleEndian(digits[4 * i..4 * i + 4])
  {
    HexTextLength(digits);
    HexTextAt(digits, i, 4 * i);
    FourDigits(digits[4 * i..4 * i + 4]);
  }

  lemma {:induction false} HexTextLength(digits: seq<Digit>)
    ensures |HexText(digits)| == |digits| / 4
    decreases |digits|
  {
    if |digits| >= 4 {
      HexTextLength(digits[4..]);
    }
  }

  /** Text cast to hexadecimal digits and back is what it was. */
  lemma {:induction false} CharactersReadBack(text: Text)
    ensures |TextDigits(text)| == 4 * |text| && HexText(TextDigits(text)) == text
    decreases |text|
  {
    if text != [] {
      CharactersReadBack(text[1..]);
      assert TextDigits(text)[4..] == TextDigits(text[1..]);
      assert [text[0]] + text[1..] == text;
    }
  }
}
