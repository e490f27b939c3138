/** Headers, PAX records and path checks of the seed archive (`editors/vscode/launcher.js`,
    `octal` to `safePath`), after the "ustar Interchange Format" and "pax Extended Header"
    sections of the pax utility in POSIX.1-2017. Names are their UTF-8 bytes. */
module TarFormat {
  import opened Basics
  import opened Numerals

  const BLOCK: nat := 512

  const SPACE: Byte := 32
  const NEWLINE: Byte := 10
  const SLASH: Byte := 47
  const BACKSLASH: Byte := 92
  const COLON: Byte := 58

  const USTAR: Bytes := [117, 115, 116, 97, 114, 0]
  const VERSION: Bytes := [48, 48]
  const PAX_NAME: Bytes := [80, 97, 120, 72, 101, 97, 100, 101, 114]
  const PAX_FILE: Bytes := [80, 97, 120, 70, 105, 108, 101]
  /** "path=" */
  const PATH_KEY: Bytes := [112, 97, 116, 104, 61]

  const FILE_TYPE: Byte := 48
  const DIR_TYPE: Byte := 53
  const PAX_TYPE: Byte := 120

  function Zeros(n: nat): Bytes { Repeat(0, n) }

  function Pad(size: nat): (p: nat)
    ensures p < BLOCK && (size + p) % BLOCK == 0
  {
    (BLOCK - size % BLOCK) % BLOCK
  }

  // ----- writing a header -----

  /** A buffer with `text` written at `offset`. */
  function Patch(s: Bytes, offset: nat, text: Bytes): (r: Bytes)
    requires offset + |text| <= |s|
    ensures |r| == |s|
  {
    s[..offset] + text + s[offset + |text|..]
  }

  /** `digits.padStart(length - 1, "0") + "\0"` */
  function Octal(length: nat, value: nat): (r: Bytes)
    requires length >= 1 && |Numeral(value, 8)| <= length - 1
    ensures |r| == length
  {
    PadZeros(Numeral(value, 8), length - 1) + [0]
  }

  predicate Fits(length: nat, value: nat) { length >= 1 && |Numeral(value, 8)| <= length - 1 }

  function Sum(s: Bytes): nat
    decreases |s|
  {
    if s == [] then 0 else Sum(s[..|s| - 1]) + s[|s| - 1]
  }

  type Mode = m: nat | m < 0x1000

  lemma ModeFits(mode: Mode)
    ensures Fits(8, mode) && Fits(8, 0) && Fits(12, 0)
  {
    NumeralLength(mode, 8, 7);
    NumeralLength(0, 8, 7);
    NumeralLength(0, 8, 11);
    PowGrows(8, 4, 7);
    assert Pow(8, 4) == 0x1000 by { EightToTheFourth(); }
  }

  lemma EightToTheFourth()
    ensures Pow(8, 4) == 0x1000
  {
    assert Pow(8, 2) == 64;
    assert Pow(8, 3) == 512;
  }

  /** The header with blanks in place of its checksum. */
  function Unsummed(name: Bytes, size: nat, mode: Mode, kind: Byte): (r: Bytes)
    requires |name| <= 100 && Fits(12, size)
    ensures |r| == BLOCK
  {
    ModeFits(mode);
    var h1 := Patch(Zeros(BLOCK), 0, name);
    var h2 := Patch(h1, 100, Octal(8, mode));
    var h3 := Patch(h2, 108, Octal(8, 0));
    var h4 := Patch(h3, 116, Octal(8, 0));
    var h5 := Patch(h4, 124, Octal(12, size));
    var h6 := Patch(h5, 136, Octal(12, 0));
    var h7 := Patch(h6, 148, Repeat(SPACE, 8));
    var h8 := Patch(h7, 156, [kind]);
    var h9 := Patch(h8, 257, USTAR);
    Patch(h9, 263, VERSION)
  }

  lemma {:induction false} SumBound(s: Bytes)
    ensures Sum(s) <= 255 * |s|
    decreases |s|
  {
    if s != [] {
      SumBound(s[..|s| - 1]);
    }
  }

  lemma SumFits(s: Bytes)
    requires |s| == BLOCK
    ensures Fits(8, Sum(s))
  {
    SumBound(s);
    NumeralLength(Sum(s), 8, 7);
    EightToTheFourth();
    PowAdds(8, 4, 3);
    assert Pow(8, 2) == 64;
    assert Pow(8, 3) == 512;
  }

  function Header(name: Bytes, size: nat, mode: Mode, kind: Byte): (r: Bytes)
    requires |name| <= 100 && Fits(12, size)
    ensures |r| == BLOCK
  {
    var h := Unsummed(name, size, mode, kind);
    SumFits(h);
    Patch(h, 148, Octal(8, Sum(h)))
  }

  // ----- the PAX record of a long name -----

  function PaxValue(name: Bytes): Bytes { PATH_KEY + name + [NEWLINE] }

  /** The length of the record if its decimal length field reads `length`. */
  function NextLength(value: nat, length: nat): nat {
    |Numeral(length, 10)| + 1 + value
  }

  lemma {:induction false} DigitsBound(n: nat)
    ensures |Numeral(n, 10)| <= 1 + n / 10
    ensures n < 10 ==> |Numeral(n, 10)| == 1
    decreases n
  {
    if n >= 10 {
      DigitsBound(n / 10);
    }
  }

  /** What is left of the iteration: it first may fall by one, from then on it only grows, and
      it stays below `2 * value + 10`. */
  function Slack(value: nat, length: nat): int {
    2 * value + 10 - length + if NextLength(value, length) < length then 2 else 0
  }

  predicate Settling(value: nat, length: nat) {
    && value >= 6 && value + 2 <= length <= 2 * value + 10
    && (NextLength(value, length) < length ==> length == value + 3 && length < 10)
  }

  lemma SettlingStarts(value: nat)
    requires value >= 6
    ensures Settling(value, value + 3)
  {
    DigitsBound(value + 3);
    if value + 3 >= 10 {
      NumeralLength(value + 3, 10, 1);
      assert Pow(10, 1) == 10 * Pow(10, 0);
    }
  }

  lemma SettlingGoesOn(value: nat, length: nat)
    requires Settling(value, length) && NextLength(value, length) != length
    ensures Settling(value, NextLength(value, length))
    ensures 0 <= Slack(value, NextLength(value, length)) < Slack(value, length)
  {
    var next := NextLength(value, length);
    DigitsBound(length);
    DigitsBound(next);
    NumeralReadsBack(length, 10);
    if next > length {
      NumeralLengthGrows(length, next, 10);
    }
  }

  /** The loop of `paxPath` from a first guess on. */
  function Settle(value: nat, length: nat): (r: nat)
    requires Settling(value, length)
    ensures NextLength(value, r) == r
    decreases Slack(value, length)
  {
    if NextLength(value, length) == length then length
    else
      SettlingGoesOn(value, length);
      Settle(value, NextLength(value, length))
  }

  function PaxRecord(name: Bytes): (r: Bytes)
    ensures exists length: nat :: r == Numeral(length, 10) + [SPACE] + PaxValue(name) && |r| == length
  {
    SettlingStarts(|PaxValue(name)|);
    var length := Settle(|PaxValue(name)|, |PaxValue(name)| + 3);
    Numeral(length, 10) + [SPACE] + PaxValue(name)
  }

  /** `paxPath`: the loop ends for every name, and the record starts with its own length. */
  method PaxPath(name: Bytes) returns (record: Bytes)
    ensures record == PaxRecord(name)
    ensures exists length: nat :: record == Numeral(length, 10) + [SPACE] + PaxValue(name) && |record| == length
  {
    var value := PaxValue(name);
    var length: nat := |value| + 3;
    SettlingStarts(|value|);
    while true
      invariant Settling(|value|, length)
      invariant Settle(|value|, length) == Settle(|value|, |value| + 3)
      decreases Slack(|value|, length)
    {
      var next := |Numeral(length, 10) + [SPACE] + value|;
      if next == length {
        return Numeral(length, 10) + [SPACE] + value;
      }
      SettlingGoesOn(|value|, length);
      length := next;
    }
  }

  // ----- reading a header -----

  /** `toString` and the cut at the first NUL. */
  function CutAtNul(s: Bytes): Bytes {
    if s == [] || s[0] == 0 then [] else [s[0]] + CutAtNul(s[1..])
  }

  function Field(h: Bytes, start: nat, length: nat): Bytes
    requires start + length <= |h|
  {
    CutAtNul(h[start..start + length])
  }

  predicate IsBlank(c: Byte) { c == SPACE || 9 <= c <= 13 }

  function TrimLeft(s: Bytes): Bytes {
    if s != [] && IsBlank(s[0]) then TrimLeft(s[1..]) else s
  }

  function TrimRight(s: Bytes): Bytes
    decreases |s|
  {
    if s != [] && IsBlank(s[|s| - 1]) then TrimRight(s[..|s| - 1]) else s
  }

  function ReadNumber(h: Bytes, start: nat, length: nat): Option<nat>
    requires start + length <= |h|
  {
    var raw := TrimRight(TrimLeft(Field(h, start, length)));
    if AllDigits(raw, 8) then Some(Value(raw, 8)) else None
  }

  lemma {:induction false} CutKeepsText(text: Bytes, rest: Bytes)
    requires 0 !in text && (rest == [] || rest[0] == 0)
    ensures CutAtNul(text + rest) == text
  {
    if text == [] {
      assert text + rest == rest;
    } else {
      assert (text + rest)[1..] == text[1..] + rest;
      CutKeepsText(text[1..], rest);
    }
  }

  /** A field written by `octal` reads back as its number. */
  lemma OctalReadsBack(h: Bytes, start: nat, length: nat, value: nat)
    requires Fits(length, value) && start + length <= |h| && h[start..start + length] == Octal(length, value)
    ensures ReadNumber(h, start, length) == Some(value)
  {
    var digits := PadZeros(Numeral(value, 8), length - 1);
    PaddedReadsBack(value, 8, length - 1);
    assert 0 !in digits;
    CutKeepsText(digits, [0]);
    NumeralReadsBack(value, 8);
    assert digits != [] && IsDigit(digits[0], 8) && IsDigit(digits[|digits| - 1], 8);
  }

  lemma PatchInside(s: Bytes, offset: nat, text: Bytes)
    requires offset + |text| <= |s|
    ensures Patch(s, offset, text)[offset..offset + |text|] == text
  {
  }

  lemma PatchOutside(s: Bytes, offset: nat, text: Bytes, a: nat, b: nat)
    requires offset + |text| <= |s| && a <= b <= |s|
    requires b <= offset || offset + |text| <= a
    ensures Patch(s, offset, text)[a..b] == s[a..b]
  {
  }

  /** `Patch` seen from a field that lies beside the patch or is the patch. */
  ghost predicate Shows(h: Bytes, start: nat, text: Bytes) {
    start + |text| <= |h| && h[start..start + |text|] == text
  }

  lemma PatchShows(s: Bytes, offset: nat, text: Bytes)
    requires offset + |text| <= |s|
    ensures Shows(Patch(s, offset, text), offset, text)
  {
    PatchInside(s, offset, text);
  }

  lemma PatchKeeps(s: Bytes, offset: nat, text: Bytes, start: nat, shown: Bytes)
    requires offset + |text| <= |s| && Shows(s, start, shown)
    requires start + |shown| <= offset || offset + |text| <= start
    ensures Shows(Patch(s, offset, text), start, shown)
  {
    PatchOutside(s, offset, text, start, start + |shown|);
  }

  function NameField(name: Bytes): (r: Bytes)
    requires |name| <= 100
    ensures |r| == 100
  {
    name + Zeros(100 - |name|)
  }

  /** Name, mode, size, kind and the empty prefix stand in the header where the reader looks. */
  lemma UnsummedShows(name: Bytes, size: nat, mode: Mode, kind: Byte)
    requires |name| <= 100 && Fits(12, size) && Fits(8, mode)
    ensures var h := Unsummed(name, size, mode, kind);
      Shows(h, 0, NameField(name)) && Shows(h, 100, Octal(8, mode)) && Shows(h, 124, Octal(12, size)) &&
      Shows(h, 148, Repeat(SPACE, 8)) && Shows(h, 156, [kind]) && Shows(h, 345, Zeros(155))
  {
    ModeFits(mode);
    var h1 := Patch(Zeros(BLOCK), 0, name);
    assert Shows(h1, 0, NameField(name)) by { assert h1[0..100] == NameField(name); }
    assert Shows(h1, 345, Zeros(155)) by {
      assert Zeros(BLOCK)[345..345 + 155] == Zeros(155);
      PatchKeeps(Zeros(BLOCK), 0, name, 345, Zeros(155));
    }
    var h2 := Patch(h1, 100, Octal(8, mode));
    PatchShows(h1, 100, Octal(8, mode));
    Keep2(h1, 100, Octal(8, mode), name);
    var h3 := Patch(h2, 108, Octal(8, 0));
    Keep3(h2, 108, Octal(8, 0), name, mode);
    var h4 := Patch(h3, 116, Octal(8, 0));
    Keep3(h3, 116, Octal(8, 0), name, mode);
    var h5 := Patch(h4, 124, Octal(12, size));
    PatchShows(h4, 124, Octal(12, size));
    Keep3(h4, 124, Octal(12, size), name, mode);
    var h6 := Patch(h5, 136, Octal(12, 0));
    Keep4(h5, 136, Octal(12, 0), name, mode, size);
    var h7 := Patch(h6, 148, Repeat(SPACE, 8));
    PatchShows(h6, 148, Repeat(SPACE, 8));
    Keep4(h6, 148, Repeat(SPACE, 8), name, mode, size);
    var h8 := Patch(h7, 156, [kind]);
    PatchShows(h7, 156, [kind]);
    PatchKeeps(h7, 156, [kind], 148, Repeat(SPACE, 8));
    Keep4(h7, 156, [kind], name, mode, size);
    var h9 := Patch(h8, 257, USTAR);
    PatchKeeps(h8, 257, USTAR, 148, Repeat(SPACE, 8));
    PatchKeeps(h8, 257, USTAR, 156, [kind]);
    Keep4(h8, 257, USTAR, name, mode, size);
    PatchKeeps(h9, 263, VERSION, 148, Repeat(SPACE, 8));
    PatchKeeps(h9, 263, VERSION, 156, [kind]);
    Keep4(h9, 263, VERSION, name, mode, size);
  }

  lemma Keep2(s: Bytes, offset: nat, text: Bytes, name: Bytes)
    requires |s| == BLOCK && |name| <= 100 && 100 <= offset && offset + |text| <= 345
    requires Shows(s, 0, NameField(name)) && Shows(s, 345, Zeros(155))
    ensures Shows(Patch(s, offset, text), 0, NameField(name)) && Shows(Patch(s, offset, text), 345, Zeros(155))
  {
    PatchKeeps(s, offset, text, 0, NameField(name));
    PatchKeeps(s, offset, text, 345, Zeros(155));
  }

  lemma Keep3(s: Bytes, offset: nat, text: Bytes, name: Bytes, mode: Mode)
    requires |s| == BLOCK && |name| <= 100 && Fits(8, mode) && 108 <= offset && offset + |text| <= 345
    requires Shows(s, 0, NameField(name)) && Shows(s, 345, Zeros(155)) && Shows(s, 100, Octal(8, mode))
    ensures var r := Patch(s, offset, text);
      Shows(r, 0, NameField(name)) && Shows(r, 345, Zeros(155)) && Shows(r, 100, Octal(8, mode))
  {
    Keep2(s, offset, text, name);
    PatchKeeps(s, offset, text, 100, Octal(8, mode));
  }

  lemma Keep4(s: Bytes, offset: nat, text: Bytes, name: Bytes, mode: Mode, size: nat)
    requires |s| == BLOCK && |name| <= 100 && Fits(8, mode) && Fits(12, size) && 136 <= offset && offset + |text| <= 345
    requires Shows(s, 0, NameField(name)) && Shows(s, 345, Zeros(155)) && Shows(s, 100, Octal(8, mode))
    requires Shows(s, 124, Octal(12, size))
    ensures var r := Patch(s, offset, text);
      Shows(r, 0, NameField(name)) && Shows(r, 345, Zeros(155)) &&
      Shows(r, 100, Octal(8, mode)) && Shows(r, 124, Octal(12, size))
  {
    Keep3(s, offset, text, name, mode);
    PatchKeeps(s, offset, text, 124, Octal(12, size));
  }

  /** The checksum as the reader computes it: with blanks in place of the stored one. */
  function Checksum(h: Bytes): nat
    requires |h| == BLOCK
  {
    Sum(Patch(h, 148, Repeat(SPACE, 8)))
  }

  predicate AllZero(h: Bytes) { forall i | 0 <= i < |h| :: h[i] == 0 }

  /** Every field of a header reads back, and its checksum is accepted. */
  lemma HeaderReadsBack(name: Bytes, size: nat, mode: Mode, kind: Byte)
    requires |name| <= 100 && 0 !in name && kind != 0 && Fits(12, size)
    ensures var h := Header(name, size, mode, kind);
      && ReadNumber(h, 148, 8) == Some(Checksum(h)) && !AllZero(h)
      && ReadNumber(h, 124, 12) == Some(size) && ReadNumber(h, 100, 8) == Some(mode)
      && Field(h, 156, 1) == [kind] && Field(h, 345, 155) == [] && Field(h, 0, 100) == name
  {
    var u := Unsummed(name, size, mode, kind);
    ModeFits(mode);
    SumFits(u);
    UnsummedShows(name, size, mode, kind);
    var sum := Octal(8, Sum(u));
    var h := Header(name, size, mode, kind);
    PatchShows(u, 148, sum);
    PatchKeeps(u, 148, sum, 0, NameField(name));
    PatchKeeps(u, 148, sum, 100, Octal(8, mode));
    PatchKeeps(u, 148, sum, 124, Octal(12, size));
    PatchKeeps(u, 148, sum, 156, [kind]);
    PatchKeeps(u, 148, sum, 345, Zeros(155));
    assert Patch(h, 148, Repeat(SPACE, 8)) == u;
    OctalReadsBack(h, 148, 8, Sum(u));
    OctalReadsBack(h, 124, 12, size);
    OctalReadsBack(h, 100, 8, mode);
    assert h[156..157] == [kind] && h[156] == kind;
    CutKeepsText([kind], []);
    assert [kind] + [] == [kind];
    CutKeepsText([], Zeros(155));
    assert [] + Zeros(155) == Zeros(155);
    CutKeepsText(name, Zeros(100 - |name|));
  }

  // ----- the header as the source builds it, in a buffer -----

  method Put(h: array<Byte>, offset: nat, text: Bytes)
    requires offset + |text| <= h.Length
    modifies h
    ensures h[..] == Patch(old(h[..]), offset, text)
  {
    for i := 0 to |text|
      invariant h[..] == Patch(old(h[..]), offset, text[..i])
    {
      h[offset + i] := text[i];
      assert text[..i + 1] == text[..i] + [text[i]];
    }
    assert text[..|text|] == text;
  }

  method BufferSum(h: array<Byte>) returns (sum: nat)
    ensures sum == Sum(h[..])
  {
    sum := 0;
    for i := 0 to h.Length
      invariant sum == Sum(h[..i])
    {
      assert h[..i + 1][..i] == h[..i];
      sum := sum + h[i];
    }
    assert h[..h.Length] == h[..];
  }

  /** `header`: fails only when the size needs more than eleven octal digits. */
  method MakeHeader(name: Bytes, size: nat, mode: Mode, kind: Byte) returns (h: array<Byte>, ok: bool)
    requires |name| <= 100
    ensures ok <==> size < Pow(8, 11)
    ensures ok ==> Fits(12, size) && h[..] == Header(name, size, mode, kind)
  {
    h := new Byte[BLOCK](_ => 0);
    assert h[..] == Zeros(BLOCK);
    NumeralLength(size, 8, 11);
    ok := |Numeral(size, 8)| <= 11;
    if !ok {
      return;
    }
    ModeFits(mode);
    Put(h, 0, name);
    Put(h, 100, Octal(8, mode));
    Put(h, 108, Octal(8, 0));
    Put(h, 116, Octal(8, 0));
    Put(h, 124, Octal(12, size));
    Put(h, 136, Octal(12, 0));
    Put(h, 148, Repeat(SPACE, 8));
    Put(h, 156, [kind]);
    Put(h, 257, USTAR);
    Put(h, 263, VERSION);
    assert h[..] == Unsummed(name, size, mode, kind);
    var sum := BufferSum(h);
    SumFits(h[..]);
    Put(h, 148, Octal(8, sum));
  }
}
