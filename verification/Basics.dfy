/** Small datatypes shared by the other modules. */
module Basics {

  datatype Option<+T> = None | Some(value: T)

  datatype Result<+T, +E> = Ok(value: T) | Err(error: E)

  /** A byte of a file or of a stream. */
  type Byte = x: int | 0 <= x < 256

  type Bytes = seq<Byte>

  /** An ASCII character as a byte; others are not used. */
  function Code(c: char): Byte { if c < 128 as char then c as int else 0 }

  function Ascii(text: string): Bytes { seq(|text|, i requires 0 <= i < |text| => Code(text[i])) }

  function Concat(parts: seq<Bytes>): Bytes {
    if parts == [] then [] else parts[0] + Concat(parts[1..])
  }

  lemma Associates(a: Bytes, b: Bytes, c: Bytes)
    ensures (a + b) + c == a + (b + c)
    ensures c == [] ==> a + (b + c) == a + b
  {
  }

  lemma {:induction false} ConcatAppends(xs: seq<Bytes>, ys: seq<Bytes>)
    ensures Concat(xs + ys) == Concat(xs) + Concat(ys)
    decreases |xs|
  {
    if xs == [] {
      assert xs + ys == ys && [] + Concat(ys) == Concat(ys);
    } else {
      ConcatAppends(xs[1..], ys);
      assert (xs + ys)[1..] == xs[1..] + ys;
      Associates(xs[0], Concat(xs[1..]), Concat(ys));
    }
  }
}
