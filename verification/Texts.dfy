/** Text as UTF-16 code units, and global replacement. */
module Texts {

  /** A UTF-16 code unit. */
  type Unit = x: int | 0 <= x < 0x1_0000

  type Text = seq<Unit>

  /** `text.replaceAll(pattern, put)`: from the left, matches do not overlap. */
  function ReplaceAll(text: Text, pattern: Text, put: Text): Text
    requires pattern != []
    decreases |text|
  {
    if text == [] then []
    else if pattern <= text then put + ReplaceAll(text[|pattern|..], pattern, put)
    else [text[0]] + ReplaceAll(text[1..], pattern, put)
  }

  /** Units that do not begin a match are copied. */
  lemma {:induction false} CopiesPast(chunk: Text, rest: Text, pattern: Text, put: Text)
    requires pattern != [] && pattern[0] !in chunk
    ensures ReplaceAll(chunk + rest, pattern, put) == chunk + ReplaceAll(rest, pattern, put)
    decreases |chunk|
  {
    if chunk == [] {
      assert chunk + rest == rest;
    } else {
      assert (chunk + rest)[0] == chunk[0] && (chunk + rest)[1..] == chunk[1..] + rest;
      CopiesPast(chunk[1..], rest, pattern, put);
      assert [chunk[0]] + chunk[1..] == chunk;
    }
  }

  /** A match at the front. */
  lemma Matches(rest: Text, pattern: Text, put: Text)
    requires pattern != []
    ensures ReplaceAll(pattern + rest, pattern, put) == put + ReplaceAll(rest, pattern, put)
  {
    assert pattern <= pattern + rest && (pattern + rest)[|pattern|..] == rest;
  }
}
