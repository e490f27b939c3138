/** The text of a serving lock: what the writers put there and what a reader takes from it. */
module ServingLockText {
  import opened Basics
  import opened Literals
  import opened Numerals
  import opened Texts

  const NEWLINE: Unit := 10

  /** `Number.isSafeInteger` */
  const SAFE: int := 0x1f_ffff_ffff_ffff

  /** `text.trim()` */
  function TrimStart(t: Text): Text {
    if t != [] && IsSpace(t[0]) then TrimStart(t[1..]) else t
  }

  function TrimEnd(t: Text): Text {
    if t != [] && IsSpace(t[|t| - 1]) then TrimEnd(t[..|t| - 1]) else t
  }

  function Line(t: Text): Text {
    if t == [] || t[0] == NEWLINE then [] else [t[0]] + Line(t[1..])
  }

  /** `text.split("\n")` */
  function Lines(t: Text): seq<Text>
    decreases |t|
  {
    var first := Line(t);
    LineIsShorter(t);
    if |first| == |t| then [t] else [first] + Lines(t[|first| + 1..])
  }

  lemma {:induction false} LineIsShorter(t: Text)
    ensures |Line(t)| <= |t|
    ensures t[..|Line(t)|] == Line(t) && NEWLINE !in Line(t)
    ensures |Line(t)| < |t| ==> t[|Line(t)|] == NEWLINE
    decreases |t|
  {
    if t != [] && t[0] != NEWLINE {
      LineIsShorter(t[1..]);
      assert t == [t[0]] + t[1..];
    }
  }

  /** `/^[1-9][0-9]*$/` */
  predicate IsPositive(t: Text) { AllDigits(t, 10) && t != [] && t[0] != 48 }

  const NO_CHILD: Text := [48]

  predicate IsPid(t: Text, index: nat) {
    (index == 1 && t == NO_CHILD) || (IsPositive(t) && Value(t, 10) <= SAFE)
  }

  /** The process numbers of a lock, 0 for no child; nothing of a malformed one. */
  function Pids(text: Text): Option<seq<nat>> {
    var lines := Lines(TrimEnd(TrimStart(text)));
    if |lines| < 1 || |lines| > 2 || !IsPid(lines[0], 0) || (|lines| == 2 && !IsPid(lines[1], 1)) then None
    else if |lines| == 1 then Some([Value(lines[0], 10)])
    else if lines[1] == NO_CHILD then Some([Value(lines[0], 10), 0])
    else Some([Value(lines[0], 10), Value(lines[1], 10)])
  }

  /** Does a lock of this text keep the copy? `alive` are the processes that a signal would reach,
      or that cannot be asked. */
  predicate KeepsCopy(text: Text, alive: set<nat>) {
    match Pids(text)
    case None => true
    case Some(pids) => exists p | p in pids :: p != 0 && p in alive
  }

  // ---- Numerals of processes

  lemma {:induction false} SpelledAgain(t: Text)
    requires IsPositive(t)
    ensures Value(t, 10) >= 1 && Numeral(Value(t, 10), 10) == t
    decreases |t|
  {
    var init, last := t[..|t| - 1], t[|t| - 1];
    assert t == init + [last] && IsDigit(last, 10) && IsDigit(t[0], 10);
    forall i | 0 <= i < |init| ensures IsDigit(init[i], 10) { assert IsDigit(t[i], 10); }
    ValueAppends(init, last, 10);
    if init == [] {
      assert Value(t, 10) == last - 48;
    } else {
      SpelledAgain(init);
      LastDigit(Value(init, 10), last - 48);
    }
  }

  lemma LastDigit(v: int, d: int)
    requires v >= 1 && 0 <= d < 10
    ensures (v * 10 + d) / 10 == v && (v * 10 + d) % 10 == d
  {
  }

  lemma {:induction false} NumeralIsPositive(n: nat)
    requires n >= 1
    ensures IsPositive(Numeral(n, 10)) && Value(Numeral(n, 10), 10) == n
    decreases n
  {
    NumeralReadsBack(n, 10);
    if n >= 10 {
      NumeralIsPositive(n / 10);
      NumeralReadsBack(n / 10, 10);
    }
  }

  // ---- What is written is read

  lemma {:induction false} LineOf(t: Text, rest: Text)
    requires NEWLINE !in t
    ensures Line(t + ([NEWLINE] + rest)) == t && Line(t) == t
    decreases |t|
  {
    if t == [] {
      assert t + ([NEWLINE] + rest) == [NEWLINE] + rest;
    } else {
      assert (t + ([NEWLINE] + rest))[1..] == t[1..] + ([NEWLINE] + rest);
      LineOf(t[1..], rest);
      assert [t[0]] + t[1..] == t;
    }
  }

  lemma TwoLines(a: Text, b: Text)
    requires NEWLINE !in a && NEWLINE !in b
    ensures Lines(a + ([NEWLINE] + b)) == [a, b] && Lines(a) == [a]
  {
    var t := a + ([NEWLINE] + b);
    LineOf(a, b);
    LineOf(b, []);
    assert t[|a| + 1..] == b;
  }

  /** A text that only white space at its end was added to. */
  lemma TrimsNewline(t: Text)
    requires t != [] && !IsSpace(t[0]) && !IsSpace(t[|t| - 1])
    ensures TrimEnd(TrimStart(t + [NEWLINE])) == t
  {
    assert (t + [NEWLINE])[..|t|] == t;
    assert TrimEnd(t) == t;
  }

  lemma FiguresAreNoSpace(t: Text)
    requires AllDigits(t, 10)
    ensures NEWLINE !in t && forall c | c in t :: !IsSpace(c)
  {
    forall c | c in t ensures !IsSpace(c) && c != NEWLINE {
      var i :| 0 <= i < |t| && t[i] == c;
      assert IsDigit(t[i], 10);
    }
  }

  function LockText(host: Text, second: Text): Text { (host + ([NEWLINE] + second)) + [NEWLINE] }

  lemma LockLines(host: nat, second: Text)
    requires host >= 1 && second != [] && NEWLINE !in second && !IsSpace(second[|second| - 1])
    ensures Lines(TrimEnd(TrimStart(LockText(Numeral(host, 10), second)))) == [Numeral(host, 10), second]
  {
    var h := Numeral(host, 10);
    NumeralIsPositive(host);
    FiguresAreNoSpace(h);
    TwoLines(h, second);
    var t := h + ([NEWLINE] + second);
    assert t[0] == h[0] && h[0] in h && t[|t| - 1] == second[|second| - 1];
    TrimsNewline(t);
  }

  /** "pending", which no reader takes for a number. */
  const PENDING: Text := [112, 101, 110, 100, 105, 110, 103]

  lemma FreshReads(host: nat)
    requires 1 <= host <= SAFE
    ensures Pids(LockText(Numeral(host, 10), NO_CHILD)) == Some([host, 0])
  {
    NumeralIsPositive(host);
    LockLines(host, NO_CHILD);
  }

  lemma RecordedReads(host: nat, child: nat)
    requires 1 <= host <= SAFE && 1 <= child <= SAFE
    ensures Pids(LockText(Numeral(host, 10), Numeral(child, 10))) == Some([host, child])
  {
    var c := Numeral(child, 10);
    NumeralIsPositive(host);
    NumeralIsPositive(child);
    FiguresAreNoSpace(c);
    assert c[|c| - 1] in c;
    LockLines(host, c);
  }

  lemma PendingReads(host: nat)
    requires 1 <= host <= SAFE
    ensures Pids(LockText(Numeral(host, 10), PENDING)) == None
  {
    LockLines(host, PENDING);
    assert !IsDigit(PENDING[0], 10);
  }

  /** A fresh lock names its host and no child; a recorded one names both; while a child is being
      spawned, and while the file is cut off for rewriting, the text is malformed. */
  lemma LocksReadAsWritten(host: nat, child: nat)
    requires 1 <= host <= SAFE && 1 <= child <= SAFE
    ensures Pids(LockText(Numeral(host, 10), NO_CHILD)) == Some([host, 0])
    ensures Pids(LockText(Numeral(host, 10), Numeral(child, 10))) == Some([host, child])
    ensures Pids(LockText(Numeral(host, 10), PENDING)) == None
    ensures Pids([]) == None
  {
    FreshReads(host);
    RecordedReads(host, child);
    PendingReads(host);
  }

  /** So the copy is kept until both the host and the child are gone, and in between always. */
  lemma LocksKeepTheCopy(host: nat, child: nat, alive: set<nat>)
    requires 1 <= host <= SAFE && 1 <= child <= SAFE
    ensures KeepsCopy(LockText(Numeral(host, 10), NO_CHILD), alive) <==> host in alive
    ensures KeepsCopy(LockText(Numeral(host, 10), Numeral(child, 10)), alive) <==> host in alive || child in alive
    ensures KeepsCopy(LockText(Numeral(host, 10), PENDING), alive) && KeepsCopy([], alive)
  {
    LocksReadAsWritten(host, child);
    assert host in [host, 0] && host in [host, child] && child in [host, child];
  }

  /** The numerals of one process number, or of two, of which the second may be 0 for no child. */
  predicate AreNumerals(lines: seq<Text>, pids: seq<nat>) {
    && 1 <= |pids| == |lines| <= 2 && 1 <= pids[0] <= SAFE && (|pids| == 2 ==> pids[1] <= SAFE)
    && forall i | 0 <= i < |pids| :: lines[i] == Numeral(pids[i], 10)
  }

  lemma AcceptedAreNumerals(text: Text, pids: seq<nat>)
    requires Pids(text) == Some(pids)
    ensures AreNumerals(Lines(TrimEnd(TrimStart(text))), pids)
  {
    var lines := Lines(TrimEnd(TrimStart(text)));
    assert Numeral(0, 10) == NO_CHILD;
    SpelledAgain(lines[0]);
    if |lines| == 2 && lines[1] != NO_CHILD {
      SpelledAgain(lines[1]);
    }
  }

  lemma NumeralsAreAccepted(text: Text, pids: seq<nat>)
    requires AreNumerals(Lines(TrimEnd(TrimStart(text))), pids)
    ensures Pids(text) == Some(pids)
  {
    var lines := Lines(TrimEnd(TrimStart(text)));
    NumeralIsPositive(pids[0]);
    assert lines[0] == Numeral(pids[0], 10);
    if |pids| == 1 {
      assert pids == [pids[0]];
    } else {
      assert Numeral(0, 10) == NO_CHILD;
      assert pids == [pids[0], pids[1]] && lines[1] == Numeral(pids[1], 10);
      if pids[1] >= 1 {
        NumeralIsPositive(pids[1]);
      }
    }
  }

  /** What is accepted is exactly one or two lines of process numbers, spelled as their numerals. */
  lemma AcceptedIffNumerals(text: Text, pids: seq<nat>)
    ensures Pids(text) == Some(pids) <==> AreNumerals(Lines(TrimEnd(TrimStart(text))), pids)
  {
    if Pids(text) == Some(pids) {
      AcceptedAreNumerals(text, pids);
    }
    if AreNumerals(Lines(TrimEnd(TrimStart(text))), pids) {
      NumeralsAreAccepted(text, pids);
    }
  }

  /** The text of no child is the digit 0; the numbers are those that JavaScript has exactly. */
  lemma LockConstants()
    ensures NO_CHILD == Ascii("0") && PENDING == Ascii("pending") && SAFE == 0x20_0000_0000_0000 - 1
    ensures SAFE + 1 == 0x800_0000 * 0x400_0000
  {
  }
}
