/** Text literals: 'chars' or `string`, one or several joined by the literal operator `&`. */
module Literals {
  import opened Basics
  import opened Texts

  const APOSTROPHE: Unit := 39
  const BACKQUOTE: Unit := 96
  const JOIN: Unit := 38

  predicate IsQuote(c: Unit) { c == APOSTROPHE || c == BACKQUOTE }

  /** White space as regular expressions have it. */
  predicate IsSpace(c: Unit) {
    9 <= c <= 13 || c in {32, 160, 0x1680, 0x2028, 0x2029, 0x202f, 0x205f, 0x3000, 0xfeff} || 0x2000 <= c <= 0x200a
  }

  /** WhiteSpace and LineTerminator, sections 12.2 and 12.3 of ECMA-262. */
  lemma SpacesAre(c: Unit)
    ensures IsSpace(c) <==>
            c in {0x9, 0xa, 0xb, 0xc, 0xd, 0x20, 0xa0, 0x1680,
                  0x2000, 0x2001, 0x2002, 0x2003, 0x2004, 0x2005, 0x2006, 0x2007, 0x2008, 0x2009, 0x200a,
                  0x2028, 0x2029, 0x202f, 0x205f, 0x3000, 0xfeff}
  {
  }

  predicate AllSpaces(t: Text) { forall c | c in t :: IsSpace(c) }

  datatype Literal = Literal(quote: Unit, value: Text)

  // ---- What a literal is

  function Double(s: Text, q: Unit): Text {
    if s == [] then []
    else (if s[0] == q then [q, q] else [s[0]]) + Double(s[1..], q)
  }

  function Quoted(s: Text, q: Unit): Text { [q] + Double(s, q) + [q] }

  datatype Separator = Separator(before: Text, after: Text)

  function Joint(s: Separator): Text { s.before + [JOIN] + s.after }

  predicate Blank(s: Separator) { AllSpaces(s.before) && AllSpaces(s.after) }

  /** Literals joined by `&`, with white space around it. */
  function Joined(strings: seq<Text>, joints: seq<Separator>, q: Unit): Text
    requires |strings| == |joints| + 1
    decreases |strings|
  {
    if joints == [] then Quoted(strings[0], q)
    else Quoted(strings[0], q) + (Joint(joints[0]) + Joined(strings[1..], joints[1..], q))
  }

  function Flatten(strings: seq<Text>): Text {
    if strings == [] then [] else strings[0] + Flatten(strings[1..])
  }

  // ---- The scanner

  /** What the body of a literal and its closing quote match: a unit other than the quote, or a
      doubled quote, as long as that leads to a match; otherwise a quote closes. */
  function MatchBody(t: Text, q: Unit): (end: Option<nat>)
    ensures end.Some? ==> 1 <= end.value <= |t|
  {
    if t == [] then None
    else if t[0] != q then (match MatchBody(t[1..], q) case None => None case Some(n) => Some(n + 1))
    else if |t| >= 2 && t[1] == q then (match MatchBody(t[2..], q) case None => Some(1) case Some(n) => Some(n + 2))
    else Some(1)
  }

  function MatchLiteral(t: Text): (end: Option<nat>)
    ensures end.Some? ==> 2 <= end.value <= |t|
  {
    if t == [] || !IsQuote(t[0]) then None
    else match MatchBody(t[1..], t[0]) case None => None case Some(n) => Some(n + 1)
  }

  function SkipSpaces(t: Text): (n: nat)
    ensures n <= |t| && AllSpaces(t[..n]) && (n < |t| ==> !IsSpace(t[n]))
  {
    if t == [] || !IsSpace(t[0]) then 0
    else var n := SkipSpaces(t[1..]) + 1; assert t[..n] == [t[0]] + t[1..][..n - 1]; n
  }

  /** White space, `&`, white space. */
  function MatchJoint(t: Text): (end: Option<nat>)
    ensures end.Some? ==> 1 <= end.value <= |t|
  {
    var n := SkipSpaces(t);
    if n == |t| || t[n] != JOIN then None else Some(n + 1 + SkipSpaces(t[n + 1..]))
  }

  /** Without its first and last unit, and with quotes no longer doubled. */
  function Unquoted(part: Text, q: Unit): Text {
    if |part| < 2 then [] else ReplaceAll(part[1..|part| - 1], [q, q], [q])
  }

  function Prefixed(value: Text, more: Option<Text>): Option<Text> {
    match more case None => None case Some(m) => Some(value + m)
  }

  /** What reading the rest of the text adds to the value; `None` when it is no such literal. */
  function Read(t: Text, q: Unit): Option<Text>
    decreases |t|
  {
    match MatchLiteral(t)
    case None => None
    case Some(n) => if t[0] != q then None else Prefixed(Unquoted(t[..n], q), ReadOn(t[n..], q))
  }

  /** Behind a literal: the end, or another one. */
  function ReadOn(rest: Text, q: Unit): Option<Text>
    decreases |rest|
  {
    match MatchJoint(rest)
    case None => if rest == [] then Some([]) else None
    case Some(k) => Read(rest[k..], q)
  }

  function Parsed(text: Text): Option<Literal> {
    if text == [] then None else Extended(Read(text, text[0]), text[0], [])
  }

  /** What is read of the rest, behind the value so far. */
  function Extended(more: Option<Text>, q: Unit, value: Text): Option<Literal> {
    match more case None => None case Some(m) => Some(Literal(q, value + m))
  }

  lemma ExtendsPrefixed(u: Text, more: Option<Text>, q: Unit, value: Text)
    ensures Extended(Prefixed(u, more), q, value) == Extended(more, q, value + u)
  {
    if more.Some? {
      assert value + (u + more.value) == (value + u) + more.value;
    }
  }

  lemma ReadStep(t: Text, q: Unit, n: nat)
    requires MatchLiteral(t) == Some(n) && t[0] == q
    ensures Read(t, q) == Prefixed(Unquoted(t[..n], q), ReadOn(t[n..], q))
  {
  }

  lemma ReadsPart(t: Text, q: Unit, n: nat, u: Text, value: Text)
    requires MatchLiteral(t) == Some(n) && t[0] == q && u == Unquoted(t[..n], q)
    ensures Extended(Read(t, q), q, value) == Extended(ReadOn(t[n..], q), q, value + u)
  {
    ReadStep(t, q, n);
    ExtendsPrefixed(u, ReadOn(t[n..], q), q, value);
  }

  method LiteralText(text: Text) returns (r: Option<Literal>)
    ensures r == Parsed(text)
  {
    var at, value := 0, [];
    assert text[0..] == text;
    while true
      invariant 0 <= at <= |text|
      invariant text != [] ==> Parsed(text) == Extended(Read(text[at..], text[0]), text[0], value)
      decreases |text| - at
    {
      var t := text[at..];
      var m := MatchLiteral(t);
      if m.None? || t[0] != text[0] {
        return None;
      }
      var u := Unquoted(t[..m.value], text[0]);
      ReadsPart(t, text[0], m.value, u, value);
      value, at := value + u, at + m.value;
      var rest := text[at..];
      assert rest == t[m.value..];
      var joint := MatchJoint(rest);
      if joint.None? {
        assert (rest == [] <==> at == |text|) && value + [] == value;
        return if at == |text| then Some(Literal(text[0], value)) else None;
      }
      at := at + joint.value;
      assert text[at..] == rest[joint.value..];
    }
  }

  // ---- Every join is read back

  lemma {:induction false} ReadsBody(s: Text, q: Unit, rest: Text)
    requires rest == [] || rest[0] != q
    ensures MatchBody(Double(s, q) + ([q] + rest), q) == Some(|Double(s, q)| + 1)
    decreases |s|
  {
    var t := Double(s, q) + ([q] + rest);
    if s == [] {
      assert t == [q] + rest;
    } else {
      ReadsBody(s[1..], q, rest);
      var tail := Double(s[1..], q) + ([q] + rest);
      if s[0] == q {
        assert t[0] == q && t[1] == q && t[2..] == tail;
      } else {
        assert t[0] == s[0] && t[1..] == tail;
      }
    }
  }

  lemma {:induction false} HalvesDoubled(s: Text, q: Unit)
    ensures ReplaceAll(Double(s, q), [q, q], [q]) == s
    decreases |s|
  {
    if s != [] {
      var d, tail := Double(s, q), Double(s[1..], q);
      HalvesDoubled(s[1..], q);
      if s[0] == q {
        Matches(tail, [q, q], [q]);
      } else {
        CopiesPast([s[0]], tail, [q, q], [q]);
      }
      assert [s[0]] + s[1..] == s;
    }
  }

  lemma ReadsQuoted(s: Text, q: Unit, rest: Text)
    requires IsQuote(q) && (rest == [] || rest[0] != q)
    ensures var t, n := Quoted(s, q) + rest, |Quoted(s, q)|;
            MatchLiteral(t) == Some(n) && t[0] == q && t[n..] == rest && Unquoted(t[..n], q) == s
  {
    var t, n := Quoted(s, q) + rest, |Quoted(s, q)|;
    ReadsBody(s, q, rest);
    assert t[1..] == Double(s, q) + ([q] + rest);
    assert t[..n] == Quoted(s, q);
    assert Quoted(s, q)[1..n - 1] == Double(s, q);
    HalvesDoubled(s, q);
  }

  lemma {:induction false} SkipsAll(t: Text, rest: Text)
    requires AllSpaces(t) && (rest == [] || !IsSpace(rest[0]))
    ensures SkipSpaces(t + rest) == |t|
    decreases |t|
  {
    if t == [] {
      assert t + rest == rest;
    } else {
      assert (t + rest)[1..] == t[1..] + rest;
      SkipsAll(t[1..], rest);
    }
  }

  lemma ReadsJoint(s: Separator, rest: Text)
    requires Blank(s) && (rest == [] || !IsSpace(rest[0]))
    ensures MatchJoint(Joint(s) + rest) == Some(|Joint(s)|) && (Joint(s) + rest)[|Joint(s)|..] == rest
    ensures |Joint(s)| >= 1 && !IsQuote(Joint(s)[0])
  {
    var t, tail := Joint(s) + rest, s.after + rest;
    SkipsAll(s.after, rest);
    SkipsAll(s.before, [JOIN] + tail);
    JointParts(s, rest, t);
    JointStart(s);
  }

  lemma JointParts(s: Separator, rest: Text, t: Text)
    requires t == Joint(s) + rest
    ensures t == s.before + ([JOIN] + (s.after + rest))
    ensures t[|s.before|] == JOIN && t[|s.before| + 1..] == s.after + rest && t[|Joint(s)|..] == rest
  {
  }

  lemma JointStart(s: Separator)
    requires Blank(s)
    ensures |Joint(s)| >= 1 && !IsQuote(Joint(s)[0])
  {
    if s.before != [] {
      assert Joint(s)[0] == s.before[0] && s.before[0] in s.before;
    }
  }

  lemma {:induction false} JoinStartsWithQuote(strings: seq<Text>, joints: seq<Separator>, q: Unit)
    requires |strings| == |joints| + 1
    ensures Joined(strings, joints, q) != [] && Joined(strings, joints, q)[0] == q
  {
  }

  lemma {:induction false} JoinReads(strings: seq<Text>, joints: seq<Separator>, q: Unit)
    requires |strings| == |joints| + 1 && IsQuote(q) && forall s | s in joints :: Blank(s)
    ensures Read(Joined(strings, joints, q), q) == Some(Flatten(strings))
    decreases |strings|
  {
    if joints == [] {
      ReadsFirst(strings[0], q, []);
      assert Quoted(strings[0], q) + [] == Joined(strings, joints, q);
      LastPart(Quoted(strings[0], q), |Quoted(strings[0], q)|, strings[0], q);
      assert strings == [strings[0]] && strings[0] + [] == strings[0];
    } else {
      var more := Joined(strings[1..], joints[1..], q);
      JoinReads(strings[1..], joints[1..], q);
      JoinStartsWithQuote(strings[1..], joints[1..], q);
      ReadsJoint(joints[0], more);
      ReadsFirst(strings[0], q, Joint(joints[0]) + more);
      assert ReadOn(Joint(joints[0]) + more, q) == Read(more, q);
    }
  }

  lemma ReadsFirst(s: Text, q: Unit, rest: Text)
    requires IsQuote(q) && (rest == [] || rest[0] != q)
    ensures Read(Quoted(s, q) + rest, q) == Prefixed(s, ReadOn(rest, q))
  {
    ReadsQuoted(s, q, rest);
    ReadStep(Quoted(s, q) + rest, q, |Quoted(s, q)|);
  }

  /** Quoted parts of one kind joined by `&` read as their concatenation. */
  lemma JoinReadsBack(strings: seq<Text>, joints: seq<Separator>, q: Unit)
    requires |strings| == |joints| + 1 && IsQuote(q) && forall s | s in joints :: Blank(s)
    ensures Parsed(Joined(strings, joints, q)) == Some(Literal(q, Flatten(strings)))
  {
    assert Read(Joined(strings, joints, q), q) == Some(Flatten(strings)) by { JoinReads(strings, joints, q); }
    JoinStartsWithQuote(strings, joints, q);
    assert [] + Flatten(strings) == Flatten(strings);
  }

  // ---- Every text read is such a join

  lemma {:induction false} BodyIsDoubled(t: Text, q: Unit) returns (s: Text)
    requires MatchBody(t, q).Some?
    ensures t[..MatchBody(t, q).value] == Double(s, q) + [q]
    decreases |t|
  {
    var n := MatchBody(t, q).value;
    if t[0] != q {
      var rest := BodyIsDoubled(t[1..], q);
      s := [t[0]] + rest;
      assert t[..n] == [t[0]] + t[1..][..n - 1];
    } else if n > 1 {
      var rest := BodyIsDoubled(t[2..], q);
      s := [q] + rest;
      assert t[..n] == [q, q] + t[2..][..n - 2];
    } else {
      s := [];
    }
  }

  lemma LiteralIsQuoted(t: Text) returns (s: Text)
    requires MatchLiteral(t).Some?
    ensures t[..MatchLiteral(t).value] == Quoted(s, t[0]) && IsQuote(t[0])
    ensures Unquoted(t[..MatchLiteral(t).value], t[0]) == s
  {
    var n, q := MatchLiteral(t).value, t[0];
    s := BodyIsDoubled(t[1..], q);
    assert t[..n] == [q] + t[1..][..n - 1];
    assert Quoted(s, q) == [q] + (Double(s, q) + [q]);
    assert Quoted(s, q)[1..n - 1] == Double(s, q);
    HalvesDoubled(s, q);
  }

  lemma JointIsBlank(t: Text) returns (s: Separator)
    requires MatchJoint(t).Some?
    ensures Blank(s) && t[..MatchJoint(t).value] == Joint(s)
  {
    var n := SkipSpaces(t);
    var k := SkipSpaces(t[n + 1..]);
    s := Separator(t[..n], t[n + 1..][..k]);
  }

  lemma {:induction false} ReadIsJoin(t: Text, q: Unit) returns (strings: seq<Text>, joints: seq<Separator>)
    requires Read(t, q).Some?
    ensures IsQuote(q) && |strings| == |joints| + 1 && forall s | s in joints :: Blank(s)
    ensures t == Joined(strings, joints, q) && Read(t, q) == Some(Flatten(strings))
    decreases |t|
  {
    var n := MatchLiteral(t).value;
    var value := LiteralIsQuoted(t);
    var rest := t[n..];
    assert t == t[..n] + rest;
    ReadStep(t, q, n);
    if MatchJoint(rest).None? {
      strings, joints := [value], [];
      LastPart(t, n, value, q);
      assert value + [] == value;
    } else {
      var k, joint := JointLeads(rest, q);
      var more, others := ReadIsJoin(rest[k..], q);
      strings, joints := [value] + more, [joint] + others;
      JoinsOn(t, n, value, joint, more, others, q);
    }
  }

  lemma JointLeads(rest: Text, q: Unit) returns (k: nat, joint: Separator)
    requires MatchJoint(rest).Some?
    ensures 1 <= k <= |rest| && ReadOn(rest, q) == Read(rest[k..], q)
    ensures Blank(joint) && rest == Joint(joint) + rest[k..]
  {
    k := MatchJoint(rest).value;
    joint := JointIsBlank(rest);
    assert rest == rest[..k] + rest[k..];
  }

  lemma JoinsOn(t: Text, n: nat, value: Text, joint: Separator, more: seq<Text>, others: seq<Separator>, q: Unit)
    requires n <= |t| && t[..n] == Quoted(value, q) && |more| == |others| + 1 && Blank(joint)
    requires t[n..] == Joint(joint) + Joined(more, others, q) && forall s | s in others :: Blank(s)
    ensures t == Joined([value] + more, [joint] + others, q)
    ensures Flatten([value] + more) == value + Flatten(more)
    ensures forall s | s in [joint] + others :: Blank(s)
  {
    assert t == t[..n] + t[n..];
    Prepends(value, more, joint, others, q);
  }

  lemma LastPart(t: Text, n: nat, value: Text, q: Unit)
    requires n <= |t| && t[..n] == Quoted(value, q) && t[n..] == []
    ensures t == Joined([value], [], q) && Flatten([value]) == value
  {
    assert t == t[..n] + t[n..];
    assert Flatten([value]) == value + Flatten([]);
  }

  lemma Prepends(value: Text, more: seq<Text>, joint: Separator, others: seq<Separator>, q: Unit)
    requires |more| == |others| + 1
    ensures Joined([value] + more, [joint] + others, q) == Quoted(value, q) + (Joint(joint) + Joined(more, others, q))
    ensures Flatten([value] + more) == value + Flatten(more)
  {
    assert ([value] + more)[1..] == more && ([joint] + others)[1..] == others;
  }

  /** A text is accepted exactly when it is a join of literals of one kind. */
  lemma AcceptedIffJoin(text: Text, l: Literal)
    ensures Parsed(text) == Some(l) <==>
            exists strings: seq<Text>, joints: seq<Separator> ::
              |strings| == |joints| + 1 && IsJoin(text, l, strings, joints)
  {
    if Parsed(text) == Some(l) {
      var strings, joints := ReadIsJoin(text, text[0]);
      assert IsJoin(text, l, strings, joints);
    }
    forall strings: seq<Text>, joints: seq<Separator> | |strings| == |joints| + 1 && IsJoin(text, l, strings, joints)
      ensures Parsed(text) == Some(l)
    {
      JoinReadsBack(strings, joints, l.quote);
    }
  }

  ghost predicate IsJoin(text: Text, l: Literal, strings: seq<Text>, joints: seq<Separator>)
    requires |strings| == |joints| + 1
  {
    && IsQuote(l.quote) && (forall s | s in joints :: Blank(s))
    && text == Joined(strings, joints, l.quote) && l.value == Flatten(strings)
  }

  // ---- From the syntax tree

  function Values(parts: seq<Text>, q: Unit): Text {
    if parts == [] then [] else Unquoted(parts[0], q) + Values(parts[1..], q)
  }

  /** `TextLiteral` of the tokens between the operators, or of the one literal. */
  function TextLiteral(joined: bool, parts: seq<Text>): Option<Literal> {
    if parts == [] || parts[0] == [] || !IsQuote(parts[0][0]) then None
    else if joined && exists t | t in parts :: |t| < 2 || t[0] != parts[0][0] || t[|t| - 1] != parts[0][0] then None
    else Some(Literal(parts[0][0], Values(parts, parts[0][0])))
  }

  function QuotedAll(strings: seq<Text>, q: Unit): (parts: seq<Text>)
    ensures |parts| == |strings| && forall i | 0 <= i < |strings| :: parts[i] == Quoted(strings[i], q)
  {
    if strings == [] then [] else [Quoted(strings[0], q)] + QuotedAll(strings[1..], q)
  }

  lemma {:induction false} QuotedValues(strings: seq<Text>, q: Unit)
    ensures Values(QuotedAll(strings, q), q) == Flatten(strings)
    decreases |strings|
  {
    if strings != [] {
      var t := Quoted(strings[0], q);
      assert t[1..|t| - 1] == Double(strings[0], q);
      HalvesDoubled(strings[0], q);
      QuotedValues(strings[1..], q);
    }
  }

  /** The tokens of a join and its text give the same literal. */
  lemma TokensAgreeWithText(strings: seq<Text>, joints: seq<Separator>, q: Unit)
    requires |strings| == |joints| + 1 && IsQuote(q) && forall s | s in joints :: Blank(s)
    ensures TextLiteral(true, QuotedAll(strings, q)) == Parsed(Joined(strings, joints, q))
  {
    var parts := QuotedAll(strings, q);
    forall t | t in parts ensures |t| >= 2 && t[0] == q && t[|t| - 1] == q {
      var i :| 0 <= i < |parts| && parts[i] == t;
      assert t == Quoted(strings[i], q);
    }
    JoinReadsBack(strings, joints, q);
    QuotedValues(strings, q);
  }

  /** Each token is something between two quotes of the kind. */
  predicate AreWrapped(parts: seq<Text>, inner: seq<Text>, q: Unit) {
    |parts| == |inner| && forall i | 0 <= i < |parts| :: parts[i] == [q] + inner[i] + [q]
  }

  lemma AcceptedIsWrapped(parts: seq<Text>) returns (inner: seq<Text>)
    requires TextLiteral(true, parts).Some?
    ensures parts != [] && parts[0] != [] && IsQuote(parts[0][0]) && AreWrapped(parts, inner, parts[0][0])
  {
    var q := parts[0][0];
    inner := seq(|parts|, i requires 0 <= i < |parts| =>
      if |parts[i]| >= 2 then parts[i][1..|parts[i]| - 1] else []);
    forall i | 0 <= i < |parts| ensures parts[i] == [q] + inner[i] + [q] {
      assert parts[i] in parts;
    }
  }

  lemma WrappedIsAccepted(parts: seq<Text>, inner: seq<Text>, q: Unit)
    requires parts != [] && IsQuote(q) && AreWrapped(parts, inner, q)
    ensures TextLiteral(true, parts).Some?
  {
    forall t | t in parts ensures |t| >= 2 && t[0] == q && t[|t| - 1] == q {
      var i :| 0 <= i < |parts| && parts[i] == t;
      assert t == [q] + inner[i] + [q];
    }
    assert parts[0] in parts;
  }

  /** The tokens of a join are refused exactly when some is not between two quotes of one kind. */
  lemma JoinedIffWrapped(parts: seq<Text>)
    ensures TextLiteral(true, parts).Some? <==>
            parts != [] && exists inner, q :: IsQuote(q) && AreWrapped(parts, inner, q)
  {
    if TextLiteral(true, parts).Some? {
      var inner := AcceptedIsWrapped(parts);
    }
    if inner, q :| parts != [] && IsQuote(q) && AreWrapped(parts, inner, q) {
      WrappedIsAccepted(parts, inner, q);
    }
  }

  /** One literal on its own is read as its text is; what does not begin with a quote is refused. */
  lemma SingleAgreesWithText(s: Text, q: Unit, t: Text)
    requires IsQuote(q)
    ensures TextLiteral(false, [Quoted(s, q)]) == Some(Literal(q, s)) == Parsed(Quoted(s, q))
    ensures TextLiteral(false, [t]).None? <==> t == [] || t[0] !in {'\'' as int, '`' as int}
  {
    var part := Quoted(s, q);
    assert part[1..|part| - 1] == Double(s, q);
    HalvesDoubled(s, q);
    assert part[0] == q && Unquoted(part, q) == s;
    assert Values([part], q) == Unquoted(part, q) + Values([part][1..], q) && [part][1..] == [] && s + [] == s;
    JoinReadsBack([s], [], q);
    assert Joined([s], [], q) == part && Flatten([s]) == s + Flatten([s][1..]);
  }
}
