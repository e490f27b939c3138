/** The five entities of XML text, escaped and read back by global replacements. */
module Xml {
  import opened Basics
  import opened Texts

  const AMP: Unit := 38
  const LESS: Unit := 60
  const GREATER: Unit := 62
  const QUOTE: Unit := 34
  const APOSTROPHE: Unit := 39

  const AMP_ENTITY: Text := [38, 97, 109, 112, 59]
  const LESS_ENTITY: Text := [38, 108, 116, 59]
  const GREATER_ENTITY: Text := [38, 103, 116, 59]
  const QUOTE_ENTITY: Text := [38, 113, 117, 111, 116, 59]
  const APOSTROPHE_ENTITY: Text := [38, 97, 112, 111, 115, 59]

  /** The predefined entities, section 4.6 of XML 1.0. */
  lemma EntitiesAre()
    ensures [AMP, LESS, GREATER, QUOTE, APOSTROPHE] == Ascii("&<>\"'")
    ensures AMP_ENTITY == Ascii("&amp;") && LESS_ENTITY == Ascii("&lt;") && GREATER_ENTITY == Ascii("&gt;")
    ensures QUOTE_ENTITY == Ascii("&quot;") && APOSTROPHE_ENTITY == Ascii("&apos;")
  {
  }

  function XmlEscape(text: Text): Text {
    var a := ReplaceAll(text, [AMP], AMP_ENTITY);
    var b := ReplaceAll(a, [LESS], LESS_ENTITY);
    var c := ReplaceAll(b, [GREATER], GREATER_ENTITY);
    var d := ReplaceAll(c, [QUOTE], QUOTE_ENTITY);
    ReplaceAll(d, [APOSTROPHE], APOSTROPHE_ENTITY)
  }

  function XmlUnescape(text: Text): Text {
    var a := ReplaceAll(text, LESS_ENTITY, [LESS]);
    var b := ReplaceAll(a, GREATER_ENTITY, [GREATER]);
    var c := ReplaceAll(b, QUOTE_ENTITY, [QUOTE]);
    var d := ReplaceAll(c, APOSTROPHE_ENTITY, [APOSTROPHE]);
    ReplaceAll(d, AMP_ENTITY, [AMP])
  }

  // ---- Unit by unit

  /** Which units stand as entities. */
  datatype Form = Form(amp: bool, less: bool, greater: bool, quote: bool, apostrophe: bool)

  /** A unit in a form. */
  function Spell(f: Form, c: Unit): Text {
    if c == AMP && f.amp then AMP_ENTITY
    else if c == LESS && f.less then LESS_ENTITY
    else if c == GREATER && f.greater then GREATER_ENTITY
    else if c == QUOTE && f.quote then QUOTE_ENTITY
    else if c == APOSTROPHE && f.apostrophe then APOSTROPHE_ENTITY
    else [c]
  }

  function SpellAll(f: Form, text: Text): Text {
    if text == [] then [] else Spell(f, text[0]) + SpellAll(f, text[1..])
  }

  /** Replacing takes a spelled unit, and what follows it, one after the other. */
  ghost predicate Respells(f: Form, g: Form, pattern: Text, put: Text) {
    pattern != [] &&
    forall c: Unit, rest: Text ::
      ReplaceAll(Spell(f, c) + rest, pattern, put) == Spell(g, c) + ReplaceAll(rest, pattern, put)
  }

  lemma {:induction false} RespellsAll(f: Form, g: Form, pattern: Text, put: Text, text: Text)
    requires Respells(f, g, pattern, put)
    ensures ReplaceAll(SpellAll(f, text), pattern, put) == SpellAll(g, text)
    decreases |text|
  {
    if text != [] {
      RespellsAll(f, g, pattern, put, text[1..]);
    }
  }

  lemma {:induction false} SpellNothing(f: Form, text: Text)
    requires f == Form(false, false, false, false, false)
    ensures SpellAll(f, text) == text
    decreases |text|
  {
    if text != [] {
      SpellNothing(f, text[1..]);
      assert [text[0]] + text[1..] == text;
    }
  }

  /** An entity that differs from the pattern is copied. */
  lemma CopiesEntity(entity: Text, rest: Text, pattern: Text, put: Text)
    requires |entity| >= 3 && |pattern| >= 3 && (entity[1] != pattern[1] || entity[2] != pattern[2])
    requires pattern[0] !in entity[1..]
    ensures ReplaceAll(entity + rest, pattern, put) == entity + ReplaceAll(rest, pattern, put)
  {
    var whole := entity + rest;
    assert whole[1] == entity[1] && whole[2] == entity[2];
    assert !(pattern <= whole);
    assert whole[0] == entity[0] && whole[1..] == entity[1..] + rest;
    CopiesPast(entity[1..], rest, pattern, put);
    assert [entity[0]] + entity[1..] == entity;
  }

  // ---- Escaping

  /** `g` spells `c` as its entity and the rest as `f` does, which has no `c` elsewhere. */
  ghost predicate Introduces(f: Form, g: Form, c: Unit, entity: Text) {
    && Spell(g, c) == entity && Spell(f, c) == [c]
    && forall d: Unit | d != c :: Spell(g, d) == Spell(f, d) && c !in Spell(f, d)
  }

  lemma EscapesOne(f: Form, g: Form, c: Unit, entity: Text)
    requires Introduces(f, g, c, entity)
    ensures Respells(f, g, [c], entity)
  {
    forall d: Unit, rest: Text
      ensures ReplaceAll(Spell(f, d) + rest, [c], entity) == Spell(g, d) + ReplaceAll(rest, [c], entity)
    {
      if d == c {
        Matches(rest, [c], entity);
      } else {
        CopiesPast(Spell(f, d), rest, [c], entity);
      }
    }
  }

  lemma EscapeStep(f: Form, g: Form, c: Unit, entity: Text, text: Text)
    requires Introduces(f, g, c, entity)
    ensures ReplaceAll(SpellAll(f, text), [c], entity) == SpellAll(g, text)
  {
    EscapesOne(f, g, c, entity);
    RespellsAll(f, g, [c], entity, text);
  }

  const NONE: Form := Form(false, false, false, false, false)
  const ALL: Form := Form(true, true, true, true, true)

  lemma FirstForms()
    ensures Introduces(NONE, Form(true, false, false, false, false), AMP, AMP_ENTITY)
    ensures Introduces(Form(true, false, false, false, false), Form(true, true, false, false, false), LESS, LESS_ENTITY)
  {
  }

  lemma LastForms()
    ensures Introduces(Form(true, true, true, false, false), Form(true, true, true, true, false), QUOTE, QUOTE_ENTITY)
    ensures Introduces(Form(true, true, true, true, false), ALL, APOSTROPHE, APOSTROPHE_ENTITY)
  {
  }

  /** The units one after the other, in the order of the replacements. */
  lemma FormsInTurn()
    ensures Introduces(NONE, Form(true, false, false, false, false), AMP, AMP_ENTITY)
    ensures Introduces(Form(true, false, false, false, false), Form(true, true, false, false, false), LESS, LESS_ENTITY)
    ensures Introduces(Form(true, true, false, false, false), Form(true, true, true, false, false),
                       GREATER, GREATER_ENTITY)
    ensures Introduces(Form(true, true, true, false, false), Form(true, true, true, true, false), QUOTE, QUOTE_ENTITY)
    ensures Introduces(Form(true, true, true, true, false), ALL, APOSTROPHE, APOSTROPHE_ENTITY)
  {
    FirstForms();
    LastForms();
  }

  /** Escaping spells each of the five as its entity. */
  lemma EscapeIsSpelling(text: Text)
    ensures XmlEscape(text) == SpellAll(ALL, text)
  {
    var f1, f2 := Form(true, false, false, false, false), Form(true, true, false, false, false);
    var f3, f4 := Form(true, true, true, false, false), Form(true, true, true, true, false);
    assert ReplaceAll(text, [AMP], AMP_ENTITY) == SpellAll(f1, text) by {
      FormsInTurn(); SpellNothing(NONE, text); EscapeStep(NONE, f1, AMP, AMP_ENTITY, text);
    }
    assert ReplaceAll(SpellAll(f1, text), [LESS], LESS_ENTITY) == SpellAll(f2, text) by {
      FormsInTurn(); EscapeStep(f1, f2, LESS, LESS_ENTITY, text);
    }
    assert ReplaceAll(SpellAll(f2, text), [GREATER], GREATER_ENTITY) == SpellAll(f3, text) by {
      FormsInTurn(); EscapeStep(f2, f3, GREATER, GREATER_ENTITY, text);
    }
    assert ReplaceAll(SpellAll(f3, text), [QUOTE], QUOTE_ENTITY) == SpellAll(f4, text) by {
      FormsInTurn(); EscapeStep(f3, f4, QUOTE, QUOTE_ENTITY, text);
    }
    assert ReplaceAll(SpellAll(f4, text), [APOSTROPHE], APOSTROPHE_ENTITY) == SpellAll(ALL, text) by {
      FormsInTurn(); EscapeStep(f4, ALL, APOSTROPHE, APOSTROPHE_ENTITY, text);
    }
  }

  // ---- Reading back

  /** An entity other than the pattern: it differs in the second or third unit, and `&` only
      begins it. */
  predicate OtherEntity(e: Text, entity: Text) {
    |e| >= 3 && AMP !in e[1..] && |entity| >= 3 && (e[1] != entity[1] || e[2] != entity[2])
  }

  /** `g` spells `c` as itself and the rest as `f` does, which spells `&` as an entity. */
  ghost predicate Removes(f: Form, g: Form, c: Unit, entity: Text) {
    && |entity| >= 3 && entity[0] == AMP && Spell(f, c) == entity && Spell(g, c) == [c]
    && forall d: Unit | d != c ::
         Spell(g, d) == Spell(f, d) && (OtherEntity(Spell(f, d), entity) || AMP !in Spell(f, d))
  }

  lemma UnescapesOne(f: Form, g: Form, c: Unit, entity: Text)
    requires Removes(f, g, c, entity)
    ensures Respells(f, g, entity, [c])
  {
    forall d: Unit, rest: Text
      ensures ReplaceAll(Spell(f, d) + rest, entity, [c]) == Spell(g, d) + ReplaceAll(rest, entity, [c])
    {
      if d == c {
        Matches(rest, entity, [c]);
      } else if OtherEntity(Spell(f, d), entity) {
        CopiesEntity(Spell(f, d), rest, entity, [c]);
      } else {
        CopiesPast(Spell(f, d), rest, entity, [c]);
      }
    }
  }

  lemma UnescapeStep(f: Form, g: Form, c: Unit, entity: Text, text: Text)
    requires Removes(f, g, c, entity)
    ensures ReplaceAll(SpellAll(f, text), entity, [c]) == SpellAll(g, text)
  {
    UnescapesOne(f, g, c, entity);
    RespellsAll(f, g, entity, [c], text);
  }

  /** The entities one after the other; `&` last, so that it cannot make up a new one. */
  lemma FormsUndone()
    ensures Removes(ALL, Form(true, false, true, true, true), LESS, LESS_ENTITY)
    ensures Removes(Form(true, false, true, true, true), Form(true, false, false, true, true), GREATER, GREATER_ENTITY)
    ensures Removes(Form(true, false, false, true, true), Form(true, false, false, false, true), QUOTE, QUOTE_ENTITY)
    ensures Removes(Form(true, false, false, false, true), Form(true, false, false, false, false),
                    APOSTROPHE, APOSTROPHE_ENTITY)
    ensures Removes(Form(true, false, false, false, false), NONE, AMP, AMP_ENTITY)
  {
  }

  lemma UnescapeReadsSpelling(text: Text)
    ensures XmlUnescape(SpellAll(ALL, text)) == text
  {
    var f1, f2 := Form(true, false, true, true, true), Form(true, false, false, true, true);
    var f3, f4 := Form(true, false, false, false, true), Form(true, false, false, false, false);
    assert ReplaceAll(SpellAll(ALL, text), LESS_ENTITY, [LESS]) == SpellAll(f1, text) by {
      FormsUndone(); UnescapeStep(ALL, f1, LESS, LESS_ENTITY, text);
    }
    assert ReplaceAll(SpellAll(f1, text), GREATER_ENTITY, [GREATER]) == SpellAll(f2, text) by {
      FormsUndone(); UnescapeStep(f1, f2, GREATER, GREATER_ENTITY, text);
    }
    assert ReplaceAll(SpellAll(f2, text), QUOTE_ENTITY, [QUOTE]) == SpellAll(f3, text) by {
      FormsUndone(); UnescapeStep(f2, f3, QUOTE, QUOTE_ENTITY, text);
    }
    assert ReplaceAll(SpellAll(f3, text), APOSTROPHE_ENTITY, [APOSTROPHE]) == SpellAll(f4, text) by {
      FormsUndone(); UnescapeStep(f3, f4, APOSTROPHE, APOSTROPHE_ENTITY, text);
    }
    assert ReplaceAll(SpellAll(f4, text), AMP_ENTITY, [AMP]) == text by {
      FormsUndone(); UnescapeStep(f4, NONE, AMP, AMP_ENTITY, text); SpellNothing(NONE, text);
    }
  }

  lemma EscapeReadsBack(text: Text)
    ensures XmlUnescape(XmlEscape(text)) == text
  {
    EscapeIsSpelling(text);
    UnescapeReadsSpelling(text);
  }

  lemma {:induction false} SpelledIsSafe(text: Text, i: nat)
    requires i < |SpellAll(ALL, text)|
    ensures SpellAll(ALL, text)[i] !in {LESS, GREATER, QUOTE, APOSTROPHE}
    decreases |text|
  {
    var head := Spell(ALL, text[0]);
    if i >= |head| {
      SpelledIsSafe(text[1..], i - |head|);
    }
  }

  /** Escaped text can stand in an element or an attribute: none of `<`, `>` and the quotes. */
  lemma EscapedIsSafe(text: Text)
    ensures forall c | c in XmlEscape(text) :: c !in {LESS, GREATER, QUOTE, APOSTROPHE}
  {
    EscapeIsSpelling(text);
    forall c | c in XmlEscape(text) ensures c !in {LESS, GREATER, QUOTE, APOSTROPHE} {
      var i :| 0 <= i < |XmlEscape(text)| && XmlEscape(text)[i] == c;
      SpelledIsSafe(text, i);
    }
  }
}
