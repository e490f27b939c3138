/** Packed-decimal arithmetic on integers, emitted as checked int8 arithmetic with a retry in
    calculation type p. */
module Int8Emit {
  import opened Basics
  import opened IntArith
  import opened Numerals
  import opened PackedDecimal

  // ---- The expressions, and what they mean

  type I64 = x: int | InRange(x)

  /** A packed value as its text holds it. */
  type PText = d: Dec | d.s >= 0 witness Dec(0, 0)

  datatype Value = Num(n: I64) | Pack(d: PText) | Record(fields: map<nat, I64>)

  datatype Op = Plus | Minus | Times | Slash | IntDiv | Rest | Power

  /** `i2pc`, `p2i8`, and the conversions whose meaning the runtime supplies. */
  datatype Kind = I2PC(fromInt: bool) | P2I8 | Other(id: nat)

  /** `marked`: the node carries `ref` or `fromP`; a `row` belongs to the conversion of a table. */
  datatype Expr =
    | Var(name: nat, marked: bool)
    | Attr(name: nat, marked: bool)
    | Int(value: I64)
    | Field(base: Expr, name: nat, marked: bool)
    | Conv(kind: Kind, x: Expr, marked: bool, arith: bool, fields: bool, pairs: bool, row: Option<Expr>)
    | Str(text: seq<int>, calcP: bool)
    | Neg(x: Expr)
    | Bin(op: Op, l: Expr, r: Expr)
    | Call(id: nat)

  datatype State = State(vars: map<nat, Value>, attrs: map<nat, Value>, bound: set<nat>, calls: seq<nat>)

  type Outcome = Result<Value, Failure>

  /** What the model leaves open: the other conversions, and what a call returns after the calls
      made so far. */
  datatype World = World(convert: (nat, Value) -> Outcome, call: (nat, seq<nat>) -> Outcome)

  const MINUS: int := 45
  const POINT: int := 46

  predicate IsWholeText(t: seq<int>) {
    t != [] && var digits := if t[0] == MINUS then t[1..] else t; digits != [] && AllDigits(digits, 10)
  }

  function WholeText(t: seq<int>): int
    requires IsWholeText(t)
  {
    if t[0] == MINUS then 0 - Numerals.Value(t[1..], 10) else Numerals.Value(t, 10)
  }

  /** The text up to the first point, and what follows it. */
  function Cut(t: seq<int>): (p: (seq<int>, seq<int>)) {
    if t == [] then ([], [])
    else if t[0] == POINT then ([], t[1..])
    else var (a, b) := Cut(t[1..]); ([t[0]] + a, b)
  }

  function ParseP(t: seq<int>): Packed {
    if t == [] then Ok(Dec(0, 0))
    else
      var (ip, fp) := Cut(if t[0] == MINUS then t[1..] else t);
      if ip + fp == [] || !AllDigits(ip + fp, 10) then Err(IllTyped)
      else Ok(Dec(if t[0] == MINUS then 0 - Numerals.Value(ip + fp, 10) else Numerals.Value(ip + fp, 10), |fp|))
  }

  function AsValue(p: Packed): Outcome {
    match p case Ok(d) => (if d.s >= 0 then Ok(Pack(d)) else Err(IllTyped)) case Err(f) => Err(f)
  }

  function AsNum(a: Answer): Outcome {
    match a case Ok(n) => (if InRange(n) then Ok(Num(n)) else Err(IllTyped)) case Err(f) => Err(f)
  }

  function ApplyP(op: Op, x: PText, y: PText): Packed {
    match op
    case Plus => AddP(x, y)
    case Minus => SubP(x, y)
    case Times => MulP(x, y)
    case Slash => DivP(x, y)
    case IntDiv => DivIntP(x, y)
    case Rest => ModP(x, y)
    case Power => Err(IllTyped)
  }

  function LookUp(m: map<nat, Value>, name: nat, readable: bool): Outcome {
    if readable && name in m then Ok(m[name]) else Err(IllTyped)
  }

  function Convert(kind: Kind, arith: bool, v: Value, w: World): Outcome {
    match kind
    case I2PC(_) => if v.Num? then Ok(Pack(Whole(v.n))) else Err(IllTyped)
    case P2I8 => if v.Pack? then AsNum(ToI8(v.d, arith)) else Err(IllTyped)
    case Other(id) => w.convert(id, v)
  }

  function Eval(e: Expr, w: World, s: State): (Outcome, State)
    decreases e
  {
    match e
    case Var(name, marked) => (LookUp(s.vars, name, !marked || name in s.bound), s)
    case Attr(name, marked) => (LookUp(s.attrs, name, !marked || name in s.bound), s)
    case Int(n) => (Ok(Num(n)), s)
    case Field(base, name, _) =>
      var (b, s1) := Eval(base, w, s);
      (if b.Err? then b
       else if b.value.Record? && name in b.value.fields then Ok(Num(b.value.fields[name]))
       else Err(IllTyped), s1)
    case Conv(kind, x, _, arith, _, _, row) =>
      var (v, s1) := Eval(x, w, s);
      if v.Err? then (v, s1)
      else if row.None? || !kind.Other? then (Convert(kind, arith, v.value, w), s1)
      else
        var (rv, s2) := Eval(row.value, w, s1);
        (if rv.Err? then rv else Convert(kind, arith, v.value, w), s2)
    case Str(text, calcP) => (if calcP then AsValue(ParseP(text)) else Err(IllTyped), s)
    case Neg(x) =>
      var (v, s1) := Eval(x, w, s);
      (if v.Err? then v else if v.value.Pack? then Ok(Pack(NegP(v.value.d))) else Err(IllTyped), s1)
    case Bin(op, l, r) =>
      var (a, s1) := Eval(l, w, s);
      if a.Err? then (a, s1)
      else
        var (b, s2) := Eval(r, w, s1);
        (Combine(op, a.value, b), s2)
    case Call(id) => (w.call(id, s.calls), s.(calls := s.calls + [id]))
  }

  function Combine(op: Op, a: Value, b: Outcome): Outcome {
    if b.Err? then b
    else if a.Pack? && b.value.Pack? then AsValue(ApplyP(op, a.d, b.value.d))
    else Err(IllTyped)
  }

  // ---- The emitted code

  datatype Code =
    | Const(n: I64)
    | Widen(x: Expr)
    | Apply(op: Op, l: Code, r: Code)
    | Retry(fast: Code, slow: Expr)

  function ApplyI8(op: Op, a: int, b: int): Answer {
    match op
    case Plus => Add(a, b)
    case Minus => Sub(a, b)
    case Times => Mul(a, b)
    case Slash => Div(a, b)
    case IntDiv => Quot(a, b)
    case Rest => Mod(a, b)
    case Power => Err(IllTyped)
  }

  function CombineI8(op: Op, a: Value, b: Outcome): Outcome {
    if b.Err? then b
    else if a.Num? && b.value.Num? then AsNum(ApplyI8(op, a.n, b.value.n))
    else Err(IllTyped)
  }

  function Run(c: Code, w: World, s: State): (Outcome, State)
    decreases c
  {
    match c
    case Const(n) => (Ok(Num(n)), s)
    case Widen(x) =>
      var (v, s1) := Eval(x, w, s);
      (if v.Ok? && !v.value.Num? then Err(IllTyped) else v, s1)
    case Apply(op, l, r) =>
      var (a, s1) := Run(l, w, s);
      if a.Err? then (a, s1)
      else
        var (b, s2) := Run(r, w, s1);
        (CombineI8(op, a.value, b), s2)
    case Retry(fast, slow) =>
      var (v, s1) := Run(fast, w, s);
      if v == Err(Overflow) then ToInt8(slow, true, w, s1) else (v, s1)
  }

  /** `p2i8` of an expression. */
  function ToInt8(x: Expr, arith: bool, w: World, s: State): (Outcome, State) {
    var (v, s1) := Eval(x, w, s);
    (if v.Err? then v else Convert(P2I8, arith, v.value, w), s1)
  }

  // ---- The emitter

  function Literal(e: Expr): Option<int> {
    match e
    case Neg(x) => (match Literal(x) case None => None case Some(v) => Some(-v))
    case Str(text, calcP) => if calcP && IsWholeText(text) then Some(WholeText(text)) else None
    case _ => None
  }

  predicate Pure(e: Expr) {
    match e
    case Var(_, marked) => !marked
    case Attr(_, marked) => !marked
    case Int(_) => true
    case Field(base, _, marked) => !marked && Pure(base)
    case Conv(_, x, marked, _, fields, pairs, row) =>
      !marked && !fields && !pairs && Pure(x) && (row.None? || Pure(row.value))
    case _ => false
  }

  function Operand(e: Expr): Option<Code> {
    match Literal(e)
    case Some(v) => if InRange(v) then Some(Const(v)) else None
    case None =>
      if e.Conv? && e.kind == I2PC(true) && Pure(e.x) then Some(Widen(e.x)) else None
  }

  predicate Rejected(op: Op, root: bool) { op == Power || (op == Slash && !root) }

  /** The int8 code of an integral tree; `/` is admitted at the root alone. */
  function Walked(n: Expr, root: bool): Option<Code> {
    var operand := Operand(n);
    if operand.Some? then operand
    else match n
    case Neg(x) =>
      (match Walked(x, false) case None => None case Some(c) => Some(Apply(Minus, Const(0), c)))
    case Bin(op, l, r) =>
      if Rejected(op, root) then None
      else (match (Walked(l, false), Walked(r, false))
            case (Some(a), Some(b)) => Some(Apply(op, a, b))
            case _ => None)
    case _ => None
  }

  /** How many operators the walk meets. */
  function Operators(n: Expr, root: bool): nat {
    if Operand(n).Some? then 0
    else match n
    case Neg(x) => Operators(x, false) + 1
    case Bin(op, l, r) => if Rejected(op, root) then 0 else Operators(l, false) + Operators(r, false) + 1
    case _ => 0
  }

  /** The code for a conversion, or nothing where the packed path stays. */
  function Emitted(e: Expr): Option<Code> {
    if !e.Conv? || e.kind != P2I8 then None
    else if Operand(e.x).Some? then Operand(e.x)
    else if !e.arith || Walked(e.x, true).None? then None
    else if Operators(e.x, true) == 1 then Walked(e.x, true)
    else if e.x.Bin? && e.x.op == Slash then None
    else Some(Retry(Walked(e.x, true).value, e.x))
  }

  class Emitter {
    var operations: nat

    constructor ()
      ensures operations == 0
    {
      operations := 0;
    }

    method Walk(n: Expr, root: bool) returns (c: Option<Code>)
      modifies this
      ensures c == Walked(n, root)
      ensures operations == old(operations) + Operators(n, root)
      decreases n
    {
      var operand := Operand(n);
      if operand.Some? {
        return operand;
      }
      match n {
        case Neg(x) =>
          var inner := Walk(x, false);
          operations := operations + 1;
          return if inner.None? then None else Some(Apply(Minus, Const(0), inner.value));
        case Bin(op, l, r) =>
          if Rejected(op, root) {
            return None;
          }
          var a := Walk(l, false);
          var b := Walk(r, false);
          operations := operations + 1;
          return if a.None? || b.None? then None else Some(Apply(op, a.value, b.value));
        case _ =>
          return None;
      }
    }
  }

  method EmitPackedInt8(e: Expr) returns (c: Option<Code>)
    ensures c == Emitted(e)
  {
    if !e.Conv? || e.kind != P2I8 {
      return None;
    }
    var leaf := Operand(e.x);
    if leaf.Some? {
      return leaf;
    }
    if !e.arith {
      return None;
    }
    var emitter := new Emitter();
    var fast := emitter.Walk(e.x, true);
    if fast.None? {
      return None;
    }
    if emitter.operations == 1 {
      return fast;
    }
    if e.x.Bin? && e.x.op == Slash {
      return None;
    }
    return Some(Retry(fast.value, e.x));
  }

  // ---- What is emitted, and what stays on the packed path

  /** Parts that an expression evaluates. */
  function Parts(e: Expr): (parts: seq<Expr>)
    ensures forall p | p in parts :: p < e
  {
    match e
    case Field(base, _, _) => [base]
    case Conv(_, x, _, _, _, _, row) => if row.Some? then [x, row.value] else [x]
    case Neg(x) => [x]
    case Bin(_, l, r) => [l, r]
    case _ => []
  }

  predicate Within(x: Expr, e: Expr)
    decreases e
  {
    x == e || exists p | p in Parts(e) :: Within(x, p)
  }

  /** A variable, an attribute, an integer, a component, or a conversion of its value alone; none of
      them a reference or the text of a packed value. */
  predicate Plain(e: Expr) {
    match e
    case Var(_, marked) => !marked
    case Attr(_, marked) => !marked
    case Int(_) => true
    case Field(_, _, marked) => !marked
    case Conv(_, _, marked, _, fields, pairs, _) => !marked && !fields && !pairs
    case _ => false
  }

  /** Pure is what has such parts only. */
  lemma {:induction false} PureIff(e: Expr)
    ensures Pure(e) <==> forall x | Within(x, e) :: Plain(x)
    decreases e
  {
    assert Within(e, e);
    assert e.Field? ==> e.base in Parts(e);
    assert e.Conv? ==> e.x in Parts(e) && (e.row.Some? ==> e.row.value in Parts(e));
    forall p | p in Parts(e) ensures Pure(p) <==> forall x | Within(x, p) :: Plain(x) {
      PureIff(p);
    }
    if Pure(e) {
      forall x | Within(x, e) ensures Plain(x) {
        if x != e {
          var p :| p in Parts(e) && Within(x, p);
        }
      }
    } else if forall x | Within(x, e) :: Plain(x) {
      forall p, x | p in Parts(e) && Within(x, p) ensures Plain(x) {
        assert Within(x, e);
      }
      forall p | p in Parts(e) ensures Pure(p) { }
    }
  }

  /** Signs around the text of a calculated integer. */
  predicate IsIntegerText(e: Expr) {
    match e case Neg(x) => IsIntegerText(x) case Str(text, calcP) => calcP && IsWholeText(text) case _ => false
  }

  lemma {:induction false} LiteralIff(e: Expr)
    ensures Literal(e).Some? <==> IsIntegerText(e)
  {
    if e.Neg? {
      LiteralIff(e.x);
    }
  }

  /** An integer in range, or a pure int or int8 put into calculation type p. */
  predicate IsLeaf(e: Expr) {
    if IsIntegerText(e) then Literal(e).Some? && InRange(Literal(e).value)
    else e.Conv? && e.kind == I2PC(true) && Pure(e.x)
  }

  /** Leaves under signs and under operators other than powers, `/` only at the root. */
  predicate Integral(e: Expr, root: bool) {
    || IsLeaf(e)
    || match e
       case Neg(x) => Integral(x, false)
       case Bin(op, l, r) => op != Power && (op == Slash ==> root) && Integral(l, false) && Integral(r, false)
       case _ => false
  }

  lemma {:induction false} WalkedIff(e: Expr, root: bool)
    ensures Operand(e).Some? <==> IsLeaf(e)
    ensures Walked(e, root).Some? <==> Integral(e, root)
    decreases e
  {
    LiteralIff(e);
    match e
    case Neg(x) => WalkedIff(x, false);
    case Bin(_, l, r) =>
      WalkedIff(l, false);
      WalkedIff(r, false);
    case _ =>
  }

  /** The operators of a code. */
  function OperatorsOf(c: Code): nat {
    match c case Apply(_, l, r) => OperatorsOf(l) + OperatorsOf(r) + 1 case _ => 0
  }

  lemma {:induction false} OperatorsAreCounted(e: Expr, root: bool)
    requires Walked(e, root).Some?
    ensures Operators(e, root) == OperatorsOf(Walked(e, root).value)
    decreases e
  {
    if Operand(e).None? {
      match e
      case Neg(x) => OperatorsAreCounted(x, false);
      case Bin(_, l, r) =>
        OperatorsAreCounted(l, false);
        OperatorsAreCounted(r, false);
    }
  }

  /** Int8 code is emitted for a conversion of a leaf, or of an integral calculation other than a `/` over
      compound operands. */
  lemma EmittedIff(e: Expr)
    ensures Emitted(e).Some? <==>
            && e.Conv? && e.kind == P2I8
            && (|| IsLeaf(e.x)
                || (e.arith && Integral(e.x, true) &&
                    (e.x.Bin? && e.x.op == Slash ==> IsLeaf(e.x.l) && IsLeaf(e.x.r))))
  {
    if e.Conv? {
      WalkedIff(e.x, true);
      if Walked(e.x, true).Some? && e.x.Bin? && !IsLeaf(e.x) {
        OperatorsAreCounted(e.x, true);
        WalkedIff(e.x.l, false);
        WalkedIff(e.x.r, false);
        LeavesHaveNoOperators(e.x.l);
        LeavesHaveNoOperators(e.x.r);
      }
    }
  }

  lemma LeavesHaveNoOperators(e: Expr)
    ensures Walked(e, false).Some? ==> (Operators(e, false) == 0 <==> IsLeaf(e))
  {
    WalkedIff(e, false);
  }

  /** What is emitted is tried and retried in packed exactly when it has more than one operator. */
  lemma RetriesIffCompound(e: Expr)
    requires Emitted(e).Some?
    ensures var c := Emitted(e).value;
            if c.Retry? then OperatorsOf(c.fast) > 1 && c.slow == e.x else OperatorsOf(c) <= 1
  {
    WalkedIff(e.x, true);
    LeavesHaveNoOperators(e.x);
    if Walked(e.x, true).Some? {
      OperatorsAreCounted(e.x, true);
    }
  }

  // ---- Pure operands

  /** Evaluating a pure operand changes nothing, so evaluating it again gives the same value. */
  lemma {:induction false} PureKeepsState(e: Expr, w: World, s: State)
    requires Pure(e)
    ensures Eval(e, w, s).1 == s
    decreases e
  {
    match e
    case Field(base, _, _) => PureKeepsState(base, w, s);
    case Conv(_, x, _, _, _, _, row) =>
      PureKeepsState(x, w, s);
      if row.Some? {
        PureKeepsState(row.value, w, s);
      }
    case _ =>
  }

  lemma {:induction false} CutWhole(t: seq<int>)
    requires AllDigits(t, 10)
    ensures Cut(t) == (t, [])
  {
    if t != [] {
      CutWhole(t[1..]);
      assert [t[0]] + t[1..] == t;
    }
  }

  lemma WholeTextParses(t: seq<int>)
    requires IsWholeText(t)
    ensures ParseP(t) == Ok(Whole(WholeText(t)))
  {
    var digits := if t[0] == MINUS then t[1..] else t;
    CutWhole(digits);
    assert digits + [] == digits;
  }

  lemma {:induction false} LiteralIsWhole(e: Expr, w: World, s: State)
    requires Literal(e).Some?
    ensures Eval(e, w, s) == (Ok(Pack(Whole(Literal(e).value))), s)
    decreases e
  {
    match e
    case Neg(x) => LiteralIsWhole(x, w, s);
    case Str(text, _) => WholeTextParses(text);
  }

  // ---- int8 code against packed evaluation

  /** A packed outcome seen as an int8 one, where it is the packed form of an int8. */
  ghost predicate Same(fast: Outcome, packed: Outcome) {
    match fast
    case Ok(v) => v.Num? && packed == Ok(Pack(Whole(v.n)))
    case Err(f) => packed == Err(f)
  }

  /** As `Same`, but an overflow of the int8 code says nothing. */
  ghost predicate SameUnlessOverflow(fast: Outcome, packed: Outcome) {
    fast == Err(Overflow) || Same(fast, packed)
  }

  lemma OperandAgrees(e: Expr, w: World, s: State)
    requires Operand(e).Some?
    ensures Run(Operand(e).value, w, s).1 == s && Eval(e, w, s).1 == s
    ensures Same(Run(Operand(e).value, w, s).0, Eval(e, w, s).0)
  {
    if Literal(e).Some? {
      LiteralIsWhole(e, w, s);
    } else {
      PureKeepsState(e.x, w, s);
    }
  }

  ghost predicate Agrees(op: Op, a: I64, b: I64) {
    && SameUnlessOverflow(AsNum(ApplyI8(op, a, b)), AsValue(ApplyP(op, Whole(a), Whole(b))))
    && (ApplyI8(op, a, b) == Err(Overflow) ==>
          var p := ApplyP(op, Whole(a), Whole(b)); p.Ok? && p.value.s == 0 && !InRange(p.value.v))
  }

  lemma SumAgrees(op: Op, a: I64, b: I64)
    requires op == Plus || op == Minus || op == Times
    ensures Agrees(op, a, b)
  {
    SumsAreWhole(a, b);
    AddIsExact(a, b);
    SubIsExact(a, b);
    MulIsExact(a, b);
  }

  lemma WholeQuotientAgrees(a: I64, b: I64)
    ensures Agrees(IntDiv, a, b)
  {
    WholeQuotients(a, b);
    QuotIsExact(a, b);
  }

  lemma RemainderAgrees(a: I64, b: I64)
    ensures Agrees(Rest, a, b)
  {
    WholeQuotients(a, b);
    ModIsExact(a, b);
    if b != 0 {
      assert 0 <= a % b < Abs(b);
    }
  }

  /** Where the int8 operation stays in range it has the packed result, and a zero divisor fails
      alike; where it overflows, the packed result is out of range. */
  lemma OperationAgrees(op: Op, a: I64, b: I64)
    requires op != Power && op != Slash
    ensures Agrees(op, a, b)
  {
    match op
    case IntDiv => WholeQuotientAgrees(a, b);
    case Rest => RemainderAgrees(a, b);
    case _ => SumAgrees(op, a, b);
  }

  lemma FittedQuotientAgrees(a: I64, b: I64, w: World)
    ensures var p := AsValue(ApplyP(Slash, Whole(a), Whole(b)));
            AsNum(ApplyI8(Slash, a, b)) == if p.Err? then p else Convert(P2I8, true, p.value, w)
  {
    DivisionRoundsOnce(a, b);
    QuotientsAreTexts(a, b);
    DivIsExact(a, b);
  }

  /** Any operation, with its result fitted into an int8, `/` included. */
  lemma FittedOperationAgrees(op: Op, a: I64, b: I64, w: World)
    requires op != Power
    ensures var p := AsValue(ApplyP(op, Whole(a), Whole(b)));
            AsNum(ApplyI8(op, a, b)) == if p.Err? then p else Convert(P2I8, true, p.value, w)
  {
    if op == Slash {
      FittedQuotientAgrees(a, b, w);
    } else {
      OperationAgrees(op, a, b);
    }
  }

  lemma QuotientsAreTexts(a: int, b: int)
    requires InRange(a) && InRange(b)
    ensures DivP(Whole(a), Whole(b)).Ok? ==> DivP(Whole(a), Whole(b)).value.s >= 0
  {
  }

  lemma NegationAgrees(a: I64)
    ensures NegP(Whole(a)) == Whole(0 - a) && Sub(0, a) == Fit(0 - a)
  {
    SubIsExact(0, a);
  }

  /** In an integral tree, int8 code that does not overflow has the packed result. */
  lemma {:induction false} WalkAgrees(n: Expr, w: World, s: State)
    requires Walked(n, false).Some?
    ensures Run(Walked(n, false).value, w, s).1 == s && Eval(n, w, s).1 == s
    ensures SameUnlessOverflow(Run(Walked(n, false).value, w, s).0, Eval(n, w, s).0)
    decreases n
  {
    if Operand(n).Some? {
      OperandAgrees(n, w, s);
    } else if n.Neg? {
      WalkAgrees(n.x, w, s);
      NegatedAgrees(Run(Walked(n.x, false).value, w, s).0, Eval(n.x, w, s).0);
    } else {
      WalkAgrees(n.l, w, s);
      WalkAgrees(n.r, w, s);
      CombinedAgrees(n.op, Run(Walked(n.l, false).value, w, s).0, Run(Walked(n.r, false).value, w, s).0,
                     Eval(n.l, w, s).0, Eval(n.r, w, s).0);
    }
  }

  lemma NegatedAgrees(fast: Outcome, packed: Outcome)
    requires SameUnlessOverflow(fast, packed)
    ensures SameUnlessOverflow(CombineI8(Minus, Num(0), fast),
                               if packed.Err? then packed
                               else if packed.value.Pack? then Ok(Pack(NegP(packed.value.d))) else Err(IllTyped))
  {
    if fast.Ok? {
      NegationAgrees(fast.value.n);
    }
  }

  lemma CombinedAgrees(op: Op, fl: Outcome, fr: Outcome, pl: Outcome, pr: Outcome)
    requires op != Power && op != Slash
    requires SameUnlessOverflow(fl, pl) && SameUnlessOverflow(fr, pr)
    ensures SameUnlessOverflow(if fl.Err? then fl else CombineI8(op, fl.value, fr),
                               if pl.Err? then pl else Combine(op, pl.value, pr))
  {
    if fl.Ok? && fr.Ok? {
      OperationAgrees(op, fl.value.n, fr.value.n);
    }
  }

  ghost function Fitted(p: Outcome, w: World): Outcome {
    if p.Err? then p else Convert(P2I8, true, p.value, w)
  }

  lemma SameIsFitted(fast: Outcome, packed: Outcome, w: World)
    requires Same(fast, packed)
    ensures fast == Fitted(packed, w)
  {
  }

  /** A whole tree, `/` at the root included: the int8 code overflows, or it has the fitted
      packed result. */
  lemma RootAgrees(x: Expr, w: World, s: State)
    requires Walked(x, true).Some?
    ensures Run(Walked(x, true).value, w, s).1 == s && Eval(x, w, s).1 == s
    ensures var fast := Run(Walked(x, true).value, w, s).0;
            fast == Err(Overflow) || fast == Fitted(Eval(x, w, s).0, w)
  {
    if Operand(x).None? && x.Bin? && x.op == Slash {
      WalkAgrees(x.l, w, s);
      WalkAgrees(x.r, w, s);
      RootQuotient(Run(Walked(x.l, false).value, w, s).0, Run(Walked(x.r, false).value, w, s).0,
                   Eval(x.l, w, s).0, Eval(x.r, w, s).0, w);
    } else {
      assert Walked(x, true) == Walked(x, false);
      WalkAgrees(x, w, s);
      var fast := Run(Walked(x, true).value, w, s).0;
      if fast != Err(Overflow) {
        SameIsFitted(fast, Eval(x, w, s).0, w);
      }
    }
  }

  lemma RootQuotient(fl: Outcome, fr: Outcome, pl: Outcome, pr: Outcome, w: World)
    requires SameUnlessOverflow(fl, pl) && SameUnlessOverflow(fr, pr)
    ensures var fast := if fl.Err? then fl else CombineI8(Slash, fl.value, fr);
            fast == Err(Overflow) || fast == Fitted(if pl.Err? then pl else Combine(Slash, pl.value, pr), w)
  {
    if fl.Ok? && fr.Ok? {
      FittedOperationAgrees(Slash, fl.value.n, fr.value.n, w);
    }
  }

  /** Retrying in calculation type p after an overflow is right for every tree the walk accepts,
      also for the quotients of compound operands that the emitter leaves to the packed path. */
  lemma RetryIsFaithful(x: Expr, w: World, s: State)
    requires Walked(x, true).Some?
    ensures Run(Retry(Walked(x, true).value, x), w, s) == ToInt8(x, true, w, s)
  {
    RootAgrees(x, w, s);
  }

  /** One operator has no intermediate result: its overflow is the overflow of the fit. */
  lemma SingleOperatorIsFaithful(x: Expr, w: World, s: State)
    requires Walked(x, true).Some? && Operators(x, true) == 1
    ensures Run(Walked(x, true).value, w, s) == ToInt8(x, true, w, s)
  {
    if x.Neg? {
      NoOperators(x.x);
      OperandAgrees(x.x, w, s);
      var fast := Run(Operand(x.x).value, w, s).0;
      if fast.Ok? {
        NegationAgrees(fast.value.n);
      }
    } else {
      NoOperators(x.l);
      NoOperators(x.r);
      OperandAgrees(x.l, w, s);
      OperandAgrees(x.r, w, s);
      SingleOperation(x.op, Run(Operand(x.l).value, w, s).0, Run(Operand(x.r).value, w, s).0,
                      Eval(x.l, w, s).0, Eval(x.r, w, s).0, w);
    }
  }

  lemma NoOperators(n: Expr)
    requires Walked(n, false).Some? && Operators(n, false) == 0
    ensures Operand(n).Some? && Walked(n, false) == Operand(n)
  {
  }

  lemma SingleOperation(op: Op, fl: Outcome, fr: Outcome, pl: Outcome, pr: Outcome, w: World)
    requires op != Power && Same(fl, pl) && Same(fr, pr)
    ensures (if fl.Err? then fl else CombineI8(op, fl.value, fr)) ==
            Fitted(if pl.Err? then pl else Combine(op, pl.value, pr), w)
  {
    if fl.Ok? && fr.Ok? {
      FittedOperationAgrees(op, fl.value.n, fr.value.n, w);
    }
  }

  /** The emitted int8 code computes what the conversion of the packed calculation computes: the
      same integer, or a failure of the same class, in the same state. */
  lemma EmittedCodeIsFaithful(e: Expr, w: World, s: State)
    requires Emitted(e).Some?
    ensures Run(Emitted(e).value, w, s) == Eval(e, w, s)
  {
    assert Eval(e, w, s) == ToInt8(e.x, e.arith, w, s);
    if Operand(e.x).Some? {
      OperandAgrees(e.x, w, s);
    } else if Operators(e.x, true) == 1 {
      SingleOperatorIsFaithful(e.x, w, s);
    } else {
      RetryIsFaithful(e.x, w, s);
    }
  }

  // ---- What the guards are for

  lemma {:induction false} HalfTrims(k: nat)
    ensures Trim(Dec(5 * Ten(k), k + 1)) == Dec(5, 1)
  {
    if k == 0 {
      assert Ten(0) == 1;
    } else {
      assert 5 * Ten(k) == 10 * (5 * Ten(k - 1));
      HalfTrims(k - 1);
    }
  }

  lemma HalfOfOne()
    ensures DivP(Whole(1), Whole(2)) == Ok(Dec(5, 1))
  {
    assert Ten(0) == 1;
    assert Numeral(1, 10) == [49] && Numeral(2, 10) == [50];
    assert LeadingDigit(1, 2) == -1;
    assert Ten(31) == 10 * Ten(30);
    var d := Dec(5 * Ten(30), 31);
    assert RoundDiv(Ten(31), 2) == 5 * Ten(30);
    assert WholePart(d) == 0;
    HalfTrims(30);
  }

  lemma HalfTimesTwo()
    ensures MulP(Dec(5, 1), Whole(2)) == Ok(Dec(1, 0))
  {
    assert Ten(1) == 10 * Ten(0);
    assert WholePart(Dec(10, 1)) == 1;
    assert Numeral(1, 10) == [49];
    assert Trim(Dec(10, 1)) == Dec(1, 0);
  }

  lemma DigitIsLiteral(n: int, w: World, s: State)
    requires 0 < n < 10
    ensures Literal(Str([48 + n], true)) == Some(n)
    ensures Eval(Str([48 + n], true), w, s) == (Ok(Pack(Whole(n))), s)
  {
    var t := [48 + n];
    assert t[..0] == [];
    assert Numerals.Value(t, 10) == n;
    LiteralIsWhole(Str(t, true), w, s);
  }

  lemma PackedHalfTimesTwo(one: Expr, two: Expr, w: World, s: State)
    requires Eval(one, w, s) == (Ok(Pack(Whole(1))), s) && Eval(two, w, s) == (Ok(Pack(Whole(2))), s)
    ensures Eval(Bin(Times, Bin(Slash, one, two), two), w, s) == (Ok(Pack(Whole(1))), s)
  {
    assert ApplyP(Slash, Whole(1), Whole(2)) == Ok(Dec(5, 1)) by { HalfOfOne(); }
    assert ApplyP(Times, Dec(5, 1), Whole(2)) == Ok(Whole(1)) by { HalfTimesTwo(); }
    EvalBin(Slash, one, two, Whole(1), Whole(2), Dec(5, 1), w, s);
    EvalBin(Times, Bin(Slash, one, two), two, Dec(5, 1), Whole(2), Whole(1), w, s);
  }

  lemma EvalBin(op: Op, l: Expr, r: Expr, x: PText, y: PText, z: PText, w: World, s: State)
    requires Eval(l, w, s) == (Ok(Pack(x)), s) && Eval(r, w, s) == (Ok(Pack(y)), s) && ApplyP(op, x, y) == Ok(z)
    ensures Eval(Bin(op, l, r), w, s) == (Ok(Pack(z)), s)
  {
  }

  lemma FastHalfTimesTwo(w: World, s: State)
    ensures Run(Apply(Times, Apply(Slash, Const(1), Const(2)), Const(2)), w, s) == (Ok(Num(2)), s)
  {
    DivIsExact(1, 2);
    MulIsExact(1, 2);
    assert Run(Apply(Slash, Const(1), Const(2)), w, s) == (Ok(Num(1)), s);
  }

  /** Below the root an int8 `/` would round too early: `1 / 2 * 2` is 1 in calculation type p,
      and would be 2. The emitter keeps the packed path there. */
  lemma InnerQuotientsRoundTooEarly(one: Expr, two: Expr, w: World, s: State)
    requires one == Str([49], true) && two == Str([50], true)
    ensures Eval(Bin(Times, Bin(Slash, one, two), two), w, s) == (Ok(Pack(Whole(1))), s)
    ensures Operand(one) == Some(Const(1)) && Operand(two) == Some(Const(2))
    ensures Run(Apply(Times, Apply(Slash, Const(1), Const(2)), Const(2)), w, s) == (Ok(Num(2)), s)
    ensures Walked(Bin(Times, Bin(Slash, one, two), two), true) == None
  {
    DigitIsLiteral(1, w, s);
    DigitIsLiteral(2, w, s);
    PackedHalfTimesTwo(one, two, w, s);
    FastHalfTimesTwo(w, s);
    assert Walked(Bin(Slash, one, two), false) == None;
  }

  // ---- Comparisons

  datatype Relation = Equal | Unequal | Less | AtMost | Greater | AtLeast

  predicate Holds(rel: Relation, order: int) {
    match rel
    case Equal => order == 0
    case Unequal => order != 0
    case Less => order < 0
    case AtMost => order <= 0
    case Greater => order > 0
    case AtLeast => order >= 0
  }

  datatype Condition = Comparison(rel: Relation, l: Expr, r: Expr, packed: bool) | OtherCondition

  datatype CodeTest = CodeTest(rel: Relation, l: Code, r: Code)

  function EmitPackedComparison(c: Condition): Option<CodeTest> {
    if !c.Comparison? || !c.packed then None
    else match (Operand(c.l), Operand(c.r))
      case (Some(l), Some(r)) => Some(CodeTest(c.rel, l, r))
      case _ => None
  }

  function RunTest(t: CodeTest, w: World, s: State): (Result<bool, Failure>, State) {
    var (a, s1) := Run(t.l, w, s);
    if a.Err? then (Err(a.error), s1)
    else
      var (b, s2) := Run(t.r, w, s1);
      (if b.Err? then Err(b.error)
       else if a.value.Num? && b.value.Num? then
         Ok(match t.rel
            case Equal => a.value.n == b.value.n
            case Unequal => a.value.n != b.value.n
            case Less => a.value.n < b.value.n
            case AtMost => a.value.n <= b.value.n
            case Greater => a.value.n > b.value.n
            case AtLeast => a.value.n >= b.value.n)
       else Err(IllTyped), s2)
  }

  /** Comparing two packed values: both are evaluated, aligned, and their digits compared. */
  function Decide(rel: Relation, l: Expr, r: Expr, w: World, s: State): (Result<bool, Failure>, State) {
    var (a, s1) := Eval(l, w, s);
    if a.Err? then (Err(a.error), s1)
    else
      var (b, s2) := Eval(r, w, s1);
      (if b.Err? then Err(b.error)
       else if a.value.Pack? && b.value.Pack? then Ok(Holds(rel, Compare(a.value.d, b.value.d)))
       else Err(IllTyped), s2)
  }

  /** A comparison emitted on int8 operands decides as the packed comparison does. */
  lemma ComparisonIsFaithful(c: Condition, w: World, s: State)
    requires EmitPackedComparison(c).Some?
    ensures RunTest(EmitPackedComparison(c).value, w, s) == Decide(c.rel, c.l, c.r, w, s)
  {
    OperandAgrees(c.l, w, s);
    OperandAgrees(c.r, w, s);
  }
}
