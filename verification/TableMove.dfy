/** The analysis that lets `a = b. CLEAR b.` hand over the rows of `b`: which storage a program
    binds references to, and when two paths cannot be the same storage. */
module TableMove {
  import opened Basics

  type Name = nat

  /** What the analysis asks of a type; `shape` stands for the rest of its structure. */
  datatype Type = Type(table: bool, keyed: bool, stable: bool, shape: nat)

  /** Program nodes. `Arg` is the record of an argument with its actual, `Group` any other statement
      with nested conditions and bodies. `Read` and `Append` stand for the statements that read and
      that append or insert a row; `fs` and `refInto` say that a field symbol or a reference is set
      to it. `start` is the `from` of a loop, `AssignName` binds an attribute by its name, if that
      is a literal, and `Stub` is a statement not compiled, with the attributes its text names. */
  datatype Node =
    | Var(name: Name, ref: bool)
    | Fs(name: Name)
    | Deref(x: Node)
    | Attr(name: Name)
    | Static(owner: nat, name: Name)
    | RefAttr(base: Node, name: Name)
    | Field(base: Node, name: Name)
    | Row(table: Node, index: Node)
    | Wrap(x: Node)
    | Lit
    | New(args: seq<Node>)
    | Call(args: seq<Node>, receiving: seq<Node>)
    | Arg(name: Name, value: Node, importing: bool, byValue: bool)
    | Assign(target: Node, value: Node, targetType: Type, valueType: Type)
    | Clear(target: Node)
    | GetRef(target: Node, value: Node)
    | AssignData(value: Node)
    | Read(table: Node, keys: seq<Node>, fs: bool, refInto: bool)
    | Append(table: Node, rows: seq<Node>, fs: bool, refInto: bool)
    | AssignDeref(source: Node)
    | AssignComp(component: Node, from: Node)
    | AssignName(literal: Option<Name>)
    | Stub(named: seq<Option<Name>>)
    | CallDyn(args: seq<Node>, receiving: seq<Node>)
    | CallFm(args: seq<Node>)
    | Loop(table: Node, fs: bool, start: seq<Node>, body: seq<Node>)
    | Seq(body: seq<Node>)
    | Group(parts: seq<Node>)

  /** `handles`: the variables of a generic or reference type. */
  datatype Method = Method(params: set<Name>, handles: set<Name>, body: seq<Node>)

  /** Every body that can bind or pass storage, and the attributes of the classes. */
  datatype Program = Program(bodies: seq<Method>, attributes: set<Name>)

  datatype Key = LocalKey(owner: nat, name: Name) | AttrKey(name: Name)

  // ---- Walking a body

  function Children(n: Node): (nodes: seq<Node>)
    ensures forall i | 0 <= i < |nodes| :: nodes[i] < n
  {
    match n
    case RefAttr(base, _) => [base]
    case Field(base, _) => [base]
    case Row(table, index) => [table, index]
    case Wrap(x) => [x]
    case Deref(x) => [x]
    case New(args) => args
    case Call(args, receiving) => args + receiving
    case Arg(_, value, _, _) => [value]
    case Assign(target, value, _, _) => [target, value]
    case Clear(target) => [target]
    case GetRef(target, value) => [target, value]
    case AssignData(value) => [value]
    case Read(table, keys, _, _) => [table] + keys
    case Append(table, rows, _, _) => [table] + rows
    case AssignDeref(source) => [source]
    case AssignComp(component, from) => [component, from]
    case CallDyn(args, receiving) => args + receiving
    case CallFm(args) => args
    case Loop(table, _, start, body) => [table] + start + body
    case Seq(body) => body
    case Group(parts) => parts
    case _ => []
  }

  /** The nodes of a tree, each before its children. */
  function Walk(n: Node): seq<Node>
    decreases n, |Children(n)| + 1
  {
    [n] + WalkChildren(Children(n), n)
  }

  function WalkChildren(nodes: seq<Node>, parent: Node): seq<Node>
    requires forall i | 0 <= i < |nodes| :: nodes[i] < parent
    decreases parent, |nodes|
  {
    if nodes == [] then [] else Walk(nodes[0]) + WalkChildren(nodes[1..], parent)
  }

  function WalkBody(body: seq<Node>): seq<Node> {
    if body == [] then [] else Walk(body[0]) + WalkBody(body[1..])
  }

  /** `x` occurs in `n`. */
  predicate Inside(x: Node, n: Node)
    decreases n
  {
    x == n || exists i | 0 <= i < |Children(n)| :: Inside(x, Children(n)[i])
  }

  predicate Occurs(x: Node, body: seq<Node>) {
    exists i | 0 <= i < |body| :: Inside(x, body[i])
  }

  lemma {:induction false} WalkReaches(x: Node, n: Node)
    ensures x in Walk(n) <==> Inside(x, n)
    decreases n, |Children(n)| + 1
  {
    ChildrenWalked(x, Children(n), n);
  }

  lemma {:induction false} ChildrenWalked(x: Node, nodes: seq<Node>, parent: Node)
    requires forall i | 0 <= i < |nodes| :: nodes[i] < parent
    ensures x in WalkChildren(nodes, parent) <==> exists i | 0 <= i < |nodes| :: Inside(x, nodes[i])
    decreases parent, |nodes|
  {
    if nodes != [] {
      WalkReaches(x, nodes[0]);
      ChildrenWalked(x, nodes[1..], parent);
      assert forall i | 1 <= i < |nodes| :: nodes[i] == nodes[1..][i - 1];
    }
  }

  /** The walk meets every node of a body, however deep, and no other. */
  lemma {:induction false} WalkBodyReaches(x: Node, body: seq<Node>)
    ensures x in WalkBody(body) <==> Occurs(x, body)
    decreases |body|
  {
    if body != [] {
      WalkReaches(x, body[0]);
      WalkBodyReaches(x, body[1..]);
      assert forall i | 1 <= i < |body| :: body[i] == body[1..][i - 1];
    }
  }

  // ---- What is bound, and what is passed on

  /** The storage an expression is part of; indices and key values are independent of it. */
  function Keys(n: Node, owner: nat, m: Method, binding: bool): set<Key> {
    match n
    case Var(name, ref) =>
      if binding && (ref || name in m.params || name in m.handles) then {} else {LocalKey(owner, name)}
    case Attr(name) => {AttrKey(name)}
    case Static(_, name) => {AttrKey(name)}
    case RefAttr(base, name) => {AttrKey(name)} + Keys(base, owner, m, binding)
    case Field(base, _) => Keys(base, owner, m, binding)
    case Row(table, _) => Keys(table, owner, m, binding)
    case Wrap(x) => Keys(x, owner, m, binding)
    case Deref(x) => Keys(x, owner, m, binding)
    case _ => {}
  }

  /** What storage an expression's storage is a part of; an index is none of it. */
  function Part(n: Node): Option<Node> {
    match n
    case RefAttr(base, _) => Some(base)
    case Field(base, _) => Some(base)
    case Row(table, _) => Some(table)
    case Wrap(x) => Some(x)
    case Deref(x) => Some(x)
    case _ => None
  }

  predicate Ancestor(x: Node, n: Node)
    decreases n
  {
    x == n || (Part(n).Some? && Ancestor(x, Part(n).value))
  }

  /** The key of a variable or an attribute; a binding to a parameter, or to a variable of a generic
      type, is none of the variable itself. */
  function OwnKey(n: Node, owner: nat, m: Method, binding: bool): Option<Key> {
    match n
    case Var(name, ref) =>
      if binding && (ref || name in m.params + m.handles) then None else Some(LocalKey(owner, name))
    case Attr(name) => Some(AttrKey(name))
    case Static(_, name) => Some(AttrKey(name))
    case RefAttr(_, name) => Some(AttrKey(name))
    case _ => None
  }

  /** The keys of an expression are those of its storage ancestry, and no others. */
  lemma {:induction false} KeysAreAncestry(n: Node, owner: nat, m: Method, binding: bool, k: Key)
    ensures k in Keys(n, owner, m, binding) <==> exists x :: Ancestor(x, n) && OwnKey(x, owner, m, binding) == Some(k)
    decreases n
  {
    assert Ancestor(n, n);
    if Part(n).Some? {
      var part := Part(n).value;
      KeysAreAncestry(part, owner, m, binding, k);
      if x :| Ancestor(x, part) && OwnKey(x, owner, m, binding) == Some(k) {
        assert Ancestor(x, n);
      }
    }
  }

  function Operands(nodes: seq<Node>): (os: seq<Option<Node>>)
    ensures forall x :: x in nodes <==> Some(x) in os
    ensures None !in os
  {
    if nodes == [] then [] else [Some(nodes[0])] + Operands(nodes[1..])
  }

  /** What a node binds a reference to; nothing is known of a dereferenced or a dynamic one. */
  function Bound(n: Node): seq<Option<Node>> {
    match n
    case AssignDeref(_) => [None]
    case AssignComp(_, from) => [None, Some(from)]
    case GetRef(_, value) => [Some(value)]
    case AssignData(value) => [Some(value)]
    case Read(table, _, fs, refInto) => if fs || refInto then [Some(table)] else []
    case Append(table, rows, fs, refInto) => if fs || refInto then Operands([table] + rows) else []
    case Loop(table, fs, start, _) => if fs then Operands([table] + start) else []
    case _ => []
  }

  /** The actuals that a callee can keep a reference to: all but those passed by value. */
  function Passed(args: seq<Node>): (ps: seq<Node>)
    ensures forall a :: a in args && a.Arg? && !(a.importing && a.byValue) ==> a.value in ps
  {
    if args == [] then []
    else
      var a := args[0];
      (if a.Arg? && !(a.importing && a.byValue) then [a.value] else []) + Passed(args[1..])
  }

  function Escapes(n: Node): seq<Node> {
    match n
    case New(args) => Passed(args)
    case Call(args, receiving) => Passed(args) + receiving
    case CallDyn(args, receiving) => Passed(args) + receiving
    case CallFm(args) => Passed(args)
    case AssignComp(_, from) => [from]
    case _ => []
  }

  function AllKeys(attributes: set<Name>): set<Key> { set a | a in attributes :: AttrKey(a) }

  function KeysNamed(name: Option<Name>, attributes: set<Name>): set<Key> {
    match name case None => AllKeys(attributes) case Some(a) => {AttrKey(a)}
  }

  function KeysOfNames(names: seq<Option<Name>>, attributes: set<Name>): set<Key> {
    if names == [] then {} else KeysNamed(names[0], attributes) + KeysOfNames(names[1..], attributes)
  }

  /** Attributes reached by name at run time. */
  function Named(n: Node, attributes: set<Name>): set<Key> {
    match n
    case AssignName(literal) => KeysNamed(literal, attributes)
    case Stub(names) => KeysOfNames(names, attributes)
    case _ => {}
  }

  function KeysOf(operand: Option<Node>, owner: nat, m: Method): set<Key> {
    match operand case None => {} case Some(x) => Keys(x, owner, m, true)
  }

  function TaintedBy(n: Node, owner: nat, m: Method): set<Key> {
    set o, k | o in Bound(n) && k in KeysOf(o, owner, m) :: k
  }

  function EscapedBy(n: Node, owner: nat, p: Program): set<Key>
    requires owner < |p.bodies|
  {
    (set e, k | e in Escapes(n) && k in Keys(e, owner, p.bodies[owner], false) :: k) + Named(n, p.attributes)
  }

  ghost predicate Taints(p: Program, i: nat, k: Key)
    requires i < |p.bodies|
  {
    exists n | n in WalkBody(p.bodies[i].body) :: k in TaintedBy(n, i, p.bodies[i])
  }

  ghost predicate LetsEscape(p: Program, i: nat, k: Key)
    requires i < |p.bodies|
  {
    exists n | n in WalkBody(p.bodies[i].body) :: k in EscapedBy(n, i, p)
  }

  /** Some body before the `i`-th does. */
  ghost predicate TaintedBefore(p: Program, i: nat, k: Key)
    requires i <= |p.bodies|
  {
    i > 0 && (TaintedBefore(p, i - 1, k) || Taints(p, i - 1, k))
  }

  ghost predicate EscapedBefore(p: Program, i: nat, k: Key)
    requires i <= |p.bodies|
  {
    i > 0 && (EscapedBefore(p, i - 1, k) || LetsEscape(p, i - 1, k))
  }

  /** Some body binds a reference to storage of this key. */
  ghost predicate IsTainted(p: Program, k: Key) { TaintedBefore(p, |p.bodies|, k) }

  ghost predicate IsEscaped(p: Program, k: Key) { EscapedBefore(p, |p.bodies|, k) }

  lemma {:induction false} RecordedBefore(p: Program, j: nat, i: nat, k: Key)
    requires j < i <= |p.bodies|
    ensures Taints(p, j, k) ==> TaintedBefore(p, i, k)
    ensures LetsEscape(p, j, k) ==> EscapedBefore(p, i, k)
    decreases i
  {
    if j < i - 1 {
      RecordedBefore(p, j, i - 1, k);
    }
  }

  /** Each key, with the body that binds or passes it first. */
  class Analysis {
    var tainted: map<Key, nat>
    var escaped: map<Key, nat>

    constructor ()
      ensures tainted == map[] && escaped == map[]
    {
      tainted, escaped := map[], map[];
    }

    method RecordTainted(storage: set<Key>, origin: nat)
      modifies this`tainted
      ensures tainted == old(tainted) + map k | k in storage && k !in old(tainted) :: origin
    {
      tainted := tainted + map k | k in storage && k !in tainted :: origin;
    }

    method RecordEscaped(storage: set<Key>, origin: nat)
      modifies this`escaped
      ensures escaped == old(escaped) + map k | k in storage && k !in old(escaped) :: origin
    {
      escaped := escaped + map k | k in storage && k !in escaped :: origin;
    }

    method AnalyzeBody(p: Program, i: nat)
      requires i < |p.bodies|
      modifies this
      ensures forall k :: k in tainted <==> k in old(tainted) || Taints(p, i, k)
      ensures forall k :: k in escaped <==> k in old(escaped) || LetsEscape(p, i, k)
      ensures forall k | k in tainted :: tainted[k] == if k in old(tainted) then old(tainted[k]) else i
      ensures forall k | k in escaped :: escaped[k] == if k in old(escaped) then old(escaped[k]) else i
    {
      var nodes := WalkBody(p.bodies[i].body);
      for j := 0 to |nodes|
        invariant forall k :: k in tainted <==>
                    k in old(tainted) || exists n | n in nodes[..j] :: k in TaintedBy(n, i, p.bodies[i])
        invariant forall k :: k in escaped <==>
                    k in old(escaped) || exists n | n in nodes[..j] :: k in EscapedBy(n, i, p)
        invariant forall k | k in tainted :: tainted[k] == if k in old(tainted) then old(tainted[k]) else i
        invariant forall k | k in escaped :: escaped[k] == if k in old(escaped) then old(escaped[k]) else i
      {
        assert nodes[..j + 1] == nodes[..j] + [nodes[j]];
        RecordTainted(TaintedBy(nodes[j], i, p.bodies[i]), i);
        RecordEscaped(EscapedBy(nodes[j], i, p), i);
      }
      assert nodes[..|nodes|] == nodes;
    }

    method Analyze(p: Program)
      requires tainted == map[] && escaped == map[]
      modifies this
      ensures forall k :: k in tainted <==> IsTainted(p, k)
      ensures forall k :: k in escaped <==> IsEscaped(p, k)
      ensures forall k | k in tainted :: tainted[k] < |p.bodies| && Taints(p, tainted[k], k)
      ensures forall k | k in escaped :: escaped[k] < |p.bodies| && LetsEscape(p, escaped[k], k)
    {
      for i := 0 to |p.bodies|
        invariant forall k :: k in tainted <==> TaintedBefore(p, i, k)
        invariant forall k :: k in escaped <==> EscapedBefore(p, i, k)
        invariant forall k | k in tainted :: tainted[k] < i && Taints(p, tainted[k], k)
        invariant forall k | k in escaped :: escaped[k] < i && LetsEscape(p, escaped[k], k)
      {
        AnalyzeBody(p, i);
      }
    }
  }

  // ---- Paths

  datatype Root = VarRoot(name: Name) | Me | StaticRoot(owner: nat) | ObjectRoot(name: Name)

  datatype Path = Path(root: Root, names: seq<Name>)

  function MovePath(n: Node): Option<Path> {
    match n
    case Field(base, name) =>
      (match MovePath(base) case None => None case Some(p) => Some(Path(p.root, p.names + [name])))
    case Var(name, ref) => if ref then None else Some(Path(VarRoot(name), []))
    case Attr(name) => Some(Path(Me, [name]))
    case Static(owner, name) => Some(Path(StaticRoot(owner), [name]))
    case RefAttr(base, name) =>
      if base.Var? && !base.ref then Some(Path(ObjectRoot(base.name), [name])) else None
    case _ => None
  }

  /** Components of a variable, of an attribute of the own object or of an object in a variable, or
      of a static attribute; none of them by reference. */
  predicate IsPath(n: Node) {
    match n
    case Field(base, _) => IsPath(base)
    case Var(_, ref) => !ref
    case Attr(_) => true
    case Static(_, _) => true
    case RefAttr(base, _) => base.Var? && !base.ref
    case _ => false
  }

  lemma {:induction false} PathsAreRead(n: Node)
    ensures MovePath(n).Some? <==> IsPath(n)
  {
    if n.Field? {
      PathsAreRead(n.base);
    }
  }

  predicate OfObject(r: Root) { r.Me? || r.ObjectRoot? }

  predicate RootsOverlap(a: Option<Path>, b: Option<Path>) {
    a.Some? && b.Some? && (a.value.root == b.value.root || (OfObject(a.value.root) && OfObject(b.value.root)))
  }

  /** A binding in the body that the source's root cannot be told apart from. */
  predicate BindsRoot(n: Node, source: Path) {
    exists o | o in Bound(n) ::
      match o case None => true case Some(x) => MovePath(x).None? || RootsOverlap(MovePath(x), Some(source))
  }

  predicate MoveBound(source: Path, body: seq<Node>) {
    exists n | n in WalkBody(body) :: BindsRoot(n, source)
  }

  // ---- The decision

  datatype Verdict =
    | NotAPair | Alias | OtherType | KeyedTable | InLoop | BoundHere | StableRows
    | BoundStorage | EscapedStorage | ObjectRoots | Moved

  function Unwrap(n: Node): Node {
    if n.Seq? && |n.body| == 1 then Unwrap(n.body[0]) else n
  }

  /** `previous` made the object that a new name stands for. */
  predicate JustMade(previous: Option<Node>, name: Name) {
    && previous.Some?
    && previous.value.Assign?
    && previous.value.target.Var?
    && previous.value.target.name == name
    && previous.value.value.New?
  }

  /** Two object references can name the same object; a fresh object and `me` are distinct. */
  predicate RootsDistinct(a: Root, b: Root, previous: Option<Node>) {
    if !a.ObjectRoot? && !b.ObjectRoot? then true
    else
      var (obj, other) := if a.ObjectRoot? then (a, b) else (b, a);
      !other.ObjectRoot? && (if other.Me? then JustMade(previous, obj.name) else other.VarRoot?)
  }

  function Decide(p: Program, tainted: set<Key>, escaped: set<Key>, owner: nat, loops: seq<Node>,
                  previous: Option<Node>, st: Node, following: Node): Verdict
    requires owner < |p.bodies|
  {
    var m := p.bodies[owner];
    var next := Unwrap(following);
    if !st.Assign? || !next.Clear? || !st.targetType.table then NotAPair
    else
      var a, b, cleared := MovePath(st.target), MovePath(st.value), MovePath(next.target);
      if a.None? || b.None? || b != cleared || a.value.root == b.value.root then Alias
      else if st.targetType != st.valueType then OtherType
      else if st.valueType.table && st.valueType.keyed then KeyedTable
      else if exists l | l in loops :: l.Loop? && RootsOverlap(MovePath(l.table), b) then InLoop
      else if MoveBound(b.value, m.body) then BoundHere
      else if st.valueType.stable then StableRows
      else
        var keys := Keys(st.value, owner, m, false);
        if exists k | k in keys :: k in tainted then BoundStorage
        else if exists k | k in keys :: k in escaped then EscapedStorage
        else if !RootsDistinct(a.value.root, b.value.root, previous) then ObjectRoots
        else Moved
  }

  // ---- It does move

  /** A plain pair: a standard table assigned, then the source cleared. */
  function PairOf(target: Node, value: Node, t: Type): (Node, Node) { (Assign(target, value, t, t), Clear(value)) }

  predicate IsStandard(t: Type) { t.table && !t.keyed && !t.stable }

  /** Storage that no body binds or passes on, and a body without bindings. */
  ghost predicate Untouched(p: Program, tainted: set<Key>, escaped: set<Key>, owner: nat, value: Node)
    requires owner < |p.bodies|
  {
    && (forall n | n in WalkBody(p.bodies[owner].body) :: Bound(n) == [])
    && Keys(value, owner, p.bodies[owner], false) !! tainted + escaped
  }

  // ---- What `Decide` comes to in the two forms that the pass is for

  /** One local table into another is handed over, unless something could refer to the source. */
  lemma LocalsAreMoved(
    p: Program, tainted: set<Key>, escaped: set<Key>, owner: nat, x: Name, y: Name, t: Type, previous: Option<Node>)
    requires owner < |p.bodies| && x != y && IsStandard(t) && Untouched(p, tainted, escaped, owner, Var(y, false))
    ensures var (st, next) := PairOf(Var(x, false), Var(y, false), t);
            Decide(p, tainted, escaped, owner, [], previous, st, next) == Moved
  {
    assert !MoveBound(Path(VarRoot(y), []), p.bodies[owner].body);
  }

  /** So is an attribute of `me` into an object just made, and into no other object. */
  lemma OnlyFreshObjectsTakeMine(
    p: Program, tainted: set<Key>, escaped: set<Key>, owner: nat, o: Name, x: Name, y: Name, t: Type,
    previous: Option<Node>)
    requires owner < |p.bodies| && IsStandard(t) && Untouched(p, tainted, escaped, owner, Attr(y))
    ensures var (st, next) := PairOf(RefAttr(Var(o, false), x), Attr(y), t);
            Decide(p, tainted, escaped, owner, [], previous, st, next) == Moved <==> JustMade(previous, o)
  {
    assert !MoveBound(Path(Me, [y]), p.bodies[owner].body);
  }
}
