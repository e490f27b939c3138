/** Runs of a program that hands rows over where the analysis says so, against runs that copy. */
module TableMoveRuns {
  import opened Basics
  import opened TableMemory
  import opened TableMove

  // ---- Activations, and the storage an expression denotes

  /** Who entered an activation: the host, or a call in another activation. */
  datatype Caller = Host | CalledBy(frame: nat, call: Node)

  /** An activation: its object, the object counter when it began, what its reference variables
      hold, and the statement it has just completed. */
  datatype Frame = Frame(body: nat, caller: Caller, me: nat, born: nat, objs: map<Name, nat>, last: Option<Node>)

  datatype Control = Control(frames: seq<Frame>, nextObj: nat)

  ghost predicate PinnedAt(pins: map<Pin, Option<Loc>>, p: Pin, l: Loc) { p in pins && pins[p] == Some(l) }

  ghost predicate Denotes(p: Program, c: Control, pins: map<Pin, Option<Loc>>, f: nat, e: Node, l: Loc)
    requires f < |c.frames| && c.frames[f].body < |p.bodies|
    decreases e
  {
    var frame := c.frames[f];
    match e
    case Var(name, ref) =>
      || (!ref && l == Loc(LocalSlot(f, name), []))
      || ((ref || name in p.bodies[frame.body].handles) && PinnedAt(pins, FrameVar(f, name), l))
    case Fs(name) => PinnedAt(pins, FrameVar(f, name), l)
    case Deref(_) => exists q :: PinnedAt(pins, q, l)
    case Attr(name) => l == Loc(AttrSlot(frame.me, name), [])
    case Static(owner, name) => l == Loc(StaticSlot(owner, name), [])
    case RefAttr(base, name) =>
      && l.slot.AttrSlot? && l == Loc(AttrSlot(l.slot.obj, name), [])
      && (base.Var? && !base.ref ==> base.name in frame.objs && l.slot.obj == frame.objs[base.name])
    case Field(base, name) =>
      l.path != [] && l.path[|l.path| - 1] == name && Denotes(p, c, pins, f, base, Loc(l.slot, l.path[..|l.path| - 1]))
    case Row(table, _) =>
      l.path != [] && Denotes(p, c, pins, f, table, Loc(l.slot, l.path[..|l.path| - 1]))
    case Wrap(x) => Denotes(p, c, pins, f, x, l)
    case _ => false
  }

  function SlotKey(c: Control, slot: Slot): Key
    requires slot.LocalSlot? ==> slot.frame < |c.frames|
  {
    match slot
    case LocalSlot(f, name) => LocalKey(c.frames[f].body, name)
    case AttrSlot(_, name) => AttrKey(name)
    case StaticSlot(_, name) => AttrKey(name)
  }

  // ---- What the language lets a statement refer to, whatever the analysis makes of it

  /** A row or a component of what an expression denotes. */
  ghost predicate PartOf(p: Program, c: Control, pins: map<Pin, Option<Loc>>, f: nat, e: Node, l: Loc)
    requires f < |c.frames| && c.frames[f].body < |p.bodies|
  {
    l.path != [] && Denotes(p, c, pins, f, e, Loc(l.slot, l.path[..|l.path| - 1]))
  }

  /** An attribute of some object or class; any attribute there is when its name is computed. */
  predicate IsAttribute(p: Program, name: Option<Name>, l: Loc) {
    && !l.slot.LocalSlot? && l.path == []
    && match name case Some(n) => l.slot.name == n case None => l.slot.name in p.attributes
  }

  /** A field symbol or reference that the statement sets can be set to `l`: a data object, a row of
      the table that is looped over, read or appended to, a component, an attribute found by name, or
      what a stored reference leads to. */
  ghost predicate RefersTo(p: Program, c: Control, pins: map<Pin, Option<Loc>>, f: nat, n: Node, l: Loc)
    requires f < |c.frames| && c.frames[f].body < |p.bodies|
  {
    match n
    case GetRef(_, value) => Denotes(p, c, pins, f, value, l)
    case AssignData(value) => Denotes(p, c, pins, f, value, l)
    case Loop(table, fs, _, _) => fs && PartOf(p, c, pins, f, table, l)
    case Read(table, _, fs, refInto) => (fs || refInto) && PartOf(p, c, pins, f, table, l)
    case Append(table, _, fs, refInto) => (fs || refInto) && PartOf(p, c, pins, f, table, l)
    case AssignDeref(_) => exists q, base :: PinnedAt(pins, q, base) && Under(base, l)
    case AssignComp(_, from) => PartOf(p, c, pins, f, from, l)
    case AssignName(literal) => IsAttribute(p, literal, l)
    case Stub(named) => exists name | name in named :: IsAttribute(p, name, l)
    case _ => false
  }

  predicate IsCall(n: Node) { n.New? || n.Call? || n.CallDyn? || n.CallFm? }

  function ArgsOf(n: Node): seq<Node>
    requires IsCall(n)
  {
    match n
    case New(args) => args
    case Call(args, _) => args
    case CallDyn(args, _) => args
    case CallFm(args) => args
  }

  /** A formal of a call can be the storage `l`: that of an actual not imported by value, or of the
      target that receives the result. */
  ghost predicate FormalIs(p: Program, c: Control, pins: map<Pin, Option<Loc>>, f: nat, n: Node, formal: Name, l: Loc)
    requires f < |c.frames| && c.frames[f].body < |p.bodies| && IsCall(n)
  {
    || (exists a | a in ArgsOf(n) ::
          a.Arg? && a.name == formal && !(a.importing && a.byValue) && Denotes(p, c, pins, f, a.value, l))
    || ((n.Call? || n.CallDyn?) && exists target | target in n.receiving :: Denotes(p, c, pins, f, target, l))
  }

  // ---- What the analysis knows

  /** The analysis knows that references to this storage can exist. */
  ghost predicate Accounted(p: Program, c: Control, slot: Slot) {
    && (slot.LocalSlot? ==> slot.frame < |c.frames| && c.frames[slot.frame].body < |p.bodies|)
    && (|| IsTainted(p, SlotKey(c, slot))
        || IsEscaped(p, SlotKey(c, slot))
        || (slot.LocalSlot? &&
            MoveBound(Path(VarRoot(slot.name), []), p.bodies[c.frames[slot.frame].body].body)))
  }

  // ---- Steps

  /** Statements run in any order, in any activation, as long as each is in the body it runs in.
      `Pair` is two statements that the analysis lets hand over rows: the first stores what `b` holds,
      converted, at `a`, and the second empties `cleared`, if it is a clear. */
  datatype Step =
    | Create(slot: Slot, content: Content, ids: seq<nat> -> nat)
    | Write(l: Loc, content: Content, ids: seq<nat> -> nat)
    | WriteThrough(pin: Pin, content: Content, ids: seq<nat> -> nat)
    | Refer(f: nat, n: Node, l: Loc, pin: Pin)
    | ReferThrough(from: Pin, l: Loc, pin: Pin)
    | Enter(body: nat, caller: Caller, me: nat)
    | Pass(frame: nat, formal: Name, l: Loc)
    | NewObject
    | Made(f: nat, n: Node, obj: nat)
    | Elapse(f: nat, last: Node, objs: map<Name, nat>)
    | Pair(f: nat, loops: seq<Node>, previous: Option<Node>, st: Node, following: Node,
           a: Loc, b: Loc, converted: Content, cleared: Loc)

  ghost predicate InFrame(p: Program, c: Control, f: nat) { f < |c.frames| && c.frames[f].body < |p.bodies| }

  ghost predicate RunsIn(p: Program, c: Control, f: nat, n: Node) {
    InFrame(p, c, f) && Occurs(n, p.bodies[c.frames[f].body].body)
  }

  ghost predicate CallerOk(p: Program, c: Control, caller: Caller) {
    caller.CalledBy? ==> RunsIn(p, c, caller.frame, caller.call) && IsCall(caller.call)
  }

  /** A path to a table starts at a table or a structure, not at a generic variable. */
  predicate StartsPlain(e: Node, handles: set<Name>) {
    match e
    case Var(name, _) => name !in handles
    case Field(base, _) => StartsPlain(base, handles)
    case _ => true
  }

  /** What a statement empties, a block of one statement being that statement. */
  function ClearedBy(n: Node): Option<Node> {
    match n
    case Clear(target) => Some(target)
    case Seq(body) => if |body| == 1 then ClearedBy(body[0]) else None
    case _ => None
  }

  /** An assignment between standard tables of one type stores the values as they are; another one
      converts them, or makes anew what a keyed table keeps beside its rows. */
  predicate KeepsValues(st: Node)
    requires st.Assign?
  {
    st.targetType == st.valueType && !st.targetType.keyed
  }

  /** `obj = NEW ...` */
  predicate Makes(n: Node) { n.Assign? && n.target.Var? && n.value.New? }

  /** `tainted` and `escaped` are what the analysis has found. */
  ghost predicate Enabled(p: Program, tainted: set<Key>, escaped: set<Key>, c: Control, m: MState, v: VState, s: Step) {
    match s
    case Create(slot, content, ids) =>
      Fresh(m, ids) && content([]).Some? && forall k: Loc | k.slot == slot :: v.vals(k).None?
    case Write(l, content, ids) => Fresh(m, ids) && content([]).Some? && v.vals(l).Some?
    case WriteThrough(pin, content, ids) =>
      Fresh(m, ids) && content([]).Some? && pin in v.pins && v.pins[pin].Some?
    case Refer(f, n, l, pin) => RunsIn(p, c, f, n) && RefersTo(p, c, v.pins, f, n, l) && v.vals(l).Some?
    case ReferThrough(from, l, pin) =>
      from in v.pins && v.pins[from].Some? && Under(v.pins[from].value, l) && v.vals(l).Some?
    case Enter(body, caller, me) => body < |p.bodies| && me < c.nextObj && CallerOk(p, c, caller)
    case Pass(frame, formal, l) =>
      && frame < |c.frames| && CallerOk(p, c, c.frames[frame].caller) && c.frames[frame].caller.CalledBy?
      && FormalIs(p, c, v.pins, c.frames[frame].caller.frame, c.frames[frame].caller.call, formal, l)
      && v.vals(l).Some?
    case NewObject => true
    case Made(f, n, obj) => RunsIn(p, c, f, n) && Makes(n) && c.frames[f].born <= obj < c.nextObj
    case Elapse(f, last, objs) => RunsIn(p, c, f, last) && !Makes(last)
    case Pair(f, loops, previous, st, following, a, b, converted, cleared) =>
      && InFrame(p, c, f) && (previous.Some? ==> c.frames[f].last == previous)
      && Decide(p, tainted, escaped, c.frames[f].body, loops, previous, st, following) == Moved
      && StartsPlain(st.target, p.bodies[c.frames[f].body].handles)
      && StartsPlain(st.value, p.bodies[c.frames[f].body].handles)
      && Denotes(p, c, v.pins, f, st.target, a) && Denotes(p, c, v.pins, f, st.value, b)
      && v.vals(a).Some? && v.vals(b).Some?
      && converted([]).Some? && (KeepsValues(st) ==> converted == ContentV(v.vals, b))
      && (ClearedBy(following).Some? ==>
            && Denotes(p, c, PinsAfter(a, v.pins), f, ClearedBy(following).value, cleared)
            && WriteV(v, a, converted).vals(cleared).Some?)
  }

  function Advance(c: Control, s: Step): Control {
    match s
    case Enter(body, caller, me) => c.(frames := c.frames + [Frame(body, caller, me, c.nextObj, map[], None)])
    case NewObject => c.(nextObj := c.nextObj + 1)
    case Made(f, n, obj) =>
      if f < |c.frames| && Makes(n)
      then c.(frames := c.frames[f := c.frames[f].(objs := c.frames[f].objs[n.target.name := obj], last := Some(n))])
      else c
    case Elapse(f, last, objs) =>
      if f < |c.frames| then c.(frames := c.frames[f := c.frames[f].(objs := objs, last := Some(last))]) else c
    case _ => c
  }

  function ThenClearV(v: VState, following: Node, cleared: Loc): VState {
    if ClearedBy(following).Some? then WriteV(v, cleared, Empty()) else v
  }

  ghost function ThenClearM(m: MState, following: Node, cleared: Loc): MState {
    if ClearedBy(following).Some? then WriteM(m, IdAt(m, cleared), Empty(), (r: seq<nat>) => 0) else m
  }

  function ApplyV(v: VState, s: Step): VState {
    match s
    case Create(slot, content, _) => CreateV(v, slot, content)
    case Write(l, content, _) => WriteV(v, l, content)
    case WriteThrough(pin, content, _) =>
      if pin in v.pins && v.pins[pin].Some? then WriteV(v, v.pins[pin].value, content) else v
    case Refer(_, _, l, pin) => v.(pins := v.pins[pin := Some(l)])
    case ReferThrough(_, l, pin) => v.(pins := v.pins[pin := Some(l)])
    case Pass(frame, formal, l) => v.(pins := v.pins[FrameVar(frame, formal) := Some(l)])
    case Pair(_, _, _, _, following, a, _, converted, cleared) =>
      ThenClearV(WriteV(v, a, converted), following, cleared)
    case _ => v
  }

  function IdAt(m: MState, l: Loc): nat { match m.mem(l) case None => 0 case Some(c) => c.id }

  ghost function ApplyM(m: MState, s: Step): MState {
    match s
    case Create(slot, content, ids) => CreateM(m, slot, content, ids)
    case Write(l, content, ids) => WriteM(m, IdAt(m, l), content, ids)
    case WriteThrough(pin, content, ids) => if pin in m.pins then WriteM(m, m.pins[pin], content, ids) else m
    case Refer(_, _, l, pin) => m.(pins := m.pins[pin := IdAt(m, l)])
    case ReferThrough(_, l, pin) => m.(pins := m.pins[pin := IdAt(m, l)])
    case Pass(frame, formal, l) => m.(pins := m.pins[FrameVar(frame, formal) := IdAt(m, l)])
    case Pair(_, _, _, _, following, a, b, _, cleared) =>
      ThenClearM(MState(ShareRows(m.mem, IdAt(m, a), b), m.pins), following, cleared)
    case _ => m
  }

  // ---- What every run keeps

  ghost predicate FrameOk(p: Program, c: Control, f: Frame) {
    && f.body < |p.bodies| && f.me < f.born <= c.nextObj
    && (f.last.Some? && Makes(f.last.value) ==>
          f.last.value.target.name in f.objs && f.objs[f.last.value.target.name] >= f.born)
  }

  ghost predicate FramesOk(p: Program, c: Control) { forall f | 0 <= f < |c.frames| :: FrameOk(p, c, c.frames[f]) }

  ghost predicate PinsAccounted(p: Program, c: Control, pins: map<Pin, Option<Loc>>) {
    forall q | q in pins && pins[q].Some? :: Accounted(p, c, pins[q].value.slot)
  }

  ghost predicate Inv(p: Program, c: Control, v: VState) { FramesOk(p, c) && PinsAccounted(p, c, v.pins) }

  ghost predicate Found(p: Program, tainted: set<Key>, escaped: set<Key>) {
    forall k :: (k in tainted <==> IsTainted(p, k)) && (k in escaped <==> IsEscaped(p, k))
  }

  // ---- References are accounted for

  /** Where an expression leads: to storage with one of its keys, to storage that something refers
      to already, or to a variable of the activation that the expression starts with. */
  ghost predicate Reached(
    p: Program, c: Control, pins: map<Pin, Option<Loc>>, f: nat, e: Node, slot: Slot, binding: bool)
    requires f < |c.frames| && c.frames[f].body < |p.bodies|
  {
    || (exists q | q in pins && pins[q].Some? :: pins[q].value.slot == slot)
    || ((slot.LocalSlot? ==> slot.frame == f) &&
        (|| SlotKey(c, slot) in Keys(e, c.frames[f].body, p.bodies[c.frames[f].body], binding)
         || (binding && slot.LocalSlot? &&
             (MovePath(e).None? || MovePath(e).value.root == VarRoot(slot.name)))))
  }

  lemma {:induction false} DenotedIsReached(
    p: Program, c: Control, pins: map<Pin, Option<Loc>>, f: nat, e: Node, l: Loc, binding: bool)
    requires f < |c.frames| && c.frames[f].body < |p.bodies| && Denotes(p, c, pins, f, e, l)
    ensures Reached(p, c, pins, f, e, l.slot, binding)
    decreases e
  {
    match e
    case Field(base, name) => DenotedIsReached(p, c, pins, f, base, Loc(l.slot, l.path[..|l.path| - 1]), binding);
    case Row(table, _) => DenotedIsReached(p, c, pins, f, table, Loc(l.slot, l.path[..|l.path| - 1]), binding);
    case Wrap(x) => DenotedIsReached(p, c, pins, f, x, l, binding);
    case Var(name, ref) =>
      if l != Loc(LocalSlot(f, name), []) || ref {
        assert PinnedAt(pins, FrameVar(f, name), l);
      }
    case Fs(name) => assert PinnedAt(pins, FrameVar(f, name), l);
    case Deref(_) =>
      var q :| PinnedAt(pins, q, l);
      assert q in pins;
    case _ =>
  }

  lemma SameRootSameBindings(source: Path, other: Path, body: seq<Node>)
    requires source.root == other.root
    ensures MoveBound(source, body) == MoveBound(other, body)
  {
    forall n | n in WalkBody(body) ensures BindsRoot(n, source) == BindsRoot(n, other) {
      assert forall x: Node :: RootsOverlap(MovePath(x), Some(source)) == RootsOverlap(MovePath(x), Some(other));
    }
  }

  /** A binding of storage of the activation's own variable is one the body is searched for. */
  lemma BoundIsSearched(n: Node, e: Node, name: Name, body: seq<Node>)
    requires Occurs(n, body) && Some(e) in Bound(n)
    requires MovePath(e).None? || MovePath(e).value.root == VarRoot(name)
    ensures MoveBound(Path(VarRoot(name), []), body)
  {
    WalkBodyReaches(n, body);
    assert BindsRoot(n, Path(VarRoot(name), []));
  }

  lemma BoundIsAccounted(p: Program, c: Control, pins: map<Pin, Option<Loc>>, f: nat, n: Node, e: Node, l: Loc)
    requires PinsAccounted(p, c, pins) && RunsIn(p, c, f, n) && Denotes(p, c, pins, f, e, l)
    requires Some(e) in Bound(n)
    ensures Accounted(p, c, l.slot)
  {
    var i := c.frames[f].body;
    DenotedIsReached(p, c, pins, f, e, l, true);
    if q :| q in pins && pins[q].Some? && pins[q].value.slot == l.slot {
    } else if SlotKey(c, l.slot) in Keys(e, i, p.bodies[i], true) {
      WalkBodyReaches(n, p.bodies[i].body);
      assert SlotKey(c, l.slot) in KeysOf(Some(e), i, p.bodies[i]);
      assert SlotKey(c, l.slot) in TaintedBy(n, i, p.bodies[i]);
      assert Taints(p, i, SlotKey(c, l.slot));
      RecordedBefore(p, i, |p.bodies|, SlotKey(c, l.slot));
    } else {
      BoundIsSearched(n, e, l.slot.name, p.bodies[i].body);
    }
  }

  lemma EscapeIsRecorded(p: Program, i: nat, n: Node, k: Key)
    requires i < |p.bodies| && Occurs(n, p.bodies[i].body) && k in EscapedBy(n, i, p)
    ensures IsEscaped(p, k)
  {
    WalkBodyReaches(n, p.bodies[i].body);
    assert LetsEscape(p, i, k);
    RecordedBefore(p, i, |p.bodies|, k);
  }

  lemma PassedIsAccounted(p: Program, c: Control, pins: map<Pin, Option<Loc>>, f: nat, n: Node, e: Node, l: Loc)
    requires PinsAccounted(p, c, pins) && RunsIn(p, c, f, n) && Denotes(p, c, pins, f, e, l)
    requires e in Escapes(n)
    ensures Accounted(p, c, l.slot)
  {
    var i := c.frames[f].body;
    DenotedIsReached(p, c, pins, f, e, l, false);
    if q :| q in pins && pins[q].Some? && pins[q].value.slot == l.slot {
    } else {
      assert SlotKey(c, l.slot) in EscapedBy(n, i, p);
      EscapeIsRecorded(p, i, n, SlotKey(c, l.slot));
    }
  }

  lemma NamedIsAccounted(p: Program, c: Control, f: nat, n: Node, name: Option<Name>, l: Loc)
    requires RunsIn(p, c, f, n) && IsAttribute(p, name, l)
    requires KeysNamed(name, p.attributes) <= Named(n, p.attributes)
    ensures Accounted(p, c, l.slot)
  {
    assert SlotKey(c, l.slot) in KeysNamed(name, p.attributes);
    EscapeIsRecorded(p, c.frames[f].body, n, SlotKey(c, l.slot));
  }

  lemma {:induction false} NamesAreKeys(names: seq<Option<Name>>, name: Option<Name>, attributes: set<Name>)
    requires name in names
    ensures KeysNamed(name, attributes) <= KeysOfNames(names, attributes)
    decreases |names|
  {
    if name != names[0] {
      NamesAreKeys(names[1..], name, attributes);
    }
  }

  /** Whatever a statement can set a field symbol or a reference to, the analysis has recorded. */
  lemma ReferenceIsAccounted(p: Program, c: Control, pins: map<Pin, Option<Loc>>, f: nat, n: Node, l: Loc)
    requires PinsAccounted(p, c, pins) && RunsIn(p, c, f, n) && RefersTo(p, c, pins, f, n, l)
    ensures Accounted(p, c, l.slot)
  {
    var parent := if l.path == [] then l else Loc(l.slot, l.path[..|l.path| - 1]);
    match n
    case GetRef(_, value) => BoundIsAccounted(p, c, pins, f, n, value, l);
    case AssignData(value) => BoundIsAccounted(p, c, pins, f, n, value, l);
    case Loop(table, _, _, _) => BoundIsAccounted(p, c, pins, f, n, table, parent);
    case Read(table, _, _, _) => BoundIsAccounted(p, c, pins, f, n, table, parent);
    case Append(table, _, _, _) => BoundIsAccounted(p, c, pins, f, n, table, parent);
    case AssignDeref(_) =>
      var q, base :| PinnedAt(pins, q, base) && Under(base, l);
      assert q in pins && pins[q].Some?;
    case AssignComp(_, from) => PassedIsAccounted(p, c, pins, f, n, from, parent);
    case AssignName(literal) => NamedIsAccounted(p, c, f, n, literal, l);
    case Stub(named) =>
      var name :| name in named && IsAttribute(p, name, l);
      NamesAreKeys(named, name, p.attributes);
      NamedIsAccounted(p, c, f, n, name, l);
  }

  /** Whatever a callee can get a reference to by one of its formals, the analysis has recorded. */
  lemma FormalIsAccounted(p: Program, c: Control, pins: map<Pin, Option<Loc>>, f: nat, n: Node, formal: Name, l: Loc)
    requires PinsAccounted(p, c, pins) && RunsIn(p, c, f, n) && IsCall(n) && FormalIs(p, c, pins, f, n, formal, l)
    ensures Accounted(p, c, l.slot)
  {
    if a :| a in ArgsOf(n) && a.Arg? && a.name == formal && !(a.importing && a.byValue)
            && Denotes(p, c, pins, f, a.value, l) {
      PassedIsAccounted(p, c, pins, f, n, a.value, l);
    } else {
      var target :| target in n.receiving && Denotes(p, c, pins, f, target, l);
      PassedIsAccounted(p, c, pins, f, n, target, l);
    }
  }

  // ---- What the pass refuses beyond that

  /** An operand, `table`, `value` or `from`, of a statement that sets a field symbol or a
      reference. */
  predicate IsOperand(n: Node, e: Node) {
    match n
    case GetRef(_, value) => e == value
    case AssignData(value) => e == value
    case Loop(table, fs, start, _) => fs && (e == table || e in start)
    case Read(table, _, fs, refInto) => (fs || refInto) && e == table
    case Append(table, rows, fs, refInto) => (fs || refInto) && (e == table || e in rows)
    case AssignComp(_, from) => e == from
    case _ => false
  }

  lemma OperandsAreBound(n: Node, e: Node)
    ensures IsOperand(n, e) <==> Some(e) in Bound(n)
  {
  }

  /** A body with an operand of which `k` is a key. */
  ghost predicate HasOperand(p: Program, i: nat, k: Key)
    requires i < |p.bodies|
  {
    exists n, e :: Occurs(n, p.bodies[i].body) && IsOperand(n, e) && k in Keys(e, i, p.bodies[i], true)
  }

  lemma TaintsIffOperand(p: Program, i: nat, k: Key)
    requires i < |p.bodies|
    ensures Taints(p, i, k) <==> HasOperand(p, i, k)
  {
    if Taints(p, i, k) {
      var n :| n in WalkBody(p.bodies[i].body) && k in TaintedBy(n, i, p.bodies[i]);
      var o :| o in Bound(n) && k in KeysOf(o, i, p.bodies[i]);
      WalkBodyReaches(n, p.bodies[i].body);
      OperandsAreBound(n, o.value);
    }
    if HasOperand(p, i, k) {
      var n, e :| Occurs(n, p.bodies[i].body) && IsOperand(n, e) && k in Keys(e, i, p.bodies[i], true);
      WalkBodyReaches(n, p.bodies[i].body);
      OperandsAreBound(n, e);
      assert k in KeysOf(Some(e), i, p.bodies[i]);
      assert k in TaintedBy(n, i, p.bodies[i]);
    }
  }

  /** Exactly the storage of such operands is taken as bound, all of it, whether or not a reference can
      lead there. */
  lemma TaintedIffOperand(p: Program, k: Key)
    ensures IsTainted(p, k) <==> exists i: nat :: i < |p.bodies| && HasOperand(p, i, k)
  {
    if IsTainted(p, k) {
      var i := RecordedSomewhere(p, |p.bodies|, k, true);
      TaintsIffOperand(p, i, k);
    }
    if i: nat :| i < |p.bodies| && HasOperand(p, i, k) {
      TaintsIffOperand(p, i, k);
      RecordedBefore(p, i, |p.bodies|, k);
    }
  }

  lemma {:induction false} RecordedSomewhere(p: Program, i: nat, k: Key, binding: bool) returns (j: nat)
    requires i <= |p.bodies| && if binding then TaintedBefore(p, i, k) else EscapedBefore(p, i, k)
    ensures j < i && if binding then Taints(p, j, k) else LetsEscape(p, j, k)
  {
    if if binding then Taints(p, i - 1, k) else LetsEscape(p, i - 1, k) {
      j := i - 1;
    } else {
      j := RecordedSomewhere(p, i - 1, k, binding);
    }
  }

  /** What a statement passes on: an actual that is not imported by value, the target of a result, or
      the structure of a component that is assigned. */
  predicate PassesOn(n: Node, e: Node) {
    || (IsCall(n) && exists a | a in ArgsOf(n) :: a.Arg? && !(a.importing && a.byValue) && a.value == e)
    || ((n.Call? || n.CallDyn?) && e in n.receiving)
    || (n.AssignComp? && n.from == e)
  }

  lemma {:induction false} PassedIffActual(args: seq<Node>, e: Node)
    ensures e in Passed(args) <==> exists a | a in args :: a.Arg? && !(a.importing && a.byValue) && a.value == e
    decreases |args|
  {
    if args != [] {
      PassedIffActual(args[1..], e);
      assert forall a :: a in args <==> a == args[0] || a in args[1..];
    }
  }

  lemma EscapesArePassed(n: Node, e: Node)
    ensures PassesOn(n, e) <==> e in Escapes(n)
  {
    if IsCall(n) {
      PassedIffActual(ArgsOf(n), e);
    }
  }

  predicate NamesKey(n: Node, k: Key, attributes: set<Name>) {
    && k.AttrKey?
    && match n
       case AssignName(literal) => IsNamed(literal, k.name, attributes)
       case Stub(names) => exists name | name in names :: IsNamed(name, k.name, attributes)
       case _ => false
  }

  predicate IsNamed(name: Option<Name>, a: Name, attributes: set<Name>) {
    match name case None => a in attributes case Some(b) => a == b
  }

  lemma {:induction false} NamesIffKeys(names: seq<Option<Name>>, k: Key, attributes: set<Name>)
    ensures k in KeysOfNames(names, attributes) <==>
            k.AttrKey? && exists name | name in names :: IsNamed(name, k.name, attributes)
    decreases |names|
  {
    if names != [] {
      NamesIffKeys(names[1..], k, attributes);
      assert forall n :: n in names <==> n == names[0] || n in names[1..];
      assert k in KeysNamed(names[0], attributes) <==> k.AttrKey? && IsNamed(names[0], k.name, attributes);
    }
  }

  lemma NamedIffNames(n: Node, k: Key, attributes: set<Name>)
    ensures k in Named(n, attributes) <==> NamesKey(n, k, attributes)
  {
    if n.Stub? {
      NamesIffKeys(n.named, k, attributes);
    }
  }

  ghost predicate LeavesBody(p: Program, i: nat, k: Key)
    requires i < |p.bodies|
  {
    exists n :: Occurs(n, p.bodies[i].body) && Leaves(p, i, k, n)
  }

  ghost predicate Leaves(p: Program, i: nat, k: Key, n: Node)
    requires i < |p.bodies|
  {
    NamesKey(n, k, p.attributes) || exists e :: PassesOn(n, e) && k in Keys(e, i, p.bodies[i], false)
  }

  lemma EscapedByIs(p: Program, i: nat, k: Key, n: Node)
    requires i < |p.bodies|
    ensures k in EscapedBy(n, i, p) <==> Leaves(p, i, k, n)
  {
    NamedIffNames(n, k, p.attributes);
    forall e ensures PassesOn(n, e) <==> e in Escapes(n) { EscapesArePassed(n, e); }
  }

  lemma LetsEscapeIffLeaves(p: Program, i: nat, k: Key)
    requires i < |p.bodies|
    ensures LetsEscape(p, i, k) <==> LeavesBody(p, i, k)
  {
    if LetsEscape(p, i, k) {
      var n :| n in WalkBody(p.bodies[i].body) && k in EscapedBy(n, i, p);
      WalkBodyReaches(n, p.bodies[i].body);
      EscapedByIs(p, i, k, n);
    }
    if LeavesBody(p, i, k) {
      var n :| Occurs(n, p.bodies[i].body) && Leaves(p, i, k, n);
      WalkBodyReaches(n, p.bodies[i].body);
      EscapedByIs(p, i, k, n);
    }
  }

  /** Exactly the storage that some statement passes on, or finds by name, is taken as passed on. */
  lemma EscapedIffPassedOn(p: Program, k: Key)
    ensures IsEscaped(p, k) <==> exists i: nat :: i < |p.bodies| && LeavesBody(p, i, k)
  {
    if IsEscaped(p, k) {
      var i := RecordedSomewhere(p, |p.bodies|, k, false);
      LetsEscapeIffLeaves(p, i, k);
    }
    if i: nat :| i < |p.bodies| && LeavesBody(p, i, k) {
      LetsEscapeIffLeaves(p, i, k);
      RecordedBefore(p, i, |p.bodies|, k);
    }
  }

  /** A body that binds a dereferenced or a dynamic component keeps all its copies. */
  lemma DynamicBindingsKeepCopies(p: Program, tainted: set<Key>, escaped: set<Key>, owner: nat, loops: seq<Node>,
                                  previous: Option<Node>, st: Node, following: Node, n: Node)
    requires owner < |p.bodies| && Occurs(n, p.bodies[owner].body) && (n.AssignDeref? || n.AssignComp?)
    ensures Decide(p, tainted, escaped, owner, loops, previous, st, following) != Moved
  {
    WalkBodyReaches(n, p.bodies[owner].body);
    assert None in Bound(n);
    assert forall source: Path :: BindsRoot(n, source);
  }

  // ---- A pair that is moved

  /** The storage a path leads to, by its root. */
  ghost predicate RootIs(c: Control, f: nat, r: Root, slot: Slot)
    requires f < |c.frames|
  {
    match r
    case VarRoot(name) => slot == LocalSlot(f, name)
    case Me => slot.AttrSlot? && slot.obj == c.frames[f].me
    case StaticRoot(owner) => slot.StaticSlot? && slot.owner == owner
    case ObjectRoot(name) => slot.AttrSlot? && name in c.frames[f].objs && slot.obj == c.frames[f].objs[name]
  }

  lemma {:induction false} PathRoot(p: Program, c: Control, pins: map<Pin, Option<Loc>>, f: nat, e: Node, l: Loc)
    requires InFrame(p, c, f) && Denotes(p, c, pins, f, e, l) && MovePath(e).Some?
    requires StartsPlain(e, p.bodies[c.frames[f].body].handles)
    ensures RootIs(c, f, MovePath(e).value.root, l.slot)
    ensures SlotKey(c, l.slot) in Keys(e, c.frames[f].body, p.bodies[c.frames[f].body], false)
    decreases e
  {
    if e.Field? {
      PathRoot(p, c, pins, f, e.base, Loc(l.slot, l.path[..|l.path| - 1]));
    }
  }

  /** Roots that the decision tells apart lead to different storage. */
  lemma DistinctRootsAreApart(
    p: Program, c: Control, f: nat, ra: Root, rb: Root, a: Slot, b: Slot, previous: Option<Node>)
    requires FramesOk(p, c) && InFrame(p, c, f) && (previous.Some? ==> c.frames[f].last == previous)
    requires ra != rb && RootsDistinct(ra, rb, previous) && RootIs(c, f, ra, a) && RootIs(c, f, rb, b)
    ensures a != b
  {
    assert FrameOk(p, c, c.frames[f]);
  }

  /** Nothing refers to storage that the analysis lets be moved. */
  lemma MovedIsUnaccounted(p: Program, tainted: set<Key>, escaped: set<Key>, c: Control, v: VState, s: Step)
    requires Found(p, tainted, escaped) && Inv(p, c, v) && s.Pair? && InFrame(p, c, s.f)
    requires Decide(p, tainted, escaped, c.frames[s.f].body, s.loops, s.previous, s.st, s.following) == Moved
    requires StartsPlain(s.st.value, p.bodies[c.frames[s.f].body].handles)
    requires Denotes(p, c, v.pins, s.f, s.st.value, s.b)
    ensures !Accounted(p, c, s.b.slot) && NoPinBelow(v, s.b)
  {
    var i, source := c.frames[s.f].body, MovePath(s.st.value).value;
    PathRoot(p, c, v.pins, s.f, s.st.value, s.b);
    var k := SlotKey(c, s.b.slot);
    assert k !in tainted && k !in escaped;
    if s.b.slot.LocalSlot? {
      SameRootSameBindings(source, Path(VarRoot(s.b.slot.name), []), p.bodies[i].body);
    }
    forall q | q in v.pins ensures PinAfter(s.b, v.pins[q]) == v.pins[q] {
      if v.pins[q].Some? {
        assert Accounted(p, c, v.pins[q].value.slot);
      }
    }
  }

  lemma MovedIsApart(p: Program, tainted: set<Key>, escaped: set<Key>, c: Control, v: VState, s: Step)
    requires Inv(p, c, v) && s.Pair? && InFrame(p, c, s.f) && (s.previous.Some? ==> c.frames[s.f].last == s.previous)
    requires Decide(p, tainted, escaped, c.frames[s.f].body, s.loops, s.previous, s.st, s.following) == Moved
    requires StartsPlain(s.st.target, p.bodies[c.frames[s.f].body].handles)
    requires StartsPlain(s.st.value, p.bodies[c.frames[s.f].body].handles)
    requires Denotes(p, c, v.pins, s.f, s.st.target, s.a) && Denotes(p, c, v.pins, s.f, s.st.value, s.b)
    ensures s.a.slot != s.b.slot
  {
    PathRoot(p, c, v.pins, s.f, s.st.target, s.a);
    PathRoot(p, c, v.pins, s.f, s.st.value, s.b);
    DistinctRootsAreApart(p, c, s.f, MovePath(s.st.target).value.root, MovePath(s.st.value).value.root,
                          s.a.slot, s.b.slot, s.previous);
  }

  /** In some activation both roots lead to one slot. */
  ghost predicate CanCoincide(ra: Root, rb: Root) {
    exists c: Control, f: nat, slot :: f < |c.frames| && RootIs(c, f, ra, slot) && RootIs(c, f, rb, slot)
  }

  /** Two paths overlap exactly when in some activation they can be the same storage. */
  lemma OverlapIffCoincide(a: Path, b: Path)
    ensures RootsOverlap(Some(a), Some(b)) <==> CanCoincide(a.root, b.root)
  {
    if RootsOverlap(Some(a), Some(b)) {
      var one := map x: Name | x in NamesOf(a.root) + NamesOf(b.root) :: 0;
      var c := Control([Frame(0, Host, 0, 1, one, None)], 1);
      var slot := match a.root
        case VarRoot(name) => LocalSlot(0, name)
        case StaticRoot(owner) => StaticSlot(owner, 0)
        case _ => AttrSlot(0, 0);
      assert RootIs(c, 0, a.root, slot) && RootIs(c, 0, b.root, slot);
    }
  }

  function NamesOf(r: Root): set<Name> { if r.ObjectRoot? then {r.name} else {} }

  /** In some activation that has just completed `previous` both roots lead to one slot. */
  ghost predicate CanMeet(p: Program, ra: Root, rb: Root, previous: Option<Node>) {
    exists c: Control, f: nat, slot ::
      && FramesOk(p, c) && f < |c.frames| && c.frames[f].last == previous
      && RootIs(c, f, ra, slot) && RootIs(c, f, rb, slot)
  }

  /** Different roots are told apart exactly when no activation lets them meet, but for an object and
      a static attribute, which are kept although they cannot. */
  lemma DistinctIffApart(p: Program, ra: Root, rb: Root, previous: Option<Node>)
    requires p.bodies != [] && ra != rb
    ensures RootsDistinct(ra, rb, previous) <==>
            !CanMeet(p, ra, rb, previous) && !(ra.ObjectRoot? && rb.StaticRoot?) && !(ra.StaticRoot? && rb.ObjectRoot?)
  {
    if RootsDistinct(ra, rb, previous) {
      forall c: Control, f: nat, a, b
        | FramesOk(p, c) && f < |c.frames| && c.frames[f].last == previous && RootIs(c, f, ra, a) && RootIs(c, f, rb, b)
        ensures a != b
      {
        DistinctRootsAreApart(p, c, f, ra, rb, a, b, previous);
      }
    } else if !ra.StaticRoot? && !rb.StaticRoot? {
      var names := NamesOf(ra) + NamesOf(rb);
      var made := if previous.Some? && Makes(previous.value) then {previous.value.target.name} else {};
      var me, obj := 0, if ra.Me? || rb.Me? then 0 else 1;
      var objs := map x: Name | x in names + made :: if x in names then obj else 1;
      var frame := Frame(0, Host, me, 1, objs, previous);
      var c := Control([frame], 1);
      assert FrameOk(p, c, frame);
      assert RootIs(c, 0, ra, AttrSlot(obj, 0)) && RootIs(c, 0, rb, AttrSlot(obj, 0));
    }
  }

  /** An operand of the body that can be storage of the source, as far as its path tells. */
  ghost predicate BindsSource(body: seq<Node>, source: Root) {
    exists n, e :: Occurs(n, body) && IsOperand(n, e)
                   && (MovePath(e).None? || CanCoincide(MovePath(e).value.root, source))
  }

  ghost predicate BindsUnknown(body: seq<Node>) { exists n :: Occurs(n, body) && (n.AssignDeref? || n.AssignComp?) }

  lemma BoundIffBinds(source: Path, body: seq<Node>)
    ensures MoveBound(source, body) <==> BindsUnknown(body) || BindsSource(body, source.root)
  {
    if MoveBound(source, body) {
      var n :| n in WalkBody(body) && BindsRoot(n, source);
      WalkBodyReaches(n, body);
      var o :| o in Bound(n) && match o
        case None => true
        case Some(x) => MovePath(x).None? || RootsOverlap(MovePath(x), Some(source));
      if o.Some? {
        OperandsAreBound(n, o.value);
        if MovePath(o.value).Some? { OverlapIffCoincide(MovePath(o.value).value, source); }
      }
    }
    if BindsUnknown(body) {
      var n :| Occurs(n, body) && (n.AssignDeref? || n.AssignComp?);
      WalkBodyReaches(n, body);
      assert None in Bound(n);
    } else if BindsSource(body, source.root) {
      var n, e :| Occurs(n, body) && IsOperand(n, e)
                  && (MovePath(e).None? || CanCoincide(MovePath(e).value.root, source.root));
      WalkBodyReaches(n, body);
      OperandsAreBound(n, e);
      if MovePath(e).Some? { OverlapIffCoincide(MovePath(e).value, source); }
      assert BindsRoot(n, source);
    }
  }

  /** No loop around it is over storage that can be the source's. */
  ghost predicate LoopsElsewhere(loops: seq<Node>, source: Root) {
    forall l | l in loops && l.Loop? && MovePath(l.table).Some? :: !CanCoincide(MovePath(l.table).value.root, source)
  }

  lemma LoopsIffElsewhere(loops: seq<Node>, source: Path)
    ensures (exists l | l in loops :: l.Loop? && RootsOverlap(MovePath(l.table), Some(source))) <==>
            !LoopsElsewhere(loops, source.root)
  {
    forall l | l in loops && l.Loop? && MovePath(l.table).Some?
      ensures RootsOverlap(MovePath(l.table), Some(source)) <==> CanCoincide(MovePath(l.table).value.root, source.root)
    {
      OverlapIffCoincide(MovePath(l.table).value, source);
    }
  }

  ghost predicate Unrecorded(p: Program, owner: nat, value: Node)
    requires owner < |p.bodies|
  {
    forall k | k in Keys(value, owner, p.bodies[owner], false) :: !IsTainted(p, k) && !IsEscaped(p, k)
  }

  /** The assignment of a standard table without stable rows to another of its type, path to path,
      and a clear of the path that was assigned. */
  predicate IsPair(st: Node, following: Node) {
    && st.Assign? && st.targetType.table && KeepsValues(st) && !st.valueType.stable
    && MovePath(st.target).Some? && MovePath(st.value).Some?
    && ClearedBy(following).Some? && MovePath(ClearedBy(following).value) == MovePath(st.value)
  }

  /** Exactly which pairs are moved. */
  lemma MovedIff(p: Program, tainted: set<Key>, escaped: set<Key>, owner: nat, loops: seq<Node>,
                 previous: Option<Node>, st: Node, following: Node)
    requires Found(p, tainted, escaped) && owner < |p.bodies|
    ensures Decide(p, tainted, escaped, owner, loops, previous, st, following) == Moved <==>
            && IsPair(st, following)
            && var (a, b) := (MovePath(st.target).value.root, MovePath(st.value).value.root);
               && a != b && !CanMeet(p, a, b, previous)
               && !(a.ObjectRoot? && b.StaticRoot?) && !(a.StaticRoot? && b.ObjectRoot?)
               && LoopsElsewhere(loops, b)
               && !BindsUnknown(p.bodies[owner].body) && !BindsSource(p.bodies[owner].body, b)
               && Unrecorded(p, owner, st.value)
  {
    ClearedIsUnwrapped(following);
    if IsPair(st, following) && MovePath(st.target).value.root != MovePath(st.value).value.root {
      var a, b := MovePath(st.target).value, MovePath(st.value).value;
      DistinctIffApart(p, a.root, b.root, previous);
      LoopsIffElsewhere(loops, b);
      BoundIffBinds(b, p.bodies[owner].body);
    }
  }

  /** The place of a path. */
  function PlaceOf(c: Control, f: nat, path: Path): Option<Loc>
    requires f < |c.frames|
  {
    var ns := path.names;
    match path.root
    case VarRoot(name) => Some(Loc(LocalSlot(f, name), ns))
    case Me => if ns == [] then None else Some(Loc(AttrSlot(c.frames[f].me, ns[0]), ns[1..]))
    case StaticRoot(owner) => if ns == [] then None else Some(Loc(StaticSlot(owner, ns[0]), ns[1..]))
    case ObjectRoot(name) =>
      if ns == [] || name !in c.frames[f].objs then None
      else Some(Loc(AttrSlot(c.frames[f].objs[name], ns[0]), ns[1..]))
  }

  predicate PlainRoot(r: Root, handles: set<Name>) { r.VarRoot? ==> r.name !in handles }

  lemma {:induction false} PathIsPlace(p: Program, c: Control, pins: map<Pin, Option<Loc>>, f: nat, e: Node, l: Loc)
    requires InFrame(p, c, f) && Denotes(p, c, pins, f, e, l) && MovePath(e).Some?
    requires PlainRoot(MovePath(e).value.root, p.bodies[c.frames[f].body].handles)
    ensures PlaceOf(c, f, MovePath(e).value) == Some(l)
    decreases e
  {
    if e.Field? {
      var base := Loc(l.slot, l.path[..|l.path| - 1]);
      PathIsPlace(p, c, pins, f, e.base, base);
      var ns := MovePath(e.base).value.names;
      assert l.path == base.path + [e.name];
      assert ns != [] ==> (ns + [e.name])[1..] == ns[1..] + [e.name];
    }
  }

  lemma {:induction false} PlainStart(e: Node, handles: set<Name>)
    requires MovePath(e).Some? && StartsPlain(e, handles)
    ensures PlainRoot(MovePath(e).value.root, handles)
  {
    if e.Field? {
      PlainStart(e.base, handles);
    }
  }

  lemma {:induction false} ClearedIsUnwrapped(n: Node)
    ensures ClearedBy(n) == if Unwrap(n).Clear? then Some(Unwrap(n).target) else None
  {
    if n.Seq? && |n.body| == 1 {
      ClearedIsUnwrapped(n.body[0]);
    }
  }

  /** The two statements of a pair that is moved are an assignment that keeps values as they are, and a
      clear of the very place that was assigned. */
  lemma MovedIsCleared(p: Program, tainted: set<Key>, escaped: set<Key>, c: Control, m: MState, v: VState, s: Step)
    requires s.Pair? && Enabled(p, tainted, escaped, c, m, v, s)
    ensures KeepsValues(s.st) && ClearedBy(s.following).Some? && s.cleared == s.b
  {
    var handles := p.bodies[c.frames[s.f].body].handles;
    ClearedIsUnwrapped(s.following);
    PlainStart(s.st.value, handles);
    PathIsPlace(p, c, v.pins, s.f, s.st.value, s.b);
    PathIsPlace(p, c, PinsAfter(s.a, v.pins), s.f, ClearedBy(s.following).value, s.cleared);
  }

  /** So what runs is handing over rows against copying and clearing. */
  lemma PairIsTransfer(p: Program, tainted: set<Key>, escaped: set<Key>, c: Control, m: MState, v: VState, s: Step)
    requires s.Pair? && Enabled(p, tainted, escaped, c, m, v, s) && Refines(m, v) && Inv(p, c, v)
    ensures ApplyV(v, s) == CopyThenClear(v, s.a, s.b)
    ensures CanTransfer(m.mem, s.a, s.b)
    ensures ApplyM(m, s) == Transfer(m, m.mem(s.a).value.id, s.b, m.mem(s.b).value.id)
  {
    MovedIsCleared(p, tainted, escaped, c, m, v, s);
    MovedIsApart(p, tainted, escaped, c, v, s);
    ExistsAlike(m, v, s.a);
    ExistsAlike(m, v, s.b);
    SharedCell(m.mem, s.a, s.b, s.b);
  }

  // ---- Every step

  lemma ExistsAlike(m: MState, v: VState, l: Loc)
    requires Refines(m, v)
    ensures m.mem(l).Some? <==> v.vals(l).Some?
    ensures m.mem(l).Some? ==> IdAt(m, l) == m.mem(l).value.id
  {
    assert Leaf(m.mem(l)) == v.vals(l);
  }

  /** Every step keeps memory and values the same. */
  lemma StepRefines(p: Program, tainted: set<Key>, escaped: set<Key>, c: Control, m: MState, v: VState, s: Step)
    requires Found(p, tainted, escaped) && Inv(p, c, v) && Refines(m, v)
    requires Enabled(p, tainted, escaped, c, m, v, s)
    ensures Refines(ApplyM(m, s), ApplyV(v, s))
  {
    match s
    case Create(slot, content, ids) =>
      forall k: Loc | k.slot == slot ensures m.mem(k).None? { ExistsAlike(m, v, k); }
      CreateRefines(m, v, slot, content, ids);
    case Write(l, content, ids) =>
      ExistsAlike(m, v, l);
      WriteRefines(m, v, l, content, ids);
    case WriteThrough(pin, content, ids) =>
      assert PinAgrees(m.mem, m.pins[pin], v.pins[pin]);
      WriteRefines(m, v, v.pins[pin].value, content, ids);
    case Refer(_, _, l, pin) =>
      ExistsAlike(m, v, l);
      PinRefines(m, v, pin, l);
    case Pass(frame, formal, l) =>
      ExistsAlike(m, v, l);
      PinRefines(m, v, FrameVar(frame, formal), l);
    case ReferThrough(_, l, pin) =>
      ExistsAlike(m, v, l);
      PinRefines(m, v, pin, l);
    case Pair(_, _, _, _, _, a, b, _, _) =>
      PairIsTransfer(p, tainted, escaped, c, m, v, s);
      MovedIsUnaccounted(p, tainted, escaped, c, v, s);
      TransferRefinesIff(m, v, a, b);
    case _ =>
  }

  lemma AccountedLater(p: Program, c: Control, s: Step, slot: Slot)
    requires FramesOk(p, c) && Accounted(p, c, slot)
    ensures Accounted(p, Advance(c, s), slot)
  {
  }

  ghost predicate NewPinAccounted(p: Program, c: Control, before: map<Pin, Option<Loc>>, after: map<Pin, Option<Loc>>) {
    forall q | q in after && after[q].Some? ::
      (q in before && before[q] == after[q]) || Accounted(p, c, after[q].value.slot)
  }

  lemma PinsStayAccounted(p: Program, tainted: set<Key>, escaped: set<Key>, c: Control, m: MState, v: VState, s: Step)
    requires Inv(p, c, v) && Enabled(p, tainted, escaped, c, m, v, s)
    ensures NewPinAccounted(p, c, v.pins, ApplyV(v, s).pins)
  {
    match s
    case Refer(f, n, l, _) => ReferenceIsAccounted(p, c, v.pins, f, n, l);
    case Pass(frame, formal, l) =>
      var caller := c.frames[frame].caller;
      FormalIsAccounted(p, c, v.pins, caller.frame, caller.call, formal, l);
    case _ =>
  }

  lemma FramesStayOk(p: Program, tainted: set<Key>, escaped: set<Key>, c: Control, m: MState, v: VState, s: Step)
    requires Inv(p, c, v) && Enabled(p, tainted, escaped, c, m, v, s)
    ensures FramesOk(p, Advance(c, s))
  {
  }

  lemma StepKeepsInv(p: Program, tainted: set<Key>, escaped: set<Key>, c: Control, m: MState, v: VState, s: Step)
    requires Inv(p, c, v) && Enabled(p, tainted, escaped, c, m, v, s)
    ensures Inv(p, Advance(c, s), ApplyV(v, s))
  {
    FramesStayOk(p, tainted, escaped, c, m, v, s);
    PinsStayAccounted(p, tainted, escaped, c, m, v, s);
    var pins := ApplyV(v, s).pins;
    forall q | q in pins && pins[q].Some? ensures Accounted(p, Advance(c, s), pins[q].value.slot) {
      AccountedLater(p, c, s, pins[q].value.slot);
    }
  }

  // ---- Every run

  ghost predicate Run(
    p: Program, tainted: set<Key>, escaped: set<Key>, c: Control, m: MState, v: VState, steps: seq<Step>)
    decreases |steps|
  {
    steps == [] ||
    (Enabled(p, tainted, escaped, c, m, v, steps[0]) &&
     Run(p, tainted, escaped, Advance(c, steps[0]), ApplyM(m, steps[0]), ApplyV(v, steps[0]), steps[1..]))
  }

  ghost function RunM(m: MState, steps: seq<Step>): MState
    decreases |steps|
  {
    if steps == [] then m else RunM(ApplyM(m, steps[0]), steps[1..])
  }

  function RunV(v: VState, steps: seq<Step>): VState
    decreases |steps|
  {
    if steps == [] then v else RunV(ApplyV(v, steps[0]), steps[1..])
  }

  function RunC(c: Control, steps: seq<Step>): Control
    decreases |steps|
  {
    if steps == [] then c else RunC(Advance(c, steps[0]), steps[1..])
  }

  /** A run that hands rows over wherever the analysis allows it holds, at every path, the values
      of the run that copies; its buffers stay unshared, its references lead to the same rows, and all
      they lead to is storage that the analysis has recorded. */
  lemma {:induction false} MovingRunsAreCopyingRuns(p: Program, tainted: set<Key>, escaped: set<Key>, c: Control,
                                                    m: MState, v: VState, steps: seq<Step>)
    requires Found(p, tainted, escaped) && Inv(p, c, v) && Refines(m, v) && Run(p, tainted, escaped, c, m, v, steps)
    ensures Refines(RunM(m, steps), RunV(v, steps))
    ensures PinsAccounted(p, RunC(c, steps), RunV(v, steps).pins)
    decreases |steps|
  {
    if steps != [] {
      StepRefines(p, tainted, escaped, c, m, v, steps[0]);
      StepKeepsInv(p, tainted, escaped, c, m, v, steps[0]);
      MovingRunsAreCopyingRuns(
        p, tainted, escaped, Advance(c, steps[0]), ApplyM(m, steps[0]), ApplyV(v, steps[0]), steps[1..]);
    }
  }

  /** A program starts with no storage and no activation. */
  lemma InitiallyAgree(p: Program)
    ensures var m, v := MState((k: Loc) => None, map[]), VState((k: Loc) => None, map[]);
            Refines(m, v) && Inv(p, Control([], 1), v)
  {
  }
}
