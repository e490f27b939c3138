/** Tables in memory: nodes with addresses, reached by paths and through pinned addresses, against
    plain values. Assigning a table copies it, or hands over the source's rows with their
    addresses. */
module TableMemory {
  import opened Basics

  datatype Slot = LocalSlot(frame: nat, name: nat) | AttrSlot(obj: nat, name: nat) | StaticSlot(owner: nat, name: nat)

  /** A component or row below a variable or attribute. */
  datatype Loc = Loc(slot: Slot, path: seq<nat>)

  datatype Cell = Cell(id: nat, leaf: int)

  /** What an address-based memory holds: a node at each location that exists. */
  type Memory = Loc -> Option<Cell>

  type Values = Loc -> Option<int>

  /** A value, by relative paths. */
  type Content = seq<nat> -> Option<int>

  /** Field symbols, references and by-reference parameters. */
  datatype Pin = FrameVar(frame: nat, name: nat) | Stored(n: nat)

  datatype MState = MState(mem: Memory, pins: map<Pin, nat>)

  /** The same state under value semantics: a pin is on a row, or on a row that is gone. */
  datatype VState = VState(vals: Values, pins: map<Pin, Option<Loc>>)

  predicate Under(l: Loc, k: Loc) { l.slot == k.slot && l.path <= k.path }

  function Rest(l: Loc, k: Loc): seq<nat>
    requires Under(l, k)
  {
    k.path[|l.path|..]
  }

  function Join(l: Loc, r: seq<nat>): Loc { Loc(l.slot, l.path + r) }

  // ---- Value semantics

  function Empty(): Content { (r: seq<nat>) => if r == [] then Some(0) else None }

  function ContentV(vals: Values, b: Loc): Content { (r: seq<nat>) => vals(Join(b, r)) }

  function SetV(vals: Values, l: Loc, content: Content): Values {
    (k: Loc) => if Under(l, k) then content(Rest(l, k)) else vals(k)
  }

  /** Rows below an overwritten node are gone; the node itself stays. */
  function PinAfter(l: Loc, p: Option<Loc>): Option<Loc> {
    if p.Some? && Under(l, p.value) && p.value != l then None else p
  }

  function PinsAfter(l: Loc, pins: map<Pin, Option<Loc>>): map<Pin, Option<Loc>> {
    map p | p in pins :: PinAfter(l, pins[p])
  }

  function WriteV(v: VState, l: Loc, content: Content): VState {
    VState(SetV(v.vals, l, content), PinsAfter(l, v.pins))
  }

  /** `a = b. CLEAR b.` with a copy. */
  function CopyThenClear(v: VState, a: Loc, b: Loc): VState {
    WriteV(WriteV(v, a, ContentV(v.vals, b)), b, Empty())
  }

  // ---- Addresses

  ghost predicate Has(mem: Memory, id: nat, l: Loc) { mem(l).Some? && mem(l).value.id == id }

  ghost predicate Covered(mem: Memory, id: nat, k: Loc) { exists l :: Has(mem, id, l) && Under(l, k) }

  ghost function Owner(mem: Memory, id: nat, k: Loc): (l: Loc)
    requires Covered(mem, id, k)
    ensures Has(mem, id, l) && Under(l, k)
  {
    var l :| Has(mem, id, l) && Under(l, k); l
  }

  function NewCell(id: nat, content: Content, ids: seq<nat> -> nat, r: seq<nat>): Option<Cell> {
    match content(r)
    case None => None
    case Some(leaf) => Some(Cell(if r == [] then id else ids(r), leaf))
  }

  /** An in-place write shows wherever the address is held. */
  ghost function WriteAddr(mem: Memory, id: nat, content: Content, ids: seq<nat> -> nat): Memory {
    (k: Loc) => if Covered(mem, id, k) then NewCell(id, content, ids, Rest(Owner(mem, id, k), k)) else mem(k)
  }

  function HandedOver(mem: Memory, id: nat, b: Loc, r: seq<nat>): Option<Cell> {
    match mem(Join(b, r))
    case None => None
    case Some(c) => if r == [] then Some(Cell(id, c.leaf)) else Some(c)
  }

  /** The header at `id` takes the rows of `b`, addresses included: both share them. */
  ghost function ShareRows(mem: Memory, id: nat, b: Loc): Memory {
    (k: Loc) => if Covered(mem, id, k) then HandedOver(mem, id, b, Rest(Owner(mem, id, k), k)) else mem(k)
  }

  ghost function WriteM(m: MState, id: nat, content: Content, ids: seq<nat> -> nat): MState {
    MState(WriteAddr(m.mem, id, content, ids), m.pins)
  }

  /** `a = b` without a copy, then `CLEAR b`. */
  ghost function Transfer(m: MState, a: nat, b: Loc, bId: nat): MState {
    WriteM(MState(ShareRows(m.mem, a, b), m.pins), bId, Empty(), (r: seq<nat>) => 0)
  }

  // ---- When the two agree

  function Leaf(c: Option<Cell>): Option<int> { match c case None => None case Some(x) => Some(x.leaf) }

  ghost predicate SameValues(mem: Memory, vals: Values) { forall k :: Leaf(mem(k)) == vals(k) }

  /** No address is held twice. */
  ghost predicate Unshared(mem: Memory) {
    forall j, k :: mem(j).Some? && mem(k).Some? && mem(j).value.id == mem(k).value.id ==> j == k
  }

  ghost predicate PinAgrees(mem: Memory, id: nat, p: Option<Loc>) {
    match p
    case Some(l) => Has(mem, id, l)
    case None => forall k :: !Has(mem, id, k)
  }

  ghost predicate Refines(m: MState, v: VState) {
    && SameValues(m.mem, v.vals)
    && Unshared(m.mem)
    && m.pins.Keys == v.pins.Keys
    && forall p | p in v.pins :: PinAgrees(m.mem, m.pins[p], v.pins[p])
  }

  /** Addresses nobody holds. */
  ghost predicate Fresh(m: MState, ids: seq<nat> -> nat) {
    && (forall r, s :: ids(r) == ids(s) ==> r == s)
    && (forall r, k :: !Has(m.mem, ids(r), k))
    && (forall r, p :: p in m.pins ==> m.pins[p] != ids(r))
  }

  lemma OnlyOwner(mem: Memory, id: nat, l: Loc, k: Loc)
    requires Unshared(mem) && Has(mem, id, l)
    ensures Covered(mem, id, k) <==> Under(l, k)
    ensures Covered(mem, id, k) ==> Owner(mem, id, k) == l
  {
  }

  /** In an unshared memory an in-place write changes one subtree. */
  lemma WriteAt(mem: Memory, l: Loc, content: Content, ids: seq<nat> -> nat, k: Loc)
    requires Unshared(mem) && mem(l).Some?
    ensures var id := mem(l).value.id;
            WriteAddr(mem, id, content, ids)(k) == if Under(l, k) then NewCell(id, content, ids, Rest(l, k)) else mem(k)
  {
    OnlyOwner(mem, mem(l).value.id, l, k);
  }

  lemma RestNothing(l: Loc, k: Loc)
    requires Under(l, k)
    ensures Rest(l, k) == [] <==> k == l
    ensures Join(l, Rest(l, k)) == k
  {
  }

  lemma SameRest(l: Loc, j: Loc, k: Loc)
    requires Under(l, j) && Under(l, k) && Rest(l, j) == Rest(l, k)
    ensures j == k
  {
    RestNothing(l, j);
    RestNothing(l, k);
  }

  lemma WrittenCell(m: MState, l: Loc, content: Content, ids: seq<nat> -> nat, after: Memory, k: Loc)
    requires Unshared(m.mem) && m.mem(l).Some? && Fresh(m, ids)
    requires after == WriteAddr(m.mem, m.mem(l).value.id, content, ids)
    ensures after(k) == if Under(l, k) then NewCell(m.mem(l).value.id, content, ids, Rest(l, k)) else m.mem(k)
    ensures after(k).Some? && Under(l, k) && k != l ==>
              after(k).value.id == ids(Rest(l, k)) && forall j :: !Has(m.mem, after(k).value.id, j)
    ensures after(k).Some? && k == l ==> after(k).value.id == m.mem(l).value.id
  {
    WriteAt(m.mem, l, content, ids, k);
    if Under(l, k) {
      RestNothing(l, k);
    }
  }

  lemma WriteUnshared(m: MState, l: Loc, content: Content, ids: seq<nat> -> nat)
    requires Unshared(m.mem) && m.mem(l).Some? && Fresh(m, ids)
    ensures Unshared(WriteAddr(m.mem, m.mem(l).value.id, content, ids))
  {
    var after := WriteAddr(m.mem, m.mem(l).value.id, content, ids);
    forall j, k | after(j).Some? && after(k).Some? && after(j).value.id == after(k).value.id
      ensures j == k
    {
      WrittenCell(m, l, content, ids, after, j);
      WrittenCell(m, l, content, ids, after, k);
      CellsDiffer(m, l, content, ids, after, j, k);
    }
  }

  lemma CellsDiffer(m: MState, l: Loc, content: Content, ids: seq<nat> -> nat, after: Memory, j: Loc, k: Loc)
    requires Unshared(m.mem) && m.mem(l).Some? && Fresh(m, ids)
    requires after == WriteAddr(m.mem, m.mem(l).value.id, content, ids)
    requires after(j).Some? && after(k).Some? && after(j).value.id == after(k).value.id
    ensures j == k
  {
    WrittenCell(m, l, content, ids, after, j);
    WrittenCell(m, l, content, ids, after, k);
    var id := after(j).value.id;
    var newJ, newK := Under(l, j) && j != l, Under(l, k) && k != l;
    if newJ && newK {
      SameRest(l, j, k);
    } else if newJ {
      assert Has(m.mem, id, k);
    } else if newK {
      assert Has(m.mem, id, j);
    }
  }

  lemma WriteKeepsPin(m: MState, l: Loc, content: Content, ids: seq<nat> -> nat, p: Pin, q: Option<Loc>)
    requires Unshared(m.mem) && m.mem(l).Some? && Fresh(m, ids) && content([]).Some?
    requires p in m.pins && PinAgrees(m.mem, m.pins[p], q)
    ensures PinAgrees(WriteAddr(m.mem, m.mem(l).value.id, content, ids), m.pins[p], PinAfter(l, q))
  {
    var after, id := WriteAddr(m.mem, m.mem(l).value.id, content, ids), m.pins[p];
    var q' := PinAfter(l, q);
    if q'.Some? {
      WrittenCell(m, l, content, ids, after, q'.value);
      if q'.value == l {
        RestNothing(l, l);
      }
    } else {
      forall k ensures !Has(after, id, k) {
        WrittenCell(m, l, content, ids, after, k);
        if Has(after, id, k) && !(Under(l, k) && k != l) {
          assert Has(m.mem, id, k);
        }
      }
    }
  }

  /** An in-place write through an unshared address is an assignment of values. */
  lemma WriteRefines(m: MState, v: VState, l: Loc, content: Content, ids: seq<nat> -> nat)
    requires Refines(m, v) && m.mem(l).Some? && Fresh(m, ids) && content([]).Some?
    ensures Refines(WriteM(m, m.mem(l).value.id, content, ids), WriteV(v, l, content))
  {
    var m', v' := WriteM(m, m.mem(l).value.id, content, ids), WriteV(v, l, content);
    WriteUnshared(m, l, content, ids);
    forall k ensures Leaf(m'.mem(k)) == v'.vals(k) {
      WriteAt(m.mem, l, content, ids, k);
    }
    forall p | p in v'.pins ensures PinAgrees(m'.mem, m'.pins[p], v'.pins[p]) {
      WriteKeepsPin(m, l, content, ids, p, v.pins[p]);
    }
  }

  // ---- New storage

  function CreateV(v: VState, slot: Slot, content: Content): VState {
    VState((k: Loc) => if k.slot == slot then content(k.path) else v.vals(k), v.pins)
  }

  function CreateM(m: MState, slot: Slot, content: Content, ids: seq<nat> -> nat): MState {
    MState((k: Loc) => if k.slot == slot then NewCell(ids([]), content, ids, k.path) else m.mem(k), m.pins)
  }

  lemma CreatedUnshared(m: MState, slot: Slot, content: Content, ids: seq<nat> -> nat, j: Loc, k: Loc)
    requires Unshared(m.mem) && Fresh(m, ids)
    requires var after := CreateM(m, slot, content, ids).mem;
             after(j).Some? && after(k).Some? && after(j).value.id == after(k).value.id
    ensures j == k
  {
    var after := CreateM(m, slot, content, ids).mem;
    var id := after(j).value.id;
    assert j.slot == slot ==> after(j) == NewCell(ids([]), content, ids, j.path) && id == ids(j.path);
    assert k.slot == slot ==> after(k) == NewCell(ids([]), content, ids, k.path) && id == ids(k.path);
    assert !Has(m.mem, ids(j.path), k) && !Has(m.mem, ids(k.path), j);
  }

  lemma CreateRefines(m: MState, v: VState, slot: Slot, content: Content, ids: seq<nat> -> nat)
    requires Refines(m, v) && Fresh(m, ids) && forall k: Loc | k.slot == slot :: m.mem(k).None?
    ensures Refines(CreateM(m, slot, content, ids), CreateV(v, slot, content))
  {
    var m', v' := CreateM(m, slot, content, ids), CreateV(v, slot, content);
    forall j, k | m'.mem(j).Some? && m'.mem(k).Some? && m'.mem(j).value.id == m'.mem(k).value.id ensures j == k {
      CreatedUnshared(m, slot, content, ids, j, k);
    }
    forall p | p in v'.pins ensures PinAgrees(m'.mem, m'.pins[p], v'.pins[p]) {
      assert PinAgrees(m.mem, m.pins[p], v.pins[p]);
      forall k | Has(m'.mem, m.pins[p], k) ensures Has(m.mem, m.pins[p], k) {
      }
    }
  }

  /** A reference to an existing node. */
  lemma PinRefines(m: MState, v: VState, p: Pin, l: Loc)
    requires Refines(m, v) && m.mem(l).Some?
    ensures Refines(m.(pins := m.pins[p := m.mem(l).value.id]), v.(pins := v.pins[p := Some(l)]))
  {
  }

  // ---- Handing rows over

  predicate Apart(a: Loc, b: Loc) { !Under(a, b) && !Under(b, a) }

  lemma ApartSubtrees(a: Loc, b: Loc, k: Loc)
    requires Apart(a, b)
    ensures !(Under(a, k) && Under(b, k))
  {
  }

  /** The memory after a transfer, location by location. */
  function TransferredCell(mem: Memory, a: Loc, b: Loc, k: Loc): Option<Cell>
    requires mem(a).Some? && mem(b).Some?
  {
    if Under(b, k) then (if k == b then Some(Cell(mem(b).value.id, 0)) else None)
    else if Under(a, k) then HandedOver(mem, mem(a).value.id, b, Rest(a, k))
    else mem(k)
  }

  ghost predicate CanTransfer(mem: Memory, a: Loc, b: Loc) {
    Unshared(mem) && mem(a).Some? && mem(b).Some? && Apart(a, b)
  }

  lemma SharedCell(mem: Memory, a: Loc, b: Loc, k: Loc)
    requires CanTransfer(mem, a, b)
    ensures var shared := ShareRows(mem, mem(a).value.id, b);
            shared(k) == if Under(a, k) then HandedOver(mem, mem(a).value.id, b, Rest(a, k)) else mem(k)
  {
    OnlyOwner(mem, mem(a).value.id, a, k);
  }

  /** While the rows are shared, the source's header still has one holder. */
  lemma HeaderIsUnshared(mem: Memory, a: Loc, b: Loc, k: Loc)
    requires CanTransfer(mem, a, b)
    ensures Has(ShareRows(mem, mem(a).value.id, b), mem(b).value.id, k) <==> k == b
  {
    SharedCell(mem, a, b, k);
    ApartSubtrees(a, b, b);
    if Under(a, k) {
      var r := Rest(a, k);
      RestNothing(a, k);
      if r != [] {
        assert Join(b, r) != b;
      }
    }
  }

  lemma TransferAt(m: MState, a: Loc, b: Loc, k: Loc)
    requires CanTransfer(m.mem, a, b)
    ensures Transfer(m, m.mem(a).value.id, b, m.mem(b).value.id).mem(k) == TransferredCell(m.mem, a, b, k)
  {
    var shared, id := ShareRows(m.mem, m.mem(a).value.id, b), m.mem(b).value.id;
    HeaderIsUnshared(m.mem, a, b, b);
    if Covered(shared, id, k) {
      HeaderIsUnshared(m.mem, a, b, Owner(shared, id, k));
      RestNothing(b, k);
    } else {
      assert Has(shared, id, b);
      SharedCell(m.mem, a, b, k);
    }
  }

  /** Where the cell now at `k` was before. */
  function CameFrom(a: Loc, b: Loc, k: Loc): Loc {
    if Under(a, k) && k != a then Join(b, Rest(a, k)) else k
  }

  lemma CameFromHolds(mem: Memory, a: Loc, b: Loc, k: Loc)
    requires CanTransfer(mem, a, b) && TransferredCell(mem, a, b, k).Some?
    ensures Has(mem, TransferredCell(mem, a, b, k).value.id, CameFrom(a, b, k))
    ensures !Under(a, k) ==> k == b || !Under(b, k)
  {
    ApartSubtrees(a, b, k);
    if Under(a, k) {
      RestNothing(a, k);
    }
  }

  lemma TransferUnshared(mem: Memory, a: Loc, b: Loc, j: Loc, k: Loc)
    requires CanTransfer(mem, a, b)
    requires TransferredCell(mem, a, b, j).Some? && TransferredCell(mem, a, b, k).Some?
    requires TransferredCell(mem, a, b, j).value.id == TransferredCell(mem, a, b, k).value.id
    ensures j == k
  {
    CameFromHolds(mem, a, b, j);
    CameFromHolds(mem, a, b, k);
    assert CameFrom(a, b, j) == CameFrom(a, b, k);
    var movedJ, movedK := Under(a, j) && j != a, Under(a, k) && k != a;
    if movedJ && !movedK {
      NoOverlap(a, b, j, k);
    } else if movedK && !movedJ {
      NoOverlap(a, b, k, j);
    } else if movedJ && movedK {
      var r, s := Rest(a, j), Rest(a, k);
      assert b.path + r == b.path + s;
      assert r == (b.path + r)[|b.path|..] && s == (b.path + s)[|b.path|..];
      SameRest(a, j, k);
    }
  }

  /** A row handed over came from below `b`, where nothing is left. */
  lemma NoOverlap(a: Loc, b: Loc, j: Loc, k: Loc)
    requires Apart(a, b) && Under(a, j) && j != a && !(Under(b, k) && k != b)
    ensures Join(b, Rest(a, j)) != k
  {
    var r := Rest(a, j);
    RestNothing(a, j);
    assert Under(b, Join(b, r)) && |(b.path + r)| > |b.path|;
  }

  lemma ValueAt(m: MState, v: VState, a: Loc, b: Loc, k: Loc)
    requires CanTransfer(m.mem, a, b) && SameValues(m.mem, v.vals)
    ensures Leaf(TransferredCell(m.mem, a, b, k)) == CopyThenClear(v, a, b).vals(k)
  {
    ApartSubtrees(a, b, k);
    if Under(b, k) {
      RestNothing(b, k);
    } else if Under(a, k) {
      RestNothing(a, k);
      assert Leaf(m.mem(Join(b, Rest(a, k)))) == v.vals(Join(b, Rest(a, k)));
    }
  }

  /** No pin on a row of `b`. */
  ghost predicate NoPinBelow(v: VState, b: Loc) {
    forall p | p in v.pins :: PinAfter(b, v.pins[p]) == v.pins[p]
  }

  lemma PinAfterTransfer(m: MState, v: VState, a: Loc, b: Loc, p: Pin)
    requires CanTransfer(m.mem, a, b) && Refines(m, v) && p in v.pins && PinAfter(b, v.pins[p]) == v.pins[p]
    ensures PinAgrees(Transfer(m, m.mem(a).value.id, b, m.mem(b).value.id).mem, m.pins[p],
                      CopyThenClear(v, a, b).pins[p])
  {
    var m', q, id := Transfer(m, m.mem(a).value.id, b, m.mem(b).value.id), PinAfter(a, v.pins[p]), m.pins[p];
    if q.Some? {
      TransferAt(m, a, b, q.value);
      RestNothing(a, a);
      assert Join(b, []) == b;
    } else {
      forall k ensures !Has(m'.mem, id, k) {
        TransferAt(m, a, b, k);
        if Has(m'.mem, id, k) {
          CameFromHolds(m.mem, a, b, k);
          CameFromElsewhere(a, b, k, v.pins[p]);
        }
      }
    }
  }

  /** What is held after a transfer did not come from a row of `a`. */
  lemma CameFromElsewhere(a: Loc, b: Loc, k: Loc, q: Option<Loc>)
    requires Apart(a, b) && PinAfter(a, q) == None && PinAfter(b, q) == q
    ensures q != Some(CameFrom(a, b, k))
  {
    if Under(a, k) && k != a {
      RestNothing(a, k);
      assert Under(b, Join(b, Rest(a, k))) && |b.path + Rest(a, k)| > |b.path|;
    }
  }

  /** Handing rows over is copying them and clearing the source, for every path and every pin,
      exactly when no pin is on a row of the source. */
  lemma TransferRefinesIff(m: MState, v: VState, a: Loc, b: Loc)
    requires CanTransfer(m.mem, a, b) && Refines(m, v)
    ensures var m' := Transfer(m, m.mem(a).value.id, b, m.mem(b).value.id);
            Refines(m', CopyThenClear(v, a, b)) <==> NoPinBelow(v, b)
  {
    var m', v' := Transfer(m, m.mem(a).value.id, b, m.mem(b).value.id), CopyThenClear(v, a, b);
    forall k ensures m'.mem(k) == TransferredCell(m.mem, a, b, k) && Leaf(m'.mem(k)) == v'.vals(k) {
      TransferAt(m, a, b, k);
      ValueAt(m, v, a, b, k);
    }
    forall j, k | m'.mem(j).Some? && m'.mem(k).Some? && m'.mem(j).value.id == m'.mem(k).value.id ensures j == k {
      TransferUnshared(m.mem, a, b, j, k);
    }
    if NoPinBelow(v, b) {
      forall p | p in v'.pins ensures PinAgrees(m'.mem, m'.pins[p], v'.pins[p]) {
        PinAfterTransfer(m, v, a, b, p);
      }
    } else {
      var p :| p in v.pins && PinAfter(b, v.pins[p]) != v.pins[p];
      PinnedRowMoves(m, v, a, b, v.pins[p].value);
      assert v'.pins[p] == None && Has(m'.mem, m.pins[p], Join(a, Rest(b, v.pins[p].value)));
    }
  }

  /** A pinned row of `b` is afterwards a row of `a`. */
  lemma PinnedRowMoves(m: MState, v: VState, a: Loc, b: Loc, l: Loc)
    requires CanTransfer(m.mem, a, b) && m.mem(l).Some? && Under(b, l) && l != b
    ensures var k := Join(a, Rest(b, l));
            Has(Transfer(m, m.mem(a).value.id, b, m.mem(b).value.id).mem, m.mem(l).value.id, k)
  {
    var k := Join(a, Rest(b, l));
    RestNothing(b, l);
    TransferAt(m, a, b, k);
    assert Under(a, k) && Rest(a, k) == Rest(b, l);
    ApartSubtrees(a, b, k);
  }

  /** A write through a pin on a row that was handed over then shows below `a`, which the copy
      would have kept from it. */
  lemma PinnedTransferIsObservable(
    m: MState, v: VState, a: Loc, b: Loc, p: Pin, l: Loc, content: Content, ids: seq<nat> -> nat)
    requires CanTransfer(m.mem, a, b) && Refines(m, v)
    requires p in v.pins && v.pins[p] == Some(l) && Under(b, l) && l != b
    requires content([]).Some? && content([]) != v.vals(l)
    ensures var m' := Transfer(m, m.mem(a).value.id, b, m.mem(b).value.id);
            var k := Join(a, Rest(b, l));
            && Leaf(WriteAddr(m'.mem, m.pins[p], content, ids)(k)) == content([])
            && CopyThenClear(v, a, b).vals(k) == v.vals(l) && CopyThenClear(v, a, b).pins[p] == None
  {
    var m' := Transfer(m, m.mem(a).value.id, b, m.mem(b).value.id);
    var k, id := Join(a, Rest(b, l)), m.pins[p];
    PinnedRowMoves(m, v, a, b, l);
    RestNothing(b, l);
    assert m.mem(l).Some? && Has(m'.mem, id, k);
    forall i, j | m'.mem(i).Some? && m'.mem(j).Some? && m'.mem(i).value.id == m'.mem(j).value.id ensures i == j {
      TransferAt(m, a, b, i);
      TransferAt(m, a, b, j);
      TransferUnshared(m.mem, a, b, i, j);
    }
    WriteAt(m'.mem, k, content, ids, k);
    RestNothing(k, k);
    ValueAt(m, v, a, b, k);
    TransferAt(m, a, b, k);
    assert Under(a, k) && Rest(a, k) == Rest(b, l);
    ApartSubtrees(a, b, k);
  }
}
