/** The content ID of a seed tree (`seedContentId` in `editors/vscode/launcher.js`): SHA-256
    over a stream of length-framed records. Taking SHA-256 as injective, two trees have the
    same ID exactly when they have the same stream, and that is exactly when they agree. */
module SeedId {
  import opened Basics
  import opened Numerals
  import opened TarFormat
  import opened TarReader
  import opened TarArchive
  import opened TarRoundTrip

  /** A tree with its symbolic links, listed as `readdirSync().sort()` lists it. */
  datatype Item =
    | Plain(mode: Mode, content: Bytes)
    | Folder(mode: Mode, entries: seq<Listed>)
    | Link(target: Bytes)
    | Other

  datatype Listed = Listed(name: Bytes, item: Item)

  // ----- the metadata that is left out -----

  /** ".seed-id", ".osd-materialized", ".osd-seed-files.json", ".osd-serving-" and ".lock" */
  const SEED_ID_FILE: Bytes := [46, 115, 101, 101, 100, 45, 105, 100]
  const MATERIALIZED_MARKER: Bytes :=
    [46, 111, 115, 100, 45, 109, 97, 116, 101, 114, 105, 97, 108, 105, 122, 101, 100]
  const SEED_FILES_FILE: Bytes :=
    [46, 111, 115, 100, 45, 115, 101, 101, 100, 45, 102, 105, 108, 101, 115, 46, 106, 115, 111, 110]
  const LOCK_PREFIX: Bytes := [46, 111, 115, 100, 45, 115, 101, 114, 118, 105, 110, 103, 45]
  const LOCK_SUFFIX: Bytes := [46, 108, 111, 99, 107]

  const DASH: Byte := 45

  predicate IsHex(c: Byte) { 48 <= c <= 57 || 97 <= c <= 102 }

  /** The shape of a random UUID: hexadecimal digits with a dash at 8, 13, 18 and 23. */
  predicate IsUuid(text: Bytes) {
    |text| == 36 && forall i | 0 <= i < 36 :: if i in {8, 13, 18, 23} then text[i] == DASH else IsHex(text[i])
  }

  /** `SERVING_LOCK_PATTERN`: the prefix, a pid, a UUID and the suffix. */
  predicate IsServingLock(name: Bytes) {
    && |name| >= |LOCK_PREFIX| + 1 + 1 + 36 + |LOCK_SUFFIX|
    && LOCK_PREFIX <= name && name[|name| - 5..] == LOCK_SUFFIX
    && IsUuid(name[|name| - 41..|name| - 5]) && name[|name| - 42] == DASH
    && 49 <= name[13] <= 57 && forall i | 14 <= i < |name| - 42 :: 48 <= name[i] <= 57
  }

  predicate IsMetadata(name: Bytes) {
    name == SEED_ID_FILE || name == MATERIALIZED_MARKER || name == SEED_FILES_FILE || IsServingLock(name)
  }

  /** The root listing without the launcher's own files. */
  function Visible(entries: seq<Listed>): seq<Listed> {
    if entries == [] then []
    else if IsMetadata(entries[0].name) then Visible(entries[1..])
    else [entries[0]] + Visible(entries[1..])
  }

  // ----- records -----

  /** What the digest sees of one path. */
  datatype Fact = FolderFact(mode: Mode) | LinkFact(target: Bytes) | PlainFact(mode: Mode, content: Bytes)

  datatype Record = Record(path: Path, fact: Fact)

  function FactOf(item: Item): Fact
    requires !item.Other?
  {
    match item
    case Plain(mode, content) => PlainFact(mode, content)
    case Folder(mode, _) => FolderFact(mode)
    case Link(target) => LinkFact(target)
  }

  /** Names are good, each occurs once, and nothing is of an unsupported kind. */
  predicate Supported(entries: seq<Listed>) {
    entries != [] ==>
      && GoodName(entries[0].name) && !entries[0].item.Other?
      && (forall i | 1 <= i < |entries| :: entries[i].name != entries[0].name)
      && (entries[0].item.Folder? ==> Supported(entries[0].item.entries))
      && Supported(entries[1..])
  }

  function Records(p: Path, entries: seq<Listed>): seq<Record>
    requires Supported(entries)
    decreases entries, 0
  {
    if entries == [] then []
    else ItemRecords(p + [entries[0].name], entries[0].item) + Records(p, entries[1..])
  }

  function ItemRecords(p: Path, item: Item): seq<Record>
    requires !item.Other? && (item.Folder? ==> Supported(item.entries))
    decreases item, 1
  {
    [Record(p, FactOf(item))] + if item.Folder? then Records(p, item.entries) else []
  }

  /** A number in `width` bytes, most significant first. */
  function BigEndian(width: nat, n: nat): (r: Bytes)
    ensures |r| == width
    decreases width
  {
    if width == 0 then [] else BigEndian(width - 1, n / 256) + [n % 256]
  }

  function KindByte(fact: Fact): Byte {
    match fact
    case FolderFact(_) => 0x44
    case LinkFact(_) => 0x4c
    case PlainFact(_, _) => 0x46
  }

  function ModeOf(fact: Fact): Mode {
    match fact
    case FolderFact(mode) => mode
    case LinkFact(_) => 0
    case PlainFact(mode, _) => mode
  }

  function ContentOf(fact: Fact): Bytes {
    match fact
    case FolderFact(_) => []
    case LinkFact(target) => target
    case PlainFact(_, content) => content
  }

  /** `writeUInt32BE` and `writeBigUInt64BE` accept the lengths. */
  predicate Framable(x: Record) {
    x.path != [] && GoodPath(x.path) && |Join(x.path)| < 0x1_0000_0000 && |ContentOf(x.fact)| < 0x1_0000_0000_0000_0000
  }

  /** One record: kind, name length, content length, name, mode, content. */
  function Encode(x: Record): Bytes {
    var name, content := Join(x.path), ContentOf(x.fact);
    [KindByte(x.fact)] + BigEndian(4, |name|) + BigEndian(8, |content|) + name + BigEndian(4, ModeOf(x.fact)) + content
  }

  function Frames(xs: seq<Record>): seq<Bytes> {
    seq(|xs|, i requires 0 <= i < |xs| => Encode(xs[i]))
  }

  function EncodeAll(xs: seq<Record>): Bytes { Concat(Frames(xs)) }

  lemma EncodeAllFirst(xs: seq<Record>)
    requires xs != []
    ensures EncodeAll(xs) == Encode(xs[0]) + EncodeAll(xs[1..])
  {
    assert Frames(xs)[1..] == Frames(xs[1..]);
  }

  /** Everything that is fed to the hash for a tree. */
  function Stream(entries: seq<Listed>): Bytes
    requires Supported(entries)
  {
    VisibleIsSupported(entries);
    EncodeAll(Records([], Visible(entries)))
  }

  lemma VisibleIsSupported(entries: seq<Listed>)
    requires Supported(entries)
    ensures Supported(Visible(entries))
    ensures forall x | x in Visible(entries) :: x in entries && !IsMetadata(x.name)
  {
    if entries != [] {
      VisibleIsSupported(entries[1..]);
      var v := Visible(entries[1..]);
      assert forall x | x in v :: x in entries[1..];
      assert ([entries[0]] + v)[1..] == v;
    }
  }

  // ----- the encoding can be read back -----

  lemma {:induction false} BigEndianInjective(width: nat, m: nat, n: nat)
    requires BigEndian(width, m) == BigEndian(width, n)
    requires m < Pow(256, width) && n < Pow(256, width)
    ensures m == n
    decreases width
  {
    if width > 0 {
      var a, b := BigEndian(width, m), BigEndian(width, n);
      assert a[..width - 1] == BigEndian(width - 1, m / 256) && a[width - 1] == m % 256;
      assert b[..width - 1] == BigEndian(width - 1, n / 256) && b[width - 1] == n % 256;
      BigEndianInjective(width - 1, m / 256, n / 256);
    }
  }

  lemma Widths()
    ensures Pow(256, 4) == 0x1_0000_0000 && Pow(256, 8) == 0x1_0000_0000_0000_0000
  {
    assert Pow(256, 2) == 0x1_0000;
    assert Pow(256, 3) == 0x100_0000;
    assert Pow(256, 5) == 0x100_0000_0000;
    assert Pow(256, 6) == 0x1_0000_0000_0000;
    assert Pow(256, 7) == 0x100_0000_0000_0000;
  }

  lemma PartsOf(a: Bytes, b: Bytes, a': Bytes, b': Bytes)
    requires a + b == a' + b' && |a| == |a'|
    ensures a == a' && b == b'
  {
    assert a == (a + b)[..|a|] && a' == (a' + b')[..|a|];
    assert b == (a + b)[|a|..] && b' == (a' + b')[|a|..];
  }

  lemma PathOfName(p: Path)
    requires p != [] && GoodPath(p)
    ensures SplitFrom([], Join(p)) == p
  {
    SplitJoin(p, []);
  }

  /** A record's fields can be told apart, whatever follows it. */
  lemma EncodeReadsBack(x: Record, s: Bytes, y: Record, t: Bytes)
    requires Framable(x) && Framable(y) && Encode(x) + s == Encode(y) + t
    ensures x == y && s == t
  {
    var n, c, m := Join(x.path), ContentOf(x.fact), ModeOf(x.fact);
    var n', c', m' := Join(y.path), ContentOf(y.fact), ModeOf(y.fact);
    var tail, tail' := n + BigEndian(4, m) + c + s, n' + BigEndian(4, m') + c' + t;
    HeadOf(x, s);
    HeadOf(y, t);
    PartsOf([KindByte(x.fact)], BigEndian(4, |n|) + (BigEndian(8, |c|) + tail),
            [KindByte(y.fact)], BigEndian(4, |n'|) + (BigEndian(8, |c'|) + tail'));
    PartsOf(BigEndian(4, |n|), BigEndian(8, |c|) + tail, BigEndian(4, |n'|), BigEndian(8, |c'|) + tail');
    PartsOf(BigEndian(8, |c|), tail, BigEndian(8, |c'|), tail');
    Widths();
    BigEndianInjective(4, |n|, |n'|);
    BigEndianInjective(8, |c|, |c'|);
    TailReadsBack(n, m, c, s, n', m', c', t);
    assert KindByte(x.fact) == KindByte(y.fact);
    PathOfName(x.path);
    PathOfName(y.path);
  }

  lemma HeadOf(x: Record, s: Bytes)
    ensures var n, c := Join(x.path), ContentOf(x.fact);
            Encode(x) + s ==
              [KindByte(x.fact)] +
              (BigEndian(4, |n|) + (BigEndian(8, |c|) + (n + BigEndian(4, ModeOf(x.fact)) + c + s)))
  {
    var n, c := Join(x.path), ContentOf(x.fact);
    SevenParts([KindByte(x.fact)], BigEndian(4, |n|), BigEndian(8, |c|), n, BigEndian(4, ModeOf(x.fact)), c, s);
  }

  lemma SevenParts(k: Bytes, l1: Bytes, l2: Bytes, n: Bytes, m: Bytes, c: Bytes, s: Bytes)
    ensures k + l1 + l2 + n + m + c + s == k + (l1 + (l2 + (n + m + c + s)))
  {
    assert k + l1 + l2 + n + m + c + s == k + l1 + l2 + (n + m + c + s);
    Associates(k + l1, l2, n + m + c + s);
    Associates(k, l1, l2 + (n + m + c + s));
  }

  lemma FourParts(n: Bytes, m: Bytes, c: Bytes, s: Bytes, n': Bytes, m': Bytes, c': Bytes, t: Bytes)
    requires |n| == |n'| && |m| == |m'| && |c| == |c'|
    requires n + m + c + s == n' + m' + c' + t
    ensures n == n' && m == m' && c == c' && s == t
  {
    PartsOf(n + m + c, s, n' + m' + c', t);
    PartsOf(n + m, c, n' + m', c');
    PartsOf(n, m, n', m');
  }

  lemma ModeReadsBack(m: Mode, m': Mode)
    requires BigEndian(4, m) == BigEndian(4, m')
    ensures m == m'
  {
    Widths();
    BigEndianInjective(4, m, m');
  }

  lemma TailReadsBack(n: Bytes, m: Mode, c: Bytes, s: Bytes, n': Bytes, m': Mode, c': Bytes, t: Bytes)
    requires |n| == |n'| && |c| == |c'|
    requires n + BigEndian(4, m) + c + s == n' + BigEndian(4, m') + c' + t
    ensures n == n' && m == m' && c == c' && s == t
  {
    FourParts(n, BigEndian(4, m), c, s, n', BigEndian(4, m'), c', t);
    ModeReadsBack(m, m');
  }

  predicate AllFramable(xs: seq<Record>) {
    xs != [] ==> Framable(xs[0]) && AllFramable(xs[1..])
  }

  lemma {:induction false} EncodeAllInjective(xs: seq<Record>, ys: seq<Record>)
    requires AllFramable(xs) && AllFramable(ys) && EncodeAll(xs) == EncodeAll(ys)
    ensures xs == ys
    decreases |xs|
  {
    if xs == [] || ys == [] {
      NoFrames(xs);
      NoFrames(ys);
    } else {
      FirstsReadBack(xs, ys);
      EncodeAllInjective(xs[1..], ys[1..]);
      assert xs == [xs[0]] + xs[1..] && ys == [ys[0]] + ys[1..];
    }
  }

  lemma NoFrames(xs: seq<Record>)
    ensures EncodeAll(xs) == [] <==> xs == []
  {
    if xs != [] {
      EncodeAllFirst(xs);
    }
  }

  lemma FirstsReadBack(xs: seq<Record>, ys: seq<Record>)
    requires xs != [] && ys != [] && Framable(xs[0]) && Framable(ys[0])
    requires EncodeAll(xs) == EncodeAll(ys)
    ensures xs[0] == ys[0] && EncodeAll(xs[1..]) == EncodeAll(ys[1..])
  {
    EncodeAllFirst(xs);
    EncodeAllFirst(ys);
    EncodeReadsBack(xs[0], EncodeAll(xs[1..]), ys[0], EncodeAll(ys[1..]));
  }

  // ----- records and paths -----

  function Named(entries: seq<Listed>, name: Bytes): Option<Item> {
    if entries == [] then None else if entries[0].name == name then Some(entries[0].item) else Named(entries[1..], name)
  }

  /** What a walk down the tree finds at a path. */
  function Lookup(entries: seq<Listed>, q: Path): Option<Fact>
    decreases |q|
  {
    if q == [] then None
    else
      match Named(entries, q[0])
      case None => None
      case Some(item) =>
        if |q| == 1 then (if item.Other? then None else Some(FactOf(item)))
        else if item.Folder? then Lookup(item.entries, q[1..]) else None
  }

  /** Two trees agree: every path outside the launcher's metadata has the same kind, permission
      bits and contents or link target in both, or is in neither. */
  ghost predicate Agree(a: seq<Listed>, b: seq<Listed>) {
    forall q: Path | q != [] && !IsMetadata(q[0]) :: Lookup(a, q) == Lookup(b, q)
  }

  lemma {:induction false} ItemRecordsAreBelow(p: Path, item: Item, x: Record)
    requires !item.Other? && (item.Folder? ==> Supported(item.entries)) && x in ItemRecords(p, item)
    ensures p <= x.path
    decreases item, 1
  {
    if x != Record(p, FactOf(item)) {
      RecordsAreBelow(p, item.entries, x);
    }
  }

  lemma {:induction false} RecordsAreBelow(p: Path, entries: seq<Listed>, x: Record)
    requires Supported(entries) && x in Records(p, entries)
    ensures p < x.path
    decreases entries, 0
  {
    if x in ItemRecords(p + [entries[0].name], entries[0].item) {
      ItemRecordsAreBelow(p + [entries[0].name], entries[0].item, x);
    } else {
      RecordsAreBelow(p, entries[1..], x);
    }
  }

  lemma {:induction false} NotNamed(entries: seq<Listed>, name: Bytes)
    requires forall i | 0 <= i < |entries| :: entries[i].name != name
    ensures Named(entries, name).None?
  {
    if entries != [] {
      assert forall i | 0 <= i < |entries[1..]| :: entries[1..][i] == entries[i + 1];
      NotNamed(entries[1..], name);
    }
  }

  lemma {:induction false} ItemRecordsAreLookup(p: Path, item: Item, q: Path, fact: Fact)
    requires !item.Other? && (item.Folder? ==> Supported(item.entries))
    ensures Record(p + q, fact) in ItemRecords(p, item) <==>
              if q == [] then fact == FactOf(item) else item.Folder? && Lookup(item.entries, q) == Some(fact)
    decreases item, 1
  {
    assert q == [] ==> p + q == p;
    assert q != [] ==> p + q != p;
    if item.Folder? {
      if q != [] {
        RecordsAreLookup(p, item.entries, q, fact);
      } else if Record(p, fact) in Records(p, item.entries) {
        RecordsAreBelow(p, item.entries, Record(p, fact));
      }
    }
  }

  /** The records of a tree are exactly what the walk finds, path by path. */
  lemma {:induction false} RecordsAreLookup(p: Path, entries: seq<Listed>, q: Path, fact: Fact)
    requires Supported(entries) && q != []
    ensures Record(p + q, fact) in Records(p, entries) <==> Lookup(entries, q) == Some(fact)
    decreases entries, 0
  {
    if entries != [] {
      var first := entries[0];
      var x := Record(p + q, fact);
      Below(p, first.name, q);
      RecordsAreLookup(p, entries[1..], q, fact);
      if q[0] == first.name {
        assert forall i | 0 <= i < |entries[1..]| :: entries[1..][i] == entries[i + 1];
        NotNamed(entries[1..], first.name);
        assert Lookup(entries[1..], q).None?;
        ItemRecordsAreLookup(p + [first.name], first.item, q[1..], fact);
      } else {
        if x in ItemRecords(p + [first.name], first.item) {
          ItemRecordsAreBelow(p + [first.name], first.item, x);
        }
      }
    }
  }

  // ----- main result -----

  /** The listing order; which one `sort()` uses does not matter. */
  ghost predicate StrictOrder(lt: (Bytes, Bytes) -> bool) {
    && (forall x: Bytes :: !lt(x, x))
    && (forall x: Bytes, y: Bytes, z: Bytes :: lt(x, y) && lt(y, z) ==> lt(x, z))
  }

  ghost predicate Sorted(entries: seq<Listed>, lt: (Bytes, Bytes) -> bool) {
    entries != [] ==>
      && (forall i | 1 <= i < |entries| :: lt(entries[0].name, entries[i].name))
      && (entries[0].item.Folder? ==> Sorted(entries[0].item.entries, lt))
      && Sorted(entries[1..], lt)
  }

  /** Same walk, same tree: sorted listings are determined by what is found in them. */
  lemma {:induction false} SameWalkSameTree(a: seq<Listed>, b: seq<Listed>, lt: (Bytes, Bytes) -> bool)
    requires StrictOrder(lt) && Sorted(a, lt) && Sorted(b, lt) && Supported(a) && Supported(b)
    requires forall q: Path :: Lookup(a, q) == Lookup(b, q)
    ensures a == b
    decreases a
  {
    if a == [] || b == [] {
      assert a != [] ==> Lookup(a, [a[0].name]).Some?;
      assert b != [] ==> Lookup(b, [b[0].name]).Some?;
    } else {
      FirstsAgree(a, b, lt);
      var name := a[0].name;
      SameItem(a[0].item, b[0].item, a, b, lt);
      forall q: Path
        ensures Lookup(a[1..], q) == Lookup(b[1..], q)
      {
        RestIsFound(a, q);
        RestIsFound(b, q);
        assert Lookup(a, q) == Lookup(b, q);
      }
      SameWalkSameTree(a[1..], b[1..], lt);
      assert a == [a[0]] + a[1..] && b == [b[0]] + b[1..];
    }
  }

  /** Both listings start with their least name. */
  lemma FirstsAgree(a: seq<Listed>, b: seq<Listed>, lt: (Bytes, Bytes) -> bool)
    requires StrictOrder(lt) && Sorted(a, lt) && Sorted(b, lt) && Supported(a) && Supported(b) && a != [] && b != []
    requires forall q: Path :: Lookup(a, q) == Lookup(b, q)
    ensures a[0].name == b[0].name
    ensures FactOf(a[0].item) == FactOf(b[0].item)
  {
    var x, y := a[0].name, b[0].name;
    assert Lookup(a, [x]) == Lookup(b, [x]) && Lookup(a, [y]) == Lookup(b, [y]);
    HeadIsFound(a);
    HeadIsFound(b);
    LeastIsUnique(a, b, lt);
  }

  lemma HeadIsFound(a: seq<Listed>)
    requires a != [] && Supported(a)
    ensures Lookup(a, [a[0].name]) == Some(FactOf(a[0].item))
  {
  }

  lemma LeastIsUnique(a: seq<Listed>, b: seq<Listed>, lt: (Bytes, Bytes) -> bool)
    requires StrictOrder(lt) && a != [] && b != []
    requires forall i | 1 <= i < |a| :: lt(a[0].name, a[i].name)
    requires forall i | 1 <= i < |b| :: lt(b[0].name, b[i].name)
    requires Named(b, a[0].name).Some? && Named(a, b[0].name).Some?
    ensures a[0].name == b[0].name
  {
    var x, y := a[0].name, b[0].name;
    assert x == y || lt(y, x) by { FoundIsListed(b, x); }
    assert x == y || lt(x, y) by { FoundIsListed(a, y); }
    NotBoth(lt, x, y);
  }

  lemma NotBoth(lt: (Bytes, Bytes) -> bool, x: Bytes, y: Bytes)
    requires StrictOrder(lt)
    ensures !(lt(x, y) && lt(y, x))
  {
  }

  lemma FoundIsListed(entries: seq<Listed>, name: Bytes)
    requires Named(entries, name).Some?
    ensures exists i | 0 <= i < |entries| :: entries[i].name == name
  {
    if forall i | 0 <= i < |entries| :: entries[i].name != name {
      NotNamed(entries, name);
    }
  }

  /** What the tail of a listing holds is what the listing holds under other names. */
  lemma RestIsFound(entries: seq<Listed>, q: Path)
    requires entries != [] && Supported(entries)
    ensures Lookup(entries[1..], q) == if q != [] && q[0] == entries[0].name then None else Lookup(entries, q)
  {
    if q != [] && q[0] == entries[0].name {
      assert forall i | 0 <= i < |entries[1..]| :: entries[1..][i] == entries[i + 1];
      NotNamed(entries[1..], q[0]);
    }
  }

  lemma {:induction false} SameItem(x: Item, y: Item, a: seq<Listed>, b: seq<Listed>, lt: (Bytes, Bytes) -> bool)
    requires StrictOrder(lt) && Sorted(a, lt) && Sorted(b, lt) && Supported(a) && Supported(b) && a != [] && b != []
    requires a[0].item == x && b[0].item == y && a[0].name == b[0].name && FactOf(x) == FactOf(y)
    requires forall q: Path :: Lookup(a, q) == Lookup(b, q)
    ensures x == y
    decreases x
  {
    if x.Folder? {
      forall q: Path
        ensures Lookup(x.entries, q) == Lookup(y.entries, q)
      {
        if q != [] {
          var down := [a[0].name] + q;
          assert down[1..] == q;
          assert Lookup(a, down) == Lookup(b, down);
        }
      }
      SameWalkSameTree(x.entries, y.entries, lt);
    }
  }

  lemma {:induction false} VisibleIsNamed(entries: seq<Listed>, name: Bytes)
    ensures Named(Visible(entries), name) == if IsMetadata(name) then None else Named(entries, name)
    decreases |entries|
  {
    if entries != [] {
      VisibleIsNamed(entries[1..], name);
      if !IsMetadata(entries[0].name) {
        assert Visible(entries)[0] == entries[0] && Visible(entries)[1..] == Visible(entries[1..]);
      }
    }
  }

  lemma VisibleIsFound(entries: seq<Listed>, q: Path)
    ensures Lookup(Visible(entries), q) == if q != [] && IsMetadata(q[0]) then None else Lookup(entries, q)
  {
    if q != [] {
      VisibleIsNamed(entries, q[0]);
    }
  }

  lemma {:induction false} VisibleIsSorted(entries: seq<Listed>, lt: (Bytes, Bytes) -> bool)
    requires Supported(entries) && Sorted(entries, lt)
    ensures Sorted(Visible(entries), lt)
    decreases |entries|
  {
    if entries != [] {
      VisibleIsSorted(entries[1..], lt);
      VisibleIsSupported(entries[1..]);
      var v := Visible(entries[1..]);
      if !IsMetadata(entries[0].name) {
        assert Visible(entries)[1..] == v;
        forall i | 1 <= i < |Visible(entries)|
          ensures lt(entries[0].name, Visible(entries)[i].name)
        {
          assert Visible(entries)[i] == v[i - 1] && v[i - 1] in v && v[i - 1] in entries[1..];
        }
      }
    }
  }

  /** The lengths of all names and contents fit their fields. */
  ghost predicate Digestible(entries: seq<Listed>)
    requires Supported(entries)
  {
    VisibleIsSupported(entries);
    AllFramable(Records([], Visible(entries)))
  }

  lemma AgreeingRecords(a: seq<Listed>, b: seq<Listed>, q: Path)
    requires Supported(a) && Supported(b) && q != [] && Records([], a) == Records([], b)
    ensures Lookup(a, q) == Lookup(b, q)
  {
    assert [] + q == q;
    if Lookup(a, q).Some? {
      RecordsAreLookup([], a, q, Lookup(a, q).value);
      RecordsAreLookup([], b, q, Lookup(a, q).value);
    } else if Lookup(b, q).Some? {
      RecordsAreLookup([], a, q, Lookup(b, q).value);
      RecordsAreLookup([], b, q, Lookup(b, q).value);
    }
  }

  /** The stream that is hashed is injective: two trees have equal streams if and only if they
      agree on every path outside the launcher's metadata. */
  lemma SameStreamIffAgree(a: seq<Listed>, b: seq<Listed>, lt: (Bytes, Bytes) -> bool)
    requires StrictOrder(lt) && Supported(a) && Supported(b) && Sorted(a, lt) && Sorted(b, lt)
    requires Digestible(a) && Digestible(b)
    ensures Stream(a) == Stream(b) <==> Agree(a, b)
  {
    var va, vb := Visible(a), Visible(b);
    VisibleIsSupported(a);
    VisibleIsSupported(b);
    if Stream(a) == Stream(b) {
      EncodeAllInjective(Records([], va), Records([], vb));
      forall q: Path | q != [] && !IsMetadata(q[0])
        ensures Lookup(a, q) == Lookup(b, q)
      {
        AgreeingRecords(va, vb, q);
        VisibleIsFound(a, q);
        VisibleIsFound(b, q);
      }
    }
    if Agree(a, b) {
      forall q: Path
        ensures Lookup(va, q) == Lookup(vb, q)
      {
        VisibleIsFound(a, q);
        VisibleIsFound(b, q);
      }
      VisibleIsSorted(a, lt);
      VisibleIsSorted(b, lt);
      SameWalkSameTree(va, vb, lt);
    }
  }

  // ----- the walk as the source writes it -----

  class Digest {
    var stream: Bytes

    constructor ()
      ensures stream == []
    {
      stream := [];
    }

    method Update(data: Bytes)
      modifies this
      ensures stream == old(stream) + data
    {
      stream := stream + data;
    }

    /** `record`: a header of thirteen bytes, the name, the mode and the contents. */
    method AddRecord(x: Record)
      modifies this
      ensures stream == old(stream) + Encode(x)
    {
      var name, content, mode := Join(x.path), ContentOf(x.fact), BigEndian(4, ModeOf(x.fact));
      var header := [KindByte(x.fact)] + BigEndian(4, |name|) + BigEndian(8, |content|);
      Update(header);
      Update(name);
      Update(mode);
      Update(content);
      Associates(old(stream), header, name);
      Associates(old(stream), header + name, mode);
      Associates(old(stream), header + name + mode, content);
    }

    /** The record of one entry of a directory, or the records of a directory below it. */
    method VisitEntry(p: Path, x: Listed)
      requires !x.item.Other? && (x.item.Folder? ==> Supported(x.item.entries))
      modifies this
      ensures stream == old(stream) + EncodeAll(ItemRecords(p + [x.name], x.item))
      decreases x.item, 0
    {
      if x.item.Folder? {
        Visit(p + [x.name], x.item.mode, x.item.entries);
      } else {
        AddRecord(Record(p + [x.name], FactOf(x.item)));
        SingleEncodes(p + [x.name], x.item);
      }
    }

    /** `visit`: a directory's own record first, then its entries in order; the launcher's files
        are skipped only at the root, which has no record. */
    method Visit(p: Path, mode: Mode, entries: seq<Listed>)
      requires Supported(entries)
      modifies this
      ensures stream ==
              old(stream) + if p == [] then Stream(entries) else EncodeAll(ItemRecords(p, Folder(mode, entries)))
      decreases entries, 1
    {
      if p != [] {
        AddRecord(Record(p, FolderFact(mode)));
        FolderEncodes(old(stream), p, mode, entries);
      }
      VisitEntries(p, entries);
    }

    method VisitEntries(p: Path, entries: seq<Listed>)
      requires Supported(entries)
      modifies this
      ensures stream == old(stream) + Encoded(p, entries)
      decreases entries, 0
    {
      ghost var whole := stream + Encoded(p, entries);
      var i := 0;
      assert entries[0..] == entries;
      while i < |entries|
        invariant 0 <= i <= |entries| && Supported(entries[i..])
        invariant whole == stream + Encoded(p, entries[i..])
      {
        var x := entries[i];
        assert entries[i..][0] == x && entries[i..][1..] == entries[i + 1..];
        NextEncodes(stream, p, entries[i..]);
        if !(p == [] && IsMetadata(x.name)) {
          VisitEntry(p, x);
        }
        i := i + 1;
      }
      NothingEncodes(stream, p, entries[i..]);
    }
  }

  lemma NothingEncodes(stream: Bytes, p: Path, entries: seq<Listed>)
    requires entries == []
    ensures stream + Encoded(p, entries) == stream
  {
    assert Kept(p, entries) == [] && Encoded(p, entries) == [];
  }

  function Kept(p: Path, entries: seq<Listed>): seq<Listed> {
    if p == [] then Visible(entries) else entries
  }

  lemma KeptIsSupported(p: Path, entries: seq<Listed>)
    requires Supported(entries)
    ensures Supported(Kept(p, entries))
  {
    VisibleIsSupported(entries);
  }

  /** What the entries of a directory contribute to the stream. */
  function Encoded(p: Path, entries: seq<Listed>): Bytes
    requires Supported(entries)
  {
    KeptIsSupported(p, entries);
    EncodeAll(Records(p, Kept(p, entries)))
  }

  lemma EncodeAllAppends(xs: seq<Record>, ys: seq<Record>)
    ensures EncodeAll(xs + ys) == EncodeAll(xs) + EncodeAll(ys)
  {
    assert Frames(xs + ys) == Frames(xs) + Frames(ys);
    ConcatAppends(Frames(xs), Frames(ys));
  }

  lemma EncodeOne(x: Record)
    ensures EncodeAll([x]) == Encode(x)
  {
    EncodeAllFirst([x]);
    assert [x][1..] == [] && Encode(x) + [] == Encode(x);
  }

  lemma FolderEncodes(start: Bytes, p: Path, mode: Mode, entries: seq<Listed>)
    requires Supported(entries) && p != []
    ensures start + EncodeAll(ItemRecords(p, Folder(mode, entries))) ==
            (start + Encode(Record(p, FolderFact(mode)))) + Encoded(p, entries)
  {
    var own := Record(p, FolderFact(mode));
    EncodeAllAppends([own], Records(p, entries));
    EncodeOne(own);
    Associates(start, Encode(own), Encoded(p, entries));
  }

  lemma SingleEncodes(p: Path, item: Item)
    requires !item.Other? && !item.Folder?
    ensures EncodeAll(ItemRecords(p, item)) == Encode(Record(p, FactOf(item)))
  {
    assert ItemRecords(p, item) == [Record(p, FactOf(item))];
    EncodeOne(Record(p, FactOf(item)));
  }

  lemma NextEncodes(stream: Bytes, p: Path, entries: seq<Listed>)
    requires Supported(entries) && entries != []
    ensures var x := entries[0];
            stream + Encoded(p, entries) ==
              (if p == [] && IsMetadata(x.name) then stream
               else stream + EncodeAll(ItemRecords(p + [x.name], x.item))) +
              Encoded(p, entries[1..])
  {
    var x := entries[0];
    KeptIsSupported(p, entries);
    KeptIsSupported(p, entries[1..]);
    if !(p == [] && IsMetadata(x.name)) {
      var kept := Kept(p, entries);
      assert kept[0] == x && kept[1..] == Kept(p, entries[1..]);
      EncodeAllAppends(ItemRecords(p + [x.name], x.item), Records(p, kept[1..]));
      Associates(stream, EncodeAll(ItemRecords(p + [x.name], x.item)), Encoded(p, entries[1..]));
    }
  }
}
