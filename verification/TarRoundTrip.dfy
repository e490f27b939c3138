/** Unpacking what `writeTar` wrote (`editors/vscode/launcher.js`): whatever the chunks, the
    same tree comes back. */
module TarRoundTrip {
  import opened Basics
  import opened Numerals
  import opened TarFormat
  import opened TarReader
  import opened TarArchive

  // ----- names and paths -----

  function Join(p: Path): Bytes
    decreases |p|
  {
    if p == [] then [] else Under(Join(p[..|p| - 1]), p[|p| - 1])
  }

  predicate GoodPath(p: Path) { forall i | 0 <= i < |p| :: GoodName(p[i]) }

  /** Paths below a child of `p`. */
  lemma Below(p: Path, name: Bytes, q: Path)
    requires q != []
    ensures p + [name] <= p + q <==> q[0] == name
    ensures q[0] == name ==> p + q == (p + [name]) + q[1..]
  {
    if q[0] == name {
      assert p + q == (p + [name]) + q[1..];
    } else {
      assert (p + q)[|p|] == q[0];
    }
  }

  lemma {:induction false} SplitName(part: Bytes, name: Bytes, rest: Bytes)
    requires SLASH !in name && part + name != []
    ensures SplitFrom(part, name) == [part + name]
    ensures SplitFrom(part, name + [SLASH] + rest) == [part + name] + SplitFrom([], rest)
    decreases |name|
  {
    if name == [] {
      assert part + name == part;
      assert name + [SLASH] + rest == [SLASH] + rest;
    } else {
      assert (part + [name[0]]) + name[1..] == part + name;
      assert (name + [SLASH] + rest)[1..] == name[1..] + [SLASH] + rest;
      SplitName(part + [name[0]], name[1..], rest);
    }
  }

  lemma {:induction false} SplitJoin(p: Path, rest: Bytes)
    requires p != [] && GoodPath(p)
    ensures Join(p) != [] && Join(p)[0] != SLASH
    ensures SplitFrom([], Join(p)) == p
    ensures SplitFrom([], Join(p) + [SLASH] + rest) == p + SplitFrom([], rest)
    decreases |p|, 1
  {
    var front, last := p[..|p| - 1], p[|p| - 1];
    assert p == front + [last];
    SplitName([], last, rest);
    assert [] + last == last;
    if front == [] {
      assert Join(front) == [];
    } else {
      SplitJoin(front, last);
      assert Join(p) == Join(front) + [SLASH] + last;
      SplitJoinMore(front, last, rest);
    }
  }

  lemma {:induction false} SplitJoinMore(front: Path, last: Bytes, rest: Bytes)
    requires front != [] && GoodPath(front + [last]) && GoodPath(front)
    requires SplitFrom([], last + [SLASH] + rest) == [last] + SplitFrom([], rest)
    ensures SplitFrom([], Join(front) + [SLASH] + last + [SLASH] + rest) == front + [last] + SplitFrom([], rest)
    decreases |front| + 1, 0
  {
    SplitJoin(front, last + [SLASH] + rest);
    assert Join(front) + [SLASH] + last + [SLASH] + rest == Join(front) + [SLASH] + (last + [SLASH] + rest);
    assert front + ([last] + SplitFrom([], rest)) == front + [last] + SplitFrom([], rest);
  }

  /** The names that the reader accepts, of those that the writer writes. */
  predicate AdmissibleName(name: Bytes) {
    && BACKSLASH !in name && !HasDrivePrefix(name)
    && (|name| > 100 ==> NEWLINE !in name)
  }

  lemma StoredNameIsSafe(p: Path, node: Node)
    requires p != [] && GoodPath(p)
    ensures var name := StoredName(Join(p), node);
            SafePath(name) == if BACKSLASH in name || HasDrivePrefix(name) then None else Some(p)
  {
    SplitJoin(p, []);
    assert Join(p) + [SLASH] + [] == Join(p) + [SLASH];
    assert p + SplitFrom([], []) == p;
    assert DOT !in p && DOTS !in p;
  }

  lemma {:induction false} JoinHasNoNul(p: Path)
    requires GoodPath(p)
    ensures 0 !in Join(p)
    decreases |p|
  {
    if p != [] {
      JoinHasNoNul(p[..|p| - 1]);
    }
  }

  // ----- the PAX record reads back -----

  lemma {:induction false} DigitsLead(digits: Bytes, rest: Bytes)
    requires AllDigits(digits, 10) && rest != [] && !IsDigit(rest[0], 10)
    ensures LeadingDigits(digits + rest) == |digits|
    decreases |digits|
  {
    if digits == [] {
      assert digits + rest == rest;
    } else {
      assert (digits + rest)[1..] == digits[1..] + rest;
      DigitsLead(digits[1..], rest);
    }
  }

  lemma MatchAfterDigits(name: Bytes)
    ensures var rest := [SPACE] + PaxValue(name);
            && |rest| == |name| + 7 && rest[..6] == [SPACE] + PATH_KEY
            && rest[|rest| - 1] == NEWLINE && rest[6..|rest| - 1] == name
  {
    var rest := [SPACE] + PaxValue(name);
    assert rest == ([SPACE] + PATH_KEY) + name + [NEWLINE];
  }

  lemma PaxReadsBack(name: Bytes)
    requires name != []
    ensures MatchPax(PaxRecord(name)) == if NEWLINE in name then None else Some(name)
  {
    var record := PaxRecord(name);
    var length: nat :| record == Numeral(length, 10) + [SPACE] + PaxValue(name) && |record| == length;
    NumeralReadsBack(length, 10);
    var digits, rest := Numeral(length, 10), [SPACE] + PaxValue(name);
    assert record == digits + rest;
    DigitsLead(digits, rest);
    assert record[|digits|..] == rest;
    MatchAfterDigits(name);
  }

  // ----- one entry -----

  /** The reader between two entries. */
  predicate Idle(r: Reader) { r.remaining == 0 && r.padding == 0 && r.pax.None? && r.paxData == [] }

  lemma ScanHeader(r: Reader, h: Bytes, tail: Bytes)
    requires |h| == BLOCK && r.remaining == 0 && r.padding == 0 && !AllZero(h)
    ensures Scan(r, h + tail) ==
            if StartEntry(r, h).Ok? then Scan(StartEntry(r, h).value, tail) else Fail(StartEntry(r, h).error)
  {
    assert (h + tail)[..BLOCK] == h && (h + tail)[BLOCK..] == tail;
  }

  lemma ScanPadding(r: Reader, tail: Bytes)
    requires r.remaining == 0
    ensures Scan(r, Zeros(r.padding) + tail) == Scan(r.(padding := 0), tail)
  {
    if r.padding == 0 {
      assert Zeros(r.padding) + tail == tail;
    } else {
      ScanPads(r, Zeros(r.padding) + tail, r.padding, tail);
    }
  }

  /** All of an entry's data, and its padding. */
  lemma ScanEntryData(r: Reader, data: Bytes, tail: Bytes)
    requires data != [] && r.remaining == |data|
    ensures Scan(r, data + Zeros(r.padding) + tail) ==
              if Take(r, data).Ok? then Scan(Take(r, data).value.(padding := 0), tail) else Fail(Take(r, data).error)
  {
    assert data + Zeros(r.padding) + tail == data + (Zeros(r.padding) + tail);
    ScanTakes(r, data + (Zeros(r.padding) + tail), data, Zeros(r.padding) + tail);
    if Take(r, data).Ok? {
      ScanPadding(Take(r, data).value, tail);
    }
  }

  lemma PaxNameIsPlain()
    ensures |PAX_NAME| <= 100 && 0 !in PAX_NAME && |PAX_FILE| <= 100 && 0 !in PAX_FILE
  {
  }

  lemma Regroup(a: Bytes, b: Bytes, c: Bytes, d: Bytes, e: Bytes)
    ensures a + b + c + d + e == a + (b + (c + d + e))
    ensures a == [] ==> a + b + c + d + e == b + (c + d + e)
  {
  }

  /** The reader behind the header of a PAX record. */
  function AtPax(r: Reader, name: Bytes): Reader {
    r.(entry := Entry(PAX_TYPE, []), remaining := |PaxRecord(name)|, padding := Pad(|PaxRecord(name)|))
  }

  /** What taking the data of an entry leads to. */
  function Continued(taken: Result<Reader, Files>, tail: Bytes): Scanned {
    match taken case Ok(r) => Scan(r.(padding := 0), tail) case Err(fs) => Fail(fs)
  }

  lemma PaxBlocksAre(name: Bytes, tail: Bytes)
    requires Fits(12, |PaxRecord(name)|)
    ensures var record := PaxRecord(name);
            PaxBlocks(name) + tail ==
            Header(PAX_NAME, |record|, PAX_MODE, PAX_TYPE) + (record + Zeros(Pad(|record|)) + tail)
  {
    var record := PaxRecord(name);
    Regroup([], Header(PAX_NAME, |record|, PAX_MODE, PAX_TYPE), record, Zeros(Pad(|record|)), tail);
  }

  lemma PaxScans(r: Reader, name: Bytes, tail: Bytes)
    requires Idle(r) && Fits(12, |PaxRecord(name)|)
    ensures Scan(r, PaxBlocks(name) + tail) == Continued(Take(AtPax(r, name), PaxRecord(name)), tail)
  {
    var record := PaxRecord(name);
    PaxBlocksAre(name, tail);
    PaxHeaderOpens(r, name);
    BlocksRead(r, Header(PAX_NAME, |record|, PAX_MODE, PAX_TYPE), record, tail, AtPax(r, name));
  }

  /** The PAX blocks leave nothing but the name, or are refused for a newline in it. */
  lemma PaxReads(r: Reader, name: Bytes, tail: Bytes)
    requires Idle(r) && name != [] && Fits(12, |PaxRecord(name)|)
    ensures Scan(r, PaxBlocks(name) + tail) ==
              if NEWLINE in name then Fail(r.fs)
              else Scan(r.(pax := Some(name), entry := Entry(PAX_TYPE, [])), tail)
  {
    PaxScans(r, name, tail);
    TakesPax(AtPax(r, name), name);
  }

  /** A header with its data, given what each of them does. */
  lemma BlocksRead(r: Reader, h: Bytes, data: Bytes, tail: Bytes, r1: Reader)
    requires |h| == BLOCK && r.remaining == 0 && r.padding == 0 && !AllZero(h) && StartEntry(r, h) == Ok(r1)
    requires data != [] && r1.remaining == |data|
    ensures Scan(r, h + (data + Zeros(r1.padding) + tail)) ==
              if Take(r1, data).Ok? then Scan(Take(r1, data).value.(padding := 0), tail) else Fail(Take(r1, data).error)
  {
    ScanHeader(r, h, data + Zeros(r1.padding) + tail);
    ScanEntryData(r1, data, tail);
  }

  lemma TakesPax(r: Reader, name: Bytes)
    requires name != [] && r.entry.kind == PAX_TYPE && r.paxData == [] && r.remaining == |PaxRecord(name)| > 0
    ensures Take(r, PaxRecord(name)) == if NEWLINE in name then Err(r.fs) else Ok(r.(remaining := 0, pax := Some(name)))
  {
    assert [] + PaxRecord(name) == PaxRecord(name);
    PaxReadsBack(name);
  }

  lemma PaxHeaderOpens(r: Reader, name: Bytes)
    requires Idle(r) && Fits(12, |PaxRecord(name)|)
    ensures var record := PaxRecord(name);
            var h := Header(PAX_NAME, |record|, PAX_MODE, PAX_TYPE);
            && !AllZero(h)
            && StartEntry(r, h) == Ok(r.(entry := Entry(PAX_TYPE, []), remaining := |record|, padding := Pad(|record|)))
  {
    PaxNameIsPlain();
    HeaderReadsBack(PAX_NAME, |PaxRecord(name)|, PAX_MODE, PAX_TYPE);
  }

  /** The path and everything above it are directories. */
  predicate Ready(fs: Files, p: Path)
    decreases |p|
  {
    IsDir(fs, p) && (p != [] ==> Ready(fs, Parent(p)))
  }

  lemma {:induction false} MkdirIsDone(fs: Files, p: Path, mode: nat)
    requires Ready(fs, p)
    ensures MkdirAll(fs, p, mode) == Some(fs)
    decreases |p|
  {
    if p != [] {
      MkdirIsDone(fs, Parent(p), mode);
    }
  }

  function InodeOf(node: Node): Inode
    requires !node.Special?
  {
    if node.Dir? then DirNode(node.mode) else FileNode(node.mode, node.content)
  }

  /** The reader just after a header: the entry exists, its data is still to come. */
  function Opened(r: Reader, p: Path, node: Node): Reader
    requires !node.Special?
  {
    Reader(r.fs[p := if node.Dir? then DirNode(node.mode) else FileNode(node.mode, [])],
           Entry(Kind(node), p), |Data(node)|, Pad(|Data(node)|), None, r.paxData)
  }

  /** A header opens its entry when the name, from the header or from the PAX record before it,
      is one the reader accepts. */
  lemma HeaderOpens(r: Reader, h: Bytes, p: Path, node: Node, name: Bytes)
    requires |h| == BLOCK && r.remaining == 0 && r.padding == 0
    requires p != [] && GoodPath(p) && !node.Special? && Ready(r.fs, Parent(p)) && p !in r.fs
    requires name == StoredName(Join(p), node) && EntryName(r, h) == name
    requires ReadNumber(h, 148, 8) == Some(Checksum(h)) && ReadNumber(h, 124, 12) == Some(|Data(node)|)
    requires ReadNumber(h, 100, 8) == Some(node.mode) && Field(h, 156, 1) == [Kind(node)]
    ensures StartEntry(r, h) == if BACKSLASH in name || HasDrivePrefix(name) then Err(r.fs) else Ok(Opened(r, p, node))
  {
    StoredNameIsSafe(p, node);
    MkdirIsDone(r.fs, Parent(p), node.mode);
    MkdirIsDone(r.fs, Parent(p), DEFAULT_MODE);
    assert Parent(p) == p[..|p| - 1];
    assert r.fs[p := DirNode(node.mode)][p := DirNode(node.mode)] == r.fs[p := DirNode(node.mode)];
  }

  lemma DataReads(r: Reader, p: Path, node: Node, tail: Bytes)
    requires !node.Special? && r.paxData == []
    ensures Scan(Opened(r, p, node), Data(node) + Zeros(Pad(|Data(node)|)) + tail) ==
            Scan(Reader(r.fs[p := InodeOf(node)], Entry(Kind(node), p), 0, 0, None, []), tail)
  {
    var r1, data := Opened(r, p, node), Data(node);
    if data == [] {
      assert Pad(0) == 0;
      assert data + Zeros(Pad(|data|)) + tail == tail;
      assert node.File? ==> node.content == [];
    } else {
      ScanEntryData(r1, data, tail);
      assert [] + data == data;
      assert r.fs[p := FileNode(node.mode, [])][p := FileNode(node.mode, data)] == r.fs[p := FileNode(node.mode, data)];
    }
  }

  /** The header and data of an entry, its name being known to the reader. */
  lemma BodyReads(r: Reader, p: Path, node: Node, short: Bytes, tail: Bytes)
    requires r.remaining == 0 && r.padding == 0 && r.paxData == []
    requires p != [] && GoodPath(p) && !node.Special? && Ready(r.fs, Parent(p)) && p !in r.fs
    requires |short| <= 100 && 0 !in short && Fits(12, |Data(node)|)
    requires r.pax == Some(StoredName(Join(p), node)) || (r.pax == None && short == StoredName(Join(p), node))
    ensures var name, data := StoredName(Join(p), node), Data(node);
            Scan(r, Header(short, |data|, node.mode, Kind(node)) + (data + Zeros(Pad(|data|)) + tail)) ==
              if BACKSLASH in name || HasDrivePrefix(name) then Fail(r.fs)
              else Scan(Reader(r.fs[p := InodeOf(node)], Entry(Kind(node), p), 0, 0, None, []), tail)
  {
    var data := Data(node);
    var h := Header(short, |data|, node.mode, Kind(node));
    HeaderReadsBack(short, |data|, node.mode, Kind(node));
    SplitJoin(p, []);
    ScanHeader(r, h, data + Zeros(Pad(|data|)) + tail);
    HeaderOpens(r, h, p, node, StoredName(Join(p), node));
    DataReads(r, p, node, tail);
  }

  predicate EntryFits(r: Reader, p: Path, node: Node) {
    && Idle(r) && p != [] && GoodPath(p) && !node.Special? && Ready(r.fs, Parent(p)) && p !in r.fs
    && FitsEntry(StoredName(Join(p), node), Data(node))
  }

  lemma ShortEntryReads(r: Reader, p: Path, node: Node, tail: Bytes)
    requires EntryFits(r, p, node) && |StoredName(Join(p), node)| <= 100
    ensures var name := StoredName(Join(p), node);
            Scan(r, EntryBlocks(name, Data(node), node.mode, Kind(node)) + tail) ==
              if BACKSLASH in name || HasDrivePrefix(name) then Fail(r.fs)
              else Scan(Reader(r.fs[p := InodeOf(node)], Entry(Kind(node), p), 0, 0, None, []), tail)
  {
    var name, data := StoredName(Join(p), node), Data(node);
    JoinHasNoNul(p);
    Regroup([], Header(name, |data|, node.mode, Kind(node)), data, Zeros(Pad(|data|)), tail);
    BodyReads(r, p, node, name, tail);
  }

  lemma LongEntryReads(r: Reader, p: Path, node: Node, tail: Bytes)
    requires EntryFits(r, p, node) && |StoredName(Join(p), node)| > 100
    ensures var name := StoredName(Join(p), node);
            Scan(r, EntryBlocks(name, Data(node), node.mode, Kind(node)) + tail) ==
              if NEWLINE in name || BACKSLASH in name || HasDrivePrefix(name) then Fail(r.fs)
              else Scan(Reader(r.fs[p := InodeOf(node)], Entry(Kind(node), p), 0, 0, None, []), tail)
  {
    var name, data := StoredName(Join(p), node), Data(node);
    PaxNameIsPlain();
    var h := Header(PAX_FILE, |data|, node.mode, Kind(node));
    Regroup(PaxBlocks(name), h, data, Zeros(Pad(|data|)), tail);
    PaxReads(r, name, h + (data + Zeros(Pad(|data|)) + tail));
    if NEWLINE !in name {
      BodyReads(r.(pax := Some(name), entry := Entry(PAX_TYPE, [])), p, node, PAX_FILE, tail);
    }
  }

  /** One entry: created with its mode and contents, or refused for its name. */
  lemma EntryReads(r: Reader, p: Path, node: Node, tail: Bytes)
    requires EntryFits(r, p, node)
    ensures var name := StoredName(Join(p), node);
            Scan(r, EntryBlocks(name, Data(node), node.mode, Kind(node)) + tail) ==
              if AdmissibleName(name)
              then Scan(Reader(r.fs[p := InodeOf(node)], Entry(Kind(node), p), 0, 0, None, []), tail)
              else Fail(r.fs)
  {
    if |StoredName(Join(p), node)| > 100 {
      LongEntryReads(r, p, node, tail);
    } else {
      ShortEntryReads(r, p, node, tail);
    }
  }

  // ----- a whole tree -----

  /** The file system that a tree describes. */
  function Image(p: Path, node: Node): Files
    requires WritableNode(Join(p), node)
    decreases node, 1
  {
    map[p := InodeOf(node)] + (if node.Dir? then ImageOf(p, node.children) else map[])
  }

  function ImageOf(p: Path, nodes: seq<Named>): Files
    requires WritableNodes(Join(p), nodes)
    decreases nodes, 0
  {
    if nodes == [] then map[]
    else
      JoinUnder(p, nodes[0].name);
      Image(p + [nodes[0].name], nodes[0].node) + ImageOf(p, nodes[1..])
  }

  lemma JoinUnder(p: Path, name: Bytes)
    ensures Join(p + [name]) == Under(Join(p), name)
  {
    assert (p + [name])[..|p|] == p;
  }

  predicate AdmissibleNode(p: Path, node: Node)
    decreases node, 1
  {
    AdmissibleName(StoredName(Join(p), node)) && (node.Dir? ==> AdmissibleNodes(p, node.children))
  }

  /** The reader accepts every name of the tree. */
  predicate AdmissibleNodes(p: Path, nodes: seq<Named>)
    decreases nodes, 0
  {
    nodes != [] ==> AdmissibleNode(p + [nodes[0].name], nodes[0].node) && AdmissibleNodes(p, nodes[1..])
  }

  /** Nothing exists at `p` or below it. */
  ghost predicate Free(fs: Files, p: Path) { forall q | q in fs :: !(p <= q) }

  ghost predicate FreeFor(fs: Files, p: Path, nodes: seq<Named>) {
    forall i | 0 <= i < |nodes| :: Free(fs, p + [nodes[i].name])
  }

  lemma {:induction false} ImageIsBelow(p: Path, node: Node, q: Path)
    requires WritableNode(Join(p), node) && q in Image(p, node)
    ensures p <= q
    decreases node, 1
  {
    if q != p {
      ImageOfIsBelow(p, node.children, q);
    }
  }

  lemma {:induction false} ImageOfIsBelow(p: Path, nodes: seq<Named>, q: Path)
    requires WritableNodes(Join(p), nodes) && q in ImageOf(p, nodes)
    ensures p < q
    ensures exists i | 0 <= i < |nodes| :: p + [nodes[i].name] <= q
    decreases nodes, 0
  {
    JoinUnder(p, nodes[0].name);
    var first := p + [nodes[0].name];
    if q in Image(first, nodes[0].node) {
      ImageIsBelow(first, nodes[0].node, q);
      assert p < first;
    } else {
      var rest := nodes[1..];
      ImageOfIsBelow(p, rest, q);
      var i :| 0 <= i < |rest| && p + [rest[i].name] <= q;
      assert rest[i] == nodes[i + 1];
    }
  }

  lemma {:induction false} ReadyIsKept(fs: Files, more: Files, p: Path)
    requires Ready(fs, p) && forall q | q in more :: |q| > |p|
    ensures Ready(fs + more, p)
    decreases |p|
  {
    if p != [] {
      ReadyIsKept(fs, more, Parent(p));
    }
  }

  /** The siblings of a node stay free while the node is created. */
  lemma SiblingsStayFree(fs: Files, p: Path, nodes: seq<Named>)
    requires nodes != [] && GoodNodes(nodes) && WritableNodes(Join(p), nodes) && FreeFor(fs, p, nodes)
    ensures WritableNode(Join(p + [nodes[0].name]), nodes[0].node)
    ensures FreeFor(fs + Image(p + [nodes[0].name], nodes[0].node), p, nodes[1..])
  {
    var first := p + [nodes[0].name];
    JoinUnder(p, nodes[0].name);
    var more := Image(first, nodes[0].node);
    forall i | 0 <= i < |nodes[1..]|
      ensures Free(fs + more, p + [nodes[1..][i].name])
    {
      var other := p + [nodes[1..][i].name];
      assert nodes[1..][i] == nodes[i + 1] && Free(fs, p + [nodes[i + 1].name]);
      forall q | q in more
        ensures !(other <= q)
      {
        ImageIsBelow(first, nodes[0].node, q);
        assert q[|p|] == nodes[0].name && other[|p|] == nodes[1..][i].name;
      }
    }
  }

  /** The reader gets through `blocks` into the idle reader `r1` with `image` added to its file
      system, or, when not `ok`, gives up somewhere in them. */
  ghost predicate Reads(r: Reader, blocks: Bytes, tail: Bytes, ok: bool, r1: Reader, image: Files) {
    if ok then Idle(r1) && r1.fs == r.fs + image && Scan(r, blocks + tail) == Scan(r1, tail)
    else Scan(r, blocks + tail).Fail?
  }

  lemma ReadsThenReads(
    r: Reader, b1: Bytes, b2: Bytes, tail: Bytes, r1: Reader, image1: Files, ok: bool, r2: Reader, image2: Files)
    requires Reads(r, b1, b2 + tail, true, r1, image1) && Reads(r1, b2, tail, ok, r2, image2)
    ensures Reads(r, b1 + b2, tail, ok, r2, image1 + image2)
  {
    Associates(b1, b2, tail);
    assert (r.fs + image1) + image2 == r.fs + (image1 + image2);
  }

  lemma FailsThenFails(r: Reader, b1: Bytes, b2: Bytes, tail: Bytes, r1: Reader, image: Files)
    requires Reads(r, b1, b2 + tail, false, r1, image)
    ensures Reads(r, b1 + b2, tail, false, r1, image)
  {
    Associates(b1, b2, tail);
  }

  function Entered(r: Reader, p: Path, node: Node): Reader
    requires !node.Special?
  {
    Reader(r.fs[p := InodeOf(node)], Entry(Kind(node), p), 0, 0, None, [])
  }

  lemma EntryIsRead(r: Reader, p: Path, node: Node, tail: Bytes)
    requires EntryFits(r, p, node)
    ensures var name := StoredName(Join(p), node);
            Reads(r, EntryBlocks(name, Data(node), node.mode, Kind(node)), tail, AdmissibleName(name),
                  Entered(r, p, node), map[p := InodeOf(node)])
  {
    EntryReads(r, p, node, tail);
    assert r.fs[p := InodeOf(node)] == r.fs + map[p := InodeOf(node)];
  }

  /** What a place in the archive needs of the reader that comes to it. */
  ghost predicate ReadyFor(r: Reader, p: Path, nodes: seq<Named>) {
    Idle(r) && GoodPath(p) && Ready(r.fs, p) && FreeFor(r.fs, p, nodes)
  }

  lemma DirIsReady(r: Reader, p: Path, node: Node)
    requires node.Dir? && p != [] && GoodPath(p) && Ready(r.fs, Parent(p)) && Free(r.fs, p)
    ensures ReadyFor(Entered(r, p, node), p, node.children)
  {
    var fs := Entered(r, p, node).fs;
    ReadyIsKept(r.fs, map[p := InodeOf(node)], Parent(p));
    assert r.fs + map[p := InodeOf(node)] == fs;
    forall i | 0 <= i < |node.children|
      ensures Free(fs, p + [node.children[i].name])
    {
      NothingBelow(fs, p, node.children[i].name);
    }
  }

  lemma NothingBelow(fs: Files, p: Path, name: Bytes)
    requires forall q | q in fs :: p <= q ==> q == p
    ensures Free(fs, p + [name])
  {
    forall q | q in fs
      ensures !(p + [name] <= q)
    {
      assert p + [name] <= q ==> p <= q && q != p;
    }
  }

  lemma {:induction false} NodeReads(r: Reader, p: Path, node: Node, tail: Bytes) returns (r1: Reader)
    requires Idle(r) && p != [] && GoodPath(p) && GoodNode(node) && WritableNode(Join(p), node)
    requires Ready(r.fs, Parent(p)) && Free(r.fs, p)
    ensures Reads(r, NodeBlocks(Join(p), node), tail, AdmissibleNode(p, node), r1, Image(p, node))
    decreases node, 1
  {
    assert p !in r.fs;
    var name := StoredName(Join(p), node);
    var entry := EntryBlocks(name, Data(node), node.mode, Kind(node));
    var below, image := [], map[];
    if node.Dir? {
      below, image := TreeBlocks(Join(p), node.children), ImageOf(p, node.children);
    }
    EntryIsRead(r, p, node, below + tail);
    r1 := Entered(r, p, node);
    if !AdmissibleName(name) {
      FailsThenFails(r, entry, below, tail, r1, map[p := InodeOf(node)]);
    } else {
      var mid, ok := r1, true;
      if node.Dir? {
        DirIsReady(r, p, node);
        ok := AdmissibleNodes(p, node.children);
        r1 := NodesRead(mid, p, node.children, tail);
      } else {
        NothingIsRead(mid, tail);
      }
      ReadsThenReads(r, entry, below, tail, mid, map[p := InodeOf(node)], ok, r1, image);
    }
  }

  lemma NothingIsRead(r: Reader, tail: Bytes)
    requires Idle(r)
    ensures Reads(r, [], tail, true, r, map[])
  {
    assert [] + tail == tail && r.fs + map[] == r.fs;
  }

  lemma NextIsReady(r: Reader, p: Path, nodes: seq<Named>, r1: Reader)
    requires nodes != [] && GoodNodes(nodes) && WritableNodes(Join(p), nodes) && ReadyFor(r, p, nodes) && Idle(r1)
    requires WritableNode(Join(p + [nodes[0].name]), nodes[0].node)
    requires r1.fs == r.fs + Image(p + [nodes[0].name], nodes[0].node)
    ensures ReadyFor(r1, p, nodes[1..])
  {
    var first := p + [nodes[0].name];
    SiblingsStayFree(r.fs, p, nodes);
    forall q | q in Image(first, nodes[0].node)
      ensures |q| > |p|
    {
      ImageIsBelow(first, nodes[0].node, q);
    }
    ReadyIsKept(r.fs, Image(first, nodes[0].node), p);
  }

  lemma {:induction false} NodesRead(r: Reader, p: Path, nodes: seq<Named>, tail: Bytes) returns (r1: Reader)
    requires GoodNodes(nodes) && WritableNodes(Join(p), nodes) && ReadyFor(r, p, nodes)
    ensures Reads(r, TreeBlocks(Join(p), nodes), tail, AdmissibleNodes(p, nodes), r1, ImageOf(p, nodes))
    decreases nodes, 0
  {
    r1 := r;
    if nodes == [] {
      NothingIsRead(r, tail);
    } else {
      var first := p + [nodes[0].name];
      JoinUnder(p, nodes[0].name);
      var head, rest := NodeBlocks(Join(first), nodes[0].node), TreeBlocks(Join(p), nodes[1..]);
      assert Parent(first) == p && Free(r.fs, p + [nodes[0].name]);
      var image := Image(first, nodes[0].node);
      r1 := NodeReads(r, first, nodes[0].node, rest + tail);
      if AdmissibleNode(first, nodes[0].node) {
        var mid := r1;
        NextIsReady(r, p, nodes, mid);
        r1 := NodesRead(mid, p, nodes[1..], tail);
        ReadsThenReads(r, head, rest, tail, mid, image, AdmissibleNodes(p, nodes[1..]), r1, ImageOf(p, nodes[1..]));
      } else {
        FailsThenFails(r, head, rest, tail, r1, image);
      }
    }
  }
}
