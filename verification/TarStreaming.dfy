/** The main results about the seed archive (`writeTar` and `unpackTar` in
    `editors/vscode/launcher.js`): what is unpacked is the tree that was packed, however the
    stream is cut into chunks, and exactly which cuts are reported as a truncated archive. */
module TarStreaming {
  import opened Basics
  import opened Numerals
  import opened TarFormat
  import opened TarReader
  import opened TarArchive
  import opened TarRoundTrip

  /** The chunk that completes the first `limit` bytes ends strictly inside the block after
      them; `done` bytes came before `chunks`. */
  predicate CutsInside(done: nat, chunks: seq<Bytes>, limit: nat)
    decreases |chunks|
  {
    chunks != [] &&
    var now := done + |chunks[0]|;
    if now < limit then CutsInside(now, chunks[1..], limit) else limit < now < limit + BLOCK
  }

  // ----- after the first block of zeros -----

  lemma ZerosSplit(a: Bytes, b: Bytes, n: nat)
    requires a + b == Zeros(n)
    ensures |a| <= n && a == Zeros(|a|) && b == Zeros(n - |a|)
  {
    assert a == (a + b)[..|a|] && b == (a + b)[|a|..];
  }

  lemma ScanZeros(r: Reader, n: nat)
    requires Idle(r) && n <= BLOCK
    ensures Scan(r, Zeros(n)) == if n == BLOCK then End(r, []) else More(r, Zeros(n))
  {
    if n == BLOCK {
      assert Zeros(n)[..BLOCK] == Zeros(n) && Zeros(n)[BLOCK..] == [];
    }
  }

  /** An idle reader that gets `m + n <= 512` more zeros in all is content with none or with a
      whole block. */
  lemma {:induction false} ZeroTail(r: Reader, m: nat, chunks: seq<Bytes>, n: nat)
    requires Idle(r) && Concat(chunks) == Zeros(n) && m < BLOCK && m + n <= BLOCK
    ensures Unpack(r, Zeros(m), chunks) == if m + n == 0 || m + n == BLOCK then Unpacked(r.fs) else Truncated(r.fs)
    decreases |chunks|
  {
    if chunks == [] {
      assert n == 0 by { assert |Concat(chunks)| == n; }
    } else {
      ZerosSplit(chunks[0], Concat(chunks[1..]), n);
      var k := |chunks[0]|;
      assert Zeros(m) + chunks[0] == Zeros(m + k);
      ScanZeros(r, m + k);
      if m + k == BLOCK {
        assert Zeros(0) == [];
        ZeroTail(r, 0, chunks[1..], 0);
      } else {
        ZeroTail(r, m + k, chunks[1..], n - k);
      }
    }
  }

  // ----- up to the first block of zeros -----

  /** Before its end, the archive neither ends nor fails. */
  lemma PrefixIsMore(r: Reader, p: Bytes, q: Bytes)
    requires Scan(r, p + q).End? && Scan(r, p + q).dropped == [] && q != []
    ensures Scan(r, p).More?
  {
    ScanSplits(r, p, q);
    assert forall d: Bytes :: |d + q| > 0;
  }

  /** Chunk by chunk through an archive `body + 512 zeros` and `more` zeros after it; `p` is what
      was consumed so far. */
  lemma {:induction false} ChunksThrough(r0: Reader, first: Bytes, more: nat, p: Bytes, chunks: seq<Bytes>, r1: Reader)
    requires Scan(r0, first) == End(r1, []) && Idle(r1) && more == BLOCK
    requires |p| < |first| && p + Concat(chunks) == first + Zeros(more)
    requires Scan(r0, p).More?
    ensures Unpack(Scan(r0, p).reader, Scan(r0, p).rest, chunks) ==
              if CutsInside(|p|, chunks, |first|) then Truncated(r1.fs) else Unpacked(r1.fs)
    decreases |chunks|
  {
    assert chunks != [] by { assert |p + Concat(chunks)| == |first| + more; }
    var c, rest := chunks[0], Concat(chunks[1..]);
    Associates(p, c, rest);
    ScanSplits(r0, p, c);
    var next := p + c;
    if |next| < |first| {
      StillMore(r0, first, more, next, rest, r1);
      ChunksThrough(r0, first, more, next, chunks[1..], r1);
    } else {
      CompletingChunk(r0, first, more, next, rest, r1);
      TailAfter(r1, next[|first|..], chunks[1..], more);
    }
  }

  lemma StillMore(r0: Reader, first: Bytes, more: nat, next: Bytes, rest: Bytes, r1: Reader)
    requires Scan(r0, first) == End(r1, []) && |next| < |first| && next + rest == first + Zeros(more)
    ensures Scan(r0, next).More?
  {
    assert next == first[..|next|] by { assert next == (next + rest)[..|next|]; }
    assert next + first[|next|..] == first;
    PrefixIsMore(r0, next, first[|next|..]);
  }

  lemma TailAfter(r1: Reader, dropped: Bytes, chunks: seq<Bytes>, more: nat)
    requires Idle(r1) && more == BLOCK && dropped + Concat(chunks) == Zeros(more)
    ensures |dropped| <= more
    ensures Unpack(r1, [], chunks) == if |dropped| == 0 || |dropped| == more then Unpacked(r1.fs) else Truncated(r1.fs)
  {
    ZerosSplit(dropped, Concat(chunks), more);
    assert Zeros(0) == [];
    ZeroTail(r1, 0, chunks, more - |dropped|);
  }

  lemma CompletingChunk(r0: Reader, first: Bytes, more: nat, next: Bytes, rest: Bytes, r1: Reader)
    requires Scan(r0, first) == End(r1, []) && |next| >= |first| && next + rest == first + Zeros(more)
    ensures next[|first|..] + rest == Zeros(more)
    ensures Scan(r0, next) == End(r1, next[|first|..])
  {
    assert next[..|first|] == first by {
      assert next[..|first|] == (next + rest)[..|first|];
      assert (first + Zeros(more))[..|first|] == first;
    }
    assert next[|first|..] + rest == (next + rest)[|first|..];
    assert (first + Zeros(more))[|first|..] == Zeros(more);
    assert first + next[|first|..] == next;
    ScanSplits(r0, first, next[|first|..]);
    assert [] + next[|first|..] == next[|first|..];
  }

  /** A stream that fails as a whole fails in some chunk. */
  lemma {:induction false} ChunksFail(r0: Reader, p: Bytes, chunks: seq<Bytes>)
    requires Scan(r0, p + Concat(chunks)).Fail? && Scan(r0, p).More?
    ensures Unpack(Scan(r0, p).reader, Scan(r0, p).rest, chunks).Rejected?
    decreases |chunks|
  {
    assert chunks == [] ==> p + Concat(chunks) == p;
    if chunks != [] {
      var c, rest := chunks[0], Concat(chunks[1..]);
      Associates(p, c, rest);
      ScanSplits(r0, p, c);
      ScanSplits(r0, p + c, rest);
      if Scan(r0, p + c).More? {
        ChunksFail(r0, p + c, chunks[1..]);
      }
    }
  }

  // ----- the results -----

  lemma EmptyDestinationIsReady(nodes: seq<Named>)
    ensures ReadyFor(NewReader(), [], nodes)
    ensures Scan(NewReader(), []) == More(NewReader(), [])
  {
  }

  /** Packing and unpacking: for every tree that can be written and every chunking of its
      archive, the destination holds exactly the image of the tree when the reader accepts every
      name, and the archive is refused otherwise. It is reported as truncated exactly when the
      chunk that completes the first zero block ends strictly inside the second. */
  lemma RoundTrip(nodes: seq<Named>, chunks: seq<Bytes>)
    requires GoodNodes(nodes) && WritableNodes([], nodes) && Concat(chunks) == Archive(nodes)
    ensures AdmissibleNodes([], nodes) ==>
              Unpack(NewReader(), [], chunks) ==
                if CutsInside(0, chunks, |Archive(nodes)| - BLOCK) then Truncated(ImageOf([], nodes))
                else Unpacked(ImageOf([], nodes))
    ensures !AdmissibleNodes([], nodes) ==> Unpack(NewReader(), [], chunks).Rejected?
  {
    var r0, tree := NewReader(), TreeBlocks([], nodes);
    EmptyDestinationIsReady(nodes);
    if AdmissibleNodes([], nodes) {
      var r1 := NodesRead(r0, [], nodes, Zeros(BLOCK));
      ScanZeros(r1, BLOCK);
      var first := tree + Zeros(BLOCK);
      assert first + Zeros(BLOCK) == Archive(nodes) by { assert Zeros(BLOCK) + Zeros(BLOCK) == Zeros(2 * BLOCK); }
      assert r0.fs + ImageOf([], nodes) == ImageOf([], nodes);
      assert [] + Concat(chunks) == Concat(chunks);
      ChunksThrough(r0, first, BLOCK, [], chunks, r1);
    } else {
      var _ := NodesRead(r0, [], nodes, Zeros(2 * BLOCK));
      assert [] + Concat(chunks) == Concat(chunks);
      ChunksFail(r0, [], chunks);
    }
  }

  // ----- the image is the tree -----

  function Find(nodes: seq<Named>, name: Bytes): Option<Node>
  {
    if nodes == [] then None else if nodes[0].name == name then Some(nodes[0].node) else Find(nodes[1..], name)
  }

  /** What a walk down the tree finds at a path. */
  function Lookup(nodes: seq<Named>, q: Path): Option<Inode>
    decreases |q|
  {
    if q == [] then None
    else
      match Find(nodes, q[0])
      case None => None
      case Some(node) =>
        if |q| == 1 then (if node.Special? then None else Some(InodeOf(node)))
        else if node.Dir? then Lookup(node.children, q[1..]) else None
  }

  lemma FindIsNamed(nodes: seq<Named>, name: Bytes)
    ensures Find(nodes, name).Some? <==> HasName(nodes, name)
  {
    if nodes != [] {
      FindIsNamed(nodes[1..], name);
      if HasName(nodes[1..], name) {
        var i :| 0 <= i < |nodes[1..]| && nodes[1..][i].name == name;
        assert nodes[i + 1].name == name;
      }
      if HasName(nodes, name) && nodes[0].name != name {
        var i :| 0 <= i < |nodes| && nodes[i].name == name;
        assert nodes[1..][i - 1].name == name;
      }
    }
  }

  lemma {:induction false} NodeImageIsLookup(p: Path, node: Node, q: Path)
    requires GoodNode(node) && WritableNode(Join(p), node)
    ensures p + q in Image(p, node) <==> (q == [] || (node.Dir? && Lookup(node.children, q).Some?))
    ensures p + q in Image(p, node) ==>
              Image(p, node)[p + q] == if q == [] then InodeOf(node) else Lookup(node.children, q).value
    decreases node, 1
  {
    assert q == [] ==> p + q == p;
    assert q != [] ==> p + q != p;
    if node.Dir? {
      if q == [] {
        assert p !in ImageOf(p, node.children) by {
          if p in ImageOf(p, node.children) {
            ImageOfIsBelow(p, node.children, p);
          }
        }
      } else {
        ImageIsLookup(p, node.children, q);
      }
    }
  }

  /** The image holds at every path what a walk down the tree finds there: the same paths, kinds,
      modes and contents, and nothing else. */
  lemma {:induction false} ImageIsLookup(p: Path, nodes: seq<Named>, q: Path)
    requires GoodNodes(nodes) && WritableNodes(Join(p), nodes)
    ensures p + q in ImageOf(p, nodes) <==> Lookup(nodes, q).Some?
    ensures p + q in ImageOf(p, nodes) ==> ImageOf(p, nodes)[p + q] == Lookup(nodes, q).value
    decreases nodes, 0, 1
  {
    if q == [] {
      assert p + q == p;
      if p in ImageOf(p, nodes) {
        ImageOfIsBelow(p, nodes, p);
      }
    } else if nodes != [] {
      ImageIsLookup(p, nodes[1..], q);
      if q[0] == nodes[0].name {
        FirstIsLookup(p, nodes, q);
      } else {
        OtherIsLookup(p, nodes, q);
      }
    }
  }

  lemma {:induction false} FirstIsLookup(p: Path, nodes: seq<Named>, q: Path)
    requires nodes != [] && GoodNodes(nodes) && WritableNodes(Join(p), nodes) && q != [] && q[0] == nodes[0].name
    requires p + q in ImageOf(p, nodes[1..]) ==> Lookup(nodes[1..], q).Some?
    ensures p + q in ImageOf(p, nodes) <==> Lookup(nodes, q).Some?
    ensures p + q in ImageOf(p, nodes) ==> ImageOf(p, nodes)[p + q] == Lookup(nodes, q).value
    decreases nodes, 0, 0
  {
    var name, node := nodes[0].name, nodes[0].node;
    JoinUnder(p, name);
    Below(p, name, q);
    FindIsNamed(nodes[1..], name);
    assert Lookup(nodes[1..], q).None?;
    NodeImageIsLookup(p + [name], node, q[1..]);
  }

  lemma OtherIsLookup(p: Path, nodes: seq<Named>, q: Path)
    requires nodes != [] && GoodNodes(nodes) && WritableNodes(Join(p), nodes) && q != [] && q[0] != nodes[0].name
    requires p + q in ImageOf(p, nodes[1..]) <==> Lookup(nodes[1..], q).Some?
    requires p + q in ImageOf(p, nodes[1..]) ==> ImageOf(p, nodes[1..])[p + q] == Lookup(nodes[1..], q).value
    ensures p + q in ImageOf(p, nodes) <==> Lookup(nodes, q).Some?
    ensures p + q in ImageOf(p, nodes) ==> ImageOf(p, nodes)[p + q] == Lookup(nodes, q).value
  {
    var first := p + [nodes[0].name];
    JoinUnder(p, nodes[0].name);
    assert Lookup(nodes, q) == Lookup(nodes[1..], q) by {
      assert Find(nodes, q[0]) == Find(nodes[1..], q[0]);
    }
    assert p + q !in Image(first, nodes[0].node) by {
      if p + q in Image(first, nodes[0].node) {
        Below(p, nodes[0].name, q);
        ImageIsBelow(first, nodes[0].node, p + q);
      }
    }
  }

  /** What `unpackTar` rebuilds from the whole archive at once. */
  lemma UnpackRebuildsTheTree(nodes: seq<Named>, q: Path)
    requires GoodNodes(nodes) && WritableNodes([], nodes) && AdmissibleNodes([], nodes)
    ensures var outcome := Unpack(NewReader(), [], [Archive(nodes)]);
            && outcome.Unpacked?
            && (q in outcome.fs <==> Lookup(nodes, q).Some?)
            && (q in outcome.fs ==> outcome.fs[q] == Lookup(nodes, q).value)
  {
    var whole: Bytes := Archive(nodes);
    var chunks: seq<Bytes> := [whole];
    assert chunks[1..] == [];
    assert Concat(chunks) == whole by { assert whole + [] == whole; }
    RoundTrip(nodes, chunks);
    assert !CutsInside(0, chunks, |whole| - BLOCK);
    ImageIsLookup([], nodes, q);
    assert [] + q == q;
  }
}
