/** The archive of a directory tree (`writeTar`), and what the streaming reader makes of it. */
module TarArchive {
  import opened Basics
  import opened Numerals
  import opened TarFormat
  import opened TarReader

  /** A seed tree, its directories listed as `readdirSync().sort()` lists them. `Special` is
      anything that is neither a file nor a directory. */
  datatype Node = File(mode: Mode, content: Bytes) | Dir(mode: Mode, children: seq<Named>) | Special

  datatype Named = Named(name: Bytes, node: Node)

  /** What a file system allows as a name. */
  predicate GoodName(name: Bytes) {
    name != [] && SLASH !in name && 0 !in name && name != DOT && name != DOTS
  }

  predicate HasName(nodes: seq<Named>, name: Bytes) {
    exists i | 0 <= i < |nodes| :: nodes[i].name == name
  }

  predicate GoodNode(node: Node)
    decreases node, 1
  {
    node.Dir? ==> GoodNodes(node.children)
  }

  /** A listing with good names, each of them once. */
  predicate GoodNodes(nodes: seq<Named>)
    decreases nodes, 0
  {
    nodes != [] ==>
      && GoodName(nodes[0].name) && !HasName(nodes[1..], nodes[0].name)
      && GoodNode(nodes[0].node) && GoodNodes(nodes[1..])
  }

  // ----- writing -----

  /** `${rel}/${child}`, and just the name at the root. */
  function Under(rel: Bytes, name: Bytes): Bytes {
    if rel == [] then name else rel + [SLASH] + name
  }

  function StoredName(rel: Bytes, node: Node): Bytes {
    if node.Dir? then rel + [SLASH] else rel
  }

  function Data(node: Node): Bytes {
    if node.File? then node.content else []
  }

  predicate FitsEntry(name: Bytes, data: Bytes) {
    Fits(12, |data|) && (|name| > 100 ==> Fits(12, |PaxRecord(name)|))
  }

  const PAX_MODE: Mode := 0x1A4

  function PaxBlocks(name: Bytes): Bytes
    requires Fits(12, |PaxRecord(name)|)
  {
    var record := PaxRecord(name);
    Header(PAX_NAME, |record|, PAX_MODE, PAX_TYPE) + record + Zeros(Pad(|record|))
  }

  function EntryBlocks(name: Bytes, data: Bytes, mode: Mode, kind: Byte): Bytes
    requires FitsEntry(name, data)
  {
    (if |name| > 100 then PaxBlocks(name) else []) +
    Header(if |name| <= 100 then name else PAX_FILE, |data|, mode, kind) + data + Zeros(Pad(|data|))
  }

  predicate WritableNode(rel: Bytes, node: Node)
    decreases node, 1
  {
    && !node.Special?
    && FitsEntry(StoredName(rel, node), Data(node))
    && (node.Dir? ==> WritableNodes(rel, node.children))
  }

  predicate WritableNodes(rel: Bytes, nodes: seq<Named>)
    decreases nodes, 0
  {
    nodes != [] ==> WritableNode(Under(rel, nodes[0].name), nodes[0].node) && WritableNodes(rel, nodes[1..])
  }

  function Kind(node: Node): Byte { if node.Dir? then DIR_TYPE else FILE_TYPE }

  function NodeBlocks(rel: Bytes, node: Node): Bytes
    requires WritableNode(rel, node)
    decreases node, 1
  {
    EntryBlocks(StoredName(rel, node), Data(node), node.mode, Kind(node)) +
    if node.Dir? then TreeBlocks(rel, node.children) else []
  }

  function TreeBlocks(rel: Bytes, nodes: seq<Named>): Bytes
    requires WritableNodes(rel, nodes)
    decreases nodes, 0
  {
    if nodes == [] then []
    else NodeBlocks(Under(rel, nodes[0].name), nodes[0].node) + TreeBlocks(rel, nodes[1..])
  }

  function Archive(nodes: seq<Named>): Bytes
    requires WritableNodes([], nodes)
  {
    TreeBlocks([], nodes) + Zeros(2 * BLOCK)
  }

  // ----- the writer as the source writes it -----

  class TarFile {
    var bytes: Bytes

    constructor ()
      ensures bytes == []
    {
      bytes := [];
    }

    method Write(buffer: Bytes)
      modifies this
      ensures bytes == old(bytes) + buffer
    {
      bytes := bytes + buffer;
    }

    /** A header, or a failure when the size does not fit its field. */
    method WriteHeader(name: Bytes, size: nat, mode: Mode, kind: Byte) returns (ok: bool)
      requires |name| <= 100
      modifies this
      ensures ok <==> Fits(12, size)
      ensures ok ==> bytes == old(bytes) + Header(name, size, mode, kind)
    {
      NumeralLength(size, 8, 11);
      var h, fits := MakeHeader(name, size, mode, kind);
      ok := fits;
      if ok {
        Write(h[..]);
      }
    }

    method WritePax(name: Bytes) returns (ok: bool)
      modifies this
      ensures ok <==> Fits(12, |PaxRecord(name)|)
      ensures ok ==> bytes == old(bytes) + PaxBlocks(name)
    {
      var record := PaxPath(name);
      ok := WriteHeader(PAX_NAME, |record|, PAX_MODE, PAX_TYPE);
      if ok {
        ghost var h := Header(PAX_NAME, |record|, PAX_MODE, PAX_TYPE);
        Write(record);
        Write(Zeros(Pad(|record|)));
        Associates(old(bytes), h, record);
        Associates(old(bytes), h + record, Zeros(Pad(|record|)));
      }
    }

    method WriteEntry(name: Bytes, data: Bytes, mode: Mode, kind: Byte) returns (ok: bool)
      modifies this
      ensures ok <==> FitsEntry(name, data)
      ensures ok ==> bytes == old(bytes) + EntryBlocks(name, data, mode, kind)
    {
      ghost var pax: Bytes := [];
      if |name| > 100 {
        ok := WritePax(name);
        if !ok {
          return;
        }
        pax := PaxBlocks(name);
      }
      assert bytes == old(bytes) + pax;
      ok := WriteHeader(if |name| <= 100 then name else PAX_FILE, |data|, mode, kind);
      if ok {
        CopyData(data);
        Write(Zeros(Pad(|data|)));
        ghost var h := Header(if |name| <= 100 then name else PAX_FILE, |data|, mode, kind);
        Associates(old(bytes), pax, h);
        Associates(old(bytes), pax + h, data);
        Associates(old(bytes), pax + h + data, Zeros(Pad(|data|)));
      }
    }

    /** The file is copied in pieces of 64 KiB. */
    method CopyData(data: Bytes)
      modifies this
      ensures bytes == old(bytes) + data
    {
      var at := 0;
      while at < |data|
        invariant at <= |data| && bytes == old(bytes) + data[..at]
      {
        var count := Least(64 * 1024, |data| - at);
        assert data[..at] + data[at..at + count] == data[..at + count];
        Write(data[at..at + count]);
        at := at + count;
      }
      assert data[..at] == data;
    }

    method WriteNode(rel: Bytes, node: Node) returns (ok: bool)
      modifies this
      ensures ok <==> WritableNode(rel, node)
      ensures ok ==> bytes == old(bytes) + NodeBlocks(rel, node)
      decreases node, 1
    {
      if node.Special? {
        return false;
      }
      ghost var start := bytes;
      ok := WriteEntry(StoredName(rel, node), Data(node), node.mode, Kind(node));
      if !ok {
        return;
      }
      ghost var entry := EntryBlocks(StoredName(rel, node), Data(node), node.mode, Kind(node));
      if node.Dir? {
        ok := WriteNodes(rel, node.children);
        if ok {
          Associates(start, entry, TreeBlocks(rel, node.children));
        }
      } else {
        Associates(start, entry, []);
      }
    }

    method WriteNodes(rel: Bytes, nodes: seq<Named>) returns (ok: bool)
      modifies this
      ensures ok <==> WritableNodes(rel, nodes)
      ensures ok ==> bytes == old(bytes) + TreeBlocks(rel, nodes)
      decreases nodes, 0
    {
      var i := 0;
      assert nodes[0..] == nodes;
      while i < |nodes|
        invariant 0 <= i <= |nodes|
        invariant WritableNodes(rel, nodes) <==> WritableNodes(rel, nodes[i..])
        invariant WritableNodes(rel, nodes) ==>
                    old(bytes) + TreeBlocks(rel, nodes) == bytes + TreeBlocks(rel, nodes[i..])
      {
        assert nodes[i..][0] == nodes[i] && nodes[i..][1..] == nodes[i + 1..];
        ghost var before := bytes;
        ok := WriteNode(Under(rel, nodes[i].name), nodes[i].node);
        if !ok {
          return;
        }
        i := i + 1;
        if WritableNodes(rel, nodes[i..]) {
          Associates(before, NodeBlocks(Under(rel, nodes[i - 1].name), nodes[i - 1].node), TreeBlocks(rel, nodes[i..]));
        }
      }
      assert nodes[i..] == [];
      return true;
    }

    /** `writeTar`: fails exactly when the tree holds something that is neither a file nor a
        directory, or a size that eleven octal digits cannot hold. */
    method WriteTar(nodes: seq<Named>) returns (ok: bool)
      requires bytes == []
      modifies this
      ensures ok <==> WritableNodes([], nodes)
      ensures ok ==> bytes == Archive(nodes)
    {
      ok := WriteNodes([], nodes);
      if ok {
        Write(Zeros(2 * BLOCK));
      }
    }
  }
}
