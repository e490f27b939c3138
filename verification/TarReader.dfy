/** The streaming reader of the seed archive (`unpackTar`) and the file system it fills. */
module TarReader {
  import opened Basics
  import opened Numerals
  import opened TarFormat

  /** A path below the destination, as its names. The destination itself is `[]`. */
  type Path = seq<Bytes>

  datatype Inode = DirNode(mode: nat) | FileNode(mode: nat, content: Bytes)

  type Files = map<Path, Inode>

  /** The mode of a directory that is created only because something below it is; the process
      umask is not modelled. */
  const DEFAULT_MODE: nat := 0x1FF

  predicate IsDir(fs: Files, p: Path) { p == [] || (p in fs && fs[p].DirNode?) }

  /** `mkdirSync(p, {recursive: true, mode})`; fails where a file is in the way. */
  function MkdirAll(fs: Files, p: Path, mode: nat): Option<Files>
    decreases |p|
  {
    if p == [] then Some(fs)
    else
      match MkdirAll(fs, p[..|p| - 1], mode)
      case None => None
      case Some(fs1) =>
        if p !in fs1 then Some(fs1[p := DirNode(mode)]) else if fs1[p].DirNode? then Some(fs1) else None
  }

  // ----- names -----

  predicate IsLetter(c: Byte) { 65 <= c <= 90 || 97 <= c <= 122 }

  predicate HasDrivePrefix(name: Bytes) { |name| >= 2 && IsLetter(name[0]) && name[1] == COLON }

  /** `name.split("/").filter(Boolean)`, the part being collected apart. */
  function SplitFrom(part: Bytes, name: Bytes): Path
    decreases |name|
  {
    if name == [] then (if part == [] then [] else [part])
    else if name[0] == SLASH then (if part == [] then [] else [part]) + SplitFrom([], name[1..])
    else SplitFrom(part + [name[0]], name[1..])
  }

  const DOT: Bytes := [46]
  const DOTS: Bytes := [46, 46]

  /** `safePath`: the path that a name stands for, unless it could leave the destination. */
  function SafePath(name: Bytes): Option<Path> {
    if name == [] || name[0] == SLASH || BACKSLASH in name || HasDrivePrefix(name) then None
    else
      var parts := SplitFrom([], name);
      if DOT in parts || DOTS in parts then None else Some(parts)
  }

  function LeadingDigits(data: Bytes): nat
    ensures LeadingDigits(data) <= |data|
  {
    if data != [] && IsDigit(data[0], 10) then 1 + LeadingDigits(data[1..]) else 0
  }

  /** The match of `/^\d+ path=([^\n]+)\n$/`. */
  function MatchPax(data: Bytes): Option<Bytes> {
    var d := LeadingDigits(data);
    var rest := data[d..];
    if d >= 1 && |rest| >= 8 && rest[..6] == [SPACE] + PATH_KEY && rest[|rest| - 1] == NEWLINE
       && NEWLINE !in rest[6..|rest| - 1]
    then Some(rest[6..|rest| - 1])
    else None
  }

  // ----- the reader -----

  /** The entry whose data is being read. */
  datatype Entry = Entry(kind: Byte, target: Path)

  datatype Reader = Reader(fs: Files, entry: Entry, remaining: nat, padding: nat, pax: Option<Bytes>, paxData: Bytes)

  function NewReader(): Reader {
    Reader(map[], Entry(PAX_TYPE, []), 0, 0, None, [])
  }

  /** Part of an entry's data: appended to the file or to the PAX record, which is parsed when
      it is complete. */
  function Take(r: Reader, part: Bytes): Result<Reader, Files>
    requires 0 < |part| <= r.remaining
  {
    var r1 := r.(remaining := r.remaining - |part|);
    if r.entry.kind == PAX_TYPE then
      var data := r.paxData + part;
      if r1.remaining > 0 then Ok(r1.(paxData := data))
      else
        match MatchPax(data)
        case None => Err(r.fs)
        case Some(name) => Ok(r1.(paxData := [], pax := Some(name)))
    else if r.entry.kind == FILE_TYPE && r.entry.target in r.fs && r.fs[r.entry.target].FileNode? then
      var file := r.fs[r.entry.target];
      Ok(r1.(fs := r.fs[r.entry.target := file.(content := file.content + part)]))
    else Err(r.fs)
  }

  function EntryName(r: Reader, h: Bytes): Bytes
    requires |h| == BLOCK
  {
    if r.pax.Some? then r.pax.value
    else
      var prefix, name := Field(h, 345, 155), Field(h, 0, 100);
      if prefix == [] then name else if name == [] then prefix else prefix + [SLASH] + name
  }

  function Parent(p: Path): Path { if p == [] then [] else p[..|p| - 1] }

  /** Creates the directory or the new file of an entry. */
  function Open(r: Reader, mode: nat): Result<Reader, Files> {
    var target := r.entry.target;
    if r.entry.kind == DIR_TYPE then
      match MkdirAll(r.fs, target, mode)
      case None => Err(r.fs)
      case Some(fs1) => Ok(if target == [] then r else r.(fs := fs1[target := DirNode(mode)]))
    else
      match MkdirAll(r.fs, Parent(target), DEFAULT_MODE)
      case None => Err(r.fs)
      case Some(fs1) =>
        if target == [] || target in fs1 then Err(fs1) else Ok(r.(fs := fs1[target := FileNode(mode, [])]))
  }

  /** A header block: check it, and create what it names. */
  function StartEntry(r: Reader, h: Bytes): Result<Reader, Files>
    requires |h| == BLOCK
  {
    var stored, size, mode := ReadNumber(h, 148, 8), ReadNumber(h, 124, 12), ReadNumber(h, 100, 8);
    var typeField := Field(h, 156, 1);
    var kind := if typeField == [] then FILE_TYPE else typeField[0];
    if stored != Some(Checksum(h)) || size.None? || mode.None? then Err(r.fs)
    else
      var name := EntryName(r, h);
      var r1 := r.(pax := if kind == PAX_TYPE then r.pax else None, entry := Entry(kind, []),
                   remaining := size.value, padding := Pad(size.value));
      if kind == PAX_TYPE then Ok(r1)
      else if kind != FILE_TYPE && kind != DIR_TYPE then Err(r.fs)
      else
        match SafePath(name)
        case None => Err(r.fs)
        case Some(target) => Open(r1.(entry := Entry(kind, target)), mode.value)
  }

  /** What `consume` does with a buffer: it keeps an incomplete header for the next chunk, and
      it drops the rest of the buffer after a block of zeros. */
  datatype Scanned = More(reader: Reader, rest: Bytes) | End(reader: Reader, dropped: Bytes) | Fail(fs: Files)

  function Least(a: nat, b: nat): nat { if a < b then a else b }

  function Scan(r: Reader, buffer: Bytes): Scanned
    decreases |buffer|
  {
    if buffer == [] then More(r, [])
    else if r.remaining > 0 then
      var count := Least(r.remaining, |buffer|);
      match Take(r, buffer[..count])
      case Err(fs) => Fail(fs)
      case Ok(r1) => Scan(r1, buffer[count..])
    else if r.padding > 0 then
      var count := Least(r.padding, |buffer|);
      Scan(r.(padding := r.padding - count), buffer[count..])
    else if |buffer| < BLOCK then More(r, buffer)
    else if AllZero(buffer[..BLOCK]) then End(r, buffer[BLOCK..])
    else
      match StartEntry(r, buffer[..BLOCK])
      case Err(fs) => Fail(fs)
      case Ok(r1) => Scan(r1, buffer[BLOCK..])
  }

  /** How an unpacking ends, with the file system it leaves. */
  datatype Outcome = Unpacked(fs: Files) | Truncated(fs: Files) | Rejected(fs: Files)

  function Unpack(r: Reader, pending: Bytes, chunks: seq<Bytes>): Outcome
    decreases |chunks|
  {
    if chunks == [] then
      if r.remaining > 0 || r.padding > 0 || pending != [] then Truncated(r.fs) else Unpacked(r.fs)
    else
      match Scan(r, pending + chunks[0])
      case Fail(fs) => Rejected(fs)
      case End(r1, _) => Unpack(r1, [], chunks[1..])
      case More(r1, rest) => Unpack(r1, rest, chunks[1..])
  }

  // ----- the reader as the source writes it -----

  class Unpacker {
    var reader: Reader
    var pending: Bytes

    constructor ()
      ensures reader == NewReader() && pending == []
    {
      reader, pending := NewReader(), [];
    }

    /** The inner loop over one buffer; the result is what is left of it. */
    method Consume(chunk: Bytes) returns (rest: Bytes, ok: bool)
      modifies this`reader
      ensures match Scan(old(reader), chunk)
              case More(r, left) => ok && reader == r && rest == left
              case End(r, _) => ok && reader == r && rest == []
              case Fail(fs) => !ok && reader.fs == fs
    {
      var buffer := chunk;
      while buffer != []
        invariant Scan(reader, buffer) == Scan(old(reader), chunk)
        decreases |buffer|
      {
        if reader.remaining > 0 {
          var count := Least(reader.remaining, |buffer|);
          match Take(reader, buffer[..count])
          case Err(fs) =>
            reader := reader.(fs := fs);
            return [], false;
          case Ok(r1) =>
            reader, buffer := r1, buffer[count..];
        } else if reader.padding > 0 {
          var count := Least(reader.padding, |buffer|);
          reader, buffer := reader.(padding := reader.padding - count), buffer[count..];
        } else if |buffer| < BLOCK {
          return buffer, true;
        } else if AllZero(buffer[..BLOCK]) {
          return [], true;
        } else {
          match StartEntry(reader, buffer[..BLOCK])
          case Err(fs) =>
            reader := reader.(fs := fs);
            return [], false;
          case Ok(r1) =>
            reader, buffer := r1, buffer[BLOCK..];
        }
      }
      return [], true;
    }

    /** `unpackTar`: chunk after chunk, and a complaint if the stream ends within an entry. */
    method Run(chunks: seq<Bytes>) returns (outcome: Outcome)
      requires reader == NewReader() && pending == []
      modifies this
      ensures outcome == Unpack(NewReader(), [], chunks)
    {
      var i := 0;
      while i < |chunks|
        invariant 0 <= i <= |chunks|
        invariant Unpack(reader, pending, chunks[i..]) == Unpack(NewReader(), [], chunks)
      {
        assert chunks[i..][0] == chunks[i] && chunks[i..][1..] == chunks[i + 1..];
        var rest, ok := Consume(pending + chunks[i]);
        if !ok {
          return Rejected(reader.fs);
        }
        pending := rest;
        i := i + 1;
      }
      if reader.remaining > 0 || reader.padding > 0 || pending != [] {
        return Truncated(reader.fs);
      }
      return Unpacked(reader.fs);
    }
  }

  // ----- scanning does not depend on where a buffer is cut -----

  /** Two parts of an entry's data in a row do what both do at once. */
  lemma TakeSplits(r: Reader, a: Bytes, b: Bytes)
    requires 0 < |a| && 0 < |b| && |a| + |b| <= r.remaining
    ensures match Take(r, a)
            case Err(fs) => Take(r, a + b) == Err(fs)
            case Ok(r1) => Take(r, a + b) == Take(r1, b)
  {
    if r.entry.kind == PAX_TYPE {
      assert (r.paxData + a) + b == r.paxData + (a + b);
    } else if r.entry.kind == FILE_TYPE && r.entry.target in r.fs && r.fs[r.entry.target].FileNode? {
      var content := r.fs[r.entry.target].content;
      var file := r.fs[r.entry.target];
      assert (content + a) + b == content + (a + b);
      assert r.fs[r.entry.target := file.(content := content + a)][r.entry.target := file.(content := content + a + b)]
          == r.fs[r.entry.target := file.(content := content + a + b)];
    }
  }

  /** The scan of a whole buffer is the scan of its first part carried on with the second. */
  ghost predicate Splits(r: Reader, a: Bytes, b: Bytes) {
    match Scan(r, a)
    case More(r1, rest) => Scan(r, a + b) == Scan(r1, rest + b)
    case End(r1, dropped) => Scan(r, a + b) == End(r1, dropped + b)
    case Fail(fs) => Scan(r, a + b) == Fail(fs)
  }

  lemma {:induction false} ScanSplits(r: Reader, a: Bytes, b: Bytes)
    ensures Splits(r, a, b)
    decreases |a|
  {
    if a == [] {
      assert a + b == b && [] + b == b;
    } else if b == [] {
      assert a + b == a;
      match Scan(r, a)
      case More(r1, rest) =>
        assert rest + b == rest;
        ScanIsIdle(r, a);
      case End(_, dropped) => assert dropped + b == dropped;
      case Fail(_) =>
    } else if r.remaining > 0 {
      ScanSplitsData(r, a, b);
    } else if r.padding > 0 {
      ScanSplitsPadding(r, a, b);
    } else if |a| >= BLOCK {
      assert (a + b)[..BLOCK] == a[..BLOCK] && (a + b)[BLOCK..] == a[BLOCK..] + b;
      if !AllZero(a[..BLOCK]) {
        match StartEntry(r, a[..BLOCK])
        case Err(_) =>
        case Ok(r1) => ScanSplits(r1, a[BLOCK..], b);
      }
    }
  }

  /** What `Scan` keeps back is an incomplete header, which it would keep back again. */
  lemma {:induction false} ScanIsIdle(r: Reader, a: Bytes)
    requires Scan(r, a).More?
    ensures Scan(Scan(r, a).reader, Scan(r, a).rest) == Scan(r, a)
    ensures Scan(r, a).rest != [] ==> Scan(r, a).reader.remaining == 0 && Scan(r, a).reader.padding == 0
    ensures |Scan(r, a).rest| < BLOCK
    decreases |a|
  {
    if a == [] {
    } else if r.remaining > 0 {
      var count := Least(r.remaining, |a|);
      ScanIsIdle(Take(r, a[..count]).value, a[count..]);
    } else if r.padding > 0 {
      var count := Least(r.padding, |a|);
      ScanIsIdle(r.(padding := r.padding - count), a[count..]);
    } else if |a| >= BLOCK {
      ScanIsIdle(StartEntry(r, a[..BLOCK]).value, a[BLOCK..]);
    }
  }

  lemma ScanTakes(r: Reader, buffer: Bytes, part: Bytes, rest: Bytes)
    requires buffer == part + rest && part != [] && r.remaining > 0
    requires |part| == Least(r.remaining, |buffer|)
    ensures Scan(r, buffer) == if Take(r, part).Ok? then Scan(Take(r, part).value, rest) else Fail(Take(r, part).error)
  {
    assert buffer[..|part|] == part && buffer[|part|..] == rest;
  }

  lemma ScanPads(r: Reader, buffer: Bytes, n: nat, rest: Bytes)
    requires buffer != [] && r.remaining == 0 && r.padding > 0 && n == Least(r.padding, |buffer|) && rest == buffer[n..]
    ensures Scan(r, buffer) == Scan(r.(padding := r.padding - n), rest)
  {
  }

  lemma ScanShortData(r: Reader, a: Bytes)
    requires a != [] && |a| < r.remaining
    ensures Scan(r, a) == if Take(r, a).Ok? then More(Take(r, a).value, []) else Fail(Take(r, a).error)
  {
    assert a[..|a|] == a && a[|a|..] == [];
  }

  lemma ScanLongData(r: Reader, a: Bytes, b: Bytes)
    requires a != [] && b != [] && |a| < r.remaining
    ensures Scan(r, a + b) == if Take(r, a).Ok? then Scan(Take(r, a).value, b) else Fail(Take(r, a).error)
  {
    var m := Least(r.remaining - |a|, |b|);
    assert a + b == (a + b[..m]) + b[m..] && b == b[..m] + b[m..];
    TakeSplits(r, a, b[..m]);
    ScanTakes(r, a + b, a + b[..m], b[m..]);
    if Take(r, a).Ok? {
      ScanTakes(Take(r, a).value, b, b[..m], b[m..]);
    }
  }

  lemma {:induction false} ScanSplitsData(r: Reader, a: Bytes, b: Bytes)
    requires a != [] && b != [] && r.remaining > 0
    ensures Splits(r, a, b)
    decreases |a|, 0
  {
    if r.remaining <= |a| {
      var n := r.remaining;
      assert (a + b)[..n] == a[..n] && (a + b)[n..] == a[n..] + b;
      match Take(r, a[..n])
      case Err(_) =>
      case Ok(r1) => ScanSplits(r1, a[n..], b);
    } else {
      ScanShortData(r, a);
      ScanLongData(r, a, b);
      assert [] + b == b;
    }
  }

  lemma ScanShortPadding(r: Reader, a: Bytes)
    requires a != [] && r.remaining == 0 && |a| < r.padding
    ensures Scan(r, a) == More(r.(padding := r.padding - |a|), [])
  {
    assert a[|a|..] == [];
  }

  lemma ScanLongPadding(r: Reader, a: Bytes, b: Bytes)
    requires a != [] && b != [] && r.remaining == 0 && |a| < r.padding
    ensures Scan(r, a + b) == Scan(r.(padding := r.padding - |a|), b)
  {
    var m := Least(r.padding - |a|, |b|);
    assert (a + b)[|a| + m..] == b[m..];
    ScanPads(r, a + b, |a| + m, b[m..]);
    ScanPads(r.(padding := r.padding - |a|), b, m, b[m..]);
  }

  lemma {:induction false} ScanSplitsPadding(r: Reader, a: Bytes, b: Bytes)
    requires a != [] && b != [] && r.remaining == 0 && r.padding > 0
    ensures Splits(r, a, b)
    decreases |a|, 0
  {
    if r.padding <= |a| {
      var n := r.padding;
      assert (a + b)[n..] == a[n..] + b;
      ScanSplits(r.(padding := 0), a[n..], b);
    } else {
      ScanShortPadding(r, a);
      ScanLongPadding(r, a, b);
      assert [] + b == b;
    }
  }
}
