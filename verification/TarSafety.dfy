/** What the reader does with any bytes at all: where it writes, and what it refuses. */
module TarSafety {
  import opened Basics
  import opened Numerals
  import opened TarFormat
  import opened TarReader
  import opened TarArchive
  import opened TarRoundTrip

  /** The constants of the format, as text. */
  lemma FormatTexts()
    ensures PATH_KEY == Ascii("path=") && PAX_NAME == Ascii("PaxHeader") && PAX_FILE == Ascii("PaxFile")
    ensures [FILE_TYPE] == Ascii("0") && [DIR_TYPE] == Ascii("5") && [PAX_TYPE] == Ascii("x")
    ensures [SPACE, NEWLINE, SLASH, BACKSLASH, COLON] == Ascii(" \n/\\:")
    ensures DOT == Ascii(".") && DOTS == Ascii("..") && PAX_MODE == 6 * 64 + 4 * 8 + 4 && BLOCK == 512
  {
  }

  // ----- names -----

  /** A drive: a letter and a colon. */
  lemma DriveIs(name: Bytes)
    ensures HasDrivePrefix(name) <==>
            |name| >= 2 && name[1] as char == ':' &&
            var c := name[0] as char; 'a' <= c <= 'z' || 'A' <= c <= 'Z'
  {
  }

  /** The name of something in a directory, and of neither that directory nor its parent. */
  predicate IsPlainPart(part: Bytes) {
    part != [] && part != DOT && part != DOTS && SLASH !in part && BACKSLASH !in part
  }

  /** `name[i..j]` stands between two slashes, or between one and an end of the name. */
  predicate IsPart(name: Bytes, i: nat, j: nat) {
    i <= j <= |name| && (i == 0 || name[i - 1] == SLASH) && (j == |name| || name[j] == SLASH)
  }

  ghost predicate HasPart(name: Bytes, part: Bytes) {
    exists i: nat, j: nat :: IsPart(name, i, j) && name[i..j] == part
  }

  lemma {:induction false} SplitJoinsOn(acc: Bytes, name: Bytes, part: Bytes)
    requires part != [] && SLASH !in part && SLASH !in acc
    ensures part in SplitFrom(acc, name) <==> HasPart(acc + name, part)
    decreases |name|
  {
    if name == [] {
      assert acc + name == acc;
      WholePart(acc, part);
    } else if name[0] == SLASH {
      SplitJoinsOn([], name[1..], part);
      assert [] + name[1..] == name[1..] && acc + name == acc + [SLASH] + name[1..];
      PartsAroundSlash(acc, name[1..], part);
    } else {
      SplitJoinsOn(acc + [name[0]], name[1..], part);
      assert acc + [name[0]] + name[1..] == acc + name;
    }
  }

  lemma WholePart(text: Bytes, part: Bytes)
    requires SLASH !in text
    ensures HasPart(text, part) <==> part == text
  {
    assert forall k | 0 <= k < |text| :: text[k] != SLASH;
    assert IsPart(text, 0, |text|) && text[0..|text|] == text;
  }

  lemma PartsAroundSlash(front: Bytes, back: Bytes, part: Bytes)
    requires part != [] && SLASH !in part && SLASH !in front
    ensures HasPart(front + [SLASH] + back, part) <==> part == front || HasPart(back, part)
  {
    var text, n := front + [SLASH] + back, |front|;
    if part == front {
      assert IsPart(text, 0, n) && text[0..n] == part;
    }
    if HasPart(back, part) {
      var i: nat, j: nat :| IsPart(back, i, j) && back[i..j] == part;
      assert IsPart(text, n + 1 + i, n + 1 + j) && text[n + 1 + i..n + 1 + j] == part;
    }
    if HasPart(text, part) {
      var i: nat, j: nat :| IsPart(text, i, j) && text[i..j] == part;
      PartIsAside(front, back, part, i, j);
    }
  }

  lemma PartIsAside(front: Bytes, back: Bytes, part: Bytes, i: nat, j: nat)
    requires part != [] && SLASH !in part && SLASH !in front
    requires var text := front + [SLASH] + back; IsPart(text, i, j) && text[i..j] == part
    ensures part == front || HasPart(back, part)
  {
    var text, n := front + [SLASH] + back, |front|;
    if i > n {
      assert IsPart(back, i - n - 1, j - n - 1) && back[i - n - 1..j - n - 1] == part;
    } else {
      assert forall k | 0 <= k < n :: text[k] == front[k] && front[k] != SLASH;
      assert forall k | i <= k < j :: text[k] == part[k - i] && part[k - i] != SLASH;
      assert text[n] == SLASH && text[0..n] == front;
    }
  }

  /** A name is refused exactly when it is empty, absolute, has a drive or a backslash, or has a part
      that is "." or "..". */
  lemma SafePathIff(name: Bytes)
    ensures SafePath(name).Some? <==>
            && name != [] && name[0] != SLASH && BACKSLASH !in name && !HasDrivePrefix(name)
            && !HasPart(name, DOT) && !HasPart(name, DOTS)
  {
    SplitJoinsOn([], name, DOT);
    SplitJoinsOn([], name, DOTS);
    assert [] + name == name;
  }

  lemma {:induction false} PartsArePlain(acc: Bytes, name: Bytes)
    requires SLASH !in acc && BACKSLASH !in acc && BACKSLASH !in name
    ensures forall part | part in SplitFrom(acc, name) :: part != [] && SLASH !in part && BACKSLASH !in part
    decreases |name|
  {
    if name != [] {
      PartsArePlain(if name[0] == SLASH then [] else acc + [name[0]], name[1..]);
    }
  }

  // ----- where it writes -----

  /** Everything is below the destination, by plain names, in a directory that is there. */
  ghost predicate Confined(fs: Files) {
    forall p | p in fs :: p != [] && (forall part | part in p :: IsPlainPart(part)) && IsDir(fs, Parent(p))
  }

  lemma SafePathIsPlain(name: Bytes)
    requires SafePath(name).Some?
    ensures forall part | part in SafePath(name).value :: IsPlainPart(part)
  {
    PartsArePlain([], name);
  }

  /** Nothing is lost, and no file is changed but by adding to `target`. */
  ghost predicate Keeps(fs: Files, target: Path, fs': Files) {
    forall p | p in fs ::
      && p in fs' && (fs[p].DirNode? ==> fs'[p].DirNode?)
      && (fs[p].FileNode? && p != target ==> fs'[p] == fs[p])
      && (fs[p].FileNode? && p == target ==>
            fs'[p].FileNode? && fs'[p].mode == fs[p].mode && fs[p].content <= fs'[p].content)
  }

  lemma {:induction false} MkdirIsConfined(fs: Files, p: Path, mode: nat, target: Path)
    requires Confined(fs) && (forall part | part in p :: IsPlainPart(part)) && MkdirAll(fs, p, mode).Some?
    ensures Confined(MkdirAll(fs, p, mode).value) && Keeps(fs, target, MkdirAll(fs, p, mode).value)
    ensures IsDir(MkdirAll(fs, p, mode).value, p)
    decreases |p|
  {
    if p != [] {
      MkdirIsConfined(fs, Parent(p), mode, target);
    }
  }

  ghost function LeftBy(x: Result<Reader, Files>): Files { match x case Ok(r) => r.fs case Err(fs) => fs }

  lemma TakeIsConfined(r: Reader, part: Bytes)
    requires Confined(r.fs) && 0 < |part| <= r.remaining
    ensures Confined(LeftBy(Take(r, part))) && Keeps(r.fs, r.entry.target, LeftBy(Take(r, part)))
    ensures Take(r, part).Ok? ==> Take(r, part).value.entry == r.entry
  {
  }

  lemma NewNodeIsConfined(fs: Files, p: Path, node: Inode)
    requires Confined(fs) && p != [] && (forall part | part in p :: IsPlainPart(part)) && IsDir(fs, Parent(p))
    requires p in fs ==> fs[p].DirNode? && node.DirNode?
    ensures Confined(fs[p := node]) && Keeps(fs, [], fs[p := node])
  {
  }

  lemma KeepsOn(fs: Files, fs1: Files, fs2: Files)
    requires Confined(fs) && Confined(fs1) && Keeps(fs, [], fs1) && Keeps(fs1, [], fs2)
    ensures Keeps(fs, [], fs2)
  {
  }

  /** An entry is created below the destination, where no file was. */
  lemma OpenIsConfined(r: Reader, mode: nat)
    requires Confined(r.fs) && (forall part | part in r.entry.target :: IsPlainPart(part))
    ensures Confined(LeftBy(Open(r, mode))) && Keeps(r.fs, [], LeftBy(Open(r, mode)))
    ensures Open(r, mode).Ok? ==> r.entry.target in r.fs ==> r.fs[r.entry.target].DirNode?
    ensures Open(r, mode).Ok? ==> Open(r, mode).value.entry == r.entry
  {
    var target := r.entry.target;
    var dir, m := r.entry.kind == DIR_TYPE, if r.entry.kind == DIR_TYPE then mode else DEFAULT_MODE;
    var below := if dir then target else Parent(target);
    if MkdirAll(r.fs, below, m).Some? && target != [] {
      var fs1, node := MkdirAll(r.fs, below, m).value, if dir then DirNode(mode) else FileNode(mode, []);
      MkdirIsConfined(r.fs, below, m, []);
      if dir || target !in fs1 {
        NewNodeIsConfined(fs1, target, node);
        KeepsOn(r.fs, fs1, fs1[target := node]);
      }
    }
  }

  lemma StartIsConfined(r: Reader, h: Bytes)
    requires |h| == BLOCK && Confined(r.fs)
    ensures Confined(LeftBy(StartEntry(r, h))) && Keeps(r.fs, [], LeftBy(StartEntry(r, h)))
    ensures StartEntry(r, h).Ok? ==>
              var target := StartEntry(r, h).value.entry.target;
              target in r.fs ==> r.fs[target].DirNode?
  {
    var r1 := Opening(r, h);
    if r1.Some? {
      SafePathIsPlain(EntryName(r, h));
      OpenIsConfined(r1.value, ReadNumber(h, 100, 8).value);
    }
  }

  /** The entry of a header that names something to create. */
  function Opening(r: Reader, h: Bytes): (r1: Option<Reader>)
    requires |h| == BLOCK
    ensures r1.Some? ==> r1.value.fs == r.fs && ReadNumber(h, 100, 8).Some? && SafePath(EntryName(r, h)).Some?
    ensures r1.Some? ==> SafePath(EntryName(r, h)).value == r1.value.entry.target
    ensures r1.Some? ==> StartEntry(r, h) == Open(r1.value, ReadNumber(h, 100, 8).value)
    ensures r1.None? && StartEntry(r, h).Ok? ==>
              StartEntry(r, h).value.fs == r.fs && StartEntry(r, h).value.entry.target == []
    ensures r1.None? && StartEntry(r, h).Err? ==> StartEntry(r, h).error == r.fs
  {
    var size := ReadNumber(h, 124, 12);
    var typeField := Field(h, 156, 1);
    var kind := if typeField == [] then FILE_TYPE else typeField[0];
    if ReadNumber(h, 148, 8) == Some(Checksum(h)) && size.Some? && ReadNumber(h, 100, 8).Some?
       && kind in {FILE_TYPE, DIR_TYPE} && SafePath(EntryName(r, h)).Some?
    then
      Some(r.(pax := None, entry := Entry(kind, SafePath(EntryName(r, h)).value),
              remaining := size.value, padding := Pad(size.value)))
    else None
  }

  function StateOf(x: Scanned): Files { match x case More(r, _) => r.fs case End(r, _) => r.fs case Fail(fs) => fs }

  lemma KeepsThen(fs: Files, target: Path, fs1: Files, target1: Path, fs2: Files)
    requires Confined(fs) && Keeps(fs, target, fs1) && Keeps(fs1, target1, fs2)
    requires target1 == target || (target1 in fs ==> fs[target1].DirNode?)
    ensures Keeps(fs, target, fs2)
  {
  }

  lemma {:induction false} ScanIsConfined(r: Reader, buffer: Bytes)
    requires Confined(r.fs)
    ensures Confined(StateOf(Scan(r, buffer))) && Keeps(r.fs, r.entry.target, StateOf(Scan(r, buffer)))
    decreases |buffer|
  {
    if buffer == [] {
    } else if r.remaining > 0 {
      var count := Least(r.remaining, |buffer|);
      TakeIsConfined(r, buffer[..count]);
      match Take(r, buffer[..count])
      case Err(_) =>
      case Ok(r1) =>
        ScanIsConfined(r1, buffer[count..]);
        KeepsThen(r.fs, r.entry.target, r1.fs, r1.entry.target, StateOf(Scan(r1, buffer[count..])));
    } else if r.padding > 0 {
      var count := Least(r.padding, |buffer|);
      ScanIsConfined(r.(padding := r.padding - count), buffer[count..]);
    } else if |buffer| >= BLOCK && !AllZero(buffer[..BLOCK]) {
      StartIsConfined(r, buffer[..BLOCK]);
      match StartEntry(r, buffer[..BLOCK])
      case Err(_) =>
      case Ok(r1) =>
        ScanIsConfined(r1, buffer[BLOCK..]);
        KeepsThen(r.fs, [], r1.fs, r1.entry.target, StateOf(Scan(r1, buffer[BLOCK..])));
    }
  }

  function ReaderOf(x: Scanned, r: Reader): Reader {
    match x case More(r1, _) => r1 case End(r1, _) => r1 case Fail(_) => r
  }

  lemma {:induction false} UnpackIsConfined(r: Reader, pending: Bytes, chunks: seq<Bytes>)
    requires Confined(r.fs)
    ensures Confined(Unpack(r, pending, chunks).fs)
    decreases |chunks|
  {
    if chunks != [] {
      ScanIsConfined(r, pending + chunks[0]);
      match Scan(r, pending + chunks[0])
      case Fail(_) =>
      case End(r1, _) => UnpackIsConfined(r1, [], chunks[1..]);
      case More(r1, rest) => UnpackIsConfined(r1, rest, chunks[1..]);
    }
  }

  /** Whatever the bytes, and however they come: all that is written is below the destination, under
      names that do not lead out of it. */
  lemma AnyArchiveStaysInside(chunks: seq<Bytes>)
    ensures Confined(Unpack(NewReader(), [], chunks).fs)
  {
    UnpackIsConfined(NewReader(), [], chunks);
  }

  // ----- what it refuses -----

  lemma {:induction false} SumOfChanged(s: Bytes, k: nat, v: Byte)
    requires k < |s|
    ensures Sum(s[k := v]) == Sum(s) - s[k] + v
    decreases |s|
  {
    var n := |s| - 1;
    if k == n {
      assert s[k := v][..n] == s[..n];
    } else {
      assert s[k := v][..n] == s[..n][k := v];
      SumOfChanged(s[..n], k, v);
    }
  }

  lemma AcceptedIsSummed(r: Reader, h: Bytes)
    requires |h| == BLOCK && StartEntry(r, h).Ok?
    ensures ReadNumber(h, 148, 8) == Some(Checksum(h))
  {
  }

  lemma ChecksumOfChanged(h: Bytes, k: nat, v: Byte)
    requires |h| == BLOCK && k < BLOCK && !(148 <= k < 156)
    ensures Checksum(h[k := v]) == Checksum(h) - h[k] + v
    ensures ReadNumber(h[k := v], 148, 8) == ReadNumber(h, 148, 8)
  {
    var blanks := Repeat(SPACE, 8);
    assert Patch(h[k := v], 148, blanks) == Patch(h, 148, blanks)[k := v];
    assert Patch(h, 148, blanks)[k] == h[k];
    SumOfChanged(Patch(h, 148, blanks), k, v);
    assert h[k := v][148..156] == h[148..156];
  }

  /** A header of which one byte outside the checksum was changed is refused. */
  lemma DamageIsRefused(r: Reader, h: Bytes, k: nat, v: Byte)
    requires |h| == BLOCK && k < BLOCK && !(148 <= k < 156) && v != h[k]
    requires StartEntry(r, h).Ok?
    ensures StartEntry(r, h[k := v]).Err?
  {
    AcceptedIsSummed(r, h);
    ChecksumOfChanged(h, k, v);
    if StartEntry(r, h[k := v]).Ok? {
      AcceptedIsSummed(r, h[k := v]);
    }
  }

  /** Only files, directories and name records are read; a file is "0" or has no type. */
  lemma OnlyKnownKinds(r: Reader, h: Bytes)
    requires |h| == BLOCK && StartEntry(r, h).Ok?
    ensures Field(h, 156, 1) in {[], [FILE_TYPE], [DIR_TYPE], [PAX_TYPE]}
  {
    var t := h[156..157];
    assert t[1..] == [] && CutAtNul(t[1..]) == [];
    assert Field(h, 156, 1) == if t[0] == 0 then [] else [t[0]];
  }

  predicate IsWhite(c: Byte) { c in {9, 10, 11, 12, 13, 32} }

  predicate AllBlanks(s: Bytes) { forall c | c in s :: IsWhite(c) }

  lemma {:induction false} TrimLeftIs(s: Bytes) returns (a: Bytes)
    ensures s == a + TrimLeft(s) && AllBlanks(a) && (TrimLeft(s) != [] ==> !IsBlank(TrimLeft(s)[0]))
    decreases |s|
  {
    if s != [] && IsBlank(s[0]) {
      var rest := TrimLeftIs(s[1..]);
      a := [s[0]] + rest;
      assert s == [s[0]] + s[1..];
    } else {
      a := [];
    }
  }

  lemma {:induction false} TrimRightIs(s: Bytes) returns (b: Bytes)
    ensures s == TrimRight(s) + b && AllBlanks(b)
    ensures TrimRight(s) != [] ==> !IsBlank(TrimRight(s)[|TrimRight(s)| - 1])
    decreases |s|
  {
    if s != [] && IsBlank(s[|s| - 1]) {
      var rest := TrimRightIs(s[..|s| - 1]);
      b := rest + [s[|s| - 1]];
      assert s == s[..|s| - 1] + [s[|s| - 1]];
    } else {
      b := [];
      assert s + [] == s;
    }
  }

  lemma {:induction false} TrimsLeft(a: Bytes, s: Bytes)
    requires AllBlanks(a) && (s == [] || !IsBlank(s[0]))
    ensures TrimLeft(a + s) == s
    decreases |a|
  {
    if a == [] {
      assert a + s == s;
    } else {
      assert a[0] in a && (a + s)[1..] == a[1..] + s;
      TrimsLeft(a[1..], s);
    }
  }

  lemma {:induction false} TrimsRight(s: Bytes, b: Bytes)
    requires AllBlanks(b) && (s == [] || !IsBlank(s[|s| - 1]))
    ensures TrimRight(s + b) == s
    decreases |b|
  {
    if b == [] {
      assert s + b == s;
    } else {
      var t := s + b;
      assert b[|b| - 1] in b && t[..|t| - 1] == s + b[..|b| - 1];
      TrimsRight(s, b[..|b| - 1]);
    }
  }

  /** The field holds octal digits, possibly none, with blanks around. */
  ghost predicate ShowsOctal(field: Bytes, v: nat) {
    exists a: Bytes, d: Bytes, b: Bytes ::
      field == a + (d + b) && AllBlanks(a) && AllBlanks(b) && AllDigits(d, 8) && v == Value(d, 8)
  }

  lemma OctalTrims(a: Bytes, d: Bytes, b: Bytes)
    requires AllBlanks(a) && AllBlanks(b) && AllDigits(d, 8)
    ensures TrimRight(TrimLeft(a + (d + b))) == d
  {
    if d == [] {
      assert a + (d + b) == (a + b) + [] && AllBlanks(a + b);
      TrimsLeft(a + b, []);
    } else {
      assert IsDigit(d[0], 8) && IsDigit(d[|d| - 1], 8) && (d + b)[0] == d[0];
      TrimsLeft(a, d + b);
      TrimsRight(d, b);
    }
  }

  /** A number field is read exactly when it holds octal digits, and as their value. */
  lemma NumberIffOctal(h: Bytes, start: nat, length: nat, v: nat)
    requires start + length <= |h|
    ensures ReadNumber(h, start, length) == Some(v) <==> ShowsOctal(Field(h, start, length), v)
  {
    var field := Field(h, start, length);
    if ReadNumber(h, start, length) == Some(v) {
      var a := TrimLeftIs(field);
      var b := TrimRightIs(TrimLeft(field));
    }
    if ShowsOctal(field, v) {
      var a: Bytes, d: Bytes, b: Bytes :|
        field == a + (d + b) && AllBlanks(a) && AllBlanks(b) && AllDigits(d, 8) && v == Value(d, 8);
      OctalTrims(a, d, b);
    }
  }

  /** `n` digits, a blank, "path=", a name without a newline, and a newline. */
  ghost predicate IsPax(data: Bytes, digits: Bytes, name: Bytes) {
    && digits != [] && AllDigits(digits, 10) && name != [] && NEWLINE !in name
    && data == digits + ([SPACE] + PATH_KEY + name + [NEWLINE])
  }

  lemma {:induction false} LeadingIs(data: Bytes)
    ensures var d := LeadingDigits(data);
            AllDigits(data[..d], 10) && (d < |data| ==> !IsDigit(data[d], 10))
    decreases |data|
  {
    if data != [] && IsDigit(data[0], 10) {
      LeadingIs(data[1..]);
      var d := LeadingDigits(data);
      assert forall i | 1 <= i < d :: data[..d][i] == data[1..][..d - 1][i - 1];
    }
  }

  lemma LeadingIsAll(digits: Bytes, rest: Bytes)
    requires AllDigits(digits, 10) && rest != [] && !IsDigit(rest[0], 10)
    ensures LeadingDigits(digits + rest) == |digits|
  {
    var data := digits + rest;
    var d := LeadingDigits(data);
    LeadingIs(data);
    assert data[|digits|] == rest[0];
    assert forall k | 0 <= k < d :: IsDigit(data[..d][k], 10) && data[..d][k] == data[k];
    assert forall k | 0 <= k < |digits| :: data[k] == digits[k];
  }

  /** A name record is accepted exactly in that form, and gives that name. */
  lemma PaxIffRecord(data: Bytes, name: Bytes)
    ensures MatchPax(data) == Some(name) <==> exists digits :: IsPax(data, digits, name)
  {
    var d := LeadingDigits(data);
    LeadingIs(data);
    if MatchPax(data) == Some(name) {
      var rest := data[d..];
      assert rest == rest[..6] + rest[6..|rest| - 1] + [NEWLINE];
      assert data == data[..d] + rest;
      assert IsPax(data, data[..d], name);
    }
    if digits :| IsPax(data, digits, name) {
      var rest := [SPACE] + PATH_KEY + name + [NEWLINE];
      LeadingIsAll(digits, rest);
      assert data[|digits|..] == rest && rest[..6] == [SPACE] + PATH_KEY && rest[6..|rest| - 1] == name;
    }
  }

  // ----- what it creates -----

  lemma {:induction false} MkdirCreates(fs: Files, p: Path, mode: nat)
    requires MkdirAll(fs, p, mode).Some?
    ensures var fs' := MkdirAll(fs, p, mode).value;
            forall q | q in fs' :: if q in fs then fs'[q] == fs[q] else q <= p && fs'[q] == DirNode(mode)
    ensures p != [] ==> p in MkdirAll(fs, p, mode).value
    decreases |p|
  {
    if p != [] {
      MkdirCreates(fs, Parent(p), mode);
      MkdirKeepsAll(fs, Parent(p), mode);
      var below := MkdirAll(fs, Parent(p), mode).value;
      forall q | q in below && q !in fs ensures q <= p {
        assert q <= Parent(p);
      }
    }
  }

  /** An entry leaves its node with its own mode, a directory that was there included; the directories
      above a new file are open to all (octal 777), those above a new directory have its mode. */
  lemma OpenCreates(r: Reader, mode: nat, q: Path)
    requires Open(r, mode).Ok? && r.entry.target != []
    ensures var target, dir, fs' := r.entry.target, r.entry.kind == DIR_TYPE, Open(r, mode).value.fs;
            && target in fs' && fs'[target] == (if dir then DirNode(mode) else FileNode(mode, []))
            && (q in fs' && q !in r.fs && q != target ==>
                  q <= target && fs'[q] == DirNode(if dir then mode else 7 * 64 + 7 * 8 + 7))
            && (q in r.fs && q != target ==> q in fs' && fs'[q] == r.fs[q])
  {
    var dir := r.entry.kind == DIR_TYPE;
    var below, m := if dir then r.entry.target else Parent(r.entry.target), if dir then mode else DEFAULT_MODE;
    MkdirCreates(r.fs, below, m);
    MkdirKeepsAll(r.fs, below, m);
  }

  lemma {:induction false} MkdirKeepsAll(fs: Files, p: Path, mode: nat)
    requires MkdirAll(fs, p, mode).Some?
    ensures fs.Keys <= MkdirAll(fs, p, mode).value.Keys
    decreases |p|
  {
    if p != [] {
      MkdirKeepsAll(fs, Parent(p), mode);
    }
  }

  function NonEmpty(parts: Path): Path {
    if parts == [] then [] else (if parts[0] == [] then [] else [parts[0]]) + NonEmpty(parts[1..])
  }

  /** Without a name record an entry has the name of its header, behind the prefix if there is one. */
  lemma NameIsJoined(r: Reader, h: Bytes)
    requires |h| == BLOCK && r.pax.None?
    ensures EntryName(r, h) == Join(NonEmpty([Field(h, 345, 155), Field(h, 0, 100)]))
  {
    var prefix, name := Field(h, 345, 155), Field(h, 0, 100);
    assert NonEmpty([name]) == (if name == [] then [] else [name]) + NonEmpty([]);
    assert [prefix, name][1..] == [name];
    assert forall x: Bytes :: Join([x]) == Under(Join([]), x);
    assert [prefix, name][..1] == [prefix] && prefix + [SLASH] + name == prefix + ([SLASH] + name);
  }

  // ----- a cut is reported -----

  /** A header with its data and padding, by the size that the header gives. */
  function EntryLength(h: Bytes): (k: nat)
    requires |h| == BLOCK
    ensures k >= BLOCK
  {
    match ReadNumber(h, 124, 12) case None => BLOCK case Some(size) => BLOCK + size + Pad(size)
  }

  /** At `n`, one entry has ended with its data and padding, and the next has not begun. */
  predicate Between(b: Bytes, n: nat)
    decreases |b|
  {
    n == 0 ||
    (BLOCK <= n <= |b| && var k := EntryLength(b[..BLOCK]); k <= n && Between(b[k..], n - k))
  }

  predicate AtRest(r: Reader) { r.remaining == 0 && r.padding == 0 }

  /** Within the data and padding of an entry, something is missing. */
  lemma {:induction false} DataIsMissed(r: Reader, d: Bytes)
    requires |d| < r.remaining + r.padding
    ensures !Scan(r, d).End?
    ensures Scan(r, d).More? ==> !AtRest(Scan(r, d).reader)
    decreases |d|
  {
    if d != [] && r.remaining > 0 {
      var count := Least(r.remaining, |d|);
      match Take(r, d[..count])
      case Err(_) =>
      case Ok(r1) => DataIsMissed(r1, d[count..]);
    } else if d != [] {
      var count := Least(r.padding, |d|);
      DataIsMissed(r.(padding := r.padding - count), d[count..]);
    }
  }

  /** All of it, and nothing more: the next entry can begin. */
  lemma {:induction false} DataIsDone(r: Reader, d: Bytes)
    requires |d| == r.remaining + r.padding
    ensures !Scan(r, d).End?
    ensures Scan(r, d).More? ==> AtRest(Scan(r, d).reader) && Scan(r, d).rest == []
    decreases |d|
  {
    if d != [] && r.remaining > 0 {
      var count := r.remaining;
      match Take(r, d[..count])
      case Err(_) =>
      case Ok(r1) => DataIsDone(r1, d[count..]);
    } else if d != [] {
      DataIsDone(r.(padding := 0), d[r.padding..]);
    }
  }

  /** A header that is read, the end of its entry, and the reader there. */
  lemma EntryEnds(r: Reader, b: Bytes) returns (r1: Reader, k: nat)
    requires AtRest(r) && |b| >= BLOCK && !AllZero(b[..BLOCK]) && StartEntry(r, b[..BLOCK]).Ok?
    ensures r1 == StartEntry(r, b[..BLOCK]).value && k == BLOCK + r1.remaining + r1.padding
    ensures forall n | BLOCK <= n <= |b| :: Scan(r, b[..n]) == Scan(r1, b[BLOCK..n])
  {
    r1 := StartEntry(r, b[..BLOCK]).value;
    k := BLOCK + r1.remaining + r1.padding;
    forall n | BLOCK <= n <= |b| ensures Scan(r, b[..n]) == Scan(r1, b[BLOCK..n]) {
      assert b[..n][..BLOCK] == b[..BLOCK] && b[..n][BLOCK..] == b[BLOCK..n];
    }
  }

  /** Reading goes on after an entry as if it began there. */
  lemma GoesOn(r: Reader, b: Bytes, k: nat, n: nat, r2: Reader)
    requires k <= n <= |b| && Scan(r, b[..k]) == More(r2, [])
    ensures Scan(r, b[..n]) == Scan(r2, b[k..n])
  {
    var a, c := b[..k], b[k..n];
    assert a + c == b[..n] && [] + c == c;
    ScanSplits(r, a, c);
  }

  /** Nothing is missing at the end of these bytes. */
  predicate Clean(r: Reader, b: Bytes) {
    Scan(r, b).More? && AtRest(Scan(r, b).reader) && Scan(r, b).rest == []
  }

  lemma UnpackIs(r: Reader, b: Bytes)
    requires !Scan(r, b).End?
    ensures Unpack(r, [], [b]).Unpacked? <==> Clean(r, b)
  {
    assert [] + b == b;
    if Scan(r, b).More? {
      var x := Scan(r, b);
      assert Unpack(r, [], [b]) == Unpack(x.reader, x.rest, [][..]);
    }
  }

  /** What is read on without an end has no end in its first part. */
  lemma NoEndBefore(r: Reader, b: Bytes, n: nat)
    requires n <= |b| && Scan(r, b).More?
    ensures Scan(r, b[..n]).More?
  {
    ScanSplits(r, b[..n], b[n..]);
    assert b[..n] + b[n..] == b;
  }

  lemma StartTakesSize(r: Reader, h: Bytes)
    requires |h| == BLOCK && StartEntry(r, h).Ok?
    ensures var r1 := StartEntry(r, h).value; EntryLength(h) == BLOCK + r1.remaining + r1.padding
  {
  }

  lemma CutInHeader(r: Reader, b: Bytes, n: nat)
    requires AtRest(r) && n < BLOCK && n <= |b|
    ensures Clean(r, b[..n]) <==> n == 0
  {
  }

  lemma CutInEntry(r: Reader, b: Bytes, n: nat)
    requires AtRest(r) && BLOCK <= n <= |b| && Scan(r, b).More? && n < EntryLength(b[..BLOCK])
    ensures !Clean(r, b[..n])
  {
    NoEndBefore(r, b, n);
    StartTakesSize(r, b[..BLOCK]);
    var r1, k := EntryEnds(r, b);
    DataIsMissed(r1, b[BLOCK..n]);
  }

  lemma EntryIsDone(r: Reader, b: Bytes, k: nat) returns (r2: Reader)
    requires AtRest(r) && BLOCK <= k <= |b| && Scan(r, b).More? && k == EntryLength(b[..BLOCK])
    ensures AtRest(r2) && Scan(r, b[..k]) == More(r2, [])
  {
    StartTakesSize(r, b[..BLOCK]);
    var r1, k' := EntryEnds(r, b);
    NoEndBefore(r, b, k);
    DataIsDone(r1, b[BLOCK..k]);
    r2 := Scan(r, b[..k]).reader;
  }

  lemma CutBehindEntry(r: Reader, b: Bytes, n: nat, k: nat) returns (r2: Reader)
    requires ReadsOn()(r, b) && BLOCK <= k <= n <= |b| && k == EntryLength(b[..BLOCK])
    ensures ReadsOn()(r2, b[k..])
    ensures Cleanly()(r, b[..n]) <==> Cleanly()(r2, b[k..][..n - k])
  {
    r2 := EntryIsDone(r, b, k);
    assert Scan(r2, b[k..]) == Scan(r, b) by {
      assert b[..|b|] == b && b[k..|b|] == b[k..];
      GoesOn(r, b, k, |b|, r2);
    }
    assert Scan(r, b[..n]) == Scan(r2, b[k..][..n - k]) by {
      assert b[k..][..n - k] == b[k..n];
      GoesOn(r, b, k, n, r2);
    }
  }

  lemma CutEarly(r: Reader, b: Bytes, n: nat)
    requires AtRest(r) && n <= |b| && Scan(r, b).More? && (n < BLOCK || n < EntryLength(b[..BLOCK]))
    ensures Clean(r, b[..n]) <==> Between(b, n)
  {
    if n < BLOCK {
      CutInHeader(r, b, n);
    } else {
      CutInEntry(r, b, n);
    }
  }

  /** `ok`: the bytes are read on without an end; `done`: nothing is missing at their end. */
  ghost predicate CutsEarly(ok: (Reader, Bytes) -> bool, done: (Reader, Bytes) -> bool, r: Reader, b: Bytes, n: nat) {
    ok(r, b) && n <= |b| && (n < BLOCK || n < EntryLength(b[..BLOCK])) ==>
      (done(r, b[..n]) <==> Between(b, n))
  }

  ghost predicate CutsLater(ok: (Reader, Bytes) -> bool, done: (Reader, Bytes) -> bool, r: Reader, b: Bytes, n: nat) {
    ok(r, b) && BLOCK <= n <= |b| && EntryLength(b[..BLOCK]) <= n ==>
      exists r2 :: CutsOn(ok, done, r, b, n, EntryLength(b[..BLOCK]), r2)
  }

  /** Behind the first entry it is the same, with another reader. */
  ghost predicate CutsOn(ok: (Reader, Bytes) -> bool, done: (Reader, Bytes) -> bool, r: Reader, b: Bytes, n: nat,
                         k: nat, r2: Reader)
    requires k <= n <= |b|
  {
    ok(r2, b[k..]) && (done(r, b[..n]) <==> done(r2, b[k..][..n - k]))
  }

  /** From the first entry to all of them. */
  lemma {:induction false} CutsByEntry(ok: (Reader, Bytes) -> bool, done: (Reader, Bytes) -> bool,
                                       r: Reader, b: Bytes, n: nat)
    requires forall r: Reader, b: Bytes, n: nat :: CutsEarly(ok, done, r, b, n) && CutsLater(ok, done, r, b, n)
    requires ok(r, b) && n <= |b|
    ensures done(r, b[..n]) <==> Between(b, n)
    decreases |b|
  {
    assert CutsEarly(ok, done, r, b, n) && CutsLater(ok, done, r, b, n);
    if n >= BLOCK && EntryLength(b[..BLOCK]) <= n {
      var k := EntryLength(b[..BLOCK]);
      var r2 :| CutsOn(ok, done, r, b, n, k, r2);
      CutsByEntry(ok, done, r2, b[k..], n - k);
    }
  }

  function ReadsOn(): (Reader, Bytes) -> bool { (r: Reader, b: Bytes) => AtRest(r) && Scan(r, b).More? }

  function Cleanly(): (Reader, Bytes) -> bool { (r: Reader, b: Bytes) => Clean(r, b) }

  lemma CutsOfEntry(r: Reader, b: Bytes, n: nat)
    ensures CutsEarly(ReadsOn(), Cleanly(), r, b, n)
  {
    if AtRest(r) && Scan(r, b).More? && n <= |b| && (n < BLOCK || n < EntryLength(b[..BLOCK])) {
      CutEarly(r, b, n);
    }
  }

  lemma CutsOfRest(r: Reader, b: Bytes, n: nat)
    ensures CutsLater(ReadsOn(), Cleanly(), r, b, n)
  {
    if ReadsOn()(r, b) && BLOCK <= n <= |b| && EntryLength(b[..BLOCK]) <= n {
      var k := EntryLength(b[..BLOCK]);
      var r2 := CutBehindEntry(r, b, n, k);
      assert CutsOn(ReadsOn(), Cleanly(), r, b, n, k, r2);
    }
  }

  /** Of bytes that are read without an end or a refusal, any first part is unpacked without complaint
      exactly when it ends between two entries. */
  lemma CutIsReported(r: Reader, b: Bytes, n: nat)
    requires AtRest(r) && n <= |b| && Scan(r, b).More?
    ensures Unpack(r, [], [b[..n]]).Unpacked? <==> Between(b, n)
  {
    NoEndBefore(r, b, n);
    UnpackIs(r, b[..n]);
    forall r: Reader, b: Bytes, n: nat
      ensures CutsEarly(ReadsOn(), Cleanly(), r, b, n) && CutsLater(ReadsOn(), Cleanly(), r, b, n)
    {
      CutsOfEntry(r, b, n);
      CutsOfRest(r, b, n);
    }
    CutsByEntry(ReadsOn(), Cleanly(), r, b, n);
  }

  /** So with an archive that is cut before its final zeros. */
  lemma CutArchiveIsReported(nodes: seq<Named>, n: nat)
    requires GoodNodes(nodes) && WritableNodes([], nodes) && AdmissibleNodes([], nodes)
    requires n <= |TreeBlocks([], nodes)|
    ensures Unpack(NewReader(), [], [TreeBlocks([], nodes)[..n]]).Unpacked? <==> Between(TreeBlocks([], nodes), n)
  {
    var blocks := TreeBlocks([], nodes);
    var r1 := NodesRead(NewReader(), [], nodes, []);
    assert blocks + [] == blocks;
    CutIsReported(NewReader(), blocks, n);
  }

  // ----- what a header carries for other readers -----

  /** A directory is told from a file by its kind and by the slash at the end of its name. */
  lemma DirectoriesAreMarked(rel: Bytes, node: Node)
    ensures node.Dir? ==> StoredName(rel, node) == rel + Ascii("/") && [Kind(node)] == Ascii("5")
    ensures node.File? ==> StoredName(rel, node) == rel && [Kind(node)] == Ascii("0")
  {
  }

  lemma UnsummedIsUstar(name: Bytes, size: nat, mode: Mode, kind: Byte)
    requires |name| <= 100 && Fits(12, size)
    ensures var h := Unsummed(name, size, mode, kind);
      && Shows(h, 108, Ascii("0000000") + [0]) && Shows(h, 116, Ascii("0000000") + [0])
      && Shows(h, 136, Ascii("00000000000") + [0]) && Shows(h, 257, Ascii("ustar") + [0] + Ascii("00"))
  {
    ModeFits(mode);
    var zero, none, blanks := Octal(8, 0), Octal(12, 0), Repeat(SPACE, 8);
    assert zero == Ascii("0000000") + [0] && none == Ascii("00000000000") + [0] by { ZeroFields(); }
    var h2 := Patch(Patch(Zeros(BLOCK), 0, name), 100, Octal(8, mode));
    var h3 := Patch(h2, 108, zero);
    var h4 := Patch(h3, 116, zero);
    var h5 := Patch(h4, 124, Octal(12, size));
    var h6 := Patch(h5, 136, none);
    var h7 := Patch(h6, 148, blanks);
    var h8 := Patch(h7, 156, [kind]);
    var h9 := Patch(h8, 257, USTAR);
    PatchShows(h2, 108, zero);
    PatchShows(h3, 116, zero);
    PatchKeeps(h3, 116, zero, 108, zero);
    KeepPair(h4, 124, Octal(12, size));
    PatchShows(h5, 136, none);
    KeepPair(h5, 136, none);
    KeepThree(h6, 148, blanks);
    KeepThree(h7, 156, [kind]);
    KeepThree(h8, 257, USTAR);
    KeepThree(h9, 263, VERSION);
    PatchShows(h8, 257, USTAR);
    PatchKeeps(h9, 263, VERSION, 257, USTAR);
    PatchShows(h9, 263, VERSION);
    var h := Patch(h9, 263, VERSION);
    assert h[257..265] == h[257..263] + h[263..265];
    assert USTAR == Ascii("ustar") + [0] && VERSION == Ascii("00");
  }

  lemma ZeroFields()
    ensures Fits(8, 0) && Fits(12, 0)
    ensures Octal(8, 0) == Ascii("0000000") + [0] && Octal(12, 0) == Ascii("00000000000") + [0]
  {
    ModeFits(0);
    assert Numeral(0, 8) == [ZERO];
  }

  lemma KeepPair(h: Bytes, offset: nat, text: Bytes)
    requires |h| == BLOCK && 124 <= offset && offset + |text| <= BLOCK && Fits(8, 0)
    requires Shows(h, 108, Octal(8, 0)) && Shows(h, 116, Octal(8, 0))
    ensures var r := Patch(h, offset, text); Shows(r, 108, Octal(8, 0)) && Shows(r, 116, Octal(8, 0))
  {
    PatchKeeps(h, offset, text, 108, Octal(8, 0));
    PatchKeeps(h, offset, text, 116, Octal(8, 0));
  }

  lemma KeepThree(h: Bytes, offset: nat, text: Bytes)
    requires |h| == BLOCK && 148 <= offset && offset + |text| <= BLOCK && Fits(8, 0) && Fits(12, 0)
    requires Shows(h, 108, Octal(8, 0)) && Shows(h, 116, Octal(8, 0)) && Shows(h, 136, Octal(12, 0))
    ensures var r := Patch(h, offset, text);
            Shows(r, 108, Octal(8, 0)) && Shows(r, 116, Octal(8, 0)) && Shows(r, 136, Octal(12, 0))
  {
    KeepPair(h, offset, text);
    PatchKeeps(h, offset, text, 136, Octal(12, 0));
  }

  /** A header has no owner, group or time, and the magic and version of the ustar format. */
  lemma HeaderIsUstar(name: Bytes, size: nat, mode: Mode, kind: Byte)
    requires |name| <= 100 && Fits(12, size)
    ensures var h := Header(name, size, mode, kind);
      && Shows(h, 108, Ascii("0000000") + [0]) && Shows(h, 116, Ascii("0000000") + [0])
      && Shows(h, 136, Ascii("00000000000") + [0]) && Shows(h, 257, Ascii("ustar") + [0] + Ascii("00"))
  {
    var u := Unsummed(name, size, mode, kind);
    UnsummedIsUstar(name, size, mode, kind);
    SumFits(u);
    ZeroFields();
    KeepThree(u, 148, Octal(8, Sum(u)));
    PatchKeeps(u, 148, Octal(8, Sum(u)), 257, Ascii("ustar") + [0] + Ascii("00"));
  }
}
