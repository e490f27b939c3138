/** The names that the content ID of a home leaves out, as texts. */
module HomeMetadata {
  import opened Basics
  import opened Numerals
  import SeedId
  import opened TarRoundTrip
  import ServingLockText

  predicate HexDigits(text: Bytes) {
    forall c | c in text :: var x := c as char; '0' <= x <= '9' || 'a' <= x <= 'f'
  }

  /** Groups of 8, 4, 4, 4 and 12 hexadecimal digits. */
  ghost predicate IsUuidText(text: Bytes) {
    exists a: Bytes, b: Bytes, c: Bytes, d: Bytes, e: Bytes :: IsUuidOf(text, a, b, c, d, e)
  }

  predicate IsUuidOf(text: Bytes, a: Bytes, b: Bytes, c: Bytes, d: Bytes, e: Bytes) {
    && |a| == 8 && |b| == |c| == |d| == 4 && |e| == 12 && HexDigits(a + b + c + d + e)
    && text == a + Ascii("-") + b + Ascii("-") + c + Ascii("-") + d + Ascii("-") + e
  }

  lemma UuidIff(text: Bytes)
    ensures SeedId.IsUuid(text) <==> IsUuidText(text)
  {
    if SeedId.IsUuid(text) {
      var a, b, c, d, e := text[..8], text[9..13], text[14..18], text[19..23], text[24..];
      assert text[8] == text[13] == text[18] == text[23] == Code('-');
      assert text == a + Ascii("-") + b + Ascii("-") + c + Ascii("-") + d + Ascii("-") + e;
      assert forall i | 0 <= i < 36 && i !in {8, 13, 18, 23} :: SeedId.IsHex(text[i]);
      assert IsUuidOf(text, a, b, c, d, e);
    }
    if IsUuidText(text) {
      var a: Bytes, b: Bytes, c: Bytes, d: Bytes, e: Bytes :| IsUuidOf(text, a, b, c, d, e);
      var all := a + b + c + d + e;
      forall i | 0 <= i < 36
        ensures if i in {8, 13, 18, 23} then text[i] == SeedId.DASH else SeedId.IsHex(text[i])
      {
        if i !in {8, 13, 18, 23} {
          var k := i - (if i < 8 then 0 else if i < 13 then 1 else if i < 18 then 2 else if i < 23 then 3 else 4);
          assert text[i] == all[k] && all[k] in all;
        }
      }
    }
  }

  /** ".osd-serving-", a process number, a UUID, ".lock" */
  function LockName(pid: nat, uuid: Bytes): Bytes {
    Ascii(".osd-serving-") + Numeral(pid, 10) + Ascii("-") + uuid + Ascii(".lock")
  }

  lemma LockNameParts(pid: nat, uuid: Bytes)
    requires pid >= 1 && |uuid| == 36
    ensures var name, n := LockName(pid, uuid), |LockName(pid, uuid)|;
            && n == |Numeral(pid, 10)| + 55
            && name[..13] == SeedId.LOCK_PREFIX && name[n - 5..] == SeedId.LOCK_SUFFIX && name[n - 41..n - 5] == uuid
            && name[n - 42] == SeedId.DASH && name[13..n - 42] == Numeral(pid, 10)
  {
    assert Ascii(".osd-serving-") == SeedId.LOCK_PREFIX && Ascii(".lock") == SeedId.LOCK_SUFFIX;
  }

  lemma LockHasName(name: Bytes) returns (pid: nat, uuid: Bytes)
    requires SeedId.IsServingLock(name)
    ensures pid >= 1 && IsUuidText(uuid) && name == LockName(pid, uuid)
  {
    var n := |name|;
    var digits := name[13..n - 42];
    uuid := name[n - 41..n - 5];
    forall i | 0 <= i < |digits| ensures IsDigit(digits[i], 10) {
      assert digits[i] == name[13 + i];
    }
    ServingLockText.SpelledAgain(digits);
    pid := Value(digits, 10);
    UuidIff(uuid);
    LockIsSplit(name, digits, uuid);
  }

  lemma LockIsSplit(name: Bytes, digits: Bytes, uuid: Bytes)
    requires var n := |name|;
             && n >= 56 && SeedId.LOCK_PREFIX <= name && name[n - 5..] == SeedId.LOCK_SUFFIX
             && digits == name[13..n - 42] && uuid == name[n - 41..n - 5] && name[n - 42] == SeedId.DASH
    ensures name == Ascii(".osd-serving-") + digits + Ascii("-") + uuid + Ascii(".lock")
  {
    assert name == name[..13] + name[13..|name| - 42] + [name[|name| - 42]] + name[|name| - 41..|name| - 5]
                   + name[|name| - 5..];
    assert Ascii(".osd-serving-") == SeedId.LOCK_PREFIX && Ascii(".lock") == SeedId.LOCK_SUFFIX;
    assert Ascii("-") == [SeedId.DASH];
  }

  lemma NameIsLock(pid: nat, uuid: Bytes)
    requires pid >= 1 && IsUuidText(uuid)
    ensures SeedId.IsServingLock(LockName(pid, uuid))
  {
    var name, digits := LockName(pid, uuid), Numeral(pid, 10);
    UuidIff(uuid);
    LockNameParts(pid, uuid);
    ServingLockText.NumeralIsPositive(pid);
    forall i | 13 <= i < |name| - 42 ensures 48 <= name[i] <= 57 {
      assert name[i] == digits[i - 13] && IsDigit(digits[i - 13], 10);
    }
    assert name[13] == digits[0];
  }

  lemma ServingLockIff(name: Bytes)
    ensures SeedId.IsServingLock(name) <==>
            exists pid: nat, uuid: Bytes :: pid >= 1 && IsUuidText(uuid) && name == LockName(pid, uuid)
  {
    if SeedId.IsServingLock(name) {
      var pid, uuid := LockHasName(name);
    }
    if pid: nat, uuid: Bytes :| pid >= 1 && IsUuidText(uuid) && name == LockName(pid, uuid) {
      NameIsLock(pid, uuid);
    }
  }

  /** The content ID of a home leaves out, at its root, exactly its ID, its marker, its list of
      original files, and serving locks. */
  lemma MetadataIff(name: Bytes)
    ensures SeedId.IsMetadata(name) <==>
            || name in {Ascii(".seed-id"), Ascii(".osd-materialized"), Ascii(".osd-seed-files.json")}
            || exists pid: nat, uuid: Bytes :: pid >= 1 && IsUuidText(uuid) && name == LockName(pid, uuid)
  {
    ServingLockIff(name);
    assert Ascii(".seed-id") == SeedId.SEED_ID_FILE && Ascii(".osd-materialized") == SeedId.MATERIALIZED_MARKER;
    assert Ascii(".osd-seed-files.json") == SeedId.SEED_FILES_FILE;
  }

  /** A number written with its most significant byte first. */
  function BigValue(s: Bytes): nat
    decreases |s|
  {
    if s == [] then 0 else BigValue(s[..|s| - 1]) * 256 + s[|s| - 1]
  }

  lemma {:induction false} BigEndianReads(width: nat, n: nat)
    requires n < Pow(256, width)
    ensures BigValue(SeedId.BigEndian(width, n)) == n
    decreases width
  {
    if width > 0 {
      BigEndianReads(width - 1, n / 256);
      assert SeedId.BigEndian(width, n)[..width - 1] == SeedId.BigEndian(width - 1, n / 256);
    }
  }

  /** A record is its kind (D, L or F), the lengths of name and content in 4 and 8 bytes, the name, the
      permission bits in 4 bytes, and the content; a link has no permission bits. */
  lemma RecordLayout(x: SeedId.Record)
    requires SeedId.Framable(x)
    ensures var (s, n, c) := (SeedId.Encode(x), |Join(x.path)|, |SeedId.ContentOf(x.fact)|);
      && |s| == 1 + 4 + 8 + n + 4 + c
      && s[0] == (match x.fact
                  case FolderFact(_) => Code('D') case LinkFact(_) => Code('L') case PlainFact(_, _) => Code('F'))
      && BigValue(s[1..5]) == n && BigValue(s[5..13]) == c && s[13..13 + n] == Join(x.path)
      && BigValue(s[13 + n..17 + n]) == (match x.fact
                                         case FolderFact(m) => m case LinkFact(_) => 0 case PlainFact(m, _) => m)
      && s[17 + n..] == (match x.fact
                         case FolderFact(_) => [] case LinkFact(target) => target case PlainFact(_, content) => content)
  {
    SeedId.Widths();
    var name, content, mode := Join(x.path), SeedId.ContentOf(x.fact), SeedId.ModeOf(x.fact);
    BigEndianReads(4, |name|);
    BigEndianReads(8, |content|);
    BigEndianReads(4, mode);
    FrameParts(SeedId.KindByte(x.fact), SeedId.BigEndian(4, |name|), SeedId.BigEndian(8, |content|), name,
               SeedId.BigEndian(4, mode), content);
  }

  lemma FrameParts(kind: Byte, a: Bytes, b: Bytes, name: Bytes, m: Bytes, content: Bytes)
    requires |a| == |m| == 4 && |b| == 8
    ensures var (s, n) := ([kind] + a + b + name + m + content, |name|);
      && |s| == 17 + n + |content| && s[0] == kind && s[1..5] == a && s[5..13] == b
      && s[13..13 + n] == name && s[13 + n..17 + n] == m && s[17 + n..] == content
  {
  }
}
