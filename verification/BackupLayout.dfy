/** The files of ultraballoondb-backup by position: where each field of a manifest, a plan and a receipt stands,
    and which relative paths are accepted. */
module BackupLayout {
  import opened Common
  import opened LittleEndian
  import opened BackupCodec

  // A string: its length in four bytes, and its bytes.
  ghost predicate SpellsString(data: Bytes, at: nat, s: Bytes) {
    Spells(data, at, 4, |s|) && Stands(data, at + 4, s)
  }

  lemma NextString(data: Bytes, at: nat, s: Bytes, x: Bytes)
    requires From(data, at, PutString(s) + x)
    ensures SpellsString(data, at, s) && From(data, at + 4 + |s|, x)
  {
    hide ToLE, Spells, Stands;
    Associate(ToLE(|s|, 4), s, x);
    NextInt(data, at, |s|, 4, s + x);
    Next(data, at + 4, s, x);
  }

  // A file entry: path, size in eight bytes, digest.
  ghost predicate SpellsFile(data: Bytes, at: nat, f: FileEntry) {
    && SpellsString(data, at, f.path)
    && Spells(data, at + 4 + |f.path|, 8, f.size) && Stands(data, at + 12 + |f.path|, f.digest)
  }

  lemma NextFile(data: Bytes, at: nat, f: FileEntry, x: Bytes)
    requires From(data, at, PutFile(f) + x)
    ensures SpellsFile(data, at, f) && From(data, at + 12 + |f.path| + |f.digest|, x)
  {
    hide ToLE, PutString, Spells, SpellsString, Stands, From;
    Associate(PutString(f.path), ToLE(f.size, 8) + f.digest, x);
    Associate(ToLE(f.size, 8), f.digest, x);
    NextString(data, at, f.path, ToLE(f.size, 8) + (f.digest + x));
    NextInt(data, at + 4 + |f.path|, f.size, 8, f.digest + x);
    Next(data, at + 12 + |f.path|, f.digest, x);
  }

  // Where the k-th file entry begins, counted from the first.
  function FileOffset(files: seq<FileEntry>, k: nat): nat
    requires k <= |files|
  {
    if k == 0 then 0 else FileOffset(files, k - 1) + 44 + |files[k - 1].path|
  }

  // The first k entries stand one after another from `at` on.
  ghost predicate SpellsFiles(data: Bytes, at: nat, files: seq<FileEntry>, k: nat)
    requires k <= |files|
  {
    forall i | 0 <= i < k :: SpellsFile(data, at + FileOffset(files, i), files[i])
  }

  lemma {:induction false} FilesStand(data: Bytes, at: nat, files: seq<FileEntry>, x: Bytes, k: nat)
    requires From(data, at, PutFiles(files) + x) && k <= |files|
    requires forall i | 0 <= i < |files| :: |files[i].digest| == 32
    ensures From(data, at + FileOffset(files, k), PutFiles(files[k..]) + x)
    ensures SpellsFiles(data, at, files, k)
    decreases k
  {
    hide PutFile, SpellsFile, From;
    if k == 0 {
      assert files[0..] == files;
    } else {
      FilesStand(data, at, files, x, k - 1);
      var rest := files[k - 1..];
      assert rest[0] == files[k - 1] && rest[1..] == files[k..];
      Associate(PutFile(files[k - 1]), PutFiles(files[k..]), x);
      NextFile(data, at + FileOffset(files, k - 1), files[k - 1], PutFiles(files[k..]) + x);
    }
  }

  /** The magics and domains in letters. */
  lemma Letters()
    ensures MANIFEST_MAGIC == [0x55, 0x42, 0x42, 0x4B, 0x50, 0x30, 0x31, 0x00] && Ascii(MANIFEST_MAGIC[..7]) == "UBBKP01"
    ensures RECEIPT_MAGIC == [0x55, 0x42, 0x52, 0x53, 0x54, 0x30, 0x31, 0x00] && Ascii(RECEIPT_MAGIC[..7]) == "UBRST01"
    ensures Ascii(MANIFEST_DOMAIN) == "UBBKMN01" && Ascii(PLAN_DOMAIN) == "UBBKPL01" && Ascii(RECEIPT_DOMAIN) == "UBBKRC01"
  {
  }

  // ----- the manifest -----

  // Where the file entries of a manifest begin.
  function FilesAt(m: Manifest): nat {
    72 + |m.backupId| + |m.databaseId|
  }

  /** Every field of a manifest at its offset: the magic, version 1 and no flags, the timestamp, the schema version,
      the two ids, the provenance digest, the file count, the entries and the digest of all that under the domain. */
  lemma ManifestLayout(env: Env, m: Manifest)
    requires env.Valid() && Typed(env, m)
    ensures var d, b, c := Encoded(env, m), |m.backupId|, |m.databaseId|;
      && |d| == FilesAt(m) + FileOffset(m.files, |m.files|) + 32
      && Stands(d, 0, MANIFEST_MAGIC) && Stands(d, 8, [1, 0, 0, 0])
      && Spells(d, 12, 8, m.timestamp) && Spells(d, 20, 8, m.schema)
      && SpellsString(d, 28, m.backupId) && SpellsString(d, 32 + b, m.databaseId)
      && Stands(d, 36 + b + c, m.provenance) && Spells(d, 68 + b + c, 4, |m.files|)
      && SpellsFiles(d, FilesAt(m), m.files, |m.files|)
      && Stands(d, |d| - 32, env.hash(MANIFEST_DOMAIN + d[..|d| - 32]))
  {
    var seal := env.hash(MANIFEST_DOMAIN + Content(m));
    SealStands(env, m);
    hide *;
    HeadLayout(m, PutFiles(m.files) + seal);
    FilesThenSeal(Encoded(env, m), FilesAt(m), m.files, seal);
  }

  lemma FilesThenSeal(d: Bytes, at: nat, files: seq<FileEntry>, seal: Bytes)
    requires From(d, at, PutFiles(files) + seal) && |seal| == 32
    requires forall i | 0 <= i < |files| :: |files[i].digest| == 32
    ensures SpellsFiles(d, at, files, |files|) && |d| == at + FileOffset(files, |files|) + 32
  {
    hide PutFiles, SpellsFiles, FileOffset;
    FilesStand(d, at, files, seal, |files|);
    NoFilesLeft(files, seal);
  }

  lemma SealStands(env: Env, m: Manifest)
    requires env.Valid() && Typed(env, m)
    ensures var d, seal := Encoded(env, m), env.hash(MANIFEST_DOMAIN + Content(m));
      && |seal| == 32 <= |d| && d == PutHead(m) + (PutFiles(m.files) + seal)
      && Stands(d, |d| - 32, env.hash(MANIFEST_DOMAIN + d[..|d| - 32]))
    ensures |m.provenance| == 32 && forall i | 0 <= i < |m.files| :: |m.files[i].digest| == 32
  {
    hide PutHead, PutFiles;
    var d, seal := Encoded(env, m), env.hash(MANIFEST_DOMAIN + Content(m));
    Associate(PutHead(m), PutFiles(m.files), seal);
    assert d[..|d| - 32] == Content(m) && d[|d| - 32..] == seal;
    forall i | 0 <= i < |m.files| ensures |m.files[i].digest| == 32 { assert TypedFile(env, m.files[i]); }
  }

  lemma NoFilesLeft(files: seq<FileEntry>, x: Bytes)
    ensures PutFiles(files[|files|..]) + x == x
  {
    assert files[|files|..] == [] && [] + x == x;
  }

  lemma HeadLayout(m: Manifest, tail: Bytes)
    requires |m.provenance| == 32
    ensures var d, b, c := PutHead(m) + tail, |m.backupId|, |m.databaseId|;
      && Stands(d, 0, MANIFEST_MAGIC) && Stands(d, 8, [1, 0, 0, 0])
      && Spells(d, 12, 8, m.timestamp) && Spells(d, 20, 8, m.schema)
      && SpellsString(d, 28, m.backupId) && SpellsString(d, 32 + b, m.databaseId)
      && Stands(d, 36 + b + c, m.provenance) && Spells(d, 68 + b + c, 4, |m.files|)
      && From(d, FilesAt(m), tail)
  {
    var d := PutHead(m) + tail;
    HeadShape(m, tail);
    BodyShape(m, tail);
    assert d[0..] == d;
    VersionBytes();
    hide ToLE, PutString, PutHead, PutBody, Spells, SpellsString;
    var body := PutBody(m) + tail;
    Associate(ToLE(FORMAT_VERSION, 2), ToLE(0, 2), body);
    hide Stands, From;
    assert From(d, 0, d) by { Whole(d); }
    Next(d, 0, MANIFEST_MAGIC, [1, 0, 0, 0] + body);
    Next(d, 8, [1, 0, 0, 0], body);
    BodyLayout(d, m, tail);
  }

  lemma VersionBytes()
    ensures ToLE(FORMAT_VERSION, 2) + ToLE(0, 2) == [1, 0, 0, 0]
  {
    assert ToLE(1, 2) == [1] + ToLE(0, 1) && ToLE(0, 2) == [0] + ToLE(0, 1) && ToLE(0, 1) == [0] + ToLE(0, 0);
  }

  lemma BodyLayout(d: Bytes, m: Manifest, tail: Bytes)
    requires |m.provenance| == 32 && From(d, 12, PutBody(m) + tail)
    ensures var b, c := |m.backupId|, |m.databaseId|;
      && Spells(d, 12, 8, m.timestamp) && Spells(d, 20, 8, m.schema)
      && SpellsString(d, 28, m.backupId) && SpellsString(d, 32 + b, m.databaseId)
      && Stands(d, 36 + b + c, m.provenance) && Spells(d, 68 + b + c, 4, |m.files|)
      && From(d, FilesAt(m), tail)
  {
    BodyShape(m, tail);
    hide ToLE, PutString, PutBody, Spells, SpellsString, Stands, From;
    var b, c := |m.backupId|, |m.databaseId|;
    var t1 := ToLE(|m.files|, 4) + tail;
    var t2 := m.provenance + t1;
    var t3 := PutString(m.databaseId) + t2;
    var t4 := PutString(m.backupId) + t3;
    NextInt(d, 12, m.timestamp, 8, ToLE(m.schema, 8) + t4);
    NextInt(d, 20, m.schema, 8, t4);
    NextString(d, 28, m.backupId, t3);
    NextString(d, 32 + b, m.databaseId, t2);
    Next(d, 36 + b + c, m.provenance, t1);
    NextInt(d, 68 + b + c, |m.files|, 4, tail);
  }

  // ----- the bytes under the plan digest, and the receipt -----

  /** The plan digest is taken of the domain, the manifest digest, both schema versions, the number of files and
      their total size in eight bytes each, and the file entries. */
  lemma PlanLayout(m: Manifest, target: nat, total: nat)
    requires |m.digest| == 32 && forall i | 0 <= i < |m.files| :: |m.files[i].digest| == 32
    ensures var d := PlanInput(m, target, total);
      && |d| == 72 + FileOffset(m.files, |m.files|)
      && Stands(d, 0, PLAN_DOMAIN) && Stands(d, 8, m.digest) && Spells(d, 40, 8, m.schema) && Spells(d, 48, 8, target)
      && Spells(d, 56, 8, |m.files|) && Spells(d, 64, 8, total)
      && SpellsFiles(d, 72, m.files, |m.files|)
  {
    hide ToLE, PutFiles, Spells, SpellsFiles, FileOffset;
    var d := PlanInput(m, target, total);
    var t1 := ToLE(total, 8) + PutFiles(m.files);
    var t2 := ToLE(|m.files|, 8) + t1;
    var t3 := ToLE(target, 8) + t2;
    var t4 := ToLE(m.schema, 8) + t3;
    assert d == PLAN_DOMAIN + (m.digest + t4);
    Whole(d);
    hide PlanInput;
    Next(d, 0, PLAN_DOMAIN, m.digest + t4);
    Next(d, 8, m.digest, t4);
    NextInt(d, 40, m.schema, 8, t3);
    NextInt(d, 48, target, 8, t2);
    NextInt(d, 56, |m.files|, 8, t1);
    NextInt(d, 64, total, 8, PutFiles(m.files));
    assert PutFiles(m.files) + [] == PutFiles(m.files);
    FilesStand(d, 72, m.files, [], |m.files|);
    NoFilesLeft(m.files, []);
  }

  /** A receipt is 128 bytes: the magic, version 1 and no flags, the timestamp, the digests of manifest and plan,
      the file count in four bytes, the total in eight, and the digest of all that under the domain. */
  lemma ReceiptLayout(env: Env, r: Receipt)
    requires env.Valid() && TypedReceipt(r) && r.fileCount < U32
    ensures EncodeReceipt(env, r).Ok?
    ensures var d := EncodeReceipt(env, r).value;
      && |d| == 128 && Stands(d, 0, RECEIPT_MAGIC) && Stands(d, 8, [1, 0, 0, 0])
      && Spells(d, 12, 8, r.timestamp) && Stands(d, 20, r.manifestDigest) && Stands(d, 52, r.planDigest)
      && Spells(d, 84, 4, r.fileCount) && Spells(d, 88, 8, r.totalBytes)
      && Stands(d, 96, env.hash(RECEIPT_DOMAIN + d[..96]))
  {
    var d := EncodeReceipt(env, r).value;
    var seal := env.hash(RECEIPT_DOMAIN + ReceiptContent(r));
    ReceiptContentSize(r);
    assert d[..96] == ReceiptContent(r) by { hide ReceiptContent; }
    FieldsShape(r, seal);
    VersionBytes();
    hide ToLE, EncodeReceipt, ReceiptContent, ReceiptFields, Spells;
    var body := ReceiptFields(r) + seal;
    Associate(ToLE(FORMAT_VERSION, 2), ToLE(0, 2), body);
    Whole(d);
    var t1 := ToLE(r.totalBytes, 8) + seal;
    var t2 := ToLE(r.fileCount, 4) + t1;
    var t3 := r.planDigest + t2;
    var t4 := r.manifestDigest + t3;
    assert d == RECEIPT_MAGIC + ([1, 0, 0, 0] + body) && body == ToLE(r.timestamp, 8) + t4;
    hide Stands, From;
    Next(d, 0, RECEIPT_MAGIC, [1, 0, 0, 0] + body);
    Next(d, 8, [1, 0, 0, 0], body);
    NextInt(d, 12, r.timestamp, 8, t4);
    Next(d, 20, r.manifestDigest, t3);
    Next(d, 52, r.planDigest, t2);
    NextInt(d, 84, r.fileCount, 4, t1);
    NextInt(d, 88, r.totalBytes, 8, seal);
    Sealing(d, seal);
  }

  lemma Sealing(d: Bytes, seal: Bytes)
    requires From(d, 96, seal)
    ensures Stands(d, 96, seal)
  {
  }

  // ----- paths -----

  // Parts between slashes.
  function Joined(parts: seq<Bytes>): Bytes
    requires |parts| > 0
  {
    if |parts| == 1 then parts[0] else parts[0] + [0x2F] + Joined(parts[1..])
  }

  ghost predicate Parts(parts: seq<Bytes>) {
    |parts| > 0 && forall i | 0 <= i < |parts| :: 0x2F !in parts[i]
  }

  lemma {:induction false} ComponentsOfJoined(parts: seq<Bytes>)
    requires Parts(parts)
    ensures Components(Joined(parts)) == parts
    decreases |parts|
  {
    if |parts| == 1 {
      OnePart(parts[0]);
    } else {
      ComponentsOfJoined(parts[1..]);
      PartThenRest(parts[0], Joined(parts[1..]));
      Associate(parts[0], [0x2F], Joined(parts[1..]));
      assert parts == [parts[0]] + parts[1..];
    }
  }

  lemma {:induction false} OnePart(a: Bytes)
    requires 0x2F !in a
    ensures Components(a) == [a]
  {
    if |a| > 0 {
      OnePart(a[1..]);
      assert a == [a[0]] + a[1..];
    }
  }

  lemma {:induction false} PartThenRest(a: Bytes, s: Bytes)
    requires 0x2F !in a
    ensures Components(a + ([0x2F] + s)) == [a] + Components(s)
  {
    var t := [0x2F] + s;
    if |a| == 0 {
      assert a + t == t && t[1..] == s;
    } else {
      PartThenRest(a[1..], s);
      assert (a + t)[1..] == a[1..] + t;
      assert a == [a[0]] + a[1..];
    }
  }

  lemma {:induction false} JoinedOfComponents(s: Bytes)
    ensures Parts(Components(s)) && Joined(Components(s)) == s
  {
    if |s| > 0 {
      JoinedOfComponents(s[1..]);
      var rest := Components(s[1..]);
      assert s == [s[0]] + s[1..];
      if s[0] == 0x2F {
        assert ([[]] + rest)[1..] == rest;
        assert [] + [0x2F] == [0x2F];
      } else {
        var cs := [[s[0]] + rest[0]] + rest[1..];
        if |rest| > 1 {
          assert cs[1..] == rest[1..];
          Associate([s[0]], rest[0] + [0x2F], Joined(rest[1..]));
          Associate([s[0]], rest[0], [0x2F]);
        }
      }
    }
  }

  // A name other than "", "." and "..".
  predicate Plain(part: Bytes) {
    part != [] && part != [0x2E] && part != [0x2E, 0x2E]
  }

  /** Which paths are accepted, part by part: at most 4096 bytes without backslash, colon and NUL, whose first part
      is neither empty nor ".", none of whose parts is "..", and one of whose parts is a plain name. */
  lemma ValidPathIff(parts: seq<Bytes>)
    requires Parts(parts)
    ensures ValidPath(Joined(parts)) <==>
      && |Joined(parts)| <= 4096 && (forall c | c in Joined(parts) :: c != 0x5C && c != 0x3A && c != 0)
      && parts[0] != [] && parts[0] != [0x2E]
      && (forall i | 0 <= i < |parts| :: parts[i] != [0x2E, 0x2E])
      && exists i | 0 <= i < |parts| :: Plain(parts[i])
  {
    ComponentsOfJoined(parts);
    FirstByte(parts);
    hide Components;
    var s := Joined(parts);
    if i :| 0 <= i < |parts| && parts[i] != [] && parts[i] != [0x2E] && parts[i] != [0x2E, 0x2E] {
      assert Plain(parts[i]);
    }
  }

  lemma FirstByte(parts: seq<Bytes>)
    requires Parts(parts)
    ensures parts[0] == [] <==> Joined(parts) == [] || Joined(parts)[0] == 0x2F
  {
    if parts[0] != [] { assert Joined(parts)[0] == parts[0][0]; }
  }

  /** So a path with a ".." part is refused wherever it stands, and a join of plain names is accepted. */
  lemma DotDotRefused(parts: seq<Bytes>, i: nat)
    requires Parts(parts) && i < |parts| && parts[i] == [0x2E, 0x2E]
    ensures !ValidPath(Joined(parts))
  {
    ValidPathIff(parts);
  }

  lemma PlainNamesAccepted(parts: seq<Bytes>)
    requires Parts(parts) && |Joined(parts)| <= 4096 && forall c | c in Joined(parts) :: c != 0x5C && c != 0x3A && c != 0
    requires forall i | 0 <= i < |parts| :: Plain(parts[i])
    ensures ValidPath(Joined(parts))
  {
    ValidPathIff(parts);
    assert Plain(parts[0]);
  }

  // ----- the order of paths -----

  /** Byte-wise order: after the common part, one path ends or has the smaller byte. */
  lemma {:induction false} LessIff(a: Bytes, b: Bytes)
    ensures Less(a, b) <==> exists k | 0 <= k <= |a| && k <= |b| :: a[..k] == b[..k] && SmallerAt(a, b, k)
    decreases |a|
  {
    if |a| > 0 && |b| > 0 && a[0] == b[0] {
      LessIff(a[1..], b[1..]);
      if k :| 0 <= k <= |a[1..]| && k <= |b[1..]| && a[1..][..k] == b[1..][..k] && SmallerAt(a[1..], b[1..], k) {
        assert a[..k + 1] == [a[0]] + a[1..][..k] && b[..k + 1] == [b[0]] + b[1..][..k];
        assert SmallerAt(a, b, k + 1);
      }
      if k :| 0 <= k <= |a| && k <= |b| && a[..k] == b[..k] && SmallerAt(a, b, k) {
        assert a[1..][..k - 1] == a[..k][1..] && b[1..][..k - 1] == b[..k][1..];
        assert SmallerAt(a[1..], b[1..], k - 1);
      }
    } else {
      assert a[..0] == b[..0];
      assert SmallerAt(a, b, 0) <==> Less(a, b);
      if k :| 0 <= k <= |a| && k <= |b| && a[..k] == b[..k] && SmallerAt(a, b, k) {
        SamePrefix(a, b, k);
      }
    }
  }

  lemma SamePrefix(a: Bytes, b: Bytes, k: nat)
    requires k <= |a| && k <= |b| && a[..k] == b[..k]
    ensures k > 0 ==> a[0] == b[0]
  {
    if k > 0 { assert a[..k][0] == b[..k][0]; }
  }

  ghost predicate SmallerAt(a: Bytes, b: Bytes, k: nat)
    requires k <= |a| && k <= |b|
  {
    k < |b| && (k == |a| || a[k] < b[k])
  }

  /** A manifest's paths are each valid and each after the one before. */
  lemma {:induction false} ValidFilesIff(files: seq<FileEntry>, last: Option<Bytes>)
    ensures ValidFiles(files, last) <==>
      && (forall i | 0 <= i < |files| :: ValidPath(files[i].path))
      && (|files| > 0 && last.Some? ==> Less(last.value, files[0].path))
      && forall i | 0 < i < |files| :: Less(files[i - 1].path, files[i].path)
    decreases |files|
  {
    hide ValidPath, Less;
    if |files| > 0 {
      var rest := files[1..];
      ValidFilesIff(rest, Some(files[0].path));
      assert forall i | 0 <= i < |rest| :: rest[i] == files[i + 1];
      if ValidFiles(files, last) {
        forall i | 0 < i < |files| ensures Less(files[i - 1].path, files[i].path) {
          if i > 1 { assert Less(rest[i - 2].path, rest[i - 1].path); }
        }
      }
    }
  }

  /** Which manifests are written: ids of 1 to 1024 bytes without NUL or control characters, a timestamp, a schema
      version and a provenance digest that are not all zero, and 1 to 1000000 valid paths in strictly ascending
      order. */
  lemma EncodableIff(env: Env, m: Manifest)
    requires |m.provenance| == 32
    ensures Encodable(env, m) <==>
      && (forall id | id in [m.backupId, m.databaseId] :: 1 <= |id| <= 1024 && (forall c | c in id :: c != 0) && !env.control(id))
      && 1 <= m.timestamp && 1 <= m.schema && (exists i | 0 <= i < 32 :: m.provenance[i] != 0)
      && 1 <= |m.files| <= 1_000_000
      && (forall i | 0 <= i < |m.files| :: ValidPath(m.files[i].path))
      && forall i | 0 < i < |m.files| :: Less(m.files[i - 1].path, m.files[i].path)
  {
    hide ValidPath, Less, ValidFiles;
    ValidFilesIff(m.files, None);
    var ids := [m.backupId, m.databaseId];
    assert m.backupId == ids[0] && m.databaseId == ids[1];
    assert m.provenance == ZeroDigest() <==> forall i | 0 <= i < 32 :: m.provenance[i] == 0;
  }

  /** What is refused before a field is read: fewer than 104 bytes as truncated, and then a digest that is not that of
      the bytes before it under the domain as damaged. */
  lemma RefusedFirst(env: Env, data: Bytes)
    ensures |data| < 104 ==> Decode(env, data) == Err(Truncated)
    ensures |data| >= 104 && env.hash(MANIFEST_DOMAIN + data[..|data| - 32]) != data[|data| - 32..] ==>
      Decode(env, data) == Err(Integrity)
    ensures |data| != 128 ==> DecodeReceipt(env, data) == Err(Truncated)
    ensures |data| == 128 && env.hash(RECEIPT_DOMAIN + data[..96]) != data[96..] ==>
      DecodeReceipt(env, data) == Err(Integrity)
  {
    hide TakeHead, TakeFiles, TakeReceipt;
  }
}
