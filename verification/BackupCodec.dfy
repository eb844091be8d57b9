/** The canonical binary formats of ultraballoondb-backup/src/lib.rs: manifest and receipt.
    Parsers are written on the bytes that remain; the reader that walks a cursor over the
    file is proved against them. */
module BackupCodec {
  import opened Common
  import opened LittleEndian

  datatype Error = Truncated | Integrity | Invalid

  const MANIFEST_MAGIC: Bytes := [0x55, 0x42, 0x42, 0x4B, 0x50, 0x30, 0x31, 0x00]
  const RECEIPT_MAGIC: Bytes := [0x55, 0x42, 0x52, 0x53, 0x54, 0x30, 0x31, 0x00]
  const MANIFEST_DOMAIN: Bytes := [0x55, 0x42, 0x42, 0x4B, 0x4D, 0x4E, 0x30, 0x31]
  const PLAN_DOMAIN: Bytes := [0x55, 0x42, 0x42, 0x4B, 0x50, 0x4C, 0x30, 0x31]
  const RECEIPT_DOMAIN: Bytes := [0x55, 0x42, 0x42, 0x4B, 0x52, 0x43, 0x30, 0x31]
  const FORMAT_VERSION := 1
  const MAX_FILES := 1_000_000
  const MAX_PATH_BYTES := 4096
  const MAX_ID_BYTES := 1024
  const MAX_UPGRADE_STEPS := 64
  const U32 := 0x1_0000_0000
  const U64 := 0x1_0000_0000_0000_0000

  /** What the format leaves to others: the digest, which byte strings are UTF-8, and which
      of those hold a control character. */
  datatype Env = Env(hash: Bytes -> Bytes, utf8: Bytes -> bool, control: Bytes -> bool)
  {
    ghost predicate Valid() {
      forall b :: |hash(b)| == 32
    }
  }

  datatype FileEntry = FileEntry(path: Bytes, size: nat, digest: Bytes)

  datatype Manifest = Manifest(
    backupId: Bytes, databaseId: Bytes, timestamp: nat, schema: nat, provenance: Bytes,
    files: seq<FileEntry>, digest: Bytes)

  // What the field types guarantee: widths, digest sizes, and strings that are UTF-8.
  ghost predicate Typed(env: Env, m: Manifest) {
    && env.utf8(m.backupId) && env.utf8(m.databaseId)
    && m.timestamp < U64 && m.schema < U64 && |m.provenance| == 32
    && forall i | 0 <= i < |m.files| :: TypedFile(env, m.files[i])
  }

  ghost predicate TypedFile(env: Env, f: FileEntry) {
    env.utf8(f.path) && f.size < U64 && |f.digest| == 32
  }

  // ----- validation -----

  predicate ValidId(env: Env, s: Bytes) {
    0 < |s| <= MAX_ID_BYTES && 0 !in s && !env.control(s)
  }

  // The path components between slashes.
  function Components(s: Bytes): seq<Bytes> {
    if |s| == 0 then [[]]
    else
      var rest := Components(s[1..]);
      if s[0] == 0x2F then [[]] + rest
      else if |rest| == 0 then [[s[0]]] else [[s[0]] + rest[0]] + rest[1..]
  }

  // No backslash, colon or NUL, not absolute, no "..", no leading ".", at least one real name;
  // empty and inner "." components disappear when a path is normalised.
  predicate ValidPath(s: Bytes) {
    && 0 < |s| <= MAX_PATH_BYTES
    && 0x5C !in s && 0x3A !in s && 0 !in s
    && s[0] != 0x2F
    && var cs := Components(s);
       && (forall i | 0 <= i < |cs| :: cs[i] != [0x2E, 0x2E])
       && |cs| > 0 && cs[0] != [0x2E]
       && exists i | 0 <= i < |cs| :: cs[i] != [] && cs[i] != [0x2E]
  }

  // Byte-wise string order.
  predicate Less(a: Bytes, b: Bytes) {
    if |b| == 0 then false
    else if |a| == 0 then true
    else if a[0] != b[0] then a[0] < b[0]
    else Less(a[1..], b[1..])
  }

  predicate After(last: Option<Bytes>, path: Bytes) {
    last.Some? ==> Less(last.value, path)
  }

  predicate ValidFiles(files: seq<FileEntry>, last: Option<Bytes>) {
    |files| > 0 ==>
      ValidPath(files[0].path) && After(last, files[0].path) && ValidFiles(files[1..], Some(files[0].path))
  }

  function ZeroDigest(): (d: Bytes)
    ensures |d| == 32
  {
    seq(32, i => 0 as byte)
  }

  predicate Encodable(env: Env, m: Manifest) {
    && ValidId(env, m.backupId) && ValidId(env, m.databaseId)
    && m.timestamp != 0 && m.schema != 0 && m.provenance != ZeroDigest()
    && 0 < |m.files| <= MAX_FILES && ValidFiles(m.files, None)
  }

  // ----- encoding -----

  function PutString(s: Bytes): Bytes {
    ToLE(|s|, 4) + s
  }

  function PutFile(f: FileEntry): Bytes {
    PutString(f.path) + (ToLE(f.size, 8) + f.digest)
  }

  function PutFiles(files: seq<FileEntry>): Bytes {
    if |files| == 0 then [] else PutFile(files[0]) + PutFiles(files[1..])
  }

  function PutHead(m: Manifest): Bytes {
    MANIFEST_MAGIC + (ToLE(FORMAT_VERSION, 2) + (ToLE(0, 2) + (ToLE(m.timestamp, 8) + (ToLE(m.schema, 8)
      + (PutString(m.backupId) + (PutString(m.databaseId) + (m.provenance + ToLE(|m.files|, 4))))))))
  }

  function Content(m: Manifest): Bytes {
    PutHead(m) + PutFiles(m.files)
  }

  function Encoded(env: Env, m: Manifest): Bytes {
    Content(m) + env.hash(MANIFEST_DOMAIN + Content(m))
  }

  function Sealed(env: Env, m: Manifest): Manifest {
    m.(digest := env.hash(MANIFEST_DOMAIN + Content(m)))
  }

  // ----- parsing what remains -----

  // A parsed value and the bytes after it.
  datatype Got<T> = Got(value: T, rest: Bytes)

  function Take(data: Bytes, n: nat): Result<Got<Bytes>, Error> {
    if |data| < n then Err(Truncated) else Ok(Got(data[..n], data[n..]))
  }

  function TakeInt(data: Bytes, k: nat): Result<Got<nat>, Error> {
    match Take(data, k)
    case Err(e) => Err(e)
    case Ok(Got(b, rest)) => Ok(Got(FromLE(b), rest))
  }

  function TakeString(env: Env, data: Bytes): Result<Got<Bytes>, Error> {
    match TakeInt(data, 4)
    case Err(e) => Err(e)
    case Ok(Got(n, rest)) =>
      if n == 0 || n > MAX_PATH_BYTES then Err(Invalid)
      else match Take(rest, n)
        case Err(e) => Err(e)
        case Ok(Got(s, rest')) => if env.utf8(s) then Ok(Got(s, rest')) else Err(Invalid)
  }

  function TakeFile(env: Env, data: Bytes, last: Option<Bytes>): Result<Got<FileEntry>, Error> {
    match TakeString(env, data)
    case Err(e) => Err(e)
    case Ok(Got(path, r1)) =>
      if !ValidPath(path) || !After(last, path) then Err(Invalid)
      else match TakeInt(r1, 8)
        case Err(e) => Err(e)
        case Ok(Got(size, r2)) => match Take(r2, 32)
          case Err(e) => Err(e)
          case Ok(Got(digest, r3)) => Ok(Got(FileEntry(path, size, digest), r3))
  }

  function TakeFiles(env: Env, data: Bytes, n: nat, last: Option<Bytes>): Result<Got<seq<FileEntry>>, Error>
    decreases n
  {
    if n == 0 then Ok(Got([], data))
    else match TakeFile(env, data, last)
      case Err(e) => Err(e)
      case Ok(Got(f, rest)) => match TakeFiles(env, rest, n - 1, Some(f.path))
        case Err(e) => Err(e)
        case Ok(Got(fs, rest')) => Ok(Got([f] + fs, rest'))
  }

  // Everything up to the file count; files and digest are left empty.
  function TakeHead(env: Env, data: Bytes): Result<Got<(Manifest, nat)>, Error> {
    match Take(data, 8)
    case Err(e) => Err(e)
    case Ok(Got(magic, r0)) => if magic != MANIFEST_MAGIC then Err(Invalid)
      else match TakeInt(r0, 2)
      case Err(e) => Err(e)
      case Ok(Got(version, r1)) => match TakeInt(r1, 2)
        case Err(e) => Err(e)
        case Ok(Got(flags, r2)) => if version != FORMAT_VERSION || flags != 0 then Err(Invalid) else TakeBody(env, r2)
  }

  function TakeBody(env: Env, data: Bytes): Result<Got<(Manifest, nat)>, Error> {
    match TakeInt(data, 8)
    case Err(e) => Err(e)
    case Ok(Got(timestamp, r1)) => match TakeInt(r1, 8)
      case Err(e) => Err(e)
      case Ok(Got(schema, r2)) => match TakeString(env, r2)
        case Err(e) => Err(e)
        case Ok(Got(backupId, r3)) => match TakeString(env, r3)
          case Err(e) => Err(e)
          case Ok(Got(databaseId, r4)) => match Take(r4, 32)
            case Err(e) => Err(e)
            case Ok(Got(provenance, r5)) => match TakeInt(r5, 4)
              case Err(e) => Err(e)
              case Ok(Got(count, r6)) =>
                if count == 0 || count > MAX_FILES then Err(Invalid)
                else Ok(Got((Manifest(backupId, databaseId, timestamp, schema, provenance, [], []), count), r6))
  }

  const MIN_MANIFEST_BYTES := 8 + 2 + 2 + 8 + 8 + 4 + 4 + 32 + 4 + 32

  function Decode(env: Env, data: Bytes): Result<Manifest, Error> {
    if |data| < MIN_MANIFEST_BYTES then Err(Truncated)
    else
      var stored := data[|data| - 32..];
      if env.hash(MANIFEST_DOMAIN + data[..|data| - 32]) != stored then Err(Integrity)
      else match TakeHead(env, data)
        case Err(e) => Err(e)
        case Ok(Got((head, count), rest)) => match TakeFiles(env, rest, count, None)
          case Err(e) => Err(e)
          case Ok(Got(files, rest')) =>
            if |rest'| != 32 then Err(Invalid)
            else
              var m := head.(files := files, digest := stored);
              if ValidId(env, m.backupId) && ValidId(env, m.databaseId)
                 && m.timestamp != 0 && m.schema != 0 && m.provenance != ZeroDigest()
              then Ok(m) else Err(Invalid)
  }

  // ----- each parser inverts its writer, both ways -----

  lemma TakeForward(b: Bytes, rest: Bytes)
    ensures Take(b + rest, |b|) == Ok(Got(b, rest))
  {
    assert (b + rest)[..|b|] == b && (b + rest)[|b|..] == rest;
  }

  lemma TakeBack(data: Bytes, n: nat)
    requires Take(data, n).Ok?
    ensures data == Take(data, n).value.value + Take(data, n).value.rest
    ensures |Take(data, n).value.value| == n
  {
  }

  lemma IntForward(v: nat, k: nat, rest: Bytes)
    requires v < Pow256(k)
    ensures TakeInt(ToLE(v, k) + rest, k) == Ok(Got(v, rest))
  {
    hide ToLE, FromLE, Pow256;
    LEWidth(v, k);
    TakeForward(ToLE(v, k), rest);
    FromToLE(v, k);
  }

  lemma LEWidth(v: nat, k: nat)
    ensures |ToLE(v, k)| == k
  {
  }

  lemma IntBack(data: Bytes, k: nat)
    requires TakeInt(data, k).Ok?
    ensures var g := TakeInt(data, k).value; g.value < Pow256(k) && data == ToLE(g.value, k) + g.rest
  {
    TakeBack(data, k);
    ToFromLE(data[..k]);
  }

  lemma StringForward(env: Env, s: Bytes, rest: Bytes)
    requires 0 < |s| <= MAX_PATH_BYTES && env.utf8(s)
    ensures TakeString(env, PutString(s) + rest) == Ok(Got(s, rest))
  {
    hide Take, TakeInt;
    Pow256Values();
    assert PutString(s) + rest == ToLE(|s|, 4) + (s + rest);
    IntForward(|s|, 4, s + rest);
    TakeForward(s, rest);
  }

  lemma StringBack(env: Env, data: Bytes)
    requires TakeString(env, data).Ok?
    ensures var g := TakeString(env, data).value;
      0 < |g.value| <= MAX_PATH_BYTES && env.utf8(g.value) && data == PutString(g.value) + g.rest
  {
    hide Take, TakeInt;
    IntBack(data, 4);
    var n := TakeInt(data, 4).value;
    TakeBack(n.rest, n.value);
    var g := TakeString(env, data).value;
    assert data == ToLE(n.value, 4) + (g.value + g.rest);
  }

  lemma FileForward(env: Env, f: FileEntry, last: Option<Bytes>, rest: Bytes)
    requires TypedFile(env, f) && ValidPath(f.path) && After(last, f.path)
    ensures TakeFile(env, PutFile(f) + rest, last) == Ok(Got(f, rest))
  {
    PathBounds(f.path);
    hide Take, TakeInt, TakeString, PutString, ValidPath;
    Pow256Values();
    assert PutFile(f) + rest == PutString(f.path) + (ToLE(f.size, 8) + (f.digest + rest));
    StringForward(env, f.path, ToLE(f.size, 8) + (f.digest + rest));
    IntForward(f.size, 8, f.digest + rest);
    TakeForward(f.digest, rest);
  }

  lemma PathBounds(s: Bytes)
    requires ValidPath(s)
    ensures 0 < |s| <= MAX_PATH_BYTES
  {
    hide Components;
  }

  lemma FileBack(env: Env, data: Bytes, last: Option<Bytes>)
    requires TakeFile(env, data, last).Ok?
    ensures var g := TakeFile(env, data, last).value;
      && TypedFile(env, g.value) && ValidPath(g.value.path) && After(last, g.value.path)
      && data == PutFile(g.value) + g.rest
  {
    hide Take, TakeInt, TakeString, PutString, ValidPath;
    Pow256Values();
    StringBack(env, data);
    var r1 := TakeString(env, data).value.rest;
    IntBack(r1, 8);
    var r2 := TakeInt(r1, 8).value.rest;
    TakeBack(r2, 32);
    var g := TakeFile(env, data, last).value;
    assert data == PutString(g.value.path) + (ToLE(g.value.size, 8) + (g.value.digest + g.rest));
  }

  lemma {:induction false} FilesForward(env: Env, files: seq<FileEntry>, last: Option<Bytes>, rest: Bytes)
    requires (forall i | 0 <= i < |files| :: TypedFile(env, files[i])) && ValidFiles(files, last)
    ensures TakeFiles(env, PutFiles(files) + rest, |files|, last) == Ok(Got(files, rest))
    decreases |files|
  {
    hide TakeFile, PutFile, ValidPath, TypedFile;
    if |files| == 0 {
      assert [] + rest == rest;
    } else {
      assert PutFiles(files) + rest == PutFile(files[0]) + (PutFiles(files[1..]) + rest);
      FileForward(env, files[0], last, PutFiles(files[1..]) + rest);
      FilesForward(env, files[1..], Some(files[0].path), rest);
      assert [files[0]] + files[1..] == files;
    }
  }

  lemma {:induction false} FilesBack(env: Env, data: Bytes, n: nat, last: Option<Bytes>)
    requires TakeFiles(env, data, n, last).Ok?
    ensures var g := TakeFiles(env, data, n, last).value;
      && |g.value| == n && ValidFiles(g.value, last)
      && (forall i | 0 <= i < n :: TypedFile(env, g.value[i]))
      && data == PutFiles(g.value) + g.rest
    decreases n
  {
    hide TakeFile, PutFile, ValidPath, TypedFile;
    if n == 0 {
      assert data == [] + data;
    } else {
      FileBack(env, data, last);
      var f := TakeFile(env, data, last).value;
      FilesBack(env, f.rest, n - 1, Some(f.value.path));
      var fs := TakeFiles(env, f.rest, n - 1, Some(f.value.path)).value;
      var g := TakeFiles(env, data, n, last).value;
      assert g.value == [f.value] + fs.value && g.value[1..] == fs.value;
      assert data == PutFile(f.value) + (PutFiles(fs.value) + fs.rest);
    }
  }

  function Bare(m: Manifest): Manifest {
    m.(files := [], digest := [])
  }

  function PutBody(m: Manifest): Bytes {
    ToLE(m.timestamp, 8) + (ToLE(m.schema, 8) + (PutString(m.backupId) + (PutString(m.databaseId)
      + (m.provenance + ToLE(|m.files|, 4)))))
  }

  lemma BodyForward(env: Env, m: Manifest, rest: Bytes)
    requires Typed(env, m) && ValidId(env, m.backupId) && ValidId(env, m.databaseId) && 0 < |m.files| <= MAX_FILES
    ensures TakeBody(env, PutBody(m) + rest) == Ok(Got((Bare(m), |m.files|), rest))
  {
    hide Take, TakeInt, TakeString, PutString, ToLE;
    Pow256Values();
    var r6 := ToLE(|m.files|, 4) + rest;
    var r5 := m.provenance + r6;
    var r4 := PutString(m.databaseId) + r5;
    var r3 := PutString(m.backupId) + r4;
    var r2 := ToLE(m.schema, 8) + r3;
    assert PutBody(m) + rest == ToLE(m.timestamp, 8) + r2 by { BodyShape(m, rest); }
    IntForward(m.timestamp, 8, r2);
    IntForward(m.schema, 8, r3);
    StringForward(env, m.backupId, r4);
    StringForward(env, m.databaseId, r5);
    TakeForward(m.provenance, r6);
    IntForward(|m.files|, 4, rest);
  }

  lemma BodyShape(m: Manifest, rest: Bytes)
    ensures PutBody(m) + rest == ToLE(m.timestamp, 8) + (ToLE(m.schema, 8) + (PutString(m.backupId)
      + (PutString(m.databaseId) + (m.provenance + (ToLE(|m.files|, 4) + rest)))))
  {
    hide ToLE, PutString;
  }

  lemma BodyBack(env: Env, data: Bytes)
    requires TakeBody(env, data).Ok?
    ensures var g := TakeBody(env, data).value; var m := g.value.0;
      && env.utf8(m.backupId) && env.utf8(m.databaseId) && m.timestamp < U64 && m.schema < U64 && |m.provenance| == 32
      && m.files == [] && m.digest == [] && 0 < g.value.1 <= MAX_FILES
      && forall files | |files| == g.value.1 :: data == PutBody(m.(files := files)) + g.rest
  {
    hide Take, TakeInt, TakeString, PutString, ToLE;
    Pow256Values();
    IntBack(data, 8);
    var r1 := TakeInt(data, 8).value.rest;
    IntBack(r1, 8);
    var r2 := TakeInt(r1, 8).value.rest;
    StringBack(env, r2);
    var r3 := TakeString(env, r2).value.rest;
    StringBack(env, r3);
    var r4 := TakeString(env, r3).value.rest;
    TakeBack(r4, 32);
    var r5 := Take(r4, 32).value.rest;
    IntBack(r5, 4);
    var g := TakeBody(env, data).value;
    forall files | |files| == g.value.1 ensures data == PutBody(g.value.0.(files := files)) + g.rest {
      BodyShape(g.value.0.(files := files), g.rest);
    }
  }

  lemma HeadShape(m: Manifest, rest: Bytes)
    ensures PutHead(m) + rest == MANIFEST_MAGIC + (ToLE(FORMAT_VERSION, 2) + (ToLE(0, 2) + (PutBody(m) + rest)))
  {
    hide ToLE, PutString;
    assert PutHead(m) == MANIFEST_MAGIC + (ToLE(FORMAT_VERSION, 2) + (ToLE(0, 2) + PutBody(m)));
  }

  lemma HeadForward(env: Env, m: Manifest, rest: Bytes)
    requires Typed(env, m) && ValidId(env, m.backupId) && ValidId(env, m.databaseId) && 0 < |m.files| <= MAX_FILES
    ensures TakeHead(env, PutHead(m) + rest) == Ok(Got((Bare(m), |m.files|), rest))
  {
    hide Take, TakeInt, TakeBody, PutBody, PutHead, ToLE;
    Pow256Values();
    HeadShape(m, rest);
    TakeForward(MANIFEST_MAGIC, ToLE(FORMAT_VERSION, 2) + (ToLE(0, 2) + (PutBody(m) + rest)));
    IntForward(FORMAT_VERSION, 2, ToLE(0, 2) + (PutBody(m) + rest));
    IntForward(0, 2, PutBody(m) + rest);
    BodyForward(env, m, rest);
  }

  lemma HeadBack(env: Env, data: Bytes)
    requires TakeHead(env, data).Ok?
    ensures var g := TakeHead(env, data).value; var m := g.value.0;
      && env.utf8(m.backupId) && env.utf8(m.databaseId) && m.timestamp < U64 && m.schema < U64 && |m.provenance| == 32
      && m.files == [] && m.digest == [] && 0 < g.value.1 <= MAX_FILES
      && forall files | |files| == g.value.1 :: data == PutHead(m.(files := files)) + g.rest
  {
    hide Take, TakeInt, TakeBody, PutBody, PutHead, ToLE;
    TakeBack(data, 8);
    var r0 := Take(data, 8).value.rest;
    IntBack(r0, 2);
    var r1 := TakeInt(r0, 2).value.rest;
    IntBack(r1, 2);
    var r2 := TakeInt(r1, 2).value.rest;
    BodyBack(env, r2);
    var g := TakeHead(env, data).value;
    forall files | |files| == g.value.1 ensures data == PutHead(g.value.0.(files := files)) + g.rest {
      HeadShape(g.value.0.(files := files), g.rest);
    }
  }

  // ----- the manifest codec is a bijection onto the accepted bytes -----

  lemma EncodedShape(env: Env, m: Manifest)
    requires env.Valid() && Typed(env, m) && Encodable(env, m)
    ensures var data := Encoded(env, m); var dg := Sealed(env, m).digest;
      && |dg| == 32 && MIN_MANIFEST_BYTES <= |data|
      && data[..|data| - 32] == Content(m) && data[|data| - 32..] == dg
      && data == PutHead(m) + (PutFiles(m.files) + dg)
  {
    hide PutFiles, ValidFiles, ToLE;
    HeadLength(m);
    var data := Encoded(env, m);
    assert data == PutHead(m) + PutFiles(m.files) + Sealed(env, m).digest;
  }

  lemma HeadLength(m: Manifest)
    requires |m.provenance| == 32
    ensures |PutHead(m)| == 8 + 2 + 2 + 8 + 8 + 4 + |m.backupId| + 4 + |m.databaseId| + 32 + 4
  {
    LEWidth(FORMAT_VERSION, 2);
    LEWidth(0, 2);
    LEWidth(m.timestamp, 8);
    LEWidth(m.schema, 8);
    LEWidth(|m.backupId|, 4);
    LEWidth(|m.databaseId|, 4);
    LEWidth(|m.files|, 4);
    hide ToLE;
  }

  /** Decoding what was encoded gives the manifest back, with its digest filled in. */
  lemma DecodeOfEncode(env: Env, m: Manifest)
    requires env.Valid() && Typed(env, m) && Encodable(env, m)
    ensures Decode(env, Encoded(env, m)) == Ok(Sealed(env, m))
  {
    EncodedShape(env, m);
    hide Encoded, PutHead, PutFiles, TakeHead, TakeFiles, ValidFiles, ValidId, ZeroDigest, Content;
    var dg := Sealed(env, m).digest;
    HeadForward(env, m, PutFiles(m.files) + dg);
    FilesForward(env, m.files, None, dg);
  }

  /** Every accepted byte string is canonical: its manifest is encodable, and encoding it
      again gives the same bytes. */
  lemma EncodeOfDecode(env: Env, data: Bytes)
    requires Decode(env, data).Ok?
    ensures var m := Decode(env, data).value;
      Typed(env, m) && Encodable(env, m) && Encoded(env, m) == data && Sealed(env, m) == m
  {
    hide PutHead, PutFiles, TakeHead, TakeFiles, ValidFiles, ValidId, ZeroDigest, TypedFile;
    var m := Decode(env, data).value;
    HeadBack(env, data);
    var h := TakeHead(env, data).value;
    FilesBack(env, h.rest, h.value.1, None);
    var fs := TakeFiles(env, h.rest, h.value.1, None).value;
    PutHeadIgnoresDigest(h.value.0.(files := fs.value), m);
    assert data == PutHead(m) + (PutFiles(m.files) + fs.rest);
    assert data[..|data| - 32] == Content(m) && data[|data| - 32..] == fs.rest;
  }

  lemma PutHeadIgnoresDigest(a: Manifest, b: Manifest)
    requires b == a.(digest := b.digest)
    ensures PutHead(a) == PutHead(b)
  {
    hide ToLE, PutString;
  }

  // ----- the reader: a cursor walking the file -----

  lemma SplitAt(data: Bytes, at: nat, n: nat)
    requires at + n <= |data|
    ensures Take(data[at..], n) == Ok(Got(data[at..at + n], data[at + n..]))
  {
    assert data[at..][..n] == data[at..at + n] && data[at..][n..] == data[at + n..];
  }

  class Reader {
    const data: Bytes
    var cursor: nat

    constructor (data: Bytes)
      ensures this.data == data && cursor == 0
    {
      this.data, cursor := data, 0;
    }

    ghost predicate InBounds()
      reads this`cursor
    {
      cursor <= |data|
    }

    // What is still to be read.
    ghost function Rest(): Bytes
      requires InBounds()
      reads this`cursor
    {
      data[cursor..]
    }

    method Read(n: nat) returns (r: Result<Bytes, Error>)
      requires InBounds()
      modifies this`cursor
      ensures InBounds()
      ensures match Take(old(Rest()), n)
        case Err(e) => r == Err(e) && cursor == old(cursor)
        case Ok(g) => r == Ok(g.value) && Rest() == g.rest && cursor == old(cursor) + n
    {
      if cursor + n > |data| {
        return Err(Truncated);
      }
      var b := data[cursor..cursor + n];
      SplitAt(data, cursor, n);
      cursor := cursor + n;
      return Ok(b);
    }

    method ReadInt(k: nat) returns (r: Result<nat, Error>)
      requires InBounds()
      modifies this`cursor
      ensures InBounds()
      ensures match TakeInt(old(Rest()), k)
        case Err(e) => r == Err(e)
        case Ok(g) => r == Ok(g.value) && Rest() == g.rest
    {
      hide FromLE;
      var b := Read(k);
      if b.Err? {
        return Err(b.error);
      }
      return Ok(FromLE(b.value));
    }

    method ReadString(env: Env) returns (r: Result<Bytes, Error>)
      requires InBounds()
      modifies this`cursor
      ensures InBounds()
      ensures match TakeString(env, old(Rest()))
        case Err(e) => r == Err(e)
        case Ok(g) => r == Ok(g.value) && Rest() == g.rest
    {
      hide Take, TakeInt;
      var n := ReadInt(4);
      if n.Err? {
        return Err(n.error);
      }
      if n.value == 0 || n.value > MAX_PATH_BYTES {
        return Err(Invalid);
      }
      var s := Read(n.value);
      if s.Err? {
        return Err(s.error);
      }
      if !env.utf8(s.value) {
        return Err(Invalid);
      }
      return s;
    }

    method ReadFile(env: Env, last: Option<Bytes>) returns (r: Result<FileEntry, Error>)
      requires InBounds()
      modifies this`cursor
      ensures InBounds()
      ensures match TakeFile(env, old(Rest()), last)
        case Err(e) => r == Err(e)
        case Ok(g) => r == Ok(g.value) && Rest() == g.rest
    {
      hide Take, TakeInt, TakeString, ValidPath, After;
      var path := ReadString(env);
      if path.Err? {
        return Err(path.error);
      }
      if !ValidPath(path.value) || !After(last, path.value) {
        return Err(Invalid);
      }
      var size := ReadInt(8);
      if size.Err? {
        return Err(size.error);
      }
      var digest := Read(32);
      if digest.Err? {
        return Err(digest.error);
      }
      return Ok(FileEntry(path.value, size.value, digest.value));
    }

    method ReadFiles(env: Env, count: nat) returns (r: Result<seq<FileEntry>, Error>)
      requires InBounds()
      modifies this`cursor
      ensures InBounds()
      ensures match TakeFiles(env, old(Rest()), count, None)
        case Err(e) => r == Err(e)
        case Ok(g) => r == Ok(g.value) && Rest() == g.rest
    {
      hide TakeFile, TakeFiles;
      var files: seq<FileEntry> := [];
      var last: Option<Bytes> := None;
      ghost var start := Rest();
      NoFiles(env, start, count);
      for i := 0 to count
        invariant InBounds()
        invariant TakeFiles(env, start, count, None) == Joined(files, TakeFiles(env, Rest(), count - i, last))
      {
        NextFile(env, Rest(), count - i, last, files);
        var f := ReadFile(env, last);
        if f.Err? {
          return Err(f.error);
        }
        last := Some(f.value.path);
        files := files + [f.value];
      }
      FilesDone(env, Rest(), last, files);
      return Ok(files);
    }

    method ReadHead(env: Env) returns (r: Result<(Manifest, nat), Error>)
      requires InBounds()
      modifies this`cursor
      ensures InBounds()
      ensures match TakeHead(env, old(Rest()))
        case Err(e) => r == Err(e)
        case Ok(g) => r == Ok(g.value) && Rest() == g.rest
    {
      hide Take, TakeInt, TakeBody;
      var magic := Read(8);
      if magic.Err? {
        return Err(magic.error);
      }
      if magic.value != MANIFEST_MAGIC {
        return Err(Invalid);
      }
      var version := ReadInt(2);
      if version.Err? {
        return Err(version.error);
      }
      var flags := ReadInt(2);
      if flags.Err? {
        return Err(flags.error);
      }
      if version.value != FORMAT_VERSION || flags.value != 0 {
        return Err(Invalid);
      }
      r := ReadBody(env);
    }

    method ReadBody(env: Env) returns (r: Result<(Manifest, nat), Error>)
      requires InBounds()
      modifies this`cursor
      ensures InBounds()
      ensures match TakeBody(env, old(Rest()))
        case Err(e) => r == Err(e)
        case Ok(g) => r == Ok(g.value) && Rest() == g.rest
    {
      hide Take, TakeInt, TakeString;
      var timestamp := ReadInt(8);
      if timestamp.Err? {
        return Err(timestamp.error);
      }
      var schema := ReadInt(8);
      if schema.Err? {
        return Err(schema.error);
      }
      var backupId := ReadString(env);
      if backupId.Err? {
        return Err(backupId.error);
      }
      var databaseId := ReadString(env);
      if databaseId.Err? {
        return Err(databaseId.error);
      }
      var provenance := Read(32);
      if provenance.Err? {
        return Err(provenance.error);
      }
      var count := ReadInt(4);
      if count.Err? {
        return Err(count.error);
      }
      if count.value == 0 || count.value > MAX_FILES {
        return Err(Invalid);
      }
      return Ok((Manifest(backupId.value, databaseId.value, timestamp.value, schema.value, provenance.value, [], []),
                 count.value));
    }
  }

  // Files read so far in front of what parsing the rest gives.
  function Joined(files: seq<FileEntry>, r: Result<Got<seq<FileEntry>>, Error>): Result<Got<seq<FileEntry>>, Error> {
    match r
    case Err(e) => Err(e)
    case Ok(g) => Ok(Got(files + g.value, g.rest))
  }

  lemma NoFiles(env: Env, data: Bytes, n: nat)
    ensures TakeFiles(env, data, n, None) == Joined([], TakeFiles(env, data, n, None))
  {
    hide TakeFiles;
    var r := TakeFiles(env, data, n, None);
    if r.Ok? { assert [] + r.value.value == r.value.value; }
  }

  lemma NextFile(env: Env, data: Bytes, n: nat, last: Option<Bytes>, files: seq<FileEntry>)
    requires n > 0
    ensures var f := TakeFile(env, data, last);
      Joined(files, TakeFiles(env, data, n, last)) ==
        if f.Err? then Err(f.error)
        else Joined(files + [f.value.value], TakeFiles(env, f.value.rest, n - 1, Some(f.value.value.path)))
  {
    hide TakeFile;
    var f := TakeFile(env, data, last);
    if f.Ok? {
      var r := TakeFiles(env, f.value.rest, n - 1, Some(f.value.value.path));
      if r.Ok? { assert files + ([f.value.value] + r.value.value) == files + [f.value.value] + r.value.value; }
    }
  }

  lemma FilesDone(env: Env, data: Bytes, last: Option<Bytes>, files: seq<FileEntry>)
    ensures Joined(files, TakeFiles(env, data, 0, last)) == Ok(Got(files, data))
  {
    assert files + [] == files;
  }

  /** decode_manifest. */
  method DecodeManifest(env: Env, data: Bytes) returns (r: Result<Manifest, Error>)
    ensures r == Decode(env, data)
  {
    hide TakeHead, TakeFiles, ValidId, ZeroDigest;
    if |data| < MIN_MANIFEST_BYTES {
      return Err(Truncated);
    }
    var contentEnd := |data| - 32;
    var stored := data[contentEnd..];
    if env.hash(MANIFEST_DOMAIN + data[..contentEnd]) != stored {
      return Err(Integrity);
    }
    var reader := new Reader(data);
    assert data[0..] == data;
    var head := reader.ReadHead(env);
    if head.Err? {
      return Err(head.error);
    }
    var (bare, count) := head.value;
    var files := reader.ReadFiles(env, count);
    if files.Err? {
      return Err(files.error);
    }
    if reader.cursor != contentEnd {
      return Err(Invalid);
    }
    var m := bare.(files := files.value, digest := stored);
    if !ValidId(env, m.backupId) || !ValidId(env, m.databaseId) {
      return Err(Invalid);
    }
    if m.timestamp == 0 || m.schema == 0 || m.provenance == ZeroDigest() {
      return Err(Invalid);
    }
    return Ok(m);
  }

  /** encode_manifest: validates while it writes, and appends the digest. */
  method EncodeManifest(env: Env, m: Manifest) returns (r: Result<Bytes, Error>)
    requires Typed(env, m)
    ensures r.Ok? <==> Encodable(env, m)
    ensures r.Ok? ==> r.value == Encoded(env, m)
  {
    hide ValidId, ValidPath, ValidFiles, After, PutHead, PutFile, PutFiles, ZeroDigest, TypedFile;
    if !ValidId(env, m.backupId) || !ValidId(env, m.databaseId) {
      return Err(Invalid);
    }
    if m.timestamp == 0 || m.schema == 0 || m.provenance == ZeroDigest() {
      return Err(Invalid);
    }
    if |m.files| == 0 || |m.files| > MAX_FILES {
      return Err(Invalid);
    }
    var last: Option<Bytes> := None;
    var content := PutHead(m);
    assert m.files[0..] == m.files;
    for i := 0 to |m.files|
      invariant content + PutFiles(m.files[i..]) == Content(m)
      invariant ValidFiles(m.files, None) <==> ValidFiles(m.files[i..], last)
    {
      var f := m.files[i];
      WriteFile(m.files, i, last);
      if !ValidPath(f.path) || !After(last, f.path) {
        return Err(Invalid);
      }
      last := Some(f.path);
      assert content + (PutFile(f) + PutFiles(m.files[i + 1..])) == content + PutFile(f) + PutFiles(m.files[i + 1..]);
      content := content + PutFile(f);
    }
    FilesWritten(last);
    assert m.files[|m.files|..] == [];
    assert content == Content(m) by { assert content + [] == content; }
    return Ok(content + env.hash(MANIFEST_DOMAIN + content));
  }

  lemma WriteFile(files: seq<FileEntry>, i: nat, last: Option<Bytes>)
    requires i < |files|
    ensures PutFiles(files[i..]) == PutFile(files[i]) + PutFiles(files[i + 1..])
    ensures ValidFiles(files[i..], last) <==>
      ValidPath(files[i].path) && After(last, files[i].path) && ValidFiles(files[i + 1..], Some(files[i].path))
  {
    hide ValidPath, After, PutFile;
    assert files[i..][1..] == files[i + 1..];
  }

  lemma FilesWritten(last: Option<Bytes>)
    ensures PutFiles([]) == [] && ValidFiles([], last)
  {
  }

  // ----- the restore receipt: 128 bytes -----

  datatype Receipt = Receipt(
    timestamp: nat, manifestDigest: Bytes, planDigest: Bytes, fileCount: nat, totalBytes: nat, digest: Bytes)

  const RECEIPT_BYTES := 128

  predicate TypedReceipt(r: Receipt) {
    r.timestamp < U64 && |r.manifestDigest| == 32 && |r.planDigest| == 32 && r.totalBytes < U64
  }

  function ReceiptFields(r: Receipt): Bytes {
    ToLE(r.timestamp, 8) + (r.manifestDigest + (r.planDigest + (ToLE(r.fileCount, 4) + ToLE(r.totalBytes, 8))))
  }

  function ReceiptContent(r: Receipt): Bytes {
    RECEIPT_MAGIC + (ToLE(FORMAT_VERSION, 2) + (ToLE(0, 2) + ReceiptFields(r)))
  }

  function SealedReceipt(env: Env, r: Receipt): Receipt {
    r.(digest := env.hash(RECEIPT_DOMAIN + ReceiptContent(r)))
  }

  // A count that does not fit 32 bits is refused.
  function EncodeReceipt(env: Env, r: Receipt): Result<Bytes, Error> {
    if r.fileCount >= U32 then Err(Invalid)
    else Ok(ReceiptContent(r) + env.hash(RECEIPT_DOMAIN + ReceiptContent(r)))
  }

  function TakeReceiptFields(data: Bytes): Result<Got<Receipt>, Error> {
    match TakeInt(data, 8)
    case Err(e) => Err(e)
    case Ok(Got(timestamp, r1)) => match Take(r1, 32)
      case Err(e) => Err(e)
      case Ok(Got(manifestDigest, r2)) => match Take(r2, 32)
        case Err(e) => Err(e)
        case Ok(Got(planDigest, r3)) => match TakeInt(r3, 4)
          case Err(e) => Err(e)
          case Ok(Got(fileCount, r4)) => match TakeInt(r4, 8)
            case Err(e) => Err(e)
            case Ok(Got(totalBytes, r5)) =>
              Ok(Got(Receipt(timestamp, manifestDigest, planDigest, fileCount, totalBytes, []), r5))
  }

  function TakeReceipt(data: Bytes): Result<Got<Receipt>, Error> {
    match Take(data, 8)
    case Err(e) => Err(e)
    case Ok(Got(magic, r0)) => if magic != RECEIPT_MAGIC then Err(Invalid)
      else match TakeInt(r0, 2)
      case Err(e) => Err(e)
      case Ok(Got(version, r1)) => if version != FORMAT_VERSION then Err(Invalid)
        else match TakeInt(r1, 2)
        case Err(e) => Err(e)
        case Ok(Got(flags, r2)) => if flags != 0 then Err(Invalid) else TakeReceiptFields(r2)
  }

  function DecodeReceipt(env: Env, data: Bytes): Result<Receipt, Error> {
    if |data| != RECEIPT_BYTES then Err(Truncated)
    else
      var stored := data[|data| - 32..];
      if env.hash(RECEIPT_DOMAIN + data[..|data| - 32]) != stored then Err(Integrity)
      else match TakeReceipt(data)
        case Err(e) => Err(e)
        case Ok(Got(r, rest)) => if |rest| != 32 then Err(Invalid) else Ok(r.(digest := stored))
  }

  lemma FieldsShape(r: Receipt, rest: Bytes)
    ensures ReceiptFields(r) + rest == ToLE(r.timestamp, 8) + (r.manifestDigest + (r.planDigest
      + (ToLE(r.fileCount, 4) + (ToLE(r.totalBytes, 8) + rest))))
    ensures ReceiptContent(r) + rest == RECEIPT_MAGIC + (ToLE(FORMAT_VERSION, 2) + (ToLE(0, 2) + (ReceiptFields(r) + rest)))
  {
    hide ToLE;
  }

  lemma FieldsForward(r: Receipt, rest: Bytes)
    requires TypedReceipt(r) && r.fileCount < U32
    ensures TakeReceiptFields(ReceiptFields(r) + rest) == Ok(Got(r.(digest := []), rest))
  {
    hide Take, TakeInt, ToLE, ReceiptFields;
    Pow256Values();
    FieldsShape(r, rest);
    var r5 := ToLE(r.totalBytes, 8) + rest;
    var r4 := ToLE(r.fileCount, 4) + r5;
    IntForward(r.timestamp, 8, r.manifestDigest + (r.planDigest + r4));
    TakeForward(r.manifestDigest, r.planDigest + r4);
    TakeForward(r.planDigest, r4);
    IntForward(r.fileCount, 4, r5);
    IntForward(r.totalBytes, 8, rest);
  }

  lemma ReceiptForward(r: Receipt, rest: Bytes)
    requires TypedReceipt(r) && r.fileCount < U32
    ensures TakeReceipt(ReceiptContent(r) + rest) == Ok(Got(r.(digest := []), rest))
  {
    hide Take, TakeInt, ToLE, ReceiptFields, ReceiptContent, TakeReceiptFields;
    Pow256Values();
    FieldsShape(r, rest);
    var body := ReceiptFields(r) + rest;
    TakeForward(RECEIPT_MAGIC, ToLE(FORMAT_VERSION, 2) + (ToLE(0, 2) + body));
    IntForward(FORMAT_VERSION, 2, ToLE(0, 2) + body);
    IntForward(0, 2, body);
    FieldsForward(r, rest);
  }

  lemma FieldsBack(data: Bytes)
    requires TakeReceiptFields(data).Ok?
    ensures var g := TakeReceiptFields(data).value;
      TypedReceipt(g.value) && g.value.fileCount < U32 && g.value.digest == [] && data == ReceiptFields(g.value) + g.rest
  {
    hide Take, TakeInt, ToLE, ReceiptFields;
    Pow256Values();
    IntBack(data, 8);
    var r1 := TakeInt(data, 8).value.rest;
    TakeBack(r1, 32);
    var r2 := Take(r1, 32).value.rest;
    TakeBack(r2, 32);
    var r3 := Take(r2, 32).value.rest;
    IntBack(r3, 4);
    IntBack(TakeInt(r3, 4).value.rest, 8);
    var g := TakeReceiptFields(data).value;
    FieldsShape(g.value, g.rest);
  }

  lemma ReceiptBack(data: Bytes)
    requires TakeReceipt(data).Ok?
    ensures var g := TakeReceipt(data).value;
      TypedReceipt(g.value) && g.value.fileCount < U32 && g.value.digest == [] && data == ReceiptContent(g.value) + g.rest
  {
    hide Take, TakeInt, ToLE, ReceiptFields, ReceiptContent, TakeReceiptFields;
    TakeBack(data, 8);
    var r0 := Take(data, 8).value.rest;
    IntBack(r0, 2);
    var r1 := TakeInt(r0, 2).value.rest;
    IntBack(r1, 2);
    FieldsBack(TakeInt(r1, 2).value.rest);
    var g := TakeReceipt(data).value;
    FieldsShape(g.value, g.rest);
  }

  lemma ReceiptContentSize(r: Receipt)
    requires |r.manifestDigest| == 32 && |r.planDigest| == 32
    ensures |ReceiptContent(r)| == RECEIPT_BYTES - 32
  {
    LEWidth(FORMAT_VERSION, 2);
    LEWidth(0, 2);
    LEWidth(r.timestamp, 8);
    LEWidth(r.fileCount, 4);
    LEWidth(r.totalBytes, 8);
    hide ToLE;
  }

  /** The receipt codec is a bijection too: a typed receipt encodes iff its file count fits 32
      bits, and decoding then gives it back with its digest; accepted bytes re-encode to themselves. */
  lemma DecodeOfEncodeReceipt(env: Env, r: Receipt)
    requires env.Valid() && TypedReceipt(r)
    ensures EncodeReceipt(env, r).Ok? <==> r.fileCount < U32
    ensures EncodeReceipt(env, r).Ok? ==> DecodeReceipt(env, EncodeReceipt(env, r).value) == Ok(SealedReceipt(env, r))
  {
    hide TakeReceipt, ReceiptContent;
    ReceiptContentSize(r);
    if r.fileCount < U32 {
      var dg := SealedReceipt(env, r).digest;
      var data := EncodeReceipt(env, r).value;
      assert data[..|data| - 32] == ReceiptContent(r) && data[|data| - 32..] == dg;
      ReceiptForward(r, dg);
    }
  }

  lemma EncodeOfDecodeReceipt(env: Env, data: Bytes)
    requires DecodeReceipt(env, data).Ok?
    ensures var r := DecodeReceipt(env, data).value;
      TypedReceipt(r) && r == SealedReceipt(env, r) && EncodeReceipt(env, r) == Ok(data)
  {
    hide TakeReceipt, ReceiptContent;
    ReceiptBack(data);
    var g := TakeReceipt(data).value;
    var r := DecodeReceipt(env, data).value;
    ContentIgnoresDigest(g.value, r);
    assert data[..|data| - 32] == ReceiptContent(r) && data[|data| - 32..] == g.rest;
  }

  lemma ContentIgnoresDigest(a: Receipt, b: Receipt)
    requires b == a.(digest := b.digest)
    ensures ReceiptContent(a) == ReceiptContent(b)
  {
    hide ToLE;
  }

  // ----- the upgrade dry run -----

  datatype UpgradeDryRun = UpgradeDryRun(
    source: nat, target: nat, steps: nat, fileCount: nat, totalBytes: nat, planDigest: Bytes)

  // The 64-bit sum of sizes, refused on overflow at any prefix.
  function CheckedTotal(files: seq<FileEntry>, sum: nat): Result<nat, Error> {
    if |files| == 0 then Ok(sum)
    else if sum + files[0].size >= U64 then Err(Invalid)
    else CheckedTotal(files[1..], sum + files[0].size)
  }

  function Total(files: seq<FileEntry>): nat {
    if |files| == 0 then 0 else files[0].size + Total(files[1..])
  }

  predicate PathsFit(files: seq<FileEntry>) {
    forall i | 0 <= i < |files| :: |files[i].path| <= MAX_PATH_BYTES
  }

  function PlanInput(m: Manifest, target: nat, total: nat): Bytes {
    PLAN_DOMAIN + (m.digest + (ToLE(m.schema, 8) + (ToLE(target, 8) + (ToLE(|m.files|, 8)
      + (ToLE(total, 8) + PutFiles(m.files))))))
  }

  function UpgradePlan(env: Env, m: Manifest, target: nat): Result<UpgradeDryRun, Error> {
    if target == 0 || target < m.schema || target - m.schema > MAX_UPGRADE_STEPS then Err(Invalid)
    else match CheckedTotal(m.files, 0)
      case Err(e) => Err(e)
      case Ok(total) =>
        if !PathsFit(m.files) then Err(Invalid)
        else Ok(UpgradeDryRun(m.schema, target, target - m.schema, |m.files|, total, env.hash(PlanInput(m, target, total))))
  }

  lemma {:induction false} CheckedTotalIsTotal(files: seq<FileEntry>, sum: nat)
    requires sum < U64
    ensures CheckedTotal(files, sum) == if sum + Total(files) < U64 then Ok(sum + Total(files)) else Err(Invalid)
  {
    if |files| > 0 && sum + files[0].size < U64 {
      CheckedTotalIsTotal(files[1..], sum + files[0].size);
    }
  }

  /** Exactly which upgrades are planned, and what the plan reports. */
  lemma UpgradePlanned(env: Env, m: Manifest, target: nat)
    ensures UpgradePlan(env, m, target).Ok? <==>
      (target != 0 && m.schema <= target <= m.schema + 64 && Total(m.files) < 0x1_0000_0000_0000_0000
       && forall f | f in m.files :: |f.path| <= 4096)
    ensures UpgradePlan(env, m, target).Ok? ==>
      var p := UpgradePlan(env, m, target).value;
      && p.source == m.schema && p.target == target && p.steps == target - m.schema
      && p.totalBytes == Total(m.files) && p.fileCount == |m.files|
      && p.planDigest == env.hash(PlanInput(m, target, Total(m.files)))
  {
    CheckedTotalIsTotal(m.files, 0);
  }

  lemma SameParts(a: Bytes, b: Bytes, x: Bytes, y: Bytes)
    requires |a| == |b| && a + x == b + y
    ensures a == b && x == y
  {
    assert (a + x)[..|a|] == a && (b + y)[..|b|] == b;
    assert (a + x)[|a|..] == x && (b + y)[|b|..] == y;
  }

  lemma SameInts(v: nat, w: nat, k: nat, x: Bytes, y: Bytes)
    requires v < Pow256(k) && w < Pow256(k) && ToLE(v, k) + x == ToLE(w, k) + y
    ensures v == w && x == y
  {
    hide ToLE, FromLE, Pow256;
    LEWidth(v, k);
    LEWidth(w, k);
    SameParts(ToLE(v, k), ToLE(w, k), x, y);
    FromToLE(v, k);
    FromToLE(w, k);
  }

  /** The bytes the plan digest covers determine the whole plan: manifest digest, both schema
      versions, every file entry and the total. */
  lemma PlanInputInjective(env: Env, m: Manifest, target: nat, total: nat, m': Manifest, target': nat, total': nat)
    requires Typed(env, m) && Encodable(env, m) && |m.digest| == 32 && target < U64 && total < U64
    requires Typed(env, m') && Encodable(env, m') && |m'.digest| == 32 && target' < U64 && total' < U64
    requires PlanInput(m, target, total) == PlanInput(m', target', total')
    ensures m.digest == m'.digest && m.schema == m'.schema && target == target' && total == total'
    ensures m.files == m'.files
  {
    hide PutFiles, TakeFiles, ValidId, ValidFiles, ZeroDigest, ToLE, TypedFile;
    Pow256Values();
    var f, f' := PutFiles(m.files), PutFiles(m'.files);
    var t, t' := ToLE(total, 8) + f, ToLE(total', 8) + f';
    var c, c' := ToLE(|m.files|, 8) + t, ToLE(|m'.files|, 8) + t';
    var g, g' := ToLE(target, 8) + c, ToLE(target', 8) + c';
    var s, s' := ToLE(m.schema, 8) + g, ToLE(m'.schema, 8) + g';
    SameParts(PLAN_DOMAIN, PLAN_DOMAIN, m.digest + s, m'.digest + s');
    SameParts(m.digest, m'.digest, s, s');
    SameInts(m.schema, m'.schema, 8, g, g');
    SameInts(target, target', 8, c, c');
    SameInts(|m.files|, |m'.files|, 8, t, t');
    SameInts(total, total', 8, f, f');
    FilesForward(env, m.files, None, []);
    FilesForward(env, m'.files, None, []);
  }
}
