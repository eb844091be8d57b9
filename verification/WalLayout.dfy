/** The bytes of the write-ahead log, by position: what a frame holds where, and which files a scan accepts. */
module WalLayout {
  import opened Common
  import opened LittleEndian
  import opened WalFormat

  // The length field at bytes 4 to 7, least significant first.
  function Length(b: Bytes): nat
    requires |b| >= 8
  {
    b[4] as nat + 0x100 * b[5] as nat + 0x1_0000 * b[6] as nat + 0x100_0000 * b[7] as nat
  }

  lemma LengthIs(b: Bytes)
    requires |b| >= 8
    ensures FromLE(b[4..8]) == Length(b)
  {
    var f := b[4..8];
    assert FromLE(f[4..]) == 0;
    assert f[3..][1..] == f[4..] && FromLE(f[3..]) == b[7] as nat;
    assert f[2..][1..] == f[3..] && FromLE(f[2..]) == b[6] as nat + 0x100 * FromLE(f[3..]);
    assert f[1..][1..] == f[2..] && FromLE(f[1..]) == b[5] as nat + 0x100 * FromLE(f[2..]);
  }

  /** A frame is "UBWL", the payload's length least significant byte first, its checksum and the payload. */
  lemma FrameLayout(p: Primitives, e: Entry)
    requires p.Valid() && Fits(p, e)
    ensures var f := Frame(p, e); var n := |p.encode(e)|;
      && |f| == 40 + n && Ascii(f[..4]) == "UBWL"
      && f[4] as int == n % 0x100 && f[5] as int == n / 0x100 % 0x100
      && f[6] as int == n / 0x1_0000 % 0x100 && f[7] as int == n / 0x100_0000 % 0x100
      && f[8..40] == p.sha256(p.encode(e)) && f[40..] == p.encode(e)
  {
    var f, n := Frame(p, e), |p.encode(e)|;
    FrameShape(p, e);
    MagicIs();
    hide Ascii, ToLE, FromLE;
    Associate(MAGIC + ToLE(n, 4), p.sha256(p.encode(e)), p.encode(e));
    LengthBytes(f, n, p.sha256(p.encode(e)) + p.encode(e));
  }

  lemma LengthBytes(f: Bytes, n: nat, rest: Bytes)
    requires f == MAGIC + ToLE(n, 4) + rest
    ensures |f| >= 8 && f[4] as int == n % 0x100 && f[5] as int == n / 0x100 % 0x100
    ensures f[6] as int == n / 0x1_0000 % 0x100 && f[7] as int == n / 0x100_0000 % 0x100
  {
    FirstBytes(n, 4);
    hide ToLE;
  }

  /** An entry is small enough to be written exactly when a scan would read its frame back: 64 MiB. */
  lemma FitsIff(p: Primitives, e: Entry, prev: int)
    requires p.Valid() && prev < e.lsn && |p.encode(e)| < 0x1_0000_0000
    ensures Fits(p, e) <==> |p.encode(e)| <= 0x400_0000
    ensures Fits(p, e) <==> Parse(p, Frame(p, e), prev) == Ok(Parsed([e], |Frame(p, e)|, 0))
  {
    if Fits(p, e) {
      hide Parse, Frame;
      ParseFrame(p, e, [], prev);
      ParseUnfinished(p, [], e.lsn);
      assert Frame(p, e) + [] == Frame(p, e) && [e] + [] == [e];
    } else {
      TooLong(p, e, prev);
    }
  }

  lemma TooLong(p: Primitives, e: Entry, prev: int)
    requires p.Valid() && 0x400_0000 < |p.encode(e)| < 0x1_0000_0000
    ensures Parse(p, Frame(p, e), prev).Err?
  {
    var f, n := Frame(p, e), |p.encode(e)|;
    hide ToLE, FromLE, Pow256;
    assert f[4..8] == ToLE(n, 4);
    Pow256Values();
    FromToLE(n, 4);
  }

  lemma MagicIs()
    ensures |MAGIC| == 4 && Ascii(MAGIC) == "UBWL"
    ensures forall b: Bytes | |b| == 4 && Ascii(b) == "UBWL" :: b == MAGIC
  {
    forall b: Bytes | |b| == 4 && Ascii(b) == "UBWL" ensures b == MAGIC {
      assert Ascii(b)[0] == 'U' && Ascii(b)[1] == 'B' && Ascii(b)[2] == 'W' && Ascii(b)[3] == 'L';
    }
  }

  // ----- which files a scan accepts -----

  // A length the scan accepts, after the right magic.
  ghost predicate Headed(b: Bytes) {
    |b| >= 40 && Ascii(b[..4]) == "UBWL" && 1 <= Length(b) <= 0x400_0000
  }

  // The payload of the frame at the front, when it is all there.
  function Payload(b: Bytes): Bytes
    requires Headed(b) && 40 + Length(b) <= |b|
  {
    b[40..40 + Length(b)]
  }

  // A whole frame that carries e and may follow prev.
  ghost predicate Sound(p: Primitives, f: Bytes, e: Entry, prev: int) {
    && Headed(f) && |f| == 40 + Length(f)
    && p.sha256(Payload(f)) == f[8..40] && p.decode(Payload(f)) == Some(e) && prev < e.lsn
  }

  // Frames that carry es, in increasing order of LSN.
  ghost predicate Chain(p: Primitives, fs: seq<Bytes>, es: seq<Entry>, prev: int) {
    |fs| == |es| && forall i | 0 <= i < |fs| :: Sound(p, fs[i], es[i], LastLsn(es[..i], prev))
  }

  function LastLsn(es: seq<Entry>, prev: int): int {
    if |es| == 0 then prev else es[|es| - 1].lsn
  }

  // Too short for a header, or for the payload its header announces.
  ghost predicate Unfinished(rest: Bytes) {
    |rest| < 40 || (Headed(rest) && |rest| < 40 + Length(rest))
  }

  // What is wrong with the frame at the front.
  ghost predicate Broken(p: Primitives, rest: Bytes, prev: int, x: ScanError) {
    |rest| >= 40 &&
    match x
    case MagicMismatch => Ascii(rest[..4]) != "UBWL"
    case LengthInvalid => Ascii(rest[..4]) == "UBWL" && !Headed(rest)
    case ChecksumMismatch => Whole(rest) && p.sha256(Payload(rest)) != rest[8..40]
    case JsonInvalid => Whole(rest) && p.sha256(Payload(rest)) == rest[8..40] && p.decode(Payload(rest)) == None
    case LsnOrder =>
      && Whole(rest) && p.sha256(Payload(rest)) == rest[8..40]
      && exists e :: p.decode(Payload(rest)) == Some(e) && e.lsn <= prev
    case TruncatedTail => false
  }

  ghost predicate Whole(rest: Bytes) {
    Headed(rest) && 40 + Length(rest) <= |rest|
  }

  // One step of the scan, in these terms.
  lemma ParseStep(p: Primitives, data: Bytes, prev: int)
    requires |data| >= 40
    ensures data[..4] == MAGIC <==> Ascii(data[..4]) == "UBWL"
    ensures Whole(data) ==> FromLE(data[4..8]) == Length(data) && Payload(data) == data[40..40 + FromLE(data[4..8])]
    ensures FromLE(data[4..8]) == Length(data)
  {
    LengthIs(data);
    MagicIs();
  }

  lemma ParseOver(p: Primitives, f: Bytes, e: Entry, rest: Bytes, prev: int)
    requires Sound(p, f, e, prev)
    ensures Parse(p, f + rest, prev) == After([e], |f|, Parse(p, rest, e.lsn))
  {
    var data := f + rest;
    ParseStep(p, f, prev);
    ParseStep(p, data, prev);
    LeftSlice(f, rest, 0, 4);
    LeftSlice(f, rest, 4, 8);
    LeftSlice(f, rest, 8, 40);
    LeftSlice(f, rest, 40, |f|);
    assert data[..4] == data[0..4] && f[..4] == f[0..4] && data[|f|..] == rest;
    hide Ascii, FromLE;
  }

  // What a scan finds when n bytes of frames carrying es stand before what it found.
  function After(es: seq<Entry>, n: nat, r: Result<Parsed, ScanError>): Result<Parsed, ScanError> {
    match r
    case Err(x) => Err(x)
    case Ok(q) => Ok(Parsed(es + q.entries, n + q.good, q.tail))
  }

  lemma AfterTwice(a: seq<Entry>, m: nat, b: seq<Entry>, n: nat, r: Result<Parsed, ScanError>)
    ensures After(a, m, After(b, n, r)) == After(a + b, m + n, r)
    ensures After([], 0, r) == r
  {
    if r.Ok? {
      Associate(a, b, r.value.entries);
      assert [] + r.value.entries == r.value.entries;
    }
  }

  lemma ChainInit(p: Primitives, fs: seq<Bytes>, es: seq<Entry>, prev: int)
    requires Chain(p, fs, es, prev) && |fs| > 0
    ensures var n := |fs| - 1;
      Chain(p, fs[..n], es[..n], prev) && Sound(p, fs[n], es[n], LastLsn(es[..n], prev))
  {
    hide Sound;
    var n := |fs| - 1;
    forall i | 0 <= i < n ensures Sound(p, fs[..n][i], es[..n][i], LastLsn(es[..n][..i], prev)) {
      assert es[..n][..i] == es[..i];
    }
  }

  lemma ChainStep(p: Primitives, a: Bytes, es: seq<Entry>, f: Bytes, e: Entry, rest: Bytes, prev: int)
    requires Sound(p, f, e, LastLsn(es, prev))
    requires Parse(p, a + (f + rest), prev) == After(es, |a|, Parse(p, f + rest, LastLsn(es, prev)))
    ensures Parse(p, (a + f) + rest, prev) == After(es + [e], |a + f|, Parse(p, rest, e.lsn))
  {
    hide Parse, Sound, After;
    Associate(a, f, rest);
    ParseOver(p, f, e, rest, LastLsn(es, prev));
    AfterTwice(es, |a|, [e], |f|, Parse(p, rest, e.lsn));
  }

  lemma {:induction false} ParseChain(p: Primitives, fs: seq<Bytes>, es: seq<Entry>, rest: Bytes, prev: int)
    requires Chain(p, fs, es, prev)
    ensures Parse(p, Concat(fs) + rest, prev) == After(es, |Concat(fs)|, Parse(p, rest, LastLsn(es, prev)))
    decreases |fs|
  {
    hide Parse, Concat, Sound, After;
    if |fs| == 0 {
      ConcatNothing();
      assert Concat(fs) + rest == rest;
      AfterTwice([], 0, [], 0, Parse(p, rest, prev));
    } else {
      var n := |fs| - 1;
      ChainInit(p, fs, es, prev);
      ParseChain(p, fs[..n], es[..n], fs[n] + rest, prev);
      ChainStep(p, Concat(fs[..n]), es[..n], fs[n], es[n], rest, prev);
      ConcatSnoc(fs[..n], fs[n]);
      assert fs == fs[..n] + [fs[n]] && es == es[..n] + [es[n]];
    }
  }

  lemma ParseUnfinished(p: Primitives, rest: Bytes, prev: int)
    requires Unfinished(rest)
    ensures Parse(p, rest, prev) == Ok(Parsed([], 0, |rest|))
  {
    if |rest| >= 40 { ParseStep(p, rest, prev); }
  }

  lemma ParseBroken(p: Primitives, rest: Bytes, prev: int, x: ScanError)
    requires Broken(p, rest, prev, x)
    ensures Parse(p, rest, prev) == Err(x)
  {
    ParseStep(p, rest, prev);
    hide Ascii, FromLE;
  }

  // Every file is a chain of sound frames, then a front that is unfinished or broken.
  lemma {:induction false} Chained(p: Primitives, data: Bytes, prev: int)
    returns (fs: seq<Bytes>, es: seq<Entry>, rest: Bytes)
    ensures Chain(p, fs, es, prev) && data == Concat(fs) + rest
    ensures Unfinished(rest) || exists x :: Broken(p, rest, LastLsn(es, prev), x)
    decreases |data|
  {
    hide Concat, Sound, Unfinished, Broken, Headed;
    fs, es, rest := [], [], data;
    ConcatNothing();
    if Good(p, data, prev) {
      var n, e := 40 + Length(data), p.decode(Payload(data)).value;
      var f := data[..n];
      FrontIsSound(p, data, e, prev);
      var fs', es';
      fs', es', rest := Chained(p, data[n..], e.lsn);
      fs, es := [f] + fs', [e] + es';
      ChainCons(p, f, e, fs', es', prev);
      ConcatCons(f, fs');
      Associate(f, Concat(fs'), rest);
      assert data == f + data[n..];
    } else {
      FrontIsBroken(p, data, prev);
      assert [] + data == data && LastLsn([], prev) == prev;
    }
  }

  // The frame at the front can be taken.
  ghost predicate Good(p: Primitives, data: Bytes, prev: int) {
    && Whole(data) && p.sha256(Payload(data)) == data[8..40]
    && p.decode(Payload(data)).Some? && prev < p.decode(Payload(data)).value.lsn
  }

  lemma FrontIsSound(p: Primitives, data: Bytes, e: Entry, prev: int)
    requires Good(p, data, prev) && e == p.decode(Payload(data)).value
    ensures Sound(p, data[..40 + Length(data)], e, prev)
  {
    var n := 40 + Length(data);
    var f := data[..n];
    assert f[..4] == data[..4];
    PrefixSlice(data, n, 8, 40);
    PrefixSlice(data, n, 40, n);
  }

  lemma FrontIsBroken(p: Primitives, data: Bytes, prev: int)
    requires !Good(p, data, prev)
    ensures Unfinished(data) || exists x :: Broken(p, data, prev, x)
  {
    if Unfinished(data) {
    } else if Ascii(data[..4]) != "UBWL" {
      assert Broken(p, data, prev, MagicMismatch);
    } else if !Headed(data) {
      assert Broken(p, data, prev, LengthInvalid);
    } else if p.sha256(Payload(data)) != data[8..40] {
      assert Broken(p, data, prev, ChecksumMismatch);
    } else if p.decode(Payload(data)).None? {
      assert Broken(p, data, prev, JsonInvalid);
    } else {
      assert Broken(p, data, prev, LsnOrder);
    }
  }

  lemma ChainCons(p: Primitives, f: Bytes, e: Entry, fs: seq<Bytes>, es: seq<Entry>, prev: int)
    requires Sound(p, f, e, prev) && Chain(p, fs, es, e.lsn)
    ensures Chain(p, [f] + fs, [e] + es, prev)
    ensures LastLsn([e] + es, prev) == LastLsn(es, e.lsn)
  {
    hide Sound;
    forall i | 0 <= i < |fs| + 1 ensures Sound(p, ([f] + fs)[i], ([e] + es)[i], LastLsn(([e] + es)[..i], prev)) {
      if i > 0 { assert ([e] + es)[..i] == [e] + es[..i - 1]; }
    }
  }

  // A file that is sound frames carrying es, and then rest.
  ghost predicate Holds(p: Primitives, data: Bytes, es: seq<Entry>, rest: Bytes) {
    exists fs :: Chain(p, fs, es, 0) && data == Concat(fs) + rest
  }

  /** A scan succeeds exactly on sound frames in increasing order of LSN followed by an unfinished one, and
      returns their entries, their bytes and what is left over. It fails exactly on sound frames followed by a
      broken one, with that frame's fault. */
  lemma ScanIff(p: Primitives, data: Bytes)
    ensures forall es, good, tail :: Parse(p, data, 0) == Ok(Parsed(es, good, tail)) <==>
      exists rest :: Holds(p, data, es, rest) && Unfinished(rest) && good == |data| - |rest| && tail == |rest|
    ensures forall x :: Parse(p, data, 0) == Err(x) <==>
      exists es, rest :: Holds(p, data, es, rest) && Broken(p, rest, LastLsn(es, 0), x)
  {
    hide Parse, Concat, Chain, Unfinished, Broken;
    var fs, es, rest := Chained(p, data, 0);
    assert Holds(p, data, es, rest);
    forall es, rest | Holds(p, data, es, rest) && Unfinished(rest)
      ensures Parse(p, data, 0) == Ok(Parsed(es, |data| - |rest|, |rest|))
    {
      HeldUnfinished(p, data, es, rest);
    }
    forall es, rest, x | Holds(p, data, es, rest) && Broken(p, rest, LastLsn(es, 0), x)
      ensures Parse(p, data, 0) == Err(x)
    {
      HeldBroken(p, data, es, rest, x);
    }
  }

  lemma HeldUnfinished(p: Primitives, data: Bytes, es: seq<Entry>, rest: Bytes)
    requires Holds(p, data, es, rest) && Unfinished(rest)
    ensures Parse(p, data, 0) == Ok(Parsed(es, |data| - |rest|, |rest|))
  {
    hide Parse, Concat, Chain, Unfinished;
    var fs :| Chain(p, fs, es, 0) && data == Concat(fs) + rest;
    ParseChain(p, fs, es, rest, 0);
    ParseUnfinished(p, rest, LastLsn(es, 0));
    assert es + [] == es;
  }

  lemma HeldBroken(p: Primitives, data: Bytes, es: seq<Entry>, rest: Bytes, x: ScanError)
    requires Holds(p, data, es, rest) && Broken(p, rest, LastLsn(es, 0), x)
    ensures Parse(p, data, 0) == Err(x)
  {
    hide Parse, Concat, Chain, Broken;
    var fs :| Chain(p, fs, es, 0) && data == Concat(fs) + rest;
    ParseChain(p, fs, es, rest, 0);
    ParseBroken(p, rest, LastLsn(es, 0), x);
  }
}
