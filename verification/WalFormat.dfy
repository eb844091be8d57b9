/** The write-ahead log of durable_runtime.py: entries, length-prefixed frames, and the
    forward scan that stops at a torn tail. */
module WalFormat {
  import opened Common
  import opened LittleEndian

  type EdgeType = e: int | 1 <= e <= 10 witness 1

  // An edge weight in [0, 1], stored as a whole number of millionths.
  type Million = w: int | 0 <= w <= 1_000_000

  datatype Record = Record(recordId: string, nodeId: nat, payload: Bytes, sha: Bytes)

  datatype Edge = Edge(src: nat, dst: nat, edgeType: EdgeType, weight: Million)

  datatype Op = PutRecord(record: Record) | PutEdge(edge: Edge)

  datatype Body = Begin | Put(op: Op) | Commit(opCount: int) | Unknown

  datatype Entry = Entry(lsn: int, txid: string, body: Body)

  /** The two primitives the log is written with. JSON is any encoding that decodes to what
      was encoded; the checksum is any function to 32 bytes. `decode` answers None for bytes
      that are not a JSON object, and `encodeState` is the canonical form of a state. */
  datatype Primitives = Primitives(
    encode: Entry -> Bytes, decode: Bytes -> Option<Entry>, sha256: Bytes -> Bytes,
    encodeState: (seq<Record>, seq<Edge>, set<string>) -> Bytes)
  {
    ghost predicate Valid() {
      && (forall e :: 0 < |encode(e)| && decode(encode(e)) == Some(e))
      && (forall b :: |sha256(b)| == 32)
    }
  }

  const MAGIC: Bytes := [0x55, 0x42, 0x57, 0x4C]
  const HEADER_BYTES := 40
  const MAX_WAL_FRAME_BYTES := 64 * 1024 * 1024

  predicate Fits(p: Primitives, e: Entry) {
    |p.encode(e)| <= MAX_WAL_FRAME_BYTES
  }

  function Frame(p: Primitives, e: Entry): Bytes {
    var payload := p.encode(e);
    MAGIC + ToLE(|payload|, 4) + p.sha256(payload) + payload
  }

  function Frames(p: Primitives, es: seq<Entry>): Bytes {
    if |es| == 0 then [] else Frame(p, es[0]) + Frames(p, es[1..])
  }

  predicate AllFit(p: Primitives, es: seq<Entry>) {
    forall i | 0 <= i < |es| :: Fits(p, es[i])
  }

  // Log sequence numbers strictly increase, starting above prev.
  ghost predicate Increasing(es: seq<Entry>, prev: int) {
    |es| > 0 ==> prev < es[0].lsn && Increasing(es[1..], es[0].lsn)
  }

  datatype ScanError =
    | MagicMismatch | LengthInvalid | ChecksumMismatch | JsonInvalid | LsnOrder | TruncatedTail

  // What a scan found: the entries, the bytes they take, and the bytes of a torn tail.
  datatype Parsed = Parsed(entries: seq<Entry>, good: nat, tail: nat)

  function Parse(p: Primitives, data: Bytes, prev: int): (r: Result<Parsed, ScanError>)
    ensures r.Ok? ==> r.value.good + r.value.tail == |data|
    decreases |data|
  {
    if |data| < HEADER_BYTES then Ok(Parsed([], 0, |data|))
    else if data[..4] != MAGIC then Err(MagicMismatch)
    else
      var n := FromLE(data[4..8]);
      if n == 0 || n > MAX_WAL_FRAME_BYTES then Err(LengthInvalid)
      else if |data| < HEADER_BYTES + n then Ok(Parsed([], 0, |data|))
      else
        var payload := data[HEADER_BYTES..HEADER_BYTES + n];
        if p.sha256(payload) != data[8..HEADER_BYTES] then Err(ChecksumMismatch)
        else match p.decode(payload)
          case None => Err(JsonInvalid)
          case Some(e) =>
            if e.lsn <= prev then Err(LsnOrder)
            else match Parse(p, data[HEADER_BYTES + n..], e.lsn)
              case Err(x) => Err(x)
              case Ok(r) => Ok(Parsed([e] + r.entries, HEADER_BYTES + n + r.good, r.tail))
  }

  // How many of the frames of es lie whole within the first n bytes.
  function WholeFrames(p: Primitives, es: seq<Entry>, n: nat): (k: nat)
    ensures k <= |es|
  {
    if |es| == 0 || n < |Frame(p, es[0])| then 0
    else 1 + WholeFrames(p, es[1..], n - |Frame(p, es[0])|)
  }

  // ----- frames -----

  lemma FrameShape(p: Primitives, e: Entry)
    requires p.Valid() && Fits(p, e)
    ensures var f := Frame(p, e); var n := |p.encode(e)|;
      && |f| == HEADER_BYTES + n
      && f[..4] == MAGIC && FromLE(f[4..8]) == n && 0 < n
      && f[8..HEADER_BYTES] == p.sha256(p.encode(e))
      && f[HEADER_BYTES..] == p.encode(e)
  {
    var f, n := Frame(p, e), |p.encode(e)|;
    assert f[4..8] == ToLE(n, 4);
    Pow256Values();
    FromToLE(n, 4);
  }

  lemma FramesCons(p: Primitives, es: seq<Entry>)
    requires |es| > 0
    ensures Frames(p, es) == Frame(p, es[0]) + Frames(p, es[1..])
  {
  }

  lemma {:induction false} FramesAppend(p: Primitives, a: seq<Entry>, b: seq<Entry>)
    ensures Frames(p, a + b) == Frames(p, a) + Frames(p, b)
  {
    hide Frame;
    if |a| == 0 {
      assert a + b == b;
    } else {
      hide Frames;
      FramesAppend(p, a[1..], b);
      assert (a + b)[0] == a[0] && (a + b)[1..] == a[1..] + b;
      FramesCons(p, a);
      FramesCons(p, a + b);
      Associate(Frame(p, a[0]), Frames(p, a[1..]), Frames(p, b));
    }
  }

  lemma {:induction false} WholeFramesMaximal(p: Primitives, es: seq<Entry>, n: nat)
    ensures var k := WholeFrames(p, es, n);
      && |Frames(p, es[..k])| <= n
      && (k < |es| ==> n < |Frames(p, es[..k + 1])|)
  {
    var k := WholeFrames(p, es, n);
    if |es| == 0 {
    } else if n < |Frame(p, es[0])| {
      assert es[..1][0] == es[0] && es[..1][1..] == [];
    } else {
      WholeFramesMaximal(p, es[1..], n - |Frame(p, es[0])|);
      assert es[..k][0] == es[0] && es[..k][1..] == es[1..][..k - 1];
      if k < |es| {
        assert es[..k + 1][0] == es[0] && es[..k + 1][1..] == es[1..][..k];
      }
    }
  }

  // ----- scanning what was written -----

  // A proper prefix of one frame: what a crash can leave after the last whole frame.
  ghost predicate Torn(p: Primitives, tail: Bytes) {
    tail == [] || exists e :: Fits(p, e) && |tail| < |Frame(p, e)| && tail == Frame(p, e)[..|tail|]
  }

  lemma ParseTorn(p: Primitives, tail: Bytes, prev: int)
    requires p.Valid() && Torn(p, tail)
    ensures Parse(p, tail, prev) == Ok(Parsed([], 0, |tail|))
  {
    if |tail| >= HEADER_BYTES {
      var e :| Fits(p, e) && |tail| < |Frame(p, e)| && tail == Frame(p, e)[..|tail|];
      FrameShape(p, e);
      PrefixSlice(Frame(p, e), |tail|, 0, 4);
      PrefixSlice(Frame(p, e), |tail|, 4, 8);
      assert tail[..4] == tail[0..4] && Frame(p, e)[..4] == Frame(p, e)[0..4];
      hide Frame;
    }
  }

  lemma ParseFrame(p: Primitives, e: Entry, rest: Bytes, prev: int)
    requires p.Valid() && Fits(p, e) && prev < e.lsn
    ensures Parse(p, Frame(p, e) + rest, prev) ==
      match Parse(p, rest, e.lsn)
      case Err(x) => Err(x)
      case Ok(r) => Ok(Parsed([e] + r.entries, |Frame(p, e)| + r.good, r.tail))
  {
    FrameShape(p, e);
    var f, data := Frame(p, e), Frame(p, e) + rest;
    var n := |p.encode(e)|;
    hide Frame;
    LeftSlice(f, rest, 0, 4);
    LeftSlice(f, rest, 4, 8);
    LeftSlice(f, rest, 8, HEADER_BYTES);
    LeftSlice(f, rest, HEADER_BYTES, HEADER_BYTES + n);
    assert data[..4] == data[0..4] && f[..4] == f[0..4] && f[HEADER_BYTES..HEADER_BYTES + n] == f[HEADER_BYTES..];
    assert data[HEADER_BYTES + n..] == rest;
  }

  lemma {:induction false} ParseFrames(p: Primitives, es: seq<Entry>, tail: Bytes, prev: int)
    requires p.Valid() && AllFit(p, es) && Increasing(es, prev) && Torn(p, tail)
    ensures Parse(p, Frames(p, es) + tail, prev) == Ok(Parsed(es, |Frames(p, es)|, |tail|))
    decreases |es|
  {
    hide Frame;
    if |es| == 0 {
      assert Frames(p, es) + tail == tail;
      ParseTorn(p, tail, prev);
    } else {
      hide Parse, Frames;
      var rest := Frames(p, es[1..]) + tail;
      FramesCons(p, es);
      Associate(Frame(p, es[0]), Frames(p, es[1..]), tail);
      ParseFrame(p, es[0], rest, prev);
      ParseFrames(p, es[1..], tail, es[0].lsn);
      assert [es[0]] + es[1..] == es;
    }
  }

  // Cutting a log anywhere leaves whole frames and a torn tail.
  lemma CutFrames(p: Primitives, es: seq<Entry>, n: nat) returns (tail: Bytes)
    requires p.Valid() && AllFit(p, es) && n <= |Frames(p, es)|
    ensures Torn(p, tail)
    ensures Frames(p, es)[..n] == Frames(p, es[..WholeFrames(p, es, n)]) + tail
  {
    hide Frame;
    var k := WholeFrames(p, es, n);
    WholeFramesMaximal(p, es, n);
    var good := |Frames(p, es[..k])|;
    assert es == es[..k] + es[k..];
    FramesAppend(p, es[..k], es[k..]);
    tail := Frames(p, es[k..])[..n - good];
    if k < |es| {
      var e := es[k];
      assert es[..k + 1] == es[..k] + [e];
      FramesAppend(p, es[..k], [e]);
      assert Frames(p, [e]) == Frame(p, e) + Frames(p, []);
      assert |tail| < |Frame(p, e)|;
      assert Frames(p, es[k..]) == Frame(p, e) + Frames(p, es[k..][1..]);
      assert tail == Frame(p, e)[..|tail|];
    }
  }

  lemma {:induction false} IncreasingPrefix(es: seq<Entry>, k: nat, prev: int)
    requires Increasing(es, prev) && k <= |es|
    ensures Increasing(es[..k], prev)
    decreases k
  {
    if k > 0 {
      IncreasingPrefix(es[1..], k - 1, es[0].lsn);
      assert es[..k][1..] == es[1..][..k - 1];
    }
  }

  /** Truncation never corrupts a log: whatever byte the file ends at, the scan succeeds,
      returns exactly the entries whose frames are whole, keeps exactly their bytes, and
      counts the rest as the torn tail. At full length it inverts framing. */
  lemma ScanOfAnyPrefix(p: Primitives, es: seq<Entry>, n: nat)
    requires p.Valid() && AllFit(p, es) && Increasing(es, 0) && n <= |Frames(p, es)|
    ensures var k := WholeFrames(p, es, n); var good := |Frames(p, es[..k])|;
      && good <= n
      && (k < |es| ==> n < |Frames(p, es[..k + 1])|)
      && Parse(p, Frames(p, es)[..n], 0) == Ok(Parsed(es[..k], good, n - good))
    ensures n == |Frames(p, es)| ==> Parse(p, Frames(p, es), 0) == Ok(Parsed(es, n, 0))
  {
    hide Frame, Parse;
    var k := WholeFrames(p, es, n);
    var tail := CutFrames(p, es, n);
    IncreasingPrefix(es, k, 0);
    ParseFrames(p, es[..k], tail, 0);
    WholeFramesMaximal(p, es, n);
    assert Torn(p, []);
    ParseFrames(p, es, [], 0);
    assert Frames(p, es) + [] == Frames(p, es);
  }
}
