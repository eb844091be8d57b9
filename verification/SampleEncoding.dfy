/** One way to write log entries as bytes that satisfies all that is asked of an encoding: numbers in
    binary digits with an end mark, strings and lists by their length. With it the losing run of
    KilledSessions happens. */
module SampleEncoding {
  import opened Common
  import opened WalFormat
  import opened Replay
  import opened DurableMachine
  import opened CheckpointSafety
  import opened KilledSessions

  function Digits(n: nat): (b: Bytes)
    ensures |b| > 0
  {
    if n == 0 then [0] else [(1 + n % 2) as byte] + Digits(n / 2)
  }

  function Magnitude(i: int): nat {
    if i < 0 then -i else i
  }

  function Signed(i: int): Bytes {
    [if i < 0 then 1 else 0] + Digits(Magnitude(i))
  }

  function Chars(s: string): Bytes {
    if |s| == 0 then [] else Digits(s[0] as nat) + Chars(s[1..])
  }

  function Text(s: string): Bytes {
    Digits(|s|) + Chars(s)
  }

  function Block(b: Bytes): Bytes {
    Digits(|b|) + b
  }

  function OfRecord(r: Record): Bytes {
    Text(r.recordId) + (Digits(r.nodeId) + (Block(r.payload) + Block(r.sha)))
  }

  function OfEdge(e: Edge): Bytes {
    Digits(e.src) + (Digits(e.dst) + (Digits(e.edgeType) + Digits(e.weight)))
  }

  function OfBody(b: Body): Bytes {
    match b
    case Begin => [0]
    case Put(PutRecord(r)) => [1] + OfRecord(r)
    case Put(PutEdge(e)) => [2] + OfEdge(e)
    case Commit(n) => [3] + Signed(n)
    case Unknown => [4]
  }

  function OfEntry(e: Entry): (b: Bytes)
    ensures |b| > 0
  {
    Signed(e.lsn) + (Text(e.txid) + OfBody(e.body))
  }

  // ----- every part marks its own end -----

  lemma {:induction false} DigitsEnd(m: nat, n: nat, x: Bytes, y: Bytes)
    requires Digits(m) + x == Digits(n) + y
    ensures m == n && x == y
    decreases m
  {
    var a, b := Digits(m) + x, Digits(n) + y;
    assert a[0] == b[0];
    if m == 0 {
      assert a[1..] == x && b[1..] == y;
    } else {
      assert a[1..] == Digits(m / 2) + x && b[1..] == Digits(n / 2) + y;
      DigitsEnd(m / 2, n / 2, x, y);
    }
  }

  lemma SignedEnd(m: int, n: int, x: Bytes, y: Bytes)
    requires Signed(m) + x == Signed(n) + y
    ensures m == n && x == y
  {
    hide Digits;
    var a, b := Digits(Magnitude(m)), Digits(Magnitude(n));
    Headed(if m < 0 then 1 else 0, a, x);
    Headed(if n < 0 then 1 else 0, b, y);
    DigitsEnd(Magnitude(m), Magnitude(n), x, y);
  }

  lemma Headed(h: byte, a: Bytes, x: Bytes)
    ensures (([h] + a) + x)[0] == h && (([h] + a) + x)[1..] == a + x
  {
  }

  lemma {:induction false} CharsEnd(s: string, t: string, x: Bytes, y: Bytes)
    requires |s| == |t| && Chars(s) + x == Chars(t) + y
    ensures s == t && x == y
  {
    hide Digits;
    if |s| == 0 {
      assert Chars(s) + x == x && Chars(t) + y == y;
    } else {
      Associate(Digits(s[0] as nat), Chars(s[1..]), x);
      Associate(Digits(t[0] as nat), Chars(t[1..]), y);
      DigitsEnd(s[0] as nat, t[0] as nat, Chars(s[1..]) + x, Chars(t[1..]) + y);
      CharsEnd(s[1..], t[1..], x, y);
      assert s == [s[0]] + s[1..] && t == [t[0]] + t[1..];
    }
  }

  lemma TextEnd(s: string, t: string, x: Bytes, y: Bytes)
    requires Text(s) + x == Text(t) + y
    ensures s == t && x == y
  {
    hide Digits, Chars;
    Associate(Digits(|s|), Chars(s), x);
    Associate(Digits(|t|), Chars(t), y);
    DigitsEnd(|s|, |t|, Chars(s) + x, Chars(t) + y);
    CharsEnd(s, t, x, y);
  }

  lemma BlockEnd(s: Bytes, t: Bytes, x: Bytes, y: Bytes)
    requires Block(s) + x == Block(t) + y
    ensures s == t && x == y
  {
    hide Digits;
    Associate(Digits(|s|), s, x);
    Associate(Digits(|t|), t, y);
    DigitsEnd(|s|, |t|, s + x, t + y);
    assert (s + x)[..|s|] == s && (t + y)[..|t|] == t;
    assert (s + x)[|s|..] == x && (t + y)[|t|..] == y;
  }

  lemma RecordDetermined(r: Record, q: Record)
    requires OfRecord(r) == OfRecord(q)
    ensures r == q
  {
    hide Text, Digits, Block;
    TextEnd(r.recordId, q.recordId, Digits(r.nodeId) + (Block(r.payload) + Block(r.sha)),
            Digits(q.nodeId) + (Block(q.payload) + Block(q.sha)));
    DigitsEnd(r.nodeId, q.nodeId, Block(r.payload) + Block(r.sha), Block(q.payload) + Block(q.sha));
    BlockEnd(r.payload, q.payload, Block(r.sha), Block(q.sha));
    assert Block(r.sha) + [] == Block(q.sha) + [];
    BlockEnd(r.sha, q.sha, [], []);
  }

  lemma EdgeDetermined(e: Edge, f: Edge)
    requires OfEdge(e) == OfEdge(f)
    ensures e == f
  {
    hide Digits;
    DigitsEnd(e.src, f.src, Digits(e.dst) + (Digits(e.edgeType) + Digits(e.weight)),
              Digits(f.dst) + (Digits(f.edgeType) + Digits(f.weight)));
    DigitsEnd(e.dst, f.dst, Digits(e.edgeType) + Digits(e.weight), Digits(f.edgeType) + Digits(f.weight));
    DigitsEnd(e.edgeType, f.edgeType, Digits(e.weight), Digits(f.weight));
    assert Digits(e.weight) + [] == Digits(f.weight) + [];
    DigitsEnd(e.weight, f.weight, [], []);
  }

  lemma BodyDetermined(a: Body, b: Body)
    requires OfBody(a) == OfBody(b)
    ensures a == b
  {
    hide OfRecord, OfEdge, Signed;
    var x, y := OfBody(a), OfBody(b);
    assert x[0] == y[0];
    match a {
      case Begin =>
      case Put(PutRecord(r)) =>
        assert x[1..] == OfRecord(r) && y[1..] == OfRecord(b.op.record);
        RecordDetermined(r, b.op.record);
      case Put(PutEdge(e)) =>
        assert x[1..] == OfEdge(e) && y[1..] == OfEdge(b.op.edge);
        EdgeDetermined(e, b.op.edge);
      case Commit(n) =>
        assert x[1..] == Signed(n) && y[1..] == Signed(b.opCount);
        assert Signed(n) + [] == Signed(b.opCount) + [];
        SignedEnd(n, b.opCount, [], []);
      case Unknown =>
    }
  }

  /** Different entries are written differently. */
  lemma EntryDetermined(e: Entry, f: Entry)
    requires OfEntry(e) == OfEntry(f)
    ensures e == f
  {
    hide Signed, Text, OfBody;
    SignedEnd(e.lsn, f.lsn, Text(e.txid) + OfBody(e.body), Text(f.txid) + OfBody(f.body));
    TextEnd(e.txid, f.txid, OfBody(e.body), OfBody(f.body));
    BodyDetermined(e.body, f.body);
  }

  // ----- the primitives -----

  // The entry these bytes are written for, if any.
  ghost function Read(b: Bytes): Option<Entry> {
    if exists e :: OfEntry(e) == b then
      var e :| OfEntry(e) == b;
      Some(e)
    else None
  }

  ghost function Sample(): Primitives {
    Primitives(e => OfEntry(e), b => Read(b), b => seq(32, _ => 0), (recs, es, txids) => [])
  }

  lemma SampleIsValid()
    ensures Sample().Valid()
  {
    var p := Sample();
    hide OfEntry;
    forall e ensures 0 < |p.encode(e)| && p.decode(p.encode(e)) == Some(e) {
      NotEmpty(e);
      assert OfEntry(e) == p.encode(e);
      var found := Read(OfEntry(e)).value;
      EntryDetermined(found, e);
    }
  }

  lemma NotEmpty(e: Entry)
    ensures |OfEntry(e)| > 0
  {
  }

  function Pow2(k: nat): nat {
    if k == 0 then 1 else 2 * Pow2(k - 1)
  }

  lemma {:induction false} DigitsShort(n: nat, k: nat)
    requires n < Pow2(k)
    ensures |Digits(n)| <= k + 1
    decreases k
  {
    if n > 0 { DigitsShort(n / 2, k - 1); }
  }

  const LOOP: Edge := Edge(0, 0, 1, 0)

  // One-letter transaction ids.
  predicate Letter(txid: string) {
    |txid| == 1 && txid[0] as nat < 128
  }

  lemma EntryShort(e: Entry, digits: nat)
    requires Letter(e.txid) && 0 <= e.lsn < Pow2(digits) && e.body in [Begin, Put(PutEdge(LOOP)), Commit(1)]
    ensures |OfEntry(e)| <= digits + 30
  {
    LetterShort(e.txid);
    BodyShort(e.body);
    DigitsShort(e.lsn, digits);
    hide Text, OfBody, Digits, Pow2;
  }

  lemma LetterShort(txid: string)
    requires Letter(txid)
    ensures |Text(txid)| <= 10
  {
    Powers();
    DigitsShort(1, 1);
    DigitsShort(txid[0] as nat, 7);
    hide Digits, Pow2;
    assert Chars(txid[1..]) == [];
  }

  lemma Powers()
    ensures Pow2(1) == 2 && Pow2(7) == 128
  {
    assert Pow2(2) == 4 && Pow2(3) == 8 && Pow2(4) == 16 && Pow2(5) == 32 && Pow2(6) == 64;
  }

  lemma BodyShort(b: Body)
    requires b in [Begin, Put(PutEdge(LOOP)), Commit(1)]
    ensures |OfBody(b)| <= 10
  {
    Powers();
    DigitsShort(1, 1);
    assert |Digits(0)| == 1;
    hide Digits, Pow2;
  }

  /** A transaction of one edge is small at every LSN of up to a million binary digits. */
  lemma SampleIsSmall(txid: string, top: nat)
    requires Letter(txid) && top + 2 < Pow2(1_000_000)
    ensures Small(Sample(), txid, PutEdge(LOOP), top)
  {
    hide OfEntry, Pow2, Read;
    forall lsn | 0 < lsn <= top ensures AllFit(Sample(), Transaction(txid, lsn, [PutEdge(LOOP)])) {
      var t := Transaction(txid, lsn, [PutEdge(LOOP)]);
      forall i | 0 <= i < |t| ensures Fits(Sample(), t[i]) {
        EntryShort(t[i], 1_000_000);
      }
    }
  }

  lemma Grows(k: nat)
    ensures k < Pow2(k)
  {
  }

  /** So the losing run happens: there are primitives that keep all that is asked of them, and a run in
      which a commit returned a receipt and the next open does not load it. */
  lemma ReceiptCanBeLost()
    ensures exists p: Primitives, evs: seq<Event> :: p.Valid() && FreshRun(evs) && !KeepsReceipts(p, evs)
  {
    hide FreshRun, KeepsReceipts, Small, Sample;
    SampleIsValid();
    Grows(1_000_000);
    SampleIsSmall("a", 3);
    SampleIsSmall("b", 3);
    KillCostsReceipt(Sample(), "a", "b", PutEdge(LOOP));
  }
}
