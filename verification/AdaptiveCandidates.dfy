/** The candidates of g1g2_small_adaptive_pack.py and the choice between them. Serialization and
    digests are parameters; which tokens are worth a dictionary entry is an input. */
module AdaptiveCandidates {
  import opened Common
  import opened LittleEndian
  import opened Sorting
  import opened AdaptivePack

  datatype Env = Env(
    digest: Bytes -> Bytes,
    serialize: (Mode, seq<Bytes>, seq<Bytes>, seq<seq<EncodedLine>>) -> Bytes)

  // ----- orders -----

  // Byte-wise comparison.
  predicate LexLe(a: Bytes, b: Bytes) {
    if |a| == 0 then true
    else if |b| == 0 then false
    else if a[0] != b[0] then a[0] < b[0]
    else LexLe(a[1..], b[1..])
  }

  lemma {:induction false} LexTotal(a: Bytes, b: Bytes)
    ensures LexLe(a, b) || LexLe(b, a)
    ensures LexLe(a, b) && LexLe(b, a) ==> a == b
  {
    if |a| > 0 && |b| > 0 && a[0] == b[0] {
      LexTotal(a[1..], b[1..]);
      assert a == [a[0]] + a[1..] && b == [b[0]] + b[1..];
    }
  }

  lemma {:induction false} LexTransitive(a: Bytes, b: Bytes, c: Bytes)
    requires LexLe(a, b) && LexLe(b, c)
    ensures LexLe(a, c)
  {
    if |a| > 0 && |b| > 0 && |c| > 0 && a[0] == b[0] == c[0] {
      LexTransitive(a[1..], b[1..], c[1..]);
    }
  }

  /** Byte by byte: after the common part, the first ends or has the smaller byte. */
  lemma {:induction false} LexLeIff(a: Bytes, b: Bytes)
    ensures LexLe(a, b) <==> exists k | 0 <= k <= |a| && k <= |b| :: a[..k] == b[..k] && EndsAt(a, b, k)
    decreases |a|
  {
    if |a| > 0 && |b| > 0 && a[0] == b[0] {
      LexLeIff(a[1..], b[1..]);
      if k :| 0 <= k <= |a[1..]| && k <= |b[1..]| && a[1..][..k] == b[1..][..k] && EndsAt(a[1..], b[1..], k) {
        assert a[..k + 1] == [a[0]] + a[1..][..k] && b[..k + 1] == [b[0]] + b[1..][..k];
        assert EndsAt(a, b, k + 1);
      }
      if k :| 0 <= k <= |a| && k <= |b| && a[..k] == b[..k] && EndsAt(a, b, k) {
        assert a[1..][..k - 1] == a[..k][1..] && b[1..][..k - 1] == b[..k][1..];
        assert EndsAt(a[1..], b[1..], k - 1);
      }
    } else {
      assert a[..0] == b[..0];
      assert EndsAt(a, b, 0) <==> LexLe(a, b);
      if k :| 0 <= k <= |a| && k <= |b| && a[..k] == b[..k] && EndsAt(a, b, k) {
        SameStart(a, b, k);
      }
    }
  }

  // What decides the order of two that agree up to k.
  ghost predicate EndsAt(a: Bytes, b: Bytes, k: nat)
    requires k <= |a| && k <= |b|
  {
    k == |a| || (k < |b| && a[k] < b[k])
  }

  lemma SameStart(a: Bytes, b: Bytes, k: nat)
    requires k <= |a| && k <= |b| && a[..k] == b[..k]
    ensures k > 0 ==> a[0] == b[0]
  {
    if k > 0 { assert a[..k][0] == b[..k][0]; }
  }

  // Larger rank first, then digest, then bytes.
  predicate Ahead(rank: Bytes -> int, digest: Bytes -> Bytes, a: Bytes, b: Bytes) {
    if rank(a) != rank(b) then rank(a) > rank(b)
    else if digest(a) != digest(b) then LexLe(digest(a), digest(b))
    else LexLe(a, b)
  }

  function Order(rank: Bytes -> int, digest: Bytes -> Bytes): (Bytes, Bytes) -> bool {
    (a, b) => Ahead(rank, digest, a, b)
  }

  /** A list sorted this way falls by rank, and at one rank rises by digest, and at one digest by bytes. */
  lemma SortedMeans(d: seq<Bytes>, rank: Bytes -> int, digest: Bytes -> Bytes, i: nat, j: nat)
    requires Sorted(d, Order(rank, digest)) && i < j < |d|
    ensures rank(d[i]) >= rank(d[j])
    ensures rank(d[i]) == rank(d[j]) ==> LexLe(digest(d[i]), digest(d[j]))
    ensures rank(d[i]) == rank(d[j]) && digest(d[i]) == digest(d[j]) ==> LexLe(d[i], d[j])
  {
    hide LexLe;
    LexSame(digest(d[i]));
    assert Order(rank, digest)(d[i], d[j]);
  }

  lemma LexSame(a: Bytes)
    ensures LexLe(a, a)
  {
    LexTotal(a, a);
  }

  lemma OrderIsTotal(rank: Bytes -> int, digest: Bytes -> Bytes)
    ensures TotalPreorder(Order(rank, digest))
  {
    hide LexLe;
    forall a, b ensures Ahead(rank, digest, a, b) || Ahead(rank, digest, b, a) {
      LexTotal(a, b);
      LexTotal(digest(a), digest(b));
    }
    forall a, b, c | Ahead(rank, digest, a, b) && Ahead(rank, digest, b, c) ensures Ahead(rank, digest, a, c) {
      AheadTransitive(rank, digest, a, b, c);
    }
  }

  lemma AheadTransitive(rank: Bytes -> int, digest: Bytes -> Bytes, a: Bytes, b: Bytes, c: Bytes)
    requires Ahead(rank, digest, a, b) && Ahead(rank, digest, b, c)
    ensures Ahead(rank, digest, a, c)
  {
    hide LexLe;
    LexTotal(digest(a), digest(b));
    LexTotal(digest(b), digest(c));
    if LexLe(a, b) && LexLe(b, c) { LexTransitive(a, b, c); }
    if LexLe(digest(a), digest(b)) && LexLe(digest(b), digest(c)) { LexTransitive(digest(a), digest(b), digest(c)); }
  }

  // ----- repeated lines -----

  function AllLines(files: seq<Bytes>): seq<Bytes> {
    if |files| == 0 then [] else AllLines(files[..|files| - 1]) + SplitLinesExact(files[|files| - 1])
  }

  lemma AllLinesSnoc(files: seq<Bytes>, f: Bytes)
    ensures AllLines(files + [f]) == AllLines(files) + SplitLinesExact(f)
  {
    assert (files + [f])[..|files|] == files;
  }

  ghost predicate Counts(counts: map<Bytes, nat>, lines: seq<Bytes>) {
    && (forall l :: l in counts <==> l in lines)
    && forall l | l in counts :: counts[l] == multiset(lines)[l]
  }

  lemma OneMoreLine(counts: map<Bytes, nat>, lines: seq<Bytes>, line: Bytes)
    requires Counts(counts, lines)
    ensures Counts(counts[line := (if line in counts then counts[line] else 0) + 1], lines + [line])
  {
  }

  // The counting loop over every line of every file.
  method CountLines(files: seq<Bytes>) returns (counts: map<Bytes, nat>)
    ensures Counts(counts, AllLines(files))
  {
    hide AllLines, Counts, SplitLinesExact;
    counts := map[];
    NoLines();
    assert files[..0] == [];
    for f := 0 to |files|
      invariant Counts(counts, AllLines(files[..f]))
    {
      var lines := SplitLinesExact(files[f]);
      ghost var before := AllLines(files[..f]);
      assert before + lines[..0] == before;
      for l := 0 to |lines|
        invariant Counts(counts, before + lines[..l])
      {
        OneMoreLine(counts, before + lines[..l], lines[l]);
        assert before + lines[..l + 1] == before + lines[..l] + [lines[l]];
        counts := counts[lines[l] := (if lines[l] in counts then counts[lines[l]] else 0) + 1];
      }
      assert lines[..|lines|] == lines;
      AllLinesSnoc(files[..f], files[f]);
      assert files[..f + 1] == files[..f] + [files[f]];
    }
    assert files[..|files|] == files;
  }

  lemma NoLines()
    ensures Counts(map[], AllLines([]))
  {
  }

  ghost predicate Repeated(line: Bytes, files: seq<Bytes>) {
    multiset(AllLines(files))[line] >= 2 && |line| >= 4
  }

  ghost predicate Indexed(dictIndex: map<Bytes, nat>, dictionary: seq<Bytes>) {
    && (forall k | 0 <= k < |dictionary| :: dictionary[k] in dictIndex && dictIndex[dictionary[k]] == k)
    && forall l | l in dictIndex :: l in dictionary
  }

  method IndexDictionary(dictionary: seq<Bytes>) returns (dictIndex: map<Bytes, nat>)
    requires Distinct(dictionary)
    ensures Indexed(dictIndex, dictionary)
  {
    dictIndex := map[];
    for k := 0 to |dictionary|
      invariant forall j | 0 <= j < k :: dictionary[j] in dictIndex && dictIndex[dictionary[j]] == j
      invariant forall l | l in dictIndex :: l in dictionary
    {
      dictIndex := dictIndex[dictionary[k] := k];
    }
  }

  // A repeated line becomes its rule, any other line a residual.
  ghost predicate LineRule(line: Bytes, enc: EncodedLine, dictionary: seq<Bytes>) {
    if line in dictionary then |enc| == 1 && enc[0].Rule? && enc[0].index < |dictionary| && dictionary[enc[0].index] == line
    else enc == [Literal(line)]
  }

  lemma LineRuleLossless(line: Bytes, enc: EncodedLine, dictionary: seq<Bytes>)
    requires LineRule(line, enc, dictionary)
    ensures InDictionary(dictionary, enc) && LineBytes(dictionary, enc) == line
  {
    hide LineBytes;
    NoBytes(dictionary);
    LineBytesSnoc(dictionary, [], enc[0]);
    assert [] + [enc[0]] == enc;
    assert [] + line == line;
  }

  ghost predicate Family(lines: seq<Bytes>, enc: seq<EncodedLine>, dictionary: seq<Bytes>) {
    |enc| == |lines| && forall l | 0 <= l < |lines| :: LineRule(lines[l], enc[l], dictionary)
  }

  method EncodeFamily(lines: seq<Bytes>, dictionary: seq<Bytes>, dictIndex: map<Bytes, nat>) returns (enc: seq<EncodedLine>)
    requires Indexed(dictIndex, dictionary)
    ensures Family(lines, enc, dictionary)
  {
    enc := [];
    for l := 0 to |lines|
      invariant |enc| == l && forall m | 0 <= m < l :: LineRule(lines[m], enc[m], dictionary)
    {
      var line := lines[l];
      if line in dictIndex {
        enc := enc + [[Rule(dictIndex[line])]];
      } else {
        enc := enc + [[Literal(line)]];
      }
    }
  }

  function Finished(env: Env, mode: Mode, files: seq<Bytes>, dictionary: seq<Bytes>, encoded: seq<seq<EncodedLine>>): Candidate {
    var pack := env.serialize(mode, files, dictionary, encoded);
    Candidate(mode, files, dictionary, encoded, pack, |pack|, false)
  }

  /** build_line_family_candidate. */
  method BuildLineFamily(env: Env, files: seq<Bytes>) returns (c: Candidate)
    ensures c == Finished(env, G1G2LineFamily, files, c.dictionary, c.encoded)
    ensures Distinct(c.dictionary) && forall l :: l in c.dictionary <==> Repeated(l, files)
    ensures Sorted(c.dictionary, Order(l => multiset(AllLines(files))[l], env.digest))
    ensures |c.encoded| == |files|
    ensures forall f | 0 <= f < |files| :: Family(SplitLinesExact(files[f]), c.encoded[f], c.dictionary)
    ensures Lossless(c)
  {
    hide AllLines, SplitLinesExact, Order, Family, Repeated, Lossless;
    var dictionary := RepeatedDictionary(env.digest, files);
    var dictIndex := IndexDictionary(dictionary);
    var encoded: seq<seq<EncodedLine>> := [];
    for f := 0 to |files|
      invariant |encoded| == f
      invariant forall g | 0 <= g < f :: Family(SplitLinesExact(files[g]), encoded[g], dictionary)
    {
      var enc := EncodeFamily(SplitLinesExact(files[f]), dictionary, dictIndex);
      encoded := encoded + [enc];
    }
    c := Finished(env, G1G2LineFamily, files, dictionary, encoded);
    FamilyLossless(c);
  }

  lemma FamilyLossless(c: Candidate)
    requires |c.encoded| == |c.files|
    requires forall f | 0 <= f < |c.files| :: Family(SplitLinesExact(c.files[f]), c.encoded[f], c.dictionary)
    ensures Lossless(c)
  {
    hide SplitLinesExact, LineRule, InDictionary, LineBytes;
    forall f, l | 0 <= f < |c.files| && 0 <= l < |c.encoded[f]|
      ensures InDictionary(c.dictionary, c.encoded[f][l])
      ensures LineBytes(c.dictionary, c.encoded[f][l]) == SplitLinesExact(c.files[f])[l]
    {
      assert Family(SplitLinesExact(c.files[f]), c.encoded[f], c.dictionary);
      LineRuleLossless(SplitLinesExact(c.files[f])[l], c.encoded[f][l], c.dictionary);
    }
  }

  // The lines worth a rule, most repeated first.
  method RepeatedDictionary(digest: Bytes -> Bytes, files: seq<Bytes>) returns (dictionary: seq<Bytes>)
    ensures Distinct(dictionary) && forall l :: l in dictionary <==> Repeated(l, files)
    ensures Sorted(dictionary, Order(l => multiset(AllLines(files))[l], digest))
  {
    hide AllLines, Order, Repeated, Counts;
    var counts := CountLines(files);
    var repeated := set l | l in counts && counts[l] >= 2 && |l| >= 4;
    var order := Order(l => if l in counts then counts[l] else 0, digest);
    var raw := Enumerate(repeated);
    dictionary := Sort(raw, order);
    OrderIsTotal(l => if l in counts then counts[l] else 0, digest);
    SortSorts(raw, order);
    SortDistinct(raw, order);
    RepeatedLines(counts, files);
    assert forall k | 0 <= k < |dictionary| :: dictionary[k] in raw;
    SameOrder(counts, files, digest, dictionary);
  }

  lemma RepeatedLines(counts: map<Bytes, nat>, files: seq<Bytes>)
    requires Counts(counts, AllLines(files))
    ensures forall l :: (l in counts && counts[l] >= 2 && |l| >= 4) <==> Repeated(l, files)
  {
    hide AllLines;
    var lines := AllLines(files);
    forall l ensures l in lines <==> multiset(lines)[l] > 0 {
      assert l in lines <==> l in multiset(lines);
    }
  }

  // The counting dictionary and the true counts order the lines alike.
  lemma SameOrder(counts: map<Bytes, nat>, files: seq<Bytes>, digest: Bytes -> Bytes, dictionary: seq<Bytes>)
    requires Counts(counts, AllLines(files))
    requires forall k | 0 <= k < |dictionary| :: dictionary[k] in counts
    requires Sorted(dictionary, Order(l => if l in counts then counts[l] else 0, digest))
    ensures Sorted(dictionary, Order(l => multiset(AllLines(files))[l], digest))
  {
    hide AllLines, LexLe;
    var order := Order(l => if l in counts then counts[l] else 0, digest);
    forall i, j | 0 <= i < j < |dictionary|
      ensures Order(l => multiset(AllLines(files))[l], digest)(dictionary[i], dictionary[j])
    {
      assert order(dictionary[i], dictionary[j]);
    }
  }

  // ----- tokens -----

  ghost predicate TokenizedLines(enc: seq<EncodedLine>, lines: seq<Bytes>, dictionary: seq<Bytes>)
    requires Usable(dictionary)
  {
    |enc| == |lines| && forall l | 0 <= l < |lines| :: Tokenized(enc[l], lines[l], dictionary)
  }

  method TokenizeLines(lines: seq<Bytes>, dictionary: seq<Bytes>, dictIndex: map<Bytes, nat>) returns (enc: seq<EncodedLine>)
    requires Usable(dictionary) && Indexed(dictIndex, dictionary)
    ensures TokenizedLines(enc, lines, dictionary)
  {
    hide Tokenized;
    enc := [];
    for l := 0 to |lines|
      invariant |enc| == l && forall m | 0 <= m < l :: Tokenized(enc[m], lines[m], dictionary)
    {
      var pieces := EncodeLine(lines[l], dictionary, dictIndex);
      enc := enc + [pieces];
    }
  }

  /** build_token_dictionary_candidate, from the chosen tokens. */
  method BuildTokenDictionary(env: Env, files: seq<Bytes>, tokens: seq<Bytes>) returns (c: Candidate)
    requires Usable(tokens)
    ensures c == Finished(env, DictSmallTokenPack, files, c.dictionary, c.encoded)
    ensures Usable(c.dictionary) && LongestFirst(c.dictionary) && multiset(c.dictionary) == multiset(tokens)
    ensures |c.encoded| == |files|
    ensures forall f | 0 <= f < |files| :: TokenizedLines(c.encoded[f], SplitLinesExact(files[f]), c.dictionary)
    ensures Lossless(c)
  {
    hide SplitLinesExact, Tokenized, InDictionary, LineBytes, Order;
    var order := Order(t => |t|, env.digest);
    var dictionary := Sort(tokens, order);
    SortedTokens(tokens, env.digest);
    var dictIndex := IndexDictionary(dictionary);
    var encoded: seq<seq<EncodedLine>> := [];
    for f := 0 to |files|
      invariant |encoded| == f
      invariant forall g | 0 <= g < f :: TokenizedLines(encoded[g], SplitLinesExact(files[g]), dictionary)
    {
      var enc := TokenizeLines(SplitLinesExact(files[f]), dictionary, dictIndex);
      encoded := encoded + [enc];
    }
    c := Finished(env, DictSmallTokenPack, files, dictionary, encoded);
    forall f, l | 0 <= f < |files| && 0 <= l < |encoded[f]|
      ensures InDictionary(dictionary, encoded[f][l]) && LineBytes(dictionary, encoded[f][l]) == SplitLinesExact(files[f])[l]
    {
      TokenizedLossless(encoded[f][l], SplitLinesExact(files[f])[l], dictionary);
    }
  }

  lemma SortedTokens(tokens: seq<Bytes>, digest: Bytes -> Bytes)
    requires Usable(tokens)
    ensures var dictionary := Sort(tokens, Order(t => |t|, digest));
      Usable(dictionary) && LongestFirst(dictionary) && multiset(dictionary) == multiset(tokens)
  {
    hide LexLe;
    var order := Order(t => |t|, digest);
    var dictionary := Sort(tokens, order);
    OrderIsTotal(t => |t|, digest);
    SortSorts(tokens, order);
    SortDistinct(tokens, order);
    SortPermutes(tokens, order);
    forall k | 0 <= k < |dictionary| ensures |dictionary[k]| > 0 {
      assert dictionary[k] in tokens;
    }
    forall j, k | 0 <= j < k < |dictionary| ensures |dictionary[k]| <= |dictionary[j]| {
      assert order(dictionary[j], dictionary[k]);
    }
  }

  // ----- raw pass-through -----

  function RawSize(files: seq<Bytes>): nat {
    if |files| == 0 then 0 else RawSize(files[..|files| - 1]) + |files[|files| - 1]|
  }

  /** The raw size is the number of bytes in the files. */
  lemma {:induction false} RawSizeIs(files: seq<Bytes>)
    ensures RawSize(files) == |Concat(files)|
  {
    if |files| > 0 { RawSizeIs(files[..|files| - 1]); }
  }

  /** build_raw_small_candidate: an index of line offsets beside the untouched files. */
  method BuildRawSmall(env: Env, files: seq<Bytes>) returns (c: Candidate)
    ensures c.mode == RawSmallIndex && c.files == files && c.payloadExternal && Lossless(c)
    ensures c.pack == env.serialize(RawSmallIndex, files, [], c.encoded) && c.selectedTotal == RawSize(files) + |c.pack|
    ensures forall f | 0 <= f < |files| :: OffsetsOf(c.encoded[f], SplitLinesExact(files[f]))
  {
    hide SplitLinesExact, OffsetsOf;
    var encoded: seq<seq<EncodedLine>> := [];
    for f := 0 to |files|
      invariant |encoded| == f && forall g | 0 <= g < f :: OffsetsOf(encoded[g], SplitLinesExact(files[g]))
    {
      var enc := EncodeOffsets(SplitLinesExact(files[f]));
      encoded := encoded + [enc];
    }
    var pack := env.serialize(RawSmallIndex, files, [], encoded);
    c := Candidate(RawSmallIndex, files, [], encoded, pack, RawSize(files) + |pack|, true);
  }

  // Each line is referenced by where it starts in its file and how long it is.
  ghost predicate OffsetsOf(enc: seq<EncodedLine>, lines: seq<Bytes>) {
    && |enc| == |lines|
    && forall l | 0 <= l < |lines| :: enc[l] == [Literal(ToLE(|Concat(lines[..l])|, 8) + ToLE(|lines[l]|, 4))]
  }

  /** Such a reference is twelve bytes: the offset in eight, the length in four, least significant byte first. */
  lemma OffsetsLayout(enc: seq<EncodedLine>, lines: seq<Bytes>, l: nat)
    requires OffsetsOf(enc, lines) && l < |lines|
    ensures |enc[l]| == 1 && enc[l][0].Literal?
    ensures var b := enc[l][0].bytes;
      |b| == 12 && Spells(b, 0, 8, |Concat(lines[..l])|) && Spells(b, 8, 4, |lines[l]|)
  {
    hide Concat, ToLE, Spells, From;
    var start, size := |Concat(lines[..l])|, |lines[l]|;
    var b := enc[l][0].bytes;
    assert b == ToLE(start, 8) + (ToLE(size, 4) + []);
    Whole(b);
    NextInt(b, 0, start, 8, ToLE(size, 4) + []);
    NextInt(b, 8, size, 4, []);
  }

  method EncodeOffsets(lines: seq<Bytes>) returns (enc: seq<EncodedLine>)
    ensures OffsetsOf(enc, lines)
  {
    hide Concat, ToLE;
    enc := [];
    var offset := 0;
    assert lines[..0] == [];
    assert |Concat([])| == 0 by { ConcatNothing(); }
    for l := 0 to |lines|
      invariant |enc| == l && offset == |Concat(lines[..l])|
      invariant forall m | 0 <= m < l :: enc[m] == [Literal(ToLE(|Concat(lines[..m])|, 8) + ToLE(|lines[m]|, 4))]
    {
      enc := enc + [[Literal(ToLE(offset, 8) + ToLE(|lines[l]|, 4))]];
      ConcatSnoc(lines[..l], lines[l]);
      assert lines[..l + 1] == lines[..l] + [lines[l]];
      offset := offset + |lines[l]|;
    }
  }

  // ----- the choice -----

  function Rank(m: Mode): nat {
    match m
    case DictSmallTokenPack => 0
    case G1G2LineFamily => 1
    case RawSmallIndex => 2
  }

  predicate SmallerPack(a: Candidate, b: Candidate) {
    |a.pack| < |b.pack| || (|a.pack| == |b.pack| && Rank(a.mode) < Rank(b.mode))
  }

  predicate SmallerTotal(a: Candidate, b: Candidate) {
    a.selectedTotal < b.selectedTotal || (a.selectedTotal == b.selectedTotal && Rank(a.mode) < Rank(b.mode))
  }

  // min(): the first candidate that none is strictly below.
  function Least(cs: seq<Candidate>, less: (Candidate, Candidate) -> bool): Candidate
    requires |cs| > 0
  {
    if |cs| == 1 then cs[0]
    else
      var best := Least(cs[..|cs| - 1], less);
      if less(cs[|cs| - 1], best) then cs[|cs| - 1] else best
  }

  function Keep(cs: seq<Candidate>, p: Candidate -> bool): seq<Candidate> {
    if |cs| == 0 then [] else Keep(cs[..|cs| - 1], p) + if p(cs[|cs| - 1]) then [cs[|cs| - 1]] else []
  }

  lemma {:induction false} KeepIff(cs: seq<Candidate>, p: Candidate -> bool)
    ensures forall c :: c in Keep(cs, p) <==> c in cs && p(c)
  {
    if |cs| > 0 {
      KeepIff(cs[..|cs| - 1], p);
      assert cs == cs[..|cs| - 1] + [cs[|cs| - 1]];
    }
  }

  // Position i holds the first of the least of those that pass.
  ghost predicate FirstLeast(cs: seq<Candidate>, p: Candidate -> bool, less: (Candidate, Candidate) -> bool, i: nat) {
    && i < |cs| && p(cs[i])
    && (forall j | 0 <= j < i && p(cs[j]) :: less(cs[i], cs[j]))
    && (forall j | i <= j < |cs| && p(cs[j]) :: !less(cs[j], cs[i]))
  }

  ghost predicate WeakOrder(less: (Candidate, Candidate) -> bool) {
    && (forall a, b | less(a, b) :: !less(b, a))
    && (forall a, b, c | less(a, b) && !less(c, b) :: less(a, c))
  }

  lemma {:induction false} KeptLeast(cs: seq<Candidate>, p: Candidate -> bool, less: (Candidate, Candidate) -> bool) returns (i: nat)
    requires |Keep(cs, p)| > 0 && WeakOrder(less)
    ensures FirstLeast(cs, p, less, i) && Least(Keep(cs, p), less) == cs[i]
    decreases |cs|
  {
    var n := |cs| - 1;
    var init := cs[..n];
    if !p(cs[n]) {
      assert Keep(cs, p) == Keep(init, p);
      i := KeptLeast(init, p, less);
    } else if |Keep(init, p)| == 0 {
      KeepIff(init, p);
      i := n;
      forall j | 0 <= j < n ensures !p(cs[j]) { assert init[j] in init; }
      assert Keep(cs, p) == [cs[n]];
    } else {
      i := KeptLeast(init, p, less);
      assert Keep(cs, p)[..|Keep(init, p)|] == Keep(init, p);
      if less(cs[n], init[i]) {
        forall j | 0 <= j < n && p(cs[j]) ensures less(cs[n], cs[j]) {
          assert init[j] == cs[j];
          assert !less(cs[j], init[i]);
        }
        i := n;
      }
    }
  }

  lemma {:induction false} KeepAll(cs: seq<Candidate>, p: Candidate -> bool)
    requires forall c :: p(c)
    ensures Keep(cs, p) == cs
  {
    if |cs| > 0 {
      KeepAll(cs[..|cs| - 1], p);
    }
  }

  lemma {:induction false} KeptFirst(cs: seq<Candidate>, p: Candidate -> bool) returns (i: nat)
    requires |Keep(cs, p)| > 0
    ensures i < |cs| && p(cs[i]) && Keep(cs, p)[0] == cs[i] && forall j | 0 <= j < i :: !p(cs[j])
    decreases |cs|
  {
    var n := |cs| - 1;
    if |Keep(cs[..n], p)| > 0 {
      i := KeptFirst(cs[..n], p);
    } else {
      KeepIff(cs[..n], p);
      i := n;
      forall j | 0 <= j < n ensures !p(cs[j]) { assert cs[..n][j] in cs[..n]; }
    }
  }

  function Beats(originalBytes: nat): Candidate -> bool {
    (c: Candidate) => !c.payloadExternal && |c.pack| < originalBytes
  }

  function IsRaw(): Candidate -> bool {
    (c: Candidate) => c.mode == RawSmallIndex
  }

  /** select_candidate. */
  function Select(cs: seq<Candidate>, originalBytes: nat): Option<Candidate> {
    var beating := Keep(cs, Beats(originalBytes));
    var raw := Keep(cs, IsRaw());
    if |beating| > 0 then Some(Least(beating, SmallerPack))
    else if |raw| > 0 then Some(raw[0])
    else if |cs| > 0 then Some(Least(cs, SmallerTotal))
    else None
  }

  function ModeName(m: Mode): string {
    match m
    case DictSmallTokenPack => "DICT_SMALL_TOKEN_PACK"
    case G1G2LineFamily => "G1G2_LINE_FAMILY"
    case RawSmallIndex => "RAW_SMALL_INDEX"
  }

  /** Modes rank as their names compare; the first letters decide it. */
  lemma RankIsName(a: Mode, b: Mode)
    ensures Rank(a) < Rank(b) <==> ModeName(a)[0] < ModeName(b)[0]
    ensures a == b <==> ModeName(a)[0] == ModeName(b)[0]
  {
  }

  // (size, mode) of r comes before that of c.
  ghost predicate Earlier(size: nat, mode: Mode, size': nat, mode': Mode) {
    size < size' || (size == size' && ModeName(mode)[0] < ModeName(mode')[0])
  }

  lemma OrdersAre(a: Candidate, b: Candidate)
    ensures SmallerPack(a, b) <==> Earlier(|a.pack|, a.mode, |b.pack|, b.mode)
    ensures SmallerTotal(a, b) <==> Earlier(a.selectedTotal, a.mode, b.selectedTotal, b.mode)
  {
    RankIsName(a.mode, b.mode);
    hide Rank, ModeName;
  }

  lemma OrdersAreWeak()
    ensures WeakOrder(SmallerPack) && WeakOrder(SmallerTotal)
  {
  }

  // Position i holds the first of the self-contained packs strictly below the raw size that are least by pack size and
  // mode name, if there are any; otherwise the first raw pass-through, if there is one; otherwise the first of those
  // least by total size and mode name.
  ghost predicate Chosen(cs: seq<Candidate>, originalBytes: nat, i: nat)
    requires i < |cs|
  {
    var r := cs[i];
    if exists c :: c in cs && !c.payloadExternal && |c.pack| < originalBytes then
      && !r.payloadExternal && |r.pack| < originalBytes
      && forall j | 0 <= j < |cs| && !cs[j].payloadExternal && |cs[j].pack| < originalBytes ::
           if j < i then Earlier(|r.pack|, r.mode, |cs[j].pack|, cs[j].mode)
           else !Earlier(|cs[j].pack|, cs[j].mode, |r.pack|, r.mode)
    else if exists c :: c in cs && c.mode == RawSmallIndex then
      r.mode == RawSmallIndex && forall j | 0 <= j < i :: cs[j].mode != RawSmallIndex
    else
      forall j | 0 <= j < |cs| ::
        if j < i then Earlier(r.selectedTotal, r.mode, cs[j].selectedTotal, cs[j].mode)
        else !Earlier(cs[j].selectedTotal, cs[j].mode, r.selectedTotal, r.mode)
  }

  /** Something is chosen exactly when there are candidates, and it is that one. */
  lemma SelectChooses(cs: seq<Candidate>, originalBytes: nat)
    ensures Select(cs, originalBytes).Some? <==> |cs| > 0
    ensures |cs| > 0 ==> exists i :: 0 <= i < |cs| && Select(cs, originalBytes) == Some(cs[i]) && Chosen(cs, originalBytes, i)
  {
    hide Rank, Least, Earlier, SmallerPack, SmallerTotal, FirstLeast, Chosen, Keep;
    OrdersAreWeak();
    NothingKept(cs, Beats(originalBytes));
    NothingKept(cs, IsRaw());
    if |Keep(cs, Beats(originalBytes))| > 0 {
      var i := KeptLeast(cs, Beats(originalBytes), SmallerPack);
      BestPack(cs, originalBytes, i);
    } else if |Keep(cs, IsRaw())| > 0 {
      var i := KeptFirst(cs, IsRaw());
      FirstRaw(cs, originalBytes, i);
    } else if |cs| > 0 {
      KeepAll(cs, c => true);
      var i := KeptLeast(cs, c => true, SmallerTotal);
      BestTotal(cs, originalBytes, c => true, i);
    }
  }

  lemma NothingKept(cs: seq<Candidate>, p: Candidate -> bool)
    ensures |Keep(cs, p)| == 0 <==> forall c | c in cs :: !p(c)
    ensures |Keep(cs, p)| > 0 ==> |cs| > 0
  {
    KeepIff(cs, p);
    if |Keep(cs, p)| > 0 { assert Keep(cs, p)[0] in Keep(cs, p); }
  }

  lemma FirstRaw(cs: seq<Candidate>, originalBytes: nat, i: nat)
    requires forall c | c in cs :: !Beats(originalBytes)(c)
    requires i < |cs| && IsRaw()(cs[i]) && forall j | 0 <= j < i :: !IsRaw()(cs[j])
    ensures Chosen(cs, originalBytes, i)
  {
    hide Earlier;
    forall c | c in cs ensures !(!c.payloadExternal && |c.pack| < originalBytes) {
      assert !Beats(originalBytes)(c);
    }
    assert cs[i] in cs;
  }

  lemma BestPack(cs: seq<Candidate>, originalBytes: nat, i: nat)
    requires FirstLeast(cs, Beats(originalBytes), SmallerPack, i)
    ensures i < |cs| && Chosen(cs, originalBytes, i)
  {
    assert cs[i] in cs;
    hide Earlier, SmallerPack, SmallerTotal;
    forall j | 0 <= j < |cs| && !cs[j].payloadExternal && |cs[j].pack| < originalBytes
      ensures if j < i then Earlier(|cs[i].pack|, cs[i].mode, |cs[j].pack|, cs[j].mode)
              else !Earlier(|cs[j].pack|, cs[j].mode, |cs[i].pack|, cs[i].mode)
    {
      assert Beats(originalBytes)(cs[j]);
      OrdersAre(cs[i], cs[j]);
      OrdersAre(cs[j], cs[i]);
    }
  }

  lemma BestTotal(cs: seq<Candidate>, originalBytes: nat, all: Candidate -> bool, i: nat)
    requires FirstLeast(cs, all, SmallerTotal, i) && forall c :: all(c)
    requires forall c | c in cs :: !Beats(originalBytes)(c) && !IsRaw()(c)
    ensures i < |cs| && Chosen(cs, originalBytes, i)
  {
    hide Earlier, SmallerPack, SmallerTotal;
    forall c | c in cs ensures !(!c.payloadExternal && |c.pack| < originalBytes) && c.mode != RawSmallIndex {
      assert !Beats(originalBytes)(c) && !IsRaw()(c);
    }
    forall j | 0 <= j < |cs|
      ensures if j < i then Earlier(cs[i].selectedTotal, cs[i].mode, cs[j].selectedTotal, cs[j].mode)
              else !Earlier(cs[j].selectedTotal, cs[j].mode, cs[i].selectedTotal, cs[i].mode)
    {
      OrdersAre(cs[i], cs[j]);
      OrdersAre(cs[j], cs[i]);
    }
  }

  /** With the raw candidate on offer, a self-contained choice is always strictly smaller than the
      raw bytes: packing never expands. */
  lemma NeverExpands(cs: seq<Candidate>, originalBytes: nat)
    requires exists c :: c in cs && IsRaw()(c)
    requires forall c | c in cs && IsRaw()(c) :: c.payloadExternal
    ensures var r := Select(cs, originalBytes);
      r.Some? && (!r.value.payloadExternal ==> |r.value.pack| < originalBytes)
  {
    hide Rank, Least;
    SelectChooses(cs, originalBytes);
  }
}
