/** The adaptive packer of g1g2_small_adaptive_pack.py: greedy dictionary tokens, repeated-line
    rules, raw pass-through, and the choice between them. */
module AdaptivePack {
  import opened Common
  import opened Sorting

  datatype Piece = Rule(index: nat) | Literal(bytes: Bytes)

  type EncodedLine = seq<Piece>

  // In the order their names compare.
  datatype Mode = DictSmallTokenPack | G1G2LineFamily | RawSmallIndex

  datatype Candidate = Candidate(
    mode: Mode, files: seq<Bytes>, dictionary: seq<Bytes>, encoded: seq<seq<EncodedLine>>,
    pack: Bytes, selectedTotal: nat, payloadExternal: bool)

  // ----- lines -----

  // Length of the first line with its terminator: \n, \r\n or \r.
  function FirstLine(data: Bytes): (n: nat)
    requires |data| > 0
    ensures 0 < n <= |data|
  {
    if data[0] == 10 then 1
    else if data[0] == 13 then (if |data| > 1 && data[1] == 10 then 2 else 1)
    else if |data| == 1 then 1
    else 1 + FirstLine(data[1..])
  }

  function SplitLines(data: Bytes): seq<Bytes> {
    if |data| == 0 then []
    else [data[..FirstLine(data)]] + SplitLines(data[FirstLine(data)..])
  }

  function SplitLinesExact(data: Bytes): seq<Bytes> {
    if |data| == 0 then [[]] else SplitLines(data)
  }

  lemma {:induction false} SplitLinesLossless(data: Bytes)
    ensures Concat(SplitLines(data)) == data
  {
    if |data| > 0 {
      var n := FirstLine(data);
      SplitLinesLossless(data[n..]);
      hide Concat;
      ConcatCons(data[..n], SplitLines(data[n..]));
      assert data == data[..n] + data[n..];
    }
  }

  /** Splitting into lines loses no byte. */
  lemma LinesAreData(data: Bytes)
    ensures Concat(SplitLinesExact(data)) == data
  {
    SplitLinesLossless(data);
    var none: seq<Bytes> := [];
    ConcatSnoc(none, []);
    assert none + [[]] == [[]];
  }

  // ----- rebuilding -----

  predicate InDictionary(dictionary: seq<Bytes>, line: EncodedLine) {
    forall i | 0 <= i < |line| :: line[i].Rule? ==> line[i].index < |dictionary|
  }

  function PieceBytes(dictionary: seq<Bytes>, p: Piece): Bytes {
    match p
    case Rule(k) => if k < |dictionary| then dictionary[k] else []
    case Literal(b) => b
  }

  function LineBytes(dictionary: seq<Bytes>, line: EncodedLine): Bytes {
    if |line| == 0 then []
    else LineBytes(dictionary, line[..|line| - 1]) + PieceBytes(dictionary, line[|line| - 1])
  }

  lemma LineBytesSnoc(dictionary: seq<Bytes>, line: EncodedLine, p: Piece)
    ensures LineBytes(dictionary, line + [p]) == LineBytes(dictionary, line) + PieceBytes(dictionary, p)
  {
    assert (line + [p])[..|line|] == line;
  }

  function FileBytes(dictionary: seq<Bytes>, lines: seq<EncodedLine>): Bytes {
    if |lines| == 0 then [] else FileBytes(dictionary, lines[..|lines| - 1]) + LineBytes(dictionary, lines[|lines| - 1])
  }

  lemma FileBytesSnoc(dictionary: seq<Bytes>, lines: seq<EncodedLine>, line: EncodedLine)
    ensures FileBytes(dictionary, lines + [line]) == FileBytes(dictionary, lines) + LineBytes(dictionary, line)
  {
    assert (lines + [line])[..|lines|] == lines;
  }

  // A candidate's encoding of each line stands for that very line.
  ghost predicate EncodesLines(dictionary: seq<Bytes>, enc: seq<EncodedLine>, lines: seq<Bytes>) {
    && |enc| == |lines|
    && forall l | 0 <= l < |lines| :: InDictionary(dictionary, enc[l]) && LineBytes(dictionary, enc[l]) == lines[l]
  }

  ghost predicate Lossless(c: Candidate) {
    && |c.encoded| == |c.files|
    && (c.mode.RawSmallIndex? ||
        forall f | 0 <= f < |c.files| :: EncodesLines(c.dictionary, c.encoded[f], SplitLinesExact(c.files[f])))
  }

  lemma {:induction false} EncodedFileBytes(dictionary: seq<Bytes>, enc: seq<EncodedLine>, lines: seq<Bytes>)
    requires EncodesLines(dictionary, enc, lines)
    ensures FileBytes(dictionary, enc) == Concat(lines)
    decreases |enc|
  {
    hide LineBytes, InDictionary;
    if |enc| > 0 {
      var e, l := enc[..|enc| - 1], lines[..|lines| - 1];
      EncodedFileBytes(dictionary, e, l);
    }
  }

  datatype IndexError = IndexError

  /** rebuild_file: fails only on a rule outside the dictionary. */
  method RebuildFile(c: Candidate, fileIndex: nat) returns (r: Result<Bytes, IndexError>)
    requires fileIndex < |c.files| == |c.encoded|
    ensures c.mode.RawSmallIndex? ==> r == Ok(c.files[fileIndex])
    ensures !c.mode.RawSmallIndex? ==>
      (r.Ok? <==> forall l | 0 <= l < |c.encoded[fileIndex]| :: InDictionary(c.dictionary, c.encoded[fileIndex][l]))
    ensures !c.mode.RawSmallIndex? && r.Ok? ==> r.value == FileBytes(c.dictionary, c.encoded[fileIndex])
  {
    hide LineBytes, FileBytes, PieceBytes;
    if c.mode.RawSmallIndex? {
      return Ok(c.files[fileIndex]);
    }
    var out: Bytes := [];
    var lines := c.encoded[fileIndex];
    NoBytes(c.dictionary);
    assert lines[..0] == [];
    for l := 0 to |lines|
      invariant forall m | 0 <= m < l :: InDictionary(c.dictionary, lines[m])
      invariant out == FileBytes(c.dictionary, lines[..l])
    {
      var line := lines[l];
      ghost var before := out;
      assert line[..0] == [] && before + [] == before;
      for p := 0 to |line|
        invariant forall q | 0 <= q < p :: line[q].Rule? ==> line[q].index < |c.dictionary|
        invariant out == before + LineBytes(c.dictionary, line[..p])
      {
        if line[p].Rule? && line[p].index >= |c.dictionary| {
          return Err(IndexError);
        }
        LineBytesSnoc(c.dictionary, line[..p], line[p]);
        assert line[..p + 1] == line[..p] + [line[p]];
        PieceIs(c.dictionary, line[p]);
        match line[p]
        case Rule(k) => out := out + c.dictionary[k];
        case Literal(b) => out := out + b;
      }
      assert line[..|line|] == line;
      FileBytesSnoc(c.dictionary, lines[..l], line);
      assert lines[..l + 1] == lines[..l] + [line];
    }
    assert lines[..|lines|] == lines;
    return Ok(out);
  }

  lemma PieceIs(dictionary: seq<Bytes>, p: Piece)
    ensures PieceBytes(dictionary, p) == match p case Rule(k) => (if k < |dictionary| then dictionary[k] else []) case Literal(b) => b
  {
  }

  lemma NoBytes(dictionary: seq<Bytes>)
    ensures LineBytes(dictionary, []) == [] && FileBytes(dictionary, []) == []
  {
  }

  /** What the file of any lossless candidate rebuilds to is the original. */
  method RebuildLossless(c: Candidate, fileIndex: nat) returns (data: Bytes)
    requires Lossless(c) && fileIndex < |c.files|
    ensures data == c.files[fileIndex]
  {
    hide FileBytes, LineBytes, SplitLinesExact;
    var r := RebuildFile(c, fileIndex);
    if !c.mode.RawSmallIndex? {
      EncodedFileBytes(c.dictionary, c.encoded[fileIndex], SplitLinesExact(c.files[fileIndex]));
      LinesAreData(c.files[fileIndex]);
    }
    data := r.value;
  }

  // ----- greedy tokens -----

  predicate StartsWith(line: Bytes, at: nat, tok: Bytes) {
    at + |tok| <= |line| && line[at..at + |tok|] == tok
  }

  /** A token stands at a position when the line goes on with it there, up to the very end. */
  lemma StartsWithIff(line: Bytes, at: nat, tok: Bytes)
    requires at <= |line|
    ensures StartsWith(line, at, tok) <==> exists rest :: line == line[..at] + (tok + rest)
  {
    if StartsWith(line, at, tok) {
      assert line == line[..at] + (tok + line[at + |tok|..]);
    }
    if rest :| line == line[..at] + (tok + rest) {
      assert line[at..] == tok + rest;
      assert line[at..][..|tok|] == line[at..at + |tok|];
    }
  }

  // One step of the tokenizer: a dictionary token, or a byte that none matches.
  datatype Step = Token(index: nat) | Byte(b: byte)

  ghost predicate Usable(dictionary: seq<Bytes>) {
    Distinct(dictionary) && forall k | 0 <= k < |dictionary| :: |dictionary[k]| > 0
  }

  // The first token of the dictionary that matches at a position.
  function FirstMatch(line: Bytes, at: nat, dictionary: seq<Bytes>, k: nat): (r: Option<nat>)
    requires k <= |dictionary|
    ensures r.Some? ==> k <= r.value < |dictionary| && StartsWith(line, at, dictionary[r.value])
    ensures r.Some? ==> forall j | k <= j < r.value :: !StartsWith(line, at, dictionary[j])
    ensures r.None? ==> forall j | k <= j < |dictionary| :: !StartsWith(line, at, dictionary[j])
    decreases |dictionary| - k
  {
    if k == |dictionary| then None
    else if StartsWith(line, at, dictionary[k]) then Some(k)
    else FirstMatch(line, at, dictionary, k + 1)
  }

  // The steps from a position to the end of the line.
  function Steps(line: Bytes, at: nat, dictionary: seq<Bytes>): seq<Step>
    requires at <= |line|
    requires forall k | 0 <= k < |dictionary| :: |dictionary[k]| > 0
    decreases |line| - at
  {
    if at == |line| then []
    else match FirstMatch(line, at, dictionary, 0)
      case Some(k) => [Token(k)] + Steps(line, at + |dictionary[k]|, dictionary)
      case None => [Byte(line[at])] + Steps(line, at + 1, dictionary)
  }

  function Bytewise(b: Bytes): seq<Step> {
    seq(|b|, i requires 0 <= i < |b| => Byte(b[i]))
  }

  function StepsOf(p: Piece): seq<Step> {
    match p
    case Rule(k) => [Token(k)]
    case Literal(b) => Bytewise(b)
  }

  // The steps a piece list stands for.
  function Flat(pieces: seq<Piece>): seq<Step> {
    if |pieces| == 0 then [] else Flat(pieces[..|pieces| - 1]) + StepsOf(pieces[|pieces| - 1])
  }

  lemma FlatSnoc(pieces: seq<Piece>, p: Piece)
    ensures Flat(pieces + [p]) == Flat(pieces) + StepsOf(p)
  {
    assert (pieces + [p])[..|pieces|] == pieces;
  }

  // Literals are maximal runs: none is empty and no two are neighbours.
  ghost predicate Runs(pieces: seq<Piece>) {
    && (forall i | 0 <= i < |pieces| && pieces[i].Literal? :: |pieces[i].bytes| > 0)
    && forall i | 0 < i < |pieces| :: pieces[i - 1].Rule? || pieces[i].Rule?
  }

  // What the tokenizer must produce; it leaves no freedom.
  ghost predicate Tokenized(pieces: seq<Piece>, line: Bytes, dictionary: seq<Bytes>)
    requires forall k | 0 <= k < |dictionary| :: |dictionary[k]| > 0
  {
    if |line| == 0 then pieces == [Literal([])] else Runs(pieces) && Flat(pieces) == Steps(line, 0, dictionary)
  }

  function StepBytes(dictionary: seq<Bytes>, s: Step): Bytes {
    match s
    case Token(k) => if k < |dictionary| then dictionary[k] else []
    case Byte(b) => [b]
  }

  function AllStepBytes(dictionary: seq<Bytes>, steps: seq<Step>): Bytes {
    if |steps| == 0 then [] else StepBytes(dictionary, steps[0]) + AllStepBytes(dictionary, steps[1..])
  }

  lemma {:induction false} AllStepBytesAppend(dictionary: seq<Bytes>, a: seq<Step>, b: seq<Step>)
    ensures AllStepBytes(dictionary, a + b) == AllStepBytes(dictionary, a) + AllStepBytes(dictionary, b)
    decreases |a|
  {
    if |a| == 0 {
      assert a + b == b;
      assert [] + AllStepBytes(dictionary, b) == AllStepBytes(dictionary, b);
    } else {
      hide AllStepBytes, StepBytes;
      AllStepBytesAppend(dictionary, a[1..], b);
      ConsAppend(a, b);
      AllStepBytesCons(dictionary, a);
      AllStepBytesCons(dictionary, a + b);
      Associate(StepBytes(dictionary, a[0]), AllStepBytes(dictionary, a[1..]), AllStepBytes(dictionary, b));
    }
  }

  lemma AllStepBytesCons(dictionary: seq<Bytes>, steps: seq<Step>)
    requires |steps| > 0
    ensures AllStepBytes(dictionary, steps) == StepBytes(dictionary, steps[0]) + AllStepBytes(dictionary, steps[1..])
  {
  }

  lemma ConsAppend(a: seq<Step>, b: seq<Step>)
    requires |a| > 0
    ensures (a + b)[0] == a[0] && (a + b)[1..] == a[1..] + b
  {
  }

  lemma {:induction false} BytewiseBytes(dictionary: seq<Bytes>, b: Bytes)
    ensures AllStepBytes(dictionary, Bytewise(b)) == b
    decreases |b|
  {
    if |b| > 0 {
      BytewiseBytes(dictionary, b[1..]);
      assert Bytewise(b)[1..] == Bytewise(b[1..]);
      assert b == [b[0]] + b[1..];
    }
  }

  lemma {:induction false} FlatBytes(dictionary: seq<Bytes>, pieces: seq<Piece>)
    ensures LineBytes(dictionary, pieces) == AllStepBytes(dictionary, Flat(pieces))
    decreases |pieces|
  {
    if |pieces| > 0 {
      var init, p := pieces[..|pieces| - 1], pieces[|pieces| - 1];
      FlatBytes(dictionary, init);
      AllStepBytesAppend(dictionary, Flat(init), StepsOf(p));
      PieceStepBytes(dictionary, p);
    }
  }

  lemma PieceStepBytes(dictionary: seq<Bytes>, p: Piece)
    ensures AllStepBytes(dictionary, StepsOf(p)) == PieceBytes(dictionary, p)
  {
    match p
    case Rule(k) => assert [Token(k)][1..] == [];
    case Literal(b) => BytewiseBytes(dictionary, b);
  }

  ghost predicate LongestFirst(dictionary: seq<Bytes>) {
    forall j, k | 0 <= j < k < |dictionary| :: |dictionary[k]| <= |dictionary[j]|
  }

  // A token that matches here and is as long as any that does, or a byte where none does.
  ghost predicate Right(line: Bytes, here: nat, dictionary: seq<Bytes>, s: Step) {
    match s
    case Token(k) =>
      && k < |dictionary| && StartsWith(line, here, dictionary[k])
      && forall j | 0 <= j < |dictionary| && StartsWith(line, here, dictionary[j]) :: |dictionary[j]| <= |dictionary[k]|
    case Byte(b) =>
      here < |line| && line[here] == b && forall j | 0 <= j < |dictionary| :: !StartsWith(line, here, dictionary[j])
  }

  lemma FirstStep(line: Bytes, at: nat, dictionary: seq<Bytes>)
    requires at < |line| && (forall k | 0 <= k < |dictionary| :: |dictionary[k]| > 0)
    ensures var steps := Steps(line, at, dictionary);
      && |steps| > 0 && 0 < |StepBytes(dictionary, steps[0])| && at + |StepBytes(dictionary, steps[0])| <= |line|
      && line[at..at + |StepBytes(dictionary, steps[0])|] == StepBytes(dictionary, steps[0])
      && steps[1..] == Steps(line, at + |StepBytes(dictionary, steps[0])|, dictionary)
    ensures LongestFirst(dictionary) ==> Right(line, at, dictionary, Steps(line, at, dictionary)[0])
  {
    MatchFits(line, at, dictionary);
    hide StartsWith;
    var m := FirstMatch(line, at, dictionary, 0);
    if m.Some? {
      MatchIs(line, at, dictionary[m.value]);
      Tail(Token(m.value), Steps(line, at + |dictionary[m.value]|, dictionary));
    } else {
      Tail(Byte(line[at]), Steps(line, at + 1, dictionary));
      assert line[at..at + 1] == [line[at]];
    }
  }

  lemma Tail(s: Step, rest: seq<Step>)
    ensures ([s] + rest)[0] == s && ([s] + rest)[1..] == rest
  {
  }

  lemma MatchIs(line: Bytes, at: nat, tok: Bytes)
    requires StartsWith(line, at, tok)
    ensures at + |tok| <= |line| && line[at..at + |tok|] == tok
  {
  }

  lemma {:induction false} StepsLossless(line: Bytes, at: nat, dictionary: seq<Bytes>)
    requires at <= |line| && forall k | 0 <= k < |dictionary| :: |dictionary[k]| > 0
    ensures AllStepBytes(dictionary, Steps(line, at, dictionary)) == line[at..]
    decreases |line| - at
  {
    hide StepBytes, StartsWith;
    if at < |line| {
      FirstStep(line, at, dictionary);
      StepsLossless(line, at + |StepBytes(dictionary, Steps(line, at, dictionary)[0])|, dictionary);
      OneStepLossless(line, at, dictionary, Steps(line, at, dictionary));
    } else {
      assert line[at..] == [];
    }
  }

  lemma OneStepLossless(line: Bytes, at: nat, dictionary: seq<Bytes>, steps: seq<Step>)
    requires |steps| > 0 && at + |StepBytes(dictionary, steps[0])| <= |line|
    requires line[at..at + |StepBytes(dictionary, steps[0])|] == StepBytes(dictionary, steps[0])
    requires AllStepBytes(dictionary, steps[1..]) == line[at + |StepBytes(dictionary, steps[0])|..]
    ensures AllStepBytes(dictionary, steps) == line[at..]
  {
    AllStepBytesCons(dictionary, steps);
    hide AllStepBytes, StepBytes;
    SplitTail(line, at, |StepBytes(dictionary, steps[0])|);
  }

  lemma SplitTail(line: Bytes, at: nat, n: nat)
    requires at + n <= |line|
    ensures line[at..] == line[at..at + n] + line[at + n..]
  {
  }

  /** Tokenizing loses no byte and names only dictionary tokens. */
  lemma TokenizedLossless(pieces: seq<Piece>, line: Bytes, dictionary: seq<Bytes>)
    requires forall k | 0 <= k < |dictionary| :: |dictionary[k]| > 0
    requires Tokenized(pieces, line, dictionary)
    ensures LineBytes(dictionary, pieces) == line && InDictionary(dictionary, pieces)
  {
    hide Steps, Flat, LineBytes, AllStepBytes, Runs;
    if |line| == 0 {
      LineBytesSnoc(dictionary, [], Literal([]));
      NoBytes(dictionary);
      assert [] + [Literal([])] == [Literal([])];
    } else {
      FlatBytes(dictionary, pieces);
      StepsLossless(line, 0, dictionary);
      StepsInDictionary(line, 0, dictionary);
      FlatInDictionary(dictionary, pieces);
    }
  }

  ghost predicate Known(dictionary: seq<Bytes>, steps: seq<Step>) {
    forall i | 0 <= i < |steps| && steps[i].Token? :: steps[i].index < |dictionary|
  }

  lemma {:induction false} StepsInDictionary(line: Bytes, at: nat, dictionary: seq<Bytes>)
    requires at <= |line| && forall k | 0 <= k < |dictionary| :: |dictionary[k]| > 0
    ensures Known(dictionary, Steps(line, at, dictionary))
    decreases |line| - at
  {
    if at < |line| {
      match FirstMatch(line, at, dictionary, 0)
      case Some(k) => StepsInDictionary(line, at + |dictionary[k]|, dictionary);
      case None => StepsInDictionary(line, at + 1, dictionary);
    }
  }

  lemma {:induction false} FlatInDictionary(dictionary: seq<Bytes>, pieces: seq<Piece>)
    requires Known(dictionary, Flat(pieces))
    ensures InDictionary(dictionary, pieces)
    decreases |pieces|
  {
    if |pieces| > 0 {
      var init, p := pieces[..|pieces| - 1], pieces[|pieces| - 1];
      var a, b := Flat(init), StepsOf(p);
      assert Known(dictionary, a) && Known(dictionary, b) by {
        assert forall i | 0 <= i < |a| :: (a + b)[i] == a[i];
        assert forall i | 0 <= i < |b| :: (a + b)[|a| + i] == b[i];
      }
      FlatInDictionary(dictionary, init);
      assert p.Rule? ==> b[0] == Token(p.index);
    }
  }

  // How far a run of steps reaches.
  function Reach(dictionary: seq<Bytes>, steps: seq<Step>): nat {
    |AllStepBytes(dictionary, steps)|
  }

  /** Every token used is a longest one that matches where it stands, and a literal byte stands
      only where no token matches. */
  lemma {:induction false} StepsAreLongest(line: Bytes, at: nat, dictionary: seq<Bytes>, n: nat)
    requires at <= |line| && (forall k | 0 <= k < |dictionary| :: |dictionary[k]| > 0) && LongestFirst(dictionary)
    requires n < |Steps(line, at, dictionary)|
    ensures var steps := Steps(line, at, dictionary);
      Right(line, at + Reach(dictionary, steps[..n]), dictionary, steps[n])
    decreases n
  {
    StepsRight(line, at, dictionary, Steps(line, at, dictionary), n);
  }

  lemma {:induction false} StepsRight(line: Bytes, at: nat, dictionary: seq<Bytes>, steps: seq<Step>, n: nat)
    requires at <= |line| && (forall k | 0 <= k < |dictionary| :: |dictionary[k]| > 0) && LongestFirst(dictionary)
    requires steps == Steps(line, at, dictionary) && n < |steps|
    ensures Right(line, at + Reach(dictionary, steps[..n]), dictionary, steps[n])
    decreases n
  {
    hide Steps, LongestFirst, Right, Reach, StepBytes;
    SomeLeft(line, at, dictionary);
    FirstStep(line, at, dictionary);
    ReachCons(dictionary, steps, n);
    if n > 0 {
      var next := at + |StepBytes(dictionary, steps[0])|;
      StepsRight(line, next, dictionary, steps[1..], n - 1);
    }
  }

  lemma ReachCons(dictionary: seq<Bytes>, steps: seq<Step>, n: nat)
    requires n <= |steps|
    ensures n == 0 ==> Reach(dictionary, steps[..n]) == 0
    ensures n > 0 ==> Reach(dictionary, steps[..n]) == |StepBytes(dictionary, steps[0])| + Reach(dictionary, steps[1..][..n - 1])
  {
    hide StepBytes;
    assert n > 0 ==> steps[..n][1..] == steps[1..][..n - 1];
  }

  lemma SomeLeft(line: Bytes, at: nat, dictionary: seq<Bytes>)
    requires at <= |line| && (forall k | 0 <= k < |dictionary| :: |dictionary[k]| > 0)
    requires |Steps(line, at, dictionary)| > 0
    ensures at < |line|
  {
  }

  lemma MatchFits(line: Bytes, at: nat, dictionary: seq<Bytes>)
    ensures var m := FirstMatch(line, at, dictionary, 0); m.Some? ==> at + |dictionary[m.value]| <= |line|
  {
  }

  /** The scan over the dictionary for a token that matches. */
  method FindToken(line: Bytes, at: nat, dictionary: seq<Bytes>) returns (matched: Option<nat>)
    ensures matched == FirstMatch(line, at, dictionary, 0)
  {
    for k := 0 to |dictionary|
      invariant FirstMatch(line, at, dictionary, 0) == FirstMatch(line, at, dictionary, k)
    {
      if StartsWith(line, at, dictionary[k]) {
        return Some(k);
      }
    }
    return None;
  }

  /** _encode_line_with_dictionary. */
  method EncodeLine(line: Bytes, dictionary: seq<Bytes>, dictIndex: map<Bytes, nat>) returns (pieces: seq<Piece>)
    requires Usable(dictionary)
    requires forall k | 0 <= k < |dictionary| :: dictionary[k] in dictIndex && dictIndex[dictionary[k]] == k
    ensures Tokenized(pieces, line, dictionary)
  {
    hide Flat, StartsWith, Steps, Open, Bytewise, Runs;
    if |line| == 0 {
      return [Literal([])];
    }
    pieces := [];
    var i := 0;
    var literal: Bytes := [];
    NoSteps(line, dictionary);
    while i < |line|
      invariant i <= |line| && Open(pieces)
      invariant Flat(pieces) + Bytewise(literal) + Steps(line, i, dictionary) == Steps(line, 0, dictionary)
    {
      var matched := FindToken(line, i, dictionary);
      NextStep(line, i, dictionary, pieces, literal);
      match matched
      case Some(k) =>
        Closing(pieces, literal);
        if |literal| > 0 {
          pieces := pieces + [Literal(literal)];
          literal := [];
        }
        RuleAdded(pieces, k);
        pieces := pieces + [Rule(dictIndex[dictionary[k]])];
        i := i + |dictionary[k]|;
      case None =>
        literal := literal + [line[i]];
        i := i + 1;
    }
    LineDone(line, dictionary);
    Closing(pieces, literal);
    if |literal| > 0 {
      pieces := pieces + [Literal(literal)];
    }
  }

  // Ready for a literal run: the last piece is a rule.
  ghost predicate Open(pieces: seq<Piece>) {
    Runs(pieces) && (|pieces| > 0 ==> pieces[|pieces| - 1].Rule?)
  }

  function Closed(pieces: seq<Piece>, literal: Bytes): seq<Piece> {
    if |literal| > 0 then pieces + [Literal(literal)] else pieces
  }

  lemma Closing(pieces: seq<Piece>, literal: Bytes)
    requires Open(pieces)
    ensures Runs(Closed(pieces, literal)) && Flat(Closed(pieces, literal)) == Flat(pieces) + Bytewise(literal)
  {
    hide Flat;
    if |literal| > 0 {
      FlatSnoc(pieces, Literal(literal));
    } else {
      assert Flat(pieces) + [] == Flat(pieces);
    }
  }

  lemma RuleAdded(pieces: seq<Piece>, k: nat)
    requires Runs(pieces)
    ensures Open(pieces + [Rule(k)]) && Flat(pieces + [Rule(k)]) == Flat(pieces) + [Token(k)]
  {
    hide Flat;
    FlatSnoc(pieces, Rule(k));
  }

  lemma NoSteps(line: Bytes, dictionary: seq<Bytes>)
    requires forall k | 0 <= k < |dictionary| :: |dictionary[k]| > 0
    ensures Flat([]) + Bytewise([]) + Steps(line, 0, dictionary) == Steps(line, 0, dictionary) && Open([])
  {
    hide Steps;
  }

  lemma LineDone(line: Bytes, dictionary: seq<Bytes>)
    requires forall k | 0 <= k < |dictionary| :: |dictionary[k]| > 0
    ensures Steps(line, |line|, dictionary) == []
    ensures forall s: seq<Step> :: s + [] == s
  {
  }

  // What one turn of the loop appends.
  lemma NextStep(line: Bytes, i: nat, dictionary: seq<Bytes>, pieces: seq<Piece>, literal: Bytes)
    requires i < |line| && forall k | 0 <= k < |dictionary| :: |dictionary[k]| > 0
    ensures match FirstMatch(line, i, dictionary, 0)
      case Some(k) =>
        && i + |dictionary[k]| <= |line|
        && Flat(pieces) + Bytewise(literal) + Steps(line, i, dictionary)
             == Flat(pieces) + Bytewise(literal) + [Token(k)] + Bytewise([]) + Steps(line, i + |dictionary[k]|, dictionary)
      case None =>
        Flat(pieces) + Bytewise(literal) + Steps(line, i, dictionary)
          == Flat(pieces) + Bytewise(literal + [line[i]]) + Steps(line, i + 1, dictionary)
  {
    hide Flat;
    MatchFits(line, i, dictionary);
    match FirstMatch(line, i, dictionary, 0)
    case Some(k) =>
    case None => assert Bytewise(literal + [line[i]]) == Bytewise(literal) + [Byte(line[i])];
  }
}
