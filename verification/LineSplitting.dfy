/** What splitting into lines is, said of the lines alone: bytes.splitlines(keepends=True) of
    g1g2_small_adaptive_pack.py ends a line at LF, at CR, or at CR LF taken together. */
module LineSplitting {
  import opened Common
  import opened AdaptivePack

  const LF: byte := 10
  const CR: byte := 13

  predicate IsEnd(b: byte) {
    b == LF || b == CR
  }

  // No terminator stands in the line before its own end.
  ghost predicate NoneInside(line: Bytes) {
    forall i | 0 <= i < |line| - 1 && IsEnd(line[i]) :: i == |line| - 2 && line[i] == CR && line[i + 1] == LF
  }

  ghost predicate Terminated(line: Bytes) {
    |line| > 0 && IsEnd(line[|line| - 1])
  }

  // The pair CR LF is never torn apart.
  ghost predicate Torn(a: Bytes, b: Bytes) {
    |a| > 0 && |b| > 0 && a[|a| - 1] == CR && b[0] == LF
  }

  // The lines of a text: none empty, each but the last terminated, with no terminator inside.
  ghost predicate AreLines(lines: seq<Bytes>) {
    && (forall k | 0 <= k < |lines| :: |lines[k]| > 0 && NoneInside(lines[k]))
    && (forall k | 0 <= k < |lines| - 1 :: Terminated(lines[k]) && !Torn(lines[k], lines[k + 1]))
  }

  lemma {:induction false} FirstLineIs(data: Bytes)
    requires |data| > 0
    ensures var n := FirstLine(data);
      && NoneInside(data[..n])
      && (n < |data| ==> Terminated(data[..n]) && !(data[n - 1] == CR && data[n] == LF))
  {
    var n := FirstLine(data);
    if IsEnd(data[0]) || |data| == 1 {
    } else {
      var m := FirstLine(data[1..]);
      FirstLineIs(data[1..]);
      assert n == m + 1 && data[..n][1..] == data[1..][..m];
      forall i | 0 <= i < n - 1 && IsEnd(data[..n][i]) ensures i == n - 2 && data[..n][i] == CR && data[..n][i + 1] == LF {
        assert data[1..][..m][i - 1] == data[..n][i] && data[1..][..m][i] == data[..n][i + 1];
      }
      if n < |data| {
        assert data[1..][m - 1] == data[n - 1] && data[1..][m] == data[n];
        assert data[1..][..m][m - 1] == data[..n][n - 1];
      }
    }
  }

  /** Splitting yields lines. */
  lemma {:induction false} SplitAreLines(data: Bytes)
    ensures AreLines(SplitLines(data)) && (|data| > 0 ==> |SplitLines(data)| > 0 && SplitLines(data)[0] == data[..FirstLine(data)])
    decreases |data|
  {
    if |data| > 0 {
      var n := FirstLine(data);
      FirstLineIs(data);
      SplitAreLines(data[n..]);
      hide NoneInside, FirstLine;
      var rest := SplitLines(data[n..]);
      var lines := SplitLines(data);
      assert lines == [data[..n]] + rest;
      if |rest| > 0 {
        assert n < |data|;
        assert rest[0][0] == data[n];
        assert lines[1] == rest[0];
      }
      forall k | 0 < k < |lines| - 1 ensures Terminated(lines[k]) && !Torn(lines[k], lines[k + 1]) {
        assert lines[k] == rest[k - 1] && lines[k + 1] == rest[k];
      }
    }
  }

  // Two lines that begin the same text, each followed by lines or nothing, are the same length.
  lemma SameFirst(a: Bytes, b: Bytes, x: Bytes, y: Bytes)
    requires a + x == b + y && |a| > 0 && |b| > 0 && NoneInside(a) && NoneInside(b)
    requires x != [] ==> Terminated(a) && !Torn(a, x)
    requires y != [] ==> Terminated(b) && !Torn(b, y)
    ensures |a| >= |b|
  {
    if |a| < |b| { Overlap(a, b, x, y); }
  }

  lemma Overlap(a: Bytes, b: Bytes, x: Bytes, y: Bytes)
    requires a + x == b + y && 0 < |a| < |b|
    ensures |x| > 0 && a[|a| - 1] == b[|a| - 1] && x[0] == b[|a|]
  {
    var t := a + x;
    assert |t| == |a| + |x| == |b| + |y|;
    assert t[|a| - 1] == a[|a| - 1] && t[|a| - 1] == b[|a| - 1];
    assert t[|a|] == x[0] && t[|a|] == b[|a|];
  }

  /** And there is only one way to cut a text into lines. */
  lemma {:induction false} LinesDetermined(a: seq<Bytes>, b: seq<Bytes>)
    requires AreLines(a) && AreLines(b) && Concat(a) == Concat(b)
    ensures a == b
    decreases |a|
  {
    if |a| == 0 || |b| == 0 {
      assert Concat([]) == [];
      if |a| > 0 { ConcatFirst(a); }
      if |b| > 0 { ConcatFirst(b); }
    } else {
      assert a == [a[0]] + a[1..] && b == [b[0]] + b[1..];
      ConcatCons(a[0], a[1..]);
      ConcatCons(b[0], b[1..]);
      RestStarts(a);
      RestStarts(b);
      var x, y := Concat(a[1..]), Concat(b[1..]);
      SameFirst(a[0], b[0], x, y);
      SameFirst(b[0], a[0], y, x);
      assert (a[0] + x)[..|a[0]|] == a[0] && (b[0] + y)[..|b[0]|] == b[0];
      assert (a[0] + x)[|a[0]|..] == x && (b[0] + y)[|b[0]|..] == y;
      TailLines(a);
      TailLines(b);
      LinesDetermined(a[1..], b[1..]);
    }
  }

  lemma TailLines(a: seq<Bytes>)
    requires AreLines(a) && |a| > 0
    ensures AreLines(a[1..])
  {
    hide NoneInside, Terminated, Torn;
  }

  lemma ConcatFirst(a: seq<Bytes>)
    requires AreLines(a) && |a| > 0
    ensures Concat(a) != []
  {
    assert a == [a[0]] + a[1..];
    ConcatCons(a[0], a[1..]);
  }

  // What follows the first line starts as the second does.
  lemma RestStarts(a: seq<Bytes>)
    requires AreLines(a) && |a| > 0
    ensures var x := Concat(a[1..]); x != [] ==> Terminated(a[0]) && !Torn(a[0], x)
  {
    if |a| > 1 {
      assert a[1..] == [a[1]] + a[2..];
      ConcatCons(a[1], a[2..]);
      assert (a[1] + Concat(a[2..]))[0] == a[1][0];
    } else {
      assert a[1..] == [] && Concat([]) == [];
    }
  }

  /** Exactly what split_lines_exact returns: of an empty text one empty line, of any other the one
      list of lines that joins to it. */
  lemma SplitLinesExactly(data: Bytes, lines: seq<Bytes>)
    ensures lines == SplitLinesExact(data) <==>
      if data == [] then lines == [[]] else AreLines(lines) && Concat(lines) == data
  {
    if data != [] {
      SplitAreLines(data);
      SplitLinesLossless(data);
      if AreLines(lines) && Concat(lines) == data { LinesDetermined(lines, SplitLines(data)); }
    }
  }
}
