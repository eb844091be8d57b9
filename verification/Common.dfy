/** Small shared vocabulary: optional values, results, bytes. */
module Common {
  datatype Option<+T> = None | Some(value: T)

  datatype Result<+T, +E> = Ok(value: T) | Err(error: E)

  newtype byte = b: int | 0 <= b < 256

  type Bytes = seq<byte>

  // Bytes read as ASCII.
  function Ascii(b: Bytes): (s: string)
    ensures |s| == |b|
  {
    seq(|b|, i requires 0 <= i < |b| => b[i] as int as char)
  }

  function Max(a: int, b: int): (m: int)
    ensures m == a || m == b
    ensures a <= m && b <= m
  {
    if a < b then b else a
  }

  function Min(a: int, b: int): (m: int)
    ensures m == a || m == b
    ensures m <= a && m <= b
  {
    if a < b then a else b
  }

  lemma Associate<T>(a: seq<T>, b: seq<T>, c: seq<T>)
    ensures (a + b) + c == a + (b + c)
  {
  }

  lemma PrefixSlice<T>(s: seq<T>, n: nat, l: nat, h: nat)
    requires l <= h <= n <= |s|
    ensures s[..n][l..h] == s[l..h]
  {
    var a, b := s[..n][l..h], s[l..h];
    forall i | 0 <= i < h - l ensures a[i] == b[i] {}
  }

  lemma LeftSlice<T>(a: seq<T>, b: seq<T>, l: nat, h: nat)
    requires l <= h <= |a|
    ensures (a + b)[l..h] == a[l..h]
  {
    var x, y := (a + b)[l..h], a[l..h];
    forall i | 0 <= i < h - l ensures x[i] == y[i] {}
  }

  lemma SliceOfSlice<T>(s: seq<T>, lo: nat, hi: nat, l: nat, h: nat)
    requires lo <= hi <= |s| && l <= h <= hi - lo
    ensures s[lo..hi][l..h] == s[lo + l..lo + h]
  {
    var a, b := s[lo..hi][l..h], s[lo + l..lo + h];
    forall i | 0 <= i < h - l ensures a[i] == b[i] {}
  }

  // Pieces one after another.
  function Concat(parts: seq<Bytes>): Bytes {
    if |parts| == 0 then [] else Concat(parts[..|parts| - 1]) + parts[|parts| - 1]
  }

  lemma ConcatNothing()
    ensures Concat([]) == []
  {
  }

  lemma ConcatSnoc(parts: seq<Bytes>, p: Bytes)
    ensures Concat(parts + [p]) == Concat(parts) + p
  {
    assert (parts + [p])[..|parts|] == parts;
  }

  lemma {:induction false} ConcatAppend(a: seq<Bytes>, b: seq<Bytes>)
    ensures Concat(a + b) == Concat(a) + Concat(b)
    decreases |b|
  {
    if |b| == 0 {
      assert a + b == a;
    } else {
      var last := b[|b| - 1];
      ConcatAppend(a, b[..|b| - 1]);
      assert (a + b)[..|a + b| - 1] == a + b[..|b| - 1] && (a + b)[|a + b| - 1] == last;
      Associate(Concat(a), Concat(b[..|b| - 1]), last);
    }
  }

  lemma ConcatCons(first: Bytes, rest: seq<Bytes>)
    ensures Concat([first] + rest) == first + Concat(rest)
  {
    ConcatAppend([first], rest);
    ConcatSnoc([], first);
    assert [] + [first] == [first] && Concat([]) == [];
  }
}
