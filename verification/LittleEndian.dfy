/** Fixed-width little-endian integers, as struct.pack("<..") and to_le_bytes write them. */
module LittleEndian {
  import opened Common

  function Pow256(k: nat): (p: nat)
    ensures 1 <= p
  {
    if k == 0 then 1 else 256 * Pow256(k - 1)
  }

  // The low k bytes of n, least significant first.
  function ToLE(n: nat, k: nat): (b: Bytes)
    ensures |b| == k
    decreases k
  {
    if k == 0 then [] else [(n % 256) as byte] + ToLE(n / 256, k - 1)
  }

  function FromLE(b: Bytes): (n: nat)
    ensures n < Pow256(|b|)
  {
    if |b| == 0 then 0 else b[0] as int + 256 * FromLE(b[1..])
  }

  lemma {:induction false} FromToLE(n: nat, k: nat)
    requires n < Pow256(k)
    ensures FromLE(ToLE(n, k)) == n
    decreases k
  {
    if k > 0 {
      FromToLE(n / 256, k - 1);
      assert ToLE(n, k)[1..] == ToLE(n / 256, k - 1);
    }
  }

  lemma {:induction false} ToFromLE(b: Bytes)
    ensures ToLE(FromLE(b), |b|) == b
  {
    if |b| > 0 {
      ToFromLE(b[1..]);
      assert FromLE(b) % 256 == b[0] as int && FromLE(b) / 256 == FromLE(b[1..]);
      assert b == [b[0]] + b[1..];
    }
  }

  /** Byte i holds the digit of weight 256^i: least significant first. */
  lemma {:induction false} ToLEAt(n: nat, k: nat, i: nat)
    requires i < k
    ensures ToLE(n, k)[i] as int == n / Pow256(i) % 256
    decreases k
  {
    if i > 0 {
      ToLEAt(n / 256, k - 1, i - 1);
      DivideTwice(n, Pow256(i - 1));
    }
  }

  lemma DivideTwice(n: nat, d: nat)
    requires d > 0
    ensures n / 256 / d == n / (256 * d)
  {
    var q, r := n / 256, n % 256;
    var s, u := q / d, q % d;
    assert n == 256 * (d * s + u) + r;
    assert 256 * (d * s + u) + r == (256 * d) * s + (256 * u + r) by {
      assert 256 * (d * s) == (256 * d) * s;
    }
    assert 0 <= 256 * u + r < 256 * d;
    Quotient(256 * d, n, s, 256 * u + r);
  }

  lemma Quotient(d: nat, n: nat, s: nat, r: nat)
    requires d > 0 && n == d * s + r && r < d
    ensures n / d == s
  {
    var s' := n / d;
    assert n == d * s' + n % d;
    assert s' > s ==> d * s' >= d * (s + 1) == d * s + d;
    assert s' < s ==> d * s >= d * (s' + 1) == d * s' + d;
  }

  // The sum of the first i digits at their weights.
  function Weighed(b: Bytes, i: nat): nat
    requires i <= |b|
  {
    if i == 0 then 0 else Weighed(b, i - 1) + b[i - 1] as nat * Pow256(i - 1)
  }

  lemma {:induction false} WeighedTail(b: Bytes, i: nat)
    requires 0 < i <= |b|
    ensures Weighed(b, i) == b[0] as nat + 256 * Weighed(b[1..], i - 1)
  {
    if i > 1 {
      WeighedTail(b, i - 1);
      assert b[i - 1] as nat * (256 * Pow256(i - 2)) == 256 * (b[1..][i - 2] as nat * Pow256(i - 2));
    } else {
      assert Pow256(0) == 1;
    }
  }

  /** And reading sums the digits at those weights. */
  lemma {:induction false} FromLEWeighs(b: Bytes)
    ensures FromLE(b) == Weighed(b, |b|)
  {
    if |b| > 0 {
      FromLEWeighs(b[1..]);
      WeighedTail(b, |b|);
    }
  }

  /** The first four bytes written, in numbers. */
  lemma FirstBytes(n: nat, k: nat)
    requires k >= 2
    ensures ToLE(n, k)[0] as int == n % 256 && ToLE(n, k)[1] as int == n / 0x100 % 256
    ensures k >= 4 ==> ToLE(n, k)[2] as int == n / 0x1_0000 % 256 && ToLE(n, k)[3] as int == n / 0x100_0000 % 256
  {
    assert Pow256(1) == 0x100 && Pow256(2) == 0x1_0000 && Pow256(3) == 0x100_0000 by { Pow256Small(); }
    hide ToLE, Pow256;
    ToLEAt(n, k, 0);
    ToLEAt(n, k, 1);
    assert Pow256(0) == 1 by { Pow256Small(); }
    if k >= 4 {
      ToLEAt(n, k, 2);
      ToLEAt(n, k, 3);
    }
  }

  lemma Pow256Small()
    ensures Pow256(0) == 1 && Pow256(1) == 0x100 && Pow256(2) == 0x1_0000 && Pow256(3) == 0x100_0000
  {
    assert Pow256(1) == 256 * Pow256(0);
    assert Pow256(2) == 256 * Pow256(1);
    assert Pow256(3) == 256 * Pow256(2);
  }

  lemma Pow256Values()
    ensures Pow256(2) == 0x1_0000
    ensures Pow256(4) == 0x1_0000_0000
    ensures Pow256(8) == 0x1_0000_0000_0000_0000
  {
    assert Pow256(2) == 256 * Pow256(1);
    assert Pow256(3) == 256 * Pow256(2);
    assert Pow256(4) == 256 * Pow256(3);
    assert Pow256(5) == 256 * Pow256(4);
    assert Pow256(6) == 256 * Pow256(5);
    assert Pow256(7) == 256 * Pow256(6);
  }

  // ----- fields by position -----

  // The k bytes at `at` spell n, least significant first.
  ghost predicate Spells(data: Bytes, at: nat, k: nat, n: nat) {
    at + k <= |data| && forall i | 0 <= i < k :: data[at + i] as int == n / Pow256(i) % 256
  }

  // The bytes b stand at `at`.
  ghost predicate Stands(data: Bytes, at: nat, b: Bytes) {
    at + |b| <= |data| && data[at..at + |b|] == b
  }

  // From `at` on the bytes are x.
  ghost predicate From(data: Bytes, at: nat, x: Bytes) {
    at <= |data| && data[at..] == x
  }

  lemma Next(data: Bytes, at: nat, b: Bytes, x: Bytes)
    requires From(data, at, b + x)
    ensures Stands(data, at, b) && From(data, at + |b|, x)
  {
    var s := data[at..];
    assert s[..|b|] == b && s[|b|..] == x;
    assert data[at..at + |b|] == s[..|b|];
    assert data[at + |b|..] == s[|b|..];
  }

  lemma NextInt(data: Bytes, at: nat, n: nat, k: nat, x: Bytes)
    requires From(data, at, ToLE(n, k) + x)
    ensures Spells(data, at, k, n) && From(data, at + k, x)
  {
    Next(data, at, ToLE(n, k), x);
    forall i | 0 <= i < k ensures data[at + i] as int == n / Pow256(i) % 256 {
      ToLEAt(n, k, i);
      assert data[at + i] == data[at..at + k][i];
    }
  }

  lemma Whole(d: Bytes)
    ensures From(d, 0, d)
  {
  }
}
