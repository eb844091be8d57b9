/** The streaming hash of ultraballoondb-backup/src/lib.rs against FIPS 180-4. */
module Sha256 {
  import opened Common
  import opened LittleEndian

  type Word = bv32

  // The working variables a..h of section 6.2.2.
  datatype Vars = Vars(a: Word, b: Word, c: Word, d: Word, e: Word, f: Word, g: Word, h: Word)

  // Section 5.3.3.
  const H0: seq<Word> := [
    0x6a09e667, 0xbb67ae85, 0x3c6ef372, 0xa54ff53a, 0x510e527f, 0x9b05688c, 0x1f83d9ab, 0x5be0cd19]

  // Section 4.2.2.
  const K: seq<Word> :=
    [0x428a2f98, 0x71374491, 0xb5c0fbcf, 0xe9b5dba5, 0x3956c25b, 0x59f111f1, 0x923f82a4, 0xab1c5ed5] +
    [0xd807aa98, 0x12835b01, 0x243185be, 0x550c7dc3, 0x72be5d74, 0x80deb1fe, 0x9bdc06a7, 0xc19bf174] +
    [0xe49b69c1, 0xefbe4786, 0x0fc19dc6, 0x240ca1cc, 0x2de92c6f, 0x4a7484aa, 0x5cb0a9dc, 0x76f988da] +
    [0x983e5152, 0xa831c66d, 0xb00327c8, 0xbf597fc7, 0xc6e00bf3, 0xd5a79147, 0x06ca6351, 0x14292967] +
    [0x27b70a85, 0x2e1b2138, 0x4d2c6dfc, 0x53380d13, 0x650a7354, 0x766a0abb, 0x81c2c92e, 0x92722c85] +
    [0xa2bfe8a1, 0xa81a664b, 0xc24b8b70, 0xc76c51a3, 0xd192e819, 0xd6990624, 0xf40e3585, 0x106aa070] +
    [0x19a4c116, 0x1e376c08, 0x2748774c, 0x34b0bcb5, 0x391c0cb3, 0x4ed8aa4a, 0x5b9cca4f, 0x682e6ff3] +
    [0x748f82ee, 0x78a5636f, 0x84c87814, 0x8cc70208, 0x90befffa, 0xa4506ceb, 0xbef9a3f7, 0xc67178f2]

  // Addition modulo 2^32.
  function Add(x: Word, y: Word): Word { x + y }

  // ----- section 4.1.2 -----

  function Ch(x: Word, y: Word, z: Word): Word { (x & y) ^ ((!x) & z) }

  function Maj(x: Word, y: Word, z: Word): Word { (x & y) ^ (x & z) ^ (y & z) }

  function BigSigma0(x: Word): Word { x.RotateRight(2) ^ x.RotateRight(13) ^ x.RotateRight(22) }

  function BigSigma1(x: Word): Word { x.RotateRight(6) ^ x.RotateRight(11) ^ x.RotateRight(25) }

  function SmallSigma0(x: Word): Word { x.RotateRight(7) ^ x.RotateRight(18) ^ (x >> 3) }

  function SmallSigma1(x: Word): Word { x.RotateRight(17) ^ x.RotateRight(19) ^ (x >> 10) }

  // ----- words and bytes, big-endian -----

  function ToWord(b: Bytes): Word
    requires |b| == 4
  {
    (b[0] as int * 0x100_0000 + b[1] as int * 0x1_0000 + b[2] as int * 0x100 + b[3] as int) as bv32
  }

  function FromWord(w: Word): (b: Bytes)
    ensures |b| == 4
  {
    FourBytes(w as int)
  }

  function FourBytes(n: nat): (b: Bytes)
    ensures |b| == 4
  {
    [(n / 0x100_0000 % 256) as byte, (n / 0x1_0000 % 256) as byte, (n / 0x100 % 256) as byte, (n % 256) as byte]
  }

  function FromWords(ws: seq<Word>): (b: Bytes)
    ensures |b| == 4 * |ws|
  {
    if |ws| == 0 then [] else FromWords(ws[..|ws| - 1]) + FromWord(ws[|ws| - 1])
  }

  // The low k bytes of n, most significant first.
  function BigEndian(n: nat, k: nat): (b: Bytes)
    ensures |b| == k
    decreases k
  {
    if k == 0 then [] else BigEndian(n / 256, k - 1) + [(n % 256) as byte]
  }

  /** Byte i of k has the weight 256^(k - 1 - i): most significant first. */
  lemma {:induction false} BigEndianAt(n: nat, k: nat, i: nat)
    requires i < k
    ensures BigEndian(n, k)[i] as int == n / Pow256(k - 1 - i) % 256
    decreases k
  {
    if i < k - 1 {
      BigEndianAt(n / 256, k - 1, i);
      DivideTwice(n, Pow256(k - 2 - i));
    }
  }

  // The value of four bytes, most significant first.
  function Weight(b: Bytes): nat
    requires |b| == 4
  {
    b[0] as nat * 0x100_0000 + b[1] as nat * 0x1_0000 + b[2] as nat * 0x100 + b[3] as nat
  }

  lemma FourDigits(n: nat)
    requires n < 0x1_0000_0000
    ensures Weight(FourBytes(n)) == n
  {
    var q, r, s := n / 0x100, n / 0x1_0000, n / 0x100_0000;
    assert q / 0x100 == r && r / 0x100 == s;
  }

  lemma LastDigit(q: nat, d: byte)
    ensures (0x100 * q + d as nat) / 0x100 == q && (0x100 * q + d as nat) % 0x100 == d as nat
  {
  }

  lemma DigitsOf(b: Bytes)
    requires |b| == 4
    ensures FourBytes(Weight(b)) == b
  {
    var n := Weight(b);
    LastDigit(0, b[0]);
    var m := 0x100 * b[0] as nat + b[1] as nat;
    LastDigit(b[0] as nat, b[1]);
    LastDigit(m, b[2]);
    LastDigit(0x100 * m + b[2] as nat, b[3]);
    assert n == 0x100 * (0x100 * m + b[2] as nat) + b[3] as nat;
    DivideTwice(n, 0x100);
    DivideTwice(n, 0x1_0000);
    DivideTwice(n / 0x100, 0x100);
  }

  /** Four bytes that weigh what the word is worth are its writing, and are read as it. */
  lemma WeightDecides(b: Bytes, w: Word)
    requires |b| == 4 && Weight(b) == w as int
    ensures FromWord(w) == b && ToWord(b) == w
  {
    DigitsOf(b);
    WeightRead(b, w);
  }

  lemma WeightRead(b: Bytes, w: Word)
    requires |b| == 4 && Weight(b) == w as int
    ensures ToWord(b) == w
  {
    ValueBack(w);
  }

  lemma ValueBack(w: Word)
    ensures 0 <= w as int < 0x1_0000_0000 && (w as int) as bv32 == w
  {
  }

  /** The bytes of a word weigh what it is worth, and read back as it. */
  lemma FromWordAt(w: Word)
    ensures Weight(FromWord(w)) == w as int
    ensures ToWord(FromWord(w)) == w
  {
    ValueBack(w);
    FourDigits(w as int);
    WeightDecides(FromWord(w), w);
  }

  // ----- section 6.2.2 -----

  // The message schedule.
  function W(block: Bytes, t: nat): Word
    requires |block| == 64 && t < 64
  {
    if t < 16 then ToWord(block[4 * t..4 * t + 4])
    else Add(Add(Add(W(block, t - 16), SmallSigma0(W(block, t - 15))), W(block, t - 7)), SmallSigma1(W(block, t - 2)))
  }

  function Round(v: Vars, k: Word, w: Word): Vars {
    var t1 := Add(Add(Add(Add(v.h, BigSigma1(v.e)), Ch(v.e, v.f, v.g)), k), w);
    var t2 := Add(BigSigma0(v.a), Maj(v.a, v.b, v.c));
    Vars(Add(t1, t2), v.a, v.b, v.c, Add(v.d, t1), v.e, v.f, v.g)
  }

  function Rounds(v: Vars, block: Bytes, t: nat): Vars
    requires |block| == 64 && t <= 64
  {
    if t == 0 then v else Round(Rounds(v, block, t - 1), K[t - 1], W(block, t - 1))
  }

  function Compress(s: seq<Word>, block: Bytes): (r: seq<Word>)
    requires |s| == 8 && |block| == 64
    ensures |r| == 8
  {
    Added(s, Rounds(Vars(s[0], s[1], s[2], s[3], s[4], s[5], s[6], s[7]), block, 64))
  }

  function Added(s: seq<Word>, v: Vars): (r: seq<Word>)
    requires |s| == 8
    ensures |r| == 8
  {
    [Add(s[0], v.a), Add(s[1], v.b), Add(s[2], v.c), Add(s[3], v.d),
     Add(s[4], v.e), Add(s[5], v.f), Add(s[6], v.g), Add(s[7], v.h)]
  }

  // All whole blocks of data, in order; a shorter rest is left over.
  function Blocks(s: seq<Word>, data: Bytes): (r: seq<Word>)
    requires |s| == 8
    ensures |r| == 8
    decreases |data|
  {
    if |data| < 64 then s else Blocks(Compress(s, data[..64]), data[64..])
  }

  // ----- section 5.1.1 -----

  // The number of zero bytes between the 0x80 and the length field.
  function ZeroCount(n: nat): (k: nat)
    ensures k < 64 && (n + 1 + k + 8) % 64 == 0
  {
    (119 - n % 64) % 64
  }

  function Zeros(k: nat): (b: Bytes)
    ensures |b| == k
  {
    seq(k, i => 0 as byte)
  }

  // Padding with a given length field; the standard's field is the message length in bits.
  function Padding(n: nat, bits: nat): Bytes {
    [0x80] + Zeros(ZeroCount(n)) + BigEndian(bits, 8)
  }

  const TWO64 := 0x1_0000_0000_0000_0000

  /** The digest of FIPS 180-4, for messages shorter than 2^64 bits. */
  function Digest(m: Bytes): (d: Bytes)
    ensures |d| == 32
  {
    FromWords(Blocks(H0, m + Padding(|m|, 8 * |m|)))
  }

  // The digest with the length field reduced to 64 bits, defined for every message.
  function WrappedDigest(m: Bytes): (d: Bytes)
    ensures |d| == 32
  {
    FromWords(Blocks(H0, m + Padding(|m|, 8 * |m| % TWO64)))
  }

  /** Below 2^61 bytes the wrapped length is the length, so the digest is the standard's. */
  lemma WrappedIsDigest(m: Bytes)
    requires |m| < 0x2000_0000_0000_0000
    ensures WrappedDigest(m) == Digest(m)
  {
    hide Blocks;
    assert 8 * |m| % TWO64 == 8 * |m|;
  }

  lemma {:induction false} BlocksAppend(s: seq<Word>, a: Bytes, b: Bytes)
    requires |s| == 8 && |a| % 64 == 0
    ensures Blocks(s, a + b) == Blocks(Blocks(s, a), b)
    decreases |a|
  {
    hide Compress;
    if |a| == 0 {
      assert a + b == b;
    } else {
      assert (a + b)[..64] == a[..64] && (a + b)[64..] == a[64..] + b;
      BlocksAppend(Compress(s, a[..64]), a[64..], b);
    }
  }

  lemma OneBlock(s: seq<Word>, block: Bytes)
    requires |s| == 8 && |block| == 64
    ensures Blocks(s, block) == Compress(s, block)
  {
    hide Compress;
    assert block[..64] == block && block[64..] == [];
  }

  // ----- the streaming state -----

  // The bytes the state has taken in after padding are the padded message.
  lemma Split(m: Bytes, done: Bytes, held: Bytes)
    requires m == done + held && |held| < 64 && |done| % 64 == 0
    ensures |m| % 64 == |held| && m[..|m| - |held|] == done && m[|m| - |held|..] == held
  {
  }

  lemma LengthWraps(a: nat, n: nat)
    ensures (a % TWO64 + n) % TWO64 == (a + n) % TWO64
    ensures a % TWO64 * 8 % TWO64 == 8 * a % TWO64
  {
    var q := a / TWO64;
    Multiple(q, a % TWO64 + n);
    Multiple(8 * q, a % TWO64 * 8);
  }

  lemma Multiple(q: nat, x: nat)
    ensures (q * TWO64 + x) % TWO64 == x % TWO64
  {
  }

  lemma ZerosAppend(a: nat, b: nat)
    ensures Zeros(a) + Zeros(b) == Zeros(a + b)
  {
  }

  lemma PaddedMessage(m: Bytes, bits: nat, done: Bytes, k: nat)
    requires k < 64 && done == m + [0x80] + Zeros(k) + BigEndian(bits, 8) && |done| % 64 == 0
    ensures done == m + Padding(|m|, bits)
  {
    assert |done| == |m| + 1 + k + 8;
    ZeroCountUnique(|m|, k);
    Associate(m, [0x80], Zeros(k), BigEndian(bits, 8));
  }

  lemma ZeroCountUnique(n: nat, k: nat)
    requires k < 64 && (n + 1 + k + 8) % 64 == 0
    ensures k == ZeroCount(n)
  {
  }

  lemma Associate(a: Bytes, b: Bytes, c: Bytes, d: Bytes)
    ensures a + b + c + d == a + (b + c + d)
  {
  }

  class Sha256State {
    const state: array<Word>
    const buffer: array<byte>
    var bufferLen: nat
    var messageLen: int
    ghost var absorbed: Bytes

    // The two arrays, allocated once.
    ghost predicate Allotted() {
      state.Length == 8 && buffer.Length == 64 && state as object != buffer as object
    }

    ghost predicate Valid()
      reads this, state, buffer
    {
      && Allotted()
      && bufferLen < 64 && bufferLen == |absorbed| % 64
      && messageLen == |absorbed| % TWO64
      && Took(absorbed[..|absorbed| - bufferLen])
      && buffer[..bufferLen] == absorbed[|absorbed| - bufferLen..]
    }

    constructor ()
      ensures Valid() && absorbed == [] && fresh(state) && fresh(buffer)
    {
      state := new Word[8](i requires 0 <= i < 8 => H0[i]);
      buffer := new byte[64](i => 0);
      bufferLen, messageLen, absorbed := 0, 0, [];
      new;
      assert state[..] == H0;
    }

    // Between blocks: the state has taken in exactly `done`.
    ghost predicate Took(done: Bytes)
      reads state
    {
      state.Length == 8 && |done| % 64 == 0 && state[..] == Blocks(H0, done)
    }

    lemma TookWhole(done: Bytes)
      requires Took(done)
      ensures |done| % 64 == 0
    {
    }

    method Take(block: Bytes, ghost done: Bytes)
      requires |block| == 64 && Took(done)
      modifies state
      ensures Took(done + block)
    {
      hide Blocks, Compress;
      BlocksAppend(H0, done, block);
      OneBlock(Blocks(H0, done), block);
      CompressBlock(block);
    }

    method CopyIn(at: nat, bytes: Bytes)
      requires buffer.Length == 64 && at + |bytes| <= 64
      modifies buffer
      ensures buffer[..at + |bytes|] == old(buffer[..at]) + bytes
    {
      forall i | 0 <= i < |bytes| {
        buffer[at + i] := bytes[i];
      }
    }

    // Tops up a partly filled buffer, and takes it in once it is full.
    method TopUp(input: Bytes, ghost done: Bytes) returns (rest: Bytes, ghost done': Bytes)
      requires Allotted() && Took(done) && 0 < bufferLen < 64
      modifies this`bufferLen, state, buffer
      ensures Took(done') && bufferLen < 64 && (bufferLen != 0 ==> rest == [])
      ensures done' + buffer[..bufferLen] + rest == done + old(buffer[..bufferLen]) + input
    {
      hide Blocks, Took;
      var n := Min(64 - bufferLen, |input|);
      CopyIn(bufferLen, input[..n]);
      bufferLen := bufferLen + n;
      rest, done' := input[n..], done;
      assert input == input[..n] + rest;
      if bufferLen == 64 {
        Take(buffer[..64], done);
        done' := done + buffer[..64];
        bufferLen := 0;
      }
    }

    // Takes in whole blocks straight from the input.
    method TakeWhole(input: Bytes, ghost done: Bytes) returns (rest: Bytes, ghost done': Bytes)
      requires Took(done)
      modifies state
      ensures Took(done') && |rest| < 64 && done' + rest == done + input
    {
      hide Blocks, Took;
      rest, done' := input, done;
      while |rest| >= 64
        invariant Took(done') && done' + rest == done + input
        decreases |rest|
      {
        Take(rest[..64], done');
        assert rest == rest[..64] + rest[64..];
        done' := done' + rest[..64];
        rest := rest[64..];
      }
    }

    /** Absorbs any further bytes, however the message is cut into pieces. */
    method Update(input: Bytes)
      requires Valid()
      modifies this, state, buffer
      ensures Valid() && absorbed == old(absorbed) + input
    {
      hide Took;
      ghost var done := absorbed[..|absorbed| - bufferLen];
      assert absorbed == done + buffer[..bufferLen];
      messageLen := (messageLen + |input|) % TWO64;
      LengthWraps(|absorbed|, |input|);
      TookWhole(done);
      done := Absorb(input, done);
      TookWhole(done);
      absorbed := absorbed + input;
      Split(absorbed, done, buffer[..bufferLen]);
    }

    // Topping up, whole blocks, and what is left for the buffer.
    method Absorb(input: Bytes, ghost done: Bytes) returns (ghost done': Bytes)
      requires Allotted() && Took(done) && bufferLen < 64
      modifies this`bufferLen, state, buffer
      ensures Took(done') && bufferLen < 64
      ensures done' + buffer[..bufferLen] == done + old(buffer[..bufferLen]) + input
    {
      hide Took;
      var rest;
      rest, done' := input, done;
      if bufferLen != 0 {
        rest, done' := TopUp(rest, done');
      }
      if bufferLen == 0 {
        rest, done' := TakeWhole(rest, done');
        if rest != [] {
          CopyIn(0, rest);
          bufferLen := |rest|;
          assert buffer[..bufferLen] == rest;
        }
      }
    }

    // Appends the mark, the zeros and the length, taking in one or two blocks.
    method Pad(bits: nat, ghost done: Bytes) returns (ghost done': Bytes, ghost k: nat)
      requires Allotted() && Took(done) && bufferLen < 64
      modifies this`bufferLen, state, buffer
      ensures Took(done') && k < 64
      ensures done' == done + old(buffer[..bufferLen]) + [0x80] + Zeros(k) + BigEndian(bits, 8)
    {
      hide Blocks, Took, BigEndian;
      ghost var tail := buffer[..bufferLen];
      CopyIn(bufferLen, [0x80]);
      bufferLen := bufferLen + 1;
      done', k := done, 0;
      if bufferLen > 56 {
        k := 64 - bufferLen;
        CopyIn(bufferLen, Zeros(64 - bufferLen));
        Take(buffer[..64], done);
        done' := done + buffer[..64];
        bufferLen := 0;
      }
      assert done' + buffer[..bufferLen] == done + tail + [0x80] + Zeros(k);
      ZerosAppend(k, 56 - bufferLen);
      k := k + (56 - bufferLen);
      done' := LastBlock(bits, done');
    }

    // Fills the block up with zeros and the length, and takes it in.
    method LastBlock(bits: nat, ghost done: Bytes) returns (ghost done': Bytes)
      requires Allotted() && Took(done) && bufferLen <= 56
      modifies state, buffer
      ensures Took(done')
      ensures done' == done + old(buffer[..bufferLen]) + Zeros(56 - bufferLen) + BigEndian(bits, 8)
    {
      hide Blocks, Took, BigEndian, Zeros;
      CopyIn(bufferLen, Zeros(56 - bufferLen));
      CopyIn(56, BigEndian(bits, 8));
      Take(buffer[..64], done);
      done' := done + buffer[..64];
    }

    method Output() returns (digest: Bytes)
      requires state.Length == 8
      ensures digest == FromWords(state[..])
    {
      hide FromWord;
      digest := [];
      for i := 0 to 8
        invariant digest == FromWords(state[..i])
      {
        assert state[..i + 1][..i] == state[..i];
        digest := digest + FromWord(state[i]);
      }
      assert state[..8] == state[..];
    }

    /** Pads and finishes: the digest of everything absorbed. */
    method Finalize() returns (digest: Bytes)
      requires Valid()
      modifies this`bufferLen, state, buffer
      ensures digest == WrappedDigest(old(absorbed))
    {
      hide Blocks, BigEndian, Padding, FromWords;
      ghost var m := absorbed;
      var bits := messageLen * 8 % TWO64;
      LengthWraps(|m|, 0);
      ghost var done, k := Pad(bits, m[..|m| - bufferLen]);
      assert m == m[..|m| - old(bufferLen)] + m[|m| - old(bufferLen)..];
      PaddedMessage(m, bits, done, k);
      digest := Output();
    }

    method CompressBlock(block: Bytes)
      requires |block| == 64 && state.Length == 8
      modifies state
      ensures state[..] == Compress(old(state[..]), block)
    {
      hide W, Rounds, Add;
      var w := BuildSchedule(block);
      var v := RunRounds(Vars(state[0], state[1], state[2], state[3], state[4], state[5], state[6], state[7]), w, block);
      ghost var s := state[..];
      state[0], state[1] := Add(state[0], v.a), Add(state[1], v.b);
      state[2], state[3] := Add(state[2], v.c), Add(state[3], v.d);
      state[4], state[5] := Add(state[4], v.e), Add(state[5], v.f);
      state[6], state[7] := Add(state[6], v.g), Add(state[7], v.h);
      assert state[..] == Added(s, v);
    }
  }

  method BuildSchedule(block: Bytes) returns (w: array<Word>)
    requires |block| == 64
    ensures fresh(w) && w.Length == 64 && forall t | 0 <= t < 64 :: w[t] == W(block, t)
  {
    hide SmallSigma0, SmallSigma1, ToWord, Add;
    w := new Word[64](i => 0);
    for i := 0 to 16
      invariant forall t | 0 <= t < i :: w[t] == W(block, t)
    {
      w[i] := ToWord(block[4 * i..4 * i + 4]);
    }
    for i := 16 to 64
      invariant forall t | 0 <= t < i :: w[t] == W(block, t)
    {
      var s0 := SmallSigma0(w[i - 15]);
      var s1 := SmallSigma1(w[i - 2]);
      w[i] := Add(Add(Add(w[i - 16], s0), w[i - 7]), s1);
    }
  }

  method RunRounds(start: Vars, w: array<Word>, block: Bytes) returns (v: Vars)
    requires |block| == 64 && w.Length == 64 && forall t | 0 <= t < 64 :: w[t] == W(block, t)
    ensures v == Rounds(start, block, 64)
  {
    hide W, BigSigma0, BigSigma1, Ch, Maj, Add;
    v := start;
    for i := 0 to 64
      invariant v == Rounds(start, block, i)
    {
      var temp1 := Add(Add(Add(Add(v.h, BigSigma1(v.e)), Ch(v.e, v.f, v.g)), K[i]), w[i]);
      var temp2 := Add(BigSigma0(v.a), Maj(v.a, v.b, v.c));
      v := Vars(Add(temp1, temp2), v.a, v.b, v.c, Add(v.d, temp1), v.e, v.f, v.g);
    }
  }

  /** digest_file: however reading splits a file, its digest is that of the whole content, and
      the byte count is its size. */
  method DigestChunks(chunks: seq<Bytes>) returns (digest: Bytes, total: nat)
    ensures digest == WrappedDigest(Concat(chunks))
    ensures |Concat(chunks)| < 0x2000_0000_0000_0000 ==> digest == Digest(Concat(chunks))
    ensures total == |Concat(chunks)|
  {
    hide WrappedDigest, Digest, Concat;
    var hasher := new Sha256State();
    total := 0;
    assert Concat([]) == [] by { ConcatNothing(); }
    for i := 0 to |chunks|
      invariant hasher.Valid() && fresh(hasher) && fresh(hasher.state) && fresh(hasher.buffer)
      invariant hasher.absorbed == Concat(chunks[..i]) && total == |Concat(chunks[..i])|
    {
      ConcatSnoc(chunks[..i], chunks[i]);
      assert chunks[..i + 1] == chunks[..i] + [chunks[i]];
      hasher.Update(chunks[i]);
      total := total + |chunks[i]|;
    }
    assert chunks[..|chunks|] == chunks;
    if |Concat(chunks)| < 0x2000_0000_0000_0000 { WrappedIsDigest(Concat(chunks)); }
    digest := hasher.Finalize();
  }
}
