/** The record that the template of g1g2_delta_patch.py spells: fixed-width decimals and literal text. */
module PrefixRule {
  import opened PrefixDelta

  // A numeral, most significant digit first.
  predicate Digits(s: string) {
    forall i | 0 <= i < |s| :: '0' <= s[i] <= '9'
  }

  function Value(s: string): nat
    requires Digits(s)
  {
    if |s| == 0 then 0 else 10 * Value(s[..|s| - 1]) + (s[|s| - 1] as int - 48)
  }

  function Pow10(k: nat): (p: nat)
    ensures 0 < p
  {
    if k == 0 then 1 else 10 * Pow10(k - 1)
  }

  lemma ValueSnoc(s: string, c: char)
    requires Digits(s) && '0' <= c <= '9'
    ensures Digits(s + [c]) && Value(s + [c]) == 10 * Value(s) + (c as int - 48)
  {
    assert (s + [c])[..|s|] == s;
  }

  lemma DigitIs(d: nat)
    requires d < 10
    ensures '0' <= Digit(d) <= '9' && Digit(d) as int == 48 + d
  {
  }

  /** Decimal spells the number, with no leading zero but in "0" itself. */
  lemma {:induction false} DecimalIs(n: nat)
    ensures var s := Decimal(n);
      && Digits(s) && Value(s) == n && |s| > 0 && (n > 0 ==> s[0] != '0') && (n == 0 ==> |s| == 1)
  {
    DigitIs(n % 10);
    if n >= 10 {
      DecimalIs(n / 10);
      ValueSnoc(Decimal(n / 10), Digit(n % 10));
    } else {
      var none: string := "";
      ValueSnoc(none, Digit(n));
      assert none + [Digit(n)] == Decimal(n);
    }
  }

  lemma {:induction false} ZerosAre(k: int)
    ensures |Zeros(k)| == (if k < 0 then 0 else k) && forall i | 0 <= i < |Zeros(k)| :: Zeros(k)[i] == '0'
    decreases k
  {
    if k > 0 { ZerosAre(k - 1); }
  }

  lemma {:induction false} ZerosInFront(z: string, s: string)
    requires Digits(s) && forall i | 0 <= i < |z| :: z[i] == '0'
    ensures Digits(z + s) && Value(z + s) == Value(s)
    decreases |z| + |s|
  {
    if |s| > 0 {
      ZerosInFront(z, s[..|s| - 1]);
      assert (z + s)[..|z + s| - 1] == z + s[..|s| - 1];
    } else if |z| > 0 {
      ZerosInFront(z[..|z| - 1], s);
      assert z + s == z && z[..|z| - 1] + s == z[..|z| - 1];
    }
  }

  // A numeral of at least w digits, and of more only when it needs them.
  ghost predicate Spelled(s: string, n: nat, w: int) {
    && Digits(s) && Value(s) == n && |s| >= 1 && |s| >= w
    && (|s| > w && |s| > 1 ==> s[0] != '0')
  }

  /** Padding to a width fills up with zeros on the left, after the sign, which counts in the width. */
  lemma PaddedIs(i: int, width: nat)
    ensures i >= 0 ==> Spelled(Padded(i, width), i, width)
    ensures i < 0 ==> |Padded(i, width)| > 0 && Padded(i, width)[0] == '-' && Spelled(Padded(i, width)[1..], -i, width - 1)
  {
    hide Spelled, Zeros, Decimal;
    if i < 0 {
      FilledUp(-i, width - 1);
      var s := Zeros(width - 1 - |Decimal(-i)|) + Decimal(-i);
      assert Padded(i, width) == "-" + s && ("-" + s)[1..] == s;
    } else {
      FilledUp(i, width);
    }
  }

  lemma FilledUp(n: nat, w: int)
    ensures Spelled(Zeros(w - |Decimal(n)|) + Decimal(n), n, w)
  {
    DecimalIs(n);
    var z, d := Zeros(w - |Decimal(n)|), Decimal(n);
    ZerosAre(w - |d|);
    ZerosInFront(z, d);
    hide Zeros, Decimal, Value, Digits;
    assert |z| == 0 ==> z + d == d;
  }

  lemma {:induction false} LongIsGreat(s: string)
    requires Digits(s) && |s| > 0 && s[0] != '0'
    ensures Value(s) >= Pow10(|s| - 1)
  {
    if |s| > 1 { LongIsGreat(s[..|s| - 1]); }
  }

  lemma SpelledWidth(s: string, n: nat, w: nat)
    requires Spelled(s, n, w) && n < Pow10(w) && w > 0
    ensures |s| == w
  {
    if |s| > w {
      LongIsGreat(s);
      PowGrows(w, |s| - 1);
    }
  }

  lemma {:induction false} PowGrows(a: nat, b: nat)
    requires a <= b
    ensures Pow10(a) <= Pow10(b)
    decreases b
  {
    if a < b { PowGrows(a, b - 1); }
  }

  lemma Widths()
    ensures Pow10(2) == 100 && Pow10(10) == 10_000_000_000
  {
    assert Pow10(2) == 10 * Pow10(1) && Pow10(4) == 100 * Pow10(2) && Pow10(6) == 100 * Pow10(4);
    assert Pow10(8) == 100 * Pow10(6) && Pow10(10) == 100 * Pow10(8);
  }

  /** The record of an index of at most ten digits: the prefix, the index in ten digits, the fixed text, the index
      modulo 97 in two digits, and a newline. */
  lemma RecordIs(prefix: string, idx: nat) returns (number: string, code: string)
    requires idx < 10_000_000_000
    ensures RuleRecord(prefix, idx) == prefix + number + "|TYPE=A|STATUS=OK|VALUE=" + code + "\n"
    ensures |number| == 10 && Digits(number) && Value(number) == idx
    ensures |code| == 2 && Digits(code) && Value(code) == idx % 97
  {
    number, code := Padded(idx, 10), Padded(idx % 97, 2);
    PaddedIs(idx, 10);
    PaddedIs(idx % 97, 2);
    hide Padded;
    Widths();
    SpelledWidth(number, idx, 10);
    SpelledWidth(code, idx % 97, 2);
  }
}
