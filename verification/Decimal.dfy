/** Decimal digit strings and the numbers they denote. */
module Decimal {
  predicate IsDigit(c: char) {
    '0' <= c <= '9'
  }

  predicate AllDigits(s: string) {
    forall i :: 0 <= i < |s| ==> IsDigit(s[i])
  }

  function DigitValue(c: char): (d: nat)
    requires IsDigit(c)
    ensures d < 10 && DigitChar(d) == c
  {
    c as int - '0' as int
  }

  function DigitChar(d: nat): (c: char)
    requires d < 10
    ensures IsDigit(c)
  {
    ('0' as int + d) as char
  }

  lemma DigitsInOrder(d: nat)
    requires d < 10
    ensures DigitChar(d) == "0123456789"[d]
  {
  }

  function Pow10(k: nat): (p: nat)
    ensures p > 0
  {
    if k == 0 then 1 else 10 * Pow10(k - 1)
  }

  /** The number a digit string denotes, most significant digit first. */
  function Value(s: string): nat
    requires AllDigits(s)
  {
    if s == [] then 0 else 10 * Value(s[..|s| - 1]) + DigitValue(s[|s| - 1])
  }

  /** The k low-order digits of n, zero-padded on the left. */
  function Text(n: nat, k: nat): (s: string)
    ensures |s| == k && AllDigits(s)
  {
    if k == 0 then "" else Text(n / 10, k - 1) + [DigitChar(n % 10)]
  }

  /** n with its r low-order digits dropped. */
  function Drop(n: nat, r: nat): nat {
    if r == 0 then n else Drop(n / 10, r - 1)
  }

  lemma {:induction false} DropStep(n: nat, r: nat)
    ensures Drop(n, r + 1) == Drop(n, r) / 10
    decreases r
  {
    if r != 0 { DropStep(n / 10, r - 1); }
  }

  /** Digit j of the k-digit text of n, counted from the left. */
  lemma {:induction false} TextAt(n: nat, k: nat, j: nat)
    requires j < k
    ensures Text(n, k)[j] == DigitChar(Drop(n, k - 1 - j) % 10)
    decreases k
  {
    if j < k - 1 { TextAt(n / 10, k - 1, j); }
  }

  /** Reading a digit string as a number and printing it at the same width gives the string back. */
  lemma {:induction false} TextOfValue(s: string)
    requires AllDigits(s)
    ensures Text(Value(s), |s|) == s
    ensures Value(s) < Pow10(|s|)
    decreases |s|
  {
    if s != [] {
      var front := s[..|s| - 1];
      TextOfValue(front);
      assert Value(s) / 10 == Value(front) && Value(s) % 10 == DigitValue(s[|s| - 1]);
      assert s == front + [s[|s| - 1]];
    }
  }

  /** Digit strings of one length are in the order of the numbers they denote. */
  lemma {:induction false} ValueOrders(s: string, t: string, k: nat)
    requires AllDigits(s) && AllDigits(t) && |s| == |t| && k < |s|
    requires s[..k] == t[..k] && s[k] < t[k]
    ensures Value(s) < Value(t)
    decreases |s|
  {
    var front, front' := s[..|s| - 1], t[..|t| - 1];
    if k < |front| {
      assert front[..k] == s[..k] && front'[..k] == t[..k];
      ValueOrders(front, front', k);
    }
  }

  lemma {:induction false} DropBelowPow10(n: nat, k: nat)
    requires n < Pow10(k)
    ensures Drop(n, k) == 0
    decreases k
  {
    if k != 0 { DropBelowPow10(n / 10, k - 1); }
  }
}
