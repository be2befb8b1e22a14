/** 64-bit machine words as natural numbers, with the bit operations the encoders use. */
module Words {
  const TWO_63: int := 0x8000_0000_0000_0000
  const TWO_64: int := 0x1_0000_0000_0000_0000

  type Word = w: nat | w < TWO_64

  predicate IsInt64(n: int) {
    -TWO_63 <= n < TWO_63
  }

  /** The signed reading of a word's bit pattern. */
  function WordToInt64(w: Word): (n: int)
    ensures IsInt64(n)
    ensures Int64ToWord(n) == w
  {
    if w < TWO_63 then w else w - TWO_64
  }

  /** The bit pattern of a signed 64-bit value. */
  function Int64ToWord(n: int): (w: Word)
    requires IsInt64(n)
    ensures w % TWO_63 == n % TWO_63 && (w < TWO_63 <==> 0 <= n)
  {
    if 0 <= n then n else n + TWO_64
  }

  function Pow2(k: nat): (p: nat)
    ensures p > 0
  {
    if k == 0 then 1 else 2 * Pow2(k - 1)
  }

  /** Left shift; bits shifted out of the word are lost. */
  function Shl(x: nat, k: nat): Word
    decreases k, x
  {
    if k == 0 then x % TWO_64 else Shl(2 * x, k - 1)
  }

  /** Logical right shift. */
  function Shr(x: nat, k: nat): nat
    decreases k, x
  {
    if k == 0 then x else Shr(x / 2, k - 1)
  }

  /** Bitwise or, bit by bit. */
  function Or(x: nat, y: nat): nat {
    if x == 0 && y == 0 then 0
    else (if x % 2 == 1 || y % 2 == 1 then 1 else 0) + 2 * Or(x / 2, y / 2)
  }

  /** Bitwise and, bit by bit. */
  function And(x: nat, y: nat): nat {
    if x == 0 || y == 0 then 0
    else (if x % 2 == 1 && y % 2 == 1 then 1 else 0) + 2 * And(x / 2, y / 2)
  }

  lemma {:induction false} OrZero(x: nat)
    ensures Or(x, 0) == x && Or(0, x) == x
    decreases x
  {
    if x != 0 { OrZero(x / 2); }
  }

  /** Or-ing a value into cleared low bits is addition: the fields do not overlap. */
  lemma {:induction false} OrDisjoint(x: nat, k: nat, y: nat)
    requires y < Pow2(k)
    ensures Or(x * Pow2(k), y) == x * Pow2(k) + y
    decreases k
  {
    if k == 0 {
      OrZero(x);
    } else {
      var p := Pow2(k - 1);
      assert x * Pow2(k) == 2 * (x * p);
      OrDisjoint(x, k - 1, y / 2);
      if x * Pow2(k) == 0 && y == 0 {
      } else {
        assert (x * Pow2(k)) / 2 == x * p && (x * Pow2(k)) % 2 == 0;
      }
    }
  }

  /** And-ing with a mask of k ones keeps the low k bits. */
  lemma {:induction false} AndMask(x: nat, k: nat, y: nat)
    requires y < Pow2(k)
    ensures And(x * Pow2(k) + y, Pow2(k) - 1) == y
    decreases k
  {
    if k != 0 {
      var p := Pow2(k - 1);
      var v := x * Pow2(k) + y;
      assert x * Pow2(k) == 2 * (x * p);
      assert v / 2 == x * p + y / 2 && v % 2 == y % 2;
      assert (Pow2(k) - 1) / 2 == p - 1 && (Pow2(k) - 1) % 2 == 1;
      AndMask(x, k - 1, y / 2);
    }
  }

  /** A left shift that loses no bit multiplies. */
  lemma {:induction false} ShlExact(x: nat, k: nat)
    requires x * Pow2(k) < TWO_64
    ensures Shl(x, k) == x * Pow2(k)
    decreases k
  {
    if k != 0 {
      var p := Pow2(k - 1);
      assert x * Pow2(k) == (2 * x) * p;
      ShlExact(2 * x, k - 1);
    }
  }

  /** A right shift drops the low k bits. */
  lemma {:induction false} ShrDrops(x: nat, k: nat, y: nat)
    requires y < Pow2(k)
    ensures Shr(x * Pow2(k) + y, k) == x
    decreases k
  {
    if k != 0 {
      var p := Pow2(k - 1);
      var v := x * Pow2(k) + y;
      assert x * Pow2(k) == 2 * (x * p);
      assert v / 2 == x * p + y / 2;
      ShrDrops(x, k - 1, y / 2);
    }
  }
}
