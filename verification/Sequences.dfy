/** Facts about sequences that the proofs elsewhere use step by step. */
module Sequences {
  predicate StrictlyAscending(s: seq<nat>) {
    forall i, j :: 0 <= i < j < |s| ==> s[i] < s[j]
  }

  lemma Associative<X>(a: seq<X>, b: seq<X>, c: seq<X>)
    ensures a + b + c == a + (b + c)
  {
  }

  lemma NothingAdded<X>(a: seq<X>)
    ensures a + [] == a && [] + a == a
  {
  }

  lemma DropFirst<X>(a: seq<X>, b: seq<X>)
    requires a != []
    ensures (a + b)[1..] == a[1..] + b && (a + b)[0] == a[0]
  {
  }

  /** A slice grown by one. */
  lemma SliceNext<X>(s: seq<X>, i: nat, j: nat)
    requires i <= j < |s|
    ensures s[i..j + 1] == s[i..j] + [s[j]]
  {
  }

  lemma TakeNext<X>(s: seq<X>, i: nat)
    requires i < |s|
    ensures s[..i + 1] == s[..i] + [s[i]] && s[..i + 1][..i] == s[..i]
  {
  }

  lemma TakeAll<X>(s: seq<X>)
    ensures s[..|s|] == s
  {
  }

  lemma LastOfPush<X>(a: seq<X>, x: X)
    ensures (a + [x])[..|a|] == a && (a + [x])[|a|] == x
  {
  }

  /** A suffix of an extended sequence. */
  lemma SuffixGrows<X>(s: seq<X>, t: seq<X>, i: nat)
    requires i <= |s|
    ensures (s + t)[i..] == s[i..] + t && (s + t)[i..|s|] == s[i..]
  {
  }

  /** A slice of the second of two joined sequences. */
  lemma SliceOfSecond<X>(s: seq<X>, t: seq<X>, i: nat, j: nat)
    requires i <= j <= |t|
    ensures (s + t)[|s| + i..|s| + j] == t[i..j]
  {
  }
}
