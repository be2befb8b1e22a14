/** Facts about the meaning of wildcard patterns. */
module WildcardMeaning {
  import opened Wildcard

  /** The pattern matches at some position after b. */
  ghost predicate MatchesLater(t: string, b: int, p: seq<Token>) {
    exists k :: b < k <= |t| && 0 <= k && Matches(t[k..], p)
  }

  /** A star matches exactly where the rest matches at this position or a later one. */
  lemma {:induction false} StarMeansLater(t: string, i: nat, p: seq<Token>)
    requires i <= |t|
    ensures Matches(t[i..], [Star] + p) <==> MatchesLater(t, i - 1, p)
    decreases |t| - i
  {
    var s := [Star] + p;
    assert s[1..] == p;
    if i < |t| {
      StarMeansLater(t, i + 1, p);
      assert t[i..][1..] == t[i + 1..];
    }
    if Matches(t[i..], p) {
      assert MatchesLater(t, i - 1, p);
    }
    if i < |t| && MatchesLater(t, i, p) {
      var k :| i < k <= |t| && Matches(t[k..], p);
      assert MatchesLater(t, i - 1, p);
    }
    if MatchesLater(t, i - 1, p) {
      var k :| i - 1 < k <= |t| && 0 <= k && Matches(t[k..], p);
      if k > i { assert MatchesLater(t, i, p); }
    }
  }

  /** A star-free group consumes exactly one character per token. */
  lemma {:induction false} GroupConsumes(t: string, g: seq<Token>, p: seq<Token>)
    requires StarFree(g) && Matches(t, g + p)
    ensures |g| <= |t| && Matches(t[|g|..], p)
    decreases |g|
  {
    if g == [] {
      assert g + p == p && t[0..] == t;
    } else {
      assert (g + p)[0] == g[0] && (g + p)[1..] == g[1..] + p;
      GroupConsumes(t[1..], g[1..], p);
      assert t[1..][|g| - 1..] == t[|g|..];
    }
  }

  /** Matching one more token at t[i]. */
  lemma MatchesStep(t: string, i: nat, x: Token, p: seq<Token>)
    requires i < |t| && !x.Star?
    ensures Matches(t[i..], [x] + p) <==> x.Accepts(t[i]) && Matches(t[i + 1..], p)
  {
    assert ([x] + p)[1..] == p && t[i..][1..] == t[i + 1..];
  }

  /** Once the string is used up, only nothing or a lone star is left to match. */
  lemma MatchesNothing(w: string)
    requires Clean(w)
    ensures Matches("", Tokens(w)) <==> w == "" || w == [STAR]
  {
    if w != "" && w[0] == STAR {
      assert Tokens(w)[1..] == Tokens(w[1..]);
      if w[1..] == "" { assert w == [STAR]; }
    }
  }

  /** The first token of the pattern at j, and where the rest begins. */
  lemma FirstToken(wild: string, j: nat) returns (x: Token, j': nat)
    requires j < |wild| && wild[j] != STAR && Clean(wild[j..])
    ensures j' == (if wild[j] == ESCAPE then j + 2 else j + 1) <= |wild|
    ensures !x.Star? && Tokens(wild[j..]) == [x] + Tokens(wild[j'..])
    ensures Clean(wild[j'..]) && (SafeToRestart(wild[j..]) ==> SafeToRestart(wild[j'..]))
    ensures x == if wild[j] == QUESTION then AnyChar
                 else if wild[j] == ESCAPE then Literal(wild[j + 1]) else Literal(wild[j])
  {
    var w := wild[j..];
    if wild[j] == ESCAPE {
      x, j' := Literal(wild[j + 1]), j + 2;
      assert w[2..] == wild[j'..];
    } else {
      x, j' := if wild[j] == QUESTION then AnyChar else Literal(wild[j]), j + 1;
      assert w[1..] == wild[j'..];
    }
  }

  lemma StarFirst(w: string)
    requires w != ""
    ensures w[0] == STAR ==> Star in Tokens(w)
  {
  }

  /** The rest of a star-free group is star-free, and starting over in it is never an issue. */
  lemma RestIsStarFree(wild: string, j: nat)
    requires j < |wild| && Clean(wild[j..]) && StarFree(Tokens(wild[j..]))
    ensures wild[j] != STAR
    ensures var j' := if wild[j] == ESCAPE then j + 2 else j + 1;
            j' <= |wild| && Clean(wild[j'..]) && StarFree(Tokens(wild[j'..]))
  {
    StarFirst(wild[j..]);
    var x, j' := FirstToken(wild, j);
    assert forall y :: y in Tokens(wild[j'..]) ==> y in Tokens(wild[j..]);
  }

  lemma {:induction false} SafeWithoutStar(w: string)
    requires StarFree(Tokens(w))
    ensures SafeToRestart(w)
    decreases |w|
  {
    if w != "" {
      StarFirst(w);
      if w[0] == ESCAPE {
        if |w| > 1 {
          assert forall y :: y in Tokens(w[2..]) ==> y in Tokens(w);
          SafeWithoutStar(w[2..]);
        }
      } else {
        assert forall y :: y in Tokens(w[1..]) ==> y in Tokens(w);
        SafeWithoutStar(w[1..]);
      }
    }
  }

  // ---- Places where a group matches -----------------------------------------------------------

  /** The tokens accept the characters from k on, one each. */
  predicate FullAt(t: string, k: nat, g: seq<Token>) {
    k + |g| <= |t| && forall m :: 0 <= m < |g| ==> g[m].Accepts(t[k + m])
  }

  lemma RefusedHere(t: string, k: nat, m: nat, g: seq<Token>)
    requires m < |g| && k + m < |t| && !g[m].Accepts(t[k + m])
    ensures !FullAt(t, k, g)
  {
  }

  lemma FullAtStep(t: string, k: nat, x: Token, g: seq<Token>)
    requires k < |t|
    ensures FullAt(t, k, [x] + g) <==> x.Accepts(t[k]) && FullAt(t, k + 1, g)
  {
    var p := [x] + g;
    if FullAt(t, k, p) {
      assert p[0] == x;
      forall m | 0 <= m < |g| ensures g[m].Accepts(t[k + 1 + m]) { assert p[m + 1] == g[m]; }
    }
    if x.Accepts(t[k]) && FullAt(t, k + 1, g) {
      forall m | 0 <= m < |p| ensures p[m].Accepts(t[k + m]) {
        if m > 0 { assert p[m] == g[m - 1]; }
      }
    }
  }

  lemma FullAtPush(t: string, k: nat, g: seq<Token>, x: Token)
    requires FullAt(t, k, g) && k + |g| < |t| && x.Accepts(t[k + |g|])
    ensures FullAt(t, k, g + [x])
  {
    var p := g + [x];
    forall m | 0 <= m < |p| ensures p[m].Accepts(t[k + m]) {
      if m < |g| { assert p[m] == g[m]; }
    }
  }

  /** A star-free group matches a suffix exactly if it accepts its characters one by one. */
  lemma {:induction false} FullMeans(t: string, k: nat, g: seq<Token>)
    requires k <= |t| && StarFree(g)
    ensures Matches(t[k..], g) <==> k + |g| == |t| && FullAt(t, k, g)
    decreases |g|
  {
    if g != [] && k < |t| {
      var x, rest := g[0], g[1..];
      assert g == [x] + rest && x in g && forall y :: y in rest ==> y in g;
      MatchesStep(t, k, x, rest);
      FullAtStep(t, k, x, rest);
      FullMeans(t, k + 1, rest);
    }
  }

  /** A star-free group can match later only at the end of the string. */
  lemma LaterMeans(t: string, b: int, g: seq<Token>)
    requires StarFree(g)
    ensures MatchesLater(t, b, g) <==> |g| <= |t| && b < |t| - |g| && FullAt(t, |t| - |g|, g)
  {
    forall k | 0 <= k <= |t| ensures Matches(t[k..], g) <==> k + |g| == |t| && FullAt(t, k, g) {
      FullMeans(t, k, g);
    }
    if |g| <= |t| && b < |t| - |g| && FullAt(t, |t| - |g|, g) {
      assert Matches(t[|t| - |g|..], g);
    }
  }
}
