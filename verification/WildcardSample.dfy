/** Strings that a pattern matches token by token, and the matcher's straight run along them. */
module WildcardSample {
  import opened Wrappers
  import opened Sequences
  import opened Wildcard
  import opened WildcardMeaning

  /** Reading tokens from j on, one gets to l. */
  predicate Boundary(wild: string, j: nat, l: nat)
    decreases l - j
  {
    && j <= l <= |wild|
    && (j == l || (if wild[j] == ESCAPE then Boundary(wild, j + 2, l) else Boundary(wild, j + 1, l)))
  }

  /** One character for every token from j up to l, and nothing for a star. */
  function Sample(wild: string, j: nat, l: nat): string
    requires Boundary(wild, j, l)
    decreases l - j
  {
    if j == l then ""
    else if wild[j] == STAR then Sample(wild, j + 1, l)
    else if wild[j] == ESCAPE then
      assert Boundary(wild, j + 2, l);
      [wild[j + 1]] + Sample(wild, j + 2, l)
    else [if wild[j] == QUESTION then 'a' else wild[j]] + Sample(wild, j + 1, l)
  }

  /** The string has the sample at i, and something after it. */
  predicate HasSample(tame: string, i: nat, wild: string, j: nat, l: nat)
    requires Boundary(wild, j, l)
  {
    var s := Sample(wild, j, l);
    i + |s| < |tame| && tame[i..i + |s|] == s
  }

  function AfterToken(wild: string, j: nat): nat
    requires j < |wild|
  {
    if wild[j] == ESCAPE then j + 2 else j + 1
  }

  lemma SampleStep(tame: string, i: nat, wild: string, j: nat, l: nat)
    requires Boundary(wild, j, l) && j < l && wild[j] != STAR && HasSample(tame, i, wild, j, l)
    ensures Boundary(wild, AfterToken(wild, j), l) && HasSample(tame, i + 1, wild, AfterToken(wild, j), l)
    ensures i + 1 < |tame| && |Sample(wild, j, l)| == 1 + |Sample(wild, AfterToken(wild, j), l)|
    ensures wild[j] == QUESTION || tame[i] == wild[AfterToken(wild, j) - 1]
  {
    var s, rest := Sample(wild, j, l), Sample(wild, AfterToken(wild, j), l);
    assert s == [s[0]] + rest && tame[i] == tame[i..i + |s|][0];
    assert tame[i + 1..i + |s|] == tame[i..i + |s|][1..] == rest;
  }

  lemma CleanStep(wild: string, j: nat)
    requires j < |wild| && Clean(wild[j..])
    ensures AfterToken(wild, j) <= |wild| && Clean(wild[AfterToken(wild, j)..])
    ensures wild[j] == STAR && j + 1 < |wild| ==> wild[j + 1] != STAR
  {
    var w := wild[j..];
    assert wild[j] == ESCAPE ==> w[2..] == wild[j + 2..];
    assert wild[j] != ESCAPE ==> w[1..] == wild[j + 1..];
    assert j + 1 < |wild| ==> w[1] == wild[j + 1];
  }

  lemma StarIgnoresMark(tame: string, wild: string, i: nat, j: nat, mark: Option<Mark>)
    requires ValidState(tame, wild, i, j, mark) && wild[j] == STAR
    ensures Run(tame, wild, i, j, mark) == Run(tame, wild, i, j, None)
  {
  }

  /** A token that fits is stepped over. */
  lemma TokenRun(tame: string, wild: string, i: nat, j: nat, mark: Option<Mark>)
    requires ValidState(tame, wild, i, j, mark) && wild[j] != STAR && AfterToken(wild, j) <= |wild| && i + 1 < |tame|
    requires wild[j] == QUESTION || tame[i] == wild[AfterToken(wild, j) - 1]
    ensures Run(tame, wild, i, j, mark)
         == if AfterToken(wild, j) < |wild| then Run(tame, wild, i + 1, AfterToken(wild, j), mark)
            else if mark.None? then No else Restart(tame, wild, mark.value)
  {
    assert Run(tame, wild, i, j, mark) == Next(tame, wild, i, AfterToken(wild, j) - 1, mark);
  }

  /** A star whose group begins right here is stepped over with the group's first token. */
  lemma StarRun(tame: string, wild: string, i: nat, j: nat, mark: Option<Mark>)
    requires ValidState(tame, wild, i, j, mark) && wild[j] == STAR && j + 1 < |wild| && i + 1 < |tame|
    requires AfterToken(wild, j + 1) <= |wild|
    requires wild[j + 1] == QUESTION || tame[i] == wild[AfterToken(wild, j + 1) - 1]
    ensures Run(tame, wild, i, j, mark)
         == if AfterToken(wild, j + 1) < |wild|
            then Run(tame, wild, i + 1, AfterToken(wild, j + 1), Some(Mark(i, j + 1)))
            else Restart(tame, wild, Mark(i, j + 1))
  {
    assert AdvanceTame(tame, wild, i, j + 1) == Found(i, AfterToken(wild, j + 1) - 1);
    assert Run(tame, wild, i, j, mark) == Next(tame, wild, i, AfterToken(wild, j + 1) - 1, Some(Mark(i, j + 1)));
  }

  /** The sample step, for the token at j or, if that is a star, the one after it. */
  lemma StepFacts(tame: string, wild: string, i: nat, j: nat, l: nat)
    requires j < l < |wild| && wild[l] == STAR
    requires Clean(wild[j..]) && Boundary(wild, j, l) && HasSample(tame, i, wild, j, l)
    ensures var b := if wild[j] == STAR then j + 1 else j;
            && b < l && wild[b] != STAR && AfterToken(wild, b) <= l && i + 1 < |tame|
            && Clean(wild[AfterToken(wild, b)..]) && Boundary(wild, AfterToken(wild, b), l)
            && HasSample(tame, i + 1, wild, AfterToken(wild, b), l)
            && |Sample(wild, j, l)| == 1 + |Sample(wild, AfterToken(wild, b), l)|
            && (wild[b] == QUESTION || tame[i] == wild[AfterToken(wild, b) - 1])
  {
    CleanStep(wild, j);
    if wild[j] == STAR {
      CleanStep(wild, j + 1);
      SampleStep(tame, i, wild, j + 1, l);
    } else {
      SampleStep(tame, i, wild, j, l);
    }
  }

  lemma StraightStep(tame: string, wild: string, i: nat, j: nat, l: nat, mark: Option<Mark>)
      returns (j': nat, mark': Option<Mark>)
    requires ValidState(tame, wild, i, j, mark) && j < l < |wild| && wild[l] == STAR
    requires Clean(wild[j..]) && Boundary(wild, j, l) && HasSample(tame, i, wild, j, l)
    ensures j < j' <= l && i + 1 < |tame| && ValidState(tame, wild, i + 1, j', mark')
    ensures Clean(wild[j'..]) && Boundary(wild, j', l) && HasSample(tame, i + 1, wild, j', l)
    ensures |Sample(wild, j, l)| == 1 + |Sample(wild, j', l)|
    ensures Run(tame, wild, i, j, mark) == Run(tame, wild, i + 1, j', mark')
  {
    StepFacts(tame, wild, i, j, l);
    if wild[j] == STAR {
      StarRun(tame, wild, i, j, mark);
      j', mark' := AfterToken(wild, j + 1), Some(Mark(i, j + 1));
    } else {
      TokenRun(tame, wild, i, j, mark);
      j', mark' := AfterToken(wild, j), mark;
    }
  }

  /** On a string that has the sample the matcher walks straight to the star at l, reached at k. */
  lemma {:induction false} StraightRun(tame: string, wild: string, i: nat, j: nat, k: nat, l: nat, mark: Option<Mark>)
    requires ValidState(tame, wild, i, j, mark) && l < |wild| && wild[l] == STAR
    requires Clean(wild[j..]) && Boundary(wild, j, l) && HasSample(tame, i, wild, j, l)
    requires k == i + |Sample(wild, j, l)|
    ensures k < |tame| && Run(tame, wild, i, j, mark) == Run(tame, wild, k, l, None)
    decreases l - j
  {
    if j == l {
      StarIgnoresMark(tame, wild, i, j, mark);
    } else {
      var j', mark' := StraightStep(tame, wild, i, j, l, mark);
      StraightRun(tame, wild, i + 1, j', k, l, mark');
    }
  }

  lemma {:induction false} CleanIsBoundary(wild: string, j: nat)
    requires j <= |wild| && Clean(wild[j..])
    ensures Boundary(wild, j, |wild|)
    decreases |wild| - j
  {
    if j < |wild| {
      CleanStep(wild, j);
      CleanIsBoundary(wild, AfterToken(wild, j));
    }
  }

  /** A star-free group accepts its own sample, and an escape stands only for an escape. */
  lemma {:induction false} SampleFits(wild: string, j: nat)
    requires j <= |wild| && Clean(wild[j..]) && StarFree(Tokens(wild[j..])) && Boundary(wild, j, |wild|)
    ensures var s, g := Sample(wild, j, |wild|), Tokens(wild[j..]);
            && |s| == |g| && FullAt(s, 0, g)
            && forall q :: 0 <= q < |s| && s[q] == ESCAPE ==> g[q] == Literal(ESCAPE)
    decreases |wild| - j
  {
    if j < |wild| {
      RestIsStarFree(wild, j);
      var x, j' := FirstToken(wild, j);
      SampleFits(wild, j');
      var s, g := Sample(wild, j, |wild|), Tokens(wild[j..]);
      var s', g' := Sample(wild, j', |wild|), Tokens(wild[j'..]);
      assert s == [s[0]] + s' && g == [x] + g' && x.Accepts(s[0]);
      forall q | 0 <= q < |s|
        ensures g[q].Accepts(s[0 + q]) && (s[q] == ESCAPE ==> g[q] == Literal(ESCAPE))
      {
        if q > 0 { assert s[q] == s'[0 + (q - 1)] && g[q] == g'[q - 1]; }
      }
    } else {
      assert wild[j..] == "";
    }
  }

  /** Where the string has the sample, it has a match. */
  lemma SampleIsFull(tame: string, k: nat, wild: string, j: nat)
    requires j <= |wild| && Clean(wild[j..]) && StarFree(Tokens(wild[j..])) && Boundary(wild, j, |wild|)
    requires k + |Sample(wild, j, |wild|)| <= |tame|
    requires tame[k..k + |Sample(wild, j, |wild|)|] == Sample(wild, j, |wild|)
    ensures FullAt(tame, k, Tokens(wild[j..])) && |Sample(wild, j, |wild|)| == |Tokens(wild[j..])|
  {
    SampleFits(wild, j);
    var s, g := Sample(wild, j, |wild|), Tokens(wild[j..]);
    forall m | 0 <= m < |g| ensures g[m].Accepts(tame[k + m]) {
      assert s[0 + m] == tame[k..k + |s|][m];
    }
  }

  // ---- What follows the last star must end the string -----------------------------------------

  lemma {:induction false} TailMatches(t: string, front: seq<Token>, g: seq<Token>)
    requires StarFree(g) && Matches(t, front + ([Star] + g))
    ensures |g| <= |t| && Matches(t[|t| - |g|..], g)
    decreases |front|, |t|
  {
    var p := front + ([Star] + g);
    if front == [] {
      assert p == [Star] + g && t[0..] == t;
      StarMeansLater(t, 0, g);
      var k :| -1 < k <= |t| && Matches(t[k..], g);
      NothingAdded(g);
      GroupConsumes(t[k..], g, []);
      assert k + |g| == |t|;
    } else {
      assert p[0] == front[0] && p[1..] == front[1..] + ([Star] + g);
      if Matches(t, p[1..]) && front[0].Star? {
        TailMatches(t, front[1..], g);
      } else {
        if front[0].Star? { TailMatches(t[1..], front, g); } else { TailMatches(t[1..], front[1..], g); }
        assert t[1..][|t| - 1 - |g|..] == t[|t| - |g|..];
      }
    }
  }

  lemma {:induction false} TokensAtStar(wild: string, j: nat, l: nat) returns (front: seq<Token>)
    requires Boundary(wild, j, l) && l < |wild| && wild[l] == STAR
    ensures Tokens(wild[j..]) == front + ([Star] + Tokens(wild[l + 1..]))
    decreases l - j
  {
    var w := wild[j..];
    if j == l {
      front := [];
      assert w[1..] == wild[l + 1..];
    } else {
      var j' := AfterToken(wild, j);
      var rest := TokensAtStar(wild, j', l);
      assert wild[j] == ESCAPE ==> w[1] == wild[j + 1] && w[2..] == wild[j'..];
      assert wild[j] != ESCAPE ==> w[1..] == wild[j'..];
      var x := Tokens(w)[0];
      assert Tokens(w) == [x] + Tokens(wild[j'..]);
      front := [x] + rest;
      Associative([x], rest, [Star] + Tokens(wild[l + 1..]));
    }
  }
}
