/** Strings on which starting over at escaped escapes goes wrong. */
module WildcardMisread {
  import opened Wrappers
  import opened Sequences
  import opened Wildcard
  import opened WildcardMeaning
  import opened WildcardScan
  import opened WildcardRestart
  import opened WildcardSample

  // ---- The last group -------------------------------------------------------------------------

  /** The last star of the pattern is at l, and a group follows it. */
  ghost predicate LastStarAt(wild: string, l: nat) {
    && Clean(wild) && l + 1 < |wild| && wild[l] == STAR && Boundary(wild, 0, l)
    && Clean(wild[l + 1..]) && StarFree(Tokens(wild[l + 1..]))
  }

  /** On a string that has the sample of what precedes the last star, only the search for the last group
      is left. */
  lemma ToLastStar(tame: string, wild: string, l: nat)
    requires LastStarAt(wild, l) && HasSample(tame, 0, wild, 0, l)
    ensures RunFromStart(tame, wild) == Scan(tame, wild, |Sample(wild, 0, l)|, l + 1)
  {
    assert wild[0..] == wild;
    StraightRun(tame, wild, 0, 0, |Sample(wild, 0, l)|, l, None);
  }

  lemma {:induction false} PrefixMatches(wild: string, j: nat, l: nat, t: string)
    requires Boundary(wild, j, l) && l < |wild| && Matches(t, Tokens(wild[l..]))
    ensures Matches(Sample(wild, j, l) + t, Tokens(wild[j..]))
    decreases l - j
  {
    if j == l {
      NothingAdded(t);
    } else {
      var j' := AfterToken(wild, j);
      PrefixMatches(wild, j', l, t);
      var w := wild[j..];
      assert wild[j] == ESCAPE ==> w[1] == wild[j + 1] && w[2..] == wild[j'..];
      assert wild[j] != ESCAPE ==> w[1..] == wild[j'..];
      var p, rest := Tokens(w), Tokens(wild[j'..]);
      assert p == [p[0]] + rest && p[1..] == rest;
      if wild[j] != STAR {
        var s := Sample(wild, j, l);
        Associative([s[0]], Sample(wild, j', l), t);
        DropFirst([s[0]], Sample(wild, j', l) + t);
        assert (s + t)[1..] == Sample(wild, j', l) + t;
      }
    }
  }

  lemma FullAtShifted(s: string, t: string, k: nat, g: seq<Token>)
    requires k + |g| <= |t|
    ensures FullAt(s + t, |s| + k, g) <==> FullAt(t, k, g)
  {
    if FullAt(t, k, g) {
      forall m | 0 <= m < |g| ensures g[m].Accepts((s + t)[|s| + k + m]) {
        assert (s + t)[|s| + k + m] == t[k + m];
      }
    }
    if FullAt(s + t, |s| + k, g) {
      forall m | 0 <= m < |g| ensures g[m].Accepts(t[k + m]) {
        assert (s + t)[|s| + k + m] == t[k + m];
      }
    }
  }

  /** A string that has the sample of what precedes the last star, and then t. */
  function After(wild: string, l: nat, t: string): string
    requires Boundary(wild, 0, l)
  {
    Sample(wild, 0, l) + t
  }

  lemma AfterEnds(wild: string, l: nat, t: string)
    requires LastStarAt(wild, l) && |Tokens(wild[l + 1..])| <= |t| && Matches(After(wild, l, t), Tokens(wild))
    ensures EndsWith(t, Tokens(wild[l + 1..]))
  {
    var s, g, tame := Sample(wild, 0, l), Tokens(wild[l + 1..]), After(wild, l, t);
    assert wild[0..] == wild;
    var front := TokensAtStar(wild, 0, l);
    TailMatches(tame, front, g);
    FullMeans(tame, |tame| - |g|, g);
    FullAtShifted(s, t, |t| - |g|, g);
  }

  /** Such a string matches the pattern exactly if t ends with a match of the last group. */
  lemma AfterMatches(wild: string, l: nat, t: string)
    requires LastStarAt(wild, l) && |Tokens(wild[l + 1..])| <= |t|
    ensures Matches(After(wild, l, t), Tokens(wild)) <==> EndsWith(t, Tokens(wild[l + 1..]))
  {
    var g := Tokens(wild[l + 1..]);
    if Matches(After(wild, l, t), Tokens(wild)) { AfterEnds(wild, l, t); }
    if EndsWith(t, g) {
      assert wild[0..] == wild && wild[l..][1..] == wild[l + 1..];
      FullMeans(t, |t| - |g|, g);
      StarMeansLater(t, 0, g);
      assert t[0..] == t && MatchesLater(t, -1, g);
      PrefixMatches(wild, 0, l, t);
    }
  }

  /** If t begins with a match of the group and goes on, the matcher starts over after that match. */
  lemma AfterRestarts(wild: string, l: nat, t: string)
    requires LastStarAt(wild, l) && wild[l + 1] == ESCAPE
    requires FullAt(t, 0, Tokens(wild[l + 1..])) && |Tokens(wild[l + 1..])| < |t|
    ensures var tame, k := After(wild, l, t), |Sample(wild, 0, l)|;
            && k < |tame| && FullAt(tame, k, Tokens(wild[l + 1..]))
            && RunFromStart(tame, wild) == Restart(tame, wild, Mark(k, l + 1))
  {
    var s, g, tame := Sample(wild, 0, l), Tokens(wild[l + 1..]), After(wild, l, t);
    assert tame[0..0 + |s|] == s;
    ToLastStar(tame, wild, l);
    FullAtShifted(s, t, 0, g);
    ScanFirstFull(tame, wild, |s|, l + 1);
    FirstFullAt(tame, |s|, g);
  }

  ghost predicate RightOn(tame: string, wild: string) {
    RunFromStart(tame, wild) == if Matches(tame, Tokens(wild)) then Yes else No
  }

  // ---- Two matches ----------------------------------------------------------------------------

  /** A character that both tokens accept. */
  function Meld(x: Token, y: Token): char {
    if x.Literal? then x.c else if y.Literal? then y.c else 'a'
  }

  /** A string with a match of g at its start and one of h, e characters later, at its end. */
  function Overlay(g: seq<Token>, h: seq<Token>, e: nat): string
    requires e <= |g| <= e + |h|
  {
    seq(e + |h|, q requires 0 <= q < e + |h| =>
      if q < e then Meld(g[q], AnyChar)
      else if q < |g| then Meld(g[q], h[q - e])
      else Meld(h[q - e], AnyChar))
  }

  lemma OverlayFits(g: seq<Token>, h: seq<Token>, e: nat)
    requires e <= |g| <= e + |h| && Follows(g, h, e) && StarFree(g) && StarFree(h)
    ensures var t := Overlay(g, h, e);
            && FullAt(t, 0, g) && FullAt(t, e, h)
            && forall q :: 0 <= q < e && g[q] != Literal(ESCAPE) ==> t[q] != ESCAPE
  {
    var t := Overlay(g, h, e);
    forall m | 0 <= m < |g| ensures g[m].Accepts(t[0 + m]) {
      assert g[m] in g;
      if m >= e { assert h[m - e] in h && Compatible(g[m], h[m - e]); }
    }
    forall m | 0 <= m < |h| ensures h[m].Accepts(t[e + m]) {
      assert h[m] in h && (e + m) - e == m;
      if e + m < |g| {
        assert g[e + m] in g && Compatible(g[e + m], h[(e + m) - e]);
        assert t[e + m] == Meld(g[e + m], h[m]);
      } else {
        assert t[e + m] == Meld(h[m], AnyChar);
      }
    }
  }

  /** The next escape after the first match. */
  lemma EscapeAt(s: string, t: string, i: nat, e: nat)
    requires i <= e < |t| && t[e] == ESCAPE && forall q :: i <= q < e ==> t[q] != ESCAPE
    ensures FindChar(s + t, ESCAPE, |s| + i) == |s| + e
  {
    var a := FindChar(s + t, ESCAPE, |s| + i);
    assert (s + t)[|s| + e] == t[e];
    assert a <= |s| + e && (s + t)[a] == t[a - |s|];
  }

  /** No place is left for the group. */
  lemma NothingLeft(tame: string, wild: string, i: nat, b: nat)
    requires EscapedGroup(wild, b) && i <= |tame| && i + |Tokens(wild[b..])| > |tame|
    ensures Scan(tame, wild, i, b) == No
  {
    ScanFirstFull(tame, wild, i, b);
  }

  // ---- Nothing but escaped escapes ------------------------------------------------------------

  /** One escape too many. */
  function Escapes(n: nat): string {
    seq(n, _ => ESCAPE)
  }

  lemma EscapesReadPastEnd(wild: string, l: nat)
    requires LastStarAt(wild, l) && EscapeGroup(wild, l + 1) && |wild| == l + 1 + 2 * PairsAt(wild, l + 1)
    ensures RunFromStart(After(wild, l, Escapes(PairsAt(wild, l + 1) + 1)), wild) == ReadPastEnd
  {
    var b, n := l + 1, PairsAt(wild, l + 1);
    var s, t, g := Sample(wild, 0, l), Escapes(n + 1), Tokens(wild[b..]);
    PairTokens(wild[b..]);
    assert wild[b..][2 * n..] == "" && g[n..] == [] && |g| == n;
    AfterRestarts(wild, l, t);
    var tame := After(wild, l, t);
    assert tame[|s| + 1] == t[1];
    assert wild[b..][0] == wild[b] && n > 0;
    RestartEscapes(tame, wild, |s|, b);
    assert wild[b..][2 * n - 1] == wild[b + 2 * n - 1];
  }

  // ---- One escaped escape ---------------------------------------------------------------------

  lemma SecondIsSkipped(wild: string, l: nat, t: string, e: nat)
    requires LastStarAt(wild, l) && EscapeGroup(wild, l + 1) && l + 3 < |wild| && wild[l + 3] != ESCAPE
    requires var g := Tokens(wild[l + 1..]); 1 <= e && |t| == e + |g| && FullAt(t, 0, g) && FullAt(t, e, g)
    requires e < |t| && t[e] == ESCAPE && forall q :: 1 <= q < e ==> t[q] != ESCAPE
    ensures RunFromStart(After(wild, l, t), wild) == No && Matches(After(wild, l, t), Tokens(wild))
  {
    var s := Sample(wild, 0, l);
    AfterRestarts(wild, l, t);
    AfterMatches(wild, l, t);
    EscapeAt(s, t, 1, e);
    RestartSkips(After(wild, l, t), wild, |s|, l + 1);
    NothingLeft(After(wild, l, t), wild, |s| + e + 1, l + 1);
  }

  /** The second of two overlapping matches is skipped: the matcher turns away a string that matches. */
  lemma OverlapTurnedAway(wild: string, l: nat, e: nat)
    requires LastStarAt(wild, l) && EscapeGroup(wild, l + 1) && l + 3 < |wild| && wild[l + 3] != ESCAPE
    requires OverlapsAt(Tokens(wild[l + 1..]), e)
    ensures var g := Tokens(wild[l + 1..]); var tame := After(wild, l, Overlay(g, g, e));
            RunFromStart(tame, wild) == No && Matches(tame, Tokens(wild))
  {
    var g := Tokens(wild[l + 1..]);
    var t := Overlay(g, g, e);
    GroupHead(wild, l + 1);
    OverlayFits(g, g, e);
    assert g[0].Accepts(t[e + 0]);
    SecondIsSkipped(wild, l, t, e);
  }

  lemma SlipIsTaken(wild: string, l: nat, t: string, e: nat)
    requires LastStarAt(wild, l) && EscapeGroup(wild, l + 1) && PairsAt(wild, l + 1) == 1
    requires l + 4 < |wild| && wild[l + 3] == ESCAPE && wild[l + 4] == QUESTION
    requires var g := Tokens(wild[l + 1..]); |g| > 1 && 1 <= e && |t| == e + |g| && FullAt(t, 0, g)
    requires FullAt(t, e, Slipped(Tokens(wild[l + 1..]))) && t[e + 1] != QUESTION
    requires t[e] == ESCAPE && forall q :: 1 <= q < e ==> t[q] != ESCAPE
    ensures RunFromStart(After(wild, l, t), wild) == Yes && !Matches(After(wild, l, t), Tokens(wild))
  {
    var s, g := Sample(wild, 0, l), Tokens(wild[l + 1..]);
    SlipTokens(wild, l + 1);
    AfterRestarts(wild, l, t);
    AfterMatches(wild, l, t);
    EscapeAt(s, t, 1, e);
    RestartWalk(After(wild, l, t), wild, |s|, l + 1);
    FullAtShifted(s, t, e, Slipped(g));
    RefusedHere(t, e, 1, g);
  }

  /** An escaped '?' is read as any character: the matcher accepts a string that does not match. */
  lemma SlipAccepted(wild: string, l: nat, e: nat)
    requires LastStarAt(wild, l) && EscapeGroup(wild, l + 1) && PairsAt(wild, l + 1) == 1
    requires l + 4 < |wild| && wild[l + 3] == ESCAPE && wild[l + 4] == QUESTION
    requires |Tokens(wild[l + 1..])| > 1 && SlipsAt(Tokens(wild[l + 1..]), e)
    ensures var g := Tokens(wild[l + 1..]); var tame := After(wild, l, Overlay(g, Slipped(g), e));
            RunFromStart(tame, wild) == Yes && !Matches(tame, Tokens(wild))
  {
    var g := Tokens(wild[l + 1..]);
    var h := Slipped(g);
    var t := Overlay(g, h, e);
    GroupHead(wild, l + 1);
    OverlayFits(g, h, e);
    assert h[0].Accepts(t[e + 0]) && h[1] == AnyChar;
    assert (e + 1) - e == 1 && t[e + 1] == if e + 1 < |g| then Meld(g[e + 1], AnyChar) else Meld(AnyChar, AnyChar);
    assert e + 1 < |g| ==> g[e + 1] in g;
    SlipIsTaken(wild, l, t, e);
  }

  // ---- Several escaped escapes ----------------------------------------------------------------

  lemma NextIsSkipped(wild: string, l: nat, t: string)
    requires LastStarAt(wild, l) && CharGroup(wild, l + 1)
    requires var g := Tokens(wild[l + 1..]); |t| == |g| + 1 && FullAt(t, 0, g) && FullAt(t, 1, g)
    ensures RunFromStart(After(wild, l, t), wild) == No
  {
    var s, n, g := Sample(wild, 0, l), PairsAt(wild, l + 1), Tokens(wild[l + 1..]);
    var tame := After(wild, l, t);
    CharTokens(wild, l + 1);
    AfterRestarts(wild, l, t);
    assert g[n - 1].Accepts(t[1 + (n - 1)]) && tame[|s| + n] == t[n];
    CharFits(tame, wild, |s|, l + 1);
    NothingLeft(tame, wild, |s| + 2, l + 1);
  }

  /** A match right after the first one is skipped. */
  lemma NextTurnedAway(wild: string, l: nat)
    requires LastStarAt(wild, l) && CharGroup(wild, l + 1) && OverlapsAt(Tokens(wild[l + 1..]), 1)
    ensures var g := Tokens(wild[l + 1..]); var tame := After(wild, l, Overlay(g, g, 1));
            RunFromStart(tame, wild) == No && Matches(tame, Tokens(wild))
  {
    var g := Tokens(wild[l + 1..]);
    OverlayFits(g, g, 1);
    NextIsSkipped(wild, l, Overlay(g, g, 1));
    AfterMatches(wild, l, Overlay(g, g, 1));
  }

  /** The group with the character itself in place of a '?'. */
  function Exactly(g: seq<Token>, c: char): seq<Token>
    requires |g| > 2
  {
    g[2 := Literal(c)]
  }

  lemma ExactlyFits(g: seq<Token>, h: seq<Token>, c: char, e: nat)
    requires |g| > 2 && 3 <= e <= |g| <= e + |h| && NoEscapeIn(g, 2, e) && Follows(g, h, e) && c != ESCAPE
    requires StarFree(g) && StarFree(h) && g[2].Accepts(c)
    ensures var t := Overlay(Exactly(g, c), h, e);
            && FullAt(t, 0, g) && FullAt(t, e, h) && t[2] == c
            && forall q :: 2 <= q < e ==> t[q] != ESCAPE
  {
    var g', t := Exactly(g, c), Overlay(Exactly(g, c), h, e);
    assert StarFree(g') && Follows(g', h, e);
    OverlayFits(g', h, e);
    forall m | 0 <= m < |g| ensures g[m].Accepts(t[0 + m]) {
      assert g'[m].Accepts(t[0 + m]);
    }
  }

  lemma TripFirst(wild: string, l: nat, t: string)
    requires LastStarAt(wild, l) && CharGroup(wild, l + 1) && PairsAt(wild, l + 1) == 2
    requires var g := Tokens(wild[l + 1..]); FullAt(t, 0, g) && |g| < |t| && |t| > 2 && t[2] == wild[l + 5]
    ensures var tame, k := After(wild, l, t), |Sample(wild, 0, l)|;
            && k + 1 < |tame| && RunFromStart(tame, wild) == Restart(tame, wild, Mark(k + 1, l + 1))
  {
    var s, tame := Sample(wild, 0, l), After(wild, l, t);
    AfterRestarts(wild, l, t);
    assert tame[|s| + 2] == t[2];
    CharFits(tame, wild, |s|, l + 1);
  }

  /** Where starting over goes after two escaped escapes and the character itself. */
  lemma TripRestarts(wild: string, l: nat, t: string, e: nat)
    requires LastStarAt(wild, l) && CharGroup(wild, l + 1) && PairsAt(wild, l + 1) == 2
    requires var g := Tokens(wild[l + 1..]); FullAt(t, 0, g) && |g| < |t| && 3 <= e < |t|
    requires t[2] == wild[l + 5] && t[e] == ESCAPE && forall q :: 2 <= q < e ==> t[q] != ESCAPE
    ensures var tame, a := After(wild, l, t), |Sample(wild, 0, l)| + e;
            && a < |tame| && RunFromStart(tame, wild) == WalkEnds(tame, wild, a, Tokens(wild[l + 2..]), Mark(a, l + 1))
  {
    TripFirst(wild, l, t);
    CharReads(wild, l + 1);
    EscapeAt(Sample(wild, 0, l), t, 2, e);
    RestartWalk(After(wild, l, t), wild, |Sample(wild, 0, l)| + 1, l + 1);
  }

  lemma CharToken(wild: string, b: nat)
    requires CharGroup(wild, b) && PairsAt(wild, b) == 2
    ensures |Tokens(wild[b..])| > 2 && Tokens(wild[b..])[2].Accepts(wild[b + 4])
  {
    CharTokens(wild, b);
    var w := wild[b..];
    PairTokens(w);
    assert w[4..][0] == wild[b + 4] && Tokens(w)[2] == Tokens(w)[2..][0] && Tokens(w)[2] in Tokens(w);
  }

  lemma RefusesSecond(tame: string, a: nat, h: seq<Token>)
    requires |h| > 1 && a + 1 < |tame| && !h[1].Accepts(tame[a + 1])
    ensures Refused(tame, a, h) && !FullAt(tame, a, h)
  {
  }

  lemma TripIsSkipped(wild: string, l: nat, t: string, e: nat)
    requires LastStarAt(wild, l) && CharGroup(wild, l + 1) && PairsAt(wild, l + 1) == 2
    requires var g := Tokens(wild[l + 1..]); |t| == e + |g| && 3 <= e < |t| && FullAt(t, 0, g) && FullAt(t, e, g)
    requires t[2] == wild[l + 5] && forall q :: 2 <= q < e ==> t[q] != ESCAPE
    ensures RunFromStart(After(wild, l, t), wild) == No
  {
    var s, g, h, tame := Sample(wild, 0, l), Tokens(wild[l + 1..]), Tokens(wild[l + 2..]), After(wild, l, t);
    CharTokens(wild, l + 1);
    assert g[0].Accepts(t[e + 0]) && g[1].Accepts(t[e + 1]);
    TripRestarts(wild, l, t, e);
    assert tame[|s| + e + 1] == t[e + 1];
    RefusesSecond(tame, |s| + e, h);
    NothingLeft(tame, wild, |s| + e + 1, l + 1);
  }

  /** The group follows and is skipped. */
  lemma TripTurnedAway(wild: string, l: nat, e: nat)
    requires LastStarAt(wild, l) && CharGroup(wild, l + 1) && PairsAt(wild, l + 1) == 2
    requires var g := Tokens(wild[l + 1..]); |g| > 2 && 3 <= e && NoEscapeIn(g, 2, e) && Follows(g, g, e)
    ensures var g := Tokens(wild[l + 1..]);
            var tame := After(wild, l, Overlay(Exactly(g, wild[l + 5]), g, e));
            RunFromStart(tame, wild) == No && Matches(tame, Tokens(wild))
  {
    var g, c := Tokens(wild[l + 1..]), wild[l + 5];
    CharToken(wild, l + 1);
    ExactlyFits(g, g, c, e);
    TripIsSkipped(wild, l, Overlay(Exactly(g, c), g, e), e);
    AfterMatches(wild, l, Overlay(Exactly(g, c), g, e));
  }

  lemma TripIsTaken(wild: string, l: nat, t: string, e: nat)
    requires LastStarAt(wild, l) && CharGroup(wild, l + 1) && PairsAt(wild, l + 1) == 2
    requires var g := Tokens(wild[l + 1..]); |g| > 2 && |t| == e + |g| - 1 && 3 <= e < |t| && FullAt(t, 0, g)
    requires FullAt(t, e, Tripped(Tokens(wild[l + 1..]), wild[l + 5]))
    requires t[2] == wild[l + 5] && forall q :: 2 <= q < e ==> t[q] != ESCAPE
    ensures RunFromStart(After(wild, l, t), wild) == Yes && !Matches(After(wild, l, t), Tokens(wild))
  {
    var s, g, h := Sample(wild, 0, l), Tokens(wild[l + 1..]), Tripped(Tokens(wild[l + 1..]), wild[l + 5]);
    CharTokens(wild, l + 1);
    TripTokens(wild, l + 1);
    assert h[0].Accepts(t[e + 0]);
    TripRestarts(wild, l, t, e);
    FullAtShifted(s, t, e, h);
    AfterMatches(wild, l, t);
    RefusedHere(t, e - 1, 0, g);
  }

  /** What is read in its place follows and is accepted. */
  lemma TripAccepted(wild: string, l: nat, e: nat)
    requires LastStarAt(wild, l) && CharGroup(wild, l + 1) && PairsAt(wild, l + 1) == 2
    requires var g := Tokens(wild[l + 1..]); |g| > 2 && 3 <= e && NoEscapeIn(g, 2, e)
    requires Follows(Tokens(wild[l + 1..]), Tripped(Tokens(wild[l + 1..]), wild[l + 5]), e)
    ensures var g, c := Tokens(wild[l + 1..]), wild[l + 5];
            var tame := After(wild, l, Overlay(Exactly(g, c), Tripped(g, c), e));
            RunFromStart(tame, wild) == Yes && !Matches(tame, Tokens(wild))
  {
    var g, c := Tokens(wild[l + 1..]), wild[l + 5];
    CharToken(wild, l + 1);
    CharTokens(wild, l + 1);
    TripTokens(wild, l + 1);
    ExactlyFits(g, Tripped(g, c), c, e);
    TripIsTaken(wild, l, Overlay(Exactly(g, c), Tripped(g, c), e), e);
  }
}
