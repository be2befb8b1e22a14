/** What the matcher does when it starts over at a last group that begins with escaped escapes. */
module WildcardRestart {
  import opened Wrappers
  import opened Wildcard
  import opened WildcardMeaning
  import opened WildcardScan

  // ---- What is read in place of the group -----------------------------------------------------

  /** The last group is at b and begins with an escaped escape. */
  ghost predicate EscapeGroup(wild: string, b: nat) {
    EscapedGroup(wild, b) && b + 1 < |wild| && wild[b + 1] == ESCAPE
  }

  function PairsAt(wild: string, b: nat): nat
    requires b <= |wild|
  {
    EscapePairs(wild[b..])
  }

  /** The tokens of the group, and what is read from the second character on. */
  lemma {:induction false} PairTokens(w: string)
    ensures var n, g := EscapePairs(w), Tokens(w);
            && n <= |g| && (forall m :: 0 <= m < n ==> g[m] == Literal(ESCAPE)) && g[n..] == Tokens(w[2 * n..])
    decreases |w|
  {
    var n, g := EscapePairs(w), Tokens(w);
    if n > 0 {
      PairTokens(w[2..]);
      var h := Tokens(w[2..]);
      assert g == [Literal(ESCAPE)] + h && g[n..] == h[n - 1..];
      assert w[2..][2 * (n - 1)..] == w[2 * n..];
    }
  }

  /** Reading from the second character on, a pair further. */
  lemma MisreadStep(w: string)
    requires |w| > 2 && w[0] == w[1] == ESCAPE
    ensures Tokens(w) == [Literal(ESCAPE)] + Tokens(w[2..]) && Tokens(w[1..]) == [Literal(w[2])] + Tokens(w[3..])
    ensures Clean(w) <==> Clean(w[2..])
    ensures Clean(w[1..]) <==> Clean(w[3..])
    ensures w[2] != ESCAPE && Clean(w[2..]) ==> Clean(w[3..])
    ensures w[2] != ESCAPE ==> w[2..][1..] == w[3..] && |Tokens(w[2..])| == 1 + |Tokens(w[3..])|
    ensures w[2] != ESCAPE ==> Tokens(w[2..])[1..] == Tokens(w[3..])
  {
    assert w[1..][0] == w[1] && w[1..][1] == w[2] && w[1..][2..] == w[3..];
    assert w[2..][0] == w[2] && w[2..][1..] == w[3..];
  }

  /** If a character that is not an escape follows, it is read together with the last escape. */
  lemma {:induction false} MisreadTokens(w: string)
    requires var n := EscapePairs(w); n > 0 && 2 * n < |w| && w[2 * n] != ESCAPE
    ensures var n, g, h := EscapePairs(w), Tokens(w), Tokens(w[1..]);
            && |h| == |g| - 1 && n <= |h|
            && (forall m :: 0 <= m < n - 1 ==> h[m] == Literal(ESCAPE)) && h[n - 1] == Literal(w[2 * n])
            && (forall m :: n <= m < |h| ==> h[m] == g[m + 1])
    ensures Clean(w) ==> Clean(w[1..])
    decreases |w|
  {
    var n := EscapePairs(w);
    MisreadStep(w);
    if n > 1 {
      var v := w[2..];
      assert v[1..] == w[3..] && v[2 * (n - 1)] == w[2 * n];
      MisreadTokens(v);
      MisreadMore(Literal(w[2]), Tokens(v), Tokens(v[1..]), n - 1);
    }
  }

  lemma MisreadMore(x: Token, g: seq<Token>, h: seq<Token>, n: nat)
    requires x == Literal(ESCAPE) && n > 0 && |h| == |g| - 1 && n <= |h|
    requires (forall m :: 0 <= m < n - 1 ==> h[m] == Literal(ESCAPE)) && forall m :: n <= m < |h| ==> h[m] == g[m + 1]
    ensures var g', h' := [x] + g, [x] + h;
            && (forall m :: 0 <= m < n ==> h'[m] == Literal(ESCAPE)) && h'[n] == h[n - 1]
            && (forall m :: n + 1 <= m < |h'| ==> h'[m] == g'[m + 1])
  {
  }

  // ---- Starting over --------------------------------------------------------------------------

  /** Starting over tries what is read in place of the group at the next escape. */
  lemma RestartWalk(tame: string, wild: string, k: nat, b: nat)
    requires EscapeGroup(wild, b) && k < |tame| && Clean(wild[b + 1..]) && StarFree(Tokens(wild[b + 1..]))
    ensures var a := FindChar(tame, ESCAPE, k + 1);
            Restart(tame, wild, Mark(k, b))
            == if a == |tame| then No else WalkEnds(tame, wild, a, Tokens(wild[b + 1..]), Mark(a, b))
  {
    var a := FindChar(tame, ESCAPE, k + 1);
    if a < |tame| { WalkGroup(tame, wild, a, b + 1, Mark(a, b)); }
  }

  /** What starting over comes to: an answer, a search for the group from i on, or starting over at a. */
  datatype Move = Answers(outcome: Outcome) | Searches(i: nat) | StartsAgain(a: nat)

  ghost predicate NoneBetween(t: string, k: nat, i: nat, g: seq<Token>) {
    forall m :: k < m < i ==> !FullAt(t, m, g)
  }

  /** The string ends with a match of the group. */
  ghost predicate EndsWith(t: string, g: seq<Token>) {
    |g| <= |t| && FullAt(t, |t| - |g|, g)
  }

  /** Starting over after the match at k makes this move, and the move misses no match. */
  ghost predicate GoodMove(tame: string, wild: string, k: nat, b: nat, move: Move)
    requires k < |tame| && b < |wild|
  {
    var restart, g := Restart(tame, wild, Mark(k, b)), Tokens(wild[b..]);
    match move
    case Answers(outcome) => restart == outcome && outcome == if EndsWith(tame, g) then Yes else No
    case Searches(i) => k < i <= |tame| && restart == Scan(tame, wild, i, b) && NoneBetween(tame, k, i, g)
    case StartsAgain(a) =>
      && k < a && a + |g| < |tame| && FullAt(tame, a, g) && NoneBetween(tame, k, a, g)
      && restart == Restart(tame, wild, Mark(a, b))
  }

  /** Before the next escape there is no match. */
  lemma NoneBeforeEscape(t: string, k: nat, g: seq<Token>)
    requires k < |t| && g != [] && g[0] == Literal(ESCAPE)
    ensures NoneBetween(t, k, FindChar(t, ESCAPE, k + 1), g)
    ensures FindChar(t, ESCAPE, k + 1) == |t| && k + |g| < |t| ==> !EndsWith(t, g)
  {
    var a := FindChar(t, ESCAPE, k + 1);
    forall m | k < m < a ensures !FullAt(t, m, g) {
      assert m < |t| ==> !g[0].Accepts(t[m + 0]);
    }
    if a == |t| && k + |g| < |t| && |g| <= |t| { assert k < |t| - |g| < a; }
  }

  /** No match at a either. */
  lemma NoneAtEscape(t: string, k: nat, a: nat, g: seq<Token>)
    requires NoneBetween(t, k, a, g) && !FullAt(t, a, g)
    ensures NoneBetween(t, k, a + 1, g)
  {
  }

  /** If what is read fits at a, but the string ends first, the string does not end with the group. */
  lemma TooShort(t: string, k: nat, a: nat, h: seq<Token>, g: seq<Token>)
    requires a < |t| && !FullAt(t, a, h) && !Refused(t, a, h) && |h| <= |g|
    requires k + |g| < |t| && NoneBetween(t, k, a, g)
    ensures !EndsWith(t, g)
  {
    assert a + |h| > |t|;
  }

  /** Two matches with no escape in between make the group overlap itself. */
  lemma MatchesOverlap(t: string, k: nat, s: nat, g: seq<Token>)
    requires FullAt(t, k, g) && FullAt(t, s, g) && k < s && g != [] && StarFree(g)
    requires forall m :: k < m < s ==> t[m] != ESCAPE
    ensures Overlaps(g) && (s == k + 1 ==> OverlapsAt(g, 1))
  {
    var e := if s - k <= |g| then s - k else |g|;
    QuietBetween(t, k, 1, e, g);
    FollowsAt(t, k, s, e, g, g);
    assert OverlapsAt(g, e);
  }

  lemma QuietBetween(t: string, k: nat, i: nat, e: nat, g: seq<Token>)
    requires FullAt(t, k, g) && e <= |g| && forall m :: k + i <= m < k + e ==> t[m] != ESCAPE
    ensures NoEscapeIn(g, i, e)
  {
    forall m | i <= m < e ensures g[m] != Literal(ESCAPE) {
      assert g[m].Accepts(t[k + m]);
    }
  }

  /** Two matches, the second of which begins e characters after the first or beyond it. */
  lemma FollowsAt(t: string, k: nat, s: nat, e: nat, g: seq<Token>, h: seq<Token>)
    requires FullAt(t, k, g) && FullAt(t, s, h) && k < s && e == (if s - k <= |g| then s - k else |g|)
    requires StarFree(g) && StarFree(h)
    ensures Follows(g, h, e)
  {
    forall m | e <= m < |g| && m < e + |h| ensures Compatible(g[m], h[m - e]) {
      assert g[m].Accepts(t[k + m]) && h[m - e].Accepts(t[s + (m - e)]);
      assert g[m] in g && h[m - e] in h;
    }
  }

  // ---- One escaped escape ---------------------------------------------------------------------

  /** A character that is not an escape follows: starting over skips the next escape. */
  lemma OtherMove(tame: string, wild: string, k: nat, b: nat) returns (move: Move)
    requires EscapeGroup(wild, b) && PairsAt(wild, b) == 1 && b + 2 < |wild| && wild[b + 2] != ESCAPE
    requires FullAt(tame, k, Tokens(wild[b..])) && k + |Tokens(wild[b..])| < |tame| && !Overlaps(Tokens(wild[b..]))
    ensures GoodMove(tame, wild, k, b, move)
  {
    var w, g := wild[b..], Tokens(wild[b..]);
    var a := FindChar(tame, ESCAPE, k + 1);
    assert w[2] == wild[b + 2] && w[1..] == wild[b + 1..];
    GroupHead(wild, b);
    NoneBeforeEscape(tame, k, g);
    RestartSkips(tame, wild, k, b);
    if a == |tame| {
      move := Answers(No);
    } else {
      if FullAt(tame, a, g) { MatchesOverlap(tame, k, a, g); }
      NoneAtEscape(tame, k, a, g);
      move := Searches(a + 1);
    }
  }

  lemma RestartSkips(tame: string, wild: string, k: nat, b: nat)
    requires EscapeGroup(wild, b) && b + 2 < |wild| && wild[b + 2] != ESCAPE && k < |tame|
    ensures var a := FindChar(tame, ESCAPE, k + 1);
            Restart(tame, wild, Mark(k, b)) == if a == |tame| then No else Scan(tame, wild, a + 1, b)
  {
    var a := FindChar(tame, ESCAPE, k + 1);
    assert AdvanceTame(tame, wild, k + 1, b) == if a == |tame| then Exhausted else Found(a, b + 1);
    if a < |tame| {
      assert Restart(tame, wild, Mark(k, b)) == Run(tame, wild, a, b + 1, Some(Mark(a, b)));
    }
  }

  lemma SlipString(w: string)
    requires |w| > 3 && w[0] == w[1] == w[2] == ESCAPE && w[3] != STAR && w[3] != ESCAPE
    ensures Tokens(w) == [Literal(ESCAPE), Literal(w[3])] + Tokens(w[4..])
    ensures Tokens(w[1..]) == [Literal(ESCAPE), if w[3] == QUESTION then AnyChar else Literal(w[3])] + Tokens(w[4..])
    ensures Clean(w) ==> Clean(w[1..])
  {
    MisreadStep(w);
    assert w[2..][0] == w[2] && w[2..][1] == w[3] && w[2..][2..] == w[4..];
    assert w[3..][0] == w[3] && w[3..][1..] == w[4..];
  }

  lemma SlippedTokens(c: char, rest: seq<Token>)
    requires StarFree([Literal(ESCAPE), Literal(c)] + rest)
    ensures var g := [Literal(ESCAPE), Literal(c)] + rest;
            var h := [Literal(ESCAPE), if c == QUESTION then AnyChar else Literal(c)] + rest;
            StarFree(h) && h == if c == QUESTION then Slipped(g) else g
  {
    assert forall x :: x in rest ==> x in [Literal(ESCAPE), Literal(c)] + rest;
  }

  /** Another escaped character follows, but not an escape or a star: only a '?' is read differently. */
  lemma SlipTokens(wild: string, b: nat)
    requires EscapeGroup(wild, b) && PairsAt(wild, b) == 1
    requires b + 3 < |wild| && wild[b + 2] == ESCAPE && wild[b + 3] != STAR
    ensures Clean(wild[b + 1..]) && StarFree(Tokens(wild[b + 1..]))
    ensures |Tokens(wild[b..])| > 1 && Tokens(wild[b..])[0] == Literal(ESCAPE)
    ensures Tokens(wild[b..])[1] == Literal(wild[b + 3])
    ensures Tokens(wild[b + 1..]) == if wild[b + 3] == QUESTION then Slipped(Tokens(wild[b..])) else Tokens(wild[b..])
  {
    var w := wild[b..];
    assert w[0] == wild[b] && w[1] == wild[b + 1] && w[2] == wild[b + 2] && w[3] == wild[b + 3];
    assert w[1..] == wild[b + 1..];
    SlipString(w);
    SlippedTokens(w[3], Tokens(w[4..]));
  }

  lemma SlipFits(t: string, k: nat, a: nat, g: seq<Token>)
    requires |g| > 1 && g[0] == Literal(ESCAPE) && g[1] == Literal(QUESTION) && StarFree(g) && !Slips(g)
    requires FullAt(t, k, g) && k < a && FullAt(t, a, Slipped(g)) && forall m :: k < m < a ==> t[m] != ESCAPE
    ensures FullAt(t, a, g)
  {
    var h := Slipped(g);
    if t[a + 1] != QUESTION {
      var e := if a - k <= |g| then a - k else |g|;
      assert StarFree(h);
      QuietBetween(t, k, 1, e, g);
      FollowsAt(t, k, a, e, g, h);
      if e + 1 < |g| { assert g[e + 1].Accepts(t[k + (e + 1)]); }
      assert SlipsAt(g, e);
    } else {
      forall m | 0 <= m < |g| ensures g[m].Accepts(t[a + m]) {
        if m != 1 { assert h[m] == g[m]; }
      }
    }
  }

  lemma SlipIsWeaker(t: string, a: nat, g: seq<Token>)
    requires |g| > 1 && StarFree(g) && FullAt(t, a, g)
    ensures FullAt(t, a, Slipped(g))
  {
    var h := Slipped(g);
    forall m | 0 <= m < |h| ensures h[m].Accepts(t[a + m]) {
      if m != 1 { assert h[m] == g[m]; }
    }
  }

  lemma SlipMove(tame: string, wild: string, k: nat, b: nat) returns (move: Move)
    requires EscapeGroup(wild, b) && PairsAt(wild, b) == 1
    requires b + 3 < |wild| && wild[b + 2] == ESCAPE && wild[b + 3] != STAR
    requires wild[b + 3] == QUESTION ==> !Slips(Tokens(wild[b..]))
    requires FullAt(tame, k, Tokens(wild[b..])) && k + |Tokens(wild[b..])| < |tame|
    ensures GoodMove(tame, wild, k, b, move)
  {
    var g, h := Tokens(wild[b..]), Tokens(wild[b + 1..]);
    var a := FindChar(tame, ESCAPE, k + 1);
    SlipTokens(wild, b);
    NoneBeforeEscape(tame, k, g);
    RestartWalk(tame, wild, k, b);
    if a == |tame| {
      move := Answers(No);
    } else if FullAt(tame, a, h) {
      if wild[b + 3] == QUESTION { SlipFits(tame, k, a, g); }
      move := if a + |g| == |tame| then Answers(Yes) else StartsAgain(a);
    } else {
      if wild[b + 3] == QUESTION && FullAt(tame, a, g) { SlipIsWeaker(tame, a, g); }
      if Refused(tame, a, h) {
        NoneAtEscape(tame, k, a, g);
        move := Searches(a + 1);
      } else {
        TooShort(tame, k, a, h, g);
        move := Answers(No);
      }
    }
  }

  // ---- Several escaped escapes ----------------------------------------------------------------

  /** What is read begins with escapes, as the string does. */
  lemma {:induction false} WalkEscapes(tame: string, wild: string, i: nat, j: nat, r: nat, mark: Mark)
    requires ValidState(tame, wild, i, j, Some(mark)) && i + r < |tame| && j + 2 * r < |wild|
    requires forall q :: i <= q < i + r ==> tame[q] == ESCAPE
    requires forall q :: j <= q < j + 2 * r ==> wild[q] == ESCAPE
    ensures Run(tame, wild, i, j, Some(mark)) == Run(tame, wild, i + r, j + 2 * r, Some(mark))
    decreases r
  {
    if r > 0 {
      assert Run(tame, wild, i, j, Some(mark)) == Next(tame, wild, i, j + 1, Some(mark));
      assert Next(tame, wild, i, j + 1, Some(mark)) == Run(tame, wild, i + 1, j + 2, Some(mark));
      WalkEscapes(tame, wild, i + 1, j + 2, r - 1, mark);
    }
  }

  /** The group's escapes in the string and in the pattern. */
  lemma EscapesAt(tame: string, wild: string, k: nat, b: nat)
    requires EscapeGroup(wild, b) && FullAt(tame, k, Tokens(wild[b..]))
    ensures var n := PairsAt(wild, b);
            && n > 0 && b + 2 * n <= |wild| && n <= |Tokens(wild[b..])|
            && (forall q :: k <= q < k + n ==> tame[q] == ESCAPE)
            && (forall q :: b <= q < b + 2 * n ==> wild[q] == ESCAPE)
            && Tokens(wild[b..])[n..] == Tokens(wild[b + 2 * n..])
            && forall m :: 0 <= m < n ==> Tokens(wild[b..])[m] == Literal(ESCAPE)
  {
    var w, g := wild[b..], Tokens(wild[b..]);
    var n := EscapePairs(w);
    assert w[0] == wild[b] && w[1] == wild[b + 1];
    PairTokens(w);
    assert w[2 * n..] == wild[b + 2 * n..];
    forall q | k <= q < k + n ensures tame[q] == ESCAPE { assert g[q - k].Accepts(tame[k + (q - k)]); }
    forall q | b <= q < b + 2 * n ensures wild[q] == ESCAPE { assert w[q - b] == wild[q]; }
  }

  /** Starting over with an escape right after the first one: the escapes are read up to the last. */
  lemma RestartEscapes(tame: string, wild: string, k: nat, b: nat)
    requires EscapeGroup(wild, b) && FullAt(tame, k, Tokens(wild[b..]))
    requires k + |Tokens(wild[b..])| < |tame| && tame[k + 1] == ESCAPE
    ensures var n := PairsAt(wild, b);
            && FindChar(tame, ESCAPE, k + 1) == k + 1 && b + 2 * n <= |wild| && k + n < |tame|
            && Restart(tame, wild, Mark(k, b)) == Run(tame, wild, k + n, b + 2 * n - 1, Some(Mark(k + 1, b)))
  {
    var n := PairsAt(wild, b);
    EscapesAt(tame, wild, k, b);
    assert AdvanceTame(tame, wild, k + 1, b) == Found(k + 1, b + 1);
    assert Restart(tame, wild, Mark(k, b)) == Run(tame, wild, k + 1, b + 1, Some(Mark(k + 1, b)));
    WalkEscapes(tame, wild, k + 1, b + 1, n - 1, Mark(k + 1, b));
  }

  /** Another escaped character follows: it is not what is read, and the group cannot match here. */
  lemma PairMove(tame: string, wild: string, k: nat, b: nat) returns (move: Move)
    requires EscapeGroup(wild, b) && PairsAt(wild, b) > 1
    requires var n := PairsAt(wild, b); b + 2 * n < |wild| && wild[b + 2 * n] == ESCAPE
    requires FullAt(tame, k, Tokens(wild[b..])) && k + |Tokens(wild[b..])| < |tame|
    ensures GoodMove(tame, wild, k, b, move)
  {
    var n, g := PairsAt(wild, b), Tokens(wild[b..]);
    EscapesAt(tame, wild, k, b);
    assert tame[k + 1] == ESCAPE;
    RestartEscapes(tame, wild, k, b);
    NextIsOther(wild, b);
    assert g[n].Accepts(tame[k + n]);
    assert !g[n - 1].Accepts(tame[k + 1 + (n - 1)]);
    move := Searches(k + 2);
  }

  lemma NextIsOther(wild: string, b: nat)
    requires EscapeGroup(wild, b)
    requires var n := PairsAt(wild, b); b + 2 * n < |wild| && wild[b + 2 * n] == ESCAPE
    ensures var n := PairsAt(wild, b);
            && b + 2 * n + 1 < |wild| && wild[b + 2 * n + 1] != ESCAPE
            && n < |Tokens(wild[b..])| && Tokens(wild[b..])[n] == Literal(wild[b + 2 * n + 1])
  {
    var w := wild[b..];
    var n := EscapePairs(w);
    CleanAfterPairs(w);
    PairTokens(w);
    assert w[2 * n..][0] == wild[b + 2 * n];
    assert 2 * n + 1 < |w| ==> w[2 * n..][1] == w[2 * n + 1] == wild[b + 2 * n + 1];
    assert Tokens(w)[n] == Tokens(w)[n..][0];
  }

  lemma {:induction false} CleanAfterPairs(w: string)
    requires Clean(w)
    ensures Clean(w[2 * EscapePairs(w)..])
    decreases |w|
  {
    var n := EscapePairs(w);
    if n > 0 {
      CleanAfterPairs(w[2..]);
      assert w[2..][2 * (n - 1)..] == w[2 * n..];
    }
  }

  /** The group at b begins with more than one escaped escape, and a character that is no escape follows. */
  ghost predicate CharGroup(wild: string, b: nat) {
    && EscapeGroup(wild, b) && PairsAt(wild, b) > 1
    && b + 2 * PairsAt(wild, b) < |wild| && wild[b + 2 * PairsAt(wild, b)] != ESCAPE
  }

  /** What is read, h, lacks an escape of the group g, and has the character c itself after the escapes. */
  ghost predicate LacksEscape(g: seq<Token>, h: seq<Token>, n: nat, c: char) {
    && |h| == |g| - 1 && 2 <= n <= |h| && c != ESCAPE
    && (forall m :: 0 <= m < n ==> g[m] == Literal(ESCAPE))
    && (forall m :: 0 <= m < n - 1 ==> h[m] == Literal(ESCAPE)) && h[n - 1] == Literal(c)
    && (forall m :: n <= m < |h| ==> h[m] == g[m + 1])
  }

  lemma CharTokens(wild: string, b: nat)
    requires CharGroup(wild, b)
    ensures Clean(wild[b + 1..]) && StarFree(Tokens(wild[b + 1..]))
    ensures var n := PairsAt(wild, b);
            LacksEscape(Tokens(wild[b..]), Tokens(wild[b + 1..]), n, wild[b + 2 * n])
  {
    var w, n, g, h := wild[b..], PairsAt(wild, b), Tokens(wild[b..]), Tokens(wild[b + 1..]);
    assert w[2 * n] == wild[b + 2 * n] && w[1..] == wild[b + 1..];
    PairTokens(w);
    MisreadTokens(w);
    forall x | x in h ensures !x.Star? {
      var m :| 0 <= m < |h| && h[m] == x;
      if m >= n { assert g[m + 1] in g; }
    }
  }

  lemma CharReads(wild: string, b: nat)
    requires CharGroup(wild, b)
    ensures Clean(wild[b + 1..]) && StarFree(Tokens(wild[b + 1..]))
  {
    CharTokens(wild, b);
  }

  /** What a match of the group at k says about what is read one and two characters later. */
  lemma LacksEscapeAt(t: string, k: nat, g: seq<Token>, h: seq<Token>, n: nat, c: char)
    requires LacksEscape(g, h, n, c) && FullAt(t, k, g) && k + |g| < |t|
    ensures t[k + 1] == ESCAPE && (n > 2 ==> t[k + 2] == ESCAPE)
    ensures t[k + n] == c ==> FullAt(t, k + 1, h) && !FullAt(t, k + 1, g) && !FullAt(t, k + 2, g)
    ensures t[k + n] == c && n > 2 ==> !FullAt(t, k + 2, h) && Refused(t, k + 2, h)
    ensures t[k + n] != c ==> !FullAt(t, k + 1, h) && Refused(t, k + 1, h)
  {
    assert g[1].Accepts(t[k + 1]) && (n > 2 ==> g[2].Accepts(t[k + 2]));
    if t[k + n] == c {
      forall m | 0 <= m < |h| ensures h[m].Accepts(t[k + 1 + m]) {
        if m >= n - 1 { assert g[m + 1].Accepts(t[k + (m + 1)]); } else { assert g[m + 1].Accepts(t[k + (m + 1)]); }
      }
      assert !g[n - 1].Accepts(t[k + 1 + (n - 1)]);
      assert !g[n - 2].Accepts(t[k + 2 + (n - 2)]);
      if n > 2 { assert !h[n - 2].Accepts(t[k + 2 + (n - 2)]); }
    } else {
      assert !h[n - 1].Accepts(t[k + 1 + (n - 1)]);
    }
  }

  /** The string has that character itself after the escapes of the match at k. */
  ghost predicate HasChar(tame: string, wild: string, k: nat, b: nat)
    requires CharGroup(wild, b)
  {
    var n := PairsAt(wild, b);
    k + n < |tame| && tame[k + n] == wild[b + 2 * n]
  }

  lemma NextEscape(t: string, i: nat)
    requires i < |t| && t[i] == ESCAPE
    ensures FindChar(t, ESCAPE, i) == i
  {
  }

  /** Then what is read fits one character after the match. */
  lemma CharFits(tame: string, wild: string, k: nat, b: nat)
    requires CharGroup(wild, b) && FullAt(tame, k, Tokens(wild[b..])) && k + |Tokens(wild[b..])| < |tame|
    ensures HasChar(tame, wild, k, b) ==>
              && Restart(tame, wild, Mark(k, b)) == Restart(tame, wild, Mark(k + 1, b))
              && !FullAt(tame, k + 1, Tokens(wild[b..])) && !FullAt(tame, k + 2, Tokens(wild[b..]))
    ensures k + 2 <= |tame|
    ensures !HasChar(tame, wild, k, b) ==> Restart(tame, wild, Mark(k, b)) == Scan(tame, wild, k + 2, b)
  {
    var n := PairsAt(wild, b);
    CharTokens(wild, b);
    LacksEscapeAt(tame, k, Tokens(wild[b..]), Tokens(wild[b + 1..]), n, wild[b + 2 * n]);
    NextEscape(tame, k + 1);
    RestartWalk(tame, wild, k, b);
  }

  /** With three or more, what is read next has an escape where the string has the character. */
  lemma ManyMove(tame: string, wild: string, k: nat, b: nat) returns (move: Move)
    requires CharGroup(wild, b) && FullAt(tame, k, Tokens(wild[b..])) && k + |Tokens(wild[b..])| < |tame|
    requires PairsAt(wild, b) > 2 && HasChar(tame, wild, k, b)
    ensures GoodMove(tame, wild, k, b, move)
  {
    ManyRestarts(tame, wild, k, b);
    CharFits(tame, wild, k, b);
    move := Searches(k + 3);
  }

  lemma ManyRestarts(tame: string, wild: string, k: nat, b: nat)
    requires CharGroup(wild, b) && FullAt(tame, k, Tokens(wild[b..])) && k + |Tokens(wild[b..])| < |tame|
    requires PairsAt(wild, b) > 2 && HasChar(tame, wild, k, b)
    ensures k + 3 <= |tame| && Restart(tame, wild, Mark(k + 1, b)) == Scan(tame, wild, k + 3, b)
  {
    var n := PairsAt(wild, b);
    CharTokens(wild, b);
    LacksEscapeAt(tame, k, Tokens(wild[b..]), Tokens(wild[b + 1..]), n, wild[b + 2 * n]);
    NextEscape(tame, k + 2);
    RestartWalk(tame, wild, k + 1, b);
  }

  /** What is read instead of a group that begins with two escaped escapes. */
  lemma TripTokens(wild: string, b: nat)
    requires CharGroup(wild, b) && PairsAt(wild, b) == 2
    ensures |Tokens(wild[b..])| > 2
    ensures Tokens(wild[b + 1..]) == Tripped(Tokens(wild[b..]), wild[b + 4])
  {
    CharTokens(wild, b);
  }

  lemma TripFound(t: string, k: nat, a: nat, c: char, g: seq<Token>)
    requires |g| > 2 && StarFree(g) && FullAt(t, k, g) && k + 3 <= a < |t|
    requires forall m :: k + 2 <= m < a ==> t[m] != ESCAPE
    requires FullAt(t, a, g) || FullAt(t, a, Tripped(g, c))
    ensures Trips(g, c)
  {
    var e := if a - k <= |g| then a - k else |g|;
    var h := Tripped(g, c);
    assert forall x :: x in h ==> x == Literal(c) || x in g;
    QuietBetween(t, k, 2, e, g);
    if FullAt(t, a, g) { FollowsAt(t, k, a, e, g, g); } else { FollowsAt(t, k, a, e, g, h); }
    assert TripsAt(g, c, e);
  }

  /** With two, the next escape is where the group or what is read could follow. */
  lemma TwoMove(tame: string, wild: string, k: nat, b: nat) returns (move: Move)
    requires CharGroup(wild, b) && FullAt(tame, k, Tokens(wild[b..])) && k + |Tokens(wild[b..])| < |tame|
    requires PairsAt(wild, b) == 2 && HasChar(tame, wild, k, b) && !Trips(Tokens(wild[b..]), wild[b + 4])
    ensures GoodMove(tame, wild, k, b, move)
  {
    var g, h := Tokens(wild[b..]), Tokens(wild[b + 1..]);
    CharTokens(wild, b);
    TripTokens(wild, b);
    CharFits(tame, wild, k, b);
    RestartWalk(tame, wild, k + 1, b);
    NoneBeforeEscape(tame, k + 1, g);
    var a := FindChar(tame, ESCAPE, k + 2);
    assert NoneBetween(tame, k, a, g);
    if a == |tame| {
      assert |tame| - |g| < a;
      move := Answers(No);
    } else {
      if FullAt(tame, a, g) || FullAt(tame, a, h) { TripFound(tame, k, a, wild[b + 4], g); }
      if Refused(tame, a, h) {
        NoneAtEscape(tame, k, a, g);
        move := Searches(a + 1);
      } else {
        TooShort(tame, k, a, h, g);
        move := Answers(No);
      }
    }
  }

  lemma NoneRightAfter(t: string, k: nat, g: seq<Token>)
    requires FullAt(t, k, g) && g != [] && StarFree(g) && !OverlapsAt(g, 1)
    ensures NoneBetween(t, k, k + 2, g)
  {
    if FullAt(t, k + 1, g) { MatchesOverlap(t, k, k + 1, g); }
  }

  lemma CharMove(tame: string, wild: string, k: nat, b: nat) returns (move: Move)
    requires CharGroup(wild, b) && FullAt(tame, k, Tokens(wild[b..])) && k + |Tokens(wild[b..])| < |tame|
    requires !OverlapsAt(Tokens(wild[b..]), 1)
    requires PairsAt(wild, b) == 2 ==> !Trips(Tokens(wild[b..]), wild[b + 4])
    ensures GoodMove(tame, wild, k, b, move)
  {
    if !HasChar(tame, wild, k, b) {
      CharFits(tame, wild, k, b);
      NoneRightAfter(tame, k, Tokens(wild[b..]));
      move := Searches(k + 2);
    } else if PairsAt(wild, b) > 2 {
      move := ManyMove(tame, wild, k, b);
    } else {
      move := TwoMove(tame, wild, k, b);
    }
  }

  // ---- Starting over is right -----------------------------------------------------------------

  lemma NextMove(tame: string, wild: string, k: nat, b: nat) returns (move: Move)
    requires EscapeGroup(wild, b) && GroupSafe(wild[b..])
    requires FullAt(tame, k, Tokens(wild[b..])) && k + |Tokens(wild[b..])| < |tame|
    ensures GoodMove(tame, wild, k, b, move)
  {
    var w, n := wild[b..], PairsAt(wild, b);
    assert w[0] == wild[b] && w[1] == wild[b + 1];
    assert 2 * n < |w| ==> w[2 * n] == wild[b + 2 * n];
    EscapesAt(tame, wild, k, b);
    if w[2 * n] == ESCAPE {
      assert |w| > 3 ==> w[3] == wild[b + 3];
      if n > 1 { move := PairMove(tame, wild, k, b); } else { move := SlipMove(tame, wild, k, b); }
    } else if n == 1 {
      move := OtherMove(tame, wild, k, b);
    } else {
      move := CharMove(tame, wild, k, b);
    }
  }

  /** A match at the end comes after every place where none is. */
  lemma EndIsLater(t: string, k: nat, i: nat, g: seq<Token>)
    requires k < i <= |t| && k + |g| < |t| && NoneBetween(t, k, i, g)
    ensures var next := FirstFull(t, i, g);
            EndsWith(t, g) <==> next.Some? && (next.value + |g| == |t| || EndsWith(t, g))
    ensures EndsWith(t, g) ==> FirstFull(t, i, g).Some?
  {
  }

  /** If the group is safe, starting over is right. */
  lemma {:induction false} RestartRight(tame: string, wild: string, k: nat, b: nat)
    requires EscapeGroup(wild, b) && GroupSafe(wild[b..])
    requires FullAt(tame, k, Tokens(wild[b..])) && k + |Tokens(wild[b..])| < |tame|
    ensures Restart(tame, wild, Mark(k, b)) == if EndsWith(tame, Tokens(wild[b..])) then Yes else No
    decreases |tame| - k
  {
    var g := Tokens(wild[b..]);
    var move := NextMove(tame, wild, k, b);
    match move
    case Answers(_) =>
    case Searches(i) =>
      EndIsLater(tame, k, i, g);
      ScanFirstFull(tame, wild, i, b);
      var next := FirstFull(tame, i, g);
      if next.Some? && next.value + |g| < |tame| { RestartRight(tame, wild, next.value, b); }
    case StartsAgain(a) => RestartRight(tame, wild, a, b);
  }
}
