/** The patterns on which the matcher is right about every string. */
module WildcardExact {
  import opened Wrappers
  import opened Sequences
  import opened Wildcard
  import opened WildcardMeaning
  import opened WildcardScan
  import opened WildcardRestart
  import opened WildcardMisread
  import opened WildcardProofs
  import opened WildcardSample

  // ---- An escaped star ------------------------------------------------------------------------

  /** The last group is at b: it is clean and has no star. */
  ghost predicate GroupAt(wild: string, b: nat) {
    b < |wild| && Clean(wild[b..]) && StarFree(Tokens(wild[b..])) && Boundary(wild, b, |wild|)
  }

  /** The string has s at p, then a star and a stretch without escapes that is longer than s, and ends
      with s. */
  ghost predicate CopyOf(tame: string, s: string, p: nat) {
    var end := |tame| - |s|;
    && p + 2 * |s| < end
    && tame[p..p + |s|] == s && tame[end..] == s && tame[p + |s|] == STAR
    && forall m :: p + |s| <= m < end ==> tame[m] != ESCAPE
  }

  lemma CopyShrinks(tame: string, s: string, p: nat)
    requires CopyOf(tame, [STAR] + s, p)
    ensures CopyOf(tame, s, p + 1)
  {
    var whole := [STAR] + s;
    var end := |tame| - |whole|;
    assert tame[p + 1..p + 1 + |s|] == tame[p..p + |whole|][1..] == s;
    assert tame[end + 1..] == tame[end..][1..] == s;
    assert tame[end] == tame[end..][0] == STAR;
  }

  /** A copy of the group's sample. */
  ghost predicate EarlyCopy(tame: string, wild: string, p: nat, b: nat)
    requires GroupAt(wild, b)
  {
    CopyOf(tame, Sample(wild, b, |wild|), p)
  }

  /** The rest of a group after its first, escaped character. */
  lemma RestOfGroup(wild: string, b: nat)
    requires GroupAt(wild, b) && wild[b] == ESCAPE
    ensures b + 2 <= |wild| && Tokens(wild[b..]) == [Literal(wild[b + 1])] + Tokens(wild[b + 2..])
    ensures b + 2 < |wild| ==> GroupAt(wild, b + 2)
    ensures Sample(wild, b, |wild|) == [wild[b + 1]] + Sample(wild, b + 2, |wild|)
    ensures |Sample(wild, b, |wild|)| == 1 + |Sample(wild, b + 2, |wild|)|
  {
    RestIsStarFree(wild, b);
    var x, j := FirstToken(wild, b);
    CleanIsBoundary(wild, j);
  }

  /** A match e characters into the copy repeats its escapes every e characters, past the copy's end. */
  lemma {:induction false} EscapesRecur(tame: string, wild: string, p: nat, b: nat, e: nat, q: nat) returns (r: nat)
    requires GroupAt(wild, b) && var s := Sample(wild, b, |wild|);
             p + 2 * |s| < |tame| && tame[p..p + |s|] == s && 1 <= e < |s| && q < |s| + e
    requires FullAt(tame, p + e, Tokens(wild[b..])) && tame[p + q] == ESCAPE
    ensures |Sample(wild, b, |wild|)| <= r < |Sample(wild, b, |wild|)| + e && tame[p + r] == ESCAPE
    decreases |Sample(wild, b, |wild|)| + e - q
  {
    var s, g := Sample(wild, b, |wild|), Tokens(wild[b..]);
    if q >= |s| {
      r := q;
    } else {
      SampleFits(wild, b);
      assert tame[p..p + |s|][q] == tame[p + q];
      assert g[q] == Literal(ESCAPE) && g[q].Accepts(tame[p + e + q]);
      r := EscapesRecur(tame, wild, p, b, e, q + e);
    }
  }

  /** So a group that begins with an escaped escape matches nowhere between the copy's start and the end. */
  lemma NoEarlierMatch(tame: string, wild: string, p: nat, b: nat, m: nat)
    requires GroupAt(wild, b) && EarlyCopy(tame, wild, p, b) && wild[b] == ESCAPE && wild[b + 1] == ESCAPE
    requires p < m < |tame| - |Sample(wild, b, |wild|)|
    ensures !FullAt(tame, m, Tokens(wild[b..]))
  {
    var s, g := Sample(wild, b, |wild|), Tokens(wild[b..]);
    RestOfGroup(wild, b);
    if FullAt(tame, m, g) {
      assert g[0].Accepts(tame[m + 0]);
      var r := EscapesRecur(tame, wild, p, b, m - p, m - p);
      assert false;
    }
  }

  /** Where the search may start so that the matcher goes on to accept. */
  ghost predicate StartsRight(wild: string, b: nat, i: nat, p: nat)
    requires GroupAt(wild, b)
  {
    && p <= i <= p + |Sample(wild, b, |wild|)|
    && (StartsWithEscapedMeta(wild[b..]) ==> if wild[b + 1] == STAR then i == p else i > p)
  }

  lemma AcceptFull(tame: string, wild: string, i: nat, b: nat, end: nat)
    requires GroupAt(wild, b) && !StartsWithEscapedMeta(wild[b..])
    requires i <= end && end + |Tokens(wild[b..])| == |tame| && FullAt(tame, end, Tokens(wild[b..]))
    ensures Scan(tame, wild, i, b) == Yes
  {
    StarFirst(wild[b..]);
    SafeWithoutStar(wild[b..]);
    LaterMeans(tame, i - 1, Tokens(wild[b..]));
    ScanCorrect(tame, wild, i, b);
  }

  lemma AcceptPlain(tame: string, wild: string, i: nat, b: nat, p: nat)
    requires GroupAt(wild, b) && EarlyCopy(tame, wild, p, b) && StartsRight(wild, b, i, p)
    requires !StartsWithEscapedMeta(wild[b..])
    ensures Scan(tame, wild, i, b) == Yes
  {
    var end := |tame| - |Sample(wild, b, |wild|)|;
    SampleIsFull(tame, end, wild, b);
    AcceptFull(tame, wild, i, b, end);
  }

  lemma AcceptEscape(tame: string, wild: string, i: nat, b: nat, p: nat)
    requires GroupAt(wild, b) && EarlyCopy(tame, wild, p, b) && StartsRight(wild, b, i, p)
    requires StartsWithEscapedMeta(wild[b..]) && wild[b + 1] == ESCAPE
    ensures Scan(tame, wild, i, b) == Yes
  {
    var g, end := Tokens(wild[b..]), |tame| - |Sample(wild, b, |wild|)|;
    assert wild[b..][0] == wild[b];
    SampleIsFull(tame, end, wild, b);
    forall m | i <= m < end ensures !FullAt(tame, m, g) { NoEarlierMatch(tame, wild, p, b, m); }
    FirstFullLater(tame, i, end, g);
    ScanFirstFull(tame, wild, i, b);
    FirstFullAt(tame, end, g);
  }

  /** Starting over at an escaped star: the star is read as a star. */
  lemma RestartAtStar(tame: string, wild: string, k: nat, b: nat)
    requires GroupAt(wild, b) && wild[b] == ESCAPE && b + 1 < |wild| && wild[b + 1] == STAR && k < |tame|
    requires FindChar(tame, STAR, k + 1) < |tame|
    ensures Restart(tame, wild, Mark(k, b))
         == if b + 2 == |wild| then Yes else Scan(tame, wild, FindChar(tame, STAR, k + 1), b + 2)
  {
    var a := FindChar(tame, STAR, k + 1);
    assert AdvanceTame(tame, wild, k + 1, b) == Found(a, b + 1);
    assert Restart(tame, wild, Mark(k, b)) == Run(tame, wild, a, b + 1, Some(Mark(a, b)));
  }

  /** A match at k that the string goes on after. */
  lemma ScanRestarts(tame: string, wild: string, k: nat, b: nat)
    requires GroupAt(wild, b) && wild[b] == ESCAPE && k < |tame| && FullAt(tame, k, Tokens(wild[b..]))
    requires k + |Tokens(wild[b..])| < |tame|
    ensures Scan(tame, wild, k, b) == Restart(tame, wild, Mark(k, b))
  {
    ScanFirstFull(tame, wild, k, b);
    FirstFullAt(tame, k, Tokens(wild[b..]));
  }

  /** However often starting over reads an escaped star as a star, the matcher accepts in the end. */
  lemma {:induction false} AcceptChain(tame: string, wild: string, i: nat, b: nat, p: nat)
    requires GroupAt(wild, b) && EarlyCopy(tame, wild, p, b) && StartsRight(wild, b, i, p)
    ensures Scan(tame, wild, i, b) == Yes
    decreases |wild| - b
  {
    if !StartsWithEscapedMeta(wild[b..]) {
      AcceptPlain(tame, wild, i, b, p);
    } else if wild[b + 1] == ESCAPE {
      AcceptEscape(tame, wild, i, b, p);
    } else {
      assert wild[b..][0] == wild[b] && wild[b..][1] == wild[b + 1];
      var s := Sample(wild, b, |wild|);
      SampleIsFull(tame, p, wild, b);
      ScanRestarts(tame, wild, p, b);
      RestartAtStar(tame, wild, p, b);
      if b + 2 < |wild| { AcceptRest(tame, wild, b, p); }
    }
  }

  lemma {:induction false} AcceptRest(tame: string, wild: string, b: nat, p: nat)
    requires GroupAt(wild, b) && EarlyCopy(tame, wild, p, b)
    requires wild[b] == ESCAPE && b + 2 < |wild| && wild[b + 1] == STAR
    ensures Scan(tame, wild, FindChar(tame, STAR, p + 1), b + 2) == Yes
    decreases |wild| - b, 0
  {
    RestOfGroup(wild, b);
    var s := Sample(wild, b + 2, |wild|);
    CopyShrinks(tame, s, p);
    StartOfRest(wild, b + 2);
    assert s != "" ==> tame[p + 1] == tame[p + 1..p + 1 + |s|][0];
    AcceptChain(tame, wild, FindChar(tame, STAR, p + 1), b + 2, p + 1);
  }

  /** The sample of a group that begins with an escaped character begins with that character. */
  lemma StartOfRest(wild: string, b: nat)
    requires GroupAt(wild, b)
    ensures StartsWithEscapedMeta(wild[b..]) ==>
              && b + 1 < |wild| && Sample(wild, b, |wild|) != ""
              && Sample(wild, b, |wild|)[0] == wild[b + 1] == wild[b..][1]
  {
    if StartsWithEscapedMeta(wild[b..]) {
      assert wild[b..][0] == wild[b] && wild[b..][1] == wild[b + 1];
      RestOfGroup(wild, b);
    }
  }

  function Padding(n: nat): string {
    seq(n, _ => 'z')
  }

  /** The rest of a group, a star, padding, and the rest again. */
  function Twice(rest: string): string {
    rest + [STAR] + Padding(1 + |rest|) + rest
  }

  lemma TwiceParts(rest: string)
    ensures var tail, r := Twice(rest), |rest|;
            && |tail| == 3 * r + 2 && tail[0..r] == rest && tail[r] == STAR && tail[|tail| - r..|tail|] == rest
            && forall m :: 1 + r <= m < 2 + 2 * r ==> tail[m] == 'z'
  {
  }

  lemma TwiceIsCopy(front: string, rest: string)
    ensures var tame := front + Twice(rest);
            && |tame| == |front| + 3 * |rest| + 2 && CopyOf(tame, rest, |front|)
            && tame[|tame| - |rest| - 1] == 'z'
  {
    var tail := Twice(rest);
    var tame, k, r := front + tail, |front|, |rest|;
    TwiceParts(rest);
    SliceOfSecond(front, tail, 0, r);
    SliceOfSecond(front, tail, |tail| - r, |tail|);
    assert tame[|tame| - r..] == tame[|tame| - r..|tame|];
    forall m | k + r <= m < |tame| - r ensures tame[m] == if m == k + r then STAR else 'z' {
      assert tame[m] == tail[m - k];
    }
  }

  /** A group's whole sample too early, then a second star, padding, and the rest of the group. */
  function EarlyAndLate(rest: string): string {
    [STAR] + Twice(rest)
  }

  /** For a last group that begins with an escaped star. */
  function StarThenRest(wild: string, l: nat): string
    requires l + 3 <= |wild| && Boundary(wild, 0, l) && Boundary(wild, l + 3, |wild|)
  {
    After(wild, l, EarlyAndLate(Sample(wild, l + 3, |wild|)))
  }

  ghost predicate EscapedStarGroup(wild: string, l: nat) {
    LastStarAt(wild, l) && l + 3 <= |wild| && wild[l + 1] == ESCAPE && wild[l + 2] == STAR
  }

  lemma EscapedStarAt(wild: string, l: nat)
    requires EscapedStarGroup(wild, l)
    ensures GroupAt(wild, l + 1) && Boundary(wild, l + 3, |wild|)
    ensures l + 3 < |wild| ==> GroupAt(wild, l + 3)
    ensures |Tokens(wild[l + 1..])| == 1 + |Sample(wild, l + 3, |wild|)|
    ensures Tokens(wild[l + 1..]) == [Literal(STAR)] + Tokens(wild[l + 3..])
  {
    CleanIsBoundary(wild, l + 1);
    RestOfGroup(wild, l + 1);
    RestIsStarFree(wild, l + 1);
    CleanIsBoundary(wild, l + 3);
    SampleFits(wild, l + 3);
  }

  lemma AcceptAfterStar(tame: string, wild: string, k: nat, b: nat)
    requires GroupAt(wild, b) && EarlyCopy(tame, wild, k + 1, b) && FindChar(tame, STAR, k + 1) < |tame|
    ensures Scan(tame, wild, FindChar(tame, STAR, k + 1), b) == Yes
  {
    var rest := Sample(wild, b, |wild|);
    StartOfRest(wild, b);
    assert rest != "" ==> tame[k + 1] == tame[k + 1..k + 1 + |rest|][0];
    AcceptChain(tame, wild, FindChar(tame, STAR, k + 1), b, k + 1);
  }

  /** The string begins with the group's sample and goes on with a copy of its rest. */
  lemma StartsWithStar(front: string, rest: string)
    ensures var tame, k := front + EarlyAndLate(rest), |front|;
            && |tame| == k + 3 * |rest| + 3 && CopyOf(tame, rest, k + 1) && tame[|tame| - |rest| - 1] == 'z'
            && tame[k + 1 + |rest|] == STAR
    ensures EarlyAndLate(rest)[0..1 + |rest|] == [STAR] + rest
  {
    Associative(front, [STAR], Twice(rest));
    TwiceIsCopy(front + [STAR], rest);
    TwiceParts(rest);
    assert EarlyAndLate(rest)[0..1 + |rest|] == [STAR] + Twice(rest)[0..|rest|];
  }

  lemma StarThenRestAccepted(wild: string, l: nat)
    requires EscapedStarGroup(wild, l) && Boundary(wild, l + 3, |wild|)
    ensures RunFromStart(StarThenRest(wild, l), wild) == Yes
  {
    var b, rest := l + 1, Sample(wild, l + 3, |wild|);
    var t, tame, k := EarlyAndLate(rest), StarThenRest(wild, l), |Sample(wild, 0, l)|;
    EscapedStarAt(wild, l);
    RestOfGroup(wild, b);
    StartsWithStar(Sample(wild, 0, l), rest);
    SampleIsFull(t, 0, wild, b);
    AfterRestarts(wild, l, t);
    RestartAtStar(tame, wild, k, b);
    if b + 2 < |wild| { AcceptAfterStar(tame, wild, k, b + 2); }
  }

  lemma StarThenRestNotMatched(wild: string, l: nat)
    requires EscapedStarGroup(wild, l) && Boundary(wild, l + 3, |wild|)
    ensures !Matches(StarThenRest(wild, l), Tokens(wild))
  {
    var rest := Sample(wild, l + 3, |wild|);
    var t, g, s := EarlyAndLate(rest), Tokens(wild[l + 1..]), Sample(wild, 0, l);
    EscapedStarAt(wild, l);
    StartsWithStar(s, rest);
    AfterMatches(wild, l, t);
    assert (s + t)[|s + t| - |rest| - 1] == t[|t| - |rest| - 1];
    RefusedHere(t, |t| - |g|, 0, g);
  }

  // ---- An escaped escape and an escaped star --------------------------------------------------

  ghost predicate PairStarGroup(wild: string, l: nat) {
    && LastStarAt(wild, l) && l + 5 <= |wild| && wild[l + 4] == STAR
    && wild[l + 1] == wild[l + 2] == wild[l + 3] == ESCAPE
  }

  lemma PairStarAt(wild: string, l: nat)
    requires PairStarGroup(wild, l)
    ensures GroupAt(wild, l + 1) && Boundary(wild, l + 5, |wild|) && (l + 5 < |wild| ==> GroupAt(wild, l + 5))
    ensures Sample(wild, l + 1, |wild|) == [ESCAPE, STAR] + Sample(wild, l + 5, |wild|)
    ensures Tokens(wild[l + 1..]) == [Literal(ESCAPE), Literal(STAR)] + Tokens(wild[l + 5..])
    ensures |Tokens(wild[l + 1..])| == 2 + |Sample(wild, l + 5, |wild|)|
  {
    CleanIsBoundary(wild, l + 1);
    RestOfGroup(wild, l + 1);
    RestOfGroup(wild, l + 3);
    RestIsStarFree(wild, l + 3);
    CleanIsBoundary(wild, l + 5);
    SampleFits(wild, l + 5);
    SampleFits(wild, l + 1);
  }

  lemma PairRest(wild: string, l: nat)
    requires PairStarGroup(wild, l) && l + 5 < |wild|
    ensures GroupAt(wild, l + 5)
    ensures l + 6 < |wild| && wild[l + 5] == wild[l + 6] == ESCAPE ==>
              Sample(wild, l + 5, |wild|) != "" && Sample(wild, l + 5, |wild|)[0] == ESCAPE
  {
    PairStarAt(wild, l);
    if wild[l + 5] == ESCAPE { RestOfGroup(wild, l + 5); }
  }

  /** Starting over reads the star as a star, one character after the next escape. */
  lemma RestartAtPairStar(tame: string, wild: string, k: nat, l: nat)
    requires PairStarGroup(wild, l) && k < |tame| && FindChar(tame, ESCAPE, k + 1) + 1 < |tame|
    ensures Restart(tame, wild, Mark(k, l + 1))
         == if l + 5 == |wild| then Yes else Scan(tame, wild, FindChar(tame, ESCAPE, k + 1) + 1, l + 5)
  {
    var a, b := FindChar(tame, ESCAPE, k + 1), l + 1;
    assert AdvanceTame(tame, wild, k + 1, b) == Found(a, b + 1);
    assert Restart(tame, wild, Mark(k, b)) == Run(tame, wild, a, b + 1, Some(Mark(a, b)));
    assert Run(tame, wild, a, b + 1, Some(Mark(a, b))) == Next(tame, wild, a, b + 2, Some(Mark(a, b)));
    assert Next(tame, wild, a, b + 2, Some(Mark(a, b))) == Run(tame, wild, a + 1, b + 3, Some(Mark(a, b)));
  }

  /** For a rest that begins with an escaped escape. */
  function EarlyEscape(rest: string): string {
    [ESCAPE, STAR] + Twice(rest)
  }

  /** For any other rest: padding and one more escape before the copy. */
  function LateEscape(rest: string): string {
    [ESCAPE, STAR] + rest + Padding(1 + |rest|) + [ESCAPE] + Twice(rest)
  }

  function PairThenRest(wild: string, l: nat): string
    requires Boundary(wild, l + 5, |wild|)
  {
    var rest := Sample(wild, l + 5, |wild|);
    if l + 6 < |wild| && wild[l + 5] == wild[l + 6] == ESCAPE then EarlyEscape(rest) else LateEscape(rest)
  }

  /** What is known of such a string: where the group and the copy of its rest are. */
  ghost predicate HasCopy(t: string, rest: string, p: nat) {
    && 2 <= p && p + 3 * |rest| + 2 == |t| && t[0..2 + |rest|] == [ESCAPE, STAR] + rest
    && CopyOf(t, rest, p) && t[|t| - |rest| - 1] == 'z'
  }

  /** There is padding and an escape before the copy. */
  ghost predicate IsLate(t: string, rest: string) {
    && HasCopy(t, rest, 2 * |rest| + 4) && t[2 * |rest| + 3] == ESCAPE
    && forall m :: 2 + |rest| <= m < 2 * |rest| + 3 ==> t[m] == 'z'
  }

  lemma EarlyEscapeParts(rest: string)
    ensures HasCopy(EarlyEscape(rest), rest, 2)
  {
    TwiceIsCopy([ESCAPE, STAR], rest);
    TwiceParts(rest);
    assert EarlyEscape(rest)[0..2 + |rest|] == [ESCAPE, STAR] + Twice(rest)[0..|rest|];
  }

  lemma LateEscapeParts(rest: string)
    ensures IsLate(LateEscape(rest), rest)
  {
    var front, r := [ESCAPE, STAR] + rest + Padding(1 + |rest|) + [ESCAPE], |rest|;
    TwiceIsCopy(front, rest);
    assert |front| == 2 * r + 4 && front[0..2 + r] == [ESCAPE, STAR] + rest;
    assert LateEscape(rest)[0..2 + r] == front[0..2 + r];
    assert forall m :: 0 <= m < |front| ==> LateEscape(rest)[m] == front[m];
  }

  lemma CopyShifted(s: string, t: string, rest: string, p: nat)
    requires CopyOf(t, rest, p)
    ensures CopyOf(s + t, rest, |s| + p)
  {
    var tame, end := s + t, |t| - |rest|;
    SliceOfSecond(s, t, p, p + |rest|);
    SliceOfSecond(s, t, end, |t|);
    assert tame[|s| + end..] == tame[|s| + end..|tame|] && t[end..] == t[end..|t|];
    forall m | |s| + p + |rest| <= m < |s| + end ensures tame[m] == t[m - |s|] {
    }
  }

  ghost predicate PairCopy(wild: string, l: nat, t: string, p: nat) {
    PairStarGroup(wild, l) && Boundary(wild, l + 5, |wild|) && HasCopy(t, Sample(wild, l + 5, |wild|), p)
  }

  lemma PairFull(wild: string, l: nat, t: string, p: nat)
    requires PairCopy(wild, l, t, p)
    ensures var g := Tokens(wild[l + 1..]);
            FullAt(t, 0, g) && |g| == 2 + |Sample(wild, l + 5, |wild|)| < |t| && g[1] == Literal(STAR)
  {
    PairStarAt(wild, l);
    SampleIsFull(t, 0, wild, l + 1);
  }

  /** The string does not match, ... */
  lemma PairNotMatched(wild: string, l: nat, t: string, p: nat)
    requires PairCopy(wild, l, t, p)
    ensures !Matches(After(wild, l, t), Tokens(wild))
  {
    var g := Tokens(wild[l + 1..]);
    PairFull(wild, l, t, p);
    AfterMatches(wild, l, t);
    RefusedHere(t, |t| - |g|, 1, g);
  }

  /** ... and the matcher starts over after the group's sample at its start. */
  lemma PairRestarts(wild: string, l: nat, t: string, p: nat)
    requires PairCopy(wild, l, t, p)
    ensures var tame, k := After(wild, l, t), |Sample(wild, 0, l)|;
            && k < |tame| && RunFromStart(tame, wild) == Restart(tame, wild, Mark(k, l + 1))
  {
    PairFull(wild, l, t, p);
    AfterRestarts(wild, l, t);
  }

  lemma EarlyAccepted(tame: string, wild: string, k: nat, l: nat)
    requires PairStarGroup(wild, l) && l + 6 < |wild| && wild[l + 5] == wild[l + 6] == ESCAPE && GroupAt(wild, l + 5)
    requires k < |tame| && FindChar(tame, ESCAPE, k + 1) == k + 2 && EarlyCopy(tame, wild, k + 2, l + 5)
    ensures Restart(tame, wild, Mark(k, l + 1)) == Yes
  {
    RestOfGroup(wild, l + 5);
    RestartAtPairStar(tame, wild, k, l);
    assert wild[l + 5..][0] == wild[l + 5] && wild[l + 5..][1] == wild[l + 6];
    AcceptChain(tame, wild, k + 3, l + 5, k + 2);
  }

  lemma EarlyParts(s: string, t: string, rest: string)
    requires HasCopy(t, rest, 2) && rest != "" && rest[0] == ESCAPE
    ensures FindChar(s + t, ESCAPE, |s| + 1) == |s| + 2 && CopyOf(s + t, rest, |s| + 2)
  {
    EarlyBegins(t, rest);
    EscapeAt(s, t, 1, 2);
    CopyShifted(s, t, rest, 2);
  }

  lemma EarlyRunAccepts(wild: string, l: nat, t: string)
    requires PairCopy(wild, l, t, 2) && l + 6 < |wild| && wild[l + 5] == wild[l + 6] == ESCAPE
    ensures RunFromStart(After(wild, l, t), wild) == Yes
  {
    PairRest(wild, l);
    EarlyParts(Sample(wild, 0, l), t, Sample(wild, l + 5, |wild|));
    PairRestarts(wild, l, t, 2);
    EarlyAccepted(After(wild, l, t), wild, |Sample(wild, 0, l)|, l);
  }

  lemma EarlyMisjudged(wild: string, l: nat, t: string)
    requires PairCopy(wild, l, t, 2) && l + 6 < |wild| && wild[l + 5] == wild[l + 6] == ESCAPE
    ensures RunFromStart(After(wild, l, t), wild) == Yes && !Matches(After(wild, l, t), Tokens(wild))
  {
    EarlyRunAccepts(wild, l, t);
    PairNotMatched(wild, l, t, 2);
  }

  lemma EarlyEscapeAccepted(wild: string, l: nat)
    requires PairStarGroup(wild, l) && Boundary(wild, l + 5, |wild|)
    requires l + 6 < |wild| && wild[l + 5] == wild[l + 6] == ESCAPE
    ensures var tame := After(wild, l, EarlyEscape(Sample(wild, l + 5, |wild|)));
            RunFromStart(tame, wild) == Yes && !Matches(tame, Tokens(wild))
  {
    var rest := Sample(wild, l + 5, |wild|);
    EarlyEscapeParts(rest);
    EarlyMisjudged(wild, l, EarlyEscape(rest));
  }

  lemma EarlyBegins(t: string, rest: string)
    requires HasCopy(t, rest, 2) && rest != "" && rest[0] == ESCAPE
    ensures |t| > 2 && t[1] != ESCAPE && t[2] == ESCAPE
  {
    var start := t[0..2 + |rest|];
    assert t[1] == start[1] && t[2] == start[2] && start[2] == rest[0];
  }

  /** The group's rest two characters after k, padding, an escape, and a copy of the rest. */
  ghost predicate LateCopy(tame: string, rest: string, k: nat) {
    var p := k + 2 * |rest| + 4;
    && CopyOf(tame, rest, p) && tame[k + 2..k + 2 + |rest|] == rest
    && tame[p - 1] == ESCAPE && forall m :: k + 2 + |rest| <= m < p - 1 ==> tame[m] == 'z'
  }

  /** Before the copy, the rest of the group matches nowhere after an escape of its sample. */
  lemma NoneBeforeCopy(tame: string, wild: string, k: nat, a: nat, b: nat, m: nat)
    requires GroupAt(wild, b) && b + 1 < |wild| && wild[b] == ESCAPE && wild[b + 1] == STAR
    requires LateCopy(tame, Sample(wild, b, |wild|), k)
    requires k + 2 <= a < m < k + 2 * |Sample(wild, b, |wild|)| + 4 <= |tame| && tame[a] == ESCAPE
    ensures !FullAt(tame, m, Tokens(wild[b..]))
  {
    var s, g, p := Sample(wild, b, |wild|), Tokens(wild[b..]), k + 2;
    RestOfGroup(wild, b);
    if FullAt(tame, m, g) {
      assert g[0].Accepts(tame[m + 0]);
      var r := EscapesRecur(tame, wild, p, b, m - p, a - p);
      assert false;
    }
  }

  /** So the search comes to the copy. */
  lemma LateStar(tame: string, wild: string, k: nat, a: nat, b: nat)
    requires GroupAt(wild, b) && b + 1 < |wild| && wild[b] == ESCAPE && wild[b + 1] == STAR
    requires LateCopy(tame, Sample(wild, b, |wild|), k)
    requires k + 2 <= a < k + 2 * |Sample(wild, b, |wild|)| + 4 <= |tame| && tame[a] == ESCAPE
    ensures Scan(tame, wild, a + 1, b) == Scan(tame, wild, k + 2 * |Sample(wild, b, |wild|)| + 4, b)
  {
    var g, p := Tokens(wild[b..]), k + 2 * |Sample(wild, b, |wild|)| + 4;
    forall m | a + 1 <= m < p ensures !FullAt(tame, m, g) { NoneBeforeCopy(tame, wild, k, a, b, m); }
    SameSearch(tame, wild, a + 1, p, b);
  }

  lemma SameSearch(tame: string, wild: string, i: nat, p: nat, b: nat)
    requires EscapedGroup(wild, b) && i <= p <= |tame| && forall m :: i <= m < p ==> !FullAt(tame, m, Tokens(wild[b..]))
    ensures Scan(tame, wild, i, b) == Scan(tame, wild, p, b)
  {
    FirstFullLater(tame, i, p, Tokens(wild[b..]));
    ScanFirstFull(tame, wild, i, b);
    ScanFirstFull(tame, wild, p, b);
  }

  lemma LateRest(tame: string, wild: string, k: nat, a: nat, b: nat)
    requires GroupAt(wild, b) && !(b + 1 < |wild| && wild[b] == wild[b + 1] == ESCAPE)
    requires LateCopy(tame, Sample(wild, b, |wild|), k)
    requires k + 2 <= a < k + 2 * |Sample(wild, b, |wild|)| + 4 <= |tame| && tame[a] == ESCAPE
    ensures Scan(tame, wild, a + 1, b) == Yes
  {
    var end, p := |tame| - |Sample(wild, b, |wild|)|, k + 2 * |Sample(wild, b, |wild|)| + 4;
    if StartsWithEscapedMeta(wild[b..]) {
      assert wild[b..][0] == wild[b] && wild[b..][1] == wild[b + 1];
      LateStar(tame, wild, k, a, b);
      AcceptChain(tame, wild, p, b, p);
    } else {
      SampleIsFull(tame, end, wild, b);
      AcceptFull(tame, wild, a + 1, b, end);
    }
  }

  lemma LateParts(s: string, t: string, rest: string)
    requires IsLate(t, rest)
    ensures LateCopy(s + t, rest, |s|)
  {
    var r, k, start := |rest|, |s|, t[0..2 + |rest|];
    CopyShifted(s, t, rest, 2 * r + 4);
    SliceOfSecond(s, t, 2, 2 + r);
    assert t[2..2 + r] == start[2..] && start[2..] == rest && (s + t)[k + 2 * r + 3] == t[2 * r + 3];
    forall m | k + 2 + r <= m < k + 2 * r + 3 ensures (s + t)[m] == 'z' { assert (s + t)[m] == t[m - k]; }
  }

  lemma LateFind(s: string, t: string, rest: string)
    requires IsLate(t, rest)
    ensures var tame, k, p := s + t, |s|, |s| + 2 * |rest| + 4;
            p < |tame| && k + 2 <= FindChar(tame, ESCAPE, k + 1) < p
  {
    var r, k, start := |rest|, |s|, t[0..2 + |rest|];
    assert t[1] == start[1] && (s + t)[k + 1] == t[1] && (s + t)[k + 2 * r + 3] == t[2 * r + 3];
  }

  lemma LateAccepted(tame: string, wild: string, k: nat, l: nat)
    requires PairStarGroup(wild, l) && !(l + 6 < |wild| && wild[l + 5] == wild[l + 6] == ESCAPE)
    requires Boundary(wild, l + 5, |wild|) && k < |tame| && LateCopy(tame, Sample(wild, l + 5, |wild|), k)
    requires k + 2 <= FindChar(tame, ESCAPE, k + 1) < k + 2 * |Sample(wild, l + 5, |wild|)| + 4 < |tame|
    ensures Restart(tame, wild, Mark(k, l + 1)) == Yes
  {
    RestartAtPairStar(tame, wild, k, l);
    if l + 5 < |wild| {
      PairRest(wild, l);
      LateRest(tame, wild, k, FindChar(tame, ESCAPE, k + 1), l + 5);
    }
  }

  lemma LateRestarts(wild: string, l: nat, t: string, s: string, rest: string)
    requires PairStarGroup(wild, l) && Boundary(wild, l + 5, |wild|)
    requires !(l + 6 < |wild| && wild[l + 5] == wild[l + 6] == ESCAPE)
    requires rest == Sample(wild, l + 5, |wild|) && IsLate(t, rest)
    ensures |s| < |s + t| && Restart(s + t, wild, Mark(|s|, l + 1)) == Yes
  {
    LateParts(s, t, rest);
    LateFind(s, t, rest);
    LateAccepted(s + t, wild, |s|, l);
  }

  lemma LateRunAccepts(wild: string, l: nat, t: string)
    requires PairStarGroup(wild, l) && Boundary(wild, l + 5, |wild|)
    requires !(l + 6 < |wild| && wild[l + 5] == wild[l + 6] == ESCAPE) && IsLate(t, Sample(wild, l + 5, |wild|))
    ensures RunFromStart(After(wild, l, t), wild) == Yes
  {
    var rest := Sample(wild, l + 5, |wild|);
    LateRestarts(wild, l, t, Sample(wild, 0, l), rest);
    PairRestarts(wild, l, t, 2 * |rest| + 4);
  }

  lemma LateMisjudged(wild: string, l: nat, t: string)
    requires PairStarGroup(wild, l) && Boundary(wild, l + 5, |wild|)
    requires !(l + 6 < |wild| && wild[l + 5] == wild[l + 6] == ESCAPE) && IsLate(t, Sample(wild, l + 5, |wild|))
    ensures RunFromStart(After(wild, l, t), wild) == Yes && !Matches(After(wild, l, t), Tokens(wild))
  {
    LateRunAccepts(wild, l, t);
    PairNotMatched(wild, l, t, 2 * |Sample(wild, l + 5, |wild|)| + 4);
  }

  lemma LateEscapeAccepted(wild: string, l: nat)
    requires PairStarGroup(wild, l) && Boundary(wild, l + 5, |wild|)
    requires !(l + 6 < |wild| && wild[l + 5] == wild[l + 6] == ESCAPE)
    ensures var tame := After(wild, l, LateEscape(Sample(wild, l + 5, |wild|)));
            RunFromStart(tame, wild) == Yes && !Matches(tame, Tokens(wild))
  {
    var rest := Sample(wild, l + 5, |wild|);
    LateEscapeParts(rest);
    LateMisjudged(wild, l, LateEscape(rest));
  }

  // ---- Exactly when it is right ---------------------------------------------------------------

  lemma {:induction false} FindUnsafeGroup(wild: string, j: nat) returns (l: nat)
    requires j <= |wild| && Clean(wild[j..]) && !SafeToRestart(wild[j..])
    ensures l + 1 < |wild| && Boundary(wild, j, l) && wild[l] == STAR
    ensures Clean(wild[l + 1..]) && StarFree(Tokens(wild[l + 1..])) && !GroupSafe(wild[l + 1..])
    decreases |wild| - j
  {
    CleanStep(wild, j);
    UnsafeStep(wild, j);
    if wild[j] == STAR && StarFree(Tokens(wild[j + 1..])) && !GroupSafe(wild[j + 1..]) {
      l := j;
    } else {
      l := FindUnsafeGroup(wild, AfterToken(wild, j));
    }
  }

  lemma UnsafeStep(wild: string, j: nat)
    requires j <= |wild| && Clean(wild[j..]) && !SafeToRestart(wild[j..])
    ensures j < |wild| && AfterToken(wild, j) <= |wild|
    ensures || (wild[j] == STAR && StarFree(Tokens(wild[j + 1..])) && !GroupSafe(wild[j + 1..]))
            || !SafeToRestart(wild[AfterToken(wild, j)..])
  {
    var w := wild[j..];
    assert wild[j] == ESCAPE ==> w[2..] == wild[j + 2..];
    assert wild[j] != ESCAPE ==> w[1..] == wild[j + 1..];
  }

  /** A last group of escaped escapes that is not safe: for every kind, a string that is misjudged. */
  lemma EscapesMisjudged(wild: string, l: nat) returns (tame: string)
    requires LastStarAt(wild, l) && EscapeGroup(wild, l + 1) && !GroupSafe(wild[l + 1..])
    ensures !RightOn(tame, wild)
  {
    var b, w, n, g := l + 1, wild[l + 1..], PairsAt(wild, l + 1), Tokens(wild[l + 1..]);
    assert w[0] == wild[b] && w[1] == wild[b + 1];
    assert 2 * n < |w| ==> w[2 * n] == wild[b + 2 * n];
    if |w| == 2 * n {
      EscapesReadPastEnd(wild, l);
      tame := After(wild, l, Escapes(n + 1));
    } else if w[2 * n] == ESCAPE {
      NextIsOther(wild, b);
      assert w[3] == wild[b + 3];
      tame := PairMisjudged(wild, l);
    } else if n == 1 {
      var e :| 1 <= e <= |g| && OverlapsAt(g, e);
      OverlapTurnedAway(wild, l, e);
      tame := After(wild, l, Overlay(g, g, e));
    } else {
      tame := CharMisjudged(wild, l);
    }
  }

  lemma PairMisjudged(wild: string, l: nat) returns (tame: string)
    requires LastStarAt(wild, l) && EscapeGroup(wild, l + 1) && PairsAt(wild, l + 1) == 1
    requires l + 4 < |wild| && wild[l + 3] == ESCAPE
    requires wild[l + 4] == STAR || (wild[l + 4] == QUESTION && Slips(Tokens(wild[l + 1..])))
    ensures !RightOn(tame, wild)
  {
    if wild[l + 4] == STAR {
      PairStarAt(wild, l);
      tame := After(wild, l, PairThenRest(wild, l));
      if l + 6 < |wild| && wild[l + 5] == wild[l + 6] == ESCAPE {
        EarlyEscapeAccepted(wild, l);
      } else {
        LateEscapeAccepted(wild, l);
      }
    } else {
      var g := Tokens(wild[l + 1..]);
      var e :| 1 <= e <= |g| && SlipsAt(g, e);
      SlipAccepted(wild, l, e);
      tame := After(wild, l, Overlay(g, Slipped(g), e));
    }
  }

  lemma CharMisjudged(wild: string, l: nat) returns (tame: string)
    requires LastStarAt(wild, l) && CharGroup(wild, l + 1)
    requires || OverlapsAt(Tokens(wild[l + 1..]), 1)
             || (PairsAt(wild, l + 1) == 2 && Trips(Tokens(wild[l + 1..]), wild[l + 5]))
    ensures !RightOn(tame, wild)
  {
    var g := Tokens(wild[l + 1..]);
    if OverlapsAt(g, 1) {
      NextTurnedAway(wild, l);
      tame := After(wild, l, Overlay(g, g, 1));
    } else {
      var c := wild[l + 5];
      var e :| 3 <= e <= |g| && TripsAt(g, c, e);
      if Follows(g, g, e) {
        TripTurnedAway(wild, l, e);
        tame := After(wild, l, Overlay(Exactly(g, c), g, e));
      } else {
        TripAccepted(wild, l, e);
        tame := After(wild, l, Overlay(Exactly(g, c), Tripped(g, c), e));
      }
    }
  }

  /** Of all clean patterns, the matcher is right about every string for exactly those that are safe to
      restart. */
  lemma RightExactlyWhenSafe(wild: string)
    requires Clean(wild)
    ensures SafeToRestart(wild) <==> forall tame :: RightOn(tame, wild)
  {
    if SafeToRestart(wild) {
      forall tame ensures RightOn(tame, wild) { MatcherCorrect(tame, wild); }
    } else {
      assert wild[0..] == wild;
      var l := FindUnsafeGroup(wild, 0);
      assert LastStarAt(wild, l);
      assert wild[l + 1..][0] == wild[l + 1] && wild[l + 1..][1] == wild[l + 2];
      if wild[l + 2] == STAR {
        EscapedStarAt(wild, l);
        StarThenRestAccepted(wild, l);
        StarThenRestNotMatched(wild, l);
        assert !RightOn(StarThenRest(wild, l), wild);
      } else {
        var tame := EscapesMisjudged(wild, l);
        assert !RightOn(tame, wild);
      }
    }
  }

  /** An escaped escape does harm before an 'a', where the group can follow itself, but not before an 'a'
      and another escaped escape and a 'b', where it cannot. */
  lemma OverlapDecides()
    ensures Clean("*\\\\a") && !SafeToRestart("*\\\\a")
    ensures Clean("*\\\\a\\\\b") && SafeToRestart("*\\\\a\\\\b")
  {
    var u, w := "\\\\a", "\\\\a\\\\b";
    assert u[2..] == "a" && u[2..][1..] == "";
    var g := Tokens(u);
    assert g == [Literal(ESCAPE), Literal('a')];
    assert OverlapsAt(g, 2);
    assert ("*" + u)[1..] == u;
    assert "*\\\\a" == "*" + u;
    assert w[2..] == "a\\\\b" && w[2..][1..] == "\\\\b" && w[3..][2..] == "b" && w[5..][1..] == "";
    assert w[2..][1..] == w[3..] && w[3..][2..] == w[5..];
    var h := Tokens(w);
    assert h == [Literal(ESCAPE), Literal('a'), Literal(ESCAPE), Literal('b')];
    forall e | 1 <= e <= |h| ensures !OverlapsAt(h, e) {
      assert h[1] != h[0] && h[3] != h[1] && h[2] == Literal(ESCAPE);
      if e == 1 { assert !Compatible(h[1], h[1 - e]); }
      if e == 2 { assert !Compatible(h[3], h[3 - e]); }
    }
    assert "*\\\\a\\\\b" == "*" + w && ("*" + w)[1..] == w;
    SafeWithoutStar(w);
  }

  /** After an escaped escape, an escaped '?' does harm if the group can follow itself, and an escaped '*'
      always does; after two escaped escapes neither does. */
  lemma PairsDecide()
    ensures Clean("*\\\\\\?") && !SafeToRestart("*\\\\\\?")
    ensures Clean("*\\\\\\*") && !SafeToRestart("*\\\\\\*")
    ensures Clean("*\\\\\\\\\\*") && SafeToRestart("*\\\\\\\\\\*")
  {
    var q, s, p := "\\\\\\?", "\\\\\\*", "\\\\\\\\\\*";
    assert q[2..] == "\\?" && s[2..] == "\\*" && p[2..] == "\\\\\\*" && p[2..][2..] == "\\*";
    assert q[2..][2..] == "" && s[2..][2..] == "" && p[4..] == "\\*" && p[2..][2..] == p[4..] && p[4..][2..] == "";
    assert ("*" + q)[1..] == q && ("*" + s)[1..] == s && ("*" + p)[1..] == p;
    assert "*\\\\\\?" == "*" + q && "*\\\\\\*" == "*" + s && "*\\\\\\\\\\*" == "*" + p;
    var g := Tokens(q);
    assert g == [Literal(ESCAPE), Literal(QUESTION)] && SlipsAt(g, 2);
    assert EscapePairs(q) == 1 && EscapePairs(s) == 1;
    assert EscapePairs(p[4..]) == 0 && EscapePairs(p[2..]) == 1 && EscapePairs(p) == 2;
    assert StarFree(Tokens(s)) && StarFree(Tokens(p));
    SafeWithoutStar(p);
  }
}
