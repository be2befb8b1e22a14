/** How the matcher looks for a place for the last group. */
module WildcardScan {
  import opened Wrappers
  import opened Wildcard
  import opened WildcardMeaning

  /** The first place from i on where the group matches, if any. */
  function FirstFull(t: string, i: nat, g: seq<Token>): (k: Option<nat>)
    requires i <= |t|
    ensures k.Some? ==> i <= k.value && FullAt(t, k.value, g)
    ensures k.Some? ==> forall m :: i <= m < k.value ==> !FullAt(t, m, g)
    ensures k.None? ==> forall m :: i <= m ==> !FullAt(t, m, g)
    decreases |t| - i
  {
    if i + |g| > |t| then None
    else if FullAt(t, i, g) then Some(i)
    else if i == |t| then None
    else FirstFull(t, i + 1, g)
  }

  lemma {:induction false} FirstFullLater(t: string, i: nat, a: nat, g: seq<Token>)
    requires i <= a <= |t| && forall m :: i <= m < a ==> !FullAt(t, m, g)
    ensures FirstFull(t, i, g) == FirstFull(t, a, g)
    decreases a - i
  {
    if i < a { FirstFullLater(t, i + 1, a, g); }
  }

  /** Some character of the string is refused by its token. */
  ghost predicate Refused(t: string, i: nat, g: seq<Token>) {
    exists m :: 0 <= m < |g| && i + m < |t| && !g[m].Accepts(t[i + m])
  }

  lemma RefusedStep(t: string, i: nat, x: Token, g: seq<Token>)
    requires i < |t| && x.Accepts(t[i])
    ensures Refused(t, i, [x] + g) <==> Refused(t, i + 1, g)
  {
    var p := [x] + g;
    if Refused(t, i, p) {
      var m :| 0 <= m < |p| && i + m < |t| && !p[m].Accepts(t[i + m]);
      assert g[m - 1] == p[m];
      assert 0 <= m - 1 < |g| && i + 1 + (m - 1) < |t| && !g[m - 1].Accepts(t[i + 1 + (m - 1)]);
    }
    if Refused(t, i + 1, g) {
      var m :| 0 <= m < |g| && i + 1 + m < |t| && !g[m].Accepts(t[i + 1 + m]);
      assert p[m + 1] == g[m];
      assert !p[m + 1].Accepts(t[i + (m + 1)]);
    }
  }

  /** How walking along a group ends. */
  ghost function WalkEnds(tame: string, wild: string, i: nat, g: seq<Token>, mark: Mark): Outcome
    requires mark.tame < |tame| && mark.wild < |wild|
  {
    if FullAt(tame, i, g) then (if i + |g| == |tame| then Yes else Restart(tame, wild, mark))
    else if Refused(tame, i, g) then Scan(tame, wild, mark.tame + 1, mark.wild)
    else No
  }

  /** One token of the last group that fits. */
  lemma WalkToken(tame: string, wild: string, i: nat, j: nat, mark: Mark)
    requires ValidState(tame, wild, i, j, Some(mark)) && Clean(wild[j..]) && StarFree(Tokens(wild[j..]))
    requires Tokens(wild[j..])[0].Accepts(tame[i])
    ensures var j' := if wild[j] == ESCAPE then j + 2 else j + 1;
            && j' <= |wild|
            && Run(tame, wild, i, j, Some(mark))
               == if i + 1 == |tame| then (if j' == |wild| then Yes else No)
                  else if j' == |wild| then Restart(tame, wild, mark)
                  else Run(tame, wild, i + 1, j', Some(mark))
  {
    RestIsStarFree(wild, j);
    var x, j' := FirstToken(wild, j);
    if j' < |wild| { RestIsStarFree(wild, j'); }
    assert Run(tame, wild, i, j, Some(mark)) == Next(tame, wild, i, j' - 1, Some(mark));
  }

  /** One that does not. */
  lemma WalkRefused(tame: string, wild: string, i: nat, j: nat, mark: Mark)
    requires ValidState(tame, wild, i, j, Some(mark)) && Clean(wild[j..]) && StarFree(Tokens(wild[j..]))
    requires !Tokens(wild[j..])[0].Accepts(tame[i])
    ensures Run(tame, wild, i, j, Some(mark)) == Scan(tame, wild, mark.tame + 1, mark.wild)
  {
    RestIsStarFree(wild, j);
    var x, j' := FirstToken(wild, j);
  }

  lemma {:induction false} WalkGroup(tame: string, wild: string, i: nat, j: nat, mark: Mark)
    requires ValidState(tame, wild, i, j, Some(mark)) && Clean(wild[j..]) && StarFree(Tokens(wild[j..]))
    ensures Run(tame, wild, i, j, Some(mark)) == WalkEnds(tame, wild, i, Tokens(wild[j..]), mark)
    decreases |wild| - j
  {
    RestIsStarFree(wild, j);
    var x, j' := FirstToken(wild, j);
    var g := Tokens(wild[j'..]);
    assert Tokens(wild[j..])[0] == x;
    FullAtStep(tame, i, x, g);
    if x.Accepts(tame[i]) {
      RefusedStep(tame, i, x, g);
      WalkToken(tame, wild, i, j, mark);
      if i + 1 < |tame| && j' < |wild| { WalkGroup(tame, wild, i + 1, j', mark); }
    } else {
      WalkRefused(tame, wild, i, j, mark);
      assert !Tokens(wild[j..])[0].Accepts(tame[i + 0]);
    }
  }

  /** The last group of the pattern is at b and begins with an escaped character. */
  ghost predicate EscapedGroup(wild: string, b: nat) {
    b < |wild| && wild[b] == ESCAPE && Clean(wild[b..]) && StarFree(Tokens(wild[b..]))
  }

  /** What the search does once it found the first place where the group matches, or none. */
  ghost function ScanEnds(tame: string, wild: string, k: Option<nat>, b: nat): Outcome
    requires b < |wild| && (k.Some? ==> k.value < |tame|)
  {
    if k.None? then No
    else if k.value + |Tokens(wild[b..])| == |tame| then Yes
    else Restart(tame, wild, Mark(k.value, b))
  }

  /** Trying the group where its first character was found. */
  lemma TryGroup(tame: string, wild: string, a: nat, b: nat)
    requires EscapedGroup(wild, b) && b + 1 < |wild| && a < |tame| && tame[a] == wild[b + 1]
    ensures Next(tame, wild, a, b + 1, Some(Mark(a, b))) == WalkEnds(tame, wild, a, Tokens(wild[b..]), Mark(a, b))
  {
    RestIsStarFree(wild, b);
    var x, j := FirstToken(wild, b);
    var g := Tokens(wild[j..]);
    FullAtStep(tame, a, x, g);
    RefusedStep(tame, a, x, g);
    if j < |wild| {
      RestIsStarFree(wild, j);
      if a + 1 < |tame| { WalkGroup(tame, wild, a + 1, j, Mark(a, b)); }
    }
  }

  lemma GroupHead(wild: string, b: nat)
    requires EscapedGroup(wild, b)
    ensures b + 1 < |wild| && Tokens(wild[b..]) != [] && Tokens(wild[b..])[0] == Literal(wild[b + 1])
  {
    var x, j := FirstToken(wild, b);
  }

  /** Places that lack the group's first character can be passed over. */
  lemma FirstFullFrom(t: string, i: nat, c: char, g: seq<Token>)
    requires i <= |t| && g != [] && g[0] == Literal(c)
    ensures var a := FindChar(t, c, i);
            FirstFull(t, i, g) == FirstFull(t, a, g) && (a == |t| ==> FirstFull(t, i, g).None?)
    ensures FirstFull(t, i, g).Some? ==> FirstFull(t, i, g).value < |t|
  {
    var a := FindChar(t, c, i);
    forall m | i <= m < a ensures !FullAt(t, m, g) {
      assert g[0].Accepts(t[m + 0]) <==> t[m] == c;
    }
    FirstFullLater(t, i, a, g);
  }

  lemma ScanIsTry(tame: string, wild: string, i: nat, b: nat)
    requires EscapedGroup(wild, b) && i <= |tame| && b + 1 < |wild|
    ensures var a := FindChar(tame, wild[b + 1], i);
            Scan(tame, wild, i, b) == if a == |tame| then No else WalkEnds(tame, wild, a, Tokens(wild[b..]), Mark(a, b))
  {
    var a := FindChar(tame, wild[b + 1], i);
    if a < |tame| { TryGroup(tame, wild, a, b); }
  }

  /** The first place from a on, given what happens at a. */
  lemma FirstFullAt(t: string, a: nat, g: seq<Token>)
    requires a < |t|
    ensures FullAt(t, a, g) ==> FirstFull(t, a, g) == Some(a)
    ensures !FullAt(t, a, g) ==> FirstFull(t, a, g) == FirstFull(t, a + 1, g)
    ensures !FullAt(t, a, g) && !Refused(t, a, g) ==> FirstFull(t, a, g).None?
  {
    if !FullAt(t, a, g) {
      FirstFullLater(t, a, a + 1, g);
      if a + |g| <= |t| {
        var m :| 0 <= m < |g| && !g[m].Accepts(t[a + m]);
        assert Refused(t, a, g);
      }
    }
  }

  /** The search finds the first place where the group matches; if the string goes on after it, the
      matcher starts over. */
  lemma {:induction false} ScanFirstFull(tame: string, wild: string, i: nat, b: nat)
    requires EscapedGroup(wild, b) && i <= |tame|
    ensures var k := FirstFull(tame, i, Tokens(wild[b..]));
            && (k.Some? ==> k.value < |tame|)
            && Scan(tame, wild, i, b) == ScanEnds(tame, wild, k, b)
    decreases |tame| - i
  {
    GroupHead(wild, b);
    var g := Tokens(wild[b..]);
    FirstFullFrom(tame, i, wild[b + 1], g);
    ScanIsTry(tame, wild, i, b);
    var a := FindChar(tame, wild[b + 1], i);
    if a < |tame| {
      FirstFullAt(tame, a, g);
      if !FullAt(tame, a, g) { ScanFirstFull(tame, wild, a + 1, b); }
    }
  }
}
