/** The matcher decides the meaning of its pattern (string_utils.cpp). */
module WildcardProofs {
  import opened Wrappers
  import opened Wildcard
  import opened WildcardMeaning
  import opened WildcardScan
  import opened WildcardRestart

  // ---- The matcher ------------------------------------------------------------------------

  /** A mark at the start of a group that is clean and does not start with a star. */
  ghost predicate ValidMark(wild: string, b: nat) {
    && b < |wild| && wild[b] != STAR && Clean(wild[b..]) && SafeToRestart(wild[b..])
    && (StarFree(Tokens(wild[b..])) ==> GroupSafe(wild[b..]))
  }

  /** The group since the mark has matched up to the current position. */
  ghost predicate Aligned(tame: string, wild: string, j: nat, mark: Option<Mark>, i: nat, g: seq<Token>) {
    mark.Some? ==>
      && j <= |wild| && mark.value.wild <= j
      && ValidMark(wild, mark.value.wild)
      && StarFree(g) && i == mark.value.tame + |g| && FullAt(tame, mark.value.tame, g)
      && Tokens(wild[mark.value.wild..]) == g + Tokens(wild[j..])
  }

  /** What the matcher still has to decide: a match from here, or a later place for the group. */
  ghost predicate Decides(tame: string, wild: string, i: nat, j: nat, mark: Option<Mark>)
    requires i <= |tame| && j <= |wild| && (mark.Some? ==> mark.value.wild <= |wild|)
  {
    || Matches(tame[i..], Tokens(wild[j..]))
    || (mark.Some? && MatchesLater(tame, mark.value.tame, Tokens(wild[mark.value.wild..])))
  }

  /** Looking for the group's first token passes over no place where the group matches. */
  lemma AdvanceSkipsNothing(tame: string, wild: string, i: nat, b: nat)
    requires i <= |tame| && ValidMark(wild, b) && (wild[b] == QUESTION ==> i < |tame|)
    ensures var a := AdvanceTame(tame, wild, i, b);
            var p := Tokens(wild[b..]);
            && !a.PastEnd?
            && (a.Exhausted? ==> !MatchesLater(tame, i - 1, p))
            && (a.Found? ==>
                  (MatchesLater(tame, i - 1, p) <==> Matches(tame[a.tame..], p) || MatchesLater(tame, a.tame, p)))
  {
    var p := Tokens(wild[b..]);
    var x, b' := FirstToken(wild, b);
    var a := AdvanceTame(tame, wild, i, b);
    var limit := if a.Found? then a.tame else |tame|;
    forall k | i <= k < limit ensures !Matches(tame[k..], p) {
      MatchesStep(tame, k, x, Tokens(wild[b'..]));
    }
    if a.Exhausted? {
      assert tame[|tame|..] == "" && !Matches("", p);
    }
    if MatchesLater(tame, i - 1, p) {
      var k :| i - 1 < k <= |tame| && 0 <= k && Matches(tame[k..], p);
      assert a.Found? ==> k == a.tame || MatchesLater(tame, a.tame, p);
    }
    if a.Found? && MatchesLater(tame, a.tame, p) {
      var k :| a.tame < k <= |tame| && 0 <= k && Matches(tame[k..], p);
      assert MatchesLater(tame, i - 1, p);
    }
  }

  /** A new star makes the old mark irrelevant. */
  lemma StarForgetsMark(tame: string, wild: string, i: nat, j: nat, mark: Option<Mark>, g: seq<Token>)
    requires ValidState(tame, wild, i, j, mark) && Aligned(tame, wild, j, mark, i, g) && wild[j] == STAR
    ensures Decides(tame, wild, i, j, mark) <==> MatchesLater(tame, i - 1, Tokens(wild[j + 1..]))
  {
    var q := Tokens(wild[j + 1..]);
    assert wild[j..][1..] == wild[j + 1..];
    assert Tokens(wild[j..]) == [Star] + q;
    StarMeansLater(tame, i, q);
    if mark.Some? && MatchesLater(tame, mark.value.tame, Tokens(wild[mark.value.wild..])) {
      var k :| mark.value.tame < k <= |tame| && 0 <= k && Matches(tame[k..], g + Tokens(wild[j..]));
      GroupConsumes(tame[k..], g, Tokens(wild[j..]));
      assert tame[k..][|g|..] == tame[k + |g|..];
      StarMeansLater(tame, k + |g|, q);
      var m :| k + |g| - 1 < m <= |tame| && 0 <= m && Matches(tame[m..], q);
      assert MatchesLater(tame, i - 1, q);
    }
  }

  /** With the string used up, the group cannot be placed later. */
  lemma NoLaterAtEnd(tame: string, wild: string, j: nat, mark: Option<Mark>, g: seq<Token>)
    requires mark.Some? && Aligned(tame, wild, j, mark, |tame|, g)
    ensures !MatchesLater(tame, mark.value.tame, Tokens(wild[mark.value.wild..]))
  {
    var p := Tokens(wild[j..]);
    if MatchesLater(tame, mark.value.tame, g + p) {
      var k :| mark.value.tame < k <= |tame| && 0 <= k && Matches(tame[k..], g + p);
      GroupConsumes(tame[k..], g, p);
    }
  }

  /** From the top of its loop at a token boundary the matcher answers correctly. */
  lemma {:induction false} RunCorrect(tame: string, wild: string, i: nat, j: nat, mark: Option<Mark>, g: seq<Token>)
    requires ValidState(tame, wild, i, j, mark) && Aligned(tame, wild, j, mark, i, g)
    requires Clean(wild[j..]) && SafeToRestart(wild[j..])
    ensures Run(tame, wild, i, j, mark) == if Decides(tame, wild, i, j, mark) then Yes else No
    decreases WildLeft(wild, mark), TameLeft(tame, mark), |tame| - i, 3
  {
    if wild[j] == STAR {
      RunAtStar(tame, wild, i, j, mark, g);
    } else {
      RunAtToken(tame, wild, i, j, mark, g);
    }
  }

  lemma {:induction false} RunAtStar(tame: string, wild: string, i: nat, j: nat, mark: Option<Mark>, g: seq<Token>)
    requires ValidState(tame, wild, i, j, mark) && Aligned(tame, wild, j, mark, i, g)
    requires Clean(wild[j..]) && SafeToRestart(wild[j..]) && wild[j] == STAR
    ensures Run(tame, wild, i, j, mark) == if Decides(tame, wild, i, j, mark) then Yes else No
    decreases WildLeft(wild, mark), TameLeft(tame, mark), |tame| - i, 2
  {
    StarForgetsMark(tame, wild, i, j, mark, g);
    assert wild[j..][1..] == wild[j + 1..];
    if j + 1 == |wild| {
      assert tame[|tame|..] == "" && Matches(tame[|tame|..], Tokens(wild[j + 1..]));
      assert MatchesLater(tame, i - 1, Tokens(wild[j + 1..]));
    } else {
      assert ValidMark(wild, j + 1);
      ScanCorrect(tame, wild, i, j + 1);
    }
  }

  /** A token that fits extends the group matched since the mark. */
  lemma AlignedNext(tame: string, wild: string, i: nat, j: nat, j': nat, mark: Option<Mark>, g: seq<Token>, x: Token)
    requires Aligned(tame, wild, j, mark, i, g) && j <= j' <= |wild| && i < |tame|
    requires !x.Star? && x.Accepts(tame[i]) && Tokens(wild[j..]) == [x] + Tokens(wild[j'..])
    ensures Aligned(tame, wild, j', mark, i + 1, g + [x])
  {
    if mark.Some? {
      FullAtPush(tame, mark.value.tame, g, x);
      assert g + ([x] + Tokens(wild[j'..])) == (g + [x]) + Tokens(wild[j'..]);
    }
  }

  lemma RunStep(tame: string, wild: string, i: nat, j: nat, mark: Option<Mark>) returns (x: Token, j': nat)
    requires ValidState(tame, wild, i, j, mark) && Clean(wild[j..]) && wild[j] != STAR
    ensures j < j' <= |wild| && !x.Star? && Tokens(wild[j..]) == [x] + Tokens(wild[j'..])
    ensures wild[j] == QUESTION <==> x == AnyChar
    ensures Clean(wild[j'..]) && (SafeToRestart(wild[j..]) ==> SafeToRestart(wild[j'..]))
    ensures Run(tame, wild, i, j, mark)
         == if x.Accepts(tame[i]) then Next(tame, wild, i, j' - 1, mark)
            else if mark.None? then No
            else Scan(tame, wild, mark.value.tame + 1, mark.value.wild)
  {
    x, j' := FirstToken(wild, j);
  }

  lemma {:induction false} RunAtToken(tame: string, wild: string, i: nat, j: nat, mark: Option<Mark>, g: seq<Token>)
    requires ValidState(tame, wild, i, j, mark) && Aligned(tame, wild, j, mark, i, g)
    requires Clean(wild[j..]) && SafeToRestart(wild[j..]) && wild[j] != STAR
    ensures Run(tame, wild, i, j, mark) == if Decides(tame, wild, i, j, mark) then Yes else No
    decreases WildLeft(wild, mark), TameLeft(tame, mark), |tame| - i, 2
  {
    var x, j' := RunStep(tame, wild, i, j, mark);
    MatchesStep(tame, i, x, Tokens(wild[j'..]));
    if x.Accepts(tame[i]) {
      AlignedNext(tame, wild, i, j, j', mark, g, x);
      NextCorrect(tame, wild, i, j' - 1, mark, g + [x]);
    } else if mark.Some? {
      ResumeFrom(tame, wild, i, j, mark.value, g);
    }
  }

  lemma {:induction false} ResumeFrom(tame: string, wild: string, i: nat, j: nat, mark: Mark, g: seq<Token>)
    requires ValidState(tame, wild, i, j, Some(mark)) && Aligned(tame, wild, j, Some(mark), i, g)
    requires wild[j] != STAR && wild[j] != QUESTION && Clean(wild[j..])
    ensures Scan(tame, wild, mark.tame + 1, mark.wild)
         == if MatchesLater(tame, mark.tame, Tokens(wild[mark.wild..])) then Yes else No
    decreases |wild| - mark.wild, |tame| - mark.tame, |tame| - i, 1
  {
    MarkBehind(tame, wild, i, j, mark, g);
    ScanCorrect(tame, wild, mark.tame + 1, mark.wild);
  }

  /** Unless the mark is at a '?', which always matches, some token was matched since the mark. */
  lemma MarkBehind(tame: string, wild: string, i: nat, j: nat, mark: Mark, g: seq<Token>)
    requires ValidState(tame, wild, i, j, Some(mark)) && Aligned(tame, wild, j, Some(mark), i, g)
    requires wild[j] != STAR && Clean(wild[j..])
    requires wild[j] != QUESTION
    ensures wild[mark.wild] == QUESTION ==> g != []
  {
    var x, _ := FirstToken(wild, j);
    var y, _ := FirstToken(wild, mark.wild);
    assert Tokens(wild[j..])[0] == x && Tokens(wild[mark.wild..])[0] == y;
    assert g == [] ==> g + Tokens(wild[j..]) == Tokens(wild[j..]);
  }

  /** The search for a place for a group decides whether the group and what follows match from i on. */
  lemma {:induction false} ScanCorrect(tame: string, wild: string, i: nat, b: nat)
    requires i <= |tame| && ValidMark(wild, b) && (wild[b] == QUESTION ==> i < |tame|)
    ensures Scan(tame, wild, i, b) == if MatchesLater(tame, i - 1, Tokens(wild[b..])) then Yes else No
    decreases |wild| - b, |tame| - i, |tame| - i, 3
  {
    AdvanceSkipsNothing(tame, wild, i, b);
    var a := AdvanceTame(tame, wild, i, b);
    if a.Found? { GroupBegins(tame, wild, a.tame, b, a.wild); }
  }

  /** The same, for the pass that starts over because the pattern ended first. */
  lemma {:induction false} StartOver(tame: string, wild: string, mark: Mark)
    requires mark.tame + 1 < |tame| && ValidMark(wild, mark.wild) && StarFree(Tokens(wild[mark.wild..]))
    requires !EscapeGroup(wild, mark.wild)
    ensures Restart(tame, wild, mark) == if MatchesLater(tame, mark.tame, Tokens(wild[mark.wild..])) then Yes else No
    decreases |wild| - mark.wild, |tame| - mark.tame, 0, 0
  {
    AdvanceSkipsNothing(tame, wild, mark.tame + 1, mark.wild);
    var a := AdvanceTame(tame, wild, mark.tame + 1, mark.wild);
    if a.Found? { GroupRestarts(tame, wild, a.tame, mark.wild, a.wild); }
  }

  /** The group at b was found to begin at tame[i]: stepping past its first token is correct. */
  lemma {:induction false} GroupBegins(tame: string, wild: string, i: nat, b: nat, j: nat)
    requires i < |tame| && ValidMark(wild, b)
    requires j == if wild[b] == ESCAPE then b + 1 else b
    requires wild[b] == QUESTION || (j < |wild| && tame[i] == wild[j])
    ensures var p := Tokens(wild[b..]);
            && j < |wild|
            && Next(tame, wild, i, j, Some(Mark(i, b)))
               == if Matches(tame[i..], p) || MatchesLater(tame, i, p) then Yes else No
    decreases |wild| - b, |tame| - i, |tame| - i, 2
  {
    var x, b' := FirstToken(wild, b);
    MatchesStep(tame, i, x, Tokens(wild[b'..]));
    NextCorrect(tame, wild, i, j, Some(Mark(i, b)), [x]);
  }

  /** Going round the loop again at the place the group was found is correct, escapes included. */
  lemma {:induction false} GroupRestarts(tame: string, wild: string, i: nat, b: nat, j: nat)
    requires i < |tame| && ValidMark(wild, b) && StarFree(Tokens(wild[b..])) && !EscapeGroup(wild, b)
    requires j == if wild[b] == ESCAPE then b + 1 else b
    requires wild[b] == QUESTION || (j < |wild| && tame[i] == wild[j])
    ensures var p := Tokens(wild[b..]);
            && j < |wild|
            && Run(tame, wild, i, j, Some(Mark(i, b)))
               == if Matches(tame[i..], p) || MatchesLater(tame, i, p) then Yes else No
    decreases |wild| - b, |tame| - i, |tame| - i, 4
  {
    if wild[b] == ESCAPE {
      assert wild[b..][1] == wild[b + 1];
      GroupBegins(tame, wild, i, b, j);
    } else {
      RunCorrect(tame, wild, i, b, Some(Mark(i, b)), []);
    }
  }

  /** Past a matched pair the matcher answers correctly. */
  lemma {:induction false} NextCorrect(tame: string, wild: string, i: nat, j: nat, mark: Option<Mark>, g: seq<Token>)
    requires ValidState(tame, wild, i, j, mark) && Aligned(tame, wild, j + 1, mark, i + 1, g)
    requires Clean(wild[j + 1..]) && SafeToRestart(wild[j + 1..])
    ensures Next(tame, wild, i, j, mark) == if Decides(tame, wild, i + 1, j + 1, mark) then Yes else No
    decreases WildLeft(wild, mark), TameLeft(tame, mark), |tame| - i, 1
  {
    if i + 1 == |tame| {
      assert tame[i + 1..] == "";
      MatchesNothing(wild[j + 1..]);
      if mark.Some? { NoLaterAtEnd(tame, wild, j + 1, mark, g); }
    } else if j + 1 == |wild| {
      assert wild[j + 1..] == "";
      if mark.Some? {
        assert g + Tokens("") == g;
        if EscapeGroup(wild, mark.value.wild) {
          RestartRight(tame, wild, mark.value.tame, mark.value.wild);
          LaterMeans(tame, mark.value.tame, g);
        } else {
          StartOver(tame, wild, mark.value);
        }
      }
    } else {
      RunCorrect(tame, wild, i + 1, j + 1, mark, g);
    }
  }

  /** The matcher decides exactly whether the string matches the pattern, for every string and every
      clean pattern that is safe to restart. */
  lemma MatcherCorrect(tame: string, wild: string)
    requires Clean(wild) && SafeToRestart(wild)
    ensures RunFromStart(tame, wild) == if Matches(tame, Tokens(wild)) then Yes else No
  {
    if wild != "" {
      if tame == "" {
        MatchesNothing(wild);
      } else {
        assert wild[0..] == wild && tame[0..] == tame;
        RunCorrect(tame, wild, 0, 0, None, []);
      }
    }
  }

  lemma EscapedStarMeaning(tame: string)
    ensures Tokens("*\\*") == [Star] + [Literal(STAR)]
    ensures Matches(tame, Tokens("*\\*")) <==> tame != "" && tame[|tame| - 1] == STAR
  {
    var wild := "*\\*";
    assert wild[1..] == "\\*" && wild[1..][2..] == "";
    assert tame[0..] == tame;
    StarMeansLater(tame, 0, [Literal(STAR)]);
    forall k | 0 <= k <= |tame|
      ensures Matches(tame[k..], [Literal(STAR)]) <==> k + 1 == |tame| && tame[k] == STAR
    {
      if k < |tame| {
        MatchesStep(tame, k, Literal(STAR), []);
        assert [Literal(STAR)] + [] == [Literal(STAR)];
      }
    }
    assert tame != "" && tame[|tame| - 1] == STAR ==> Matches(tame[|tame| - 1..], [Literal(STAR)]);
  }

  lemma EscapedStarRun(tame: string)
    requires tame != ""
    ensures var first := FindChar(tame, STAR, 0);
            Run(tame, "*\\*", 0, 0, None) == Yes <==>
              first < |tame| && (first + 1 == |tame| || FindChar(tame, STAR, first + 1) < |tame|)
  {
    var wild := "*\\*";
    var first := FindChar(tame, STAR, 0);
    assert AdvanceTame(tame, wild, 0, 1) == if first == |tame| then Exhausted else Found(first, 2);
    assert Run(tame, wild, 0, 0, None) == Scan(tame, wild, 0, 1);
    if first < |tame| {
      assert Scan(tame, wild, 0, 1) == Next(tame, wild, first, 2, Some(Mark(first, 1)));
    }
    if first + 1 < |tame| {
      var second := FindChar(tame, STAR, first + 1);
      assert AdvanceTame(tame, wild, first + 1, 1) == if second == |tame| then Exhausted else Found(second, 2);
      assert Next(tame, wild, first, 2, Some(Mark(first, 1))) == Restart(tame, wild, Mark(first, 1));
      if second < |tame| {
        assert Run(tame, wild, second, 2, Some(Mark(second, 1))) == Yes;
      }
    }
  }

  /** What the matcher answers for "*\\*", which should accept exactly the strings ending in '*': it
      also accepts any string with a second '*', so it is wrong exactly on those that end otherwise. */
  lemma EscapedStarExactly(tame: string)
    ensures Clean("*\\*") && !SafeToRestart("*\\*")
    ensures Matches(tame, Tokens("*\\*")) <==> tame != "" && tame[|tame| - 1] == STAR
    ensures RunFromStart(tame, "*\\*") == Yes <==>
              Matches(tame, Tokens("*\\*")) || exists i, k :: 0 <= i < k < |tame| && tame[i] == tame[k] == STAR
  {
    EscapedStarMeaning(tame);
    var wild := "*\\*";
    assert wild[1..] == "\\*" && wild[1..][2..] == "";
    if tame != "" { EscapedStarRun(tame); }
  }

  /** With an escaped escape at the start of the last group the matcher reads past its pattern. */
  lemma EscapedEscapeReadsPastEnd()
    ensures Clean("*\\\\") && !SafeToRestart("*\\\\")
    ensures RunFromStart("\\a\\", "*\\\\") == ReadPastEnd
    ensures Matches("\\a\\", Tokens("*\\\\"))
  {
    var tame, wild := "\\a\\", "*\\\\";
    assert Tokens(wild) == [Star] + [Literal(ESCAPE)] by {
      assert wild[1..] == "\\\\" && wild[1..][2..] == "";
    }
    assert tame[0..] == tame;
    StarMeansLater(tame, 0, [Literal(ESCAPE)]);
    MatchesStep(tame, 2, Literal(ESCAPE), []);
  }

  /** The source's search for the next place a group can begin. */
  method AdvanceTameToNextMatch(tame: string, wild: string, i: nat, j: nat) returns (a: Advance)
    requires i <= |tame| && j < |wild|
    ensures a == AdvanceTame(tame, wild, i, j)
  {
    if wild[j] == QUESTION {
      return if i < |tame| then Found(i, j) else PastEnd;
    }
    var j1 := j;
    if wild[j] == ESCAPE {
      j1 := j + 1;
      if j1 == |wild| { return PastEnd; }
    }
    var k := i;
    while k < |tame| && tame[k] != wild[j1]
      invariant i <= k <= |tame|
      invariant FindChar(tame, wild[j1], k) == FindChar(tame, wild[j1], i)
    {
      k := k + 1;
    }
    return if k == |tame| then Exhausted else Found(k, j1);
  }

  /** One pass of the matcher's loop up to the matched pair. */
  method MatchToken(tame: string, wild: string, i: nat, j: nat, mark: Option<Mark>)
    returns (answer: Option<Outcome>, i': nat, j': nat, mark': Option<Mark>)
    requires ValidState(tame, wild, i, j, mark)
    ensures answer.Some? ==> Run(tame, wild, i, j, mark) == answer.value
    ensures answer.None? ==> ValidState(tame, wild, i', j', mark')
    ensures answer.None? ==> Run(tame, wild, i, j, mark) == Next(tame, wild, i', j', mark')
    ensures answer.None? ==>
              || (mark' == mark && i' == i)
              || WildLeft(wild, mark') < WildLeft(wild, mark)
              || (WildLeft(wild, mark') == WildLeft(wild, mark) && TameLeft(tame, mark') < TameLeft(tame, mark))
  {
    i', j', mark' := i, j, mark;
    if wild[j] == STAR {
      if j + 1 == |wild| { return Some(Yes), i', j', mark'; }
      var a := AdvanceTameToNextMatch(tame, wild, i, j + 1);
      if !a.Found? { return Some(if a.Exhausted? then No else ReadPastEnd), i', j', mark'; }
      return None, a.tame, a.wild, Some(Mark(a.tame, j + 1));
    }
    var escaped := wild[j] == ESCAPE;
    if escaped {
      if j + 1 == |wild| { return Some(ReadPastEnd), i', j', mark'; }
      j' := j + 1;
    }
    if (!escaped && wild[j'] == QUESTION) || tame[i] == wild[j'] { return None, i', j', mark'; }
    if mark.None? { return Some(No), i', j', mark'; }
    var a := AdvanceTameToNextMatch(tame, wild, mark.value.tame + 1, mark.value.wild);
    if !a.Found? { return Some(if a.Exhausted? then No else ReadPastEnd), i', j', mark'; }
    return None, a.tame, a.wild, Some(Mark(a.tame, mark.value.wild));
  }

  /** The matcher: decides the pattern's meaning on every clean pattern that is safe to restart. */
  method WildcardMatchUnsafeCaseSensitive(tame: string, wild: string) returns (r: Outcome)
    ensures r == RunFromStart(tame, wild)
    ensures Clean(wild) && SafeToRestart(wild) ==> r == if Matches(tame, Tokens(wild)) then Yes else No
  {
    if Clean(wild) && SafeToRestart(wild) { MatcherCorrect(tame, wild); }
    if wild == "" { return if tame == "" then Yes else No; }
    if tame == "" { return if |wild| == 1 && wild[0] == STAR then Yes else No; }
    var i: nat, j: nat := 0, 0;
    var mark: Option<Mark> := None;
    while true
      invariant ValidState(tame, wild, i, j, mark)
      invariant Run(tame, wild, i, j, mark) == Run(tame, wild, 0, 0, None)
      decreases WildLeft(wild, mark), TameLeft(tame, mark), |tame| - i
    {
      var answer;
      answer, i, j, mark := MatchToken(tame, wild, i, j, mark);
      if answer.Some? { return answer.value; }
      if i + 1 == |tame| {
        return if j + 1 == |wild| || (wild[j + 1] == STAR && j + 2 == |wild|) then Yes else No;
      }
      if j + 1 == |wild| {
        if mark.None? { return No; }
        var a := AdvanceTameToNextMatch(tame, wild, mark.value.tame + 1, mark.value.wild);
        if !a.Found? { return if a.Exhausted? then No else ReadPastEnd; }
        i, j, mark := a.tame, a.wild, Some(Mark(a.tame, mark.value.wild));
      } else {
        i, j := i + 1, j + 1;
      }
    }
  }
}
