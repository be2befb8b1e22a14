/** Cleaning up wildcard search strings, and the checks that decide which encodings a wildcard
    variable could have (string_utils.cpp, EncodedVariableInterpreter.cpp). */
module WildcardCleanup {
  import opened Wildcard
  import opened WildcardMeaning
  import opened WildcardMisread
  import opened WildcardExact
  import IntegerVar
  import FloatVar
  import Decimal

  function SkipStars(w: string): (r: string)
    ensures |r| <= |w| && (r != "" ==> r[0] != STAR)
  {
    if w != "" && w[0] == STAR then SkipStars(w[1..]) else w
  }

  /** Drops repeated stars, needless escapes and a dangling escape. */
  function CleanUp(w: string): string
    decreases |w|
  {
    if w == "" then ""
    else if w[0] == STAR then [STAR] + CleanUp(SkipStars(w[1..]))
    else if w[0] != ESCAPE then [w[0]] + CleanUp(w[1..])
    else if |w| == 1 then ""
    else (if IsSpecial(w[1]) then [ESCAPE, w[1]] else [w[1]]) + CleanUp(w[2..])
  }

  lemma Joined(a: string, b: string, c: string)
    ensures a + (b + c) == (a + b) + c
  {
  }

  method CleanUpWildcardSearchString(str: string) returns (cleaned: string)
    ensures cleaned == CleanUp(str)
  {
    cleaned := "";
    var isEscaped := false;
    var current := 0;
    ghost var rest := str;
    while current < |str|
      invariant 0 <= current <= |str|
      invariant isEscaped ==> current > 0 && str[current - 1] == ESCAPE
      invariant rest == str[if isEscaped then current - 1 else current..]
      invariant CleanUp(str) == cleaned + CleanUp(rest)
    {
      var c := str[current];
      if isEscaped {
        isEscaped := false;
        Joined(cleaned, if IsSpecial(c) then [ESCAPE, c] else [c], CleanUp(rest[2..]));
        cleaned := cleaned + (if IsSpecial(c) then [ESCAPE, c] else [c]);
        current := current + 1;
        rest := rest[2..];
      } else if c == STAR {
        Joined(cleaned, [c], CleanUp(SkipStars(rest[1..])));
        cleaned := cleaned + [c];
        current := SkipStarsFrom(str, current + 1);
        rest := SkipStars(rest[1..]);
      } else {
        if c == ESCAPE {
          isEscaped := true;
        } else {
          Joined(cleaned, [c], CleanUp(rest[1..]));
          cleaned := cleaned + [c];
          rest := rest[1..];
        }
        current := current + 1;
      }
    }
    assert CleanUp(rest) == "";
  }

  /** The source's inner loop over repeated stars. */
  method SkipStarsFrom(str: string, start: nat) returns (current: nat)
    requires start <= |str|
    ensures start <= current <= |str| && str[current..] == SkipStars(str[start..])
  {
    current := start;
    while current < |str| && str[current] == STAR
      invariant start <= current <= |str|
      invariant SkipStars(str[current..]) == SkipStars(str[start..])
    {
      assert str[current..][1..] == str[current + 1..];
      current := current + 1;
    }
  }

  /** Leading stars after a star add nothing. */
  lemma {:induction false} ExtraStars(t: string, w: string)
    ensures Matches(t, [Star] + Tokens(w)) <==> Matches(t, [Star] + Tokens(SkipStars(w)))
    decreases |w|
  {
    if w != "" && w[0] == STAR {
      ExtraStars(t, w[1..]);
      var p := Tokens(w[1..]);
      assert t[0..] == t;
      StarMeansLater(t, 0, [Star] + p);
      StarMeansLater(t, 0, p);
      if Matches(t, [Star] + p) {
        assert MatchesLater(t, -1, [Star] + p);
      }
      if MatchesLater(t, -1, [Star] + p) {
        var k :| -1 < k <= |t| && Matches(t[k..], [Star] + p);
        StarMeansLater(t, k, p);
        var m :| k - 1 < m <= |t| && Matches(t[m..], p);
        assert MatchesLater(t, -1, p);
      }
    }
  }

  /** Cleaning a pattern does not change what it matches. */
  lemma {:induction false} CleanUpKeepsMeaning(t: string, w: string)
    ensures Matches(t, Tokens(CleanUp(w))) <==> Matches(t, Tokens(w))
    decreases |w|
  {
    if w == "" {
    } else if w[0] == STAR {
      var rest := SkipStars(w[1..]);
      ExtraStars(t, w[1..]);
      assert t[0..] == t && CleanUp(w)[1..] == CleanUp(rest);
      StarMeansLater(t, 0, Tokens(rest));
      StarMeansLater(t, 0, Tokens(CleanUp(rest)));
      forall k | 0 <= k <= |t|
        ensures Matches(t[k..], Tokens(CleanUp(rest))) <==> Matches(t[k..], Tokens(rest))
      {
        CleanUpKeepsMeaning(t[k..], rest);
      }
    } else if w[0] != ESCAPE {
      assert CleanUp(w)[1..] == CleanUp(w[1..]);
      if t != "" { CleanUpKeepsMeaning(t[1..], w[1..]); }
      TokenKept(t, Tokens(w)[0], Tokens(CleanUp(w[1..])), Tokens(w[1..]));
    } else if |w| > 1 {
      var tail := CleanUp(w[2..]);
      if IsSpecial(w[1]) {
        assert CleanUp(w)[2..] == tail;
      } else {
        assert CleanUp(w)[1..] == tail;
      }
      if t != "" { CleanUpKeepsMeaning(t[1..], w[2..]); }
      TokenKept(t, Literal(w[1]), Tokens(tail), Tokens(w[2..]));
    }
  }

  lemma TokenKept(t: string, x: Token, p: seq<Token>, q: seq<Token>)
    requires !x.Star? && (t != "" ==> (Matches(t[1..], p) <==> Matches(t[1..], q)))
    ensures Matches(t, [x] + p) <==> Matches(t, [x] + q)
  {
    assert ([x] + p)[1..] == p && ([x] + q)[1..] == q;
  }

  /** Escapes only precede characters that need them. */
  predicate NoNeedlessEscape(w: string) {
    if w == "" then true
    else if w[0] == ESCAPE then |w| > 1 && IsSpecial(w[1]) && NoNeedlessEscape(w[2..])
    else NoNeedlessEscape(w[1..])
  }

  /** A cleaned pattern meets what the matcher demands. */
  lemma {:induction false} CleanUpIsClean(w: string)
    ensures Clean(CleanUp(w)) && NoNeedlessEscape(CleanUp(w))
    decreases |w|
  {
    if w == "" {
    } else if w[0] == STAR {
      var rest := SkipStars(w[1..]);
      CleanUpIsClean(rest);
      assert CleanUp(w)[1..] == CleanUp(rest);
    } else if w[0] != ESCAPE {
      CleanUpIsClean(w[1..]);
      assert CleanUp(w)[1..] == CleanUp(w[1..]);
    } else if |w| > 1 {
      CleanUpIsClean(w[2..]);
      if IsSpecial(w[1]) {
        assert CleanUp(w)[2..] == CleanUp(w[2..]);
      } else {
        assert CleanUp(w)[1..] == CleanUp(w[2..]);
      }
    }
  }

  /** Cleaning the pattern and running the matcher on it decides what the pattern as given means. */
  ghost predicate CleanedRight(tame: string, w: string) {
    RunFromStart(tame, CleanUp(w)) == if Matches(tame, Tokens(w)) then Yes else No
  }

  /** For any pattern, cleaned or not, this holds of every string exactly if the cleaned one is safe to
      restart. */
  lemma CleanThenMatch(w: string)
    ensures SafeToRestart(CleanUp(w)) <==> forall tame :: CleanedRight(tame, w)
  {
    forall tame ensures CleanedRight(tame, w) <==> RightOn(tame, CleanUp(w)) { CleanUpKeepsMeaning(tame, w); }
    CleanUpIsClean(w);
    RightExactlyWhenSafe(CleanUp(w));
    if !SafeToRestart(CleanUp(w)) {
      var tame :| !RightOn(tame, CleanUp(w));
      assert !CleanedRight(tame, w);
    }
  }

  // ---- Which encodings a wildcard variable could have -----------------------------------------

  predicate WildcardCouldBeInteger(w: string) {
    w != "" && forall i :: 0 <= i < |w| ==> Decimal.IsDigit(w[i]) || w[i] == '-' || w[i] == QUESTION || w[i] == STAR
  }

  predicate WildcardCouldBeFloat(w: string) {
    w != "" && forall i :: 0 <= i < |w| ==>
      Decimal.IsDigit(w[i]) || w[i] == '-' || w[i] == '.' || w[i] == QUESTION || w[i] == STAR
  }

  /** A literal of the pattern occurs in every string that matches. */
  lemma {:induction false} LiteralsOccur(t: string, p: seq<Token>, i: nat)
    requires Matches(t, p) && i < |p| && p[i].Literal?
    ensures p[i].c in t
    decreases |p|, |t|
  {
    if p[0].Star? && !Matches(t, p[1..]) {
      LiteralsOccur(t[1..], p, i);
      assert t == [t[0]] + t[1..];
    } else if p[0].Star? {
      LiteralsOccur(t, p[1..], i - 1);
    } else if i > 0 {
      LiteralsOccur(t[1..], p[1..], i - 1);
      assert t == [t[0]] + t[1..];
    }
  }

  /** In a pattern without needless escapes, every character is a wildcard or a literal of the
      pattern, and an escape brings a literal wildcard or escape. */
  lemma {:induction false} CharactersAreTokens(w: string, i: nat)
    requires NoNeedlessEscape(w) && i < |w|
    ensures w[i] == STAR || w[i] == QUESTION || (w[i] != ESCAPE && Literal(w[i]) in Tokens(w))
            || Literal(STAR) in Tokens(w) || Literal(QUESTION) in Tokens(w) || Literal(ESCAPE) in Tokens(w)
    decreases |w|
  {
    if w[0] == ESCAPE {
      assert Tokens(w)[0] == Literal(w[1]);
    } else if i == 0 {
      assert w[0] != STAR && w[0] != QUESTION ==> Tokens(w)[0] == Literal(w[0]);
    } else {
      CharactersAreTokens(w[1..], i - 1);
      assert Tokens(w) == [Tokens(w)[0]] + Tokens(w[1..]);
    }
  }

  /** Every character of a pattern that matches a string over an alphabet without wildcards is a
      wildcard or in the alphabet. */
  lemma MatchLimitsCharacters(t: string, w: string, alphabet: char -> bool)
    requires Matches(t, Tokens(w)) && NoNeedlessEscape(w)
    requires !alphabet(STAR) && !alphabet(QUESTION) && !alphabet(ESCAPE)
    requires forall i :: 0 <= i < |t| ==> alphabet(t[i])
    ensures forall i :: 0 <= i < |w| ==> w[i] == STAR || w[i] == QUESTION || alphabet(w[i])
  {
    forall k | 0 <= k < |Tokens(w)| && Tokens(w)[k].Literal?
      ensures alphabet(Tokens(w)[k].c)
    {
      LiteralsOccur(t, Tokens(w), k);
    }
    forall i | 0 <= i < |w| ensures w[i] == STAR || w[i] == QUESTION || alphabet(w[i]) {
      CharactersAreTokens(w, i);
    }
  }

  predicate IntegerChar(c: char) {
    Decimal.IsDigit(c) || c == '-'
  }

  predicate FloatChar(c: char) {
    Decimal.IsDigit(c) || c == '-' || c == '.'
  }

  lemma IntegerCharacters(s: string)
    requires IntegerVar.ConvertStringToIntegerVar(s).Some?
    ensures s != "" && forall i :: 0 <= i < |s| ==> IntegerChar(s[i])
  {
    forall i | 0 <= i < |s| ensures IntegerChar(s[i]) {
      if s[0] == '-' && i > 0 { assert Decimal.IsDigit(s[1..][i - 1]); }
    }
  }

  lemma FloatCharacters(s: string)
    requires FloatVar.IsFloatText(s)
    ensures s != "" && forall i :: 0 <= i < |s| ==> FloatChar(s[i])
  {
    var p := FloatVar.PointOf(s);
    forall i | 0 <= i < |s| ensures FloatChar(s[i]) {
      assert i == p || i < FloatVar.SignLength(s) || Decimal.IsDigit(s[i]);
    }
  }

  lemma {:induction false} EscapeFreeHasNoNeedless(w: string)
    requires ESCAPE !in w
    ensures NoNeedlessEscape(w)
    decreases |w|
  {
    if w != "" { EscapeFreeHasNoNeedless(w[1..]); }
  }

  /** If any integer the encoder accepts matches the pattern, the cleaned pattern passes the check,
      and the pattern as given passes it exactly when it holds no escape. */
  lemma IntegerCheckNeverMisses(pattern: string, s: string)
    requires Matches(s, Tokens(pattern)) && IntegerVar.ConvertStringToIntegerVar(s).Some?
    ensures WildcardCouldBeInteger(CleanUp(pattern))
    ensures WildcardCouldBeInteger(pattern) <==> ESCAPE !in pattern
  {
    IntegerCharacters(s);
    CleanUpKeepsMeaning(s, pattern);
    CleanUpIsClean(pattern);
    MatchLimitsCharacters(s, CleanUp(pattern), IntegerChar);
    if ESCAPE !in pattern {
      EscapeFreeHasNoNeedless(pattern);
      MatchLimitsCharacters(s, pattern, IntegerChar);
    }
  }

  /** The same for floats. */
  lemma FloatCheckNeverMisses(pattern: string, s: string)
    requires Matches(s, Tokens(pattern)) && FloatVar.IsFloatText(s)
    ensures WildcardCouldBeFloat(CleanUp(pattern))
    ensures WildcardCouldBeFloat(pattern) <==> ESCAPE !in pattern
  {
    FloatCharacters(s);
    CleanUpKeepsMeaning(s, pattern);
    CleanUpIsClean(pattern);
    MatchLimitsCharacters(s, CleanUp(pattern), FloatChar);
    if ESCAPE !in pattern {
      EscapeFreeHasNoNeedless(pattern);
      MatchLimitsCharacters(s, pattern, FloatChar);
    }
  }

  predicate Over(s: string, alphabet: char -> bool) {
    forall i :: 0 <= i < |s| ==> alphabet(s[i])
  }

  /** The shortest string a pattern without escapes matches, with a zero for each '?'. */
  function Filled(w: string): string {
    if w == "" then ""
    else if w[0] == STAR then Filled(w[1..])
    else [if w[0] == QUESTION then '0' else w[0]] + Filled(w[1..])
  }

  lemma {:induction false} FilledMatches(w: string, alphabet: char -> bool)
    requires !alphabet(ESCAPE) && alphabet('0')
    requires forall i :: 0 <= i < |w| ==> w[i] == STAR || w[i] == QUESTION || alphabet(w[i])
    ensures Over(Filled(w), alphabet) && Matches(Filled(w), Tokens(w))
    decreases |w|
  {
    if w != "" {
      FilledMatches(w[1..], alphabet);
      assert Tokens(w)[1..] == Tokens(w[1..]);
      if w[0] != STAR { assert Filled(w)[1..] == Filled(w[1..]); }
    }
  }

  /** Some string over the alphabet matches a cleaned pattern exactly if every character of the pattern is a
      wildcard or in the alphabet. */
  lemma MatchableOver(pattern: string, alphabet: char -> bool)
    requires !alphabet(STAR) && !alphabet(QUESTION) && !alphabet(ESCAPE) && alphabet('0')
    ensures (exists s :: Over(s, alphabet) && Matches(s, Tokens(pattern)))
            <==> var w := CleanUp(pattern);
                 forall i :: 0 <= i < |w| ==> w[i] == STAR || w[i] == QUESTION || alphabet(w[i])
  {
    var w := CleanUp(pattern);
    CleanUpIsClean(pattern);
    if s :| Over(s, alphabet) && Matches(s, Tokens(pattern)) {
      CleanUpKeepsMeaning(s, pattern);
      MatchLimitsCharacters(s, w, alphabet);
    }
    if forall i :: 0 <= i < |w| ==> w[i] == STAR || w[i] == QUESTION || alphabet(w[i]) {
      FilledMatches(w, alphabet);
      CleanUpKeepsMeaning(Filled(w), pattern);
    }
  }

  /** The checks are exact: a cleaned, non-empty pattern passes exactly if it matches some string of the
      characters that integers, or floats, are written with. */
  lemma ChecksAreExact(pattern: string)
    requires CleanUp(pattern) != ""
    ensures WildcardCouldBeInteger(CleanUp(pattern))
            <==> exists s :: Over(s, IntegerChar) && Matches(s, Tokens(pattern))
    ensures WildcardCouldBeFloat(CleanUp(pattern))
            <==> exists s :: Over(s, FloatChar) && Matches(s, Tokens(pattern))
  {
    MatchableOver(pattern, IntegerChar);
    MatchableOver(pattern, FloatChar);
  }

  /** Cleaned patterns are needed: an escaped digit matches an integer but fails the check. */
  lemma UncleanedPatternMisses()
    ensures Matches("1", Tokens("\\1")) && IntegerVar.ConvertStringToIntegerVar("1").Some?
    ensures !WildcardCouldBeInteger("\\1")
  {
    assert "\\1"[2..] == "" && Tokens("\\1") == [Literal('1')];
    IntegerVar.ConvertOfIntText(1);
    assert IntegerVar.IntText(1) == "1";
    assert "\\1"[0] == ESCAPE;
  }
}
