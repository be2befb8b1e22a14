/** Which texts are variables (ir/parsing.cpp): numbers, words of letters, and messages made of them. */
module VariableText {
  import opened Decimal
  import opened DictionaryIds
  import opened Logtype
  import opened Message
  import opened Parsing
  import opened Sequences
  import opened VariableEntries
  import opened Words
  import FloatVar
  import IntegerVar

  /** Letters, digits and "+-.\_" make up words; every other character separates them. */
  predicate IsWordChar(c: char) {
    IsAlphabet(c) || IsDigit(c) || c in "+-.\\_"
  }

  predicate IsWord(w: string) {
    w != "" && forall i :: 0 <= i < |w| ==> IsWordChar(w[i])
  }

  predicate HasDigit(w: string) {
    exists i :: 0 <= i < |w| && IsDigit(w[i])
  }

  predicate HasLetter(w: string) {
    exists i :: 0 <= i < |w| && IsAlphabet(w[i])
  }

  predicate IsLetters(w: string) {
    w != "" && forall i :: 0 <= i < |w| ==> IsAlphabet(w[i])
  }

  /** Two or more characters, each a digit or a letter from A to F in either case. */
  predicate IsHex(w: string) {
    |w| >= 2 && forall i :: 0 <= i < |w| ==> w[i] in "0123456789ABCDEFabcdef"
  }

  /** A text that is empty or begins with a separator: what may follow a word. */
  predicate BeginsApart(text: string) {
    text == "" || !IsWordChar(text[0])
  }

  // ---- Messages split at separators -----------------------------------------------------------

  lemma SeparatorsAre(c: char)
    ensures IsDelim(c) <==> !IsWordChar(c)
  {
  }

  /** What makes a token a variable depends on its text and on whether '=' comes before it. */
  lemma SchemaIs(s: string, b: nat, e: nat)
    requires b <= e <= |s|
    ensures MatchesVariableSchema(s, b, e)
            <==> HasDigit(s[b..e]) || (0 < b && s[b - 1] == '=' && HasLetter(s[b..e]))
                 || CouldBeMultiDigitHexValue(s[b..e])
  {
    var w := s[b..e];
    assert forall i :: b <= i < e ==> w[i - b] == s[i];
    assert forall i :: 0 <= i < |w| ==> w[i] == s[b + i];
  }

  /** No token reaches over a separator, so one that begins before it is one in the text up to it. */
  lemma TokenBefore(x: string, y: string, from: nat, b: nat, e: nat)
    requires y != "" && IsDelim(y[0]) && b < |x|
    ensures IsToken(x + y, from, b, e) <==> IsToken(x, from, b, e)
  {
    var s := x + y;
    assert s[|x|] == y[0];
    assert forall i :: 0 <= i < |x| ==> s[i] == x[i];
    if IsToken(s, from, b, e) { assert e <= |x|; }
  }

  lemma VariableBefore(x: string, y: string, from: nat, b: nat, e: nat)
    requires y != "" && IsDelim(y[0]) && b < |x|
    ensures IsVariable(x + y, from, b, e) <==> IsVariable(x, from, b, e)
  {
    TokenBefore(x, y, from, b, e);
    if IsToken(x, from, b, e) {
      SchemaIs(x + y, b, e);
      SchemaIs(x, b, e);
      assert (x + y)[b..e] == x[b..e];
    }
  }

  lemma TokenAfter(x: string, y: string, from: nat, b: nat, e: nat)
    requires y != "" && IsDelim(y[0]) && from <= b
    ensures IsToken(x + y, |x| + from, |x| + b, |x| + e) <==> IsToken(y, from, b, e)
  {
    var s := x + y;
    assert forall i :: 0 <= i < |y| ==> s[|x| + i] == y[i];
    assert forall i :: |x| <= i < |s| ==> s[i] == y[i - |x|];
  }

  lemma VariableAfter(x: string, y: string, from: nat, b: nat, e: nat)
    requires y != "" && IsDelim(y[0]) && from <= b
    ensures IsVariable(x + y, |x| + from, |x| + b, |x| + e) <==> IsVariable(y, from, b, e)
  {
    TokenAfter(x, y, from, b, e);
    if IsToken(y, from, b, e) {
      SchemaIs(x + y, |x| + b, |x| + e);
      SchemaIs(y, b, e);
      assert (x + y)[|x| + b..|x| + e] == y[b..e];
    }
  }

  lemma FirstBefore(x: string, y: string, from: nat, b: nat, e: nat)
    requires y != "" && IsDelim(y[0]) && IsFirst(x, from, b, e)
    ensures IsFirst(x + y, from, b, e)
  {
    VariableBefore(x, y, from, b, e);
    forall b': nat, e': nat | b' < b ensures !IsVariable(x + y, from, b', e') {
      VariableBefore(x, y, from, b', e');
    }
  }

  lemma FirstAfter(x: string, y: string, from: nat, b: nat, e: nat)
    requires y != "" && IsDelim(y[0]) && from <= b
    ensures IsFirst(x + y, |x| + from, |x| + b, |x| + e) <==> IsFirst(y, from, b, e)
  {
    VariableAfter(x, y, from, b, e);
    if IsFirst(y, from, b, e) {
      var start := |x| + from;
      forall b': nat, e': nat | b' < |x| + b ensures !IsVariable(x + y, start, b', e') {
        if start <= b' <= e' { VariableAfter(x, y, from, b' - |x|, e' - |x|); }
      }
    }
    if IsFirst(x + y, |x| + from, |x| + b, |x| + e) {
      forall b': nat, e': nat | b' < b ensures !IsVariable(y, from, b', e') {
        if from <= b' { VariableAfter(x, y, from, b', e'); }
      }
    }
  }

  lemma FirstVariableIs(s: string, from: nat, b: nat, e: nat, w: string)
    requires IsFirst(s, from, b, e) && s[b..e] == w
    ensures VariablesFrom(s, from) == [w] + VariablesFrom(s, e)
  {
    FirstVariable(s, from, b, e);
  }

  lemma NoFirst(s: string, from: nat)
    requires forall b: nat, e: nat :: !IsFirst(s, from, b, e)
    ensures VariablesFrom(s, from) == []
  {
  }

  lemma NoFirstAfter(x: string, y: string, from: nat, b: nat, e: nat)
    requires y != "" && IsDelim(y[0])
    requires IsFirst(x + y, |x| + from, b, e)
    ensures |x| + from <= b <= e && IsFirst(y, from, b - |x|, e - |x|)
  {
    FirstAfter(x, y, from, b - |x|, e - |x|);
  }

  lemma NoneAfter(x: string, y: string, from: nat, start: nat)
    requires y != "" && IsDelim(y[0]) && start == |x| + from
    requires forall b: nat, e: nat :: !IsFirst(y, from, b, e)
    ensures forall b: nat, e: nat :: !IsFirst(x + y, start, b, e)
  {
    forall b: nat, e: nat ensures !IsFirst(x + y, start, b, e) {
      if IsFirst(x + y, start, b, e) { NoFirstAfter(x, y, from, b, e); }
    }
  }

  lemma NoVariablesAfter(x: string, y: string, from: nat)
    requires y != "" && IsDelim(y[0])
    requires forall b: nat, e: nat :: !IsFirst(y, from, b, e)
    ensures VariablesFrom(x + y, |x| + from) == VariablesFrom(y, from)
  {
    var start := |x| + from;
    NoneAfter(x, y, from, start);
    NoFirst(x + y, start);
    NoFirst(y, from);
  }

  lemma VariableComesFirst(x: string, y: string, s: string, from: nat, b: nat, e: nat)
    requires y != "" && IsDelim(y[0]) && IsFirst(y, from, b, e) && s == x + y
    ensures IsFirst(s, |x| + from, |x| + b, |x| + e) && s[|x| + b..|x| + e] == y[b..e]
  {
    FirstAfter(x, y, from, b, e);
    SliceOfSecond(x, y, b, e);
  }

  lemma NextAfter(x: string, y: string, s: string, from: nat, b: nat, e: nat)
    requires y != "" && IsDelim(y[0]) && IsFirst(y, from, b, e) && s == x + y
    ensures VariablesFrom(s, |x| + from) == [y[b..e]] + VariablesFrom(s, |x| + e)
  {
    VariableComesFirst(x, y, s, from, b, e);
    FirstVariableIs(s, |x| + from, |x| + b, |x| + e, y[b..e]);
  }

  /** The variables after a separator do not depend on the text before it. */
  lemma {:induction false} VariablesAfter(x: string, y: string, from: nat)
    requires y != "" && IsDelim(y[0])
    ensures VariablesFrom(x + y, |x| + from) == VariablesFrom(y, from)
    decreases if from <= |y| then |y| - from else 0
  {
    if b: nat, e: nat :| IsFirst(y, from, b, e) {
      VariablesAfter(x, y, e);
      NextAfter(x, y, x + y, from, b, e);
      FirstVariable(y, from, b, e);
    } else {
      NoVariablesAfter(x, y, from);
    }
  }

  /** Past the last variable of x, the first of x + y is the first after the separator. */
  lemma FirstPast(x: string, y: string, from: nat, b: nat, e: nat)
    requires y != "" && IsDelim(y[0]) && from <= |x| && NoVariableBefore(x, from, |x|)
    ensures IsVariable(x + y, from, b, e) <==> IsVariable(x + y, |x|, b, e)
  {
    if b < |x| {
      VariableBefore(x, y, from, b, e);
    } else {
      assert (x + y)[|x|] == y[0];
    }
  }

  lemma SameFirstPast(x: string, y: string, from: nat)
    requires y != "" && IsDelim(y[0]) && from <= |x| && NoVariableBefore(x, from, |x|)
    ensures forall b: nat, e: nat :: IsFirst(x + y, from, b, e) <==> IsFirst(x + y, |x|, b, e)
  {
    forall b: nat, e: nat { FirstPast(x, y, from, b, e); }
  }

  lemma NoneLeft(x: string, y: string, from: nat)
    requires y != "" && IsDelim(y[0]) && from <= |x| && NoVariableBefore(x, from, |x|)
    ensures VariablesFrom(x + y, from) == VariablesFrom(x + y, |x|)
  {
    SameFirstPast(x, y, from);
    if b: nat, e: nat :| IsFirst(x + y, from, b, e) {
      FirstVariable(x + y, from, b, e);
      FirstVariable(x + y, |x|, b, e);
    } else {
      NoFirst(x + y, from);
      NoFirst(x + y, |x|);
    }
  }

  /** There is a first variable or none at all. */
  lemma {:induction false} FirstOrNone(s: string, from: nat, limit: nat)
    ensures NoVariableBefore(s, from, limit) || exists b: nat, e: nat :: IsFirst(s, from, b, e)
  {
    if limit != 0 {
      var b := limit - 1;
      FirstOrNone(s, from, b);
      if e: nat :| NoVariableBefore(s, from, b) && IsVariable(s, from, b, e) { assert IsFirst(s, from, b, e); }
    }
  }

  lemma NextBefore(x: string, y: string, s: string, from: nat, b: nat, e: nat)
    requires y != "" && IsDelim(y[0]) && IsFirst(x, from, b, e) && s == x + y
    ensures VariablesFrom(s, from) == [x[b..e]] + VariablesFrom(s, e)
  {
    FirstBefore(x, y, from, b, e);
    FirstVariableIs(s, from, b, e, x[b..e]);
  }

  lemma NoVariablesBefore(x: string, y: string, from: nat)
    requires y != "" && IsDelim(y[0]) && from <= |x| && NoVariableBefore(x, from, |x|)
    ensures VariablesFrom(x, from) == [] && VariablesFrom(x + y, from) == VariablesOf(y)
  {
    NoVariables(x, from);
    NoneLeft(x, y, from);
    VariablesAfter(x, y, 0);
  }

  lemma {:induction false} VariablesFromSplit(x: string, y: string, from: nat)
    requires y != "" && IsDelim(y[0]) && from <= |x|
    ensures VariablesFrom(x + y, from) == VariablesFrom(x, from) + VariablesOf(y)
    decreases |x| - from
  {
    FirstOrNone(x, from, |x|);
    if b: nat, e: nat :| IsFirst(x, from, b, e) {
      VariablesFromSplit(x, y, e);
      NextBefore(x, y, x + y, from, b, e);
      FirstVariable(x, from, b, e);
      Associative([x[b..e]], VariablesFrom(x, e), VariablesOf(y));
    } else {
      NoVariablesBefore(x, y, from);
    }
  }

  /** A message's variables are those before a separator and those from it on. */
  lemma VariablesSplit(x: string, y: string)
    requires BeginsApart(y)
    ensures VariablesOf(x + y) == VariablesOf(x) + VariablesOf(y)
  {
    if y == "" {
      assert x + y == x;
      NoVariables(y, 0);
    } else {
      SeparatorsAre(y[0]);
      VariablesFromSplit(x, y, 0);
    }
  }

  // ---- Single words ---------------------------------------------------------------------------

  lemma HexDigitsAre(c: char)
    ensures IsHexDigit(c) <==> c in "0123456789ABCDEFabcdef"
  {
  }

  lemma HexIs(w: string)
    ensures CouldBeMultiDigitHexValue(w) <==> IsHex(w)
  {
    forall i | 0 <= i < |w| ensures IsHexDigit(w[i]) <==> w[i] in "0123456789ABCDEFabcdef" {
      HexDigitsAre(w[i]);
    }
  }

  /** Whether a word is a variable, given what comes directly before it. */
  predicate IsVariableWord(before: string, w: string) {
    HasDigit(w) || (before == "=" && HasLetter(w)) || IsHex(w)
  }

  /** A word, alone or after one separator, is the only token. */
  lemma OnlyToken(before: string, w: string, s: string, b: nat, e: nat)
    requires |before| <= 1 && BeginsApart(before) && IsWord(w) && s == before + w
    ensures IsToken(s, 0, b, e) <==> b == |before| && e == |s|
  {
    assert forall i :: |before| <= i < |s| ==> s[i] == w[i - |before|];
    if before != "" { assert s[0] == before[0]; }
    assert !IsDelim(s[|before|]);
    if IsToken(s, 0, b, e) { assert b != 0 ==> IsDelim(s[b - 1]); }
  }

  lemma OnlyVariable(before: string, w: string, s: string, b: nat, e: nat)
    requires |before| <= 1 && BeginsApart(before) && IsWord(w) && s == before + w
    ensures IsVariable(s, 0, b, e) <==> b == |before| && e == |s| && IsVariableWord(before, w)
  {
    OnlyToken(before, w, s, b, e);
    if IsToken(s, 0, b, e) {
      SchemaIs(s, b, e);
      HexIs(w);
      assert s[b..e] == w;
    }
  }

  lemma {:induction false} WordAfter(before: string, w: string)
    requires |before| <= 1 && BeginsApart(before) && IsWord(w)
    ensures VariablesOf(before + w) == if IsVariableWord(before, w) then [w] else []
  {
    var s := before + w;
    forall b: nat, e: nat { OnlyVariable(before, w, s, b, e); }
    if IsVariableWord(before, w) {
      FirstVariableIs(s, 0, |before|, |s|, w);
      NoVariables(s, |s|);
    } else {
      NoVariables(s, 0);
    }
  }

  /** A word between separators is a variable of its message exactly if it holds a digit, comes directly
      after '=' and holds a letter, or reads as a hexadecimal number of two or more digits. */
  lemma WordInMessage(x: string, c: char, w: string, y: string)
    requires !IsWordChar(c) && IsWord(w) && BeginsApart(y)
    ensures VariablesOf(x + ([c] + w) + y)
            == VariablesOf(x) + (if IsVariableWord([c], w) then [w] else []) + VariablesOf(y)
  {
    VariablesSplit(x + ([c] + w), y);
    VariablesSplit(x, [c] + w);
    WordAfter([c], w);
  }

  /** A word of letters is a variable directly after '='; after any other separator it is one only if it
      reads as a hexadecimal number of two or more digits. */
  lemma LettersInMessage(x: string, c: char, w: string, y: string)
    requires !IsWordChar(c) && IsLetters(w) && BeginsApart(y)
    ensures VariablesOf(x + ([c] + w) + y)
            == VariablesOf(x) + (if c == '=' || IsHex(w) then [w] else []) + VariablesOf(y)
  {
    assert IsAlphabet(w[0]);
    WordInMessage(x, c, w, y);
  }

  // ---- Numbers --------------------------------------------------------------------------------

  lemma WordAlone(w: string)
    requires IsWord(w) && HasDigit(w)
    ensures IsVariable(w, 0, 0, |w|) && VariablesOf(w) == [w]
  {
    assert "" + w == w;
    OnlyVariable("", w, w, 0, |w|);
    WordAfter("", w);
  }

  /** The text of every integer is one variable. */
  lemma IntegerIsVariable(n: int)
    ensures var v := IntegerVar.IntText(n); IsVariable(v, 0, 0, |v|) && VariablesOf(v) == [v]
  {
    var v := IntegerVar.IntText(n);
    assert IsDigit(v[|v| - 1]);
    WordAlone(v);
  }

  /** The text of every float is one variable: neither its sign nor its point ends a token. */
  lemma FloatIsVariable(v: string)
    requires FloatVar.IsFloatText(v)
    ensures IsVariable(v, 0, 0, |v|) && VariablesOf(v) == [v]
  {
    assert IsDigit(v[|v| - 1]);
    WordAlone(v);
  }

  lemma FloatIsNoInteger(v: string)
    requires FloatVar.IsFloatText(v)
    ensures IntegerVar.ConvertStringToIntegerVar(v).None?
  {
    var p: nat :| FloatVar.HasPointAt(v, p);
    assert !IsDigit(v[p]);
  }

  /** A message that is one variable is stored as its placeholder alone. */
  lemma LoneVariable(v: string)
    requires IsVariable(v, 0, 0, |v|)
    ensures LogtypeOf(v) == EMPTY.AddPlaceholder(PlaceholderOf(Classify(v)))
  {
    var placeholder := EMPTY.AddPlaceholder(PlaceholderOf(Classify(v)));
    LogtypeNext(EMPTY, v, 0, 0, |v|);
    TakeAll(v);
    LogtypeEnds(placeholder, v, |v|);
  }

  lemma NumberLooksUpNothing(c: char, n: int)
    requires c == INTEGER_PLACEHOLDER || c == FLOAT_PLACEHOLDER
    requires IsInt64(n)
    ensures var l := EMPTY.AddPlaceholder(c);
            l.WellFormed() && NumVariables(l, 1) == 1 && AllLookedUp(l, [n]) == []
  {
    var l := EMPTY.AddPlaceholder(c);
    assert l == Logtype([c], [0], 0);
    assert LookedUp(l, [n], 0) == [];
  }

  /** What is stored for a message that is a number: its placeholder and its value, and no entry. */
  lemma NumberIsStored(v: string, vars: seq<int>, dict: seq<string>)
    requires !Classify(v).DictionaryKind? && IsVariable(v, 0, 0, |v|) && VariablesOf(v) == [v]
    requires AllInt64(vars) && StandFor(vars, VariablesOf(v), dict)
    ensures vars == [Classify(v).value] && LogtypeOf(v) == Logtype([PlaceholderOf(Classify(v))], [0], 0)
    ensures LogtypeOf(v).WellFormed() && NumVariables(LogtypeOf(v), 1) == 1 && AllLookedUp(LogtypeOf(v), vars) == []
  {
    LoneVariable(v);
    assert StandsFor(vars[0], VariablesOf(v)[0], dict);
    NumberLooksUpNothing(PlaceholderOf(Classify(v)), vars[0]);
  }
}
