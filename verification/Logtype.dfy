/** Logtypes: the constant text of a message with placeholders where its variables were
    (LogTypeDictionaryEntry.cpp, ir/parsing.inc). */
module Logtype {
  import opened Sequences

  const INTEGER_PLACEHOLDER: char := '\U{11}'
  const DICTIONARY_PLACEHOLDER: char := '\U{12}'
  const FLOAT_PLACEHOLDER: char := '\U{13}'
  const ESCAPE: char := '\\'

  predicate IsVariablePlaceholder(c: char) {
    c == INTEGER_PLACEHOLDER || c == DICTIONARY_PLACEHOLDER || c == FLOAT_PLACEHOLDER
  }

  predicate NeedsEscape(c: char) {
    c == ESCAPE || IsVariablePlaceholder(c)
  }

  /** A logtype entry: its text, the positions of the placeholders and escapes in it, and how many
      of those are escapes. */
  datatype Logtype = Logtype(value: string, positions: seq<nat>, numEscaped: nat) {
    /** Placeholder positions ascend strictly and lie in the text. */
    ghost predicate WellFormed() {
      && (forall i :: 0 <= i < |positions| ==> positions[i] < |value|)
      && (forall i, j :: 0 <= i < j < |positions| ==> positions[i] < positions[j])
    }

    function AddConstant(text: string): Logtype {
      this.(value := value + text)
    }

    /** Appends a variable placeholder and records where it is. */
    function AddPlaceholder(c: char): Logtype {
      this.(value := value + [c], positions := positions + [|value|])
    }

    function AddEscape(): Logtype {
      AddPlaceholder(ESCAPE).(numEscaped := numEscaped + 1)
    }

    /** Appends constant text, with an escape before every character that reads as a placeholder. */
    function AddStaticText(text: string): (r: Logtype)
      decreases |text|
    {
      if text == "" then this
      else
        var l := AddStaticText(text[..|text| - 1]);
        var c := text[|text| - 1];
        (if NeedsEscape(c) then l.AddEscape() else l).AddConstant([c])
    }

    /** Where the text after the first k placeholders begins. */
    function ConstantBegin(k: nat): nat
      requires k <= |positions|
    {
      if k == 0 then 0 else positions[k - 1] + 1
    }
  }

  /** How many of the first k placeholders are not escapes. */
  function NumVariables(l: Logtype, k: nat): (n: nat)
    requires l.WellFormed() && k <= |l.positions|
    ensures n <= k
  {
    if k == 0 then 0
    else NumVariables(l, k - 1) + (if l.value[l.positions[k - 1]] == ESCAPE then 0 else 1)
  }

  /** The recorded number of escapes is right. */
  ghost predicate CountsMatch(l: Logtype) {
    l.WellFormed() && |l.positions| - NumVariables(l, |l.positions|) == l.numEscaped
  }

  const EMPTY: Logtype := Logtype("", [], 0)

  /** What reading back a stored logtype gives: the entry, and whether an escape is pending. */
  function Scan(stored: string): (r: (Logtype, bool))
    ensures r.0.value == stored
    ensures r.0.WellFormed()
    decreases |stored|
  {
    if stored == "" then (EMPTY, false)
    else
      var (l, escaped) := Scan(stored[..|stored| - 1]);
      var c := stored[|stored| - 1];
      if escaped then (l.AddConstant([c]), false)
      else if c == ESCAPE then (l.AddEscape(), true)
      else if IsVariablePlaceholder(c) then (l.AddPlaceholder(c), false)
      else (l.AddConstant([c]), false)
  }

  lemma {:induction false} NumVariablesExtends(l: Logtype, m: Logtype, k: nat)
    requires l.WellFormed() && m.WellFormed() && k <= |l.positions|
    requires l.value <= m.value && l.positions <= m.positions
    ensures NumVariables(m, k) == NumVariables(l, k)
    decreases k
  {
    if k != 0 { NumVariablesExtends(l, m, k - 1); }
  }

  /** Every logtype read from storage counts its escapes correctly. */
  lemma {:induction false} ScanCounts(stored: string)
    ensures CountsMatch(Scan(stored).0)
    decreases |stored|
  {
    if stored != "" {
      var front := Scan(stored[..|stored| - 1]).0;
      ScanCounts(stored[..|stored| - 1]);
      NumVariablesExtends(front, Scan(stored).0, |front.positions|);
    }
  }

  /** The entry is exactly what reading its stored text back gives. */
  ghost predicate Scanned(l: Logtype) {
    Scan(l.value) == (l, false)
  }

  lemma ConstantsJoin(l: Logtype, a: string, b: string)
    ensures l.AddConstant(a).AddConstant(b) == l.AddConstant(a + b)
    ensures l.AddConstant("") == l
  {
    assert l.value + a + b == l.value + (a + b);
    assert l.value + "" == l.value;
  }

  lemma ScanSnoc(s: string, c: char)
    ensures var (l, escaped) := Scan(s);
            Scan(s + [c]) ==
              if escaped then (l.AddConstant([c]), false)
              else if c == ESCAPE then (l.AddEscape(), true)
              else if IsVariablePlaceholder(c) then (l.AddPlaceholder(c), false)
              else (l.AddConstant([c]), false)
  {
    assert (s + [c])[..|s|] == s;
  }

  lemma PlaceholderKeepsScanned(l: Logtype, c: char)
    requires Scanned(l) && IsVariablePlaceholder(c)
    ensures Scanned(l.AddPlaceholder(c))
  {
    ScanSnoc(l.value, c);
  }

  /** Escaped constant text is read back as it was written, whatever characters it holds. */
  lemma {:induction false} StaticTextKeepsScanned(l: Logtype, text: string)
    requires Scanned(l)
    ensures Scanned(l.AddStaticText(text))
    decreases |text|
  {
    if text != "" {
      StaticTextKeepsScanned(l, text[..|text| - 1]);
      var m := l.AddStaticText(text[..|text| - 1]);
      var c := text[|text| - 1];
      if NeedsEscape(c) {
        ScanSnoc(m.value, ESCAPE);
        ScanSnoc(m.value + [ESCAPE], c);
      } else {
        ScanSnoc(m.value, c);
      }
    }
  }

  lemma StaticTextNext(l: Logtype, text: string, i: nat)
    requires i < |text|
    ensures var m := l.AddStaticText(text[..i]);
            l.AddStaticText(text[..i + 1])
            == (if NeedsEscape(text[i]) then m.AddEscape() else m).AddConstant([text[i]])
  {
    TakeNext(text, i);
  }

  lemma ConstantGrows(l: Logtype, text: string, i: nat, j: nat)
    requires i <= j < |text|
    ensures l.AddConstant(text[i..j + 1]) == l.AddConstant(text[i..j]).AddConstant([text[j]])
  {
    SliceNext(text, i, j);
    ConstantsJoin(l, text[i..j], [text[j]]);
  }

  /** A logtype dictionary entry under construction. */
  class LogTypeDictionaryEntry {
    var value: string
    var placeholderPositions: seq<nat>
    var numEscapedPlaceholders: nat

    constructor ()
      ensures View() == EMPTY
    {
      value, placeholderPositions, numEscapedPlaceholders := "", [], 0;
    }

    ghost function View(): Logtype
      reads this
    {
      Logtype(value, placeholderPositions, numEscapedPlaceholders)
    }

    method Clear()
      modifies this
      ensures View() == EMPTY
    {
      value, placeholderPositions, numEscapedPlaceholders := "", [], 0;
    }

    method AddConstant(text: string)
      modifies this
      ensures View() == old(View()).AddConstant(text)
    {
      value := value + text;
    }

    method AddPlaceholder(c: char)
      modifies this
      ensures View() == old(View()).AddPlaceholder(c)
    {
      placeholderPositions := placeholderPositions + [|value|];
      value := value + [c];
    }

    method AddEscape()
      modifies this
      ensures View() == old(View()).AddEscape()
    {
      AddPlaceholder(ESCAPE);
      numEscapedPlaceholders := numEscapedPlaceholders + 1;
    }

    /** Appends constant text in runs, breaking before each character to escape. */
    method AddStaticText(text: string)
      modifies this
      ensures View() == old(View()).AddStaticText(text)
    {
      ghost var start := View();
      var beginPos := 0;
      var i := 0;
      while i < |text|
        invariant 0 <= beginPos <= i <= |text|
        invariant View().AddConstant(text[beginPos..i]) == start.AddStaticText(text[..i])
      {
        var c := text[i];
        StaticTextNext(start, text, i);
        if NeedsEscape(c) {
          AddConstant(text[beginPos..i]);
          beginPos := i;
          AddEscape();
          assert text[beginPos..i + 1] == [c];
        } else {
          ConstantGrows(View(), text, beginPos, i);
        }
        i := i + 1;
      }
      AddConstant(text[beginPos..]);
      assert text[..|text|] == text && text[beginPos..|text|] == text[beginPos..];
    }

    /** Flushes pending constant text, then appends a placeholder or an escape. */
    method FlushThen(constant: string, c: char)
      requires c == ESCAPE || IsVariablePlaceholder(c)
      modifies this
      ensures View() == (if c == ESCAPE then old(View()).AddConstant(constant).AddEscape()
                         else old(View()).AddConstant(constant).AddPlaceholder(c))
    {
      AddConstant(constant);
      if c == ESCAPE { AddEscape(); } else { AddPlaceholder(c); }
    }

    /** Rebuilds an entry from its stored text. */
    method ReadFrom(stored: string)
      modifies this
      ensures View() == Scan(stored).0
    {
      Clear();
      var isEscaped := false;
      var constant := "";
      var i := 0;
      ConstantsJoin(View(), "", "");
      assert stored[..0] == "";
      while i < |stored|
        invariant 0 <= i <= |stored|
        invariant (View().AddConstant(constant), isEscaped) == Scan(stored[..i])
      {
        var c := stored[i];
        TakeNext(stored, i);
        ScanSnoc(stored[..i], c);
        if isEscaped || (c != ESCAPE && !IsVariablePlaceholder(c)) {
          ConstantsJoin(View(), constant, [c]);
          constant := constant + [c];
          isEscaped := false;
        } else {
          FlushThen(constant, c);
          ConstantsJoin(View(), "", "");
          constant := "";
          isEscaped := c == ESCAPE;
        }
        i := i + 1;
      }
      TakeAll(stored);
      if constant != "" { AddConstant(constant); }
    }
  }
}
