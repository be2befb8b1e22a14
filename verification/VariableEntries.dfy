/** The variables of a message and the dictionary entries they make (EncodedVariableInterpreter.hpp,
    VariableDictionaryWriter.cpp). */
module VariableEntries {
  import opened Sequences
  import opened Logtype
  import opened Message
  import opened Parsing
  import opened Words

  // ---- The variables of messages --------------------------------------------------------------

  ghost predicate IsFirst(message: string, from: nat, begin: nat, end: nat) {
    IsVariable(message, from, begin, end) && NoVariableBefore(message, from, begin)
  }

  lemma FirstIsUnique(message: string, from: nat, b: nat, e: nat, b': nat, e': nat)
    requires IsFirst(message, from, b, e) && IsFirst(message, from, b', e')
    ensures b == b' && e == e'
  {
    TokenEndUnique(message, from, b, e, e');
  }

  /** The variables of a message from an index on, in order. */
  ghost function VariablesFrom(message: string, from: nat): seq<string>
    decreases if from < |message| then |message| - from else 0
  {
    if exists begin: nat, end: nat :: IsFirst(message, from, begin, end)
    then
      var begin: nat, end: nat :| IsFirst(message, from, begin, end);
      [message[begin..end]] + VariablesFrom(message, end)
    else []
  }

  lemma FirstVariable(message: string, from: nat, begin: nat, end: nat)
    requires IsFirst(message, from, begin, end)
    ensures VariablesFrom(message, from) == [message[begin..end]] + VariablesFrom(message, end)
  {
    var b: nat, e: nat :| IsFirst(message, from, b, e)
      && VariablesFrom(message, from) == [message[b..e]] + VariablesFrom(message, e);
    FirstIsUnique(message, from, begin, end, b, e);
  }

  lemma NoVariables(message: string, from: nat)
    requires NoVariableBefore(message, from, |message|)
    ensures VariablesFrom(message, from) == []
  {
  }

  ghost function VariablesOf(message: string): seq<string> {
    VariablesFrom(message, 0)
  }

  /** The variables of several messages, in order. */
  ghost function AllVariables(messages: seq<string>): seq<string>
    decreases |messages|
  {
    if messages == [] then []
    else AllVariables(messages[..|messages| - 1]) + VariablesOf(messages[|messages| - 1])
  }

  // ---- What is stored for a message -----------------------------------------------------------

  /** The logtype of a message from an index on, appended to l: its text outside variables, escaped, and a
      placeholder of the right kind for each variable. */
  ghost function LogtypeFrom(l: Logtype, message: string, from: nat): Logtype
    requires from <= |message|
    decreases |message| - from
  {
    if exists begin: nat, end: nat :: IsFirst(message, from, begin, end)
    then
      var begin: nat, end: nat :| IsFirst(message, from, begin, end);
      var kind := Classify(message[begin..end]);
      LogtypeFrom(l.AddStaticText(message[from..begin]).AddPlaceholder(PlaceholderOf(kind)), message, end)
    else l.AddStaticText(message[from..])
  }

  lemma LogtypeNext(l: Logtype, message: string, from: nat, begin: nat, end: nat)
    requires IsFirst(message, from, begin, end)
    ensures LogtypeFrom(l, message, from)
            == LogtypeFrom(l.AddStaticText(message[from..begin])
                            .AddPlaceholder(PlaceholderOf(Classify(message[begin..end]))), message, end)
  {
    forall b: nat, e: nat | IsFirst(message, from, b, e) ensures b == begin && e == end {
      FirstIsUnique(message, from, begin, end, b, e);
    }
  }

  lemma LogtypeEnds(l: Logtype, message: string, from: nat)
    requires from <= |message| && NoVariableBefore(message, from, |message|)
    ensures LogtypeFrom(l, message, from) == l.AddStaticText(message[from..])
  {
  }

  ghost function LogtypeOf(message: string): Logtype {
    LogtypeFrom(EMPTY, message, 0)
  }

  /** An encoded variable: a number's own encoding, or the ID under which the dictionary holds the text. */
  ghost predicate StandsFor(n: int, v: string, dict: seq<string>) {
    if Classify(v).DictionaryKind? then IsInt64(n) && Int64ToWord(n) < |dict| && dict[Int64ToWord(n)] == v
    else n == Classify(v).value
  }

  ghost predicate StandFor(vars: seq<int>, values: seq<string>, dict: seq<string>) {
    |vars| == |values| && forall i :: 0 <= i < |vars| ==> StandsFor(vars[i], values[i], dict)
  }

  /** One more encoded variable, and perhaps one more entry. */
  lemma StandForNext(vars: seq<int>, values: seq<string>, dict: seq<string>, n: int, v: string, dict': seq<string>)
    requires StandFor(vars, values, dict) && dict <= dict' && StandsFor(n, v, dict')
    ensures StandFor(vars + [n], values + [v], dict')
  {
    forall i | 0 <= i < |vars| ensures StandsFor(vars[i], values[i], dict') {
      assert StandsFor(vars[i], values[i], dict);
    }
  }

  // ---- The entries they make ------------------------------------------------------------------

  ghost predicate Distinct(entries: seq<string>) {
    forall i, j :: 0 <= i < j < |entries| ==> entries[i] != entries[j]
  }

  /** Only strings that are neither integers nor floats were added. */
  ghost predicate AllDictionaryKind(entries: seq<string>) {
    forall i :: 0 <= i < |entries| ==> Classify(entries[i]).DictionaryKind?
  }

  /** A variable makes an entry if it is neither a number nor already there. */
  ghost function WithEntry(entries: seq<string>, v: string): seq<string> {
    if Classify(v).DictionaryKind? && v !in entries then entries + [v] else entries
  }

  ghost function Entries(entries: seq<string>, vars: seq<string>): seq<string>
    decreases |vars|
  {
    if vars == [] then entries else Entries(WithEntry(entries, vars[0]), vars[1..])
  }

  /** Entries are only added, each once. */
  lemma {:induction false} EntriesGrow(entries: seq<string>, vars: seq<string>)
    ensures entries <= Entries(entries, vars)
    ensures Distinct(entries) ==> Distinct(Entries(entries, vars))
    ensures AllDictionaryKind(entries) ==> AllDictionaryKind(Entries(entries, vars))
    decreases |vars|
  {
    if vars != [] { EntriesGrow(WithEntry(entries, vars[0]), vars[1..]); }
  }

  /** A string is an entry exactly if it was one or is a dictionary variable among those added. */
  lemma {:induction false} EntriesAre(entries: seq<string>, vars: seq<string>, v: string)
    ensures v in Entries(entries, vars) <==> v in entries || (v in vars && Classify(v).DictionaryKind?)
    decreases |vars|
  {
    if vars != [] {
      EntriesAre(WithEntry(entries, vars[0]), vars[1..], v);
      assert v in vars <==> v == vars[0] || v in vars[1..];
    }
  }

  lemma {:induction false} EntriesTogether(entries: seq<string>, a: seq<string>, b: seq<string>)
    ensures Entries(entries, a + b) == Entries(Entries(entries, a), b)
    decreases |a|
  {
    if a == [] {
      NothingAdded(b);
    } else {
      DropFirst(a, b);
      EntriesTogether(WithEntry(entries, a[0]), a[1..], b);
    }
  }

  /** The next variable and those after it. */
  lemma EntriesNext(entries: seq<string>, v: string, vars: seq<string>)
    ensures Entries(entries, [v] + vars) == Entries(WithEntry(entries, v), vars)
  {
    assert ([v] + vars)[1..] == vars;
  }

  /** A new variable after the first n entries makes more than n. */
  lemma NoRoomLeft(entries: seq<string>, v: string, vars: seq<string>)
    requires Classify(v).DictionaryKind? && v !in entries
    ensures entries <= Entries(entries, [v] + vars) && |Entries(entries, [v] + vars)| > |entries|
  {
    EntriesNext(entries, v, vars);
    EntriesGrow(WithEntry(entries, v), vars);
  }
}
